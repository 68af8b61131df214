/**
 * The append-only value pool (src/value.rs). A value is a 64-bit float in the
 * source, but the pool only stores and fetches values, so the value type is
 * a type parameter here.
 */
module Values {
  import opened Options

  class ValueArray<Value> {
    var values: seq<Value>

    /** An empty pool. */
    constructor ()
      ensures values == []
      ensures Len() == 0 && IsEmpty()
    {
      values := [];
    }

    /** Appends `v`; every value already in the pool keeps its index. */
    method WriteValueArray(v: Value)
      modifies this
      ensures values == old(values) + [v]
      ensures Len() == old(Len()) + 1
      ensures Get(old(Len())) == Some(v)
      ensures forall i :: 0 <= i < old(Len()) ==> Get(i) == old(Get(i))
    {
      values := values + [v];
    }

    /** The number of values stored: exactly the indices below it hold a value. */
    function Len(): (n: nat)
      reads this
      ensures forall i: nat :: Get(i).Some? <==> i < n
    {
      |values|
    }

    /** Whether the pool holds no value. */
    function IsEmpty(): (b: bool)
      reads this
      ensures b <==> Len() == 0
      ensures b <==> values == []
    {
      |values| == 0
    }

    /** The value at `index`, or None when `index` is past the end. */
    function Get(index: nat): (r: Option<Value>)
      reads this
      ensures r.Some? <==> index < |values|
      ensures r.Some? ==> r.value == values[index]
    {
      if index < |values| then Some(values[index]) else None
    }
  }
}
