/**
 * Opcodes and the append-only bytecode buffer of the rlox front end
 * (src/chunk.rs).
 */
module Chunks {
  import opened Options

  /** An unsigned 8-bit byte, Rust's `u8`. */
  newtype u8 = x: int | 0 <= x < 256

  /** The declared operations. Only the first two are reachable by decoding. */
  datatype OpCode = OpRETURN | OpADD | OpSUBTRACT

  /** The discriminant each variant is declared with. */
  function Discriminant(op: OpCode): (b: u8)
    ensures b < 3
  {
    match op
    case OpRETURN => 0
    case OpADD => 1
    case OpSUBTRACT => 2
  }

  /**
   * Decodes one byte. Total over all 256 byte values: bytes 0 and 1 give the
   * matching variant, every other byte (2, the discriminant of OpSUBTRACT,
   * included) gives None.
   */
  function FromU8(byte: u8): (r: Option<OpCode>)
    ensures r.Some? <==> byte == 0 || byte == 1
    ensures r.Some? ==> Discriminant(r.value) == byte && r.value != OpSUBTRACT
  {
    match byte
    case 0 => Some(OpRETURN)
    case 1 => Some(OpADD)
    case _ => None
  }

  /** No two variants share a discriminant. */
  lemma DiscriminantInjective(a: OpCode, b: OpCode)
    ensures Discriminant(a) == Discriminant(b) ==> a == b
  {
  }

  /**
   * Decoding a variant's discriminant gives the variant back, except for
   * OpSUBTRACT, whose discriminant is not mapped.
   */
  lemma DecodeDiscriminant(op: OpCode)
    ensures op != OpSUBTRACT ==> FromU8(Discriminant(op)) == Some(op)
    ensures op == OpSUBTRACT ==> FromU8(Discriminant(op)) == None
  {
  }

  /**
   * A growable byte buffer with a separate instruction counter that every
   * operation keeps equal to the length of `code`.
   */
  class Chunk {
    var count: nat
    var code: seq<u8>

    ghost predicate Valid()
      reads this
    {
      count == |code|
    }

    /** An empty chunk. */
    constructor ()
      ensures Valid()
      ensures count == 0 && code == []
    {
      count := 0;
      code := [];
    }

    /** Appends one byte; no check is made that it is an opcode. */
    method WriteChunk(byte: u8)
      requires Valid()
      modifies this
      ensures Valid()
      ensures code == old(code) + [byte]
      ensures count == old(count) + 1
    {
      code := code + [byte];
      count := count + 1;
    }
  }

  /** Writing 0x01 and then 0x02 to a new chunk leaves two bytes, in order. */
  method WriteTwoBytes() returns (count: nat, code: seq<u8>)
    ensures count == 2 && code == [0x01, 0x02]
  {
    var chunk := new Chunk();
    chunk.WriteChunk(0x01);
    chunk.WriteChunk(0x02);
    count, code := chunk.count, chunk.code;
  }
}
