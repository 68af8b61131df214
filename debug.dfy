/**
 * The disassembler (src/debug.rs). What the source prints is modelled as a
 * trace of records: a header naming the chunk, then one record per byte
 * visited, tagged with its offset.
 */
module Debug {
  import opened Options
  import opened Chunks

  datatype Record =
    | Header(title: string)                    // "== name =="
    | Instruction(offset: nat, name: string)   // a decoded simple instruction
    | Unknown(offset: nat, byte: u8)           // "Unknown instruction <byte>"

  /** Emits the name of a simple instruction at `offset` and steps over its one byte. */
  function SimpleInstruction(name: string, offset: nat): (r: (Record, nat))
    ensures r.0.Instruction? && r.0.offset == offset && r.0.name == name
    ensures r.1 == offset + 1
  {
    (Instruction(offset, name), offset + 1)
  }

  /**
   * Decodes the byte at `offset` and gives its record and the next offset.
   * The byte is indexed without a check, so the offset must be in range.
   */
  function DisassembleInstruction(chunk: Chunk, offset: nat): (r: (Record, nat))
    reads chunk
    requires offset < |chunk.code|
    ensures r.1 == offset + 1
    ensures !r.0.Header? && r.0.offset == offset
    ensures chunk.code[offset] == 0 ==> r.0 == Instruction(offset, "OpRETURN")
    ensures chunk.code[offset] == 1 ==> r.0 == Instruction(offset, "OpADD")
    ensures chunk.code[offset] > 1 ==> r.0 == Unknown(offset, chunk.code[offset])
  {
    var instruction := chunk.code[offset];
    var op := FromU8(instruction);
    if op == Some(OpRETURN) then SimpleInstruction("OpRETURN", offset)
    else if op == Some(OpADD) then SimpleInstruction("OpADD", offset)
    else (Unknown(offset, instruction), offset + 1)
  }

  /**
   * The records of the cursor walk from `offset` to the end of the chunk,
   * one step of DisassembleInstruction at a time: one record per byte from
   * `offset` on, and none once `offset` has reached `count`.
   */
  ghost function Steps(chunk: Chunk, offset: nat): (r: seq<Record>)
    reads chunk
    requires chunk.Valid()
    ensures |r| == if offset < chunk.count then chunk.count - offset else 0
    decreases chunk.count - offset
  {
    if offset < chunk.count then
      var (record, next) := DisassembleInstruction(chunk, offset);
      [record] + Steps(chunk, next)
    else
      []
  }

  /** The k-th record of the walk from `offset` decodes the byte at `offset + k`. */
  lemma {:induction false} StepsAt(chunk: Chunk, offset: nat, k: nat)
    requires chunk.Valid()
    requires offset + k < chunk.count
    ensures Steps(chunk, offset)[k] == DisassembleInstruction(chunk, offset + k).0
    decreases k
  {
    if k > 0 {
      StepsAt(chunk, offset + 1, k - 1);
    }
  }

  /**
   * Disassembles a whole chunk: the header first, then one record per byte,
   * at offsets 0, 1, ..., count - 1 in order. The walk ends after exactly
   * `count` steps, and every step reads a byte inside `code`.
   */
  method DisassembleChunk(chunk: Chunk, name: string) returns (trace: seq<Record>)
    requires chunk.Valid()
    ensures trace == [Header(name)] + Steps(chunk, 0)
    ensures |trace| == chunk.count + 1 && trace[0] == Header(name)
    ensures forall i :: 0 <= i < chunk.count ==>
              trace[i + 1] == DisassembleInstruction(chunk, i).0 && trace[i + 1].offset == i
  {
    trace := [Header(name)];
    var offset := 0;
    while offset < chunk.count
      invariant offset <= chunk.count
      invariant |trace| == offset + 1 && trace[0] == Header(name)
      invariant forall i :: 0 <= i < offset ==> trace[i + 1] == DisassembleInstruction(chunk, i).0
      invariant trace + Steps(chunk, offset) == [Header(name)] + Steps(chunk, 0)
      decreases chunk.count - offset
    {
      var (record, next) := DisassembleInstruction(chunk, offset);
      trace := trace + [record];
      offset := next;
    }
  }

  /**
   * A chunk holding the single byte 2 (OpSUBTRACT's discriminant) is
   * disassembled as one unknown instruction at offset 0.
   */
  method DisassembleSubtractByte() returns (trace: seq<Record>)
    ensures trace == [Header("test chunk"), Unknown(0, 2)]
  {
    var chunk := new Chunk();
    chunk.WriteChunk(Discriminant(OpSUBTRACT));
    trace := DisassembleChunk(chunk, "test chunk");
  }
}
