# rlox bytecode front end, modelled in Dafny

This project models the front end of the rlox bytecode virtual machine:

- **Opcodes and chunks** (`chunk.dfy`, module `Chunks`). `OpCode` is the closed set of declared operations: `OpRETURN = 0`, `OpADD = 1` and `OpSUBTRACT = 2`. `FromU8` decodes one byte. It is total over all 256 byte values, maps only 0 and 1, and returns `None` for every other byte. That includes 2, which is the discriminant declared for `OpSUBTRACT`. `Chunk` is a class with two fields: a growable byte buffer `code`, and a separate `count` that `Valid()` keeps equal to `|code|`. There is no line table and no constant pool.
- **Disassembler** (`debug.dfy`, module `Debug`). The printed output is modelled as a trace of `Record` values:
  - a `Header` that names the chunk;
  - one `Instruction(offset, name)` per decoded byte;
  - one `Unknown(offset, byte)` per byte that does not decode.

  `DisassembleInstruction` decodes the byte at an offset and returns the record together with the next offset. `DisassembleChunk` is the cursor loop over the whole chunk. `Steps` is the same walk written as a recursive function, and it serves as the loop's reference definition.
- **Value pool** (`value.dfy`, module `Values`). `ValueArray` is an append-only pool with bounds-checked `Get`. The value type is a type parameter because values are only ever stored and fetched.
- `option.dfy` holds the `Option` datatype that the other modules use.

Every instruction in this code is one byte long, so each step of the walk advances the cursor by exactly one. The code has no line table, no constant pool inside the chunk, no constant-operand instructions and no bounds-checked byte accessors, so the model has none either.

## Model

| member | source | states |
|---|---|---|
| Chunks.Discriminant | src/chunk.rs:9-13 | each variant's declared byte value, which is below 3 |
| Chunks.DiscriminantInjective | src/chunk.rs:9-13 | no two variants share a byte value |
| Chunks.FromU8 | src/chunk.rs:30-36 | decoding is total over every byte; a byte decodes exactly when it is 0 or 1; a decoded variant's discriminant is the input byte, and that variant is never OpSUBTRACT |
| Chunks.DecodeDiscriminant | src/chunk.rs:10-35 | partial round trip: decoding the discriminant of OpRETURN or OpADD gives that variant back, while decoding OpSUBTRACT's discriminant 2 gives None |
| Chunks.Chunk.constructor | src/chunk.rs:62-67 | a new chunk has count 0 and empty code, and it satisfies the invariant count == \|code\| |
| Chunks.Chunk.WriteChunk | src/chunk.rs:85-88 | code becomes old code plus the byte, so earlier bytes are unchanged; count rises by exactly 1, so count == \|code\| is preserved |
| Chunks.WriteTwoBytes | src/chunk.rs:95-102 | writing 0x01 and then 0x02 to a new chunk gives count 2 and code [1, 2] |
| Debug.SimpleInstruction | src/debug.rs:56-59 | emits the instruction's name tagged with its offset, and the next offset is offset + 1 |
| Debug.DisassembleInstruction | src/debug.rs:31-43 | needs offset < \|code\| because the byte is indexed unchecked; byte 0 gives an "OpRETURN" record, byte 1 an "OpADD" record, and any other byte an Unknown record carrying that byte; every record is tagged with its offset, and the next offset is always offset + 1 |
| Debug.Steps | src/debug.rs:15-18 | the reference walk from an offset, one DisassembleInstruction step at a time; it emits one record per remaining byte, and none once the offset has reached count |
| Debug.StepsAt | src/debug.rs:15-18 | the k-th record of the walk that starts at an offset is the decoding of the byte at offset + k |
| Debug.DisassembleChunk | src/debug.rs:12-19 | the trace is the header and then the reference walk from offset 0; it holds count + 1 records; record i + 1 decodes byte i and carries offset i, so offsets 0..count-1 are visited in order; the loop ends after exactly count steps and reads only in-range bytes |
| Debug.DisassembleSubtractByte | src/debug.rs:35-42 | a chunk whose only byte is OpSUBTRACT's discriminant is disassembled as the header and one Unknown record for byte 2 at offset 0 |
| Values.ValueArray.constructor | src/value.rs:17-21 | a new pool has length 0 and is empty |
| Values.ValueArray.WriteValueArray | src/value.rs:25-27 | appends v at the end, so the length grows by 1, Get at the old length returns v, and Get at every earlier index is unchanged |
| Values.ValueArray.Len | src/value.rs:29-31 | the length is the bound below which Get finds a value and at or above which it finds none |
| Values.ValueArray.IsEmpty | src/value.rs:33-35 | holds exactly when the length is 0, that is, when the pool holds no value |
| Values.ValueArray.Get | src/value.rs:37-39 | returns Some(values[i]) when i is below the length, and None otherwise |

## Left out

- Printing. The `println!` and `print!` output of `src/debug.rs` becomes the `Record` trace described above. The exact `{:04}` formatting and text are not modelled.
- `print_values` (src/value.rs:41-45) only prints, so it is not modelled.
- Floating-point values. `Value = f64` (src/value.rs:3) is an opaque type parameter, because nothing computes on values.
- Machine integer widths. `count` and offsets are `usize` in the source and unbounded `nat` here. Inside the walk `offset + 1` cannot overflow, because offset < count. A direct call of `simple_instructon` with offset `usize::MAX` would overflow: it panics in a debug build and wraps to 0 in a release build. That case is not modelled. `count += 1` cannot overflow in practice, because `Vec::push` fails on capacity overflow first. That failure is not modelled either.
- Debug.DisassembleInstruction: requires `offset < |code|`. Called directly with an offset at or past the end, `disassemble_instruction` panics on the unchecked index at src/debug.rs:33. That panic is not modelled; inside `disassemble_chunk` the loop guard and `count == |code|` rule it out.
- Public fields. `count` and `code` are public in the source, so outside code could break `count == |code|`. The model treats that equality as a class invariant, which `new` and `write_chunk` establish and keep.
- The `Vec` backing store. It is modelled as a `seq` field that each append reassigns. Capacity and reallocation are not modelled.
- `src/main.rs` is a demo driver. It writes bytes 0..254 and prints `count`, the code length and the vector's capacity, and it is not part of this model.
