# The PRF instruction of the snarkVM bytecode interpreter

This project models the generic PRF instruction of the snarkVM bytecode
interpreter. One instruction shape serves the three Poseidon PRF opcodes:
`psd2`, `psd4` and `psd8`. An instruction holds a binary operation (seed
operand, input operand, destination register) and an opcode tag. Evaluating it
goes through these steps:

1. Load the seed. A composite seed halts the program.
2. Load the input.
3. Check the seed. A seed literal that is not a field element halts the program.
4. Coerce the input literals to field elements.
5. Hash the seed and those elements with the PRF of the instruction's own opcode.
6. Write the digest to the destination register as a `Field` literal.

The files:

- `values.dfy` (module `Values`) holds literals and values. It also holds the
  environment's capabilities (`Aleo`): the bit width of a field element, the bit
  serialisation of literals, `from_bits_le`, the group, address and scalar
  projections, and the three PRFs. The curve and field types are abstract types.
  The capabilities are function-valued fields, so the model depends only on
  their being deterministic functions.
- `coercion.dfy` (module `Coercion`) is the `to_field_elements` closure.
  - The input is "field-friendly" when every literal is an address, field,
    group or scalar. Such an input is projected one literal to one element.
  - Any other input is serialised to one little-endian bit string. That string
    is cut into chunks of `size_in_data_bits` bits, and each chunk becomes one
    field element.
  - This module also proves the partition and counting facts about the chunks.
- `registers.dfy` (module `RegisterFile`) is the register file as the
  instruction sees it.
  - It is a class whose map field is updated in place by `Assign`.
  - It defines the `Halt` reasons, with the source's halt messages.
- `prf.dfy` (module `Instructions`) holds the rest of the instruction:
  - the opcode tags and the string-keyed dispatch on them;
  - the instruction itself and its imperative `Evaluate` method;
  - the pure `Evaluation` function that specifies `Evaluate`;
  - conversion into the global instruction enum;
  - the byte and text formats, which are delegated to the binary operation.
- `results.dfy` (module `Results`) holds `Option`, `Result` and `Outcome`.

`P::halt` terminates the process in the source. Here it is a value: `Evaluate`
returns `Fail(halt)` and leaves every register unchanged. It returns `Pass`
after it has assigned the destination register.

The code loads the input operand (line 91) before it checks that the seed is a
`Field` (line 97). So when the input register is unassigned, the register
file's halt comes first, even if the seed has the wrong kind. The model keeps
this order.

The opcode tag is a closed datatype. The source matches on the opcode string
at lines 133-137 and 175-179. `OpcodeFromString` models that string match, and
`OpcodeDispatch` proves that every tag's mnemonic selects that same tag. So the
`_` arms at lines 137 and 179 cannot be reached. The arm at line 120 is
excluded by the precondition of `LiteralToField`, which is only applied to
field-friendly literals.

## Model

| member | source | states |
|---|---|---|
| `Coercion.ToFieldElements` | bytecode/src/function/instructions/prf/mod.rs:107-130 | when every input literal is field-friendly, there is exactly one field element per input literal |
| `Coercion.EmptyInput` | bytecode/src/function/instructions/prf/mod.rs:109-111 | the empty input counts as field-friendly (`all` over nothing) and coerces to the empty sequence |
| `Coercion.DirectBranch` | bytecode/src/function/instructions/prf/mod.rs:113-122 | field-friendly input keeps its length and order; a `Field` maps to itself, a `Group` to its x-coordinate, an `Address` to the x-coordinate of its group element, a `Scalar` to its field embedding |
| `Coercion.FieldLiteralsPassThrough` | bytecode/src/function/instructions/prf/mod.rs:113-122 | a sequence of `Field` literals coerces to exactly its field elements |
| `Coercion.LiteralsToBitsAppend` | bytecode/src/function/instructions/prf/mod.rs:124-125 | serialising a concatenation of literals gives the concatenation of their serialisations, in input order |
| `Coercion.ChunksPartition` | bytecode/src/function/instructions/prf/mod.rs:126 | the chunks concatenate back to exactly the bit string; no chunk is empty or longer than `k`; every chunk but the last has exactly `k` bits |
| `Coercion.ChunksCountBounds` | bytecode/src/function/instructions/prf/mod.rs:126 | there are no chunks only for the empty bit string; otherwise, for `n` chunks of a string of `m` bits, `(n - 1) * k < m <= n * k` |
| `Coercion.ChunksCount` | bytecode/src/function/instructions/prf/mod.rs:126 | the number of chunks of a string of `m` bits is `ceil(m / k)` |
| `Coercion.PackedBranch` | bytecode/src/function/instructions/prf/mod.rs:124-128 | input that is not field-friendly gives one field element per chunk of the serialised bits, in order; the chunks partition the bits as above; their number is the bit count divided by `size_in_data_bits`, rounded up |
| `Instructions.BooleanInputScenario` | bytecode/src/function/instructions/prf/mod.rs:124-128 | a lone boolean whose bits fit in one field element coerces to the single element built from those bits |
| `Instructions.OpcodeDispatch` | bytecode/src/function/instructions/prf/mod.rs:133-137 | the string match selects a tag exactly when the string is that tag's mnemonic; every tag's mnemonic is matched, so the `_` arms are unreachable |
| `Instructions.DigestDispatch` | bytecode/src/function/instructions/prf/mod.rs:133-138 | the string match on each tag's mnemonic selects that same tag, and that tag's digest is its own PRF: `Psd2` calls `prf_psd2`, `Psd4` calls `prf_psd4` and `Psd8` calls `prf_psd8`, each on the seed and the coerced input |
| `Instructions.Prf.Evaluate` | bytecode/src/function/instructions/prf/mod.rs:84-141 | on success, only the destination register changes, and it receives `Field(digest)` for the digest `Evaluation` specifies; on a halt, no register changes and the halt reason is returned |
| `Instructions.CompositeSeedHalts` | bytecode/src/function/instructions/prf/mod.rs:86-89 | a composite seed halts with "`name` is not a literal", whatever the input operand holds |
| `Instructions.NonFieldSeedHalts` | bytecode/src/function/instructions/prf/mod.rs:96-100 | a seed literal of any kind other than `Field` halts, with no digest computed |
| `Instructions.EvaluationSucceeds` | bytecode/src/function/instructions/prf/mod.rs:84-141 | evaluation succeeds if and only if the seed loads as a `Field` literal and the input loads; the digest is then the opcode's PRF of the seed and the coerced input literals |
| `Instructions.EvaluationReadsOnlyOperands` | bytecode/src/function/instructions/prf/mod.rs:86-94 | two register files that agree on the registers named by `operands()` give the same evaluation |
| `Instructions.LiteralInputIsSingleton` | bytecode/src/function/instructions/prf/mod.rs:91-94 | a literal input is hashed exactly as a composite holding just that literal |
| `Instructions.CompositeNameIgnored` | bytecode/src/function/instructions/prf/mod.rs:91-94 | the name of a composite input does not affect the result |
| `Instructions.FieldRecordScenario` | bytecode/src/function/instructions/prf/mod.rs:84-141 | with seed `Field(s)` and input `Point { x, y }` of field elements, `psd2` yields `prf_psd2(s, [x, y])` |
| `Instructions.Into` | bytecode/src/function/instructions/prf/mod.rs:172-181 | the resulting instruction carries the same operation and is the enum case of the same opcode |
| `Instructions.IntoInjective` | bytecode/src/function/instructions/prf/mod.rs:172-181 | distinct PRF instructions convert to distinct instructions |
| `Instructions.ReadLe` | bytecode/src/function/instructions/prf/mod.rs:159-163 | decoding succeeds exactly when the binary operation decodes; it attaches the caller's opcode tag, leaves exactly the bytes the operation left unread, and propagates the operation's error unchanged |
| `Instructions.Parse` | bytecode/src/function/instructions/prf/mod.rs:150-157 | parsing succeeds exactly when the binary operation parses; it attaches the caller's opcode tag, leaves exactly the text the operation's parser left, and propagates the parse error unchanged |
| `Instructions.FormatsOmitOpcode` | bytecode/src/function/instructions/prf/mod.rs:144-169 | the bytes and the text of an instruction are exactly those of its binary operation, with nothing added, and so do not depend on its opcode tag |
| `Instructions.BytesRoundTripLifts` | bytecode/src/function/instructions/prf/mod.rs:159-169 | whenever the binary operation reads back what it wrote followed by some bytes, the PRF instruction reads back itself, with the same tag, and leaves those bytes unread |
| `Instructions.TextRoundTripLifts` | bytecode/src/function/instructions/prf/mod.rs:144-157 | whenever the binary operation parses back what it displayed followed by some text, the PRF instruction parses back itself, with the same tag, and leaves that text unparsed |

## Left out

- The Poseidon PRFs `prf_psd2`, `prf_psd4` and `prf_psd8` are external. They are the function fields `prfPsd2`, `prfPsd4` and `prfPsd8` of `Aleo`.
- Field, group and scalar arithmetic are external. This covers `to_group`, `to_x_coordinate`, `to_field`, each literal's `to_bits_le` and `from_bits_le`. They are functions over abstract types. Only the bit-length and concatenation facts that chunking needs are stated. How `from_bits_le` pads a short final chunk is not modelled.
- The value of `size_in_data_bits` is a property of the base field. It is a positive parameter here.
- The mnemonic strings come from `psd2.rs`, `psd4.rs` and `psd8.rs`, which are not part of this model. The model uses `"psd2"`, `"psd4"` and `"psd8"`. Its proofs depend only on these strings being distinct.
- The byte layout and text grammar of `BinaryOperation` are not part of this model. Its `write_le`, `read_le`, `Display` and parser are function fields of `OperationFormat`. The round-trip lemmas assume the binary operation round-trips for the particular operation and trailing input at hand.
- `std::io` readers and writers are byte sequences. A reader returns the bytes it did not consume.
- The register file is not part of this model beyond `load` and `assign`. Not modelled: member registers (`r0.field`), type checks, whether `assign` refuses a register that is already assigned, and the wording of the halt for an unassigned register.
- `P::halt` stops the process in the source. Here it is a `Halt` value returned to the caller.
- The global instruction enum is modelled only through its three PRF cases.
- The `_` arms at lines 120, 137 and 179 have no counterpart in the model. `OpcodeDispatch` and the precondition of `LiteralToField` show that they cannot be reached.
