/**
  The generic PRF instruction, one shape for the three Poseidon PRF opcodes
  `psd2`, `psd4` and `psd8`. An instruction holds a binary operation (seed
  operand, input operand, destination register) and the opcode tag; the tag
  is a closed datatype, so no instruction can pair an opcode with another
  opcode's hash.
 */
module Instructions {
  import opened Values
  import opened Results
  import opened RegisterFile
  import opened Coercion

  // ---------------------------------------------------------------------------
  // Opcode tags

  datatype PrfOpcode = Psd2 | Psd4 | Psd8

  /** `Op::OPCODE`: the mnemonic of each tag. */
  function Opcode(op: PrfOpcode): string {
    match op
    case Psd2 => "psd2"
    case Psd4 => "psd4"
    case Psd8 => "psd8"
  }

  /**
    The string-keyed `match Self::opcode()` of `evaluate` and `into`: a known
    mnemonic selects its tag, anything else reaches the `_` arm (`None`).
   */
  function OpcodeFromString(name: string): Option<PrfOpcode> {
    if name == "psd2" then Some(Psd2)
    else if name == "psd4" then Some(Psd4)
    else if name == "psd8" then Some(Psd8)
    else None
  }

  /**
    The string match selects exactly the tag whose mnemonic was matched, so
    for every tag the `_` arm cannot be reached, and no two tags share a
    mnemonic.
   */
  lemma OpcodeDispatch(name: string, op: PrfOpcode)
    ensures OpcodeFromString(name) == Some(op) <==> name == Opcode(op)
    ensures OpcodeFromString(Opcode(op)) != None
  {
  }

  // ---------------------------------------------------------------------------
  // The instruction

  /** The two-operand descriptor shared by all binary instructions. */
  datatype BinaryOperation = BinaryOperation(first: Operand, second: Operand, destination: Register)

  /** The global instruction enum, restricted to its PRF cases. */
  datatype Instruction =
    | PRFPsd2(operation: BinaryOperation)
    | PRFPsd4(operation: BinaryOperation)
    | PRFPsd8(operation: BinaryOperation)

  /** The opcode tag that each case of the global instruction enum stands for. */
  function InstructionOpcode(instruction: Instruction): PrfOpcode {
    match instruction
    case PRFPsd2(_) => Psd2
    case PRFPsd4(_) => Psd4
    case PRFPsd8(_) => Psd8
  }

  /** The hash selected by an opcode tag, applied to the seed and the coerced input. */
  function Digest(env: Aleo, op: PrfOpcode, seed: FieldElement, input: seq<FieldElement>): FieldElement {
    match op
    case Psd2 => env.prfPsd2(seed, input)
    case Psd4 => env.prfPsd4(seed, input)
    case Psd8 => env.prfPsd8(seed, input)
  }

  /** The literals an input value contributes to the hash; a composite's name is dropped. */
  function InputLiterals(input: Value): seq<Literal> {
    match input
    case Literal(literal) => [literal]
    case Composite(_, literals) => literals
  }

  /**
    What `evaluate` computes from the register contents: the digest it
    assigns, or the halt that stops it. The steps come in the source's order:
    load the seed (halt on a composite), load the input, insist on a field
    seed, coerce the input, hash.
   */
  function Evaluation(env: Aleo, p: Prf, values: map<Register, Value>): Result<FieldElement, Halt> {
    match LoadFrom(values, p.operation.first)
    case Err(halt) => Err(halt)
    case Ok(Composite(name, _)) => Err(NotALiteral(name))
    case Ok(Literal(seed)) =>
      match LoadFrom(values, p.operation.second)
      case Err(halt) => Err(halt)
      case Ok(input) =>
        if seed.Field? then
          Ok(Digest(env, p.opcode, seed.field, ToFieldElements(env, InputLiterals(input))))
        else
          Err(UnreachableLiteralVariant)
  }

  datatype Prf = Prf(opcode: PrfOpcode, operation: BinaryOperation) {

    /** `operands()`: the seed operand, then the input operand. */
    function Operands(): seq<Operand> {
      [operation.first, operation.second]
    }

    /** `destination()`. */
    function Destination(): Register {
      operation.destination
    }

    /**
      `evaluate`: either the whole evaluation succeeds and exactly the
      destination register receives the digest as a field literal, or it
      halts and no register changes.
     */
    method Evaluate(env: Aleo, registers: Registers) returns (outcome: Outcome<Halt>)
      modifies registers
      ensures match Evaluation(env, this, old(registers.values))
        case Ok(digest) =>
          && outcome == Pass
          && registers.values == old(registers.values)[Destination() := Literal(Field(digest))]
        case Err(halt) =>
          && outcome == Fail(halt)
          && registers.values == old(registers.values)
    {
      var first := registers.Load(operation.first);
      if first.Err? {
        return Fail(first.error);
      }
      var seed: Literal;
      match first.value {
        case Composite(name, _) =>
          return Fail(NotALiteral(name));
        case Literal(literal) =>
          seed := literal;
      }
      var second := registers.Load(operation.second);
      if second.Err? {
        return Fail(second.error);
      }
      var input := InputLiterals(second.value);
      if !seed.Field? {
        return Fail(UnreachableLiteralVariant);
      }
      var digest := Digest(env, opcode, seed.field, ToFieldElements(env, input));
      registers.Assign(operation.destination, Field(digest));
      outcome := Pass;
    }
  }

  /** `into()`: the matching case of the global instruction enum, with the same operation. */
  function Into(p: Prf): (instruction: Instruction)
    ensures instruction.operation == p.operation
    ensures InstructionOpcode(instruction) == p.opcode
  {
    match p.opcode
    case Psd2 => PRFPsd2(p.operation)
    case Psd4 => PRFPsd4(p.operation)
    case Psd8 => PRFPsd8(p.operation)
  }

  /** Conversion loses nothing: distinct PRF instructions become distinct instructions. */
  lemma IntoInjective(p: Prf, q: Prf)
    ensures Into(p) == Into(q) ==> p == q
  {
  }

  // ---------------------------------------------------------------------------
  // Properties of evaluation

  /** A composite seed halts with "<name> is not a literal", before the input is even loaded. */
  lemma CompositeSeedHalts(env: Aleo, p: Prf, values: map<Register, Value>, name: Identifier, literals: seq<Literal>)
    requires LoadFrom(values, p.operation.first) == Ok(Composite(name, literals))
    ensures Evaluation(env, p, values) == Err(NotALiteral(name))
    ensures Message(NotALiteral(name)) == name + " is not a literal"
  {
  }

  /** A seed literal of any kind but `Field` halts, once the input has been loaded. */
  lemma NonFieldSeedHalts(env: Aleo, p: Prf, values: map<Register, Value>, seed: Literal)
    requires LoadFrom(values, p.operation.first) == Ok(Literal(seed))
    requires !seed.Field?
    requires LoadFrom(values, p.operation.second).Ok?
    ensures Evaluation(env, p, values) == Err(UnreachableLiteralVariant)
  {
  }

  /**
    Evaluation succeeds exactly when the seed loads as a field literal and
    the input loads; the digest is then the hash of the instruction's own
    opcode over the seed and the coerced input literals.
   */
  lemma EvaluationSucceeds(env: Aleo, p: Prf, values: map<Register, Value>)
    ensures var first := LoadFrom(values, p.operation.first);
      var second := LoadFrom(values, p.operation.second);
      Evaluation(env, p, values).Ok? <==>
        first.Ok? && first.value.Literal? && first.value.literal.Field? && second.Ok?
    ensures var first := LoadFrom(values, p.operation.first);
      var second := LoadFrom(values, p.operation.second);
      Evaluation(env, p, values).Ok? ==>
        Evaluation(env, p, values).value ==
          Digest(env, p.opcode, first.value.literal.field, ToFieldElements(env, InputLiterals(second.value)))
  {
  }

  /** Each tag calls its own PRF: `Psd2` calls `prf_psd2`, `Psd4` calls `prf_psd4`, `Psd8` calls `prf_psd8`. */
  lemma DigestDispatch(env: Aleo, op: PrfOpcode, seed: FieldElement, input: seq<FieldElement>)
    ensures OpcodeFromString(Opcode(op)) == Some(op)
    ensures op == Psd2 ==> Digest(env, op, seed, input) == env.prfPsd2(seed, input)
    ensures op == Psd4 ==> Digest(env, op, seed, input) == env.prfPsd4(seed, input)
    ensures op == Psd8 ==> Digest(env, op, seed, input) == env.prfPsd8(seed, input)
  {
  }

  /** Two register files that agree on the operand registers give the same evaluation. */
  predicate AgreeOn(values: map<Register, Value>, values': map<Register, Value>, operands: seq<Operand>) {
    forall i :: 0 <= i < |operands| && operands[i].RegisterOperand? ==>
      LoadFrom(values, operands[i]) == LoadFrom(values', operands[i])
  }

  /** Evaluation reads nothing but the registers named by `operands()`. */
  lemma EvaluationReadsOnlyOperands(env: Aleo, p: Prf, values: map<Register, Value>, values': map<Register, Value>)
    requires AgreeOn(values, values', p.Operands())
    ensures Evaluation(env, p, values) == Evaluation(env, p, values')
  {
    assert LoadFrom(values, p.Operands()[0]) == LoadFrom(values', p.Operands()[0]);
    assert LoadFrom(values, p.Operands()[1]) == LoadFrom(values', p.Operands()[1]);
  }

  /** A literal input is hashed as the one-element list holding it, whatever composite name would wrap it. */
  lemma LiteralInputIsSingleton(env: Aleo, p: Prf, values: map<Register, Value>, input: Register,
                                literal: Literal, name: Identifier)
    requires p.operation.second == RegisterOperand(input)
    requires p.operation.first != RegisterOperand(input)
    ensures Evaluation(env, p, values[input := Literal(literal)]) ==
            Evaluation(env, p, values[input := Composite(name, [literal])])
  {
  }

  /** A composite input contributes its literals only; its name does not matter. */
  lemma CompositeNameIgnored(env: Aleo, p: Prf, values: map<Register, Value>, input: Register,
                             name: Identifier, name': Identifier, literals: seq<Literal>)
    requires p.operation.second == RegisterOperand(input)
    requires p.operation.first != RegisterOperand(input)
    ensures Evaluation(env, p, values[input := Composite(name, literals)]) ==
            Evaluation(env, p, values[input := Composite(name', literals)])
  {
  }

  /**
    The field-friendly path end to end: with the seed register holding a field
    element and the input register holding a record of two field elements,
    `psd2` hashes the seed with exactly those two elements.
   */
  lemma FieldRecordScenario(env: Aleo, seedRegister: Register, inputRegister: Register, destination: Register,
                            seed: FieldElement, x: FieldElement, y: FieldElement)
    requires seedRegister != inputRegister
    ensures var p := Prf(Psd2, BinaryOperation(RegisterOperand(seedRegister), RegisterOperand(inputRegister), destination));
      var values := map[seedRegister := Literal(Field(seed)), inputRegister := Composite("Point", [Field(x), Field(y)])];
      Evaluation(env, p, values) == Ok(env.prfPsd2(seed, [x, y]))
  {
    var input := [Field(x), Field(y)];
    assert AllFieldFriendly(input);
    assert ToFieldElements(env, input) == [x, y];
  }

  /**
    The packing path for a lone boolean: when its bits fit in one field
    element, the input is exactly one field element built from those bits.
   */
  lemma BooleanInputScenario(env: Aleo, b: bool)
    requires 0 < |env.literalToBits(Boolean(b))| <= env.sizeInDataBits
    ensures ToFieldElements(env, [Boolean(b)]) == [env.fieldFromBits(env.literalToBits(Boolean(b)))]
  {
    var input, bits := [Boolean(b)], env.literalToBits(Boolean(b));
    assert !IsFieldFriendly(input[0]);
    assert input[1..] == [];
    assert LiteralsToBits(env, input) == bits + LiteralsToBits(env, []) == bits;
    assert Chunks(bits, env.sizeInDataBits) == [bits];
    assert ToFieldElements(env, input) == PackChunks(env, [bits]);
  }

  // ---------------------------------------------------------------------------
  // Encoding and parsing, delegated to the binary operation

  type IoError
  type ParseError

  /**
    The binary operation's own formats: `write_le`, `read_le` (returning the
    bytes it did not consume), `Display`, and its parser (returning the text
    it did not consume).
   */
  datatype OperationFormat = OperationFormat(
    writeLe: BinaryOperation -> seq<bv8>,
    readLe: seq<bv8> -> Result<(BinaryOperation, seq<bv8>), IoError>,
    display: BinaryOperation -> string,
    parse: string -> Result<(string, BinaryOperation), ParseError>
  )

  /** `write_le`: the operation's bytes and nothing else. */
  function WriteLe(format: OperationFormat, p: Prf): seq<bv8> {
    format.writeLe(p.operation)
  }

  /** `read_le` for the instruction whose tag the caller has already chosen. */
  function ReadLe(format: OperationFormat, opcode: PrfOpcode, bytes: seq<bv8>): (r: Result<(Prf, seq<bv8>), IoError>)
    ensures r.Ok? <==> format.readLe(bytes).Ok?
    ensures r.Ok? ==> r.value.0.opcode == opcode && r.value.0.operation == format.readLe(bytes).value.0
    ensures r.Ok? ==> r.value.1 == format.readLe(bytes).value.1
    ensures r.Err? ==> r.error == format.readLe(bytes).error
  {
    match format.readLe(bytes)
    case Ok((operation, rest)) => Ok((Prf(opcode, operation), rest))
    case Err(e) => Err(e)
  }

  /** `Display`: the operation's text; the mnemonic is written by whoever lists the instruction. */
  function Display(format: OperationFormat, p: Prf): string {
    format.display(p.operation)
  }

  /** `parse` for the instruction whose tag the caller has already chosen. */
  function Parse(format: OperationFormat, opcode: PrfOpcode, text: string): (r: Result<(string, Prf), ParseError>)
    ensures r.Ok? <==> format.parse(text).Ok?
    ensures r.Ok? ==> r.value.1.opcode == opcode && r.value.1.operation == format.parse(text).value.1
    ensures r.Ok? ==> r.value.0 == format.parse(text).value.0
    ensures r.Err? ==> r.error == format.parse(text).error
  {
    match format.parse(text)
    case Ok((rest, operation)) => Ok((rest, Prf(opcode, operation)))
    case Err(e) => Err(e)
  }

  /**
    No framing: the bytes and the text of an instruction are exactly those of
    its binary operation, so they do not depend on its tag.
   */
  lemma FormatsOmitOpcode(format: OperationFormat, operation: BinaryOperation, op: PrfOpcode, op': PrfOpcode)
    ensures WriteLe(format, Prf(op, operation)) == format.writeLe(operation)
    ensures Display(format, Prf(op, operation)) == format.display(operation)
    ensures WriteLe(format, Prf(op, operation)) == WriteLe(format, Prf(op', operation))
    ensures Display(format, Prf(op, operation)) == Display(format, Prf(op', operation))
  {
  }

  /**
    If the binary operation reads back what it wrote, followed by `rest`,
    then so does the PRF instruction, leaving `rest` unread.
   */
  lemma BytesRoundTripLifts(format: OperationFormat, p: Prf, rest: seq<bv8>)
    requires format.readLe(format.writeLe(p.operation) + rest) == Ok((p.operation, rest))
    ensures ReadLe(format, p.opcode, WriteLe(format, p) + rest) == Ok((p, rest))
  {
  }

  /**
    If the binary operation parses back what it displayed, followed by
    `rest`, then so does the PRF instruction, leaving `rest` unparsed.
   */
  lemma TextRoundTripLifts(format: OperationFormat, p: Prf, rest: string)
    requires format.parse(format.display(p.operation) + rest) == Ok((rest, p.operation))
    ensures Parse(format, p.opcode, Display(format, p) + rest) == Ok((rest, p))
  {
  }
}
