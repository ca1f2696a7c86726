/**
  The register file of the virtual machine, as far as the PRF instruction
  uses it: operands are loaded from it and one literal is assigned to it.
  The register file itself lives outside the instruction; only the behaviour
  of `load` and `assign` that the instruction relies on is stated here.
 */
module RegisterFile {
  import opened Values
  import opened Results

  /** A register, named by its locator. */
  datatype Register = Locator(locator: nat)

  /** An operand: an immediate literal, or a register to read. */
  datatype Operand =
    | LiteralOperand(literal: Literal)
    | RegisterOperand(register: Register)

  /**
    Why a program halts. `NotALiteral` and `UnreachableLiteralVariant` are the
    PRF instruction's own halts; `RegisterNotAssigned` is the register file's.
   */
  datatype Halt =
    | NotALiteral(name: Identifier)
    | UnreachableLiteralVariant
    | RegisterNotAssigned(register: Register)

  /** The message passed to the halt routine. */
  function Message(halt: Halt): string {
    match halt
    case NotALiteral(name) => name + " is not a literal"
    case UnreachableLiteralVariant => "Unreachable literal variant detected during PRF calculation."
    case RegisterNotAssigned(_) => "register is not assigned"
  }

  /**
    What loading an operand yields: an immediate literal is its own value; a
    register yields what it holds, and halts if it holds nothing.
   */
  function LoadFrom(values: map<Register, Value>, operand: Operand): Result<Value, Halt> {
    match operand
    case LiteralOperand(literal) => Ok(Literal(literal))
    case RegisterOperand(register) =>
      if register in values then Ok(values[register]) else Err(RegisterNotAssigned(register))
  }

  class Registers {
    /** The contents of the assigned registers. */
    var values: map<Register, Value>

    constructor ()
      ensures values == map[]
    {
      values := map[];
    }

    /** `registers.load(operand)`. */
    method Load(operand: Operand) returns (r: Result<Value, Halt>)
      ensures r == LoadFrom(values, operand)
    {
      r := LoadFrom(values, operand);
    }

    /** `registers.assign(register, literal)`: only `register` changes. */
    method Assign(register: Register, literal: Literal)
      modifies this
      ensures values == old(values)[register := Literal(literal)]
    {
      values := values[register := Literal(literal)];
    }
  }
}
