/**
  The values a PRF instruction works on: literals, composite values, and the
  capabilities of the proving environment (`P::Aleo`) that the instruction
  calls but does not define.

  The cryptographic types are abstract: nothing here depends on how a field
  element, a group element, a scalar or an address is represented.
 */
module Values {

  /** An element of the base field of the environment. */
  type FieldElement(==, !new)
  /** A point of the environment's elliptic curve group. */
  type GroupElement(==, !new)
  /** An element of the scalar field of the curve. */
  type ScalarElement(==, !new)
  /** An account address (a group element in disguise). */
  type AddressValue(==, !new)

  type Identifier = string

  /** The widths of the integer literals of the virtual machine. */
  datatype IntegerType = I8 | I16 | I32 | I64 | I128 | U8 | U16 | U32 | U64 | U128

  /**
    A typed literal. `Address`, `Field`, `Group` and `Scalar` are the
    "field-friendly" kinds; the remaining kinds take part in the
    virtual machine but are hashed through their bits.
   */
  datatype Literal =
    | Address(address: AddressValue)
    | Boolean(boolean: bool)
    | Field(field: FieldElement)
    | Group(group: GroupElement)
    | Integer(integerType: IntegerType, integer: int)
    | Scalar(scalar: ScalarElement)
    | StringLiteral(text: string)

  /** What a register holds: a single literal, or a named record of literals. */
  datatype Value =
    | Literal(literal: Literal)
    | Composite(name: Identifier, literals: seq<Literal>)

  /** A strictly positive width, in bits. */
  type BitWidth = n: nat | n > 0 witness 1

  /**
    The environment's capabilities, as the instruction sees them.
    Each field stands for an external routine whose definition is not part
    of this model; the model relies only on their being functions.
   */
  datatype Aleo = Aleo(
    /** `<BaseField>::size_in_data_bits()`: how many bits fit in one field element. */
    sizeInDataBits: BitWidth,
    /** `Literal::to_bits_le`: the little-endian bit serialisation of one literal. */
    literalToBits: Literal -> seq<bool>,
    /** `FromBits::from_bits_le` for field elements. */
    fieldFromBits: seq<bool> -> FieldElement,
    /** `Address::to_group`. */
    addressToGroup: AddressValue -> GroupElement,
    /** `Group::to_x_coordinate`. */
    groupToX: GroupElement -> FieldElement,
    /** `Scalar::to_field`. */
    scalarToField: ScalarElement -> FieldElement,
    /** The three Poseidon PRFs, each from a seed and an input to a digest. */
    prfPsd2: (FieldElement, seq<FieldElement>) -> FieldElement,
    prfPsd4: (FieldElement, seq<FieldElement>) -> FieldElement,
    prfPsd8: (FieldElement, seq<FieldElement>) -> FieldElement
  )
}
