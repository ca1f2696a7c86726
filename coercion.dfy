/**
  Literal coercion: the `to_field_elements` closure of the PRF instruction,
  which turns the input literals into the field elements that are hashed.

  If every literal is field-friendly (an address, field, group or scalar),
  each one is projected to a single field element. Otherwise all literals
  are serialised to one little-endian bit string, which is cut into chunks
  of `size_in_data_bits` bits, one field element per chunk.
 */
module Coercion {
  import opened Values

  /** The literal kinds that have a direct field representation. */
  predicate IsFieldFriendly(literal: Literal) {
    literal.Address? || literal.Field? || literal.Group? || literal.Scalar?
  }

  /** The classification step: is every input literal field-friendly? */
  predicate AllFieldFriendly(input: seq<Literal>) {
    forall i :: 0 <= i < |input| ==> IsFieldFriendly(input[i])
  }

  /**
    The direct field representation of one field-friendly literal. The other
    kinds are excluded by the precondition, so the closure's fallback arm
    for them has no counterpart here.
   */
  function LiteralToField(env: Aleo, literal: Literal): FieldElement
    requires IsFieldFriendly(literal)
  {
    match literal
    case Address(address) => env.groupToX(env.addressToGroup(address))
    case Field(field) => field
    case Group(group) => env.groupToX(group)
    case Scalar(scalar) => env.scalarToField(scalar)
  }

  /** The bit serialisation of a list of literals: each literal's bits, in input order. */
  function LiteralsToBits(env: Aleo, input: seq<Literal>): seq<bool> {
    if input == [] then [] else env.literalToBits(input[0]) + LiteralsToBits(env, input[1..])
  }

  /** `chunks(k)` on a slice: consecutive pieces of `k` elements, the last one possibly shorter. */
  function Chunks(bits: seq<bool>, k: BitWidth): seq<seq<bool>>
    decreases |bits|
  {
    if bits == [] then []
    else if |bits| <= k then [bits]
    else [bits[..k]] + Chunks(bits[k..], k)
  }

  /** The concatenation of a list of bit strings. */
  function Flatten(chunks: seq<seq<bool>>): seq<bool> {
    if chunks == [] then [] else chunks[0] + Flatten(chunks[1..])
  }

  /** `from_bits_le` applied to every chunk. */
  function PackChunks(env: Aleo, chunks: seq<seq<bool>>): seq<FieldElement> {
    seq(|chunks|, i requires 0 <= i < |chunks| => env.fieldFromBits(chunks[i]))
  }

  /** The `to_field_elements` closure. */
  function ToFieldElements(env: Aleo, input: seq<Literal>): (fields: seq<FieldElement>)
    ensures AllFieldFriendly(input) ==> |fields| == |input|
  {
    if AllFieldFriendly(input) then
      seq(|input|, i requires 0 <= i < |input| => LiteralToField(env, input[i]))
    else
      PackChunks(env, Chunks(LiteralsToBits(env, input), env.sizeInDataBits))
  }

  // ---------------------------------------------------------------------------
  // Properties of the bit serialisation and of chunking

  /** Serialising a concatenation serialises the parts one after the other. */
  lemma {:induction false} LiteralsToBitsAppend(env: Aleo, xs: seq<Literal>, ys: seq<Literal>)
    ensures LiteralsToBits(env, xs + ys) == LiteralsToBits(env, xs) + LiteralsToBits(env, ys)
  {
    if xs == [] {
      assert xs + ys == ys;
    } else {
      assert (xs + ys)[0] == xs[0];
      assert (xs + ys)[1..] == xs[1..] + ys;
      LiteralsToBitsAppend(env, xs[1..], ys);
    }
  }

  /**
    Chunking partitions the bit string: the chunks concatenate back to it,
    none is empty or longer than `k`, and all but the last have exactly `k` bits.
   */
  lemma {:induction false} ChunksPartition(bits: seq<bool>, k: BitWidth)
    ensures Flatten(Chunks(bits, k)) == bits
    ensures forall i :: 0 <= i < |Chunks(bits, k)| ==> 0 < |Chunks(bits, k)[i]| <= k
    ensures forall i :: 0 <= i < |Chunks(bits, k)| - 1 ==> |Chunks(bits, k)[i]| == k
    decreases |bits|
  {
    if bits == [] {
    } else if |bits| <= k {
      assert Chunks(bits, k) == [bits];
      assert Flatten([bits]) == bits + Flatten([]);
    } else {
      var rest := Chunks(bits[k..], k);
      ChunksPartition(bits[k..], k);
      assert Chunks(bits, k) == [bits[..k]] + rest;
      assert ([bits[..k]] + rest)[1..] == rest;
      assert bits[..k] + bits[k..] == bits;
    }
  }

  /** The number of chunks is the ceiling of `|bits| / k`, stated without division. */
  lemma {:induction false} ChunksCountBounds(bits: seq<bool>, k: BitWidth)
    ensures bits == [] <==> Chunks(bits, k) == []
    ensures bits != [] ==> (|Chunks(bits, k)| - 1) * k < |bits| <= |Chunks(bits, k)| * k
    decreases |bits|
  {
    if bits == [] {
    } else if |bits| <= k {
      assert Chunks(bits, k) == [bits];
    } else {
      var n := |Chunks(bits[k..], k)|;
      ChunksCountBounds(bits[k..], k);
      assert |Chunks(bits, k)| == n + 1;
      assert (n - 1) * k < |bits| - k <= n * k;
      assert (n + 1) * k == n * k + k;
    }
  }

  /** The number of chunks is `ceil(|bits| / k)`. */
  lemma ChunksCount(bits: seq<bool>, k: BitWidth)
    ensures |Chunks(bits, k)| == (|bits| + k - 1) / k
  {
    ChunksCountBounds(bits, k);
    var n := |Chunks(bits, k)|;
    if bits == [] {
      assert (k - 1) / k == 0;
    } else {
      var m := |bits| + k - 1;
      assert n * k <= m < n * k + k;
      CeilingQuotient(m, k, n);
    }
  }

  /** A number between `n * k` and `n * k + k` has quotient `n`. */
  lemma CeilingQuotient(m: nat, k: BitWidth, n: nat)
    requires n * k <= m < n * k + k
    ensures m / k == n
  {
    var q, r := m / k, m % k;
    assert m == q * k + r && 0 <= r < k;
    assert (q + 1) * k == q * k + k && (n + 1) * k == n * k + k;
  }

  // ---------------------------------------------------------------------------
  // Properties of the coercion

  /**
    Direct branch: when every literal is field-friendly, the output has one
    element per input literal, in order: a field maps to itself, a group to its
    x-coordinate, an address to the x-coordinate of its group element, and a
    scalar to its field embedding. No bits are repacked.
   */
  lemma DirectBranch(env: Aleo, input: seq<Literal>)
    requires AllFieldFriendly(input)
    ensures var fields := ToFieldElements(env, input);
      && |fields| == |input|
      && (forall i :: 0 <= i < |input| && input[i].Field? ==> fields[i] == input[i].field)
      && (forall i :: 0 <= i < |input| && input[i].Group? ==> fields[i] == env.groupToX(input[i].group))
      && (forall i :: 0 <= i < |input| && input[i].Address? ==>
            fields[i] == env.groupToX(env.addressToGroup(input[i].address)))
      && (forall i :: 0 <= i < |input| && input[i].Scalar? ==> fields[i] == env.scalarToField(input[i].scalar))
  {
  }

  /** The empty input is (vacuously) field-friendly and coerces to no field elements. */
  lemma EmptyInput(env: Aleo)
    ensures AllFieldFriendly([])
    ensures ToFieldElements(env, []) == []
  {
  }

  /** A list made only of field literals coerces to the field elements themselves. */
  lemma FieldLiteralsPassThrough(env: Aleo, fields: seq<FieldElement>)
    ensures ToFieldElements(env, seq(|fields|, i requires 0 <= i < |fields| => Field(fields[i]))) == fields
  {
  }

  /**
    Packing branch: when some literal is not field-friendly, the output is
    `from_bits_le` of consecutive chunks of the serialised input, where the
    chunks concatenate back to exactly the serialised bits, every chunk but
    the last has `size_in_data_bits` bits, and there are
    `ceil(|bits| / size_in_data_bits)` of them.
   */
  lemma PackedBranch(env: Aleo, input: seq<Literal>)
    requires !AllFieldFriendly(input)
    ensures var k := env.sizeInDataBits;
      var bits := LiteralsToBits(env, input);
      var chunks := Chunks(bits, k);
      var fields := ToFieldElements(env, input);
      && Flatten(chunks) == bits
      && (forall i :: 0 <= i < |chunks| - 1 ==> |chunks[i]| == k)
      && (forall i :: 0 <= i < |chunks| ==> 0 < |chunks[i]| <= k)
      && |fields| == |chunks| == (|bits| + k - 1) / k
      && (forall i :: 0 <= i < |fields| ==> fields[i] == env.fieldFromBits(chunks[i]))
  {
    var bits := LiteralsToBits(env, input);
    ChunksPartition(bits, env.sizeInDataBits);
    ChunksCount(bits, env.sizeInDataBits);
  }
}
