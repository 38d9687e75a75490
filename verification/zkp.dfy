// The hash-based proof generator of the credential crate: commitments, range
// proofs with boundary commitments, and set membership through Merkle inclusion.
// Random nonces are parameters; `hash` stands for BLAKE3.
module Zkp {
  import opened Wrappers
  import opened Bytes
  import opened Commitments
  import Merkle

  datatype ZkpError =
    | ValueOutOfRange(value: int, min: int, max: int)
    | InvalidRange
    | WrongBoundaryCount
    | ValueNotInSet

  // ----- Commitment -----

  datatype Commitment = Commitment(hash: Hash)

  /** `Commitment::commit_with_nonce`. */
  function CommitWithNonce(value: seq<byte>, nonce: Nonce, hash: seq<byte> -> Hash): (c: Commitment)
    ensures VerifyCommitment(value, nonce, c.hash, hash)
  {
    Commitment(CreateCommitment(value, nonce, hash))
  }

  /** `Commitment::commit`, with the fresh random nonce passed in; the nonce is returned to the caller. */
  function Commit(value: seq<byte>, nonce: Nonce, hash: seq<byte> -> Hash): (r: (Commitment, Nonce))
    ensures r.1 == nonce && r.0 == CommitWithNonce(value, nonce, hash)
  {
    (CommitWithNonce(value, nonce, hash), nonce)
  }

  /** `Commitment::verify`. */
  predicate Verify(c: Commitment, value: seq<byte>, nonce: Nonce, hash: seq<byte> -> Hash) {
    VerifyCommitment(value, nonce, c.hash, hash)
  }

  /** A commitment made with a fixed nonce verifies against that value and nonce, and
      (with a collision-free hash) against no other. */
  lemma CommitVerifies(value: seq<byte>, nonce: Nonce, other: seq<byte>, otherNonce: Nonce, hash: seq<byte> -> Hash)
    requires Injective(hash)
    ensures Verify(CommitWithNonce(value, nonce, hash), value, nonce, hash)
    ensures Verify(CommitWithNonce(value, nonce, hash), other, otherNonce, hash) <==> other == value && otherNonce == nonce
  {
    CommitmentBinding(value, nonce, other, otherNonce, hash);
  }

  // ----- Range proofs -----

  datatype RangeProof = RangeProof(
    commitment: Commitment,
    challenge: Hash,
    response: Hash,
    min: i64,
    max: i64,
    boundaryCommitments: seq<Hash>)

  /** The nonces a range proof draws at random: for the value and the two boundary differences. */
  datatype RangeNonces = RangeNonces(value: Nonce, lower: Nonce, upper: Nonce)

  /** 8 little-endian bytes of an unsigned 64-bit difference. */
  function U64LE(d: nat): (r: seq<byte>)
    requires d < TWO_64
    ensures |r| == 8
  {
    PowWidths();
    LE(d, 8)
  }

  /** Fiat-Shamir challenge input: commitment ‖ lower ‖ upper ‖ min ‖ max. */
  function ChallengeInput(c: Hash, lower: Hash, upper: Hash, min: i64, max: i64): (r: seq<byte>)
    ensures |r| == 112
  {
    var x: seq<byte> := c;
    x + lower + upper + I64LE(min) + I64LE(max)
  }

  /** Response input: value bytes ‖ nonce ‖ challenge. */
  function ResponseInput(value: seq<byte>, nonce: Nonce, challenge: Hash): (r: seq<byte>)
    ensures |r| == |value| + 64
  {
    value + nonce + challenge
  }

  /** Assembles a range proof from the committed boundary differences. */
  function RangeProofFrom(value: i64, min: i64, max: i64, lowerDiff: seq<byte>, upperDiff: seq<byte>,
                          ns: RangeNonces, hash: seq<byte> -> Hash): (r: (RangeProof, Nonce))
    ensures r.0.min == min && r.0.max == max && r.1 == ns.value
    ensures r.0.boundaryCommitments == [CreateCommitment(lowerDiff, ns.lower, hash), CreateCommitment(upperDiff, ns.upper, hash)]
    ensures Verify(r.0.commitment, I64LE(value), ns.value, hash)
    ensures r.0.challenge == hash(ChallengeInput(r.0.commitment.hash, r.0.boundaryCommitments[0],
                                                 r.0.boundaryCommitments[1], min, max))
  {
    var (commitment, nonce) := Commit(I64LE(value), ns.value, hash);
    var lower := CreateCommitment(lowerDiff, ns.lower, hash);
    var upper := CreateCommitment(upperDiff, ns.upper, hash);
    var challenge := hash(ChallengeInput(commitment.hash, lower, upper, min, max));
    var response := hash(ResponseInput(I64LE(value), nonce, challenge));
    (RangeProof(commitment, challenge, response, min, max, [lower, upper]), nonce)
  }

  /** `prove_range`, with the boundary differences computed without overflow: both
      `value - min` and `max - value` lie in [0, 2^64) once the value is in range. */
  function ProveRange(value: i64, min: i64, max: i64, ns: RangeNonces, hash: seq<byte> -> Hash)
    : (r: Result<(RangeProof, Nonce), ZkpError>)
    ensures r.Err? <==> value < min || value > max
    ensures r.Err? ==> r.error == ValueOutOfRange(value, min, max)
    ensures r.Ok? ==> r.value.0.min == min && r.value.0.max == max && |r.value.0.boundaryCommitments| == 2
    ensures r.Ok? ==> Verify(r.value.0.commitment, I64LE(value), r.value.1, hash)
    ensures r.Ok? ==> r.value.0.boundaryCommitments
                      == [CreateCommitment(U64LE(value - min), ns.lower, hash),
                          CreateCommitment(U64LE(max - value), ns.upper, hash)]
  {
    if value < min || value > max then Err(ValueOutOfRange(value, min, max))
    else
      assert IsI64(value) && IsI64(min) && IsI64(max);
      Ok(RangeProofFrom(value, min, max, U64LE(value - min), U64LE(max - value), ns, hash))
  }

  /** `verify_range`: the range and the boundary count are checked first, then the
      challenge is recomputed from the public data. */
  function VerifyRange(p: RangeProof, hash: seq<byte> -> Hash): (r: Result<bool, ZkpError>)
    ensures p.min > p.max <==> r == Err(InvalidRange)
    ensures p.min <= p.max && |p.boundaryCommitments| != 2 <==> r == Err(WrongBoundaryCount)
    ensures r == Ok(true) <==>
              p.min <= p.max && |p.boundaryCommitments| == 2 &&
              p.challenge == hash(ChallengeInput(p.commitment.hash, p.boundaryCommitments[0],
                                                 p.boundaryCommitments[1], p.min, p.max))
  {
    if p.min > p.max then Err(InvalidRange)
    else if |p.boundaryCommitments| != 2 then Err(WrongBoundaryCount)
    else
      var expected := hash(ChallengeInput(p.commitment.hash, p.boundaryCommitments[0],
                                          p.boundaryCommitments[1], p.min, p.max));
      Ok(p.challenge == expected)
  }

  /** Every proof `prove_range` produces verifies. */
  lemma RangeProofVerifies(value: i64, min: i64, max: i64, ns: RangeNonces, hash: seq<byte> -> Hash)
    requires min <= value <= max
    ensures ProveRange(value, min, max, ns, hash).Ok?
    ensures VerifyRange(ProveRange(value, min, max, ns, hash).value.0, hash) == Ok(true)
  {
  }

  /** Replacing the challenge of a produced proof by any other value makes it fail to verify. */
  lemma TamperedChallengeRejected(value: i64, min: i64, max: i64, ns: RangeNonces, forged: Hash,
                                  hash: seq<byte> -> Hash)
    requires min <= value <= max
    requires forged != ProveRange(value, min, max, ns, hash).value.0.challenge
    ensures VerifyRange(ProveRange(value, min, max, ns, hash).value.0.(challenge := forged), hash) == Ok(false)
  {
  }

  // ----- Range proofs as written: checked i64 subtraction -----

  /** The outcome of checked signed arithmetic: a value, or the overflow panic. */
  datatype Checked<T> = Value(v: T) | Overflow

  /** `a - b` on `i64` in a build with overflow checks. */
  function CheckedSub(a: i64, b: i64): (r: Checked<i64>)
    ensures r.Value? <==> IsI64(a - b)
    ensures r.Value? ==> r.v == a - b
  {
    if IsI64(a - b) then Value(a - b) else Overflow
  }

  /** `prove_range` as written: the differences are taken as `i64`, so an in-range value
      whose distance to a bound exceeds `i64::MAX` aborts the prover. */
  function ProveRangeAsWritten(value: i64, min: i64, max: i64, ns: RangeNonces, hash: seq<byte> -> Hash)
    : (r: Checked<Result<(RangeProof, Nonce), ZkpError>>)
    ensures (value < min || value > max) ==> r == Value(Err(ValueOutOfRange(value, min, max)))
    ensures r.Overflow? <==> min <= value <= max && (!IsI64(value - min) || !IsI64(max - value))
    ensures r.Value? && min <= value <= max ==>
              r.v == Ok(RangeProofFrom(value, min, max, I64LE(value - min), I64LE(max - value), ns, hash))
  {
    if value < min || value > max then Value(Err(ValueOutOfRange(value, min, max)))
    else
      match CheckedSub(value, min)
      case Overflow => Overflow
      case Value(lo) =>
        match CheckedSub(max, value)
        case Overflow => Overflow
        case Value(hi) => Value(Ok(RangeProofFrom(value, min, max, I64LE(lo), I64LE(hi), ns, hash)))
  }

  /** A non-negative `i64` is laid out as the same `u64`. */
  lemma NonNegativeLayout(d: int)
    requires 0 <= d && IsI64(d)
    ensures I64LE(d) == U64LE(d)
  {
    assert I64Bits(d) == d;
  }

  /** Where both differences fit, the as-written prover and the corrected one agree byte for byte. */
  lemma AsWrittenAgreesInside(value: i64, min: i64, max: i64, ns: RangeNonces, hash: seq<byte> -> Hash)
    requires min <= value <= max && IsI64(value - min) && IsI64(max - value)
    ensures ProveRangeAsWritten(value, min, max, ns, hash) == Value(ProveRange(value, min, max, ns, hash))
  {
    NonNegativeLayout(value - min);
    NonNegativeLayout(max - value);
  }

  /** The value 0 lies in [i64::MIN, 0], yet the as-written prover overflows on it
      while the corrected prover produces a proof. */
  lemma RangeProofOverflowWitness(ns: RangeNonces, hash: seq<byte> -> Hash)
    ensures ProveRangeAsWritten(0, -(TWO_63 as int), 0, ns, hash) == Overflow
    ensures ProveRange(0, -(TWO_63 as int), 0, ns, hash).Ok?
  {
  }

  // ----- Set membership -----

  datatype SetMembershipProof = SetMembershipProof(
    commitment: Commitment,
    setRoot: Hash,
    merklePath: seq<Hash>,
    pathDirections: seq<bool>,
    challenge: Hash,
    response: Hash)

  /** Position of the first member equal to the value (`Iterator::position`). */
  function Position(members: seq<seq<byte>>, value: seq<byte>): (r: Option<nat>)
    ensures r.None? <==> value !in members
    ensures r.Some? ==> r.value < |members| && members[r.value] == value &&
                        forall j :: 0 <= j < r.value ==> members[j] != value
  {
    if |members| == 0 then None
    else if members[0] == value then Some(0)
    else match Position(members[1..], value)
      case None => None
      case Some(i) => Some(i + 1)
  }

  /** The leaf hashes of the set's members, in order. */
  function Leaves(members: seq<seq<byte>>, hash: seq<byte> -> Hash): (r: seq<Hash>)
    ensures |r| == |members|
    ensures forall i :: 0 <= i < |members| ==> r[i] == hash(members[i])
  {
    if |members| == 0 then [] else [hash(members[0])] + Leaves(members[1..], hash)
  }

  /** `build_merkle_proof`: no path for at most one leaf, otherwise one sibling per level. */
  function BuildMerkleProof(leaves: seq<Hash>, index: nat, hash: seq<byte> -> Hash): (r: (seq<Hash>, seq<bool>))
    requires |leaves| <= 1 || index < |leaves|
    ensures |r.0| == |r.1| == Merkle.Depth(|leaves|)
    ensures |leaves| <= 1 ==> r == ([], [])
    ensures index < |leaves| ==>
              Merkle.Climb(leaves[index], r.0, r.1, hash) == Merkle.Root(leaves, hash)
  {
    if |leaves| <= 1 then ([], [])
    else
      Merkle.PathReachesRoot(leaves, index, hash);
      Merkle.PathFrom(leaves, index, hash)
  }

  /** The set-membership challenge input: commitment ‖ set root. */
  function RootChallengeInput(c: Hash, root: Hash): (r: seq<byte>)
    ensures |r| == 64
  {
    var x: seq<byte> := c;
    x + root
  }

  /** `prove_set_membership`, with the random nonce passed in. */
  function ProveSetMembership(value: seq<byte>, members: seq<seq<byte>>, nonce: Nonce, hash: seq<byte> -> Hash)
    : (r: Result<(SetMembershipProof, Nonce), ZkpError>)
    ensures r.Err? <==> value !in members
    ensures r.Err? ==> r.error == ValueNotInSet
    ensures r.Ok? ==> r.value.0.setRoot == Merkle.Root(Leaves(members, hash), hash)
    ensures r.Ok? ==> Verify(r.value.0.commitment, value, r.value.1, hash)
    ensures r.Ok? ==> |r.value.0.merklePath| == |r.value.0.pathDirections| &&
                      Merkle.Climb(hash(value), r.value.0.merklePath, r.value.0.pathDirections, hash)
                      == r.value.0.setRoot
  {
    match Position(members, value)
    case None => Err(ValueNotInSet)
    case Some(index) =>
      var leaves := Leaves(members, hash);
      var (path, dirs) := BuildMerkleProof(leaves, index, hash);
      var root := Merkle.Root(leaves, hash);
      var (commitment, n) := Commit(value, nonce, hash);
      var challenge := hash(RootChallengeInput(commitment.hash, root));
      var response := hash(ResponseInput(value, n, challenge));
      Ok((SetMembershipProof(commitment, root, path, dirs, challenge, response), n))
  }

  /** `verify_set_membership`: the root must be the expected one and the challenge must
      be recomputable; it never errors. */
  function VerifySetMembership(p: SetMembershipProof, expectedRoot: Hash, hash: seq<byte> -> Hash)
    : (r: Result<bool, ZkpError>)
    ensures r.Ok?
    ensures r.value <==> p.setRoot == expectedRoot && p.challenge == hash(RootChallengeInput(p.commitment.hash, p.setRoot))
  {
    if p.setRoot != expectedRoot then Ok(false)
    else if p.challenge != hash(RootChallengeInput(p.commitment.hash, p.setRoot)) then Ok(false)
    else Ok(true)
  }

  /** A membership proof verifies against the root of the members's leaf hashes, and
      against no other root. */
  lemma MembershipProofVerifies(value: seq<byte>, members: seq<seq<byte>>, nonce: Nonce, root: Hash,
                                hash: seq<byte> -> Hash)
    requires value in members
    ensures ProveSetMembership(value, members, nonce, hash).Ok?
    ensures VerifySetMembership(ProveSetMembership(value, members, nonce, hash).value.0, root, hash) == Ok(true)
            <==> root == Merkle.Root(Leaves(members, hash), hash)
  {
  }
}
