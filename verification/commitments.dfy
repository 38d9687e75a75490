// Hash commitments H(value ‖ nonce) of the credential crate's hashing helpers.
module Commitments {
  import opened Bytes

  /** A 32-byte commitment nonce. */
  type Nonce = Hash

  /** Distinct inputs give distinct digests: the collision resistance a commitment relies on. */
  ghost predicate Injective(hash: seq<byte> -> Hash) {
    forall a, b :: hash(a) == hash(b) ==> a == b
  }

  /** The committed bytes: the value followed by the 32-byte nonce. */
  function Opening(value: seq<byte>, nonce: Nonce): (r: seq<byte>)
    ensures |r| == |value| + 32
    ensures r[..|value|] == value && r[|value|..] == nonce
  {
    value + nonce
  }

  /** `create_commitment`. */
  function CreateCommitment(value: seq<byte>, nonce: Nonce, hash: seq<byte> -> Hash): (c: Hash)
  {
    hash(Opening(value, nonce))
  }

  /** `verify_commitment`: recompute and compare. */
  predicate VerifyCommitment(value: seq<byte>, nonce: Nonce, c: Hash, hash: seq<byte> -> Hash) {
    CreateCommitment(value, nonce, hash) == c
  }

  /** A commitment opens with the value and nonce it was made from. */
  lemma CommitmentOpens(value: seq<byte>, nonce: Nonce, hash: seq<byte> -> Hash)
    ensures VerifyCommitment(value, nonce, CreateCommitment(value, nonce, hash), hash)
  {
  }

  /** With a collision-free hash a commitment opens with exactly one (value, nonce):
      the fixed nonce width makes the split of the opening unambiguous. */
  lemma CommitmentBinding(v1: seq<byte>, n1: Nonce, v2: seq<byte>, n2: Nonce, hash: seq<byte> -> Hash)
    requires Injective(hash)
    ensures VerifyCommitment(v2, n2, CreateCommitment(v1, n1, hash), hash) <==> v1 == v2 && n1 == n2
  {
    if VerifyCommitment(v2, n2, CreateCommitment(v1, n1, hash), hash) {
      var o1, o2 := Opening(v1, n1), Opening(v2, n2);
      assert o1 == o2;
      assert |v1| == |v2|;
      assert v1 == o1[..|v1|] && v2 == o2[..|v2|];
      assert n1 == o1[|v1|..] && n2 == o2[|v2|..];
    }
  }
}
