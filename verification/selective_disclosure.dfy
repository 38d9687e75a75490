/** Selective disclosure of credential claims: every claim is committed on its own, so
    the holder can open chosen claims and keep the rest behind their commitments. The
    fresh random nonce of each commitment is a parameter; `hash` stands for BLAKE3. */
module SelectiveDisclosures {
  import opened Bytes
  import opened Wrappers
  import opened Text
  import opened Commitments
  import opened Zkp
  import Merkle

  /** Claim name to its commitment and the nonce that opens it. */
  datatype SelectiveDisclosure = SelectiveDisclosure(claims: map<string, (Commitment, Nonce)>)

  /** `SelectiveDisclosure::new`. */
  function NewDisclosure(): (sd: SelectiveDisclosure)
    ensures Len(sd) == 0 && IsEmpty(sd)
  {
    SelectiveDisclosure(map[])
  }

  /** `add_claim`: commits to the value under a fresh nonce and stores both under the
      name, replacing an earlier claim of that name; the commitment is returned. */
  function AddClaim(sd: SelectiveDisclosure, name: string, value: seq<byte>, nonce: Nonce,
                    hash: seq<byte> -> Hash): (r: (SelectiveDisclosure, Commitment))
    ensures r.0.claims == sd.claims[name := (r.1, nonce)]
    ensures Verify(r.1, value, nonce, hash)
    ensures RevealClaim(r.0, name) == Some((r.1, nonce))
    ensures forall n :: n != name ==> RevealClaim(r.0, n) == RevealClaim(sd, n)
    ensures Len(r.0) == Len(sd) + (if name in sd.claims then 0 else 1)
  {
    var (c, n) := Commit(value, nonce, hash);
    (SelectiveDisclosure(sd.claims[name := (c, n)]), c)
  }

  /** `commitment_for`: the commitment of a named claim. */
  function CommitmentFor(sd: SelectiveDisclosure, name: string): (r: Option<Commitment>)
    ensures r.Some? <==> name in sd.claims
    ensures r.Some? ==> r.value == sd.claims[name].0
  {
    if name in sd.claims then Some(sd.claims[name].0) else None
  }

  /** `reveal_claim`: the commitment of a named claim with the nonce that opens it. */
  function RevealClaim(sd: SelectiveDisclosure, name: string): (r: Option<(Commitment, Nonce)>)
    ensures r.Some? <==> name in sd.claims
    ensures r.Some? ==> r.value == sd.claims[name] && CommitmentFor(sd, name) == Some(r.value.0)
  {
    if name in sd.claims then Some(sd.claims[name]) else None
  }

  /** `len`. */
  function Len(sd: SelectiveDisclosure): nat {
    |sd.claims|
  }

  /** `is_empty`. */
  predicate IsEmpty(sd: SelectiveDisclosure) {
    |sd.claims| == 0
  }

  /** `order` lists every claim name exactly once: the map's iteration order. */
  ghost predicate Enumerates(sd: SelectiveDisclosure, order: seq<string>) {
    (forall n :: n in order <==> n in sd.claims) &&
    (forall i, j :: 0 <= i < j < |order| ==> order[i] != order[j])
  }

  /** `claim_names`, in the map's iteration order: every claim name once. */
  function ClaimNames(sd: SelectiveDisclosure, order: seq<string>): (r: seq<string>)
    requires Enumerates(sd, order)
    ensures forall n :: n in r <==> CommitmentFor(sd, n).Some?
    ensures |r| == Len(sd)
  {
    DistinctCount(order, sd.claims.Keys);
    order
  }

  /** `verify_revealed`: checks an opened value against its commitment; never an error. */
  function VerifyRevealed(c: Commitment, value: seq<byte>, nonce: Nonce, hash: seq<byte> -> Hash): (r: Result<bool, ZkpError>)
    ensures r.Ok?
    ensures r.value <==> hash(Opening(value, nonce)) == c.hash
  {
    Ok(Verify(c, value, nonce, hash))
  }

  /** The commitment hashes of the named claims, in the order given. */
  function ClaimHashes(sd: SelectiveDisclosure, names: seq<string>): (r: seq<Hash>)
    requires forall n :: n in names ==> n in sd.claims
    ensures |r| == |names|
    ensures forall i :: 0 <= i < |names| ==> r[i] == sd.claims[names[i]].0.hash
  {
    seq(|names|, i requires 0 <= i < |names| => sd.claims[names[i]].0.hash)
  }

  /** `commitment_root`: the Merkle root over the commitment hashes taken in increasing
      order of claim name. `order` is the map's iteration order, which the sort discards. */
  function CommitmentRoot(sd: SelectiveDisclosure, order: seq<string>, hash: seq<byte> -> Hash): (r: Hash)
    requires forall n :: n in order <==> n in sd.claims
    ensures exists names :: StrictlySorted(names) && (forall n :: n in names <==> n in sd.claims) &&
                            r == Merkle.Root(ClaimHashes(sd, names), hash)
  {
    var names := SortDedup(order);
    Merkle.Root(ClaimHashes(sd, names), hash)
  }

  /** The root depends only on the claims, not on the order the map lists them in. */
  lemma RootIndependentOfOrder(sd: SelectiveDisclosure, o1: seq<string>, o2: seq<string>, hash: seq<byte> -> Hash)
    requires forall n :: n in o1 <==> n in sd.claims
    requires forall n :: n in o2 <==> n in sd.claims
    ensures CommitmentRoot(sd, o1, hash) == CommitmentRoot(sd, o2, hash)
  {
    StrictlySortedUnique(SortDedup(o1), SortDedup(o2));
  }

  /** A claim added and then revealed opens with its own value, and the holder's other
      claims are revealed as before. */
  lemma RevealAfterAdd(sd: SelectiveDisclosure, name: string, value: seq<byte>, nonce: Nonce,
                       other: string, hash: seq<byte> -> Hash)
    requires other != name
    ensures var (sd2, c) := AddClaim(sd, name, value, nonce, hash);
            RevealClaim(sd2, name).Some? &&
            VerifyRevealed(RevealClaim(sd2, name).value.0, value, RevealClaim(sd2, name).value.1, hash) == Ok(true) &&
            RevealClaim(sd2, other) == RevealClaim(sd, other)
  {
  }

  /** With a collision-free hash a revealed claim opens with no value but the committed one. */
  lemma RevealedBinding(sd: SelectiveDisclosure, name: string, value: seq<byte>, nonce: Nonce,
                        forged: seq<byte>, hash: seq<byte> -> Hash)
    requires Injective(hash) && forged != value
    ensures var (sd2, c) := AddClaim(sd, name, value, nonce, hash);
            VerifyRevealed(c, forged, nonce, hash) == Ok(false)
  {
    CommitVerifies(value, nonce, forged, nonce, hash);
  }
}
