/** Verifiable credentials of the Veritas identity crate: construction, expiry,
    issuance (attaching a signature proof) and proof verification. Signing, hex
    encoding and signature checking are function parameters; times are integers. */
module Credentials {
  import opened Wrappers
  import opened Bytes
  import opened IdentityErrors

  /** A JSON value; numbers are reduced to integers. */
  datatype Json =
    | JObject(fields: map<string, Json>)
    | JArray(items: seq<Json>)
    | JString(s: string)
    | JNumber(n: int)
    | JBool(b: bool)
    | JNull

  type PublicKey = seq<byte>

  datatype CredentialProof = CredentialProof(
    proofType: string,
    created: int,
    verificationMethod: string,
    signatureHex: string)

  datatype Credential = Credential(
    id: string,
    credentialType: seq<string>,
    issuer: string,
    subject: string,
    issuanceDate: int,
    expirationDate: Option<int>,
    claims: Json,
    proof: Option<CredentialProof>)
  {
    /** `is_signed`. */
    predicate IsSigned() { proof.Some? }

    /** `is_expired`, at clock reading `now`: an expiry is present and has passed. */
    predicate IsExpired(now: int) { expirationDate.Some? && now > expirationDate.value }
  }

  const BASE_TYPE: string := "VerifiableCredential"
  const PROOF_TYPE: string := "Ed25519Signature2020"
  const ID_PREFIX: string := "urn:uuid:"

  /** The caller's types with every copy of the base type removed, in their order. */
  function OtherTypes(ts: seq<string>): (r: seq<string>)
    ensures forall t :: t in r <==> t in ts && t != BASE_TYPE
    ensures |r| <= |ts|
    ensures BASE_TYPE !in ts ==> r == ts
  {
    if |ts| == 0 then []
    else if ts[0] == BASE_TYPE then OtherTypes(ts[1..])
    else [ts[0]] + OtherTypes(ts[1..])
  }

  /** Number of occurrences of t in ts. */
  function Occurrences(ts: seq<string>, t: string): nat {
    if |ts| == 0 then 0 else (if ts[0] == t then 1 else 0) + Occurrences(ts[1..], t)
  }

  lemma {:induction false} OccurrencesAbsent(ts: seq<string>, t: string)
    requires t !in ts
    ensures Occurrences(ts, t) == 0
  {
    if |ts| > 0 {
      assert t !in ts[1..];
      OccurrencesAbsent(ts[1..], t);
    }
  }

  /** `VerifiableCredential::new`, with the UUID text and the clock passed in: the base
      type comes first and only once, followed by the other requested types; the
      credential is unsigned and has no expiry. */
  function NewCredential(issuer: string, subject: string, types: seq<string>, claims: Json,
                         uuidText: string, now: int): (c: Credential)
    ensures |c.credentialType| >= 1 && c.credentialType[0] == BASE_TYPE
    ensures Occurrences(c.credentialType, BASE_TYPE) == 1
    ensures forall t :: t in types ==> t in c.credentialType
    ensures c.credentialType[1..] == OtherTypes(types)
    ensures c.proof.None? && c.expirationDate.None? && !c.IsSigned()
    ensures |c.id| >= |ID_PREFIX| && c.id[..|ID_PREFIX|] == ID_PREFIX
    ensures c.issuer == issuer && c.subject == subject && c.claims == claims && c.issuanceDate == now
  {
    var ts := [BASE_TYPE] + OtherTypes(types);
    OccurrencesAbsent(OtherTypes(types), BASE_TYPE);
    assert ts[1..] == OtherTypes(types);
    Credential(ID_PREFIX + uuidText, ts, issuer, subject, now, None, claims, None)
  }

  /** `with_expiration`: sets the expiry and nothing else. */
  function WithExpiration(c: Credential, expiration: int): (r: Credential)
    ensures r.expirationDate == Some(expiration)
    ensures r.(expirationDate := c.expirationDate) == c
  {
    c.(expirationDate := Some(expiration))
  }

  /** The fields the canonical signing payload covers: everything but the proof. */
  datatype PayloadView = PayloadView(
    id: string, types: seq<string>, issuer: string, subject: string,
    issuanceDate: int, expirationDate: Option<int>, claims: Json)

  /** `signing_payload`; `canonical` stands for the deterministic JSON serialization. */
  function SigningPayload(c: Credential, canonical: PayloadView -> seq<byte>): seq<byte> {
    canonical(PayloadView(c.id, c.credentialType, c.issuer, c.subject, c.issuanceDate, c.expirationDate, c.claims))
  }

  /** The payload ignores the proof, so it is the same before and after issuance. */
  lemma PayloadIgnoresProof(c: Credential, p: Option<CredentialProof>, canonical: PayloadView -> seq<byte>)
    ensures SigningPayload(c.(proof := p), canonical) == SigningPayload(c, canonical)
  {
  }

  /** `issue`: signs the payload with the issuer's key (`sign`), hex-encodes the signature
      (`toHex`) and attaches the proof; no other field changes. */
  function Issue(c: Credential, canonical: PayloadView -> seq<byte>, sign: seq<byte> -> seq<byte>,
                 toHex: seq<byte> -> string, now: int): (r: Result<Credential, IdentityError>)
    ensures r.Ok? && r.value.IsSigned()
    ensures r.value.proof.value.proofType == PROOF_TYPE
    ensures r.value.proof.value.verificationMethod == c.issuer + "#keys-1"
    ensures r.value.proof.value.signatureHex == toHex(sign(SigningPayload(c, canonical)))
    ensures r.value.(proof := c.proof) == c
  {
    var sig := sign(SigningPayload(c, canonical));
    Ok(c.(proof := Some(CredentialProof(PROOF_TYPE, now, c.issuer + "#keys-1", toHex(sig)))))
  }

  /** `verify_proof` at clock reading `now`: a missing proof, then expiry, then hex decoding,
      the 64-byte signature length and finally the signature check, in that order. */
  function VerifyProof(c: Credential, pk: PublicKey, now: int, canonical: PayloadView -> seq<byte>,
                       hexDecode: string -> Option<seq<byte>>,
                       verify: (seq<byte>, seq<byte>, PublicKey) -> bool): (r: Result<(), IdentityError>)
    ensures c.proof.None? ==> r == Err(CredentialVerification("no proof attached"))
    ensures c.proof.Some? && c.IsExpired(now) ==> r == Err(CredentialVerification("credential has expired"))
    ensures r.Ok? <==> c.proof.Some? && !c.IsExpired(now) &&
                       hexDecode(c.proof.value.signatureHex).Some? &&
                       |hexDecode(c.proof.value.signatureHex).value| == 64 &&
                       verify(SigningPayload(c, canonical), hexDecode(c.proof.value.signatureHex).value, pk)
  {
    if c.proof.None? then Err(CredentialVerification("no proof attached"))
    else if c.IsExpired(now) then Err(CredentialVerification("credential has expired"))
    else match hexDecode(c.proof.value.signatureHex)
      case None => Err(CredentialVerification("invalid signature hex"))
      case Some(bytes) =>
        if |bytes| != 64 then Err(CredentialVerification("invalid signature"))
        else if verify(SigningPayload(c, canonical), bytes, pk) then Ok(())
        else Err(CredentialVerification("signature verification failed"))
  }

  /** A credential issued with a key verifies under the matching public key until it
      expires, given that hex decoding inverts encoding, signatures are 64 bytes, and
      the signature scheme accepts its own signatures. */
  lemma IssuedVerifies(c: Credential, pk: PublicKey, now: int, issuedAt: int,
                       canonical: PayloadView -> seq<byte>, sign: seq<byte> -> seq<byte>,
                       toHex: seq<byte> -> string, hexDecode: string -> Option<seq<byte>>,
                       verify: (seq<byte>, seq<byte>, PublicKey) -> bool)
    requires forall b :: hexDecode(toHex(b)) == Some(b)
    requires forall m :: |sign(m)| == 64 && verify(m, sign(m), pk)
    ensures var r := Issue(c, canonical, sign, toHex, issuedAt).value;
            VerifyProof(r, pk, now, canonical, hexDecode, verify).Ok? <==> !c.IsExpired(now)
  {
    var r := Issue(c, canonical, sign, toHex, issuedAt).value;
    PayloadIgnoresProof(c, r.proof, canonical);
    assert r.(proof := c.proof) == c;
  }
}
