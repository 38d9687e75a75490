/** The credential verifier: a set of trusted issuers with their public keys, and the
    check list `verify_credential` reports. */
module CredentialVerifier {
  import opened Wrappers
  import opened Bytes
  import opened Credentials
  import opened Schemas

  /** Trusted issuer DIDs and their keys. */
  datatype Verifier = Verifier(trusted: map<string, PublicKey>)

  datatype Check = Check(name: string, passed: bool, detail: Option<string>)

  datatype VerificationResult = VerificationResult(valid: bool, checks: seq<Check>)

  /** `add_trusted_issuer`: inserts or replaces the issuer's key. */
  function AddTrustedIssuer(v: Verifier, did: string, pk: PublicKey): (r: Verifier)
    ensures IsTrustedIssuer(r, did) && r.trusted[did] == pk
    ensures forall d :: d != did ==> (IsTrustedIssuer(r, d) <==> IsTrustedIssuer(v, d))
  {
    Verifier(v.trusted[did := pk])
  }

  /** `remove_trusted_issuer`: reports whether the issuer was present; afterwards it is not. */
  function RemoveTrustedIssuer(v: Verifier, did: string): (r: (Verifier, bool))
    ensures r.1 <==> IsTrustedIssuer(v, did)
    ensures !IsTrustedIssuer(r.0, did)
    ensures forall d :: d != did ==> (IsTrustedIssuer(r.0, d) <==> IsTrustedIssuer(v, d))
    ensures TrustedIssuerCount(r.0) == TrustedIssuerCount(v) - (if r.1 then 1 else 0)
  {
    (Verifier(v.trusted - {did}), did in v.trusted)
  }

  /** `is_trusted_issuer`. */
  predicate IsTrustedIssuer(v: Verifier, did: string) {
    did in v.trusted
  }

  /** `trusted_issuer_count`. */
  function TrustedIssuerCount(v: Verifier): nat {
    |v.trusted|
  }

  function CheckOf(name: string, passed: bool, failure: string): (c: Check)
    ensures c.name == name && c.passed == passed && (c.detail.None? <==> passed)
  {
    Check(name, passed, if passed then None else Some(failure))
  }

  /** `verify_credential` at clock reading `now`: an unsigned credential stops after the
      first check; a signed one gets the four checks in order, and the signature is only
      checked against a trusted issuer's key. */
  function VerifyCredential(v: Verifier, c: Credential, now: int, canonical: PayloadView -> seq<byte>,
                            hexDecode: string -> Option<seq<byte>>,
                            verify: (seq<byte>, seq<byte>, PublicKey) -> bool): (r: Result<VerificationResult, CredentialError>)
    ensures r.Ok?
    ensures !c.IsSigned() ==> !r.value.valid && |r.value.checks| == 1 &&
                              r.value.checks[0].name == "signature_present" && !r.value.checks[0].passed
    ensures c.IsSigned() ==> |r.value.checks| == 4 &&
                             r.value.checks[0].name == "signature_present" && r.value.checks[0].passed &&
                             r.value.checks[1].name == "issuer_trusted" &&
                             r.value.checks[2].name == "signature_valid" &&
                             r.value.checks[3].name == "not_expired"
    ensures c.IsSigned() ==> (r.value.checks[1].passed <==> IsTrustedIssuer(v, c.issuer))
    ensures c.IsSigned() ==>
              (r.value.checks[2].passed <==>
                 IsTrustedIssuer(v, c.issuer) &&
                 VerifyProof(c, v.trusted[c.issuer], now, canonical, hexDecode, verify).Ok?)
    ensures c.IsSigned() ==> (r.value.checks[3].passed <==> !c.IsExpired(now))
    ensures r.value.valid <==> forall i :: 0 <= i < |r.value.checks| ==> r.value.checks[i].passed
  {
    var signed := c.IsSigned();
    var present := CheckOf("signature_present", signed, "credential is not signed");
    if !signed then Ok(VerificationResult(false, [present]))
    else
      var issuerTrusted := IsTrustedIssuer(v, c.issuer);
      var sigValid := issuerTrusted && VerifyProof(c, v.trusted[c.issuer], now, canonical, hexDecode, verify).Ok?;
      var notExpired := !c.IsExpired(now);
      var checks := [present,
                     CheckOf("issuer_trusted", issuerTrusted, "issuer " + c.issuer + " is not trusted"),
                     CheckOf("signature_valid", sigValid, "signature verification failed or issuer unknown"),
                     CheckOf("not_expired", notExpired, "credential has expired")];
      Ok(VerificationResult(signed && issuerTrusted && sigValid && notExpired, checks))
  }

  /** An unexpired credential issued under a trusted issuer's key passes every check,
      given the signature assumptions of `IssuedVerifies`. */
  lemma IssuedByTrustedIsValid(v: Verifier, c: Credential, now: int, issuedAt: int,
                               canonical: PayloadView -> seq<byte>, sign: seq<byte> -> seq<byte>,
                               toHex: seq<byte> -> string, hexDecode: string -> Option<seq<byte>>,
                               verify: (seq<byte>, seq<byte>, PublicKey) -> bool)
    requires IsTrustedIssuer(v, c.issuer)
    requires forall b :: hexDecode(toHex(b)) == Some(b)
    requires forall m :: |sign(m)| == 64 && verify(m, sign(m), v.trusted[c.issuer])
    requires !c.IsExpired(now)
    ensures VerifyCredential(v, Issue(c, canonical, sign, toHex, issuedAt).value, now, canonical, hexDecode, verify).value.valid
  {
    IssuedVerifies(c, v.trusted[c.issuer], now, issuedAt, canonical, sign, toHex, hexDecode, verify);
  }
}
