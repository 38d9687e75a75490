/** The credential schema registry: the four built-in schemas, registration of
    custom schemas, and validation of a claims object against a schema. */
module Schemas {
  import opened Wrappers
  import opened VeritasTypes
  import opened Credentials

  /** Errors of the credentials crate (messages reduced to the value they name). */
  datatype CredentialError =
    | SchemaNotFound(id: string)
    | InvalidSchema(reason: string)
    | CredentialNotFound(id: string)
    | VerificationFailed(reason: string)

  datatype ClaimDefinition = ClaimDefinition(name: string, valueType: string, required: bool, description: Option<string>)

  datatype CredentialSchema = CredentialSchema(
    id: SchemaId, name: string, version: string, claims: seq<ClaimDefinition>, description: string)

  /** Schemas keyed by their identifier string. */
  datatype Registry = Registry(schemas: map<string, CredentialSchema>)

  function Required(name: string, valueType: string, description: string): ClaimDefinition {
    ClaimDefinition(name, valueType, true, Some(description))
  }

  const KYC_BASIC: CredentialSchema := CredentialSchema(
    SchemaId("kyc-basic-v1"), "Basic KYC", "1.0.0",
    [Required("full_name", "string", "Full legal name"),
     Required("date_of_birth", "date", "Date of birth (ISO 8601)"),
     Required("country", "string", "Country of citizenship (ISO 3166-1 alpha-2)")],
    "Basic KYC verification with name, DOB, and country")

  const AGE_VERIFICATION: CredentialSchema := CredentialSchema(
    SchemaId("age-verification-v1"), "Age Verification", "1.0.0",
    [Required("date_of_birth", "date", "Date of birth (for commitment)"),
     Required("min_age_verified", "integer", "Minimum age that was verified")],
    "Proves age without revealing date of birth")

  const RESIDENCY: CredentialSchema := CredentialSchema(
    SchemaId("residency-v1"), "Residency Proof", "1.0.0",
    [Required("country", "string", "Country of residence"),
     ClaimDefinition("region", "string", false, Some("State/region of residence"))],
    "Proves country of residence")

  const HUMANITY: CredentialSchema := CredentialSchema(
    SchemaId("humanity-proof-v1"), "Humanity Proof", "1.0.0",
    [Required("verification_methods", "string", "Comma-separated verification methods used"),
     Required("confidence_score", "integer", "Confidence score (0-100)")],
    "AI-resistant proof of humanity")

  /** `SchemaRegistry::new`: exactly the four built-in schemas, each under its own identifier. */
  function NewRegistry(): (r: Registry)
    ensures r.schemas.Keys == {"kyc-basic-v1", "age-verification-v1", "residency-v1", "humanity-proof-v1"}
    ensures |r.schemas| == 4
    ensures forall k :: k in r.schemas ==> r.schemas[k].id.id == k && |r.schemas[k].claims| > 0
  {
    var r := Registry(map[
      "kyc-basic-v1" := KYC_BASIC,
      "age-verification-v1" := AGE_VERIFICATION,
      "residency-v1" := RESIDENCY,
      "humanity-proof-v1" := HUMANITY]);
    assert |r.schemas.Keys| == 4;
    r
  }

  /** `register`: a schema without claims is rejected; otherwise it is stored under its
      identifier, replacing any earlier schema with that identifier. */
  function Register(reg: Registry, s: CredentialSchema): (r: (Registry, Result<(), CredentialError>))
    ensures r.1.Err? <==> |s.claims| == 0
    ensures r.1.Err? ==> r.0 == reg && r.1.error.InvalidSchema?
    ensures r.1.Ok? ==> r.0.schemas == reg.schemas[s.id.id := s]
    ensures r.1.Ok? ==> Count(r.0) == Count(reg) + (if s.id.id in reg.schemas then 0 else 1)
  {
    if |s.claims| == 0 then (reg, Err(InvalidSchema("schema must have at least one claim")))
    else (Registry(reg.schemas[s.id.id := s]), Ok(()))
  }

  /** `get`. */
  function Get(reg: Registry, id: string): (r: Option<CredentialSchema>)
    ensures r.Some? <==> id in reg.schemas
    ensures r.Some? ==> r.value == reg.schemas[id]
  {
    if id in reg.schemas then Some(reg.schemas[id]) else None
  }

  /** `count`: the number of distinct schema identifiers. */
  function Count(reg: Registry): nat {
    |reg.schemas|
  }

  /** The first required claim, in definition order, that the object lacks. */
  function FirstMissing(defs: seq<ClaimDefinition>, fields: map<string, Json>): (r: Option<nat>)
    ensures r.None? <==> forall i :: 0 <= i < |defs| && defs[i].required ==> defs[i].name in fields
    ensures r.Some? ==> r.value < |defs| && defs[r.value].required && defs[r.value].name !in fields &&
                        forall i :: 0 <= i < r.value && defs[i].required ==> defs[i].name in fields
  {
    if |defs| == 0 then None
    else if defs[0].required && defs[0].name !in fields then Some(0)
    else match FirstMissing(defs[1..], fields)
      case None => None
      case Some(i) => Some(i + 1)
  }

  /** `validate_claims`: the schema must exist, the claims must be an object, and every
      required claim must be present; optional and extra keys are allowed. */
  function ValidateClaims(reg: Registry, id: string, claims: Json): (r: Result<(), CredentialError>)
    ensures id !in reg.schemas ==> r == Err(SchemaNotFound(id))
    ensures id in reg.schemas && !claims.JObject? ==> r == Err(InvalidSchema("claims must be a JSON object"))
    ensures r.Ok? <==> id in reg.schemas && claims.JObject? &&
                       forall d :: d in reg.schemas[id].claims && d.required ==> d.name in claims.fields
    ensures r.Err? && id in reg.schemas && claims.JObject? ==>
              var i := FirstMissing(reg.schemas[id].claims, claims.fields);
              i.Some? && r == Err(InvalidSchema("missing required claim: " + reg.schemas[id].claims[i.value].name))
  {
    match Get(reg, id)
    case None => Err(SchemaNotFound(id))
    case Some(schema) =>
      if !claims.JObject? then Err(InvalidSchema("claims must be a JSON object"))
      else match FirstMissing(schema.claims, claims.fields)
        case None => Ok(())
        case Some(i) => Err(InvalidSchema("missing required claim: " + schema.claims[i].name))
  }

  /** Adding keys to a valid claims object keeps it valid. */
  lemma ExtraClaimsAllowed(reg: Registry, id: string, fields: map<string, Json>, key: string, v: Json)
    requires ValidateClaims(reg, id, JObject(fields)).Ok?
    ensures ValidateClaims(reg, id, JObject(fields[key := v])).Ok?
  {
  }

  /** A residency claim with a country and no region passes, one without a country does not. */
  lemma ResidencyRegionOptional(country: Json)
    ensures ValidateClaims(NewRegistry(), "residency-v1", JObject(map["country" := country])).Ok?
    ensures ValidateClaims(NewRegistry(), "residency-v1", JObject(map["region" := country]))
            == Err(InvalidSchema("missing required claim: country"))
  {
    var reg := NewRegistry();
    assert reg.schemas["residency-v1"] == RESIDENCY;
    var withCountry, withRegion := map["country" := country], map["region" := country];
    assert FirstMissing(RESIDENCY.claims[1..], withCountry) == None;
    assert FirstMissing(RESIDENCY.claims, withCountry) == None;
    assert RESIDENCY.claims[0].name !in withRegion;
    assert FirstMissing(RESIDENCY.claims, withRegion) == Some(0);
    assert "missing required claim: " + RESIDENCY.claims[0].name == "missing required claim: country";
  }
}
