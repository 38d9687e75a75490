/** Identifiers and claims of the Veritas core: the "did:veritas:" identifier, the
    schema identifier, and the typed claim values. */
module VeritasTypes {
  import opened Wrappers
  import opened Bytes
  import opened Text
  import opened CredentialStates
  import DidSyntax

  /** A Veritas decentralized identifier, "did:veritas:<method>:<identifier>". */
  datatype Did = Did(uri: string) {
    /** `Did::method`. */
    function Method(): Option<string> { DidSyntax.Method(uri) }
    /** `Did::identifier`. */
    function Identifier(): Option<string> { DidSyntax.Identifier(uri) }
  }

  const NAMESPACE: string := "veritas"

  /** `Did::new`: the "did:veritas:" prefix and at least four ':'-separated parts. */
  function NewDid(uri: string): (r: Result<Did, CoreError>)
    ensures r.Ok? <==> StartsWith(uri, "did:veritas:") && Count(uri, ':') >= 3
    ensures r.Ok? ==> r.value.uri == uri
    ensures r.Err? ==> r == Err(InvalidDid(uri))
  {
    DidSyntax.WellFormedByColons(NAMESPACE, uri);
    if DidSyntax.WellFormed(NAMESPACE, uri) then Ok(Did(uri)) else Err(InvalidDid(uri))
  }

  /** `Did::from_parts`: "did:veritas:<m>:<i>", always accepted by `Did::new`; the
      accessors give the parts back when the method is colon-free. */
  function DidFromParts(m: string, i: string): (d: Did)
    ensures d.uri == "did:veritas:" + m + ":" + i
    ensures NewDid(d.uri) == Ok(d)
    ensures ':' !in m ==> d.Method() == Some(m) && d.Identifier() == Some(i)
  {
    DidSyntax.FromPartsWellFormed(NAMESPACE, m, i);
    DidSyntax.WellFormedByColons(NAMESPACE, DidSyntax.FromParts(NAMESPACE, m, i));
    if ':' in m then Did(DidSyntax.FromParts(NAMESPACE, m, i))
    else
      DidSyntax.FromPartsMethod(NAMESPACE, m, i);
      DidSyntax.FromPartsIdentifier(NAMESPACE, m, i);
      Did(DidSyntax.FromParts(NAMESPACE, m, i))
  }

  /** A schema identifier: a plain string wrapper. */
  datatype SchemaId = SchemaId(id: string)

  /** `SchemaId::new`. */
  function NewSchemaId(id: string): (s: SchemaId)
  {
    SchemaId(id)
  }

  /** `as_str` returns the string a schema identifier was made from, so two identifiers
      are equal exactly when their strings are. */
  lemma SchemaIdRoundTrip(a: string, b: string)
    ensures NewSchemaId(a).id == a
    ensures NewSchemaId(a) == NewSchemaId(b) <==> a == b
  {
  }

  datatype ClaimValue =
    | StringValue(s: string)
    | Integer(i: i64)
    | Boolean(b: bool)
    | Date(d: string)
    | RawBytes(bytes: seq<byte>)

  datatype Claim = Claim(name: string, value: ClaimValue)

  /** `Claim::string`. */
  function StringClaim(name: string, value: string): (c: Claim)
    ensures c.name == name && c.value.StringValue? && c.value.s == value
  {
    Claim(name, StringValue(value))
  }

  /** `Claim::integer`. */
  function IntegerClaim(name: string, value: i64): (c: Claim)
    ensures c.name == name && c.value.Integer? && c.value.i == value
  {
    Claim(name, Integer(value))
  }

  /** `Claim::boolean`. */
  function BooleanClaim(name: string, value: bool): (c: Claim)
    ensures c.name == name && c.value.Boolean? && c.value.b == value
  {
    Claim(name, Boolean(value))
  }

  /** `Claim::date`. */
  function DateClaim(name: string, value: string): (c: Claim)
    ensures c.name == name && c.value.Date? && c.value.d == value
  {
    Claim(name, Date(value))
  }

  /** `Claim::bytes`. */
  function BytesClaim(name: string, value: seq<byte>): (c: Claim)
    ensures c.name == name && c.value.RawBytes? && c.value.bytes == value
  {
    Claim(name, RawBytes(value))
  }
}
