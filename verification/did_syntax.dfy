/** The `did:<namespace>:<method>:<identifier>` syntax shared by the GPPN DID
    (namespace "gppn") and the Veritas DID (namespace "veritas"): acceptance by
    `Did::new`, construction by `Did::from_parts`, and the `method` and
    `identifier` accessors. */
module DidSyntax {
  import opened Wrappers
  import opened Text

  /** "did:<ns>:". */
  function Prefix(ns: string): string {
    "did:" + ns + ":"
  }

  /** What `Did::new` accepts: the prefix, and at least four ':'-separated parts. */
  predicate WellFormed(ns: string, uri: string) {
    StartsWith(uri, Prefix(ns)) && |Split(uri, ':')| >= 4
  }

  /** `Did::new` acceptance restated without `split`: the prefix and at least three colons. */
  lemma WellFormedByColons(ns: string, uri: string)
    ensures WellFormed(ns, uri) <==> StartsWith(uri, Prefix(ns)) && Count(uri, ':') >= 3
  {
  }

  /** `Did::from_parts`: "did:<ns>:<method>:<identifier>". */
  function FromParts(ns: string, m: string, i: string): (uri: string)
    ensures StartsWith(uri, Prefix(ns))
    ensures |uri| == |Prefix(ns)| + |m| + 1 + |i|
  {
    Prefix(ns) + m + ":" + i
  }

  /** `Did::method`: the third ':'-separated part, if any. */
  function Method(uri: string): (r: Option<string>)
    ensures r.Some? <==> Count(uri, ':') >= 2
    ensures r.Some? ==> ':' !in r.value
  {
    var parts := Split(uri, ':');
    if |parts| > 2 then Some(parts[2]) else None
  }

  /** `Did::identifier`: everything after the third ':', if there is one. */
  function Identifier(uri: string): (r: Option<string>)
    ensures r.Some? <==> Count(uri, ':') >= 3
  {
    AfterNth(uri, ':', 3)
  }

  /** The layout of `from_parts` as separator-delimited pieces. */
  lemma FromPartsShape(ns: string, m: string, i: string)
    ensures FromParts(ns, m, i) == "did" + [':'] + (ns + [':'] + (m + [':'] + i))
  {
  }

  /** A URI built by `from_parts` is accepted by `Did::new` (its namespace is colon-free). */
  lemma FromPartsWellFormed(ns: string, m: string, i: string)
    requires ':' !in ns
    ensures WellFormed(ns, FromParts(ns, m, i))
  {
    FromPartsShape(ns, m, i);
    assert ':' !in "did";
    SplitAfterFree("did", ns + [':'] + (m + [':'] + i), ':');
    SplitAfterFree(ns, m + [':'] + i, ':');
    CountAppend(m, [':'] + i, ':');
    assert m + [':'] + i == m + ([':'] + i);
    var u := FromParts(ns, m, i);
    assert u[..|Prefix(ns)|] == Prefix(ns);
  }

  /** For a colon-free method, `method()` of `from_parts(m, i)` is m. */
  lemma FromPartsMethod(ns: string, m: string, i: string)
    requires ':' !in ns && ':' !in m
    ensures Method(FromParts(ns, m, i)) == Some(m)
  {
    FromPartsShape(ns, m, i);
    assert ':' !in "did";
    SplitAfterFree("did", ns + [':'] + (m + [':'] + i), ':');
    SplitAfterFree(ns, m + [':'] + i, ':');
    SplitAfterFree(m, i, ':');
  }

  /** For a colon-free method, `identifier()` of `from_parts(m, i)` is i, colons in i included. */
  lemma FromPartsIdentifier(ns: string, m: string, i: string)
    requires ':' !in ns && ':' !in m
    ensures Identifier(FromParts(ns, m, i)) == Some(i)
  {
    FromPartsShape(ns, m, i);
    assert ':' !in "did";
    AfterNthFree("did", ns + [':'] + (m + [':'] + i), ':', 2);
    AfterNthFree(ns, m + [':'] + i, ':', 1);
    AfterNthFree(m, i, ':', 0);
  }
}
