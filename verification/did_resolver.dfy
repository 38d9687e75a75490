/** DID resolution: the local resolver over the DID manager's store, and the composite
    resolver that asks its resolvers in insertion order. A resolver is modelled as the
    function it computes from a DID to a document or an error. */
module DidResolvers {
  import opened Wrappers
  import opened IdentityErrors
  import opened DidDocuments
  import opened DidManagers

  type Resolver = string -> Result<DidDocument, IdentityError>

  /** `LocalDidResolver::resolve`: the stored document, or DidNotFound for the DID. */
  function LocalResolve(m: DidManager, did: string): (r: Result<DidDocument, IdentityError>)
    ensures r.Ok? <==> ResolveDid(m, did).Some?
    ensures r.Ok? ==> r.value == ResolveDid(m, did).value
    ensures r.Err? ==> r.error == DidNotFound(did)
  {
    match ResolveDid(m, did)
    case Some(doc) => Ok(doc)
    case None => Err(DidNotFound(did))
  }

  /** The local resolver as a resolver value. */
  function Local(m: DidManager): (r: Resolver)
    ensures forall did :: r(did) == LocalResolve(m, did)
  {
    (did: string) => LocalResolve(m, did)
  }

  datatype CompositeResolver = CompositeResolver(resolvers: seq<Resolver>)

  const NO_RESOLVERS: IdentityError := DidResolution("no resolvers configured")

  /** `CompositeDidResolver::new`. */
  function NewComposite(): (c: CompositeResolver)
    ensures ResolverCount(c) == 0
  {
    CompositeResolver([])
  }

  /** `add_resolver`: appends to the chain. */
  function AddResolver(c: CompositeResolver, r: Resolver): (c2: CompositeResolver)
    ensures ResolverCount(c2) == ResolverCount(c) + 1
    ensures c2.resolvers[..ResolverCount(c)] == c.resolvers && c2.resolvers[ResolverCount(c)] == r
  {
    CompositeResolver(c.resolvers + [r])
  }

  /** `resolver_count`. */
  function ResolverCount(c: CompositeResolver): nat {
    |c.resolvers|
  }

  /** The loop of `resolve`: the first success, or the error of the last resolver
      tried, starting from `lastError`. */
  function ResolveChain(rs: seq<Resolver>, did: string, lastError: IdentityError): (r: Result<DidDocument, IdentityError>)
    ensures r.Ok? <==> exists i :: 0 <= i < |rs| && rs[i](did).Ok?
    ensures r.Ok? ==> exists i :: 0 <= i < |rs| && rs[i](did) == r && forall j :: 0 <= j < i ==> rs[j](did).Err?
    ensures r.Err? ==> r.error == (if |rs| == 0 then lastError else rs[|rs| - 1](did).error)
  {
    if |rs| == 0 then Err(lastError)
    else
      match rs[0](did)
      case Ok(doc) => Ok(doc)
      case Err(e) =>
        var r := ResolveChain(rs[1..], did, e);
        assert forall i :: 0 < i < |rs| ==> rs[i] == rs[1..][i - 1];
        if r.Ok? then
          var i :| 0 <= i < |rs[1..]| && rs[1..][i](did) == r && forall j :: 0 <= j < i ==> rs[1..][j](did).Err?;
          assert rs[i + 1](did) == r;
          r
        else r
  }

  /** `CompositeDidResolver::resolve`: the first resolver that succeeds wins; when all
      fail the last one's error is returned, and with none configured a resolution error. */
  function Resolve(c: CompositeResolver, did: string): (r: Result<DidDocument, IdentityError>)
    ensures ResolverCount(c) == 0 ==> r == Err(NO_RESOLVERS)
    ensures r.Ok? <==> exists i :: 0 <= i < |c.resolvers| && c.resolvers[i](did).Ok?
    ensures r.Ok? ==> exists i :: 0 <= i < |c.resolvers| && c.resolvers[i](did) == r &&
                                  forall j :: 0 <= j < i ==> c.resolvers[j](did).Err?
    ensures r.Err? && ResolverCount(c) > 0 ==> r == c.resolvers[|c.resolvers| - 1](did)
  {
    ResolveChain(c.resolvers, did, NO_RESOLVERS)
  }

  /** A composite over a failing resolver and a local one finds a stored DID, and reports
      the local DidNotFound for an unknown one. */
  lemma FallsThroughToLocal(failing: Resolver, m: DidManager, did: string)
    requires forall d :: failing(d).Err?
    ensures var c := AddResolver(AddResolver(NewComposite(), failing), Local(m));
            (did in m.store ==> Resolve(c, did) == Ok(m.store[did])) &&
            (did !in m.store ==> Resolve(c, did) == Err(DidNotFound(did)))
  {
    var c := AddResolver(AddResolver(NewComposite(), failing), Local(m));
    assert c.resolvers == [failing, Local(m)];
  }
}
