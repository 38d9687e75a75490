/** The GPPN DID manager: an in-memory store of DID documents keyed by DID URI. The
    base58 text of the public key is passed in already encoded, and the clock is `now`. */
module DidManagers {
  import opened Wrappers
  import opened Text
  import opened IdentityErrors
  import opened GppnTypes
  import opened DidDocuments
  import DidSyntax

  datatype DidManager = DidManager(store: map<string, DidDocument>)

  /** `DidManager::new`. */
  function NewManager(): (m: DidManager)
    ensures Count(m) == 0 && IsEmpty(m)
  {
    DidManager(map[])
  }

  /** `count`. */
  function Count(m: DidManager): nat {
    |m.store|
  }

  /** `is_empty`. */
  predicate IsEmpty(m: DidManager) {
    |m.store| == 0
  }

  /** The URI `create_did` builds: "did:gppn:<method>:<key>". */
  function CreatedUri(methodName: string, keyBs58: string): (uri: string)
    ensures StartsWith(uri, "did:gppn:")
  {
    DidSyntax.FromParts(NAMESPACE, methodName, keyBs58)
  }

  /** `create_did`: a URI already in the store is a duplicate and nothing changes; otherwise
      a fresh document for the key is stored under the URI. The URI always parses as a
      GPPN DID, so the final `Did::new` never fails. */
  function CreateDid(m: DidManager, methodName: string, keyBs58: string, now: int): (r: (DidManager, Result<Did, IdentityError>))
    ensures var uri := CreatedUri(methodName, keyBs58);
            && (r.1.Err? <==> uri in m.store)
            && (r.1.Err? ==> r.0 == m && r.1.error == DuplicateDid(uri))
            && (r.1.Ok? ==> r.0.store == m.store[uri := NewDocument(uri, keyBs58, now)] &&
                            r.1.value.uri == uri && NewDid(uri) == Ok(r.1.value))
    ensures r.1.Ok? ==> Count(r.0) == Count(m) + 1
    ensures r.1.Ok? && ':' !in methodName ==> r.1.value.Method() == Some(methodName) && r.1.value.Identifier() == Some(keyBs58)
  {
    var uri := CreatedUri(methodName, keyBs58);
    if uri in m.store then (m, Err(DuplicateDid(uri)))
    else
      var d := DidFromParts(methodName, keyBs58);
      (DidManager(m.store[uri := NewDocument(uri, keyBs58, now)]), Ok(d))
  }

  /** `resolve_did`. */
  function ResolveDid(m: DidManager, did: string): (r: Option<DidDocument>)
    ensures r.Some? <==> did in m.store
    ensures r.Some? ==> r.value == m.store[did]
  {
    if did in m.store then Some(m.store[did]) else None
  }

  /** `update_document`: only a document whose subject is already stored can replace it. */
  function UpdateDocument(m: DidManager, doc: DidDocument): (r: (DidManager, Result<(), IdentityError>))
    ensures r.1.Err? <==> doc.id !in m.store
    ensures r.1.Err? ==> r.0 == m && r.1.error == DidNotFound(doc.id)
    ensures r.1.Ok? ==> r.0.store == m.store[doc.id := doc] && Count(r.0) == Count(m)
  {
    if doc.id !in m.store then (m, Err(DidNotFound(doc.id)))
    else (DidManager(m.store[doc.id := doc]), Ok(()))
  }

  /** `remove_did`: hands back the document, after which the URI no longer resolves. */
  function RemoveDid(m: DidManager, did: string): (r: (DidManager, Option<DidDocument>))
    ensures r.1 == ResolveDid(m, did)
    ensures ResolveDid(r.0, did).None?
    ensures forall d :: d != did ==> ResolveDid(r.0, d) == ResolveDid(m, d)
    ensures Count(r.0) == Count(m) - (if r.1.Some? then 1 else 0)
  {
    (DidManager(m.store - {did}), ResolveDid(m, did))
  }

  /** `order` lists every stored URI exactly once. */
  ghost predicate Enumerates(m: DidManager, order: seq<string>) {
    (forall d :: d in order <==> d in m.store) &&
    (forall i, j :: 0 <= i < j < |order| ==> order[i] != order[j])
  }

  /** `list_dids`, in the store's iteration order `order`: every stored URI once. */
  function ListDids(m: DidManager, order: seq<string>): (r: seq<string>)
    requires Enumerates(m, order)
    ensures forall d :: d in r <==> ResolveDid(m, d).Some?
    ensures |r| == Count(m)
  {
    DistinctCount(order, m.store.Keys);
    order
  }

  /** The stored document of a created DID: subject = the URI and one Ed25519 method
      carrying the key, as `resolve_did` after `create_did` shows. */
  lemma CreatedResolves(m: DidManager, methodName: string, keyBs58: string, now: int)
    requires CreatedUri(methodName, keyBs58) !in m.store
    ensures var (m2, r) := CreateDid(m, methodName, keyBs58, now);
            r.Ok? && ResolveDid(m2, r.value.uri).Some? &&
            ResolveDid(m2, r.value.uri).value.id == r.value.uri &&
            |ResolveDid(m2, r.value.uri).value.verificationMethods| == 1 &&
            ResolveDid(m2, r.value.uri).value.verificationMethods[0].methodType == ED25519_KEY_TYPE &&
            PrimaryPublicKey(ResolveDid(m2, r.value.uri).value) == Some(keyBs58)
  {
  }

  /** Creating the same DID twice: the second attempt is a duplicate and changes nothing. */
  lemma DuplicateCreateRejected(m: DidManager, methodName: string, keyBs58: string, t1: int, t2: int)
    ensures var m1 := CreateDid(m, methodName, keyBs58, t1).0;
            CreateDid(m1, methodName, keyBs58, t2) == (m1, Err(DuplicateDid(CreatedUri(methodName, keyBs58))))
  {
  }
}
