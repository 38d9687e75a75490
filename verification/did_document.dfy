/** The W3C-style DID document of the GPPN identity layer: verification methods and
    service endpoints, numbered "<id>#keys-<k>" and "<id>#service-<k>" from 1 and only
    ever appended. Timestamps are the explicit clock reading `now`. */
module DidDocuments {
  import opened Wrappers
  import opened Decimal

  datatype VerificationMethod = VerificationMethod(id: string, methodType: string, controller: string, publicKeyBs58: string)

  datatype Service = Service(id: string, serviceType: string, serviceEndpoint: string)

  datatype DidDocument = DidDocument(
    id: string,
    verificationMethods: seq<VerificationMethod>,
    services: seq<Service>,
    created: int,
    updated: int)

  const ED25519_KEY_TYPE: string := "Ed25519VerificationKey2020"

  /** The id of the k-th verification method. */
  function KeyId(did: string, k: nat): string {
    did + "#keys-" + NatToString(k)
  }

  /** The id of the k-th service. */
  function ServiceId(did: string, k: nat): string {
    did + "#service-" + NatToString(k)
  }

  /** Every method and service carries the number of its position (from 1), and every
      method is controlled by the document's subject. */
  predicate Numbered(doc: DidDocument) {
    (forall i :: 0 <= i < |doc.verificationMethods| ==>
       doc.verificationMethods[i].id == KeyId(doc.id, i + 1) && doc.verificationMethods[i].controller == doc.id) &&
    (forall i :: 0 <= i < |doc.services| ==> doc.services[i].id == ServiceId(doc.id, i + 1))
  }

  /** `DidDocument::new`: one Ed25519 method "<id>#keys-1" controlled by the subject, no services. */
  function NewDocument(id: string, publicKeyBs58: string, now: int): (doc: DidDocument)
    ensures doc.id == id && |doc.services| == 0 && doc.created == now && doc.updated == now
    ensures doc.verificationMethods == [VerificationMethod(id + "#keys-1", ED25519_KEY_TYPE, id, publicKeyBs58)]
    ensures PrimaryPublicKey(doc) == Some(publicKeyBs58)
    ensures Numbered(doc)
  {
    assert NatToString(1) == "1";
    assert KeyId(id, 1) == id + ("#keys-" + "1") == id + "#keys-1";
    DidDocument(id, [VerificationMethod(KeyId(id, 1), ED25519_KEY_TYPE, id, publicKeyBs58)], [], now, now)
  }

  /** `add_service`: appends one service numbered after the existing ones; nothing else
      but the update time changes. */
  function AddService(doc: DidDocument, serviceType: string, endpoint: string, now: int): (r: DidDocument)
    ensures r.services == doc.services + [Service(ServiceId(doc.id, |doc.services| + 1), serviceType, endpoint)]
    ensures r.(services := doc.services, updated := doc.updated) == doc
    ensures r.updated == now
    ensures Numbered(doc) ==> Numbered(r)
  {
    var idx := |doc.services| + 1;
    doc.(services := doc.services + [Service(ServiceId(doc.id, idx), serviceType, endpoint)], updated := now)
  }

  /** `add_verification_method`: appends one method numbered after the existing ones and
      controlled by the subject; nothing else but the update time changes. */
  function AddVerificationMethod(doc: DidDocument, methodType: string, publicKeyBs58: string, now: int): (r: DidDocument)
    ensures r.verificationMethods == doc.verificationMethods +
              [VerificationMethod(KeyId(doc.id, |doc.verificationMethods| + 1), methodType, doc.id, publicKeyBs58)]
    ensures r.(verificationMethods := doc.verificationMethods, updated := doc.updated) == doc
    ensures r.updated == now
    ensures Numbered(doc) ==> Numbered(r)
    ensures PrimaryPublicKey(doc).Some? ==> PrimaryPublicKey(r) == PrimaryPublicKey(doc)
  {
    var idx := |doc.verificationMethods| + 1;
    doc.(verificationMethods := doc.verificationMethods + [VerificationMethod(KeyId(doc.id, idx), methodType, doc.id, publicKeyBs58)],
         updated := now)
  }

  /** `primary_public_key_bs58`: the key of the first verification method. */
  function PrimaryPublicKey(doc: DidDocument): (r: Option<string>)
    ensures r.None? <==> |doc.verificationMethods| == 0
    ensures r.Some? ==> r.value == doc.verificationMethods[0].publicKeyBs58
  {
    if |doc.verificationMethods| == 0 then None else Some(doc.verificationMethods[0].publicKeyBs58)
  }

  /** Distinct positions give distinct method ids and distinct service ids. */
  lemma {:induction false} NumberedIdsDistinct(doc: DidDocument, i: nat, j: nat)
    requires Numbered(doc) && i != j
    ensures i < |doc.verificationMethods| && j < |doc.verificationMethods| ==>
              doc.verificationMethods[i].id != doc.verificationMethods[j].id
    ensures i < |doc.services| && j < |doc.services| ==> doc.services[i].id != doc.services[j].id
  {
    var p, q := doc.id + "#keys-", doc.id + "#service-";
    if NatToString(i + 1) != NatToString(j + 1) {
      SuffixDiffers(p, NatToString(i + 1), NatToString(j + 1));
      SuffixDiffers(q, NatToString(i + 1), NatToString(j + 1));
    } else {
      NatToStringInjective(i + 1, j + 1);
    }
  }

  /** Appending different texts to one prefix gives different strings. */
  lemma SuffixDiffers(p: string, a: string, b: string)
    requires a != b
    ensures p + a != p + b
  {
    assert (p + a)[|p|..] == a;
    assert (p + b)[|p|..] == b;
  }
}
