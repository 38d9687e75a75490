/** The holder's credential wallet: credentials keyed by id, accepted only when
    their subject is the wallet owner. Listings follow the map's iteration order,
    which is passed in as `order`. */
module Wallets {
  import opened Wrappers
  import opened Credentials
  import opened Schemas

  datatype Wallet = Wallet(owner: string, credentials: map<string, Credential>)

  /** `CredentialWallet::new`. */
  function NewWallet(owner: string): (w: Wallet)
    ensures w.owner == owner && Count(w) == 0
  {
    Wallet(owner, map[])
  }

  /** `count`. */
  function Count(w: Wallet): nat {
    |w.credentials|
  }

  /** `store`: rejects a credential about someone else and leaves the wallet as it was;
      otherwise keys it by its id, replacing any credential with the same id. */
  function Store(w: Wallet, c: Credential): (r: (Wallet, Result<(), CredentialError>))
    ensures r.1.Err? <==> c.subject != w.owner
    ensures r.1.Err? ==> r.0 == w && r.1.error.VerificationFailed?
    ensures r.1.Ok? ==> r.0.owner == w.owner && r.0.credentials == w.credentials[c.id := c]
    ensures r.1.Ok? ==> Count(r.0) == Count(w) + (if c.id in w.credentials then 0 else 1)
  {
    if c.subject != w.owner then
      (w, Err(VerificationFailed("credential subject " + c.subject + " does not match wallet owner " + w.owner)))
    else (w.(credentials := w.credentials[c.id := c]), Ok(()))
  }

  /** `get`. */
  function Get(w: Wallet, id: string): (r: Option<Credential>)
    ensures r.Some? <==> id in w.credentials
    ensures r.Some? ==> r.value == w.credentials[id]
  {
    if id in w.credentials then Some(w.credentials[id]) else None
  }

  /** `remove`: hands back the credential, after which the id is gone, every other
      credential and the owner are as they were, and the count has dropped. */
  function Remove(w: Wallet, id: string): (r: (Wallet, Option<Credential>))
    ensures r.1 == Get(w, id)
    ensures r.0.owner == w.owner
    ensures id !in r.0.credentials
    ensures forall k :: k != id ==> (k in r.0.credentials <==> k in w.credentials)
    ensures forall k :: k != id && k in w.credentials ==> r.0.credentials[k] == w.credentials[k]
    ensures Count(r.0) == Count(w) - (if r.1.Some? then 1 else 0)
  {
    (w.(credentials := w.credentials - {id}), Get(w, id))
  }

  /** `order` lists every stored id exactly once. */
  ghost predicate Enumerates(w: Wallet, order: seq<string>) {
    (forall k :: k in order <==> k in w.credentials) &&
    (forall i, j :: 0 <= i < j < |order| ==> order[i] != order[j])
  }

  /** The credentials under `order` that satisfy `keep`, in that order. */
  function Select(w: Wallet, order: seq<string>, keep: Credential -> bool): (r: seq<Credential>)
    requires forall k :: k in order ==> k in w.credentials
    ensures forall c :: c in r <==> exists k :: k in order && w.credentials[k] == c && keep(c)
    ensures |r| <= |order|
  {
    if |order| == 0 then []
    else
      var rest := Select(w, order[1..], keep);
      assert forall k :: k in order <==> k == order[0] || k in order[1..];
      var c := w.credentials[order[0]];
      if keep(c) then [c] + rest else rest
  }

  /** `list_by_type`: exactly the stored credentials whose type list contains t. */
  function ListByType(w: Wallet, t: string, order: seq<string>): (r: seq<Credential>)
    requires Enumerates(w, order)
    ensures forall c :: c in r <==> c in w.credentials.Values && t in c.credentialType
  {
    Select(w, order, (c: Credential) => t in c.credentialType)
  }

  /** `active_credentials` at clock reading `now`: exactly the stored credentials that have not expired. */
  function ActiveCredentials(w: Wallet, now: int, order: seq<string>): (r: seq<Credential>)
    requires Enumerates(w, order)
    ensures forall c :: c in r <==> c in w.credentials.Values && !c.IsExpired(now)
  {
    Select(w, order, (c: Credential) => !c.IsExpired(now))
  }
}
