/** The distributed routing table (DRT): route entries keyed by (destination DID URI,
    next-hop peer id), several next hops per destination, with TTL eviction. */
module RoutingTable {
  import opened Wrappers
  import opened Bytes
  import opened Text
  import opened GppnTypes

  /** The routing layer's errors (messages reduced to the data they carry). */
  datatype RoutingError =
    | NoRouteFound(from: Did, to: Did)
    | InvalidRouteEntry(reason: string)
    | EmptyRoutingTable

  /** One way to reach a destination. Times are in one abstract unit (`last_updated` an
      instant, `ttl` a duration); fee rate and trust score are reals. */
  datatype RouteEntry = RouteEntry(
    nextHop: string,
    destination: Did,
    currencies: seq<Currency>,
    liquidity: u128,
    feeRate: real,
    latencyMs: u64,
    trust: real,
    lastUpdated: int,
    ttl: nat,
    hopCount: u32)
  {
    /** `RouteEntry::is_expired`: a negative elapsed time never expires. */
    function IsExpired(now: int): (b: bool)
      ensures b <==> now >= lastUpdated + ttl
      ensures now < lastUpdated ==> !b
    {
      var elapsed := now - lastUpdated;
      if elapsed < 0 then false else elapsed >= ttl
    }

    /** `RouteEntry::supports_currency`. */
    predicate SupportsCurrency(c: Currency) {
      c in currencies
    }
  }

  /** `RouteEntry::validate`: next hop, fee rate, trust score and currency list, in that order. */
  function ValidateEntry(e: RouteEntry): (r: Result<(), RoutingError>)
    ensures r.Ok? <==> e.nextHop != "" && 0.0 <= e.feeRate <= 1.0 && 0.0 <= e.trust <= 1.0 && |e.currencies| > 0
    ensures e.nextHop == "" ==> r.Err?
    ensures r.Err? ==> r.error.InvalidRouteEntry?
  {
    if e.nextHop == "" then Err(InvalidRouteEntry("next_hop_peer_id is empty"))
    else if e.feeRate < 0.0 || e.feeRate > 1.0 then Err(InvalidRouteEntry("fee_rate out of range [0, 1]"))
    else if e.trust < 0.0 || e.trust > 1.0 then Err(InvalidRouteEntry("trust_score out of range [0, 1]"))
    else if |e.currencies| == 0 then Err(InvalidRouteEntry("supported_currencies is empty"))
    else Ok(())
  }

  /** (destination DID URI, next-hop peer id). */
  type RouteKey = (string, string)

  function KeyOf(e: RouteEntry): RouteKey {
    (e.destination.uri, e.nextHop)
  }

  type Table = map<RouteKey, RouteEntry>

  const EMPTY: Table := map[]

  /** `DistributedRoutingTable::insert`: stores e under its key and returns the entry it replaced. */
  function Insert(t: Table, e: RouteEntry): (r: (Table, Option<RouteEntry>))
    ensures KeyOf(e) in r.0 && r.0[KeyOf(e)] == e
    ensures forall k :: k != KeyOf(e) ==> (k in r.0 <==> k in t) && (k in t ==> r.0[k] == t[k])
    ensures r.1 == (if KeyOf(e) in t then Some(t[KeyOf(e)]) else None)
    ensures |r.0| == |t| + (if r.1.None? then 1 else 0)
  {
    var prev := if KeyOf(e) in t then Some(t[KeyOf(e)]) else None;
    (t[KeyOf(e) := e], prev)
  }

  /** `get_routes`: every stored entry whose key names the destination, regardless of expiry or
      currency. The source returns them as a list in map-iteration order; the model keeps them keyed. */
  function GetRoutes(t: Table, d: Did): (r: map<RouteKey, RouteEntry>)
    ensures forall k :: k in r <==> k in t && k.0 == d.uri
    ensures forall k :: k in r ==> r[k] == t[k]
  {
    map k | k in t && k.0 == d.uri :: t[k]
  }

  /** `remove_expired`: keeps exactly the unexpired entries and returns how many went. */
  function RemoveExpired(t: Table, now: int): (r: (Table, nat))
    ensures forall k :: k in r.0 <==> k in t && !t[k].IsExpired(now)
    ensures forall k :: k in r.0 ==> r.0[k] == t[k]
    ensures r.1 == |t| - |r.0|
  {
    var kept := map k | k in t && !t[k].IsExpired(now) :: t[k];
    assert kept.Keys <= t.Keys;
    SubsetCard(kept.Keys, t.Keys);
    (kept, |t| - |kept|)
  }

  lemma SubsetCard<T>(a: set<T>, b: set<T>)
    requires a <= b
    ensures |a| <= |b|
  {
    if a != {} {
      var x :| x in a;
      SubsetCard(a - {x}, b - {x});
    }
  }

  /** `update`: applies `updater` to the entry under (destination, next hop) if there is one.
      The key stays the same even if the updater changes the entry's own destination or hop. */
  function Update(t: Table, d: Did, nextHop: string, updater: RouteEntry -> RouteEntry): (r: (Table, bool))
    ensures r.1 <==> (d.uri, nextHop) in t
    ensures r.0.Keys == t.Keys
    ensures forall k :: k in t && k != (d.uri, nextHop) ==> r.0[k] == t[k]
    ensures r.1 ==> r.0[(d.uri, nextHop)] == updater(t[(d.uri, nextHop)])
  {
    var key := (d.uri, nextHop);
    if key in t then (t[key := updater(t[key])], true) else (t, false)
  }

  /** `remove`: deletes the entry under (destination, next hop) and returns it. */
  function Remove(t: Table, d: Did, nextHop: string): (r: (Table, Option<RouteEntry>))
    ensures r.1.Some? <==> (d.uri, nextHop) in t
    ensures r.1.Some? ==> r.1.value == t[(d.uri, nextHop)] && |r.0| == |t| - 1
    ensures r.1.None? ==> r.0 == t
    ensures forall k :: k in r.0 <==> k in t && k != (d.uri, nextHop)
  {
    var key := (d.uri, nextHop);
    if key in t then (t - {key}, Some(t[key])) else (t, None)
  }

  /** An iteration order of the table: every key exactly once. The map's own iteration order
      is not specified by the source, so operations that list entries take one as input. */
  predicate Enumerates(t: Table, order: seq<RouteKey>) {
    (forall i :: 0 <= i < |order| ==> order[i] in t) &&
    (forall k :: k in t ==> k in order) &&
    (forall i, j :: 0 <= i < j < |order| ==> order[i] != order[j])
  }

  /** `all_entries` in the given iteration order. */
  function AllEntries(t: Table, order: seq<RouteKey>): (r: seq<RouteEntry>)
    requires Enumerates(t, order)
    ensures |r| == |order|
    ensures forall i :: 0 <= i < |r| ==> r[i] == t[order[i]]
    ensures forall k :: k in t ==> t[k] in r
  {
    seq(|order|, i requires 0 <= i < |order| => t[order[i]])
  }

  /** `destinations`: the destination URIs of all keys, sorted and without duplicates. */
  function Destinations(t: Table, order: seq<RouteKey>): (r: seq<string>)
    requires Enumerates(t, order)
    ensures StrictlySorted(r)
    ensures forall u :: u in r <==> exists k :: k in t && k.0 == u
  {
    var uris := seq(|order|, i requires 0 <= i < |order| => order[i].0);
    assert forall k :: k in t ==> k.0 in uris by {
      forall k | k in t ensures k.0 in uris {
        var i :| 0 <= i < |order| && order[i] == k;
        assert uris[i] == k.0;
      }
    }
    SortDedup(uris)
  }
}
