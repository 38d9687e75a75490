/** Route advertisements: validation, self-advertisement, merging an advertisement into the
    routing table, and re-advertising the table one hop further out. */
module Advertisements {
  import opened Wrappers
  import opened Bytes
  import opened GppnTypes
  import opened RoutingTable

  datatype DestinationAnnouncement = DestinationAnnouncement(
    destination: Did,
    currencies: seq<Currency>,
    liquidity: u128,
    feeRate: real,
    latencyMs: u64,
    trust: real,
    hopCount: u32)

  /** The UUID and creation instant come from the caller (the source takes them from the clock). */
  datatype RouteAdvertisement = RouteAdvertisement(
    id: string,
    advertiserDid: Did,
    advertiserPeerId: string,
    destinations: seq<DestinationAnnouncement>,
    createdAt: int,
    sequenceNumber: u64,
    ttl: nat)

  predicate InUnitRange(x: real) { 0.0 <= x <= 1.0 }

  /** `RouteAdvertisement::validate`. */
  function ValidateAdvert(ad: RouteAdvertisement): (r: Result<(), RoutingError>)
    ensures r.Ok? <==>
      ad.advertiserPeerId != "" && |ad.destinations| > 0 &&
      forall d :: d in ad.destinations ==> InUnitRange(d.feeRate) && InUnitRange(d.trust)
    ensures r.Err? ==> r.error.InvalidRouteEntry?
  {
    if ad.advertiserPeerId == "" then Err(InvalidRouteEntry("advertiser_peer_id is empty"))
    else if |ad.destinations| == 0 then Err(InvalidRouteEntry("no reachable destinations in advertisement"))
    else ValidateAnnouncements(ad.destinations)
  }

  /** The per-destination range checks, stopping at the first bad announcement. */
  function ValidateAnnouncements(ds: seq<DestinationAnnouncement>): (r: Result<(), RoutingError>)
    ensures r.Ok? <==> forall d :: d in ds ==> InUnitRange(d.feeRate) && InUnitRange(d.trust)
    ensures r.Err? ==> r.error.InvalidRouteEntry?
  {
    if |ds| == 0 then Ok(())
    else if ds[0].feeRate < 0.0 || ds[0].feeRate > 1.0 then Err(InvalidRouteEntry("fee_rate out of range [0, 1]"))
    else if ds[0].trust < 0.0 || ds[0].trust > 1.0 then Err(InvalidRouteEntry("trust_score out of range [0, 1]"))
    else
      var r := ValidateAnnouncements(ds[1..]);
      assert forall d :: d in ds <==> d == ds[0] || d in ds[1..];
      r
  }

  /** `RouteAdvertisement::self_advertisement`: the advertiser announces itself, zero hops away. */
  function SelfAdvertisement(did: Did, peerId: string, currencies: seq<Currency>, liquidity: u128,
                             feeRate: real, ttl: nat, sequenceNumber: u64, id: string, now: int): (ad: RouteAdvertisement)
    ensures |ad.destinations| == 1
    ensures var d := ad.destinations[0];
      d.destination == did && d.hopCount == 0 && d.latencyMs == 0 && d.trust == 1.0 &&
      d.currencies == currencies && d.liquidity == liquidity && d.feeRate == feeRate
    ensures ad.advertiserDid == did && ad.advertiserPeerId == peerId
    ensures ValidateAdvert(ad).Ok? <==> peerId != "" && InUnitRange(feeRate)
  {
    var d := DestinationAnnouncement(did, currencies, liquidity, feeRate, 0, 1.0, 0);
    RouteAdvertisement(id, did, peerId, [d], now, sequenceNumber, ttl)
  }

  // ----- Merging an advertisement into the table -----

  /** A destination is taken when one more hop keeps it within the limit. */
  predicate Accepted(d: DestinationAnnouncement, maxHops: u32) {
    d.hopCount + 1 <= maxHops
  }

  /** The table entry created for an announcement: next hop = the advertiser, the advert's
      creation time and TTL, and the given hop count. */
  function EntryFor(ad: RouteAdvertisement, d: DestinationAnnouncement, hops: u32): RouteEntry {
    RouteEntry(ad.advertiserPeerId, d.destination, d.currencies, d.liquidity, d.feeRate,
               d.latencyMs, d.trust, ad.createdAt, ad.ttl, hops)
  }

  function KeyFor(ad: RouteAdvertisement, d: DestinationAnnouncement): RouteKey {
    (d.destination.uri, ad.advertiserPeerId)
  }

  function CountAccepted(ds: seq<DestinationAnnouncement>, maxHops: u32): (n: nat)
    ensures n <= |ds|
  {
    if |ds| == 0 then 0 else (if Accepted(ds[0], maxHops) then 1 else 0) + CountAccepted(ds[1..], maxHops)
  }

  /** Inserts the accepted announcements one after another, counting the insertions. */
  function InsertAccepted(t: Table, ad: RouteAdvertisement, ds: seq<DestinationAnnouncement>, maxHops: u32): (r: (Table, nat))
    ensures r.1 == CountAccepted(ds, maxHops)
    decreases |ds|
  {
    if |ds| == 0 then (t, 0)
    else
      var d := ds[0];
      var t1 := if Accepted(d, maxHops) then Insert(t, EntryFor(ad, d, d.hopCount + 1)).0 else t;
      var rest := InsertAccepted(t1, ad, ds[1..], maxHops);
      (rest.0, rest.1 + (if Accepted(d, maxHops) then 1 else 0))
  }

  /** The keys after merging: the old ones plus one per accepted announcement. */
  lemma {:induction false} InsertAcceptedKeys(t: Table, ad: RouteAdvertisement, ds: seq<DestinationAnnouncement>, maxHops: u32)
    ensures forall k :: k in InsertAccepted(t, ad, ds, maxHops).0 <==>
      k in t || exists d :: d in ds && Accepted(d, maxHops) && k == KeyFor(ad, d)
    decreases |ds|
  {
    if |ds| > 0 {
      var d := ds[0];
      var t1 := if Accepted(d, maxHops) then Insert(t, EntryFor(ad, d, d.hopCount + 1)).0 else t;
      InsertAcceptedKeys(t1, ad, ds[1..], maxHops);
      assert forall x :: x in ds <==> x == d || x in ds[1..];
    }
  }

  /** Every entry the merge adds or changes is built from an accepted announcement. */
  lemma {:induction false} InsertAcceptedValues(t: Table, ad: RouteAdvertisement, ds: seq<DestinationAnnouncement>, maxHops: u32)
    ensures var r := InsertAccepted(t, ad, ds, maxHops).0;
      forall k :: k in r && (k !in t || r[k] != t[k]) ==>
        exists d :: d in ds && Accepted(d, maxHops) && r[k] == EntryFor(ad, d, d.hopCount + 1)
    decreases |ds|
  {
    if |ds| > 0 {
      var d := ds[0];
      var t1 := if Accepted(d, maxHops) then Insert(t, EntryFor(ad, d, d.hopCount + 1)).0 else t;
      InsertAcceptedValues(t1, ad, ds[1..], maxHops);
      assert forall x :: x in ds[1..] ==> x in ds;
    }
  }

  /** Entries through any other next hop are untouched. */
  lemma {:induction false} InsertAcceptedFrame(t: Table, ad: RouteAdvertisement, ds: seq<DestinationAnnouncement>, maxHops: u32)
    ensures var r := InsertAccepted(t, ad, ds, maxHops).0;
      forall k :: k in t && k.1 != ad.advertiserPeerId ==> k in r && r[k] == t[k]
    decreases |ds|
  {
    if |ds| > 0 {
      var d := ds[0];
      var t1 := if Accepted(d, maxHops) then Insert(t, EntryFor(ad, d, d.hopCount + 1)).0 else t;
      InsertAcceptedFrame(t1, ad, ds[1..], maxHops);
    }
  }

  /** `process_advertisement`: validate, then insert every destination whose hop count plus one
      stays within `max_hops`, with that incremented hop count. Returns the number inserted. */
  function ProcessAdvertisement(t: Table, ad: RouteAdvertisement, maxHops: u32): (r: Result<(Table, nat), RoutingError>)
    ensures ValidateAdvert(ad).Err? ==> r == Err(ValidateAdvert(ad).error)
    ensures r.Ok? <==> ValidateAdvert(ad).Ok?
    ensures r.Ok? ==> r.value.1 == CountAccepted(ad.destinations, maxHops)
    ensures r.Ok? ==> forall k :: k in r.value.0 && (k !in t || r.value.0[k] != t[k]) ==>
      r.value.0[k].nextHop == ad.advertiserPeerId && 1 <= r.value.0[k].hopCount <= maxHops
    ensures r.Ok? ==> forall d :: d in ad.destinations && Accepted(d, maxHops) ==> KeyFor(ad, d) in r.value.0
    ensures r.Ok? ==> forall k :: k in t && k.1 != ad.advertiserPeerId ==> k in r.value.0 && r.value.0[k] == t[k]
  {
    var _ :- ValidateAdvert(ad);
    InsertAcceptedKeys(t, ad, ad.destinations, maxHops);
    InsertAcceptedValues(t, ad, ad.destinations, maxHops);
    InsertAcceptedFrame(t, ad, ad.destinations, maxHops);
    Ok(InsertAccepted(t, ad, ad.destinations, maxHops))
  }

  /** Hop limits at the boundary: hop count 9 is taken with max_hops 10 and dropped with max_hops 9. */
  lemma HopLimitBoundary(t: Table, ad: RouteAdvertisement, d: DestinationAnnouncement)
    requires ad.destinations == [d] && d.hopCount == 9 && ValidateAdvert(ad).Ok?
    ensures ProcessAdvertisement(t, ad, 10).value.1 == 1
    ensures ProcessAdvertisement(t, ad, 9).value.1 == 0
    ensures ProcessAdvertisement(t, ad, 9).value.0 == t
  {
    assert ad.destinations[1..] == [];
    assert Accepted(d, 10) && !Accepted(d, 9);
    var t10 := Insert(t, EntryFor(ad, d, 10)).0;
    assert InsertAccepted(t, ad, [d], 10) == (InsertAccepted(t10, ad, [], 10).0, 1);
    assert InsertAccepted(t, ad, [d], 9) == (InsertAccepted(t, ad, [], 9).0, 0);
  }

  // ----- Re-advertising -----

  /** The announcement a table entry becomes one hop further out. */
  function Reannounce(e: RouteEntry, hops: u32): DestinationAnnouncement {
    DestinationAnnouncement(e.destination, e.currencies, e.liquidity, e.feeRate, e.latencyMs, e.trust, hops)
  }

  /** The entries within `max_hops` once incremented, re-announced in order. */
  function Reannounced(es: seq<RouteEntry>, maxHops: u32): (r: seq<DestinationAnnouncement>)
    ensures |r| <= |es|
    ensures forall a :: a in r ==> 1 <= a.hopCount <= maxHops
    ensures forall a :: a in r ==> exists e :: e in es && e.hopCount + 1 <= maxHops && a == Reannounce(e, e.hopCount + 1)
    ensures forall e :: e in es && e.hopCount + 1 <= maxHops ==> Reannounce(e, e.hopCount + 1) in r
  {
    if |es| == 0 then []
    else
      var rest := Reannounced(es[1..], maxHops);
      ReannouncedCons(es, maxHops, rest);
      if es[0].hopCount + 1 <= maxHops then [Reannounce(es[0], es[0].hopCount + 1)] + rest else rest
  }

  /** One step of `Reannounced`: what holds of the tail's announcements holds after the head is considered. */
  lemma ReannouncedCons(es: seq<RouteEntry>, maxHops: u32, rest: seq<DestinationAnnouncement>)
    requires |es| > 0
    requires forall a :: a in rest ==> 1 <= a.hopCount <= maxHops
    requires forall a :: a in rest ==> exists e :: e in es[1..] && e.hopCount + 1 <= maxHops && a == Reannounce(e, e.hopCount + 1)
    requires forall e :: e in es[1..] && e.hopCount + 1 <= maxHops ==> Reannounce(e, e.hopCount + 1) in rest
    ensures var r := if es[0].hopCount + 1 <= maxHops then [Reannounce(es[0], es[0].hopCount + 1)] + rest else rest;
            (forall a :: a in r ==> 1 <= a.hopCount <= maxHops) &&
            (forall a :: a in r ==> exists e :: e in es && e.hopCount + 1 <= maxHops && a == Reannounce(e, e.hopCount + 1)) &&
            (forall e :: e in es && e.hopCount + 1 <= maxHops ==> Reannounce(e, e.hopCount + 1) in r)
  {
    var r := if es[0].hopCount + 1 <= maxHops then [Reannounce(es[0], es[0].hopCount + 1)] + rest else rest;
    assert es == [es[0]] + es[1..];
    forall a | a in r
      ensures 1 <= a.hopCount <= maxHops
      ensures exists e :: e in es && e.hopCount + 1 <= maxHops && a == Reannounce(e, e.hopCount + 1)
    {
      if a in rest {
        var e :| e in es[1..] && e.hopCount + 1 <= maxHops && a == Reannounce(e, e.hopCount + 1);
        assert e in es;
      } else {
        assert es[0] in es;
      }
    }
    forall e | e in es && e.hopCount + 1 <= maxHops
      ensures Reannounce(e, e.hopCount + 1) in r
    {
      if e != es[0] {
        assert e in es[1..];
      }
    }
  }

  /** `create_readvertisement`: announces, in table iteration order, every entry whose hop count plus
      one is within `max_hops`, with that incremented hop count. */
  function CreateReadvertisement(localDid: Did, localPeerId: string, t: Table, order: seq<RouteKey>,
                                 ttl: nat, sequenceNumber: u64, maxHops: u32, id: string, now: int): (ad: RouteAdvertisement)
    requires Enumerates(t, order)
    ensures ad.advertiserDid == localDid && ad.advertiserPeerId == localPeerId
    ensures forall a :: a in ad.destinations ==> 1 <= a.hopCount <= maxHops
    ensures forall k :: k in t && t[k].hopCount + 1 <= maxHops ==> Reannounce(t[k], t[k].hopCount + 1) in ad.destinations
    ensures forall a :: a in ad.destinations ==> exists k :: k in t && t[k].hopCount + 1 <= maxHops && a == Reannounce(t[k], t[k].hopCount + 1)
  {
    var es := AllEntries(t, order);
    var ds := Reannounced(es, maxHops);
    ReannouncedFromTable(t, order, maxHops);
    RouteAdvertisement(id, localDid, localPeerId, ds, now, sequenceNumber, ttl)
  }

  /** Every listed entry is stored under some key. */
  lemma StoredEntry(t: Table, order: seq<RouteKey>, e: RouteEntry) returns (k: RouteKey)
    requires Enumerates(t, order)
    requires e in AllEntries(t, order)
    ensures k in t && t[k] == e
  {
    var es := AllEntries(t, order);
    var i :| 0 <= i < |es| && es[i] == e;
    k := order[i];
  }

  lemma ReannouncedFromTable(t: Table, order: seq<RouteKey>, maxHops: u32)
    requires Enumerates(t, order)
    ensures forall a :: a in Reannounced(AllEntries(t, order), maxHops) ==>
      exists k :: k in t && t[k].hopCount + 1 <= maxHops && a == Reannounce(t[k], t[k].hopCount + 1)
  {
    forall a | a in Reannounced(AllEntries(t, order), maxHops)
      ensures exists k :: k in t && t[k].hopCount + 1 <= maxHops && a == Reannounce(t[k], t[k].hopCount + 1)
    {
      var k := ReannouncedSource(t, order, maxHops, a);
    }
  }

  lemma ReannouncedSource(t: Table, order: seq<RouteKey>, maxHops: u32, a: DestinationAnnouncement) returns (k: RouteKey)
    requires Enumerates(t, order)
    requires a in Reannounced(AllEntries(t, order), maxHops)
    ensures k in t && t[k].hopCount + 1 <= maxHops && a == Reannounce(t[k], t[k].hopCount + 1)
  {
    var e := ReannouncedWitness(AllEntries(t, order), maxHops, a);
    k := StoredEntry(t, order, e);
  }

  /** The entry a re-announcement was made from. */
  lemma ReannouncedWitness(es: seq<RouteEntry>, maxHops: u32, a: DestinationAnnouncement) returns (e: RouteEntry)
    requires a in Reannounced(es, maxHops)
    ensures e in es && e.hopCount + 1 <= maxHops && a == Reannounce(e, e.hopCount + 1)
  {
    e :| e in es && e.hopCount + 1 <= maxHops && a == Reannounce(e, e.hopCount + 1);
  }

  // ----- The hop counter as written: u32 addition that wraps -----

  /** `hop_count + 1` on a u32 as a release build computes it (a debug build panics instead). */
  function WrappingIncrement(h: u32): (r: u32)
    ensures h < TWO_32 - 1 ==> r == h + 1
    ensures h == TWO_32 - 1 ==> r == 0
  {
    (h + 1) % TWO_32
  }

  /** `process_advertisement` with the wrapping increment of the source. */
  function InsertAcceptedAsWritten(t: Table, ad: RouteAdvertisement, ds: seq<DestinationAnnouncement>, maxHops: u32): (r: (Table, nat))
    ensures r.1 <= |ds|
    decreases |ds|
  {
    if |ds| == 0 then (t, 0)
    else
      var d := ds[0];
      var h := WrappingIncrement(d.hopCount);
      var t1 := if h <= maxHops then Insert(t, EntryFor(ad, d, h)).0 else t;
      var rest := InsertAcceptedAsWritten(t1, ad, ds[1..], maxHops);
      (rest.0, rest.1 + (if h <= maxHops then 1 else 0))
  }

  function ProcessAdvertisementAsWritten(t: Table, ad: RouteAdvertisement, maxHops: u32): (r: Result<(Table, nat), RoutingError>)
    ensures r.Ok? <==> ValidateAdvert(ad).Ok?
    ensures r.Ok? ==> r.value.1 <= |ad.destinations|
  {
    var _ :- ValidateAdvert(ad);
    Ok(InsertAcceptedAsWritten(t, ad, ad.destinations, maxHops))
  }

  /** An announcement claiming u32::MAX hops passes the limit as written and enters the table as a
      zero-hop route, while the corrected merge drops it. */
  lemma MaxHopAnnouncementWraps(t: Table, ad: RouteAdvertisement, d: DestinationAnnouncement, maxHops: u32)
    requires ad.destinations == [d] && d.hopCount == TWO_32 - 1 && ValidateAdvert(ad).Ok?
    ensures ProcessAdvertisementAsWritten(t, ad, maxHops).value.1 == 1
    ensures var t' := ProcessAdvertisementAsWritten(t, ad, maxHops).value.0;
      KeyFor(ad, d) in t' && t'[KeyFor(ad, d)].hopCount == 0
    ensures ProcessAdvertisement(t, ad, maxHops).value == (t, 0)
  {
    assert ad.destinations[1..] == [];
    assert WrappingIncrement(d.hopCount) == 0;
    var t1 := Insert(t, EntryFor(ad, d, 0)).0;
    assert InsertAcceptedAsWritten(t, ad, [d], maxHops) == (InsertAcceptedAsWritten(t1, ad, [], maxHops).0, 1);
    assert t1[KeyFor(ad, d)] == EntryFor(ad, d, 0);
    assert !Accepted(d, maxHops);
    assert InsertAccepted(t, ad, [d], maxHops) == (InsertAccepted(t, ad, [], maxHops).0, 0);
  }

  /** `create_readvertisement` with the wrapping increment of the source. */
  function ReannouncedAsWritten(es: seq<RouteEntry>, maxHops: u32): (r: seq<DestinationAnnouncement>)
    ensures |r| <= |es|
  {
    if |es| == 0 then []
    else
      var h := WrappingIncrement(es[0].hopCount);
      var rest := ReannouncedAsWritten(es[1..], maxHops);
      if h <= maxHops then [Reannounce(es[0], h)] + rest else rest
  }

  /** A table entry at u32::MAX hops is re-announced as written at hop 0; the corrected
      re-advertisement leaves it out. */
  lemma MaxHopEntryWraps(e: RouteEntry, maxHops: u32)
    requires e.hopCount == TWO_32 - 1
    ensures ReannouncedAsWritten([e], maxHops) == [Reannounce(e, 0)]
    ensures Reannounced([e], maxHops) == []
  {
    assert [e][1..] == [];
  }
}
