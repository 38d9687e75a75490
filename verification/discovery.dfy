/** Peer discovery state of a Veritas node: the parsed bootstrap addresses and the peers
    learnt through mDNS, Kademlia and manual dialing. Multiaddr parsing is the `parse`
    parameter; peer ids and addresses are their binary forms. */
module Discovery {
  import opened Wrappers
  import opened Bytes

  type PeerId = seq<byte>
  type Multiaddr = seq<byte>

  /** The network error `new` raises, reduced to the address that failed to parse. */
  datatype NetworkError = Transport(addr: string)

  datatype PeerDiscovery = PeerDiscovery(
    bootstrapAddrs: seq<Multiaddr>,
    mdnsPeers: set<PeerId>,
    kadPeers: set<PeerId>,
    manualPeers: set<PeerId>)

  /** Parses the addresses in order, stopping at the first that does not parse. */
  function ParseAll(addrs: seq<string>, parse: string -> Option<Multiaddr>): (r: Result<seq<Multiaddr>, NetworkError>)
    ensures r.Ok? <==> forall i :: 0 <= i < |addrs| ==> parse(addrs[i]).Some?
    ensures r.Ok? ==> |r.value| == |addrs| && forall i :: 0 <= i < |addrs| ==> r.value[i] == parse(addrs[i]).value
    ensures r.Err? ==> exists i :: 0 <= i < |addrs| && parse(addrs[i]).None? && r.error == Transport(addrs[i]) &&
                                   forall j :: 0 <= j < i ==> parse(addrs[j]).Some?
  {
    if |addrs| == 0 then Ok([])
    else match parse(addrs[0])
      case None => Err(Transport(addrs[0]))
      case Some(a) =>
        match ParseAll(addrs[1..], parse)
        case Err(e) =>
          var i :| 0 <= i < |addrs[1..]| && parse(addrs[1..][i]).None? && e == Transport(addrs[1..][i]) &&
                   forall j :: 0 <= j < i ==> parse(addrs[1..][j]).Some?;
          assert forall j :: 0 < j <= i ==> addrs[j] == addrs[1..][j - 1];
          Err(e)
        case Ok(rest) =>
          assert forall i :: 0 < i < |addrs| ==> addrs[i] == addrs[1..][i - 1];
          Ok([a] + rest)
  }

  /** `PeerDiscovery::new`: every bootstrap address must parse (the first that does not is
      reported); all three peer sets start empty. */
  function NewDiscovery(addrs: seq<string>, parse: string -> Option<Multiaddr>): (r: Result<PeerDiscovery, NetworkError>)
    ensures r.Ok? <==> forall i :: 0 <= i < |addrs| ==> parse(addrs[i]).Some?
    ensures r.Err? ==> r == Err(ParseAll(addrs, parse).error)
    ensures r.Ok? ==> r.value.bootstrapAddrs == ParseAll(addrs, parse).value && |r.value.bootstrapAddrs| == |addrs|
    ensures r.Ok? ==> KnownPeerCount(r.value) == 0 && r.value.mdnsPeers == {} && r.value.kadPeers == {} && r.value.manualPeers == {}
  {
    match ParseAll(addrs, parse)
    case Err(e) => Err(e)
    case Ok(parsed) => Ok(PeerDiscovery(parsed, {}, {}, {}))
  }

  /** `add_mdns_peer`. */
  function AddMdnsPeer(d: PeerDiscovery, p: PeerId): (r: PeerDiscovery)
    ensures r.mdnsPeers == d.mdnsPeers + {p} && r.(mdnsPeers := d.mdnsPeers) == d
    ensures IsKnown(r, p)
  {
    d.(mdnsPeers := d.mdnsPeers + {p})
  }

  /** `remove_mdns_peer`: only the mDNS set loses the peer. */
  function RemoveMdnsPeer(d: PeerDiscovery, p: PeerId): (r: PeerDiscovery)
    ensures p !in r.mdnsPeers && r.(mdnsPeers := d.mdnsPeers) == d
    ensures forall q :: q != p ==> (q in r.mdnsPeers <==> q in d.mdnsPeers)
    ensures IsKnown(r, p) <==> p in d.kadPeers || p in d.manualPeers
  {
    d.(mdnsPeers := d.mdnsPeers - {p})
  }

  /** `add_kad_peer`. */
  function AddKadPeer(d: PeerDiscovery, p: PeerId): (r: PeerDiscovery)
    ensures r.kadPeers == d.kadPeers + {p} && r.(kadPeers := d.kadPeers) == d
    ensures IsKnown(r, p)
  {
    d.(kadPeers := d.kadPeers + {p})
  }

  /** `add_manual_peer`. */
  function AddManualPeer(d: PeerDiscovery, p: PeerId): (r: PeerDiscovery)
    ensures r.manualPeers == d.manualPeers + {p} && r.(manualPeers := d.manualPeers) == d
    ensures IsKnown(r, p)
  {
    d.(manualPeers := d.manualPeers + {p})
  }

  /** `all_known_peers`: the peers of all three sources, each once. */
  function AllKnownPeers(d: PeerDiscovery): (r: set<PeerId>)
    ensures forall p :: p in r <==> p in d.mdnsPeers || p in d.kadPeers || p in d.manualPeers
  {
    d.mdnsPeers + d.kadPeers + d.manualPeers
  }

  /** `known_peer_count`. */
  function KnownPeerCount(d: PeerDiscovery): nat {
    |AllKnownPeers(d)|
  }

  /** `is_known`: the peer is in one of the three sets, that is, among all known peers. */
  predicate IsKnown(d: PeerDiscovery, p: PeerId)
    ensures IsKnown(d, p) <==> p in AllKnownPeers(d)
  {
    p in d.mdnsPeers || p in d.kadPeers || p in d.manualPeers
  }

  /** Adding a peer is idempotent, whatever the source. */
  lemma AddsIdempotent(d: PeerDiscovery, p: PeerId)
    ensures AddMdnsPeer(AddMdnsPeer(d, p), p) == AddMdnsPeer(d, p)
    ensures AddKadPeer(AddKadPeer(d, p), p) == AddKadPeer(d, p)
    ensures AddManualPeer(AddManualPeer(d, p), p) == AddManualPeer(d, p)
  {
    assert d.mdnsPeers + {p} + {p} == d.mdnsPeers + {p};
    assert d.kadPeers + {p} + {p} == d.kadPeers + {p};
    assert d.manualPeers + {p} + {p} == d.manualPeers + {p};
  }

  /** No known peers means all three sets are empty. */
  lemma NoneKnown(d: PeerDiscovery)
    requires KnownPeerCount(d) == 0
    ensures d.mdnsPeers == {} && d.kadPeers == {} && d.manualPeers == {}
  {
    assert AllKnownPeers(d) == {};
  }

  lemma OnePeerCountsOnce(d: PeerDiscovery, p: PeerId)
    requires KnownPeerCount(d) == 0
    ensures KnownPeerCount(AddManualPeer(AddKadPeer(AddMdnsPeer(d, p), p), p)) == 1
  {
    NoneKnown(d);
    var once := PeerDiscovery(d.bootstrapAddrs, {p}, {p}, {p});
    assert AddManualPeer(AddKadPeer(AddMdnsPeer(d, p), p), p) == once;
    assert AllKnownPeers(once) == {p};
  }

  lemma DistinctPeersCountThree(d: PeerDiscovery, p: PeerId, q: PeerId, s: PeerId)
    requires KnownPeerCount(d) == 0 && p != q && q != s && p != s
    ensures KnownPeerCount(AddManualPeer(AddKadPeer(AddMdnsPeer(d, p), q), s)) == 3
  {
    NoneKnown(d);
    var three := PeerDiscovery(d.bootstrapAddrs, {p}, {q}, {s});
    assert AddManualPeer(AddKadPeer(AddMdnsPeer(d, p), q), s) == three;
    assert AllKnownPeers(three) == {p, q, s};
  }

  /** One peer learnt through all three sources counts once; three distinct peers count three. */
  lemma KnownPeersDeduplicated(d: PeerDiscovery, p: PeerId, q: PeerId, s: PeerId)
    requires KnownPeerCount(d) == 0
    ensures KnownPeerCount(AddManualPeer(AddKadPeer(AddMdnsPeer(d, p), p), p)) == 1
    ensures p != q && q != s && p != s ==> KnownPeerCount(AddManualPeer(AddKadPeer(AddMdnsPeer(d, p), q), s)) == 3
  {
    OnePeerCountsOnce(d, p);
    if p != q && q != s && p != s {
      DistinctPeersCountThree(d, p, q, s);
    }
  }

  /** A peer seen only through mDNS is forgotten when mDNS expires it. */
  lemma MdnsExpiryForgets(d: PeerDiscovery, p: PeerId)
    requires p !in d.kadPeers && p !in d.manualPeers
    ensures !IsKnown(RemoveMdnsPeer(AddMdnsPeer(d, p), p), p)
    ensures KnownPeerCount(RemoveMdnsPeer(AddMdnsPeer(d, p), p)) == KnownPeerCount(AddMdnsPeer(d, p)) - 1
  {
    var added := AddMdnsPeer(d, p);
    var removed := RemoveMdnsPeer(added, p);
    assert AllKnownPeers(removed) == AllKnownPeers(added) - {p};
    assert p in AllKnownPeers(added);
  }
}
