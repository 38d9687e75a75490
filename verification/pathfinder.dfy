/** The path finder: a best-first search over the routing table in which nodes are DID URIs
    and every admissible table entry is a directed edge. Only the structural guarantees are
    modelled: the floating-point score that orders the search is replaced by an arbitrary
    choice of which queued node to expand next, so every property below holds whatever the
    scores are. */
module PathFinding {
  import opened Wrappers
  import opened Bytes
  import opened GppnTypes
  import opened RoutingTable
  import opened Routes

  /** `PathFinderConfig` without the scoring weights, which only feed the score. */
  datatype Config = Config(maxHops: u32, minTrust: real)

  const DEFAULT_CONFIG: Config := Config(10, 0.0)

  /** An entry usable for this payment: it carries the currency and enough liquidity. */
  predicate Viable(e: RouteEntry, amount: u128, c: Currency) {
    e.SupportsCurrency(c) && e.liquidity >= amount
  }

  /** The currency and liquidity filter applied to `all_entries`, keeping the order. */
  function Viables(es: seq<RouteEntry>, amount: u128, c: Currency): (r: seq<RouteEntry>)
    ensures forall e :: e in r <==> e in es && Viable(e, amount, c)
  {
    if |es| == 0 then []
    else
      var rest := Viables(es[1..], amount, c);
      assert forall e :: e in es <==> e == es[0] || e in es[1..];
      if Viable(es[0], amount, c) then [es[0]] + rest else rest
  }

  /** Peer id to DID URI from the destinations' identifiers; a later entry overwrites an
      earlier one with the same identifier. */
  function IdMap(es: seq<RouteEntry>): (r: map<string, string>)
    ensures forall e :: e in es && e.destination.Identifier().Some? ==> e.destination.Identifier().value in r
    ensures forall id :: id in r ==> exists e :: e in es && e.destination.Identifier() == Some(id) && r[id] == e.destination.uri
  {
    if |es| == 0 then map[]
    else
      var init := es[..|es| - 1];
      var last := es[|es| - 1];
      var m := IdMap(init);
      assert forall e :: e in es <==> e == last || e in init;
      match last.destination.Identifier()
      case Some(id) => m[id := last.destination.uri]
      case None => m
  }

  /** The DID method of the first entry's destination, "key" when there is none. */
  function MethodOfFirst(es: seq<RouteEntry>): string {
    if |es| > 0 && es[0].destination.Method().Some? then es[0].destination.Method().value else "key"
  }

  /** Adds a synthetic DID URI for every next-hop peer id the map does not know yet. */
  function Synthesize(es: seq<RouteEntry>, m: map<string, string>, didMethod: string): (r: map<string, string>)
    ensures forall k :: k in m ==> k in r && r[k] == m[k]
    ensures forall e :: e in es ==> e.nextHop in r
    ensures forall k :: k in r && k !in m ==> DidFromParts(didMethod, k).uri == r[k] && exists e :: e in es && e.nextHop == k
  {
    if |es| == 0 then m
    else
      var init := es[..|es| - 1];
      var last := es[|es| - 1];
      var r0 := Synthesize(init, m, didMethod);
      assert forall e :: e in es <==> e == last || e in init;
      if last.nextHop in r0 then r0 else r0[last.nextHop := DidFromParts(didMethod, last.nextHop).uri]
  }

  /** The node a table entry leaves from: the URI its next-hop peer id maps to, or the peer id
      itself when it maps to nothing. */
  function SourceNode(peers: map<string, string>, e: RouteEntry): string {
    if e.nextHop in peers then peers[e.nextHop] else e.nextHop
  }

  /** The peer-id map `build_adjacency` constructs from the filtered entries. */
  function PeerMap(es: seq<RouteEntry>): (r: map<string, string>)
    ensures forall e :: e in es ==> e.nextHop in r
    ensures forall k :: k in r ==>
      (exists e :: e in es && e.destination.Identifier() == Some(k) && r[k] == e.destination.uri) ||
      (exists e :: e in es && e.nextHop == k && r[k] == DidFromParts(MethodOfFirst(es), k).uri)
  {
    Synthesize(es, IdMap(es), MethodOfFirst(es))
  }

  type Edge = (RouteEntry, string)
  type Adjacency = map<string, seq<Edge>>

  function EdgesFrom(adj: Adjacency, u: string): seq<Edge> {
    if u in adj then adj[u] else []
  }

  /** Every edge of `adj` is an entry of `es`, leaving its source node for its destination URI. */
  ghost predicate EdgesSound(adj: Adjacency, es: seq<RouteEntry>, peers: map<string, string>) {
    forall u, i :: u in adj && 0 <= i < |adj[u]| ==>
      adj[u][i].0 in es && adj[u][i].1 == adj[u][i].0.destination.uri && SourceNode(peers, adj[u][i].0) == u
  }

  /** Every entry of `es` has its edge in `adj`. */
  ghost predicate EdgesComplete(adj: Adjacency, es: seq<RouteEntry>, peers: map<string, string>) {
    forall e :: e in es ==> (e, e.destination.uri) in EdgesFrom(adj, SourceNode(peers, e))
  }

  /** Appending the edge of one more entry keeps the adjacency sound and complete. */
  lemma AdjacentExtend(a: Adjacency, init: seq<RouteEntry>, last: RouteEntry, peers: map<string, string>)
    requires EdgesSound(a, init, peers) && EdgesComplete(a, init, peers)
    ensures var u := SourceNode(peers, last);
            var r := a[u := EdgesFrom(a, u) + [(last, last.destination.uri)]];
            EdgesSound(r, init + [last], peers) && EdgesComplete(r, init + [last], peers)
  {
    var es := init + [last];
    assert forall e :: e in es <==> e == last || e in init;
  }

  /** One edge per entry, from its source node to its destination URI, in entry order. */
  function Adjacent(es: seq<RouteEntry>, peers: map<string, string>): (adj: Adjacency)
    ensures forall u, i :: u in adj && 0 <= i < |adj[u]| ==>
      adj[u][i].0 in es && adj[u][i].1 == adj[u][i].0.destination.uri && SourceNode(peers, adj[u][i].0) == u
    ensures forall e :: e in es ==> (e, e.destination.uri) in EdgesFrom(adj, SourceNode(peers, e))
  {
    if |es| == 0 then map[]
    else
      var init := es[..|es| - 1];
      var last := es[|es| - 1];
      var a := Adjacent(init, peers);
      var u := SourceNode(peers, last);
      AdjacentExtend(a, init, last, peers);
      assert es == init + [last];
      a[u := EdgesFrom(a, u) + [(last, last.destination.uri)]]
  }

  /** `build_adjacency`: the graph and the peer-id map it was built with. */
  function BuildAdjacency(t: Table, order: seq<RouteKey>, amount: u128, c: Currency): (r: (Adjacency, map<string, string>))
    requires Enumerates(t, order)
  {
    var es := Viables(AllEntries(t, order), amount, c);
    var peers := PeerMap(es);
    (Adjacent(es, peers), peers)
  }

  /** An edge exists from `u` to `v` through entry `e` exactly when `e` is a viable table
      entry leaving `u` whose destination URI is `v`. */
  lemma AdjacencyEdges(t: Table, order: seq<RouteKey>, amount: u128, c: Currency, u: string, e: RouteEntry, v: string)
    requires Enumerates(t, order)
    ensures var (adj, peers) := BuildAdjacency(t, order, amount, c);
      (e, v) in EdgesFrom(adj, u) <==>
      e in t.Values && Viable(e, amount, c) && v == e.destination.uri && u == peers[e.nextHop]
  {
    var es := Viables(AllEntries(t, order), amount, c);
    var peers := PeerMap(es);
    var adj := Adjacent(es, peers);
    assert (adj, peers) == BuildAdjacency(t, order, amount, c);
    if (e, v) in EdgesFrom(adj, u) {
      var i :| 0 <= i < |adj[u]| && adj[u][i] == (e, v);
      var k :| 0 <= k < |order| && AllEntries(t, order)[k] == e;
      assert order[k] in t;
    }
    if e in t.Values && Viable(e, amount, c) {
      var k :| k in t && t[k] == e;
      assert e in AllEntries(t, order);
    }
  }

  /** No hop reaches the source, and no two hops reach the same node. */
  predicate LoopFree(path: seq<RouteEntry>, source: string) {
    (forall k :: 0 <= k < |path| ==> path[k].destination.uri != source) &&
    (forall a, b :: 0 <= a < b < |path| ==> path[a].destination.uri != path[b].destination.uri)
  }

  /** Each hop leaves from the node the previous hop reached, the first from the source. */
  predicate Chains(path: seq<RouteEntry>, source: string, peers: map<string, string>) {
    forall k :: 0 <= k < |path| ==>
      SourceNode(peers, path[k]) == (if k == 0 then source else path[k - 1].destination.uri)
  }

  /** The node a partial path has reached. */
  function EndOf(path: seq<RouteEntry>, source: string): string {
    if |path| == 0 then source else path[|path| - 1].destination.uri
  }

  /** Every structural guarantee a partial path in the search keeps. */
  predicate Admissible(path: seq<RouteEntry>, source: string, peers: map<string, string>, amount: u128, c: Currency, cfg: Config) {
    |path| <= cfg.maxHops as int &&
    (forall k :: 0 <= k < |path| ==> Viable(path[k], amount, c) && path[k].trust >= cfg.minTrust) &&
    LoopFree(path, source) &&
    Chains(path, source, peers)
  }

  /** A route `find_routes` may return from `from` to `to`. */
  predicate FoundRoute(r: Route, from: Did, to: Did, peers: map<string, string>, amount: u128, c: Currency, cfg: Config) {
    r.currency == c && r.amount == amount &&
    |r.hops| > 0 && r.hops[|r.hops| - 1].destination.uri == to.uri &&
    Admissible(r.hops, from.uri, peers, amount, c, cfg)
  }

  /** A queued search node (`SearchNode` without the score and running totals). */
  datatype Node = Node(nodeId: string, path: seq<RouteEntry>, minTrust: real)

  function Visits(counts: map<string, nat>, n: string): nat {
    if n in counts then counts[n] else 0
  }

  /** Expansions `n` still has before its visit count exceeds `maxRoutes`. */
  function Remaining(counts: map<string, nat>, n: string, maxRoutes: nat): nat {
    if Visits(counts, n) >= maxRoutes then 0 else maxRoutes - Visits(counts, n)
  }

  /** Expansions left over a list of node ids; this bounds the search. */
  function Budget(counts: map<string, nat>, univ: seq<string>, maxRoutes: nat): nat {
    if |univ| == 0 then 0 else Remaining(counts, univ[0], maxRoutes) + Budget(counts, univ[1..], maxRoutes)
  }

  /** Popping a node never raises the budget, and lowers it when the node may still expand. */
  lemma {:induction false} BudgetStep(counts: map<string, nat>, univ: seq<string>, maxRoutes: nat, n: string)
    ensures var after := counts[n := Visits(counts, n) + 1];
      Budget(after, univ, maxRoutes) <= Budget(counts, univ, maxRoutes) &&
      (n in univ && Visits(counts, n) < maxRoutes ==> Budget(after, univ, maxRoutes) < Budget(counts, univ, maxRoutes))
  {
    if |univ| > 0 {
      BudgetStep(counts, univ[1..], maxRoutes, n);
      assert n in univ ==> n == univ[0] || n in univ[1..];
    }
  }

  /** The destination URIs of a list of entries. */
  function Uris(es: seq<RouteEntry>): (r: seq<string>)
    ensures forall e :: e in es ==> e.destination.uri in r
  {
    if |es| == 0 then [] else [es[0].destination.uri] + Uris(es[1..])
  }

  /** Whether some hop of the path already reaches `u` (`already_in_path`). */
  predicate OnPath(path: seq<RouteEntry>, u: string) {
    exists k: nat :: k < |path| && path[k].destination.uri == u
  }

  /** Extending an admissible path by an edge out of its end that passes the loop, hop and
      trust checks gives an admissible path. */
  lemma Extend(path: seq<RouteEntry>, e: RouteEntry, source: string, peers: map<string, string>, amount: u128, c: Currency, cfg: Config)
    requires Admissible(path, source, peers, amount, c, cfg)
    requires |path| < cfg.maxHops as int
    requires Viable(e, amount, c) && e.trust >= cfg.minTrust
    requires SourceNode(peers, e) == EndOf(path, source)
    requires !OnPath(path, e.destination.uri) && e.destination.uri != source
    ensures Admissible(path + [e], source, peers, amount, c, cfg)
  {
    var p := path + [e];
    forall a, b | 0 <= a < b < |p| ensures p[a].destination.uri != p[b].destination.uri {
      if b == |path| {
        assert p[a] == path[a];
      }
    }
  }

  /** A queued node is consistent with its path: it sits at the path's end, the path keeps
      every structural guarantee, and the node is one the search can ever reach. */
  predicate GoodNode(n: Node, source: string, peers: map<string, string>, amount: u128, c: Currency, cfg: Config, univ: seq<string>) {
    n.nodeId == EndOf(n.path, source) && n.nodeId in univ && Admissible(n.path, source, peers, amount, c, cfg)
  }

  /** The nodes that expanding `cur` pushes, in edge order: each edge not leading back into
      the path or to the source and keeping the running minimum trust at or above the
      threshold. */
  function Successors(cur: Node, edges: seq<Edge>, source: string, cfg: Config): seq<Node> {
    if |edges| == 0 then []
    else
      var rest := Successors(cur, edges[1..], source, cfg);
      var (e, next) := edges[0];
      var newMinTrust := if e.trust < cur.minTrust then e.trust else cur.minTrust;
      if OnPath(cur.path, next) || next == source || newMinTrust < cfg.minTrust then rest
      else [Node(next, cur.path + [e], newMinTrust)] + rest
  }

  /** Every node pushed by an expansion is a good node. */
  lemma {:induction false} SuccessorsGood(cur: Node, edges: seq<Edge>, es: seq<RouteEntry>, source: string,
                                          peers: map<string, string>, amount: u128, c: Currency, cfg: Config)
    requires GoodNode(cur, source, peers, amount, c, cfg, [source] + Uris(es))
    requires |cur.path| < cfg.maxHops as int
    requires forall i :: 0 <= i < |edges| ==>
      edges[i].0 in es && edges[i].1 == edges[i].0.destination.uri && SourceNode(peers, edges[i].0) == cur.nodeId
    requires forall e :: e in es ==> Viable(e, amount, c)
    ensures forall n :: n in Successors(cur, edges, source, cfg) ==> GoodNode(n, source, peers, amount, c, cfg, [source] + Uris(es))
  {
    if |edges| > 0 {
      SuccessorsGood(cur, edges[1..], es, source, peers, amount, c, cfg);
      var (e, next) := edges[0];
      var newMinTrust := if e.trust < cur.minTrust then e.trust else cur.minTrust;
      if !(OnPath(cur.path, next) || next == source || newMinTrust < cfg.minTrust) {
        Extend(cur.path, e, source, peers, amount, c, cfg);
        assert next in Uris(es);
      }
    }
  }

  /** `BinaryHeap::pop` with the choice abstracted: `pick` selects the node taken out. */
  function Pop(heap: seq<Node>, pick: seq<Node> -> nat): (r: (Node, seq<Node>))
    requires |heap| > 0
    ensures r.0 in heap
    ensures |r.1| == |heap| - 1
    ensures forall n :: n in r.1 ==> n in heap
    ensures multiset(heap) == multiset(r.1) + multiset{r.0}
  {
    var i := pick(heap) % |heap|;
    assert heap == heap[..i] + [heap[i]] + heap[i + 1..];
    (heap[i], heap[..i] + heap[i + 1..])
  }

  /** What stays fixed during one search. */
  datatype Context = Context(
    source: string, dest: string, es: seq<RouteEntry>, peers: map<string, string>, adj: Adjacency,
    amount: u128, c: Currency, cfg: Config, maxRoutes: nat, pick: seq<Node> -> nat)
  {
    function Univ(): seq<string> { [source] + Uris(es) }

    /** The graph was built from `es` by `build_adjacency`'s rules and `es` passed the filter. */
    predicate Valid() {
      (forall e :: e in es ==> Viable(e, amount, c)) &&
      (forall u, i :: u in adj && 0 <= i < |adj[u]| ==>
        adj[u][i].0 in es && adj[u][i].1 == adj[u][i].0.destination.uri && SourceNode(peers, adj[u][i].0) == u)
    }
  }

  /** The loop state: queue, visit counts, routes found, and whether the loop has stopped. */
  datatype Search = Search(heap: seq<Node>, counts: map<string, nat>, found: seq<Route>, stopped: bool)

  /** The loop invariant of the search. */
  predicate SearchInv(x: Context, s: Search, from: Did, to: Did) {
    x.source == from.uri && x.dest == to.uri &&
    (forall n :: n in s.heap ==> GoodNode(n, x.source, x.peers, x.amount, x.c, x.cfg, x.Univ())) &&
    |s.found| <= x.maxRoutes &&
    (forall k :: 0 <= k < |s.found| ==> FoundRoute(s.found[k], from, to, x.peers, x.amount, x.c, x.cfg))
  }

  /** One iteration of the `while let Some(current) = heap.pop()` loop. */
  function Step(x: Context, s: Search): Search
    requires |s.heap| > 0
  {
    var (current, rest) := Pop(s.heap, x.pick);
    if |s.found| >= x.maxRoutes then Search(rest, s.counts, s.found, true)
    else
      var seen := Visits(s.counts, current.nodeId);
      var counts := s.counts[current.nodeId := seen + 1];
      if seen + 1 > x.maxRoutes then Search(rest, counts, s.found, false)
      else if current.nodeId == x.dest then
        Search(rest, counts, if |current.path| > 0 then s.found + [Route(current.path, x.c, x.amount)] else s.found, false)
      else if |current.path| >= x.cfg.maxHops as int then Search(rest, counts, s.found, false)
      else Search(rest + Successors(current, EdgesFrom(x.adj, current.nodeId), x.source, x.cfg), counts, s.found, false)
  }

  /** A step keeps the loop invariant. */
  lemma StepKeeps(x: Context, s: Search, from: Did, to: Did)
    requires x.Valid() && SearchInv(x, s, from, to) && |s.heap| > 0
    ensures SearchInv(x, Step(x, s), from, to)
  {
    var (current, rest) := Pop(s.heap, x.pick);
    assert GoodNode(current, x.source, x.peers, x.amount, x.c, x.cfg, x.Univ());
    if |s.found| < x.maxRoutes && Visits(s.counts, current.nodeId) + 1 <= x.maxRoutes
       && current.nodeId != x.dest && |current.path| < x.cfg.maxHops as int {
      var edges := EdgesFrom(x.adj, current.nodeId);
      SuccessorsGood(current, edges, x.es, x.source, x.peers, x.amount, x.c, x.cfg);
      var pushed := Successors(current, edges, x.source, x.cfg);
      assert forall n :: n in rest + pushed ==> n in rest || n in pushed;
    }
  }

  /** Unless it stops the loop, a step lowers the pair (budget, queue length)
      lexicographically: the search always ends. */
  lemma StepShrinks(x: Context, s: Search, from: Did, to: Did)
    requires SearchInv(x, s, from, to) && |s.heap| > 0
    ensures var r := Step(x, s);
      r.stopped ||
      Budget(r.counts, x.Univ(), x.maxRoutes) < Budget(s.counts, x.Univ(), x.maxRoutes) ||
      (Budget(r.counts, x.Univ(), x.maxRoutes) == Budget(s.counts, x.Univ(), x.maxRoutes) && |r.heap| < |s.heap|)
  {
    var (current, rest) := Pop(s.heap, x.pick);
    assert GoodNode(current, x.source, x.peers, x.amount, x.c, x.cfg, x.Univ());
    BudgetStep(s.counts, x.Univ(), x.maxRoutes, current.nodeId);
  }

  /** The search context `find_routes` sets up: the filtered entries and the graph
      `build_adjacency` makes of them. */
  function MakeContext(t: Table, order: seq<RouteKey>, cfg: Config, from: Did, to: Did, amount: u128, c: Currency,
                       maxRoutes: nat, pick: seq<Node> -> nat): (x: Context)
    requires Enumerates(t, order)
    ensures x.Valid()
    ensures x.source == from.uri && x.dest == to.uri && x.amount == amount && x.c == c && x.cfg == cfg
    ensures x.maxRoutes == maxRoutes && x.pick == pick
    ensures (x.adj, x.peers) == BuildAdjacency(t, order, amount, c)
    ensures x.peers == PeerMap(Viables(AllEntries(t, order), amount, c))
  {
    var es := Viables(AllEntries(t, order), amount, c);
    var peers := PeerMap(es);
    Context(from.uri, to.uri, es, peers, Adjacent(es, peers), amount, c, cfg, maxRoutes, pick)
  }

  /** The search loop of `find_routes`: the routes it collects before the loop ends. */
  method RunSearch(x: Context, from: Did, to: Did) returns (found: seq<Route>)
    requires x.Valid() && x.source == from.uri && x.dest == to.uri
    ensures |found| <= x.maxRoutes
    ensures forall k :: 0 <= k < |found| ==> FoundRoute(found[k], from, to, x.peers, x.amount, x.c, x.cfg)
  {
    var s := Search([Node(from.uri, [], 1.0)], map[], [], false);
    assert GoodNode(s.heap[0], x.source, x.peers, x.amount, x.c, x.cfg, x.Univ());
    while |s.heap| > 0 && !s.stopped
      invariant SearchInv(x, s, from, to)
      decreases Budget(s.counts, x.Univ(), x.maxRoutes), |s.heap|
    {
      StepKeeps(x, s, from, to);
      StepShrinks(x, s, from, to);
      s := Step(x, s);
    }
    return s.found;
  }

  /** `PathFinder::find_routes` before the final sort by score. The heap's pop order is
      `pick`: any choice among the queued nodes. */
  method FindRoutes(t: Table, order: seq<RouteKey>, cfg: Config, from: Did, to: Did, amount: u128, c: Currency,
                    maxRoutes: nat, pick: seq<Node> -> nat)
      returns (r: Result<seq<Route>, RoutingError>)
    requires Enumerates(t, order)
    ensures r == Err(EmptyRoutingTable) <==> |t| == 0
    ensures r.Err? && |t| > 0 ==> r == Err(NoRouteFound(from, to))
    ensures r.Ok? ==> 0 < |r.value| <= maxRoutes
    ensures r.Ok? ==> forall k :: 0 <= k < |r.value| ==>
      FoundRoute(r.value[k], from, to, PeerMap(Viables(AllEntries(t, order), amount, c)), amount, c, cfg)
  {
    if |t| == 0 {
      return Err(EmptyRoutingTable);
    }
    var x := MakeContext(t, order, cfg, from, to, amount, c, maxRoutes, pick);
    var found := RunSearch(x, from, to);
    if |found| == 0 {
      return Err(NoRouteFound(from, to));
    }
    return Ok(found);
  }
}
