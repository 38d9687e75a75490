/** The directed trust graph of the Veritas identity layer: one weighted edge per
    (truster, trusted) pair of DIDs. Weights are reals (no NaN), the clock is the
    explicit `now`, and listings follow an iteration order passed in as `order`. */
module TrustGraphs {
  import opened Wrappers
  import opened IdentityErrors

  datatype TrustEdge = TrustEdge(fromDid: string, toDid: string, weight: real, interactions: nat, lastUpdated: int)

  /** An edge's key: (from DID, to DID). */
  type EdgeKey = (string, string)

  datatype TrustGraph = TrustGraph(edges: map<EdgeKey, TrustEdge>)

  /** Every edge is stored under its own (from, to) pair. */
  predicate Keyed(g: TrustGraph) {
    forall k :: k in g.edges ==> g.edges[k].fromDid == k.0 && g.edges[k].toDid == k.1
  }

  /** `TrustGraph::new`. */
  function NewGraph(): (g: TrustGraph)
    ensures EdgeCount(g) == 0 && IsEmpty(g) && Keyed(g)
  {
    TrustGraph(map[])
  }

  /** `edge_count`: the number of distinct (from, to) pairs. */
  function EdgeCount(g: TrustGraph): nat {
    |g.edges|
  }

  /** `is_empty`. */
  predicate IsEmpty(g: TrustGraph) {
    |g.edges| == 0
  }

  /** `add_edge` at clock reading `now`: a weight outside [-1, 1] is rejected and the graph
      is left as it was; a new pair gets an edge with one interaction, an existing one gets
      the new weight and one more interaction. No other pair is touched. */
  function AddEdge(g: TrustGraph, from: string, to: string, weight: real, now: int): (r: (TrustGraph, Result<(), IdentityError>))
    ensures r.1.Err? <==> !(-1.0 <= weight <= 1.0)
    ensures r.1.Err? ==> r.0 == g && r.1.error == InvalidTrustWeight(weight)
    ensures r.1.Ok? ==> GetScore(r.0, from, to) == Some(weight) && r.0.edges[(from, to)].lastUpdated == now
    ensures r.1.Ok? ==> r.0.edges[(from, to)].interactions ==
                        (if (from, to) in g.edges then g.edges[(from, to)].interactions + 1 else 1)
    ensures r.1.Ok? && (from, to) !in g.edges ==> r.0.edges[(from, to)].fromDid == from && r.0.edges[(from, to)].toDid == to
    ensures r.1.Ok? ==> forall k :: k != (from, to) ==>
                          (k in r.0.edges <==> k in g.edges) && (k in g.edges ==> r.0.edges[k] == g.edges[k])
    ensures r.1.Ok? ==> EdgeCount(r.0) == EdgeCount(g) + (if (from, to) in g.edges then 0 else 1)
    ensures Keyed(g) ==> Keyed(r.0)
  {
    if !(-1.0 <= weight <= 1.0) then (g, Err(InvalidTrustWeight(weight)))
    else
      var edge := if (from, to) in g.edges
        then g.edges[(from, to)].(weight := weight, interactions := g.edges[(from, to)].interactions + 1, lastUpdated := now)
        else TrustEdge(from, to, weight, 1, now);
      (TrustGraph(g.edges[(from, to) := edge]), Ok(()))
  }

  /** `get_score`: the weight of the edge, if there is one. */
  function GetScore(g: TrustGraph, from: string, to: string): (r: Option<real>)
    ensures r.Some? <==> (from, to) in g.edges
    ensures r.Some? ==> r.value == g.edges[(from, to)].weight
  {
    if (from, to) in g.edges then Some(g.edges[(from, to)].weight) else None
  }

  /** `get_edge`. */
  function GetEdge(g: TrustGraph, from: string, to: string): (r: Option<TrustEdge>)
    ensures r.Some? <==> (from, to) in g.edges
    ensures r.Some? ==> r.value == g.edges[(from, to)]
  {
    if (from, to) in g.edges then Some(g.edges[(from, to)]) else None
  }

  /** `remove_edge`: hands back the edge, after which the pair has no score. */
  function RemoveEdge(g: TrustGraph, from: string, to: string): (r: (TrustGraph, Option<TrustEdge>))
    ensures r.1 == GetEdge(g, from, to)
    ensures GetScore(r.0, from, to).None?
    ensures forall k :: k != (from, to) ==> (k in r.0.edges <==> k in g.edges) && (k in g.edges ==> r.0.edges[k] == g.edges[k])
    ensures EdgeCount(r.0) == EdgeCount(g) - (if r.1.Some? then 1 else 0)
    ensures Keyed(g) ==> Keyed(r.0)
  {
    (TrustGraph(g.edges - {(from, to)}), GetEdge(g, from, to))
  }

  /** `order` lists every stored pair exactly once. */
  predicate Enumerates(g: TrustGraph, order: seq<EdgeKey>) {
    (forall i :: 0 <= i < |order| ==> order[i] in g.edges) &&
    (forall k :: k in g.edges ==> k in order) &&
    (forall i, j :: 0 <= i < j < |order| ==> order[i] != order[j])
  }

  /** The edges under the pairs of `order` that satisfy `keep`, in that order. */
  function Select(g: TrustGraph, order: seq<EdgeKey>, keep: EdgeKey -> bool): (r: seq<TrustEdge>)
    requires forall i :: 0 <= i < |order| ==> order[i] in g.edges
    ensures forall e :: e in r <==> exists k :: k in order && keep(k) && g.edges[k] == e
  {
    if |order| == 0 then []
    else
      var rest := Select(g, order[1..], keep);
      assert forall k :: k in order <==> k == order[0] || k in order[1..];
      if keep(order[0]) then [g.edges[order[0]]] + rest else rest
  }

  /** The selected pairs of a duplicate-free order: its head, when kept, and those of its tail. */
  lemma SelectedSetStep(order: seq<EdgeKey>, keep: EdgeKey -> bool)
    requires |order| > 0
    requires forall i, j :: 0 <= i < j < |order| ==> order[i] != order[j]
    ensures var all, tail := set k | k in order && keep(k), set k | k in order[1..] && keep(k);
            order[0] !in tail && all == (if keep(order[0]) then tail + {order[0]} else tail)
  {
    assert order[0] !in order[1..] by {
      forall i | 0 <= i < |order[1..]| ensures order[1..][i] != order[0] {
        assert order[1..][i] == order[i + 1];
      }
    }
    assert forall k :: k in order <==> k == order[0] || k in order[1..];
  }

  /** Over a duplicate-free order, `Select` yields one edge per selected pair. */
  lemma {:induction false} SelectCount(g: TrustGraph, order: seq<EdgeKey>, keep: EdgeKey -> bool)
    requires forall i :: 0 <= i < |order| ==> order[i] in g.edges
    requires forall i, j :: 0 <= i < j < |order| ==> order[i] != order[j]
    ensures |Select(g, order, keep)| == |set k | k in order && keep(k)|
  {
    if |order| > 0 {
      SelectCount(g, order[1..], keep);
      SelectedSetStep(order, keep);
    }
  }

  /** `outgoing_edges`: exactly the edges leaving `from`, one per target. */
  function OutgoingEdges(g: TrustGraph, from: string, order: seq<EdgeKey>): (r: seq<TrustEdge>)
    requires Enumerates(g, order)
    ensures forall e :: e in r <==> exists k :: k in g.edges && k.0 == from && g.edges[k] == e
    ensures |r| == |set k | k in g.edges && k.0 == from|
    ensures Keyed(g) ==> forall e :: e in r <==> e in g.edges.Values && e.fromDid == from
  {
    var keep := (k: EdgeKey) => k.0 == from;
    assert (set k | k in order && keep(k)) == (set k | k in g.edges && k.0 == from);
    SelectCount(g, order, keep);
    Select(g, order, keep)
  }

  /** `incoming_edges`: exactly the edges reaching `to`, one per source. */
  function IncomingEdges(g: TrustGraph, to: string, order: seq<EdgeKey>): (r: seq<TrustEdge>)
    requires Enumerates(g, order)
    ensures forall e :: e in r <==> exists k :: k in g.edges && k.1 == to && g.edges[k] == e
    ensures |r| == |set k | k in g.edges && k.1 == to|
    ensures Keyed(g) ==> forall e :: e in r <==> e in g.edges.Values && e.toDid == to
  {
    var keep := (k: EdgeKey) => k.1 == to;
    assert (set k | k in order && keep(k)) == (set k | k in g.edges && k.1 == to);
    SelectCount(g, order, keep);
    Select(g, order, keep)
  }

  /** Adding the same pair twice keeps the second weight and counts two interactions. */
  lemma RepeatedAddCountsInteractions(g: TrustGraph, from: string, to: string, w1: real, w2: real, t1: int, t2: int)
    requires (from, to) !in g.edges
    requires -1.0 <= w1 <= 1.0 && -1.0 <= w2 <= 1.0
    ensures var g2 := AddEdge(AddEdge(g, from, to, w1, t1).0, from, to, w2, t2).0;
            GetScore(g2, from, to) == Some(w2) && g2.edges[(from, to)].interactions == 2 &&
            EdgeCount(g2) == EdgeCount(g) + 1
  {
  }
}
