/** A route: the ordered hops from source to destination, and its aggregate measures. */
module Routes {
  import opened Bytes
  import opened GppnTypes
  import opened RoutingTable

  datatype Route = Route(hops: seq<RouteEntry>, currency: Currency, amount: u128)

  /** `Route::hop_count`. */
  function HopCount(r: Route): (n: nat)
    ensures n == |r.hops|
  {
    |r.hops|
  }

  /** Sum of the per-hop latencies. */
  function Latency(hops: seq<RouteEntry>): nat {
    if |hops| == 0 then 0 else hops[0].latencyMs + Latency(hops[1..])
  }

  /** `Route::estimated_latency`. */
  function EstimatedLatency(r: Route): (ms: nat)
    ensures forall h :: h in r.hops ==> h.latencyMs <= ms
  {
    LatencyBounds(r.hops);
    Latency(r.hops)
  }

  lemma {:induction false} LatencyBounds(hops: seq<RouteEntry>)
    ensures forall h :: h in hops ==> h.latencyMs <= Latency(hops)
  {
    if |hops| > 0 {
      LatencyBounds(hops[1..]);
      assert forall h :: h in hops ==> h == hops[0] || h in hops[1..];
    }
  }

  /** Latency adds up over the concatenation of two hop lists. */
  lemma {:induction false} LatencyAppend(a: seq<RouteEntry>, b: seq<RouteEntry>)
    ensures Latency(a + b) == Latency(a) + Latency(b)
  {
    if |a| == 0 {
      assert a + b == b;
    } else {
      assert (a + b)[0] == a[0];
      assert (a + b)[1..] == a[1..] + b;
      LatencyAppend(a[1..], b);
    }
  }

  /** Sum over the hops of each hop's fee on the same amount. `feeFor` stands for
      `RouteEntry::fee_for`, a floating-point ceiling of amount times fee rate. */
  function Fees(hops: seq<RouteEntry>, amount: u128, feeFor: (RouteEntry, u128) -> nat): nat {
    if |hops| == 0 then 0 else feeFor(hops[0], amount) + Fees(hops[1..], amount, feeFor)
  }

  /** `Route::total_cost`: every hop's fee is computed on the original amount. */
  function TotalCost(r: Route, feeFor: (RouteEntry, u128) -> nat): (c: nat)
    ensures forall h :: h in r.hops ==> feeFor(h, r.amount) <= c
  {
    FeesBounds(r.hops, r.amount, feeFor);
    Fees(r.hops, r.amount, feeFor)
  }

  lemma {:induction false} FeesBounds(hops: seq<RouteEntry>, amount: u128, feeFor: (RouteEntry, u128) -> nat)
    ensures forall h :: h in hops ==> feeFor(h, amount) <= Fees(hops, amount, feeFor)
  {
    if |hops| > 0 {
      FeesBounds(hops[1..], amount, feeFor);
      assert forall h :: h in hops ==> h == hops[0] || h in hops[1..];
    }
  }

  /** The cost adds up over the concatenation of two hop lists: no hop's fee depends on the others. */
  lemma {:induction false} FeesAppend(a: seq<RouteEntry>, b: seq<RouteEntry>, amount: u128, feeFor: (RouteEntry, u128) -> nat)
    ensures Fees(a + b, amount, feeFor) == Fees(a, amount, feeFor) + Fees(b, amount, feeFor)
  {
    if |a| == 0 {
      assert a + b == b;
    } else {
      assert (a + b)[0] == a[0];
      assert (a + b)[1..] == a[1..] + b;
      FeesAppend(a[1..], b, amount, feeFor);
    }
  }

  /** `Route::min_liquidity`: the smallest hop liquidity, 0 for a route without hops. */
  function MinLiquidity(hops: seq<RouteEntry>): (m: nat)
    ensures |hops| == 0 ==> m == 0
    ensures forall h :: h in hops ==> m <= h.liquidity
    ensures |hops| > 0 ==> exists h :: h in hops && m == h.liquidity
  {
    if |hops| == 0 then 0
    else if |hops| == 1 then hops[0].liquidity
    else
      var rest := MinLiquidity(hops[1..]);
      assert forall h :: h in hops ==> h == hops[0] || h in hops[1..];
      if hops[0].liquidity <= rest then hops[0].liquidity else rest
  }

  /** `Route::all_hops_support_currency`. */
  function AllHopsSupportCurrency(r: Route): (b: bool)
    ensures b <==> forall h :: h in r.hops ==> r.currency in h.currencies
  {
    forall h | h in r.hops :: h.SupportsCurrency(r.currency)
  }

  /** `Route::all_hops_have_liquidity`. */
  function AllHopsHaveLiquidity(r: Route): (b: bool)
    ensures b <==> forall i :: 0 <= i < |r.hops| ==> r.hops[i].liquidity >= r.amount
  {
    forall h | h in r.hops :: h.liquidity >= r.amount
  }

  /** On a route with hops, every hop has the liquidity exactly when the weakest hop has it. */
  lemma LiquidityByMinimum(r: Route)
    requires |r.hops| > 0
    ensures AllHopsHaveLiquidity(r) <==> MinLiquidity(r.hops) >= r.amount
  {
    var m := MinLiquidity(r.hops);
    if m >= r.amount {
      assert forall i :: 0 <= i < |r.hops| ==> r.hops[i] in r.hops;
    }
  }
}
