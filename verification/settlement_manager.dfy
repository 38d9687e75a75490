/** The settlement manager: a registry of adapters keyed by adapter id, and dispatch of each
    settlement call to the adapter named in it. The adapter type is a parameter; an adapter
    call is a function from the adapter to its updated state and result. */
module SettlementManager {
  import opened Wrappers
  import opened SettlementTypes

  datatype Manager<A> = Manager(adapters: map<string, A>)

  /** `register_adapter`: keyed by the adapter's own id, replacing one with the same id. */
  function Register<A>(m: Manager<A>, a: A, idOf: A -> string): (r: Manager<A>)
    ensures idOf(a) in r.adapters && r.adapters[idOf(a)] == a
    ensures forall k :: k != idOf(a) ==> (k in r.adapters <==> k in m.adapters)
    ensures forall k :: k != idOf(a) && k in m.adapters ==> r.adapters[k] == m.adapters[k]
    ensures AdapterCount(r) == AdapterCount(m) + (if idOf(a) in m.adapters then 0 else 1)
  {
    Manager(m.adapters[idOf(a) := a])
  }

  /** `unregister_adapter`: removes and returns the adapter. */
  function Unregister<A>(m: Manager<A>, id: string): (r: (Manager<A>, Option<A>))
    ensures id !in r.0.adapters
    ensures id in m.adapters ==> r.1 == Some(m.adapters[id]) && AdapterCount(r.0) == AdapterCount(m) - 1
    ensures id !in m.adapters ==> r == (m, None)
    ensures forall k :: k != id ==> (k in r.0.adapters <==> k in m.adapters)
  {
    if id in m.adapters then (Manager(m.adapters - {id}), Some(m.adapters[id])) else (m, None)
  }

  /** `get_adapter`. */
  function GetAdapter<A>(m: Manager<A>, id: string): (r: Result<A, SettlementError>)
    ensures r.Ok? <==> id in m.adapters
    ensures r.Ok? ==> r.value == m.adapters[id]
    ensures r.Err? ==> r.error == AdapterNotFound(id)
  {
    if id in m.adapters then Ok(m.adapters[id]) else Err(AdapterNotFound(id))
  }

  /** `adapter_count`. */
  function AdapterCount<A>(m: Manager<A>): (n: nat)
    ensures n == |m.adapters.Keys|
  {
    |m.adapters|
  }

  /** `adapter_ids`, in the map's iteration order `order` (any listing of the keys). */
  function AdapterIds<A>(m: Manager<A>, order: seq<string>): (r: seq<string>)
    requires forall k :: k in order <==> k in m.adapters
    requires forall i, j :: 0 <= i < j < |order| ==> order[i] != order[j]
    ensures forall k :: k in r <==> k in m.adapters
    ensures |r| == AdapterCount(m)
  {
    DistinctCard(order, m.adapters.Keys);
    order
  }

  /** A duplicate-free listing of a set has the set's size. */
  lemma {:induction false} DistinctCard(s: seq<string>, keys: set<string>)
    requires forall k :: k in s <==> k in keys
    requires forall i, j :: 0 <= i < j < |s| ==> s[i] != s[j]
    ensures |s| == |keys|
    decreases |s|
  {
    if |s| > 0 {
      var rest := s[1..];
      assert forall k :: k in rest <==> k in keys - {s[0]} by {
        forall k ensures k in rest <==> k in keys - {s[0]} {
          if k in rest {
            var j :| 0 <= j < |rest| && rest[j] == k;
            assert s[j + 1] == k;
          }
          if k in s && k != s[0] {
            var j :| 0 <= j < |s| && s[j] == k;
            assert rest[j - 1] == k;
          }
        }
      }
      DistinctCard(rest, keys - {s[0]});
    } else {
      assert forall k :: k !in keys;
      assert keys == {};
    }
  }

  /** Dispatch of a call that may change the adapter (`initiate`, `confirm`, `rollback`):
      an unknown id fails with AdapterNotFound before the call is made. */
  function Dispatch<A, R>(m: Manager<A>, id: string, call: A -> (A, Result<R, SettlementError>)): (r: (Manager<A>, Result<R, SettlementError>))
    ensures id !in m.adapters ==> r == (m, Err(AdapterNotFound(id)))
    ensures id in m.adapters ==> r.1 == call(m.adapters[id]).1 && r.0.adapters == m.adapters[id := call(m.adapters[id]).0]
  {
    match GetAdapter(m, id)
    case Err(e) => (m, Err(e))
    case Ok(a) =>
      var (a2, res) := call(a);
      (Manager(m.adapters[id := a2]), res)
  }

  /** Dispatch of a read-only call (`get_status`, `estimate_cost`, `estimate_latency`,
      `supported_currencies`). */
  function Query<A, R>(m: Manager<A>, id: string, call: A -> Result<R, SettlementError>): (r: Result<R, SettlementError>)
    ensures id !in m.adapters ==> r == Err(AdapterNotFound(id))
    ensures id in m.adapters ==> r == call(m.adapters[id])
  {
    var a :- GetAdapter(m, id);
    call(a)
  }

  /** On an unregistered id the outcome does not depend on the call at all. */
  lemma UnknownIgnoresCall<A, R>(m: Manager<A>, id: string, c1: A -> (A, Result<R, SettlementError>), c2: A -> (A, Result<R, SettlementError>))
    requires id !in m.adapters
    ensures Dispatch(m, id, c1) == Dispatch(m, id, c2)
  {
  }

  /** A registered adapter is found under its id, and is gone once unregistered. */
  lemma RegisterUnregister<A>(m: Manager<A>, a: A, idOf: A -> string)
    ensures GetAdapter(Register(m, a, idOf), idOf(a)) == Ok(a)
    ensures GetAdapter(Unregister(Register(m, a, idOf), idOf(a)).0, idOf(a)) == Err(AdapterNotFound(idOf(a)))
  {
  }
}
