/** Hash time-locked contracts: a hash lock on a preimage and an absolute expiry, with an
    explicit clock (`now`, milliseconds since the epoch) passed to every time-dependent call. */
module Htlcs {
  import opened Wrappers
  import opened Bytes
  import opened GppnTypes
  import opened SettlementTypes

  datatype HtlcStatus = Active | Claimed | Refunded | Expired

  datatype Htlc = Htlc(
    id: Uuid,
    hashLock: Hash,
    timeLock: u64,
    amount: Amount,
    sender: Did,
    receiver: Did,
    status: HtlcStatus,
    createdAt: int)

  /** The `HtlcManager`'s map from id to contract. */
  type Htlcs = map<Uuid, Htlc>

  /** `create_htlc`: a new Active contract locked on `hash(preimage)`; `id` and `now` are the
      fresh UUID and the creation instant. */
  function CreateHtlc(m: Htlcs, id: Uuid, preimage: seq<byte>, timeLock: u64, amount: Amount, sender: Did,
                      receiver: Did, now: int, hash: seq<byte> -> Hash): (r: (Htlcs, Htlc))
    ensures r.1.status == Active && r.1.hashLock == hash(preimage) && r.1.timeLock == timeLock && r.1.id == id
    ensures r.0 == m[id := r.1]
    ensures id !in m ==> |r.0| == |m| + 1
  {
    var h := Htlc(id, hash(preimage), timeLock, amount, sender, receiver, Active, now);
    (m[id := h], h)
  }

  /** `claim`: checks presence, status, expiry and then the preimage. Reaching an expired
      contract marks it Expired even though the call fails. */
  function Claim(m: Htlcs, id: Uuid, preimage: seq<byte>, now: u64, hash: seq<byte> -> Hash): (r: (Htlcs, Result<Htlc, SettlementError>))
    ensures id !in m ==> r == (m, Err(NotFound(id)))
    ensures id in m && m[id].status != Active ==> r.0 == m && r.1.Err? && r.1.error.InvalidStateTransition?
    ensures id in m && m[id].status == Active && now >= m[id].timeLock ==>
      r == (m[id := m[id].(status := HtlcStatus.Expired)], Err(SettlementError.Expired(id)))
    ensures id in m && m[id].status == Active && now < m[id].timeLock && hash(preimage) != m[id].hashLock ==>
      r == (m, Err(PreimageMismatch(id)))
    ensures r.1.Ok? <==> id in m && m[id].status == Active && now < m[id].timeLock && hash(preimage) == m[id].hashLock
    ensures r.1.Ok? ==> r.1.value == m[id].(status := Claimed) && r.0 == m[id := r.1.value]
  {
    if id !in m then (m, Err(NotFound(id)))
    else
      var h := m[id];
      if h.status != Active then (m, Err(InvalidStateTransition("cannot claim HTLC in this status")))
      else if now >= h.timeLock then (m[id := h.(status := HtlcStatus.Expired)], Err(SettlementError.Expired(id)))
      else if hash(preimage) != h.hashLock then (m, Err(PreimageMismatch(id)))
      else
        var c := h.(status := Claimed);
        (m[id := c], Ok(c))
  }

  /** `refund`: only an Active or Expired contract whose time lock has passed is refunded. */
  function Refund(m: Htlcs, id: Uuid, now: u64): (r: (Htlcs, Result<Htlc, SettlementError>))
    ensures id !in m ==> r == (m, Err(NotFound(id)))
    ensures id in m && m[id].status in {Claimed, Refunded} ==> r.0 == m && r.1.Err? && r.1.error.InvalidStateTransition?
    ensures id in m && m[id].status in {Active, HtlcStatus.Expired} && now < m[id].timeLock ==> r == (m, Err(HtlcNotExpired(id)))
    ensures r.1.Ok? <==> id in m && m[id].status in {Active, HtlcStatus.Expired} && now >= m[id].timeLock
    ensures r.1.Ok? ==> r.1.value == m[id].(status := Refunded) && r.0 == m[id := r.1.value]
  {
    if id !in m then (m, Err(NotFound(id)))
    else
      var h := m[id];
      if !(h.status == Active || h.status == HtlcStatus.Expired) then
        (m, Err(InvalidStateTransition("cannot refund HTLC in this status")))
      else if now < h.timeLock then (m, Err(HtlcNotExpired(id)))
      else
        var f := h.(status := Refunded);
        (m[id := f], Ok(f))
  }

  /** A contract that `check_expiry` at `now` marks HtlcStatus.Expired. */
  predicate Expiring(h: Htlc, now: u64) {
    h.status == Active && now >= h.timeLock
  }

  /** The map after the ids in `ids` have been visited by `check_expiry`, and how many of them
      were marked. */
  function ExpireIds(m: Htlcs, ids: seq<Uuid>, now: u64): (r: (Htlcs, nat))
    requires forall i :: 0 <= i < |ids| ==> ids[i] in m
    ensures r.0.Keys == m.Keys
  {
    if |ids| == 0 then (m, 0)
    else
      var (m1, n) := ExpireIds(m, ids[1..], now);
      var id := ids[0];
      if Expiring(m1[id], now) then (m1[id := m1[id].(status := HtlcStatus.Expired)], n + 1) else (m1, n)
  }

  /** An iteration order of the map: every id exactly once. */
  predicate Lists(m: Htlcs, ids: seq<Uuid>) {
    (forall i :: 0 <= i < |ids| ==> ids[i] in m) &&
    (forall k :: k in m ==> k in ids) &&
    (forall i, j :: 0 <= i < j < |ids| ==> ids[i] != ids[j])
  }

  /** `check_expiry`: visits every contract once in the order `ids`. */
  function CheckExpiry(m: Htlcs, ids: seq<Uuid>, now: u64): (r: (Htlcs, nat))
    requires Lists(m, ids)
    ensures r.0.Keys == m.Keys
    ensures forall k :: k in m ==> r.0[k] == (if Expiring(m[k], now) then m[k].(status := HtlcStatus.Expired) else m[k])
    ensures r.1 == |set k | k in m && Expiring(m[k], now)|
  {
    ExpireIdsEffect(m, ids, now);
    ExpireIdsCount(m, ids, now);
    assert ExpiringIn(m, ids, now) == (set k | k in m && Expiring(m[k], now));
    ExpireIds(m, ids, now)
  }

  /** Visiting distinct ids marks exactly the expiring ones among them and leaves the rest. */
  lemma {:induction false} ExpireIdsEffect(m: Htlcs, ids: seq<Uuid>, now: u64)
    requires forall i :: 0 <= i < |ids| ==> ids[i] in m
    requires forall i, j :: 0 <= i < j < |ids| ==> ids[i] != ids[j]
    ensures forall k :: k in m ==>
      ExpireIds(m, ids, now).0[k] == (if k in ids && Expiring(m[k], now) then m[k].(status := HtlcStatus.Expired) else m[k])
  {
    if |ids| > 0 {
      ExpireIdsEffect(m, ids[1..], now);
      assert ids[0] !in ids[1..];
      forall k | k in m
        ensures ExpireIds(m, ids, now).0[k] == (if k in ids && Expiring(m[k], now) then m[k].(status := HtlcStatus.Expired) else m[k])
      {
        assert k in ids <==> k == ids[0] || k in ids[1..];
      }
    }
  }

  /** The expiring ids of a list, as a set. */
  function ExpiringIn(m: Htlcs, ids: seq<Uuid>, now: u64): set<Uuid>
    requires forall i :: 0 <= i < |ids| ==> ids[i] in m
  {
    set k | k in ids && Expiring(m[k], now)
  }

  lemma ExpiringInCons(m: Htlcs, ids: seq<Uuid>, now: u64)
    requires |ids| > 0 && forall i :: 0 <= i < |ids| ==> ids[i] in m
    ensures ExpiringIn(m, ids, now) ==
      (if Expiring(m[ids[0]], now) then {ids[0]} else {}) + ExpiringIn(m, ids[1..], now)
  {
    assert forall k :: k in ids <==> k == ids[0] || k in ids[1..];
  }

  /** The count returned is the number of expiring contracts among the visited ids. */
  lemma {:induction false} ExpireIdsCount(m: Htlcs, ids: seq<Uuid>, now: u64)
    requires forall i :: 0 <= i < |ids| ==> ids[i] in m
    requires forall i, j :: 0 <= i < j < |ids| ==> ids[i] != ids[j]
    ensures ExpireIds(m, ids, now).1 == |ExpiringIn(m, ids, now)|
  {
    if |ids| > 0 {
      ExpireIdsCount(m, ids[1..], now);
      ExpireIdsEffect(m, ids[1..], now);
      ExpiringInCons(m, ids, now);
      assert ids[0] !in ids[1..];
      assert ExpireIds(m, ids[1..], now).0[ids[0]] == m[ids[0]];
    }
  }

  /** Claimed and Refunded are absorbing: claim, refund and check_expiry leave them alone. */
  lemma FinalStatusesAbsorb(m: Htlcs, ids: seq<Uuid>, id: Uuid, preimage: seq<byte>, now: u64, hash: seq<byte> -> Hash)
    requires Lists(m, ids) && id in m && m[id].status in {Claimed, Refunded}
    ensures Claim(m, id, preimage, now, hash).0 == m && Claim(m, id, preimage, now, hash).1.Err?
    ensures Refund(m, id, now).0 == m && Refund(m, id, now).1.Err?
    ensures CheckExpiry(m, ids, now).0[id] == m[id]
  {
  }

  /** At one instant, claim and refund cannot both succeed on the same contract. */
  lemma ClaimRefundExclusive(m: Htlcs, id: Uuid, preimage: seq<byte>, now: u64, hash: seq<byte> -> Hash)
    ensures !(Claim(m, id, preimage, now, hash).1.Ok? && Refund(m, id, now).1.Ok?)
  {
  }

  /** After a successful claim, claiming again with the same preimage fails. */
  lemma SecondClaimFails(m: Htlcs, id: Uuid, preimage: seq<byte>, now: u64, later: u64, hash: seq<byte> -> Hash)
    requires Claim(m, id, preimage, now, hash).1.Ok?
    ensures Claim(Claim(m, id, preimage, now, hash).0, id, preimage, later, hash).1.Err?
  {
  }
}
