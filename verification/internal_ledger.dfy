/** The internal settlement adapter: an in-memory double-entry ledger. Balances are keyed by
    the string "<DID URI>:<currency>" and are signed. */
module InternalLedger {
  import opened Wrappers
  import opened Bytes
  import opened GppnTypes
  import opened SettlementTypes

  const ADAPTER_ID: string := "sa-internal"

  datatype Record = Record(id: Uuid, pmId: Uuid, amount: Amount, sender: Did, receiver: Did, status: SettlementStatus)

  /** Settlement records and balances. The write-only list of ledger entries is not kept. */
  datatype Ledger = Ledger(settlements: map<Uuid, Record>, balances: map<string, int>)

  const EMPTY: Ledger := Ledger(map[], map[])

  /** `balance_key`. */
  function BalanceKey(did: Did, c: Currency): string {
    did.uri + ":" + CurrencyCode(c)
  }

  function Get(b: map<string, int>, k: string): int {
    if k in b then b[k] else 0
  }

  /** A common suffix cancels. */
  lemma Cancel(x: string, y: string, t: string)
    requires x + t == y + t
    ensures x == y
  {
    assert |x| == |y|;
    assert x == (x + t)[..|x|];
    assert y == (y + t)[..|y|];
  }

  /** Keys with the same currency code agree only when their DID URIs do. */
  lemma SuffixCancels(x: string, y: string, code: string)
    requires x + ":" + code == y + ":" + code
    ensures x == y
  {
    Cancel(x + ":", y + ":", code);
    Cancel(x, y, ":");
  }

  /** Different DIDs never share a balance key in the same currency. */
  lemma KeyDistinct(a: Did, b: Did, c: Currency)
    ensures a != b ==> BalanceKey(a, c) != BalanceKey(b, c)
  {
    if BalanceKey(a, c) == BalanceKey(b, c) {
      SuffixCancels(a.uri, b.uri, CurrencyCode(c));
    }
  }

  /** `get_balance`: 0 for a pair never posted to. */
  function GetBalance(l: Ledger, did: Did, c: Currency): (v: int)
    ensures BalanceKey(did, c) !in l.balances ==> v == 0
  {
    Get(l.balances, BalanceKey(did, c))
  }

  /** Adds `delta` to one balance, creating it when absent. */
  function Post(b: map<string, int>, k: string, delta: int): (r: map<string, int>)
    ensures Get(r, k) == Get(b, k) + delta
    ensures forall j :: j != k ==> Get(r, j) == Get(b, j)
    ensures r.Keys == b.Keys + {k}
  {
    b[k := Get(b, k) + delta]
  }

  /** `record_entries` (sign = -1: debit sender, credit receiver) and `reverse_entries`
      (sign = 1) for a posting of `value`. */
  function Transfer(b: map<string, int>, r: Record, value: int): map<string, int> {
    var c := r.amount.currency;
    Post(Post(b, BalanceKey(r.sender, c), -value), BalanceKey(r.receiver, c), value)
  }

  /** `initiate`: stores a fresh Initiated record; `id` is the new settlement id. */
  function Initiate(l: Ledger, id: Uuid, pmId: Uuid, amount: Amount, sender: Did, receiver: Did): (r: (Ledger, Uuid))
    ensures r.1 == id && r.0.settlements == l.settlements[id := Record(id, pmId, amount, sender, receiver, Initiated)]
    ensures r.0.balances == l.balances
  {
    (l.(settlements := l.settlements[id := Record(id, pmId, amount, sender, receiver, Initiated)]), id)
  }

  /** `confirm`: an Initiated or Pending settlement is posted (sender debited, receiver
      credited by the amount, in the amount's currency) and becomes Confirmed. `uuidText`
      renders a UUID and `now` is the confirmation instant. */
  function Confirm(l: Ledger, id: Uuid, now: int, uuidText: Uuid -> string): (r: (Ledger, Result<SettlementReceipt, SettlementError>))
    ensures id !in l.settlements ==> r == (l, Err(NotFound(id)))
    ensures id in l.settlements && l.settlements[id].status !in {Initiated, Pending} ==>
      r.0 == l && r.1.Err? && r.1.error.InvalidStateTransition?
    ensures r.1.Ok? <==> id in l.settlements && l.settlements[id].status in {Initiated, Pending}
    ensures r.1.Ok? ==>
      var rec := l.settlements[id];
      var c := rec.amount.currency;
      r.0.settlements == l.settlements[id := rec.(status := Confirmed)] &&
      r.1.value == SettlementReceipt(id, ADAPTER_ID, Confirmed, rec.amount, rec.sender, rec.receiver, now,
                                     Some("internal-" + uuidText(rec.pmId))) &&
      (rec.sender != rec.receiver ==>
        GetBalance(r.0, rec.sender, c) == GetBalance(l, rec.sender, c) - rec.amount.value &&
        GetBalance(r.0, rec.receiver, c) == GetBalance(l, rec.receiver, c) + rec.amount.value)
    ensures r.1.Ok? ==>
      var rec := l.settlements[id];
      var c := rec.amount.currency;
      (rec.sender == rec.receiver ==> GetBalance(r.0, rec.sender, c) == GetBalance(l, rec.sender, c)) &&
      forall k :: k != BalanceKey(rec.sender, c) && k != BalanceKey(rec.receiver, c) ==>
        Get(r.0.balances, k) == Get(l.balances, k)
  {
    if id !in l.settlements then (l, Err(NotFound(id)))
    else
      var rec := l.settlements[id];
      if !(rec.status == Initiated || rec.status == Pending) then
        (l, Err(InvalidStateTransition("cannot confirm settlement in this status")))
      else
        var b := Transfer(l.balances, rec, rec.amount.value);
        KeyDistinct(rec.sender, rec.receiver, rec.amount.currency);
        var receipt := SettlementReceipt(id, ADAPTER_ID, Confirmed, rec.amount, rec.sender, rec.receiver, now,
                                         Some("internal-" + uuidText(rec.pmId)));
        (Ledger(l.settlements[id := rec.(status := Confirmed)], b), Ok(receipt))
  }

  /** `rollback`: from Initiated or Pending nothing was posted; from Confirmed the posting is
      reversed; any other status is refused. */
  function Rollback(l: Ledger, id: Uuid): (r: (Ledger, Result<(), SettlementError>))
    ensures id !in l.settlements ==> r == (l, Err(NotFound(id)))
    ensures r.1.Ok? <==> id in l.settlements && l.settlements[id].status in {Initiated, Pending, Confirmed}
    ensures r.1.Err? ==> r.0 == l
    ensures r.1.Ok? ==> r.0.settlements == l.settlements[id := l.settlements[id].(status := RolledBack)]
    ensures r.1.Ok? && l.settlements[id].status in {Initiated, Pending} ==> r.0.balances == l.balances
    ensures r.1.Ok? && l.settlements[id].status == Confirmed ==>
      var rec := l.settlements[id];
      var c := rec.amount.currency;
      (rec.sender != rec.receiver ==>
        GetBalance(r.0, rec.sender, c) == GetBalance(l, rec.sender, c) + rec.amount.value &&
        GetBalance(r.0, rec.receiver, c) == GetBalance(l, rec.receiver, c) - rec.amount.value) &&
      (rec.sender == rec.receiver ==> GetBalance(r.0, rec.sender, c) == GetBalance(l, rec.sender, c)) &&
      forall k :: k != BalanceKey(rec.sender, c) && k != BalanceKey(rec.receiver, c) ==>
        Get(r.0.balances, k) == Get(l.balances, k)
  {
    if id !in l.settlements then (l, Err(NotFound(id)))
    else
      var rec := l.settlements[id];
      if rec.status == Initiated || rec.status == Pending then
        (l.(settlements := l.settlements[id := rec.(status := RolledBack)]), Ok(()))
      else if rec.status == Confirmed then
        var b := Transfer(l.balances, rec, -(rec.amount.value as int));
        KeyDistinct(rec.sender, rec.receiver, rec.amount.currency);
        (Ledger(l.settlements[id := rec.(status := RolledBack)], b), Ok(()))
      else
        (l, Err(InvalidStateTransition("cannot rollback settlement in this status")))
  }

  /** `get_status`. */
  function GetStatus(l: Ledger, id: Uuid): (r: Result<SettlementStatus, SettlementError>)
    ensures r.Ok? <==> id in l.settlements
    ensures r.Ok? ==> r.value == l.settlements[id].status
    ensures r.Err? ==> r.error == NotFound(id)
  {
    if id in l.settlements then Ok(l.settlements[id].status) else Err(NotFound(id))
  }

  /** `estimate_cost`: internal settlement is free, in the same currency. */
  function EstimateCost(a: Amount): (r: Result<Amount, SettlementError>)
    ensures r.Ok? && r.value.IsZero() && r.value.currency == a.currency
  {
    Ok(Amount(0, a.currency))
  }

  /** `estimate_latency` in milliseconds: instant. */
  function EstimateLatency(a: Amount): (r: Result<nat, SettlementError>)
    ensures r == Ok(0)
  {
    Ok(0)
  }

  /** `supported_currencies`. */
  function SupportedCurrencies(): (r: seq<Currency>)
    ensures |r| == 9 && Fiat(USD) in r && Fiat(BRL) in r && Crypto(BTC) in r
    ensures forall c :: c in r ==> !c.Custom? && c != Fiat(CNY) && c != Crypto(SOL)
  {
    [Fiat(USD), Fiat(EUR), Fiat(BRL), Fiat(GBP), Fiat(JPY), Crypto(BTC), Crypto(ETH), Crypto(USDC), Crypto(USDT)]
  }

  // Conservation of money.

  /** Some key of a non-empty balance map. */
  ghost function Pick(b: map<string, int>): (k: string)
    requires |b| > 0
    ensures k in b
  {
    assert b.Keys != {};
    var k :| k in b; k
  }

  /** The sum of all balances. */
  ghost function Total(b: map<string, int>): int
    decreases |b|
  {
    if |b| == 0 then 0 else b[Pick(b)] + Total(b - {Pick(b)})
  }

  /** The sum can be taken with any key first. */
  lemma {:induction false} TotalRemove(b: map<string, int>, k: string)
    requires k in b
    ensures Total(b) == b[k] + Total(b - {k})
    decreases |b|
  {
    var j := Pick(b);
    if j != k {
      var bj := b - {j};
      var bk := b - {k};
      TotalRemove(bj, k);
      TotalRemove(bk, j);
      assert bj - {k} == bk - {j};
    }
  }

  /** Overwriting one balance moves the sum by the difference. */
  lemma TotalPut(b: map<string, int>, k: string, v: int)
    ensures Total(b[k := v]) == Total(b) - Get(b, k) + v
  {
    var r := b[k := v];
    TotalRemove(r, k);
    assert r - {k} == b - {k};
    if k in b {
      TotalRemove(b, k);
    } else {
      assert b - {k} == b;
    }
  }

  /** Posting a delta to one balance moves the sum by that delta. */
  lemma TotalPost(b: map<string, int>, k: string, delta: int)
    ensures Total(Post(b, k, delta)) == Total(b) + delta
  {
    TotalPut(b, k, Get(b, k) + delta);
  }

  /** A transfer is a -v/+v pair, so the sum does not move. */
  lemma TransferConserves(b: map<string, int>, r: Record, value: int)
    ensures Total(Transfer(b, r, value)) == Total(b)
  {
    var c := r.amount.currency;
    var ks, kr := BalanceKey(r.sender, c), BalanceKey(r.receiver, c);
    TotalPost(b, ks, -value);
    TotalPost(Post(b, ks, -value), kr, value);
  }

  /** One adapter call, with the inputs the environment supplies. */
  datatype Op =
    | DoInitiate(id: Uuid, pmId: Uuid, amount: Amount, sender: Did, receiver: Did)
    | DoConfirm(id: Uuid, now: int)
    | DoRollback(id: Uuid)

  function Apply(l: Ledger, op: Op, uuidText: Uuid -> string): Ledger {
    match op
    case DoInitiate(id, pmId, amount, s, r) => Initiate(l, id, pmId, amount, s, r).0
    case DoConfirm(id, now) => Confirm(l, id, now, uuidText).0
    case DoRollback(id) => Rollback(l, id).0
  }

  function ApplyAll(l: Ledger, ops: seq<Op>, uuidText: Uuid -> string): Ledger
    decreases |ops|
  {
    if |ops| == 0 then l else ApplyAll(Apply(l, ops[0], uuidText), ops[1..], uuidText)
  }

  /** No single call moves the sum of the balances. */
  lemma ApplyConserves(l: Ledger, op: Op, uuidText: Uuid -> string)
    ensures Total(Apply(l, op, uuidText).balances) == Total(l.balances)
  {
    match op
    case DoInitiate(_, _, _, _, _) =>
    case DoConfirm(id, now) => ConfirmConserves(l, id, now, uuidText);
    case DoRollback(id) => RollbackConserves(l, id);
  }

  lemma ConfirmConserves(l: Ledger, id: Uuid, now: int, uuidText: Uuid -> string)
    ensures Total(Confirm(l, id, now, uuidText).0.balances) == Total(l.balances)
  {
    if id in l.settlements && l.settlements[id].status in {Initiated, Pending} {
      var rec := l.settlements[id];
      assert Confirm(l, id, now, uuidText).0.balances == Transfer(l.balances, rec, rec.amount.value);
      TransferConserves(l.balances, rec, rec.amount.value);
    } else {
      assert Confirm(l, id, now, uuidText).1.Err?;
    }
  }

  /** Rolling back reverses the posting of a Confirmed settlement and touches no balance
      otherwise. */
  lemma RollbackBalances(l: Ledger, id: Uuid)
    ensures id in l.settlements && l.settlements[id].status == Confirmed ==>
              Rollback(l, id).0.balances ==
              Transfer(l.balances, l.settlements[id], -(l.settlements[id].amount.value as int))
    ensures !(id in l.settlements && l.settlements[id].status == Confirmed) ==>
              Rollback(l, id).0.balances == l.balances
  {
  }

  lemma RollbackConserves(l: Ledger, id: Uuid)
    ensures Total(Rollback(l, id).0.balances) == Total(l.balances)
  {
    var after := Rollback(l, id).0.balances;
    RollbackBalances(l, id);
    if id in l.settlements && l.settlements[id].status == Confirmed {
      var rec := l.settlements[id];
      var v := -(rec.amount.value as int);
      assert after == Transfer(l.balances, rec, v);
      TransferConserves(l.balances, rec, v);
    } else {
      assert after == l.balances;
    }
  }

  /** Starting from balances that sum to 0 (the empty ledger), they sum to 0 after any
      sequence of calls. */
  lemma {:induction false} BalancesSumToZero(l: Ledger, ops: seq<Op>, uuidText: Uuid -> string)
    requires Total(l.balances) == 0
    ensures Total(ApplyAll(l, ops, uuidText).balances) == 0
    decreases |ops|
  {
    if |ops| > 0 {
      ApplyConserves(l, ops[0], uuidText);
      BalancesSumToZero(Apply(l, ops[0], uuidText), ops[1..], uuidText);
    }
  }

  /** Confirming and then rolling back a settlement restores every balance. */
  lemma ConfirmThenRollbackRestores(l: Ledger, id: Uuid, now: int, uuidText: Uuid -> string)
    requires Confirm(l, id, now, uuidText).1.Ok?
    ensures var l2 := Rollback(Confirm(l, id, now, uuidText).0, id);
      l2.1.Ok? && forall k :: Get(l2.0.balances, k) == Get(l.balances, k)
  {
  }

  // The posting value as the source computes it.

  const TWO_127: int := 0x8000_0000_0000_0000_0000_0000_0000_0000

  /** `amount.value as i128`: the cast keeps the 128 bits, so values from 2^127 up read
      as negative numbers. */
  function AsI128(v: u128): (r: int)
    ensures v < TWO_127 ==> r == v
    ensures v >= TWO_127 ==> r == v - TWO_128 && r < 0
  {
    if v < TWO_127 then v else v - TWO_128
  }

  /** `confirm` as written: the same checks and status change as `Confirm`, but the posting
      uses the cast value. */
  function ConfirmAsWritten(l: Ledger, id: Uuid, now: int, uuidText: Uuid -> string): (r: (Ledger, Result<SettlementReceipt, SettlementError>))
    ensures r.1 == Confirm(l, id, now, uuidText).1
    ensures r.0.settlements == Confirm(l, id, now, uuidText).0.settlements
  {
    var c := Confirm(l, id, now, uuidText);
    if c.1.Ok? then
      var rec := l.settlements[id];
      (c.0.(balances := Transfer(l.balances, rec, AsI128(rec.amount.value))), c.1)
    else c
  }

  /** Confirming a transfer of 2^127 + 1 from a fresh account: as written the sender is
      credited 2^127 - 1; with the value posted as an integer it is debited 2^127 + 1. */
  lemma HugeAmountCreditsSender(id: Uuid, pmId: Uuid, alice: Did, bob: Did, now: int, uuidText: Uuid -> string)
    requires alice != bob
    ensures var l := Ledger(map[id := Record(id, pmId, Amount(TWO_127 + 1, Fiat(USD)), alice, bob, Initiated)], map[]);
      GetBalance(ConfirmAsWritten(l, id, now, uuidText).0, alice, Fiat(USD)) == TWO_127 - 1 &&
      GetBalance(Confirm(l, id, now, uuidText).0, alice, Fiat(USD)) == -(TWO_127 + 1)
  {
    var l := Ledger(map[id := Record(id, pmId, Amount(TWO_127 + 1, Fiat(USD)), alice, bob, Initiated)], map[]);
    var rec := l.settlements[id];
    KeyDistinct(alice, bob, Fiat(USD));
    assert AsI128(rec.amount.value) == -(TWO_127 - 1);
  }
}
