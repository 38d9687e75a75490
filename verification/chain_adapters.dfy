/** The three Go settlement services (stablecoin, Ethereum, Bitcoin): each keeps a map from
    transaction id to result and moves a transaction from PENDING to CONFIRMED or
    ROLLED_BACK. They differ in validation, fee, messages and supported currencies, which
    the `Chain` parameter selects. Clock readings are explicit inputs. */
module ChainAdapters {
  import opened Wrappers

  datatype Chain = Stablecoin | Ethereum | Bitcoin

  datatype TxStatus = Pending | Confirmed | Failed | RolledBack {
    /** The status string. */
    function Text(): string {
      match this
      case Pending => "PENDING"
      case Confirmed => "CONFIRMED"
      case Failed => "FAILED"
      case RolledBack => "ROLLED_BACK"
    }
  }

  datatype Request = Request(paymentId: string, amount: string, currency: string, fromAddress: string,
                             toAddress: string, chainId: int)

  /** `SettlementResult`; `timestamp` is the UTC instant in nanoseconds. */
  datatype TxResult = TxResult(transactionId: string, status: TxStatus, timestamp: int, fee: string,
                               currency: string, message: string)

  /** `CostEstimate`: gas (miner) fee, network fee, total and estimated time in seconds. */
  datatype CostEstimate = CostEstimate(chainFee: string, networkFee: string, totalFee: string, seconds: nat)

  /** The services' error conditions. */
  datatype AdapterError =
    | PaymentIdRequired
    | AmountRequired
    | CurrencyRequired
    | UnsupportedCurrency(currency: string)
    | ToAddressRequired
    | TransactionNotFound(id: string)
    | NotPending(id: string, current: TxStatus)

  datatype Adapter = Adapter(chain: Chain, txs: map<string, TxResult>)

  function New(chain: Chain): (a: Adapter)
    ensures a.chain == chain && a.txs == map[]
  {
    Adapter(chain, map[])
  }

  /** `SupportedCurrencies`; for the stablecoin service also the keys of its token
      contract table. */
  function SupportedCurrencies(chain: Chain): (r: seq<string>)
    ensures chain == Stablecoin ==> r == ["USDC", "USDT"]
    ensures chain == Ethereum ==> r == ["ETH", "WETH"]
    ensures chain == Bitcoin ==> r == ["BTC"]
  {
    match chain
    case Stablecoin => ["USDC", "USDT"]
    case Ethereum => ["ETH", "WETH"]
    case Bitcoin => ["BTC"]
  }

  /** The fee recorded on a new transaction. */
  function Fee(chain: Chain): string {
    match chain
    case Stablecoin => "0.003"
    case Ethereum => "0.002"
    case Bitcoin => "0.00005"
  }

  /** `Initiate`'s checks, in order. Only the stablecoin service checks the currency. */
  function Validate(chain: Chain, req: Request): (r: Option<AdapterError>)
    ensures req.paymentId == "" ==> r == Some(PaymentIdRequired)
    ensures req.paymentId != "" && req.amount == "" ==> r == Some(AmountRequired)
    ensures r.None? <==>
      req.paymentId != "" && req.amount != "" && req.toAddress != "" &&
      (chain == Stablecoin ==> req.currency in SupportedCurrencies(chain))
    ensures chain != Stablecoin && r.Some? ==> r.value in {PaymentIdRequired, AmountRequired, ToAddressRequired}
  {
    if req.paymentId == "" then Some(PaymentIdRequired)
    else if req.amount == "" then Some(AmountRequired)
    else if chain == Stablecoin && req.currency == "" then Some(CurrencyRequired)
    else if chain == Stablecoin && req.currency !in SupportedCurrencies(chain) then Some(UnsupportedCurrency(req.currency))
    else if req.toAddress == "" then Some(ToAddressRequired)
    else None
  }

  /** The simulated transaction hash; `nanos` is the clock reading and `itoa` its decimal
      rendering. */
  function TxId(chain: Chain, req: Request, nanos: int, itoa: int -> string): string {
    match chain
    case Stablecoin => "0xsc_" + req.currency + "_" + req.paymentId + "_" + itoa(nanos)
    case Ethereum => "0xeth_" + req.paymentId + "_" + itoa(nanos)
    case Bitcoin => "btc_" + req.paymentId + "_" + itoa(nanos)
  }

  /** `Initiate`: a rejected request stores nothing; an accepted one stores a PENDING
      transaction with the service's fee. */
  function Initiate(a: Adapter, req: Request, nanos: int, itoa: int -> string): (r: (Adapter, Result<TxResult, AdapterError>))
    ensures r.1.Err? <==> Validate(a.chain, req).Some?
    ensures r.1.Err? ==> r.0 == a && r.1.error == Validate(a.chain, req).value
    ensures r.1.Ok? ==>
      var t := r.1.value;
      t.status == Pending && t.fee == Fee(a.chain) && t.timestamp == nanos &&
      t.transactionId == TxId(a.chain, req, nanos, itoa) &&
      t.currency == (if a.chain == Stablecoin then req.currency else "") &&
      r.0 == a.(txs := a.txs[t.transactionId := t])
  {
    match Validate(a.chain, req)
    case Some(e) => (a, Err(e))
    case None =>
      var id := TxId(a.chain, req, nanos, itoa);
      var msg := match a.chain
        case Stablecoin => req.currency + " transfer submitted to network"
        case Ethereum => "Transaction submitted to Ethereum network"
        case Bitcoin => "Transaction broadcast to Bitcoin network";
      var t := TxResult(id, Pending, nanos, Fee(a.chain), if a.chain == Stablecoin then req.currency else "", msg);
      (a.(txs := a.txs[id := t]), Ok(t))
  }

  /** The message recorded when a transaction reaches `to`. */
  function Message(chain: Chain, currency: string, to: TxStatus): string {
    match (chain, to)
    case (Stablecoin, Confirmed) => currency + " transfer confirmed on chain"
    case (Stablecoin, _) => currency + " transfer rolled back"
    case (Ethereum, Confirmed) => "Transaction confirmed on Ethereum network"
    case (Ethereum, _) => "Transaction rolled back"
    case (Bitcoin, Confirmed) => "Transaction confirmed with 6 confirmations on Bitcoin network"
    case (Bitcoin, _) => "Transaction rolled back via RBF mechanism"
  }

  /** `Confirm` (to = Confirmed) and `Rollback` (to = RolledBack): only a PENDING transaction
      moves, and a failed call changes nothing. */
  function Finish(a: Adapter, id: string, to: TxStatus, nanos: int): (r: (Adapter, Result<TxResult, AdapterError>))
    requires to == Confirmed || to == RolledBack
    ensures id !in a.txs ==> r == (a, Err(TransactionNotFound(id)))
    ensures id in a.txs && a.txs[id].status != Pending ==> r == (a, Err(NotPending(id, a.txs[id].status)))
    ensures r.1.Ok? <==> id in a.txs && a.txs[id].status == Pending
    ensures r.1.Ok? ==>
      r.1.value == a.txs[id].(status := to, timestamp := nanos, message := Message(a.chain, a.txs[id].currency, to)) &&
      r.0 == a.(txs := a.txs[id := r.1.value])
  {
    if id !in a.txs then (a, Err(TransactionNotFound(id)))
    else
      var t := a.txs[id];
      if t.status != Pending then (a, Err(NotPending(id, t.status)))
      else
        var t2 := t.(status := to, timestamp := nanos, message := Message(a.chain, t.currency, to));
        (a.(txs := a.txs[id := t2]), Ok(t2))
  }

  function Confirm(a: Adapter, id: string, nanos: int): (r: (Adapter, Result<TxResult, AdapterError>))
    ensures r.1.Ok? <==> id in a.txs && a.txs[id].status == Pending
    ensures r.1.Err? ==> r.0 == a
    ensures r.1.Ok? ==> r.1.value.status == Confirmed && r.1.value.timestamp == nanos && r.0.txs == a.txs[id := r.1.value]
  {
    Finish(a, id, Confirmed, nanos)
  }

  function Rollback(a: Adapter, id: string, nanos: int): (r: (Adapter, Result<TxResult, AdapterError>))
    ensures r.1.Ok? <==> id in a.txs && a.txs[id].status == Pending
    ensures r.1.Err? ==> r.0 == a
    ensures r.1.Ok? ==> r.1.value.status == RolledBack && r.1.value.timestamp == nanos && r.0.txs == a.txs[id := r.1.value]
  {
    Finish(a, id, RolledBack, nanos)
  }

  /** `GetStatus`: a copy of the stored result; the adapter is a value, so nothing changes. */
  function GetStatus(a: Adapter, id: string): (r: Result<TxResult, AdapterError>)
    ensures r.Ok? <==> id in a.txs
    ensures r.Ok? ==> r.value == a.txs[id]
    ensures r.Err? ==> r.error == TransactionNotFound(id)
  {
    if id in a.txs then Ok(a.txs[id]) else Err(TransactionNotFound(id))
  }

  /** `EstimateCost`: needs an amount; the stablecoin service also refuses a non-empty
      unsupported currency. */
  function EstimateCost(chain: Chain, req: Request): (r: Result<CostEstimate, AdapterError>)
    ensures req.amount == "" ==> r == Err(AmountRequired)
    ensures r.Ok? <==>
      req.amount != "" && (chain == Stablecoin ==> req.currency == "" || req.currency in SupportedCurrencies(chain))
    ensures r.Ok? && chain == Stablecoin ==> r.value.totalFee == Fee(chain)
    ensures r.Ok? && chain == Bitcoin ==> r.value.totalFee == Fee(chain)
  {
    if req.amount == "" then Err(AmountRequired)
    else if chain == Stablecoin && req.currency != "" && req.currency !in SupportedCurrencies(chain) then
      Err(UnsupportedCurrency(req.currency))
    else
      Ok(match chain
        case Stablecoin => CostEstimate("0.002", "0.001", "0.003", 15)
        case Ethereum => CostEstimate("0.001", "0.0005", "0.0015", 15)
        case Bitcoin => CostEstimate("0.00003", "0.00002", "0.00005", 600))
  }

  /** A call on an adapter. */
  datatype Call =
    | CallInitiate(req: Request, nanos: int)
    | CallConfirm(id: string, nanos: int)
    | CallRollback(id: string, nanos: int)
    | CallGetStatus(id: string)
    | CallEstimate(req: Request)

  function Apply(a: Adapter, c: Call, itoa: int -> string): Adapter {
    match c
    case CallInitiate(req, nanos) => Initiate(a, req, nanos, itoa).0
    case CallConfirm(id, nanos) => Confirm(a, id, nanos).0
    case CallRollback(id, nanos) => Rollback(a, id, nanos).0
    case CallGetStatus(_) => a
    case CallEstimate(_) => a
  }

  function ApplyAll(a: Adapter, cs: seq<Call>, itoa: int -> string): Adapter
    decreases |cs|
  {
    if |cs| == 0 then a else ApplyAll(Apply(a, cs[0], itoa), cs[1..], itoa)
  }

  /** Whether no `Initiate` in `cs` can mint the id `id`. */
  predicate NeverMinted(cs: seq<Call>, a: Adapter, id: string, itoa: int -> string) {
    forall i :: 0 <= i < |cs| && cs[i].CallInitiate? ==> TxId(a.chain, cs[i].req, cs[i].nanos, itoa) != id
  }

  /** A settled transaction stays settled: once out of PENDING, no later call changes it,
      unless an `Initiate` mints the same id again. */
  lemma {:induction false} SettledStaysSettled(a: Adapter, cs: seq<Call>, id: string, itoa: int -> string)
    requires id in a.txs && a.txs[id].status != Pending
    requires NeverMinted(cs, a, id, itoa)
    ensures id in ApplyAll(a, cs, itoa).txs && ApplyAll(a, cs, itoa).txs[id] == a.txs[id]
    decreases |cs|
  {
    if |cs| > 0 {
      var a1 := Apply(a, cs[0], itoa);
      assert a1.chain == a.chain;
      assert id in a1.txs && a1.txs[id] == a.txs[id];
      assert NeverMinted(cs[1..], a1, id, itoa) by {
        forall i | 0 <= i < |cs[1..]| && cs[1..][i].CallInitiate?
          ensures TxId(a1.chain, cs[1..][i].req, cs[1..][i].nanos, itoa) != id
        {
          assert cs[1..][i] == cs[i + 1];
        }
      }
      SettledStaysSettled(a1, cs[1..], id, itoa);
    }
  }

  /** Initiate followed by GetStatus reports PENDING. */
  lemma InitiateThenStatus(a: Adapter, req: Request, nanos: int, itoa: int -> string)
    requires Validate(a.chain, req).None?
    ensures var (a1, r) := Initiate(a, req, nanos, itoa);
      r.Ok? && GetStatus(a1, r.value.transactionId) == Ok(r.value) && r.value.status == Pending
  {
  }

  /** A confirmed transaction cannot be rolled back, and a second rollback fails. */
  lemma NoRollbackAfterSettling(a: Adapter, id: string, t1: int, t2: int)
    requires id in a.txs && a.txs[id].status == Pending
    ensures Rollback(Confirm(a, id, t1).0, id, t2).1.Err?
    ensures Rollback(Rollback(a, id, t1).0, id, t2).1.Err?
    ensures Confirm(Rollback(a, id, t1).0, id, t2).1.Err?
  {
  }
}
