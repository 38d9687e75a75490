/** The GPPN payment message: validation, expiry, the canonical signing payload,
    the protobuf field mapping and the builder. */
module PaymentMessages {
  import opened Wrappers
  import opened Bytes
  import opened Text
  import opened PaymentStates
  import opened GppnTypes
  import opened PayloadCodec

  datatype ConditionType = TimeExpiry | Hashlock | MultiSig | Escrow

  datatype Condition = Condition(conditionType: ConditionType, params: seq<byte>)

  datatype SettlementHint = SettlementHint(adapterId: string, priority: byte, params: map<string, string>)

  /** Identical in the domain type and the protobuf message. */
  datatype RoutingHint = RoutingHint(targetDid: string, preferredAdapters: seq<string>, maxHops: u32)

  datatype PaymentMessage = PaymentMessage(
    pmId: Uuid,
    version: byte,
    sender: Did,
    receiver: Did,
    amount: Amount,
    settlementPreferences: seq<SettlementHint>,
    conditions: seq<Condition>,
    metadata: seq<byte>,
    ttl: u32,
    timestamp: u64,
    signature: seq<byte>,
    routingHints: seq<RoutingHint>,
    state: PaymentState)

  /** `PaymentMessage::validate`: the first failing rule, in the order
      sender, receiver, distinct parties, amount, TTL, timestamp, version. */
  function Validate(pm: PaymentMessage): (r: Result<(), CoreError>)
    ensures pm.sender.uri == "" ==> r == Err(MissingField("sender_did"))
    ensures pm.sender.uri != "" && pm.receiver.uri == "" ==> r == Err(MissingField("receiver_did"))
    ensures pm.sender.uri != "" && pm.receiver.uri != "" && pm.sender == pm.receiver ==> r.Err? && r.error.ValidationError?
    ensures pm.sender.uri != "" && pm.receiver.uri != "" && pm.sender != pm.receiver && pm.amount.IsZero() ==> r.Err? && r.error.InvalidAmount?
    ensures pm.sender.uri != "" && pm.receiver.uri != "" && pm.sender != pm.receiver && !pm.amount.IsZero() && pm.ttl == 0 ==> r.Err? && r.error.ValidationError?
    ensures pm.sender.uri != "" && pm.receiver.uri != "" && pm.sender != pm.receiver && !pm.amount.IsZero() && pm.ttl != 0 && pm.timestamp == 0 ==> r == Err(MissingField("timestamp"))
    ensures r.Ok? <==>
      pm.sender.uri != "" && pm.receiver.uri != "" && pm.sender != pm.receiver &&
      pm.amount.value > 0 && pm.ttl > 0 && pm.timestamp > 0 && pm.version > 0
  {
    if pm.sender.uri == "" then Err(MissingField("sender_did"))
    else if pm.receiver.uri == "" then Err(MissingField("receiver_did"))
    else if pm.sender == pm.receiver then Err(ValidationError("sender and receiver must be different"))
    else if pm.amount.IsZero() then Err(InvalidAmount("amount must be greater than zero"))
    else if pm.ttl == 0 then Err(ValidationError("TTL must be greater than zero"))
    else if pm.timestamp == 0 then Err(MissingField("timestamp"))
    else if pm.version == 0 then Err(ValidationError("version must be greater than zero"))
    else Ok(())
  }

  /** The instant, in Unix milliseconds, after which the message has expired. */
  function ExpiryMs(pm: PaymentMessage): nat {
    pm.timestamp + pm.ttl * 1000
  }

  /** `PaymentMessage::is_expired_at`. */
  function IsExpiredAt(pm: PaymentMessage, nowMs: u64): (b: bool)
    ensures nowMs <= pm.timestamp ==> !b
    ensures nowMs > pm.timestamp + 1000 * TWO_32 ==> b
  {
    nowMs > ExpiryMs(pm)
  }

  /** Expiry is strict: not expired at the boundary instant, expired one millisecond later,
      and it stays expired as time advances. */
  lemma ExpiryBoundary(pm: PaymentMessage, t: u64, u: u64)
    requires ExpiryMs(pm) + 1 < TWO_64
    ensures !IsExpiredAt(pm, ExpiryMs(pm) as u64)
    ensures IsExpiredAt(pm, (ExpiryMs(pm) + 1) as u64)
    ensures IsExpiredAt(pm, t) && t <= u ==> IsExpiredAt(pm, u)
  {
  }

  /** `is_expired_at` as written: the deadline is a `u64` sum, which a release build wraps
      (a debug build panics instead). */
  function IsExpiredAtAsWritten(pm: PaymentMessage, nowMs: u64): (b: bool)
    ensures ExpiryMs(pm) < TWO_64 ==> b == IsExpiredAt(pm, nowMs)
    ensures ExpiryMs(pm) >= TWO_64 ==> (b <==> nowMs + TWO_64 > ExpiryMs(pm))
  {
    nowMs > ExpiryMs(pm) % TWO_64
  }

  /** A message stamped at the last representable millisecond with a one-second ttl: as
      written its deadline wraps to 999, so it reads as expired at 1000 ms, long before it
      was even sent; without the wrap it is not expired. */
  lemma LateTimestampExpiresEarly(pm: PaymentMessage)
    requires pm.timestamp == TWO_64 - 1 && pm.ttl == 1
    ensures IsExpiredAtAsWritten(pm, 1000) && !IsExpiredAt(pm, 1000)
  {
    assert ExpiryMs(pm) % TWO_64 == 999;
  }

  // ----- Canonical signing payload -----

  /** The payload fields of a message: strings UTF-8 encoded by `utf8`, metadata hashed by `hash`. */
  function PayloadOf(pm: PaymentMessage, utf8: string -> seq<byte>, hash: seq<byte> -> Hash): PayloadFields {
    PayloadFields(pm.version, pm.pmId, utf8(pm.sender.uri), utf8(pm.receiver.uri), pm.amount.value,
                  utf8(CurrencyCode(pm.amount.currency)), pm.ttl, pm.timestamp,
                  if |pm.metadata| == 0 then None else Some(hash(pm.metadata)))
  }

  /** `PaymentMessage::signing_payload`. The signature, state, conditions, hints and
      settlement preferences are not covered; metadata enters only through its hash. */
  function SigningPayload(pm: PaymentMessage, utf8: string -> seq<byte>, hash: seq<byte> -> Hash): (p: seq<byte>)
    ensures |p| == 57 + |utf8(pm.sender.uri)| + |utf8(pm.receiver.uri)| + |utf8(CurrencyCode(pm.amount.currency))|
                    + (if |pm.metadata| == 0 then 0 else 32)
    ensures FitsU32Lengths(PayloadOf(pm, utf8, hash)) ==> DecodePayload(p) == Some(PayloadOf(pm, utf8, hash))
  {
    var f := PayloadOf(pm, utf8, hash);
    if FitsU32Lengths(f) then DecodeEncode(f); EncodePayload(f) else EncodePayload(f)
  }

  /** The signature and state do not enter the payload: signing and advancing the
      state machine leave it unchanged. */
  lemma SigningPayloadIgnoresSignature(pm: PaymentMessage, sig: seq<byte>, st: PaymentState,
                                       utf8: string -> seq<byte>, hash: seq<byte> -> Hash)
    ensures SigningPayload(pm.(signature := sig, state := st), utf8, hash) == SigningPayload(pm, utf8, hash)
  {
  }

  // ----- Protobuf field mapping -----

  datatype ProtoSettlementHint = ProtoSettlementHint(adapterId: string, priority: u32, params: map<string, string>)

  datatype ProtoCondition = ProtoCondition(conditionType: int, params: seq<byte>)

  datatype ProtoPaymentMessage = ProtoPaymentMessage(
    pmId: seq<byte>,
    version: u32,
    senderDid: string,
    receiverDid: string,
    amount: Option<ProtoAmount>,
    settlementPreferences: seq<ProtoSettlementHint>,
    conditions: seq<ProtoCondition>,
    metadata: seq<byte>,
    ttl: u32,
    timestamp: u64,
    signature: seq<byte>,
    routingHints: seq<RoutingHint>,
    state: int)

  function ConditionCode(t: ConditionType): (code: int)
    ensures 1 <= code <= 4
  {
    match t
    case TimeExpiry => 1
    case Hashlock => 2
    case MultiSig => 3
    case Escrow => 4
  }

  /** Codes 1 to 4 name the condition types; any other code is read as TimeExpiry. */
  function ConditionFromCode(code: int): (t: ConditionType)
    ensures 1 <= code <= 4 ==> ConditionCode(t) == code
    ensures !(1 <= code <= 4) ==> t == TimeExpiry
  {
    match code
    case 2 => Hashlock
    case 3 => MultiSig
    case 4 => Escrow
    case _ => TimeExpiry
  }

  function HintToProto(h: SettlementHint): ProtoSettlementHint {
    ProtoSettlementHint(h.adapterId, h.priority, h.params)
  }

  /** `priority as u8`: the protobuf u32 is truncated to its low byte. */
  function HintFromProto(h: ProtoSettlementHint): (r: SettlementHint)
    ensures r.priority == h.priority % 256
    ensures h.priority < 256 ==> HintToProto(r) == h
  {
    SettlementHint(h.adapterId, h.priority % 256, h.params)
  }

  function ConditionToProto(c: Condition): ProtoCondition {
    ProtoCondition(ConditionCode(c.conditionType), c.params)
  }

  function ConditionFromProto(c: ProtoCondition): Condition {
    Condition(ConditionFromCode(c.conditionType), c.params)
  }

  function HintsToProto(hs: seq<SettlementHint>): (r: seq<ProtoSettlementHint>)
    ensures |r| == |hs|
  {
    if |hs| == 0 then [] else [HintToProto(hs[0])] + HintsToProto(hs[1..])
  }

  function HintsFromProto(hs: seq<ProtoSettlementHint>): (r: seq<SettlementHint>)
    ensures |r| == |hs|
  {
    if |hs| == 0 then [] else [HintFromProto(hs[0])] + HintsFromProto(hs[1..])
  }

  function ConditionsToProto(cs: seq<Condition>): (r: seq<ProtoCondition>)
    ensures |r| == |cs|
  {
    if |cs| == 0 then [] else [ConditionToProto(cs[0])] + ConditionsToProto(cs[1..])
  }

  function ConditionsFromProto(cs: seq<ProtoCondition>): (r: seq<Condition>)
    ensures |r| == |cs|
  {
    if |cs| == 0 then [] else [ConditionFromProto(cs[0])] + ConditionsFromProto(cs[1..])
  }

  /** Settlement hints survive the protobuf mapping: a u8 priority widened to u32 truncates back to itself. */
  lemma {:induction false} HintsRoundTrip(hs: seq<SettlementHint>)
    ensures HintsFromProto(HintsToProto(hs)) == hs
  {
    if |hs| > 0 {
      HintsRoundTrip(hs[1..]);
      assert HintsToProto(hs)[1..] == HintsToProto(hs[1..]);
    }
  }

  /** Conditions survive the protobuf mapping: each type has its own code 1 to 4. */
  lemma {:induction false} ConditionsRoundTrip(cs: seq<Condition>)
    ensures ConditionsFromProto(ConditionsToProto(cs)) == cs
  {
    if |cs| > 0 {
      ConditionsRoundTrip(cs[1..]);
      assert ConditionsToProto(cs)[1..] == ConditionsToProto(cs[1..]);
    }
  }

  /** `PaymentMessage::to_proto`. */
  function MessageToProto(pm: PaymentMessage): (p: ProtoPaymentMessage)
    ensures p.pmId == pm.pmId && p.version == pm.version
    ensures p.senderDid == pm.sender.uri && p.receiverDid == pm.receiver.uri
    ensures p.amount == Some(AmountToProto(pm.amount))
    ensures |p.settlementPreferences| == |pm.settlementPreferences| && |p.conditions| == |pm.conditions|
    ensures p.ttl == pm.ttl && p.timestamp == pm.timestamp && p.state == ToProto(pm.state)
  {
    ProtoPaymentMessage(
      pm.pmId, pm.version, pm.sender.uri, pm.receiver.uri, Some(AmountToProto(pm.amount)),
      HintsToProto(pm.settlementPreferences), ConditionsToProto(pm.conditions),
      pm.metadata, pm.ttl, pm.timestamp, pm.signature, pm.routingHints, ToProto(pm.state))
  }

  const KEY_PREFIX: string := "did:gppn:key:"

  /** The DID `from_proto` rebuilds from a protobuf string: every "did:gppn:key:" is
      removed and the rest is put back under method "key". */
  function RebuildDid(uri: string): (d: Did)
    ensures StartsWith(d.uri, KEY_PREFIX)
    ensures NewDid(d.uri).Ok?
  {
    DidFromParts("key", ReplaceAll(uri, KEY_PREFIX, ""))
  }

  /** A "did:gppn:key:" DID whose identifier does not itself contain the prefix is rebuilt unchanged. */
  lemma RebuildKeyDid(x: string)
    requires !Occurs(x, KEY_PREFIX)
    ensures RebuildDid(KEY_PREFIX + x) == DidFromParts("key", x)
  {
    ReplaceLeading(KEY_PREFIX, x, "");
  }

  /** `PaymentMessage::from_proto`: rejects, in order, a pm_id that is not 16 bytes, a missing
      amount, an amount whose currency is absent or unknown, and an unknown state code. */
  function MessageFromProto(p: ProtoPaymentMessage): (r: Result<PaymentMessage, CoreError>)
    ensures |p.pmId| != 16 ==> r == Err(ValidationError("pm_id must be 16 bytes"))
    ensures |p.pmId| == 16 && p.amount.None? ==> r == Err(MissingField("amount"))
    ensures r.Ok? <==>
      |p.pmId| == 16 && p.amount.Some? && AmountFromProto(p.amount.value).Ok? && FromProto(p.state).Ok?
    ensures r.Ok? ==>
      r.value.pmId == p.pmId && r.value.version == p.version % 256 &&
      r.value.amount == AmountFromProto(p.amount.value).value &&
      r.value.ttl == p.ttl && r.value.timestamp == p.timestamp &&
      r.value.state == FromProto(p.state).value &&
      r.value.sender == RebuildDid(p.senderDid) && r.value.receiver == RebuildDid(p.receiverDid)
  {
    if |p.pmId| != 16 then Err(ValidationError("pm_id must be 16 bytes"))
    else if p.amount.None? then Err(MissingField("amount"))
    else
      var amount :- AmountFromProto(p.amount.value);
      var state :- FromProto(p.state);
      Ok(PaymentMessage(
        p.pmId, p.version % 256, RebuildDid(p.senderDid), RebuildDid(p.receiverDid), amount,
        HintsFromProto(p.settlementPreferences), ConditionsFromProto(p.conditions),
        p.metadata, p.ttl, p.timestamp, p.signature, p.routingHints, state))
  }

  /** The protobuf round trip keeps the id, version, amount, TTL, timestamp, state, metadata,
      signature, settlement hints, conditions and routing hints, and rebuilds both DIDs under
      method "key". */
  lemma ProtoRoundTrip(pm: PaymentMessage)
    ensures MessageFromProto(MessageToProto(pm)) ==
      Ok(pm.(sender := RebuildDid(pm.sender.uri), receiver := RebuildDid(pm.receiver.uri)))
  {
    var p := ProtoPaymentMessage(
      pm.pmId, pm.version, pm.sender.uri, pm.receiver.uri, Some(AmountToProto(pm.amount)),
      HintsToProto(pm.settlementPreferences), ConditionsToProto(pm.conditions),
      pm.metadata, pm.ttl, pm.timestamp, pm.signature, pm.routingHints, ToProto(pm.state));
    assert MessageToProto(pm) == p;
    assert AmountFromProto(p.amount.value) == Ok(pm.amount) by { AmountProtoRoundTrip(pm.amount); }
    assert FromProto(p.state) == Ok(pm.state) by { ProtoStateRoundTrip(pm.state); }
    assert HintsFromProto(p.settlementPreferences) == pm.settlementPreferences by {
      HintsRoundTrip(pm.settlementPreferences);
    }
    assert ConditionsFromProto(p.conditions) == pm.conditions by { ConditionsRoundTrip(pm.conditions); }
    assert p.version % 256 == pm.version;
    FromProtoShape(p);
    var q := PaymentMessage(
      pm.pmId, pm.version, RebuildDid(pm.sender.uri), RebuildDid(pm.receiver.uri), pm.amount,
      pm.settlementPreferences, pm.conditions, pm.metadata, pm.ttl, pm.timestamp, pm.signature,
      pm.routingHints, pm.state);
    assert MessageFromProto(p) == Ok(q);
    assert q == pm.(sender := RebuildDid(pm.sender.uri), receiver := RebuildDid(pm.receiver.uri));
  }

  /** What `from_proto` builds from a message that passes its checks. */
  lemma FromProtoShape(p: ProtoPaymentMessage)
    requires |p.pmId| == 16 && p.amount.Some? && AmountFromProto(p.amount.value).Ok? && FromProto(p.state).Ok?
    ensures MessageFromProto(p) == Ok(PaymentMessage(
      p.pmId, p.version % 256, RebuildDid(p.senderDid), RebuildDid(p.receiverDid), AmountFromProto(p.amount.value).value,
      HintsFromProto(p.settlementPreferences), ConditionsFromProto(p.conditions),
      p.metadata, p.ttl, p.timestamp, p.signature, p.routingHints, FromProto(p.state).value))
  {
  }

  /** A message whose parties are "did:gppn:key:" DIDs, with identifiers that do not themselves
      contain that prefix, comes back from the protobuf round trip unchanged. */
  lemma ProtoRoundTripKeyDids(pm: PaymentMessage, x: string, y: string)
    requires pm.sender == DidFromParts("key", x) && !Occurs(x, KEY_PREFIX)
    requires pm.receiver == DidFromParts("key", y) && !Occurs(y, KEY_PREFIX)
    ensures MessageFromProto(MessageToProto(pm)) == Ok(pm)
  {
    ProtoRoundTrip(pm);
    RebuildKeyDid(x);
    RebuildKeyDid(y);
    assert pm.(sender := RebuildDid(pm.sender.uri), receiver := RebuildDid(pm.receiver.uri)) == pm;
  }

  /** Codes 1 to 8 for the state; wraps the state-machine lemma under a local name. */
  lemma ProtoStateRoundTrip(s: PaymentState)
    ensures FromProto(ToProto(s)) == Ok(s)
  {
    PaymentStates.ProtoRoundTrip(s);
  }

  // ----- Builder -----

  datatype Builder = Builder(
    sender: Option<Did>,
    receiver: Option<Did>,
    amount: Option<Amount>,
    settlementPreferences: seq<SettlementHint>,
    conditions: seq<Condition>,
    metadata: seq<byte>,
    ttl: u32,
    routingHints: seq<RoutingHint>)

  /** `PaymentMessage::builder()`: nothing set, TTL 0. */
  const EMPTY_BUILDER: Builder := Builder(None, None, None, [], [], [], 0, [])

  const DEFAULT_TTL: u32 := 300

  /** `PaymentMessageBuilder::build`, with the fresh UUID and the clock reading as parameters. */
  function Build(b: Builder, pmId: Uuid, nowMs: u64): (r: Result<PaymentMessage, CoreError>)
    ensures b.sender.None? ==> r == Err(MissingField("sender_did"))
    ensures b.sender.Some? && b.receiver.None? ==> r == Err(MissingField("receiver_did"))
    ensures b.sender.Some? && b.receiver.Some? && b.amount.None? ==> r == Err(MissingField("amount"))
    ensures r.Ok? ==> Validate(r.value).Ok?
    ensures r.Ok? ==>
      r.value.version == 1 && r.value.state == Created && r.value.signature == [] &&
      r.value.pmId == pmId && r.value.timestamp == nowMs &&
      r.value.ttl == (if b.ttl > 0 then b.ttl else DEFAULT_TTL) &&
      Some(r.value.sender) == b.sender && Some(r.value.receiver) == b.receiver && Some(r.value.amount) == b.amount
    ensures r.Ok? <==>
      b.sender.Some? && b.receiver.Some? && b.amount.Some? &&
      b.sender.value.uri != "" && b.receiver.value.uri != "" && b.sender != b.receiver &&
      b.amount.value.value > 0 && nowMs > 0
  {
    if b.sender.None? then Err(MissingField("sender_did"))
    else if b.receiver.None? then Err(MissingField("receiver_did"))
    else if b.amount.None? then Err(MissingField("amount"))
    else
      var ttl: u32 := if b.ttl > 0 then b.ttl else DEFAULT_TTL;
      var pm := PaymentMessage(pmId, 1, b.sender.value, b.receiver.value, b.amount.value,
                               b.settlementPreferences, b.conditions, b.metadata, ttl, nowMs,
                               [], b.routingHints, Created);
      var _ :- Validate(pm);
      Ok(pm)
  }
}
