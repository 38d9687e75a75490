/** The payment lifecycle of the GPPN core: eight states, eight events and the
    transition table between them, plus the protobuf integer codes of the states. */
module PaymentStates {
  import opened Wrappers

  datatype PaymentState = Created | Routed | Accepted | Settling | Settled | Failed | Expired | Cancelled {
    /** Settled, Expired and Cancelled are terminal. */
    predicate IsFinal() {
      this == Settled || this == PaymentState.Expired || this == PaymentState.Cancelled
    }
  }

  datatype PaymentEvent =
    | RouteFound | Accepted | SettlementStarted | SettlementConfirmed
    | SettlementFailed | Expired | Cancelled | RetryRoute

  /** The errors of the payment core (messages reduced to the field or reason they name). */
  datatype CoreError =
    | InvalidStateTransition(from: PaymentState, to: PaymentState)
    | ValidationError(reason: string)
    | MissingField(field: string)
    | InvalidAmount(reason: string)
    | InvalidDid(uri: string)

  /** The transition table as data: (current state, event) to the next state. */
  const TRANSITIONS: map<(PaymentState, PaymentEvent), PaymentState> := map[
    (PaymentState.Created, RouteFound) := Routed,
    (PaymentState.Created, PaymentEvent.Expired) := PaymentState.Expired,
    (PaymentState.Created, PaymentEvent.Cancelled) := PaymentState.Cancelled,
    (Routed, PaymentEvent.Accepted) := PaymentState.Accepted,
    (Routed, SettlementFailed) := Failed,
    (Routed, PaymentEvent.Expired) := PaymentState.Expired,
    (Routed, PaymentEvent.Cancelled) := PaymentState.Cancelled,
    (PaymentState.Accepted, SettlementStarted) := Settling,
    (PaymentState.Accepted, SettlementFailed) := Failed,
    (PaymentState.Accepted, PaymentEvent.Expired) := PaymentState.Expired,
    (PaymentState.Accepted, PaymentEvent.Cancelled) := PaymentState.Cancelled,
    (Settling, SettlementConfirmed) := Settled,
    (Settling, SettlementFailed) := Failed,
    (Failed, RetryRoute) := Routed
  ]

  /** The state an event aims at, reported in the error of a rejected transition. */
  function NominalTarget(e: PaymentEvent): PaymentState {
    match e
    case RouteFound => Routed
    case Accepted => PaymentState.Accepted
    case SettlementStarted => Settling
    case SettlementConfirmed => Settled
    case SettlementFailed => Failed
    case Expired => PaymentState.Expired
    case Cancelled => PaymentState.Cancelled
    case RetryRoute => Routed
  }

  /** `PaymentStateMachine::transition`. */
  function Transition(current: PaymentState, event: PaymentEvent): (r: Result<PaymentState, CoreError>)
    ensures r.Ok? ==> r.value == NominalTarget(event)
    ensures r.Err? ==> r.error == InvalidStateTransition(current, NominalTarget(event))
    ensures current.IsFinal() ==> r.Err?
    ensures current == Failed ==> (r.Ok? <==> event == RetryRoute)
    ensures current == Settling ==> (r.Ok? <==> event in {SettlementConfirmed, SettlementFailed})
  {
    match (current, event)
    case (Created, RouteFound) => Ok(Routed)
    case (Created, Expired) => Ok(PaymentState.Expired)
    case (Created, Cancelled) => Ok(PaymentState.Cancelled)
    case (Routed, Accepted) => Ok(PaymentState.Accepted)
    case (Routed, SettlementFailed) => Ok(Failed)
    case (Routed, Expired) => Ok(PaymentState.Expired)
    case (Routed, Cancelled) => Ok(PaymentState.Cancelled)
    case (Accepted, SettlementStarted) => Ok(Settling)
    case (Accepted, SettlementFailed) => Ok(Failed)
    case (Accepted, Expired) => Ok(PaymentState.Expired)
    case (Accepted, Cancelled) => Ok(PaymentState.Cancelled)
    case (Settling, SettlementConfirmed) => Ok(Settled)
    case (Settling, SettlementFailed) => Ok(Failed)
    case (Failed, RetryRoute) => Ok(Routed)
    case _ => Err(InvalidStateTransition(current, NominalTarget(event)))
  }

  /** Every pair `transition` accepts is in the table, with the state it lists. */
  lemma TransitionInTable(current: PaymentState, event: PaymentEvent)
    requires Transition(current, event).Ok?
    ensures (current, event) in TRANSITIONS && Transition(current, event).value == TRANSITIONS[(current, event)]
  {
  }

  /** Every pair of the table is accepted by `transition`. */
  lemma TableInTransition(current: PaymentState, event: PaymentEvent)
    requires (current, event) in TRANSITIONS
    ensures Transition(current, event).Ok?
  {
  }

  /** `transition` accepts exactly the pairs of the table, moving to the state it lists. */
  lemma TransitionTable(current: PaymentState, event: PaymentEvent)
    ensures Transition(current, event).Ok? <==> (current, event) in TRANSITIONS
    ensures Transition(current, event).Ok? ==> Transition(current, event).value == TRANSITIONS[(current, event)]
  {
    if Transition(current, event).Ok? {
      TransitionInTable(current, event);
    } else if (current, event) in TRANSITIONS {
      TableInTransition(current, event);
    }
  }

  /** `PaymentStateMachine::can_transition`. */
  function CanTransition(current: PaymentState, event: PaymentEvent): (b: bool)
    ensures b <==> (current, event) in TRANSITIONS
  {
    TransitionTable(current, event);
    Transition(current, event).Ok?
  }

  /** `PaymentState::to_proto_i32`: the codes 1..8 in declaration order. */
  function ToProto(s: PaymentState): (code: int)
    ensures 1 <= code <= 8
  {
    match s
    case Created => 1
    case Routed => 2
    case Accepted => 3
    case Settling => 4
    case Settled => 5
    case Failed => 6
    case Expired => 7
    case Cancelled => 8
  }

  /** `PaymentState::from_proto_i32`. */
  function FromProto(v: int): (r: Result<PaymentState, CoreError>)
    ensures r.Ok? <==> 1 <= v <= 8
    ensures r.Err? ==> r.error.ValidationError?
  {
    match v
    case 1 => Ok(Created)
    case 2 => Ok(Routed)
    case 3 => Ok(PaymentState.Accepted)
    case 4 => Ok(Settling)
    case 5 => Ok(Settled)
    case 6 => Ok(Failed)
    case 7 => Ok(PaymentState.Expired)
    case 8 => Ok(PaymentState.Cancelled)
    case _ => Err(ValidationError("invalid payment state value"))
  }

  /** Decoding inverts encoding for every state. */
  lemma ProtoRoundTrip(s: PaymentState)
    ensures FromProto(ToProto(s)) == Ok(s)
  {
  }

  /** Encoding inverts decoding for every accepted code: the code table is a bijection with 1..8. */
  lemma ProtoCodeRoundTrip(v: int)
    requires FromProto(v).Ok?
    ensures ToProto(FromProto(v).value) == v
  {
  }

  /** The table lists fourteen transitions, the pairs the source accepts. */
  lemma TransitionCount()
    ensures |TRANSITIONS| == 14
  {
    var m0: map<(PaymentState, PaymentEvent), PaymentState> := map[];
    assert (PaymentState.Created, RouteFound) !in m0;
    var m1 := m0[(PaymentState.Created, RouteFound) := Routed];
    assert (PaymentState.Created, PaymentEvent.Expired) !in m1;
    var m2 := m1[(PaymentState.Created, PaymentEvent.Expired) := PaymentState.Expired];
    assert (PaymentState.Created, PaymentEvent.Cancelled) !in m2;
    var m3 := m2[(PaymentState.Created, PaymentEvent.Cancelled) := PaymentState.Cancelled];
    assert (Routed, PaymentEvent.Accepted) !in m3;
    var m4 := m3[(Routed, PaymentEvent.Accepted) := PaymentState.Accepted];
    assert (Routed, SettlementFailed) !in m4;
    var m5 := m4[(Routed, SettlementFailed) := Failed];
    assert (Routed, PaymentEvent.Expired) !in m5;
    var m6 := m5[(Routed, PaymentEvent.Expired) := PaymentState.Expired];
    assert (Routed, PaymentEvent.Cancelled) !in m6;
    var m7 := m6[(Routed, PaymentEvent.Cancelled) := PaymentState.Cancelled];
    assert (PaymentState.Accepted, SettlementStarted) !in m7;
    var m8 := m7[(PaymentState.Accepted, SettlementStarted) := Settling];
    assert (PaymentState.Accepted, SettlementFailed) !in m8;
    var m9 := m8[(PaymentState.Accepted, SettlementFailed) := Failed];
    assert (PaymentState.Accepted, PaymentEvent.Expired) !in m9;
    var m10 := m9[(PaymentState.Accepted, PaymentEvent.Expired) := PaymentState.Expired];
    assert (PaymentState.Accepted, PaymentEvent.Cancelled) !in m10;
    var m11 := m10[(PaymentState.Accepted, PaymentEvent.Cancelled) := PaymentState.Cancelled];
    assert (Settling, SettlementConfirmed) !in m11;
    var m12 := m11[(Settling, SettlementConfirmed) := Settled];
    assert (Settling, SettlementFailed) !in m12;
    var m13 := m12[(Settling, SettlementFailed) := Failed];
    assert (Failed, RetryRoute) !in m13;
    var m14 := m13[(Failed, RetryRoute) := Routed];
    assert TRANSITIONS == m14;
  }
}
