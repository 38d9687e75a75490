/** The credential lifecycle of Veritas: six states, six events, the nine accepted
    transitions, and the protobuf integer codes of the states. */
module CredentialStates {
  import opened Wrappers

  datatype CredentialState = Draft | Issued | Active | Suspended | Revoked | Expired {
    /** Revoked and Expired are terminal. */
    predicate IsFinal() {
      this == Revoked || this == CredentialState.Expired
    }
  }

  datatype CredentialEvent = Issue | Activate | Suspend | Reinstate | Revoke | Expire

  /** The errors of the Veritas core (messages reduced to the value they name). */
  datatype CoreError =
    | InvalidStateTransition(from: CredentialState, to: CredentialState)
    | ValidationError(reason: string)
    | MissingField(field: string)
    | InvalidDid(uri: string)

  /** The transition table as data. */
  const TRANSITIONS: map<(CredentialState, CredentialEvent), CredentialState> := map[
    (Draft, Issue) := Issued,
    (Issued, Activate) := Active,
    (Issued, Revoke) := Revoked,
    (Active, Suspend) := Suspended,
    (Active, Revoke) := Revoked,
    (Active, Expire) := CredentialState.Expired,
    (Suspended, Reinstate) := Active,
    (Suspended, Revoke) := Revoked,
    (Suspended, Expire) := CredentialState.Expired
  ]

  /** The state an event aims at, reported in the error of a rejected transition. */
  function NominalTarget(e: CredentialEvent): CredentialState {
    match e
    case Issue => Issued
    case Activate => Active
    case Suspend => Suspended
    case Reinstate => Active
    case Revoke => Revoked
    case Expire => CredentialState.Expired
  }

  /** `CredentialStateMachine::transition`. */
  function Transition(current: CredentialState, event: CredentialEvent): (r: Result<CredentialState, CoreError>)
    ensures r.Ok? <==> (current, event) in TRANSITIONS
    ensures r.Ok? ==> r.value == TRANSITIONS[(current, event)] == NominalTarget(event)
    ensures r.Err? ==> r.error == InvalidStateTransition(current, NominalTarget(event))
    ensures current.IsFinal() ==> r.Err?
    ensures current == Draft ==> (r.Ok? <==> event == Issue)
    ensures event == Expire && (current == Draft || current == Issued) ==> r.Err?
  {
    match (current, event)
    case (Draft, Issue) => Ok(Issued)
    case (Issued, Activate) => Ok(Active)
    case (Issued, Revoke) => Ok(Revoked)
    case (Active, Suspend) => Ok(Suspended)
    case (Active, Revoke) => Ok(Revoked)
    case (Active, Expire) => Ok(CredentialState.Expired)
    case (Suspended, Reinstate) => Ok(Active)
    case (Suspended, Revoke) => Ok(Revoked)
    case (Suspended, Expire) => Ok(CredentialState.Expired)
    case _ => Err(InvalidStateTransition(current, NominalTarget(event)))
  }

  /** `CredentialStateMachine::can_transition`. */
  function CanTransition(current: CredentialState, event: CredentialEvent): (b: bool)
    ensures b <==> Transition(current, event).Ok?
    ensures b <==> (current, event) in TRANSITIONS
  {
    Transition(current, event).Ok?
  }

  /** Exactly nine (state, event) pairs are accepted. */
  lemma TransitionCount()
    ensures |TRANSITIONS| == 9
  {
  }

  /** Suspending an active credential and reinstating it makes it active again. */
  lemma SuspendReinstate()
    ensures Transition(Active, Suspend).Ok?
    ensures Transition(Transition(Active, Suspend).value, Reinstate) == Ok(Active)
  {
  }

  /** `CredentialState::to_proto_i32`: the codes 1..6 in declaration order. */
  function ToProto(s: CredentialState): (code: int)
    ensures 1 <= code <= 6
  {
    match s
    case Draft => 1
    case Issued => 2
    case Active => 3
    case Suspended => 4
    case Revoked => 5
    case Expired => 6
  }

  /** `CredentialState::from_proto_i32`. */
  function FromProto(v: int): (r: Result<CredentialState, CoreError>)
    ensures r.Ok? <==> 1 <= v <= 6
    ensures r.Err? ==> r.error.ValidationError?
  {
    match v
    case 1 => Ok(Draft)
    case 2 => Ok(Issued)
    case 3 => Ok(Active)
    case 4 => Ok(Suspended)
    case 5 => Ok(Revoked)
    case 6 => Ok(CredentialState.Expired)
    case _ => Err(ValidationError("invalid credential state value"))
  }

  /** Decoding inverts encoding for every state. */
  lemma ProtoRoundTrip(s: CredentialState)
    ensures FromProto(ToProto(s)) == Ok(s)
  {
  }

  /** Encoding inverts decoding for every accepted code. */
  lemma ProtoCodeRoundTrip(v: int)
    requires FromProto(v).Ok?
    ensures ToProto(FromProto(v).value) == v
  {
  }
}
