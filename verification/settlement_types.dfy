/** Identifiers, statuses, receipts and errors shared by the settlement layer. */
module SettlementTypes {
  import opened Wrappers
  import opened Bytes
  import opened GppnTypes
  import PayloadCodec

  /** A UUID; freshly generated ones are inputs of the operations that need them. */
  type Uuid = PayloadCodec.Uuid

  /** The settlement layer's errors (messages reduced to the data they carry). */
  datatype SettlementError =
    | NotFound(id: Uuid)
    | AdapterNotFound(adapterId: string)
    | InvalidStateTransition(reason: string)
    | AlreadyExists(id: Uuid)
    | Expired(id: Uuid)
    | HtlcError(reason: string)
    | PreimageMismatch(id: Uuid)
    | HtlcNotExpired(id: Uuid)
    | InsufficientBalance(available: u128, required: u128)
    | UnsupportedCurrency(code: string)
    | Internal(reason: string)

  /** The lifecycle status of a settlement. */
  datatype SettlementStatus = Initiated | Pending | Confirmed | Failed | RolledBack

  /** Proof that a settlement completed; `confirmedAt` is an instant in milliseconds. */
  datatype SettlementReceipt = SettlementReceipt(
    settlementId: Uuid,
    adapterId: string,
    status: SettlementStatus,
    amount: Amount,
    sender: Did,
    receiver: Did,
    confirmedAt: int,
    txRef: Option<string>)
}
