// Digest of a payment message. The payment crate's `merkle_root` is the same
// reduction as the credential crate's and is modelled once, in module Merkle.
module PaymentHashing {
  import opened Bytes
  import opened PaymentStates
  import opened PaymentMessages

  /** `hash_payment_message`: the digest of the canonical signing payload. */
  function HashPaymentMessage(pm: PaymentMessage, utf8: string -> seq<byte>, hash: seq<byte> -> Hash): (h: Hash)
  {
    hash(SigningPayload(pm, utf8, hash))
  }

  /** The digest covers exactly what the signing payload covers: attaching a signature
      or advancing the state leaves it unchanged, and messages with equal payloads
      share a digest. */
  lemma HashIgnoresSignature(pm: PaymentMessage, other: PaymentMessage, sig: seq<byte>, st: PaymentState,
                             utf8: string -> seq<byte>, hash: seq<byte> -> Hash)
    ensures HashPaymentMessage(pm.(signature := sig, state := st), utf8, hash) == HashPaymentMessage(pm, utf8, hash)
    ensures SigningPayload(pm, utf8, hash) == SigningPayload(other, utf8, hash) ==>
              HashPaymentMessage(pm, utf8, hash) == HashPaymentMessage(other, utf8, hash)
  {
    SigningPayloadIgnoresSignature(pm, sig, st, utf8, hash);
  }
}
