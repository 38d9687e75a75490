// Byte framing of an encrypted payload: ephemeral public key (32) ‖ nonce (12) ‖
// ciphertext with its tag. Key agreement and the cipher itself are not modelled.
module Encryption {
  import opened Wrappers
  import opened Bytes

  const PUBKEY_LEN: nat := 32
  const NONCE_LEN: nat := 12
  /** Length of the fixed header that precedes the ciphertext. */
  const HEADER_LEN: nat := 44

  type AeadNonce = s: seq<byte> | |s| == 12 witness Zeros(12)

  datatype CryptoError = DecryptionError(reason: string)

  datatype EncryptedPayload = EncryptedPayload(ephemeralPubkey: Hash, nonce: AeadNonce, ciphertext: seq<byte>)

  /** `EncryptedPayload::to_bytes`. */
  function ToBytes(p: EncryptedPayload): (r: seq<byte>)
    ensures |r| == HEADER_LEN + |p.ciphertext|
    ensures r[..PUBKEY_LEN] == p.ephemeralPubkey
    ensures r[PUBKEY_LEN..HEADER_LEN] == p.nonce
    ensures r[HEADER_LEN..] == p.ciphertext
  {
    var key: seq<byte> := p.ephemeralPubkey;
    var r := key + p.nonce + p.ciphertext;
    assert r[..PUBKEY_LEN] == key;
    assert r[PUBKEY_LEN..HEADER_LEN] == p.nonce;
    r
  }

  /** `EncryptedPayload::from_bytes`: anything shorter than the header is rejected;
      everything after the header is the ciphertext. */
  function FromBytes(b: seq<byte>): (r: Result<EncryptedPayload, CryptoError>)
    ensures r.Err? <==> |b| < HEADER_LEN
    ensures r.Err? ==> r.error == DecryptionError("payload too short")
    ensures r.Ok? ==> r.value.ephemeralPubkey == b[..PUBKEY_LEN] && r.value.nonce == b[PUBKEY_LEN..HEADER_LEN]
                      && r.value.ciphertext == b[HEADER_LEN..]
  {
    if |b| < HEADER_LEN then Err(DecryptionError("payload too short"))
    else Ok(EncryptedPayload(b[..PUBKEY_LEN], b[PUBKEY_LEN..HEADER_LEN], b[HEADER_LEN..]))
  }

  /** Parsing a serialized payload gives the payload back. */
  lemma PayloadRoundTrip(p: EncryptedPayload)
    ensures FromBytes(ToBytes(p)) == Ok(p)
  {
  }

  /** Every input of at least header length is the serialization of what it parses to. */
  lemma BytesRoundTrip(b: seq<byte>)
    requires |b| >= HEADER_LEN
    ensures FromBytes(b).Ok? && ToBytes(FromBytes(b).value) == b
  {
    assert b == b[..PUBKEY_LEN] + b[PUBKEY_LEN..HEADER_LEN] + b[HEADER_LEN..];
  }

  /** A header with nothing after it parses to an empty ciphertext. */
  lemma HeaderOnly(b: seq<byte>)
    requires |b| == HEADER_LEN
    ensures FromBytes(b).Ok? && FromBytes(b).value.ciphertext == []
  {
  }
}
