/** The canonical signing-payload byte layout of a payment message, and its decoder. */
module PayloadCodec {
  import opened Wrappers
  import opened Bytes

  /** A 16-byte UUID. */
  type Uuid = s: seq<byte> | |s| == 16 witness seq(16, _ => 0)

  /** The fields the signing payload carries, with strings already UTF-8 encoded. */
  datatype PayloadFields = PayloadFields(
    version: byte,
    pmId: Uuid,
    sender: seq<byte>,
    receiver: seq<byte>,
    value: u128,
    currency: seq<byte>,
    ttl: u32,
    timestamp: u64,
    metadataHash: Option<Hash>)

  /** A 4-byte big-endian length (the length cast to `u32`) followed by the bytes. */
  function LenPrefixed(b: seq<byte>): (r: seq<byte>)
    ensures |r| == 4 + |b|
    ensures r[4..] == b
  {
    U32BE(|b| % TWO_32) + b
  }

  /** Reads one length-prefixed field, returning it and the bytes after it. */
  function TakePrefixed(p: seq<byte>): (r: Option<(seq<byte>, seq<byte>)>)
    ensures r.Some? ==> |r.value.0| + |r.value.1| + 4 == |p|
  {
    if |p| < 4 then None
    else
      var n := ReadU32(p[..4]);
      if |p| - 4 < n then None else Some((p[4..4 + n], p[4 + n..]))
  }

  lemma TakeLenPrefixed(b: seq<byte>, rest: seq<byte>)
    requires |b| < TWO_32
    ensures TakePrefixed(LenPrefixed(b) + rest) == Some((b, rest))
  {
    assert |b| % TWO_32 == |b|;
    var h := U32BE(|b|);
    U32RoundTrip(|b|, []);
    var p := h + (b + rest);
    assert LenPrefixed(b) + rest == p;
    assert p[..4] == h && p[4..] == b + rest;
    assert p[4..4 + |b|] == b && p[4 + |b|..] == rest;
  }

  lemma PrefixedOfTake(p: seq<byte>)
    requires TakePrefixed(p).Some?
    ensures LenPrefixed(TakePrefixed(p).value.0) + TakePrefixed(p).value.1 == p
  {
    var n := ReadU32(p[..4]);
    var b := p[4..4 + n];
    U32RoundTrip(0, p[..4]);
    assert |b| % TWO_32 == n;
    assert LenPrefixed(b) == p[..4 + n];
    assert p[..4 + n] + p[4 + n..] == p;
  }

  /** The metadata part of the payload: the 32-byte hash, or nothing. */
  function MetaBytes(m: Option<Hash>): (r: seq<byte>)
    ensures |r| == (if m.Some? then 32 else 0)
  {
    match m
    case Some(h) => h
    case None => []
  }

  /** TTL, timestamp and metadata hash: the last part of the payload. */
  function EncodeTail(ttl: u32, timestamp: u64, m: Option<Hash>): (p: seq<byte>)
    ensures |p| == 12 + |MetaBytes(m)|
  {
    U32BE(ttl) + (U64BE(timestamp) + MetaBytes(m))
  }

  function DecodeTail(p: seq<byte>): Option<(u32, u64, Option<Hash>)> {
    if |p| != 12 && |p| != 44 then None
    else Some((ReadU32(p[..4]), ReadU64(p[4..12]), if |p| == 12 then None else Some(p[12..])))
  }

  lemma TailRoundTrip(ttl: u32, timestamp: u64, m: Option<Hash>)
    ensures DecodeTail(EncodeTail(ttl, timestamp, m)) == Some((ttl, timestamp, m))
  {
    var a, b, c := U32BE(ttl), U64BE(timestamp), MetaBytes(m);
    var p := EncodeTail(ttl, timestamp, m);
    assert p == a + (b + c);
    assert p[..4] == a && p[4..12] == b && p[12..] == c;
    U32RoundTrip(ttl, []);
    U64RoundTrip(timestamp, []);
    assert ReadU32(p[..4]) == ttl && ReadU64(p[4..12]) == timestamp;
    match m
    case None =>
      assert |p| == 12;
    case Some(h) =>
      assert |p| == 44 && p[12..] == h;
  }

  lemma TailExact(p: seq<byte>)
    requires DecodeTail(p).Some?
    ensures var t := DecodeTail(p).value; EncodeTail(t.0, t.1, t.2) == p
  {
    var a, b, c := p[..4], p[4..12], p[12..];
    U32RoundTrip(0, a);
    U64RoundTrip(0, b);
    assert p == a + (b + c);
    if |p| == 12 {
      assert DecodeTail(p).value == (ReadU32(a), ReadU64(b), None) && c == [];
    } else {
      assert DecodeTail(p).value == (ReadU32(a), ReadU64(b), Some(c));
    }
  }

  /** Amount value, currency code and the tail. */
  function EncodeMiddle(value: u128, currency: seq<byte>, tail: seq<byte>): (p: seq<byte>)
    ensures |p| == 16 + 4 + |currency| + |tail|
  {
    U128BE(value) + (LenPrefixed(currency) + tail)
  }

  function DecodeMiddle(p: seq<byte>): Option<(u128, seq<byte>, seq<byte>)> {
    if |p| < 16 then None
    else
      var c :- TakePrefixed(p[16..]);
      Some((ReadU128(p[..16]), c.0, c.1))
  }

  lemma MiddleRoundTrip(value: u128, currency: seq<byte>, tail: seq<byte>)
    requires |currency| < TWO_32
    ensures DecodeMiddle(EncodeMiddle(value, currency, tail)) == Some((value, currency, tail))
  {
    var p := EncodeMiddle(value, currency, tail);
    assert p[..16] == U128BE(value);
    assert p[16..] == LenPrefixed(currency) + tail;
    U128RoundTrip(value, []);
    TakeLenPrefixed(currency, tail);
  }

  lemma MiddleExact(p: seq<byte>)
    requires DecodeMiddle(p).Some?
    ensures var m := DecodeMiddle(p).value; EncodeMiddle(m.0, m.1, m.2) == p
  {
    U128RoundTrip(0, p[..16]);
    PrefixedOfTake(p[16..]);
    assert p == p[..16] + p[16..];
  }

  /** Version byte, id, sender and receiver, then the rest. */
  function EncodeHead(version: byte, pmId: Uuid, sender: seq<byte>, receiver: seq<byte>, rest: seq<byte>): (p: seq<byte>)
    ensures |p| == 1 + 16 + 4 + |sender| + 4 + |receiver| + |rest|
  {
    [version] + (pmId + (LenPrefixed(sender) + (LenPrefixed(receiver) + rest)))
  }

  function DecodeHead(p: seq<byte>): Option<(byte, Uuid, seq<byte>, seq<byte>, seq<byte>)> {
    if |p| < 17 then None
    else
      var s :- TakePrefixed(p[17..]);
      var r :- TakePrefixed(s.1);
      Some((p[0], p[1..17], s.0, r.0, r.1))
  }

  lemma HeadRoundTrip(version: byte, pmId: Uuid, sender: seq<byte>, receiver: seq<byte>, rest: seq<byte>)
    requires |sender| < TWO_32 && |receiver| < TWO_32
    ensures DecodeHead(EncodeHead(version, pmId, sender, receiver, rest)) == Some((version, pmId, sender, receiver, rest))
  {
    var p := EncodeHead(version, pmId, sender, receiver, rest);
    var t := LenPrefixed(receiver) + rest;
    assert p[0] == version;
    assert p[1..17] == pmId;
    assert p[17..] == LenPrefixed(sender) + t;
    TakeLenPrefixed(sender, t);
    TakeLenPrefixed(receiver, rest);
  }

  lemma HeadExact(p: seq<byte>)
    requires DecodeHead(p).Some?
    ensures var h := DecodeHead(p).value; EncodeHead(h.0, h.1, h.2, h.3, h.4) == p
  {
    var s := TakePrefixed(p[17..]).value;
    PrefixedOfTake(p[17..]);
    PrefixedOfTake(s.1);
    assert p == [p[0]] + (p[1..17] + p[17..]);
  }

  /** The payload layout: version, id, sender, receiver, 16-byte amount, currency code,
      TTL, timestamp and, only for non-empty metadata, the metadata hash; every integer
      big-endian and every variable-length field behind a 4-byte length. */
  function EncodePayload(f: PayloadFields): (p: seq<byte>)
    ensures |p| == 1 + 16 + (4 + |f.sender|) + (4 + |f.receiver|) + 16 + (4 + |f.currency|) + 4 + 8
                   + (if f.metadataHash.Some? then 32 else 0)
  {
    EncodeHead(f.version, f.pmId, f.sender, f.receiver,
      EncodeMiddle(f.value, f.currency, EncodeTail(f.ttl, f.timestamp, f.metadataHash)))
  }

  /** Reads the payload back into its fields; None for any byte string the layout cannot produce. */
  function DecodePayload(p: seq<byte>): (r: Option<PayloadFields>)
  {
    var h :- DecodeHead(p);
    var m :- DecodeMiddle(h.4);
    var t :- DecodeTail(m.2);
    Some(PayloadFields(h.0, h.1, h.2, h.3, m.0, m.1, t.0, t.1, t.2))
  }

  predicate FitsU32Lengths(f: PayloadFields) {
    |f.sender| < TWO_32 && |f.receiver| < TWO_32 && |f.currency| < TWO_32
  }

  /** Decoding an encoded payload gives back its fields. */
  lemma DecodeEncode(f: PayloadFields)
    requires FitsU32Lengths(f)
    ensures DecodePayload(EncodePayload(f)) == Some(f)
  {
    var tail := EncodeTail(f.ttl, f.timestamp, f.metadataHash);
    var mid := EncodeMiddle(f.value, f.currency, tail);
    HeadRoundTrip(f.version, f.pmId, f.sender, f.receiver, mid);
    MiddleRoundTrip(f.value, f.currency, tail);
    TailRoundTrip(f.ttl, f.timestamp, f.metadataHash);
  }

  /** The decoder accepts only encodings: whatever it reads re-encodes to the same bytes,
      so two payloads that differ in any field differ as byte strings. */
  lemma EncodeDecode(p: seq<byte>)
    requires DecodePayload(p).Some?
    ensures EncodePayload(DecodePayload(p).value) == p
  {
    var h := DecodeHead(p).value;
    var m := DecodeMiddle(h.4).value;
    HeadExact(p);
    MiddleExact(h.4);
    TailExact(m.2);
  }
}
