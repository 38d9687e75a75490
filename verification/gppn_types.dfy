/** Amounts, currencies and DIDs of the GPPN core, with their protobuf field mappings. */
module GppnTypes {
  import opened Wrappers
  import opened Bytes
  import opened Text
  import DidSyntax
  import opened PaymentStates

  /** ISO 4217 fiat currencies. */
  datatype FiatCurrency = BRL | USD | EUR | GBP | JPY | CNY | CHF | AUD | CAD | INR {
    function Code(): string {
      match this
      case BRL => "BRL" case USD => "USD" case EUR => "EUR" case GBP => "GBP" case JPY => "JPY"
      case CNY => "CNY" case CHF => "CHF" case AUD => "AUD" case CAD => "CAD" case INR => "INR"
    }

    function Decimals(): (d: nat)
      ensures d == (if this == JPY then 0 else 2)
    {
      match this
      case JPY => 0
      case _ => 2
    }
  }

  /** `FiatCurrency::from_code`. */
  function FiatFromCode(code: string): (r: Option<FiatCurrency>)
    ensures r.Some? ==> r.value.Code() == code
    ensures r.None? ==> forall f: FiatCurrency :: f.Code() != code
  {
    match code
    case "BRL" => Some(BRL) case "USD" => Some(USD) case "EUR" => Some(EUR)
    case "GBP" => Some(GBP) case "JPY" => Some(JPY) case "CNY" => Some(CNY)
    case "CHF" => Some(CHF) case "AUD" => Some(AUD) case "CAD" => Some(CAD)
    case "INR" => Some(INR)
    case _ => None
  }

  datatype CryptoCurrency = BTC | ETH | SOL | USDC | USDT {
    function Code(): string {
      match this
      case BTC => "BTC" case ETH => "ETH" case SOL => "SOL" case USDC => "USDC" case USDT => "USDT"
    }

    function Decimals(): (d: nat)
      ensures this == BTC ==> d == 8
      ensures this == ETH ==> d == 18
      ensures this == SOL ==> d == 9
      ensures this in {USDC, USDT} ==> d == 6
    {
      match this
      case BTC => 8
      case ETH => 18
      case SOL => 9
      case USDC => 6
      case USDT => 6
    }
  }

  /** `CryptoCurrency::from_code`. */
  function CryptoFromCode(code: string): (r: Option<CryptoCurrency>)
    ensures r.Some? ==> r.value.Code() == code
    ensures r.None? ==> forall c: CryptoCurrency :: c.Code() != code
  {
    match code
    case "BTC" => Some(BTC) case "ETH" => Some(ETH) case "SOL" => Some(SOL)
    case "USDC" => Some(USDC) case "USDT" => Some(USDT)
    case _ => None
  }

  /** Every fiat code parses back to its currency. */
  lemma FiatCodeRoundTrip(f: FiatCurrency)
    ensures FiatFromCode(f.Code()) == Some(f)
  {
  }

  /** Every crypto code parses back to its currency. */
  lemma CryptoCodeRoundTrip(c: CryptoCurrency)
    ensures CryptoFromCode(c.Code()) == Some(c)
  {
  }

  datatype Currency = Fiat(fiat: FiatCurrency) | Crypto(crypto: CryptoCurrency) | Custom(name: string)

  /** The `Display` form of a currency: its code. */
  function CurrencyCode(c: Currency): string {
    match c
    case Fiat(f) => f.Code()
    case Crypto(k) => k.Code()
    case Custom(n) => n
  }

  /** The protobuf `CurrencyType` field: the three known kinds or any other raw value. */
  datatype CurrencyKind = KindFiat | KindCrypto | KindCustom | KindUnknown(raw: int)

  datatype ProtoCurrency = ProtoCurrency(kind: CurrencyKind, code: string, decimals: nat)

  /** `Currency::to_proto`. */
  function CurrencyToProto(c: Currency): (p: ProtoCurrency)
    ensures p.code == CurrencyCode(c)
    ensures p.decimals == (match c case Fiat(f) => f.Decimals() case Crypto(k) => k.Decimals() case Custom(_) => 0)
    ensures p.kind == (match c case Fiat(_) => KindFiat case Crypto(_) => KindCrypto case Custom(_) => KindCustom)
  {
    match c
    case Fiat(f) => ProtoCurrency(KindFiat, f.Code(), f.Decimals())
    case Crypto(k) => ProtoCurrency(KindCrypto, k.Code(), k.Decimals())
    case Custom(n) => ProtoCurrency(KindCustom, n, 0)
  }

  /** `Currency::from_proto`: unknown codes of a known kind and unknown kinds are rejected. */
  function CurrencyFromProto(p: ProtoCurrency): (r: Result<Currency, CoreError>)
    ensures r.Ok? <==>
      (p.kind == KindFiat && FiatFromCode(p.code).Some?) ||
      (p.kind == KindCrypto && CryptoFromCode(p.code).Some?) ||
      p.kind == KindCustom
    ensures r.Ok? ==> CurrencyCode(r.value) == p.code
    ensures r.Err? ==> r.error.ValidationError?
  {
    match p.kind
    case KindFiat =>
      (match FiatFromCode(p.code)
       case Some(f) => Ok(Fiat(f))
       case None => Err(ValidationError("unknown fiat currency")))
    case KindCrypto =>
      (match CryptoFromCode(p.code)
       case Some(k) => Ok(Crypto(k))
       case None => Err(ValidationError("unknown crypto currency")))
    case KindCustom => Ok(Custom(p.code))
    case KindUnknown(_) => Err(ValidationError("unknown currency type"))
  }

  /** Every currency survives the protobuf mapping. */
  lemma CurrencyProtoRoundTrip(c: Currency)
    ensures CurrencyFromProto(CurrencyToProto(c)) == Ok(c)
  {
    match c
    case Fiat(f) => FiatCodeRoundTrip(f);
    case Crypto(k) => CryptoCodeRoundTrip(k);
    case Custom(_) =>
  }

  /** A value in atomic units of its currency (`u128`). */
  datatype Amount = Amount(value: u128, currency: Currency) {
    predicate IsZero() { value == 0 }
  }

  /** The protobuf Amount: the u128 value split into two u64 halves; the currency may be absent. */
  datatype ProtoAmount = ProtoAmount(valueHigh: u64, valueLow: u64, currency: Option<ProtoCurrency>)

  /** `Amount::to_proto`: high = value >> 64, low = value truncated to 64 bits. */
  function AmountToProto(a: Amount): (p: ProtoAmount)
    ensures p.valueHigh * TWO_64 + p.valueLow == a.value
    ensures p.currency == Some(CurrencyToProto(a.currency))
  {
    ProtoAmount(a.value / TWO_64, a.value % TWO_64, Some(CurrencyToProto(a.currency)))
  }

  /** `Amount::from_proto`: (high << 64) | low. The two halves occupy disjoint bits, so
      the bitwise or is the sum high * 2^64 + low. */
  function AmountFromProto(p: ProtoAmount): (r: Result<Amount, CoreError>)
    ensures p.currency.None? ==> r == Err(MissingField("currency"))
    ensures p.currency.Some? ==> (r.Ok? <==> CurrencyFromProto(p.currency.value).Ok?)
    ensures r.Ok? ==> r.value.value == p.valueHigh * TWO_64 + p.valueLow
  {
    match p.currency
    case None => Err(MissingField("currency"))
    case Some(pc) =>
      var v := p.valueHigh * TWO_64 + p.valueLow;
      match CurrencyFromProto(pc)
      case Ok(c) => Ok(Amount(v, c))
      case Err(e) => Err(e)
  }

  /** Every u128 amount, with its currency, survives the hi/lo protobuf mapping. */
  lemma AmountProtoRoundTrip(a: Amount)
    ensures AmountFromProto(AmountToProto(a)) == Ok(a)
  {
    CurrencyProtoRoundTrip(a.currency);
  }

  /** A GPPN decentralized identifier, "did:gppn:<method>:<identifier>". */
  datatype Did = Did(uri: string) {
    /** `Did::method`. */
    function Method(): Option<string> { DidSyntax.Method(uri) }
    /** `Did::identifier`. */
    function Identifier(): Option<string> { DidSyntax.Identifier(uri) }
  }

  const NAMESPACE: string := "gppn"

  /** `Did::new`. */
  function NewDid(uri: string): (r: Result<Did, CoreError>)
    ensures r.Ok? <==> StartsWith(uri, "did:gppn:") && Count(uri, ':') >= 3
    ensures r.Ok? ==> r.value.uri == uri
    ensures r.Err? ==> r == Err(InvalidDid(uri))
  {
    DidSyntax.WellFormedByColons(NAMESPACE, uri);
    if DidSyntax.WellFormed(NAMESPACE, uri) then Ok(Did(uri)) else Err(InvalidDid(uri))
  }

  /** `Did::from_parts`. */
  function DidFromParts(m: string, i: string): (d: Did)
    ensures d.uri == "did:gppn:" + m + ":" + i
    ensures NewDid(d.uri) == Ok(d)
    ensures ':' !in m ==> d.Method() == Some(m) && d.Identifier() == Some(i)
  {
    DidSyntax.FromPartsWellFormed(NAMESPACE, m, i);
    DidSyntax.WellFormedByColons(NAMESPACE, DidSyntax.FromParts(NAMESPACE, m, i));
    if ':' in m then Did(DidSyntax.FromParts(NAMESPACE, m, i))
    else
      DidSyntax.FromPartsMethod(NAMESPACE, m, i);
      DidSyntax.FromPartsIdentifier(NAMESPACE, m, i);
      Did(DidSyntax.FromParts(NAMESPACE, m, i))
  }
}
