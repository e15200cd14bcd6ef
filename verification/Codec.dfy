/** The identifier and integer codecs of internal/indexer/convert.go, and the events they carry. */
module Codec {
  import opened Types

  type Bytes32 = b: Bytes | |b| == 32 witness seq(32, _ => 0)
  type Bytes20 = b: Bytes | |b| == 20 witness seq(20, _ => 0)

  datatype CodecError = InvalidEvent

  // ----- Hexadecimal -----

  function HexDigit(n: nat): char
    requires n < 16
  {
    "0123456789abcdef"[n]
  }

  function HexEncode(bs: Bytes): (s: string)
    ensures |s| == 2 * |bs|
  {
    if bs == [] then [] else [HexDigit(bs[0] / 16), HexDigit(bs[0] % 16)] + HexEncode(bs[1..])
  }

  function HexValue(bs: Bytes): string {
    "0x" + HexEncode(bs)
  }

  function Nibble(c: char): (r: Option<nat>)
    ensures r.Some? ==> r.value < 16
  {
    if '0' <= c <= '9' then Some(c as int - '0' as int)
    else if 'a' <= c <= 'f' then Some(c as int - 'a' as int + 10)
    else if 'A' <= c <= 'F' then Some(c as int - 'A' as int + 10)
    else None
  }

  /** hex.DecodeString, which also accepts upper case. */
  function HexDecode(s: string): (r: Option<Bytes>)
    ensures r.Some? ==> |s| == 2 * |r.value|
  {
    if s == [] then Some([])
    else if |s| == 1 || Nibble(s[0]).None? || Nibble(s[1]).None? then None
    else
      var rest := HexDecode(s[2..]);
      if rest.None? then None else Some([Nibble(s[0]).value * 16 + Nibble(s[1]).value] + rest.value)
  }

  function FixedHex(value: string, size: nat): (r: Result<Bytes, CodecError>)
    ensures r.Ok? ==> |r.value| == size
  {
    if |value| != 2 + size * 2 || value[..2] != "0x" then Err(InvalidEvent)
    else if HexDecode(value[2..]).None? then Err(InvalidEvent)
    else Ok(HexDecode(value[2..]).value)
  }

  function Lower(s: string): (r: string)
    ensures |r| == |s|
  {
    seq(|s|, i requires 0 <= i < |s| =>
      if 'A' <= s[i] <= 'F' then (s[i] as int - 'A' as int + 'a' as int) as char else s[i])
  }

  lemma NibbleOfDigit(n: nat)
    requires n < 16
    ensures Nibble(HexDigit(n)) == Some(n)
  {
  }

  lemma DigitOfNibble(c: char)
    requires Nibble(c).Some?
    ensures HexDigit(Nibble(c).value) == Lower([c])[0]
  {
  }

  lemma {:induction false} DecodeUndoesEncode(bs: Bytes)
    ensures HexDecode(HexEncode(bs)) == Some(bs)
  {
    hide Nibble, HexDigit;
    if bs != [] {
      DecodeUndoesEncode(bs[1..]);
      NibbleOfDigit(bs[0] / 16);
      NibbleOfDigit(bs[0] % 16);
      assert HexEncode(bs)[2..] == HexEncode(bs[1..]);
      assert [bs[0]] + bs[1..] == bs;
    }
  }

  lemma JoinedNibbles(high: nat, low: nat)
    requires high < 16 && low < 16
    ensures (high * 16 + low) / 16 == high && (high * 16 + low) % 16 == low
  {
  }

  lemma {:induction false} EncodeUndoesDecode(s: string)
    requires HexDecode(s).Some?
    ensures HexEncode(HexDecode(s).value) == Lower(s)
  {
    hide Nibble, HexDigit;
    if s != [] {
      EncodeUndoesDecode(s[2..]);
      DigitOfNibble(s[0]);
      DigitOfNibble(s[1]);
      JoinedNibbles(Nibble(s[0]).value, Nibble(s[1]).value);
      var bs := HexDecode(s).value;
      assert bs[1..] == HexDecode(s[2..]).value;
      LowerSplit(s);
    }
  }

  lemma LowerSplit(s: string)
    requires |s| >= 2
    ensures Lower(s) == [Lower([s[0]])[0], Lower([s[1]])[0]] + Lower(s[2..])
  {
  }

  lemma {:induction false} DecodeIgnoresCase(s: string)
    ensures HexDecode(Lower(s)) == HexDecode(s)
  {
    hide Nibble;
    if |s| >= 2 {
      NibbleIgnoresCase(s, 0);
      NibbleIgnoresCase(s, 1);
      assert Lower(s)[2..] == Lower(s[2..]);
      DecodeIgnoresCase(s[2..]);
    }
  }

  lemma NibbleIgnoresCase(s: string, i: nat)
    requires i < |s|
    ensures Nibble(Lower(s)[i]) == Nibble(s[i])
  {
  }

  /** The string is hexValue's, up to the case of its digits. */
  predicate Spells(value: string, bs: Bytes) {
    |value| >= 2 && value[..2] == "0x" && Lower(value[2..]) == HexEncode(bs)
  }

  /** fixedHex inverts hexValue, and accepts exactly its strings up to the case of their digits. */
  lemma FixedHexExact(value: string, bs: Bytes)
    ensures FixedHex(HexValue(bs), |bs|) == Ok(bs)
    ensures FixedHex(value, |bs|) == Ok(bs) <==> Spells(value, bs)
  {
    assert HexValue(bs)[2..] == HexEncode(bs) && HexValue(bs)[..2] == "0x";
    DecodeUndoesEncode(bs);
    if FixedHex(value, |bs|) == Ok(bs) { EncodeUndoesDecode(value[2..]); }
    if Spells(value, bs) { DecodeIgnoresCase(value[2..]); }
  }

  lemma HexValueInjective(a: Bytes, b: Bytes)
    requires HexValue(a) == HexValue(b)
    ensures a == b
  {
    assert |HexValue(a)| == 2 + 2 * |a| && |HexValue(b)| == 2 + 2 * |b|;
    FixedHexExact(HexValue(a), a);
    FixedHexExact(HexValue(b), b);
  }

  // ----- Decimal -----

  function Digit(n: nat): char
    requires n < 10
  {
    "0123456789"[n]
  }

  /** big.Int.String of a natural number. */
  function Decimal(n: nat): (s: string)
    ensures s != []
  {
    if n < 10 then [Digit(n)] else Decimal(n / 10) + [Digit(n % 10)]
  }

  predicate Digits(s: string) {
    s != [] && forall i | 0 <= i < |s| :: '0' <= s[i] <= '9'
  }

  function DigitsValue(s: string): nat
    requires Digits(s)
  {
    (if |s| == 1 then 0 else DigitsValue(s[..|s| - 1]) * 10) + (s[|s| - 1] as int - '0' as int)
  }

  /** big.Int.SetString in base ten: an optional sign and at least one digit. */
  function ParseInteger(s: string): Option<int> {
    if s != [] && s[0] == '-' && Digits(s[1..]) then Some(0 - DigitsValue(s[1..]))
    else if s != [] && s[0] == '+' && Digits(s[1..]) then Some(DigitsValue(s[1..]))
    else if Digits(s) then Some(DigitsValue(s))
    else None
  }

  function DecimalUint256(value: string): Result<nat, CodecError> {
    var integer := ParseInteger(value);
    if integer.None? || integer.value < 0 || integer.value >= TWO256 || Decimal(integer.value) != value
      then Err(InvalidEvent)
    else Ok(integer.value)
  }

  function Uint256Decimal(value: int): Result<string, CodecError> {
    if value < 0 || value >= TWO256 then Err(InvalidEvent) else Ok(Decimal(value))
  }

  lemma DigitParses(d: nat)
    requires d < 10
    ensures '0' <= Digit(d) <= '9' && Digit(d) as int - '0' as int == d
  {
  }

  lemma DigitsSnoc(s: string, c: char)
    requires Digits(s) && '0' <= c <= '9'
    ensures Digits(s + [c]) && DigitsValue(s + [c]) == DigitsValue(s) * 10 + (c as int - '0' as int)
  {
    assert (s + [c])[..|s|] == s;
  }

  lemma {:induction false} DecimalParses(n: nat)
    ensures Digits(Decimal(n)) && DigitsValue(Decimal(n)) == n
  {
    hide Digit;
    DigitParses(n % 10);
    if n >= 10 {
      DecimalParses(n / 10);
      DigitsSnoc(Decimal(n / 10), Digit(n % 10));
    }
  }

  /** The decoder accepts exactly the printed uint256 values, each as its own value: no sign, no leading zero. */
  lemma DecimalExact(value: string, n: nat)
    ensures DecimalUint256(value) == Ok(n) <==> n < TWO256 && value == Decimal(n)
    ensures Uint256Decimal(n).Ok? ==> DecimalUint256(Uint256Decimal(n).value) == Ok(n)
  {
    DecimalParses(n);
  }

  // ----- Events -----

  /** internal/market's typed fixture events. */
  datatype MarketEvent =
    | Trade(market: Bytes32, trader: Bytes20, yes: bool, amount: int, yesReserve: int, noReserve: int,
      resolutionTime: uint64)
    | LiquidityChanged(market: Bytes32, yesReserve: int, noReserve: int, resolutionTime: uint64)
    | MarketResolved(market: Bytes32, outcome: bool)

  /** The JSON records, field by field; a field that may be absent when decoded is an Option. */
  datatype Payload =
    | TradePayload(marketID: string, traderID: string, yesFlag: Option<bool>, amountText: string,
                   yesReserveText: string, noReserveText: string, resolution: Option<uint64>)
    | LiquidityPayload(marketID: string, yesReserveText: string, noReserveText: string, resolution: Option<uint64>)
    | ResolvedPayload(marketID: string, outcomeFlag: Option<bool>)

  function ConvertEvent(e: MarketEvent): Result<Payload, CodecError> {
    match e
    case Trade(market, trader, yes, amount, yesReserve, noReserve, resolutionTime) =>
      var a, y, n := Uint256Decimal(amount), Uint256Decimal(yesReserve), Uint256Decimal(noReserve);
      if a.Err? || y.Err? || n.Err? then Err(InvalidEvent)
      else Ok(TradePayload(HexValue(market), HexValue(trader), Some(yes), a.value, y.value, n.value,
        Some(resolutionTime)))
    case LiquidityChanged(market, yesReserve, noReserve, resolutionTime) =>
      var y, n := Uint256Decimal(yesReserve), Uint256Decimal(noReserve);
      if y.Err? || n.Err? then Err(InvalidEvent)
      else Ok(LiquidityPayload(HexValue(market), y.value, n.value, Some(resolutionTime)))
    case MarketResolved(market, outcome) => Ok(ResolvedPayload(HexValue(market), Some(outcome)))
  }

  function DecodeEvent(p: Payload): Result<MarketEvent, CodecError> {
    var market := FixedHex(p.marketID, 32);
    if market.Err? then Err(InvalidEvent)
    else
      match p
      case TradePayload(_, traderID, yesFlag, amountText, yesText, noText, resolution) =>
        var trader := FixedHex(traderID, 20);
        var a, y, n := DecimalUint256(amountText), DecimalUint256(yesText), DecimalUint256(noText);
        if trader.Err? || a.Err? || y.Err? || n.Err? || yesFlag.None? || resolution.None? then Err(InvalidEvent)
        else Ok(Trade(market.value, trader.value, yesFlag.value, a.value, y.value, n.value, resolution.value))
      case LiquidityPayload(_, yesText, noText, resolution) =>
        var y, n := DecimalUint256(yesText), DecimalUint256(noText);
        if y.Err? || n.Err? || resolution.None? then Err(InvalidEvent)
        else Ok(LiquidityChanged(market.value, y.value, n.value, resolution.value))
      case ResolvedPayload(_, outcomeFlag) =>
        if outcomeFlag.None? then Err(InvalidEvent) else Ok(MarketResolved(market.value, outcomeFlag.value))
  }

  predicate IsUint256(n: int) {
    0 <= n < TWO256
  }

  /** Every integer of the event fits the ABI's uint256. */
  predicate Encodable(e: MarketEvent) {
    match e
    case Trade(_, _, _, amount, yesReserve, noReserve, _) => IsUint256(amount) && IsUint256(yesReserve)
      && IsUint256(noReserve)
    case LiquidityChanged(_, yesReserve, noReserve, _) => IsUint256(yesReserve) && IsUint256(noReserve)
    case MarketResolved(_, _) => true
  }

  /** An event is serialized exactly when its integers fit, and decoding gives back the very same event. */
  lemma EventRoundTrip(e: MarketEvent)
    ensures ConvertEvent(e).Ok? <==> Encodable(e)
    ensures ConvertEvent(e).Ok? ==> DecodeEvent(ConvertEvent(e).value) == Ok(e)
  {
    hide HexValue, FixedHex, DecimalUint256, Decimal;
    FixedHexExact("", e.market);
    match e
    case Trade(_, trader, _, amount, yesReserve, noReserve, _) =>
      FixedHexExact("", trader);
      if Encodable(e) {
        DecimalExact(Decimal(amount), amount);
        DecimalExact(Decimal(yesReserve), yesReserve);
        DecimalExact(Decimal(noReserve), noReserve);
      }
    case LiquidityChanged(_, yesReserve, noReserve, _) =>
      if Encodable(e) {
        DecimalExact(Decimal(yesReserve), yesReserve);
        DecimalExact(Decimal(noReserve), noReserve);
      }
    case MarketResolved(_, _) =>
  }

  /** Hexadecimal is lower-case, by example. */
  lemma KnownHex()
    ensures HexValue([0, 171, 9]) == "0x00ab09"
  {
    assert [0, 171, 9][1..] == [171, 9] && [171, 9][1..] == [9] && [9][1..] == [];
    assert HexEncode([9]) == "09";
    assert HexEncode([171, 9]) == "ab09";
  }

  /** Integers are in base ten, by example. */
  lemma KnownDecimal()
    ensures Decimal(1048) == "1048" && Decimal(0) == "0"
  {
    assert Decimal(1) == "1" && Decimal(10) == "10" && Decimal(104) == "104";
  }

  /** The stored record repeats the event, field by field. */
  lemma PayloadExactly(e: MarketEvent)
    requires Encodable(e)
    ensures match ConvertEvent(e)
            case Err(_) => false
            case Ok(p) =>
              && p.marketID == HexValue(e.market)
              && (e.MarketResolved? <==> p.ResolvedPayload?) && (e.Trade? <==> p.TradePayload?)
              && (!e.MarketResolved? ==>
                    && p.yesReserveText == Decimal(e.yesReserve) && p.noReserveText == Decimal(e.noReserve)
                    && p.resolution == Some(e.resolutionTime))
              && (e.Trade? ==>
                    && p.traderID == HexValue(e.trader) && p.yesFlag == Some(e.yes)
                    && p.amountText == Decimal(e.amount))
              && (e.MarketResolved? ==> p.outcomeFlag == Some(e.outcome))
  {
  }
}
