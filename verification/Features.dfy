/**
  internal/features/features.go over the reals.  A float64 computation that would
  overflow is modelled as exceeding `limit`, the largest finite value, which is a
  parameter: no result below depends on it.
 */
module Features {
  import opened Types

  const TRADE_YES: nat := 1
  const TRADE_NO: nat := 2

  datatype FeatureError =
    | InvalidWindow | MarketMismatch | EventOrder | NoUpdates
    | InvalidReserve | InvalidTrade | SnapshotBeforeUpdate | InvalidFinality

  datatype Trade = Trade(direction: nat, amount: real)
  {
    predicate Valid() {
      (direction == TRADE_YES || direction == TRADE_NO) && amount > 0.0
    }
  }

  function Max(a: real, b: real): real {
    if a >= b then a else b
  }

  function Min(a: real, b: real): real {
    if a <= b then a else b
  }

  // ----- Specifications -----

  /** Total amount traded in one direction. */
  function Volume(trades: seq<Trade>, direction: nat): real {
    if trades == [] then 0.0
    else Volume(trades[..|trades| - 1], direction)
         + if trades[|trades| - 1].direction == direction then trades[|trades| - 1].amount else 0.0
  }

  predicate AllValid(trades: seq<Trade>) {
    forall i | 0 <= i < |trades| :: trades[i].Valid()
  }

  /** Signed YES-minus-NO volume over total volume; zero for an empty window. */
  function Imbalance(trades: seq<Trade>): Result<real, FeatureError> {
    if !AllValid(trades) then Err(InvalidTrade)
    else
      var yes, no := Volume(trades, TRADE_YES), Volume(trades, TRADE_NO);
      if yes + no == 0.0 then Ok(0.0) else Ok((yes - no) / (yes + no))
  }

  function Probability(yesReserve: real, noReserve: real): Result<real, FeatureError> {
    if yesReserve < 0.0 || noReserve < 0.0 || yesReserve + noReserve == 0.0 then Err(InvalidReserve)
    else Ok(noReserve / (yesReserve + noReserve))
  }

  function Depth(yesReserve: real, noReserve: real): Result<real, FeatureError> {
    if yesReserve < 0.0 || noReserve < 0.0 then Err(InvalidReserve) else Ok(Min(yesReserve, noReserve))
  }

  /** Seconds from `at` to `resolution`, both in nanoseconds; Go's Duration saturates. */
  function SecondsTo(at: int, resolution: int): (s: real)
    ensures s >= 0.0
    ensures s == 0.0 <==> resolution <= at
  {
    if resolution <= at then 0.0
    else (if resolution - at < TWO63 then resolution - at else TWO63 - 1) as real / 1000000000.0
  }

  function BlockLag(snapshotBlock: uint64, lastUpdateBlock: uint64): Result<uint64, FeatureError> {
    if snapshotBlock < lastUpdateBlock then Err(SnapshotBeforeUpdate) else Ok(snapshotBlock - lastUpdateBlock)
  }

  // ----- The computations -----

  lemma ScaledRatio(a: real, b: real, scale: real)
    requires scale > 0.0 && a + b != 0.0
    ensures a / scale + b / scale != 0.0
    ensures (a / scale - b / scale) / (a / scale + b / scale) == (a - b) / (a + b)
    ensures (b / scale) / (a / scale + b / scale) == b / (a + b)
  {
    var x, y := a / scale, b / scale;
    assert x * scale == a && y * scale == b;
    assert (x + y) * scale == a + b;
    assert (x - y) * scale == a - b;
    CancelScale(x - y, x + y, scale);
    CancelScale(y, x + y, scale);
  }

  lemma CancelScale(p: real, q: real, scale: real)
    requires scale > 0.0 && q != 0.0 && q * scale != 0.0
    ensures (p * scale) / (q * scale) == p / q
  {
    var r := p / q;
    assert r * q == p;
    assert r * (q * scale) == p * scale;
  }

  /** Whether or not the plain sum overflows, the result is the NO share of the reserves. */
  method YesImpliedProbability(yesReserve: real, noReserve: real, limit: real) returns (p: Result<real, FeatureError>)
    requires limit > 0.0
    ensures p == Probability(yesReserve, noReserve)
  {
    if yesReserve < 0.0 || noReserve < 0.0 { return Err(InvalidReserve); }
    var total := yesReserve + noReserve;
    if total <= limit {
      if total == 0.0 { return Err(InvalidReserve); }
      return Ok(noReserve / total);
    }
    var scale := Max(yesReserve, noReserve);
    var scaledYes, scaledNo := yesReserve / scale, noReserve / scale;
    ScaledRatio(yesReserve, noReserve, scale);
    return Ok(scaledNo / (scaledYes + scaledNo));
  }

  lemma {:induction false} VolumeBounds(trades: seq<Trade>, direction: nat)
    requires AllValid(trades)
    ensures Volume(trades, direction) >= 0.0
    ensures Volume(trades, TRADE_YES) + Volume(trades, TRADE_NO) == 0.0 <==> trades == []
  {
    if trades != [] {
      var init := trades[..|trades| - 1];
      VolumeBounds(init, direction);
      VolumeBounds(init, TRADE_YES);
      VolumeBounds(init, TRADE_NO);
      assert trades[|trades| - 1].Valid();
    }
  }

  lemma DivideSum(a: real, b: real, scale: real)
    requires scale > 0.0
    ensures (a + b) / scale == a / scale + b / scale
  {
  }

  /** The second pass of the imbalance, used when a raw sum overflowed. */
  method ScaledVolumes(trades: seq<Trade>, scale: real) returns (yes: real, no: real)
    requires AllValid(trades) && scale > 0.0
    ensures yes == Volume(trades, TRADE_YES) / scale && no == Volume(trades, TRADE_NO) / scale
  {
    yes, no := 0.0, 0.0;
    for i := 0 to |trades|
      invariant yes == Volume(trades[..i], TRADE_YES) / scale
      invariant no == Volume(trades[..i], TRADE_NO) / scale
    {
      assert trades[..i + 1][..i] == trades[..i];
      assert trades[i].Valid();
      var scaledAmount := trades[i].amount / scale;
      DivideSum(Volume(trades[..i], trades[i].direction), trades[i].amount, scale);
      if trades[i].direction == TRADE_YES { yes := yes + scaledAmount; } else { no := no + scaledAmount; }
    }
    assert trades[..|trades|] == trades;
  }

  /** Both forms of the computation, raw and scaled, arrive at the same imbalance. */
  method RecentTradeFlowImbalance(trades: seq<Trade>, limit: real) returns (flow: Result<real, FeatureError>)
    requires limit > 0.0
    ensures flow == Imbalance(trades)
  {
    var scale, rawYes, rawNo := 0.0, 0.0, 0.0;
    var useScaled := false;
    for i := 0 to |trades|
      invariant AllValid(trades[..i])
      invariant rawYes == Volume(trades[..i], TRADE_YES) && rawNo == Volume(trades[..i], TRADE_NO)
      invariant scale >= 0.0 && (scale == 0.0 <==> i == 0)
    {
      if !trades[i].Valid() { return Err(InvalidTrade); }
      assert trades[..i + 1][..i] == trades[..i];
      scale := Max(scale, trades[i].amount);
      if trades[i].direction == TRADE_YES {
        rawYes := rawYes + trades[i].amount;
        useScaled := useScaled || rawYes > limit;
      } else {
        rawNo := rawNo + trades[i].amount;
        useScaled := useScaled || rawNo > limit;
      }
    }
    assert trades[..|trades|] == trades;
    VolumeBounds(trades, TRADE_YES);
    if scale == 0.0 { return Ok(0.0); }
    var total := rawYes + rawNo;
    if !useScaled && total <= limit { return Ok((rawYes - rawNo) / total); }
    var yesVolume, noVolume := ScaledVolumes(trades, scale);
    ScaledRatio(rawYes, rawNo, scale);
    return Ok((yesVolume - noVolume) / (yesVolume + noVolume));
  }

  // ----- Meaning -----

  lemma ScaleKeepsOrder(a: real, b: real, q: real)
    requires q > 0.0 && a < b
    ensures a * q < b * q
  {
  }

  lemma DivideBounds(p: real, q: real)
    requires q > 0.0 && -q <= p <= q
    ensures -1.0 <= p / q <= 1.0
    ensures p / q == 1.0 <==> p == q
    ensures p >= 0.0 ==> p / q >= 0.0
  {
    var r := p / q;
    assert r * q == p;
    if r > 1.0 { ScaleKeepsOrder(1.0, r, q); }
    if r < -1.0 { ScaleKeepsOrder(r, -1.0, q); }
    if r < 0.0 { ScaleKeepsOrder(r, 0.0, q); }
  }

  /** The imbalance lies in [-1, 1] and is 1 exactly when there are trades and none is a NO trade. */
  lemma ImbalanceRange(trades: seq<Trade>)
    requires AllValid(trades)
    ensures Imbalance(trades).Ok? && -1.0 <= Imbalance(trades).value <= 1.0
    ensures Imbalance(trades).value == 1.0 <==> trades != [] && Volume(trades, TRADE_NO) == 0.0
  {
    VolumeBounds(trades, TRADE_YES);
    VolumeBounds(trades, TRADE_NO);
    var yes, no := Volume(trades, TRADE_YES), Volume(trades, TRADE_NO);
    if yes + no != 0.0 { DivideBounds(yes - no, yes + no); }
  }

  lemma ProbabilityRange(yesReserve: real, noReserve: real)
    ensures Probability(yesReserve, noReserve).Ok?
      <==> yesReserve >= 0.0 && noReserve >= 0.0 && yesReserve + noReserve > 0.0
    ensures Probability(yesReserve, noReserve).Ok? ==> 0.0 <= Probability(yesReserve, noReserve).value <= 1.0
  {
    if yesReserve >= 0.0 && noReserve >= 0.0 && yesReserve + noReserve > 0.0 {
      DivideBounds(noReserve, yesReserve + noReserve);
    }
  }
}
