/** internal/features/engine.go: one market's sliding-window feature engine and its observation frontier. */
module Engine {
  import opened Types
  import opened Features
  import Chain

  /** One market-state change; instants are Unix nanoseconds. */
  datatype Update = Update(
    market: string, block: uint64, log: uint64, time: int,
    yesReserve: real, noReserve: real, trade: Option<Trade>, resolution: int, finality: Chain.Level)

  datatype Point = Point(market: string, block: uint64, log: uint64, time: int)

  datatype Snapshot = Snapshot(
    market: string, block: uint64, log: uint64, time: int, resolution: int, finality: Chain.Level,
    probability: real, imbalance: real, depth: real, secondsToResolution: real, blockLag: uint64)

  /** Strictly later in (block, log index) order. */
  predicate PositionAfter(block: uint64, log: uint64, otherBlock: uint64, otherLog: uint64) {
    block > otherBlock || (block == otherBlock && log > otherLog)
  }

  /** The last `window` elements. */
  function Last<T>(s: seq<T>, window: nat): (r: seq<T>)
    ensures |r| == if |s| <= window then |s| else window
  {
    if |s| <= window then s else s[|s| - window..]
  }

  /** The trades of a window; slots without a trade contribute nothing. */
  function Trades(flow: seq<Option<Trade>>): seq<Trade> {
    if flow == [] then []
    else Trades(flow[..|flow| - 1]) + if flow[|flow| - 1].Some? then [flow[|flow| - 1].value] else []
  }

  function SnapshotValue(
    market: string, latest: Update, flow: seq<Option<Trade>>, p: Point): Result<Snapshot, FeatureError>
  {
    var probability := Probability(latest.yesReserve, latest.noReserve);
    var imbalance := Imbalance(Trades(flow));
    var depth := Depth(latest.yesReserve, latest.noReserve);
    var lag := BlockLag(p.block, latest.block);
    if probability.Err? then Err(probability.error)
    else if imbalance.Err? then Err(imbalance.error)
    else if depth.Err? then Err(depth.error)
    else if lag.Err? then Err(lag.error)
    else Ok(Snapshot(p.market, p.block, p.log, p.time, latest.resolution, latest.finality,
                     probability.value, imbalance.value, depth.value, SecondsTo(p.time, latest.resolution), lag.value))
  }

  datatype State = State(
    market: string, window: nat, flow: seq<Option<Trade>>, latest: Option<Update>, observed: Option<Point>)
  {
    /** Why Apply refuses an update. */
    function Refusal(u: Update): Option<FeatureError> {
      if u.market != market then Some(MarketMismatch)
      else if u.finality > Chain.FINALIZED then Some(InvalidFinality)
      else if Probability(u.yesReserve, u.noReserve).Err? || Depth(u.yesReserve, u.noReserve).Err?
        then Some(InvalidReserve)
      else if latest.Some? && !PositionAfter(u.block, u.log, latest.value.block, latest.value.log) then Some(EventOrder)
      else if latest.Some? && u.time < latest.value.time then Some(EventOrder)
      else if observed.Some? && !PositionAfter(u.block, u.log, observed.value.block, observed.value.log)
        then Some(EventOrder)
      else if observed.Some? && u.time < observed.value.time then Some(EventOrder)
      else if u.trade.Some? && !u.trade.value.Valid() then Some(InvalidTrade)
      else None
    }

    function Apply(u: Update): State {
      if Refusal(u).Some? then this
      else this.(flow := Last(flow + [u.trade], window), latest := Some(u))
    }

    function Peek(p: Point): Result<Snapshot, FeatureError> {
      if p.market != market then Err(MarketMismatch)
      else if latest.None? then Err(NoUpdates)
      else if PositionAfter(latest.value.block, latest.value.log, p.block, p.log) then Err(SnapshotBeforeUpdate)
      else if p.time < latest.value.time then Err(SnapshotBeforeUpdate)
      else SnapshotValue(market, latest.value, flow, p)
    }

    /** observe: the frontier moves to the later position and, separately, to the later time. */
    function Observe(p: Point): State {
      var moved := observed.None? || PositionAfter(p.block, p.log, observed.value.block, observed.value.log);
      var block := if moved then p.block else observed.value.block;
      var log := if moved then p.log else observed.value.log;
      var time := if observed.None? || p.time > observed.value.time then p.time else observed.value.time;
      this.(observed := Some(Point(market, block, log, time)))
    }

    function TakeSnapshot(p: Point): State {
      if Peek(p).Ok? then Observe(p) else this
    }
  }

  function NewState(market: string, window: nat): State {
    State(market, window, [], None, None)
  }

  lemma ReserveErrors(yesReserve: real, noReserve: real)
    ensures Probability(yesReserve, noReserve).Err? ==> Probability(yesReserve, noReserve).error == InvalidReserve
    ensures Depth(yesReserve, noReserve).Err? ==> Depth(yesReserve, noReserve).error == InvalidReserve
  {
  }

  // ----- Batches -----

  datatype BatchStep = BatchStep(update: Update, point: Point)

  /** The engine and the snapshots after each step was applied and observed. */
  function Batch(engine: State, steps: seq<BatchStep>): Result<(State, seq<Snapshot>), FeatureError> {
    if steps == [] then Ok((engine, []))
    else
      var before := Batch(engine, steps[..|steps| - 1]);
      var step := steps[|steps| - 1];
      if before.Err? then before
      else if before.value.0.Refusal(step.update).Some? then Err(before.value.0.Refusal(step.update).value)
      else
        var applied := before.value.0.Apply(step.update);
        match applied.Peek(step.point)
        case Err(e) => Err(e)
        case Ok(s) => Ok((applied.TakeSnapshot(step.point), before.value.1 + [s]))
  }

  lemma {:induction false} BatchFails(engine: State, steps: seq<BatchStep>, k: nat)
    requires k <= |steps| && Batch(engine, steps[..k]).Err?
    ensures Batch(engine, steps) == Batch(engine, steps[..k])
    decreases |steps| - k
  {
    if k == |steps| {
      assert steps[..k] == steps;
    } else {
      assert steps[..k + 1][..k] == steps[..k];
      BatchFails(engine, steps, k + 1);
    }
  }

  method ReplayBatch(market: string, window: int, steps: seq<BatchStep>, limit: real)
    returns (r: Result<seq<Snapshot>, FeatureError>)
    requires limit > 0.0
    ensures window <= 0 ==> r == Err(InvalidWindow)
    ensures window > 0 ==>
              match Batch(NewState(market, window), steps)
              case Err(e) => r == Err(e)
              case Ok(done) => r == Ok(done.1)
  {
    hide State.Refusal, State.Apply, State.Peek, State.TakeSnapshot;
    if window <= 0 { return Err(InvalidWindow); }
    var engine := new Engine(market, window, limit);
    var snapshots: seq<Snapshot> := [];
    for i := 0 to |steps|
      invariant fresh(engine) && engine.limit == limit
      invariant Batch(NewState(market, window), steps[..i]) == Ok((engine.View(), snapshots))
    {
      assert steps[..i + 1][..i] == steps[..i] && steps[..i + 1][i] == steps[i];
      var refused := engine.Apply(steps[i].update);
      if refused.Some? {
        BatchFails(NewState(market, window), steps, i + 1);
        return Err(refused.value);
      }
      var taken := engine.TakeSnapshot(steps[i].point);
      if taken.Err? {
        BatchFails(NewState(market, window), steps, i + 1);
        return Err(taken.error);
      }
      snapshots := snapshots + [taken.value];
    }
    assert steps[..|steps|] == steps;
    return Ok(snapshots);
  }

  class Engine {
    const market: string
    const window: nat
    const limit: real
    var flowEvents: seq<Option<Trade>>
    var latest: Option<Update>
    var observed: Option<Point>

    ghost function View(): State
      reads this
    {
      State(market, window, flowEvents, latest, observed)
    }

    /** NewEngine refuses a non-positive window before it makes an engine. */
    constructor (market: string, window: nat, limit: real)
      requires window > 0 && limit > 0.0
      ensures View() == NewState(market, window) && this.limit == limit
    {
      this.market, this.window, this.limit := market, window, limit;
      flowEvents, latest, observed := [], None, None;
    }

    /** Validates and atomically incorporates an update; a refused one leaves no trace. */
    method Apply(update: Update) returns (error: Option<FeatureError>)
      requires limit > 0.0
      modifies this
      ensures error == old(View()).Refusal(update)
      ensures View() == old(View()).Apply(update)
    {
      hide Probability, Features.Depth;
      ReserveErrors(update.yesReserve, update.noReserve);
      if update.market != market { return Some(MarketMismatch); }
      if update.finality > Chain.FINALIZED { return Some(InvalidFinality); }
      var probability := YesImpliedProbability(update.yesReserve, update.noReserve, limit);
      if probability.Err? { return Some(probability.error); }
      var depth := Depth(update.yesReserve, update.noReserve);
      if depth.Err? { return Some(depth.error); }
      if latest.Some? {
        if !PositionAfter(update.block, update.log, latest.value.block, latest.value.log) { return Some(EventOrder); }
        if update.time < latest.value.time { return Some(EventOrder); }
      }
      if observed.Some? {
        var frontier := observed.value;
        if !PositionAfter(update.block, update.log, frontier.block, frontier.log) { return Some(EventOrder); }
        if update.time < observed.value.time { return Some(EventOrder); }
      }
      if update.trade.Some? {
        var single := RecentTradeFlowImbalance([update.trade.value], limit);
        assert [update.trade.value][0] == update.trade.value;
        if single.Err? { return Some(single.error); }
      }
      flowEvents := flowEvents + [update.trade];
      if |flowEvents| > window { flowEvents := flowEvents[|flowEvents| - window..]; }
      latest := Some(update);
      error := None;
    }

    method CollectTrades() returns (trades: seq<Trade>)
      ensures trades == Trades(flowEvents)
    {
      trades := [];
      for i := 0 to |flowEvents|
        invariant trades == Trades(flowEvents[..i])
      {
        assert flowEvents[..i + 1][..i] == flowEvents[..i];
        if flowEvents[i].Some? { trades := trades + [flowEvents[i].value]; }
      }
      assert flowEvents[..|flowEvents|] == flowEvents;
    }

    method TakeSnapshot(p: Point) returns (snapshot: Result<Snapshot, FeatureError>)
      requires limit > 0.0
      modifies this
      ensures snapshot == old(View()).Peek(p)
      ensures View() == old(View()).TakeSnapshot(p)
    {
      hide Probability, Imbalance, Features.Depth, Features.BlockLag;
      if p.market != market { return Err(MarketMismatch); }
      if latest.None? { return Err(NoUpdates); }
      var last := latest.value;
      if PositionAfter(last.block, last.log, p.block, p.log) { return Err(SnapshotBeforeUpdate); }
      if p.time < last.time { return Err(SnapshotBeforeUpdate); }
      var probability := YesImpliedProbability(last.yesReserve, last.noReserve, limit);
      if probability.Err? { return Err(probability.error); }
      var trades := CollectTrades();
      var flow := RecentTradeFlowImbalance(trades, limit);
      if flow.Err? { return Err(flow.error); }
      var depth := Depth(last.yesReserve, last.noReserve);
      if depth.Err? { return Err(depth.error); }
      var lag := BlockLag(p.block, last.block);
      if lag.Err? { return Err(lag.error); }
      snapshot := Ok(Snapshot(p.market, p.block, p.log, p.time, last.resolution, last.finality,
                              probability.value, flow.value, depth.value, SecondsTo(p.time, last.resolution),
                              lag.value));
      MoveFrontier(p);
    }

    method MoveFrontier(p: Point)
      modifies this`observed
      ensures View() == old(View()).Observe(p)
    {
      var frontier := if observed.Some? then observed.value else p;
      if observed.None? || PositionAfter(p.block, p.log, frontier.block, frontier.log) {
        frontier := frontier.(block := p.block, log := p.log);
      }
      if observed.None? || p.time > frontier.time {
        frontier := frontier.(time := p.time);
      }
      observed := Some(frontier.(market := market));
    }
  }
}
