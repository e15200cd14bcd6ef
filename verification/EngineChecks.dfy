/** What the engine accepts and when it can be observed, exactly, in terms of the updates themselves. */
module EngineChecks {
  import opened Types
  import opened Features
  import opened Engine
  import opened EngineLaws

  /** The position (block, log) is strictly later than (block', log'). */
  predicate Later(block: int, log: int, block': int, log': int) {
    block > block' || (block == block' && log > log')
  }

  /** Reserves that have a price. */
  predicate Priced(u: Update) {
    u.yesReserve >= 0.0 && u.noReserve >= 0.0 && u.yesReserve + u.noReserve > 0.0
  }

  /** A known level, reserves with a price, and a trade, if any, of a positive amount on one side. */
  predicate Plausible(u: Update) {
    && u.finality <= 2 && Priced(u)
    && (u.trade.Some? ==> u.trade.value.direction in {1, 2} && u.trade.value.amount > 0.0)
  }

  /** The update is strictly later in position, and not earlier in time, than a position and time seen before. */
  predicate Advances(u: Update, block: int, log: int, time: int) {
    Later(u.block, u.log, block, log) && time <= u.time
  }

  /** The update is beyond what the engine has applied and observed. */
  predicate Beyond(engine: State, u: Update) {
    && (engine.latest.Some? ==>
          Advances(u, engine.latest.value.block, engine.latest.value.log, engine.latest.value.time))
    && (engine.observed.Some? ==>
          Advances(u, engine.observed.value.block, engine.observed.value.log, engine.observed.value.time))
  }

  /** An update is accepted exactly if it is plausible, of the market, and beyond what was applied and observed. */
  lemma AcceptsExactly(engine: State, u: Update)
    ensures engine.Refusal(u).None? <==> u.market == engine.market && Plausible(u) && Beyond(engine, u)
    ensures engine.Refusal(u) == Some(EventOrder)
       <==> u.market == engine.market && u.finality <= 2 && Priced(u) && !Beyond(engine, u)
    ensures engine.Refusal(u).None? ==>
              engine.Apply(u).latest == Some(u) && engine.Apply(u).observed == engine.observed
    ensures engine.Refusal(u).Some? ==> engine.Apply(u) == engine
  {
  }

  /** In a run everything accepted is plausible. */
  ghost predicate AllPlausible(us: seq<Update>) {
    forall i | 0 <= i < |us| :: Plausible(us[i])
  }

  /** No update visible at a snapshot's position is later than the snapshot in time. */
  ghost predicate Dated(t: Trace) {
    forall k, i | 0 <= k < |t.emitted| && 0 <= i < |t.accepted| ::
      var p, u := t.emitted[k].0, t.accepted[i];
      Later(u.block, u.log, p.block, p.log) || u.time <= p.time
  }

  lemma ApplyChecks(t: Trace, u: Update)
    requires Honest(t) && AllPlausible(t.accepted) && Dated(t) && t.engine.Refusal(u).None?
    ensures AllPlausible(t.accepted + [u]) && Dated(Step(t, DoApply(u)))
  {
    hide State.Refusal, State.Apply, FeaturesAt;
    AcceptsExactly(t.engine, u);
    forall k | 0 <= k < |t.emitted|
      ensures var p := t.emitted[k].0; Later(u.block, u.log, p.block, p.log)
    {
      assert HonestAt(t.engine, t.accepted, t.emitted[k].0, t.emitted[k].1);
    }
  }

  lemma SnapshotChecks(t: Trace, p: Point)
    requires Tracks(t) && Dated(t) && t.engine.Peek(p).Ok?
    ensures Dated(Step(t, DoSnapshot(p)))
  {
    hide SnapshotValue, Last, State.TakeSnapshot;
    var last := |t.accepted| - 1;
    forall i | 0 <= i < |t.accepted|
      ensures t.accepted[i].time <= p.time
    {
      assert i < last ==> t.accepted[last].time >= t.accepted[i].time;
    }
  }

  lemma {:induction false} RunChecks(market: string, window: nat, calls: seq<Call>)
    ensures var t := Run(market, window, calls); AllPlausible(t.accepted) && Dated(t)
  {
    if calls != [] {
      hide AllPlausible, Dated, Tracks, Honest, State.Refusal, State.Peek, State.Apply, State.TakeSnapshot;
      var init := calls[..|calls| - 1];
      var before := Run(market, window, init);
      RunChecks(market, window, init);
      EngineLaws.RunKeeps(market, window, init);
      match calls[|calls| - 1]
      case DoApply(u) => if before.engine.Refusal(u).None? { ApplyChecks(before, u); }
      case DoSnapshot(p) => if before.engine.Peek(p).Ok? { SnapshotChecks(before, p); }
    } else {
      assert Run(market, window, calls).accepted == [];
    }
  }

  /** A snapshot is dated: no update at or before its position is later than it in time. */
  lemma SnapshotsAreDated(market: string, window: nat, calls: seq<Call>, k: nat, i: nat)
    requires var t := Run(market, window, calls); k < |t.emitted| && i < |t.accepted|
    requires var t := Run(market, window, calls);
             !Later(t.accepted[i].block, t.accepted[i].log, t.emitted[k].0.block, t.emitted[k].0.log)
    ensures var t := Run(market, window, calls);
            t.emitted[k].1.time == t.emitted[k].0.time && t.accepted[i].time <= t.emitted[k].1.time
  {
    hide Run, Means, Visible, Last, Slots;
    RunChecks(market, window, calls);
    EmittedSnapshotsMean(market, window, calls, k);
    SnapshotTime(market, window, calls, k);
  }

  lemma SnapshotTime(market: string, window: nat, calls: seq<Call>, k: nat)
    requires k < |Run(market, window, calls).emitted|
    ensures var t := Run(market, window, calls); t.emitted[k].1.time == t.emitted[k].0.time
  {
    hide Run, Visible, Last, Slots;
    EmittedSnapshotsMean(market, window, calls, k);
  }

  lemma {:induction false} PlausibleTrades(us: seq<Update>)
    requires AllPlausible(us)
    ensures AllValid(Trades(Slots(us)))
  {
    if us != [] {
      var init := us[..|us| - 1];
      PlausibleTrades(init);
      assert Slots(us)[..|init|] == Slots(init);
    }
  }

  /**
    After any run, a point can be observed exactly if it names the market, there is
    something to observe, and it is not before the latest update in position or time.
   */
  lemma ObservableExactly(market: string, window: nat, calls: seq<Call>, p: Point)
    ensures var t := Run(market, window, calls);
            t.engine.Peek(p).Ok? <==>
              && p.market == market && t.accepted != []
              && var latest := t.accepted[|t.accepted| - 1];
                 !Later(latest.block, latest.log, p.block, p.log) && latest.time <= p.time
  {
    hide Run, Trades, AllValid, Volume;
    RunChecks(market, window, calls);
    EngineLaws.RunKeeps(market, window, calls);
    var t := Run(market, window, calls);
    if t.accepted != [] {
      var recent := t.accepted[if |t.accepted| > window then |t.accepted| - window else 0..];
      assert Slots(recent) == t.engine.flow;
      PlausibleTrades(recent);
      var latest := t.accepted[|t.accepted| - 1];
      ProbabilityRange(latest.yesReserve, latest.noReserve);
      ImbalanceRange(Trades(t.engine.flow));
    }
  }
}
