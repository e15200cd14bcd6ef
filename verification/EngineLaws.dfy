/** The engine never looks ahead: every snapshot is a function of the history at or before its position. */
module EngineLaws {
  import opened Types
  import opened Features
  import opened Engine

  // ----- The specification: features of a full history at a point -----

  predicate AtOrBefore(u: Update, p: Point) {
    !PositionAfter(u.block, u.log, p.block, p.log)
  }

  /** The updates whose position is at or before the point. */
  function Visible(history: seq<Update>, p: Point): seq<Update> {
    if history == [] then []
    else Visible(history[..|history| - 1], p)
         + if AtOrBefore(history[|history| - 1], p) then [history[|history| - 1]] else []
  }

  /** One slot per update, whether or not it carries a trade. */
  function Slots(history: seq<Update>): (r: seq<Option<Trade>>)
    ensures |r| == |history|
  {
    seq(|history|, i requires 0 <= i < |history| => history[i].trade)
  }

  /** The features of a market at a point, from nothing but the updates visible there. */
  function FeaturesAt(market: string, window: nat, history: seq<Update>, p: Point): Result<Snapshot, FeatureError> {
    var visible := Visible(history, p);
    if visible == [] then Err(NoUpdates)
    else SnapshotValue(market, visible[|visible| - 1], Last(Slots(visible), window), p)
  }

  // ----- Runs of an engine -----

  datatype Call = DoApply(update: Update) | DoSnapshot(point: Point)

  /** The engine, the updates it accepted, and the snapshots it emitted with their points. */
  datatype Trace = Trace(engine: State, accepted: seq<Update>, emitted: seq<(Point, Snapshot)>)

  function Step(t: Trace, call: Call): Trace {
    match call
    case DoApply(u) =>
      if t.engine.Refusal(u).Some? then t
      else Trace(t.engine.Apply(u), t.accepted + [u], t.emitted)
    case DoSnapshot(p) =>
      match t.engine.Peek(p)
      case Err(_) => t
      case Ok(s) => Trace(t.engine.TakeSnapshot(p), t.accepted, t.emitted + [(p, s)])
  }

  function Run(market: string, window: nat, calls: seq<Call>): Trace {
    if calls == [] then Trace(NewState(market, window), [], [])
    else Step(Run(market, window, calls[..|calls| - 1]), calls[|calls| - 1])
  }

  // ----- Invariants -----

  ghost predicate Ascending(history: seq<Update>) {
    forall i, j | 0 <= i < j < |history| ::
      PositionAfter(history[j].block, history[j].log, history[i].block, history[i].log)
        && history[j].time >= history[i].time
  }

  /** The in-place window is exactly the last slots of everything accepted so far. */
  ghost predicate Tracks(t: Trace) {
    && Ascending(t.accepted)
    && t.engine.flow == Last(Slots(t.accepted), t.engine.window)
    && t.engine.latest == if t.accepted == [] then None else Some(t.accepted[|t.accepted| - 1])
  }

  /** A snapshot agrees with the specification and lies behind the observation frontier. */
  ghost predicate HonestAt(engine: State, history: seq<Update>, p: Point, s: Snapshot) {
    && engine.observed.Some?
    && !PositionAfter(p.block, p.log, engine.observed.value.block, engine.observed.value.log)
    && p.time <= engine.observed.value.time
    && FeaturesAt(engine.market, engine.window, history, p) == Ok(s)
  }

  ghost predicate Honest(t: Trace) {
    forall k | 0 <= k < |t.emitted| :: HonestAt(t.engine, t.accepted, t.emitted[k].0, t.emitted[k].1)
  }

  lemma {:induction false} AllVisible(history: seq<Update>, p: Point)
    requires forall i | 0 <= i < |history| :: AtOrBefore(history[i], p)
    ensures Visible(history, p) == history
  {
    if history != [] {
      AllVisible(history[..|history| - 1], p);
      assert history[..|history| - 1] + [history[|history| - 1]] == history;
    }
  }

  /** An update beyond the point does not change what is visible there. */
  lemma LaterIsInvisible(market: string, window: nat, history: seq<Update>, u: Update, p: Point)
    requires !AtOrBefore(u, p)
    ensures FeaturesAt(market, window, history + [u], p) == FeaturesAt(market, window, history, p)
  {
    assert (history + [u])[..|history|] == history;
    assert Visible(history, p) + [] == Visible(history, p);
  }

  lemma WindowSlides<T>(s: seq<T>, x: T, window: nat)
    ensures Last(Last(s, window) + [x], window) == Last(s + [x], window)
  {
  }

  lemma AscendingPush(history: seq<Update>, u: Update)
    requires Ascending(history)
    requires history != [] ==>
               var last := history[|history| - 1];
               PositionAfter(u.block, u.log, last.block, last.log) && u.time >= last.time
    ensures Ascending(history + [u])
  {
    var last := |history| - 1;
    forall i, j | 0 <= i < j < |history| + 1
      ensures var a, b := (history + [u])[i], (history + [u])[j]; PositionAfter(b.block, b.log, a.block, a.log)
      ensures (history + [u])[j].time >= (history + [u])[i].time
    {
      if j == |history| && i < last {
        assert PositionAfter(history[last].block, history[last].log, history[i].block, history[i].log);
        assert history[last].time >= history[i].time;
      }
    }
  }

  /** What an update passed when it was not refused. */
  lemma Accepted(engine: State, u: Update)
    requires engine.Refusal(u).None?
    ensures engine.latest.Some? ==>
              PositionAfter(u.block, u.log, engine.latest.value.block, engine.latest.value.log)
                && u.time >= engine.latest.value.time
    ensures engine.observed.Some? ==>
          PositionAfter(u.block, u.log, engine.observed.value.block, engine.observed.value.log)
    ensures engine.Apply(u) == engine.(flow := Last(engine.flow + [u.trade], engine.window), latest := Some(u))
  {
    hide Probability, Features.Depth, Trade.Valid, Last;
  }

  lemma ApplyTracks(t: Trace, u: Update)
    requires Tracks(t) && t.engine.Refusal(u).None?
    ensures Tracks(Step(t, DoApply(u)))
  {
    hide Last, Ascending, State.Refusal, State.Apply;
    Accepted(t.engine, u);
    AscendingPush(t.accepted, u);
    WindowSlides(Slots(t.accepted), u.trade, t.engine.window);
    assert Slots(t.accepted + [u]) == Slots(t.accepted) + [u.trade];
  }

  lemma ApplyKeepsOne(engine: State, history: seq<Update>, u: Update, p: Point, s: Snapshot)
    requires HonestAt(engine, history, p, s) && engine.Refusal(u).None?
    ensures HonestAt(engine.Apply(u), history + [u], p, s)
  {
    hide Last, State.Refusal, State.Apply, FeaturesAt;
    Accepted(engine, u);
    LaterIsInvisible(engine.market, engine.window, history, u, p);
  }

  lemma ApplyKeepsHonest(t: Trace, u: Update)
    requires Honest(t) && t.engine.Refusal(u).None?
    ensures Honest(Step(t, DoApply(u)))
  {
    hide State.Refusal, State.Apply, HonestAt;
    forall k | 0 <= k < |t.emitted|
      ensures HonestAt(t.engine.Apply(u), t.accepted + [u], t.emitted[k].0, t.emitted[k].1)
    {
      ApplyKeepsOne(t.engine, t.accepted, u, t.emitted[k].0, t.emitted[k].1);
    }
  }

  /** The new snapshot is the specification's, since everything accepted is visible at its point. */
  lemma SnapshotIsHonest(t: Trace, p: Point)
    requires Tracks(t) && t.engine.Peek(p).Ok?
    ensures HonestAt(t.engine.TakeSnapshot(p), t.accepted, p, t.engine.Peek(p).value)
  {
    hide SnapshotValue, Last;
    var last := |t.accepted| - 1;
    forall i | 0 <= i < |t.accepted|
      ensures AtOrBefore(t.accepted[i], p)
    {
      if i < last {
        assert PositionAfter(t.accepted[last].block, t.accepted[last].log, t.accepted[i].block, t.accepted[i].log);
      }
    }
    AllVisible(t.accepted, p);
  }

  lemma SnapshotKeepsOne(engine: State, history: seq<Update>, at: Point, p: Point, s: Snapshot)
    requires HonestAt(engine, history, p, s)
    ensures HonestAt(engine.TakeSnapshot(at), history, p, s)
  {
    hide FeaturesAt, State.Peek;
  }

  lemma SnapshotKeeps(t: Trace, p: Point)
    requires Tracks(t) && Honest(t) && t.engine.Peek(p).Ok?
    ensures Tracks(Step(t, DoSnapshot(p))) && Honest(Step(t, DoSnapshot(p)))
  {
    hide HonestAt, Last, State.Peek, SnapshotValue;
    var t' := Step(t, DoSnapshot(p));
    SnapshotIsHonest(t, p);
    forall k | 0 <= k < |t'.emitted|
      ensures HonestAt(t'.engine, t'.accepted, t'.emitted[k].0, t'.emitted[k].1)
    {
      if k < |t.emitted| { SnapshotKeepsOne(t.engine, t.accepted, p, t.emitted[k].0, t.emitted[k].1); }
    }
  }

  lemma {:induction false} RunKeeps(market: string, window: nat, calls: seq<Call>)
    ensures var t := Run(market, window, calls);
            Tracks(t) && Honest(t) && t.engine.market == market && t.engine.window == window
  {
    if calls != [] {
      var before := Run(market, window, calls[..|calls| - 1]);
      RunKeeps(market, window, calls[..|calls| - 1]);
      match calls[|calls| - 1]
      case DoApply(u) => if before.engine.Refusal(u).None? {
          ApplyTracks(before, u);
          ApplyKeepsHonest(before, u);
        }
      case DoSnapshot(p) => if before.engine.Peek(p).Ok? { SnapshotKeeps(before, p); }
    }
  }

  // ----- Main results -----

  /**
    No look-ahead.  In any run of Apply and Snapshot calls, accepted or refused,
    every snapshot equals the specification evaluated on the run's entire final
    history, of which only the updates at or before the snapshot's position are
    visible.  Whatever was accepted after it cannot have mattered.
   */
  lemma NoLookAhead(market: string, window: nat, calls: seq<Call>, k: nat)
    requires k < |Run(market, window, calls).emitted|
    ensures var t := Run(market, window, calls);
            FeaturesAt(market, window, t.accepted, t.emitted[k].0) == Ok(t.emitted[k].1)
  {
    RunKeeps(market, window, calls);
  }

  /** Two snapshots of one run at the same point are equal, whatever happened between them. */
  lemma SnapshotsAtOnePointAgree(market: string, window: nat, calls: seq<Call>, j: nat, k: nat)
    requires var emitted := Run(market, window, calls).emitted;
             j < |emitted| && k < |emitted| && emitted[j].0 == emitted[k].0
    ensures Run(market, window, calls).emitted[j].1 == Run(market, window, calls).emitted[k].1
  {
    NoLookAhead(market, window, calls, j);
    NoLookAhead(market, window, calls, k);
  }

  /** The window holds exactly the last min(window, n) slots of all n accepted updates, no-trade slots included. */
  lemma WindowIsTheRecentPast(market: string, window: nat, calls: seq<Call>)
    ensures var t := Run(market, window, calls);
            && t.engine.flow == Last(Slots(t.accepted), window)
            && |t.engine.flow| == if |t.accepted| < window then |t.accepted| else window
  {
    RunKeeps(market, window, calls);
  }

  /** An update accepted after a snapshot lies beyond it: strictly later in position and not earlier in time. */
  lemma LaterUpdatesAreLater(market: string, window: nat, calls: seq<Call>, k: nat, u: Update)
    requires k < |Run(market, window, calls).emitted|
    requires Run(market, window, calls).engine.Refusal(u).None?
    ensures var p := Run(market, window, calls).emitted[k].0;
            PositionAfter(u.block, u.log, p.block, p.log) && u.time >= p.time
  {
    hide FeaturesAt, Run;
    RunKeeps(market, window, calls);
    var t := Run(market, window, calls);
    assert HonestAt(t.engine, t.accepted, t.emitted[k].0, t.emitted[k].1);
  }

  /** Nanoseconds left until the resolution: none once it is due, and a Duration cannot exceed int64. */
  function Remaining(time: int, resolution: int): nat {
    if resolution <= time then 0 else if resolution - time < TWO63 then resolution - time else TWO63 - 1
  }

  /** What the five values of a snapshot mean, without the code that computes them. */
  ghost predicate Means(s: Snapshot, p: Point, latest: Update, trades: seq<Trade>) {
    var yes, no := Volume(trades, TRADE_YES), Volume(trades, TRADE_NO);
    && s.market == p.market && s.block == p.block && s.log == p.log && s.time == p.time
    && s.resolution == latest.resolution && s.finality == latest.finality
    && s.probability * (latest.yesReserve + latest.noReserve) == latest.noReserve && 0.0 <= s.probability <= 1.0
    && s.imbalance * (yes + no) == yes - no && -1.0 <= s.imbalance <= 1.0 && (trades == [] ==> s.imbalance == 0.0)
    && s.depth <= latest.yesReserve && s.depth <= latest.noReserve && s.depth in {latest.yesReserve, latest.noReserve}
    && s.secondsToResolution * 1000000000.0 == Remaining(s.time, s.resolution) as real
    && s.blockLag == s.block - latest.block
  }

  lemma SnapshotMeans(market: string, latest: Update, flow: seq<Option<Trade>>, p: Point)
    requires SnapshotValue(market, latest, flow, p).Ok?
    ensures Means(SnapshotValue(market, latest, flow, p).value, p, latest, Trades(flow))
  {
    hide Probability, Imbalance, SecondsTo, Volume, Trades;
    ProbabilityMeans(latest.yesReserve, latest.noReserve);
    ImbalanceMeans(Trades(flow));
    SecondsMean(p.time, latest.resolution);
  }

  lemma ProbabilityMeans(yes: real, no: real)
    requires Probability(yes, no).Ok?
    ensures Probability(yes, no).value * (yes + no) == no && 0.0 <= Probability(yes, no).value <= 1.0
  {
    ProbabilityRange(yes, no);
  }

  lemma ImbalanceMeans(trades: seq<Trade>)
    requires Imbalance(trades).Ok?
    ensures var r, yes, no := Imbalance(trades).value, Volume(trades, TRADE_YES), Volume(trades, TRADE_NO);
            r * (yes + no) == yes - no && -1.0 <= r <= 1.0 && (trades == [] ==> r == 0.0)
  {
    ImbalanceRange(trades);
    VolumeBounds(trades, TRADE_YES);
  }

  lemma SecondsMean(time: int, resolution: int)
    ensures SecondsTo(time, resolution) * 1000000000.0 == Remaining(time, resolution) as real
  {
  }

  /** Every emitted snapshot has the five meanings, for the updates visible at its point and their last slots. */
  lemma EmittedSnapshotsMean(market: string, window: nat, calls: seq<Call>, k: nat)
    requires k < |Run(market, window, calls).emitted|
    ensures var t := Run(market, window, calls);
            var (p, s) := t.emitted[k];
            var visible := Visible(t.accepted, p);
            visible != [] && Means(s, p, visible[|visible| - 1], Trades(Last(Slots(visible), window)))
  {
    hide Run, Means, SnapshotValue, Visible, Last, Slots;
    NoLookAhead(market, window, calls, k);
    var t := Run(market, window, calls);
    var p := t.emitted[k].0;
    var visible := Visible(t.accepted, p);
    SnapshotMeans(market, visible[|visible| - 1], Last(Slots(visible), window), p);
  }

  // ----- Batches -----

  function Interleaved(steps: seq<BatchStep>): seq<Call> {
    if steps == [] then []
    else
      var step := steps[|steps| - 1];
      Interleaved(steps[..|steps| - 1]) + [DoApply(step.update)] + [DoSnapshot(step.point)]
  }

  function Updates(steps: seq<BatchStep>): (us: seq<Update>)
    ensures |us| == |steps|
  {
    seq(|steps|, i requires 0 <= i < |steps| => steps[i].update)
  }

  lemma RunSnoc(market: string, window: nat, calls: seq<Call>, call: Call)
    ensures Run(market, window, calls + [call]) == Step(Run(market, window, calls), call)
  {
    assert (calls + [call])[..|calls|] == calls;
  }

  /** A run accepted the updates of the steps and emitted their snapshots. */
  ghost predicate Mirrors(t: Trace, done: (State, seq<Snapshot>), steps: seq<BatchStep>) {
    && t.engine == done.0 && t.accepted == Updates(steps) && |t.emitted| == |done.1| == |steps|
    && forall k | 0 <= k < |steps| :: t.emitted[k] == (steps[k].point, done.1[k])
  }

  lemma MirrorsStep(t: Trace, done: (State, seq<Snapshot>), steps: seq<BatchStep>, step: BatchStep)
    requires Mirrors(t, done, steps) && done.0.Refusal(step.update).None?
    requires done.0.Apply(step.update).Peek(step.point).Ok?
    ensures var applied := done.0.Apply(step.update);
            Mirrors(Step(Step(t, DoApply(step.update)), DoSnapshot(step.point)),
                    (applied.TakeSnapshot(step.point), done.1 + [applied.Peek(step.point).value]), steps + [step])
  {
    hide State.Refusal, State.Apply, State.Peek, State.TakeSnapshot;
    assert Updates(steps + [step]) == Updates(steps) + [step.update];
  }

  lemma BatchSnoc(engine: State, init: seq<BatchStep>, step: BatchStep)
    requires Batch(engine, init + [step]).Ok?
    ensures Batch(engine, init).Ok?
    ensures var before := Batch(engine, init).value;
            var applied := before.0.Apply(step.update);
            && before.0.Refusal(step.update).None? && applied.Peek(step.point).Ok?
            && Batch(engine, init + [step]).value
               == (applied.TakeSnapshot(step.point), before.1 + [applied.Peek(step.point).value])
  {
    hide State.Refusal, State.Apply, State.Peek, State.TakeSnapshot;
    assert (init + [step])[..|init|] == init;
  }

  lemma InterleavedSnoc(market: string, window: nat, init: seq<BatchStep>, step: BatchStep)
    ensures Run(market, window, Interleaved(init + [step]))
         == Step(Step(Run(market, window, Interleaved(init)), DoApply(step.update)), DoSnapshot(step.point))
  {
    hide Step, Run;
    var calls := Interleaved(init);
    assert (init + [step])[..|init|] == init;
    RunSnoc(market, window, calls, DoApply(step.update));
    RunSnoc(market, window, calls + [DoApply(step.update)], DoSnapshot(step.point));
  }

  /** The run of a successful batch mirrors it. */
  ghost predicate BatchMirrored(market: string, window: nat, steps: seq<BatchStep>) {
    var batch := Batch(NewState(market, window), steps);
    batch.Ok? ==> Mirrors(Run(market, window, Interleaved(steps)), batch.value, steps)
  }

  lemma NothingMirrors(market: string, window: nat)
    ensures BatchMirrored(market, window, [])
  {
  }

  lemma OneMoreStep(market: string, window: nat, init: seq<BatchStep>, step: BatchStep)
    requires BatchMirrored(market, window, init)
    ensures BatchMirrored(market, window, init + [step])
  {
    hide State.Refusal, State.Apply, State.Peek, State.TakeSnapshot, Run, Mirrors, Step, Batch, Interleaved;
    if Batch(NewState(market, window), init + [step]).Ok? {
      BatchSnoc(NewState(market, window), init, step);
      InterleavedSnoc(market, window, init, step);
      MirrorsStep(Run(market, window, Interleaved(init)), Batch(NewState(market, window), init).value, init, step);
    }
  }

  lemma {:induction false} BatchIsRun(market: string, window: nat, steps: seq<BatchStep>)
    ensures BatchMirrored(market, window, steps)
  {
    hide BatchMirrored;
    if steps == [] {
      NothingMirrors(market, window);
    } else {
      var init, step := steps[..|steps| - 1], steps[|steps| - 1];
      BatchIsRun(market, window, init);
      OneMoreStep(market, window, init, step);
      assert init + [step] == steps;
    }
  }

  /**
    A batch replay is point-in-time too: each of its snapshots equals the features
    at its point given all updates of the whole batch, later ones included.
   */
  lemma BatchIsPointInTime(market: string, window: nat, steps: seq<BatchStep>, k: nat)
    requires Batch(NewState(market, window), steps).Ok? && k < |steps|
    ensures var snapshots := Batch(NewState(market, window), steps).value.1;
            |snapshots| == |steps| && FeaturesAt(market, window, Updates(steps), steps[k].point) == Ok(snapshots[k])
  {
    BatchIsRun(market, window, steps);
    NoLookAhead(market, window, Interleaved(steps), k);
  }
}
