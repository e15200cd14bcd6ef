/** What every exported row says: the features of its market's own past, and of nothing later. */
module PointInTime {
  import opened Types
  import opened Codec
  import opened Rows
  import opened Projection
  import opened ProjectionLaws
  import L = EngineLaws
  import E = Engine
  import F = Features

  predicate Updates(e: Entry, market: Bytes32) {
    Concerns(e, market) && !e.event.value.MarketResolved?
  }

  /** What the entry hands to the market's engine: its update, observed at its own position. */
  function StepOf(e: Entry, market: Bytes32): seq<E.BatchStep> {
    if Updates(e, market) then [E.BatchStep(UpdateOf(e, e.event.value), PointOf(e, e.event.value))] else []
  }

  /** The updates of one market among the entries, each with the point at which it is observed. */
  function StepsOf(es: seq<Entry>, market: Bytes32): seq<E.BatchStep> {
    if es == [] then [] else StepsOf(es[..|es| - 1], market) + StepOf(es[|es| - 1], market)
  }

  /** The market's part of a replay is the batch replay of its own updates. */
  ghost predicate IsBatch(st: Replay, id: string, window: int, steps: seq<E.BatchStep>) {
    var mine := OnlySnapshots(st.snapshots, id);
    if steps == [] then id !in st.engines && mine == []
    else
      && window > 0 && id in st.engines
      && E.Batch(E.NewState(id, window), steps) == Ok((st.engines[id], mine))
  }

  lemma ShareKeepsBatch(st: Replay, st': Replay, id: string, window: int, steps: seq<E.BatchStep>)
    requires Share(st', id) == Share(st, id) && IsBatch(st, id, window, steps)
    ensures IsBatch(st', id, window, steps)
  {
    hide E.Batch;
    var mine := Share(st, id).engines;
    assert id in st.engines <==> id in mine;
    assert id in st'.engines <==> id in mine;
    assert OnlySnapshots(st.snapshots, id) == Share(st', id).snapshots;
  }

  lemma BatchGrows(engine: E.State, steps: seq<E.BatchStep>, step: E.BatchStep, done: (E.State, seq<E.Snapshot>))
    requires E.Batch(engine, steps) == Ok(done) && ApplyAndSnapshot(done.0, step.update, step.point).Ok?
    ensures var fed := ApplyAndSnapshot(done.0, step.update, step.point).value;
            E.Batch(engine, steps + [step]) == Ok((fed.0, done.1 + [fed.1]))
  {
    hide E.State.Refusal, E.State.Apply, E.State.Peek, E.State.TakeSnapshot;
    assert (steps + [step])[..|steps|] == steps;
  }

  lemma FeedIsOneStep(st: Replay, e: Entry, market: Bytes32, window: int, steps: seq<E.BatchStep>)
    requires Updates(e, market) && Feed(st, e, e.event.value, window).Ok?
    requires IsBatch(st, HexValue(market), window, steps)
    ensures IsBatch(Feed(st, e, e.event.value, window).value, HexValue(market), window, steps + StepOf(e, market))
  {
    hide HexValue, ApplyAndSnapshot, E.Batch;
    var id := HexValue(market);
    var step := StepOf(e, market)[0];
    var engine := EngineFor(st, id, window).value;
    var mine := OnlySnapshots(st.snapshots, id);
    var fed := ApplyAndSnapshot(engine, step.update, step.point).value;
    FedSnapshotMarket(st, e, e.event.value, window);
    assert (st.snapshots + [fed.1])[..|st.snapshots|] == st.snapshots;
    if steps == [] { BatchOfNone(E.NewState(id, window)); }
    BatchGrows(E.NewState(id, window), steps, step, (engine, mine));
  }

  lemma BatchOfNone(engine: E.State)
    ensures E.Batch(engine, []) == Ok((engine, []))
  {
  }

  lemma ResolveKeepsBatch(st: Replay, e: Entry, id: string, window: int, steps: seq<E.BatchStep>)
    requires e.event.Some? && e.event.value.MarketResolved? && IsBatch(st, id, window, steps)
    ensures IsBatch(Resolve(st, e, e.event.value), id, window, steps)
  {
    hide E.Batch, HexValue;
  }

  lemma EntryIsOneStep(st: Replay, e: Entry, market: Bytes32, window: int, steps: seq<E.BatchStep>)
    requires StepEntry(st, e, window).Ok? && IsBatch(st, HexValue(market), window, steps)
    ensures IsBatch(StepEntry(st, e, window).value, HexValue(market), window, steps + StepOf(e, market))
  {
    hide HexValue, Feed, Resolve, Share, IsBatch;
    assert steps + [] == steps;
    if Updates(e, market) {
      FeedIsOneStep(st, e, market, window, steps);
    } else if Concerns(e, market) {
      ResolveKeepsBatch(st, e, HexValue(market), window, steps);
    } else {
      StepShares(st, e, market, window);
      ShareKeepsBatch(st, StepEntry(st, e, window).value, HexValue(market), window, steps);
    }
  }

  /** However the markets interleave, each one's part of the replay is the batch of its own updates. */
  lemma {:induction false} ReplayIsBatch(es: seq<Entry>, market: Bytes32, window: int)
    requires ReplayAll(es, window).Ok?
    ensures IsBatch(ReplayAll(es, window).value, HexValue(market), window, StepsOf(es, market))
  {
    hide StepEntry, StepOf, HexValue;
    if es != [] {
      hide IsBatch;
      var n := |es| - 1;
      ReplayIsBatch(es[..n], market, window);
      EntryIsOneStep(ReplayAll(es[..n], window).value, es[n], market, window, StepsOf(es[..n], market));
    }
  }

  /** The features of a market at one of its own updates, given all of its updates, later ones included. */
  function FeaturesOf(es: seq<Entry>, market: Bytes32, window: nat, k: nat): Result<E.Snapshot, F.FeatureError>
    requires k < |StepsOf(es, market)|
  {
    var steps := StepsOf(es, market);
    L.FeaturesAt(HexValue(market), window, L.Updates(steps), steps[k].point)
  }

  /**
    The replay never looks ahead.  A market has one snapshot per update, and the
    k-th is the features at that update's own point of all the updates the market
    ever gets, of which only those at or before the point are visible.
   */
  lemma ReplayIsPointInTime(es: seq<Entry>, market: Bytes32, window: int)
    requires ReplayAll(es, window).Ok?
    ensures var mine := OnlySnapshots(ReplayAll(es, window).value.snapshots, HexValue(market));
            && |mine| == |StepsOf(es, market)|
            && forall k | 0 <= k < |mine| :: window > 0 && FeaturesOf(es, market, window, k) == Ok(mine[k])
  {
    hide HexValue, ReplayAll, StepsOf, OnlySnapshots;
    ReplayIsBatch(es, market, window);
    if StepsOf(es, market) != [] {
      BatchOfMarket(HexValue(market), window, StepsOf(es, market));
    }
  }

  lemma BatchOfMarket(id: string, window: nat, steps: seq<E.BatchStep>)
    requires E.Batch(E.NewState(id, window), steps).Ok? && steps != []
    ensures var mine := E.Batch(E.NewState(id, window), steps).value.1;
            && |mine| == |steps|
            && forall k | 0 <= k < |mine| :: L.FeaturesAt(id, window, L.Updates(steps), steps[k].point) == Ok(mine[k])
  {
    hide E.Batch, L.FeaturesAt;
    L.BatchIsPointInTime(id, window, steps, 0);
    var mine := E.Batch(E.NewState(id, window), steps).value.1;
    forall k | 0 <= k < |mine|
      ensures L.FeaturesAt(id, window, L.Updates(steps), steps[k].point) == Ok(mine[k])
    {
      L.BatchIsPointInTime(id, window, steps, k);
    }
  }

  // ----- Labels -----

  predicate Resolves(e: Entry, market: Bytes32) {
    Concerns(e, market) && e.event.value.MarketResolved?
  }

  /** The market's last resolution that comes after an update, with the time that update scheduled. */
  function LabelOf(es: seq<Entry>, market: Bytes32): Option<Label> {
    if es == [] then None
    else
      var init, e := es[..|es| - 1], es[|es| - 1];
      var steps := StepsOf(init, market);
      if Resolves(e, market) && steps != [] then
        Some(Label(steps[|steps| - 1].update.resolution, Instant(e.timestamp), e.event.value.outcome))
      else LabelOf(init, market)
  }

  /** What the replay knows of the market's schedule and label. */
  ghost predicate IsKnown(st: Replay, id: string, steps: seq<E.BatchStep>, known: Option<Label>) {
    && (id in st.schedules <==> steps != [])
    && (steps != [] ==> st.schedules[id] == steps[|steps| - 1].update.resolution)
    && (id in st.labels <==> known.Some?)
    && (known.Some? ==> st.labels[id] == known.value)
  }

  lemma ShareKeepsKnown(st: Replay, st': Replay, id: string, steps: seq<E.BatchStep>, known: Option<Label>)
    requires Share(st', id) == Share(st, id) && IsKnown(st, id, steps, known)
    ensures IsKnown(st', id, steps, known)
  {
    var schedules, labels := Share(st, id).schedules, Share(st, id).labels;
    assert schedules == Share(st', id).schedules && labels == Share(st', id).labels;
    assert id in st.schedules <==> id in schedules;
    assert id in st'.schedules <==> id in schedules;
    assert id in st.labels <==> id in labels;
    assert id in st'.labels <==> id in labels;
  }

  lemma FedResolution(engine: E.State, u: E.Update, p: E.Point)
    requires ApplyAndSnapshot(engine, u, p).Ok?
    ensures ApplyAndSnapshot(engine, u, p).value.1.resolution == u.resolution
  {
    hide E.State.Refusal, F.Probability, F.Imbalance, F.Depth, F.BlockLag, E.Last, E.Trades;
  }

  lemma FeedKnows(st: Replay, e: Entry, market: Bytes32, window: int, steps: seq<E.BatchStep>, known: Option<Label>)
    requires Updates(e, market) && Feed(st, e, e.event.value, window).Ok?
    requires IsKnown(st, HexValue(market), steps, known)
    ensures IsKnown(Feed(st, e, e.event.value, window).value, HexValue(market), steps + StepOf(e, market), known)
  {
    hide HexValue, ApplyAndSnapshot;
    var engine := EngineFor(st, HexValue(market), window).value;
    FedResolution(engine, UpdateOf(e, e.event.value), PointOf(e, e.event.value));
  }

  lemma EntryKnows(es: seq<Entry>, e: Entry, st: Replay, market: Bytes32, window: int)
    requires StepEntry(st, e, window).Ok?
    requires IsKnown(st, HexValue(market), StepsOf(es, market), LabelOf(es, market))
    ensures IsKnown(StepEntry(st, e, window).value, HexValue(market), StepsOf(es + [e], market),
              LabelOf(es + [e], market))
  {
    hide HexValue, Feed, Share;
    var steps := StepsOf(es, market);
    assert (es + [e])[..|es|] == es && steps + [] == steps;
    if Updates(e, market) {
      FeedKnows(st, e, market, window, steps, LabelOf(es, market));
    } else if !Concerns(e, market) {
      StepShares(st, e, market, window);
      ShareKeepsKnown(st, StepEntry(st, e, window).value, HexValue(market), steps, LabelOf(es, market));
    }
  }

  lemma {:induction false} ReplayKnows(es: seq<Entry>, market: Bytes32, window: int)
    requires ReplayAll(es, window).Ok?
    ensures IsKnown(ReplayAll(es, window).value, HexValue(market), StepsOf(es, market), LabelOf(es, market))
  {
    hide StepEntry, HexValue;
    if es != [] {
      hide IsKnown, StepsOf, LabelOf;
      var n := |es| - 1;
      ReplayKnows(es[..n], market, window);
      EntryKnows(es[..n], es[n], ReplayAll(es[..n], window).value, market, window);
      assert es[..n] + [es[n]] == es;
    }
  }

  // ----- The exported rows -----

  lemma {:induction false} AllResolved(ss: seq<E.Snapshot>, id: string, labels: Labels)
    requires forall i | 0 <= i < |ss| :: ss[i].market == id
    ensures Resolved(ss, labels) == if id in labels then ss else []
  {
    if ss != [] {
      AllResolved(ss[..|ss| - 1], id, labels);
      assert ss[..|ss| - 1] + [ss[|ss| - 1]] == ss;
    }
  }

  lemma {:induction false} OnlyOfMarket(ss: seq<E.Snapshot>, id: string)
    ensures forall i | 0 <= i < |OnlySnapshots(ss, id)| :: OnlySnapshots(ss, id)[i].market == id
  {
    if ss != [] { OnlyOfMarket(ss[..|ss| - 1], id); }
  }

  /** The market's snapshots with its label, or nothing if it has none. */
  function RowsWith(ss: seq<E.Snapshot>, known: Option<Label>): (rows: seq<Row>)
    ensures |rows| == if known.Some? then |ss| else 0
  {
    if known.None? then [] else seq(|ss|, i requires 0 <= i < |ss| => RowWith(ss[i], known.value))
  }

  lemma FinishOfMarket(st: Replay, id: string)
    requires Finish(st).Ok?
    ensures OnlyRows(Finish(st).value, id)
         == RowsWith(OnlySnapshots(st.snapshots, id), if id in st.labels then Some(st.labels[id]) else None)
  {
    hide Assembled, Valid, Resolved, OnlySnapshots, OnlyRows;
    var resolved, used := Resolved(st.snapshots, st.labels), Used(st.snapshots, st.labels);
    AssembleExact(resolved, used);
    var mine := OnlySnapshots(st.snapshots, id);
    var share := map k | k in st.labels && k == id :: st.labels[k];
    ResolvedShares(st.snapshots, st.labels, id);
    OnlyOfMarket(st.snapshots, id);
    AllResolved(mine, id, share);
    AttachShares(resolved, used, used, id);
    assert OnlyRows(Finish(st).value, id) == Attach(OnlySnapshots(resolved, id), used);
  }

  /** The row of the market's k-th update: its features at its own point, and the market's label. */
  ghost predicate IsRowOf(es: seq<Entry>, market: Bytes32, window: int, k: nat, row: Row) {
    && window > 0 && k < |StepsOf(es, market)| && FeaturesOf(es, market, window, k) == Ok(row.snapshot)
    && LabelOf(es, market).Some? && row == RowWith(row.snapshot, LabelOf(es, market).value)
  }

  /**
    The dataset is point-in-time.  A market without a label has no rows; any other
    has one row per update, and the k-th holds the features at that update's own
    point and the market's label.
   */
  lemma RowsArePointInTime(es: seq<Entry>, market: Bytes32, window: int)
    requires ProjectEntries(es, window).Ok?
    ensures var mine := OnlyRows(ProjectEntries(es, window).value, HexValue(market));
            var known := LabelOf(es, market);
            && |mine| == (if known.Some? then |StepsOf(es, market)| else 0)
            && forall k | 0 <= k < |mine| :: IsRowOf(es, market, window, k, mine[k])
  {
    hide HexValue, ReplayAll, StepsOf, LabelOf, OnlySnapshots, OnlyRows, Finish, FeaturesOf;
    var st := ReplayAll(es, window).value;
    var id := HexValue(market);
    FinishOfMarket(st, id);
    ReplayKnows(es, market, window);
    ReplayIsPointInTime(es, market, window);
    var known := LabelOf(es, market);
    var snapshots := OnlySnapshots(st.snapshots, id);
    var mine := OnlyRows(ProjectEntries(es, window).value, id);
    assert mine == RowsWith(snapshots, known);
    forall k | 0 <= k < |mine|
      ensures IsRowOf(es, market, window, k, mine[k])
    {
      assert mine[k] == RowWith(snapshots[k], known.value);
    }
  }

  // ----- What a row's values mean -----

  lemma {:induction false} PastIsVisible(history: seq<E.Update>, k: nat, p: E.Point)
    requires L.Ascending(history) && k < |history| && p.block == history[k].block && p.log == history[k].log
    ensures L.Visible(history, p) == history[..k + 1]
  {
    var n := |history| - 1;
    if k == n {
      forall i | 0 <= i < |history|
        ensures L.AtOrBefore(history[i], p)
      {
        assert i < n ==> E.PositionAfter(history[n].block, history[n].log, history[i].block, history[i].log);
      }
      L.AllVisible(history, p);
    } else {
      PastIsVisible(history[..n], k, p);
      assert E.PositionAfter(history[n].block, history[n].log, history[k].block, history[k].log);
    }
  }

  lemma BatchAscends(id: string, window: nat, steps: seq<E.BatchStep>)
    requires E.Batch(E.NewState(id, window), steps).Ok?
    ensures L.Ascending(L.Updates(steps))
  {
    hide E.Batch, L.Run, L.Ascending, E.Last;
    L.BatchIsRun(id, window, steps);
    L.RunKeeps(id, window, L.Interleaved(steps));
  }

  /** The steps are observed where their updates happened. */
  lemma {:induction false} StepsAreObservedInPlace(es: seq<Entry>, market: Bytes32, k: nat)
    requires k < |StepsOf(es, market)|
    ensures var step := StepsOf(es, market)[k];
            step.point == E.Point(HexValue(market), step.update.block, step.update.log, step.update.time)
  {
    hide HexValue;
    if k < |StepsOf(es[..|es| - 1], market)| { StepsAreObservedInPlace(es[..|es| - 1], market, k); }
  }

  /**
    The values of the k-th row of a market have their arithmetic meanings for the
    k-th update itself and the trades among the last `window` of the first k + 1.
   */
  lemma RowsMean(es: seq<Entry>, market: Bytes32, window: int, k: nat)
    requires ProjectEntries(es, window).Ok?
    requires k < |OnlyRows(ProjectEntries(es, window).value, HexValue(market))|
    ensures var s := OnlyRows(ProjectEntries(es, window).value, HexValue(market))[k].snapshot;
            var steps := StepsOf(es, market);
            && IsRowOf(es, market, window, k, OnlyRows(ProjectEntries(es, window).value, HexValue(market))[k])
            && L.Means(s, steps[k].point, steps[k].update,
                 E.Trades(E.Last(L.Slots(L.Updates(steps)[..k + 1]), window)))
            && s.blockLag == 0
            && E.SnapshotValue(HexValue(market), steps[k].update,
                 E.Last(L.Slots(L.Updates(steps)[..k + 1]), window), steps[k].point) == Ok(s)
  {
    hide HexValue, ReplayAll, StepsOf, OnlyRows, Finish, L.Visible, E.SnapshotValue, L.Slots, E.Trades, E.Last,
      L.Ascending, E.Batch;
    RowsArePointInTime(es, market, window);
    assert IsRowOf(es, market, window, k, OnlyRows(ProjectEntries(es, window).value, HexValue(market))[k]);
    ReplayIsBatch(es, market, window);
    StepsAreObservedInPlace(es, market, k);
    var steps := StepsOf(es, market);
    BatchAscends(HexValue(market), window, steps);
    PastIsVisible(L.Updates(steps), k, steps[k].point);
    var past := L.Updates(steps)[..k + 1];
    assert past[|past| - 1] == steps[k].update;
    assert FeaturesOf(es, market, window, k)
        == E.SnapshotValue(HexValue(market), steps[k].update, E.Last(L.Slots(past), window), steps[k].point);
    L.SnapshotMeans(HexValue(market), steps[k].update, E.Last(L.Slots(past), window), steps[k].point);
  }

  // ----- Every row -----

  lemma {:induction false} RowIsInItsMarket(rows: seq<Row>, i: nat) returns (k: nat)
    requires i < |rows|
    ensures var mine := OnlyRows(rows, rows[i].Market()); k < |mine| && mine[k] == rows[i]
  {
    var n := |rows| - 1;
    if i == n {
      k := |OnlyRows(rows[..n], rows[n].Market())|;
    } else {
      k := RowIsInItsMarket(rows[..n], i);
    }
  }

  /** Every snapshot is of a market that has an identifier. */
  ghost predicate Named(ss: seq<E.Snapshot>) {
    forall i | 0 <= i < |ss| :: exists market: Bytes32 :: ss[i].market == HexValue(market)
  }

  lemma EntryNames(st: Replay, e: Entry, window: int)
    requires StepEntry(st, e, window).Ok? && Named(st.snapshots)
    ensures Named(StepEntry(st, e, window).value.snapshots)
  {
    hide HexValue;
    if !e.event.value.MarketResolved? {
      hide ApplyAndSnapshot;
      FedSnapshotMarket(st, e, e.event.value, window);
    }
  }

  lemma {:induction false} ReplayNames(es: seq<Entry>, window: int)
    requires ReplayAll(es, window).Ok?
    ensures Named(ReplayAll(es, window).value.snapshots)
  {
    hide StepEntry;
    if es != [] {
      hide Named;
      ReplayNames(es[..|es| - 1], window);
      EntryNames(ReplayAll(es[..|es| - 1], window).value, es[|es| - 1], window);
    }
  }

  lemma {:induction false} ResolvedIsNamed(ss: seq<E.Snapshot>, labels: Labels)
    requires Named(ss)
    ensures Named(Resolved(ss, labels))
  {
    if ss != [] {
      assert exists market: Bytes32 :: ss[|ss| - 1].market == HexValue(market);
      ResolvedIsNamed(ss[..|ss| - 1], labels);
    }
  }

  /** So every exported row, wherever it stands, holds the features of its market at its own point. */
  lemma EveryRowIsPointInTime(es: seq<Entry>, window: int, i: nat) returns (market: Bytes32, k: nat)
    requires ProjectEntries(es, window).Ok? && i < |ProjectEntries(es, window).value|
    ensures var row := ProjectEntries(es, window).value[i];
            && row.Market() == HexValue(market)
            && IsRowOf(es, market, window, k, row)
            && row.snapshot.block == StepsOf(es, market)[k].update.block
            && row.snapshot.log == StepsOf(es, market)[k].update.log
  {
    hide HexValue, ReplayAll, StepsOf, OnlyRows, FeaturesOf, Resolved, Used, Valid, LabelOf, L.Slots, E.Trades,
      E.Last;
    var rows := ProjectEntries(es, window).value;
    var st := ReplayAll(es, window).value;
    ReplayNames(es, window);
    ResolvedIsNamed(st.snapshots, st.labels);
    AssembleExact(Resolved(st.snapshots, st.labels), Used(st.snapshots, st.labels));
    market :| rows[i].Market() == HexValue(market);
    k := RowIsInItsMarket(rows, i);
    RowsArePointInTime(es, market, window);
    RowsMean(es, market, window, k);
    StepsAreObservedInPlace(es, market, k);
  }
}
