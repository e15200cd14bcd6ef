/** From the contract to the dataset: the logs the fixture contract can emit always project. */
module ContractLaws {
  import opened Types
  import opened Chain
  import opened ChainLaws
  import opened Codec
  import opened Rows
  import opened Projection
  import opened Convert
  import Fixture
  import F = Features
  import E = Engine

  // ----- Entries that carry a contract log -----

  predicate IsUpdate(e: Entry) {
    e.event.Some? && !e.event.value.MarketResolved?
  }

  predicate IsResolution(e: Entry) {
    e.event.Some? && e.event.value.MarketResolved?
  }

  predicate SameMarket(a: Entry, b: Entry) {
    a.event.Some? && b.event.Some? && a.event.value.market == b.event.value.market
  }

  function Id(e: Entry): string
    requires e.event.Some?
  {
    HexValue(e.event.value.market)
  }

  predicate InNanoRange(t: uint64) {
    t * 1000000000 < TWO63
  }

  predicate EntryOk(e: Entry) {
    && e.event.Some? && e.finality <= FINALIZED && InNanoRange(e.timestamp)
    && Fixture.EmissionOk(Fixture.Emission(e.timestamp, e.event.value))
  }

  predicate LawfulPair(a: Entry, b: Entry)
    requires a.event.Some? && b.event.Some?
  {
    Fixture.PairOk(Fixture.Emission(a.timestamp, a.event.value), Fixture.Emission(b.timestamp, b.event.value))
  }

  /** A contract log, at any positions. */
  predicate Lawful(es: seq<Entry>) {
    && (forall i | 0 <= i < |es| :: EntryOk(es[i]))
    && (forall i, j | 0 <= i < j < |es| :: LawfulPair(es[i], es[j]))
  }

  /** `b` is at a strictly later position. */
  predicate Ahead(a: Entry, b: Entry) {
    E.PositionAfter(b.block, b.log, a.block, a.log)
  }

  /** Every two updates of one market ascend. */
  predicate OwnAscend(es: seq<Entry>) {
    forall i, j | 0 <= i < j < |es| && IsUpdate(es[i]) && IsUpdate(es[j]) && SameMarket(es[i], es[j]) ::
      Ahead(es[i], es[j])
  }

  /** The market of entry `i` is resolved. */
  predicate Resolvable(es: seq<Entry>, i: nat)
    requires i < |es|
  {
    exists k :: 0 <= k < |es| && IsResolution(es[k]) && SameMarket(es[i], es[k])
  }

  /** Every two updates of resolved markets ascend, whichever markets they are. */
  predicate ResolvedAscend(es: seq<Entry>) {
    forall i, j | 0 <= i < j < |es| && IsUpdate(es[i]) && IsUpdate(es[j]) && Resolvable(es, i) && Resolvable(es, j) ::
      Ahead(es[i], es[j])
  }

  predicate Before(a: Entry, b: Entry)
    requires a.event.Some? && b.event.Some?
  {
    LawfulPair(a, b) && (IsUpdate(a) && IsUpdate(b) && SameMarket(a, b) ==> Ahead(a, b))
  }

  /** A contract log in which each market's own updates ascend. */
  predicate Orderly(es: seq<Entry>) {
    && (forall i | 0 <= i < |es| :: EntryOk(es[i]))
    && (forall i, j | 0 <= i < j < |es| :: Before(es[i], es[j]))
  }

  lemma OrderlyExactly(es: seq<Entry>)
    ensures Orderly(es) <==> Lawful(es) && OwnAscend(es)
  {
    hide EntryOk, LawfulPair, Ahead;
    if forall i | 0 <= i < |es| :: EntryOk(es[i]) {
      forall i | 0 <= i < |es|
        ensures es[i].event.Some?
      {
        EntryOkHasEvent(es[i]);
      }
      if Orderly(es) { assert forall i, j | 0 <= i < j < |es| :: Before(es[i], es[j]); }
    }
  }

  lemma EntryOkHasEvent(e: Entry)
    requires EntryOk(e)
    ensures e.event.Some?
  {
  }

  /** The promised export: a valid dataset, or an empty one exactly when no updated market is resolved. */
  predicate Promised(es: seq<Entry>, window: int) {
    if SomeLabelled(es) then ProjectEntries(es, window).Ok? && Valid(ProjectEntries(es, window).value)
    else ProjectEntries(es, window) == Err(DatasetFailed(EmptyDataset))
  }

  /** Some market with an indexed update is resolved. */
  predicate SomeLabelled(es: seq<Entry>) {
    exists i, j :: 0 <= i < |es| && 0 <= j < |es| && IsUpdate(es[i]) && IsResolution(es[j]) && SameMarket(es[i], es[j])
  }

  // ----- One entry -----

  predicate FlowValid(flow: seq<Option<F.Trade>>) {
    forall i | 0 <= i < |flow| :: flow[i].Some? ==> flow[i].value.Valid()
  }

  lemma {:induction false} TradesValid(flow: seq<Option<F.Trade>>)
    requires FlowValid(flow)
    ensures F.AllValid(E.Trades(flow))
  {
    if flow != [] { TradesValid(flow[..|flow| - 1]); }
  }

  /** The engine's latest update is entry `e`, observed at its own position. */
  predicate LatestIs(engine: E.State, e: Entry) {
    && IsUpdate(e) && engine.market == Id(e) && FlowValid(engine.flow)
    && engine.latest == Some(UpdateOf(e, e.event.value)) && engine.observed == Some(PointOf(e, e.event.value))
  }

  predicate Unused(engine: E.State, market: string) {
    engine.market == market && engine.flow == [] && engine.latest.None? && engine.observed.None?
  }

  /** The snapshot of an update entry. */
  predicate SnapshotIs(s: E.Snapshot, e: Entry) {
    && IsUpdate(e) && s.market == Id(e) && s.block == e.block && s.log == e.log && s.time == Instant(e.timestamp)
    && s.resolution == Instant(e.event.value.resolutionTime) && s.finality == e.finality && 0.0 <= s.probability <= 1.0
  }

  lemma UpdateAccepted(engine: E.State, last: Option<Entry>, e: Entry)
    requires EntryOk(e) && IsUpdate(e)
    requires last.None? ==> Unused(engine, Id(e))
    requires last.Some? ==> LatestIs(engine, last.value) && EntryOk(last.value) && Before(last.value, e)
    requires last.Some? ==> SameMarket(last.value, e)
    ensures var u := UpdateOf(e, e.event.value);
            && engine.Refusal(u).None? && FlowValid(engine.Apply(u).flow)
            && (last.Some? ==> Instant(last.value.timestamp) <= Instant(e.timestamp))
  {
    hide HexValue;
    var event, u := e.event.value, UpdateOf(e, e.event.value);
    F.ProbabilityRange(u.yesReserve, u.noReserve);
    assert u.trade.Some? ==> u.trade.value.Valid();
    assert last.Some? ==> Instant(last.value.timestamp) <= Instant(e.timestamp);
    assert FlowValid(engine.flow + [u.trade]);
  }

  lemma UpdateObserved(applied: E.State, e: Entry)
    requires EntryOk(e) && IsUpdate(e) && applied.market == Id(e) && FlowValid(applied.flow)
    requires applied.latest == Some(UpdateOf(e, e.event.value))
    ensures applied.Peek(PointOf(e, e.event.value)).Ok?
    ensures SnapshotIs(applied.Peek(PointOf(e, e.event.value)).value, e)
  {
    hide HexValue, F.Imbalance, F.Probability;
    var u := UpdateOf(e, e.event.value);
    F.ProbabilityRange(u.yesReserve, u.noReserve);
    TradesValid(applied.flow);
    F.ImbalanceRange(E.Trades(applied.flow));
  }

  lemma FedEngine(engine: E.State, last: Option<Entry>, e: Entry)
    requires EntryOk(e) && IsUpdate(e)
    requires last.None? ==> Unused(engine, Id(e))
    requires last.Some? ==> LatestIs(engine, last.value) && EntryOk(last.value) && Before(last.value, e)
    requires last.Some? ==> SameMarket(last.value, e)
    ensures var r := ApplyAndSnapshot(engine, UpdateOf(e, e.event.value), PointOf(e, e.event.value));
            r.Ok? && LatestIs(r.value.0, e) && SnapshotIs(r.value.1, e)
  {
    hide HexValue, FlowValid, SnapshotIs, EntryOk, E.State.Refusal, E.SnapshotValue, E.Last;
    UpdateAccepted(engine, last, e);
    UpdateObserved(engine.Apply(UpdateOf(e, e.event.value)), e);
  }

  // ----- The replay -----

  /** What the replay of the first `k` entries holds; `origin` names the entry behind each snapshot. */
  ghost predicate Replayed(es: seq<Entry>, k: nat, st: Replay, origin: seq<nat>)
    requires k <= |es|
  {
    EnginesOk(es, k, st) && SnapshotsOk(es, k, st, origin) && LabelsOk(es, k, st)
  }

  /** The engine and schedule kept under `id` are those of update entry `e`. */
  predicate KeptFrom(st: Replay, id: string, e: Entry) {
    && id in st.engines && id in st.schedules && LatestIs(st.engines[id], e) && Id(e) == id
    && st.schedules[id] == Instant(e.event.value.resolutionTime)
  }

  ghost predicate EnginesOk(es: seq<Entry>, k: nat, st: Replay)
    requires k <= |es|
  {
    && st.engines.Keys == st.schedules.Keys
    && (forall id | id in st.engines :: exists i :: 0 <= i < k && KeptFrom(st, id, es[i]))
    && (forall i | 0 <= i < k && IsUpdate(es[i]) :: Id(es[i]) in st.engines)
  }

  ghost predicate SnapshotsOk(es: seq<Entry>, k: nat, st: Replay, origin: seq<nat>)
    requires k <= |es|
  {
    && |origin| == |st.snapshots|
    && (forall a | 0 <= a < |origin| :: origin[a] < k && SnapshotIs(st.snapshots[a], es[origin[a]]))
    && (forall a, b | 0 <= a < b < |origin| :: origin[a] < origin[b])
    && (forall i | 0 <= i < k && IsUpdate(es[i]) :: i in origin)
  }

  /** The label of a market is that of its one resolution, and its schedule that of its updates. */
  predicate LabelIs(es: seq<Entry>, k: nat, id: string, known: Label, j: nat)
    requires k <= |es|
  {
    && j < k && IsResolution(es[j]) && Id(es[j]) == id && known.available == Instant(es[j].timestamp)
    && forall i | 0 <= i < k && IsUpdate(es[i]) && Id(es[i]) == id ::
       known.scheduled == Instant(es[i].event.value.resolutionTime)
  }

  ghost predicate HasLabel(es: seq<Entry>, k: nat, id: string, known: Label)
    requires k <= |es|
  {
    exists j :: LabelIs(es, k, id, known, j)
  }

  ghost predicate LabelsOk(es: seq<Entry>, k: nat, st: Replay)
    requires k <= |es|
  {
    && (forall id | id in st.labels :: HasLabel(es, k, id, st.labels[id]))
    && (forall j | 0 <= j < k && IsResolution(es[j]) && Id(es[j]) in st.schedules :: Id(es[j]) in st.labels)
  }

  lemma OneMarket(a: Entry, b: Entry)
    requires a.event.Some? && b.event.Some?
    ensures SameMarket(a, b) <==> Id(a) == Id(b)
  {
    if Id(a) == Id(b) { HexValueInjective(a.event.value.market, b.event.value.market); }
  }

  /** Nothing of a market comes after its resolution, and its updates share one resolution time. */
  lemma MarketLife(es: seq<Entry>, i: nat, j: nat)
    requires Orderly(es) && i < |es| && j < |es| && i != j && Id(es[i]) == Id(es[j])
    ensures IsUpdate(es[i]) && IsUpdate(es[j]) ==> es[i].event.value.resolutionTime == es[j].event.value.resolutionTime
    ensures IsUpdate(es[i]) && IsResolution(es[j]) ==>
              i < j && es[i].event.value.resolutionTime <= es[j].timestamp
    ensures !(IsResolution(es[i]) && IsResolution(es[j]))
  {
    hide HexValue;
    OneMarket(es[i], es[j]);
    if i < j { assert Before(es[i], es[j]); } else { assert Before(es[j], es[i]); }
  }

  lemma WhatIsKept(st: Replay, id: string, e: Entry)
    requires KeptFrom(st, id, e)
    ensures id in st.engines && id in st.schedules && LatestIs(st.engines[id], e) && IsUpdate(e) && Id(e) == id
    ensures st.schedules[id] == Instant(e.event.value.resolutionTime)
  {
  }

  lemma StillKept(st: Replay, st': Replay, id: string, e: Entry)
    requires KeptFrom(st, id, e) && id in st'.engines && id in st'.schedules
    requires st'.engines[id] == st.engines[id] && st'.schedules[id] == st.schedules[id]
    ensures KeptFrom(st', id, e)
  {
  }

  lemma NewlyKept(st: Replay, id: string, e: Entry, s: E.Snapshot)
    requires IsUpdate(e) && id == Id(e) && id in st.engines && id in st.schedules
    requires LatestIs(st.engines[id], e) && SnapshotIs(s, e) && st.schedules[id] == s.resolution
    ensures KeptFrom(st, id, e)
  {
  }

  lemma FeedSucceeds(es: seq<Entry>, k: nat, st: Replay, window: int) returns (fed: (E.State, E.Snapshot))
    requires Orderly(es) && k < |es| && EnginesOk(es, k, st) && IsUpdate(es[k]) && window > 0
    ensures LatestIs(fed.0, es[k]) && SnapshotIs(fed.1, es[k])
    ensures var id := Id(es[k]);
            Feed(st, es[k], es[k].event.value, window)
            == Ok(Replay(st.engines[id := fed.0], st.snapshots + [fed.1], st.labels,
              st.schedules[id := fed.1.resolution]))
  {
    hide HexValue, LatestIs, SnapshotIs, ApplyAndSnapshot, EntryOk, Before, KeptFrom;
    var e := es[k];
    var id := Id(e);
    var engine := EngineFor(st, id, window).value;
    var last: Option<Entry> := None;
    if id in st.engines {
      var i :| 0 <= i < k && KeptFrom(st, id, es[i]);
      WhatIsKept(st, id, es[i]);
      OneMarket(es[i], e);
      last := Some(es[i]);
    } else {
      assert Unused(engine, id);
    }
    FedEngine(engine, last, e);
    fed := ApplyAndSnapshot(engine, UpdateOf(e, e.event.value), PointOf(e, e.event.value)).value;
  }

  lemma FeedKeepsEngines(es: seq<Entry>, k: nat, st: Replay, fed: (E.State, E.Snapshot))
    requires Orderly(es) && k < |es| && EnginesOk(es, k, st) && IsUpdate(es[k])
    requires LatestIs(fed.0, es[k]) && SnapshotIs(fed.1, es[k])
    ensures var id := Id(es[k]);
            EnginesOk(es, k + 1,
              Replay(st.engines[id := fed.0], st.snapshots + [fed.1], st.labels, st.schedules[id := fed.1.resolution]))
  {
    hide HexValue, LatestIs, SnapshotIs, EntryOk, Before, KeptFrom;
    var id := Id(es[k]);
    var st' := Replay(st.engines[id := fed.0], st.snapshots + [fed.1], st.labels, st.schedules[id := fed.1.resolution]);
    forall m | m in st'.engines
      ensures exists i :: 0 <= i < k + 1 && KeptFrom(st', m, es[i])
    {
      if m == id {
        NewlyKept(st', id, es[k], fed.1);
      } else {
        var i :| 0 <= i < k && KeptFrom(st, m, es[i]);
        WhatIsKept(st, m, es[i]);
        StillKept(st, st', m, es[i]);
      }
    }
  }

  lemma FeedKeepsSnapshots(es: seq<Entry>, k: nat, st: Replay, origin: seq<nat>, fed: (E.State, E.Snapshot),
      st': Replay)
    requires k < |es| && SnapshotsOk(es, k, st, origin) && IsUpdate(es[k]) && SnapshotIs(fed.1, es[k])
    requires st'.snapshots == st.snapshots + [fed.1]
    ensures SnapshotsOk(es, k + 1, st', origin + [k])
  {
    hide SnapshotIs;
    var origin' := origin + [k];
    assert origin'[|origin|] == k;
    assert forall a | 0 <= a < |origin| :: origin'[a] == origin[a] && st'.snapshots[a] == st.snapshots[a];
    forall i | 0 <= i < k + 1 && IsUpdate(es[i])
      ensures i in origin'
    {
      if i < k { assert i in origin; }
    }
  }

  lemma FeedKeepsLabels(es: seq<Entry>, k: nat, st: Replay, st': Replay)
    requires Orderly(es) && k < |es| && LabelsOk(es, k, st) && IsUpdate(es[k])
    requires st'.labels == st.labels && (forall id | id in st'.schedules :: id in st.schedules || id == Id(es[k]))
    ensures LabelsOk(es, k + 1, st')
  {
    hide HexValue, Orderly;
    forall id | id in st'.labels
      ensures HasLabel(es, k + 1, id, st'.labels[id])
    {
      var j: nat :| LabelIs(es, k, id, st.labels[id], j);
      if Id(es[k]) == id { MarketLife(es, k, j); }
      assert LabelIs(es, k + 1, id, st'.labels[id], j);
    }
    forall j | 0 <= j < k + 1 && IsResolution(es[j]) && Id(es[j]) in st'.schedules
      ensures Id(es[j]) in st'.labels
    {
      if Id(es[k]) == Id(es[j]) { MarketLife(es, k, j); }
    }
  }

  lemma UpdateStep(es: seq<Entry>, k: nat, st: Replay, origin: seq<nat>, window: int)
    requires Orderly(es) && k < |es| && Replayed(es, k, st, origin) && IsUpdate(es[k]) && window > 0
    ensures StepEntry(st, es[k], window).Ok?
    ensures Replayed(es, k + 1, StepEntry(st, es[k], window).value, origin + [k])
  {
    hide HexValue, EnginesOk, SnapshotsOk, LabelsOk, LatestIs, SnapshotIs, Orderly;
    var fed := FeedSucceeds(es, k, st, window);
    var st' := StepEntry(st, es[k], window).value;
    FeedKeepsEngines(es, k, st, fed);
    FeedKeepsSnapshots(es, k, st, origin, fed, st');
    FeedKeepsLabels(es, k, st, st');
  }

  lemma ResolutionKeepsLabels(es: seq<Entry>, k: nat, st: Replay)
    requires Orderly(es) && k < |es| && LabelsOk(es, k, st) && EnginesOk(es, k, st) && IsResolution(es[k])
    ensures LabelsOk(es, k + 1, Resolve(st, es[k], es[k].event.value))
  {
    hide HexValue, Orderly, LatestIs, KeptFrom;
    var st' := Resolve(st, es[k], es[k].event.value);
    forall id | id in st'.labels
      ensures HasLabel(es, k + 1, id, st'.labels[id])
    {
      if id == Id(es[k]) && id in st.schedules {
        var from :| 0 <= from < k && KeptFrom(st, id, es[from]);
        WhatIsKept(st, id, es[from]);
        forall i | 0 <= i < k + 1 && IsUpdate(es[i]) && Id(es[i]) == id
          ensures st'.labels[id].scheduled == Instant(es[i].event.value.resolutionTime)
        {
          if i != from { MarketLife(es, i, from); }
        }
        assert LabelIs(es, k + 1, id, st'.labels[id], k);
      } else {
        var j: nat :| LabelIs(es, k, id, st.labels[id], j);
        assert LabelIs(es, k + 1, id, st'.labels[id], j);
      }
    }
  }

  lemma ResolutionStep(es: seq<Entry>, k: nat, st: Replay, origin: seq<nat>, window: int)
    requires Orderly(es) && k < |es| && Replayed(es, k, st, origin) && IsResolution(es[k])
    ensures StepEntry(st, es[k], window).Ok?
    ensures Replayed(es, k + 1, StepEntry(st, es[k], window).value, origin)
  {
    hide HexValue, Orderly, KeptFrom, SnapshotIs, LabelsOk, LabelIs;
    ResolutionKeepsLabels(es, k, st);
    var st' := StepEntry(st, es[k], window).value;
    assert EnginesOk(es, k + 1, st') by {
      forall id | id in st.engines
        ensures exists i :: 0 <= i < k + 1 && KeptFrom(st', id, es[i])
      {
        var i :| 0 <= i < k && KeptFrom(st, id, es[i]);
        WhatIsKept(st, id, es[i]);
        StillKept(st, st', id, es[i]);
      }
    }
    assert SnapshotsOk(es, k + 1, st', origin);
  }

  lemma EntryStep(es: seq<Entry>, k: nat, st: Replay, origin: seq<nat>, window: int) returns (origin': seq<nat>)
    requires Orderly(es) && k < |es| && Replayed(es, k, st, origin) && window > 0
    ensures StepEntry(st, es[k], window).Ok?
    ensures Replayed(es, k + 1, StepEntry(st, es[k], window).value, origin')
  {
    hide StepEntry, Replayed, Before;
    AllEntriesOk(es, k);
    if IsUpdate(es[k]) {
      UpdateStep(es, k, st, origin, window);
      origin' := origin + [k];
    } else {
      ResolutionStep(es, k, st, origin, window);
      origin' := origin;
    }
  }

  lemma NothingReplayed(es: seq<Entry>, window: int)
    ensures ReplayAll(es[..0], window) == Ok(EMPTY_REPLAY) && Replayed(es, 0, EMPTY_REPLAY, [])
  {
  }

  lemma {:induction false} ReplaySucceeds(es: seq<Entry>, k: nat, window: int) returns (origin: seq<nat>)
    requires Orderly(es) && k <= |es| && window > 0
    ensures ReplayAll(es[..k], window).Ok?
    ensures Replayed(es, k, ReplayAll(es[..k], window).value, origin)
  {
    hide StepEntry, Replayed, Orderly, ReplayFrom;
    if k == 0 {
      origin := [];
      NothingReplayed(es, window);
    } else {
      origin := ReplaySucceeds(es, k - 1, window);
      StepInside(EMPTY_REPLAY, es, k - 1, window);
      origin := EntryStep(es, k - 1, ReplayAll(es[..k - 1], window).value, origin, window);
    }
  }

  // ----- The rows -----

  lemma NotBlank(e: Entry)
    requires e.event.Some?
    ensures !GoBlank(Id(e))
  {
    hide HexEncode;
    assert Id(e)[0] == '0';
  }

  lemma InstantInRange(t: uint64)
    requires InNanoRange(t)
    ensures Instant(t) == t * 1000000000 && InInt64(Instant(t))
  {
  }

  /** A snapshot of a labelled market makes a valid row. */
  lemma RowOfSnapshot(es: seq<Entry>, i: nat, j: nat, s: E.Snapshot, known: Label)
    requires Orderly(es) && i < |es| && SnapshotIs(s, es[i]) && LabelIs(es, |es|, s.market, known, j)
    ensures s.resolution == known.scheduled && RowOk(Row(s, known.available, known.outcome))
  {
    hide HexValue, GoBlank, Orderly, LabelIs;
    LabelPosition(es, s.market, known, j);
    AllEntriesOk(es, i);
    AllEntriesOk(es, j);
    LabelSchedule(es, s.market, known, j, i);
    MarketLife(es, i, j);
    NotBlank(es[i]);
    InstantInRange(es[i].timestamp);
    InstantInRange(es[j].timestamp);
    InstantInRange(es[i].event.value.resolutionTime);
  }

  lemma AllEntriesOk(es: seq<Entry>, i: nat)
    requires Orderly(es) && i < |es|
    ensures EntryOk(es[i])
  {
  }

  lemma LabelPosition(es: seq<Entry>, id: string, known: Label, j: nat)
    requires LabelIs(es, |es|, id, known, j)
    ensures j < |es| && IsResolution(es[j]) && Id(es[j]) == id && known.available == Instant(es[j].timestamp)
  {
  }

  lemma LabelSchedule(es: seq<Entry>, id: string, known: Label, j: nat, i: nat)
    requires LabelIs(es, |es|, id, known, j) && i < |es| && IsUpdate(es[i]) && Id(es[i]) == id
    ensures known.scheduled == Instant(es[i].event.value.resolutionTime)
  {
  }

  lemma ResolvedStep(ss: seq<E.Snapshot>, labels: Labels)
    requires ss != []
    ensures var n := |ss| - 1;
            var before := Resolved(ss[..n], labels);
            Resolved(ss, labels) == if ss[n].market in labels then before + [ss[n]] else before
  {
  }

  /** The resolved snapshots are a subsequence that misses no labelled market. */
  lemma {:induction false} ResolvedOrigin(ss: seq<E.Snapshot>, labels: Labels) returns (at: seq<nat>)
    ensures |at| == |Resolved(ss, labels)|
    ensures forall a | 0 <= a < |at| ::
          at[a] < |ss| && Resolved(ss, labels)[a] == ss[at[a]] && ss[at[a]].market in labels
    ensures forall a, b | 0 <= a < b < |at| :: at[a] < at[b]
    ensures forall k | 0 <= k < |ss| && ss[k].market in labels :: k in at
  {
    at := [];
    if ss != [] {
      var n := |ss| - 1;
      var before := ResolvedOrigin(ss[..n], labels);
      ResolvedStep(ss, labels);
      hide Resolved;
      PicksSnoc(ss[..n], labels, Resolved(ss[..n], labels), before, ss[n]);
      assert ss[..n] + [ss[n]] == ss;
      at := if ss[n].market in labels then before + [n] else before;
      assert Picks(ss, labels, Resolved(ss, labels), at);
    }
  }

  /** The list picks out, in order and by position, what is labelled. */
  ghost predicate Picks(ss: seq<E.Snapshot>, labels: Labels, picked: seq<E.Snapshot>, at: seq<nat>) {
    && |at| == |picked|
    && (forall a | 0 <= a < |at| :: at[a] < |ss| && picked[a] == ss[at[a]] && ss[at[a]].market in labels)
    && (forall a, b | 0 <= a < b < |at| :: at[a] < at[b])
    && (forall k | 0 <= k < |ss| && ss[k].market in labels :: k in at)
  }

  lemma PicksSnoc(ss: seq<E.Snapshot>, labels: Labels, picked: seq<E.Snapshot>, at: seq<nat>, s: E.Snapshot)
    requires Picks(ss, labels, picked, at)
    ensures if s.market in labels then Picks(ss + [s], labels, picked + [s], at + [|ss|])
            else Picks(ss + [s], labels, picked, at)
  {
    if s.market in labels {
      forall k | 0 <= k < |ss + [s]| && (ss + [s])[k].market in labels
        ensures k in at + [|ss|]
      {
        if k < |ss| { assert ss[k].market in labels; }
      }
    }
  }

  /** Resolved rows exist exactly when some market with an indexed update is resolved. */
  lemma ResolvedExactly(es: seq<Entry>, st: Replay, origin: seq<nat>)
    requires Orderly(es) && Replayed(es, |es|, st, origin)
    ensures Resolved(st.snapshots, st.labels) != [] <==> SomeLabelled(es)
  {
    hide HexValue, Resolved, Orderly, LabelIs, KeptFrom;
    var at := ResolvedOrigin(st.snapshots, st.labels);
    if SomeLabelled(es) {
      var i, j :| 0 <= i < |es| && 0 <= j < |es| && IsUpdate(es[i]) && IsResolution(es[j]) && SameMarket(es[i], es[j]);
      OneMarket(es[i], es[j]);
      var a :| 0 <= a < |origin| && origin[a] == i;
      assert st.snapshots[a].market == Id(es[j]) && Id(es[j]) in st.schedules.Keys;
      assert a in at;
    }
    if Resolved(st.snapshots, st.labels) != [] {
      var a := at[0];
      var id := st.snapshots[a].market;
      assert HasLabel(es, |es|, id, st.labels[id]);
      var j: nat :| LabelIs(es, |es|, id, st.labels[id], j);
      LabelPosition(es, id, st.labels[id], j);
      OneMarket(es[origin[a]], es[j]);
    }
  }

  /** Rows built from resolved snapshots satisfy every check of the validator. */
  lemma RowsAreValid(es: seq<Entry>, st: Replay, origin: seq<nat>, at: seq<nat>, resolved: seq<E.Snapshot>,
      labels: Labels)
    requires Orderly(es) && ResolvedAscend(es) && Replayed(es, |es|, st, origin) && resolved != []
    requires |at| == |resolved| && forall a, b | 0 <= a < b < |at| :: at[a] < at[b]
    requires forall a | 0 <= a < |at| ::
          at[a] < |st.snapshots| && resolved[a] == st.snapshots[at[a]] && resolved[a].market in st.labels
    requires forall a | 0 <= a < |at| ::
          resolved[a].market in labels && labels[resolved[a].market] == st.labels[resolved[a].market]
    ensures Valid(Attach(resolved, labels))
    ensures forall a | 0 <= a < |resolved| :: resolved[a].resolution == labels[resolved[a].market].scheduled
  {
    hide HexValue, LabelIs, EnginesOk, RowOk, SnapshotIs, EntryOk, Before, Ahead, Resolvable;
    var rows := Attach(resolved, labels);
    forall a | 0 <= a < |rows|
      ensures RowOk(rows[a]) && resolved[a].resolution == labels[resolved[a].market].scheduled
      ensures IsUpdate(es[origin[at[a]]]) && Resolvable(es, origin[at[a]])
    {
      var id := resolved[a].market;
      assert HasLabel(es, |es|, id, st.labels[id]);
      var j: nat :| LabelIs(es, |es|, id, st.labels[id], j);
      RowOfSnapshot(es, origin[at[a]], j, resolved[a], st.labels[id]);
      LabelledIsResolvable(es, origin[at[a]], resolved[a], st.labels[id], j);
    }
    forall a | 1 <= a < |rows|
      ensures Follows(rows[a - 1], rows[a])
    {
      var i, k := origin[at[a - 1]], origin[at[a]];
      SnapshotsFollow(es[i], es[k], resolved[a - 1], resolved[a]);
    }
  }

  lemma SnapshotsFollow(a: Entry, b: Entry, s: E.Snapshot, t: E.Snapshot)
    requires EntryOk(a) && EntryOk(b) && Before(a, b) && Ahead(a, b) && SnapshotIs(s, a) && SnapshotIs(t, b)
    ensures E.PositionAfter(t.block, t.log, s.block, s.log) && t.time >= s.time
  {
    hide HexValue;
    InstantInRange(a.timestamp);
    InstantInRange(b.timestamp);
  }

  lemma LabelledIsResolvable(es: seq<Entry>, i: nat, s: E.Snapshot, known: Label, j: nat)
    requires i < |es| && SnapshotIs(s, es[i]) && LabelIs(es, |es|, s.market, known, j)
    ensures IsUpdate(es[i]) && Resolvable(es, i)
  {
    hide HexValue;
    OneMarket(es[i], es[j]);
  }

  lemma FinishesValid(es: seq<Entry>, st: Replay, origin: seq<nat>)
    requires Orderly(es) && ResolvedAscend(es) && Replayed(es, |es|, st, origin)
    ensures if SomeLabelled(es) then Finish(st).Ok? && Valid(Finish(st).value) && Finish(st).value != []
            else Finish(st) == Err(DatasetFailed(EmptyDataset))
  {
    hide Orderly, ResolvedAscend, Replayed, Valid, Attach, Resolved, SomeLabelled;
    ResolvedExactly(es, st, origin);
    var resolved, used := Resolved(st.snapshots, st.labels), Used(st.snapshots, st.labels);
    if resolved != [] {
      var at := ResolvedOrigin(st.snapshots, st.labels);
      assert forall a | 0 <= a < |resolved| :: resolved[a].market in MarketsOf(resolved);
      RowsAreValid(es, st, origin, at, resolved, used);
      AssembleExact(resolved, used);
    }
  }

  /** An orderly contract log whose resolved markets' updates ascend across markets exports as promised. */
  lemma OrderlyLogsProject(es: seq<Entry>, window: int)
    requires Orderly(es) && ResolvedAscend(es) && window > 0
    ensures Promised(es, window)
  {
    hide Orderly, ResolvedAscend, Replayed, Valid, Finish, SomeLabelled, ReplayFrom;
    var origin := ReplaySucceeds(es, |es|, window);
    assert es[..|es|] == es;
    FinishesValid(es, ReplayAll(es, window).value, origin);
  }

  // ----- Contract runs in a store -----

  /** The stored events decode to the emissions `log`, and each block's timestamp is that of its events. */
  predicate Carries(es: seq<Entry>, log: seq<Fixture.Emission>) {
    |es| == |log| && forall i | 0 <= i < |es| :: es[i].event == Some(log[i].event) && es[i].timestamp == log[i].time
  }

  /** Entries ascend in position. */
  predicate Ascends(es: seq<Entry>) {
    forall i, j | 0 <= i < j < |es| :: E.PositionAfter(es[j].block, es[j].log, es[i].block, es[i].log)
  }

  lemma {:induction false} EntriesAscend(decode: EventDecoder, c: Chain, k: nat)
    requires |c.finality| == |c.blocks| && k <= |c.blocks| && GapFree(c.blocks)
    requires forall i | 0 <= i < |c.blocks| :: LogIndexesAscend(c.blocks[i].events)
    ensures Ascends(EntriesBelow(decode, c, k))
    ensures forall i | 0 <= i < |EntriesBelow(decode, c, k)| ::
              k > 0 && EntriesBelow(decode, c, k)[i].block <= c.blocks[k - 1].number
  {
    if k > 0 {
      hide Chain.FinalityOf;
      EntriesAscend(decode, c, k - 1);
      var b := c.blocks[k - 1];
      assert k > 1 ==> c.blocks[k - 2].number < b.number;
      assert Ascends(BlockEntries(decode, b, c.FinalityOf(b.hash)));
    }
  }

  lemma AscendsIsInOrder(es: seq<Entry>)
    requires Ascends(es)
    ensures OwnAscend(es) && ResolvedAscend(es)
  {
    hide Resolvable, E.PositionAfter;
  }

  lemma LevelIsValid(c: Chain, h: Hash)
    requires |c.finality| == |c.blocks| && LevelsFall(c.finality)
    ensures c.FinalityOf(h) <= FINALIZED
  {
  }

  lemma CarriedIsLawful(es: seq<Entry>, log: seq<Fixture.Emission>)
    requires Carries(es, log) && Fixture.WellBehaved(log)
    requires forall i | 0 <= i < |es| :: es[i].finality <= FINALIZED && InNanoRange(es[i].timestamp)
    ensures Lawful(es)
  {
    hide Fixture.EmissionOk, Fixture.PairOk;
    assert forall i | 0 <= i < |es| :: log[i] == Fixture.Emission(es[i].timestamp, es[i].event.value);
  }

  /** The entries of a store that holds a suffix of a contract run's log. */
  lemma StoredRunIsLawful(decode: EventDecoder, c: Chain, txs: seq<Fixture.Transaction>, from: nat)
    requires |c.finality| == |c.blocks| && LevelsFall(c.finality)
    requires forall i | 0 <= i < |c.blocks| :: InNanoRange(c.blocks[i].timestamp)
    requires Fixture.InTime(txs) && from <= |Fixture.RunOf(txs).log|
    requires Carries(Entries(decode, c), Fixture.RunOf(txs).log[from..])
    ensures Lawful(Entries(decode, c))
  {
    hide EntriesBelow, Fixture.RunOf, Fixture.WellBehaved, Lawful;
    var log := Fixture.RunOf(txs).log;
    Fixture.RunIsGood(txs);
    Fixture.SuffixIsWellBehaved(log, from);
    EntriesInRange(decode, c, |c.blocks|);
    CarriedIsLawful(Entries(decode, c), log[from..]);
  }

  /**
    Contract runs always project.  Take any run of the fixture contract in which
    time does not run backward, and a store holding any suffix of its event log
    with ascending log indexes and timestamps in the nanosecond range.  With a
    positive flow window the projection gives a valid dataset, except that it
    reports an empty one exactly when no market with an indexed update is resolved.
   */
  lemma ContractRunsProject(
    decode: EventDecoder, c: Chain, window: int, txs: seq<Fixture.Transaction>, from: nat)
    requires |c.finality| == |c.blocks| && GapFree(c.blocks) && LevelsFall(c.finality) && window > 0
    requires forall i | 0 <= i < |c.blocks| ::
               LogIndexesAscend(c.blocks[i].events) && InNanoRange(c.blocks[i].timestamp)
    requires Fixture.InTime(txs) && from <= |Fixture.RunOf(txs).log|
    requires Carries(Entries(decode, c), Fixture.RunOf(txs).log[from..])
    ensures if SomeLabelled(Entries(decode, c))
            then Project(decode, c, window).Ok? && Valid(Project(decode, c, window).value)
            else Project(decode, c, window) == Err(DatasetFailed(EmptyDataset))
  {
    hide Valid, SomeLabelled, ProjectEntries, EntriesBelow, Fixture.RunOf, Orderly, Lawful, OwnAscend,
      ResolvedAscend, Ascends;
    var es := Entries(decode, c);
    StoredRunIsLawful(decode, c, txs, from);
    EntriesAscend(decode, c, |c.blocks|);
    AscendsIsInOrder(es);
    OrderlyExactly(es);
    OrderlyLogsProject(es, window);
  }

  lemma {:induction false} EntriesInRange(decode: EventDecoder, c: Chain, k: nat)
    requires |c.finality| == |c.blocks| && k <= |c.blocks| && LevelsFall(c.finality)
    requires forall i | 0 <= i < |c.blocks| :: InNanoRange(c.blocks[i].timestamp)
    ensures forall i | 0 <= i < |EntriesBelow(decode, c, k)| ::
              && EntriesBelow(decode, c, k)[i].finality <= FINALIZED
              && InNanoRange(EntriesBelow(decode, c, k)[i].timestamp)
  {
    if k > 0 {
      hide Chain.FinalityOf, LevelsFall, InNanoRange;
      EntriesInRange(decode, c, k - 1);
      LevelIsValid(c, c.blocks[k - 1].hash);
    }
  }
}
