/** internal/trainingdata/project.go: replaying the canonical store into labelled rows. */
module Projection {
  import opened Types
  import opened Digest
  import opened Chain
  import opened ChainStore
  import opened Codec
  import opened Rows
  import F = Features
  import E = Engine

  /** indexer.DecodeEvent on a stored event, whose JSON text is not modelled. */
  type EventDecoder = Event -> Option<MarketEvent>

  datatype ProjectError = DecodeFailed | FeatureFailed(cause: F.FeatureError) | DatasetFailed(fault: RowError)

  /** One canonical event with what its block says about it; no event means it does not decode. */
  datatype Entry = Entry(block: uint64, log: uint64, timestamp: uint64, finality: Level, event: Option<MarketEvent>)

  /** time.Unix(int64(t), 0) in nanoseconds. */
  function Instant(t: uint64): int {
    ToInt64(t) * 1000000000
  }

  // ----- The canonical event sequence -----

  function BlockEntries(decode: EventDecoder, b: Block, level: Level): (es: seq<Entry>)
    ensures |es| == |b.events|
  {
    seq(|b.events|, i requires 0 <= i < |b.events| =>
      Entry(b.number, b.events[i].logIndex, b.timestamp, level, decode(b.events[i])))
  }

  /** The entries of the first `k` blocks. */
  function EntriesBelow(decode: EventDecoder, c: Chain, k: nat): seq<Entry>
    requires |c.finality| == |c.blocks| && k <= |c.blocks|
  {
    if k == 0 then []
    else EntriesBelow(decode, c, k - 1) + BlockEntries(decode, c.blocks[k - 1], c.FinalityOf(c.blocks[k - 1].hash))
  }

  function Entries(decode: EventDecoder, c: Chain): seq<Entry>
    requires |c.finality| == |c.blocks|
  {
    EntriesBelow(decode, c, |c.blocks|)
  }

  // ----- Replay -----

  datatype Replay = Replay(
    engines: map<string, E.State>, snapshots: seq<E.Snapshot>, labels: Labels, schedules: map<string, int>)

  const EMPTY_REPLAY := Replay(map[], [], map[], map[])

  function TradeOf(e: MarketEvent): Option<F.Trade> {
    match e
    case Trade(_, _, yes, amount, _, _, _) => Some(F.Trade(if yes then F.TRADE_YES else F.TRADE_NO, amount as real))
    case _ => None
  }

  function UpdateOf(e: Entry, event: MarketEvent): E.Update
    requires !event.MarketResolved?
  {
    E.Update(HexValue(event.market), e.block, e.log, Instant(e.timestamp), event.yesReserve as real,
      event.noReserve as real,
             TradeOf(event), Instant(event.resolutionTime), e.finality)
  }

  function PointOf(e: Entry, event: MarketEvent): E.Point {
    E.Point(HexValue(event.market), e.block, e.log, Instant(e.timestamp))
  }

  /** The market's engine, made on its first update; a non-positive window is refused then. */
  function EngineFor(st: Replay, id: string, window: int): Result<E.State, ProjectError> {
    if id in st.engines then Ok(st.engines[id])
    else if window <= 0 then Err(FeatureFailed(F.InvalidWindow))
    else Ok(E.NewState(id, window))
  }

  /** applyAndSnapshot: the update is applied and observed at its own position. */
  function ApplyAndSnapshot(engine: E.State, u: E.Update, p: E.Point): Result<(E.State, E.Snapshot), ProjectError> {
    var refusal := engine.Refusal(u);
    if refusal.Some? then Err(FeatureFailed(refusal.value))
    else
      var applied := engine.Apply(u);
      match applied.Peek(p)
      case Err(e) => Err(FeatureFailed(e))
      case Ok(s) => Ok((applied.TakeSnapshot(p), s))
  }

  function Feed(st: Replay, e: Entry, event: MarketEvent, window: int): Result<Replay, ProjectError>
    requires !event.MarketResolved?
  {
    var id := HexValue(event.market);
    var engine := EngineFor(st, id, window);
    if engine.Err? then Err(engine.error)
    else
      match ApplyAndSnapshot(engine.value, UpdateOf(e, event), PointOf(e, event))
      case Err(error) => Err(error)
      case Ok(fed) =>
        Ok(Replay(st.engines[id := fed.0], st.snapshots + [fed.1], st.labels, st.schedules[id := fed.1.resolution]))
  }

  /** A resolution labels its market only if an update scheduled it before. */
  function Resolve(st: Replay, e: Entry, event: MarketEvent): Replay
    requires event.MarketResolved?
  {
    var id := HexValue(event.market);
    if id in st.schedules
      then st.(labels := st.labels[id := Label(st.schedules[id], Instant(e.timestamp), event.outcome)])
    else st
  }

  function StepEntry(st: Replay, e: Entry, window: int): Result<Replay, ProjectError> {
    if e.event.None? then Err(DecodeFailed)
    else if e.event.value.MarketResolved? then Ok(Resolve(st, e, e.event.value))
    else Feed(st, e, e.event.value, window)
  }

  function ReplayFrom(st: Result<Replay, ProjectError>, es: seq<Entry>, window: int): Result<Replay, ProjectError> {
    if es == [] then st
    else
      var before := ReplayFrom(st, es[..|es| - 1], window);
      if before.Err? then before else StepEntry(before.value, es[|es| - 1], window)
  }

  function ReplayAll(es: seq<Entry>, window: int): Result<Replay, ProjectError> {
    ReplayFrom(Ok(EMPTY_REPLAY), es, window)
  }

  /** The snapshots whose market has a label. */
  function Resolved(snapshots: seq<E.Snapshot>, labels: Labels): seq<E.Snapshot> {
    if snapshots == [] then []
    else Resolved(snapshots[..|snapshots| - 1], labels)
         + if snapshots[|snapshots| - 1].market in labels then [snapshots[|snapshots| - 1]] else []
  }

  /** The labels of the represented markets. */
  function Used(snapshots: seq<E.Snapshot>, labels: Labels): Labels {
    map m | m in labels && m in MarketsOf(Resolved(snapshots, labels)) :: labels[m]
  }

  function Finish(st: Replay): Result<seq<Row>, ProjectError> {
    match Assembled(Resolved(st.snapshots, st.labels), Used(st.snapshots, st.labels))
    case Ok(rows) => Ok(rows)
    case Err(fault) => Err(DatasetFailed(fault))
  }

  function ProjectEntries(es: seq<Entry>, window: int): Result<seq<Row>, ProjectError> {
    var st := ReplayAll(es, window);
    if st.Err? then Err(st.error) else Finish(st.value)
  }

  function Project(decode: EventDecoder, c: Chain, window: int): Result<seq<Row>, ProjectError>
    requires |c.finality| == |c.blocks|
  {
    ProjectEntries(Entries(decode, c), window)
  }

  // ----- ProjectCanonical -----

  /** The engine objects stand for the engine values of the replay. */
  ghost predicate Represents(engines: map<string, E.Engine>, st: Replay, limit: real)
    reads engines.Values
  {
    && engines.Keys == st.engines.Keys
    && (forall id | id in engines :: engines[id].View() == st.engines[id] && engines[id].limit == limit)
    && (forall a, b | a in engines && b in engines && a != b :: engines[a] != engines[b])
  }

  lemma {:induction false} ReplayConcat(st: Result<Replay, ProjectError>, a: seq<Entry>, b: seq<Entry>, window: int)
    ensures ReplayFrom(st, a + b, window) == ReplayFrom(ReplayFrom(st, a, window), b, window)
  {
    if b == [] {
      assert a + b == a;
    } else {
      assert (a + b)[..|a + b| - 1] == a + b[..|b| - 1];
      ReplayConcat(st, a, b[..|b| - 1], window);
    }
  }

  lemma {:induction false} ReplayFails(st: Result<Replay, ProjectError>, a: seq<Entry>, window: int)
    requires st.Err?
    ensures ReplayFrom(st, a, window) == st
  {
    if a != [] { ReplayFails(st, a[..|a| - 1], window); }
  }

  /** The update is applied to the market's engine and observed at its own position. */
  method ApplyAndObserve(engine: E.Engine, u: E.Update, p: E.Point) returns (snapshot: Result<E.Snapshot, ProjectError>)
    requires engine.limit > 0.0
    modifies engine
    ensures match ApplyAndSnapshot(old(engine.View()), u, p)
            case Err(error) => snapshot == Err(error)
            case Ok(fed) => snapshot == Ok(fed.1) && engine.View() == fed.0
  {
    hide E.State.Refusal, E.State.Peek, E.State.Apply, E.State.TakeSnapshot;
    var refused := engine.Apply(u);
    if refused.Some? { return Err(FeatureFailed(refused.value)); }
    var taken := engine.TakeSnapshot(p);
    if taken.Err? { return Err(FeatureFailed(taken.error)); }
    return Ok(taken.value);
  }

  /** The market's engine is made on first use and kept in the map. */
  method KeepEngine(engines: map<string, E.Engine>, ghost st: Replay, limit: real, window: int, id: string)
    returns (engines': map<string, E.Engine>, error: Option<ProjectError>)
    requires limit > 0.0 && Represents(engines, st, limit)
    ensures forall o | o in engines'.Values :: o in engines.Values || fresh(o)
    ensures error.Some? ==> EngineFor(st, id, window) == Err(error.value)
    ensures error.None? ==>
              && EngineFor(st, id, window).Ok?
              && Represents(engines', st.(engines := st.engines[id := EngineFor(st, id, window).value]), limit)
  {
    engines', error := engines, None;
    if id !in engines {
      if window <= 0 { return engines, Some(FeatureFailed(F.InvalidWindow)); }
      var engine := new E.Engine(id, window, limit);
      engines' := engines[id := engine];
    }
  }

  /** Feeding one engine leaves the others as they were. */
  lemma OneEngineFed(engines: map<string, E.Engine>, before: Replay, after: Replay, limit: real, id: string)
    requires engines.Keys == before.engines.Keys == after.engines.Keys && id in engines
    requires forall a, b | a in engines && b in engines && a != b :: engines[a] != engines[b]
    requires forall k | k in engines :: engines[k].limit == limit
    requires forall k | k in engines && k != id :: engines[k].View() == before.engines[k] == after.engines[k]
    requires engines[id].View() == after.engines[id]
    ensures Represents(engines, after, limit)
  {
  }

  /** applyAndSnapshot on the engines of all markets. */
  method FeedEngine(engines: map<string, E.Engine>, ghost st: Replay, limit: real, window: int, e: Entry,
      event: MarketEvent)
    returns (engines': map<string, E.Engine>, snapshot: Result<E.Snapshot, ProjectError>)
    requires limit > 0.0 && Represents(engines, st, limit) && !event.MarketResolved?
    modifies engines.Values
    ensures forall o | o in engines'.Values :: o in engines.Values || fresh(o)
    ensures snapshot.Err? ==> Feed(st, e, event, window) == Err(snapshot.error)
    ensures snapshot.Ok? ==>
              && Feed(st, e, event, window).Ok?
              && Represents(engines', Feed(st, e, event, window).value, limit)
              && Feed(st, e, event, window).value.snapshots == st.snapshots + [snapshot.value]
              && Feed(st, e, event, window).value.schedules
                 == st.schedules[HexValue(event.market) := snapshot.value.resolution]
  {
    hide HexValue, ApplyAndSnapshot, E.Engine.View;
    var id := HexValue(event.market);
    var error;
    engines', error := KeepEngine(engines, st, limit, window, id);
    if error.Some? { return engines', Err(error.value); }
    ghost var kept := st.(engines := st.engines[id := EngineFor(st, id, window).value]);
    snapshot := ApplyAndObserve(engines'[id], UpdateOf(e, event), PointOf(e, event));
    if snapshot.Ok? { OneEngineFed(engines', kept, Feed(st, e, event, window).value, limit, id); }
  }

  /** The inner loop: the events of one block. */
  method ProjectBlock(
    decode: EventDecoder, b: Block, finality: Level, window: int, limit: real,
    engines: map<string, E.Engine>, snapshots: seq<E.Snapshot>, labels: Labels, schedules: map<string, int>,
      ghost st: Replay)
    returns (engines': map<string, E.Engine>, snapshots': seq<E.Snapshot>, labels': Labels,
             schedules': map<string, int>,
             error: Option<ProjectError>, ghost st': Replay)
    requires limit > 0.0 && Represents(engines, st, limit)
    requires snapshots == st.snapshots && labels == st.labels && schedules == st.schedules
    modifies engines.Values
    ensures forall o | o in engines'.Values :: o in engines.Values || fresh(o)
    ensures error.Some? ==> ReplayFrom(Ok(st), BlockEntries(decode, b, finality), window) == Err(error.value)
    ensures error.None? ==>
              && ReplayFrom(Ok(st), BlockEntries(decode, b, finality), window) == Ok(st')
              && Represents(engines', st', limit)
              && snapshots' == st'.snapshots && labels' == st'.labels && schedules' == st'.schedules
  {
    engines', snapshots', labels', schedules', st' := engines, snapshots, labels, schedules, st;
    error := None;
    ghost var es := BlockEntries(decode, b, finality);
    for j := 0 to |b.events|
      invariant forall o | o in engines'.Values :: o in engines.Values || fresh(o)
      invariant ReplayFrom(Ok(st), es[..j], window) == Ok(st')
      invariant Represents(engines', st', limit)
      invariant snapshots' == st'.snapshots && labels' == st'.labels && schedules' == st'.schedules
    {
      var canonical := b.events[j];
      var decoded := decode(canonical);
      var e := Entry(b.number, canonical.logIndex, b.timestamp, finality, decoded);
      StepInside(st, es, j, window);
      assert es[j] == e;
      if decoded.None? { return engines', snapshots', labels', schedules', Some(DecodeFailed), st'; }
      var event := decoded.value;
      if event.MarketResolved? {
        var id := HexValue(event.market);
        if id in schedules' {
          labels' := labels'[id := Label(schedules'[id], Instant(b.timestamp), event.outcome)];
        }
        st' := Resolve(st', e, event);
      } else {
        var snapshot;
        engines', snapshot := FeedEngine(engines', st', limit, window, e, event);
        if snapshot.Err? { return engines', snapshots', labels', schedules', Some(snapshot.error), st'; }
        snapshots' := snapshots' + [snapshot.value];
        schedules' := schedules'[HexValue(event.market) := snapshot.value.resolution];
        st' := Feed(st', e, event, window).value;
      }
    }
    assert es[..|b.events|] == es;
  }

  /** After a successful prefix, the next entry decides, and its failure is the failure of the whole. */
  lemma StepInside(st: Replay, es: seq<Entry>, j: nat, window: int)
    requires j < |es| && ReplayFrom(Ok(st), es[..j], window).Ok?
    ensures var next := StepEntry(ReplayFrom(Ok(st), es[..j], window).value, es[j], window);
            && ReplayFrom(Ok(st), es[..j + 1], window) == next
            && (next.Err? ==> ReplayFrom(Ok(st), es, window) == next)
  {
    hide StepEntry;
    assert es[..j + 1][..j] == es[..j] && es[..j + 1][j] == es[j];
    assert es == es[..j + 1] + es[j + 1..];
    ReplayConcat(Ok(st), es[..j + 1], es[j + 1..], window);
    var next := StepEntry(ReplayFrom(Ok(st), es[..j], window).value, es[j], window);
    if next.Err? { ReplayFails(next, es[j + 1..], window); }
  }

  lemma {:induction false} EntriesSplit(decode: EventDecoder, c: Chain, k: nat)
    requires |c.finality| == |c.blocks| && k <= |c.blocks|
    ensures exists rest :: Entries(decode, c) == EntriesBelow(decode, c, k) + rest
    decreases |c.blocks| - k
  {
    if k == |c.blocks| {
      assert Entries(decode, c) == EntriesBelow(decode, c, k) + [];
    } else {
      EntriesSplit(decode, c, k + 1);
      var rest :| Entries(decode, c) == EntriesBelow(decode, c, k + 1) + rest;
      var next := BlockEntries(decode, c.blocks[k], c.FinalityOf(c.blocks[k].hash));
      assert Entries(decode, c) == EntriesBelow(decode, c, k) + (next + rest);
    }
  }

  lemma FailsInside(decode: EventDecoder, c: Chain, k: nat, window: int)
    requires |c.finality| == |c.blocks| && k <= |c.blocks| && ReplayAll(EntriesBelow(decode, c, k), window).Err?
    ensures ReplayAll(Entries(decode, c), window) == ReplayAll(EntriesBelow(decode, c, k), window)
  {
    EntriesSplit(decode, c, k);
    var rest :| Entries(decode, c) == EntriesBelow(decode, c, k) + rest;
    ReplayConcat(Ok(EMPTY_REPLAY), EntriesBelow(decode, c, k), rest, window);
    ReplayFails(ReplayAll(EntriesBelow(decode, c, k), window), rest, window);
  }

  /** The last part of ProjectCanonical: rows for the resolved markets only. */
  method SelectResolved(snapshots: seq<E.Snapshot>, labels: Labels) returns (resolved: seq<E.Snapshot>, used: Labels)
    ensures resolved == Resolved(snapshots, labels) && used == Used(snapshots, labels)
  {
    resolved, used := [], map[];
    for i := 0 to |snapshots|
      invariant resolved == Resolved(snapshots[..i], labels)
      invariant used == Used(snapshots[..i], labels)
    {
      assert snapshots[..i + 1][..i] == snapshots[..i];
      var s := snapshots[i];
      if s.market in labels {
        ghost var before := resolved;
        resolved := resolved + [s];
        used := used[s.market := labels[s.market]];
        assert resolved[..|before| + 1] == resolved && resolved[..|before|] == before;
        MarketsPush(resolved, |before|);
      }
    }
    assert snapshots[..|snapshots|] == snapshots;
  }

  /** One block further: its entries are replayed from where the blocks below left off. */
  lemma NextBlock(decode: EventDecoder, c: Chain, k: nat, window: int, st: Replay)
    requires |c.finality| == |c.blocks| && k < |c.blocks| && ReplayAll(EntriesBelow(decode, c, k), window) == Ok(st)
    ensures var next := ReplayFrom(Ok(st), BlockEntries(decode, c.blocks[k], c.FinalityOf(c.blocks[k].hash)), window);
            && ReplayAll(EntriesBelow(decode, c, k + 1), window) == next
            && (next.Err? ==> ReplayAll(Entries(decode, c), window) == next)
  {
    hide StepEntry, Chain.FinalityOf, BlockEntries;
    ReplayConcat(Ok(EMPTY_REPLAY), EntriesBelow(decode, c, k),
                 BlockEntries(decode, c.blocks[k], c.FinalityOf(c.blocks[k].hash)), window);
    if ReplayAll(EntriesBelow(decode, c, k + 1), window).Err? { FailsInside(decode, c, k + 1, window); }
  }

  /** The outer loop: the blocks of the store, oldest first. */
  method ReplayStore(store: Store, decode: EventDecoder, window: int, limit: real)
    returns (snapshots: seq<E.Snapshot>, labels: Labels, error: Option<ProjectError>)
    requires limit > 0.0 && store.Valid()
    ensures var st := ReplayAll(Entries(decode, store.View()), window);
            if error.Some? then st == Err(error.value)
            else st.Ok? && st.value.snapshots == snapshots && st.value.labels == labels
  {
    hide BlockEntries, Chain.FinalityOf, Digest.Fold, EntriesBelow, ReplayFrom;
    ghost var c := store.View();
    var blocks := store.blocks;
    var engines: map<string, E.Engine>, schedules: map<string, int> := map[], map[];
    snapshots, labels, error := [], map[], None;
    ghost var st := EMPTY_REPLAY;
    NothingBelow(decode, c, window);
    for i := 0 to |blocks|
      invariant store.View() == c && error.None?
      invariant forall o | o in engines.Values :: fresh(o)
      invariant ReplayAll(EntriesBelow(decode, c, i), window) == Ok(st)
      invariant Represents(engines, st, limit)
      invariant snapshots == st.snapshots && labels == st.labels && schedules == st.schedules
    {
      var finality := store.FinalityOf(blocks[i].hash);
      NextBlock(decode, c, i, window, st);
      engines, snapshots, labels, schedules, error, st :=
        ProjectBlock(decode, blocks[i], finality, window, limit, engines, snapshots, labels, schedules, st);
      if error.Some? { return; }
    }
  }

  lemma NothingBelow(decode: EventDecoder, c: Chain, window: int)
    requires |c.finality| == |c.blocks|
    ensures ReplayAll(EntriesBelow(decode, c, 0), window) == Ok(EMPTY_REPLAY)
  {
  }

  /** `limit` is the largest finite float64; no result depends on it. */
  method ProjectCanonical(store: Store?, decode: EventDecoder, window: int, limit: real)
    returns (r: Result<seq<Row>, ProjectError>)
    requires limit > 0.0 && (store != null ==> store.Valid())
    ensures store == null ==> r == Err(DatasetFailed(EmptyDataset))
    ensures store != null ==> r == Project(decode, store.View(), window)
  {
    hide Entries, ReplayAll, Digest.Fold, Assembled, Resolved, Used;
    if store == null { return Err(DatasetFailed(EmptyDataset)); }
    var snapshots, labels, error := ReplayStore(store, decode, window, limit);
    if error.Some? { return Err(error.value); }
    var resolved, used := SelectResolved(snapshots, labels);
    var rows := Assemble(resolved, used);
    if rows.Err? { return Err(DatasetFailed(rows.error)); }
    return Ok(rows.value);
  }
}
