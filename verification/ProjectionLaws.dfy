/** What the projection does not depend on: other markets, and how the chain came about. */
module ProjectionLaws {
  import opened Types
  import opened Digest
  import opened Chain
  import opened ChainLaws
  import opened Codec
  import opened Rows
  import opened Projection
  import F = Features
  import E = Engine

  // ----- The finality column -----

  function EraseUpdate(u: E.Update): E.Update {
    u.(finality := SEEN)
  }

  function EraseEngine(e: E.State): E.State {
    e.(latest := if e.latest.Some? then Some(EraseUpdate(e.latest.value)) else None)
  }

  function EraseSnapshot(s: E.Snapshot): E.Snapshot {
    s.(finality := SEEN)
  }

  function EraseSnapshots(ss: seq<E.Snapshot>): (r: seq<E.Snapshot>)
    ensures |r| == |ss|
  {
    seq(|ss|, i requires 0 <= i < |ss| => EraseSnapshot(ss[i]))
  }

  function EraseReplay(st: Replay): Replay {
    Replay(EraseEngines(st.engines), EraseSnapshots(st.snapshots), st.labels, st.schedules)
  }

  function EraseEntry(e: Entry): Entry {
    e.(finality := SEEN)
  }

  /** The rows without their finality column. */
  function EraseRows(rows: seq<Row>): (r: seq<Row>)
    ensures |r| == |rows|
  {
    seq(|rows|, i requires 0 <= i < |rows| => rows[i].(snapshot := EraseSnapshot(rows[i].snapshot)))
  }

  predicate LevelsValid(es: seq<Entry>) {
    forall i | 0 <= i < |es| :: es[i].finality <= FINALIZED
  }

  /** Two event sequences that differ in their finality levels only. */
  predicate SameButFinality(a: seq<Entry>, b: seq<Entry>) {
    |a| == |b| && forall i | 0 <= i < |a| :: EraseEntry(a[i]) == EraseEntry(b[i])
  }

  lemma ApplyErased(engine: E.State, u: E.Update, p: E.Point)
    requires u.finality <= FINALIZED
    ensures var r, s := ApplyAndSnapshot(engine, u, p), ApplyAndSnapshot(EraseEngine(engine), EraseUpdate(u), p);
            && (r.Ok? <==> s.Ok?)
            && (r.Ok? ==> s.value == (EraseEngine(r.value.0), EraseSnapshot(r.value.1)))
  {
    hide F.Probability, F.Imbalance, F.Depth, F.BlockLag, E.Last, E.Trades;
  }

  function EraseEngines(engines: map<string, E.State>): map<string, E.State> {
    map id | id in engines :: EraseEngine(engines[id])
  }

  lemma EraseUpdated(engines: map<string, E.State>, id: string, engine: E.State)
    ensures EraseEngines(engines[id := engine]) == EraseEngines(engines)[id := EraseEngine(engine)]
  {
    hide EraseEngine;
  }

  lemma FeedErased(st: Replay, e: Entry, event: MarketEvent, window: int)
    requires e.finality <= FINALIZED && !event.MarketResolved?
    ensures var r, s := Feed(st, e, event, window), Feed(EraseReplay(st), EraseEntry(e), event, window);
            && (r.Ok? <==> s.Ok?)
            && (r.Ok? ==> s.value == EraseReplay(r.value))
  {
    hide HexValue, ApplyAndSnapshot, EraseEngines;
    var id := HexValue(event.market);
    var engine := EngineFor(st, id, window);
    EngineErased(st, id, window);
    if engine.Ok? {
      var u, p := UpdateOf(e, event), PointOf(e, event);
      ApplyErased(engine.value, u, p);
      var r := ApplyAndSnapshot(engine.value, u, p);
      if r.Ok? {
        EraseUpdated(st.engines, id, r.value.0);
        SnapshotErased(st.snapshots, r.value.1);
      }
    }
  }

  lemma SnapshotErased(ss: seq<E.Snapshot>, s: E.Snapshot)
    ensures EraseSnapshots(ss + [s]) == EraseSnapshots(ss) + [EraseSnapshot(s)]
  {
  }

  lemma EngineErased(st: Replay, id: string, window: int)
    ensures var r, s := EngineFor(st, id, window), EngineFor(EraseReplay(st), id, window);
            && (r.Ok? <==> s.Ok?)
            && (r.Ok? ==> s.value == EraseEngine(r.value))
  {
  }

  lemma StepErased(st: Replay, e: Entry, window: int)
    requires e.finality <= FINALIZED
    ensures var r, s := StepEntry(st, e, window), StepEntry(EraseReplay(st), EraseEntry(e), window);
            && (r.Ok? <==> s.Ok?)
            && (r.Ok? ==> s.value == EraseReplay(r.value))
  {
    hide HexValue, Feed, EraseEngines;
    if e.event.Some? && !e.event.value.MarketResolved? { FeedErased(st, e, e.event.value, window); }
  }

  lemma {:induction false} ReplayErased(a: seq<Entry>, b: seq<Entry>, window: int)
    requires SameButFinality(a, b) && LevelsValid(a) && LevelsValid(b)
    ensures ReplayAll(a, window).Ok? <==> ReplayAll(b, window).Ok?
    ensures ReplayAll(a, window).Ok? ==>
          EraseReplay(ReplayAll(a, window).value) == EraseReplay(ReplayAll(b, window).value)
  {
    hide StepEntry, EraseReplay;
    if a != [] {
      var n := |a| - 1;
      ReplayErased(a[..n], b[..n], window);
      if ReplayAll(a[..n], window).Ok? {
        StepErased(ReplayAll(a[..n], window).value, a[n], window);
        StepErased(ReplayAll(b[..n], window).value, b[n], window);
        assert EraseEntry(a[n]) == EraseEntry(b[n]);
      }
    }
  }

  lemma {:induction false} ResolvedErased(ss: seq<E.Snapshot>, labels: Labels)
    ensures Resolved(EraseSnapshots(ss), labels) == EraseSnapshots(Resolved(ss, labels))
  {
    if ss != [] {
      var n := |ss| - 1;
      ResolvedErased(ss[..n], labels);
      assert EraseSnapshots(ss)[..n] == EraseSnapshots(ss[..n]);
    }
  }

  lemma MarketsErased(ss: seq<E.Snapshot>)
    ensures MarketsOf(EraseSnapshots(ss)) == MarketsOf(ss)
  {
    forall i | 0 <= i < |ss|
      ensures EraseSnapshots(ss)[i].market in MarketsOf(ss)
      ensures ss[i].market in MarketsOf(EraseSnapshots(ss))
    {
    }
  }

  lemma ValidErased(rows: seq<Row>)
    requires forall i | 0 <= i < |rows| :: rows[i].snapshot.finality <= FINALIZED
    ensures Valid(rows) <==> Valid(EraseRows(rows))
  {
    var erased := EraseRows(rows);
    forall i | 0 <= i < |rows|
      ensures RowOk(rows[i]) <==> RowOk(erased[i])
      ensures i > 0 ==> (Follows(rows[i - 1], rows[i]) <==> Follows(erased[i - 1], erased[i]))
    {
    }
    forall i, j | 0 <= i < j < |rows|
      ensures OneLabel(rows[i], rows[j]) <==> OneLabel(erased[i], erased[j])
    {
    }
  }

  lemma AssembleErased(ss: seq<E.Snapshot>, labels: Labels)
    requires forall i | 0 <= i < |ss| :: ss[i].finality <= FINALIZED
    ensures Assembled(ss, labels).Ok? <==> Assembled(EraseSnapshots(ss), labels).Ok?
    ensures Assembled(ss, labels).Ok? ==>
          Assembled(EraseSnapshots(ss), labels).value == EraseRows(Assembled(ss, labels).value)
  {
    hide Assembled, Valid, MarketsOf;
    var erased := EraseSnapshots(ss);
    AssembleExact(ss, labels);
    AssembleExact(erased, labels);
    MarketsErased(ss);
    assert forall i | 0 <= i < |ss| :: erased[i].market == ss[i].market && erased[i].resolution == ss[i].resolution;
    assert Labelled(erased, labels) <==> Labelled(ss, labels);
    if Labelled(ss, labels) {
      assert Attach(erased, labels) == EraseRows(Attach(ss, labels));
      ValidErased(Attach(ss, labels));
    }
  }

  lemma {:induction false} SnapshotLevels(es: seq<Entry>, window: int)
    requires LevelsValid(es) && ReplayAll(es, window).Ok?
    ensures var st := ReplayAll(es, window).value;
            forall i | 0 <= i < |st.snapshots| :: st.snapshots[i].finality <= FINALIZED
  {
    if es != [] {
      SnapshotLevels(es[..|es| - 1], window);
    }
  }

  lemma {:induction false} ResolvedKeepsLevels(ss: seq<E.Snapshot>, labels: Labels)
    requires forall i | 0 <= i < |ss| :: ss[i].finality <= FINALIZED
    ensures forall i | 0 <= i < |Resolved(ss, labels)| :: Resolved(ss, labels)[i].finality <= FINALIZED
  {
    if ss != [] { ResolvedKeepsLevels(ss[..|ss| - 1], labels); }
  }

  lemma FinishErased(st: Replay)
    requires forall i | 0 <= i < |st.snapshots| :: st.snapshots[i].finality <= FINALIZED
    ensures Finish(st).Ok? <==> Finish(EraseReplay(st)).Ok?
    ensures Finish(st).Ok? ==> Finish(EraseReplay(st)).value == EraseRows(Finish(st).value)
  {
    hide Assembled;
    ResolvedErased(st.snapshots, st.labels);
    ResolvedKeepsLevels(st.snapshots, st.labels);
    MarketsErased(Resolved(st.snapshots, st.labels));
    assert Used(EraseSnapshots(st.snapshots), st.labels) == Used(st.snapshots, st.labels);
    AssembleErased(Resolved(st.snapshots, st.labels), Used(st.snapshots, st.labels));
  }

  /** Finality levels reach the rows through the finality column only. */
  lemma ProjectionIgnoresFinality(a: seq<Entry>, b: seq<Entry>, window: int)
    requires SameButFinality(a, b) && LevelsValid(a) && LevelsValid(b)
    ensures ProjectEntries(a, window).Ok? <==> ProjectEntries(b, window).Ok?
    ensures ProjectEntries(a, window).Ok? ==>
            EraseRows(ProjectEntries(a, window).value) == EraseRows(ProjectEntries(b, window).value)
  {
    hide Finish, EraseReplay, EraseRows;
    ReplayErased(a, b, window);
    if ReplayAll(a, window).Ok? {
      SnapshotLevels(a, window);
      SnapshotLevels(b, window);
      FinishErased(ReplayAll(a, window).value);
      FinishErased(ReplayAll(b, window).value);
    }
  }

  lemma {:induction false} EntriesOfSameBlocks(decode: EventDecoder, c: Chain, d: Chain, k: nat)
    requires |c.finality| == |c.blocks| && |d.finality| == |d.blocks| && c.blocks == d.blocks && k <= |c.blocks|
    requires LevelsFall(c.finality) && LevelsFall(d.finality)
    ensures SameButFinality(EntriesBelow(decode, c, k), EntriesBelow(decode, d, k))
    ensures LevelsValid(EntriesBelow(decode, c, k)) && LevelsValid(EntriesBelow(decode, d, k))
  {
    if k > 0 { EntriesOfSameBlocks(decode, c, d, k - 1); }
  }

  /**
    Reorg equals clean replay, seen from the dataset: after any run of store
    operations, projecting the store and projecting a fresh store fed the same
    blocks by Append alone succeed together and give the same rows, but for the
    finality column.
   */
  lemma DatasetEqualsCleanReplay(sha: Hasher, ops: seq<Op>, decode: EventDecoder, window: int)
    requires forall i | 0 <= i < |ops| :: BelowMax(ops[i].Blocks())
    ensures var c := Run(EmptyChain(sha), ops);
            var replayed := AppendAll(EmptyChain(sha), c.blocks).0;
            && |replayed.finality| == |replayed.blocks|
            && (Project(decode, c, window).Ok? <==> Project(decode, replayed, window).Ok?)
            && (Project(decode, c, window).Ok? ==>
                EraseRows(Project(decode, c, window).value) == EraseRows(Project(decode, replayed, window).value))
  {
    hide AppendAll, Run, ProjectEntries, EraseRows;
    RunKeeps(EmptyChain(sha), ops);
    var c := Run(EmptyChain(sha), ops);
    AppendsRebuild(sha, c.blocks);
    var replayed := AppendAll(EmptyChain(sha), c.blocks).0;
    EntriesOfSameBlocks(decode, c, replayed, |c.blocks|);
    ProjectionIgnoresFinality(Entries(decode, c), Entries(decode, replayed), window);
  }

  // ----- Other markets -----

  predicate Concerns(e: Entry, market: Bytes32) {
    e.event.Some? && e.event.value.market == market
  }

  /** The entries of one market. */
  function Only(es: seq<Entry>, market: Bytes32): seq<Entry> {
    if es == [] then []
    else Only(es[..|es| - 1], market) + if Concerns(es[|es| - 1], market) then [es[|es| - 1]] else []
  }

  function OnlySnapshots(ss: seq<E.Snapshot>, id: string): seq<E.Snapshot> {
    if ss == [] then []
    else OnlySnapshots(ss[..|ss| - 1], id) + if ss[|ss| - 1].market == id then [ss[|ss| - 1]] else []
  }

  function OnlyRows(rows: seq<Row>, id: string): seq<Row> {
    if rows == [] then []
    else OnlyRows(rows[..|rows| - 1], id) + if rows[|rows| - 1].Market() == id then [rows[|rows| - 1]] else []
  }

  /** The part of a replay that belongs to one market. */
  function Share(st: Replay, id: string): Replay {
    Replay(map k | k in st.engines && k == id :: st.engines[k], OnlySnapshots(st.snapshots, id),
           map k | k in st.labels && k == id :: st.labels[k], map k | k in st.schedules && k == id :: st.schedules[k])
  }

  /** The snapshot a feed emits carries the market of its event. */
  lemma FedSnapshotMarket(st: Replay, e: Entry, event: MarketEvent, window: int)
    requires !event.MarketResolved? && Feed(st, e, event, window).Ok?
    ensures var st' := Feed(st, e, event, window).value;
            && |st'.snapshots| == |st.snapshots| + 1 && st'.snapshots[..|st.snapshots|] == st.snapshots
            && st'.snapshots[|st.snapshots|].market == HexValue(event.market)
  {
    hide HexValue;
  }

  /** The part of a map that belongs to one key. */
  lemma ShareOfUpdate<T>(m: map<string, T>, key: string, value: T, id: string)
    ensures var mine := map k | k in m && k == id :: m[k];
            var updated := m[key := value];
            (map k | k in updated && k == id :: updated[k]) == if key == id then mine[key := value] else mine
  {
  }

  lemma FeedShares(st: Replay, e: Entry, event: MarketEvent, id: string, window: int)
    requires !event.MarketResolved? && Feed(st, e, event, window).Ok?
    ensures var st' := Feed(st, e, event, window).value;
            if HexValue(event.market) == id then Feed(Share(st, id), e, event, window) == Ok(Share(st', id))
            else Share(st', id) == Share(st, id)
  {
    hide HexValue, ApplyAndSnapshot;
    var key := HexValue(event.market);
    var engine := EngineFor(st, key, window).value;
    var fed := ApplyAndSnapshot(engine, UpdateOf(e, event), PointOf(e, event)).value;
    FedSnapshotMarket(st, e, event, window);
    ShareOfUpdate(st.engines, key, fed.0, id);
    ShareOfUpdate(st.schedules, key, fed.1.resolution, id);
    var mine := OnlySnapshots(st.snapshots, id);
    assert OnlySnapshots(st.snapshots + [fed.1], id) == mine + if key == id then [fed.1] else [];
    assert mine + [] == mine;
    if key == id { assert EngineFor(Share(st, id), id, window) == Ok(engine); }
  }

  lemma ResolveShares(st: Replay, e: Entry, event: MarketEvent, id: string)
    requires event.MarketResolved?
    ensures var st' := Resolve(st, e, event);
            if HexValue(event.market) == id then Resolve(Share(st, id), e, event) == Share(st', id)
            else Share(st', id) == Share(st, id)
  {
    hide HexValue;
    var key := HexValue(event.market);
    if key in st.schedules {
      ShareOfUpdate(st.labels, key, Label(st.schedules[key], Instant(e.timestamp), event.outcome), id);
    }
  }

  /** One entry acts on its own market's share only. */
  lemma StepShares(st: Replay, e: Entry, market: Bytes32, window: int)
    requires StepEntry(st, e, window).Ok?
    ensures var id := HexValue(market);
            var st' := StepEntry(st, e, window).value;
            if Concerns(e, market) then StepEntry(Share(st, id), e, window) == Ok(Share(st', id))
            else Share(st', id) == Share(st, id)
  {
    hide HexValue, Share, Feed, Resolve;
    var id := HexValue(market);
    var event := e.event.value;
    if event.market != market && HexValue(event.market) == id {
      HexValueInjective(event.market, market);
    }
    if event.MarketResolved? { ResolveShares(st, e, event, id); } else { FeedShares(st, e, event, id, window); }
  }

  lemma {:induction false} ReplayShares(es: seq<Entry>, market: Bytes32, window: int)
    requires ReplayAll(es, window).Ok?
    ensures ReplayAll(Only(es, market), window) == Ok(Share(ReplayAll(es, window).value, HexValue(market)))
  {
    hide StepEntry, HexValue, Share;
    if es == [] {
      NothingShared(HexValue(market));
    } else {
      var n := |es| - 1;
      ReplayShares(es[..n], market, window);
      StepShares(ReplayAll(es[..n], window).value, es[n], market, window);
      assert (Only(es[..n], market) + [es[n]])[..|Only(es[..n], market)|] == Only(es[..n], market);
      assert Only(es[..n], market) + [] == Only(es[..n], market);
    }
  }

  lemma NothingShared(id: string)
    ensures Share(EMPTY_REPLAY, id) == EMPTY_REPLAY
  {
  }

  lemma {:induction false} ResolvedShares(ss: seq<E.Snapshot>, labels: Labels, id: string)
    ensures var mine := map k | k in labels && k == id :: labels[k];
            Resolved(OnlySnapshots(ss, id), mine) == OnlySnapshots(Resolved(ss, labels), id)
  {
    var mine := map k | k in labels && k == id :: labels[k];
    if ss != [] {
      var n := |ss| - 1;
      ResolvedShares(ss[..n], labels, id);
      var kept, all := OnlySnapshots(ss[..n], id), Resolved(ss[..n], labels);
      assert (kept + [ss[n]])[..|kept|] == kept && kept + [] == kept;
      assert (all + [ss[n]])[..|all|] == all && all + [] == all;
    }
  }

  function RowWith(s: E.Snapshot, known: Label): Row {
    Row(s, known.available, known.outcome)
  }

  lemma AttachSnoc(ss: seq<E.Snapshot>, s: E.Snapshot, labels: Labels)
    requires Labelled(ss, labels) && s.market in labels
    ensures Labelled(ss + [s], labels)
    ensures Attach(ss + [s], labels) == Attach(ss, labels) + [RowWith(s, labels[s.market])]
    ensures Attach(ss + [s], labels)[..|ss|] == Attach(ss, labels)
  {
  }

  lemma {:induction false} AttachShares(ss: seq<E.Snapshot>, labels: Labels, mine: Labels, id: string)
    requires Labelled(ss, labels) && (id in labels ==> id in mine && mine[id] == labels[id])
    ensures Labelled(OnlySnapshots(ss, id), mine)
    ensures Attach(OnlySnapshots(ss, id), mine) == OnlyRows(Attach(ss, labels), id)
    ensures forall i | 0 <= i < |OnlySnapshots(ss, id)| ::
              OnlySnapshots(ss, id)[i].market == id && OnlySnapshots(ss, id)[i] in ss
  {
    if ss != [] {
      hide Attach;
      var n := |ss| - 1;
      AttachShares(ss[..n], labels, mine, id);
      AttachSnoc(ss[..n], ss[n], labels);
      var kept := OnlySnapshots(ss[..n], id);
      assert ss[..n] + [ss[n]] == ss && kept + [] == kept;
      if ss[n].market == id { AttachSnoc(kept, ss[n], mine); }
    }
  }

  /** A market's rows are a subsequence: each comes from some position, and positions ascend. */
  lemma {:induction false} OnlyRowsOrigin(rows: seq<Row>, id: string) returns (at: seq<nat>)
    ensures |at| == |OnlyRows(rows, id)|
    ensures forall i | 0 <= i < |at| :: at[i] < |rows| && OnlyRows(rows, id)[i] == rows[at[i]]
    ensures forall i, j | 0 <= i < j < |at| :: at[i] < at[j]
  {
    at := [];
    if rows != [] {
      at := OnlyRowsOrigin(rows[..|rows| - 1], id);
      if rows[|rows| - 1].Market() == id { at := at + [|rows| - 1]; }
    }
  }

  lemma ValidShares(rows: seq<Row>, id: string)
    requires Valid(rows) && OnlyRows(rows, id) != []
    ensures Valid(OnlyRows(rows, id))
  {
    var mine := OnlyRows(rows, id);
    var at := OnlyRowsOrigin(rows, id);
    forall i | 1 <= i < |mine|
      ensures Follows(mine[i - 1], mine[i])
    {
      FollowsLater(rows, at[i - 1], at[i]);
    }
    forall i, j | 0 <= i < j < |mine|
      ensures OneLabel(mine[i], mine[j])
    {
      assert OneLabel(rows[at[i]], rows[at[j]]);
    }
  }

  lemma FinishShares(st: Replay, id: string)
    requires Finish(st).Ok? && OnlyRows(Finish(st).value, id) != []
    ensures Finish(Share(st, id)) == Ok(OnlyRows(Finish(st).value, id))
  {
    hide Assembled, Valid, MarketsOf;
    var resolved, used := Resolved(st.snapshots, st.labels), Used(st.snapshots, st.labels);
    var share := Share(st, id);
    var mine, myLabels := Resolved(share.snapshots, share.labels), Used(share.snapshots, share.labels);
    ResolvedShares(st.snapshots, st.labels, id);
    assert mine == OnlySnapshots(resolved, id);
    AssembleExact(resolved, used);
    assert Finish(st).value == Attach(resolved, used);
    SharedLabel(st, id);
    AttachShares(resolved, used, myLabels, id);
    ValidShares(Attach(resolved, used), id);
    AssembleExact(mine, myLabels);
  }

  lemma OnlyOneMarket(ss: seq<E.Snapshot>, id: string)
    requires ss != [] && forall i | 0 <= i < |ss| :: ss[i].market == id
    ensures MarketsOf(ss) == {id}
  {
    assert ss[0].market in MarketsOf(ss);
  }

  lemma SharedLabel(st: Replay, id: string)
    requires Finish(st).Ok? && OnlyRows(Finish(st).value, id) != []
    ensures var share := Share(st, id);
            var used, mine := Used(st.snapshots, st.labels), Used(share.snapshots, share.labels);
            && id in used && mine == map[id := used[id]]
            && MarketsOf(Resolved(share.snapshots, share.labels)) == {id}
  {
    hide Assembled, Valid, Resolved, OnlySnapshots, OnlyRows, Attach;
    var share := Share(st, id);
    var resolved, used := Resolved(st.snapshots, st.labels), Used(st.snapshots, st.labels);
    AssembleExact(resolved, used);
    ResolvedShares(st.snapshots, st.labels, id);
    var mine := OnlySnapshots(resolved, id);
    assert mine == Resolved(share.snapshots, share.labels);
    AttachShares(resolved, used, used, id);
    assert |mine| == |Attach(mine, used)| > 0;
    OnlyOneMarket(mine, id);
    assert mine[0].market == id && mine[0] in resolved;
  }

  /** A block without the events of other markets. */
  function KeepEvents(decode: EventDecoder, events: seq<Event>, market: Bytes32): seq<Event> {
    if events == [] then []
    else KeepEvents(decode, events[..|events| - 1], market)
         + if decode(events[|events| - 1]).Some? && decode(events[|events| - 1]).value.market == market
           then [events[|events| - 1]] else []
  }

  /** The same store with every other market's events removed. */
  function KeepMarket(decode: EventDecoder, c: Chain, market: Bytes32): (c': Chain)
    ensures |c'.blocks| == |c.blocks| && c'.finality == c.finality
  {
    c.(blocks := seq(|c.blocks|, i requires 0 <= i < |c.blocks| =>
      c.blocks[i].(events := KeepEvents(decode, c.blocks[i].events, market))))
  }

  lemma {:induction false} KeptEntries(decode: EventDecoder, b: Block, level: Level, market: Bytes32, k: nat)
    requires k <= |b.events|
    ensures BlockEntries(decode, b.(events := KeepEvents(decode, b.events[..k], market)), level)
         == Only(BlockEntries(decode, b, level)[..k], market)
  {
    if k > 0 {
      KeptEntries(decode, b, level, market, k - 1);
      var es := BlockEntries(decode, b, level);
      assert b.events[..k][..k - 1] == b.events[..k - 1] && es[..k][..k - 1] == es[..k - 1];
      assert es[k - 1] == Entry(b.number, b.events[k - 1].logIndex, b.timestamp, level, decode(b.events[k - 1]));
    }
  }

  lemma {:induction false} OnlyConcat(a: seq<Entry>, b: seq<Entry>, market: Bytes32)
    ensures Only(a + b, market) == Only(a, market) + Only(b, market)
  {
    if b == [] {
      assert a + b == a && Only(a, market) + [] == Only(a, market);
    } else {
      assert (a + b)[..|a + b| - 1] == a + b[..|b| - 1];
      OnlyConcat(a, b[..|b| - 1], market);
    }
  }

  lemma KeptFinality(decode: EventDecoder, c: Chain, market: Bytes32, h: Hash)
    requires |c.finality| == |c.blocks|
    ensures KeepMarket(decode, c, market).FinalityOf(h) == c.FinalityOf(h)
  {
    var c' := KeepMarket(decode, c, market);
    var i, j := FirstWithHash(c.blocks, h), FirstWithHash(c'.blocks, h);
    assert forall k | 0 <= k < |c.blocks| :: c'.blocks[k].hash == c.blocks[k].hash;
    assert i == j;
  }

  lemma NothingKept(market: Bytes32)
    ensures Only([], market) == []
  {
  }

  lemma {:induction false} EntriesKept(decode: EventDecoder, c: Chain, market: Bytes32, k: nat)
    requires |c.finality| == |c.blocks| && k <= |c.blocks|
    ensures EntriesBelow(decode, KeepMarket(decode, c, market), k) == Only(EntriesBelow(decode, c, k), market)
  {
    hide Chain.FinalityOf, BlockEntries, Only, KeepEvents;
    if k == 0 {
      NothingKept(market);
    } else {
      EntriesKept(decode, c, market, k - 1);
      var b := c.blocks[k - 1];
      KeptFinality(decode, c, market, b.hash);
      KeptEntries(decode, b, c.FinalityOf(b.hash), market, |b.events|);
      assert b.events[..|b.events|] == b.events;
      var es := BlockEntries(decode, b, c.FinalityOf(b.hash));
      assert es[..|b.events|] == es;
      OnlyConcat(EntriesBelow(decode, c, k - 1), es, market);
    }
  }

  /**
    Markets do not interfere.  When a projection succeeds, the rows of a resolved
    market are exactly the rows of the store with every other market's events
    removed.
   */
  lemma MarketsDoNotInterfere(decode: EventDecoder, c: Chain, market: Bytes32, window: int)
    requires |c.finality| == |c.blocks| && Project(decode, c, window).Ok?
    requires OnlyRows(Project(decode, c, window).value, HexValue(market)) != []
    ensures Project(decode, KeepMarket(decode, c, market), window)
         == Ok(OnlyRows(Project(decode, c, window).value, HexValue(market)))
  {
    hide Finish, ReplayFrom, HexValue, Share, OnlyRows, KeepMarket;
    EntriesKept(decode, c, market, |c.blocks|);
    ReplayShares(Entries(decode, c), market, window);
    FinishShares(ReplayAll(Entries(decode, c), window).value, HexValue(market));
  }
}
