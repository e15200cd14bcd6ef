/** What the projection demands of the order of events, and what one unordered block does to an export. */
module EntryOrder {
  import opened Types
  import opened Digest
  import opened Chain
  import opened ChainLaws
  import opened Codec
  import opened Rpc
  import opened Convert
  import opened Rows
  import opened Projection
  import opened LogOrder
  import opened ResyncLaws
  import opened ContractLaws
  import opened ContractExport
  import Fixture
  import F = Features
  import E = Engine

  /** The engine of each market met so far stands at or beyond all of the market's updates. */
  ghost predicate Caught(es: seq<Entry>, k: nat, st: Replay)
    requires k <= |es|
  {
    forall i | 0 <= i < k && IsUpdate(es[i]) :: Id(es[i]) in st.engines && Beyond(st.engines[Id(es[i])], es[i])
  }

  predicate Beyond(engine: E.State, e: Entry) {
    && engine.latest.Some?
    && !E.PositionAfter(e.block, e.log, engine.latest.value.block, engine.latest.value.log)
    && Instant(e.timestamp) <= engine.latest.value.time
  }

  /** An accepted update moves its engine strictly beyond everything it stood beyond. */
  lemma FeedMovesOn(st: Replay, e: Entry, window: int, id: string, earlier: Entry)
    requires IsUpdate(e) && Feed(st, e, e.event.value, window).Ok?
    ensures var st' := Feed(st, e, e.event.value, window).value;
            && Id(e) in st'.engines && Beyond(st'.engines[Id(e)], e)
            && (id in st.engines && Beyond(st.engines[id], earlier) ==>
                  id in st'.engines && Beyond(st'.engines[id], earlier)
                  && (id == Id(e) ==> E.PositionAfter(e.block, e.log, earlier.block, earlier.log)
                                      && Instant(earlier.timestamp) <= Instant(e.timestamp)))
  {
    hide HexValue, F.Probability, F.Depth, E.SnapshotValue, E.Last, F.Trade.Valid;
  }

  ghost predicate MarketsAscend(es: seq<Entry>, k: nat)
    requires k <= |es|
  {
    forall i, j | 0 <= i < j < k && IsUpdate(es[i]) && IsUpdate(es[j]) && Id(es[i]) == Id(es[j]) ::
      E.PositionAfter(es[j].block, es[j].log, es[i].block, es[i].log)
  }

  lemma CatchUp(es: seq<Entry>, k: nat, st: Replay, window: int)
    requires k < |es| && Caught(es, k, st) && MarketsAscend(es, k) && StepEntry(st, es[k], window).Ok?
    ensures Caught(es, k + 1, StepEntry(st, es[k], window).value) && MarketsAscend(es, k + 1)
  {
    hide HexValue, Feed, Beyond, E.PositionAfter;
    if IsUpdate(es[k]) {
      forall i | 0 <= i < k && IsUpdate(es[i])
        ensures var st' := StepEntry(st, es[k], window).value;
                Id(es[i]) in st'.engines && Beyond(st'.engines[Id(es[i])], es[i])
        ensures Id(es[i]) == Id(es[k]) ==> E.PositionAfter(es[k].block, es[k].log, es[i].block, es[i].log)
      {
        FeedMovesOn(st, es[k], window, Id(es[i]), es[i]);
      }
      FeedMovesOn(st, es[k], window, Id(es[k]), es[k]);
    }
  }

  lemma {:induction false} ReplayCatchesUp(es: seq<Entry>, k: nat, window: int)
    requires k <= |es| && ReplayAll(es[..k], window).Ok?
    ensures Caught(es, k, ReplayAll(es[..k], window).value) && MarketsAscend(es, k)
  {
    if k > 0 {
      LastStep(es, k, window);
      hide StepEntry, ReplayFrom, Caught, MarketsAscend;
      ReplayCatchesUp(es, k - 1, window);
      CatchUp(es, k - 1, ReplayAll(es[..k - 1], window).value, window);
    }
  }

  lemma LastStep(es: seq<Entry>, k: nat, window: int)
    requires 0 < k <= |es| && ReplayAll(es[..k], window).Ok?
    ensures ReplayAll(es[..k - 1], window).Ok?
    ensures StepEntry(ReplayAll(es[..k - 1], window).value, es[k - 1], window) == ReplayAll(es[..k], window)
  {
    hide StepEntry;
    assert es[..k][..k - 1] == es[..k - 1] && es[..k][k - 1] == es[k - 1];
  }

  /** A replay that succeeds has met each market's updates in strictly ascending position. */
  lemma ReplayNeedsOrder(es: seq<Entry>, window: int, i: nat, j: nat)
    requires i < j < |es| && IsUpdate(es[i]) && IsUpdate(es[j]) && SameMarket(es[i], es[j])
    requires !Ahead(es[i], es[j])
    ensures ReplayAll(es, window).Err? && ProjectEntries(es, window).Err?
  {
    hide HexValue, ReplayFrom, Caught;
    assert es[..|es|] == es;
    if ReplayAll(es, window).Ok? { ReplayCatchesUp(es, |es|, window); }
  }

  // ----- When a contract log exports -----

  lemma FeedErrors(st: Replay, e: Entry, event: MarketEvent, window: int)
    requires !event.MarketResolved?
    ensures Feed(st, e, event, window).Err? ==> Feed(st, e, event, window).error.FeatureFailed?
  {
    hide HexValue, E.State.Refusal, E.State.Peek, E.State.Apply, E.State.TakeSnapshot;
  }

  /** A replay fails with a decoding or a feature error, never with a dataset error. */
  lemma {:induction false} ReplayErrors(es: seq<Entry>, window: int)
    ensures ReplayAll(es, window).Err? ==> !ReplayAll(es, window).error.DatasetFailed?
  {
    if es != [] {
      hide Feed, Resolve;
      var init, e := es[..|es| - 1], es[|es| - 1];
      ReplayErrors(init, window);
      if ReplayAll(init, window).Ok? && IsUpdate(e) {
        FeedErrors(ReplayAll(init, window).value, e, e.event.value, window);
      }
    }
  }

  /** Updates of one market out of order break the promise, whatever is resolved. */
  lemma OwnDisorderBreaks(es: seq<Entry>, window: int)
    requires !OwnAscend(es)
    ensures ProjectEntries(es, window).Err? && !Promised(es, window)
  {
    hide HexValue, ReplayFrom, SomeLabelled, Valid, Finish, IsUpdate, SameMarket, Ahead;
    var i, j :| 0 <= i < j < |es| && IsUpdate(es[i]) && IsUpdate(es[j]) && SameMarket(es[i], es[j])
                && !Ahead(es[i], es[j]);
    ReplayNeedsOrder(es, window, i, j);
    ReplayErrors(es, window);
  }

  lemma SnapshotPosition(s: E.Snapshot, e: Entry)
    requires SnapshotIs(s, e)
    ensures IsUpdate(e) && s.market == Id(e) && s.block == e.block && s.log == e.log
  {
  }

  /** The snapshot of a resolved market's update is labelled. */
  lemma ResolvableIsLabelled(es: seq<Entry>, st: Replay, origin: seq<nat>, i: nat) returns (a: nat)
    requires Replayed(es, |es|, st, origin) && i < |es| && IsUpdate(es[i]) && Resolvable(es, i)
    ensures a < |origin| == |st.snapshots| && origin[a] == i && st.snapshots[a].market in st.labels
    ensures st.snapshots[a].block == es[i].block && st.snapshots[a].log == es[i].log
  {
    hide HexValue, LabelIs, KeptFrom, SnapshotIs;
    a :| 0 <= a < |origin| && origin[a] == i;
    var k :| 0 <= k < |es| && IsResolution(es[k]) && SameMarket(es[i], es[k]);
    OneMarket(es[i], es[k]);
    SnapshotPosition(st.snapshots[a], es[i]);
    assert Id(es[k]) in st.schedules.Keys;
  }

  /** A valid dataset holds its snapshots at strictly ascending positions. */
  lemma FinishedAscends(st: Replay, a: nat, b: nat)
    requires Finish(st).Ok? && a < b < |st.snapshots|
    requires st.snapshots[a].market in st.labels && st.snapshots[b].market in st.labels
    ensures E.PositionAfter(st.snapshots[b].block, st.snapshots[b].log, st.snapshots[a].block, st.snapshots[a].log)
  {
    hide Resolved, Used, Valid, Assembled, E.PositionAfter;
    var resolved, used := Resolved(st.snapshots, st.labels), Used(st.snapshots, st.labels);
    var at := ResolvedOrigin(st.snapshots, st.labels);
    AssembleExact(resolved, used);
    var p :| 0 <= p < |at| && at[p] == a;
    var q :| 0 <= q < |at| && at[q] == b;
    assert p < q;
    FollowsLater(Attach(resolved, used), p, q);
  }

  /** Updates of resolved markets out of order make the export fail, even when they are of different markets. */
  lemma RowDisorderFails(es: seq<Entry>, window: int, i: nat, j: nat)
    requires Orderly(es) && window > 0 && i < j < |es| && IsUpdate(es[i]) && IsUpdate(es[j])
    requires Resolvable(es, i) && Resolvable(es, j) && !Ahead(es[i], es[j])
    ensures ProjectEntries(es, window).Err?
  {
    hide Orderly, Replayed, ReplayFrom, Finish, Resolvable, IsUpdate;
    var origin := ReplaySucceeds(es, |es|, window);
    assert es[..|es|] == es;
    var st := ReplayAll(es, window).value;
    var a := ResolvableIsLabelled(es, st, origin, i);
    var b := ResolvableIsLabelled(es, st, origin, j);
    OriginAscends(es, st, origin);
    assert a < b;
    if Finish(st).Ok? { FinishedAscends(st, a, b); }
  }

  lemma OriginAscends(es: seq<Entry>, st: Replay, origin: seq<nat>)
    requires Replayed(es, |es|, st, origin)
    ensures forall a, b | 0 <= a < b < |origin| :: origin[a] < origin[b]
  {
  }

  lemma RowDisorderBreaks(es: seq<Entry>, window: int)
    requires Orderly(es) && !ResolvedAscend(es) && window > 0
    ensures ProjectEntries(es, window).Err? && !Promised(es, window)
  {
    hide Orderly, ProjectEntries, Valid, IsUpdate, Ahead;
    var i, j :| 0 <= i < j < |es| && IsUpdate(es[i]) && IsUpdate(es[j]) && Resolvable(es, i) && Resolvable(es, j)
                && !Ahead(es[i], es[j]);
    RowDisorderFails(es, window, i, j);
    var k :| 0 <= k < |es| && IsResolution(es[k]) && SameMarket(es[i], es[k]);
    assert SomeLabelled(es);
  }

  /**
    A contract log, at whatever positions, exports as promised if and only if every
    two updates of one market ascend strictly in position, and so do every two
    updates of markets that are resolved, even of different ones.  In every other
    case the export fails.
   */
  lemma LawfulLogsProjectExactly(es: seq<Entry>, window: int)
    requires Lawful(es) && window > 0
    ensures Promised(es, window) <==> OwnAscend(es) && ResolvedAscend(es)
    ensures !(OwnAscend(es) && ResolvedAscend(es)) ==> ProjectEntries(es, window).Err?
  {
    hide Lawful, OwnAscend, ResolvedAscend, Orderly, Promised, ProjectEntries;
    OrderlyExactly(es);
    if !OwnAscend(es) {
      OwnDisorderBreaks(es, window);
    } else if !ResolvedAscend(es) {
      RowDisorderBreaks(es, window);
    } else {
      OrderlyLogsProject(es, window);
    }
  }

  /** The same for a store that holds a suffix of a contract run's log. */
  lemma ContractRunsProjectExactly(
    decode: EventDecoder, c: Chain, window: int, txs: seq<Fixture.Transaction>, from: nat)
    requires |c.finality| == |c.blocks| && LevelsFall(c.finality) && window > 0
    requires forall i | 0 <= i < |c.blocks| :: InNanoRange(c.blocks[i].timestamp)
    requires Fixture.InTime(txs) && from <= |Fixture.RunOf(txs).log|
    requires Carries(Entries(decode, c), Fixture.RunOf(txs).log[from..])
    ensures var es := Entries(decode, c);
            && (Promised(es, window) <==> OwnAscend(es) && ResolvedAscend(es))
            && (!(OwnAscend(es) && ResolvedAscend(es)) ==> Project(decode, c, window).Err?)
  {
    hide Lawful, OwnAscend, ResolvedAscend, Promised, ProjectEntries, EntriesBelow, Carries;
    StoredRunIsLawful(decode, c, txs, from);
    LawfulLogsProjectExactly(Entries(decode, c), window);
  }

  // ----- Inside one block -----

  predicate HeightsRise(es: seq<Entry>) {
    forall i, j | 0 <= i < j < |es| :: es[i].block <= es[j].block
  }

  predicate HeightsWithin(es: seq<Entry>, low: nat, high: nat) {
    forall i | 0 <= i < |es| :: low <= es[i].block <= high
  }

  lemma JoinHeights(a: seq<Entry>, b: seq<Entry>, low: nat, mid: nat, high: nat)
    requires HeightsRise(a) && HeightsRise(b) && HeightsWithin(a, low, mid) && HeightsWithin(b, mid, high)
    requires low <= mid <= high
    ensures HeightsRise(a + b) && HeightsWithin(a + b, low, high)
  {
  }

  lemma {:induction false} HeightsAscend(decode: EventDecoder, c: Chain, k: nat)
    requires |c.finality| == |c.blocks| && k <= |c.blocks| && GapFree(c.blocks)
    ensures HeightsRise(EntriesBelow(decode, c, k))
    ensures HeightsWithin(EntriesBelow(decode, c, k), 0, if k == 0 then 0 else c.blocks[k - 1].number)
  {
    if k > 0 {
      hide Chain.FinalityOf, HeightsRise, HeightsWithin;
      HeightsAscend(decode, c, k - 1);
      var b := c.blocks[k - 1];
      var low := if k == 1 then 0 else c.blocks[k - 2].number;
      assert low <= b.number;
      OneHeight(decode, b, c.FinalityOf(b.hash), low);
      JoinHeights(EntriesBelow(decode, c, k - 1), BlockEntries(decode, b, c.FinalityOf(b.hash)), 0, low, b.number);
    }
  }

  lemma OneHeight(decode: EventDecoder, b: Block, level: Level, low: nat)
    requires low <= b.number
    ensures HeightsRise(BlockEntries(decode, b, level)) && HeightsWithin(BlockEntries(decode, b, level), low, b.number)
  {
  }

  /** And for an honest ledger, however it numbers its logs: this is exactly when its contract run is exported. */
  lemma LedgerExportsExactly(
    start: uint64, c: Chain, window: int, read: LogReader, json: Json, l: Ledger, ordered: seq<Rpc.Log>,
    txs: seq<Fixture.Transaction>)
    requires Sound(c) && window > 0 && Recounts(read, json, l, ordered, txs)
    requires start <= l.Head() && c.blocks == l.blocks[start..]
    ensures Skipped(ordered, start) <= |Fixture.RunOf(txs).log|
    ensures var es := Entries(Loaded(json), c);
            var rest := Fixture.RunOf(txs).log[Skipped(ordered, start)..];
            Exports(Loaded(json), c, window, rest) <==> OwnAscend(es) && ResolvedAscend(es)
  {
    hide Recounts, Carries, Loaded, WellNumbered, Fixture.RunOf, Fixture.InTime, SomeResolved, SomeLabelled,
      ProjectEntries, Valid, Entries, OwnAscend, ResolvedAscend, GapFree, LevelsFall, Digest.Fold,
      LogIndexesAscend, InNanoRange, Skipped;
    LedgerCarries(start, c, read, json, l, ordered, txs);
    RecountsInTime(read, json, l, ordered, txs);
    ContractRunsProjectExactly(Loaded(json), c, window, txs, Skipped(ordered, start));
  }

  /** Disorder is a matter of single blocks: entries of different blocks of a sound store always ascend. */
  lemma DisorderIsLocal(decode: EventDecoder, c: Chain, i: nat, j: nat)
    requires |c.finality| == |c.blocks| && GapFree(c.blocks) && i < j < |Entries(decode, c)|
    ensures var es := Entries(decode, c);
            Ahead(es[i], es[j]) <==> es[i].block < es[j].block || es[i].log < es[j].log
  {
    hide EntriesBelow;
    HeightsAscend(decode, c, |c.blocks|);
    assert Entries(decode, c)[i].block <= Entries(decode, c)[j].block;
  }

  /** The event at position `i` of a block decodes to an update of the market. */
  predicate UpdatesMarket(decode: EventDecoder, b: Block, i: nat, market: Bytes32)
    requires i < |b.events|
  {
    decode(b.events[i]).Some? && !decode(b.events[i]).value.MarketResolved?
      && decode(b.events[i]).value.market == market
  }

  /** The store holds a resolution of the market. */
  predicate ResolvedIn(es: seq<Entry>, market: Bytes32) {
    exists k :: 0 <= k < |es| && IsResolution(es[k]) && es[k].event.value.market == market
  }

  lemma BlockPositions(decode: EventDecoder, c: Chain, n: nat, i: nat, j: nat) returns (p: nat, q: nat)
    requires |c.finality| == |c.blocks| && n < |c.blocks| && i < j < |c.blocks[n].events|
    ensures var es, b := Entries(decode, c), c.blocks[n];
            && p < q < |es| && es[p].block == es[q].block == b.number
            && es[p].log == b.events[i].logIndex && es[p].event == decode(b.events[i])
            && es[q].log == b.events[j].logIndex && es[q].event == decode(b.events[j])
  {
    hide Chain.FinalityOf;
    var level := c.FinalityOf(c.blocks[n].hash);
    var before, es := EntriesBelow(decode, c, n), BlockEntries(decode, c.blocks[n], level);
    EntriesSplit(decode, c, n + 1);
    var rest :| Entries(decode, c) == EntriesBelow(decode, c, n + 1) + rest;
    var all := Entries(decode, c);
    assert all == before + es + rest;
    p, q := |before| + i, |before| + j;
    assert all[p] == es[i] && all[q] == es[j];
  }

  /**
    One block is enough to make a whole export fail: two updates that do not ascend
    in log index, of one market, or of two markets that a contract log resolves.
   */
  lemma UnorderedBlockFails(decode: EventDecoder, c: Chain, window: int, n: nat, i: nat, j: nat, a: Bytes32, b: Bytes32)
    requires |c.finality| == |c.blocks| && n < |c.blocks| && i < j < |c.blocks[n].events|
    requires UpdatesMarket(decode, c.blocks[n], i, a) && UpdatesMarket(decode, c.blocks[n], j, b)
    requires c.blocks[n].events[j].logIndex <= c.blocks[n].events[i].logIndex
    requires var es := Entries(decode, c);
             a == b || (window > 0 && Lawful(es) && ResolvedIn(es, a) && ResolvedIn(es, b))
    ensures Project(decode, c, window).Err?
  {
    hide ProjectEntries, EntriesBelow, Lawful, OwnAscend, ResolvedAscend;
    var es := Entries(decode, c);
    var p, q := BlockPositions(decode, c, n, i, j);
    if a == b {
      ReplayNeedsOrder(es, window, p, q);
    } else {
      NotInRowOrder(es, p, q, a, b);
      LawfulLogsProjectExactly(es, window);
    }
  }

  lemma NotInRowOrder(es: seq<Entry>, p: nat, q: nat, a: Bytes32, b: Bytes32)
    requires p < q < |es| && IsUpdate(es[p]) && IsUpdate(es[q]) && !Ahead(es[p], es[q])
    requires es[p].event.value.market == a && es[q].event.value.market == b && ResolvedIn(es, a) && ResolvedIn(es, b)
    ensures !ResolvedAscend(es)
  {
    hide Ahead;
    var k :| 0 <= k < |es| && IsResolution(es[k]) && es[k].event.value.market == a;
    assert SameMarket(es[p], es[k]);
    var m :| 0 <= m < |es| && IsResolution(es[m]) && es[m].event.value.market == b;
    assert SameMarket(es[q], es[m]);
    assert Resolvable(es, p) && Resolvable(es, q);
  }

  lemma OneBlockEntries(decode: EventDecoder, c: Chain)
    requires |c.finality| == |c.blocks| == 1
    ensures Entries(decode, c) == BlockEntries(decode, c.blocks[0], c.FinalityOf(c.blocks[0].hash))
  {
    hide Chain.FinalityOf;
    assert EntriesBelow(decode, c, 0) == [];
  }

  /** The second of two updates of a market that does not lie beyond the first is refused. */
  lemma SecondUpdateRefused(a: Entry, b: Entry, window: int)
    requires EntryOk(a) && EntryOk(b) && IsUpdate(a) && IsUpdate(b) && SameMarket(a, b) && window > 0
    requires !E.PositionAfter(b.block, b.log, a.block, a.log)
    ensures ProjectEntries([a, b], window) == Err(FeatureFailed(F.EventOrder))
  {
    hide HexValue, ApplyAndSnapshot, SnapshotIs;
    var id := Id(a);
    FedEngine(E.NewState(id, window), None, a);
    var fed := ApplyAndSnapshot(E.NewState(id, window), UpdateOf(a, a.event.value), PointOf(a, a.event.value)).value;
    assert [a, b][..1] == [a] && [a][..0] == [];
    var st := StepEntry(EMPTY_REPLAY, a, window).value;
    assert ReplayFrom(Ok(EMPTY_REPLAY), [a], window) == Ok(st);
    assert id in st.engines && st.engines[id] == fed.0;
    UnorderedRefused(fed.0, a, b);
    assert StepEntry(st, b, window) == Err(FeatureFailed(F.EventOrder));
  }

  lemma UnorderedRefused(engine: E.State, a: Entry, b: Entry)
    requires LatestIs(engine, a) && EntryOk(b) && IsUpdate(b) && SameMarket(a, b)
    requires !E.PositionAfter(b.block, b.log, a.block, a.log)
    ensures ApplyAndSnapshot(engine, UpdateOf(b, b.event.value), PointOf(b, b.event.value))
      == Err(FeatureFailed(F.EventOrder))
  {
    hide HexValue;
    var u := UpdateOf(b, b.event.value);
    F.ProbabilityRange(u.yesReserve, u.noReserve);
  }

  lemma TwoUpdatesAbort(decode: EventDecoder, c: Chain, window: int)
    requires Sound(c) && |c.blocks| == 1 && |c.blocks[0].events| == 2 && window > 0
    requires c.blocks[0].events[1].logIndex <= c.blocks[0].events[0].logIndex
    requires Permissible(c.blocks[0].timestamp, decode(c.blocks[0].events[0]))
    requires Permissible(c.blocks[0].timestamp, decode(c.blocks[0].events[1]))
    requires decode(c.blocks[0].events[0]).value.market == decode(c.blocks[0].events[1]).value.market
    ensures Project(decode, c, window) == Err(FeatureFailed(F.EventOrder))
  {
    hide ProjectEntries, Chain.FinalityOf, GapFree, Digest.Fold;
    var b := c.blocks[0];
    OneBlockEntries(decode, c);
    LevelIsValid(c, b.hash);
    var es := BlockEntries(decode, b, c.FinalityOf(b.hash));
    assert es == [es[0], es[1]];
    SecondUpdateRefused(es[0], es[1], window);
  }

  /** An update that the contract may emit at the time. */
  predicate Permissible(time: uint64, event: Option<MarketEvent>) {
    && event.Some? && !event.value.MarketResolved? && InNanoRange(time)
    && Fixture.EmissionOk(Fixture.Emission(time, event.value))
  }

  lemma FirstBlockIsSound(sha: Hasher, b: Block)
    ensures Sound(EmptyChain(sha).Push(b))
  {
    PushSound(EmptyChain(sha), b);
  }

  /** The two logs of one block, numbered against their transactions. */
  ghost predicate NumberedAgainst(header: Header, first: Rpc.Log, second: Rpc.Log) {
    && 0 <= header.number < TWO64 && Belongs(header, first) && Belongs(header, second)
    && first.txIndex < second.txIndex && second.index < first.index
  }

  lemma PermissibleIsStored(read: LogReader, json: Json, time: uint64, log: Rpc.Log)
    requires json.RoundTrips() && Permissible(time, read(log))
    ensures Stored(read, json)(log).Some? && Loaded(json)(EventOf(Stored(read, json), log)) == read(log)
  {
    hide Loaded, ConvertEvent;
    Fixture.EmissionIsEncodable(Fixture.Emission(time, read(log).value));
    EventRoundTrip(read(log).value);
    EventSurvives(read, json, log);
  }

  lemma PairIsSorted(first: Rpc.Log, second: Rpc.Log, ordered: seq<Rpc.Log>)
    requires first.txIndex < second.txIndex && Sorted(InBlockOrder, ordered)
    requires multiset(ordered) == multiset{first, second}
    ensures ordered == [first, second]
  {
    assert |multiset(ordered)| == |ordered| == 2;
    assert ordered == [ordered[0], ordered[1]];
    assert multiset([ordered[0], ordered[1]]) == multiset{ordered[0], ordered[1]};
    assert ordered[0] in multiset(ordered) && first in multiset{ordered[0], ordered[1]};
    assert second in multiset{ordered[0], ordered[1]};
    assert InBlockOrder(ordered[0], ordered[1]);
  }

  lemma PairIsConverted(decode: Decoder, header: Header, first: Rpc.Log, second: Rpc.Log, answer: seq<Rpc.Log>)
    requires NumberedAgainst(header, first, second) && multiset(answer) == multiset{first, second}
    requires decode(first).Some? && decode(second).Some?
    ensures BlockFrom(decode, header, answer) == Ok(Block(header.number, header.hash, header.parent, header.time,
                                                          [EventOf(decode, first), EventOf(decode, second)]))
  {
    hide BlockFrom, Sort, Sorted, Acceptable;
    ConvertExact(decode, header, answer);
    PairIsAcceptable(decode, header, first, second);
    PairIsSorted(first, second, Sort(InBlockOrder, answer));
    assert Mapped(decode, [first, second]) == [EventOf(decode, first), EventOf(decode, second)];
  }

  lemma PairIsAcceptable(decode: Decoder, header: Header, first: Rpc.Log, second: Rpc.Log)
    requires NumberedAgainst(header, first, second) && decode(first).Some? && decode(second).Some?
    ensures Acceptable(decode, header, multiset{first, second})
  {
    var both := multiset{first, second};
    assert both[first] == 1 && both[second] == 1;
  }

  /**
    The whole way, for any reader of logs and any JSON that reads back what it wrote:
    two logs that read as updates of one market and are numbered against their
    transactions make a block in whatever order they are listed, a fresh store
    accepts it, and every export of that store aborts.
   */
  lemma UnorderedBlockAborts(
    sha: Hasher, window: int, read: LogReader, json: Json, header: Header, first: Rpc.Log, second: Rpc.Log,
    answer: seq<Rpc.Log>)
    requires json.RoundTrips() && NumberedAgainst(header, first, second) && window > 0
    requires multiset(answer) == multiset{first, second}
    requires Permissible(header.time, read(first)) && Permissible(header.time, read(second))
    requires read(first).value.market == read(second).value.market
    ensures BlockFrom(Stored(read, json), header, answer).Ok?
    ensures var (c, error) := EmptyChain(sha).Append(BlockFrom(Stored(read, json), header, answer).value);
            error.None? && Sound(c) && Project(Loaded(json), c, window) == Err(FeatureFailed(F.EventOrder))
  {
    hide BlockFrom, Project, Sound, Permissible, Stored, Loaded, Json.RoundTrips;
    PermissibleIsStored(read, json, header.time, first);
    PermissibleIsStored(read, json, header.time, second);
    PairIsConverted(Stored(read, json), header, first, second, answer);
    var b := BlockFrom(Stored(read, json), header, answer).value;
    FirstBlockIsSound(sha, b);
    assert EmptyChain(sha).Push(b).blocks == [b];
    TwoUpdatesAbort(Loaded(json), EmptyChain(sha).Push(b), window);
  }

  /**
    The case of two markets is real too: a contract run of two markets, stored at
    positions (1, 5), (1, 3), (2, 0) and (2, 1), in which each market's only update
    is in order, and whose export fails because both are resolved.
   */
  lemma UnorderedMarketsAbort() returns (es: seq<Entry>, txs: seq<Fixture.Transaction>)
    ensures Fixture.InTime(txs) && Carries(es, Fixture.RunOf(txs).log) && Lawful(es)
    ensures |es| == 4 && es[0].block == es[1].block == 1 && es[2].block == es[3].block == 2
    ensures es[0].log == 5 && es[1].log == 3 && es[2].log == 0 && es[3].log == 1
    ensures OwnAscend(es) && !ResolvedAscend(es) && ProjectEntries(es, 1).Err?
  {
    hide ProjectEntries, Fixture.RunOf, Fixture.WellBehaved, Fixture.Complete, Lawful, OwnAscend, ResolvedAscend;
    var a: Bytes32, b: Bytes32 := seq(32, _ => 1), seq(32, _ => 2);
    assert a[0] == 1 && b[0] == 2;
    var log := TwoMarketsLog(a, b);
    es := [Entry(1, 5, 1, SEEN, Some(log[0].event)), Entry(1, 3, 1, SEEN, Some(log[1].event)),
           Entry(2, 0, 10, SEEN, Some(log[2].event)), Entry(2, 1, 10, SEEN, Some(log[3].event))];
    txs := Fixture.LogIsRealizable(log);
    CarriedIsLawful(es, log);
    TwoMarketsOrder(es, a, b);
    LawfulLogsProjectExactly(es, 1);
  }

  lemma TwoMarketsOrder(es: seq<Entry>, a: Bytes32, b: Bytes32)
    requires |es| == 4 && a != b && es[0].block == es[1].block && es[1].log < es[0].log
    requires IsUpdate(es[0]) && IsUpdate(es[1]) && IsResolution(es[2]) && IsResolution(es[3])
    requires es[0].event.value.market == es[2].event.value.market == a
    requires es[1].event.value.market == es[3].event.value.market == b
    ensures OwnAscend(es) && !ResolvedAscend(es)
  {
    assert SameMarket(es[0], es[2]) && SameMarket(es[1], es[3]);
    assert Resolvable(es, 0) && Resolvable(es, 1);
    assert !Ahead(es[0], es[1]);
  }

  lemma TwoMarketsLog(a: Bytes32, b: Bytes32) returns (log: seq<Fixture.Emission>)
    requires a != b && !Fixture.IsZero(a) && !Fixture.IsZero(b)
    ensures log == [Fixture.Emission(1, LiquidityChanged(a, 1, 1, 5)),
                    Fixture.Emission(1, LiquidityChanged(b, 1, 1, 5)),
                    Fixture.Emission(10, MarketResolved(a, true)), Fixture.Emission(10, MarketResolved(b, true))]
    ensures Fixture.WellBehaved(log) && Fixture.Complete(log)
  {
    log := [Fixture.Emission(1, LiquidityChanged(a, 1, 1, 5)), Fixture.Emission(1, LiquidityChanged(b, 1, 1, 5)),
            Fixture.Emission(10, MarketResolved(a, true)), Fixture.Emission(10, MarketResolved(b, true))];
    assert log[..2][0] == log[0] && log[..3][1] == log[1];
    assert Fixture.Mentions(log[..2], a) && Fixture.Mentions(log[..3], b);
  }
}
