/** From the contract's transactions to the dataset, through an honest provider, the indexer and the projection. */
module ContractExport {
  import opened Types
  import opened Sequences
  import opened Digest
  import opened Chain
  import opened ChainLaws
  import opened Codec
  import opened Rpc
  import opened LogOrder
  import opened Convert
  import opened Indexing
  import opened SafetyLaws
  import opened ResyncLaws
  import opened HonestRuns
  import opened TruthfulRuns
  import opened Rows
  import opened Projection
  import opened ContractLaws
  import Fixture

  // ----- The two decoders -----

  /** ABI decoding of a raw log into a fixture event. */
  type LogReader = Rpc.Log -> Option<MarketEvent>

  /** encoding/json with the event kind it is stored under. */
  datatype Json = Json(marshal: Payload -> (Bytes, Bytes), unmarshal: Event -> Option<Payload>)
  {
    /** What was written is read back, whatever log index the event has. */
    ghost predicate RoundTrips() {
      forall p: Payload, index: uint64 {:trigger unmarshal(Event(marshal(p).0, marshal(p).1, index))} ::
        unmarshal(Event(marshal(p).0, marshal(p).1, index)) == Some(p)
    }
  }

  /** The decoder of the coordinator: the log is read, converted and written. */
  function Stored(read: LogReader, json: Json): Decoder {
    (log: Rpc.Log) =>
      match read(log)
      case None => None
      case Some(event) =>
        match ConvertEvent(event)
        case Err(_) => None
        case Ok(payload) => Some(json.marshal(payload))
  }

  /** indexer.DecodeEvent on what was stored. */
  function Loaded(json: Json): EventDecoder {
    (e: Event) =>
      match json.unmarshal(e)
      case None => None
      case Some(payload) =>
        match DecodeEvent(payload)
        case Err(_) => None
        case Ok(event) => Some(event)
  }

  /** An event that could be stored is loaded as it was read. */
  lemma EventSurvives(read: LogReader, json: Json, log: Rpc.Log)
    requires json.RoundTrips() && Stored(read, json)(log).Some?
    ensures read(log).Some? && Loaded(json)(EventOf(Stored(read, json), log)) == read(log)
  {
    hide ConvertEvent, DecodeEvent;
    var event := read(log).value;
    EventRoundTrip(event);
    var payload := ConvertEvent(event).value;
    assert EventOf(Stored(read, json), log) == Event(json.marshal(payload).0, json.marshal(payload).1, log.index);
    assert json.unmarshal(Event(json.marshal(payload).0, json.marshal(payload).1, log.index)) == Some(payload);
  }

  // ----- Logs in canonical order -----

  lemma {:induction false} BetweenSorted(s: seq<Rpc.Log>, low: nat, high: nat)
    requires Sorted(AtOrBefore, s)
    ensures Sorted(AtOrBefore, Between(s, low, high))
  {
    if s != [] {
      hide AtOrBefore;
      var rest := Between(s[1..], low, high);
      TailSorted(s);
      BetweenSorted(s[1..], low, high);
      BetweenIsPart(s[1..], low, high);
      forall j | 0 <= j < |rest|
        ensures AtOrBefore(s[0], rest[j])
      {
        assert rest[j] in s[1..];
        var i :| 0 <= i < |s[1..]| && s[1..][i] == rest[j];
        assert s[i + 1] == rest[j];
      }
    }
  }

  lemma TailSorted(s: seq<Rpc.Log>)
    requires s != [] && Sorted(AtOrBefore, s)
    ensures Sorted(AtOrBefore, s[1..])
  {
    hide AtOrBefore;
    assert forall i | 0 <= i < |s[1..]| :: s[1..][i] == s[i + 1];
  }

  lemma {:induction false} NoneBetween(s: seq<Rpc.Log>, low: nat, high: nat)
    requires forall i | 0 <= i < |s| :: !(low <= s[i].blockNumber <= high)
    ensures Between(s, low, high) == []
  {
    if s != [] { NoneBetween(s[1..], low, high); }
  }

  /** Sorted logs fall apart by height. */
  lemma {:induction false} BetweenSplits(s: seq<Rpc.Log>, low: nat, mid: nat, high: nat)
    requires Sorted(AtOrBefore, s) && low <= mid <= high
    ensures Between(s, low, high) == Between(s, low, mid) + Between(s, mid + 1, high)
  {
    if s != [] {
      TailSorted(s);
      BetweenSplits(s[1..], low, mid, high);
      if mid < s[0].blockNumber {
        forall i | 0 <= i < |s|
          ensures !(low <= s[i].blockNumber <= mid)
        {
          assert i == 0 || AtOrBefore(s[0], s[i]);
        }
        NoneBetween(s, low, mid);
        assert forall i | 0 <= i < |s[1..]| :: s[1..][i] == s[i + 1];
        NoneBetween(s[1..], low, mid);
        assert Between(s[1..], low, mid) + Between(s[1..], mid + 1, high) == Between(s[1..], mid + 1, high);
        assert [] + Between(s, mid + 1, high) == Between(s, mid + 1, high);
      } else if low <= s[0].blockNumber {
        Assoc([s[0]], Between(s[1..], low, mid), Between(s[1..], mid + 1, high));
      }
    }
  }

  /** The logs of a ledger in (block, transaction, index) order. */
  ghost predicate Canonical(l: Ledger, ordered: seq<Rpc.Log>)
    requires 0 < |l.headers| <= TWO64
  {
    Sorted(AtOrBefore, ordered) && multiset(ordered) == multiset(Between(l.logs, 0, l.Head()))
  }

  lemma CanonicalInRange(l: Ledger, ordered: seq<Rpc.Log>)
    requires 0 < |l.headers| <= TWO64 && Canonical(l, ordered)
    ensures forall i | 0 <= i < |ordered| :: ordered[i].blockNumber < |l.headers|
  {
    hide Sorted;
    BetweenIsPart(l.logs, 0, l.Head());
    forall i | 0 <= i < |ordered|
      ensures ordered[i].blockNumber < |l.headers|
    {
      assert ordered[i] in multiset(ordered);
    }
  }

  lemma CanonicalOfOneBlock(l: Ledger, ordered: seq<Rpc.Log>, n: uint64)
    requires 0 < |l.headers| <= TWO64 && Canonical(l, ordered) && n < |l.headers|
    ensures multiset(Between(ordered, n, n)) == multiset(Between(l.logs, n, n))
    ensures Sorted(InBlockOrder, Between(ordered, n, n))
  {
    forall x
      ensures multiset(Between(ordered, n, n))[x] == multiset(Between(l.logs, n, n))[x]
    {
      BetweenCounts(ordered, n, n, x);
      BetweenCounts(l.logs, n, n, x);
      BetweenCounts(l.logs, 0, l.Head(), x);
    }
    BetweenSorted(ordered, n, n);
    BetweenIsPart(ordered, n, n);
    var s := Between(ordered, n, n);
    assert forall i | 0 <= i < |s| :: s[i] in s;
    assert forall i, j | 0 <= i < j < |s| :: AtOrBefore(s[i], s[j]);
  }

  /** A ledger's block holds its logs' events in canonical order. */
  lemma BlockOfLedger(decode: Decoder, l: Ledger, ordered: seq<Rpc.Log>, n: uint64)
    requires l.Valid(decode) && Canonical(l, ordered) && n < |l.headers|
    ensures forall x | x in Between(ordered, n, n) :: decode(x).Some?
    ensures l.blocks[n].number == n && l.blocks[n].timestamp == l.headers[n].time
    ensures l.blocks[n].events == Mapped(decode, Between(ordered, n, n))
  {
    hide Between, Sorted, InBlockOrder, Sort, Canonical, HeadersLink, BlockFrom, Mapped;
    var logs := Between(l.logs, n, n);
    assert BlockFrom(decode, l.headers[n], logs) == Ok(l.blocks[n]);
    ConvertExact(decode, l.headers[n], logs);
    CanonicalOfOneBlock(l, ordered, n);
    AcceptableDistinguishes(decode, l.headers[n], multiset(logs));
    SortedIsUnique(InBlockOrder, Between(ordered, n, n), Sort(InBlockOrder, logs), multiset(logs));
  }

  // ----- The ledger tells a contract run -----

  /** What one log says: its block's time and the event it reads as. */
  predicate TellsOne(l: Ledger, read: LogReader, x: Rpc.Log, e: Fixture.Emission) {
    x.blockNumber < |l.headers| && e.time == l.headers[x.blockNumber].time && read(x) == Some(e.event)
  }

  /** The logs say exactly these emissions, in this order. */
  predicate Tells(l: Ledger, read: LogReader, logs: seq<Rpc.Log>, log: seq<Fixture.Emission>) {
    |logs| == |log| && forall i | 0 <= i < |logs| :: TellsOne(l, read, logs[i], log[i])
  }

  lemma TellsSlice(l: Ledger, read: LogReader, a: seq<Rpc.Log>, b: seq<Rpc.Log>, log: seq<Fixture.Emission>)
    requires Tells(l, read, a + b, log)
    ensures Tells(l, read, a, log[..|a|]) && Tells(l, read, b, log[|a|..])
  {
    hide TellsOne;
    assert forall i | 0 <= i < |a| :: (a + b)[i] == a[i];
    assert forall i | 0 <= i < |b| :: (a + b)[|a| + i] == b[i];
  }

  lemma CarriesConcat(
    a: seq<Entry>, b: seq<Entry>, log: seq<Fixture.Emission>, rest: seq<Fixture.Emission>)
    requires Carries(a, log) && Carries(b, rest)
    ensures Carries(a + b, log + rest)
  {
  }

  lemma BlockCarries(
    read: LogReader, json: Json, l: Ledger, ordered: seq<Rpc.Log>, n: uint64, level: Level, log: seq<Fixture.Emission>)
    requires l.Valid(Stored(read, json)) && json.RoundTrips() && Canonical(l, ordered) && n < |l.headers|
    requires Tells(l, read, Between(ordered, n, n), log)
    ensures Carries(BlockEntries(Loaded(json), l.blocks[n], level), log)
  {
    hide Stored, Loaded, Canonical, Json.RoundTrips, HeadersLink, Ledger.Assembled, Between;
    var logs := Between(ordered, n, n);
    BlockOfLedger(Stored(read, json), l, ordered, n);
    BetweenIsPart(ordered, n, n);
    var es := BlockEntries(Loaded(json), l.blocks[n], level);
    forall i | 0 <= i < |es|
      ensures es[i].event == Some(log[i].event) && es[i].timestamp == log[i].time
    {
      assert logs[i] in logs;
      EventSurvives(read, json, logs[i]);
      assert TellsOne(l, read, logs[i], log[i]);
    }
  }

  /** The logs of the heights from `low` up to, but not including, `end`. */
  function Span(s: seq<Rpc.Log>, low: nat, end: nat): seq<Rpc.Log> {
    if end <= low then [] else Between(s, low, end - 1)
  }

  lemma SpanSplits(s: seq<Rpc.Log>, low: nat, mid: nat, end: nat)
    requires Sorted(AtOrBefore, s) && low <= mid <= end
    ensures Span(s, low, end) == Span(s, low, mid) + Span(s, mid, end)
  {
    hide AtOrBefore, Between;
    if low < mid < end { BetweenSplits(s, low, mid - 1, end - 1); }
  }

  lemma {:induction false} EntriesCarry(
    read: LogReader, json: Json, l: Ledger, ordered: seq<Rpc.Log>, c: Chain, start: nat, k: nat,
    log: seq<Fixture.Emission>)
    requires l.Valid(Stored(read, json)) && json.RoundTrips() && Canonical(l, ordered)
    requires |c.finality| == |c.blocks| && start <= |l.blocks| && c.blocks == l.blocks[start..] && k <= |c.blocks|
    requires Tells(l, read, Span(ordered, start, start + k), log)
    ensures Carries(EntriesBelow(Loaded(json), c, k), log)
  {
    hide Stored, Loaded, Json.RoundTrips, HeadersLink, Ledger.Assembled, Tells, Carries, Chain.FinalityOf, BlockEntries,
      Between, Sorted;
    if k == 0 {
      NothingCarried(Loaded(json), c, l, read, log);
    } else {
      var n: uint64 := start + k - 1;
      var before, block := Span(ordered, start, n), Between(ordered, n, n);
      CanonicalIsSorted(l, ordered);
      SpanSplits(ordered, start, n, n + 1);
      TellsSlice(l, read, before, block, log);
      SplitTold(l, read, before, block, log);
      EntriesCarry(read, json, l, ordered, c, start, k - 1, log[..|before|]);
      var level := c.FinalityOf(c.blocks[k - 1].hash);
      BlockCarries(read, json, l, ordered, n, level, log[|before|..]);
      assert c.blocks[k - 1] == l.blocks[n];
      CarriesConcat(EntriesBelow(Loaded(json), c, k - 1), BlockEntries(Loaded(json), l.blocks[n], level),
                    log[..|before|], log[|before|..]);
    }
  }

  lemma SplitTold(l: Ledger, read: LogReader, a: seq<Rpc.Log>, b: seq<Rpc.Log>, log: seq<Fixture.Emission>)
    requires Tells(l, read, a + b, log)
    ensures |a| <= |log| && log[..|a|] + log[|a|..] == log
  {
  }

  lemma CanonicalIsSorted(l: Ledger, ordered: seq<Rpc.Log>)
    requires 0 < |l.headers| <= TWO64 && Canonical(l, ordered)
    ensures Sorted(AtOrBefore, ordered)
  {
  }

  lemma NothingCarried(decode: EventDecoder, c: Chain, l: Ledger, read: LogReader, log: seq<Fixture.Emission>)
    requires |c.finality| == |c.blocks| && Tells(l, read, [], log)
    ensures Carries(EntriesBelow(decode, c, 0), log)
  {
  }

  // ----- Main results -----

  /** In a log, some market with an update is resolved. */
  predicate SomeResolved(log: seq<Fixture.Emission>) {
    exists i, j :: 0 <= i < |log| && 0 <= j < |log| && !log[i].event.MarketResolved? && log[j].event.MarketResolved?
                   && log[i].event.market == log[j].event.market
  }

  lemma LabelledInTheLog(es: seq<Entry>, log: seq<Fixture.Emission>)
    requires Carries(es, log)
    ensures SomeLabelled(es) <==> SomeResolved(log)
  {
    if SomeLabelled(es) {
      var i, j :| 0 <= i < |es| && 0 <= j < |es| && IsUpdate(es[i]) && IsResolution(es[j]) && SameMarket(es[i], es[j]);
      assert log[i].event.market == log[j].event.market;
    }
    if SomeResolved(log) {
      var i, j :| 0 <= i < |log| && 0 <= j < |log| && !log[i].event.MarketResolved? && log[j].event.MarketResolved?
                  && log[i].event.market == log[j].event.market;
      assert IsUpdate(es[i]) && IsResolution(es[j]) && SameMarket(es[i], es[j]);
    }
  }

  /** The provider numbers each block's logs in transaction order. */
  ghost predicate WellNumbered(l: Ledger) {
    forall n: uint64 {:trigger Between(l.logs, n, n)} | n < |l.headers| ::
      IndexesFollowTransactions(Between(l.logs, n, n))
  }

  /** Every block's time can be expressed in nanoseconds. */
  predicate Dated(l: Ledger) {
    forall n | 0 <= n < |l.headers| :: InNanoRange(l.headers[n].time)
  }

  lemma LedgerBlocksAscend(decode: Decoder, l: Ledger, n: uint64)
    requires l.Valid(decode) && Dated(l) && n < |l.headers|
    ensures InNanoRange(l.blocks[n].timestamp)
    ensures WellNumbered(l) ==> LogIndexesAscend(l.blocks[n].events)
  {
    hide HeadersLink, Between, LogIndexesAscend, IndexesFollowTransactions;
    var logs := Between(l.logs, n, n);
    assert BlockFrom(decode, l.headers[n], logs) == Ok(l.blocks[n]);
    LogIndexesAscendExactly(decode, l.headers[n], logs);
    ConvertExact(decode, l.headers[n], logs);
  }

  /** How many of the contract's events lie below the start block. */
  function Skipped(ordered: seq<Rpc.Log>, start: nat): nat {
    |Span(ordered, 0, start)|
  }

  lemma SuffixTold(l: Ledger, read: LogReader, ordered: seq<Rpc.Log>, start: nat, log: seq<Fixture.Emission>)
    requires 0 < |l.headers| <= TWO64 && Canonical(l, ordered) && start <= |l.headers| && Tells(l, read, ordered, log)
    ensures Skipped(ordered, start) <= |log|
    ensures Tells(l, read, Span(ordered, start, |l.headers|), log[Skipped(ordered, start)..])
  {
    hide Tells, Between, Sorted;
    CanonicalIsSorted(l, ordered);
    CanonicalInRange(l, ordered);
    BetweenAll(ordered, 0, |l.headers| - 1);
    SpanSplits(ordered, 0, start, |l.headers|);
    TellsSlice(l, read, Span(ordered, 0, start), Span(ordered, start, |l.headers|), log);
    SplitTold(l, read, Span(ordered, 0, start), Span(ordered, start, |l.headers|), log);
  }

  /** The export of a contract log: a valid dataset, or an empty one exactly when it resolves no updated market. */
  ghost predicate Exports(decode: EventDecoder, c: Chain, window: int, log: seq<Fixture.Emission>)
    requires |c.finality| == |c.blocks|
  {
    if SomeResolved(log) then Project(decode, c, window).Ok? && Valid(Project(decode, c, window).value)
    else Project(decode, c, window) == Err(DatasetFailed(EmptyDataset))
  }

  /** What the contract did, as an honest ledger tells it, however it numbers the logs. */
  ghost predicate Recounts(
    read: LogReader, json: Json, l: Ledger, ordered: seq<Rpc.Log>, txs: seq<Fixture.Transaction>)
  {
    && l.Valid(Stored(read, json)) && json.RoundTrips() && Dated(l)
    && Canonical(l, ordered) && Fixture.InTime(txs) && Tells(l, read, ordered, Fixture.RunOf(txs).log)
  }

  /** The same, numbered in transaction order. */
  ghost predicate TellsRun(
    read: LogReader, json: Json, l: Ledger, ordered: seq<Rpc.Log>, txs: seq<Fixture.Transaction>)
  {
    Recounts(read, json, l, ordered, txs) && WellNumbered(l)
  }

  /** The entries of a store with the ledger's blocks from the start block on are the rest of the contract's log. */
  lemma LedgerCarries(
    start: uint64, c: Chain, read: LogReader, json: Json, l: Ledger, ordered: seq<Rpc.Log>,
    txs: seq<Fixture.Transaction>)
    requires Sound(c) && Recounts(read, json, l, ordered, txs)
    requires start <= l.Head() && c.blocks == l.blocks[start..]
    ensures var log, from := Fixture.RunOf(txs).log, Skipped(ordered, start);
            && from <= |log| && Carries(Entries(Loaded(json), c), log[from..])
            && (SomeLabelled(Entries(Loaded(json), c)) <==> SomeResolved(log[from..]))
    ensures forall i | 0 <= i < |c.blocks| :: InNanoRange(c.blocks[i].timestamp)
    ensures WellNumbered(l) ==> forall i | 0 <= i < |c.blocks| :: LogIndexesAscend(c.blocks[i].events)
  {
    hide Tells, Carries, Stored, Loaded, Canonical, WellNumbered, Dated, Json.RoundTrips, HeadersLink,
      Ledger.Assembled, Fixture.RunOf, Fixture.InTime, SomeResolved, SomeLabelled, EntriesBelow, GapFree, LevelsFall,
      Digest.Fold, LogIndexesAscend, InNanoRange;
    var log := Fixture.RunOf(txs).log;
    var from := Skipped(ordered, start);
    SuffixTold(l, read, ordered, start, log);
    EntriesCarry(read, json, l, ordered, c, start, |c.blocks|, log[from..]);
    LabelledInTheLog(Entries(Loaded(json), c), log[from..]);
    forall i | 0 <= i < |c.blocks|
      ensures InNanoRange(c.blocks[i].timestamp)
      ensures WellNumbered(l) ==> LogIndexesAscend(c.blocks[i].events)
    {
      LedgerBlocksAscend(Stored(read, json), l, start + i);
      assert c.blocks[i] == l.blocks[start + i];
    }
  }

  /** Any sound store with the ledger's blocks from the start block on exports the rest of the contract's log. */
  lemma LedgerExports(
    u: Setup, c: Chain, window: int, read: LogReader, json: Json, l: Ledger, ordered: seq<Rpc.Log>,
    txs: seq<Fixture.Transaction>)
    requires Sound(c) && window > 0 && TellsRun(read, json, l, ordered, txs)
    requires u.start <= l.Head() && c.blocks == l.blocks[u.start..]
    ensures Skipped(ordered, u.start) <= |Fixture.RunOf(txs).log|
    ensures Exports(Loaded(json), c, window, Fixture.RunOf(txs).log[Skipped(ordered, u.start)..])
  {
    hide Recounts, Carries, Loaded, WellNumbered, HeadersLink, Fixture.RunOf, Fixture.InTime, SomeResolved,
      SomeLabelled, Project, Valid, Entries, GapFree, LevelsFall, Digest.Fold, LogIndexesAscend, InNanoRange, Skipped;
    LedgerCarries(u.start, c, read, json, l, ordered, txs);
    assert Fixture.InTime(txs) by { RecountsInTime(read, json, l, ordered, txs); }
    ContractRunsProject(Loaded(json), c, window, txs, Skipped(ordered, u.start));
  }

  lemma RecountsInTime(
    read: LogReader, json: Json, l: Ledger, ordered: seq<Rpc.Log>, txs: seq<Fixture.Transaction>)
    requires Recounts(read, json, l, ordered, txs)
    ensures Fixture.InTime(txs)
  {
  }

  /**
    From transactions to rows.  An empty store is fed honest reports of one network,
    heads and backfills in any order with any forks between them, and is never asked
    to resync.  If the ledger it ends up following tells a run of the contract, the
    export is a valid dataset of the part of that run from the start block on, or an
    empty one exactly when that part resolves no market it updates.
   */
  lemma HonestRunsExport(
    u: Setup, sha: Hasher, rs: seq<Report>, window: int, read: LogReader, json: Json, ordered: seq<Rpc.Log>,
    txs: seq<Fixture.Transaction>)
    requires u.Valid() && rs != [] && AllHonest(u, rs) && AllConsistent(rs) && window > 0
    requires (forall k | 0 <= k < |rs| :: rs[k].l.headers != []) && NeverResyncs(u, EmptyChain(sha), rs)
    requires TellsRun(read, json, Followed(rs), ordered, txs)
    ensures Skipped(ordered, u.start) <= |Fixture.RunOf(txs).log|
    ensures Exports(Loaded(json), RunReports(u, EmptyChain(sha), rs), window,
                    Fixture.RunOf(txs).log[Skipped(ordered, u.start)..])
  {
    hide Exports, TellsRun, AllHonest, AllConsistent, NeverResyncs, RunReports, Followed, HeadersLink, GapFree,
      LevelsFall, Digest.Fold, Fixture.RunOf;
    RunsFollowTheLedger(u, sha, rs);
    LedgerExports(u, RunReports(u, EmptyChain(sha), rs), window, read, json, Followed(rs), ordered, txs);
  }

  /** In particular the first backfill or head of an empty store is enough. */
  lemma FirstReportExports(
    u: Setup, sha: Hasher, r: Report, window: int, read: LogReader, json: Json, ordered: seq<Rpc.Log>,
    txs: seq<Fixture.Transaction>)
    requires u.Valid() && Honest(u, r) && r.l.headers != [] && window > 0
    requires TellsRun(read, json, r.l, ordered, txs)
    ensures Skipped(ordered, u.start) <= |Fixture.RunOf(txs).log|
    ensures Exports(Loaded(json), Indexed(u, EmptyChain(sha), r).0, window,
                    Fixture.RunOf(txs).log[Skipped(ordered, u.start)..])
  {
    hide Exports, TellsRun, Honest, Indexed, HeadersLink, GapFree, LevelsFall, Digest.Fold, Fixture.RunOf;
    OpeningReport(u, sha, r);
    HonestLedger(u, r);
    LedgerExports(u, Indexed(u, EmptyChain(sha), r).0, window, read, json, r.l, ordered, txs);
  }

  // ----- Providers that may fail -----

  /** What a reported ledger tells: all logs of the contract in order, and the transactions behind them. */
  datatype Story = Story(ordered: seq<Rpc.Log>, txs: seq<Fixture.Transaction>)

  ghost predicate AllTold(read: LogReader, json: Json, rs: seq<Report>, stories: seq<Story>) {
    |stories| == |rs|
    && forall k | 0 <= k < |rs| :: TellsRun(read, json, rs[k].l, stories[k].ordered, stories[k].txs)
  }

  ghost predicate ExportsRest(decode: EventDecoder, c: Chain, window: int, story: Story, start: nat)
    requires |c.finality| == |c.blocks|
  {
    var log, from := Fixture.RunOf(story.txs).log, Skipped(story.ordered, start);
    from <= |log| && Exports(decode, c, window, log[from..])
  }

  lemma NothingExports(decode: EventDecoder, c: Chain, window: int)
    requires |c.finality| == |c.blocks| == 0
    ensures Project(decode, c, window) == Err(DatasetFailed(EmptyDataset))
  {
  }

  /**
    Failing providers cannot spoil the dataset.  However the queries of a run of
    truthful reports fail or are cancelled, the export is that of an empty store or
    that of the contract run one of the reported ledgers tells.
   */
  lemma TruthfulRunsExport(
    u: Setup, sha: Hasher, rs: seq<Report>, window: int, read: LogReader, json: Json, stories: seq<Story>)
    requires u.Valid() && AllTruthful(u, rs) && AllConsistent(rs) && window > 0 && AllTold(read, json, rs, stories)
    ensures var c := RunReports(u, EmptyChain(sha), rs);
            || (c.blocks == [] && Project(Loaded(json), c, window) == Err(DatasetFailed(EmptyDataset)))
            || exists k :: 0 <= k < |rs| && ExportsRest(Loaded(json), c, window, stories[k], u.start)
  {
    hide Exports, TellsRun, Truthful, AllConsistent, RunReports, HeadersLink, GapFree, LevelsFall, Digest.Fold,
      Fixture.RunOf, Project, Skipped, Loaded;
    TruthfulRunsHoldALedger(u, sha, rs, |rs|);
    assert rs[..|rs|] == rs;
    var c := RunReports(u, EmptyChain(sha), rs);
    if c.blocks == [] {
      NothingExports(Loaded(json), c, window);
    } else {
      var k :| 0 <= k < |rs| && HonestRuns.Follows(u, c, rs[k].l);
      LedgerExports(u, c, window, read, json, rs[k].l, stories[k].ordered, stories[k].txs);
      assert ExportsRest(Loaded(json), c, window, stories[k], u.start);
    }
  }
}
