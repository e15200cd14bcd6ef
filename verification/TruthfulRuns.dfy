/**
  Whole runs of the indexer against providers that never lie but may fail, and may
  be cancelled, at any point: nothing between two reported chains is ever stored.
 */
module TruthfulRuns {
  import opened Types
  import opened Digest
  import opened Chain
  import opened ChainLaws
  import opened SafetyLaws
  import opened ResyncLaws
  import opened Rpc
  import opened Convert
  import opened LogOrder
  import opened Indexing
  import opened HonestRuns
  import Backfill

  /** Header queries that are answered are answered truthfully. */
  ghost predicate TellsHeaders(s: Session, l: Ledger) {
    forall n: uint64 | n < |l.headers| && s.header(n).Answer? :: s.header(n) == Answer(Some(l.headers[n]))
  }

  /** So are the log queries of single blocks. */
  ghost predicate TellsBlockLogs(s: Session, l: Ledger) {
    forall n: uint64 {:trigger s.logsInBlock(l.headers[n])} | n < |l.headers| && s.logsInBlock(l.headers[n]).Answer? ::
      multiset(s.logsInBlock(l.headers[n]).value) == multiset(Between(l.logs, n, n))
  }

  /** A report of a ledger by a provider that answers what it answers truthfully. */
  ghost predicate Truthful(u: Setup, r: Report)
    requires u.Valid()
  {
    && r.l.Valid(u.decode) && u.start <= r.l.Head() && (u.start > 0 || |r.l.headers| < TWO64)
    && TellsHeaders(r.s, r.l)
    && match r
       case Announced(s, l) => TellsBlockLogs(s, l)
       case Filled(s, l) =>
         && (s.latest.Answer? ==> s.latest == Answer(Some(l.headers[|l.headers| - 1])))
         && Backfill.ServesLogs(s, l.logs)
  }

  // ----- What the provider would have answered -----

  function CompletedHeader(s: Session, l: Ledger): uint64 -> Reply<Option<Header>> {
    (n: uint64) => if s.header(n).Answer? || n >= |l.headers| then s.header(n) else Answer(Some(l.headers[n]))
  }

  function CompletedLogs(s: Session, l: Ledger): Header -> Reply<seq<Log>> {
    (h: Header) =>
      if s.logsInBlock(h).Answer? || !(0 <= h.number < TWO64) then s.logsInBlock(h)
      else Answer(Between(l.logs, h.number, h.number))
  }

  /** The same session had every query been answered and nothing been cancelled around the commit. */
  function Completed(s: Session, l: Ledger): Session
    requires l.headers != []
  {
    Session(
      Answer(Some(l.headers[|l.headers| - 1])), CompletedHeader(s, l), s.logsInRange, CompletedLogs(s, l), s.safe,
      s.finalized, (g: Gate) => g != Enter && g != BeforeCommit && s.cancelled(g))
  }

  lemma CompletedServesHeads(s: Session, l: Ledger)
    requires l.Linked() && TellsHeaders(s, l) && TellsBlockLogs(s, l)
    ensures ServesHeads(Completed(s, l), l)
  {
    hide HeadersLink;
  }

  lemma CompletedServesRanges(s: Session, l: Ledger)
    requires l.Linked() && TellsHeaders(s, l) && Backfill.ServesLogs(s, l.logs)
    ensures ServesRanges(Completed(s, l), l)
  {
    hide HeadersLink;
  }

  /** What one session answered the other answered alike. */
  ghost predicate Extends(s: Session, s': Session) {
    && (forall n: uint64 | s.header(n).Answer? :: s'.header(n) == s.header(n))
    && (forall h: Header | s.logsInBlock(h).Answer? :: s'.logsInBlock(h) == s.logsInBlock(h))
    && s'.logsInRange == s.logsInRange
    && (forall g: Gate | s'.cancelled(g) :: s.cancelled(g))
    && (forall low: uint64, high: uint64, i: nat ::
          s'.cancelled(BeforeLog(low, high, i)) == s.cancelled(BeforeLog(low, high, i)))
  }

  lemma CompletedExtends(s: Session, l: Ledger)
    requires l.headers != []
    ensures Extends(s, Completed(s, l))
  {
  }

  // ----- A collected candidate does not depend on what was not answered -----

  /** The provider failed or the caller gave up: nothing was found to be wrong. */
  predicate Interrupted(e: IndexError) {
    e.RpcFailed? || e.CancelledByCaller?
  }

  /** The first result is the second, unless it was interrupted. */
  predicate SameUnlessInterrupted<T(==)>(r: Result<T, IndexError>, r': Result<T, IndexError>) {
    r == r' || (r.Err? && Interrupted(r.error))
  }

  lemma {:induction false} BranchExtends(u: Setup, c: Chain, s: Session, s': Session, head: uint64, current: Header)
    requires 0 <= current.number < TWO64 && c.blocks != [] && Extends(s, s')
    ensures SameUnlessInterrupted(Branch(u, c, s, head, current), Branch(u, c, s', head, current))
    decreases current.number
  {
    if current.number > 0 && !c.Holds(current.number, current.hash) && !c.Holds(current.number - 1, current.parent) {
      var parent := CheckedReply(s.header(current.number - 1), Some(current.number - 1));
      if parent.Ok? { BranchExtends(u, c, s, s', head, parent.value); }
    }
  }

  lemma {:induction false} FirstBranchExtends(u: Setup, s: Session, s': Session, current: Header)
    requires 0 <= current.number < TWO64 && Extends(s, s')
    ensures SameUnlessInterrupted(FirstBranch(u, s, current), FirstBranch(u, s', current))
    decreases current.number
  {
    if current.number > u.start {
      var parent := CheckedReply(s.header(current.number - 1), Some(current.number - 1));
      if parent.Ok? { FirstBranchExtends(u, s, s', parent.value); }
    }
  }

  lemma {:induction false} FetchAllExtends(u: Setup, s: Session, s': Session, headers: seq<Header>)
    requires Extends(s, s')
    ensures SameUnlessInterrupted(FetchAll(u, s, headers), FetchAll(u, s', headers))
  {
    hide BlockFrom;
    if headers != [] {
      FetchAllExtends(u, s, s', headers[..|headers| - 1]);
      FetchBlockExtends(u, s, s', headers[|headers| - 1]);
    }
  }

  lemma FetchBlockExtends(u: Setup, s: Session, s': Session, h: Header)
    requires Extends(s, s')
    ensures SameUnlessInterrupted(FetchBlock(u, s, h), FetchBlock(u, s', h))
  {
    hide BlockFrom;
  }

  lemma HeadCandidateExtends(u: Setup, c: Chain, s: Session, s': Session, announced: Header)
    requires 0 <= announced.number < TWO64 && Extends(s, s')
    ensures SameUnlessInterrupted(HeadCandidate(u, c, s, announced), HeadCandidate(u, c, s', announced))
  {
    hide Branch, FirstBranch, FetchAll, Extends;
    if c.blocks == [] {
      FirstBranchExtends(u, s, s', announced);
      if FirstBranch(u, s, announced).Ok? { FetchAllExtends(u, s, s', FirstBranch(u, s, announced).value); }
    } else {
      BranchExtends(u, c, s, s', announced.number, announced);
      var walked := Branch(u, c, s, announced.number, announced);
      if walked.Ok? { FetchAllExtends(u, s, s', walked.value); }
    }
  }

  lemma {:induction false} DeliveredExtends(
    s: Session, s': Session, accept: Log -> bool, low: uint64, high: uint64, logs: seq<Log>, i: nat)
    requires Extends(s, s') && i <= |logs|
    ensures Backfill.Delivered(s', accept, low, high, logs, i) == Backfill.Delivered(s, accept, low, high, logs, i)
    decreases |logs| - i
  {
    if i < |logs| { DeliveredExtends(s, s', accept, low, high, logs, i + 1); }
  }

  lemma ReceivedExtends(s: Session, s': Session, accept: Log -> bool, low: uint64, high: uint64)
    requires Extends(s, s')
    ensures Backfill.Received(s', accept)(low, high) == Backfill.Received(s, accept)(low, high)
  {
    hide Backfill.Delivered;
    if s.logsInRange(low, high).Answer? {
      DeliveredExtends(s, s', accept, low, high, Sort(AtOrBefore, s.logsInRange(low, high).value), 0);
    }
  }

  lemma {:induction false} RequestsExtend(
    s: Session, s': Session, accept: Log -> bool, config: Backfill.Config, next: uint64, size: uint64)
    requires config.Valid() && config.from <= next <= config.to && config.minRange <= size <= config.maxRange
    requires Extends(s, s')
    ensures Backfill.Requests(Backfill.Received(s', accept), config, next, size)
         == Backfill.Requests(Backfill.Received(s, accept), config, next, size)
    decreases config.to - next, size
  {
    hide Backfill.InclusiveEnd, Backfill.GrowRange, Backfill.Shrink, Backfill.Requests, Backfill.Received, Extends;
    var ask := Backfill.Received(s, accept);
    var high := Backfill.InclusiveEnd(next, size, config.to);
    Backfill.RequestsStep(ask, config, next, size);
    Backfill.RequestsStep(Backfill.Received(s', accept), config, next, size);
    ReceivedExtends(s, s', accept, next, high);
    var received := ask(next, high);
    if received.Err? && received.error.RpcFailed? && high - next + 1 > config.minRange {
      RequestsExtend(s, s', accept, config, next, Backfill.Shrink(high - next + 1, config.minRange));
    } else if received.Ok? && high < config.to {
      RequestsExtend(s, s', accept, config, high + 1, Backfill.GrowRange(size, config.minRange, config.maxRange));
    }
  }

  lemma {:induction false} RangeBlocksExtend(
    u: Setup, s: Session, s': Session, emitted: seq<Log>, from: uint64, end: nat)
    requires Extends(s, s') && from <= end <= TWO64
    ensures SameUnlessInterrupted(RangeBlocks(u, s, emitted, from, end), RangeBlocks(u, s', emitted, from, end))
    decreases end
  {
    hide BlockFrom, Between;
    if from < end {
      RangeBlocksExtend(u, s, s', emitted, from, end - 1);
      RangeBlockExtends(u, s, s', emitted, end - 1);
    }
  }

  lemma RangeBlockExtends(u: Setup, s: Session, s': Session, emitted: seq<Log>, n: uint64)
    requires Extends(s, s')
    ensures SameUnlessInterrupted(RangeBlock(u, s, emitted, n), RangeBlock(u, s', emitted, n))
  {
    hide BlockFrom, Between;
  }

  lemma BuildRangeExtends(u: Setup, s: Session, s': Session, from: uint64, to: uint64)
    requires u.Valid() && from <= to && Extends(s, s')
    requires forall f: uint64 :: s'.cancelled(RangeEnd(f)) == s.cancelled(RangeEnd(f))
    ensures SameUnlessInterrupted(BuildRange(u, s, from, to), BuildRange(u, s', from, to))
  {
    hide Backfill.Requests, RangeBlocks, Extends;
    var config := Backfill.Config(from, to, u.minRange, u.maxRange);
    RequestsExtend(s, s', InRange(from, to), config, from, u.maxRange);
    var pieces := Backfill.Requests(Backfill.Received(s, InRange(from, to)), config, from, u.maxRange);
    if pieces.Ok? { RangeBlocksExtend(u, s, s', Backfill.Emitted(pieces.value), from, to + 1); }
  }

  lemma {:induction false} BuildRangesExtend(u: Setup, s: Session, s': Session, from: uint64, latest: uint64)
    requires u.Valid() && from <= latest && Extends(s, s')
    requires forall f: uint64 :: s'.cancelled(RangeEnd(f)) == s.cancelled(RangeEnd(f))
    ensures SameUnlessInterrupted(BuildRanges(u, s, from, latest), BuildRanges(u, s', from, latest))
    decreases latest - from
  {
    hide BuildRange, Extends;
    var to := BoundedEnd(from, u.maxRange, latest);
    BuildRangeExtends(u, s, s', from, to);
    if to < latest { BuildRangesExtend(u, s, s', to + 1, latest); }
  }

  /** A truthful range is never refused: its logs are where they were asked for. */
  lemma TruthfulRequests(s: Session, all: seq<Log>, config: Backfill.Config)
    requires config.Valid() && Backfill.ServesLogs(s, all)
    ensures var fetch := Backfill.Requests(
              Backfill.Received(s, InRange(config.from, config.to)), config, config.from, config.maxRange);
            fetch.Err? ==> Interrupted(fetch.error)
  {
    hide Backfill.Requests;
    var accept := InRange(config.from, config.to);
    Backfill.FailureHasACause(s, accept, config, config.from, config.maxRange);
    var fetch := Backfill.Requests(Backfill.Received(s, accept), config, config.from, config.maxRange);
    if fetch.Err? {
      var low: uint64, high: uint64 :| Backfill.Ends(s, accept, config, low, high, fetch.error);
      if fetch.error.Disconnected? {
        var x :| x in s.logsInRange(low, high).value && !accept(x);
        assert x in multiset(s.logsInRange(low, high).value);
        BetweenCounts(all, low, high, x);
      }
    }
  }

  /** With all headers served, a range is built or interrupted. */
  lemma ServedRange(u: Setup, s: Session, l: Ledger, from: uint64, to: uint64)
    requires u.Valid() && l.Valid(u.decode) && ServesRanges(s, l) && from <= to <= l.Head()
    ensures BuildRange(u, s, from, to).Err? ==> Interrupted(BuildRange(u, s, from, to).error)
  {
    hide RangeMakes, Backfill.ServesLogs, HeadersLink, Ledger.Assembled, RangeBlocks, Backfill.Requests;
    var config := Backfill.Config(from, to, u.minRange, u.maxRange);
    TruthfulRequests(s, l.logs, config);
    var pieces := Backfill.Requests(Backfill.Received(s, InRange(from, to)), config, from, u.maxRange);
    if pieces.Ok? {
      HonestRangeMakes(u, s, l, config, InRange(from, to));
      RangeIsTheLedger(u, s, l, Backfill.Emitted(pieces.value), from, to + 1);
    }
  }

  lemma {:induction false} ServedRanges(u: Setup, s: Session, l: Ledger, from: uint64)
    requires u.Valid() && l.Valid(u.decode) && ServesRanges(s, l) && from <= l.Head()
    ensures BuildRanges(u, s, from, l.Head()).Err? ==> Interrupted(BuildRanges(u, s, from, l.Head()).error)
    decreases l.Head() - from
  {
    hide BuildRange, Ledger.Assembled, HeadersLink;
    var to := BoundedEnd(from, u.maxRange, l.Head());
    ServedRange(u, s, l, from, to);
    if to < l.Head() { ServedRanges(u, s, l, to + 1); }
  }

  // ----- One report -----

  /** The promised outcome, or an interruption that leaves the store exactly as it was. */
  ghost predicate Settles(u: Setup, c: Chain, out: Result', s: Session, l: Ledger)
    requires |c.finality| == |c.blocks| && 0 < |l.headers| == |l.blocks| <= TWO64 && u.start <= l.Head()
  {
    out == Refreshed(u, Resync(u, c, l), s) || (out.0 == c && out.1.Some? && Interrupted(out.1.value))
  }

  lemma FinishSettles(u: Setup, c: Chain, s: Session, candidate: Blocks, l: Ledger)
    requires |c.finality| == |c.blocks| && 0 < |l.headers| == |l.blocks| <= TWO64 && u.start <= l.Head()
    requires if candidate.Ok? then Commit(c, candidate.value, u.retainedDepth) == Resync(u, c, l)
             else Interrupted(candidate.error) || (c, Some(candidate.error)) == Resync(u, c, l)
    ensures Settles(u, c, Indexing.Finish(u, c, s, candidate), s, l)
  {
    hide Commit, Refresh, NewestCommon, Resync;
  }

  lemma HeadSettles(u: Setup, c: Chain, s: Session, l: Ledger)
    requires u.Valid() && Safe(u, c) && Truthful(u, Announced(s, l))
    ensures Settles(u, c, IngestHead(u, c, s, Some(l.headers[l.Head()])), s, l)
  {
    hide Commit, Refresh, Resync, HeadCandidate, HeadersLink, GapFree, LevelsFall, Digest.Fold, Indexing.Finish,
      Extends, Ledger.Assembled;
    var head := l.headers[l.Head()];
    if c.Holds(head.number, head.hash) {
      StoredHeadSettles(u, c, l);
    } else {
      CompletedServesHeads(s, l);
      CompletedExtends(s, l);
      HeadCandidateExtends(u, c, s, Completed(s, l), head);
      HeadCommits(u, c, Completed(s, l), l);
      FinishSettles(u, c, s, HeadCandidate(u, c, s, head), l);
    }
  }

  lemma StoredHeadSettles(u: Setup, c: Chain, l: Ledger)
    requires Sound(c) && l.Linked() && u.start <= l.Head() && c.Holds(l.Head(), l.headers[l.Head()].hash)
    ensures Resync(u, c, l) == (c, None)
  {
    HoldsIffShared(c, l, l.Head());
    var at := l.Head() - c.blocks[0].number;
    assert c.blocks[at].number == l.Head();
    var j := NewestCommon(c, l);
    assert c.blocks[j].number == c.blocks[0].number + j;
  }

  lemma FillSettles(u: Setup, c: Chain, s: Session, l: Ledger)
    requires u.Valid() && Safe(u, c) && (u.start > 0 || |c.blocks| < TWO64) && Truthful(u, Filled(s, l))
    ensures Settles(u, c, BackfillStep(u, c, s), s, l)
  {
    hide Commit, Refresh, Resync, BuildRanges, HeadersLink, GapFree, LevelsFall, Digest.Fold, Indexing.Finish,
      Extends, Ledger.Assembled, Backfill.ServesLogs;
    if CheckedReply(s.latest, None).Ok? {
      var candidate := BuildRanges(u, s, u.start, l.Head());
      CompletedServesRanges(s, l);
      CompletedExtends(s, l);
      BuildRangesExtend(u, s, Completed(s, l), u.start, l.Head());
      ServedRanges(u, Completed(s, l), l, u.start);
      if candidate.Ok? {
        RangesAreTheLedger(u, Completed(s, l), l, u.start);
        CommitWholeLedger(u, c, l);
      }
      FinishSettles(u, c, s, candidate, l);
    }
  }

  /**
    A report by a truthful provider has exactly the promised outcome, or it is
    interrupted by a failure or a cancellation and leaves the store exactly as it
    was.  It is never taken for a broken chain.
   */
  lemma ReportSettles(u: Setup, c: Chain, r: Report)
    requires u.Valid() && Safe(u, c) && (u.start > 0 || |c.blocks| < TWO64) && Truthful(u, r) && r.l.headers != []
    ensures Settles(u, c, Indexed(u, c, r), r.s, r.l) && Safe(u, Indexed(u, c, r).0)
  {
    hide IngestHead, BackfillStep, Settles, GapFree, LevelsFall, Digest.Fold, FinalizedPrefix, Ledger.Assembled,
      HeadersLink, TellsHeaders, TellsBlockLogs, Backfill.ServesLogs;
    match r
    case Announced(s, l) =>
      HeadSettles(u, c, s, l);
      HeadKeepsSafe(u, c, s, Some(l.headers[l.Head()]));
    case Filled(s, l) =>
      FillSettles(u, c, s, l);
      FillKeepsSafe(u, c, s);
  }

  /** The blocks a report may leave. */
  lemma SettledBlocks(u: Setup, c: Chain, out: Result', s: Session, l: Ledger)
    requires |c.finality| == |c.blocks| && 0 < |l.headers| == |l.blocks| <= TWO64 && u.start <= l.Head()
    requires Settles(u, c, out, s, l)
    ensures out.0.blocks == c.blocks || (Resync(u, c, l).1.None? && out.0.blocks == Resync(u, c, l).0.blocks)
  {
    hide Refresh, NewestCommon;
    RefreshErrors(u, Resync(u, c, l).0, s);
  }

  lemma TruthfulLedger(u: Setup, r: Report)
    requires u.Valid() && Truthful(u, r)
    ensures r.l.Linked() && u.start <= r.l.Head() && (u.start > 0 || |r.l.headers| < TWO64)
  {
  }

  /** An honest report is a truthful one that answers everything. */
  lemma HonestIsTruthful(u: Setup, r: Report)
    requires u.Valid() && Honest(u, r)
    ensures Truthful(u, r)
  {
    hide HeadersLink, Ledger.Assembled, Backfill.ServesLogs, AnswersRanges;
  }

  // ----- Runs -----

  ghost predicate AllTruthful(u: Setup, rs: seq<Report>)
    requires u.Valid()
  {
    forall k | 0 <= k < |rs| :: Truthful(u, rs[k]) && rs[k].l.headers != []
  }

  /** Nothing is stored, or exactly one reported ledger from the start block on. */
  ghost predicate HoldsReported(u: Setup, c: Chain, rs: seq<Report>) {
    c.blocks == [] || exists k :: 0 <= k < |rs| && Follows(u, c, rs[k].l)
  }

  lemma FromEmpty(u: Setup, c: Chain, out: Result', s: Session, l: Ledger)
    requires |c.finality| == |c.blocks| && c.blocks == [] && l.Linked() && u.start <= l.Head()
    requires Settles(u, c, out, s, l)
    ensures out.0.blocks == [] || Follows(u, out.0, l)
  {
    hide HeadersLink, Resync, Settles;
    FirstReport(u, c, l);
    SettledBlocks(u, c, out, s, l);
  }

  lemma FromLedger(u: Setup, c: Chain, out: Result', s: Session, p: Ledger, l: Ledger)
    requires Sound(c) && Follows(u, c, p) && l.Linked() && u.start <= l.Head() && Consistent(p, l)
    requires Settles(u, c, out, s, l)
    ensures Follows(u, out.0, p) || Follows(u, out.0, l)
  {
    hide HeadersLink, Resync, Contains, Consistent, GapFree, LevelsFall, Digest.Fold, Settles;
    SettledBlocks(u, c, out, s, l);
    if Resync(u, c, l).1.None? { OneReport(u, c, p, l); }
  }

  lemma PairIsConsistent(rs: seq<Report>, i: nat, j: nat)
    requires AllConsistent(rs) && i < |rs| && j < |rs|
    ensures Consistent(rs[i].l, rs[j].l)
  {
  }

  lemma OneMoreReport(u: Setup, c: Chain, rs: seq<Report>, n: nat)
    requires u.Valid() && AllTruthful(u, rs) && AllConsistent(rs) && n < |rs|
    requires Safe(u, c) && HoldsReported(u, c, rs[..n])
    ensures rs[n].l.headers != []
    ensures Safe(u, Indexed(u, c, rs[n]).0) && HoldsReported(u, Indexed(u, c, rs[n]).0, rs[..n + 1])
  {
    hide Truthful, Indexed, Settles, Consistent, AllConsistent, Follows, GapFree, LevelsFall, Digest.Fold;
    var out := Indexed(u, c, rs[n]);
    TruthfulLedger(u, rs[n]);
    if c.blocks == [] {
      ReportSettles(u, c, rs[n]);
      FromEmpty(u, c, out, rs[n].s, rs[n].l);
      assert rs[..n + 1][n] == rs[n];
    } else {
      var k :| 0 <= k < n && Follows(u, c, rs[..n][k].l);
      assert rs[..n + 1][k] == rs[..n][k] == rs[k] && rs[..n + 1][n] == rs[n];
      FollowedLength(u, c, rs[k].l);
      TruthfulLedger(u, rs[k]);
      ReportSettles(u, c, rs[n]);
      PairIsConsistent(rs, k, n);
      FromLedger(u, c, out, rs[n].s, rs[k].l, rs[n].l);
    }
  }

  /**
    Failures leave no trace.  A store begun empty and fed reports of one network by
    providers that never lie, each of which may fail or be cancelled at any query,
    holds after every report either nothing or exactly the blocks of one reported
    ledger from the start block on: never a part of one, never a mixture of two.
   */
  lemma {:induction false} TruthfulRunsHoldALedger(u: Setup, sha: Hasher, rs: seq<Report>, n: nat)
    requires u.Valid() && AllTruthful(u, rs) && AllConsistent(rs) && n <= |rs|
    ensures var c := RunReports(u, EmptyChain(sha), rs[..n]);
            Safe(u, c) && HoldsReported(u, c, rs[..n])
  {
    hide Indexed, Safe, Truthful, Consistent;
    if n == 0 {
      FreshStoreIsSafe(u, sha);
    } else {
      TruthfulRunsHoldALedger(u, sha, rs, n - 1);
      assert rs[..n][..n - 1] == rs[..n - 1];
      OneMoreReport(u, RunReports(u, EmptyChain(sha), rs[..n - 1]), rs, n - 1);
    }
  }

  /**
    And whatever failed before, one report that is answered is enough: unless it
    demands a resync, the store then holds its ledger, or a reported one that
    contains its head.
   */
  lemma OneAnswerIsEnough(u: Setup, sha: Hasher, rs: seq<Report>)
    requires u.Valid() && rs != [] && AllTruthful(u, rs) && AllConsistent(rs) && Honest(u, rs[|rs| - 1])
    requires var n := |rs| - 1;
             var error := Indexed(u, RunReports(u, EmptyChain(sha), rs[..n]), rs[n]).1;
             error.Some? ==> !error.value.NeedsResync?
    ensures var c, last := RunReports(u, EmptyChain(sha), rs), rs[|rs| - 1].l;
            || Follows(u, c, last)
            || exists k :: 0 <= k < |rs| - 1 && Follows(u, c, rs[k].l) && Contains(rs[k].l, last)
  {
    hide Indexed, Truthful, Honest, Consistent, AllConsistent, Contains, Safe, Follows;
    var n := |rs| - 1;
    var c := RunReports(u, EmptyChain(sha), rs[..n]);
    TruthfulRunsHoldALedger(u, sha, rs, n);
    TruthfulLedger(u, rs[n]);
    if c.blocks == [] {
      HonestOnEmpty(u, c, rs[n]);
    } else {
      var k :| 0 <= k < n && Follows(u, c, rs[..n][k].l);
      assert rs[..n][k] == rs[k];
      TruthfulLedger(u, rs[k]);
      PairIsConsistent(rs, k, n);
      NextReport(u, c, rs[n], rs[k].l);
      StillFollows(u, c, Indexed(u, c, rs[n]).0, rs[k].l, rs[n].l);
    }
  }

  lemma StillFollows(u: Setup, c: Chain, c': Chain, p: Ledger, l: Ledger)
    requires Follows(u, c, p) && l.Linked() && u.start <= l.Head()
    ensures c'.blocks == c.blocks ==> Follows(u, c', p)
    ensures c'.blocks == l.blocks[u.start..] ==> Follows(u, c', l)
  {
  }

  lemma HonestOnEmpty(u: Setup, c: Chain, r: Report)
    requires u.Valid() && Safe(u, c) && c.blocks == [] && Honest(u, r) && r.l.headers != []
    ensures Follows(u, Indexed(u, c, r).0, r.l)
  {
    hide Indexed, Refresh, Resync, GapFree, LevelsFall, Digest.Fold, Honest, HeadersLink;
    HonestLedger(u, r);
    HonestIsExact(u, c, r);
    FirstReport(u, c, r.l);
    RefreshErrors(u, Resync(u, c, r.l).0, r.s);
  }
}
