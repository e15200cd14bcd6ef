/** Where stored blocks come from: whatever a provider does, nothing is stored that it did not report as such. */
module Provenance {
  import opened Types
  import opened Digest
  import opened Chain
  import opened SafetyLaws
  import opened Rpc
  import opened LogOrder
  import opened Convert
  import opened Indexing
  import Backfill

  // ----- What a provider reports during one step -----

  /** The log is in the answer to some log query. */
  ghost predicate ReportsLog(s: Session, x: Log) {
    || (exists low: uint64, high: uint64 :: s.logsInRange(low, high).Answer? && x in s.logsInRange(low, high).value)
    || (exists h: Header :: s.logsInBlock(h).Answer? && x in s.logsInBlock(h).value)
  }

  /** The header is the announced one, or the answer to the query for its height. */
  predicate ReportsHeader(s: Session, announced: Option<Header>, h: Header) {
    0 <= h.number < TWO64 && (announced == Some(h) || s.header(h.number) == Answer(Some(h)))
  }

  /** Some reported log that names the block by height and hash, and is not removed, decodes to the event. */
  ghost predicate ReportsEvent(decode: Decoder, s: Session, number: uint64, hash: Hash, e: Event) {
    exists x :: ReportsLog(s, x) && x.blockNumber == number && x.blockHash == hash && !x.removed && Makes(decode, x, e)
  }

  /** The block carries a reported header, and each of its events is that of a reported log of this very block. */
  ghost predicate ReportsBlock(decode: Decoder, s: Session, announced: Option<Header>, b: Block) {
    && ReportsHeader(s, announced, Header(b.number, b.hash, b.parent, b.timestamp))
    && forall e | e in b.events :: ReportsEvent(decode, s, b.number, b.hash, e)
  }

  ghost predicate AllReported(decode: Decoder, s: Session, announced: Option<Header>, bs: seq<Block>) {
    forall b | b in bs :: ReportsBlock(decode, s, announced, b)
  }

  lemma ConvertedIsReported(decode: Decoder, s: Session, announced: Option<Header>, header: Header, logs: seq<Log>)
    requires BlockFrom(decode, header, logs).Ok? && ReportsHeader(s, announced, header)
    requires forall x | x in logs :: ReportsLog(s, x)
    ensures ReportsBlock(decode, s, announced, BlockFrom(decode, header, logs).value)
  {
    hide BlockFrom, ReportsLog, Makes;
    BlockExactly(decode, header, logs);
    var b := BlockFrom(decode, header, logs).value;
    assert header == Header(b.number, b.hash, b.parent, b.timestamp);
    forall e | e in b.events
      ensures ReportsEvent(decode, s, b.number, b.hash, e)
    {
      var i :| 0 <= i < |logs| && Makes(decode, logs[i], e);
      assert ReportsLog(s, logs[i]);
    }
  }

  // ----- Candidates of a head -----

  ghost predicate AllHeadersReported(s: Session, announced: Option<Header>, hs: seq<Header>) {
    forall h | h in hs :: ReportsHeader(s, announced, h)
  }

  lemma {:induction false} BranchIsReported(u: Setup, c: Chain, s: Session, announced: Option<Header>, head: uint64,
      current: Header)
    requires c.blocks != [] && ReportsHeader(s, announced, current) && Branch(u, c, s, head, current).Ok?
    ensures AllHeadersReported(s, announced, Branch(u, c, s, head, current).value)
    decreases current.number
  {
    if !c.Holds(current.number, current.hash) && !c.Holds(current.number - 1, current.parent) {
      BranchIsReported(u, c, s, announced, head,
        CheckedReply(s.header(current.number - 1), Some(current.number - 1)).value);
    }
  }

  lemma {:induction false} FirstBranchIsReported(u: Setup, s: Session, announced: Option<Header>, current: Header)
    requires ReportsHeader(s, announced, current) && FirstBranch(u, s, current).Ok?
    ensures AllHeadersReported(s, announced, FirstBranch(u, s, current).value)
    decreases current.number
  {
    if current.number > u.start {
      FirstBranchIsReported(u, s, announced,
        CheckedReply(s.header(current.number - 1), Some(current.number - 1)).value);
    }
  }

  lemma FetchedIsReported(u: Setup, s: Session, announced: Option<Header>, h: Header)
    requires FetchBlock(u, s, h).Ok? && ReportsHeader(s, announced, h)
    ensures ReportsBlock(u.decode, s, announced, FetchBlock(u, s, h).value)
  {
    hide BlockFrom, ReportsBlock;
    ConvertedIsReported(u.decode, s, announced, h, s.logsInBlock(h).value);
  }

  lemma {:induction false} FetchIsReported(u: Setup, s: Session, announced: Option<Header>, hs: seq<Header>)
    requires FetchAll(u, s, hs).Ok? && AllHeadersReported(s, announced, hs)
    ensures AllReported(u.decode, s, announced, FetchAll(u, s, hs).value)
  {
    hide FetchBlock, ReportsBlock, ReportsHeader;
    if hs != [] {
      var init, h := hs[..|hs| - 1], hs[|hs| - 1];
      FetchIsReported(u, s, announced, init);
      FetchedIsReported(u, s, announced, h);
    }
  }

  lemma HeadCandidateIsReported(u: Setup, c: Chain, s: Session, announced: Header)
    requires 0 <= announced.number < TWO64 && HeadCandidate(u, c, s, announced).Ok?
    ensures AllReported(u.decode, s, Some(announced), HeadCandidate(u, c, s, announced).value)
  {
    hide Branch, FirstBranch, FetchAll, AllReported, AllHeadersReported;
    if c.blocks == [] {
      FirstBranchIsReported(u, s, Some(announced), announced);
      FetchIsReported(u, s, Some(announced), FirstBranch(u, s, announced).value);
    } else {
      BranchIsReported(u, c, s, Some(announced), announced.number, announced);
      FetchIsReported(u, s, Some(announced), Branch(u, c, s, announced.number, announced).value);
    }
  }

  // ----- Candidates of a backfill -----

  ghost predicate AllLogsReported(s: Session, logs: seq<Log>) {
    forall x | x in logs :: ReportsLog(s, x)
  }

  lemma {:induction false} EmittedIsReported(s: Session, accept: Log -> bool, pieces: seq<Backfill.Piece>)
    requires Backfill.AllFaithful(s, accept, pieces)
    ensures AllLogsReported(s, Backfill.Emitted(pieces))
  {
    if pieces != [] {
      var init, p := pieces[..|pieces| - 1], pieces[|pieces| - 1];
      EmittedIsReported(s, accept, init);
      assert Backfill.Faithful(s, accept, p);
      forall x | x in p.logs
        ensures ReportsLog(s, x)
      {
        assert x in multiset(p.logs) && x in multiset(s.logsInRange(p.low, p.high).value);
      }
    }
  }

  lemma RangeBlockIsReported(u: Setup, s: Session, emitted: seq<Log>, n: uint64)
    requires AllLogsReported(s, emitted) && RangeBlock(u, s, emitted, n).Ok?
    ensures ReportsBlock(u.decode, s, None, RangeBlock(u, s, emitted, n).value)
  {
    hide BlockFrom, ReportsBlock, ReportsLog;
    var header := CheckedReply(s.header(n), Some(n)).value;
    BetweenIsPart(emitted, n, n);
    ConvertedIsReported(u.decode, s, None, header, Between(emitted, n, n));
  }

  lemma {:induction false} RangeBlocksAreReported(u: Setup, s: Session, emitted: seq<Log>, from: uint64, end: nat)
    requires from <= end <= TWO64 && AllLogsReported(s, emitted) && RangeBlocks(u, s, emitted, from, end).Ok?
    ensures AllReported(u.decode, s, None, RangeBlocks(u, s, emitted, from, end).value)
    decreases end
  {
    hide RangeBlock, ReportsBlock, AllLogsReported;
    if from < end {
      RangeBlocksAreReported(u, s, emitted, from, end - 1);
      RangeBlockIsReported(u, s, emitted, end - 1);
    }
  }

  lemma BuildRangeIsReported(u: Setup, s: Session, from: uint64, to: uint64)
    requires u.Valid() && from <= to && BuildRange(u, s, from, to).Ok?
    ensures AllReported(u.decode, s, None, BuildRange(u, s, from, to).value)
  {
    hide Backfill.Requests, Backfill.AllFaithful, RangeBlocks, AllReported;
    var config := Backfill.Config(from, to, u.minRange, u.maxRange);
    var accept := InRange(from, to);
    Backfill.BackfillTilesTheRange(s, accept, config);
    var pieces := Backfill.Requests(Backfill.Received(s, accept), config, from, u.maxRange).value;
    EmittedIsReported(s, accept, pieces);
    RangeBlocksAreReported(u, s, Backfill.Emitted(pieces), from, to + 1);
  }

  lemma {:induction false} BuildRangesIsReported(u: Setup, s: Session, from: uint64, latest: uint64)
    requires u.Valid() && from <= latest && BuildRanges(u, s, from, latest).Ok?
    ensures AllReported(u.decode, s, None, BuildRanges(u, s, from, latest).value)
    decreases latest - from
  {
    hide BuildRange, ReportsBlock;
    var to := BoundedEnd(from, u.maxRange, latest);
    BuildRangeIsReported(u, s, from, to);
    if to < latest { BuildRangesIsReported(u, s, to + 1, latest); }
  }

  // ----- A commit stores nothing else -----

  ghost predicate Within(bs: seq<Block>, stored: seq<Block>, candidate: seq<Block>) {
    forall b | b in bs :: b in stored || b in candidate
  }

  lemma ForkStoresCandidate(c: Chain, candidate: seq<Block>, retainedDepth: uint64)
    requires |c.finality| == |c.blocks| && candidate != []
    ensures Within(CommitFork(c, candidate, retainedDepth).0.blocks, c.blocks, candidate)
  {
    hide Chain.Refusal, Chain.Holds, Linear, Chain.NewestShared, Chain.Reorg, ChainError.NeedsResync;
    var k := c.NewestShared(candidate) + 1;
    ReorgStoresBranch(c, candidate[k..], Some(retainedDepth));
    DropIsPart(candidate, k);
  }

  lemma DropIsPart(bs: seq<Block>, k: nat)
    requires k <= |bs|
    ensures forall b | b in bs[k..] :: b in bs
  {
  }

  lemma ReorgStoresBranch(c: Chain, branch: seq<Block>, bound: Option<uint64>)
    requires |c.finality| == |c.blocks|
    ensures Within(c.Reorg(branch, bound).chain.blocks, c.blocks, branch)
  {
    hide Chain.Holds, Linear, Chain.Checkpoint, FirstAbove, Chain.Rollback, FoldFrom;
    if branch != [] && c.Refusal(branch, bound).None? {
      var cut := c.Rollback(branch[0].number - 1).chain;
      RollbackStoresNothing(c, branch[0].number - 1);
      assert cut.PushAll(branch).blocks == cut.blocks + branch;
    }
  }

  lemma RollbackStoresNothing(c: Chain, to: uint64)
    requires |c.finality| == |c.blocks|
    ensures forall b | b in c.Rollback(to).chain.blocks :: b in c.blocks
  {
    hide Digest.Fold;
  }

  lemma {:induction false} CommitStoresCandidate(c: Chain, candidate: seq<Block>, retainedDepth: uint64, i: nat)
    requires |c.finality| == |c.blocks| && i <= |candidate|
    ensures Within(CommitFrom(c, candidate, retainedDepth, i).0.blocks, c.blocks, candidate)
    decreases |candidate| - i
  {
    hide CommitFork;
    if i < |candidate| {
      if c.Holds(candidate[i].number, candidate[i].hash) {
        CommitStoresCandidate(c, candidate, retainedDepth, i + 1);
      } else if c.Accepts(candidate[i]) {
        CommitStoresCandidate(c.Push(candidate[i]), candidate, retainedDepth, i + 1);
        assert forall b | b in c.Push(candidate[i]).blocks :: b in c.blocks || b == candidate[i];
      } else {
        ForkStoresCandidate(c, candidate, retainedDepth);
      }
    }
  }

  lemma RefreshStoresNothing(u: Setup, c: Chain, s: Session)
    requires |c.finality| == |c.blocks|
    ensures Refresh(u, c, s).0.blocks == c.blocks
  {
  }

  lemma FinishStoresCandidate(u: Setup, c: Chain, s: Session, candidate: Blocks)
    requires |c.finality| == |c.blocks|
    ensures Within(Finish(u, c, s, candidate).0.blocks, c.blocks, if candidate.Ok? then candidate.value else [])
  {
    hide CommitFrom, Refresh;
    if candidate.Ok? && Linear(candidate.value) {
      CommitStoresCandidate(c, candidate.value, u.retainedDepth, 0);
      RefreshStoresNothing(u, Commit(c, candidate.value, u.retainedDepth).0, s);
    }
  }

  // ----- Runs -----

  ghost predicate ReportedIn(decode: Decoder, step: Step, b: Block) {
    match step
    case FillStep(s) => ReportsBlock(decode, s, None, b)
    case HeadStep(s, announced) => ReportsBlock(decode, s, announced, b)
  }

  lemma StepStoresReported(u: Setup, c: Chain, step: Step)
    requires u.Valid() && |c.finality| == |c.blocks|
    ensures forall b | b in Performed(u, c, step).blocks :: b in c.blocks || ReportedIn(u.decode, step, b)
  {
    hide Finish, HeadCandidate, BuildRanges, Refresh, ReportsBlock;
    match step
    case FillStep(s) =>
      var latest := CheckedReply(s.latest, None);
      if latest.Ok? && latest.value.number >= u.start {
        var candidate := BuildRanges(u, s, u.start, latest.value.number);
        FinishStoresCandidate(u, c, s, candidate);
        if candidate.Ok? { BuildRangesIsReported(u, s, u.start, latest.value.number); }
      }
    case HeadStep(s, announced) =>
      RefreshStoresNothing(u, c, s);
      if CheckedNumber(announced, None).Ok? {
        var candidate := HeadCandidate(u, c, s, announced.value);
        FinishStoresCandidate(u, c, s, candidate);
        if candidate.Ok? { HeadCandidateIsReported(u, c, s, announced.value); }
      }
  }

  /**
    Nothing is made up.  After any run of steps on an empty store, with any providers,
    every stored block carries a header that was reported in one of the steps, and
    each of its events decodes from a log that was reported in that same step as not
    removed and as belonging to the block of this height and hash.
   */
  lemma {:induction false} StoredBlocksWereReported(u: Setup, sha: Hasher, steps: seq<Step>, b: Block)
    requires u.Valid() && b in RunSteps(u, EmptyChain(sha), steps).blocks
    ensures exists k :: 0 <= k < |steps| && ReportedIn(u.decode, steps[k], b)
  {
    hide Performed, ReportedIn;
    var n := |steps| - 1;
    assert steps != [];
    StepStoresReported(u, RunSteps(u, EmptyChain(sha), steps[..n]), steps[n]);
    if b in RunSteps(u, EmptyChain(sha), steps[..n]).blocks {
      StoredBlocksWereReported(u, sha, steps[..n], b);
      var k :| 0 <= k < n && ReportedIn(u.decode, steps[..n][k], b);
      assert steps[..n][k] == steps[k];
    }
  }
}
