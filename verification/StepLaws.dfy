/** What a step refuses to start on, what a cancellation prevents, and that no log of a fetched range is lost. */
module StepLaws {
  import opened Types
  import opened Digest
  import opened Chain
  import opened ChainLaws
  import opened Rpc
  import opened LogOrder
  import opened Convert
  import opened Indexing
  import opened Provenance
  import Backfill

  // ----- Heads that cannot be ingested -----

  /** A missing head, or one whose number is no uint64, is an error; one below the start block is ignored. */
  lemma UnusableHeads(u: Setup, c: Chain, s: Session, announced: Option<Header>)
    requires |c.finality| == |c.blocks| && !s.cancelled(Enter)
    ensures announced.None? || !(0 <= announced.value.number < TWO64) ==>
              IngestHead(u, c, s, announced) == (c, Some(Disconnected))
    ensures announced.Some? && 0 <= announced.value.number < u.start ==> IngestHead(u, c, s, announced) == (c, None)
  {
  }

  lemma UnusableLatest(u: Setup, c: Chain, s: Session)
    requires u.Valid() && |c.finality| == |c.blocks| && !s.cancelled(Enter)
    ensures s.latest.Failed? ==> BackfillStep(u, c, s) == (c, Some(RpcFailed))
    ensures s.latest.Cancelled? ==> BackfillStep(u, c, s) == (c, Some(CancelledByCaller))
    ensures s.latest == Answer(None) ==> BackfillStep(u, c, s) == (c, Some(Disconnected))
    ensures s.latest.Answer? && s.latest.value.Some? ==>
              var n := s.latest.value.value.number;
              && (!(0 <= n < TWO64) ==> BackfillStep(u, c, s) == (c, Some(Disconnected)))
              && (0 <= n < u.start ==> BackfillStep(u, c, s) == (c, None))
  {
    hide BuildRanges, Indexing.Finish;
  }

  // ----- Cancellation -----

  lemma FinishUncancelled(u: Setup, c: Chain, s: Session, candidate: Blocks)
    requires |c.finality| == |c.blocks| && Indexing.Finish(u, c, s, candidate).0.blocks != c.blocks
    ensures candidate.Ok? && !s.cancelled(BeforeCommit)
  {
  }

  /** A head that is cancelled on entry or before the commit leaves the blocks as they are. */
  lemma CancelledHeadStoresNothing(u: Setup, c: Chain, s: Session, announced: Option<Header>)
    requires |c.finality| == |c.blocks| && (s.cancelled(Enter) || s.cancelled(BeforeCommit))
    ensures IngestHead(u, c, s, announced).0.blocks == c.blocks
    ensures s.cancelled(Enter) ==> IngestHead(u, c, s, announced) == (c, Some(CancelledByCaller))
  {
    hide HeadCandidate, Indexing.Finish, Refresh;
    RefreshStoresNothing(u, c, s);
    if CheckedNumber(announced, None).Ok? {
      var candidate := HeadCandidate(u, c, s, announced.value);
      if Indexing.Finish(u, c, s, candidate).0.blocks != c.blocks { FinishUncancelled(u, c, s, candidate); }
    }
  }

  /** Where the k-th range begins. */
  function RangeStart(from: nat, size: nat, k: nat): (n: nat)
    ensures n >= from
    decreases k
  {
    if k == 0 then from else RangeStart(from + size, size, k - 1)
  }

  lemma BuiltUncancelled(u: Setup, s: Session, from: uint64, to: uint64)
    requires u.Valid() && from <= to && BuildRange(u, s, from, to).Ok?
    ensures !s.cancelled(RangeEnd(from))
  {
    hide Backfill.Requests, RangeBlocks;
  }

  lemma {:induction false} RangesUncancelled(u: Setup, s: Session, from: uint64, latest: uint64, k: nat)
    requires u.Valid() && from <= latest && BuildRanges(u, s, from, latest).Ok?
    requires RangeStart(from, u.maxRange, k) <= latest
    ensures !s.cancelled(RangeEnd(RangeStart(from, u.maxRange, k)))
    decreases k
  {
    hide BuildRange;
    var to := BoundedEnd(from, u.maxRange, latest);
    if k == 0 {
      BuiltUncancelled(u, s, from, to);
    } else {
      RangesUncancelled(u, s, to + 1, latest, k - 1);
    }
  }

  /**
    A backfill that stores anything was cancelled nowhere: not on entry, not after
    any of its ranges of MaxRange blocks, and not before the commit.
   */
  lemma CancelledBackfillStoresNothing(u: Setup, c: Chain, s: Session, k: nat)
    requires u.Valid() && |c.finality| == |c.blocks| && BackfillStep(u, c, s).0.blocks != c.blocks
    ensures !s.cancelled(Enter) && !s.cancelled(BeforeCommit)
    ensures s.latest.Answer? && s.latest.value.Some? && u.start <= s.latest.value.value.number < TWO64
    ensures var start := RangeStart(u.start, u.maxRange, k);
            start <= s.latest.value.value.number ==> !s.cancelled(RangeEnd(start))
  {
    hide BuildRanges, Indexing.Finish, RangeStart;
    var latest: uint64 := s.latest.value.value.number;
    FinishUncancelled(u, c, s, BuildRanges(u, s, u.start, latest));
    if RangeStart(u.start, u.maxRange, k) <= latest { RangesUncancelled(u, s, u.start, latest, k); }
  }

  // ----- The walk, step by step -----

  /**
    From an unstored header whose parent is not stored either, the walk goes exactly
    as far as the retained depth: a deeper parent demands a resync unasked, any other
    is asked for, and must be well formed, of its height and of the parent's hash.
   */
  lemma WalkAsksTheRetained(u: Setup, c: Chain, s: Session, head: uint64, current: Header)
    requires Sound(c) && c.blocks != [] && 0 <= current.number < TWO64
    requires forall i | 0 <= i < |c.blocks| ::
               && !(c.blocks[i].number == current.number && c.blocks[i].hash == current.hash)
               && !(c.blocks[i].number == current.number - 1 && c.blocks[i].hash == current.parent)
    ensures current.number == 0 ==> Branch(u, c, s, head, current) == Err(NeedsResync(head, u.retainedDepth))
    ensures current.number > 0 ==>
              var parent: uint64, walked := current.number - 1, Branch(u, c, s, head, current);
              if c.blocks[|c.blocks| - 1].number > parent + u.retainedDepth then
                walked == Err(NeedsResync(head, u.retainedDepth))
              else
                match s.header(parent)
                case Failed => walked == Err(RpcFailed)
                case Cancelled => walked == Err(CancelledByCaller)
                case Answer(None) => walked == Err(Disconnected)
                case Answer(Some(h)) =>
                  if h.number == parent && h.hash == current.parent then
                    walked.Ok? <==> Branch(u, c, s, head, h).Ok?
                  else walked == Err(Disconnected)
  {
    hide GapFree, LevelsFall, Digest.Fold, Chain.Holds;
    HoldsExactly(c, current.number, current.hash);
    if current.number > 0 { HoldsExactly(c, current.number - 1, current.parent); }
  }

  // ----- Errors tell the truth -----

  /** Some check of the context, or some call, was cancelled. */
  ghost predicate SomethingCancelled(s: Session) {
    || (exists g: Gate :: s.cancelled(g))
    || s.latest.Cancelled? || s.safe.Cancelled? || s.finalized.Cancelled?
    || (exists n: uint64 :: s.header(n).Cancelled?)
    || (exists low: uint64, high: uint64 :: s.logsInRange(low, high).Cancelled?)
    || (exists h: Header :: s.logsInBlock(h).Cancelled?)
  }

  ghost predicate SomethingFailed(s: Session) {
    || s.latest.Failed? || s.safe.Failed? || s.finalized.Failed?
    || (exists n: uint64 :: s.header(n).Failed?)
    || (exists low: uint64, high: uint64 :: s.logsInRange(low, high).Failed?)
    || (exists h: Header :: s.logsInBlock(h).Failed?)
  }

  /** The error blames the caller or the provider only if that is what happened. */
  ghost predicate Truly(s: Session, e: IndexError) {
    && (e.CancelledByCaller? ==> SomethingCancelled(s))
    && (e.RpcFailed? ==> SomethingFailed(s))
  }

  ghost predicate TrulyFailed<T>(s: Session, r: Result<T, IndexError>) {
    r.Err? ==> Truly(s, r.error)
  }

  lemma HeaderTruly(s: Session, n: uint64)
    ensures TrulyFailed(s, CheckedReply(s.header(n), Some(n)))
  {
  }

  lemma {:induction false} BranchTruly(u: Setup, c: Chain, s: Session, head: uint64, current: Header)
    requires 0 <= current.number < TWO64 && c.blocks != []
    ensures TrulyFailed(s, Branch(u, c, s, head, current))
    decreases current.number
  {
    hide SomethingCancelled, SomethingFailed;
    if current.number > 0 {
      HeaderTruly(s, current.number - 1);
      var parent := CheckedReply(s.header(current.number - 1), Some(current.number - 1));
      if parent.Ok? { BranchTruly(u, c, s, head, parent.value); }
    }
  }

  lemma {:induction false} FirstBranchTruly(u: Setup, s: Session, current: Header)
    requires 0 <= current.number < TWO64
    ensures TrulyFailed(s, FirstBranch(u, s, current))
    decreases current.number
  {
    hide SomethingCancelled, SomethingFailed;
    if current.number > u.start {
      HeaderTruly(s, current.number - 1);
      var parent := CheckedReply(s.header(current.number - 1), Some(current.number - 1));
      if parent.Ok? { FirstBranchTruly(u, s, parent.value); }
    }
  }

  lemma {:induction false} EventsTruly(
    decode: Decoder, s: Session, header: Header, ordered: seq<Log>, seen: set<uint64>)
    ensures TrulyFailed(s, EventsOf(decode, header, ordered, seen))
  {
    if ordered != [] { EventsTruly(decode, s, header, ordered[1..], seen + {ordered[0].index}); }
  }

  lemma BlockTruly(decode: Decoder, s: Session, header: Header, logs: seq<Log>)
    ensures TrulyFailed(s, BlockFrom(decode, header, logs))
  {
    hide EventsOf;
    EventsTruly(decode, s, header, Sort(InBlockOrder, logs), {});
  }

  lemma {:induction false} FetchTruly(u: Setup, s: Session, hs: seq<Header>)
    ensures TrulyFailed(s, FetchAll(u, s, hs))
  {
    if hs != [] {
      hide BlockFrom;
      var h := hs[|hs| - 1];
      FetchTruly(u, s, hs[..|hs| - 1]);
      if s.logsInBlock(h).Answer? { BlockTruly(u.decode, s, h, s.logsInBlock(h).value); }
    }
  }

  lemma HeadCandidateTruly(u: Setup, c: Chain, s: Session, announced: Header)
    requires 0 <= announced.number < TWO64
    ensures TrulyFailed(s, HeadCandidate(u, c, s, announced))
  {
    hide Truly, Branch, FirstBranch, FetchAll;
    if c.blocks == [] {
      FirstBranchTruly(u, s, announced);
      if FirstBranch(u, s, announced).Ok? { FetchTruly(u, s, FirstBranch(u, s, announced).value); }
    } else {
      var walked := Branch(u, c, s, announced.number, announced);
      BranchTruly(u, c, s, announced.number, announced);
      if walked.Ok? { FetchTruly(u, s, walked.value); }
    }
  }

  lemma {:induction false} RangeBlocksTruly(u: Setup, s: Session, emitted: seq<Log>, from: uint64, end: nat)
    requires from <= end <= TWO64
    ensures TrulyFailed(s, RangeBlocks(u, s, emitted, from, end))
    decreases end
  {
    hide BlockFrom, Between, Truly;
    if from < end {
      var fetched := CheckedReply(s.header(end - 1), Some(end - 1));
      RangeBlocksTruly(u, s, emitted, from, end - 1);
      HeaderTruly(s, end - 1);
      if fetched.Ok? { BlockTruly(u.decode, s, fetched.value, Between(emitted, end - 1, end - 1)); }
    }
  }

  lemma BuildRangeTruly(u: Setup, s: Session, from: uint64, to: uint64)
    requires u.Valid() && from <= to
    ensures TrulyFailed(s, BuildRange(u, s, from, to))
  {
    hide Backfill.Requests, RangeBlocks;
    var config := Backfill.Config(from, to, u.minRange, u.maxRange);
    Backfill.FailureHasACause(s, InRange(from, to), config, from, u.maxRange);
    var pieces := Backfill.Requests(Backfill.Received(s, InRange(from, to)), config, from, u.maxRange);
    if pieces.Ok? { RangeBlocksTruly(u, s, Backfill.Emitted(pieces.value), from, to + 1); }
  }

  lemma {:induction false} BuildRangesTruly(u: Setup, s: Session, from: uint64, latest: uint64)
    requires u.Valid() && from <= latest
    ensures TrulyFailed(s, BuildRanges(u, s, from, latest))
    decreases latest - from
  {
    hide BuildRange, Truly;
    var to := BoundedEnd(from, u.maxRange, latest);
    BuildRangeTruly(u, s, from, to);
    if to < latest { BuildRangesTruly(u, s, to + 1, latest); }
  }

  ghost predicate TrulyEnded(s: Session, error: Option<IndexError>) {
    error.Some? ==> Truly(s, error.value)
  }

  lemma {:induction false} CommitTruly(c: Chain, s: Session, candidate: seq<Block>, retainedDepth: uint64, i: nat)
    requires |c.finality| == |c.blocks| && i <= |candidate|
    ensures TrulyEnded(s, CommitFrom(c, candidate, retainedDepth, i).1)
    decreases |candidate| - i
  {
    hide Chain.Reconcile, SomethingCancelled, SomethingFailed, Chain.Holds, Chain.Accepts, Chain.Push;
    if i < |candidate| {
      if c.Holds(candidate[i].number, candidate[i].hash) {
        CommitTruly(c, s, candidate, retainedDepth, i + 1);
      } else if c.Accepts(candidate[i]) {
        PushCoherent(c, candidate[i]);
        CommitTruly(c.Push(candidate[i]), s, candidate, retainedDepth, i + 1);
      }
    }
  }

  lemma PushCoherent(c: Chain, b: Block)
    requires |c.finality| == |c.blocks|
    ensures |c.Push(b).finality| == |c.Push(b).blocks|
  {
  }

  lemma RefreshTruly(u: Setup, c: Chain, s: Session)
    requires |c.finality| == |c.blocks|
    ensures TrulyEnded(s, Refresh(u, c, s).1)
  {
    hide Chain.MarkCheckpoints, Chain.Holds, Chain.Checkpoint;
  }

  lemma FinishTruly(u: Setup, c: Chain, s: Session, candidate: Blocks)
    requires |c.finality| == |c.blocks| && TrulyFailed(s, candidate)
    ensures TrulyEnded(s, Indexing.Finish(u, c, s, candidate).1)
  {
    hide CommitFrom, Refresh;
    if candidate.Ok? {
      CommitTruly(c, s, candidate.value, u.retainedDepth, 0);
      RefreshTruly(u, Commit(c, candidate.value, u.retainedDepth).0, s);
    }
  }

  /** A step reports a cancellation only if something was cancelled, and a failed call only if some call failed. */
  lemma ErrorsTellTheTruth(u: Setup, c: Chain, s: Session, announced: Option<Header>)
    requires u.Valid() && |c.finality| == |c.blocks|
    ensures TrulyEnded(s, IngestHead(u, c, s, announced).1)
    ensures TrulyEnded(s, BackfillStep(u, c, s).1)
  {
    hide HeadCandidate, Indexing.Finish, Refresh, BuildRanges;
    RefreshTruly(u, c, s);
    if CheckedNumber(announced, None).Ok? {
      HeadCandidateTruly(u, c, s, announced.value);
      FinishTruly(u, c, s, HeadCandidate(u, c, s, announced.value));
    }
    var latest := CheckedReply(s.latest, None);
    if latest.Ok? && u.start <= latest.value.number {
      BuildRangesTruly(u, s, u.start, latest.value.number);
      FinishTruly(u, c, s, BuildRanges(u, s, u.start, latest.value.number));
    }
  }

  // ----- Conservation -----

  lemma {:induction false} OneMoreHeight(logs: seq<Log>, low: nat, high: nat)
    requires low <= high + 1
    ensures |Between(logs, low, high + 1)| == |Between(logs, low, high)| + |Between(logs, high + 1, high + 1)|
  {
    if logs != [] { OneMoreHeight(logs[1..], low, high); }
  }

  lemma RangeBlockKeeps(u: Setup, s: Session, emitted: seq<Log>, n: uint64)
    requires RangeBlock(u, s, emitted, n).Ok?
    ensures |RangeBlock(u, s, emitted, n).value.events| == |Between(emitted, n, n)|
  {
    hide BlockFrom;
    BlockExactly(u.decode, CheckedReply(s.header(n), Some(n)).value, Between(emitted, n, n));
  }

  lemma CountsPush(bs: seq<Block>, b: Block)
    ensures EventCount(bs + [b]) == EventCount(bs) + |b.events|
  {
    EventCountLast(bs + [b]);
    assert (bs + [b])[..|bs|] == bs;
  }

  lemma {:induction false} RangeKeepsLogs(u: Setup, s: Session, emitted: seq<Log>, from: uint64, end: nat)
    requires from < end <= TWO64 && RangeBlocks(u, s, emitted, from, end).Ok?
    ensures EventCount(RangeBlocks(u, s, emitted, from, end).value) == |Between(emitted, from, end - 1)|
    decreases end
  {
    hide RangeBlock, Between, EventCount;
    RangeBlockKeeps(u, s, emitted, end - 1);
    CountsPush(RangeBlocks(u, s, emitted, from, end - 1).value, RangeBlock(u, s, emitted, end - 1).value);
    if from < end - 1 {
      RangeKeepsLogs(u, s, emitted, from, end - 1);
      OneMoreHeight(emitted, from, end - 2);
    } else {
      NoEvents();
    }
  }

  lemma NoEvents()
    ensures EventCount([]) == 0
  {
  }

  lemma {:induction false} EmittedAccepted(s: Session, accept: Log -> bool, pieces: seq<Backfill.Piece>)
    requires Backfill.AllFaithful(s, accept, pieces)
    ensures forall x | x in Backfill.Emitted(pieces) :: accept(x)
  {
    if pieces != [] {
      var p := pieces[|pieces| - 1];
      EmittedAccepted(s, accept, pieces[..|pieces| - 1]);
      assert Backfill.Faithful(s, accept, p);
    }
  }

  /**
    No log of a fetched range is lost: the blocks built for it have as many events as
    the answers to its successful requests, which tile the range, have logs.
   */
  lemma RangeLosesNothing(u: Setup, s: Session, from: uint64, to: uint64)
    requires u.Valid() && from <= to && BuildRange(u, s, from, to).Ok?
    ensures var config := Backfill.Config(from, to, u.minRange, u.maxRange);
            var accept := InRange(from, to);
            var pieces := Backfill.Requests(Backfill.Received(s, accept), config, from, u.maxRange);
            && pieces.Ok? && Backfill.Tiles(pieces.value, from, to, u.maxRange)
            && Backfill.AllFaithful(s, accept, pieces.value)
            && EventCount(BuildRange(u, s, from, to).value) == |Backfill.Emitted(pieces.value)|
  {
    hide Backfill.Requests, Backfill.AllFaithful, Backfill.Tiles, RangeBlocks, EventCount, Between;
    var config := Backfill.Config(from, to, u.minRange, u.maxRange);
    var accept := InRange(from, to);
    Backfill.BackfillTilesTheRange(s, accept, config);
    var pieces := Backfill.Requests(Backfill.Received(s, accept), config, from, u.maxRange).value;
    var emitted := Backfill.Emitted(pieces);
    EmittedAccepted(s, accept, pieces);
    forall i | 0 <= i < |emitted|
      ensures from <= emitted[i].blockNumber <= to
    {
      assert emitted[i] in emitted;
    }
    BetweenAll(emitted, from, to);
    RangeKeepsLogs(u, s, emitted, from, to + 1);
  }
}
