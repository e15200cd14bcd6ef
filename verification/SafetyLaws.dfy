/** Whole-run safety of the indexer against an arbitrary provider. */
module SafetyLaws {
  import opened Types
  import opened Digest
  import opened Chain
  import opened ChainLaws
  import opened CommitLaws
  import opened Rpc
  import opened Indexing

  // ----- What the collected candidates look like -----

  ghost predicate HeadersLink(hs: seq<Header>) {
    && (forall i | 0 <= i < |hs| :: 0 <= hs[i].number < TWO64)
    && (forall i | 1 <= i < |hs| :: hs[i].number == hs[i - 1].number + 1 && hs[i].parent == hs[i - 1].hash)
  }

  lemma LinkSnoc(hs: seq<Header>, next: Header)
    requires HeadersLink(hs) && 0 <= next.number < TWO64
    requires hs != [] ==> next.number == hs[|hs| - 1].number + 1 && next.parent == hs[|hs| - 1].hash
    ensures HeadersLink(hs + [next])
  {
  }

  /** A walk that succeeds returns a linked run of headers ending in the one it started from. */
  lemma {:induction false} BranchLinks(u: Setup, c: Chain, s: Session, head: uint64, current: Header)
    requires 0 <= current.number < TWO64 && c.blocks != []
    requires Branch(u, c, s, head, current).Ok?
    ensures var hs := Branch(u, c, s, head, current).value;
            HeadersLink(hs) && (hs != [] ==> hs[|hs| - 1] == current && hs[0].number > 0)
    decreases current.number
  {
    if !c.Holds(current.number, current.hash) && !c.Holds(current.number - 1, current.parent) {
      var parent := CheckedReply(s.header(current.number - 1), Some(current.number - 1)).value;
      BranchLinks(u, c, s, head, parent);
      LinkSnoc(Branch(u, c, s, head, parent).value, current);
    }
  }

  lemma {:induction false} FirstBranchLinks(u: Setup, s: Session, current: Header)
    requires u.start <= current.number < TWO64
    requires FirstBranch(u, s, current).Ok?
    ensures var hs := FirstBranch(u, s, current).value;
            HeadersLink(hs) && hs != [] && hs[|hs| - 1] == current && hs[0].number == u.start
    decreases current.number
  {
    if current.number > u.start {
      var parent := CheckedReply(s.header(current.number - 1), Some(current.number - 1)).value;
      FirstBranchLinks(u, s, parent);
      LinkSnoc(FirstBranch(u, s, parent).value, current);
    }
  }

  lemma {:induction false} FetchedBlocksMatch(u: Setup, s: Session, hs: seq<Header>)
    requires FetchAll(u, s, hs).Ok?
    ensures var bs := FetchAll(u, s, hs).value;
            && |bs| == |hs|
            && forall i | 0 <= i < |bs| ::
               bs[i].number == hs[i].number && bs[i].hash == hs[i].hash && bs[i].parent == hs[i].parent
  {
    if hs != [] {
      FetchedBlocksMatch(u, s, hs[..|hs| - 1]);
    }
  }

  lemma {:induction false} MatchedRunIsGapFree(hs: seq<Header>, bs: seq<Block>)
    requires HeadersLink(hs) && |bs| == |hs|
    requires forall i | 0 <= i < |bs| ::
          bs[i].number == hs[i].number && bs[i].hash == hs[i].hash && bs[i].parent == hs[i].parent
    ensures GapFree(bs)
  {
    if bs != [] {
      var n := |bs| - 1;
      MatchedRunIsGapFree(hs[..n], bs[..n]);
      assert GapFree([bs[n]]);
      if n > 0 {
        assert bs[..n][n - 1].number == bs[..n][0].number + (n - 1);
        JoinRuns(bs[..n], [bs[n]]);
      }
      assert bs[..n] + [bs[n]] == bs;
    }
  }

  /** A head's candidate is gap-free; it begins at the start block of an empty store and above zero otherwise. */
  lemma HeadCandidateShape(u: Setup, c: Chain, s: Session, announced: Header)
    requires u.start <= announced.number < TWO64 && HeadCandidate(u, c, s, announced).Ok?
    ensures var bs := HeadCandidate(u, c, s, announced).value;
            && GapFree(bs)
            && (bs != [] ==> if c.blocks == [] then bs[0].number == u.start else bs[0].number > 0)
  {
    var hs;
    if c.blocks == [] {
      FirstBranchLinks(u, s, announced);
      hs := FirstBranch(u, s, announced).value;
    } else {
      BranchLinks(u, c, s, announced.number, announced);
      hs := Branch(u, c, s, announced.number, announced).value;
    }
    FetchedBlocksMatch(u, s, hs);
    MatchedRunIsGapFree(hs, FetchAll(u, s, hs).value);
  }

  /** Heights follow each other; the parent links of a backfill are only checked at commit. */
  ghost predicate Consecutive(bs: seq<Block>, first: nat) {
    forall i | 0 <= i < |bs| :: bs[i].number == first + i
  }

  lemma {:induction false} RangeIsConsecutive(u: Setup, s: Session, emitted: seq<Rpc.Log>, from: uint64, end: nat)
    requires from <= end <= TWO64 && RangeBlocks(u, s, emitted, from, end).Ok?
    ensures var bs := RangeBlocks(u, s, emitted, from, end).value;
            |bs| == end - from && Consecutive(bs, from)
    decreases end
  {
    if from < end {
      RangeIsConsecutive(u, s, emitted, from, end - 1);
    }
  }

  lemma {:induction false} RangesAreConsecutive(u: Setup, s: Session, from: uint64, latest: uint64)
    requires u.Valid() && from <= latest && BuildRanges(u, s, from, latest).Ok?
    ensures var bs := BuildRanges(u, s, from, latest).value;
            |bs| == latest - from + 1 && Consecutive(bs, from)
    decreases latest - from
  {
    hide BuildRange;
    var to := BoundedEnd(from, u.maxRange, latest);
    RangeOfBlocks(u, s, from, to);
    if to < latest {
      RangesAreConsecutive(u, s, to + 1, latest);
    }
  }

  lemma RangeOfBlocks(u: Setup, s: Session, from: uint64, to: uint64)
    requires u.Valid() && from <= to && BuildRange(u, s, from, to).Ok?
    ensures var bs := BuildRange(u, s, from, to).value;
            |bs| == to + 1 - from && Consecutive(bs, from)
  {
    var config := Backfill.Config(from, to, u.minRange, u.maxRange);
    var pieces := Backfill.Requests(Backfill.Received(s, InRange(from, to)), config, from, u.maxRange);
    RangeIsConsecutive(u, s, Backfill.Emitted(pieces.value), from, to + 1);
  }

  // ----- Every step keeps the store safe -----

  /** The store's invariant under the indexer. */
  ghost predicate Safe(u: Setup, c: Chain) {
    Sound(c) && (c.blocks != [] ==> c.blocks[0].number == u.start)
  }

  /** One step of the indexer with whatever the provider answers during it. */
  datatype Step = FillStep(s: Session) | HeadStep(s: Session, announced: Option<Header>)

  function Performed(u: Setup, c: Chain, step: Step): (c': Chain)
    requires u.Valid() && |c.finality| == |c.blocks|
    ensures |c'.finality| == |c'.blocks|
  {
    match step
    case FillStep(s) => BackfillStep(u, c, s).0
    case HeadStep(s, announced) => IngestHead(u, c, s, announced).0
  }

  lemma RefreshKeeps(u: Setup, c: Chain, s: Session)
    requires Sound(c)
    ensures var (c', error) := Refresh(u, c, s);
            && Sound(c') && c' == c.(finality := c'.finality)
            && (error.Some? ==> c' == c)
            && FinalizedPrefix(c) <= FinalizedPrefix(c')
  {
    var checked := CheckFinality(u, c, s);
    if checked.Ok? {
      CheckpointsKeep(c, checked.value.0, checked.value.1);
    }
  }

  lemma FinishKeeps(u: Setup, c: Chain, s: Session, candidate: Blocks)
    requires Safe(u, c)
    requires candidate.Ok? && Linear(candidate.value) ==> GapFree(candidate.value) && NoWrap(c, candidate.value)
    requires candidate.Ok? && candidate.value != [] && c.blocks == [] ==> candidate.value[0].number == u.start
    ensures var c' := Finish(u, c, s, candidate).0;
            Safe(u, c') && c'.sha == c.sha && FinalizedPrefix(c) <= FinalizedPrefix(c')
  {
    if candidate.Ok? && !s.cancelled(BeforeCommit) && Linear(candidate.value) {
      CommitIsAtomic(c, candidate.value, u.retainedDepth);
      var (committed, error) := Commit(c, candidate.value, u.retainedDepth);
      CommitKeeps(c, candidate.value, committed);
      RefreshKeeps(u, committed, s);
    }
  }

  lemma ConsecutiveLinearIsGapFree(bs: seq<Block>, first: nat)
    requires Linear(bs) && Consecutive(bs, first)
    ensures GapFree(bs)
  {
  }

  lemma FillKeepsSafe(u: Setup, c: Chain, s: Session)
    requires u.Valid() && Safe(u, c) && (u.start > 0 || |c.blocks| < TWO64)
    ensures var c' := BackfillStep(u, c, s).0;
            Safe(u, c') && c'.sha == c.sha && FinalizedPrefix(c) <= FinalizedPrefix(c')
  {
    var latest := CheckedReply(s.latest, None);
    if latest.Ok? && latest.value.number >= u.start {
      var candidate := BuildRanges(u, s, u.start, latest.value.number);
      if candidate.Ok? {
        RangesAreConsecutive(u, s, u.start, latest.value.number);
        if Linear(candidate.value) { ConsecutiveLinearIsGapFree(candidate.value, u.start); }
      }
      assert c.blocks != [] ==> c.Tip().value.number == c.blocks[0].number + (|c.blocks| - 1);
      FinishKeeps(u, c, s, candidate);
    }
  }

  lemma HeadKeepsSafe(u: Setup, c: Chain, s: Session, announced: Option<Header>)
    requires Safe(u, c)
    ensures var c' := IngestHead(u, c, s, announced).0;
            Safe(u, c') && c'.sha == c.sha && FinalizedPrefix(c) <= FinalizedPrefix(c')
  {
    hide HeadCandidate, Finish, Refresh, GapFree, LevelsFall, FinalizedPrefix, Digest.Fold;
    RefreshKeeps(u, c, s);
    if CheckedNumber(announced, None).Ok? && announced.value.number >= u.start {
      var candidate := HeadCandidate(u, c, s, announced.value);
      if candidate.Ok? { HeadCandidateShape(u, c, s, announced.value); }
      FinishKeeps(u, c, s, candidate);
    }
  }

  /** Whatever happens in a step, the store stays safe and its finalized history only grows. */
  lemma StepKeepsSafe(u: Setup, c: Chain, step: Step)
    requires u.Valid() && Safe(u, c) && (u.start > 0 || |c.blocks| < TWO64)
    ensures var c' := Performed(u, c, step);
            Safe(u, c') && c'.sha == c.sha && FinalizedPrefix(c) <= FinalizedPrefix(c')
  {
    match step
    case FillStep(s) => FillKeepsSafe(u, c, s);
    case HeadStep(s, announced) => HeadKeepsSafe(u, c, s, announced);
  }

  function RunSteps(u: Setup, c: Chain, steps: seq<Step>): (c': Chain)
    requires u.Valid() && |c.finality| == |c.blocks|
    ensures |c'.finality| == |c'.blocks|
  {
    if steps == [] then c else Performed(u, RunSteps(u, c, steps[..|steps| - 1]), steps[|steps| - 1])
  }

  /** A run begun at height zero must stop short of 2^64 blocks; any other run needs no such limit. */
  ghost predicate StaysBelowMax(u: Setup, c: Chain, steps: seq<Step>)
    requires u.Valid() && |c.finality| == |c.blocks|
  {
    u.start > 0 || forall k | 0 <= k <= |steps| :: |RunSteps(u, c, steps[..k]).blocks| < TWO64
  }

  /**
    Whole-run safety.  For every sequence of backfills and announced heads, with
    arbitrary answers, failures and cancellations, and for every point of the run:
    the store is a gap-free linked run from the start block with falling finality
    and folded state, and what was finalized at that point is a prefix of what is
    finalized at the end.
   */
  lemma {:induction false} WholeRunIsSafe(u: Setup, c: Chain, steps: seq<Step>, earlier: nat)
    requires u.Valid() && Safe(u, c) && StaysBelowMax(u, c, steps) && earlier <= |steps|
    ensures var mid := RunSteps(u, c, steps[..earlier]);
            var end := RunSteps(u, c, steps);
            Safe(u, mid) && Safe(u, end) && end.sha == c.sha && FinalizedPrefix(mid) <= FinalizedPrefix(end)
    decreases |steps|
  {
    hide Performed, FinalizedPrefix, GapFree, LevelsFall, Digest.Fold;
    var n := |steps|;
    if n == 0 {
      assert steps[..earlier] == steps;
    } else {
      var init := steps[..n - 1];
      assert forall k | 0 <= k <= n - 1 :: init[..k] == steps[..k];
      var cut := if earlier < n then earlier else n - 1;
      WholeRunIsSafe(u, c, init, cut);
      assert init[..cut] == steps[..cut];
      assert steps[..n] == steps;
      StepKeepsSafe(u, RunSteps(u, c, init), steps[n - 1]);
    }
  }

  lemma FreshStoreIsSafe(u: Setup, sha: Hasher)
    ensures Safe(u, EmptyChain(sha))
  {
  }
}
