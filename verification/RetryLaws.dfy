/** A commit is durable: whatever happens to the finality refresh after it, a retry only repeats the refresh. */
module RetryLaws {
  import opened Types
  import opened Digest
  import opened Chain
  import opened ChainLaws
  import opened CommitLaws
  import opened SafetyLaws
  import opened Rpc
  import opened Indexing

  /** What follows a commit changes finality levels only, and on error not even those. */
  lemma RefreshIsDurable(u: Setup, c: Chain, s: Session)
    requires |c.finality| == |c.blocks|
    ensures var (c', error) := Refresh(u, c, s);
            && c'.blocks == c.blocks && c'.state == c.state && c'.sha == c.sha
            && (error.Some? ==> c' == c)
  {
    hide Chain.MarkCheckpoints, CheckFinality;
  }

  /** What a chain holds does not depend on its finality levels. */
  lemma HoldsIgnoresFinality(c: Chain, d: Chain, n: uint64, h: Hash)
    requires c.blocks == d.blocks
    ensures c.Holds(n, h) <==> d.Holds(n, h)
  {
  }

  // ----- Heads -----

  /** The chain that ingesting a head committed, before its refresh. */
  function CommittedHead(u: Setup, c: Chain, s: Session, announced: Header): (committed: Option<Chain>)
    requires |c.finality| == |c.blocks| && 0 <= announced.number < TWO64
    ensures committed.Some? ==> |committed.value.finality| == |committed.value.blocks|
  {
    var candidate := HeadCandidate(u, c, s, announced);
    if candidate.Err? || s.cancelled(BeforeCommit) || Commit(c, candidate.value, u.retainedDepth).1.Some? then None
    else Some(Commit(c, candidate.value, u.retainedDepth).0)
  }

  /** A head's candidate ends in the head. */
  lemma CandidateEndsInHead(u: Setup, c: Chain, s: Session, announced: Header)
    requires u.start <= announced.number < TWO64 && HeadCandidate(u, c, s, announced).Ok?
    requires !c.Holds(announced.number, announced.hash)
    ensures var bs := HeadCandidate(u, c, s, announced).value;
            bs != [] && bs[|bs| - 1].number == announced.number && bs[|bs| - 1].hash == announced.hash
  {
    var hs;
    if c.blocks == [] {
      FirstBranchLinks(u, s, announced);
      hs := FirstBranch(u, s, announced).value;
    } else {
      BranchLinks(u, c, s, announced.number, announced);
      hs := Branch(u, c, s, announced.number, announced).value;
    }
    FetchedBlocksMatch(u, s, hs);
  }

  lemma CommittedHoldsHead(u: Setup, c: Chain, s: Session, announced: Header)
    requires Safe(u, c) && u.start <= announced.number < TWO64 && !c.Holds(announced.number, announced.hash)
    requires CommittedHead(u, c, s, announced).Some?
    ensures CommittedHead(u, c, s, announced).value.Holds(announced.number, announced.hash)
  {
    hide Commit, HeadCandidate, GapFree, LevelsFall, Digest.Fold, Chain.Holds;
    HeadCandidateShape(u, c, s, announced);
    CandidateEndsInHead(u, c, s, announced);
    CommitIsAtomic(c, HeadCandidate(u, c, s, announced).value, u.retainedDepth);
  }

  /**
    A committed head stays: whether or not the refresh after it fails, the blocks
    and the state are those committed, a failed refresh leaves no mark at all, and
    ingesting the same head again does nothing but refresh.
   */
  lemma RetriedHeadOnlyRefreshes(u: Setup, c: Chain, s: Session, announced: Header, retry: Session)
    requires Safe(u, c) && u.start <= announced.number < TWO64 && !c.Holds(announced.number, announced.hash)
    requires !s.cancelled(Enter) && !retry.cancelled(Enter) && CommittedHead(u, c, s, announced).Some?
    ensures var committed := CommittedHead(u, c, s, announced).value;
            var (c', error) := IngestHead(u, c, s, Some(announced));
            && c'.blocks == committed.blocks && c'.state == committed.state
            && (error.Some? ==> c' == committed)
            && IngestHead(u, c', retry, Some(announced)) == Refresh(u, c', retry)
  {
    hide Commit, HeadCandidate, Refresh, Chain.Holds, GapFree, LevelsFall, Digest.Fold;
    var committed := CommittedHead(u, c, s, announced).value;
    CommittedHoldsHead(u, c, s, announced);
    RefreshIsDurable(u, committed, s);
    HoldsIgnoresFinality(committed, Refresh(u, committed, s).0, announced.number, announced.hash);
  }

  // ----- Commits and backfills -----

  lemma NothingIsAcceptedAgain(c: Chain, candidate: seq<Block>, k: nat)
    requires Sound(c) && GapFree(candidate) && k < |candidate| && NoWrap(c, candidate)
    requires c.Holds(candidate[|candidate| - 1].number, candidate[|candidate| - 1].hash)
    ensures !c.Accepts(candidate[k])
  {
    var last, tip := candidate[|candidate| - 1], c.blocks[|c.blocks| - 1];
    IndexInRun(c.blocks, last.number);
    assert candidate[k].number == candidate[0].number + k && last.number == candidate[0].number + (|candidate| - 1);
    assert tip.number == c.blocks[0].number + (|c.blocks| - 1);
  }

  /** Committing a candidate whose last block is stored changes nothing and reports no error. */
  lemma StoredCandidateIsNoOp(c: Chain, candidate: seq<Block>, retainedDepth: uint64)
    requires Sound(c) && GapFree(candidate) && NoWrap(c, candidate) && candidate != []
    requires c.Holds(candidate[|candidate| - 1].number, candidate[|candidate| - 1].hash)
    ensures Commit(c, candidate, retainedDepth) == (c, None)
  {
    hide CommitFrom, CommitFork, GapFree, LevelsFall, Digest.Fold, Chain.Holds, Chain.Accepts;
    GapFreeIsLinear(candidate);
    CommitDecided(c, candidate, retainedDepth, 0);
    var k := FirstUnheld(c, candidate, 0);
    if k < |candidate| {
      NothingIsAcceptedAgain(c, candidate, k);
      StoredForkIsNoOp(c, candidate, retainedDepth);
    }
  }

  lemma StoredForkIsNoOp(c: Chain, candidate: seq<Block>, retainedDepth: uint64)
    requires Sound(c) && Linear(candidate) && candidate != []
    requires c.Holds(candidate[|candidate| - 1].number, candidate[|candidate| - 1].hash)
    ensures CommitFork(c, candidate, retainedDepth) == (c, None)
  {
    hide GapFree, LevelsFall, Digest.Fold, Chain.Holds, Linear;
    assert c.NewestShared(candidate) == |candidate| - 1;
    ReconcileOfLinear(c, candidate, Some(retainedDepth));
    assert candidate[|candidate|..] == [];
  }

  /** A commit is idempotent. */
  lemma CommitIsIdempotent(c: Chain, candidate: seq<Block>, retainedDepth: uint64)
    requires Sound(c) && GapFree(candidate) && NoWrap(c, candidate)
    requires Commit(c, candidate, retainedDepth).1.None? && NoWrap(Commit(c, candidate, retainedDepth).0, candidate)
    ensures var c' := Commit(c, candidate, retainedDepth).0;
            Commit(c', candidate, retainedDepth) == (c', None)
  {
    if candidate != [] {
      hide Commit, GapFree, LevelsFall, Digest.Fold, Chain.Holds, NoWrap;
      CommitIsAtomic(c, candidate, retainedDepth);
      var c' := Commit(c, candidate, retainedDepth).0;
      CommitKeeps(c, candidate, c');
      StoredCandidateIsNoOp(c', candidate, retainedDepth);
    }
  }

  /** What a backfill fetched. */
  function Fetched(u: Setup, s: Session): Blocks
    requires u.Valid()
  {
    var latest := CheckedReply(s.latest, None);
    if latest.Err? then Err(latest.error)
    else if latest.value.number < u.start then Ok([])
    else BuildRanges(u, s, u.start, latest.value.number)
  }

  lemma BelowTheWrap(u: Setup, c: Chain, candidate: seq<Block>)
    requires Safe(u, c) && (u.start > 0 || |c.blocks| < TWO64) && Consecutive(candidate, u.start)
    ensures NoWrap(c, candidate)
  {
    assert c.blocks != [] ==> c.Tip().value.number == c.blocks[0].number + (|c.blocks| - 1);
  }

  /** The chain that a backfill committed, before its refresh. */
  function CommittedFill(u: Setup, c: Chain, s: Session): (committed: Option<Chain>)
    requires u.Valid() && |c.finality| == |c.blocks|
    ensures committed.Some? ==> |committed.value.finality| == |committed.value.blocks|
  {
    var fetched := Fetched(u, s);
    if fetched.Err? || fetched.value == [] || s.cancelled(BeforeCommit)
      || Commit(c, fetched.value, u.retainedDepth).1.Some?
    then None
    else Some(Commit(c, fetched.value, u.retainedDepth).0)
  }

  lemma FetchedShape(u: Setup, s: Session)
    requires u.Valid() && Fetched(u, s).Ok? && Linear(Fetched(u, s).value)
    ensures Consecutive(Fetched(u, s).value, u.start) && GapFree(Fetched(u, s).value)
  {
    hide BuildRanges;
    var latest := CheckedReply(s.latest, None).value;
    if u.start <= latest.number {
      RangesAreConsecutive(u, s, u.start, latest.number);
      ConsecutiveLinearIsGapFree(Fetched(u, s).value, u.start);
    }
  }

  lemma CommittedFillIsSafe(u: Setup, c: Chain, s: Session)
    requires u.Valid() && Safe(u, c) && (u.start > 0 || |c.blocks| < TWO64) && CommittedFill(u, c, s).Some?
    ensures var committed, fetched := CommittedFill(u, c, s).value, Fetched(u, s).value;
            && Safe(u, committed) && Linear(fetched) && GapFree(fetched) && Consecutive(fetched, u.start)
            && committed.Holds(fetched[|fetched| - 1].number, fetched[|fetched| - 1].hash)
  {
    hide Fetched, CommitFrom, GapFree, LevelsFall, Digest.Fold, Chain.Holds, Linear, NoWrap;
    var fetched := Fetched(u, s).value;
    FetchedShape(u, s);
    BelowTheWrap(u, c, fetched);
    CommitIsAtomic(c, fetched, u.retainedDepth);
    CommitKeeps(c, fetched, CommittedFill(u, c, s).value);
  }

  lemma FillStepCommits(u: Setup, c: Chain, s: Session)
    requires u.Valid() && |c.finality| == |c.blocks| && !s.cancelled(Enter) && CommittedFill(u, c, s).Some?
    ensures BackfillStep(u, c, s) == Refresh(u, CommittedFill(u, c, s).value, s)
  {
    hide Commit, BuildRanges, Refresh;
  }

  lemma RefetchedOnlyRefreshes(u: Setup, c: Chain, retry: Session)
    requires u.Valid() && Safe(u, c) && (u.start > 0 || |c.blocks| < TWO64)
    requires !retry.cancelled(Enter) && !retry.cancelled(BeforeCommit)
    requires var fetched := Fetched(u, retry);
             fetched.Ok? && fetched.value != [] && Linear(fetched.value)
             && c.Holds(fetched.value[|fetched.value| - 1].number, fetched.value[|fetched.value| - 1].hash)
    ensures BackfillStep(u, c, retry) == Refresh(u, c, retry)
  {
    hide Commit, Fetched, Refresh, GapFree, LevelsFall, Digest.Fold, Chain.Holds, Linear, NoWrap, BackfillStep;
    var fetched := Fetched(u, retry).value;
    FetchedShape(u, retry);
    BelowTheWrap(u, c, fetched);
    StoredCandidateIsNoOp(c, fetched, u.retainedDepth);
    FillStepCommits(u, c, retry);
  }

  /** The same for a backfill: retried with the same blocks, it does nothing but refresh what it had committed. */
  lemma RetriedBackfillOnlyRefreshes(u: Setup, c: Chain, s: Session, retry: Session)
    requires u.Valid() && Safe(u, c) && (u.start > 0 || |c.blocks| < TWO64)
    requires !s.cancelled(Enter) && !retry.cancelled(Enter) && !retry.cancelled(BeforeCommit)
    requires CommittedFill(u, c, s).Some? && Fetched(u, retry) == Fetched(u, s)
    requires u.start > 0 || |CommittedFill(u, c, s).value.blocks| < TWO64
    ensures var committed := CommittedFill(u, c, s).value;
            var (c', error) := BackfillStep(u, c, s);
            && c'.blocks == committed.blocks && c'.state == committed.state
            && (error.Some? ==> c' == committed)
            && BackfillStep(u, c', retry) == Refresh(u, c', retry)
  {
    hide Commit, Fetched, Refresh, GapFree, LevelsFall, Digest.Fold, Chain.Holds, Linear, BackfillStep, FinalizedPrefix;
    var committed, fetched := CommittedFill(u, c, s).value, Fetched(u, s).value;
    CommittedFillIsSafe(u, c, s);
    FillStepCommits(u, c, s);
    RefreshIsDurable(u, committed, s);
    var c' := Refresh(u, committed, s).0;
    RefreshKeeps(u, committed, s);
    HoldsIgnoresFinality(committed, c', fetched[|fetched| - 1].number, fetched[|fetched| - 1].hash);
    RefetchedOnlyRefreshes(u, c', retry);
  }
}
