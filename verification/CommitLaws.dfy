/** commitCandidate mutates the store block by block, yet is all or nothing. */
module CommitLaws {
  import opened Types
  import opened Digest
  import opened Chain
  import opened ChainLaws
  import opened Rpc
  import opened Indexing

  /** The first position from `i` on whose block is not stored. */
  function FirstUnheld(c: Chain, candidate: seq<Block>, i: nat): (k: nat)
    requires i <= |candidate|
    ensures i <= k <= |candidate|
    ensures forall j | i <= j < k :: c.Holds(candidate[j].number, candidate[j].hash)
    ensures k < |candidate| ==> !c.Holds(candidate[k].number, candidate[k].hash)
    decreases |candidate| - i
  {
    if i == |candidate| || !c.Holds(candidate[i].number, candidate[i].hash) then i
    else FirstUnheld(c, candidate, i + 1)
  }

  /** No append can wrap around the largest height. */
  ghost predicate NoWrap(c: Chain, candidate: seq<Block>) {
    c.blocks != [] && candidate != [] ==> c.Tip().value.number < MAX_HEIGHT || candidate[0].number > 0
  }

  lemma AcceptsNext(c: Chain, candidate: seq<Block>, i: nat)
    requires GapFree(c.blocks) && GapFree(candidate) && 1 <= i < |candidate|
    requires c.blocks != [] && c.blocks[|c.blocks| - 1] == candidate[i - 1]
    ensures c.Accepts(candidate[i]) && !c.Holds(candidate[i].number, candidate[i].hash)
    ensures GapFree(c.Push(candidate[i]).blocks)
  {
    assert Links(candidate[i - 1], candidate[i]);
    assert candidate[i].number == candidate[i - 1].number + 1;
    assert c.blocks[|c.blocks| - 1].number == c.blocks[0].number + (|c.blocks| - 1);
    IndexInRun(c.blocks, candidate[i].number);
    assert GapFree([candidate[i]]);
    JoinRuns(c.blocks, [candidate[i]]);
  }

  lemma PushThenAll(c: Chain, b: Block, rest: seq<Block>)
    ensures c.Push(b).PushAll(rest) == c.PushAll([b] + rest)
  {
    FoldFromCons(c.sha, c.state, b, rest);
    assert c.blocks + [b] + rest == c.blocks + ([b] + rest);
    assert c.finality + [SEEN] + AllSeen(|rest|) == c.finality + AllSeen(|rest| + 1);
  }

  lemma {:induction false} FoldFromCons(sha: Hasher, st: State, b: Block, rest: seq<Block>)
    ensures FoldFrom(sha, Advance(sha, st, b), rest) == FoldFrom(sha, st, [b] + rest)
  {
    if rest == [] {
      assert ([b] + rest)[..0] == [];
    } else {
      FoldFromCons(sha, st, b, rest[..|rest| - 1]);
      assert ([b] + rest)[..|rest|] == [b] + rest[..|rest| - 1];
    }
  }

  /** Once a block of the candidate has been appended, every later one is appended too: reconcile is out of reach. */
  lemma {:induction false} OnlyAppendsFollow(c: Chain, candidate: seq<Block>, retainedDepth: uint64, i: nat)
    requires |c.finality| == |c.blocks| && GapFree(c.blocks) && GapFree(candidate) && 1 <= i <= |candidate|
    requires c.blocks != [] && c.blocks[|c.blocks| - 1] == candidate[i - 1]
    ensures CommitFrom(c, candidate, retainedDepth, i) == (c.PushAll(candidate[i..]), None)
    decreases |candidate| - i
  {
    if i == |candidate| {
      assert c.PushAll([]) == c by { assert c.blocks + [] == c.blocks && c.finality + AllSeen(0) == c.finality; }
    } else {
      AcceptsNext(c, candidate, i);
      OnlyAppendsFollow(c.Push(candidate[i]), candidate, retainedDepth, i + 1);
      PushThenAll(c, candidate[i], candidate[i + 1..]);
      assert candidate[i..] == [candidate[i]] + candidate[i + 1..];
    }
  }

  /** The loop in closed form: stored blocks are skipped, then everything is appended or everything is reconciled. */
  lemma {:induction false} CommitDecided(c: Chain, candidate: seq<Block>, retainedDepth: uint64, i: nat)
    requires Sound(c) && GapFree(candidate) && NoWrap(c, candidate) && i <= |candidate|
    ensures var k := FirstUnheld(c, candidate, i);
            CommitFrom(c, candidate, retainedDepth, i) ==
              if k == |candidate| then (c, None)
              else if c.Accepts(candidate[k]) then (Grafted(c, |c.blocks|, candidate[k..]), None)
              else CommitFork(c, candidate, retainedDepth)
    decreases |candidate| - i
  {
    hide CommitFork, Digest.Fold, GapFree, LevelsFall;
    if i < |candidate| {
      if c.Holds(candidate[i].number, candidate[i].hash) {
        CommitDecided(c, candidate, retainedDepth, i + 1);
      } else if c.Accepts(candidate[i]) {
        AcceptedDoesNotWrap(c, candidate, i);
        PushSound(c, candidate[i]);
        OnlyAppendsFollow(c.Push(candidate[i]), candidate, retainedDepth, i + 1);
        PushThenAll(c, candidate[i], candidate[i + 1..]);
        assert candidate[i..] == [candidate[i]] + candidate[i + 1..];
        PushAllIsGraft(c, candidate[i..]);
      }
    }
  }

  lemma AcceptedDoesNotWrap(c: Chain, candidate: seq<Block>, i: nat)
    requires GapFree(candidate) && NoWrap(c, candidate) && i < |candidate| && c.Accepts(candidate[i])
    ensures c.blocks != [] ==> c.Tip().value.number < MAX_HEIGHT
  {
    assert candidate[i].number == candidate[0].number + i;
  }

  /** The candidate from position `k` on sits on the first `fork` blocks, above finalized history. */
  ghost predicate Placed(c: Chain, candidate: seq<Block>, c': Chain, fork: nat, k: nat)
    requires |c.finality| == |c.blocks|
  {
    && CheckpointIndex(c.finality, FINALIZED) < fork <= |c.blocks| && k < |candidate|
    && (fork == 0 ==> k == 0 && c.blocks == [])
    && (fork > 0 ==> Links(c.blocks[fork - 1], candidate[k]) && c.blocks[fork - 1].number < MAX_HEIGHT)
    && c' == Grafted(c, fork, candidate[k..])
  }

  /** What a commit may do to the store: nothing, or put a suffix of the candidate on a prefix of the store. */
  ghost predicate Committed(c: Chain, candidate: seq<Block>, c': Chain)
    requires |c.finality| == |c.blocks|
  {
    c' == c || PlacedSomewhere(c, candidate, c')
  }

  ghost predicate PlacedSomewhere(c: Chain, candidate: seq<Block>, c': Chain)
    requires |c.finality| == |c.blocks|
  {
    exists fork: nat, k: nat :: Placed(c, candidate, c', fork, k)
  }

  lemma NotRefusedBelowMax(c: Chain, branch: seq<Block>)
    requires Sound(c) && branch != [] && Anchored(c, branch)
    ensures 1 <= Fork(c, branch) <= |c.blocks|
    ensures Links(c.blocks[Fork(c, branch) - 1], branch[0]) && c.blocks[Fork(c, branch) - 1].number < MAX_HEIGHT
  {
    AnchorInRun(c, branch);
  }

  lemma ForkPlaces(c: Chain, candidate: seq<Block>, bound: Option<uint64>, k: nat)
    requires Sound(c) && k < |candidate| && c.Refusal(candidate[k..], bound).None?
    ensures PlacedSomewhere(c, candidate, c.Reorg(candidate[k..], bound).chain)
  {
    hide Chain.Reorg, Chain.Refusal, Grafted, LevelsFall, Digest.Fold, Linear;
    var branch := candidate[k..];
    ReorgExact(c, branch, bound);
    RefusalExact(c, branch, bound);
    AnchorInRun(c, branch);
    NotRefusedBelowMax(c, branch);
    assert branch[0] == candidate[k];
    assert Placed(c, candidate, c.Reorg(branch, bound).chain, Fork(c, branch), k);
  }

  lemma GapFreeIsLinear(bs: seq<Block>)
    requires GapFree(bs)
    ensures Linear(bs)
  {
  }

  /** A reconciled candidate leaves the store alone, with its last block stored or an error, or is placed. */
  lemma ForkCommits(c: Chain, candidate: seq<Block>, retainedDepth: uint64)
    requires Sound(c) && GapFree(candidate) && candidate != []
    ensures var (c', error) := CommitFork(c, candidate, retainedDepth);
            || (c' == c && error.Some?)
            || (c' == c && c.NewestShared(candidate) == |candidate| - 1)
            || (error.None? && PlacedSomewhere(c, candidate, c'))
  {
    assert |c.finality| == |c.blocks|;
    hide *;
    GapFreeIsLinear(candidate);
    ForkReorgs(c, candidate, retainedDepth);
    var bound := Some(retainedDepth);
    var k := c.NewestShared(candidate) + 1;
    ReorgErrors(c, candidate[k..], bound);
    if k < |candidate| && c.Refusal(candidate[k..], bound).None? { ForkPlaces(c, candidate, bound, k); }
  }

  lemma ReorgErrors(c: Chain, branch: seq<Block>, bound: Option<uint64>)
    requires |c.finality| == |c.blocks|
    ensures c.Reorg(branch, bound).error == if branch == [] then None else c.Refusal(branch, bound)
    ensures branch == [] || c.Refusal(branch, bound).Some? ==> c.Reorg(branch, bound).chain == c
  {
    hide Chain.Refusal, Chain.Rollback, Chain.PushAll;
  }

  /**
    commitCandidate on a connected candidate.  On error the store is untouched; on
    success the candidate's last block is stored; nothing else can happen.
   */
  lemma CommitIsAtomic(c: Chain, candidate: seq<Block>, retainedDepth: uint64)
    requires Sound(c) && GapFree(candidate) && NoWrap(c, candidate)
    ensures var (c', error) := Commit(c, candidate, retainedDepth);
            && (error.Some? ==> c' == c)
            && Committed(c, candidate, c')
            && (error.None? && candidate != [] ==>
                c'.Holds(candidate[|candidate| - 1].number, candidate[|candidate| - 1].hash))
  {
    hide CommitFrom, CommitFork, LevelsFall, Digest.Fold, GapFree, Linear, Grafted;
    GapFreeIsLinear(candidate);
    CommitDecided(c, candidate, retainedDepth, 0);
    var c' := Commit(c, candidate, retainedDepth).0;
    var k := FirstUnheld(c, candidate, 0);
    if k < |candidate| {
      if c.Accepts(candidate[k]) {
        AcceptedDoesNotWrap(c, candidate, k);
        EmptyHoldsNothing(c, candidate, k);
        assert Placed(c, candidate, c', |c.blocks|, k);
      } else {
        ForkCommits(c, candidate, retainedDepth);
      }
      if fork: nat, k: nat :| Placed(c, candidate, c', fork, k) {
        LastIsHeld(c, fork, candidate, k);
      }
    }
  }

  lemma EmptyHoldsNothing(c: Chain, candidate: seq<Block>, k: nat)
    requires k == FirstUnheld(c, candidate, 0)
    ensures c.blocks == [] ==> k == 0
  {
    assert k > 0 ==> c.Holds(candidate[0].number, candidate[0].hash);
  }

  lemma LastIsHeld(c: Chain, fork: nat, candidate: seq<Block>, k: nat)
    requires Sound(c) && GapFree(candidate) && fork <= |c.blocks| && k < |candidate|
    requires fork > 0 ==> Links(c.blocks[fork - 1], candidate[k]) && c.blocks[fork - 1].number < MAX_HEIGHT
    ensures Sound(Grafted(c, fork, candidate[k..]))
    ensures Grafted(c, fork, candidate[k..]).Holds(candidate[|candidate| - 1].number, candidate[|candidate| - 1].hash)
  {
    var branch := candidate[k..];
    SliceRun(candidate, k, |candidate|);
    assert candidate[k..|candidate|] == branch;
    GraftSound(c, fork, branch);
    var c' := Grafted(c, fork, branch);
    var last := |c'.blocks| - 1;
    assert c'.blocks[last] == candidate[|candidate| - 1];
    assert c'.blocks[last].number == c'.blocks[0].number + last;
    IndexInRun(c'.blocks, c'.blocks[last].number);
  }

  /** A committed chain is sound, starts where it started, and keeps its finalized history. */
  lemma CommitKeeps(c: Chain, candidate: seq<Block>, c': Chain)
    requires Sound(c) && GapFree(candidate) && Committed(c, candidate, c')
    ensures Sound(c') && c'.sha == c.sha && FinalizedPrefix(c) <= FinalizedPrefix(c')
    ensures c.blocks != [] ==> c'.blocks != [] && c'.blocks[0] == c.blocks[0]
    ensures c.blocks == [] && c'.blocks != [] ==> candidate != [] && c'.blocks[0] == candidate[0]
  {
    if c' != c {
      var fork: nat, k: nat :| Placed(c, candidate, c', fork, k);
      LastIsHeld(c, fork, candidate, k);
      GraftKeepsFinalized(c, fork, candidate[k..]);
    }
  }

  // ----- Candidates whose place in the store is known -----

  predicate Reachable(c: Chain, fork: nat, retainedDepth: uint64)
    requires |c.finality| == |c.blocks| && fork <= |c.blocks|
  {
    CheckpointIndex(c.finality, FINALIZED) < fork && |c.blocks| - fork <= retainedDepth
  }

  /** The outcome of putting `branch` on the first `fork` blocks. */
  function PlacedOrResync(c: Chain, branch: seq<Block>, fork: nat, retainedDepth: uint64): (r: Result')
    requires |c.finality| == |c.blocks| && fork <= |c.blocks| && branch != []
    ensures |r.0.finality| == |r.0.blocks|
  {
    if fork > 0 && Reachable(c, fork, retainedDepth) then (Grafted(c, fork, branch), None)
    else (c, Some(NeedsResync(branch[|branch| - 1].number, retainedDepth)))
  }

  predicate NoneHeld(c: Chain, branch: seq<Block>) {
    forall i | 0 <= i < |branch| :: !c.Holds(branch[i].number, branch[i].hash)
  }

  /** `branch` continues stored position `j`. */
  predicate Continues(c: Chain, j: nat, branch: seq<Block>) {
    j < |c.blocks| && branch != [] && branch[0].number == c.blocks[j].number + 1 && branch[0].parent == c.blocks[j].hash
  }

  lemma ContinuesIsAnchored(c: Chain, j: nat, branch: seq<Block>)
    requires Sound(c) && Continues(c, j, branch)
    ensures Anchored(c, branch) && Fork(c, branch) == j + 1
  {
    assert c.blocks[j].number == c.blocks[0].number + j;
    IndexInRun(c.blocks, c.blocks[j].number);
  }

  lemma ReorgOrResync(c: Chain, j: nat, branch: seq<Block>, retainedDepth: uint64)
    requires Sound(c) && Continues(c, j, branch) && Linear(branch)
    ensures var out := c.Reorg(branch, Some(retainedDepth));
            && out.chain == PlacedOrResync(c, branch, j + 1, retainedDepth).0
            && (out.error.None? <==> Reachable(c, j + 1, retainedDepth))
            && (out.error.Some? ==> out.error == Some(ResyncRequired))
  {
    ContinuesIsAnchored(c, j, branch);
    ReorgDecides(c, branch, Some(retainedDepth));
    RefusalExact(c, branch, Some(retainedDepth));
  }

  /** A new branch on stored position `j`, none of whose blocks is stored, is placed there or needs a resync. */
  lemma CommitBranch(c: Chain, j: nat, branch: seq<Block>, retainedDepth: uint64)
    requires Sound(c) && GapFree(branch) && Continues(c, j, branch) && NoneHeld(c, branch)
    ensures Commit(c, branch, retainedDepth) == PlacedOrResync(c, branch, j + 1, retainedDepth)
  {
    hide CommitFrom, CommitFork, Chain.Reorg, Grafted, LevelsFall, Digest.Fold;
    CommitDecided(c, branch, retainedDepth, 0);
    assert FirstUnheld(c, branch, 0) == 0 && branch[0..] == branch;
    if j == |c.blocks| - 1 {
      TipContinues(c, branch, retainedDepth);
    } else {
      InnerIsNotTip(c, j, branch);
      ForkReorgs(c, branch, retainedDepth);
      ReorgOrResync(c, j, branch, retainedDepth);
      PlacedCases(c, branch, j + 1, retainedDepth);
    }
  }

  lemma TipContinues(c: Chain, branch: seq<Block>, retainedDepth: uint64)
    requires Sound(c) && c.blocks != [] && Continues(c, |c.blocks| - 1, branch)
    ensures c.Accepts(branch[0])
    ensures PlacedOrResync(c, branch, |c.blocks|, retainedDepth) == (Grafted(c, |c.blocks|, branch), None)
  {
  }

  lemma InnerIsNotTip(c: Chain, j: nat, branch: seq<Block>)
    requires Sound(c) && j < |c.blocks| - 1 && Continues(c, j, branch)
    ensures !c.Accepts(branch[0])
  {
    assert c.blocks[j].number == c.blocks[0].number + j;
    assert c.blocks[|c.blocks| - 1].number == c.blocks[0].number + (|c.blocks| - 1);
  }

  /** A candidate that starts where the store starts and shares its position `j` last. */
  lemma CommitForkFrom(c: Chain, all: seq<Block>, j: int, retainedDepth: uint64)
    requires Sound(c) && c.blocks != [] && GapFree(all) && all != [] && all[0].number == c.blocks[0].number
    requires j == c.NewestShared(all) && j + 1 < |all|
    ensures j < |c.blocks|
    ensures CommitFork(c, all, retainedDepth) == PlacedOrResync(c, all[j + 1..], j + 1, retainedDepth)
  {
    hide CommitFork, Chain.Refusal, Chain.Reorg, Chain.NewestShared, PlacedOrResync, LevelsFall, Digest.Fold, GapFree,
      Linear;
    GapFreeIsLinear(all);
    var branch := all[j + 1..];
    DropLinear(all, j + 1);
    ForkReorgs(c, all, retainedDepth);
    if j < 0 {
      assert branch == all;
      BelowStartResyncs(c, all, retainedDepth);
    } else {
      ContinuesAtShared(c, all, j);
      ReorgOrResync(c, j, branch, retainedDepth);
      PlacedCases(c, branch, j + 1, retainedDepth);
    }
  }

  lemma ForkReorgs(c: Chain, all: seq<Block>, retainedDepth: uint64)
    requires |c.finality| == |c.blocks| && all != [] && Linear(all)
    ensures var out := c.Reorg(all[c.NewestShared(all) + 1..], Some(retainedDepth));
            CommitFork(c, all, retainedDepth) ==
              if out.error.None? then (out.chain, None)
              else if out.error.value.NeedsResync()
                then (out.chain, Some(NeedsResync(all[|all| - 1].number, retainedDepth)))
              else (out.chain, Some(StoreRefused(out.error.value)))
  {
    hide Chain.Reorg, Chain.NewestShared, Chain.Holds, Linear, ChainError.NeedsResync;
    ReconcileOfLinear(c, all, Some(retainedDepth));
    hide Chain.Reconcile;
  }

  lemma ReconcileOfLinear(c: Chain, all: seq<Block>, bound: Option<uint64>)
    requires |c.finality| == |c.blocks| && Linear(all)
    ensures c.Reconcile(all, bound) == c.Reorg(all[c.NewestShared(all) + 1..], bound)
  {
    hide Chain.Reorg, Chain.NewestShared, Chain.Holds, Linear;
  }

  lemma PlacedCases(c: Chain, branch: seq<Block>, fork: nat, retainedDepth: uint64)
    requires |c.finality| == |c.blocks| && 0 < fork <= |c.blocks| && branch != []
    ensures PlacedOrResync(c, branch, fork, retainedDepth).1
         == if Reachable(c, fork, retainedDepth) then None
           else Some(NeedsResync(branch[|branch| - 1].number, retainedDepth))
  {
  }

  lemma ContinuesAtShared(c: Chain, all: seq<Block>, j: nat)
    requires Sound(c) && c.blocks != [] && GapFree(all) && j + 1 < |all| && all[0].number == c.blocks[0].number
    requires c.Holds(all[j].number, all[j].hash)
    ensures j < |c.blocks| && Continues(c, j, all[j + 1..])
  {
    IndexInRun(c.blocks, all[j].number);
    assert Links(all[j], all[j + 1]);
    assert all[j].number == all[0].number + j && all[j + 1].number == all[0].number + (j + 1);
  }

  lemma BelowStartResyncs(c: Chain, all: seq<Block>, retainedDepth: uint64)
    requires Sound(c) && c.blocks != [] && all != [] && all[0].number == c.blocks[0].number
    ensures c.Reorg(all, Some(retainedDepth)) == Outcome(c, [], Some(UnknownAncestor))
    ensures PlacedOrResync(c, all, 0, retainedDepth) == (c, Some(NeedsResync(all[|all| - 1].number, retainedDepth)))
  {
    if all[0].number > 0 { IndexInRun(c.blocks, all[0].number - 1); }
  }
}
