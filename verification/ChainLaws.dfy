/** What the canonical store promises: order, clean replay after any reorg, and immovable finalized history. */
module ChainLaws {
  import opened Types
  import opened Digest
  import opened Chain

  /** Levels are valid and never rise with height. */
  ghost predicate LevelsFall(finality: seq<Level>) {
    && (forall i | 0 <= i < |finality| :: finality[i] <= FINALIZED)
    && (forall i, j | 0 <= i <= j < |finality| :: finality[i] >= finality[j])
  }

  /** The store's invariant: a gap-free linked run, one falling level per block, state equal to its fold. */
  ghost predicate Sound(c: Chain) {
    c.Coherent() && GapFree(c.blocks) && LevelsFall(c.finality)
  }

  predicate BelowMax(bs: seq<Block>) {
    forall i | 0 <= i < |bs| :: bs[i].number < MAX_HEIGHT
  }

  /** The history that must never change again. */
  function FinalizedPrefix(c: Chain): seq<Block>
    requires |c.finality| == |c.blocks|
  {
    c.blocks[..CheckpointIndex(c.finality, FINALIZED) + 1]
  }

  // ----- Lookups in a gap-free run -----

  lemma IndexInRun(bs: seq<Block>, n: uint64)
    requires GapFree(bs) && bs != []
    ensures IndexOf(bs, n) == if bs[0].number <= n < bs[0].number + |bs| then n - bs[0].number else -1
  {
    if bs[0].number <= n < bs[0].number + |bs| {
      assert bs[n - bs[0].number].number == n;
    }
  }

  lemma CutInRun(bs: seq<Block>, k: nat)
    requires GapFree(bs) && 1 <= k <= |bs|
    ensures FirstAbove(bs, bs[k - 1].number) == k
  {
    assert forall j | 0 <= j < k :: bs[j].number <= bs[k - 1].number;
    assert k < |bs| ==> bs[k].number == bs[k - 1].number + 1;
  }

  lemma JoinRuns(a: seq<Block>, b: seq<Block>)
    requires GapFree(a) && GapFree(b)
    requires a != [] && b != [] ==> b[0].number == a[0].number + |a| && b[0].parent == a[|a| - 1].hash
    ensures GapFree(a + b)
  {
    var s := a + b;
    forall i | 1 <= i < |s|
      ensures Links(s[i - 1], s[i])
    {
      if i < |a| {
        assert Links(a[i - 1], a[i]);
      } else if i > |a| {
        assert Links(b[i - |a| - 1], b[i - |a|]);
      }
    }
  }

  lemma SliceRun(bs: seq<Block>, i: nat, j: nat)
    requires GapFree(bs) && i <= j <= |bs|
    ensures GapFree(bs[i..j])
  {
    var s := bs[i..j];
    forall k | 1 <= k < |s|
      ensures Links(s[k - 1], s[k])
    {
      assert Links(bs[i + k - 1], bs[i + k]);
    }
  }

  /** The source's uint64 check proves a run gap-free unless a height can wrap. */
  lemma {:induction false} LinearBelowMax(bs: seq<Block>)
    requires Linear(bs) && BelowMax(bs)
    ensures GapFree(bs)
  {
    if |bs| > 1 {
      var n := |bs| - 1;
      assert forall i | 1 <= i < n :: Links(bs[..n][i - 1], bs[..n][i]);
      LinearBelowMax(bs[..n]);
      assert Links(bs[n - 1], bs[n]);
      assert bs[..n][n - 1].number == bs[..n][0].number + (n - 1);
    }
  }

  // ----- Append -----

  /**
    Append keeps the run in ascending order except in exactly one case: the tip
    is the largest uint64 and a block of height zero names it as its parent.
   */
  lemma AppendKeepsOrderExactly(c: Chain, b: Block)
    requires Sound(c)
    ensures GapFree(c.Append(b).0.blocks)
       <==> !(c.blocks != [] && c.Tip().value.number == MAX_HEIGHT && b.number == 0 && b.parent == c.Tip().value.hash)
  {
    if c.Accepts(b) {
      var s := c.blocks + [b];
      if c.blocks != [] {
        var tip := c.blocks[|c.blocks| - 1];
        assert s[|c.blocks|] == b && s[0] == c.blocks[0];
        if tip.number == MAX_HEIGHT {
          assert s[|c.blocks|].number != s[0].number + |c.blocks|;
        } else {
          assert GapFree([b]);
          JoinRuns(c.blocks, [b]);
        }
      }
    }
  }

  lemma HoldsExactly(c: Chain, n: uint64, h: Hash)
    requires Sound(c)
    ensures c.Holds(n, h) <==> exists i :: 0 <= i < |c.blocks| && c.blocks[i].number == n && c.blocks[i].hash == h
  {
    hide LevelsFall, Digest.Fold;
    if c.blocks != [] { IndexInRun(c.blocks, n); }
    if i :| 0 <= i < |c.blocks| && c.blocks[i].number == n && c.blocks[i].hash == h {
      assert c.blocks[i].number == c.blocks[0].number + i;
    }
  }

  /**
    Append, on the blocks alone: a block that builds on the tip, or comes first, is
    added as seen; of the others a stored one changes nothing, and any other is
    refused as not linear, without effect.
   */
  lemma AppendExactly(c: Chain, b: Block)
    requires Sound(c)
    ensures var (c', error) := c.Append(b);
            var n := |c.blocks|;
            var builds :=
              n == 0 || (b.number == (c.blocks[n - 1].number + 1) % TWO64 && b.parent == c.blocks[n - 1].hash);
            var stored := exists i :: 0 <= i < n && c.blocks[i].number == b.number && c.blocks[i].hash == b.hash;
            && (error == Some(NotLinear) <==> !builds && !stored)
            && (error.None? <==> builds || stored)
            && (!builds ==> c' == c)
            && (builds ==>
                  c'.blocks == c.blocks + [b] && c'.finality == c.finality + [SEEN] && c'.sha == c.sha && c'.Coherent())
  {
    hide GapFree, LevelsFall, Chain.Holds, Advance, EMPTY_STATE;
    HoldsExactly(c, b.number, b.hash);
    assert (c.blocks + [b])[..|c.blocks|] == c.blocks;
  }

  lemma PushSound(c: Chain, b: Block)
    requires Sound(c) && c.Accepts(b)
    requires c.blocks != [] ==> c.Tip().value.number < MAX_HEIGHT
    ensures Sound(c.Push(b))
  {
    AppendKeepsOrderExactly(c, b);
    assert c.Push(b).blocks[..|c.blocks|] == c.blocks;
  }

  /** A stored block is never pushed again: re-appending it changes nothing and reports no error. */
  lemma ReappendIsNoOp(c: Chain, i: nat)
    requires Sound(c) && i < |c.blocks| && c.Tip().value.number < MAX_HEIGHT
    ensures c.Append(c.blocks[i]) == (c, None)
  {
    IndexInRun(c.blocks, c.blocks[i].number);
  }

  // ----- Reorg and reconcile -----

  /** `fork` blocks of `c` with their levels, and `branch` on top of them. */
  function Grafted(c: Chain, fork: nat, branch: seq<Block>): Chain
    requires fork <= |c.blocks| == |c.finality|
  {
    var blocks := c.blocks[..fork] + branch;
    Chain(c.sha, blocks, c.finality[..fork] + AllSeen(|branch|), Fold(c.sha, blocks))
  }

  /** The fork is within finalized history and, when a bound is given, within the retained depth. */
  ghost predicate MayFork(c: Chain, fork: nat, bound: Option<uint64>)
    requires |c.finality| == |c.blocks| && 1 <= fork <= |c.blocks|
  {
    && CheckpointIndex(c.finality, FINALIZED) < fork
    && (bound.Some? ==> |c.blocks| - fork <= bound.value)
  }

  lemma RollbackShape(c: Chain, k: nat)
    requires Sound(c) && 1 <= k <= |c.blocks|
    ensures c.Rollback(c.blocks[k - 1].number)
         == Outcome(Chain(c.sha, c.blocks[..k], c.finality[..k], Fold(c.sha, c.blocks[..k])), c.blocks[k..], None)
  {
    CutInRun(c.blocks, k);
    if k == |c.blocks| {
      assert c.blocks[..k] == c.blocks && c.finality[..k] == c.finality;
    }
  }

  /** The branch builds on a stored block. */
  predicate Anchored(c: Chain, branch: seq<Block>)
    requires branch != []
  {
    branch[0].number > 0 && c.Holds(branch[0].number - 1, branch[0].parent)
  }

  /** How many stored blocks lie below the branch. */
  function Fork(c: Chain, branch: seq<Block>): int
    requires branch != []
  {
    branch[0].number - if c.blocks == [] then 0 else c.blocks[0].number
  }

  lemma AnchorInRun(c: Chain, branch: seq<Block>)
    requires Sound(c) && branch != [] && Anchored(c, branch)
    ensures 1 <= Fork(c, branch) <= |c.blocks|
    ensures c.blocks[Fork(c, branch) - 1].number == branch[0].number - 1
    ensures c.blocks[Fork(c, branch) - 1].hash == branch[0].parent
  {
    IndexInRun(c.blocks, branch[0].number - 1);
  }

  /** Exactly when reorg is refused, and with which error. */
  lemma RefusalExact(c: Chain, branch: seq<Block>, bound: Option<uint64>)
    requires Sound(c) && branch != []
    ensures Anchored(c, branch) ==> 1 <= Fork(c, branch) <= |c.blocks|
    ensures c.Refusal(branch, bound) ==
            if !Anchored(c, branch) then Some(UnknownAncestor)
            else if !Linear(branch) then Some(BrokenBranch)
            else if !MayFork(c, Fork(c, branch), bound) then Some(ResyncRequired)
            else None
  {
    if Anchored(c, branch) {
      AnchorInRun(c, branch);
      var k := CheckpointIndex(c.finality, FINALIZED);
      assert k >= 0 ==> c.blocks[k].number == c.blocks[0].number + k;
      assert c.blocks[|c.blocks| - 1].number == c.blocks[0].number + (|c.blocks| - 1);
    }
  }

  /** Everything above an admissible ancestor is replaced by the branch, and the outcome reports what was dropped. */
  ghost predicate Installs(c: Chain, branch: seq<Block>, bound: Option<uint64>, out: Outcome)
    requires branch != [] && |c.finality| == |c.blocks|
  {
    var fork := Fork(c, branch);
    && out.error.None?
    && 1 <= fork <= |c.blocks| && c.blocks[fork - 1].hash == branch[0].parent
    && MayFork(c, fork, bound)
    && out.chain == Grafted(c, fork, branch)
    && c.blocks == c.blocks[..fork] + out.dropped
  }

  /** A reorg that is not refused installs its branch. */
  lemma ReorgExact(c: Chain, branch: seq<Block>, bound: Option<uint64>)
    requires Sound(c) && branch != [] && c.Refusal(branch, bound).None?
    ensures Linear(branch) && Installs(c, branch, bound, c.Reorg(branch, bound))
  {
    RefusalExact(c, branch, bound);
    AnchorInRun(c, branch);
    GraftOnRollback(c, Fork(c, branch), branch);
  }

  lemma GraftOnRollback(c: Chain, fork: nat, branch: seq<Block>)
    requires Sound(c) && 1 <= fork <= |c.blocks|
    ensures var cut := c.Rollback(c.blocks[fork - 1].number);
            cut.chain.PushAll(branch) == Grafted(c, fork, branch) && c.blocks == c.blocks[..fork] + cut.dropped
  {
    RollbackShape(c, fork);
    FoldConcat(c.sha, c.blocks[..fork], branch);
    assert c.blocks == c.blocks[..fork] + c.blocks[fork..];
  }

  lemma GraftSound(c: Chain, fork: nat, branch: seq<Block>)
    requires Sound(c) && fork <= |c.blocks| && GapFree(branch)
    requires fork > 0 && branch != [] ==>
          branch[0].number == c.blocks[0].number + fork && branch[0].parent == c.blocks[fork - 1].hash
    ensures Sound(Grafted(c, fork, branch))
  {
    hide GapFree, LevelsFall, Digest.Fold;
    RunEnds(c.blocks, fork);
    JoinRuns(c.blocks[..fork], branch);
    GraftedLevelsFall(c.finality, fork, |branch|);
  }

  lemma RunEnds(bs: seq<Block>, k: nat)
    requires GapFree(bs) && k <= |bs|
    ensures GapFree(bs[..k]) && (k > 0 ==> bs[..k][0] == bs[0] && bs[..k][k - 1] == bs[k - 1])
  {
    SliceRun(bs, 0, k);
  }

  lemma GraftedLevelsFall(finality: seq<Level>, fork: nat, added: nat)
    requires LevelsFall(finality) && fork <= |finality|
    ensures LevelsFall(finality[..fork] + AllSeen(added))
  {
  }

  lemma GraftKeepsFinalized(c: Chain, fork: nat, branch: seq<Block>)
    requires CheckpointIndex(c.finality, FINALIZED) < fork <= |c.blocks| == |c.finality|
    ensures FinalizedPrefix(Grafted(c, fork, branch)) == FinalizedPrefix(c)
  {
    var c' := Grafted(c, fork, branch);
    var k := CheckpointIndex(c.finality, FINALIZED);
    assert forall j | fork <= j < |c'.finality| :: c'.finality[j] == SEEN;
    assert forall j | 0 <= j < fork :: c'.finality[j] == c.finality[j];
    assert CheckpointIndex(c'.finality, FINALIZED) == k;
    assert c'.blocks[..k + 1] == c.blocks[..k + 1];
  }

  /**
    Reconcile replaces exactly the blocks above the newest block the candidate
    shares with the store.
   */
  lemma ReconcileExact(c: Chain, candidate: seq<Block>, bound: Option<uint64>)
    requires Sound(c)
    ensures !Linear(candidate) ==> c.Reconcile(candidate, bound) == Outcome(c, [], Some(BrokenBranch))
    ensures Linear(candidate) ==>
          ReorgDecided(c, candidate[c.NewestShared(candidate) + 1..], bound, c.Reconcile(candidate, bound))
  {
    ReorgDecides(c, candidate[c.NewestShared(candidate) + 1..], bound);
  }

  /** Nothing to do, refused without effect, or installed. */
  ghost predicate ReorgDecided(c: Chain, branch: seq<Block>, bound: Option<uint64>, out: Outcome)
    requires |c.finality| == |c.blocks|
  {
    if branch == [] then out == Outcome(c, [], None)
    else if c.Refusal(branch, bound).Some? then out == Outcome(c, [], c.Refusal(branch, bound))
    else Installs(c, branch, bound, out)
  }

  lemma ReorgDecides(c: Chain, branch: seq<Block>, bound: Option<uint64>)
    requires Sound(c)
    ensures ReorgDecided(c, branch, bound, c.Reorg(branch, bound))
  {
    if branch != [] && c.Refusal(branch, bound).None? {
      ReorgExact(c, branch, bound);
    }
  }

  lemma DropLinear(bs: seq<Block>, k: nat)
    requires Linear(bs) && k <= |bs|
    ensures Linear(bs[k..])
  {
    forall i | 1 <= i < |bs[k..]|
      ensures Links(bs[k..][i - 1], bs[k..][i])
    {
      assert Links(bs[k + i - 1], bs[k + i]);
    }
  }

  lemma PushAllIsGraft(c: Chain, branch: seq<Block>)
    requires c.Coherent()
    ensures c.PushAll(branch) == Grafted(c, |c.blocks|, branch)
  {
    FoldConcat(c.sha, c.blocks, branch);
    assert c.blocks[..|c.blocks|] == c.blocks && c.finality[..|c.blocks|] == c.finality;
  }

  lemma PushIsGraft(c: Chain, b: Block)
    requires c.Coherent()
    ensures c.Push(b) == Grafted(c, |c.blocks|, [b])
  {
    assert (c.blocks + [b])[..|c.blocks|] == c.blocks;
    assert c.blocks[..|c.blocks|] == c.blocks && c.finality[..|c.blocks|] == c.finality;
    assert AllSeen(1) == [SEEN];
  }

  // ----- Finality -----

  lemma RaisedFalls(finality: seq<Level>, upTo: int, level: Level)
    requires LevelsFall(finality) && level <= FINALIZED
    ensures LevelsFall(Raised(finality, upTo, level))
    ensures CheckpointIndex(finality, FINALIZED) <= CheckpointIndex(Raised(finality, upTo, level), FINALIZED)
  {
    var raised := Raised(finality, upTo, level);
    var k := CheckpointIndex(finality, FINALIZED);
    assert k >= 0 ==> raised[k] >= finality[k];
  }

  lemma MarkKeeps(c: Chain, h: Hash, level: Level)
    requires Sound(c)
    ensures var (c', error) := c.MarkFinality(h, level);
            && Sound(c') && c'.blocks == c.blocks && c'.state == c.state && c'.sha == c.sha
            && (error.Some? ==> c' == c)
            && FinalizedPrefix(c) <= FinalizedPrefix(c')
  {
    hide GapFree, Digest.Fold;
    if c.MarkFinality(h, level).1.None? {
      RaisedFalls(c.finality, FirstWithHash(c.blocks, h), level);
    }
  }

  lemma CheckpointsKeep(c: Chain, safe: Option<Hash>, finalized: Option<Hash>)
    requires Sound(c)
    ensures var (c', error) := c.MarkCheckpoints(safe, finalized);
            && Sound(c') && c'.blocks == c.blocks && c'.state == c.state && c'.sha == c.sha
            && (error.Some? ==> c' == c)
            && FinalizedPrefix(c) <= FinalizedPrefix(c')
  {
    hide Chain.MarkFinality, GapFree, LevelsFall, Digest.Fold;
    if safe.Some? { MarkKeeps(c, safe.value, SAFE); }
    var first := c.MarkIfGiven(safe, SAFE).0;
    if finalized.Some? { MarkKeeps(first, finalized.value, FINALIZED); }
  }

  // ----- Runs of store operations -----

  datatype Op =
    | DoAppend(block: Block)
    | DoReorg(branch: seq<Block>)
    | DoReconcile(candidate: seq<Block>)
    | DoReconcileBounded(candidate: seq<Block>, retainedDepth: uint64)
    | DoMarkFinality(hash: Hash, level: Level)
    | DoMarkCheckpoints(safe: Option<Hash>, finalized: Option<Hash>)
  {
    function Blocks(): seq<Block> {
      match this
      case DoAppend(b) => [b]
      case DoReorg(branch) => branch
      case DoReconcile(candidate) => candidate
      case DoReconcileBounded(candidate, _) => candidate
      case _ => []
    }
  }

  function Perform(c: Chain, op: Op): (c': Chain)
    requires |c.finality| == |c.blocks|
    ensures |c'.finality| == |c'.blocks|
  {
    match op
    case DoAppend(b) => c.Append(b).0
    case DoReorg(branch) => c.Reorg(branch, None).chain
    case DoReconcile(candidate) => c.Reconcile(candidate, None).chain
    case DoReconcileBounded(candidate, depth) => c.Reconcile(candidate, Some(depth)).chain
    case DoMarkFinality(h, level) => c.MarkFinality(h, level).0
    case DoMarkCheckpoints(safe, finalized) => c.MarkCheckpoints(safe, finalized).0
  }

  function Run(c: Chain, ops: seq<Op>): (c': Chain)
    requires |c.finality| == |c.blocks|
    ensures |c'.finality| == |c'.blocks|
  {
    if ops == [] then c else Perform(Run(c, ops[..|ops| - 1]), ops[|ops| - 1])
  }

  /** What every operation keeps, and what it may do to finalized history. */
  ghost predicate Kept(c: Chain, c': Chain)
    requires |c.finality| == |c.blocks|
  {
    Sound(c') && BelowMax(c'.blocks) && c'.sha == c.sha && FinalizedPrefix(c) <= FinalizedPrefix(c')
  }

  lemma MarksKeep(c: Chain, h: Hash, level: Level, safe: Option<Hash>, finalized: Option<Hash>)
    requires Sound(c) && BelowMax(c.blocks)
    ensures Kept(c, c.MarkFinality(h, level).0) && Kept(c, c.MarkCheckpoints(safe, finalized).0)
  {
    hide Chain.MarkFinality, Chain.MarkCheckpoints, GapFree, LevelsFall, Digest.Fold;
    MarkKeeps(c, h, level);
    CheckpointsKeep(c, safe, finalized);
  }

  lemma NothingKeeps(c: Chain)
    requires Sound(c) && BelowMax(c.blocks)
    ensures Kept(c, c)
  {
  }

  lemma BranchKeeps(c: Chain, branch: seq<Block>, bound: Option<uint64>)
    requires Sound(c) && BelowMax(c.blocks) && BelowMax(branch)
    ensures var c' := c.Reorg(branch, bound).chain;
            Kept(c, c')
  {
    if branch != [] && c.Refusal(branch, bound).None? {
      ReorgExact(c, branch, bound);
      LinearBelowMax(branch);
      GraftSound(c, Fork(c, branch), branch);
      GraftKeepsFinalized(c, Fork(c, branch), branch);
    }
  }

  lemma AppendKeeps(c: Chain, b: Block)
    requires Sound(c) && BelowMax(c.blocks) && b.number < MAX_HEIGHT
    ensures Kept(c, c.Append(b).0)
  {
    hide Chain.Holds, Digest.Fold, LevelsFall, GapFree, Kept;
    NothingKeeps(c);
    if c.Accepts(b) { PushKeeps(c, b); }
  }

  lemma PushKeeps(c: Chain, b: Block)
    requires Sound(c) && BelowMax(c.blocks) && b.number < MAX_HEIGHT && c.Accepts(b)
    ensures Kept(c, c.Push(b))
  {
    hide Digest.Fold, LevelsFall, GapFree, CheckpointIndex;
    PushSound(c, b);
    PushIsGraft(c, b);
    GraftKeepsFinalized(c, |c.blocks|, [b]);
  }

  lemma ReconcileKeeps(c: Chain, candidate: seq<Block>, bound: Option<uint64>)
    requires Sound(c) && BelowMax(c.blocks) && BelowMax(candidate)
    ensures Kept(c, c.Reconcile(candidate, bound).chain)
  {
    hide Kept, Chain.Reorg, Chain.NewestShared, Chain.Holds, Linear, GapFree, LevelsFall, Digest.Fold;
    NothingKeeps(c);
    BranchKeeps(c, candidate[c.NewestShared(candidate) + 1..], bound);
  }

  lemma PerformKeeps(c: Chain, op: Op)
    requires Sound(c) && BelowMax(c.blocks) && BelowMax(op.Blocks())
    ensures var c' := Perform(c, op);
            Kept(c, c')
  {
    hide Kept, Chain.MarkFinality, Chain.MarkCheckpoints, Chain.Append, Chain.Reorg, Chain.Reconcile, GapFree,
      LevelsFall, Digest.Fold;
    match op
    case DoAppend(b) =>
      assert op.Blocks()[0] == b;
      AppendKeeps(c, b);
    case DoReorg(branch) =>
      BranchKeeps(c, branch, None);
    case DoReconcile(candidate) =>
      ReconcileKeeps(c, candidate, None);
    case DoReconcileBounded(candidate, depth) =>
      ReconcileKeeps(c, candidate, Some(depth));
    case DoMarkFinality(h, level) =>
      MarksKeep(c, h, level, None, None);
    case DoMarkCheckpoints(safe, finalized) =>
      MarksKeep(c, 0, SEEN, safe, finalized);
  }

  /** Whatever sequence of operations is tried, accepted or refused, finalized history only grows. */
  lemma {:induction false} RunKeeps(c: Chain, ops: seq<Op>)
    requires Sound(c) && BelowMax(c.blocks)
    requires forall i | 0 <= i < |ops| :: BelowMax(ops[i].Blocks())
    ensures var c' := Run(c, ops);
            Kept(c, c')
  {
    if ops != [] {
      RunKeeps(c, ops[..|ops| - 1]);
      PerformKeeps(Run(c, ops[..|ops| - 1]), ops[|ops| - 1]);
    }
  }

  /** Appends the blocks one by one; the flag says that every single Append succeeded. */
  function AppendAll(c: Chain, bs: seq<Block>): (Chain, bool) {
    if bs == [] then (c, true)
    else
      var before := AppendAll(c, bs[..|bs| - 1]);
      var (after, error) := before.0.Append(bs[|bs| - 1]);
      (after, before.1 && error.None?)
  }

  /** The case is real: two accepted appends that leave a fresh store out of order. */
  lemma HeightsCanWrap(sha: Hasher) returns (a: Block, b: Block)
    ensures AppendAll(EmptyChain(sha), [a, b]).1
    ensures !GapFree(Run(EmptyChain(sha), [DoAppend(a), DoAppend(b)]).blocks)
  {
    hide Advance;
    a, b := Block(MAX_HEIGHT, 1, ZERO_HASH, 0, []), Block(0, 2, 1, 0, []);
    var c := EmptyChain(sha);
    assert [a, b][..1] == [a] && [a][..0] == [];
    assert AppendAll(c, [a]) == (c.Push(a), true);
    assert [DoAppend(a), DoAppend(b)][..1] == [DoAppend(a)] && [DoAppend(a)][..0] == [];
    assert Run(c, [DoAppend(a)]) == c.Push(a);
    var end := Run(c, [DoAppend(a), DoAppend(b)]);
    assert end == c.Push(a).Push(b);
    assert end.blocks[1].number != end.blocks[0].number + 1;
  }

  lemma {:induction false} AppendsRebuild(sha: Hasher, bs: seq<Block>)
    requires GapFree(bs)
    ensures AppendAll(EmptyChain(sha), bs) == (Chain(sha, bs, AllSeen(|bs|), Fold(sha, bs)), true)
  {
    if bs != [] {
      var n := |bs| - 1;
      SliceRun(bs, 0, n);
      AppendsRebuild(sha, bs[..n]);
      if n > 0 { assert Links(bs[n - 1], bs[n]); }
      assert bs[..n] + [bs[n]] == bs;
      assert AllSeen(n) + [SEEN] == AllSeen(|bs|);
    }
  }

  lemma {:induction false} ReappendAll(c: Chain, k: nat)
    requires Sound(c) && BelowMax(c.blocks) && k <= |c.blocks|
    ensures AppendAll(c, c.blocks[..k]) == (c, true)
  {
    if k > 0 {
      ReappendAll(c, k - 1);
      assert c.blocks[..k][..k - 1] == c.blocks[..k - 1];
      ReappendIsNoOp(c, k - 1);
    }
  }

  /**
    The repository's core promise.  However the chain came about, a fresh store
    fed its final blocks by Append alone accepts every one of them and reaches
    the same blocks and the same state, and replaying the chain into the store
    itself changes nothing.
   */
  lemma ReorgEqualsCleanReplay(sha: Hasher, ops: seq<Op>)
    requires forall i | 0 <= i < |ops| :: BelowMax(ops[i].Blocks())
    ensures var c := Run(EmptyChain(sha), ops);
            var (replayed, accepted) := AppendAll(EmptyChain(sha), c.blocks);
            && accepted && replayed.blocks == c.blocks && replayed.state == c.state
            && AppendAll(c, c.blocks) == (c, true)
  {
    RunKeeps(EmptyChain(sha), ops);
    var c := Run(EmptyChain(sha), ops);
    AppendsRebuild(sha, c.blocks);
    ReappendAll(c, |c.blocks|);
    assert c.blocks[..|c.blocks|] == c.blocks;
  }
}
