/** The mutable store of internal/chain, method by method, proved against module Chain. */
module ChainStore {
  import opened Types
  import opened Digest
  import opened Chain

  lemma NothingToReorg(c: Chain, bound: Option<uint64>)
    requires |c.finality| == |c.blocks|
    ensures c.Reorg([], bound) == Outcome(c, [], None)
  {
  }

  lemma NothingToReconcile(c: Chain, bound: Option<uint64>)
    requires |c.finality| == |c.blocks|
    ensures c.Reconcile([], bound) == Outcome(c, [], None)
  {
  }

  class Store {
    const sha: Hasher
    var blocks: seq<Block>
    var finality: seq<Level>
    var state: State

    ghost function View(): Chain
      reads this
    {
      Chain(sha, blocks, finality, state)
    }

    ghost predicate Valid()
      reads this
    {
      View().Coherent()
    }

    constructor (sha: Hasher)
      ensures Valid() && View() == EmptyChain(sha)
    {
      this.sha := sha;
      blocks, finality, state := [], [], EMPTY_STATE;
    }

    method Tip() returns (tip: Option<Block>)
      ensures tip == View().Tip()
    {
      if |blocks| == 0 { return None; }
      return Some(blocks[|blocks| - 1]);
    }

    method ByNumber(n: uint64) returns (found: Option<Block>)
      ensures found == View().ByNumber(n)
      ensures View().Holds(n, if found.Some? then found.value.hash else 0) <==> found.Some?
    {
      for i := 0 to |blocks|
        invariant IndexOf(blocks, n) == IndexOf(blocks, n, i)
      {
        if blocks[i].number == n { return Some(blocks[i]); }
      }
      return None;
    }

    method Append(b: Block) returns (error: Option<ChainError>)
      requires Valid()
      modifies this
      ensures Valid()
      ensures (View(), error) == old(View()).Append(b)
    {
      var tip := Tip();
      if tip.Some? && (b.number != Next(tip.value.number) || b.parent != tip.value.hash) {
        var have := ByNumber(b.number);
        if have.Some? && have.value.hash == b.hash { return None; }
        return Some(NotLinear);
      }
      assert (blocks + [b])[..|blocks|] == blocks;
      blocks := blocks + [b];
      finality := finality + [SEEN];
      state := Advance(sha, state, b);
      return None;
    }

    method Rebuild()
      modifies this`state
      ensures state == Fold(sha, blocks)
    {
      state := EMPTY_STATE;
      for i := 0 to |blocks|
        invariant state == Fold(sha, blocks[..i])
      {
        assert blocks[..i + 1][..i] == blocks[..i];
        state := Advance(sha, state, blocks[i]);
      }
      assert blocks[..|blocks|] == blocks;
    }

    method Rollback(to: uint64) returns (dropped: seq<Block>)
      requires Valid()
      modifies this
      ensures Valid()
      ensures View() == old(View()).Rollback(to).chain && dropped == old(View()).Rollback(to).dropped
    {
      for i := 0 to |blocks|
        invariant blocks == old(blocks) && finality == old(finality) && state == old(state)
        invariant FirstAbove(blocks, to) == FirstAbove(blocks, to, i)
      {
        if blocks[i].number > to {
          dropped := blocks[i..];
          blocks := blocks[..i];
          finality := finality[..i];
          Rebuild();
          return;
        }
      }
      return [];
    }

    method CheckpointAt(level: Level) returns (index: int)
      requires |finality| == |blocks|
      ensures index == CheckpointIndex(finality, level)
    {
      if level > FINALIZED { return -1; }
      index := |blocks| - 1;
      assert finality[..index + 1] == finality;
      while index >= 0
        invariant -1 <= index < |blocks|
        invariant CheckpointIndex(finality, level) == CheckpointIndex(finality[..index + 1], level)
      {
        if finality[index] >= level { return; }
        assert finality[..index + 1][..index] == finality[..index];
        index := index - 1;
      }
    }

    method Checkpoint(level: Level) returns (block: Option<Block>)
      requires |finality| == |blocks|
      ensures block == View().Checkpoint(level)
    {
      var index := CheckpointAt(level);
      if index < 0 { return None; }
      return Some(blocks[index]);
    }

    method CheckLinear(bs: seq<Block>) returns (linear: bool)
      ensures linear <==> Linear(bs)
    {
      if |bs| == 0 { return true; }
      for i := 1 to |bs|
        invariant forall j | 1 <= j < i :: Links(bs[j - 1], bs[j])
      {
        if !Links(bs[i - 1], bs[i]) { return false; }
      }
      return true;
    }

    /** The last step of reorg: fold and attach a branch that has been accepted. */
    method Extend(branch: seq<Block>)
      requires Valid()
      modifies this
      ensures Valid()
      ensures View() == old(View()).PushAll(branch)
    {
      for i := 0 to |branch|
        invariant blocks == old(blocks) && finality == old(finality)
        invariant state == FoldFrom(sha, old(state), branch[..i])
      {
        assert branch[..i + 1][..i] == branch[..i];
        state := Advance(sha, state, branch[i]);
      }
      assert branch[..|branch|] == branch;
      FoldConcat(sha, blocks, branch);
      blocks := blocks + branch;
      finality := finality + AllSeen(|branch|);
    }

    method Reorg(branch: seq<Block>, bound: Option<uint64>) returns (dropped: seq<Block>, error: Option<ChainError>)
      requires Valid()
      modifies this
      ensures Valid()
      ensures Outcome(View(), dropped, error) == old(View()).Reorg(branch, bound)
    {
      hide Digest.Fold, FoldFrom, FirstAbove, CheckpointIndex, Chain.Rollback, Chain.PushAll, Chain.Checkpoint, Linear;
      if |branch| == 0 { return [], None; }
      var head := branch[0];
      if head.number == 0 { return [], Some(UnknownAncestor); }
      var ancestor := ByNumber(head.number - 1);
      if ancestor.None? || ancestor.value.hash != head.parent { return [], Some(UnknownAncestor); }
      var linear := CheckLinear(branch);
      if !linear { return [], Some(BrokenBranch); }
      var finalized := Checkpoint(FINALIZED);
      if finalized.Some? && ancestor.value.number < finalized.value.number { return [], Some(ResyncRequired); }
      if bound.Some? {
        var tip := Tip();
        if Minus(tip.value.number, ancestor.value.number) > bound.value { return [], Some(ResyncRequired); }
      }
      dropped := Rollback(ancestor.value.number);
      Extend(branch);
      error := None;
    }

    /** The backward scan at the end of reconcile. */
    method NewestShared(candidate: seq<Block>) returns (i: int)
      ensures i == View().NewestShared(candidate)
    {
      i := |candidate| - 1;
      assert candidate[..i + 1] == candidate;
      while i >= 0
        invariant -1 <= i < |candidate|
        invariant View().NewestShared(candidate) == View().NewestShared(candidate[..i + 1])
      {
        var have := ByNumber(candidate[i].number);
        if have.Some? && have.value.hash == candidate[i].hash { return; }
        assert candidate[..i + 1][..i] == candidate[..i];
        i := i - 1;
      }
    }

    method Reconcile(candidate: seq<Block>, bound: Option<uint64>)
      returns (dropped: seq<Block>, error: Option<ChainError>)
      requires Valid()
      modifies this
      ensures Valid()
      ensures Outcome(View(), dropped, error) == old(View()).Reconcile(candidate, bound)
    {
      hide Chain.Reorg, Chain.NewestShared, Linear, Digest.Fold;
      if |candidate| == 0 {
        NothingToReconcile(View(), bound);
        return [], None;
      }
      var linear := CheckLinear(candidate);
      if !linear { return [], Some(BrokenBranch); }
      var shared := NewestShared(candidate);
      if shared == |candidate| - 1 {
        assert candidate[shared + 1..] == [];
        NothingToReorg(View(), bound);
        return [], None;
      }
      dropped, error := Reorg(candidate[shared + 1..], bound);
    }

    method FindHash(hash: Hash) returns (index: int)
      ensures index == FirstWithHash(blocks, hash)
    {
      for i := 0 to |blocks|
        invariant FirstWithHash(blocks, hash) == FirstWithHash(blocks, hash, i)
      {
        if blocks[i].hash == hash { return i; }
      }
      return -1;
    }

    /** The level of a stored hash, or seen for an unknown one. */
    method FinalityOf(hash: Hash) returns (level: Level)
      requires |finality| == |blocks|
      ensures level == View().FinalityOf(hash)
    {
      var index := FindHash(hash);
      level := if index < 0 then SEEN else finality[index];
    }

    method Raise(index: nat, level: Level)
      requires index < |blocks| == |finality|
      modifies this`finality
      ensures finality == Raised(old(finality), index, level)
    {
      for i := 0 to index + 1
        invariant |finality| == |blocks|
        invariant forall j | 0 <= j < i :: finality[j] == Raised(old(finality), index, level)[j]
        invariant forall j | i <= j < |blocks| :: finality[j] == old(finality)[j]
      {
        if finality[i] < level { finality := finality[i := level]; }
      }
    }

    method MarkFinality(hash: Hash, level: Level) returns (error: Option<ChainError>)
      requires |finality| == |blocks|
      modifies this`finality
      ensures (View(), error) == old(View()).MarkFinality(hash, level)
    {
      if level > FINALIZED { return Some(InvalidFinality); }
      var index := FindHash(hash);
      if index < 0 { return Some(UnknownBlock); }
      if finality[index] > level { return Some(FinalityRegression); }
      var checkpoint := CheckpointAt(level);
      if level > SEEN && checkpoint >= 0 && index < checkpoint { return Some(FinalityRegression); }
      Raise(index, level);
      error := None;
    }

    /** Both updates are made on a staged copy, whose levels replace the store's only when both succeed. */
    method MarkCheckpoints(safe: Option<Hash>, finalized: Option<Hash>) returns (error: Option<ChainError>)
      requires Valid()
      modifies this
      ensures Valid()
      ensures (View(), error) == old(View()).MarkCheckpoints(safe, finalized)
    {
      hide Chain.MarkFinality, Digest.Fold;
      if safe.Some? && finalized.Some? {
        var safeIndex, finalizedIndex := -1, -1;
        for i := 0 to |blocks|
          invariant safeIndex == LastWithHash(blocks[..i], safe.value)
          invariant finalizedIndex == LastWithHash(blocks[..i], finalized.value)
        {
          assert blocks[..i + 1][..i] == blocks[..i];
          if blocks[i].hash == safe.value { safeIndex := i; }
          if blocks[i].hash == finalized.value { finalizedIndex := i; }
        }
        assert blocks[..|blocks|] == blocks;
        if safeIndex < 0 || finalizedIndex < 0 { return Some(UnknownBlock); }
        if finalizedIndex > safeIndex { return Some(InvalidCheckpointOrder); }
      }
      var staged := new Store(sha);
      staged.blocks, staged.finality, staged.state := blocks, finality, state;
      if safe.Some? {
        error := staged.MarkFinality(safe.value, SAFE);
        if error.Some? { return; }
      }
      if finalized.Some? {
        error := staged.MarkFinality(finalized.value, FINALIZED);
        if error.Some? { return; }
      }
      finality := staged.finality;
      error := None;
    }
  }
}
