/**
  internal/chain/chain.go and internal/chain/finality.go as functions on a value:
  what each operation of the canonical store makes of the blocks, their finality
  levels and the running state.  Module ChainStore holds the mutable store that
  is proved to compute these functions; module ChainLaws says what they mean.
 */
module Chain {
  import opened Types
  import opened Digest

  /** Go's Finality is a uint8 of which only 0, 1 and 2 are valid. */
  type Level = n: nat | n < 256

  const SEEN: Level := 0
  const SAFE: Level := 1
  const FINALIZED: Level := 2

  datatype ChainError =
    | NotLinear
    | UnknownAncestor   // ErrResyncRequired joined with ErrUnknownAncestor
    | BrokenBranch
    | ResyncRequired
    | UnknownBlock
    | InvalidFinality
    | FinalityRegression
    | InvalidCheckpointOrder
  {
    /** errors.Is(err, ErrResyncRequired) */
    predicate NeedsResync() { UnknownAncestor? || ResyncRequired? }
  }

  predicate Links(a: Block, b: Block) {
    b.number == Next(a.number) && b.parent == a.hash
  }

  predicate Linear(bs: seq<Block>) {
    forall i | 1 <= i < |bs| :: Links(bs[i - 1], bs[i])
  }

  /** Linear, and the heights really ascend instead of wrapping. */
  predicate GapFree(bs: seq<Block>) {
    Linear(bs) && forall i | 0 <= i < |bs| :: bs[i].number == bs[0].number + i
  }

  /** The first position at or after `from` of height `n`, or -1. */
  function IndexOf(bs: seq<Block>, n: uint64, from: nat := 0): (r: int)
    requires from <= |bs|
    ensures -1 <= r < |bs|
    ensures r >= 0 ==> from <= r && bs[r].number == n && forall j | from <= j < r :: bs[j].number != n
    ensures r < 0 ==> forall j | from <= j < |bs| :: bs[j].number != n
    decreases |bs| - from
  {
    if from == |bs| then -1
    else if bs[from].number == n then from
    else IndexOf(bs, n, from + 1)
  }

  function FirstWithHash(bs: seq<Block>, h: Hash, from: nat := 0): (r: int)
    requires from <= |bs|
    ensures -1 <= r < |bs|
    ensures r >= 0 ==> from <= r && bs[r].hash == h && forall j | from <= j < r :: bs[j].hash != h
    ensures r < 0 ==> forall j | from <= j < |bs| :: bs[j].hash != h
    decreases |bs| - from
  {
    if from == |bs| then -1
    else if bs[from].hash == h then from
    else FirstWithHash(bs, h, from + 1)
  }

  function LastWithHash(bs: seq<Block>, h: Hash): (r: int)
    ensures -1 <= r < |bs|
    ensures r >= 0 ==> bs[r].hash == h
    ensures forall j | r < j < |bs| :: bs[j].hash != h
  {
    if bs == [] then -1
    else if bs[|bs| - 1].hash == h then |bs| - 1
    else LastWithHash(bs[..|bs| - 1], h)
  }

  /** The position of the first block above height `to`, or the number of blocks. */
  function FirstAbove(bs: seq<Block>, to: uint64, from: nat := 0): (r: nat)
    requires from <= |bs|
    ensures from <= r <= |bs|
    ensures forall j | from <= j < r :: bs[j].number <= to
    ensures r < |bs| ==> bs[r].number > to
    decreases |bs| - from
  {
    if from == |bs| || bs[from].number > to then from else FirstAbove(bs, to, from + 1)
  }

  /** checkpointIndex: the last position whose finality is at least `level`, or -1. */
  function CheckpointIndex(finality: seq<Level>, level: Level): (r: int)
    ensures -1 <= r < |finality|
    ensures r >= 0 ==> finality[r] >= level
    ensures level <= FINALIZED ==> forall j | r < j < |finality| :: finality[j] < level
  {
    if level > FINALIZED || finality == [] then -1
    else if finality[|finality| - 1] >= level then |finality| - 1
    else CheckpointIndex(finality[..|finality| - 1], level)
  }

  function Raised(finality: seq<Level>, upTo: int, level: Level): (r: seq<Level>)
    ensures |r| == |finality|
    ensures forall i | 0 <= i < |r| :: r[i] == if i <= upTo && finality[i] < level then level else finality[i]
  {
    seq(|finality|, i requires 0 <= i < |finality| => if i <= upTo && finality[i] < level then level else finality[i])
  }

  function AllSeen(n: nat): (r: seq<Level>)
    ensures |r| == n && forall i | 0 <= i < n :: r[i] == SEEN
  {
    seq(n, _ => SEEN)
  }

  datatype Outcome = Outcome(chain: Chain, dropped: seq<Block>, error: Option<ChainError>)

  datatype Chain = Chain(sha: Hasher, blocks: seq<Block>, finality: seq<Level>, state: State)
  {
    ghost predicate Coherent() {
      |finality| == |blocks| && state == Fold(sha, blocks)
    }

    function Tip(): Option<Block> {
      if blocks == [] then None else Some(blocks[|blocks| - 1])
    }

    function ByNumber(n: uint64): Option<Block> {
      var i := IndexOf(blocks, n);
      if i < 0 then None else Some(blocks[i])
    }

    /** The block stored at height `n` has hash `h`. */
    predicate Holds(n: uint64, h: Hash) {
      var i := IndexOf(blocks, n);
      i >= 0 && blocks[i].hash == h
    }

    /** `b` may be pushed: the store is empty, or `b` builds on its tip. */
    predicate Accepts(b: Block) {
      blocks == [] || Links(blocks[|blocks| - 1], b)
    }

    function Push(b: Block): Chain {
      Chain(sha, blocks + [b], finality + [SEEN], Advance(sha, state, b))
    }

    function PushAll(bs: seq<Block>): Chain {
      Chain(sha, blocks + bs, finality + AllSeen(|bs|), FoldFrom(sha, state, bs))
    }

    function Append(b: Block): (Chain, Option<ChainError>) {
      if Accepts(b) then (Push(b), None)
      else if Holds(b.number, b.hash) then (this, None)
      else (this, Some(NotLinear))
    }

    function Rollback(to: uint64): (out: Outcome)
      requires |finality| == |blocks|
      ensures |out.chain.finality| == |out.chain.blocks|
    {
      var k := FirstAbove(blocks, to);
      if k == |blocks| then Outcome(this, [], None)
      else Outcome(Chain(sha, blocks[..k], finality[..k], Fold(sha, blocks[..k])), blocks[k..], None)
    }

    /** The height of the checkpoint at `level`. */
    function Checkpoint(level: Level): Option<Block>
      requires |finality| == |blocks|
    {
      var i := CheckpointIndex(finality, level);
      if i < 0 then None else Some(blocks[i])
    }

    /** Why reorg rejects a non-empty branch, in the order of its checks. */
    function Refusal(branch: seq<Block>, bound: Option<uint64>): Option<ChainError>
      requires |finality| == |blocks| && branch != []
    {
      if branch[0].number == 0 || !Holds(branch[0].number - 1, branch[0].parent) then Some(UnknownAncestor)
      else if !Linear(branch) then Some(BrokenBranch)
      else
        var ancestor := branch[0].number - 1;
        if Checkpoint(FINALIZED).Some? && ancestor < Checkpoint(FINALIZED).value.number then Some(ResyncRequired)
        else if bound.Some? && Minus(blocks[|blocks| - 1].number, ancestor) > bound.value then Some(ResyncRequired)
        else None
    }

    function Reorg(branch: seq<Block>, bound: Option<uint64>): (out: Outcome)
      requires |finality| == |blocks|
      ensures |out.chain.finality| == |out.chain.blocks|
    {
      if branch == [] then Outcome(this, [], None)
      else if Refusal(branch, bound).Some? then Outcome(this, [], Refusal(branch, bound))
      else
        var cut := Rollback(branch[0].number - 1);
        Outcome(cut.chain.PushAll(branch), cut.dropped, None)
    }

    /** The last position of `candidate` whose block is stored, or -1. */
    function NewestShared(candidate: seq<Block>): (r: int)
      ensures -1 <= r < |candidate|
      ensures r >= 0 ==> Holds(candidate[r].number, candidate[r].hash)
      ensures forall j | r < j < |candidate| :: !Holds(candidate[j].number, candidate[j].hash)
      decreases |candidate|
    {
      if candidate == [] then -1
      else if Holds(candidate[|candidate| - 1].number, candidate[|candidate| - 1].hash) then |candidate| - 1
      else NewestShared(candidate[..|candidate| - 1])
    }

    function Reconcile(candidate: seq<Block>, bound: Option<uint64>): (out: Outcome)
      requires |finality| == |blocks|
      ensures |out.chain.finality| == |out.chain.blocks|
    {
      if !Linear(candidate) then Outcome(this, [], Some(BrokenBranch))
      else Reorg(candidate[NewestShared(candidate) + 1..], bound)
    }

    function MarkFinality(h: Hash, level: Level): (r: (Chain, Option<ChainError>))
      requires |finality| == |blocks|
      ensures r.0 == this.(finality := r.0.finality) && |r.0.finality| == |blocks|
      ensures r.1.Some? ==> r.0 == this
    {
      var i := FirstWithHash(blocks, h);
      if level > FINALIZED then (this, Some(InvalidFinality))
      else if i < 0 then (this, Some(UnknownBlock))
      else if finality[i] > level then (this, Some(FinalityRegression))
      else if level > SEEN && i < CheckpointIndex(finality, level) then (this, Some(FinalityRegression))
      else (this.(finality := Raised(finality, i, level)), None)
    }

    function FinalityOf(h: Hash): Level
      requires |finality| == |blocks|
    {
      var i := FirstWithHash(blocks, h);
      if i < 0 then SEEN else finality[i]
    }

    function MarkIfGiven(h: Option<Hash>, level: Level): (r: (Chain, Option<ChainError>))
      requires |finality| == |blocks|
      ensures r.0 == this.(finality := r.0.finality) && |r.0.finality| == |blocks|
      ensures r.1.Some? ==> r.0 == this
    {
      if h.None? then (this, None) else MarkFinality(h.value, level)
    }

    function MarkCheckpoints(safe: Option<Hash>, finalized: Option<Hash>): (r: (Chain, Option<ChainError>))
      requires |finality| == |blocks|
      ensures r.0 == this.(finality := r.0.finality) && |r.0.finality| == |blocks|
      ensures r.1.Some? ==> r.0 == this
    {
      if safe.Some? && finalized.Some?
         && (LastWithHash(blocks, safe.value) < 0 || LastWithHash(blocks, finalized.value) < 0)
      then (this, Some(UnknownBlock))
      else if safe.Some? && finalized.Some?
              && LastWithHash(blocks, finalized.value) > LastWithHash(blocks, safe.value)
      then (this, Some(InvalidCheckpointOrder))
      else
        var first := MarkIfGiven(safe, SAFE);
        if first.1.Some? then (this, first.1)
        else
          var second := first.0.MarkIfGiven(finalized, FINALIZED);
          if second.1.Some? then (this, second.1) else second
    }
  }

  function EmptyChain(sha: Hasher): Chain {
    Chain(sha, [], [], EMPTY_STATE)
  }
}
