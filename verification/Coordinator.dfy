/** The coordinator of internal/indexer, which owns the store, method by method. */
module Coordinator {
  import opened Types
  import opened Sequences
  import opened Digest
  import opened Chain
  import opened ChainStore
  import opened Rpc
  import opened LogOrder
  import opened Convert
  import opened Indexing
  import Backfill

  function Reversed(hs: seq<Header>): (r: seq<Header>)
    ensures |r| == |hs|
  {
    if hs == [] then [] else [hs[|hs| - 1]] + Reversed(hs[..|hs| - 1])
  }

  lemma ReversedPush(hs: seq<Header>, h: Header)
    ensures Reversed(hs + [h]) == [h] + Reversed(hs)
  {
    assert (hs + [h])[..|hs|] == hs;
  }

  lemma {:induction false} ReversedAt(hs: seq<Header>, i: nat)
    requires i < |hs|
    ensures Reversed(hs)[i] == hs[|hs| - 1 - i]
  {
    if i > 0 { ReversedAt(hs[..|hs| - 1], i - 1); }
  }

  lemma {:induction false} BetweenPush(logs: seq<Log>, x: Log, low: nat, high: nat)
    ensures Between(logs + [x], low, high)
      == Between(logs, low, high) + (if low <= x.blockNumber <= high then [x] else [])
  {
    if logs != [] {
      assert (logs + [x])[1..] == logs[1..] + [x];
      BetweenPush(logs[1..], x, low, high);
    }
  }

  function LogsAt(logsByNumber: map<uint64, seq<Log>>, n: uint64): seq<Log> {
    if n in logsByNumber then logsByNumber[n] else []
  }

  ghost predicate Groups(logsByNumber: map<uint64, seq<Log>>, emitted: seq<Log>) {
    forall n: uint64 :: LogsAt(logsByNumber, n) == Between(emitted, n, n)
  }

  class Coordinator {
    const setup: Setup
    const store: Store

    ghost predicate Valid()
      reads this, store
    {
      setup.Valid() && store.Valid()
    }

    constructor (setup: Setup, store: Store)
      requires setup.Valid() && store.Valid()
      ensures Valid() && this.setup == setup && this.store == store
    {
      this.setup, this.store := setup, store;
    }

    method Holds(n: uint64, h: Hash) returns (holds: bool)
      requires store.Valid()
      ensures holds == store.View().Holds(n, h)
    {
      var stored := store.ByNumber(n);
      holds := stored.Some? && stored.value.hash == h;
    }

    /**
      The descending walk of ingestHead.  Whatever the provider answers, it fetches
      no more parents than lie between the head and the retained depth below the tip.
     */
    method WalkBranch(s: Session, announced: Header)
      returns (headersDescending: seq<Header>, error: Option<IndexError>, ghost fetches: nat)
      requires Valid() && 0 <= announced.number < TWO64 && store.blocks != []
      ensures Branch(setup, store.View(), s, announced.number, announced)
           == if error.Some? then Err(error.value) else Ok(Reversed(headersDescending))
      ensures fetches == 0 || fetches <= announced.number - (store.View().Tip().value.number - setup.retainedDepth)
    {
      hide Chain.Holds, CheckedReply, CheckedNumber, Digest.Fold, Reversed;
      var c := store.View();
      var tip := store.Tip();
      var head := announced.number;
      var current := announced;
      headersDescending, fetches := [], 0;
      assert Reversed(headersDescending) == [];
      ThenNothing(Branch(setup, c, s, head, current));
      while true
        invariant 0 <= current.number < TWO64
        invariant Branch(setup, c, s, head, announced)
               == Then(Branch(setup, c, s, head, current), Ok(Reversed(headersDescending)))
        invariant fetches == announced.number - current.number
        invariant fetches == 0 || current.number >= tip.value.number - setup.retainedDepth
        decreases current.number
      {
        var stored := Holds(current.number, current.hash);
        if stored {
          ThenNothing<Header, IndexError>(Ok(Reversed(headersDescending)));
          return headersDescending, None, fetches;
        }
        ghost var above := Reversed(headersDescending);
        ReversedPush(headersDescending, current);
        headersDescending := headersDescending + [current];
        if current.number == 0 { return headersDescending, Some(NeedsResync(head, setup.retainedDepth)), fetches; }
        var parentNumber: uint64 := current.number - 1;
        var linked := Holds(parentNumber, current.parent);
        if linked { return headersDescending, None, fetches; }
        if tip.value.number > parentNumber && tip.value.number - parentNumber > setup.retainedDepth {
          return headersDescending, Some(NeedsResync(head, setup.retainedDepth)), fetches;
        }
        fetches := fetches + 1;
        var parent := CheckedReply(s.header(parentNumber), Some(parentNumber));
        if parent.Err? { return headersDescending, Some(parent.error), fetches; }
        if parent.value.hash != current.parent { return headersDescending, Some(Disconnected), fetches; }
        ThenAssoc(Branch(setup, c, s, head, parent.value), Ok([current]), Ok(above));
        current := parent.value;
      }
    }

    /** The descending walk of ingestFirstHead. */
    method WalkFirstBranch(s: Session, announced: Header)
      returns (headersDescending: seq<Header>, error: Option<IndexError>)
      requires 0 <= announced.number < TWO64
      ensures FirstBranch(setup, s, announced)
           == if error.Some? then Err(error.value) else Ok(Reversed(headersDescending))
    {
      headersDescending := [announced];
      var current := announced;
      ghost var above: seq<Header> := [];
      ThenNothing(FirstBranch(setup, s, current));
      while current.number > setup.start
        invariant 0 <= current.number < TWO64
        invariant Reversed(headersDescending) == [current] + above
        invariant FirstBranch(setup, s, announced) == Then(FirstBranch(setup, s, current), Ok(above))
        decreases current.number
      {
        var parentNumber: uint64 := current.number - 1;
        var parent := CheckedReply(s.header(parentNumber), Some(parentNumber));
        if parent.Err? { return headersDescending, Some(parent.error); }
        if parent.value.hash != current.parent { return headersDescending, Some(Disconnected); }
        ThenAssoc(FirstBranch(setup, s, parent.value), Ok([current]), Ok(above));
        above := [current] + above;
        assert (headersDescending + [parent.value])[..|headersDescending|] == headersDescending;
        headersDescending := headersDescending + [parent.value];
        current := parent.value;
      }
      error := None;
    }

    method FetchOne(s: Session, header: Header) returns (r: Result<Block, IndexError>)
      ensures r == FetchBlock(setup, s, header)
    {
      var reply := s.logsInBlock(header);
      if reply.Failed? { return Err(RpcFailed); }
      if reply.Cancelled? { return Err(CancelledByCaller); }
      r := ConvertBlock(setup.decode, header, reply.value);
    }

    /** Fetches the collected headers' blocks in ascending order. */
    method FetchDescending(s: Session, headersDescending: seq<Header>)
      returns (candidate: seq<Block>, error: Option<IndexError>)
      ensures FetchAll(setup, s, Reversed(headersDescending))
           == if error.Some? then Err(error.value) else Ok(candidate)
    {
      var ascending := Reversed(headersDescending);
      candidate := [];
      var n := |headersDescending|;
      for i := 0 to n
        invariant FetchAll(setup, s, ascending[..i]) == Ok(candidate)
      {
        ReversedAt(headersDescending, i);
        assert ascending[..i + 1][..i] == ascending[..i];
        var block := FetchOne(s, headersDescending[n - 1 - i]);
        if block.Err? {
          FetchFails(s, ascending, i + 1);
          return candidate, Some(block.error);
        }
        candidate := candidate + [block.value];
      }
      assert ascending[..n] == ascending;
      error := None;
    }

    lemma FetchFails(s: Session, headers: seq<Header>, i: nat)
      requires i <= |headers| && FetchAll(setup, s, headers[..i]).Err?
      ensures FetchAll(setup, s, headers) == FetchAll(setup, s, headers[..i])
      decreases |headers| - i
    {
      if i == |headers| {
        assert headers[..i] == headers;
      } else {
        assert headers[..i + 1][..i] == headers[..i];
        FetchFails(s, headers, i + 1);
      }
    }

    method CommitByReconcile(candidate: seq<Block>) returns (error: Option<IndexError>)
      requires Valid() && candidate != []
      modifies store
      ensures Valid()
      ensures (store.View(), error) == CommitFork(old(store.View()), candidate, setup.retainedDepth)
    {
      var _, refused := store.Reconcile(candidate, Some(setup.retainedDepth));
      if refused.None? { return None; }
      if refused.value.NeedsResync() {
        return Some(NeedsResync(candidate[|candidate| - 1].number, setup.retainedDepth));
      }
      return Some(StoreRefused(refused.value));
    }

    method CommitCandidate(candidate: seq<Block>) returns (error: Option<IndexError>)
      requires Valid()
      modifies store
      ensures Valid()
      ensures (store.View(), error) == Commit(old(store.View()), candidate, setup.retainedDepth)
    {
      hide CommitFork, Digest.Fold, Chain.Holds, Advance, Chain.Reconcile;
      if |candidate| == 0 { return None; }
      var linear := store.CheckLinear(candidate);
      if !linear { return Some(Disconnected); }
      for i := 0 to |candidate|
        invariant Valid()
        invariant CommitFrom(old(store.View()), candidate, setup.retainedDepth, 0)
               == CommitFrom(store.View(), candidate, setup.retainedDepth, i)
      {
        var block := candidate[i];
        var stored := Holds(block.number, block.hash);
        if stored { continue; }
        var tip := store.Tip();
        if tip.None? || (block.number == Next(tip.value.number) && block.parent == tip.value.hash) {
          var refused := store.Append(block);
          assert refused.None?;
          continue;
        }
        error := CommitByReconcile(candidate);
        return;
      }
      error := None;
    }

    method CheckCheckpoint(header: Header, level: Level) returns (hash: Result<Option<Hash>, IndexError>)
      requires Valid() && store.blocks != [] && 0 <= header.number < TWO64
      ensures hash == ValidateCheckpoint(store.View(), header, level)
    {
      if header.number < store.blocks[0].number { return Ok(None); }
      var stored := store.ByNumber(header.number);
      if stored.None? || stored.value.hash != header.hash { return Err(Disconnected); }
      var current := store.Checkpoint(level);
      if current.Some? && header.number <= current.value.number { return Ok(None); }
      return Ok(Some(stored.value.hash));
    }

    method RefreshFinality(s: Session) returns (error: Option<IndexError>)
      requires Valid()
      modifies store
      ensures Valid()
      ensures (store.View(), error) == Refresh(setup, old(store.View()), s)
    {
      if s.cancelled(EnterRefresh) { return Some(CancelledByCaller); }
      if !s.safe.Answer? { return ReplyError(s.safe); }
      if !s.finalized.Answer? { return ReplyError(s.finalized); }
      var safeNumber := CheckedNumber(s.safe.value, None);
      if safeNumber.Err? { return Some(safeNumber.error); }
      var finalizedNumber := CheckedNumber(s.finalized.value, None);
      if finalizedNumber.Err? { return Some(finalizedNumber.error); }
      if finalizedNumber.value > safeNumber.value { return Some(Disconnected); }
      if |store.blocks| == 0 {
        if safeNumber.value < setup.start { return None; }
        return Some(Disconnected);
      }
      if safeNumber.value > store.blocks[|store.blocks| - 1].number { return Some(Disconnected); }
      var safeHash := CheckCheckpoint(s.safe.value.value, SAFE);
      if safeHash.Err? { return Some(safeHash.error); }
      var finalizedHash := CheckCheckpoint(s.finalized.value.value, FINALIZED);
      if finalizedHash.Err? { return Some(finalizedHash.error); }
      if s.cancelled(BeforeMark) { return Some(CancelledByCaller); }
      var refused := store.MarkCheckpoints(safeHash.value, finalizedHash.value);
      error := if refused.Some? then Some(Disconnected) else None;
    }

    method IngestFirstHead(s: Session, announced: Header) returns (error: Option<IndexError>)
      requires Valid() && 0 <= announced.number < TWO64 && store.blocks == []
      modifies store
      ensures Valid()
      ensures var candidate := HeadCandidate(setup, old(store.View()), s, announced);
              (store.View(), error) ==
                if candidate.Err? then (old(store.View()), Some(candidate.error))
                else if s.cancelled(BeforeCommit) then (old(store.View()), Some(CancelledByCaller))
                else Commit(old(store.View()), candidate.value, setup.retainedDepth)
    {
      var headersDescending, candidate;
      headersDescending, error := WalkFirstBranch(s, announced);
      if error.Some? { return; }
      candidate, error := FetchDescending(s, headersDescending);
      if error.Some? { return; }
      if s.cancelled(BeforeCommit) { return Some(CancelledByCaller); }
      error := CommitCandidate(candidate);
    }

    method Ingest(s: Session, announced: Option<Header>) returns (error: Option<IndexError>)
      requires Valid()
      modifies store
      ensures Valid()
      ensures (store.View(), error) == IngestHead(setup, old(store.View()), s, announced)
    {
      if s.cancelled(Enter) { return Some(CancelledByCaller); }
      var headNumber := CheckedNumber(announced, None);
      if headNumber.Err? { return Some(headNumber.error); }
      if headNumber.value < setup.start { return None; }
      var stored := Holds(headNumber.value, announced.value.hash);
      if stored {
        error := RefreshFinality(s);
        return;
      }
      if |store.blocks| == 0 {
        error := IngestFirstHead(s, announced.value);
        if error.Some? { return; }
        error := RefreshFinality(s);
        return;
      }
      var headersDescending, candidate;
      ghost var fetches;
      headersDescending, error, fetches := WalkBranch(s, announced.value);
      if error.Some? { return; }
      candidate, error := FetchDescending(s, headersDescending);
      if error.Some? { return; }
      if s.cancelled(BeforeCommit) { return Some(CancelledByCaller); }
      error := CommitCandidate(candidate);
      if error.Some? { return; }
      error := RefreshFinality(s);
    }

    /** The emitter of buildBackfillRange: groups the emitted logs by block. */
    method GroupByNumber(emitted: seq<Log>) returns (logsByNumber: map<uint64, seq<Log>>)
      ensures Groups(logsByNumber, emitted)
    {
      logsByNumber := map[];
      for i := 0 to |emitted|
        invariant Groups(logsByNumber, emitted[..i])
      {
        var log := emitted[i];
        ghost var before := logsByNumber;
        logsByNumber := logsByNumber[log.blockNumber := LogsAt(logsByNumber, log.blockNumber) + [log]];
        assert emitted[..i + 1] == emitted[..i] + [log];
        forall n: uint64
          ensures LogsAt(logsByNumber, n) == Between(emitted[..i + 1], n, n)
        {
          BetweenPush(emitted[..i], log, n, n);
          assert LogsAt(before, n) == Between(emitted[..i], n, n);
        }
      }
      assert emitted[..|emitted|] == emitted;
    }

    method AssembleRange(s: Session, ghost emitted: seq<Log>, logsByNumber: map<uint64, seq<Log>>, from: uint64,
        to: uint64)
      returns (candidate: seq<Block>, error: Option<IndexError>)
      requires from <= to
      requires Groups(logsByNumber, emitted)
      ensures RangeBlocks(setup, s, emitted, from, to + 1) == if error.Some? then Err(error.value) else Ok(candidate)
    {
      hide CheckedReply, BlockFrom, Between, LogsAt;
      candidate := [];
      var number: nat := from;
      while number <= to
        invariant from <= number <= to + 1
        invariant RangeBlocks(setup, s, emitted, from, number) == Ok(candidate)
      {
        var fetched := CheckedReply(s.header(number), Some(number));
        if fetched.Err? {
          RangeFails(s, emitted, from, number + 1, to + 1);
          return candidate, Some(fetched.error);
        }
        var logs := LogsAt(logsByNumber, number);
        assert logs == Between(emitted, number, number);
        var block := ConvertBlock(setup.decode, fetched.value, logs);
        if block.Err? {
          RangeFails(s, emitted, from, number + 1, to + 1);
          return candidate, Some(block.error);
        }
        candidate := candidate + [block.value];
        number := number + 1;
      }
      error := None;
    }

    method BuildBackfillRange(s: Session, from: uint64, to: uint64)
      returns (candidate: seq<Block>, error: Option<IndexError>)
      requires setup.Valid() && from <= to
      ensures BuildRange(setup, s, from, to) == if error.Some? then Err(error.value) else Ok(candidate)
    {
      var config := Backfill.Config(from, to, setup.minRange, setup.maxRange);
      var emitted, failed := Backfill.Run(s, InRange(from, to), config);
      if failed.Some? { return [], failed; }
      Backfill.SuccessEmitsThePieces(s, InRange(from, to), config, from, setup.maxRange);
      var logsByNumber := GroupByNumber(emitted);
      candidate, error := AssembleRange(s, emitted, logsByNumber, from, to);
      if error.Some? { return; }
      if s.cancelled(RangeEnd(from)) { return candidate, Some(CancelledByCaller); }
      error := None;
    }

    lemma RangeFails(s: Session, emitted: seq<Log>, from: uint64, i: nat, end: nat)
      requires from <= i <= end <= TWO64 && RangeBlocks(setup, s, emitted, from, i).Err?
      ensures RangeBlocks(setup, s, emitted, from, end) == RangeBlocks(setup, s, emitted, from, i)
      decreases end - i
    {
      if i < end { RangeFails(s, emitted, from, i + 1, end); }
    }

    /** Every range from the configured start through the captured latest height. */
    method CollectRanges(s: Session, latestNumber: uint64) returns (candidate: seq<Block>, error: Option<IndexError>)
      requires setup.Valid() && setup.start <= latestNumber
      ensures BuildRanges(setup, s, setup.start, latestNumber) == if error.Some? then Err(error.value)
        else Ok(candidate)
    {
      hide BuildRange, BoundedEnd;
      candidate := [];
      var from: uint64 := setup.start;
      ThenNothing(BuildRanges(setup, s, setup.start, latestNumber));
      while true
        invariant setup.start <= from <= latestNumber
        invariant BuildRanges(setup, s, setup.start, latestNumber)
          == Then(Ok(candidate), BuildRanges(setup, s, from, latestNumber))
        decreases latestNumber - from
      {
        var to := BoundedEnd(from, setup.maxRange, latestNumber);
        var rangeBlocks;
        rangeBlocks, error := BuildBackfillRange(s, from, to);
        if error.Some? { return; }
        if to < latestNumber {
          ThenAssoc(Ok(candidate), Ok(rangeBlocks), BuildRanges(setup, s, to + 1, latestNumber));
        }
        candidate := candidate + rangeBlocks;
        if to == latestNumber { break; }
        from := to + 1;
      }
      error := None;
    }

    method Fill(s: Session) returns (error: Option<IndexError>)
      requires Valid()
      modifies store
      ensures Valid()
      ensures (store.View(), error) == BackfillStep(setup, old(store.View()), s)
    {
      if s.cancelled(Enter) { return Some(CancelledByCaller); }
      var latest := CheckedReply(s.latest, None);
      if latest.Err? { return Some(latest.error); }
      var latestNumber: uint64 := latest.value.number;
      if latestNumber < setup.start { return None; }
      var candidate;
      candidate, error := CollectRanges(s, latestNumber);
      if error.Some? { return; }
      if s.cancelled(BeforeCommit) { return Some(CancelledByCaller); }
      error := CommitCandidate(candidate);
      if error.Some? { return; }
      error := RefreshFinality(s);
    }
  }
}
