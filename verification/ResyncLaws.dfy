/**
  The indexer against a provider that reports one honest chain: what a head or a
  backfill installs exactly, when a resync is demanded instead, and that the two
  ways of indexing agree.
 */
module ResyncLaws {
  import opened Types
  import opened Sequences
  import opened Digest
  import opened Chain
  import opened ChainLaws
  import opened CommitLaws
  import opened SafetyLaws
  import opened Rpc
  import opened LogOrder
  import opened Convert
  import opened Indexing
  import Backfill

  /** An honest chain from height zero: its headers, all its logs, and the canonical blocks they make. */
  datatype Ledger = Ledger(headers: seq<Header>, logs: seq<Rpc.Log>, blocks: seq<Block>)
  {
    /** The headers form one chain and the blocks carry the headers' identity. */
    ghost predicate Linked() {
      && 0 < |headers| == |blocks| <= TWO64
      && (forall i | 0 <= i < |headers| :: headers[i].number == i)
      && HeadersLink(headers)
      && (forall i | 0 <= i < |headers| ::
            blocks[i].number == i && blocks[i].hash == headers[i].hash && blocks[i].parent == headers[i].parent)
    }

    /** Each block is what convertBlock makes of its header and its logs. */
    ghost predicate Assembled(decode: Decoder)
      requires |headers| == |blocks|
    {
      forall n: uint64 {:trigger Between(logs, n, n)} | n < |headers| ::
        BlockFrom(decode, headers[n], Between(logs, n, n)) == Ok(blocks[n])
    }

    ghost predicate Valid(decode: Decoder) {
      Linked() && Assembled(decode)
    }

    function Head(): uint64
      requires 0 < |headers| <= TWO64
    {
      |headers| - 1
    }
  }

  /** The operation is not cancelled and header queries are answered truthfully. */
  ghost predicate ServesHeaders(s: Session, l: Ledger) {
    && !s.cancelled(Enter) && !s.cancelled(BeforeCommit)
    && forall n: uint64 | n < |l.headers| :: s.header(n) == Answer(Some(l.headers[n]))
  }

  /** Per-block log queries are answered truthfully, in any arrangement. */
  ghost predicate ServesBlockLogs(s: Session, l: Ledger) {
    forall n: uint64 {:trigger s.logsInBlock(l.headers[n])} | n < |l.headers| ::
      && s.logsInBlock(l.headers[n]).Answer?
      && multiset(s.logsInBlock(l.headers[n]).value) == multiset(Between(l.logs, n, n))
  }

  /** What the live path needs of an honest provider. */
  ghost predicate ServesHeads(s: Session, l: Ledger) {
    ServesHeaders(s, l) && ServesBlockLogs(s, l)
  }

  /** What a backfill needs: range queries may fail, but what they answer is the truth, in any arrangement. */
  ghost predicate ServesRanges(s: Session, l: Ledger)
    requires l.headers != []
  {
    && ServesHeaders(s, l)
    && s.latest == Answer(Some(l.headers[|l.headers| - 1]))
    && Backfill.ServesLogs(s, l.logs)
  }

  // ----- The specification -----

  /** The stored position of the newest block shared with the ledger, or -1. */
  function NewestCommon(c: Chain, l: Ledger): (j: int)
    requires |l.headers| == |l.blocks|
    ensures -1 <= j < |c.blocks|
    ensures j >= 0 ==> Shared(c, l, j)
    ensures forall i | j < i < |c.blocks| :: !Shared(c, l, i)
    decreases |c.blocks|
  {
    NewestCommonBelow(c, l, |c.blocks|)
  }

  predicate Shared(c: Chain, l: Ledger, i: nat)
    requires i < |c.blocks| && |l.headers| == |l.blocks|
  {
    c.blocks[i].number < |l.headers| && c.blocks[i].hash == l.headers[c.blocks[i].number].hash
  }

  function NewestCommonBelow(c: Chain, l: Ledger, k: nat): (j: int)
    requires k <= |c.blocks| && |l.headers| == |l.blocks|
    ensures -1 <= j < k
    ensures j >= 0 ==> Shared(c, l, j)
    ensures forall i | j < i < k :: !Shared(c, l, i)
  {
    if k == 0 then -1 else if Shared(c, l, k - 1) then k - 1 else NewestCommonBelow(c, l, k - 1)
  }

  /**
    The promised outcome for the ledger's head: nothing if it is stored; the whole
    ledger from the start block if the store is empty; otherwise the stored prefix
    up to the newest common ancestor and the ledger above it, provided that the
    ancestor is neither below the finalized checkpoint nor deeper than the
    retained depth; and a resync demand with the store unchanged in every other
    case.
   */
  function Resync(u: Setup, c: Chain, l: Ledger): (r: (Chain, Option<IndexError>))
    requires |c.finality| == |c.blocks| && 0 < |l.headers| == |l.blocks| <= TWO64 && u.start <= l.Head()
    ensures |r.0.finality| == |r.0.blocks|
  {
    var j := NewestCommon(c, l);
    if c.blocks == [] then (Grafted(c, 0, l.blocks[u.start..]), None)
    else if j >= 0 && c.blocks[j].number == l.Head() then (c, None)
    else if j >= 0 && Reachable(c, j + 1, u.retainedDepth) then
      (Grafted(c, j + 1, l.blocks[c.blocks[j].number + 1..]), None)
    else (c, Some(NeedsResync(l.Head(), u.retainedDepth)))
  }

  /** A commit's outcome, followed by a finality refresh if it succeeded. */
  function Refreshed(u: Setup, committed: (Chain, Option<IndexError>), s: Session): (Chain, Option<IndexError>)
    requires |committed.0.finality| == |committed.0.blocks|
  {
    if committed.1.Some? then committed else Refresh(u, committed.0, s)
  }

  // ----- The ledger's blocks -----

  lemma LedgerIsGapFree(l: Ledger)
    requires l.Linked()
    ensures GapFree(l.blocks)
  {
    MatchedRunIsGapFree(l.headers, l.blocks);
  }

  /** Holding a ledger block is the same as sharing it, at the position of its height. */
  lemma HoldsIffShared(c: Chain, l: Ledger, n: uint64)
    requires GapFree(c.blocks) && c.blocks != [] && |l.headers| == |l.blocks| && n < |l.headers|
    ensures c.Holds(n, l.headers[n].hash)
       <==> c.blocks[0].number <= n < c.blocks[0].number + |c.blocks| && Shared(c, l, n - c.blocks[0].number)
  {
    IndexInRun(c.blocks, n);
  }

  // ----- Ingesting the head block by block -----

  ghost predicate Fetches(u: Setup, s: Session, l: Ledger)
    requires l.Linked()
  {
    forall n: uint64 {:trigger FetchBlock(u, s, l.headers[n])} | n < |l.headers| ::
      FetchBlock(u, s, l.headers[n]) == Ok(l.blocks[n])
  }

  lemma HonestFetches(u: Setup, s: Session, l: Ledger)
    requires l.Valid(u.decode) && ServesBlockLogs(s, l)
    ensures Fetches(u, s, l)
  {
    forall n: uint64 | n < |l.headers|
      ensures FetchBlock(u, s, l.headers[n]) == Ok(l.blocks[n])
    {
      ConvertIgnoresArrangement(u.decode, l.headers[n], Between(l.logs, n, n), s.logsInBlock(l.headers[n]).value);
    }
  }

  lemma FetchNothing(u: Setup, s: Session)
    ensures FetchAll(u, s, []) == Ok([])
  {
  }

  lemma FetchAllSnoc(u: Setup, s: Session, hs: seq<Header>, h: Header)
    requires FetchAll(u, s, hs).Ok? && FetchBlock(u, s, h).Ok?
    ensures FetchAll(u, s, hs + [h]) == Ok(FetchAll(u, s, hs).value + [FetchBlock(u, s, h).value])
  {
    hide FetchBlock;
    assert (hs + [h])[..|hs|] == hs;
  }

  lemma {:induction false} FetchesTheLedger(u: Setup, s: Session, l: Ledger, a: nat, b: nat)
    requires l.Linked() && Fetches(u, s, l) && a <= b <= |l.headers|
    ensures FetchAll(u, s, l.headers[a..b]) == Ok(l.blocks[a..b])
    decreases b
  {
    hide FetchBlock, HeadersLink, FetchAll;
    if a < b {
      FetchesTheLedger(u, s, l, a, b - 1);
      var n: uint64 := b - 1;
      assert FetchBlock(u, s, l.headers[n]) == Ok(l.blocks[n]);
      SnocSlice(l.headers, a, b);
      SnocSlice(l.blocks, a, b);
      FetchAllSnoc(u, s, l.headers[a..b - 1], l.headers[n]);
    } else {
      FetchNothing(u, s);
      assert l.headers[a..b] == [] && l.blocks[a..b] == [];
    }
  }

  lemma FirstBranchStep(u: Setup, s: Session, l: Ledger, n: uint64)
    requires l.Linked() && ServesHeaders(s, l) && n < |l.headers|
    ensures FirstBranch(u, s, l.headers[n]) ==
              if n <= u.start then Ok([l.headers[n]])
              else Then(FirstBranch(u, s, l.headers[n - 1]), Ok([l.headers[n]]))
  {
    if n > 0 { assert l.headers[n].parent == l.headers[n - 1].hash; }
  }

  lemma {:induction false} FirstBranchIsTheLedger(u: Setup, s: Session, l: Ledger, n: uint64)
    requires l.Linked() && ServesHeaders(s, l) && u.start <= n < |l.headers|
    ensures FirstBranch(u, s, l.headers[n]) == Ok(l.headers[u.start..n + 1])
  {
    hide FirstBranch, HeadersLink, ServesHeaders;
    FirstBranchStep(u, s, l, n);
    if n > u.start {
      FirstBranchIsTheLedger(u, s, l, n - 1);
      SnocSlice(l.headers, u.start, n + 1);
    } else {
      assert l.headers[n..n + 1] == [l.headers[n]];
    }
  }

  /** The height of the newest common block, or -1. */
  function AncestorHeight(c: Chain, l: Ledger): int
    requires |l.headers| == |l.blocks|
  {
    if NewestCommon(c, l) < 0 then -1 else c.blocks[NewestCommon(c, l)].number
  }

  /** At and above the ancestor's height, the only ledger block the store holds is the ancestor. */
  lemma HeldIsAncestor(c: Chain, l: Ledger, n: uint64)
    requires Sound(c) && c.blocks != [] && l.Linked() && AncestorHeight(c, l) <= n < |l.headers|
    ensures c.Holds(n, l.headers[n].hash) <==> n == AncestorHeight(c, l)
  {
    var j := NewestCommon(c, l);
    HoldsIffShared(c, l, n);
    assert j >= 0 ==> c.blocks[j].number == c.blocks[0].number + j;
  }

  /** One step of the walk when the ledger is served. */
  lemma BranchStep(u: Setup, c: Chain, s: Session, l: Ledger, head: uint64, n: uint64)
    requires c.blocks != [] && l.Linked() && ServesHeaders(s, l) && n < |l.headers|
    ensures var tip := c.blocks[|c.blocks| - 1].number;
            Branch(u, c, s, head, l.headers[n]) ==
              if c.Holds(n, l.headers[n].hash) then Ok([])
              else if n == 0 then Err(NeedsResync(head, u.retainedDepth))
              else if c.Holds(n - 1, l.headers[n - 1].hash) then Ok([l.headers[n]])
              else if tip > n - 1 && tip - (n - 1) > u.retainedDepth then Err(NeedsResync(head, u.retainedDepth))
              else Then(Branch(u, c, s, head, l.headers[n - 1]), Ok([l.headers[n]]))
  {
    if n > 0 { assert l.headers[n].parent == l.headers[n - 1].hash; }
  }

  /**
    The walk from a ledger header at or above the newest common ancestor either
    collects exactly the headers above that ancestor or demands a resync, the
    latter only if there is no ancestor or it lies too deep.
   */
  lemma {:induction false} BranchIsTheLedger(u: Setup, c: Chain, s: Session, l: Ledger, head: uint64, n: uint64)
    requires Sound(c) && c.blocks != [] && l.Linked() && ServesHeaders(s, l) && AncestorHeight(c, l) <= n < |l.headers|
    ensures var a := AncestorHeight(c, l);
            var r := Branch(u, c, s, head, l.headers[n]);
            || (a >= 0 && r == Ok(l.headers[a + 1..n + 1]))
            || (r == Err(NeedsResync(head, u.retainedDepth))
                && (a < 0 || c.blocks[|c.blocks| - 1].number - a > u.retainedDepth))
    decreases n
  {
    hide Branch, Chain.Holds, AncestorHeight, HeadersLink, Sound;
    var a := AncestorHeight(c, l);
    BranchStep(u, c, s, l, head, n);
    HeldIsAncestor(c, l, n);
    if n == a {
      assert l.headers[a + 1..n + 1] == [];
    } else if n > 0 {
      HeldIsAncestor(c, l, n - 1);
      if n - 1 == a {
        assert l.headers[a + 1..n + 1] == [l.headers[n]];
      } else {
        BranchIsTheLedger(u, c, s, l, head, n - 1);
        if a >= 0 { SnocSlice(l.headers, a + 1, n + 1); }
      }
    }
  }

  /** The promised outcome when the ledger's head is not stored. */
  lemma ResyncAsPlaced(u: Setup, c: Chain, l: Ledger)
    requires Sound(c) && c.blocks != [] && l.Linked() && u.start <= l.Head() && AncestorHeight(c, l) < l.Head()
    ensures var a := AncestorHeight(c, l);
            Resync(u, c, l) ==
              if a < 0 then (c, Some(NeedsResync(l.Head(), u.retainedDepth)))
              else PlacedOrResync(c, l.blocks[a + 1..], NewestCommon(c, l) + 1, u.retainedDepth)
  {
    hide Digest.Fold;
  }

  lemma NewPartContinues(c: Chain, l: Ledger)
    requires Sound(c) && c.blocks != [] && l.Linked() && 0 <= AncestorHeight(c, l) < l.Head()
    ensures var rest := l.blocks[AncestorHeight(c, l) + 1..];
            GapFree(rest) && Continues(c, NewestCommon(c, l), rest) && NoneHeld(c, rest)
  {
    hide Chain.Holds, NewestCommon;
    var a := AncestorHeight(c, l);
    var rest := l.blocks[a + 1..];
    LedgerIsGapFree(l);
    SliceRun(l.blocks, a + 1, |l.blocks|);
    assert l.blocks[a + 1..|l.blocks|] == rest;
    forall i | 0 <= i < |rest|
      ensures !c.Holds(rest[i].number, rest[i].hash)
    {
      HeldIsAncestor(c, l, a + 1 + i);
    }
    assert rest[0] == l.blocks[a + 1] && l.headers[a + 1].parent == l.headers[a].hash;
  }

  /** Committing the ledger above the newest common ancestor installs it, or demands a resync. */
  lemma CommitAboveAncestor(u: Setup, c: Chain, l: Ledger)
    requires Sound(c) && c.blocks != [] && l.Linked() && u.start <= l.Head()
    requires 0 <= AncestorHeight(c, l) < l.Head()
    ensures Commit(c, l.blocks[AncestorHeight(c, l) + 1..], u.retainedDepth) == Resync(u, c, l)
  {
    hide Commit, PlacedOrResync, Resync;
    NewPartContinues(c, l);
    CommitBranch(c, NewestCommon(c, l), l.blocks[AncestorHeight(c, l) + 1..], u.retainedDepth);
    ResyncAsPlaced(u, c, l);
  }

  /** The candidate collected for the ledger's head, committed. */
  lemma HeadCommits(u: Setup, c: Chain, s: Session, l: Ledger)
    requires Sound(c) && l.Valid(u.decode) && ServesHeads(s, l) && u.start <= l.Head()
    requires !c.Holds(l.Head(), l.headers[l.Head()].hash)
    ensures var candidate := HeadCandidate(u, c, s, l.headers[l.Head()]);
            if candidate.Err? then (c, Some(candidate.error)) == Resync(u, c, l)
            else Commit(c, candidate.value, u.retainedDepth) == Resync(u, c, l)
  {
    HonestFetches(u, s, l);
    if c.blocks == [] {
      FirstHeadCommits(u, c, s, l);
    } else {
      LaterHeadCommits(u, c, s, l);
    }
  }

  lemma FirstHeadCommits(u: Setup, c: Chain, s: Session, l: Ledger)
    requires Sound(c) && c.blocks == [] && l.Linked() && ServesHeaders(s, l) && Fetches(u, s, l) && u.start <= l.Head()
    ensures var candidate := HeadCandidate(u, c, s, l.headers[l.Head()]);
            candidate.Ok? && Commit(c, candidate.value, u.retainedDepth) == Resync(u, c, l)
  {
    hide Commit, FetchAll, FirstBranch, HeadersLink, Fetches, GapFree, LevelsFall;
    LedgerIsGapFree(l);
    FirstBranchIsTheLedger(u, s, l, l.Head());
    FetchesTheLedger(u, s, l, u.start, |l.headers|);
    assert l.blocks[u.start..|l.headers|] == l.blocks[u.start..];
    CommitToEmpty(c, l.blocks, u.start, u.retainedDepth);
  }

  lemma TooDeepIsUnreachable(c: Chain, l: Ledger, retainedDepth: uint64)
    requires Sound(c) && c.blocks != [] && |l.headers| == |l.blocks|
    ensures AncestorHeight(c, l) >= 0 && c.blocks[|c.blocks| - 1].number - AncestorHeight(c, l) > retainedDepth
            ==> !Reachable(c, NewestCommon(c, l) + 1, retainedDepth)
  {
    var j := NewestCommon(c, l);
    assert c.blocks[|c.blocks| - 1].number == c.blocks[0].number + (|c.blocks| - 1);
    assert j >= 0 ==> c.blocks[j].number == c.blocks[0].number + j;
  }

  lemma LaterHeadCommits(u: Setup, c: Chain, s: Session, l: Ledger)
    requires Sound(c) && c.blocks != [] && l.Linked() && ServesHeaders(s, l) && Fetches(u, s, l) && u.start <= l.Head()
    requires !c.Holds(l.Head(), l.headers[l.Head()].hash)
    ensures var candidate := HeadCandidate(u, c, s, l.headers[l.Head()]);
            if candidate.Err? then (c, Some(candidate.error)) == Resync(u, c, l)
            else Commit(c, candidate.value, u.retainedDepth) == Resync(u, c, l)
  {
    hide Commit, Branch, FetchAll, Resync, Chain.Holds, NewestCommon, HeadersLink, GapFree, LevelsFall, Digest.Fold;
    var a := AncestorHeight(c, l);
    HeldIsAncestor(c, l, l.Head());
    ResyncAsPlaced(u, c, l);
    TooDeepIsUnreachable(c, l, u.retainedDepth);
    BranchIsTheLedger(u, c, s, l, l.Head(), l.Head());
    if Branch(u, c, s, l.Head(), l.headers[l.Head()]).Ok? {
      FetchesTheLedger(u, s, l, a + 1, |l.headers|);
      assert l.blocks[a + 1..|l.headers|] == l.blocks[a + 1..];
      CommitAboveAncestor(u, c, l);
    }
  }

  lemma CommitToEmpty(c: Chain, blocks: seq<Block>, start: nat, retainedDepth: uint64)
    requires Sound(c) && c.blocks == [] && GapFree(blocks) && start < |blocks|
    ensures Commit(c, blocks[start..], retainedDepth) == (Grafted(c, 0, blocks[start..]), None)
  {
    SliceRun(blocks, start, |blocks|);
    assert blocks[start..|blocks|] == blocks[start..];
    CommitDecided(c, blocks[start..], retainedDepth, 0);
    EmptyHoldsNothing(c, blocks[start..], 0);
    assert blocks[start..][0..] == blocks[start..];
  }

  /**
    Exact resync.  Announcing the head of an honestly served chain has precisely
    the promised outcome, after which finality is refreshed.
   */
  lemma IngestHeadExact(u: Setup, c: Chain, s: Session, l: Ledger)
    requires Sound(c) && l.Valid(u.decode) && ServesHeads(s, l) && u.start <= l.Head()
    ensures IngestHead(u, c, s, Some(l.headers[l.Head()])) == Refreshed(u, Resync(u, c, l), s)
  {
    var h := l.Head();
    if c.Holds(h, l.headers[h].hash) {
      HoldsIffShared(c, l, h);
      var at := h - c.blocks[0].number;
      assert c.blocks[at].number == h;
      var j := NewestCommon(c, l);
      assert c.blocks[j].number == c.blocks[0].number + j;
    } else {
      HeadCommits(u, c, s, l);
    }
  }

  // ----- Backfilling the same head -----

  /** What a successful backfill of the range emits. */
  function EmittedBy(s: Session, accept: Rpc.Log -> bool, config: Backfill.Config): seq<Rpc.Log>
    requires config.Valid()
    requires Backfill.Requests(Backfill.Received(s, accept), config, config.from, config.maxRange).Ok?
  {
    Backfill.Emitted(Backfill.Requests(Backfill.Received(s, accept), config, config.from, config.maxRange).value)
  }

  lemma EmittedOfOneBlock(s: Session, l: Ledger, config: Backfill.Config, accept: Rpc.Log -> bool, n: uint64)
    requires config.Valid() && Backfill.ServesLogs(s, l.logs) && config.from <= n <= config.to
    requires Backfill.Requests(Backfill.Received(s, accept), config, config.from, config.maxRange).Ok?
    ensures var emitted := EmittedBy(s, accept, config);
            multiset(Between(emitted, n, n)) == multiset(Between(l.logs, n, n))
  {
    Backfill.BackfillExact(s, accept, config, l.logs);
    var emitted := EmittedBy(s, accept, config);
    forall x
      ensures multiset(Between(emitted, n, n))[x] == multiset(Between(l.logs, n, n))[x]
    {
      BetweenCounts(emitted, n, n, x);
      BetweenCounts(l.logs, n, n, x);
      BetweenCounts(l.logs, config.from, config.to, x);
    }
  }

  ghost predicate RangeMakes(u: Setup, s: Session, l: Ledger, emitted: seq<Rpc.Log>, from: nat, end: nat)
    requires l.Linked() && end <= |l.headers|
  {
    forall n: uint64 {:trigger RangeBlock(u, s, emitted, n)} | from <= n < end ::
      RangeBlock(u, s, emitted, n) == Ok(l.blocks[n])
  }

  lemma HonestRangeMakes(u: Setup, s: Session, l: Ledger, config: Backfill.Config, accept: Rpc.Log -> bool)
    requires config.Valid() && l.Valid(u.decode) && ServesRanges(s, l) && config.to < |l.headers|
    requires Backfill.Requests(Backfill.Received(s, accept), config, config.from, config.maxRange).Ok?
    ensures var emitted := EmittedBy(s, accept, config);
            RangeMakes(u, s, l, emitted, config.from, config.to + 1)
  {
    var emitted := EmittedBy(s, accept, config);
    forall n: uint64 | config.from <= n <= config.to
      ensures RangeBlock(u, s, emitted, n) == Ok(l.blocks[n])
    {
      EmittedOfOneBlock(s, l, config, accept, n);
      ConvertIgnoresArrangement(u.decode, l.headers[n], Between(l.logs, n, n), Between(emitted, n, n));
    }
  }

  lemma {:induction false} RangeIsTheLedger(u: Setup, s: Session, l: Ledger, emitted: seq<Rpc.Log>, from: uint64,
      end: nat)
    requires l.Linked() && from <= end <= |l.headers| && RangeMakes(u, s, l, emitted, from, end)
    ensures RangeBlocks(u, s, emitted, from, end) == Ok(l.blocks[from..end])
    decreases end
  {
    if from < end {
      RangeIsTheLedger(u, s, l, emitted, from, end - 1);
      assert RangeBlock(u, s, emitted, end - 1) == Ok(l.blocks[end - 1]);
      SnocSlice(l.blocks, from, end);
    } else {
      assert l.blocks[from..end] == [];
    }
  }

  /** Whatever ranges succeed, a backfill that completes its fetching has collected the ledger. */
  lemma {:induction false} RangesAreTheLedger(u: Setup, s: Session, l: Ledger, from: uint64)
    requires u.Valid() && l.Valid(u.decode) && ServesRanges(s, l) && from <= l.Head()
    requires BuildRanges(u, s, from, l.Head()).Ok?
    ensures BuildRanges(u, s, from, l.Head()) == Ok(l.blocks[from..])
    decreases l.Head() - from
  {
    hide BuildRange, Ledger.Assembled;
    var to := BoundedEnd(from, u.maxRange, l.Head());
    OneRangeIsTheLedger(u, s, l, from, to);
    if to < l.Head() {
      RangesAreTheLedger(u, s, l, to + 1);
      SplitAt(l.blocks, from, to + 1);
    } else {
      WholeSlice(l.blocks);
    }
  }

  lemma OneRangeIsTheLedger(u: Setup, s: Session, l: Ledger, from: uint64, to: uint64)
    requires u.Valid() && l.Valid(u.decode) && ServesRanges(s, l) && from <= to <= l.Head()
    requires BuildRange(u, s, from, to).Ok?
    ensures BuildRange(u, s, from, to) == Ok(l.blocks[from..to + 1])
  {
    hide RangeMakes, Backfill.ServesLogs, HeadersLink;
    var config := Backfill.Config(from, to, u.minRange, u.maxRange);
    HonestRangeMakes(u, s, l, config, InRange(from, to));
    var pieces := Backfill.Requests(Backfill.Received(s, InRange(from, to)), config, from, u.maxRange);
    RangeIsTheLedger(u, s, l, Backfill.Emitted(pieces.value), from, to + 1);
  }

  /** Committing the whole ledger from the start block has the same outcome as committing its new part. */
  lemma CommitWholeLedger(u: Setup, c: Chain, l: Ledger)
    requires Safe(u, c) && l.Linked() && u.start <= l.Head() && (u.start > 0 || |c.blocks| < TWO64)
    ensures Commit(c, l.blocks[u.start..], u.retainedDepth) == Resync(u, c, l)
  {
    LedgerIsGapFree(l);
    var all := l.blocks[u.start..];
    SliceRun(l.blocks, u.start, |l.blocks|);
    assert l.blocks[u.start..|l.blocks|] == all;
    if c.blocks == [] {
      CommitToEmpty(c, l.blocks, u.start, u.retainedDepth);
    } else {
      NewestSharedIsCommon(u, c, l);
      WholeLedgerOnStore(u, c, l, all);
    }
  }

  lemma WholeLedgerOnStore(u: Setup, c: Chain, l: Ledger, all: seq<Block>)
    requires Safe(u, c) && c.blocks != [] && l.Linked() && u.start <= l.Head() && (u.start > 0 || |c.blocks| < TWO64)
    requires all == l.blocks[u.start..] && GapFree(all) && c.NewestShared(all) == NewestCommon(c, l)
    ensures Commit(c, all, u.retainedDepth) == Resync(u, c, l)
  {
    hide CommitFrom, CommitFork, Resync, Grafted, Sound, Chain.Holds, NewestCommon, FirstUnheld;
    LedgerNeverWraps(u, c, l);
    var j := NewestCommon(c, l);
    CommitDecided(c, all, u.retainedDepth, 0);
    var k := FirstUnheld(c, all, 0);
    SkipsUpToCommon(u, c, l, k);
    if k < |all| && c.Accepts(all[k]) {
      AcceptedAtTip(u, c, l, k);
      AppendedIsResync(u, c, l, all);
    } else if k < |all| && j + 1 < |all| {
      ForkIsResync(u, c, l, all);
    } else {
      HeadIsStored(u, c, l);
      if k < |all| { ForkIsNoOp(c, all, u.retainedDepth); }
    }
  }

  lemma ForkIsResync(u: Setup, c: Chain, l: Ledger, all: seq<Block>)
    requires Safe(u, c) && c.blocks != [] && l.Linked() && u.start <= l.Head()
    requires all == l.blocks[u.start..] && GapFree(all) && c.NewestShared(all) == NewestCommon(c, l) < |all| - 1
    ensures CommitFork(c, all, u.retainedDepth) == Resync(u, c, l)
  {
    hide *;
    LedgerStart(u, c, l);
    var j := NewestCommon(c, l);
    CommonPosition(u, c, l);
    CommitForkFrom(c, all, j, u.retainedDepth);
    ResyncAsPlaced(u, c, l);
    if j < 0 {
      WholeSlice(all);
      NoAncestorResyncs(c, all, u.retainedDepth);
    } else {
      DropTwice(l.blocks, u.start, j + 1);
    }
  }

  lemma LedgerStart(u: Setup, c: Chain, l: Ledger)
    requires Safe(u, c) && c.blocks != [] && l.Linked() && u.start <= l.Head()
    ensures Sound(c) && |c.finality| == |c.blocks| && 0 < |l.headers| == |l.blocks| <= TWO64
    ensures |l.blocks| == l.Head() + 1
    ensures var all := l.blocks[u.start..];
            |all| == l.Head() - u.start + 1 && all[0].number == c.blocks[0].number && all[|all| - 1].number == l.Head()
  {
  }

  lemma CommonPosition(u: Setup, c: Chain, l: Ledger)
    requires Safe(u, c) && c.blocks != [] && |l.headers| == |l.blocks|
    ensures AncestorHeight(c, l) == if NewestCommon(c, l) >= 0 then u.start + NewestCommon(c, l) else -1
  {
  }

  lemma ForkIsNoOp(c: Chain, all: seq<Block>, retainedDepth: uint64)
    requires Sound(c) && all != [] && Linear(all) && c.NewestShared(all) == |all| - 1
    ensures CommitFork(c, all, retainedDepth) == (c, None)
  {
    ReconcileExact(c, all, Some(retainedDepth));
  }

  lemma HeadIsStored(u: Setup, c: Chain, l: Ledger)
    requires Safe(u, c) && c.blocks != [] && l.Linked() && u.start <= l.Head()
    requires NewestCommon(c, l) == |l.blocks[u.start..]| - 1
    ensures Resync(u, c, l) == (c, None)
  {
    var j := NewestCommon(c, l);
    assert c.blocks[j].number == u.start + j;
  }

  lemma LedgerNeverWraps(u: Setup, c: Chain, l: Ledger)
    requires Safe(u, c) && l.Linked() && u.start <= l.Head() && (u.start > 0 || |c.blocks| < TWO64)
    ensures NoWrap(c, l.blocks[u.start..])
  {
    assert c.blocks != [] ==> c.blocks[|c.blocks| - 1].number == u.start + (|c.blocks| - 1);
  }

  lemma AcceptedAtTip(u: Setup, c: Chain, l: Ledger, k: nat)
    requires Safe(u, c) && c.blocks != [] && l.Linked() && u.start <= l.Head() && (u.start > 0 || |c.blocks| < TWO64)
    requires k < |l.blocks[u.start..]| && c.Accepts(l.blocks[u.start..][k])
    ensures k == |c.blocks|
  {
    assert l.blocks[u.start..][k].number == u.start + k;
    assert c.blocks[|c.blocks| - 1].number == u.start + (|c.blocks| - 1);
  }

  lemma AppendedIsResync(u: Setup, c: Chain, l: Ledger, all: seq<Block>)
    requires Safe(u, c) && c.blocks != [] && l.Linked() && u.start <= l.Head() && all == l.blocks[u.start..]
    requires NewestCommon(c, l) == |c.blocks| - 1 < |all| - 1
    ensures Resync(u, c, l) == (Grafted(c, |c.blocks|, all[|c.blocks|..]), None)
  {
    hide Grafted;
    assert c.blocks[|c.blocks| - 1].number == u.start + (|c.blocks| - 1);
    assert all[|c.blocks|..] == l.blocks[u.start + |c.blocks|..];
  }

  lemma NoAncestorResyncs(c: Chain, branch: seq<Block>, retainedDepth: uint64)
    requires |c.finality| == |c.blocks| && branch != []
    ensures PlacedOrResync(c, branch, 0, retainedDepth)
      == (c, Some(NeedsResync(branch[|branch| - 1].number, retainedDepth)))
  {
  }

  lemma NewestSharedIsCommon(u: Setup, c: Chain, l: Ledger)
    requires Safe(u, c) && c.blocks != [] && l.Linked() && u.start <= l.Head()
    ensures c.NewestShared(l.blocks[u.start..]) == NewestCommon(c, l)
  {
    hide NewestCommon, HeadersLink, LevelsFall, Digest.Fold, Chain.Holds, Chain.NewestShared;
    var all := l.blocks[u.start..];
    var j, k := NewestCommon(c, l), c.NewestShared(all);
    if k >= 0 {
      assert all[k] == l.blocks[u.start + k];
      HoldsIffShared(c, l, u.start + k);
      assert k <= j;
    }
    if j >= 0 {
      assert c.blocks[j].number == u.start + j;
      assert all[j] == l.blocks[u.start + j];
      HoldsIffShared(c, l, u.start + j);
      assert j <= k;
    }
  }

  lemma SkipsUpToCommon(u: Setup, c: Chain, l: Ledger, k: nat)
    requires Safe(u, c) && c.blocks != [] && l.Linked() && u.start <= l.Head()
    requires k == FirstUnheld(c, l.blocks[u.start..], 0)
    ensures k <= NewestCommon(c, l) + 1 && k <= |c.blocks|
  {
    if k > 0 {
      assert l.blocks[u.start..][k - 1] == l.blocks[u.start + (k - 1)];
      HoldsIffShared(c, l, u.start + (k - 1));
    }
  }

  /** A backfill that completes its fetching has precisely the promised outcome too. */
  lemma BackfillExact(u: Setup, c: Chain, s: Session, l: Ledger)
    requires u.Valid() && Safe(u, c) && (u.start > 0 || |c.blocks| < TWO64)
    requires l.Valid(u.decode) && ServesRanges(s, l) && u.start <= l.Head()
    requires BuildRanges(u, s, u.start, l.Head()).Ok?
    ensures BackfillStep(u, c, s) == Refreshed(u, Resync(u, c, l), s)
  {
    hide BuildRanges, Commit, Refresh, Resync;
    RangesAreTheLedger(u, s, l, u.start);
    CommitWholeLedger(u, c, l);
  }

  /**
    Backfill refines live ingestion.  From any safe store, a backfill under any
    range sizes, failures and log arrangements that completes its fetching leaves
    the same blocks and state as ingesting the same head block by block, and
    demands a resync exactly when that does.
   */
  lemma BackfillRefinesLive(u: Setup, c: Chain, fill: Session, live: Session, l: Ledger)
    requires u.Valid() && Safe(u, c) && (u.start > 0 || |c.blocks| < TWO64)
    requires l.Valid(u.decode) && u.start <= l.Head()
    requires ServesRanges(fill, l) && ServesHeads(live, l)
    requires BuildRanges(u, fill, u.start, l.Head()).Ok?
    ensures var (filled, e) := BackfillStep(u, c, fill);
            var (ingested, f) := IngestHead(u, c, live, Some(l.headers[l.Head()]));
            var resync := Some(NeedsResync(l.Head(), u.retainedDepth));
            && filled.blocks == ingested.blocks && filled.state == ingested.state
            && (e == resync <==> f == resync)
  {
    BackfillExact(u, c, fill, l);
    IngestHeadExact(u, c, live, l);
    var (installed, error) := Resync(u, c, l);
    RefreshErrors(u, installed, fill);
    RefreshErrors(u, installed, live);
  }

  lemma RefreshErrors(u: Setup, c: Chain, s: Session)
    requires |c.finality| == |c.blocks|
    ensures var (c', error) := Refresh(u, c, s);
            && c'.blocks == c.blocks && c'.state == c.state
            && (error.Some? ==> !error.value.NeedsResync?)
  {
  }

  // ----- An honest backfill completes -----

  /** Nothing is cancelled during range queries, and those of at most `minRange` blocks are answered. */
  ghost predicate AnswersRanges(s: Session, minRange: nat) {
    Backfill.AnswersSmallRanges(s, minRange) && forall from: uint64 :: !s.cancelled(RangeEnd(from))
  }

  lemma HonestRangeCompletes(u: Setup, s: Session, l: Ledger, from: uint64, to: uint64)
    requires u.Valid() && l.Valid(u.decode) && ServesRanges(s, l) && AnswersRanges(s, u.minRange)
    requires from <= to <= l.Head()
    ensures BuildRange(u, s, from, to).Ok?
  {
    hide RangeMakes, Backfill.ServesLogs, Backfill.AnswersSmallRanges, HeadersLink, Ledger.Assembled, RangeBlocks,
      Backfill.Requests;
    var config := Backfill.Config(from, to, u.minRange, u.maxRange);
    Backfill.HonestRequestsComplete(s, InRange(from, to), config, l.logs);
    HonestRangeMakes(u, s, l, config, InRange(from, to));
    var pieces := Backfill.Requests(Backfill.Received(s, InRange(from, to)), config, from, u.maxRange);
    RangeIsTheLedger(u, s, l, Backfill.Emitted(pieces.value), from, to + 1);
  }

  /**
    A provider that reports an honest chain and answers the smallest range queries
    is enough: whatever larger queries fail, the backfill completes its fetching.
   */
  lemma {:induction false} HonestBackfillCompletes(u: Setup, s: Session, l: Ledger, from: uint64)
    requires u.Valid() && l.Valid(u.decode) && ServesRanges(s, l) && AnswersRanges(s, u.minRange) && from <= l.Head()
    ensures BuildRanges(u, s, from, l.Head()).Ok?
    decreases l.Head() - from
  {
    hide BuildRange, Ledger.Assembled, AnswersRanges, HeadersLink;
    var to := BoundedEnd(from, u.maxRange, l.Head());
    HonestRangeCompletes(u, s, l, from, to);
    if to < l.Head() { HonestBackfillCompletes(u, s, l, to + 1); }
  }

  /** So its outcome is the promised one. */
  lemma HonestBackfillExact(u: Setup, c: Chain, s: Session, l: Ledger)
    requires u.Valid() && Safe(u, c) && (u.start > 0 || |c.blocks| < TWO64)
    requires l.Valid(u.decode) && ServesRanges(s, l) && AnswersRanges(s, u.minRange) && u.start <= l.Head()
    ensures BackfillStep(u, c, s) == Refreshed(u, Resync(u, c, l), s)
  {
    hide *;
    HonestBackfillCompletes(u, s, l, u.start);
    BackfillExact(u, c, s, l);
  }

  /** And it agrees with live ingestion, with nothing assumed about its own course. */
  lemma HonestBackfillRefinesLive(u: Setup, c: Chain, fill: Session, live: Session, l: Ledger)
    requires u.Valid() && Safe(u, c) && (u.start > 0 || |c.blocks| < TWO64)
    requires l.Valid(u.decode) && u.start <= l.Head()
    requires ServesRanges(fill, l) && AnswersRanges(fill, u.minRange) && ServesHeads(live, l)
    ensures var (filled, e) := BackfillStep(u, c, fill);
            var (ingested, f) := IngestHead(u, c, live, Some(l.headers[l.Head()]));
            var resync := Some(NeedsResync(l.Head(), u.retainedDepth));
            && filled.blocks == ingested.blocks && filled.state == ingested.state
            && (e == resync <==> f == resync)
  {
    hide *;
    HonestBackfillCompletes(u, fill, l, u.start);
    BackfillRefinesLive(u, c, fill, live, l);
  }

  // ----- Any provider: the walk is bounded -----

  /**
    The walk looks at a parent's header only if the parent is not deeper than the
    retained depth below the tip: no other answer can influence it.
   */
  lemma {:induction false} WalkReadsOnlyRetained(u: Setup, c: Chain, s: Session, s': Session, head: uint64,
      current: Header)
    requires 0 <= current.number < TWO64 && c.blocks != []
    requires var tip := c.blocks[|c.blocks| - 1].number;
             forall p: uint64 | p < current.number && tip - p <= u.retainedDepth :: s.header(p) == s'.header(p)
    ensures Branch(u, c, s, head, current) == Branch(u, c, s', head, current)
    decreases current.number
  {
    if current.number > 0 && !c.Holds(current.number, current.hash) && !c.Holds(current.number - 1, current.parent) {
      var parent: uint64 := current.number - 1;
      if c.blocks[|c.blocks| - 1].number - parent <= u.retainedDepth {
        var fetched := CheckedReply(s.header(parent), Some(parent));
        if fetched.Ok? && fetched.value.hash == current.parent {
          WalkReadsOnlyRetained(u, c, s, s', head, fetched.value);
        }
      }
    }
  }
}
