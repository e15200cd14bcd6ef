/** refreshFinality: a validated pair of checkpoints is never refused, and what it changes. */
module FinalityLaws {
  import opened Types
  import opened Digest
  import opened Chain
  import opened ChainLaws
  import opened Rpc
  import opened Indexing

  predicate UniqueHashes(bs: seq<Block>) {
    forall i, j | 0 <= i < j < |bs| :: bs[i].hash != bs[j].hash
  }

  function Max(a: int, b: int): int {
    if a >= b then a else b
  }

  /** The position a reported checkpoint marks, or -1 when it lies below the stored range. */
  function ReportedIndex(c: Chain, header: Header): int
    requires c.blocks != []
  {
    if header.number < c.blocks[0].number then -1 else header.number - c.blocks[0].number
  }

  lemma HashIsFound(bs: seq<Block>, i: nat)
    requires UniqueHashes(bs) && i < |bs|
    ensures FirstWithHash(bs, bs[i].hash) == i && LastWithHash(bs, bs[i].hash) == i
  {
    var f, l := FirstWithHash(bs, bs[i].hash), LastWithHash(bs, bs[i].hash);
    assert f >= 0 && l >= 0;
  }

  /** Raising the run up to `i` moves every checkpoint not above the raised level to the later of the two positions. */
  lemma RaisedCheckpoint(finality: seq<Level>, i: nat, level: Level, other: Level)
    requires LevelsFall(finality) && i < |finality| && SEEN < level <= FINALIZED && SEEN < other <= FINALIZED
    ensures CheckpointIndex(Raised(finality, i, level), other)
         == if other <= level then Max(CheckpointIndex(finality, other), i) else CheckpointIndex(finality, other)
  {
    var raised := Raised(finality, i, level);
    var before, after := CheckpointIndex(finality, other), CheckpointIndex(raised, other);
    assert after >= 0 ==> raised[after] >= other;
    assert before >= 0 ==> raised[before] >= other;
    assert raised[i] >= level;
  }

  lemma MarkSucceeds(c: Chain, i: nat, level: Level)
    requires Sound(c) && UniqueHashes(c.blocks) && i < |c.blocks| && SEEN < level <= FINALIZED
    requires i > CheckpointIndex(c.finality, level)
    ensures c.MarkFinality(c.blocks[i].hash, level) == (c.(finality := Raised(c.finality, i, level)), None)
  {
    HashIsFound(c.blocks, i);
  }

  /** A validated checkpoint, as a position: it is in range, stored, and above the current one or not marked at all. */
  lemma ValidatedPosition(c: Chain, header: Header, level: Level)
    requires Sound(c) && c.blocks != [] && 0 <= header.number < TWO64 && SEEN < level <= FINALIZED
    requires ValidateCheckpoint(c, header, level).Ok?
    ensures var i, old' := ReportedIndex(c, header), CheckpointIndex(c.finality, level);
            var hash := ValidateCheckpoint(c, header, level).value;
            && -1 <= i < |c.blocks|
            && (hash.None? <==> i <= old')
            && (hash.Some? ==> hash.value == c.blocks[i].hash)
  {
    var old' := CheckpointIndex(c.finality, level);
    if header.number >= c.blocks[0].number {
      IndexInRun(c.blocks, header.number);
      assert old' >= 0 ==> c.blocks[old'].number == c.blocks[0].number + old';
    }
  }

  lemma MarkOptional(c: Chain, hash: Option<Hash>, i: int, level: Level)
    requires Sound(c) && UniqueHashes(c.blocks) && -1 <= i < |c.blocks| && SEEN < level <= FINALIZED
    requires hash.None? <==> i <= CheckpointIndex(c.finality, level)
    requires hash.Some? ==> hash.value == c.blocks[i].hash
    ensures var (c', error) := c.MarkIfGiven(hash, level);
            && error.None? && Sound(c') && c' == c.(finality := c'.finality)
            && CheckpointIndex(c'.finality, level) == Max(CheckpointIndex(c.finality, level), i)
            && (level == SAFE ==> CheckpointIndex(c'.finality, FINALIZED) == CheckpointIndex(c.finality, FINALIZED))
            && (level == FINALIZED ==>
               CheckpointIndex(c'.finality, SAFE)
                 == Max(CheckpointIndex(c.finality, SAFE), if hash.Some? then i else -1))
  {
    hide Chain.MarkFinality, GapFree, Digest.Fold, CheckpointIndex, UniqueHashes;
    if hash.Some? {
      MarkSucceeds(c, i, level);
      MarkKeeps(c, hash.value, level);
      RaisedCheckpoint(c.finality, i, level, SAFE);
      RaisedCheckpoint(c.finality, i, level, FINALIZED);
    }
  }

  /**
    Once refreshFinality has validated the reported pair, marking it cannot be
    refused: each checkpoint becomes the later of the old one and the reported
    one, and finalized stays at or below safe.  Before that, any failure leaves
    every level as it was.
   */
  lemma RefreshIsNeverRefusedLate(u: Setup, c: Chain, s: Session)
    requires Sound(c) && UniqueHashes(c.blocks)
    ensures var (c', error) := Refresh(u, c, s);
            && (CheckFinality(u, c, s).Err? ==> (c', error) == (c, Some(CheckFinality(u, c, s).error)))
            && (CheckFinality(u, c, s).Ok? ==> error.None?)
            && (CheckFinality(u, c, s).Ok? && c.blocks != [] ==>
                && CheckpointIndex(c'.finality, SAFE)
                   == Max(CheckpointIndex(c.finality, SAFE), ReportedIndex(c, s.safe.value.value))
                && CheckpointIndex(c'.finality, FINALIZED)
                   == Max(CheckpointIndex(c.finality, FINALIZED), ReportedIndex(c, s.finalized.value.value))
                && CheckpointIndex(c'.finality, FINALIZED) <= CheckpointIndex(c'.finality, SAFE))
  {
    var checked := CheckFinality(u, c, s);
    if checked.Ok? && c.blocks != [] {
      var safe, finalized := s.safe.value.value, s.finalized.value.value;
      ValidatedPosition(c, safe, SAFE);
      ValidatedPosition(c, finalized, FINALIZED);
      MarkPair(c, checked.value.0, ReportedIndex(c, safe), checked.value.1, ReportedIndex(c, finalized));
    }
  }

  lemma MarkPair(c: Chain, safe: Option<Hash>, i: int, finalized: Option<Hash>, j: int)
    requires Sound(c) && UniqueHashes(c.blocks) && -1 <= j <= i < |c.blocks|
    requires safe.None? <==> i <= CheckpointIndex(c.finality, SAFE)
    requires safe.Some? ==> safe.value == c.blocks[i].hash
    requires finalized.None? <==> j <= CheckpointIndex(c.finality, FINALIZED)
    requires finalized.Some? ==> finalized.value == c.blocks[j].hash
    ensures var (c', error) := c.MarkCheckpoints(safe, finalized);
            && error.None?
            && CheckpointIndex(c'.finality, SAFE) == Max(CheckpointIndex(c.finality, SAFE), i)
            && CheckpointIndex(c'.finality, FINALIZED) == Max(CheckpointIndex(c.finality, FINALIZED), j)
            && CheckpointIndex(c'.finality, FINALIZED) <= CheckpointIndex(c'.finality, SAFE)
  {
    hide Chain.MarkFinality, LevelsFall, GapFree, CheckpointIndex, Digest.Fold;
    if safe.Some? { HashIsFound(c.blocks, i); }
    if finalized.Some? { HashIsFound(c.blocks, j); }
    MarkOptional(c, safe, i, SAFE);
    var first := c.MarkIfGiven(safe, SAFE).0;
    MarkOptional(first, finalized, j, FINALIZED);
    FinalizedIsSafe(first.MarkIfGiven(finalized, FINALIZED).0.finality);
  }

  lemma FinalizedIsSafe(finality: seq<Level>)
    ensures CheckpointIndex(finality, FINALIZED) <= CheckpointIndex(finality, SAFE)
  {
    var k := CheckpointIndex(finality, FINALIZED);
    assert k >= 0 ==> finality[k] >= SAFE;
  }

  // ----- When a refresh succeeds, on the reported headers and the stored blocks alone -----

  predicate WellFormed(reply: Reply<Option<Header>>) {
    reply.Answer? && reply.value.Some? && 0 <= reply.value.value.number < TWO64
  }

  /** The header lies below the stored range, or is that of a stored block. */
  predicate Known(c: Chain, header: Header)
    requires c.blocks != []
  {
    || header.number < c.blocks[0].number
    || exists i :: 0 <= i < |c.blocks| && c.blocks[i].number == header.number && c.blocks[i].hash == header.hash
  }

  /** The two reported checkpoints are in order and agree with the store. */
  predicate Agreeable(u: Setup, c: Chain, safe: Header, finalized: Header) {
    && finalized.number <= safe.number
    && if c.blocks == [] then safe.number < u.start
       else safe.number <= c.blocks[|c.blocks| - 1].number && Known(c, safe) && Known(c, finalized)
  }

  predicate Reported(u: Setup, c: Chain, s: Session) {
    WellFormed(s.safe) && WellFormed(s.finalized) && Agreeable(u, c, s.safe.value.value, s.finalized.value.value)
  }

  lemma ValidatedExactly(c: Chain, header: Header, level: Level)
    requires Sound(c) && c.blocks != [] && 0 <= header.number < TWO64
    ensures ValidateCheckpoint(c, header, level).Ok? <==> Known(c, header)
    ensures ValidateCheckpoint(c, header, level).Err? ==> ValidateCheckpoint(c, header, level).error == Disconnected
  {
    hide GapFree, LevelsFall, Digest.Fold, CheckpointIndex, Chain.Holds;
    HoldsExactly(c, header.number, header.hash);
  }

  /** Why a refresh fails, if it does. */
  lemma RefreshErrorsExactly(u: Setup, c: Chain, s: Session)
    requires Sound(c)
    ensures var checked := CheckFinality(u, c, s);
            var answered := !s.cancelled(EnterRefresh) && s.safe.Answer? && s.finalized.Answer?;
            && (checked.Ok? <==>
                  answered && Reported(u, c, s) && (c.blocks != [] ==> !s.cancelled(BeforeMark)))
            && (checked == Err(CancelledByCaller) <==>
                  || s.cancelled(EnterRefresh)
                  || s.safe.Cancelled? || (!s.safe.Failed? && s.finalized.Cancelled?)
                  || (answered && Reported(u, c, s) && c.blocks != [] && s.cancelled(BeforeMark)))
            && (checked == Err(RpcFailed) <==>
                  && !s.cancelled(EnterRefresh)
                  && (s.safe.Failed? || (s.safe.Answer? && s.finalized.Failed?)))
            && (checked == Err(Disconnected) <==> answered && !Reported(u, c, s))
  {
    hide ValidateCheckpoint, Known, LevelsFall, GapFree, Digest.Fold;
    if WellFormed(s.safe) && WellFormed(s.finalized) && c.blocks != [] {
      ValidatedExactly(c, s.safe.value.value, SAFE);
      ValidatedExactly(c, s.finalized.value.value, FINALIZED);
    }
  }

  /** In falling levels, the two checkpoints say which levels are at least safe or finalized. */
  lemma LevelsByCheckpoints(finality: seq<Level>, level: Level)
    requires LevelsFall(finality) && level <= FINALIZED
    ensures forall i | 0 <= i < |finality| :: finality[i] >= level <==> i <= CheckpointIndex(finality, level)
  {
    var k := CheckpointIndex(finality, level);
    forall i | 0 <= i < |finality|
      ensures finality[i] >= level <==> i <= k
    {
      if i <= k { assert finality[i] >= finality[k]; }
    }
  }

  /**
    refreshFinality, exactly.  It succeeds if and only if it is not cancelled, both
    replies are well-formed headers with finalized not above safe and safe not above
    the tip, and each lies below the stored range or is the header of a stored block.
    Then the finalized blocks are those that were or that the finalized header is at
    or above, the safe ones alike, and nothing else changes; otherwise nothing does.
   */
  lemma RefreshExactly(u: Setup, c: Chain, s: Session)
    requires Sound(c) && UniqueHashes(c.blocks)
    ensures var (c', error) := Refresh(u, c, s);
            && (error.None? <==>
                  && !s.cancelled(EnterRefresh) && Reported(u, c, s)
                  && (c.blocks != [] ==> !s.cancelled(BeforeMark)))
            && (error.Some? ==> c' == c)
            && c' == c.(finality := c'.finality) && LevelsFall(c'.finality)
            && (error.None? ==>
                forall i | 0 <= i < |c.blocks| ::
                  && (c'.finality[i] == FINALIZED <==>
                        c.finality[i] == FINALIZED || c.blocks[i].number <= s.finalized.value.value.number)
                  && (c'.finality[i] >= SAFE <==>
                        c.finality[i] >= SAFE || c.blocks[i].number <= s.safe.value.value.number))
  {
    var (c', error) := Refresh(u, c, s);
    RefreshErrorsExactly(u, c, s);
    RefreshIsNeverRefusedLate(u, c, s);
    RefreshedLevelsFall(u, c, s);
    if error.None? && c.blocks != [] {
      hide *;
      NewLevels(c, c'.finality, s.finalized.value.value, FINALIZED);
      NewLevels(c, c'.finality, s.safe.value.value, SAFE);
    }
  }

  /** What a moved checkpoint says of the levels. */
  lemma NewLevels(c: Chain, after: seq<Level>, header: Header, level: Level)
    requires Sound(c) && c.blocks != [] && LevelsFall(after) && |after| == |c.blocks| && level <= FINALIZED
    requires CheckpointIndex(after, level) == Max(CheckpointIndex(c.finality, level), ReportedIndex(c, header))
    ensures forall i | 0 <= i < |c.blocks| ::
              after[i] >= level <==> c.finality[i] >= level || c.blocks[i].number <= header.number
    ensures level == FINALIZED ==> forall i | 0 <= i < |c.blocks| ::
              (after[i] >= level <==> after[i] == FINALIZED) && (c.finality[i] >= level <==> c.finality[i] == FINALIZED)
  {
    hide CheckpointIndex, Digest.Fold;
    LevelsByCheckpoints(c.finality, level);
    LevelsByCheckpoints(after, level);
    assert forall i | 0 <= i < |c.blocks| :: c.blocks[i].number == c.blocks[0].number + i;
  }

  lemma RefreshedLevelsFall(u: Setup, c: Chain, s: Session)
    requires Sound(c)
    ensures var c' := Refresh(u, c, s).0; LevelsFall(c'.finality) && c' == c.(finality := c'.finality)
  {
    hide GapFree, Digest.Fold, Chain.MarkCheckpoints, CheckFinality;
    var checked := CheckFinality(u, c, s);
    if checked.Ok? { CheckpointsKeep(c, checked.value.0, checked.value.1); }
  }

  /** An honest report leaves its checkpoints marked: the headers of two stored blocks, in order. */
  lemma HonestCheckpointsAreMarked(u: Setup, c: Chain, s: Session, i: nat, j: nat)
    requires Sound(c) && UniqueHashes(c.blocks) && j <= i < |c.blocks|
    requires !s.cancelled(EnterRefresh) && !s.cancelled(BeforeMark)
    requires WellFormed(s.safe) && WellFormed(s.finalized)
    requires s.safe.value.value.number == c.blocks[i].number && s.safe.value.value.hash == c.blocks[i].hash
    requires s.finalized.value.value.number == c.blocks[j].number && s.finalized.value.value.hash == c.blocks[j].hash
    ensures var (c', error) := Refresh(u, c, s);
            && error.None? && |c'.finality| == |c.blocks|
            && (forall k | 0 <= k <= j :: c'.finality[k] == FINALIZED)
            && (forall k | 0 <= k <= i :: c'.finality[k] >= SAFE)
  {
    hide Refresh, LevelsFall, Digest.Fold, UniqueHashes;
    RefreshExactly(u, c, s);
    assert forall k | 0 <= k < |c.blocks| :: c.blocks[k].number == c.blocks[0].number + k;
  }

  // ----- When a mark succeeds, on the stored blocks and levels alone -----

  /** Marking block `i` takes no level back: its own is not higher, and none as high lies above it. */
  predicate Markable(c: Chain, i: nat, level: Level)
    requires |c.finality| == |c.blocks| && i < |c.blocks|
  {
    c.finality[i] <= level && (level > SEEN ==> forall k | i < k < |c.blocks| :: c.finality[k] < level)
  }

  /** Block `i` and those below it have at least the level; otherwise the levels are those that were. */
  predicate RaisedTo(before: seq<Level>, after: seq<Level>, i: int, level: Level) {
    |after| == |before| && forall k | 0 <= k < |before| ::
      after[k] == if k <= i && before[k] < level then level else before[k]
  }

  /** MarkFinality, exactly: the error, or the levels it leaves. */
  lemma MarkExactly(c: Chain, i: nat, level: Level)
    requires Sound(c) && UniqueHashes(c.blocks) && i < |c.blocks|
    ensures var (c', error) := c.MarkFinality(c.blocks[i].hash, level);
            if level > FINALIZED then c' == c && error == Some(InvalidFinality)
            else if !Markable(c, i, level) then c' == c && error == Some(FinalityRegression)
            else error.None? && c' == c.(finality := c'.finality) && RaisedTo(c.finality, c'.finality, i, level)
  {
    hide GapFree, Digest.Fold;
    HashIsFound(c.blocks, i);
    var k := CheckpointIndex(c.finality, level);
    assert level <= FINALIZED && k >= 0 ==> c.finality[k] >= level;
  }

  lemma MarkUnknown(c: Chain, h: Hash, level: Level)
    requires |c.finality| == |c.blocks| && forall i | 0 <= i < |c.blocks| :: c.blocks[i].hash != h
    ensures c.MarkFinality(h, level) == (c, Some(if level > FINALIZED then InvalidFinality else UnknownBlock))
  {
    var i := FirstWithHash(c.blocks, h);
    assert i < 0;
  }

  /**
    MarkCheckpoints of two stored blocks, exactly: refused without effect if the
    finalized one is above the safe one or if either mark would take a level back;
    otherwise both are marked.
   */
  lemma CheckpointsExactly(c: Chain, i: nat, j: nat)
    requires Sound(c) && UniqueHashes(c.blocks) && i < |c.blocks| && j < |c.blocks|
    ensures var (c', error) := c.MarkCheckpoints(Some(c.blocks[i].hash), Some(c.blocks[j].hash));
            if j > i then c' == c && error == Some(InvalidCheckpointOrder)
            else if !(Markable(c, i, SAFE) && Markable(c, j, FINALIZED)) then
              c' == c && error == Some(FinalityRegression)
            else
              && error.None? && c' == c.(finality := c'.finality) && |c'.finality| == |c.finality|
              && forall k | 0 <= k < |c.blocks| ::
                   c'.finality[k] ==
                     if k <= j then FINALIZED else if k <= i && c.finality[k] < SAFE then SAFE else c.finality[k]
  {
    hide GapFree, Digest.Fold, UniqueHashes, Chain.MarkFinality;
    HashIsFound(c.blocks, i);
    HashIsFound(c.blocks, j);
    MarkExactly(c, i, SAFE);
    if Markable(c, i, SAFE) {
      MarkKeeps(c, c.blocks[i].hash, SAFE);
      MarkExactly(c.MarkFinality(c.blocks[i].hash, SAFE).0, j, FINALIZED);
    }
  }
}
