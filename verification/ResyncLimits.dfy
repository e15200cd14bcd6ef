/** When an honest run is asked to resync, said by its ledgers and checkpoints, and how a head goes stale. */
module ResyncLimits {
  import opened Types
  import opened Digest
  import opened Chain
  import opened ChainLaws
  import opened CommitLaws
  import opened SafetyLaws
  import opened ResyncLaws
  import opened Rpc
  import opened LogOrder
  import opened Convert
  import opened Indexing
  import opened HonestRuns

  predicate Joins(a: Ledger, b: Ledger, n: nat) {
    n < |a.headers| && n < |b.headers| && a.headers[n].hash == b.headers[n].hash
  }

  /**
    The reported head is in the followed ledger, or the two share a block of the
    store that lies no deeper below the followed head than the retained depth and
    not below the store's finalized checkpoint.
   */
  ghost predicate Within(u: Setup, c: Chain, p: Ledger, l: Ledger)
    requires |c.finality| == |c.blocks|
  {
    || Contains(p, l)
    || exists n: nat ::
         && u.start <= n && Joins(p, l, n) && |p.headers| - 1 - n <= u.retainedDepth
         && (c.Checkpoint(FINALIZED).Some? ==> c.Checkpoint(FINALIZED).value.number <= n)
  }

  /** A shared height is the store's position of that height. */
  lemma JoinsIffShared(u: Setup, c: Chain, p: Ledger, l: Ledger, n: nat)
    requires Follows(u, c, p) && l.Linked() && u.start <= n
    ensures Joins(p, l, n) <==> n - u.start < |c.blocks| && Shared(c, l, n - u.start)
  {
    hide HeadersLink;
    FollowedLength(u, c, p);
    if n - u.start < |c.blocks| { SharedPosition(u, c, p, l, n - u.start); }
  }

  /** Reachable positions are those of the heights within the limits. */
  lemma ReachableIffWithin(u: Setup, c: Chain, p: Ledger, l: Ledger, j: nat)
    requires Follows(u, c, p) && l.Linked() && |c.finality| == |c.blocks| && j < |c.blocks|
    ensures Reachable(c, j + 1, u.retainedDepth) <==>
              && |p.headers| - 1 - (u.start + j) <= u.retainedDepth
              && (c.Checkpoint(FINALIZED).Some? ==> c.Checkpoint(FINALIZED).value.number <= u.start + j)
  {
    hide HeadersLink, Shared;
    FollowedLength(u, c, p);
    var i := CheckpointIndex(c.finality, FINALIZED);
    if i >= 0 { SharedPosition(u, c, p, l, i); }
  }

  /** A report to a store that follows a ledger goes without a resync exactly when it stays within the limits. */
  lemma ResyncsExactly(u: Setup, c: Chain, p: Ledger, l: Ledger)
    requires Sound(c) && Follows(u, c, p) && l.Linked() && u.start <= l.Head()
    ensures Resync(u, c, l).1.None? <==> Within(u, c, p, l)
  {
    hide NewestCommon, Shared, Contains, HeadersLink, GapFree, LevelsFall, Digest.Fold, Reachable, Follows, Joins;
    HeadIsCommonExactly(u, c, p, l);
    FollowedLength(u, c, p);
    var j := NewestCommon(c, l);
    if j >= 0 {
      ReachableIffWithin(u, c, p, l, j);
      JoinsIffShared(u, c, p, l, u.start + j);
    }
    if Within(u, c, p, l) && !Contains(p, l) {
      var n: nat :| && u.start <= n && Joins(p, l, n) && |p.headers| - 1 - n <= u.retainedDepth
                    && (c.Checkpoint(FINALIZED).Some? ==> c.Checkpoint(FINALIZED).value.number <= n);
      JoinsIffShared(u, c, p, l, n);
    }
  }

  /** The last report demands no resync. */
  ghost predicate Undemanding(u: Setup, c: Chain, r: Report)
    requires u.Valid() && |c.finality| == |c.blocks| && r.l.headers != []
  {
    var error := Indexed(u, c, r).1;
    error.Some? ==> !error.value.NeedsResync?
  }

  lemma UndemandingExactly(u: Setup, c: Chain, r: Report, p: Ledger)
    requires u.Valid() && Safe(u, c) && Honest(u, r) && Follows(u, c, p) && r.l.headers != []
    requires u.start > 0 || |p.headers| < TWO64
    ensures Undemanding(u, c, r) <==> Within(u, c, p, r.l)
  {
    hide Indexed, Refresh, Within, GapFree, LevelsFall, Digest.Fold, Honest, HeadersLink, NewestCommon;
    FollowedLength(u, c, p);
    HonestLedger(u, r);
    HonestIsExact(u, c, r);
    ResyncsExactly(u, c, p, r.l);
    RefreshErrors(u, Resync(u, c, r.l).0, r.s);
  }

  /** Every report after the first stays within the limits of the ledger followed before it. */
  ghost predicate AllWithin(u: Setup, c: Chain, rs: seq<Report>)
    requires u.Valid() && |c.finality| == |c.blocks| && forall k | 0 <= k < |rs| :: rs[k].l.headers != []
  {
    forall k | 1 <= k < |rs| :: Within(u, RunReports(u, c, rs[..k]), Followed(rs[..k]), rs[k].l)
  }

  lemma HonestPrefix(u: Setup, rs: seq<Report>, n: nat)
    requires u.Valid() && AllHonest(u, rs) && AllConsistent(rs) && n <= |rs|
    ensures AllHonest(u, rs[..n]) && AllConsistent(rs[..n])
  {
    hide Honest, Consistent;
  }

  lemma NeverResyncsSnoc(u: Setup, c: Chain, rs: seq<Report>)
    requires u.Valid() && |c.finality| == |c.blocks| && forall k | 0 <= k < |rs| :: rs[k].l.headers != []
    requires rs != []
    ensures var n := |rs| - 1;
            var last := Undemanding(u, RunReports(u, c, rs[..n]), rs[n]);
            NeverResyncs(u, c, rs) <==> NeverResyncs(u, c, rs[..n]) && last
  {
    hide Undemanding, RunReports, NeverResyncs;
    var n := |rs| - 1;
    var init := rs[..n];
    NeverDemands(u, c, rs);
    NeverDemands(u, c, init);
    forall k | 0 <= k < n
      ensures Undemanding(u, RunReports(u, c, rs[..k]), rs[k])
         <==> Undemanding(u, RunReports(u, c, init[..k]), init[k])
    {
      assert init[..k] == rs[..k] && init[k] == rs[k];
    }
  }

  lemma NeverDemands(u: Setup, c: Chain, rs: seq<Report>)
    requires u.Valid() && |c.finality| == |c.blocks| && forall k | 0 <= k < |rs| :: rs[k].l.headers != []
    ensures NeverResyncs(u, c, rs) <==>
              forall k | 0 <= k < |rs| :: Undemanding(u, RunReports(u, c, rs[..k]), rs[k])
  {
    hide Indexed, RunReports;
  }

  lemma AllWithinSnoc(u: Setup, c: Chain, rs: seq<Report>)
    requires u.Valid() && |c.finality| == |c.blocks| && forall k | 0 <= k < |rs| :: rs[k].l.headers != []
    requires |rs| > 1
    ensures var n := |rs| - 1;
            var last := Within(u, RunReports(u, c, rs[..n]), Followed(rs[..n]), rs[n].l);
            AllWithin(u, c, rs) <==> AllWithin(u, c, rs[..n]) && last
  {
    hide Within, RunReports, Followed;
    var n := |rs| - 1;
    assert forall k | 0 <= k < n :: rs[..n][..k] == rs[..k] && rs[..n][k] == rs[k];
    if AllWithin(u, c, rs[..n]) && Within(u, RunReports(u, c, rs[..n]), Followed(rs[..n]), rs[n].l) {
      forall k | 1 <= k < |rs|
        ensures Within(u, RunReports(u, c, rs[..k]), Followed(rs[..k]), rs[k].l)
      {
        if k < n { assert Within(u, RunReports(u, c, rs[..n][..k]), Followed(rs[..n][..k]), rs[..n][k].l); }
      }
    }
  }

  /**
    Resyncs are a matter of the ledgers and the finalized checkpoint: a run of honest
    reports is never asked to resync if and only if each report stays within the
    limits of the ledger followed before it.
   */
  lemma {:induction false} NeverResyncsExactly(u: Setup, sha: Hasher, rs: seq<Report>)
    requires u.Valid() && rs != [] && AllHonest(u, rs) && AllConsistent(rs)
    requires forall k | 0 <= k < |rs| :: rs[k].l.headers != []
    ensures NeverResyncs(u, EmptyChain(sha), rs) <==> AllWithin(u, EmptyChain(sha), rs)
  {
    hide Honest, Indexed, Consistent, Contains, Safe, Within, Undemanding, NeverResyncs, AllWithin, RunReports,
      AllHonest, AllConsistent, Followed, Follows;
    var n := |rs| - 1;
    var c := EmptyChain(sha);
    assert Honest(u, rs[n]) by { LastIsHonest(u, rs); }
    NeverResyncsSnoc(u, c, rs);
    if n == 0 {
      OneIsWithin(u, sha, rs);
    } else {
      HonestPrefix(u, rs, n);
      NeverResyncsExactly(u, sha, rs[..n]);
      AllWithinSnoc(u, c, rs);
      if NeverResyncs(u, c, rs[..n]) {
        RunsFollowTheLedger(u, sha, rs[..n]);
        FollowedIsLinked(u, rs[..n]);
        UndemandingExactly(u, RunReports(u, c, rs[..n]), rs[n], Followed(rs[..n]));
      }
    }
  }

  lemma LastIsHonest(u: Setup, rs: seq<Report>)
    requires u.Valid() && rs != [] && AllHonest(u, rs)
    ensures Honest(u, rs[|rs| - 1])
  {
  }

  lemma OneIsWithin(u: Setup, sha: Hasher, rs: seq<Report>)
    requires u.Valid() && |rs| == 1 && Honest(u, rs[0]) && rs[0].l.headers != []
    ensures NeverResyncs(u, EmptyChain(sha), rs) && AllWithin(u, EmptyChain(sha), rs)
  {
    hide Honest, Indexed;
    OpeningReport(u, sha, rs[0]);
    assert rs[..0] == [];
  }

  // ----- A stale head -----

  lemma PairPrefixes(rs: seq<Report>)
    requires |rs| == 2
    ensures rs[..0] == [] && rs[..1] == [rs[0]] && Followed(rs[..1]) == rs[0].l
  {
  }

  /** A shorter ledger whose head is in the longer one is stale after it. */
  lemma ContainedIsStale(r: Report, r': Report)
    requires Contains(r.l, r'.l) && |r'.l.headers| < |r.l.headers|
    ensures Stale([r, r'])
  {
    PairPrefixes([r, r']);
  }

  /**
    Any honest report, followed by one of a shorter ledger whose head the first
    contains, is such a run: the store keeps the first ledger.
   */
  lemma StaleHeadIsIgnored(u: Setup, sha: Hasher, r: Report, r': Report)
    requires u.Valid() && Honest(u, r) && Honest(u, r') && r.l.headers != [] && r'.l.headers != []
    requires AllConsistent([r, r']) && Contains(r.l, r'.l) && |r'.l.headers| < |r.l.headers|
    ensures var rs := [r, r'];
            && AllHonest(u, rs) && NeverResyncs(u, EmptyChain(sha), rs) && Stale(rs)
            && RunReports(u, EmptyChain(sha), rs).blocks == r.l.blocks[u.start..] != r'.l.blocks[u.start..]
  {
    hide Honest, Indexed, Consistent, Safe, NeverResyncs, RunReports, AllConsistent, HeadersLink, Stale;
    var rs := [r, r'];
    PairPrefixes(rs);
    ContainedIsStale(r, r');
    assert AllHonest(u, rs);
    assert Within(u, RunReports(u, EmptyChain(sha), rs[..1]), r.l, r'.l);
    NeverResyncsExactly(u, sha, rs);
    RunsFollowTheLedger(u, sha, rs);
    LastLedgerExactly(u, sha, rs);
  }

  const GENESIS := Header(0, 1, 0, 0)
  const CHILD := Header(1, 2, 1, 0)
  const GENESIS_BLOCK := Block(0, 1, 0, 0, [])
  const CHILD_BLOCK := Block(1, 2, 1, 0, [])

  const SHORT := Ledger([GENESIS], [], [GENESIS_BLOCK])
  const LONG := Ledger([GENESIS, CHILD], [], [GENESIS_BLOCK, CHILD_BLOCK])

  /** It serves both chains in full but has no checkpoint to report. */
  function Server(): Session {
    Session(
      Failed, (n: uint64) => if n == 0 then Answer(Some(GENESIS)) else Answer(Some(CHILD)), (_, _) => Failed,
      _ => Answer([]), Failed, Failed, _ => false)
  }

  lemma EmptyBlocks(decode: Decoder)
    ensures BlockFrom(decode, GENESIS, []) == Ok(GENESIS_BLOCK) && BlockFrom(decode, CHILD, []) == Ok(CHILD_BLOCK)
  {
  }

  lemma BothAreServed(u: Setup)
    requires u.Valid() && u.start == 0
    ensures Honest(u, Announced(Server(), LONG)) && Honest(u, Announced(Server(), SHORT))
  {
    EmptyBlocks(u.decode);
    assert Between([], 0, 0) == Between([], 1, 1) == [];
  }

  /** The last ledger reported need not be the one that is held: a stale run, with everything else in order. */
  lemma StaleHeadOccurs(sha: Hasher, decode: Decoder)
    ensures var u := Setup(0, 1, 1, 1, decode);
            var rs := [Announced(Server(), LONG), Announced(Server(), SHORT)];
            && u.Valid() && AllHonest(u, rs) && AllConsistent(rs) && NeverResyncs(u, EmptyChain(sha), rs) && Stale(rs)
            && RunReports(u, EmptyChain(sha), rs).blocks == LONG.blocks != rs[1].l.blocks[u.start..]
  {
    hide Honest, AllHonest, NeverResyncs, Stale, RunReports;
    var u := Setup(0, 1, 1, 1, decode);
    var r, r' := Announced(Server(), LONG), Announced(Server(), SHORT);
    BothAreServed(u);
    assert LONG.blocks[..1] == SHORT.blocks[..1] == [GENESIS_BLOCK];
    StaleHeadIsIgnored(u, sha, r, r');
    assert LONG.blocks[0..] == LONG.blocks;
  }
}
