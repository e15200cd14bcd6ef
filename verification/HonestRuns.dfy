/** Whole runs of the indexer against honest providers: which chain the store ends up with. */
module HonestRuns {
  import opened Types
  import opened Digest
  import opened Chain
  import opened ChainLaws
  import opened SafetyLaws
  import opened ResyncLaws
  import opened Rpc
  import opened Indexing

  /** One honest report: a head announced and served block by block, or a backfill. */
  datatype Report = Announced(s: Session, l: Ledger) | Filled(s: Session, l: Ledger)

  ghost predicate Honest(u: Setup, r: Report)
    requires u.Valid()
  {
    && r.l.Valid(u.decode) && u.start <= r.l.Head() && (u.start > 0 || |r.l.headers| < TWO64)
    && match r
       case Announced(s, l) => ServesHeads(s, l)
       case Filled(s, l) => ServesRanges(s, l) && AnswersRanges(s, u.minRange)
  }

  function Indexed(u: Setup, c: Chain, r: Report): (out: Result')
    requires u.Valid() && |c.finality| == |c.blocks| && r.l.headers != []
    ensures |out.0.finality| == |out.0.blocks|
  {
    match r
    case Announced(s, l) => IngestHead(u, c, s, Some(l.headers[|l.headers| - 1]))
    case Filled(s, _) => BackfillStep(u, c, s)
  }

  ghost predicate AllHonest(u: Setup, rs: seq<Report>)
    requires u.Valid()
  {
    forall k | 0 <= k < |rs| :: Honest(u, rs[k])
  }

  function RunReports(u: Setup, c: Chain, rs: seq<Report>): (c': Chain)
    requires u.Valid() && |c.finality| == |c.blocks| && forall k | 0 <= k < |rs| :: rs[k].l.headers != []
    ensures |c'.finality| == |c'.blocks|
  {
    if rs == [] then c
    else Indexed(u, RunReports(u, c, rs[..|rs| - 1]), rs[|rs| - 1]).0
  }

  /** Ledgers of one network: a shared hash means a shared past. */
  ghost predicate Consistent(a: Ledger, b: Ledger) {
    && |a.blocks| == |a.headers| && |b.blocks| == |b.headers|
    && forall n | 0 <= n < |a.headers| && n < |b.headers| && a.headers[n].hash == b.headers[n].hash ::
         a.blocks[..n + 1] == b.blocks[..n + 1]
  }

  ghost predicate AllConsistent(rs: seq<Report>) {
    forall i, j | 0 <= i < |rs| && 0 <= j < |rs| :: Consistent(rs[i].l, rs[j].l)
  }

  /** The head of `b` is a block of `a`. */
  predicate Contains(a: Ledger, b: Ledger) {
    && 0 < |b.headers| <= |a.headers|
    && a.headers[|b.headers| - 1].hash == b.headers[|b.headers| - 1].hash
  }

  /** The ledger to be followed: the last one reported whose head was news. */
  function Followed(rs: seq<Report>): (l: Ledger)
    requires rs != []
  {
    var last := rs[|rs| - 1].l;
    if |rs| == 1 then last
    else
      var before := Followed(rs[..|rs| - 1]);
      if Contains(before, last) then before else last
  }

  /** No report of the run demanded a resync. */
  ghost predicate NeverResyncs(u: Setup, c: Chain, rs: seq<Report>)
    requires u.Valid() && |c.finality| == |c.blocks| && forall k | 0 <= k < |rs| :: rs[k].l.headers != []
  {
    forall k | 0 <= k < |rs| ::
      var error := Indexed(u, RunReports(u, c, rs[..k]), rs[k]).1;
      error.Some? ==> !error.value.NeedsResync?
  }

  lemma HonestIsExact(u: Setup, c: Chain, r: Report)
    requires u.Valid() && Safe(u, c) && (u.start > 0 || |c.blocks| < TWO64) && Honest(u, r)
    ensures Indexed(u, c, r) == Refreshed(u, Resync(u, c, r.l), r.s)
    ensures Safe(u, Indexed(u, c, r).0)
  {
    hide IngestHead, BackfillStep, Resync, Refreshed, GapFree, LevelsFall, Digest.Fold, FinalizedPrefix,
      Ledger.Assembled,
      ServesHeads, ServesRanges, AnswersRanges, HeadersLink;
    match r
    case Announced(s, l) =>
      IngestHeadExact(u, c, s, l);
      HeadKeepsSafe(u, c, s, Some(l.headers[l.Head()]));
    case Filled(s, l) =>
      HonestBackfillExact(u, c, s, l);
      FillKeepsSafe(u, c, s);
  }

  /** The store holds exactly the blocks of a ledger from the start block on. */
  ghost predicate Follows(u: Setup, c: Chain, l: Ledger) {
    l.Linked() && u.start <= l.Head() && c.blocks == l.blocks[u.start..]
  }

  lemma SharedPosition(u: Setup, c: Chain, p: Ledger, l: Ledger, i: nat)
    requires Follows(u, c, p) && l.Linked() && i < |c.blocks|
    ensures c.blocks[i].number == u.start + i
    ensures Shared(c, l, i) <==> u.start + i < |l.headers| && p.headers[u.start + i].hash == l.headers[u.start + i].hash
  {
    hide HeadersLink;
    assert c.blocks[i] == p.blocks[u.start + i];
  }

  /** The newest common ancestor is the reported head itself exactly when the followed ledger contains it. */
  lemma HeadIsCommonExactly(u: Setup, c: Chain, p: Ledger, l: Ledger)
    requires Follows(u, c, p) && l.Linked() && u.start <= l.Head()
    ensures var j := NewestCommon(c, l);
            (j >= 0 && c.blocks[j].number == l.Head()) <==> Contains(p, l)
  {
    hide NewestCommon, Shared, Follows, HeadersLink;
    var j := NewestCommon(c, l);
    FollowedLength(u, c, p);
    if j >= 0 { SharedPosition(u, c, p, l, j); }
    if Contains(p, l) {
      var at: nat := l.Head() - u.start;
      SharedPosition(u, c, p, l, at);
      assert Shared(c, l, at);
    }
  }

  lemma FollowedLength(u: Setup, c: Chain, p: Ledger)
    requires Follows(u, c, p)
    ensures |p.headers| == |p.blocks| == u.start + |c.blocks| && c.blocks != [] && p.Linked()
  {
  }

  lemma GraftIsTheLedger(u: Setup, c: Chain, p: Ledger, l: Ledger, j: nat)
    requires Follows(u, c, p) && l.Linked() && Consistent(p, l) && j < |c.blocks| && Shared(c, l, j)
    ensures u.start + j < |l.blocks| && c.blocks[..j + 1] + l.blocks[u.start + j + 1..] == l.blocks[u.start..]
  {
    hide HeadersLink;
    SharedPosition(u, c, p, l, j);
    var n := u.start + j;
    assert p.blocks[..n + 1] == l.blocks[..n + 1];
    assert c.blocks[..j + 1] == p.blocks[..n + 1][u.start..];
    assert l.blocks == l.blocks[..n + 1] + l.blocks[n + 1..];
  }

  /** One report against a store that follows a ledger: it is kept if it contains the report, and left otherwise. */
  lemma OneReport(u: Setup, c: Chain, p: Ledger, l: Ledger)
    requires Sound(c) && Follows(u, c, p) && l.Linked() && u.start <= l.Head() && Consistent(p, l)
    requires Resync(u, c, l).1.None?
    ensures Resync(u, c, l).0.blocks == if Contains(p, l) then c.blocks else l.blocks[u.start..]
  {
    hide NewestCommon, Shared, Contains, Consistent, HeadersLink, GapFree, LevelsFall, Digest.Fold;
    HeadIsCommonExactly(u, c, p, l);
    var j := NewestCommon(c, l);
    if j >= 0 && !Contains(p, l) {
      SharedPosition(u, c, p, l, j);
      GraftIsTheLedger(u, c, p, l, j);
    }
  }

  lemma FirstReport(u: Setup, c: Chain, l: Ledger)
    requires c.blocks == [] && |c.finality| == 0 && l.Linked() && u.start <= l.Head()
    ensures Resync(u, c, l).1.None? && Resync(u, c, l).0.blocks == l.blocks[u.start..]
  {
    assert [] + l.blocks[u.start..] == l.blocks[u.start..];
  }

  lemma RefreshKeepsBlocks(u: Setup, c: Chain, l: Ledger, s: Session)
    requires |c.finality| == |c.blocks| && 0 < |l.headers| == |l.blocks| <= TWO64 && u.start <= l.Head()
    requires var error := Refreshed(u, Resync(u, c, l), s).1; error.Some? ==> !error.value.NeedsResync?
    ensures Resync(u, c, l).1.None?
    ensures Refreshed(u, Resync(u, c, l), s).0.blocks == Resync(u, c, l).0.blocks
  {
    hide NewestCommon, Refresh;
    RefreshErrors(u, Resync(u, c, l).0, s);
  }

  lemma HonestLedger(u: Setup, r: Report)
    requires u.Valid() && Honest(u, r)
    ensures r.l.Linked() && u.start <= r.l.Head() && (u.start > 0 || |r.l.headers| < TWO64)
  {
  }

  lemma PrefixRun(u: Setup, sha: Hasher, rs: seq<Report>, n: nat)
    requires u.Valid() && AllHonest(u, rs) && AllConsistent(rs) && n <= |rs|
    requires (forall k | 0 <= k < |rs| :: rs[k].l.headers != []) && NeverResyncs(u, EmptyChain(sha), rs)
    ensures AllHonest(u, rs[..n]) && AllConsistent(rs[..n])
    ensures (forall k | 0 <= k < n :: rs[..n][k].l.headers != []) && NeverResyncs(u, EmptyChain(sha), rs[..n])
  {
    hide Honest, Consistent, Indexed, RunReports;
    forall k | 0 <= k < n
      ensures var error := Indexed(u, RunReports(u, EmptyChain(sha), rs[..n][..k]), rs[..n][k]).1;
              error.Some? ==> !error.value.NeedsResync?
    {
      assert rs[..n][..k] == rs[..k] && rs[..n][k] == rs[k];
      var error := Indexed(u, RunReports(u, EmptyChain(sha), rs[..k]), rs[k]).1;
      assert error.Some? ==> !error.value.NeedsResync?;
    }
  }

  lemma {:induction false} FollowedIsReported(rs: seq<Report>)
    requires rs != []
    ensures exists k :: 0 <= k < |rs| && Followed(rs) == rs[k].l
  {
    var last := |rs| - 1;
    if Followed(rs) == rs[last].l {
    } else {
      FollowedIsReported(rs[..last]);
      var k :| 0 <= k < last && Followed(rs[..last]) == rs[..last][k].l;
      assert Followed(rs) == rs[k].l;
    }
  }

  lemma FollowedIsLinked(u: Setup, rs: seq<Report>)
    requires u.Valid() && rs != [] && AllHonest(u, rs)
    ensures var l := Followed(rs); l.Linked() && u.start <= l.Head() && (u.start > 0 || |l.headers| < TWO64)
  {
    hide Honest, Followed;
    FollowedIsReported(rs);
    var k :| 0 <= k < |rs| && Followed(rs) == rs[k].l;
    HonestLedger(u, rs[k]);
  }

  lemma FollowedIsConsistent(rs: seq<Report>)
    requires |rs| > 1 && AllConsistent(rs)
    ensures Consistent(Followed(rs[..|rs| - 1]), rs[|rs| - 1].l)
  {
    hide Followed, Consistent;
    var init := rs[..|rs| - 1];
    FollowedIsReported(init);
    var k :| 0 <= k < |init| && Followed(init) == init[k].l;
    assert init[k] == rs[k];
  }

  lemma NextReport(u: Setup, c: Chain, r: Report, p: Ledger)
    requires u.Valid() && Safe(u, c) && Honest(u, r) && Follows(u, c, p) && Consistent(p, r.l)
    requires u.start > 0 || |p.headers| < TWO64
    requires r.l.headers != []
    requires var error := Indexed(u, c, r).1; error.Some? ==> !error.value.NeedsResync?
    ensures Safe(u, Indexed(u, c, r).0)
    ensures Indexed(u, c, r).0.blocks == if Contains(p, r.l) then c.blocks else r.l.blocks[u.start..]
  {
    hide Indexed, Refreshed, Resync, Contains, Consistent, GapFree, LevelsFall, Digest.Fold, Honest;
    FollowedLength(u, c, p);
    HonestLedger(u, r);
    HonestIsExact(u, c, r);
    RefreshKeepsBlocks(u, c, r.l, r.s);
    OneReport(u, c, p, r.l);
  }

  /** An empty store is never asked to resync. */
  lemma OpeningReport(u: Setup, sha: Hasher, r: Report)
    requires u.Valid() && Honest(u, r) && r.l.headers != []
    ensures var error := Indexed(u, EmptyChain(sha), r).1; error.Some? ==> !error.value.NeedsResync?
    ensures Safe(u, Indexed(u, EmptyChain(sha), r).0)
    ensures Indexed(u, EmptyChain(sha), r).0.blocks == r.l.blocks[u.start..]
  {
    hide Indexed, Refresh, Resync, GapFree, LevelsFall, Digest.Fold, Honest;
    FreshStoreIsSafe(u, sha);
    HonestLedger(u, r);
    HonestIsExact(u, EmptyChain(sha), r);
    FirstReport(u, EmptyChain(sha), r.l);
    RefreshErrors(u, Resync(u, EmptyChain(sha), r.l).0, r.s);
  }

  /**
    Honest runs follow the chain.  A store begun empty and fed nothing but honest
    reports, heads and backfills in any order with any forks between them, which is
    never asked to resync, holds exactly the blocks of the followed ledger.
   */
  lemma {:induction false} RunsFollowTheLedger(u: Setup, sha: Hasher, rs: seq<Report>)
    requires u.Valid() && rs != [] && AllHonest(u, rs) && AllConsistent(rs)
    requires (forall k | 0 <= k < |rs| :: rs[k].l.headers != []) && NeverResyncs(u, EmptyChain(sha), rs)
    ensures Safe(u, RunReports(u, EmptyChain(sha), rs)) && Follows(u, RunReports(u, EmptyChain(sha), rs), Followed(rs))
  {
    hide Honest, Indexed, Consistent, Contains, Safe;
    var n := |rs| - 1;
    var c := RunReports(u, EmptyChain(sha), rs[..n]);
    var error := Indexed(u, c, rs[n]).1;
    assert error.Some? ==> !error.value.NeedsResync?;
    HonestLedger(u, rs[n]);
    if n == 0 {
      OpeningReport(u, sha, rs[0]);
    } else {
      PrefixRun(u, sha, rs, n);
      RunsFollowTheLedger(u, sha, rs[..n]);
      FollowedIsConsistent(rs);
      FollowedIsLinked(u, rs[..n]);
      NextReport(u, c, rs[n], Followed(rs[..n]));
    }
  }

  /** The report is of a chain that the store already has and goes beyond. */
  predicate Stale(rs: seq<Report>)
    requires rs != []
  {
    |rs| > 1 && Contains(Followed(rs[..|rs| - 1]), rs[|rs| - 1].l)
    && |rs[|rs| - 1].l.headers| < |Followed(rs[..|rs| - 1]).headers|
  }

  /** The store has the last ledger's blocks if and only if that report was not stale. */
  lemma LastLedgerExactly(u: Setup, sha: Hasher, rs: seq<Report>)
    requires u.Valid() && rs != [] && AllHonest(u, rs) && AllConsistent(rs)
    requires (forall k | 0 <= k < |rs| :: rs[k].l.headers != []) && NeverResyncs(u, EmptyChain(sha), rs)
    ensures RunReports(u, EmptyChain(sha), rs).blocks == rs[|rs| - 1].l.blocks[u.start..] <==> !Stale(rs)
  {
    hide Honest, RunReports, NeverResyncs, AllHonest, AllConsistent, Safe, HeadersLink;
    RunsFollowTheLedger(u, sha, rs);
    if |rs| > 1 {
      FollowedIsConsistent(rs);
      FollowedIsLinked(u, rs);
      LastIsLinked(u, rs);
    }
  }

  lemma LastIsLinked(u: Setup, rs: seq<Report>)
    requires u.Valid() && rs != [] && AllHonest(u, rs)
    ensures rs[|rs| - 1].l.Linked() && u.start <= rs[|rs| - 1].l.Head()
  {
    hide Honest;
    HonestLedger(u, rs[|rs| - 1]);
  }
}
