/** From provider to dataset: what indexing, projection and the contract guarantee together. */
module EndToEnd {
  import opened Types
  import opened Digest
  import opened Chain
  import opened ChainLaws
  import opened SafetyLaws
  import opened ResyncLaws
  import opened Rpc
  import opened Convert
  import opened Indexing
  import opened Rows
  import opened Projection
  import opened ProjectionLaws
  import opened ContractLaws
  import Fixture

  /** Two sound chains with the same blocks give the same dataset, but for the finality column. */
  lemma SameBlocksSameDataset(c: Chain, d: Chain, decode: EventDecoder, window: int)
    requires Sound(c) && Sound(d) && c.blocks == d.blocks
    ensures Project(decode, c, window).Ok? <==> Project(decode, d, window).Ok?
    ensures Project(decode, c, window).Ok? ==>
            EraseRows(Project(decode, c, window).value) == EraseRows(Project(decode, d, window).value)
  {
    hide ProjectEntries, EraseRows, GapFree, Digest.Fold, LevelsFall, EntriesBelow, SameButFinality, LevelsValid;
    EntriesOfSameBlocks(decode, c, d, |c.blocks|);
    ProjectionIgnoresFinality(Entries(decode, c), Entries(decode, d), window);
  }

  /**
    The dataset does not depend on how an honest chain was indexed: from any safe
    store, exporting after a backfill and exporting after ingesting the same head
    block by block succeed together with the same rows, but for the finality column.
   */
  lemma BackfillAndLiveExportTheSame(
    u: Setup, c: Chain, fill: Session, live: Session, l: Ledger, decode: EventDecoder, window: int)
    requires u.Valid() && Safe(u, c) && (u.start > 0 || |c.blocks| < TWO64)
    requires l.Valid(u.decode) && u.start <= l.Head()
    requires ServesRanges(fill, l) && ServesHeads(live, l)
    requires BuildRanges(u, fill, u.start, l.Head()).Ok?
    ensures var filled := BackfillStep(u, c, fill).0;
            var ingested := IngestHead(u, c, live, Some(l.headers[l.Head()])).0;
            && (Project(decode, filled, window).Ok? <==> Project(decode, ingested, window).Ok?)
            && (Project(decode, filled, window).Ok? ==>
                EraseRows(Project(decode, filled, window).value) == EraseRows(Project(decode, ingested, window).value))
  {
    hide Project, EraseRows, BackfillStep, IngestHead, GapFree, LevelsFall, Digest.Fold, FinalizedPrefix;
    var head := Some(l.headers[l.Head()]);
    BackfillRefinesLive(u, c, fill, live, l);
    FillKeepsSafe(u, c, fill);
    HeadKeepsSafe(u, c, live, head);
    SameBlocksSameDataset(BackfillStep(u, c, fill).0, IngestHead(u, c, live, head).0, decode, window);
  }

  /** Nothing about the backfill's own course need be assumed if the smallest range queries are answered. */
  lemma HonestBackfillExportsTheSame(
    u: Setup, c: Chain, fill: Session, live: Session, l: Ledger, decode: EventDecoder, window: int)
    requires u.Valid() && Safe(u, c) && (u.start > 0 || |c.blocks| < TWO64)
    requires l.Valid(u.decode) && u.start <= l.Head()
    requires ServesRanges(fill, l) && AnswersRanges(fill, u.minRange) && ServesHeads(live, l)
    ensures var filled := BackfillStep(u, c, fill).0;
            var ingested := IngestHead(u, c, live, Some(l.headers[l.Head()])).0;
            && (Project(decode, filled, window).Ok? <==> Project(decode, ingested, window).Ok?)
            && (Project(decode, filled, window).Ok? ==>
                EraseRows(Project(decode, filled, window).value) == EraseRows(Project(decode, ingested, window).value))
  {
    hide *;
    HonestBackfillCompletes(u, fill, l, u.start);
    BackfillAndLiveExportTheSame(u, c, fill, live, l, decode, window);
  }

  /**
    Whatever an untrusted provider answers while a fresh store is indexed, if the
    events it ended up with are a suffix of some contract run, in log order and in
    the nanosecond range, then the export is a valid dataset, or an empty one
    exactly when no market with an indexed update is resolved.
   */
  lemma IndexedContractRunsExport(
    u: Setup, sha: Hasher, steps: seq<Step>, decode: EventDecoder, window: int, txs: seq<Fixture.Transaction>,
      from: nat)
    requires u.Valid() && StaysBelowMax(u, EmptyChain(sha), steps) && window > 0
    requires var c := RunSteps(u, EmptyChain(sha), steps);
             forall i | 0 <= i < |c.blocks| ::
               LogIndexesAscend(c.blocks[i].events) && InNanoRange(c.blocks[i].timestamp)
    requires Fixture.InTime(txs) && from <= |Fixture.RunOf(txs).log|
    requires Carries(Entries(decode, RunSteps(u, EmptyChain(sha), steps)), Fixture.RunOf(txs).log[from..])
    ensures var c := RunSteps(u, EmptyChain(sha), steps);
            if SomeLabelled(Entries(decode, c))
              then Project(decode, c, window).Ok? && Valid(Project(decode, c, window).value)
            else Project(decode, c, window) == Err(DatasetFailed(EmptyDataset))
  {
    hide Project, Valid, Carries, SomeLabelled, GapFree, LevelsFall, Digest.Fold, FinalizedPrefix, RunSteps,
      StaysBelowMax,
      Entries, Fixture.RunOf, Fixture.InTime, LogIndexesAscend, InNanoRange;
    FreshStoreIsSafe(u, sha);
    WholeRunIsSafe(u, EmptyChain(sha), steps, 0);
    ContractRunsProject(decode, RunSteps(u, EmptyChain(sha), steps), window, txs, from);
  }
}
