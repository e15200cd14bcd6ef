/**
  internal/indexer/coordinator.go as functions: what Backfill and ingestHead do to
  the canonical chain for any answers of the provider.  Module Coordinator holds
  the methods proved to compute them.
 */
module Indexing {
  import opened Types
  import opened Sequences
  import opened Digest
  import opened Chain
  import opened Rpc
  import opened LogOrder
  import opened Convert
  import Backfill

  datatype Setup = Setup(start: uint64, retainedDepth: uint64, minRange: uint64, maxRange: uint64, decode: Decoder)
  {
    /** The checks of NewCoordinator on its bounds. */
    predicate Valid() {
      retainedDepth != 0 && minRange != 0 && maxRange != 0 && minRange <= maxRange
    }
  }

  type Headers = Result<seq<Header>, IndexError>
  type Blocks = Result<seq<Block>, IndexError>
  type Result' = (Chain, Option<IndexError>)

  // ----- Collecting headers and blocks -----

  /** ingestHead's backward walk: the unstored headers from just above an ancestor up to `current`. */
  function Branch(u: Setup, c: Chain, s: Session, head: uint64, current: Header): Headers
    requires 0 <= current.number < TWO64 && c.blocks != []
    decreases current.number
  {
    if c.Holds(current.number, current.hash) then Ok([])
    else if current.number == 0 then Err(NeedsResync(head, u.retainedDepth))
    else
      var parent: uint64 := current.number - 1;
      var tip := c.blocks[|c.blocks| - 1].number;
      if c.Holds(parent, current.parent) then Ok([current])
      else if tip > parent && tip - parent > u.retainedDepth then Err(NeedsResync(head, u.retainedDepth))
      else
        var fetched := CheckedReply(s.header(parent), Some(parent));
        if fetched.Err? then Err(fetched.error)
        else if fetched.value.hash != current.parent then Err(Disconnected)
        else Then(Branch(u, c, s, head, fetched.value), Ok([current]))
  }

  /** ingestFirstHead's walk down to the configured start. */
  function FirstBranch(u: Setup, s: Session, current: Header): Headers
    requires 0 <= current.number < TWO64
    decreases current.number
  {
    if current.number <= u.start then Ok([current])
    else
      var parent: uint64 := current.number - 1;
      var fetched := CheckedReply(s.header(parent), Some(parent));
      if fetched.Err? then Err(fetched.error)
      else if fetched.value.hash != current.parent then Err(Disconnected)
      else Then(FirstBranch(u, s, fetched.value), Ok([current]))
  }

  function FetchBlock(u: Setup, s: Session, header: Header): Result<Block, IndexError> {
    match s.logsInBlock(header)
    case Failed => Err(RpcFailed)
    case Cancelled => Err(CancelledByCaller)
    case Answer(logs) => BlockFrom(u.decode, header, logs)
  }

  function Single(r: Result<Block, IndexError>): Blocks {
    if r.Err? then Err(r.error) else Ok([r.value])
  }

  function FetchAll(u: Setup, s: Session, headers: seq<Header>): Blocks {
    if headers == [] then Ok([])
    else Then(FetchAll(u, s, headers[..|headers| - 1]), Single(FetchBlock(u, s, headers[|headers| - 1])))
  }

  function FetchBranch(u: Setup, s: Session, headers: Headers): Blocks {
    if headers.Err? then Err(headers.error) else FetchAll(u, s, headers.value)
  }

  function BoundedEnd(from: uint64, size: uint64, last: uint64): (end: uint64)
    requires from <= last && size > 0
    ensures end == if from + size - 1 <= last then from + size - 1 else last
  {
    if size - 1 >= last - from then last else from + size - 1
  }

  /** The header of one height joined with the range's logs of that height. */
  function RangeBlock(u: Setup, s: Session, emitted: seq<Log>, number: uint64): Result<Block, IndexError> {
    var fetched := CheckedReply(s.header(number), Some(number));
    if fetched.Err? then Err(fetched.error)
    else BlockFrom(u.decode, fetched.value, Between(emitted, number, number))
  }

  function RangeBlocks(u: Setup, s: Session, emitted: seq<Log>, from: uint64, end: nat): Blocks
    requires from <= end <= TWO64
    decreases end
  {
    if from == end then Ok([])
    else Then(RangeBlocks(u, s, emitted, from, end - 1), Single(RangeBlock(u, s, emitted, end - 1)))
  }

  function InRange(from: uint64, to: uint64): Log -> bool {
    (log: Log) => from <= log.blockNumber <= to
  }

  /** buildBackfillRange */
  function BuildRange(u: Setup, s: Session, from: uint64, to: uint64): Blocks
    requires u.Valid() && from <= to
  {
    var config := Backfill.Config(from, to, u.minRange, u.maxRange);
    var pieces := Backfill.Requests(Backfill.Received(s, InRange(from, to)), config, from, u.maxRange);
    if pieces.Err? then Err(pieces.error)
    else
      var blocks := RangeBlocks(u, s, Backfill.Emitted(pieces.value), from, to + 1);
      if blocks.Ok? && s.cancelled(RangeEnd(from)) then Err(CancelledByCaller) else blocks
  }

  /** All ranges from `from` through the captured latest height. */
  function BuildRanges(u: Setup, s: Session, from: uint64, latest: uint64): Blocks
    requires u.Valid() && from <= latest
    decreases latest - from
  {
    var to := BoundedEnd(from, u.maxRange, latest);
    if to == latest then BuildRange(u, s, from, to)
    else Then(BuildRange(u, s, from, to), BuildRanges(u, s, to + 1, latest))
  }

  // ----- Committing -----

  /** The candidate neither is stored nor extends the tip: the store must reconcile it. */
  function CommitFork(c: Chain, candidate: seq<Block>, retainedDepth: uint64): (r: Result')
    requires |c.finality| == |c.blocks| && candidate != []
    ensures |r.0.finality| == |r.0.blocks|
  {
    var out := c.Reconcile(candidate, Some(retainedDepth));
    if out.error.None? then (out.chain, None)
    else if out.error.value.NeedsResync() then
      (out.chain, Some(NeedsResync(candidate[|candidate| - 1].number, retainedDepth)))
    else (out.chain, Some(StoreRefused(out.error.value)))
  }

  function CommitFrom(c: Chain, candidate: seq<Block>, retainedDepth: uint64, i: nat): (r: Result')
    requires |c.finality| == |c.blocks| && i <= |candidate|
    ensures |r.0.finality| == |r.0.blocks|
    decreases |candidate| - i
  {
    if i == |candidate| then (c, None)
    else if c.Holds(candidate[i].number, candidate[i].hash) then CommitFrom(c, candidate, retainedDepth, i + 1)
    else if c.Accepts(candidate[i]) then CommitFrom(c.Push(candidate[i]), candidate, retainedDepth, i + 1)
    else CommitFork(c, candidate, retainedDepth)
  }

  /** commitCandidate */
  function Commit(c: Chain, candidate: seq<Block>, retainedDepth: uint64): (r: Result')
    requires |c.finality| == |c.blocks|
    ensures |r.0.finality| == |r.0.blocks|
  {
    if !Linear(candidate) then (c, Some(Disconnected)) else CommitFrom(c, candidate, retainedDepth, 0)
  }

  // ----- Finality -----

  /** The hash to mark: none when the checkpoint is outside the store's range or not above the current one. */
  function ValidateCheckpoint(c: Chain, header: Header, level: Level): Result<Option<Hash>, IndexError>
    requires |c.finality| == |c.blocks| && c.blocks != [] && 0 <= header.number < TWO64
  {
    if header.number < c.blocks[0].number then Ok(None)
    else if !c.Holds(header.number, header.hash) then Err(Disconnected)
    else if c.Checkpoint(level).Some? && header.number <= c.Checkpoint(level).value.number then Ok(None)
    else Ok(Some(header.hash))
  }

  function ReplyError<T>(reply: Reply<T>): Option<IndexError> {
    match reply
    case Failed => Some(RpcFailed)
    case Cancelled => Some(CancelledByCaller)
    case Answer(_) => None
  }

  /** refreshFinality up to the update itself: the two hashes to mark, or the error. */
  function CheckFinality(u: Setup, c: Chain, s: Session): Result<(Option<Hash>, Option<Hash>), IndexError>
    requires |c.finality| == |c.blocks|
  {
    if s.cancelled(EnterRefresh) then Err(CancelledByCaller)
    else if ReplyError(s.safe).Some? then Err(ReplyError(s.safe).value)
    else if ReplyError(s.finalized).Some? then Err(ReplyError(s.finalized).value)
    else if CheckedNumber(s.safe.value, None).Err? || CheckedNumber(s.finalized.value, None).Err? then Err(Disconnected)
    else
      var safe, finalized := s.safe.value.value, s.finalized.value.value;
      if finalized.number > safe.number then Err(Disconnected)
      else if c.blocks == [] then (if safe.number < u.start then Ok((None, None)) else Err(Disconnected))
      else if safe.number > c.blocks[|c.blocks| - 1].number then Err(Disconnected)
      else
        var safeHash := ValidateCheckpoint(c, safe, SAFE);
        var finalizedHash := ValidateCheckpoint(c, finalized, FINALIZED);
        if safeHash.Err? then Err(safeHash.error)
        else if finalizedHash.Err? then Err(finalizedHash.error)
        else if s.cancelled(BeforeMark) then Err(CancelledByCaller)
        else Ok((safeHash.value, finalizedHash.value))
  }

  /** refreshFinality */
  function Refresh(u: Setup, c: Chain, s: Session): (r: Result')
    requires |c.finality| == |c.blocks|
    ensures |r.0.finality| == |r.0.blocks|
  {
    match CheckFinality(u, c, s)
    case Err(e) => (c, Some(e))
    case Ok(hashes) =>
      var (marked, error) := c.MarkCheckpoints(hashes.0, hashes.1);
      (marked, if error.Some? then Some(Disconnected) else None)
  }

  // ----- The two entry points -----

  /** Commits the collected candidate, then refreshes finality. */
  function Finish(u: Setup, c: Chain, s: Session, candidate: Blocks): (r: Result')
    requires |c.finality| == |c.blocks|
    ensures |r.0.finality| == |r.0.blocks|
  {
    if candidate.Err? then (c, Some(candidate.error))
    else if s.cancelled(BeforeCommit) then (c, Some(CancelledByCaller))
    else
      var (committed, error) := Commit(c, candidate.value, u.retainedDepth);
      if error.Some? then (committed, error) else Refresh(u, committed, s)
  }

  /** The candidate ingestHead collects for a head that is not stored. */
  function HeadCandidate(u: Setup, c: Chain, s: Session, announced: Header): Blocks
    requires 0 <= announced.number < TWO64
  {
    if c.blocks == [] then FetchBranch(u, s, FirstBranch(u, s, announced))
    else FetchBranch(u, s, Branch(u, c, s, announced.number, announced))
  }

  function IngestHead(u: Setup, c: Chain, s: Session, announced: Option<Header>): (r: Result')
    requires |c.finality| == |c.blocks|
    ensures |r.0.finality| == |r.0.blocks|
  {
    if s.cancelled(Enter) then (c, Some(CancelledByCaller))
    else if CheckedNumber(announced, None).Err? then (c, Some(Disconnected))
    else if announced.value.number < u.start then (c, None)
    else if c.Holds(announced.value.number, announced.value.hash) then Refresh(u, c, s)
    else Finish(u, c, s, HeadCandidate(u, c, s, announced.value))
  }

  function BackfillStep(u: Setup, c: Chain, s: Session): (r: Result')
    requires u.Valid() && |c.finality| == |c.blocks|
    ensures |r.0.finality| == |r.0.blocks|
  {
    if s.cancelled(Enter) then (c, Some(CancelledByCaller))
    else
      var latest := CheckedReply(s.latest, None);
      if latest.Err? then (c, Some(latest.error))
      else if latest.value.number < u.start then (c, None)
      else Finish(u, c, s, BuildRanges(u, s, u.start, latest.value.number))
  }
}
