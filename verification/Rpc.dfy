/**
  What the indexer sees of its RPC provider.  The provider is not trusted: one
  Session is an arbitrary choice of every answer it may give during one Backfill
  or one head ingestion, including failures and cancellation.  No query is made
  twice within one such operation, so a function of the query loses nothing.
 */
module Rpc {
  import opened Types
  import Chain

  /** A header as go-ethereum reports it; its number may be any integer. */
  datatype Header = Header(number: int, hash: Hash, parent: Hash, time: uint64)

  /** A raw log.  Topics and data stay opaque until a decoder looks at them. */
  datatype Log = Log(
    blockNumber: uint64, blockHash: Hash, txIndex: uint64, index: uint64, removed: bool,
    topics: seq<Hash>, data: Bytes)

  /** The result of one call, with the context checks made right after it. */
  datatype Reply<+T> = Answer(value: T) | Failed | Cancelled

  /** The context checks that no call precedes. */
  datatype Gate =
    | Enter | BeforeLog(low: uint64, high: uint64, index: nat) | RangeEnd(from: uint64)
    | BeforeCommit | EnterRefresh | BeforeMark

  datatype Session = Session(
    latest: Reply<Option<Header>>,
    header: uint64 -> Reply<Option<Header>>,
    logsInRange: (uint64, uint64) -> Reply<seq<Log>>,
    logsInBlock: Header -> Reply<seq<Log>>,
    safe: Reply<Option<Header>>,
    finalized: Reply<Option<Header>>,
    cancelled: Gate -> bool)

  datatype IndexError =
    | CancelledByCaller
    | RpcFailed
    | Disconnected
    | Undecodable
    | StoreRefused(cause: Chain.ChainError)
    | NeedsResync(head: uint64, retainedDepth: uint64)

  /** checkedHeaderNumber: a nil header and a header without a number are both None. */
  function CheckedNumber(header: Option<Header>, want: Option<uint64>): (r: Result<uint64, IndexError>)
    ensures r.Ok?
      <==> header.Some? && 0 <= header.value.number < TWO64 && (want.Some? ==> header.value.number == want.value)
    ensures r.Ok? ==> r.value == header.value.number
    ensures r.Err? ==> r.error == Disconnected
  {
    if header.None? || header.value.number < 0 || header.value.number >= TWO64 then Err(Disconnected)
    else if want.Some? && header.value.number != want.value then Err(Disconnected)
    else Ok(header.value.number)
  }

  /** The header a call reports, which must be well formed and of the wanted height. */
  function CheckedReply(reply: Reply<Option<Header>>, want: Option<uint64>): (r: Result<Header, IndexError>)
    ensures r.Ok? <==> reply.Answer? && CheckedNumber(reply.value, want).Ok?
    ensures r.Ok? ==> reply.value == Some(r.value) && 0 <= r.value.number < TWO64
  {
    match reply
    case Failed => Err(RpcFailed)
    case Cancelled => Err(CancelledByCaller)
    case Answer(header) =>
      if CheckedNumber(header, want).Err? then Err(Disconnected) else Ok(header.value)
  }
}
