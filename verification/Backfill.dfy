/** internal/base/backfill.go: fetching a block range in requests whose size adapts to provider failures. */
module Backfill {
  import opened Types
  import opened Sequences
  import opened Rpc
  import opened LogOrder

  datatype Config = Config(from: uint64, to: uint64, minRange: uint64, maxRange: uint64)
  {
    /** The range checks of NewBackfiller. */
    predicate Valid() {
      from <= to && minRange != 0 && maxRange != 0 && minRange <= maxRange
    }
  }

  function InclusiveEnd(from: uint64, size: uint64, last: uint64): (end: uint64)
    requires from <= last && size > 0
    ensures end == if from + size - 1 <= last then from + size - 1 else last
  {
    if size - 1 >= last - from then last else from + size - 1
  }

  function GrowRange(current: uint64, minimum: uint64, maximum: uint64): (size: uint64)
    requires minimum <= current <= maximum
    ensures size == if current + minimum < maximum then current + minimum else maximum
  {
    if current >= maximum || maximum - current <= minimum then maximum else current + minimum
  }

  /** One successful request: its inclusive bounds and its logs in emission order. */
  datatype Piece = Piece(low: uint64, high: uint64, logs: seq<Log>)

  type Fetch = Result<seq<Piece>, IndexError>

  predicate AllAccepted(accept: Log -> bool, logs: seq<Log>) {
    forall i | 0 <= i < |logs| :: accept(logs[i])
  }

  /** What the emitter took of one answer, and why it was stopped before the end. */
  datatype Delivery = Delivery(logs: seq<Log>, error: Option<IndexError>)

  /** The emission of a sorted answer from position `i` on; the context is consulted before every log. */
  function Delivered(s: Session, accept: Log -> bool, low: uint64, high: uint64, logs: seq<Log>, i: nat): Delivery
    requires i <= |logs|
    decreases |logs| - i
  {
    if i == |logs| then Delivery([], None)
    else if s.cancelled(BeforeLog(low, high, i)) then Delivery([], Some(CancelledByCaller))
    else if !accept(logs[i]) then Delivery([], Some(Disconnected))
    else
      var rest := Delivered(s, accept, low, high, logs, i + 1);
      Delivery([logs[i]] + rest.logs, rest.error)
  }

  /** What one request of an inclusive range comes to. */
  type Ask = (uint64, uint64) -> Result<seq<Log>, IndexError>

  /** The provider's answer in canonical order, once the emitter has taken all of it. */
  function Received(s: Session, accept: Log -> bool): Ask {
    (low: uint64, high: uint64) =>
      match s.logsInRange(low, high)
      case Cancelled => Err(CancelledByCaller)
      case Failed => Err(RpcFailed)
      case Answer(logs) =>
        var sorted := Sort(AtOrBefore, logs);
        var delivery := Delivered(s, accept, low, high, sorted, 0);
        if delivery.error.None? then Ok(sorted) else Err(delivery.error.value)
  }

  function Shrink(requested: uint64, minimum: uint64): (size: uint64)
    requires 0 < minimum < requested
    ensures minimum <= size < requested
    ensures 2 * size <= requested <= 2 * size + 1 || (size == minimum && requested < 2 * minimum)
  {
    if requested / 2 < minimum then minimum else requested / 2
  }

  /**
    The requests made from block `next` on with the current range size.  The
    function terminates because each request either moves on or shrinks the
    range, and it is well typed because no uint64 expression wraps.
   */
  function Requests(ask: Ask, config: Config, next: uint64, size: uint64): Fetch
    requires config.Valid() && config.from <= next <= config.to && config.minRange <= size <= config.maxRange
    decreases config.to - next, size
  {
    var high := InclusiveEnd(next, size, config.to);
    var requested: uint64 := high - next + 1;
    var received := ask(next, high);
    if received.Err? && received.error.RpcFailed? && requested > config.minRange then
      Requests(ask, config, next, Shrink(requested, config.minRange))
    else if received.Err? then Err(received.error)
    else if high == config.to then Ok([Piece(next, high, received.value)])
    else Then(Ok([Piece(next, high, received.value)]),
              Requests(ask, config, high + 1, GrowRange(size, config.minRange, config.maxRange)))
  }

  function Emitted(pieces: seq<Piece>): seq<Log> {
    if pieces == [] then [] else Emitted(pieces[..|pieces| - 1]) + pieces[|pieces| - 1].logs
  }

  lemma EmittedNothing()
    ensures Emitted([]) == []
  {
  }

  /** No emission is cancelled. */
  ghost predicate NeverStopped(s: Session) {
    forall low: uint64, high: uint64, i: nat :: !s.cancelled(BeforeLog(low, high, i))
  }

  /** The emitter takes a prefix, and all of it exactly when every log is accepted and nothing is cancelled. */
  lemma {:induction false} DeliveredExactly(
    s: Session, accept: Log -> bool, low: uint64, high: uint64, logs: seq<Log>, i: nat)
    requires i <= |logs|
    ensures var d := Delivered(s, accept, low, high, logs, i);
            && d.logs <= logs[i..]
            && (d.error.None? <==>
                  forall k | i <= k < |logs| :: accept(logs[k]) && !s.cancelled(BeforeLog(low, high, k)))
            && (d.error.None? ==> d.logs == logs[i..])
            && (d.error.Some? ==> d.error.value.CancelledByCaller? || d.error.value.Disconnected?)
            && (d.error == Some(CancelledByCaller) ==> !NeverStopped(s))
    decreases |logs| - i
  {
    if i < |logs| {
      DeliveredExactly(s, accept, low, high, logs, i + 1);
      assert logs[i..] == [logs[i]] + logs[i + 1..];
    }
  }

  /** Hands the sorted logs of one answer to the emitter, which refuses a log by answering false. */
  method Emit(s: Session, accept: Log -> bool, low: uint64, high: uint64, before: seq<Log>, logs: seq<Log>)
    returns (emitted: seq<Log>, error: Option<IndexError>)
    ensures var d := Delivered(s, accept, low, high, logs, 0);
            emitted == before + d.logs && error == d.error
  {
    emitted := before;
    ghost var all := Delivered(s, accept, low, high, logs, 0);
    for i := 0 to |logs|
      invariant emitted + Delivered(s, accept, low, high, logs, i).logs == before + all.logs
      invariant Delivered(s, accept, low, high, logs, i).error == all.error
    {
      assert emitted + [] == emitted;
      if s.cancelled(BeforeLog(low, high, i)) { return emitted, Some(CancelledByCaller); }
      if !accept(logs[i]) { return emitted, Some(Disconnected); }
      Assoc(emitted, [logs[i]], Delivered(s, accept, low, high, logs, i + 1).logs);
      emitted := emitted + [logs[i]];
    }
    assert emitted + [] == emitted;
    error := None;
  }

  /** What one request hands to the emitter, whether or not it succeeds. */
  function Handed(s: Session, accept: Log -> bool, low: uint64, high: uint64): seq<Log> {
    match s.logsInRange(low, high)
    case Answer(logs) => Delivered(s, accept, low, high, Sort(AtOrBefore, logs), 0).logs
    case _ => []
  }

  lemma HandedIsReceived(s: Session, accept: Log -> bool, low: uint64, high: uint64)
    ensures match Received(s, accept)(low, high)
            case Ok(logs) => Handed(s, accept, low, high) == logs
            case Err(e) => e.RpcFailed? ==> Handed(s, accept, low, high) == []
  {
    if s.logsInRange(low, high).Answer? {
      var sorted := Sort(AtOrBefore, s.logsInRange(low, high).value);
      DeliveredExactly(s, accept, low, high, sorted, 0);
      assert sorted[0..] == sorted;
    }
  }

  /** One request of the loop: its logs are sorted in place and emitted. */
  method Request(s: Session, accept: Log -> bool, before: seq<Log>, low: uint64, high: uint64)
    returns (emitted: seq<Log>, error: Option<IndexError>)
    ensures emitted == before + Handed(s, accept, low, high)
    ensures match Received(s, accept)(low, high)
            case Ok(_) => error.None?
            case Err(e) => error == Some(e)
  {
    var reply := s.logsInRange(low, high);
    assert before + [] == before;
    if reply.Cancelled? { return before, Some(CancelledByCaller); }
    if reply.Failed? { return before, Some(RpcFailed); }
    emitted, error := Emit(s, accept, low, high, before, Sort(AtOrBefore, reply.value));
  }

  /** Everything the emitter is handed from block `next` on, including what a failing backfill handed over before. */
  function Emission(s: Session, accept: Log -> bool, config: Config, next: uint64, size: uint64): seq<Log>
    requires config.Valid() && config.from <= next <= config.to && config.minRange <= size <= config.maxRange
    decreases config.to - next, size
  {
    var high := InclusiveEnd(next, size, config.to);
    var requested: uint64 := high - next + 1;
    var received := Received(s, accept)(next, high);
    if received.Err? && received.error.RpcFailed? && requested > config.minRange then
      Emission(s, accept, config, next, Shrink(requested, config.minRange))
    else if received.Err? || high == config.to then Handed(s, accept, next, high)
    else
      Handed(s, accept, next, high)
      + Emission(s, accept, config, high + 1, GrowRange(size, config.minRange, config.maxRange))
  }

  /** What the next request does to the rest of the backfill. */
  lemma RequestsStep(ask: Ask, config: Config, next: uint64, size: uint64)
    requires config.Valid() && config.from <= next <= config.to && config.minRange <= size <= config.maxRange
    ensures var high := InclusiveEnd(next, size, config.to);
            var requested, received := high - next + 1, ask(next, high);
            Requests(ask, config, next, size) ==
              if received.Err? then
                if received.error.RpcFailed? && requested > config.minRange
                then Requests(ask, config, next, Shrink(requested, config.minRange))
                else Err(received.error)
              else if high == config.to then Ok([Piece(next, high, received.value)])
              else Then(Ok([Piece(next, high, received.value)]),
                        Requests(ask, config, high + 1, GrowRange(size, config.minRange, config.maxRange)))
  {
    hide InclusiveEnd, GrowRange, Shrink;
  }

  lemma EmissionStep(s: Session, accept: Log -> bool, config: Config, next: uint64, size: uint64)
    requires config.Valid() && config.from <= next <= config.to && config.minRange <= size <= config.maxRange
    ensures var high := InclusiveEnd(next, size, config.to);
            var requested, received := high - next + 1, Received(s, accept)(next, high);
            Emission(s, accept, config, next, size) ==
              if received.Err? && received.error.RpcFailed? && requested > config.minRange then
                Emission(s, accept, config, next, Shrink(requested, config.minRange))
              else if received.Err? || high == config.to then Handed(s, accept, next, high)
              else
                Handed(s, accept, next, high)
                + Emission(s, accept, config, high + 1, GrowRange(size, config.minRange, config.maxRange))
  {
    hide InclusiveEnd, GrowRange, Shrink, Received, Handed;
  }

  /** Backfiller.Backfill: everything handed to the emitter, and the error that ended the loop. */
  method Run(s: Session, accept: Log -> bool, config: Config) returns (emitted: seq<Log>, error: Option<IndexError>)
    requires config.Valid()
    ensures emitted == Emission(s, accept, config, config.from, config.maxRange)
    ensures match Requests(Received(s, accept), config, config.from, config.maxRange)
            case Ok(_) => error.None?
            case Err(e) => error == Some(e)
  {
    hide Received, InclusiveEnd, GrowRange, Shrink, Requests, Emission, Handed;
    ghost var ask := Received(s, accept);
    var next, size := config.from, config.maxRange;
    emitted := [];
    ghost var all := Emission(s, accept, config, next, size);
    assert emitted + all == all;
    while true
      invariant config.from <= next <= config.to && config.minRange <= size <= config.maxRange
      invariant emitted + Emission(s, accept, config, next, size) == all
      invariant SameEnd(Requests(ask, config, config.from, config.maxRange), Requests(ask, config, next, size))
      decreases config.to - next, size
    {
      var to := InclusiveEnd(next, size, config.to);
      ghost var before := emitted;
      RequestsStep(ask, config, next, size);
      EmissionStep(s, accept, config, next, size);
      HandedIsReceived(s, accept, next, to);
      emitted, error := Request(s, accept, emitted, next, to);
      if error.Some? {
        var requestedSize := to - next + 1;
        if !error.value.RpcFailed? || requestedSize <= config.minRange { return; }
        assert before + [] == before;
        size := Shrink(requestedSize, config.minRange);
        continue;
      }
      if to == config.to { return; }
      size := GrowRange(size, config.minRange, config.maxRange);
      Assoc(before, Handed(s, accept, next, to), Emission(s, accept, config, to + 1, size));
      next := to + 1;
    }
  }

  /** Two fetches succeed together or fail with one error. */
  predicate SameEnd(a: Fetch, b: Fetch) {
    if a.Ok? then b.Ok? else a == b
  }

  lemma {:induction false} EmittedCons(piece: Piece, pieces: seq<Piece>)
    ensures Emitted([piece] + pieces) == piece.logs + Emitted(pieces)
  {
    if pieces == [] {
      assert [piece] + [] == [piece] && [piece][..0] == [];
      assert [] + piece.logs == piece.logs + [];
    } else {
      var init, last := pieces[..|pieces| - 1], pieces[|pieces| - 1];
      EmittedCons(piece, init);
      assert ([piece] + pieces)[..|pieces|] == [piece] + init;
      Assoc(piece.logs, Emitted(init), last.logs);
    }
  }

  /** A successful backfill emits the logs of its pieces and nothing else. */
  lemma {:induction false} SuccessEmitsThePieces(s: Session, accept: Log -> bool, config: Config, next: uint64,
      size: uint64)
    requires config.Valid() && config.from <= next <= config.to && config.minRange <= size <= config.maxRange
    requires Requests(Received(s, accept), config, next, size).Ok?
    ensures Emission(s, accept, config, next, size) == Emitted(Requests(Received(s, accept), config, next, size).value)
    decreases config.to - next, size
  {
    hide InclusiveEnd, GrowRange, Shrink, Received, Handed, Emitted, Requests, Emission;
    var ask := Received(s, accept);
    var high := InclusiveEnd(next, size, config.to);
    RequestsStep(ask, config, next, size);
    EmissionStep(s, accept, config, next, size);
    HandedIsReceived(s, accept, next, high);
    if ask(next, high).Err? {
      SuccessEmitsThePieces(s, accept, config, next, Shrink(high - next + 1, config.minRange));
    } else {
      var piece := Piece(next, high, ask(next, high).value);
      if high == config.to {
        EmittedCons(piece, []);
        EmittedNothing();
        assert [piece] + [] == [piece] && piece.logs + [] == piece.logs;
      } else {
        var grown := GrowRange(size, config.minRange, config.maxRange);
        SuccessEmitsThePieces(s, accept, config, high + 1, grown);
        EmittedCons(piece, Requests(ask, config, high + 1, grown).value);
      }
    }
  }

  // ----- Exactness -----

  /** The pieces tile `low` to `high`: contiguous, in order, no piece larger than the configured maximum. */
  ghost predicate Tiles(pieces: seq<Piece>, low: nat, high: nat, maxRange: nat) {
    && pieces != [] && pieces[0].low == low && pieces[|pieces| - 1].high == high
    && (forall i | 0 <= i < |pieces| :: pieces[i].low <= pieces[i].high && pieces[i].high - pieces[i].low < maxRange)
    && (forall i | 1 <= i < |pieces| :: pieces[i].low == pieces[i - 1].high + 1)
  }

  /** Each piece holds exactly what the provider answered for its range, accepted and in canonical order. */
  ghost predicate Faithful(s: Session, accept: Log -> bool, p: Piece) {
    && s.logsInRange(p.low, p.high).Answer?
    && multiset(p.logs) == multiset(s.logsInRange(p.low, p.high).value)
    && Sorted(AtOrBefore, p.logs)
    && AllAccepted(accept, p.logs)
  }

  ghost predicate AllFaithful(s: Session, accept: Log -> bool, pieces: seq<Piece>) {
    forall i | 0 <= i < |pieces| :: Faithful(s, accept, pieces[i])
  }

  lemma TilesCons(p: Piece, pieces: seq<Piece>, high: nat, maxRange: nat)
    requires p.low <= p.high && p.high - p.low < maxRange
    requires Tiles(pieces, p.high + 1, high, maxRange)
    ensures Tiles([p] + pieces, p.low, high, maxRange)
  {
    var all := [p] + pieces;
    assert forall i | 1 <= i < |all| :: all[i] == pieces[i - 1];
  }

  /** Every piece is the answer to the request for its range. */
  ghost predicate Answered(ask: Ask, pieces: seq<Piece>) {
    forall i | 0 <= i < |pieces| :: ask(pieces[i].low, pieces[i].high) == Ok(pieces[i].logs)
  }

  lemma TilesOne(p: Piece, maxRange: nat)
    requires p.low <= p.high && p.high - p.low < maxRange
    ensures Tiles([p], p.low, p.high, maxRange)
  {
  }

  lemma {:induction false} RequestsTile(ask: Ask, config: Config, next: uint64, size: uint64)
    requires config.Valid() && config.from <= next <= config.to && config.minRange <= size <= config.maxRange
    requires Requests(ask, config, next, size).Ok?
    ensures Tiles(Requests(ask, config, next, size).value, next, config.to, config.maxRange)
    ensures Answered(ask, Requests(ask, config, next, size).value)
    decreases config.to - next, size
  {
    hide InclusiveEnd, GrowRange, Shrink, Tiles, Requests;
    RequestsStep(ask, config, next, size);
    var high := InclusiveEnd(next, size, config.to);
    var received := ask(next, high);
    if received.Err? {
      RequestsTile(ask, config, next, Shrink(high - next + 1, config.minRange));
    } else if high < config.to {
      var grown := GrowRange(size, config.minRange, config.maxRange);
      RequestsTile(ask, config, high + 1, grown);
      TilesCons(Piece(next, high, received.value), Requests(ask, config, high + 1, grown).value, config.to,
        config.maxRange);
    } else {
      TilesOne(Piece(next, high, received.value), config.maxRange);
    }
  }

  lemma AnsweredIsFaithful(s: Session, accept: Log -> bool, pieces: seq<Piece>)
    requires Answered(Received(s, accept), pieces)
    ensures AllFaithful(s, accept, pieces)
  {
    OrdersAreTotal();
    forall i | 0 <= i < |pieces|
      ensures Faithful(s, accept, pieces[i])
    {
      var p := pieces[i];
      assert Received(s, accept)(p.low, p.high) == Ok(p.logs);
      DeliveredExactly(s, accept, p.low, p.high, p.logs, 0);
      SortPermutes(AtOrBefore, s.logsInRange(p.low, p.high).value);
      SortSorts(AtOrBefore, s.logsInRange(p.low, p.high).value);
    }
  }

  /** A successful backfill tiles its range with faithful answers, whatever failed on the way. */
  lemma BackfillTilesTheRange(s: Session, accept: Log -> bool, config: Config)
    requires config.Valid() && Requests(Received(s, accept), config, config.from, config.maxRange).Ok?
    ensures var pieces := Requests(Received(s, accept), config, config.from, config.maxRange).value;
            Tiles(pieces, config.from, config.to, config.maxRange) && AllFaithful(s, accept, pieces)
  {
    RequestsTile(Received(s, accept), config, config.from, config.maxRange);
    AnsweredIsFaithful(s, accept, Requests(Received(s, accept), config, config.from, config.maxRange).value);
  }

  /** No request as small as the backfill can make it is failed, and none is cancelled. */
  ghost predicate ServesSmallRanges(ask: Ask, minRange: nat) {
    forall low: uint64, high: uint64 | low <= high && ask(low, high).Err? ::
      var error := ask(low, high).error;
      error.Disconnected? || (error.RpcFailed? && high - low >= minRange)
  }

  /** Shrinking is enough: if every smallest request is served, only a refused log can stop the backfill. */
  lemma {:induction false} SmallRangesSuffice(ask: Ask, config: Config, next: uint64, size: uint64)
    requires config.Valid() && config.from <= next <= config.to && config.minRange <= size <= config.maxRange
    requires ServesSmallRanges(ask, config.minRange)
    ensures Requests(ask, config, next, size).Err? ==> Requests(ask, config, next, size).error.Disconnected?
    decreases config.to - next, size
  {
    hide InclusiveEnd, GrowRange, Shrink, Requests;
    RequestsStep(ask, config, next, size);
    var high := InclusiveEnd(next, size, config.to);
    var received := ask(next, high);
    if received.Err? {
      if received.error.RpcFailed? {
        SmallRangesSuffice(ask, config, next, Shrink(high - next + 1, config.minRange));
      }
    } else if high < config.to {
      SmallRangesSuffice(ask, config, high + 1, GrowRange(size, config.minRange, config.maxRange));
    }
  }

  /** If no request inside the range is refused by the emitter, the backfill does not end in a refusal. */
  lemma {:induction false} NeverRefused(ask: Ask, config: Config, next: uint64, size: uint64)
    requires config.Valid() && config.from <= next <= config.to && config.minRange <= size <= config.maxRange
    requires forall low: uint64, high: uint64 | config.from <= low <= high <= config.to && ask(low, high).Err? ::
               !ask(low, high).error.Disconnected?
    ensures Requests(ask, config, next, size).Err? ==> !Requests(ask, config, next, size).error.Disconnected?
    decreases config.to - next, size
  {
    hide GrowRange, Shrink, Requests;
    RequestsStep(ask, config, next, size);
    var high := InclusiveEnd(next, size, config.to);
    var received := ask(next, high);
    if received.Err? {
      if received.error.RpcFailed? && high - next + 1 > config.minRange {
        NeverRefused(ask, config, next, Shrink(high - next + 1, config.minRange));
      }
    } else if high < config.to {
      NeverRefused(ask, config, high + 1, GrowRange(size, config.minRange, config.maxRange));
    }
  }

  /** What ends a backfill early: the answer, or the lack of one, to a request inside its range. */
  ghost predicate Ends(s: Session, accept: Log -> bool, config: Config, low: uint64, high: uint64, e: IndexError) {
    && config.from <= low <= high <= config.to
    && match e
       case CancelledByCaller =>
         s.logsInRange(low, high).Cancelled? || exists i: nat :: s.cancelled(BeforeLog(low, high, i))
       case RpcFailed => s.logsInRange(low, high).Failed? && high - low < config.minRange
       case Disconnected =>
         s.logsInRange(low, high).Answer? && exists x :: x in s.logsInRange(low, high).value && !accept(x)
       case _ => false
  }

  lemma RefusedIsAnswered(s: Session, accept: Log -> bool, config: Config, low: uint64, high: uint64)
    requires config.from <= low <= high <= config.to
    requires var received := Received(s, accept)(low, high);
             received.Err? && (received.error.RpcFailed? ==> high - low < config.minRange)
    ensures Ends(s, accept, config, low, high, Received(s, accept)(low, high).error)
  {
    if s.logsInRange(low, high).Answer? {
      var answer := s.logsInRange(low, high).value;
      var sorted := Sort(AtOrBefore, answer);
      SortPermutes(AtOrBefore, answer);
      DeliveryEnds(s, accept, low, high, sorted, 0);
      if !AllAccepted(accept, sorted) {
        var i :| 0 <= i < |sorted| && !accept(sorted[i]);
        assert sorted[i] in multiset(sorted) && sorted[i] in multiset(answer);
      }
    }
  }

  /** An emission that ends early was cancelled before some log, or met a log that is not accepted. */
  lemma {:induction false} DeliveryEnds(
    s: Session, accept: Log -> bool, low: uint64, high: uint64, logs: seq<Log>, i: nat)
    requires i <= |logs|
    ensures var error := Delivered(s, accept, low, high, logs, i).error;
            || error.None?
            || (error == Some(CancelledByCaller) && exists k: nat :: s.cancelled(BeforeLog(low, high, k)))
            || (error == Some(Disconnected) && !AllAccepted(accept, logs))
    decreases |logs| - i
  {
    if i < |logs| { DeliveryEnds(s, accept, low, high, logs, i + 1); }
  }

  /**
    A backfill that fails has a cause inside its range: a cancelled request or
    emission, a failed request that could not be made smaller, or a log the emitter
    refuses; and the error says which.
   */
  lemma {:induction false} FailureHasACause(
    s: Session, accept: Log -> bool, config: Config, next: uint64, size: uint64)
    requires config.Valid() && config.from <= next <= config.to && config.minRange <= size <= config.maxRange
    ensures var fetch := Requests(Received(s, accept), config, next, size);
            fetch.Err? ==> exists low: uint64, high: uint64 :: Ends(s, accept, config, low, high, fetch.error)
    decreases config.to - next, size
  {
    hide GrowRange, Shrink, Requests, Received, Ends;
    var ask := Received(s, accept);
    var high := InclusiveEnd(next, size, config.to);
    RequestsStep(ask, config, next, size);
    if ask(next, high).Err? {
      if ask(next, high).error.RpcFailed? && high - next + 1 > config.minRange {
        FailureHasACause(s, accept, config, next, Shrink(high - next + 1, config.minRange));
      } else {
        RefusedIsAnswered(s, accept, config, next, high);
      }
    } else if high < config.to {
      FailureHasACause(s, accept, config, high + 1, GrowRange(size, config.minRange, config.maxRange));
    }
  }

  // ----- An honest provider -----

  /** No range query is cancelled, nor its emission, and those of at most `minRange` blocks are answered. */
  ghost predicate AnswersSmallRanges(s: Session, minRange: nat) {
    && (forall low: uint64, high: uint64 | low <= high ::
          !s.logsInRange(low, high).Cancelled? && (high - low < minRange ==> s.logsInRange(low, high).Answer?))
    && NeverStopped(s)
  }

  /** Such a backfill of an honest chain completes, whatever larger requests fail. */
  lemma HonestRequestsComplete(s: Session, accept: Log -> bool, config: Config, all: seq<Log>)
    requires config.Valid() && ServesLogs(s, all) && AnswersSmallRanges(s, config.minRange)
    requires forall x: Log | config.from <= x.blockNumber <= config.to :: accept(x)
    ensures Requests(Received(s, accept), config, config.from, config.maxRange).Ok?
  {
    hide Requests;
    var ask := Received(s, accept);
    forall low: uint64, high: uint64 | config.from <= low <= high <= config.to && ask(low, high).Err?
      ensures !ask(low, high).error.Disconnected?
    {
      HonestAnswerAccepted(s, accept, all, low, high);
    }
    forall low: uint64, high: uint64 | low <= high && ask(low, high).Err?
      ensures ask(low, high).error.Disconnected? || (ask(low, high).error.RpcFailed? && high - low >= config.minRange)
    {
      UncancelledRequest(s, accept, low, high);
    }
    assert ServesSmallRanges(ask, config.minRange);
    NeverRefused(ask, config, config.from, config.maxRange);
    SmallRangesSuffice(ask, config, config.from, config.maxRange);
  }

  lemma UncancelledRequest(s: Session, accept: Log -> bool, low: uint64, high: uint64)
    requires NeverStopped(s) && !s.logsInRange(low, high).Cancelled? && Received(s, accept)(low, high).Err?
    ensures var error := Received(s, accept)(low, high).error;
            error.Disconnected? || (error.RpcFailed? && s.logsInRange(low, high).Failed?)
  {
    if s.logsInRange(low, high).Answer? {
      DeliveredExactly(s, accept, low, high, Sort(AtOrBefore, s.logsInRange(low, high).value), 0);
    }
  }

  lemma HonestAnswerAccepted(s: Session, accept: Log -> bool, all: seq<Log>, low: uint64, high: uint64)
    requires ServesLogs(s, all) && NeverStopped(s) && low <= high
    requires forall x: Log | low <= x.blockNumber <= high :: accept(x)
    ensures s.logsInRange(low, high).Answer? ==> Received(s, accept)(low, high).Ok?
  {
    if s.logsInRange(low, high).Answer? {
      var sorted := Sort(AtOrBefore, s.logsInRange(low, high).value);
      SortPermutes(AtOrBefore, s.logsInRange(low, high).value);
      forall i | 0 <= i < |sorted|
        ensures accept(sorted[i])
      {
        assert sorted[i] in multiset(sorted);
        BetweenCounts(all, low, high, sorted[i]);
      }
      DeliveredExactly(s, accept, low, high, sorted, 0);
    }
  }

  /** Every answered range query reports the logs `all` has in that range, each once, in any arrangement. */
  ghost predicate ServesLogs(s: Session, all: seq<Log>) {
    forall low: uint64, high: uint64 | low <= high && s.logsInRange(low, high).Answer? ::
      multiset(s.logsInRange(low, high).value) == multiset(Between(all, low, high))
  }

  lemma BetweenJoins(all: seq<Log>, low: nat, mid: nat, high: nat)
    requires low <= mid <= high
    ensures multiset(Between(all, low, mid)) + multiset(Between(all, mid + 1, high))
      == multiset(Between(all, low, high))
  {
    forall x
      ensures (multiset(Between(all, low, mid)) + multiset(Between(all, mid + 1, high)))[x]
           == multiset(Between(all, low, high))[x]
    {
      BetweenCounts(all, low, mid, x);
      BetweenCounts(all, mid + 1, high, x);
      BetweenCounts(all, low, high, x);
    }
  }

  /** Every piece holds the logs `all` has in its range, in order. */
  ghost predicate AllCollected(all: seq<Log>, pieces: seq<Piece>) {
    forall i | 0 <= i < |pieces| ::
      && multiset(pieces[i].logs) == multiset(Between(all, pieces[i].low, pieces[i].high))
      && Sorted(AtOrBefore, pieces[i].logs)
  }

  lemma PiecesCollect(s: Session, accept: Log -> bool, all: seq<Log>, pieces: seq<Piece>)
    requires ServesLogs(s, all) && AllFaithful(s, accept, pieces)
    requires forall i | 0 <= i < |pieces| :: pieces[i].low <= pieces[i].high
    ensures AllCollected(all, pieces)
  {
    forall i | 0 <= i < |pieces|
      ensures multiset(pieces[i].logs) == multiset(Between(all, pieces[i].low, pieces[i].high))
      ensures Sorted(AtOrBefore, pieces[i].logs)
    {
      assert Faithful(s, accept, pieces[i]);
    }
  }

  lemma TilesInit(pieces: seq<Piece>, low: nat, high: nat, maxRange: nat)
    requires Tiles(pieces, low, high, maxRange) && |pieces| > 1
    ensures Tiles(pieces[..|pieces| - 1], low, pieces[|pieces| - 2].high, maxRange)
    ensures pieces[|pieces| - 1].low == pieces[|pieces| - 2].high + 1 <= high == pieces[|pieces| - 1].high
  {
  }

  lemma CollectedInit(all: seq<Log>, pieces: seq<Piece>)
    requires AllCollected(all, pieces) && pieces != []
    ensures AllCollected(all, pieces[..|pieces| - 1])
    ensures var last := pieces[|pieces| - 1];
            multiset(last.logs) == multiset(Between(all, last.low, last.high)) && Sorted(AtOrBefore, last.logs)
  {
  }

  lemma {:induction false} TilesCollect(all: seq<Log>, pieces: seq<Piece>, low: nat, high: nat, maxRange: nat)
    requires Tiles(pieces, low, high, maxRange) && AllCollected(all, pieces)
    ensures low <= high
    ensures multiset(Emitted(pieces)) == multiset(Between(all, low, high))
    ensures Sorted(AtOrBefore, Emitted(pieces))
    decreases |pieces|
  {
    hide Between, Sorted, AllCollected;
    var n := |pieces| - 1;
    CollectedInit(all, pieces);
    EmittedStep(pieces);
    if n == 0 {
      assert pieces[..0] == [] && Emitted([]) == [];
    } else {
      TilesInit(pieces, low, high, maxRange);
      TilesCollect(all, pieces[..n], low, pieces[n - 1].high, maxRange);
      JoinCollected(all, Emitted(pieces[..n]), pieces[n].logs, low, pieces[n - 1].high, high);
    }
  }

  lemma EmittedStep(pieces: seq<Piece>)
    requires pieces != []
    ensures Emitted(pieces) == Emitted(pieces[..|pieces| - 1]) + pieces[|pieces| - 1].logs
    ensures |pieces| == 1 ==> Emitted(pieces) == pieces[0].logs
  {
    if |pieces| == 1 { assert pieces[..0] == [] && [] + pieces[0].logs == pieces[0].logs; }
  }

  lemma JoinCollected(all: seq<Log>, a: seq<Log>, b: seq<Log>, low: nat, mid: nat, high: nat)
    requires low <= mid <= high && Sorted(AtOrBefore, a) && Sorted(AtOrBefore, b)
    requires multiset(a) == multiset(Between(all, low, mid)) && multiset(b) == multiset(Between(all, mid + 1, high))
    ensures multiset(a + b) == multiset(Between(all, low, high))
    ensures Sorted(AtOrBefore, a + b)
  {
    BetweenJoins(all, low, mid, high);
    forall x, y | x in a && y in b
      ensures AtOrBefore(x, y)
    {
      assert x in multiset(a) && y in multiset(b);
      BetweenCounts(all, low, mid, x);
      BetweenCounts(all, mid + 1, high, y);
    }
    SortedConcat(a, b);
  }

  lemma SortedConcat(a: seq<Log>, b: seq<Log>)
    requires Sorted(AtOrBefore, a) && Sorted(AtOrBefore, b)
    requires forall x, y | x in a && y in b :: AtOrBefore(x, y)
    ensures Sorted(AtOrBefore, a + b)
  {
    forall i, j | 0 <= i < j < |a + b|
      ensures AtOrBefore((a + b)[i], (a + b)[j])
    {
      if i < |a| <= j {
        assert a[i] in a && b[j - |a|] in b;
      }
    }
  }

  /**
    Against an honest provider every success emits each log of the range exactly
    once and in canonical order, so all successful runs, whatever their range
    sizes and failures, emit the same sequence.
   */
  lemma BackfillExact(s: Session, accept: Log -> bool, config: Config, all: seq<Log>)
    requires config.Valid() && ServesLogs(s, all)
    requires Requests(Received(s, accept), config, config.from, config.maxRange).Ok?
    ensures var emitted := Emitted(Requests(Received(s, accept), config, config.from, config.maxRange).value);
            var wanted := Between(all, config.from, config.to);
            && multiset(emitted) == multiset(wanted)
            && Sorted(AtOrBefore, emitted)
            && (Distinguishes(AtOrBefore, multiset(wanted)) ==> emitted == Sort(AtOrBefore, wanted))
  {
    BackfillTilesTheRange(s, accept, config);
    var pieces := Requests(Received(s, accept), config, config.from, config.maxRange).value;
    PiecesCollect(s, accept, all, pieces);
    TilesCollect(all, pieces, config.from, config.to, config.maxRange);
    var wanted := Between(all, config.from, config.to);
    OrdersAreTotal();
    SortPermutes(AtOrBefore, wanted);
    SortSorts(AtOrBefore, wanted);
    if Distinguishes(AtOrBefore, multiset(wanted)) {
      SortedIsUnique(AtOrBefore, Emitted(pieces), Sort(AtOrBefore, wanted), multiset(wanted));
    }
  }

  /** Sorted, and nothing but logs of the blocks `low` to `high`, none more often than there. */
  ghost predicate PartOf(all: seq<Log>, logs: seq<Log>, low: nat, high: nat) {
    Sorted(AtOrBefore, logs) && multiset(logs) <= multiset(Between(all, low, high))
  }

  lemma PrefixIsPart(sorted: seq<Log>, taken: seq<Log>)
    requires Sorted(AtOrBefore, sorted) && taken <= sorted
    ensures Sorted(AtOrBefore, taken) && multiset(taken) <= multiset(sorted)
  {
    hide AtOrBefore;
    assert sorted == taken + sorted[|taken|..];
  }

  lemma NothingIsSorted()
    ensures Sorted(AtOrBefore, [])
  {
  }

  lemma HandedIsPart(s: Session, accept: Log -> bool, all: seq<Log>, low: uint64, high: uint64)
    requires ServesLogs(s, all) && low <= high
    ensures PartOf(all, Handed(s, accept, low, high), low, high)
  {
    hide Sorted, Sort, Between, Delivered;
    NothingIsSorted();
    if s.logsInRange(low, high).Answer? {
      var logs := s.logsInRange(low, high).value;
      var sorted := Sort(AtOrBefore, logs);
      OrdersAreTotal();
      SortPermutes(AtOrBefore, logs);
      SortSorts(AtOrBefore, logs);
      DeliveredExactly(s, accept, low, high, sorted, 0);
      assert sorted[0..] == sorted;
      PrefixIsPart(sorted, Delivered(s, accept, low, high, sorted, 0).logs);
    }
  }

  lemma PartsJoin(all: seq<Log>, a: seq<Log>, b: seq<Log>, low: nat, mid: nat, high: nat)
    requires low <= mid <= high && PartOf(all, a, low, mid) && PartOf(all, b, mid + 1, high)
    ensures PartOf(all, a + b, low, high)
  {
    BetweenJoins(all, low, mid, high);
    forall x, y | x in a && y in b
      ensures AtOrBefore(x, y)
    {
      assert x in multiset(a) && y in multiset(b);
      BetweenCounts(all, low, mid, x);
      BetweenCounts(all, mid + 1, high, y);
    }
    SortedConcat(a, b);
  }

  lemma PartWidens(all: seq<Log>, a: seq<Log>, low: nat, mid: nat, high: nat)
    requires low <= mid <= high && PartOf(all, a, low, mid)
    ensures PartOf(all, a, low, high)
  {
    if mid < high {
      assert a + [] == a;
      PartsJoin(all, a, [], low, mid, high);
    }
  }

  /**
    However a backfill against an honest provider ends, what it has emitted by then
    is in canonical order and repeats no log: no retry emits anything twice.
   */
  lemma {:induction false} EmissionInOrder(
    s: Session, accept: Log -> bool, all: seq<Log>, config: Config, next: uint64, size: uint64)
    requires config.Valid() && config.from <= next <= config.to && config.minRange <= size <= config.maxRange
    requires ServesLogs(s, all)
    ensures PartOf(all, Emission(s, accept, config, next, size), next, config.to)
    decreases config.to - next, size
  {
    hide InclusiveEnd, GrowRange, Shrink, Received, Handed, Emission, PartOf, ServesLogs;
    var high := InclusiveEnd(next, size, config.to);
    var received := Received(s, accept)(next, high);
    EmissionStep(s, accept, config, next, size);
    HandedIsPart(s, accept, all, next, high);
    if received.Err? && received.error.RpcFailed? && high - next + 1 > config.minRange {
      EmissionInOrder(s, accept, all, config, next, Shrink(high - next + 1, config.minRange));
    } else if received.Err? || high == config.to {
      PartWidens(all, Handed(s, accept, next, high), next, high, config.to);
    } else {
      var grown := GrowRange(size, config.minRange, config.maxRange);
      EmissionInOrder(s, accept, all, config, high + 1, grown);
      PartsJoin(all, Handed(s, accept, next, high), Emission(s, accept, config, high + 1, grown), next, high,
        config.to);
    }
  }
}
