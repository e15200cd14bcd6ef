/** contracts/src/BellwetherMarketFixture.sol: the market lifecycle and the event logs it can emit. */
module Fixture {
  import opened Types
  import opened Codec

  type uint256 = n: nat | n < TWO256

  /** id == bytes32(0) */
  predicate IsZero(id: Bytes32) {
    forall i | 0 <= i < 32 :: id[i] == 0
  }

  datatype Market = Market(
    resolutionTime: uint64, present: bool, resolved: bool, outcome: bool, yesReserve: uint256, noReserve: uint256)

  type Markets = map<Bytes32, Market>

  datatype Revert =
    | ZeroMarketId | ZeroReserve | ZeroAmount | InvalidResolutionTime
    | MarketAlreadyExists(id: Bytes32) | MarketNotFound(id: Bytes32) | MarketAlreadyResolved(id: Bytes32)
    | MarketClosed(id: Bytes32) | ResolutionPending(id: Bytes32)

  /** A Solidity mapping has a zero entry for every key that was never written. */
  function At(markets: Markets, id: Bytes32): Market {
    if id in markets then markets[id] else Market(0, false, false, false, 0, 0)
  }

  // ----- What one call does -----

  datatype Call =
    | CreateMarket(id: Bytes32, resolutionTime: uint64, yesReserve: uint256, noReserve: uint256)
    | SetLiquidity(id: Bytes32, yesReserve: uint256, noReserve: uint256)
    | RecordTrade(id: Bytes32, sender: Bytes20, yes: bool, amount: uint256, yesReserve: uint256, noReserve: uint256)
    | ResolveMarket(id: Bytes32, outcome: bool)

  function ExistingFault(markets: Markets, id: Bytes32): Option<Revert> {
    if IsZero(id) then Some(ZeroMarketId)
    else if !At(markets, id).present then Some(MarketNotFound(id))
    else None
  }

  function OpenFault(markets: Markets, now: uint64, id: Bytes32): Option<Revert> {
    if ExistingFault(markets, id).Some? then ExistingFault(markets, id)
    else if At(markets, id).resolved then Some(MarketAlreadyResolved(id))
    else if now >= At(markets, id).resolutionTime then Some(MarketClosed(id))
    else None
  }

  function Fault(markets: Markets, now: uint64, call: Call): Option<Revert> {
    match call
    case CreateMarket(id, resolutionTime, yesReserve, noReserve) =>
      if IsZero(id) then Some(ZeroMarketId)
      else if yesReserve == 0 || noReserve == 0 then Some(ZeroReserve)
      else if resolutionTime <= now then Some(InvalidResolutionTime)
      else if At(markets, id).present then Some(MarketAlreadyExists(id))
      else None
    case SetLiquidity(id, yesReserve, noReserve) =>
      if yesReserve == 0 || noReserve == 0 then Some(ZeroReserve) else OpenFault(markets, now, id)
    case RecordTrade(id, _, _, amount, yesReserve, noReserve) =>
      if amount == 0 then Some(ZeroAmount)
      else if yesReserve == 0 || noReserve == 0 then Some(ZeroReserve)
      else OpenFault(markets, now, id)
    case ResolveMarket(id, _) =>
      if ExistingFault(markets, id).Some? then ExistingFault(markets, id)
      else if At(markets, id).resolved then Some(MarketAlreadyResolved(id))
      else if now < At(markets, id).resolutionTime then Some(ResolutionPending(id))
      else None
  }

  function Effect(markets: Markets, call: Call): Markets {
    var m := At(markets, call.id);
    match call
    case CreateMarket(id, resolutionTime, yesReserve, noReserve) =>
      markets[id := Market(resolutionTime, true, false, false, yesReserve, noReserve)]
    case SetLiquidity(id, yesReserve, noReserve) => markets[id := m.(yesReserve := yesReserve, noReserve := noReserve)]
    case RecordTrade(id, _, _, _, yesReserve, noReserve) =>
      markets[id := m.(yesReserve := yesReserve, noReserve := noReserve)]
    case ResolveMarket(id, outcome) => markets[id := m.(resolved := true, outcome := outcome)]
  }

  function Emitted(markets: Markets, call: Call): MarketEvent {
    match call
    case CreateMarket(id, resolutionTime, yesReserve, noReserve) =>
      LiquidityChanged(id, yesReserve, noReserve, resolutionTime)
    case SetLiquidity(id, yesReserve, noReserve) =>
      LiquidityChanged(id, yesReserve, noReserve, At(markets, id).resolutionTime)
    case RecordTrade(id, sender, yes, amount, yesReserve, noReserve) =>
      Trade(id, sender, yes, amount, yesReserve, noReserve, At(markets, id).resolutionTime)
    case ResolveMarket(id, outcome) => MarketResolved(id, outcome)
  }

  /** A reverted call changes nothing and emits nothing. */
  ghost predicate Did(before: Markets, now: uint64, call: Call, r: Result<MarketEvent, Revert>, after: Markets) {
    match Fault(before, now, call)
    case Some(revert) => r == Err(revert) && after == before
    case None => r == Ok(Emitted(before, call)) && after == Effect(before, call)
  }

  class Contract {
    var markets: Markets

    constructor ()
      ensures markets == map[]
    {
      markets := map[];
    }

    method Existing(id: Bytes32) returns (r: Result<Market, Revert>)
      ensures r == match ExistingFault(markets, id) case Some(revert) => Err(revert) case None => Ok(At(markets, id))
    {
      if IsZero(id) { return Err(ZeroMarketId); }
      var market := At(markets, id);
      if !market.present { return Err(MarketNotFound(id)); }
      return Ok(market);
    }

    method Open(now: uint64, id: Bytes32) returns (r: Result<Market, Revert>)
      ensures r == match OpenFault(markets, now, id) case Some(revert) => Err(revert) case None => Ok(At(markets, id))
    {
      r := Existing(id);
      if r.Err? { return; }
      if r.value.resolved { return Err(MarketAlreadyResolved(id)); }
      if now >= r.value.resolutionTime { return Err(MarketClosed(id)); }
    }

    method Create(now: uint64, id: Bytes32, resolutionTime: uint64, yesReserve: uint256, noReserve: uint256)
      returns (r: Result<MarketEvent, Revert>)
      modifies this
      ensures Did(old(markets), now, CreateMarket(id, resolutionTime, yesReserve, noReserve), r, markets)
    {
      if IsZero(id) { return Err(ZeroMarketId); }
      if yesReserve == 0 || noReserve == 0 { return Err(ZeroReserve); }
      if resolutionTime <= now { return Err(InvalidResolutionTime); }
      if At(markets, id).present { return Err(MarketAlreadyExists(id)); }
      markets := markets[id := Market(resolutionTime, true, false, false, yesReserve, noReserve)];
      return Ok(LiquidityChanged(id, yesReserve, noReserve, resolutionTime));
    }

    method Set(now: uint64, id: Bytes32, yesReserve: uint256, noReserve: uint256)
      returns (r: Result<MarketEvent, Revert>)
      modifies this
      ensures Did(old(markets), now, SetLiquidity(id, yesReserve, noReserve), r, markets)
    {
      if yesReserve == 0 || noReserve == 0 { return Err(ZeroReserve); }
      var market := Open(now, id);
      if market.Err? { return Err(market.error); }
      markets := markets[id := market.value.(yesReserve := yesReserve, noReserve := noReserve)];
      return Ok(LiquidityChanged(id, yesReserve, noReserve, market.value.resolutionTime));
    }

    method Record(now: uint64, id: Bytes32, sender: Bytes20, yes: bool, amount: uint256, yesReserve: uint256,
        noReserve: uint256)
      returns (r: Result<MarketEvent, Revert>)
      modifies this
      ensures Did(old(markets), now, RecordTrade(id, sender, yes, amount, yesReserve, noReserve), r, markets)
    {
      if amount == 0 { return Err(ZeroAmount); }
      if yesReserve == 0 || noReserve == 0 { return Err(ZeroReserve); }
      var market := Open(now, id);
      if market.Err? { return Err(market.error); }
      markets := markets[id := market.value.(yesReserve := yesReserve, noReserve := noReserve)];
      return Ok(Trade(id, sender, yes, amount, yesReserve, noReserve, market.value.resolutionTime));
    }

    method Resolve(now: uint64, id: Bytes32, outcome: bool) returns (r: Result<MarketEvent, Revert>)
      modifies this
      ensures Did(old(markets), now, ResolveMarket(id, outcome), r, markets)
    {
      var market := Existing(id);
      if market.Err? { return Err(market.error); }
      if market.value.resolved { return Err(MarketAlreadyResolved(id)); }
      if now < market.value.resolutionTime { return Err(ResolutionPending(id)); }
      markets := markets[id := market.value.(resolved := true, outcome := outcome)];
      return Ok(MarketResolved(id, outcome));
    }
  }

  // ----- Runs -----

  datatype Transaction = Transaction(time: uint64, call: Call)

  datatype Emission = Emission(time: uint64, event: MarketEvent)

  datatype Run = Run(markets: Markets, log: seq<Emission>)

  function Execute(run: Run, tx: Transaction): Run {
    if Fault(run.markets, tx.time, tx.call).Some? then run
    else Run(Effect(run.markets, tx.call), run.log + [Emission(tx.time, Emitted(run.markets, tx.call))])
  }

  /** The contract's state and event log after a list of transactions, some of which revert. */
  function RunOf(txs: seq<Transaction>): Run {
    if txs == [] then Run(map[], []) else Execute(RunOf(txs[..|txs| - 1]), txs[|txs| - 1])
  }

  /** Block timestamps never decrease. */
  predicate InTime(txs: seq<Transaction>) {
    forall i, j | 0 <= i < j < |txs| :: txs[i].time <= txs[j].time
  }

  // ----- The event logs of runs -----

  /** What every emission satisfies on its own. */
  predicate EmissionOk(e: Emission) {
    !IsZero(e.event.market)
    && match e.event
       case LiquidityChanged(_, yesReserve, noReserve, resolutionTime) =>
         0 < yesReserve < TWO256 && 0 < noReserve < TWO256 && e.time < resolutionTime
       case Trade(_, _, _, amount, yesReserve, noReserve, resolutionTime) =>
         0 < amount < TWO256 && 0 < yesReserve < TWO256 && 0 < noReserve < TWO256 && e.time < resolutionTime
       case MarketResolved(_, _) => true
  }

  /** What an emission `b` satisfies after an emission `a`: a resolution ends its market, and the schedule is fixed. */
  predicate PairOk(a: Emission, b: Emission) {
    && a.time <= b.time
    && (a.event.market == b.event.market ==>
          && !a.event.MarketResolved?
          && (b.event.MarketResolved? ==> a.event.resolutionTime <= b.time)
          && (!b.event.MarketResolved? ==> a.event.resolutionTime == b.event.resolutionTime))
  }

  predicate WellBehaved(log: seq<Emission>) {
    && (forall i | 0 <= i < |log| :: EmissionOk(log[i]))
    && (forall i, j | 0 <= i < j < |log| :: PairOk(log[i], log[j]))
  }

  predicate Mentions(log: seq<Emission>, id: Bytes32) {
    exists i :: 0 <= i < |log| && log[i].event.market == id
  }

  predicate Ended(log: seq<Emission>, id: Bytes32) {
    exists i :: 0 <= i < |log| && log[i].event.market == id && log[i].event.MarketResolved?
  }

  /** A log from the start of a contract's life: every market is created before anything else happens to it. */
  predicate Complete(log: seq<Emission>) {
    forall i | 0 <= i < |log| :: Mentions(log[..i], log[i].event.market) || log[i].event.LiquidityChanged?
  }

  /** Emission `i` is the last update of its market. */
  predicate LastUpdate(log: seq<Emission>, i: nat) {
    && i < |log| && !log[i].event.MarketResolved?
    && forall j | i < j < |log| && log[j].event.market == log[i].event.market :: log[j].event.MarketResolved?
  }

  /** Each market's stored reserves are those of its last update, and its outcome that of its resolution. */
  ghost predicate Settled(run: Run) {
    && (forall i: nat | LastUpdate(run.log, i) ::
          var e, m := run.log[i].event, At(run.markets, run.log[i].event.market);
          m.yesReserve == e.yesReserve && m.noReserve == e.noReserve)
    && (forall i | 0 <= i < |run.log| && run.log[i].event.MarketResolved? ::
          At(run.markets, run.log[i].event.market).outcome == run.log[i].event.outcome)
  }

  /** The contract's storage is what its log says. */
  ghost predicate Agrees(run: Run) {
    && (forall id :: At(run.markets, id).present <==> Mentions(run.log, id))
    && (forall id :: At(run.markets, id).resolved <==> Ended(run.log, id))
    && (forall i | 0 <= i < |run.log| && !run.log[i].event.MarketResolved? ::
          run.log[i].event.resolutionTime == At(run.markets, run.log[i].event.market).resolutionTime)
    && Settled(run)
  }

  ghost predicate Good(run: Run) {
    WellBehaved(run.log) && Complete(run.log) && Agrees(run)
  }

  lemma SuffixIsWellBehaved(log: seq<Emission>, from: nat)
    requires WellBehaved(log) && from <= |log|
    ensures WellBehaved(log[from..])
  {
  }

  lemma MentionsSnoc(log: seq<Emission>, e: Emission, id: Bytes32)
    ensures Mentions(log + [e], id) <==> Mentions(log, id) || e.event.market == id
    ensures Ended(log + [e], id) <==> Ended(log, id) || (e.event.market == id && e.event.MarketResolved?)
  {
    var all := log + [e];
    assert all[|log|] == e;
    assert forall i | 0 <= i < |log| :: all[i] == log[i];
  }

  lemma CompleteSnoc(log: seq<Emission>, e: Emission)
    ensures Complete(log + [e]) <==> Complete(log) && (Mentions(log, e.event.market) || e.event.LiquidityChanged?)
  {
    hide Mentions;
    var all := log + [e];
    assert all[|log|] == e && all[..|log|] == log;
    assert forall i | 0 <= i < |log| :: all[i] == log[i] && all[..i] == log[..i];
  }

  lemma WellBehavedSnoc(log: seq<Emission>, e: Emission)
    ensures WellBehaved(log + [e]) <==>
            WellBehaved(log) && EmissionOk(e) && forall i | 0 <= i < |log| :: PairOk(log[i], e)
  {
    hide EmissionOk, PairOk;
    var all := log + [e];
    assert all[|log|] == e;
    assert forall i | 0 <= i < |log| :: all[i] == log[i];
  }

  lemma EmittedIsOk(run: Run, tx: Transaction)
    requires Good(run) && Fault(run.markets, tx.time, tx.call).None?
    requires forall i | 0 <= i < |run.log| :: run.log[i].time <= tx.time
    ensures var e := Emission(tx.time, Emitted(run.markets, tx.call));
            && EmissionOk(e) && (forall i | 0 <= i < |run.log| :: PairOk(run.log[i], e))
            && (Mentions(run.log, e.event.market) || e.event.LiquidityChanged?)
  {
    hide WellBehaved, Complete;
    var e := Emission(tx.time, Emitted(run.markets, tx.call));
    forall i | 0 <= i < |run.log| && run.log[i].event.market == e.event.market
      ensures PairOk(run.log[i], e)
    {
      assert At(run.markets, e.event.market).present;
      assert !Ended(run.log, e.event.market);
    }
  }

  /** A call changes the entry of its own market only, and that one as its event says. */
  lemma EffectOnEntries(markets: Markets, tx: Transaction, id: Bytes32)
    requires Fault(markets, tx.time, tx.call).None? && (At(markets, id).resolved ==> At(markets, id).present)
    ensures var e, after := Emitted(markets, tx.call), At(Effect(markets, tx.call), id);
            && (id != e.market ==> after == At(markets, id))
            && (id == e.market ==>
                  && after.present
                  && (after.resolved <==> e.MarketResolved?)
                  && (!e.MarketResolved? ==> after.resolutionTime == e.resolutionTime)
                  && (if e.MarketResolved?
                      then after == At(markets, id).(resolved := true, outcome := e.outcome)
                      else after.yesReserve == e.yesReserve && after.noReserve == e.noReserve)
                  && !At(markets, id).resolved
                  && (At(markets, id).present ==> after.resolutionTime == At(markets, id).resolutionTime))
  {
  }

  lemma EndedIsMentioned(log: seq<Emission>, id: Bytes32)
    ensures Ended(log, id) ==> Mentions(log, id)
  {
  }

  lemma EffectSettles(run: Run, tx: Transaction)
    requires Agrees(run) && Fault(run.markets, tx.time, tx.call).None?
    ensures Settled(Execute(run, tx))
  {
    hide Mentions, Fault, Effect, Emitted;
    var e := Emission(tx.time, Emitted(run.markets, tx.call));
    var next := Execute(run, tx);
    forall i: nat | LastUpdate(next.log, i)
      ensures var m := At(next.markets, next.log[i].event.market);
              m.yesReserve == next.log[i].event.yesReserve && m.noReserve == next.log[i].event.noReserve
    {
      var id := next.log[i].event.market;
      EndedIsMentioned(run.log, id);
      EffectOnEntries(run.markets, tx, id);
      if i < |run.log| {
        assert next.log[|run.log|] == e;
        assert forall j | i < j < |run.log| :: next.log[j] == run.log[j];
        assert LastUpdate(run.log, i);
      }
    }
    forall i | 0 <= i < |next.log| && next.log[i].event.MarketResolved?
      ensures At(next.markets, next.log[i].event.market).outcome == next.log[i].event.outcome
    {
      var id := next.log[i].event.market;
      EndedIsMentioned(run.log, id);
      EffectOnEntries(run.markets, tx, id);
      if i < |run.log| { assert Ended(run.log, id); }
    }
  }

  lemma EffectAgrees(run: Run, tx: Transaction)
    requires Agrees(run) && Fault(run.markets, tx.time, tx.call).None?
    ensures Agrees(Execute(run, tx))
  {
    EffectSettles(run, tx);
    hide Mentions, Ended, Fault, Effect, Emitted, Settled;
    var e := Emission(tx.time, Emitted(run.markets, tx.call));
    var next := Execute(run, tx);
    forall id
      ensures At(next.markets, id).present <==> Mentions(next.log, id)
      ensures At(next.markets, id).resolved <==> Ended(next.log, id)
    {
      EndedIsMentioned(run.log, id);
      EffectOnEntries(run.markets, tx, id);
      MentionsSnoc(run.log, e, id);
    }
    forall i | 0 <= i < |next.log| && !next.log[i].event.MarketResolved?
      ensures next.log[i].event.resolutionTime == At(next.markets, next.log[i].event.market).resolutionTime
    {
      var id := next.log[i].event.market;
      EndedIsMentioned(run.log, id);
      EffectOnEntries(run.markets, tx, id);
      if i < |run.log| { Mentioned(run.log, i); }
    }
  }

  lemma Mentioned(log: seq<Emission>, i: nat)
    requires i < |log|
    ensures Mentions(log, log[i].event.market)
  {
  }

  lemma {:induction false} RunIsGood(txs: seq<Transaction>)
    requires InTime(txs)
    ensures Good(RunOf(txs))
    ensures forall i | 0 <= i < |RunOf(txs).log| :: txs != [] && RunOf(txs).log[i].time <= txs[|txs| - 1].time
  {
    if txs != [] {
      hide Effect, Emitted, Fault, EmissionOk, PairOk, WellBehaved, Complete;
      var init, tx := txs[..|txs| - 1], txs[|txs| - 1];
      RunIsGood(init);
      var run := RunOf(init);
      if Fault(run.markets, tx.time, tx.call).None? {
        EmittedIsOk(run, tx);
        EffectAgrees(run, tx);
        var e := Emission(tx.time, Emitted(run.markets, tx.call));
        WellBehavedSnoc(run.log, e);
        CompleteSnoc(run.log, e);
      }
    } else {
      NothingIsGood();
    }
  }

  lemma NothingIsGood()
    ensures Good(Run(map[], []))
  {
  }

  /** The call that emits an event. */
  function CallFor(event: MarketEvent, known: bool): Call
    requires Encodable(event)
  {
    match event
    case LiquidityChanged(id, yesReserve, noReserve, resolutionTime) =>
      if known then SetLiquidity(id, yesReserve, noReserve) else CreateMarket(id, resolutionTime, yesReserve, noReserve)
    case Trade(id, sender, yes, amount, yesReserve, noReserve, _) =>
      RecordTrade(id, sender, yes, amount, yesReserve, noReserve)
    case MarketResolved(id, outcome) => ResolveMarket(id, outcome)
  }

  /** A market that may still emit is open in storage, with the resolution time its event repeats. */
  lemma StorageForEvent(run: Run, e: Emission)
    requires Agrees(run) && forall i | 0 <= i < |run.log| :: PairOk(run.log[i], e)
    ensures var m := At(run.markets, e.event.market);
            && !m.resolved
            && (m.present && e.event.MarketResolved? ==> m.resolutionTime <= e.time)
            && (m.present && !e.event.MarketResolved? ==> m.resolutionTime == e.event.resolutionTime)
  {
    var id := e.event.market;
    assert !Ended(run.log, id);
    if Mentions(run.log, id) {
      var i :| 0 <= i < |run.log| && run.log[i].event.market == id;
      assert PairOk(run.log[i], e);
    }
  }

  lemma CallEmits(run: Run, e: Emission)
    requires Agrees(run) && EmissionOk(e) && Encodable(e.event)
    requires forall i | 0 <= i < |run.log| :: PairOk(run.log[i], e)
    requires Mentions(run.log, e.event.market) || e.event.LiquidityChanged?
    ensures Execute(run, Transaction(e.time, CallFor(e.event, Mentions(run.log, e.event.market)))).log == run.log + [e]
  {
    hide Ended, Mentions, PairOk;
    StorageForEvent(run, e);
  }

  /** Whatever the contract emits can be serialized. */
  lemma EmissionIsEncodable(e: Emission)
    requires EmissionOk(e)
    ensures Encodable(e.event)
  {
  }

  lemma InTimeSnoc(txs: seq<Transaction>, tx: Transaction)
    requires InTime(txs) && forall i | 0 <= i < |txs| :: txs[i].time <= tx.time
    ensures InTime(txs + [tx])
  {
  }

  lemma RunSnoc(txs: seq<Transaction>, tx: Transaction)
    ensures RunOf(txs + [tx]) == Execute(RunOf(txs), tx)
  {
    assert (txs + [tx])[..|txs|] == txs;
  }

  lemma {:induction false} LogIsRealizable(log: seq<Emission>) returns (txs: seq<Transaction>)
    requires WellBehaved(log) && Complete(log)
    ensures InTime(txs) && RunOf(txs).log == log && |txs| == |log|
    ensures forall i | 0 <= i < |log| :: txs[i].time == log[i].time
  {
    txs := [];
    if log == [] {
      NothingIsGood();
    } else {
      hide WellBehaved, Complete, InTime, RunOf;
      var init, e := log[..|log| - 1], log[|log| - 1];
      assert init + [e] == log;
      WellBehavedSnoc(init, e);
      CompleteSnoc(init, e);
      var before := LogIsRealizable(init);
      RunIsGood(before);
      assert Agrees(RunOf(before));
      hide *;
      EmissionIsEncodable(e);
      CallEmits(RunOf(before), e);
      var tx := Transaction(e.time, CallFor(e.event, Mentions(init, e.event.market)));
      txs := before + [tx];
      RunSnoc(before, tx);
      TimesAscend(log);
      InTimeSnoc(before, tx);
    }
  }

  lemma TimesAscend(log: seq<Emission>)
    requires WellBehaved(log)
    ensures forall i, j | 0 <= i < j < |log| :: log[i].time <= log[j].time
  {
    forall i, j | 0 <= i < j < |log|
      ensures log[i].time <= log[j].time
    {
      assert PairOk(log[i], log[j]);
    }
  }

  /**
    The contract's event logs, exactly: a log comes from some run in which time
    does not run backward if and only if every market is created first, keeps its
    one resolution time, is updated with positive amounts and before that time
    only, and is resolved at most once, at or after that time, with nothing after.
   */
  lemma LogsExact(log: seq<Emission>)
    ensures (exists txs :: InTime(txs) && RunOf(txs).log == log) <==> WellBehaved(log) && Complete(log)
  {
    hide WellBehaved, Complete, InTime;
    if txs :| InTime(txs) && RunOf(txs).log == log { RunIsGood(txs); }
    if WellBehaved(log) && Complete(log) { var txs := LogIsRealizable(log); }
  }

  // ----- One transaction, on storage and log alone -----

  predicate IdOk(markets: Markets, id: Bytes32) {
    (exists i :: 0 <= i < 32 && id[i] != 0) && id in markets && markets[id].present
  }

  /** What a call needs to succeed at a time. */
  predicate Permitted(markets: Markets, now: uint64, call: Call) {
    match call
    case CreateMarket(id, resolutionTime, yes, no) =>
      && (exists i :: 0 <= i < 32 && id[i] != 0) && !(id in markets && markets[id].present)
      && yes > 0 && no > 0 && now < resolutionTime
    case SetLiquidity(id, yes, no) =>
      IdOk(markets, id) && yes > 0 && no > 0 && !markets[id].resolved && now < markets[id].resolutionTime
    case RecordTrade(id, _, _, amount, yes, no) =>
      && IdOk(markets, id) && amount > 0 && yes > 0 && no > 0
      && !markets[id].resolved && now < markets[id].resolutionTime
    case ResolveMarket(id, _) =>
      IdOk(markets, id) && !markets[id].resolved && markets[id].resolutionTime <= now
  }

  /** The market that a successful call leaves, and the event that tells it. */
  predicate TellsCall(before: Markets, call: Call, m: Market, e: MarketEvent) {
    e.market == call.id
    && match call
       case CreateMarket(_, resolutionTime, yes, no) =>
         && m == Market(resolutionTime, true, false, false, yes, no)
         && e.LiquidityChanged? && e.yesReserve == yes && e.noReserve == no && e.resolutionTime == resolutionTime
       case SetLiquidity(id, yes, no) =>
         && id in before && m == before[id].(yesReserve := yes, noReserve := no)
         && e.LiquidityChanged? && e.yesReserve == yes && e.noReserve == no
         && e.resolutionTime == before[id].resolutionTime
       case RecordTrade(id, sender, side, amount, yes, no) =>
         && id in before && m == before[id].(yesReserve := yes, noReserve := no)
         && e.Trade? && e.trader == sender && e.yes == side && e.amount == amount
         && e.yesReserve == yes && e.noReserve == no && e.resolutionTime == before[id].resolutionTime
       case ResolveMarket(id, outcome) =>
         && id in before && m == before[id].(resolved := true, outcome := outcome)
         && e.MarketResolved? && e.outcome == outcome
  }

  /**
    A transaction succeeds exactly if it is permitted.  Then the log grows by the one
    event that tells the call, at its time, and only the call's market changes, as
    told; otherwise nothing changes.
   */
  lemma ExecutedExactly(run: Run, tx: Transaction)
    ensures var run', id := Execute(run, tx), tx.call.id;
            if Permitted(run.markets, tx.time, tx.call) then
              && |run'.log| == |run.log| + 1 && run'.log[..|run.log|] == run.log
              && run'.log[|run.log|].time == tx.time
              && run'.markets.Keys == run.markets.Keys + {id}
              && TellsCall(run.markets, tx.call, run'.markets[id], run'.log[|run.log|].event)
              && forall other | other in run.markets && other != id :: run'.markets[other] == run.markets[other]
            else run' == run
  {
    assert IsZero(tx.call.id) <==> !exists i :: 0 <= i < 32 && tx.call.id[i] != 0;
  }

  /** A revert is true of the call. */
  lemma RevertIsTrue(markets: Markets, now: uint64, call: Call)
    requires Fault(markets, now, call).Some?
    ensures match Fault(markets, now, call).value
            case ZeroMarketId => forall i | 0 <= i < 32 :: call.id[i] == 0
            case ZeroReserve => !call.ResolveMarket? && (call.yesReserve == 0 || call.noReserve == 0)
            case ZeroAmount => call.RecordTrade? && call.amount == 0
            case InvalidResolutionTime => call.CreateMarket? && call.resolutionTime <= now
            case MarketAlreadyExists(id) => call.CreateMarket? && id == call.id && id in markets && markets[id].present
            case MarketNotFound(id) => id == call.id && (id in markets ==> !markets[id].present)
            case MarketAlreadyResolved(id) => id == call.id && id in markets && markets[id].resolved
            case MarketClosed(id) =>
              !call.ResolveMarket? && id == call.id && id in markets && markets[id].resolutionTime <= now
            case ResolutionPending(id) =>
              call.ResolveMarket? && id == call.id && id in markets && now < markets[id].resolutionTime
  {
  }
}
