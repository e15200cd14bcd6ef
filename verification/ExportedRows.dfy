/** What an exported row says, field by field, of the stored events it was made from. */
module ExportedRows {
  import opened Types
  import opened Chain
  import opened FinalityLaws
  import opened Codec
  import opened Rows
  import opened Projection
  import opened ProjectionLaws
  import opened PointInTime
  import L = EngineLaws
  import E = Engine
  import F = Features

  // ----- The specification: a market's events read directly -----

  /** The entries that update one market. */
  function UpdatesOf(es: seq<Entry>, market: Bytes32): (us: seq<Entry>)
    ensures forall k | 0 <= k < |us| :: Updates(us[k], market)
  {
    if es == [] then []
    else UpdatesOf(es[..|es| - 1], market) + if Updates(es[|es| - 1], market) then [es[|es| - 1]] else []
  }

  /** Seconds of a block or event as nanoseconds; the source reads them as int64. */
  function Nanoseconds(seconds: uint64): int {
    (if seconds < TWO63 then seconds else seconds - TWO64) * 1000000000
  }

  /** The amounts traded on one side. */
  function Traded(es: seq<Entry>, yes: bool): int {
    if es == [] then 0
    else
      Traded(es[..|es| - 1], yes)
      + match es[|es| - 1].event
        case Some(Trade(_, _, side, amount, _, _, _)) => (if side == yes then amount else 0)
        case _ => 0
  }

  /** The newest entries, at most `window` of them. */
  function Newest(es: seq<Entry>, window: nat): seq<Entry> {
    es[if |es| > window then |es| - window else 0..]
  }

  /** The row says what the events of `past` say, the last of which is its own. */
  ghost predicate Shows(row: Row, market: Bytes32, past: seq<Entry>, window: nat)
    requires past != [] && Updates(past[|past| - 1], market)
  {
    var e, s := past[|past| - 1], row.snapshot;
    var event := e.event.value;
    var yes, no := event.yesReserve as real, event.noReserve as real;
    var recent := Newest(past, window);
    var bought, sold := Traded(recent, true) as real, Traded(recent, false) as real;
    && s.market == HexValue(market) && s.block == e.block && s.log == e.log && s.finality == e.finality
    && s.time == Nanoseconds(e.timestamp) && s.resolution == Nanoseconds(event.resolutionTime)
    && yes >= 0.0 && no >= 0.0 && yes + no > 0.0 && s.probability * (yes + no) == no
    && s.depth == (if yes <= no then yes else no)
    && s.imbalance * (bought + sold) == bought - sold && (bought + sold == 0.0 ==> s.imbalance == 0.0)
    && s.secondsToResolution * 1000000000.0 == L.Remaining(s.time, s.resolution) as real
    && s.blockLag == 0
  }

  /** The row of the k-th of a market's updates. */
  ghost predicate ShowsAt(row: Row, market: Bytes32, us: seq<Entry>, k: nat, window: int) {
    window > 0 && k < |us| && Updates(us[k], market) && Shows(row, market, us[..k + 1], window)
  }

  /** Entry `r` is the market's last resolution, and an update of the market precedes it. */
  ghost predicate Decides(es: seq<Entry>, market: Bytes32, r: nat) {
    && r < |es| && Resolves(es[r], market)
    && (exists i :: 0 <= i < r && Updates(es[i], market))
    && (forall j | r < j < |es| :: !Resolves(es[j], market))
  }

  // ----- The steps of the replay are those events -----

  lemma {:induction false} StepsAreUpdates(es: seq<Entry>, market: Bytes32)
    ensures |StepsOf(es, market)| == |UpdatesOf(es, market)|
    ensures forall k | 0 <= k < |StepsOf(es, market)| ::
              [StepsOf(es, market)[k]] == StepOf(UpdatesOf(es, market)[k], market)
  {
    if es != [] {
      hide StepOf;
      StepsAreUpdates(es[..|es| - 1], market);
      OneStep(es[|es| - 1], market);
    }
  }

  lemma OneStep(e: Entry, market: Bytes32)
    ensures |StepOf(e, market)| == if Updates(e, market) then 1 else 0
  {
  }

  /** The slots of a list of updates. */
  function SlotsOf(us: seq<Entry>, market: Bytes32): (slots: seq<Option<F.Trade>>)
    requires forall k | 0 <= k < |us| :: Updates(us[k], market)
    ensures |slots| == |us|
  {
    seq(|us|, k requires 0 <= k < |us| => assert Updates(us[k], market); TradeOf(us[k].event.value))
  }

  /** Engine volumes are sums of the events' amounts. */
  lemma {:induction false} VolumesAreTraded(us: seq<Entry>, market: Bytes32)
    requires forall k | 0 <= k < |us| :: Updates(us[k], market)
    ensures F.Volume(E.Trades(SlotsOf(us, market)), F.TRADE_YES) == Traded(us, true) as real
    ensures F.Volume(E.Trades(SlotsOf(us, market)), F.TRADE_NO) == Traded(us, false) as real
  {
    if us != [] {
      var init, e := us[..|us| - 1], us[|us| - 1];
      VolumesAreTraded(init, market);
      assert SlotsOf(us, market)[..|init|] == SlotsOf(init, market);
      var trades := E.Trades(SlotsOf(init, market));
      assert trades + [] == trades;
      if e.event.value.Trade? {
        var t := TradeOf(e.event.value).value;
        assert (trades + [t])[..|trades|] == trades;
      }
    }
  }

  lemma NewestSlots(us: seq<Entry>, market: Bytes32, k: nat, window: nat)
    requires (forall i | 0 <= i < |us| :: Updates(us[i], market)) && k < |us|
    ensures E.Last(SlotsOf(us, market)[..k + 1], window) == SlotsOf(Newest(us[..k + 1], window), market)
  {
  }

  lemma SlotsAreSlots(es: seq<Entry>, market: Bytes32)
    ensures L.Slots(L.Updates(StepsOf(es, market))) == SlotsOf(UpdatesOf(es, market), market)
  {
    hide StepsOf, UpdatesOf, HexValue;
    StepsAreUpdates(es, market);
    var steps, us := StepsOf(es, market), UpdatesOf(es, market);
    forall k | 0 <= k < |steps|
      ensures steps[k].update.trade == SlotsOf(us, market)[k]
    {
      assert [steps[k]][0] == StepOf(us[k], market)[0];
    }
  }

  /** The flow of the k-th step, from the events. */
  lemma RecentVolumes(es: seq<Entry>, market: Bytes32, window: nat, k: nat)
    requires k < |StepsOf(es, market)|
    ensures |StepsOf(es, market)| == |UpdatesOf(es, market)|
    ensures var trades := E.Trades(E.Last(L.Slots(L.Updates(StepsOf(es, market))[..k + 1]), window));
            var recent := Newest(UpdatesOf(es, market)[..k + 1], window);
            && F.Volume(trades, F.TRADE_YES) == Traded(recent, true) as real
            && F.Volume(trades, F.TRADE_NO) == Traded(recent, false) as real
  {
    hide StepsOf, UpdatesOf, HexValue, E.Last, E.Trades, F.Volume, Traded;
    StepsAreUpdates(es, market);
    SlotsAreSlots(es, market);
    var steps, us := StepsOf(es, market), UpdatesOf(es, market);
    assert L.Slots(L.Updates(steps)[..k + 1]) == L.Slots(L.Updates(steps))[..k + 1];
    NewestSlots(us, market, k, window);
    VolumesAreTraded(Newest(us[..k + 1], window), market);
  }

  /** A snapshot exists only for reserves that have a probability, and is zero-flowed only by no flow. */
  lemma SnapshotNeeds(market: string, latest: E.Update, flow: seq<Option<F.Trade>>, p: E.Point)
    requires E.SnapshotValue(market, latest, flow, p).Ok?
    ensures latest.yesReserve >= 0.0 && latest.noReserve >= 0.0 && latest.yesReserve + latest.noReserve > 0.0
    ensures var trades := E.Trades(flow);
            F.Volume(trades, F.TRADE_YES) + F.Volume(trades, F.TRADE_NO) == 0.0 <==> trades == []
  {
    F.ProbabilityRange(latest.yesReserve, latest.noReserve);
    F.VolumeBounds(E.Trades(flow), F.TRADE_YES);
  }

  // ----- Rows -----

  /** The meaning of one snapshot, with its update and flow replaced by the events behind them. */
  lemma MeansShows(
    market: Bytes32, window: nat, row: Row, e: Entry, trades: seq<F.Trade>, past: seq<Entry>)
    requires past != [] && past[|past| - 1] == e && Updates(e, market)
    requires var event := e.event.value;
             L.Means(row.snapshot, PointOf(e, event), UpdateOf(e, event), trades) && row.snapshot.blockLag == 0
    requires var event := e.event.value;
             var yes, no := event.yesReserve as real, event.noReserve as real;
             yes >= 0.0 && no >= 0.0 && yes + no > 0.0
    requires var recent := Newest(past, window);
             && F.Volume(trades, F.TRADE_YES) == Traded(recent, true) as real
             && F.Volume(trades, F.TRADE_NO) == Traded(recent, false) as real
    requires F.Volume(trades, F.TRADE_YES) + F.Volume(trades, F.TRADE_NO) == 0.0 ==> trades == []
    ensures Shows(row, market, past, window)
  {
    hide HexValue, F.Volume, Traded, Newest, L.Remaining;
  }

  lemma RowShows(es: seq<Entry>, market: Bytes32, window: int, k: nat)
    requires ProjectEntries(es, window).Ok?
    requires k < |OnlyRows(ProjectEntries(es, window).value, HexValue(market))|
    ensures var row := OnlyRows(ProjectEntries(es, window).value, HexValue(market))[k];
            ShowsAt(row, market, UpdatesOf(es, market), k, window)
  {
    hide HexValue, ProjectEntries, OnlyRows, StepsOf, UpdatesOf, E.SnapshotValue, E.Trades, E.Last, L.Slots, L.Means,
      Shows, F.Volume, Traded, Newest, FeaturesOf, LabelOf;
    RowsMean(es, market, window, k);
    StepsAreUpdates(es, market);
    RecentVolumes(es, market, window, k);
    var row := OnlyRows(ProjectEntries(es, window).value, HexValue(market))[k];
    var steps, us := StepsOf(es, market), UpdatesOf(es, market);
    var flow := E.Last(L.Slots(L.Updates(steps)[..k + 1]), window);
    assert [steps[k]][0] == StepOf(us[k], market)[0];
    OneStep(us[k], market);
    SnapshotNeeds(HexValue(market), steps[k].update, flow, steps[k].point);
    MeansShows(market, window, row, us[k], E.Trades(flow), us[..k + 1]);
  }

  lemma {:induction false} HasSteps(es: seq<Entry>, market: Bytes32)
    ensures StepsOf(es, market) != [] <==> exists i :: 0 <= i < |es| && Updates(es[i], market)
  {
    if es != [] {
      hide StepOf;
      var n := |es| - 1;
      HasSteps(es[..n], market);
      OneStep(es[n], market);
      assert forall i | 0 <= i < n :: es[..n][i] == es[i];
    }
  }

  lemma DecidesEarlier(es: seq<Entry>, market: Bytes32, r: nat)
    requires es != []
    ensures var n := |es| - 1;
            Decides(es, market, r) <==>
              if r == n then Resolves(es[n], market) && exists i :: 0 <= i < n && Updates(es[..n][i], market)
              else !Resolves(es[n], market) && Decides(es[..n], market, r)
  {
    hide Updates, Resolves;
    var n := |es| - 1;
    assert forall i | 0 <= i < n :: es[..n][i] == es[i];
  }

  /** What the replay knows of the market's label is what entry `r` decides. */
  ghost predicate IsDecidedBy(known: Option<Label>, e: Entry) {
    && known.Some? && e.event.Some? && e.event.value.MarketResolved?
    && known.value.available == Nanoseconds(e.timestamp) && known.value.outcome == e.event.value.outcome
  }

  lemma NewLabel(es: seq<Entry>, market: Bytes32)
    requires es != [] && Resolves(es[|es| - 1], market) && StepsOf(es[..|es| - 1], market) != []
    ensures IsDecidedBy(LabelOf(es, market), es[|es| - 1])
  {
    hide StepsOf;
  }

  lemma OldLabel(es: seq<Entry>, market: Bytes32)
    requires es != [] && !(Resolves(es[|es| - 1], market) && StepsOf(es[..|es| - 1], market) != [])
    ensures LabelOf(es, market) == LabelOf(es[..|es| - 1], market)
  {
    hide StepsOf;
  }

  lemma {:induction false} LabelIsDecided(es: seq<Entry>, market: Bytes32)
    ensures LabelOf(es, market).Some? ==> exists r: nat :: Decides(es, market, r)
    ensures forall r: nat | Decides(es, market, r) :: r < |es| && IsDecidedBy(LabelOf(es, market), es[r])
  {
    if es != [] {
      hide Decides, StepsOf, LabelOf, IsDecidedBy, Updates, Resolves;
      var n := |es| - 1;
      LabelIsDecided(es[..n], market);
      HasSteps(es[..n], market);
      if Resolves(es[n], market) && StepsOf(es[..n], market) != [] {
        NewLabel(es, market);
        DecidesEarlier(es, market, n);
      } else {
        OldLabel(es, market);
        if r: nat :| Decides(es[..n], market, r) && LabelOf(es, market).Some? {
          assert Decides(es, market, r) by { DecidesEarlier(es, market, r); DecidedHasUpdates(es[..n], market, r); }
        }
      }
      forall r: nat | Decides(es, market, r)
        ensures r < |es| && IsDecidedBy(LabelOf(es, market), es[r])
      {
        DecidesEarlier(es, market, r);
        DecidedHasUpdates(es, market, r);
        if r < n {
          assert Decides(es[..n], market, r);
          assert es[..n][r] == es[r];
        }
      }
    }
  }

  /** The row carries the label that the resolution decides. */
  predicate Labelled(row: Row, e: Entry) {
    && e.event.Some? && e.event.value.MarketResolved?
    && row.labelAvailable == Nanoseconds(e.timestamp) && row.outcome == e.event.value.outcome
  }

  /**
    The dataset, said by the events alone.  A market has rows exactly when one of its
    resolutions follows one of its updates.  Then it has one row per update, which
    shows that update's reserves, times and position and the flow of the newest
    `window` updates up to it, and carries what the last resolution decided.
   */
  lemma RowsTellTheEvents(es: seq<Entry>, market: Bytes32, window: int)
    requires ProjectEntries(es, window).Ok?
    ensures var mine, us := OnlyRows(ProjectEntries(es, window).value, HexValue(market)), UpdatesOf(es, market);
            && ((forall r: nat :: !Decides(es, market, r)) ==> mine == [])
            && (forall r: nat | Decides(es, market, r) ::
                  && r < |es| && |mine| == |us| > 0
                  && forall k | 0 <= k < |mine| :: ShowsAt(mine[k], market, us, k, window) && Labelled(mine[k], es[r]))
  {
    hide HexValue, ProjectEntries, OnlyRows, StepsOf, UpdatesOf, Decides, LabelOf, ShowsAt, FeaturesOf;
    RowsArePointInTime(es, market, window);
    LabelIsDecided(es, market);
    StepsAreUpdates(es, market);
    var mine, us := OnlyRows(ProjectEntries(es, window).value, HexValue(market)), UpdatesOf(es, market);
    forall r: nat | Decides(es, market, r)
      ensures r < |es| && |mine| == |us| > 0
      ensures forall k | 0 <= k < |mine| :: ShowsAt(mine[k], market, us, k, window) && Labelled(mine[k], es[r])
    {
      DecidedHasUpdates(es, market, r);
      HasSteps(es, market);
      forall k | 0 <= k < |mine|
        ensures ShowsAt(mine[k], market, us, k, window) && Labelled(mine[k], es[r])
      {
        RowShows(es, market, window, k);
        assert IsRowOf(es, market, window, k, mine[k]);
      }
    }
  }

  lemma DecidedHasUpdates(es: seq<Entry>, market: Bytes32, r: nat)
    requires Decides(es, market, r)
    ensures r < |es| && Resolves(es[r], market) && exists i :: 0 <= i < |es| && Updates(es[i], market)
  {
  }

  lemma EachRowShows(es: seq<Entry>, window: int, i: nat) returns (market: Bytes32, k: nat)
    requires ProjectEntries(es, window).Ok? && i < |ProjectEntries(es, window).value|
    ensures ShowsAt(ProjectEntries(es, window).value[i], market, UpdatesOf(es, market), k, window)
    ensures k < |UpdatesOf(es, market)|
  {
    hide HexValue, ProjectEntries, OnlyRows, UpdatesOf, Shows, StepsOf, LabelOf, FeaturesOf;
    market, k := EveryRowIsPointInTime(es, window, i);
    k := RowIsInItsMarket(ProjectEntries(es, window).value, i);
    RowShows(es, market, window, k);
  }

  lemma ShownFields(row: Row, market: Bytes32, us: seq<Entry>, k: nat, window: int)
    requires ShowsAt(row, market, us, k, window)
    ensures var e, s := us[k], row.snapshot;
            && s.block == e.block && s.log == e.log && s.time == Nanoseconds(e.timestamp) && s.finality == e.finality
            && e.event.Some? && !e.event.value.MarketResolved? && e.event.value.market == market
            && s.market == HexValue(market)
  {
    hide HexValue, Traded, Newest, L.Remaining;
  }

  // ----- Where the events are stored -----

  /** Block `n` of the store holds the entry as its event `j`. */
  predicate StoredAt(decode: EventDecoder, c: Chain, e: Entry, n: nat, j: nat)
    requires |c.finality| == |c.blocks|
  {
    && n < |c.blocks| && j < |c.blocks[n].events|
    && e.block == c.blocks[n].number && e.timestamp == c.blocks[n].timestamp && e.finality == c.finality[n]
    && e.log == c.blocks[n].events[j].logIndex && e.event == decode(c.blocks[n].events[j])
  }

  lemma {:induction false} EntryIsStored(decode: EventDecoder, c: Chain, k: nat, i: nat) returns (n: nat, j: nat)
    requires |c.finality| == |c.blocks| && UniqueHashes(c.blocks) && k <= |c.blocks|
    requires i < |EntriesBelow(decode, c, k)|
    ensures StoredAt(decode, c, EntriesBelow(decode, c, k)[i], n, j)
  {
    var below := EntriesBelow(decode, c, k - 1);
    if i < |below| {
      n, j := EntryIsStored(decode, c, k - 1, i);
    } else {
      n, j := k - 1, i - |below|;
      HashIsFound(c.blocks, n);
    }
  }

  lemma {:induction false} UpdateIsEntry(es: seq<Entry>, market: Bytes32, k: nat) returns (i: nat)
    requires k < |UpdatesOf(es, market)|
    ensures i < |es| && es[i] == UpdatesOf(es, market)[k]
  {
    var n := |es| - 1;
    if k < |UpdatesOf(es[..n], market)| { i := UpdateIsEntry(es[..n], market, k); } else { i := n; }
  }

  /**
    Every exported row comes from one stored event, an update of the row's market: it
    has the height, the time and the finality level of that event's block and the
    event's log index.
   */
  lemma RowsComeFromTheStore(decode: EventDecoder, c: Chain, window: int, i: nat) returns (n: nat, j: nat)
    requires |c.finality| == |c.blocks| && UniqueHashes(c.blocks)
    requires Project(decode, c, window).Ok? && i < |Project(decode, c, window).value|
    ensures n < |c.blocks| && j < |c.blocks[n].events|
    ensures var s, event := Project(decode, c, window).value[i].snapshot, decode(c.blocks[n].events[j]);
            && s.block == c.blocks[n].number && s.log == c.blocks[n].events[j].logIndex
            && s.time == Nanoseconds(c.blocks[n].timestamp) && s.finality == c.finality[n]
            && event.Some? && !event.value.MarketResolved? && s.market == HexValue(event.value.market)
  {
    hide HexValue, ProjectEntries, ShowsAt, UpdatesOf, EntriesBelow, UniqueHashes;
    var es := Entries(decode, c);
    var market, k := EachRowShows(es, window, i);
    var u := UpdateIsEntry(es, market, k);
    n, j := EntryIsStored(decode, c, |c.blocks|, u);
    ShownFields(Project(decode, c, window).value[i], market, UpdatesOf(es, market), k, window);
  }

  lemma {:induction false} ReplayNeedsEvents(es: seq<Entry>, window: int, i: nat)
    requires ReplayAll(es, window).Ok? && i < |es|
    ensures es[i].event.Some?
  {
    hide Feed, Resolve;
    if i < |es| - 1 { ReplayNeedsEvents(es[..|es| - 1], window, i); }
  }

  lemma {:induction false} EventIsEntry(decode: EventDecoder, c: Chain, k: nat, n: nat, j: nat) returns (i: nat)
    requires |c.finality| == |c.blocks| && n < k <= |c.blocks| && j < |c.blocks[n].events|
    ensures i < |EntriesBelow(decode, c, k)| && EntriesBelow(decode, c, k)[i].event == decode(c.blocks[n].events[j])
  {
    if n == k - 1 {
      i := |EntriesBelow(decode, c, k - 1)| + j;
    } else {
      i := EventIsEntry(decode, c, k - 1, n, j);
    }
  }

  /** A store with an event that cannot be decoded is not exported at all. */
  lemma ExportNeedsEveryEvent(decode: EventDecoder, c: Chain, window: int, n: nat, j: nat)
    requires |c.finality| == |c.blocks| && Project(decode, c, window).Ok?
    requires n < |c.blocks| && j < |c.blocks[n].events|
    ensures decode(c.blocks[n].events[j]).Some?
  {
    hide Projection.Finish, EntriesBelow, ReplayAll;
    var i := EventIsEntry(decode, c, |c.blocks|, n, j);
    ReplayNeedsEvents(Entries(decode, c), window, i);
  }
}
