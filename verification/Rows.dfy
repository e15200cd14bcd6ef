/** internal/trainingdata/rows.go: attaching labels to snapshots, and the one-pass validator. */
module Rows {
  import opened Types
  import opened Engine
  import Chain

  datatype Label = Label(scheduled: int, available: int, outcome: bool)

  datatype Row = Row(snapshot: Snapshot, labelAvailable: int, outcome: bool)
  {
    function Market(): string { snapshot.market }

    function Attached(): Label { Label(snapshot.resolution, labelAvailable, outcome) }
  }

  datatype RowError =
    | EmptyDataset | EmptyMarketID | MissingLabel | ExtraLabel | ResolutionMismatch
    | LabelBeforeSchedule | PredictionAfterLabel | ResolutionBeforePrediction
    | RowOrder | TimestampOrder | TimestampRange | ProbabilityRange | InvalidFinality

  /** unicode.IsSpace, which strings.TrimSpace trims by. */
  predicate GoSpace(c: char) {
    var n := c as int;
    || 0x09 <= n <= 0x0D || n == 0x20 || n == 0x85 || n == 0xA0 || n == 0x1680 || 0x2000 <= n <= 0x200A
    || n == 0x2028 || n == 0x2029 || n == 0x202F || n == 0x205F || n == 0x3000
  }

  /** strings.TrimSpace(s) == "" */
  predicate GoBlank(s: string) {
    forall i | 0 <= i < |s| :: GoSpace(s[i])
  }

  // ----- What a valid dataset is -----

  predicate RowOk(r: Row) {
    && !GoBlank(r.Market())
    && r.snapshot.finality <= Chain.FINALIZED
    && InInt64(r.snapshot.time) && InInt64(r.snapshot.resolution) && InInt64(r.labelAvailable)
    && 0.0 <= r.snapshot.probability <= 1.0
    && r.snapshot.time <= r.snapshot.resolution <= r.labelAvailable
    && r.snapshot.time < r.labelAvailable
  }

  predicate Follows(before: Row, r: Row) {
    && PositionAfter(r.snapshot.block, r.snapshot.log, before.snapshot.block, before.snapshot.log)
    && r.snapshot.time >= before.snapshot.time
  }

  /** Rows of one market carry one label. */
  predicate OneLabel(a: Row, b: Row) {
    a.Market() == b.Market() ==> a.Attached() == b.Attached()
  }

  predicate Valid(rows: seq<Row>) {
    && rows != []
    && (forall i | 0 <= i < |rows| :: RowOk(rows[i]))
    && (forall i | 1 <= i < |rows| :: Follows(rows[i - 1], rows[i]))
    && (forall i, j | 0 <= i < j < |rows| :: OneLabel(rows[i], rows[j]))
  }

  // ----- The validator -----

  /** The checks of one row that look at no other row, before and after the order checks. */
  function IdentityFault(r: Row): Option<RowError> {
    if GoBlank(r.Market()) then Some(EmptyMarketID)
    else if r.snapshot.finality > Chain.FINALIZED then Some(InvalidFinality)
    else if !(InInt64(r.snapshot.time) && InInt64(r.snapshot.resolution) && InInt64(r.labelAvailable))
      then Some(TimestampRange)
    else None
  }

  function OrderFault(before: Row, r: Row): Option<RowError> {
    if !PositionAfter(r.snapshot.block, r.snapshot.log, before.snapshot.block, before.snapshot.log) then Some(RowOrder)
    else if r.snapshot.time < before.snapshot.time then Some(TimestampOrder)
    else None
  }

  function LabelFault(r: Row): Option<RowError> {
    if !(0.0 <= r.snapshot.probability <= 1.0) then Some(ProbabilityRange)
    else if r.labelAvailable < r.snapshot.resolution then Some(LabelBeforeSchedule)
    else if r.labelAvailable <= r.snapshot.time then Some(PredictionAfterLabel)
    else if r.snapshot.resolution < r.snapshot.time then Some(ResolutionBeforePrediction)
    else None
  }

  function Conflict(current: Label, known: Label): Option<RowError> {
    if current.scheduled != known.scheduled then Some(ResolutionMismatch)
    else if current != known then Some(MissingLabel)
    else None
  }

  /** The first row of a market. */
  function FirstOf(rows: seq<Row>, market: string, from: nat := 0): (k: nat)
    requires from <= |rows|
    ensures from <= k <= |rows|
    ensures k < |rows| ==> rows[k].Market() == market
    ensures forall j | from <= j < k :: rows[j].Market() != market
    decreases |rows| - from
  {
    if from == |rows| || rows[from].Market() == market then from else FirstOf(rows, market, from + 1)
  }

  function OrElse(a: Option<RowError>, b: Option<RowError>): Option<RowError> {
    if a.Some? then a else b
  }

  /** The first check that row `i` fails, comparing labels with the first row of its market. */
  function FaultAt(rows: seq<Row>, i: nat): Option<RowError>
    requires i < |rows|
  {
    OrElse(IdentityFault(rows[i]),
      OrElse(if i > 0 then OrderFault(rows[i - 1], rows[i]) else None,
        OrElse(LabelFault(rows[i]), Conflict(rows[i].Attached(), rows[FirstOf(rows, rows[i].Market())].Attached()))))
  }

  /** The fault of the first faulty row from `i` on. */
  function FirstFault(rows: seq<Row>, i: nat): Option<RowError>
    requires i <= |rows|
    decreases |rows| - i
  {
    if i == |rows| then None else OrElse(FaultAt(rows, i), FirstFault(rows, i + 1))
  }

  /** The map holds the label of the first row of every market met before row `i`. */
  ghost predicate FirstSeen(rows: seq<Row>, i: nat, labels: map<string, Label>) {
    && (forall m :: m in labels <==> FirstOf(rows, m) < i)
    && (forall m | m in labels :: FirstOf(rows, m) < |rows| && labels[m] == rows[FirstOf(rows, m)].Attached())
  }

  method CheckRow(rows: seq<Row>, i: nat, labels: map<string, Label>) returns (error: Option<RowError>)
    requires i < |rows| && FirstSeen(rows, i, labels)
    ensures error == FaultAt(rows, i)
  {
    hide IdentityFault, OrderFault, LabelFault;
    var row := rows[i];
    error := IdentityFault(row);
    if error.Some? { return; }
    if i > 0 {
      error := OrderFault(rows[i - 1], row);
      if error.Some? { return; }
    }
    error := LabelFault(row);
    if error.Some? { return; }
    if row.Market() in labels {
      error := Conflict(row.Attached(), labels[row.Market()]);
      if error.Some? { return; }
    }
  }

  /** validate, with its map of first-seen labels. */
  method Validate(rows: seq<Row>) returns (error: Option<RowError>)
    ensures error == if rows == [] then Some(EmptyDataset) else FirstFault(rows, 0)
  {
    hide FaultAt;
    if |rows| == 0 { return Some(EmptyDataset); }
    var labels: map<string, Label> := map[];
    for i := 0 to |rows|
      invariant FirstFault(rows, 0) == FirstFault(rows, i)
      invariant FirstSeen(rows, i, labels)
    {
      error := CheckRow(rows, i, labels);
      if error.Some? { return; }
      if rows[i].Market() !in labels {
        labels := labels[rows[i].Market() := rows[i].Attached()];
      }
    }
    error := None;
  }

  lemma {:induction false} NoFaultFrom(rows: seq<Row>, i: nat)
    requires i <= |rows|
    ensures FirstFault(rows, i).None? <==> forall j | i <= j < |rows| :: FaultAt(rows, j).None?
    decreases |rows| - i
  {
    if i < |rows| { NoFaultFrom(rows, i + 1); }
  }

  lemma RowFaultExact(rows: seq<Row>, i: nat)
    requires i < |rows|
    ensures FaultAt(rows, i).None?
       <==> && RowOk(rows[i]) && (i > 0 ==> Follows(rows[i - 1], rows[i]))
            && rows[FirstOf(rows, rows[i].Market())].Attached() == rows[i].Attached()
  {
  }

  lemma AcceptedIsValid(rows: seq<Row>)
    requires rows != [] && FirstFault(rows, 0).None?
    ensures Valid(rows)
  {
    hide FaultAt, RowOk, Follows, FirstOf;
    NoFaultFrom(rows, 0);
    forall i | 0 <= i < |rows|
      ensures RowOk(rows[i]) && (i > 0 ==> Follows(rows[i - 1], rows[i]))
      ensures rows[FirstOf(rows, rows[i].Market())].Attached() == rows[i].Attached()
    {
      RowFaultExact(rows, i);
    }
  }

  lemma ValidIsAccepted(rows: seq<Row>)
    requires Valid(rows)
    ensures FirstFault(rows, 0).None?
  {
    hide FaultAt, RowOk, Follows, FirstOf;
    NoFaultFrom(rows, 0);
    forall i | 0 <= i < |rows|
      ensures FaultAt(rows, i).None?
    {
      RowFaultExact(rows, i);
      var k := FirstOf(rows, rows[i].Market());
      assert k <= i;
      assert k < i ==> OneLabel(rows[k], rows[i]);
    }
  }

  /** The one pass with its first-seen labels accepts exactly the valid datasets. */
  lemma ValidateExact(rows: seq<Row>)
    ensures rows != [] && FirstFault(rows, 0).None? <==> Valid(rows)
  {
    if rows != [] && FirstFault(rows, 0).None? { AcceptedIsValid(rows); }
    if Valid(rows) { ValidIsAccepted(rows); }
  }

  // ----- Assembling -----

  type Labels = map<string, Label>

  predicate Labelled(snapshots: seq<Snapshot>, labels: Labels) {
    forall i | 0 <= i < |snapshots| :: snapshots[i].market in labels
  }

  function Attach(snapshots: seq<Snapshot>, labels: Labels): (rows: seq<Row>)
    requires Labelled(snapshots, labels)
    ensures |rows| == |snapshots|
  {
    seq(|snapshots|, i requires 0 <= i < |snapshots| =>
      Row(snapshots[i], labels[snapshots[i].market].available, labels[snapshots[i].market].outcome))
  }

  /** The first snapshot from `i` on that cannot be labelled, and why. */
  function AttachFault(snapshots: seq<Snapshot>, labels: Labels, i: nat): (e: Option<RowError>)
    requires i <= |snapshots|
    ensures e.None? <==> forall j | i <= j < |snapshots| ::
              && !GoBlank(snapshots[j].market) && snapshots[j].market in labels
              && snapshots[j].resolution == labels[snapshots[j].market].scheduled
    decreases |snapshots| - i
  {
    if i == |snapshots| then None
    else if GoBlank(snapshots[i].market) then Some(EmptyMarketID)
    else if snapshots[i].market !in labels then Some(MissingLabel)
    else if snapshots[i].resolution != labels[snapshots[i].market].scheduled then Some(ResolutionMismatch)
    else AttachFault(snapshots, labels, i + 1)
  }

  function MarketsOf(snapshots: seq<Snapshot>): set<string> {
    set i | 0 <= i < |snapshots| :: snapshots[i].market
  }

  function Assembled(snapshots: seq<Snapshot>, labels: Labels): Result<seq<Row>, RowError> {
    if snapshots == [] then Err(EmptyDataset)
    else if exists m | m in labels :: GoBlank(m) then Err(EmptyMarketID)
    else if AttachFault(snapshots, labels, 0).Some? then Err(AttachFault(snapshots, labels, 0).value)
    else if !(labels.Keys <= MarketsOf(snapshots)) then Err(ExtraLabel)
    else
      var rows := Attach(snapshots, labels);
      if FirstFault(rows, 0).Some? then Err(FirstFault(rows, 0).value) else Ok(rows)
  }

  method Assemble(snapshots: seq<Snapshot>, labels: Labels) returns (r: Result<seq<Row>, RowError>)
    ensures r == Assembled(snapshots, labels)
  {
    hide GoBlank, FirstFault, MarketsOf;
    if |snapshots| == 0 { return Err(EmptyDataset); }
    if exists m | m in labels :: GoBlank(m) { return Err(EmptyMarketID); }
    var markets: set<string> := {};
    NoMarkets(snapshots);
    var rows: seq<Row> := [];
    for i := 0 to |snapshots|
      invariant AttachFault(snapshots, labels, 0) == AttachFault(snapshots, labels, i)
      invariant Labelled(snapshots[..i], labels) && rows == Attach(snapshots[..i], labels)
      invariant markets == MarketsOf(snapshots[..i])
    {
      var snapshot := snapshots[i];
      if GoBlank(snapshot.market) { return Err(EmptyMarketID); }
      if snapshot.market !in labels { return Err(MissingLabel); }
      if snapshot.resolution != labels[snapshot.market].scheduled { return Err(ResolutionMismatch); }
      MarketsPush(snapshots, i);
      markets := markets + {snapshot.market};
      rows := rows + [Row(snapshot, labels[snapshot.market].available, labels[snapshot.market].outcome)];
    }
    assert snapshots[..|snapshots|] == snapshots;
    if exists m | m in labels :: m !in markets { return Err(ExtraLabel); }
    var fault := Validate(rows);
    if fault.Some? { return Err(fault.value); }
    return Ok(rows);
  }

  lemma NoMarkets(snapshots: seq<Snapshot>)
    ensures MarketsOf(snapshots[..0]) == {}
  {
  }

  lemma MarketsPush(snapshots: seq<Snapshot>, i: nat)
    requires i < |snapshots|
    ensures MarketsOf(snapshots[..i + 1]) == MarketsOf(snapshots[..i]) + {snapshots[i].market}
  {
    forall m | m in MarketsOf(snapshots[..i]) + {snapshots[i].market}
      ensures m in MarketsOf(snapshots[..i + 1])
    {
      if m == snapshots[i].market {
        assert snapshots[..i + 1][i].market == m;
      } else {
        var j :| 0 <= j < i && snapshots[..i][j].market == m;
        assert snapshots[..i + 1][j].market == m;
      }
    }
  }

  lemma ValidRowsAreNamed(snapshots: seq<Snapshot>, labels: Labels)
    requires Labelled(snapshots, labels)
    ensures Valid(Attach(snapshots, labels)) ==>
          snapshots != [] && forall i | 0 <= i < |snapshots| :: !GoBlank(snapshots[i].market)
  {
    var rows := Attach(snapshots, labels);
    assert forall i | 0 <= i < |snapshots| :: rows[i].Market() == snapshots[i].market;
  }

  /** Assembling succeeds exactly when every snapshot has its label, every label is used, and the rows are valid. */
  lemma AssembleExact(snapshots: seq<Snapshot>, labels: Labels)
    ensures Assembled(snapshots, labels).Ok?
       <==> && Labelled(snapshots, labels) && Valid(Attach(snapshots, labels))
            && (forall i | 0 <= i < |snapshots| :: snapshots[i].resolution == labels[snapshots[i].market].scheduled)
            && labels.Keys == MarketsOf(snapshots)
    ensures Assembled(snapshots, labels).Ok? ==> Assembled(snapshots, labels).value == Attach(snapshots, labels)
  {
    hide FirstFault, Valid, Attach, RowOk, GoBlank, Follows;
    assert forall i | 0 <= i < |snapshots| :: snapshots[i].market in MarketsOf(snapshots);
    if Labelled(snapshots, labels) {
      var rows := Attach(snapshots, labels);
      ValidateExact(rows);
      ValidRowsAreNamed(snapshots, labels);
    }
  }

  // ----- Acceptance and faults, on the values of the rows alone -----

  /** A row in itself: named, of a known level, dated in int64, with a probability, and labelled after it was made. */
  predicate Sane(r: Row) {
    && (exists i :: 0 <= i < |r.snapshot.market| && !GoSpace(r.snapshot.market[i]))
    && r.snapshot.finality <= 2
    && (0 - TWO63 <= r.snapshot.time < TWO63) && (0 - TWO63 <= r.snapshot.resolution < TWO63)
    && (0 - TWO63 <= r.labelAvailable < TWO63)
    && 0.0 <= r.snapshot.probability <= 1.0
    && r.snapshot.time <= r.snapshot.resolution <= r.labelAvailable && r.snapshot.time != r.labelAvailable
  }

  /** A row against an earlier one: later in position, not earlier in time, and of one label if of one market. */
  predicate Succeeds(a: Row, b: Row) {
    && (a.snapshot.block < b.snapshot.block
        || (a.snapshot.block == b.snapshot.block && a.snapshot.log < b.snapshot.log))
    && a.snapshot.time <= b.snapshot.time
    && (a.snapshot.market == b.snapshot.market ==>
          a.snapshot.resolution == b.snapshot.resolution && a.labelAvailable == b.labelAvailable
          && a.outcome == b.outcome)
  }

  lemma SaneIsOk(r: Row)
    ensures Sane(r) <==> RowOk(r)
  {
  }

  lemma {:induction false} FollowsLater(rows: seq<Row>, i: nat, j: nat)
    requires Valid(rows) && i < j < |rows|
    ensures Follows(rows[i], rows[j])
    decreases j
  {
    assert Follows(rows[j - 1], rows[j]);
    if i < j - 1 { FollowsLater(rows, i, j - 1); }
  }

  /** The one pass accepts exactly the non-empty lists of sane rows, each of which succeeds every earlier one. */
  lemma AcceptedExactly(rows: seq<Row>)
    ensures rows != [] && FirstFault(rows, 0).None? <==>
              && rows != [] && (forall i | 0 <= i < |rows| :: Sane(rows[i]))
              && (forall i, j | 0 <= i < j < |rows| :: Succeeds(rows[i], rows[j]))
  {
    hide RowOk, Sane, FirstFault;
    ValidateExact(rows);
    forall i | 0 <= i < |rows|
      ensures Sane(rows[i]) <==> RowOk(rows[i])
    {
      SaneIsOk(rows[i]);
    }
    if Valid(rows) {
      forall i, j | 0 <= i < j < |rows|
        ensures Succeeds(rows[i], rows[j])
      {
        FollowsLater(rows, i, j);
        assert OneLabel(rows[i], rows[j]);
      }
    }
    if rows != [] && forall i, j | 0 <= i < j < |rows| :: Succeeds(rows[i], rows[j]) {
      forall i | 1 <= i < |rows|
        ensures Follows(rows[i - 1], rows[i])
      {
        assert Succeeds(rows[i - 1], rows[i]);
      }
      forall i, j | 0 <= i < j < |rows|
        ensures OneLabel(rows[i], rows[j])
      {
        assert Succeeds(rows[i], rows[j]);
      }
    }
  }

  /** What an error says of row `i`. */
  ghost predicate Blames(rows: seq<Row>, i: nat, e: RowError)
    requires i < |rows|
  {
    var r, s := rows[i], rows[i].snapshot;
    match e
    case EmptyMarketID => forall k | 0 <= k < |s.market| :: GoSpace(s.market[k])
    case InvalidFinality => s.finality > 2
    case TimestampRange => !(InInt64(s.time) && InInt64(s.resolution) && InInt64(r.labelAvailable))
    case RowOrder =>
      i > 0 && (s.block < rows[i - 1].snapshot.block
                || (s.block == rows[i - 1].snapshot.block && s.log <= rows[i - 1].snapshot.log))
    case TimestampOrder => i > 0 && s.time < rows[i - 1].snapshot.time
    case ProbabilityRange => s.probability < 0.0 || s.probability > 1.0
    case LabelBeforeSchedule => r.labelAvailable < s.resolution
    case PredictionAfterLabel => r.labelAvailable <= s.time
    case ResolutionBeforePrediction => s.resolution < s.time
    case ResolutionMismatch =>
      exists k :: 0 <= k < i && rows[k].snapshot.market == s.market && rows[k].snapshot.resolution != s.resolution
    case MissingLabel =>
      exists k :: 0 <= k < i && rows[k].snapshot.market == s.market
                  && (rows[k].labelAvailable != r.labelAvailable || rows[k].outcome != r.outcome)
    case _ => false
  }

  lemma FaultIsTrue(rows: seq<Row>, i: nat)
    requires i < |rows| && FaultAt(rows, i).Some?
    ensures Blames(rows, i, FaultAt(rows, i).value)
  {
    var k := FirstOf(rows, rows[i].Market());
    assert k <= i;
  }

  /** The error of the validator is true of the first faulty row, and every row before it is faultless. */
  lemma {:induction false} FaultMeans(rows: seq<Row>, i: nat)
    requires i <= |rows| && FirstFault(rows, i).Some?
    ensures exists k ::
              && i <= k < |rows| && Blames(rows, k, FirstFault(rows, i).value)
              && forall j | i <= j < k :: FaultAt(rows, j).None?
    decreases |rows| - i
  {
    hide FaultAt, Blames;
    if FaultAt(rows, i).Some? {
      FaultIsTrue(rows, i);
    } else {
      FaultMeans(rows, i + 1);
    }
  }
}
