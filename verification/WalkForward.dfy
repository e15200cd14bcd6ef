/**
  python/src/bellwether_harness/splits.py and evaluation.py: expanding folds, the
  rows a model may be trained on, and why nothing leaks from the test window.
  Model fitting and scoring are not modelled.
 */
module WalkForward {
  import opened Types
  import opened Rows
  import opened Dataset

  datatype Config = Config(initialTrainRows: nat, embargoRows: nat, testRows: nat, stepRows: nat)
  {
    /** __post_init__ */
    predicate Valid() {
      initialTrainRows > 0 && embargoRows > 0 && testRows > 0 && stepRows > 0 && stepRows >= testRows
    }
  }

  /** Half-open row bounds. */
  datatype Fold = Fold(trainStart: nat, trainEnd: nat, embargoStart: nat, embargoEnd: nat, testStart: nat, testEnd: nat)

  datatype EvaluationError = UnorderedTimestamps | NoFolds | CutoffNotBeforeEmbargo | MarketOverlap | OneClass

  datatype FoldEvaluation = FoldEvaluation(boundaries: Fold, cutoff: int, eligible: seq<nat>, test: seq<nat>)

  predicate Monotonic(timestamps: seq<int>) {
    forall i | 1 <= i < |timestamps| :: timestamps[i - 1] <= timestamps[i]
  }

  /** The k-th fold: training grows by the step, embargo and test follow it. */
  function FoldAt(c: Config, k: nat): Fold {
    var trainEnd := c.initialTrainRows + k * c.stepRows;
    Fold(0, trainEnd, trainEnd, trainEnd + c.embargoRows, trainEnd + c.embargoRows,
      trainEnd + c.embargoRows + c.testRows)
  }

  /** Exactly the folds that fit into `n` rows. */
  predicate AreFolds(folds: seq<Fold>, c: Config, n: nat) {
    && (forall k | 0 <= k < |folds| :: folds[k] == FoldAt(c, k) && folds[k].testEnd <= n)
    && FoldAt(c, |folds|).testEnd > n
  }

  method CheckMonotonic(timestamps: seq<int>) returns (ok: bool)
    ensures ok <==> Monotonic(timestamps)
  {
    if |timestamps| == 0 { return true; }
    for index := 1 to |timestamps|
      invariant forall i | 1 <= i < index :: timestamps[i - 1] <= timestamps[i]
    {
      if timestamps[index] < timestamps[index - 1] { return false; }
    }
    ok := true;
  }

  /** The fold generator, run to its end. */
  method Splits(timestamps: seq<int>, c: Config) returns (r: Result<seq<Fold>, EvaluationError>)
    requires c.Valid()
    ensures r.Err? <==> !Monotonic(timestamps)
    ensures r.Err? ==> r.error == UnorderedTimestamps
    ensures r.Ok? ==> AreFolds(r.value, c, |timestamps|)
  {
    var monotonic := CheckMonotonic(timestamps);
    if !monotonic { return Err(UnorderedTimestamps); }
    var folds: seq<Fold> := [];
    var trainEnd := c.initialTrainRows;
    var rowCount := |timestamps|;
    while trainEnd + c.embargoRows + c.testRows <= rowCount
      invariant trainEnd == c.initialTrainRows + |folds| * c.stepRows
      invariant forall k | 0 <= k < |folds| :: folds[k] == FoldAt(c, k) && folds[k].testEnd <= rowCount
      decreases rowCount + c.stepRows - trainEnd
    {
      var embargoStart := trainEnd;
      var embargoEnd := embargoStart + c.embargoRows;
      var testStart := embargoEnd;
      var testEnd := testStart + c.testRows;
      folds := folds + [Fold(0, trainEnd, embargoStart, embargoEnd, testStart, testEnd)];
      trainEnd := trainEnd + c.stepRows;
    }
    r := Ok(folds);
  }

  // ----- One fold -----

  function Times(rows: seq<Row>): (r: seq<int>)
    ensures |r| == |rows| && forall i | 0 <= i < |r| :: r[i] == rows[i].snapshot.time
  {
    seq(|rows|, i requires 0 <= i < |rows| => rows[i].snapshot.time)
  }

  /** The training rows below `end` whose label is available at the cutoff, in order. */
  function Eligible(rows: seq<Row>, end: nat, cutoff: int): (e: seq<nat>)
    requires end <= |rows|
    ensures forall i :: i in e <==> 0 <= i < end && rows[i].labelAvailable <= cutoff
    ensures forall a | 0 <= a < |e| :: e[a] < end
    ensures forall a, b | 0 <= a < b < |e| :: e[a] < e[b]
  {
    if end == 0 then []
    else Eligible(rows, end - 1, cutoff) + if rows[end - 1].labelAvailable <= cutoff then [end - 1] else []
  }

  function Range(from: nat, to: nat): (r: seq<nat>)
    requires from <= to
    ensures |r| == to - from && forall k | 0 <= k < |r| :: r[k] == from + k
    ensures forall i :: i in r <==> from <= i < to
  {
    if from == to then [] else Range(from, to - 1) + [to - 1]
  }

  function Markets(rows: seq<Row>, at: seq<nat>): set<string>
    requires InBounds(rows, at)
  {
    set k | 0 <= k < |at| :: rows[at[k]].Market()
  }

  function Classes(rows: seq<Row>, at: seq<nat>): set<bool>
    requires InBounds(rows, at)
  {
    set k | 0 <= k < |at| :: rows[at[k]].outcome
  }

  predicate InDataset(f: Fold, rows: seq<Row>) {
    f.trainStart == 0 < f.trainEnd == f.embargoStart < f.embargoEnd == f.testStart < f.testEnd <= |rows|
  }

  function EvaluateFold(rows: seq<Row>, f: Fold): (r: Result<FoldEvaluation, EvaluationError>)
    requires InDataset(f, rows)
    ensures r.Ok? ==> r.value.boundaries == f
    ensures r.Err? ==> r.error in {CutoffNotBeforeEmbargo, MarketOverlap, OneClass}
  {
    var cutoff := rows[f.trainEnd - 1].snapshot.time;
    var eligible := Eligible(rows, f.trainEnd, cutoff);
    var test := Range(f.testStart, f.testEnd);
    if cutoff >= rows[f.embargoStart].snapshot.time then Err(CutoffNotBeforeEmbargo)
    else if Markets(rows, eligible) * Markets(rows, test) != {} then Err(MarketOverlap)
    else if |Classes(rows, eligible)| < 2 then Err(OneClass)
    else Ok(FoldEvaluation(f, cutoff, eligible, test))
  }

  /** One iteration of the fold loop. */
  method CheckFold(rows: seq<Row>, fold: Fold) returns (r: Result<FoldEvaluation, EvaluationError>)
    requires InDataset(fold, rows)
    ensures r == EvaluateFold(rows, fold)
  {
    var cutoff := rows[fold.trainEnd - 1].snapshot.time;
    var firstEmbargo := rows[fold.embargoStart].snapshot.time;
    if cutoff >= firstEmbargo { return Err(CutoffNotBeforeEmbargo); }
    var eligible := SelectEligible(rows, fold.trainEnd, cutoff);
    var test := Range(fold.testStart, fold.testEnd);
    var overlap := Markets(rows, eligible) * Markets(rows, test);
    if overlap != {} { return Err(MarketOverlap); }
    if |Classes(rows, eligible)| < 2 { return Err(OneClass); }
    r := Ok(FoldEvaluation(fold, cutoff, eligible, test));
  }

  lemma FoldFits(rows: seq<Row>, c: Config, k: nat)
    requires c.Valid() && FoldAt(c, k).testEnd <= |rows|
    ensures InDataset(FoldAt(c, k), rows)
  {
  }

  /** Every complete fold of the dataset, evaluated. */
  predicate IsEvaluation(rows: seq<Row>, c: Config, folds: seq<FoldEvaluation>) {
    && folds != []
    && (forall k | 0 <= k < |folds| ::
          && folds[k].boundaries == FoldAt(c, k) && InDataset(FoldAt(c, k), rows)
          && EvaluateFold(rows, FoldAt(c, k)) == Ok(folds[k]))
    && FoldAt(c, |folds|).testEnd > |rows|
  }

  /** Fold `k` fails with the error and every fold before it succeeds. */
  predicate FailsFirst(rows: seq<Row>, c: Config, k: nat, e: EvaluationError) {
    && InDataset(FoldAt(c, k), rows) && EvaluateFold(rows, FoldAt(c, k)) == Err(e)
    && forall j | 0 <= j < k :: InDataset(FoldAt(c, j), rows) && EvaluateFold(rows, FoldAt(c, j)).Ok?
  }

  /** evaluate_walk_forward up to the models: the folds with their training and test rows. */
  method Evaluate(rows: seq<Row>, c: Config) returns (r: Result<seq<FoldEvaluation>, EvaluationError>)
    requires c.Valid()
    ensures r.Ok? ==> Monotonic(Times(rows)) && IsEvaluation(rows, c, r.value)
    ensures r.Err? ==> match r.error
                       case UnorderedTimestamps => !Monotonic(Times(rows))
                       case NoFolds => Monotonic(Times(rows)) && FoldAt(c, 0).testEnd > |rows|
                       case e => Monotonic(Times(rows)) && exists k: nat :: FailsFirst(rows, c, k, e)
  {
    hide EvaluateFold, Times, Monotonic, FoldAt, InDataset;
    var split := Splits(Times(rows), c);
    if split.Err? { return Err(split.error); }
    var folds := split.value;
    if |folds| == 0 { return Err(NoFolds); }
    var results: seq<FoldEvaluation> := [];
    for i := 0 to |folds|
      invariant |results| == i
      invariant forall k | 0 <= k < i ::
        && results[k].boundaries == FoldAt(c, k) && InDataset(FoldAt(c, k), rows)
        && EvaluateFold(rows, FoldAt(c, k)) == Ok(results[k])
    {
      var fold := folds[i];
      FoldFits(rows, c, i);
      var result := CheckFold(rows, fold);
      if result.Err? {
        assert FailsFirst(rows, c, i, result.error);
        return Err(result.error);
      }
      results := results + [result.value];
    }
    r := Ok(results);
  }

  /** The boolean mask over the candidate rows. */
  method SelectEligible(rows: seq<Row>, end: nat, cutoff: int) returns (eligible: seq<nat>)
    requires end <= |rows|
    ensures eligible == Eligible(rows, end, cutoff)
  {
    eligible := [];
    for i := 0 to end
      invariant eligible == Eligible(rows, i, cutoff)
    {
      if rows[i].labelAvailable <= cutoff { eligible := eligible + [i]; }
    }
  }

  // ----- Nothing leaks -----

  lemma {:induction false} MonotonicSpans(times: seq<int>, i: nat, j: nat)
    requires Monotonic(times) && i <= j < |times|
    ensures times[i] <= times[j]
    decreases j - i
  {
    if i < j { MonotonicSpans(times, i, j - 1); }
  }

  /**
    In a successful fold every training label was known at the cutoff, the cutoff
    strictly precedes every test row, every known label was used, and no market
    is on both sides.
   */
  lemma FoldDoesNotLeak(rows: seq<Row>, f: Fold)
    requires Monotonic(Times(rows)) && InDataset(f, rows) && EvaluateFold(rows, f).Ok?
    ensures var e := EvaluateFold(rows, f).value;
            && (forall i | i in e.eligible :: i < f.trainEnd && rows[i].labelAvailable <= e.cutoff)
            && (forall i | 0 <= i < f.trainEnd && rows[i].labelAvailable <= e.cutoff :: i in e.eligible)
            && (forall t | t in e.test :: f.testStart <= t < f.testEnd && e.cutoff < rows[t].snapshot.time)
            && (forall i, t | i in e.eligible && t in e.test :: rows[i].Market() != rows[t].Market())
  {
    var e := EvaluateFold(rows, f).value;
    forall t | t in e.test
      ensures e.cutoff < rows[t].snapshot.time
    {
      MonotonicSpans(Times(rows), f.embargoStart, t);
    }
    forall i, t | i in e.eligible && t in e.test
      ensures rows[i].Market() != rows[t].Market()
    {
      assert rows[i].Market() in Markets(rows, e.eligible);
      assert rows[t].Market() in Markets(rows, e.test);
      assert Markets(rows, e.eligible) * Markets(rows, e.test) == {};
      assert rows[i].Market() !in Markets(rows, e.eligible) * Markets(rows, e.test);
    }
  }

  lemma AcceptedIsMonotonic(rows: seq<Row>)
    requires PythonValid(rows)
    ensures Monotonic(Times(rows))
  {
    forall i | 1 <= i < |rows|
      ensures Times(rows)[i - 1] <= Times(rows)[i]
    {
      assert Follows(rows[i - 1], rows[i]);
    }
  }

  /** For any dataset the harness accepts, the train/test market-overlap error cannot be reached. */
  lemma OverlapIsUnreachable(rows: seq<Row>, f: Fold)
    requires PythonValid(rows) && InDataset(f, rows)
    ensures EvaluateFold(rows, f) != Err(MarketOverlap)
  {
    hide PythonValid;
    var cutoff := rows[f.trainEnd - 1].snapshot.time;
    if cutoff < rows[f.embargoStart].snapshot.time {
      var eligible, test := Eligible(rows, f.trainEnd, cutoff), Range(f.testStart, f.testEnd);
      AcceptedIsMonotonic(rows);
      forall a, b | 0 <= a < |eligible| && 0 <= b < |test|
        ensures rows[eligible[a]].Market() != rows[test[b]].Market()
      {
        assert eligible[a] in eligible;
        MonotonicSpans(Times(rows), f.embargoStart, test[b]);
        LabelsKnownEarlier(rows, eligible[a], test[b], cutoff);
      }
      assert Markets(rows, eligible) * Markets(rows, test) == {};
    }
  }

  /** A label known before some row was predicted cannot be that row's. */
  lemma LabelsKnownEarlier(rows: seq<Row>, i: nat, t: nat, cutoff: int)
    requires PythonValid(rows) && i < |rows| && t < |rows|
    requires rows[i].labelAvailable <= cutoff < rows[t].snapshot.time
    ensures rows[i].Market() != rows[t].Market()
  {
  }

  /** Across folds: test windows are disjoint and what may be trained on only grows. */
  lemma FoldsProgress(rows: seq<Row>, c: Config, j: nat, k: nat)
    requires c.Valid() && Monotonic(Times(rows)) && j < k
    requires InDataset(FoldAt(c, j), rows) && InDataset(FoldAt(c, k), rows)
    requires EvaluateFold(rows, FoldAt(c, j)).Ok? && EvaluateFold(rows, FoldAt(c, k)).Ok?
    ensures var e, f := EvaluateFold(rows, FoldAt(c, j)).value, EvaluateFold(rows, FoldAt(c, k)).value;
            && (forall t | t in e.test :: t !in f.test)
            && e.cutoff <= f.cutoff
            && (forall i | i in e.eligible :: i in f.eligible)
  {
    hide FoldAt, Monotonic;
    LaterFoldStartsAfter(c, j, k);
    MonotonicSpans(Times(rows), FoldAt(c, j).trainEnd - 1, FoldAt(c, k).trainEnd - 1);
  }

  lemma {:induction false} StepsApart(j: nat, k: nat, step: nat)
    requires j < k
    ensures j * step + step <= k * step
    decreases k
  {
    if j + 1 < k { StepsApart(j, k - 1, step); }
    assert k * step == (k - 1) * step + step;
  }

  lemma LaterFoldStartsAfter(c: Config, j: nat, k: nat)
    requires c.Valid() && j < k
    ensures FoldAt(c, j).trainEnd < FoldAt(c, k).trainEnd
    ensures FoldAt(c, j).testEnd <= FoldAt(c, k).testStart
  {
    StepsApart(j, k, c.stepRows);
  }

  /**
    Leakage freedom of a whole evaluation of ordered rows: in every fold each
    training label was available by a cutoff strictly before every test row and
    train and test share no market; later folds train on no less; and no row is
    in two test windows.
   */
  lemma NothingLeaks(rows: seq<Row>, c: Config, folds: seq<FoldEvaluation>)
    requires c.Valid() && Monotonic(Times(rows)) && IsEvaluation(rows, c, folds)
    ensures forall k, i, t | 0 <= k < |folds| && i in folds[k].eligible && t in folds[k].test ::
              && i < |rows| && t < |rows|
              && rows[i].labelAvailable <= folds[k].cutoff < rows[t].snapshot.time
              && rows[i].Market() != rows[t].Market()
    ensures forall j, k, i | 0 <= j < k < |folds| && i in folds[j].eligible :: i in folds[k].eligible
    ensures forall j, k, t | 0 <= j < k < |folds| && t in folds[j].test :: t !in folds[k].test
  {
    forall k | 0 <= k < |folds| {
      FoldDoesNotLeak(rows, FoldAt(c, k));
    }
    forall j, k | 0 <= j < k < |folds| {
      FoldsProgress(rows, c, j, k);
    }
  }

  // ----- What a fold is, without the code that makes it -----

  /** The latest decision time of the training rows. */
  predicate LatestTraining(rows: seq<Row>, f: Fold, cutoff: int)
    requires InDataset(f, rows)
  {
    && (forall i | 0 <= i < f.trainEnd :: rows[i].snapshot.time <= cutoff)
    && (exists i :: 0 <= i < f.trainEnd && rows[i].snapshot.time == cutoff)
  }

  /** Row `i` may be trained on: its label is available by the cutoff. */
  predicate Trainable(rows: seq<Row>, f: Fold, cutoff: int, i: nat)
    requires InDataset(f, rows)
  {
    i < f.trainEnd && rows[i].labelAvailable <= cutoff
  }

  /** The embargo does not begin later than the cutoff. */
  predicate NoGap(rows: seq<Row>, f: Fold, cutoff: int)
    requires InDataset(f, rows)
  {
    rows[f.embargoStart].snapshot.time <= cutoff
  }

  /** Some row that may be trained on is of the market. */
  ghost predicate TrainsOn(rows: seq<Row>, f: Fold, cutoff: int, market: string)
    requires InDataset(f, rows)
  {
    exists i: nat :: Trainable(rows, f, cutoff, i) && rows[i].snapshot.market == market
  }

  /** Some test row is of a market that is trained on. */
  ghost predicate SharesMarket(rows: seq<Row>, f: Fold, cutoff: int)
    requires InDataset(f, rows)
  {
    exists t :: f.testStart <= t < f.testEnd && TrainsOn(rows, f, cutoff, rows[t].snapshot.market)
  }

  ghost predicate BothOutcomes(rows: seq<Row>, f: Fold, cutoff: int)
    requires InDataset(f, rows)
  {
    && (exists i: nat :: Trainable(rows, f, cutoff, i) && rows[i].outcome)
    && (exists i: nat :: Trainable(rows, f, cutoff, i) && !rows[i].outcome)
  }

  lemma EligibleMarkets(rows: seq<Row>, f: Fold, cutoff: int, market: string)
    requires InDataset(f, rows)
    ensures market in Markets(rows, Eligible(rows, f.trainEnd, cutoff)) <==> TrainsOn(rows, f, cutoff, market)
  {
    var eligible := Eligible(rows, f.trainEnd, cutoff);
    hide Eligible;
    if market in Markets(rows, eligible) {
      var a :| 0 <= a < |eligible| && rows[eligible[a]].Market() == market;
      assert eligible[a] in eligible;
      assert Trainable(rows, f, cutoff, eligible[a]) by { EligibleRow(rows, f, cutoff, eligible[a]); }
    }
    if i: nat :| Trainable(rows, f, cutoff, i) && rows[i].snapshot.market == market {
      EligibleRow(rows, f, cutoff, i);
      var a :| 0 <= a < |eligible| && eligible[a] == i;
      assert rows[eligible[a]].Market() == market;
    }
  }

  lemma EligibleRow(rows: seq<Row>, f: Fold, cutoff: int, i: nat)
    requires InDataset(f, rows)
    ensures i in Eligible(rows, f.trainEnd, cutoff) <==> Trainable(rows, f, cutoff, i)
  {
  }

  lemma TestMarkets(rows: seq<Row>, f: Fold, market: string)
    requires InDataset(f, rows)
    ensures market in Markets(rows, Range(f.testStart, f.testEnd))
       <==> exists t :: f.testStart <= t < f.testEnd && rows[t].snapshot.market == market
  {
    var test := Range(f.testStart, f.testEnd);
    if t :| f.testStart <= t < f.testEnd && rows[t].snapshot.market == market {
      assert test[t - f.testStart] == t;
      assert rows[test[t - f.testStart]].Market() == market;
    }
  }

  lemma OverlapIsSharing(rows: seq<Row>, f: Fold, cutoff: int)
    requires InDataset(f, rows)
    ensures var eligible, test := Eligible(rows, f.trainEnd, cutoff), Range(f.testStart, f.testEnd);
            Markets(rows, eligible) * Markets(rows, test) != {} <==> SharesMarket(rows, f, cutoff)
  {
    hide Eligible, Range, Markets, Trainable;
    var eligible, test := Eligible(rows, f.trainEnd, cutoff), Range(f.testStart, f.testEnd);
    assert InBounds(rows, eligible) && InBounds(rows, test) by { FoldInBounds(rows, f, cutoff); }
    var trained, tested := Markets(rows, eligible), Markets(rows, test);
    if m :| m in trained * tested {
      EligibleMarkets(rows, f, cutoff, m);
      TestMarkets(rows, f, m);
    }
    if SharesMarket(rows, f, cutoff) {
      var t :| f.testStart <= t < f.testEnd && TrainsOn(rows, f, cutoff, rows[t].snapshot.market);
      EligibleMarkets(rows, f, cutoff, rows[t].snapshot.market);
      TestMarkets(rows, f, rows[t].snapshot.market);
      assert rows[t].snapshot.market in trained * tested;
    }
  }

  lemma FoldInBounds(rows: seq<Row>, f: Fold, cutoff: int)
    requires InDataset(f, rows)
    ensures InBounds(rows, Eligible(rows, f.trainEnd, cutoff)) && InBounds(rows, Range(f.testStart, f.testEnd))
  {
  }

  lemma ClassesAreOutcomes(rows: seq<Row>, f: Fold, cutoff: int)
    requires InDataset(f, rows)
    ensures |Classes(rows, Eligible(rows, f.trainEnd, cutoff))| >= 2 <==> BothOutcomes(rows, f, cutoff)
  {
    EligibleOutcomes(rows, f, cutoff, true);
    EligibleOutcomes(rows, f, cutoff, false);
    TwoOutcomes(Classes(rows, Eligible(rows, f.trainEnd, cutoff)));
  }

  lemma EligibleOutcomes(rows: seq<Row>, f: Fold, cutoff: int, outcome: bool)
    requires InDataset(f, rows)
    ensures outcome in Classes(rows, Eligible(rows, f.trainEnd, cutoff))
       <==> exists i: nat :: Trainable(rows, f, cutoff, i) && rows[i].outcome == outcome
  {
    var eligible := Eligible(rows, f.trainEnd, cutoff);
    if outcome in Classes(rows, eligible) {
      var a :| 0 <= a < |eligible| && rows[eligible[a]].outcome == outcome;
      assert eligible[a] in eligible;
      EligibleRow(rows, f, cutoff, eligible[a]);
    }
    if i: nat :| Trainable(rows, f, cutoff, i) && rows[i].outcome == outcome {
      EligibleRow(rows, f, cutoff, i);
      var a :| 0 <= a < |eligible| && eligible[a] == i;
      assert rows[eligible[a]].outcome == outcome;
    }
  }

  lemma TwoOutcomes(classes: set<bool>)
    ensures |classes| >= 2 <==> true in classes && false in classes
  {
    if true in classes && false in classes {
      SubsetSize({true, false}, classes);
    } else {
      assert forall o | o in classes :: o == (true in classes);
      SubsetSize(classes, {true in classes});
    }
  }

  lemma {:induction false} SubsetSize<T>(a: set<T>, b: set<T>)
    requires a <= b
    ensures |a| <= |b|
  {
    if a != {} {
      var x :| x in a;
      SubsetSize(a - {x}, b - {x});
    }
  }

  lemma LastTimeIsLatest(rows: seq<Row>, f: Fold, cutoff: int)
    requires Monotonic(Times(rows)) && InDataset(f, rows)
    ensures LatestTraining(rows, f, cutoff) <==> cutoff == rows[f.trainEnd - 1].snapshot.time
  {
    var last := f.trainEnd - 1;
    forall i | 0 <= i < f.trainEnd
      ensures rows[i].snapshot.time <= rows[last].snapshot.time
    {
      MonotonicSpans(Times(rows), i, last);
    }
  }

  /**
    A fold of ordered rows, exactly.  With the latest decision time of its training
    rows as the cutoff, it fails if the embargo does not begin later, or else if a
    trainable row shares its market with a test row, or else if the trainable rows
    have one outcome; otherwise it trains on exactly the trainable rows in order and
    is tested on exactly the rows of its window.
   */
  lemma FoldExactly(rows: seq<Row>, f: Fold, cutoff: int)
    requires Monotonic(Times(rows)) && InDataset(f, rows) && LatestTraining(rows, f, cutoff)
    ensures var r := EvaluateFold(rows, f);
            && (r == Err(CutoffNotBeforeEmbargo) <==> NoGap(rows, f, cutoff))
            && (r == Err(MarketOverlap) <==> !NoGap(rows, f, cutoff) && SharesMarket(rows, f, cutoff))
            && (r == Err(OneClass) <==>
                  !NoGap(rows, f, cutoff) && !SharesMarket(rows, f, cutoff) && !BothOutcomes(rows, f, cutoff))
            && (r.Ok? ==>
                  && r.value.cutoff == cutoff
                  && (forall i: nat :: i in r.value.eligible <==> Trainable(rows, f, cutoff, i))
                  && (forall a, b | 0 <= a < b < |r.value.eligible| :: r.value.eligible[a] < r.value.eligible[b])
                  && |r.value.test| == f.testEnd - f.testStart
                  && (forall a | 0 <= a < |r.value.test| :: r.value.test[a] == f.testStart + a))
  {
    hide Monotonic, Times, Markets, Classes, SharesMarket, BothOutcomes, LatestTraining;
    LastTimeIsLatest(rows, f, cutoff);
    OverlapIsSharing(rows, f, cutoff);
    ClassesAreOutcomes(rows, f, cutoff);
  }

  /**
    The windows of a whole evaluation: the first fold trains on the configured number
    of rows, each next one on a step more, the embargo and the test window that follow
    have the configured sizes, every window lies in the dataset, and one step further
    no fold would fit.
   */
  lemma WindowsExactly(rows: seq<Row>, c: Config, folds: seq<FoldEvaluation>)
    requires c.Valid() && IsEvaluation(rows, c, folds)
    ensures folds != [] && folds[0].boundaries.trainEnd == c.initialTrainRows
    ensures forall k | 1 <= k < |folds| ::
              folds[k].boundaries.trainEnd == folds[k - 1].boundaries.trainEnd + c.stepRows
    ensures forall k | 0 <= k < |folds| ::
              var f := folds[k].boundaries;
              && f.trainStart == 0 && f.embargoStart == f.trainEnd && f.testStart == f.embargoEnd
              && f.embargoEnd - f.embargoStart == c.embargoRows && f.testEnd - f.testStart == c.testRows
              && f.testEnd <= |rows|
    ensures folds[|folds| - 1].boundaries.testEnd + c.stepRows > |rows|
  {
    forall k | 1 <= k < |folds|
      ensures folds[k].boundaries.trainEnd == folds[k - 1].boundaries.trainEnd + c.stepRows
    {
      assert k * c.stepRows == (k - 1) * c.stepRows + c.stepRows;
    }
    var n := |folds|;
    assert n * c.stepRows == (n - 1) * c.stepRows + c.stepRows;
  }

  /** Every evaluated fold is such a fold. */
  lemma EvaluationExactly(rows: seq<Row>, c: Config, folds: seq<FoldEvaluation>, k: nat)
    requires c.Valid() && Monotonic(Times(rows)) && IsEvaluation(rows, c, folds) && k < |folds|
    ensures var e := folds[k];
            && InDataset(e.boundaries, rows)
            && LatestTraining(rows, e.boundaries, e.cutoff)
            && !NoGap(rows, e.boundaries, e.cutoff)
            && !SharesMarket(rows, e.boundaries, e.cutoff) && BothOutcomes(rows, e.boundaries, e.cutoff)
            && (forall i: nat :: i in e.eligible <==> Trainable(rows, e.boundaries, e.cutoff, i))
            && (forall t: nat :: t in e.test <==> e.boundaries.testStart <= t < e.boundaries.testEnd)
  {
    hide Monotonic, Times, SharesMarket, BothOutcomes, LatestTraining, FoldAt, Markets, Classes;
    var f := folds[k].boundaries;
    var cutoff := rows[f.trainEnd - 1].snapshot.time;
    LastTimeIsLatest(rows, f, cutoff);
    FoldExactly(rows, f, cutoff);
  }
}
