/**
  python/src/bellwether_harness/dataset.py: the harness's own validator, which
  groups rows by market, against the exporter's one-pass validator.
 */
module Dataset {
  import opened Types
  import opened Engine
  import opened Rows
  import Chain

  /** str.strip() trims what TrimSpace trims and the four ASCII separators besides. */
  predicate PythonSpace(c: char) {
    GoSpace(c) || 0x1C <= c as int <= 0x1F
  }

  predicate PythonBlank(s: string) {
    forall i | 0 <= i < |s| :: PythonSpace(s[i])
  }

  /** The column-wise checks. */
  predicate ColumnsOk(rows: seq<Row>) {
    && (forall i | 0 <= i < |rows| :: 0.0 <= rows[i].snapshot.probability <= 1.0)
    && (forall i | 0 <= i < |rows| :: rows[i].snapshot.finality <= Chain.FINALIZED)
    && (forall i | 0 <= i < |rows| :: rows[i].snapshot.time <= rows[i].snapshot.resolution)
  }

  predicate InBounds(rows: seq<Row>, group: seq<nat>) {
    forall k | 0 <= k < |group| :: group[k] < |rows|
  }

  function MaxTime(rows: seq<Row>, group: seq<nat>): (m: int)
    requires InBounds(rows, group) && group != []
    ensures forall k | 0 <= k < |group| :: rows[group[k]].snapshot.time <= m
    ensures exists k | 0 <= k < |group| :: rows[group[k]].snapshot.time == m
  {
    var last := rows[group[|group| - 1]].snapshot.time;
    if |group| == 1 then last
    else
      var init := MaxTime(rows, group[..|group| - 1]);
      if init >= last then init else last
  }

  /** The rows of one market agree on their label, which comes after the schedule and after every prediction. */
  ghost predicate GroupOk(rows: seq<Row>, group: seq<nat>)
    requires InBounds(rows, group) && group != []
  {
    var first := rows[group[0]];
    && (forall k | 0 <= k < |group| :: rows[group[k]].Attached() == first.Attached())
    && first.labelAvailable >= first.snapshot.resolution
    && (forall k | 0 <= k < |group| :: first.labelAvailable > rows[group[k]].snapshot.time)
  }

  /** The distinct values of a column, as Python's set display builds them. */
  function Distinct<T(==)>(values: seq<T>): set<T> {
    set v | v in values
  }

  lemma AllEqualDistinct<T>(values: seq<T>)
    requires values != [] && forall k | 0 <= k < |values| :: values[k] == values[0]
    ensures Distinct(values) == {values[0]}
  {
    assert values[0] in Distinct(values);
  }

  lemma OneDistinctValue<T>(values: seq<T>)
    requires values != []
    ensures |Distinct(values)| == 1 <==> forall k | 0 <= k < |values| :: values[k] == values[0]
  {
    var s := Distinct(values);
    assert values[0] in s;
    if |s| == 1 {
      var rest := s - {values[0]};
      assert |rest| == 0;
      forall k | 0 <= k < |values|
        ensures values[k] == values[0]
      {
        assert values[k] in s && values[k] !in rest;
      }
    }
    if forall k | 0 <= k < |values| :: values[k] == values[0] { AllEqualDistinct(values); }
  }

  function Scheduled(rows: seq<Row>, group: seq<nat>): (r: seq<int>)
    requires InBounds(rows, group)
    ensures |r| == |group| && forall k | 0 <= k < |r| :: r[k] == rows[group[k]].snapshot.resolution
  {
    seq(|group|, k requires 0 <= k < |group| => rows[group[k]].snapshot.resolution)
  }

  function Available(rows: seq<Row>, group: seq<nat>): (r: seq<int>)
    requires InBounds(rows, group)
    ensures |r| == |group| && forall k | 0 <= k < |r| :: r[k] == rows[group[k]].labelAvailable
  {
    seq(|group|, k requires 0 <= k < |group| => rows[group[k]].labelAvailable)
  }

  function Outcomes(rows: seq<Row>, group: seq<nat>): (r: seq<bool>)
    requires InBounds(rows, group)
    ensures |r| == |group| && forall k | 0 <= k < |r| :: r[k] == rows[group[k]].outcome
  {
    seq(|group|, k requires 0 <= k < |group| => rows[group[k]].outcome)
  }

  /** One market's checks, on the sets of its distinct values. */
  method CheckGroup(rows: seq<Row>, group: seq<nat>) returns (ok: bool)
    requires InBounds(rows, group) && group != []
    ensures ok <==> GroupOk(rows, group)
  {
    OneDistinctValue(Scheduled(rows, group));
    OneDistinctValue(Available(rows, group));
    OneDistinctValue(Outcomes(rows, group));
    LabelByColumns(rows, group);
    if |Distinct(Scheduled(rows, group))| != 1 { return false; }
    if |Distinct(Available(rows, group))| != 1 { return false; }
    if |Distinct(Outcomes(rows, group))| != 1 { return false; }
    var first := rows[group[0]];
    if first.labelAvailable < first.snapshot.resolution { return false; }
    ok := first.labelAvailable > MaxTime(rows, group);
  }

  /** The label is one value exactly when each of its columns is. */
  lemma LabelByColumns(rows: seq<Row>, group: seq<nat>)
    requires InBounds(rows, group) && group != []
    ensures (forall k | 0 <= k < |group| :: rows[group[k]].Attached() == rows[group[0]].Attached())
       <==> && (forall k | 0 <= k < |group| :: Scheduled(rows, group)[k] == Scheduled(rows, group)[0])
            && (forall k | 0 <= k < |group| :: Available(rows, group)[k] == Available(rows, group)[0])
            && (forall k | 0 <= k < |group| :: Outcomes(rows, group)[k] == Outcomes(rows, group)[0])
  {
    forall k | 0 <= k < |group|
      ensures rows[group[k]].Attached() == rows[group[0]].Attached()
         <==> && Scheduled(rows, group)[k] == Scheduled(rows, group)[0]
              && Available(rows, group)[k] == Available(rows, group)[0]
              && Outcomes(rows, group)[k] == Outcomes(rows, group)[0]
    {
    }
  }

  /** The positions of each market, in row order. */
  ghost predicate GroupsRows(rows: seq<Row>, n: nat, marketRows: map<string, seq<nat>>)
    requires n <= |rows|
  {
    && (forall m | m in marketRows ::
          && marketRows[m] != [] && InBounds(rows, marketRows[m])
          && forall k | 0 <= k < |marketRows[m]| :: marketRows[m][k] < n && rows[marketRows[m][k]].Market() == m)
    && (forall i | 0 <= i < n :: rows[i].Market() in marketRows && i in marketRows[rows[i].Market()])
  }

  method GroupByMarket(rows: seq<Row>) returns (ok: bool, marketRows: map<string, seq<nat>>)
    ensures ok <==> forall i | 0 <= i < |rows| :: !PythonBlank(rows[i].Market())
    ensures ok ==> GroupsRows(rows, |rows|, marketRows)
  {
    marketRows := map[];
    for i := 0 to |rows|
      invariant GroupsRows(rows, i, marketRows)
      invariant forall j | 0 <= j < i :: !PythonBlank(rows[j].Market())
    {
      var id := rows[i].Market();
      if PythonBlank(id) { return false, map[]; }
      var known: seq<nat> := if id in marketRows then marketRows[id] else [];
      ghost var before := marketRows;
      marketRows := marketRows[id := known + [i]];
      forall j | 0 <= j < i + 1
        ensures rows[j].Market() in marketRows && j in marketRows[rows[j].Market()]
      {
        if j == i {
          assert marketRows[id][|known|] == i;
        } else if rows[j].Market() == id {
          assert j in known;
        }
      }
    }
    ok := true;
  }

  method CheckOrder(rows: seq<Row>) returns (ok: bool)
    ensures ok <==> forall i | 1 <= i < |rows| :: Follows(rows[i - 1], rows[i])
  {
    if |rows| == 0 { return true; }
    for index := 1 to |rows|
      invariant forall i | 1 <= i < index :: Follows(rows[i - 1], rows[i])
    {
      var previous, current := rows[index - 1].snapshot, rows[index].snapshot;
      var advances := current.block > previous.block || (current.block == previous.block && current.log > previous.log);
      if !advances { return false; }
      if current.time < previous.time { return false; }
    }
    ok := true;
  }

  /** All markets' rows pass their group's checks. */
  ghost predicate AllGroupsOk(rows: seq<Row>) {
    forall i, j | 0 <= i < |rows| && 0 <= j < |rows| && rows[i].Market() == rows[j].Market() ::
      && rows[i].Attached() == rows[j].Attached()
      && rows[i].labelAvailable >= rows[j].snapshot.resolution
      && rows[i].labelAvailable > rows[j].snapshot.time
  }

  /** What the harness accepts. */
  ghost predicate PythonValid(rows: seq<Row>) {
    && rows != []
    && ColumnsOk(rows)
    && (forall i | 0 <= i < |rows| :: !PythonBlank(rows[i].Market()))
    && AllGroupsOk(rows)
    && (forall i | 1 <= i < |rows| :: Follows(rows[i - 1], rows[i]))
  }

  method CheckGroups(rows: seq<Row>, marketRows: map<string, seq<nat>>) returns (ok: bool)
    requires GroupsRows(rows, |rows|, marketRows)
    ensures ok <==> AllGroupsOk(rows)
  {
    var remaining := marketRows.Keys;
    while remaining != {}
      invariant remaining <= marketRows.Keys
      invariant forall m | m in marketRows && m !in remaining :: GroupOk(rows, marketRows[m])
      decreases |remaining|
    {
      var m :| m in remaining;
      var passed := CheckGroup(rows, marketRows[m]);
      if !passed {
        BadGroup(rows, marketRows, m);
        return false;
      }
      remaining := remaining - {m};
    }
    GoodGroups(rows, marketRows);
    ok := true;
  }

  lemma BadGroup(rows: seq<Row>, marketRows: map<string, seq<nat>>, m: string)
    requires GroupsRows(rows, |rows|, marketRows) && m in marketRows && !GroupOk(rows, marketRows[m])
    ensures !AllGroupsOk(rows)
  {
  }

  lemma GoodGroups(rows: seq<Row>, marketRows: map<string, seq<nat>>)
    requires GroupsRows(rows, |rows|, marketRows) && forall m | m in marketRows :: GroupOk(rows, marketRows[m])
    ensures AllGroupsOk(rows)
  {
    forall i, j | 0 <= i < |rows| && 0 <= j < |rows| && rows[i].Market() == rows[j].Market()
      ensures rows[i].Attached() == rows[j].Attached()
      ensures rows[i].labelAvailable >= rows[j].snapshot.resolution
      ensures rows[i].labelAvailable > rows[j].snapshot.time
    {
      var group := marketRows[rows[i].Market()];
      assert i in group && j in group;
      var a :| 0 <= a < |group| && group[a] == i;
      var b :| 0 <= b < |group| && group[b] == j;
      assert GroupOk(rows, group);
    }
  }

  /** _validate_values, with the row-count check that load_labeled_parquet makes before it. */
  method ValidateValues(rows: seq<Row>) returns (accepted: bool)
    ensures accepted <==> PythonValid(rows)
  {
    if |rows| == 0 { return false; }
    if !ColumnsOk(rows) { return false; }
    var named, marketRows := GroupByMarket(rows);
    if !named { return false; }
    var grouped := CheckGroups(rows, marketRows);
    if !grouped { return false; }
    accepted := CheckOrder(rows);
  }

  // ----- Agreement of the two validators -----

  /**
    On rows whose instants are int64 nanoseconds, which the Parquet schema
    enforces before the harness validates, the two independently written
    validators agree except on market IDs that only Python considers blank.
   */
  lemma ValidatorsAgree(rows: seq<Row>)
    requires forall i | 0 <= i < |rows| ::
      InInt64(rows[i].snapshot.time) && InInt64(rows[i].snapshot.resolution) && InInt64(rows[i].labelAvailable)
    ensures PythonValid(rows) <==> Valid(rows) && forall i | 0 <= i < |rows| :: !PythonBlank(rows[i].Market())
  {
    assert forall i | 0 <= i < |rows| :: GoBlank(rows[i].Market()) ==> PythonBlank(rows[i].Market());
    if PythonValid(rows) { PythonImpliesGo(rows); }
    if Valid(rows) { GoImpliesGroups(rows); }
  }

  lemma PythonImpliesGo(rows: seq<Row>)
    requires PythonValid(rows)
    requires forall i | 0 <= i < |rows| ::
      InInt64(rows[i].snapshot.time) && InInt64(rows[i].snapshot.resolution) && InInt64(rows[i].labelAvailable)
    ensures Valid(rows)
  {
    forall i | 0 <= i < |rows|
      ensures RowOk(rows[i])
    {
      assert !PythonBlank(rows[i].Market());
      assert rows[i].Market() == rows[i].Market() && rows[i].labelAvailable >= rows[i].snapshot.resolution;
    }
  }

  lemma GoImpliesGroups(rows: seq<Row>)
    requires Valid(rows)
    ensures ColumnsOk(rows) && AllGroupsOk(rows)
  {
    assert forall i | 0 <= i < |rows| :: RowOk(rows[i]);
    forall i, j | 0 <= i < |rows| && 0 <= j < |rows| && rows[i].Market() == rows[j].Market()
      ensures rows[i].Attached() == rows[j].Attached()
    {
      assert i < j ==> OneLabel(rows[i], rows[j]);
      assert j < i ==> OneLabel(rows[j], rows[i]);
    }
  }

  /** The disagreement is real: a dataset the exporter accepts and the harness refuses. */
  lemma SeparatorNamedMarket() returns (rows: seq<Row>)
    ensures Valid(rows) && !PythonValid(rows)
  {
    var id := [0x1C as char];
    rows := [Row(Snapshot(id, 1, 0, 1, 2, 0, 0.5, 0.0, 1.0, 0.0, 0), 3, true)];
    assert !GoSpace(id[0]);
    assert PythonBlank(rows[0].Market());
    assert RowOk(rows[0]);
  }
}
