/** convertToDygraph of dygraph-helper.js: the union merge.
    The series are sorted by label (descending, stable), every timestamp of every
    point becomes a key of a dictionary, the keys are sorted as strings, and each
    key gives one row `[date, value of series 0, ..., value of series n-1]` whose
    cells are absent where a series has no non-null value at exactly that time. */
module DygraphHelper {
  import opened Series
  import opened Strings
  import opened LabelSort

  /** What series points ps leave in `dataByTime[t]`: the last non-null value
      at time t, or nothing. */
  function LastValue<V>(ps: seq<Point<V>>, t: nat): Option<V>
  {
    if ps == [] then None
    else if ps[|ps| - 1].d == t && ps[|ps| - 1].v.Some? then ps[|ps| - 1].v
    else LastValue(ps[..|ps| - 1], t)
  }

  /** The timestamps of a list of points. */
  function Times<V>(ps: seq<Point<V>>): set<nat>
  {
    set i | 0 <= i < |ps| :: ps[i].d
  }

  /** Every timestamp of every point of every series. */
  function AllTimes<V>(s: seq<Series<V>>): set<nat>
  {
    if s == [] then {} else AllTimes(s[..|s| - 1]) + Times(s[|s| - 1].d)
  }

  function TotalPoints<V>(s: seq<Series<V>>): nat
  {
    if s == [] then 0 else TotalPoints(s[..|s| - 1]) + |s[|s| - 1].d|
  }

  /** The keys in the order `times.sort()` gives them: by their decimal strings. */
  ghost predicate LexIncreasing(ts: seq<nat>)
  {
    forall i, j :: 0 <= i < j < |ts| ==> LexLess(Dec(ts[i]), Dec(ts[j]))
  }

  /** ts lists the key set exactly, in string order. */
  ghost predicate IsTimeAxis(ts: seq<nat>, keys: set<nat>)
  {
    (forall t :: t in ts <==> t in keys) && LexIncreasing(ts)
  }

  /** Every row has the date in front of n cells. */
  ghost predicate WellShaped<V>(rows: seq<seq<Entry<V>>>, n: nat)
  {
    forall k :: 0 <= k < |rows| ==> |rows[k]| == n + 1 && rows[k][0].Stamp?
  }

  ghost function RowTimes<V>(rows: seq<seq<Entry<V>>>, n: nat): seq<nat>
    requires WellShaped(rows, n)
  {
    seq(|rows|, k requires 0 <= k < |rows| => rows[k][0].time)
  }

  /** What convertToDygraph returns for series s, once s is sorted. */
  ghost predicate IsUnionChart<V>(r: Chart<V>, s: seq<Series<V>>)
  {
    if s == [] then r == Empty
    else
      r.Chart? && r.labels == ["Date"] + Labels(s)
      && WellShaped(r.rows, |s|)
      && IsTimeAxis(RowTimes(r.rows, |s|), AllTimes(s))
      && forall k, c :: 0 <= k < |r.rows| && 0 <= c < |s| ==>
           r.rows[k][c + 1] == Sample(LastValue(s[c].d, r.rows[k][0].time))
  }

  /** `dataByTime[t][c]`, or undefined. */
  function Lookup<V>(m: map<nat, map<nat, V>>, t: nat, c: nat): Option<V>
  {
    if t in m && c in m[t] then Some(m[t][c]) else None
  }

  lemma TimesSnoc<V>(ps: seq<Point<V>>, p: nat)
    requires p < |ps|
    ensures Times(ps[..p + 1]) == Times(ps[..p]) + {ps[p].d}
  {
    var a, b := Times(ps[..p + 1]), Times(ps[..p]) + {ps[p].d};
    forall t | t in a ensures t in b {
      var i :| 0 <= i < p + 1 && ps[..p + 1][i].d == t;
      if i < p {
        assert ps[..p][i].d == t;
      }
    }
    forall t | t in b ensures t in a {
      if t in Times(ps[..p]) {
        var i :| 0 <= i < p && ps[..p][i].d == t;
        assert ps[..p + 1][i].d == t;
      } else {
        assert ps[..p + 1][p].d == t;
      }
    }
  }

  /** The smallest key in string order. */
  method LexMin(keys: set<nat>) returns (m: nat)
    requires keys != {}
    ensures m in keys
    ensures forall k :: k in keys && k != m ==> LexLess(Dec(m), Dec(k))
  {
    m :| m in keys;
    var seen := {m};
    var rest := keys - {m};
    while rest != {}
      invariant m in seen && seen + rest == keys && seen !! rest
      invariant forall k :: k in seen && k != m ==> LexLess(Dec(m), Dec(k))
      decreases |rest|
    {
      var k :| k in rest;
      if LexLess(Dec(k), Dec(m)) {
        forall e | e in seen && e != k
          ensures LexLess(Dec(k), Dec(e))
        {
          if e != m {
            LexTransitive(Dec(k), Dec(m), Dec(e));
          }
        }
        m := k;
      } else {
        assert k != m;
        if Dec(k) == Dec(m) {
          DecInjective(k, m);
        }
        LexTotal(Dec(k), Dec(m));
      }
      seen := seen + {k};
      rest := rest - {k};
    }
  }

  /** `Object.keys(dataByTime)` followed by `times.sort()`: the keys are distinct,
      so repeatedly taking the smallest remaining key gives the same order. */
  method SortedKeys(keys: set<nat>) returns (ts: seq<nat>)
    ensures IsTimeAxis(ts, keys)
  {
    ts := [];
    var rest := keys;
    while rest != {}
      invariant forall t :: t in keys <==> t in ts || t in rest
      invariant forall t :: t in ts ==> t !in rest
      invariant LexIncreasing(ts)
      invariant forall i, k :: 0 <= i < |ts| && k in rest ==> LexLess(Dec(ts[i]), Dec(k))
      decreases |rest|
    {
      var m := LexMin(rest);
      ts := ts + [m];
      rest := rest - {m};
    }
  }

  /** byTime is `dataByTime` once the first n series have been read: its keys
      are their timestamps and entry c of key t is series c's last non-null value at t. */
  ghost predicate Dictionary<V>(byTime: map<nat, map<nat, V>>, data: seq<Series<V>>, n: nat)
    requires n <= |data|
  {
    && byTime.Keys == AllTimes(data[..n])
    && forall t: nat, c: nat ::
         Lookup(byTime, t, c) == (if c < n then LastValue(data[c].d, t) else None)
  }

  /** The dictionary after the first p points of series n have been read. */
  ghost predicate PartialDictionary<V>(byTime: map<nat, map<nat, V>>, data: seq<Series<V>>, n: nat, p: nat)
    requires n < |data| && p <= |data[n].d|
  {
    && byTime.Keys == AllTimes(data[..n]) + Times(data[n].d[..p])
    && forall t: nat, c: nat ::
         Lookup(byTime, t, c) ==
         (if c < n then LastValue(data[c].d, t)
          else if c == n then LastValue(data[n].d[..p], t)
          else None)
  }

  /** Lines 33-39 applied to one point of series n. */
  function Record<V>(byTime: map<nat, map<nat, V>>, point: Point<V>, n: nat): map<nat, map<nat, V>>
  {
    var created := if point.d in byTime then byTime else byTime[point.d := map[]];
    if point.v.Some? then created[point.d := created[point.d][n := point.v.value]] else created
  }

  lemma RecordStep<V>(byTime: map<nat, map<nat, V>>, data: seq<Series<V>>, n: nat, p: nat)
    requires n < |data| && p < |data[n].d| && PartialDictionary(byTime, data, n, p)
    ensures PartialDictionary(Record(byTime, data[n].d[p], n), data, n, p + 1)
  {
    var ps, point := data[n].d, data[n].d[p];
    var after := Record(byTime, point, n);
    TimesSnoc(ps, p);
    forall t: nat, c: nat
      ensures Lookup(after, t, c) ==
              (if c < n then LastValue(data[c].d, t)
               else if c == n then LastValue(ps[..p + 1], t)
               else None)
    {
      var prefix := ps[..p + 1];
      assert prefix[..|prefix| - 1] == ps[..p] && prefix[|prefix| - 1] == point;
      if t != point.d || c != n || point.v.None? {
        assert Lookup(after, t, c) == Lookup(byTime, t, c);
      }
    }
  }

  /** The inner loop of dygraph-helper.js lines 28-40: series n's points go into the dictionary.
      A key is created for every point, even one whose value is null. */
  method AddPoints<V>(byTime: map<nat, map<nat, V>>, data: seq<Series<V>>, n: nat)
    returns (byTime': map<nat, map<nat, V>>)
    requires n < |data| && Dictionary(byTime, data, n)
    ensures Dictionary(byTime', data, n + 1)
  {
    byTime' := byTime;
    var target := data[n];
    var targetIndex := 0;
    assert target.d[..0] == [];
    while targetIndex < |target.d|
      invariant 0 <= targetIndex <= |target.d|
      invariant PartialDictionary(byTime', data, n, targetIndex)
    {
      var point := target.d[targetIndex];
      RecordStep(byTime', data, n, targetIndex);
      ghost var expected := Record(byTime', point, n);
      if point.d !in byTime' {
        byTime' := byTime'[point.d := map[]];
      }
      if point.v.Some? {
        var entry: map<nat, V> := byTime'[point.d][n := point.v.value];
        byTime' := byTime'[point.d := entry];
      }
      assert byTime' == expected;
      targetIndex := targetIndex + 1;
    }
    assert target.d[..targetIndex] == target.d;
    assert data[..n + 1][..n] == data[..n];
  }

  /** The loop of dygraph-helper.js lines 47-59: one row per sorted key, the date first and then
      `timeData[dataIndex]` for every series. */
  method BuildRows<V>(byTime: map<nat, map<nat, V>>, data: seq<Series<V>>, times: seq<nat>)
    returns (rows: seq<seq<Entry<V>>>)
    requires Dictionary(byTime, data, |data|)
    requires forall t :: t in times ==> t in byTime
    ensures |rows| == |times|
    ensures forall k :: 0 <= k < |rows| ==> |rows[k]| == |data| + 1 && rows[k][0] == Stamp(times[k])
    ensures forall k, c :: 0 <= k < |rows| && 0 <= c < |data| ==>
              rows[k][c + 1] == Sample(LastValue(data[c].d, times[k]))
  {
    rows := [];
    var timeIndex := 0;
    while timeIndex < |times|
      invariant 0 <= timeIndex <= |times|
      invariant |rows| == timeIndex
      invariant forall k :: 0 <= k < timeIndex ==>
                  |rows[k]| == |data| + 1 && rows[k][0] == Stamp(times[k])
      invariant forall k, c :: 0 <= k < timeIndex && 0 <= c < |data| ==>
                  rows[k][c + 1] == Sample(LastValue(data[c].d, times[k]))
    {
      var time := times[timeIndex];
      var timeData := byTime[time];
      var datapoint := [Stamp(time)];
      var c := 0;
      while c < |data|
        invariant 0 <= c <= |data|
        invariant |datapoint| == c + 1 && datapoint[0] == Stamp(time)
        invariant forall c' :: 0 <= c' < c ==> datapoint[c' + 1] == Sample(LastValue(data[c'].d, time))
      {
        assert Lookup(byTime, time, c) == LastValue(data[c].d, time);
        var cell := if c in timeData then Some(timeData[c]) else None;
        datapoint := datapoint + [Sample(cell)];
        c := c + 1;
      }
      rows := rows + [datapoint];
      timeIndex := timeIndex + 1;
    }
  }

  /** The merge proper, on the already sorted series (dygraph-helper.js lines 13-61). */
  method Merge<V>(data: seq<Series<V>>) returns (r: Chart<V>)
    ensures IsUnionChart(r, data)
  {
    if |data| == 0 {
      return Empty;
    }
    var labels := ["Date"];
    var byTime: map<nat, map<nat, V>> := map[];
    var dataIndex: nat := 0;
    while dataIndex < |data|
      invariant 0 <= dataIndex <= |data|
      invariant labels == ["Date"] + Labels(data[..dataIndex])
      invariant Dictionary(byTime, data, dataIndex)
    {
      LabelsSnoc(data, dataIndex);
      labels := labels + [data[dataIndex].t];
      byTime := AddPoints(byTime, data, dataIndex);
      dataIndex := dataIndex + 1;
    }
    assert data[..dataIndex] == data;

    var times := SortedKeys(byTime.Keys);
    var rows := BuildRows(byTime, data, times);
    assert WellShaped(rows, |data|);
    assert RowTimes(rows, |data|) == times;
    r := Chart(labels, rows);
  }

  /** convertToDygraph(data): sorts the caller's array in place, then merges. */
  method ConvertToDygraph<V>(data: array<Series<V>>) returns (r: Chart<V>)
    modifies data
    ensures data[..] == SortByLabel(old(data[..]))
    ensures IsUnionChart(r, data[..])
  {
    SortSeries(data);
    r := Merge(data[..]);
  }

  /** LastValue against a direct description: it is None exactly when every
      point at t is null, and otherwise it is the value of a point at t after
      which every point at t is null. */
  lemma {:induction false} LastValueSpec<V>(ps: seq<Point<V>>, t: nat)
    ensures LastValue(ps, t).None? <==> forall i :: 0 <= i < |ps| && ps[i].d == t ==> ps[i].v.None?
    ensures LastValue(ps, t).Some? ==>
              exists i :: 0 <= i < |ps| && ps[i].d == t && ps[i].v == LastValue(ps, t) &&
                          forall k :: i < k < |ps| && ps[k].d == t ==> ps[k].v.None?
  {
    if ps != [] {
      var n := |ps| - 1;
      var init := ps[..n];
      if ps[n].d == t && ps[n].v.Some? {
        assert ps[n].d == t && ps[n].v == LastValue(ps, t);
      } else {
        LastValueSpec(init, t);
        assert forall i :: 0 <= i < n ==> init[i] == ps[i];
        if LastValue(ps, t).Some? {
          var i :| 0 <= i < |init| && init[i].d == t && init[i].v == LastValue(init, t) &&
                   forall k :: i < k < |init| && init[k].d == t ==> init[k].v.None?;
          assert ps[i].d == t && ps[i].v == LastValue(ps, t);
        }
      }
    }
  }

  /** Dropping the first key of a time axis leaves an axis of the other keys. */
  lemma AxisTail(ts: seq<nat>, keys: set<nat>)
    requires IsTimeAxis(ts, keys) && ts != []
    ensures ts[0] in keys && IsTimeAxis(ts[1..], keys - {ts[0]})
  {
    LexIrreflexive(Dec(ts[0]));
    forall t ensures t in ts[1..] <==> t in keys - {ts[0]} {
      if t in keys - {ts[0]} {
        var i :| 0 <= i < |ts| && ts[i] == t;
        assert ts[1..][i - 1] == t;
      }
    }
  }

  lemma AxisEmpty(ts: seq<nat>, keys: set<nat>)
    requires IsTimeAxis(ts, keys)
    ensures ts == [] <==> keys == {}
  {
    if ts != [] {
      assert ts[0] in keys;
    }
  }

  /** A key set has one time axis: the sorted order is determined by the keys. */
  lemma {:induction false} AxisUnique(ts: seq<nat>, us: seq<nat>, keys: set<nat>)
    requires IsTimeAxis(ts, keys) && IsTimeAxis(us, keys)
    ensures ts == us
    decreases |ts|
  {
    AxisEmpty(ts, keys);
    AxisEmpty(us, keys);
    if ts != [] && us != [] {
      if ts[0] != us[0] {
        assert ts[0] in us && us[0] in ts;
        var k :| 0 <= k < |us| && us[k] == ts[0];
        var m :| 0 <= m < |ts| && ts[m] == us[0];
        LexAsymmetric(Dec(ts[0]), Dec(us[0]));
        assert false;
      }
      AxisTail(ts, keys);
      AxisTail(us, keys);
      AxisUnique(ts[1..], us[1..], keys - {ts[0]});
      assert ts == [ts[0]] + ts[1..] && us == [us[0]] + us[1..];
    }
  }

  /** Every key appears exactly once, so there are as many rows as keys. */
  lemma {:induction false} AxisLength(ts: seq<nat>, keys: set<nat>)
    requires IsTimeAxis(ts, keys)
    ensures |ts| == |keys|
    decreases |ts|
  {
    if ts != [] {
      AxisTail(ts, keys);
      AxisLength(ts[1..], keys - {ts[0]});
    }
  }

  lemma {:induction false} TimesBound<V>(ps: seq<Point<V>>)
    ensures |Times(ps)| <= |ps|
  {
    if ps != [] {
      var n := |ps| - 1;
      TimesBound(ps[..n]);
      TimesSnoc(ps, n);
      assert ps[..n + 1] == ps;
    } else {
      assert Times(ps) == {};
    }
  }

  lemma {:induction false} AllTimesBound<V>(s: seq<Series<V>>)
    ensures |AllTimes(s)| <= TotalPoints(s)
  {
    if s != [] {
      var n := |s| - 1;
      AllTimesBound(s[..n]);
      TimesBound(s[n].d);
      var a, b := AllTimes(s[..n]), Times(s[n].d);
      assert |a + b| == |a| + |b - a|;
      assert b - a <= b;
    }
  }

  /** Two results that both fit the description are equal: IsUnionChart pins
      down the whole result. */
  lemma UnionChartUnique<V>(r1: Chart<V>, r2: Chart<V>, s: seq<Series<V>>)
    requires IsUnionChart(r1, s) && IsUnionChart(r2, s)
    ensures r1 == r2
  {
    if s != [] {
      var n := |s|;
      AxisUnique(RowTimes(r1.rows, n), RowTimes(r2.rows, n), AllTimes(s));
      assert |r1.rows| == |r2.rows|;
      forall k | 0 <= k < |r1.rows|
        ensures r1.rows[k] == r2.rows[k]
      {
        assert RowTimes(r1.rows, n)[k] == RowTimes(r2.rows, n)[k];
        var time := r1.rows[k][0].time;
        assert r1.rows[k][0] == Stamp(time) == r2.rows[k][0];
        forall c | 1 <= c <= n
          ensures r1.rows[k][c] == r2.rows[k][c]
        {
          var j := c - 1;
          assert r1.rows[k][j + 1] == Sample(LastValue(s[j].d, time));
          assert r2.rows[k][j + 1] == Sample(LastValue(s[j].d, time));
        }
      }
    }
  }

  /** There is one row per distinct timestamp, so at most one per point. */
  lemma UnionRowCount<V>(r: Chart<V>, s: seq<Series<V>>)
    requires IsUnionChart(r, s) && s != []
    ensures |r.rows| == |AllTimes(s)| <= TotalPoints(s)
  {
    AxisLength(RowTimes(r.rows, |s|), AllTimes(s));
    AllTimesBound(s);
  }

  /** When every timestamp has the same number of digits (as ten-digit epoch
      seconds do), the string sort of the keys is the numeric one: rows strictly
      ascend in time. */
  lemma UnionRowsAscending<V>(r: Chart<V>, s: seq<Series<V>>, width: nat)
    requires IsUnionChart(r, s) && s != []
    requires forall t :: t in AllTimes(s) ==> |Dec(t)| == width
    ensures forall i, j :: 0 <= i < j < |r.rows| ==> r.rows[i][0].time < r.rows[j][0].time
  {
    var ts := RowTimes(r.rows, |s|);
    forall i, j | 0 <= i < j < |r.rows|
      ensures r.rows[i][0].time < r.rows[j][0].time
    {
      assert ts[i] in ts && ts[j] in ts;
      DecOrder(ts[i], ts[j]);
    }
  }

  /** Without equal digit counts the string sort is not numeric: a series with
      points at 9 s and 10 s gives the row for 10 before the row for 9. */
  lemma LexAxisCounterexample(r: Chart<int>)
    requires IsUnionChart(r, [Series("a", [Point(9, Some(1)), Point(10, Some(2))])])
    ensures |r.rows| == 2 && r.rows[0][0] == Stamp(10) && r.rows[1][0] == Stamp(9)
  {
    var ps := [Point(9, Some(1)), Point(10, Some(2))];
    var s := [Series("a", ps)];
    assert Times(ps) == {9, 10} by {
      assert ps[0].d == 9 && ps[1].d == 10;
    }
    assert s[..0] == [];
    assert AllTimes(s) == {9, 10};
    assert Dec(10) == ['1', '0'] && Dec(9) == ['9'];
    assert IsTimeAxis([10, 9], {9, 10});
    AxisUnique(RowTimes(r.rows, 1), [10, 9], AllTimes(s));
    assert RowTimes(r.rows, 1)[0] == 10 && RowTimes(r.rows, 1)[1] == 9;
  }
}
