/** convertToDygraph of dashboard.js: the index-aligned merge.
    Row i is built from point i of every series; its date is that of point i of
    the first series. A series without a point i contributes 0 in the first row
    and, in later rows, entry j of the previous row, where j is the series'
    index; since entry 0 of a row is its date, that is the previous cell of the
    series to its left, not its own. */
module Dashboard {
  import opened Series

  /** Which entry of the previous row a missing point copies: Neighbour is
      `datapoints[i - 1][j]` as written, Own is `datapoints[i - 1][j + 1]`,
      the series' own previous cell. */
  datatype Carry = Neighbour | Own

  function CarryColumn(carry: Carry, j: nat): nat
  {
    match carry
    case Neighbour => j
    case Own => j + 1
  }

  /** rows are the first |rows| rows the loop of dashboard.js lines 8-22 builds for data. */
  ghost predicate AlignedRows<V>(rows: seq<seq<Entry<V>>>, data: seq<Series<V>>, carry: Carry)
    requires data != []
  {
    && |rows| <= |data[0].d|
    && (forall i :: 0 <= i < |rows| ==> |rows[i]| == |data| + 1 && rows[i][0] == Stamp(data[0].d[i].d))
    // a point that exists is copied unchanged, even when its value is null
    && (forall i, j :: 0 <= i < |rows| && 0 <= j < |data| && i < |data[j].d| ==>
          rows[i][j + 1] == Sample(data[j].d[i].v))
    // a series without a first point gets 0 in the first row
    && (forall j :: 0 <= j < |data| && |data[j].d| == 0 && |rows| > 0 ==> rows[0][j + 1] == Zero)
    // a missing later point copies an entry of the previous row
    && (forall i, j :: 0 < i < |rows| && 0 <= j < |data| && i >= |data[j].d| ==>
          rows[i][j + 1] == rows[i - 1][CarryColumn(carry, j)])
  }

  /** A full result: `[]` for no series, otherwise one row per point of the
      first series and the labels "Date" and every `t` in input order. */
  ghost predicate IsAlignedChart<V>(r: Chart<V>, data: seq<Series<V>>, carry: Carry)
  {
    if data == [] then r == Empty
    else
      r.Chart? && r.labels == ["Date"] + Labels(data)
      && |r.rows| == |data[0].d| && AlignedRows(r.rows, data, carry)
  }

  /** row is the row the loop builds after rows: the date of the first series'
      point, each existing point's `v`, and for a missing point 0 in the first
      row or the carried entry of the previous row. */
  ghost predicate NextRow<V>(row: seq<Entry<V>>, rows: seq<seq<Entry<V>>>, data: seq<Series<V>>, carry: Carry)
    requires data != [] && |rows| < |data[0].d| && AlignedRows(rows, data, carry)
  {
    var i := |rows|;
    && |row| == |data| + 1 && row[0] == Stamp(data[0].d[i].d)
    && (forall j :: 0 <= j < |data| && i < |data[j].d| ==> row[j + 1] == Sample(data[j].d[i].v))
    && (forall j :: 0 <= j < |data| && i >= |data[j].d| ==>
          row[j + 1] == if i > 0 then rows[i - 1][CarryColumn(carry, j)] else Zero)
  }

  lemma AppendRow<V>(row: seq<Entry<V>>, rows: seq<seq<Entry<V>>>, data: seq<Series<V>>, carry: Carry)
    requires data != [] && |rows| < |data[0].d| && AlignedRows(rows, data, carry)
    requires NextRow(row, rows, data, carry)
    ensures AlignedRows(rows + [row], data, carry)
  {
    var all := rows + [row];
    assert forall k :: 0 <= k < |rows| ==> all[k] == rows[k];
    assert all[|rows|] == row;
  }

  /** The body of the loop of dashboard.js lines 9-21: row i, given the rows before it. */
  method BuildRow<V>(data: seq<Series<V>>, carry: Carry, rows: seq<seq<Entry<V>>>, i: nat)
    returns (datapoint: seq<Entry<V>>)
    requires data != [] && i == |rows| < |data[0].d| && AlignedRows(rows, data, carry)
    ensures NextRow(datapoint, rows, data, carry)
  {
    datapoint := [Stamp(data[0].d[i].d)];
    var j := 0;
    while j < |data|
      invariant 0 <= j <= |data|
      invariant |datapoint| == j + 1 && datapoint[0] == Stamp(data[0].d[i].d)
      invariant forall k :: 0 <= k < j ==>
                  datapoint[k + 1] ==
                  (if i < |data[k].d| then Sample(data[k].d[i].v)
                   else if i > 0 then rows[i - 1][CarryColumn(carry, k)]
                   else Zero)
    {
      if i < |data[j].d| {
        datapoint := datapoint + [Sample(data[j].d[i].v)];
      } else if i > 0 {
        datapoint := datapoint + [rows[i - 1][CarryColumn(carry, j)]];
      } else {
        datapoint := datapoint + [Zero];
      }
      j := j + 1;
    }
  }

  /** The outer loop of dashboard.js lines 8-22. */
  method BuildRows<V>(data: seq<Series<V>>, carry: Carry) returns (rows: seq<seq<Entry<V>>>)
    requires data != []
    ensures |rows| == |data[0].d| && AlignedRows(rows, data, carry)
  {
    rows := [];
    var i := 0;
    while i < |data[0].d|
      invariant 0 <= i <= |data[0].d| && |rows| == i
      invariant AlignedRows(rows, data, carry)
    {
      var datapoint := BuildRow(data, carry, rows, i);
      AppendRow(datapoint, rows, data, carry);
      rows := rows + [datapoint];
      i := i + 1;
    }
  }

  /** The label loop of dashboard.js lines 24-27: no sort, input order. */
  method CollectLabels<V>(data: seq<Series<V>>) returns (labels: seq<string>)
    ensures labels == ["Date"] + Labels(data)
  {
    labels := ["Date"];
    var i := 0;
    while i < |data|
      invariant 0 <= i <= |data|
      invariant labels == ["Date"] + Labels(data[..i])
    {
      LabelsSnoc(data, i);
      labels := labels + [data[i].t];
      i := i + 1;
    }
    assert data[..i] == data;
  }

  /** convertToDygraph(data) of dashboard.js, as written. The input is only read. */
  method ConvertToDygraph<V>(data: seq<Series<V>>) returns (r: Chart<V>)
    ensures IsAlignedChart(r, data, Neighbour)
  {
    if |data| == 0 {
      return Empty;
    }
    var rows := BuildRows(data, Neighbour);
    var labels := CollectLabels(data);
    r := Chart(labels, rows);
  }

  /** The same merge with the carry-over reading the series' own previous cell,
      so that a series that ran out of points repeats its last value. */
  method ConvertToDygraphFilled<V>(data: seq<Series<V>>) returns (r: Chart<V>)
    ensures IsAlignedChart(r, data, Own)
  {
    if |data| == 0 {
      return Empty;
    }
    var rows := BuildRows(data, Own);
    var labels := CollectLabels(data);
    r := Chart(labels, rows);
  }

  /** The description fixes the result: two charts that both meet it have
      equal rows up to any index, so they are equal. */
  lemma {:induction false} AlignedRowsUnique<V>(r1: Chart<V>, r2: Chart<V>, data: seq<Series<V>>, carry: Carry, i: nat)
    requires IsAlignedChart(r1, data, carry) && IsAlignedChart(r2, data, carry) && data != []
    requires i < |r1.rows|
    ensures r1.rows[i] == r2.rows[i]
  {
    if i > 0 {
      AlignedRowsUnique(r1, r2, data, carry, i - 1);
    }
    forall c | 1 <= c <= |data|
      ensures r1.rows[i][c] == r2.rows[i][c]
    {
      var j := c - 1;
      if i < |data[j].d| {
        assert r1.rows[i][j + 1] == Sample(data[j].d[i].v) == r2.rows[i][j + 1];
      } else if i == 0 {
        assert r1.rows[0][j + 1] == Zero == r2.rows[0][j + 1];
      } else {
        var col := CarryColumn(carry, j);
        assert r1.rows[i][j + 1] == r1.rows[i - 1][col];
        assert r2.rows[i][j + 1] == r2.rows[i - 1][col];
      }
    }
  }

  lemma AlignedChartUnique<V>(r1: Chart<V>, r2: Chart<V>, data: seq<Series<V>>, carry: Carry)
    requires IsAlignedChart(r1, data, carry) && IsAlignedChart(r2, data, carry)
    ensures r1 == r2
  {
    if data != [] {
      forall i | 0 <= i < |r1.rows|
        ensures r1.rows[i] == r2.rows[i]
      {
        AlignedRowsUnique(r1, r2, data, carry, i);
      }
    }
  }

  /** Where a cell of the as-written merge comes from: it is 0, or the value of
      point i - (j - k) of a series k <= j, found by following the diagonal up and
      to the left until a series has that point. */
  lemma {:induction false} CarryOverDiagonal<V>(r: Chart<V>, data: seq<Series<V>>, i: nat, j: nat)
    requires IsAlignedChart(r, data, Neighbour) && data != []
    requires i < |r.rows| && j < |data|
    ensures r.rows[i][j + 1] == Zero ||
            exists k :: 0 <= k <= j && j - k <= i && i - (j - k) < |data[k].d| &&
                        r.rows[i][j + 1] == Sample(data[k].d[i - (j - k)].v)
  {
    if i < |data[j].d| {
      assert i - (j - j) < |data[j].d| && r.rows[i][j + 1] == Sample(data[j].d[i - (j - j)].v);
    } else if i > 0 {
      // the first series has a point for every row, so j is not 0 here
      assert j > 0;
      CarryOverDiagonal(r, data, i - 1, j - 1);
      assert r.rows[i][j + 1] == r.rows[i - 1][(j - 1) + 1];
      if r.rows[i][j + 1] != Zero {
        var k :| 0 <= k <= j - 1 && (j - 1) - k <= i - 1 && (i - 1) - ((j - 1) - k) < |data[k].d| &&
                 r.rows[i - 1][(j - 1) + 1] == Sample(data[k].d[(i - 1) - ((j - 1) - k)].v);
        assert i - (j - k) == (i - 1) - ((j - 1) - k);
      }
    }
  }

  /** The date of a row never leaks into a series column: the `[i - 1][0]` case
      of the carry-over cannot happen, because the first series has every point. */
  lemma SeriesColumnsHoldNoDate<V>(r: Chart<V>, data: seq<Series<V>>)
    requires IsAlignedChart(r, data, Neighbour) && data != []
    ensures forall i, c :: 0 <= i < |r.rows| && 1 <= c <= |data| ==> !r.rows[i][c].Stamp?
  {
    forall i, c | 0 <= i < |r.rows| && 1 <= c <= |data|
      ensures !r.rows[i][c].Stamp?
    {
      CarryOverDiagonal(r, data, i, c - 1);
    }
  }

  /** With the own-column carry, a series that ran out of points keeps showing
      its last point's value, or 0 if it never had one. */
  lemma {:induction false} FilledRepeatsLastValue<V>(r: Chart<V>, data: seq<Series<V>>, i: nat, j: nat)
    requires IsAlignedChart(r, data, Own) && data != []
    requires i < |r.rows| && j < |data| && i >= |data[j].d|
    ensures r.rows[i][j + 1] ==
            if |data[j].d| == 0 then Zero else Sample(data[j].d[|data[j].d| - 1].v)
  {
    if i > 0 {
      if i - 1 >= |data[j].d| {
        FilledRepeatsLastValue(r, data, i - 1, j);
      }
      assert r.rows[i][j + 1] == r.rows[i - 1][j + 1];
    }
  }

  /** The as-written carry-over takes a neighbour's value: series b has a point
      only at index 0, and its cell in row 1 is series a's value 1 where the
      own-column carry gives b's own last value 7. */
  lemma CarryOverTakesNeighbour(r: Chart<int>, f: Chart<int>)
    requires IsAlignedChart(r, [Series("a", [Point(0, Some(1)), Point(60, Some(2))]),
                                Series("b", [Point(0, Some(7))])], Neighbour)
    requires IsAlignedChart(f, [Series("a", [Point(0, Some(1)), Point(60, Some(2))]),
                                Series("b", [Point(0, Some(7))])], Own)
    ensures r.rows[1][2] == Sample(Some(1))
    ensures f.rows[1][2] == Sample(Some(7))
  {
    var data := [Series("a", [Point(0, Some(1)), Point(60, Some(2))]), Series("b", [Point(0, Some(7))])];
    assert r.rows[1][1 + 1] == r.rows[0][CarryColumn(Neighbour, 1)];
    assert r.rows[0][0 + 1] == Sample(data[0].d[0].v);
    FilledRepeatsLastValue(f, data, 1, 1);
  }
}
