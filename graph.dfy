/** graph.js: reshaping series for the d3/nvd3 charts. The formatters are plain
    maps over the points; each chart's datum is a map over the series. */
module Graph {
  import opened Series

  /** A point of the line chart: `{x: d, y: v}`. */
  datatype XY<V> = XY(x: nat, y: Option<V>)

  /** A series of an nvd3 chart: `{key, values}`. */
  datatype Keyed<T> = Keyed(key: string, values: T)

  const TargetPrefix: string := "Target: "

  /** d3_format_linear_data: every point becomes `{x: d, y: v}`, in order,
      none dropped, a null value passed on. */
  function LinearFormat<V>(ps: seq<Point<V>>): (r: seq<XY<V>>)
    ensures |r| == |ps|
    ensures forall i :: 0 <= i < |ps| ==> r[i].x == ps[i].d && r[i].y == ps[i].v
  {
    seq(|ps|, i requires 0 <= i < |ps| => XY(ps[i].d, ps[i].v))
  }

  /** d3_format_stacked_data: every point becomes the pair `[d, v]`, in order,
      none dropped, a null value passed on. */
  function StackedFormat<V>(ps: seq<Point<V>>): (r: seq<(nat, Option<V>)>)
    ensures |r| == |ps|
    ensures forall i :: 0 <= i < |ps| ==> r[i].0 == ps[i].d && r[i].1 == ps[i].v
  {
    seq(|ps|, i requires 0 <= i < |ps| => (ps[i].d, ps[i].v))
  }

  /** The datum plotLineGraph hands to d3: one keyed entry per series. */
  function LineDatum<V>(data: seq<Series<V>>): (r: seq<Keyed<seq<XY<V>>>>)
    ensures |r| == |data|
    ensures forall i :: 0 <= i < |data| ==>
              r[i].key == TargetPrefix + data[i].t && r[i].values == LinearFormat(data[i].d)
  {
    seq(|data|, i requires 0 <= i < |data| => Keyed(TargetPrefix + data[i].t, LinearFormat(data[i].d)))
  }

  /** The datum plotStackedGraph hands to d3: one keyed entry per series. */
  function StackedDatum<V>(data: seq<Series<V>>): (r: seq<Keyed<seq<(nat, Option<V>)>>>)
    ensures |r| == |data|
    ensures forall i :: 0 <= i < |data| ==>
              r[i].key == TargetPrefix + data[i].t && r[i].values == StackedFormat(data[i].d)
  {
    seq(|data|, i requires 0 <= i < |data| => Keyed(TargetPrefix + data[i].t, StackedFormat(data[i].d)))
  }

  /** Reading points back from the line chart's values. */
  function PointsOfLinear<V>(xs: seq<XY<V>>): seq<Point<V>>
  {
    seq(|xs|, i requires 0 <= i < |xs| => Point(xs[i].x, xs[i].y))
  }

  /** Reading points back from the stacked chart's values. */
  function PointsOfStacked<V>(ps: seq<(nat, Option<V>)>): seq<Point<V>>
  {
    seq(|ps|, i requires 0 <= i < |ps| => Point(ps[i].0, ps[i].1))
  }

  /** Reading the series back from a datum: strip the key's prefix. */
  function SeriesOfLineDatum<V>(r: seq<Keyed<seq<XY<V>>>>): seq<Series<V>>
  {
    seq(|r|, i requires 0 <= i < |r| =>
      Series(if TargetPrefix <= r[i].key then r[i].key[|TargetPrefix|..] else r[i].key,
             PointsOfLinear(r[i].values)))
  }

  function SeriesOfStackedDatum<V>(r: seq<Keyed<seq<(nat, Option<V>)>>>): seq<Series<V>>
  {
    seq(|r|, i requires 0 <= i < |r| =>
      Series(if TargetPrefix <= r[i].key then r[i].key[|TargetPrefix|..] else r[i].key,
             PointsOfStacked(r[i].values)))
  }

  /** The line format loses nothing: the points can be read back. */
  lemma LinearRoundTrip<V>(ps: seq<Point<V>>)
    ensures PointsOfLinear(LinearFormat(ps)) == ps
  {
    var back := PointsOfLinear(LinearFormat(ps));
    assert forall i :: 0 <= i < |ps| ==> back[i] == ps[i];
  }

  /** The stacked format loses nothing: the points can be read back. */
  lemma StackedRoundTrip<V>(ps: seq<Point<V>>)
    ensures PointsOfStacked(StackedFormat(ps)) == ps
  {
    var back := PointsOfStacked(StackedFormat(ps));
    assert forall i :: 0 <= i < |ps| ==> back[i] == ps[i];
  }

  /** The two formatters agree point by point: x is the pair's first component,
      y its second. */
  lemma FormatsAgree<V>(ps: seq<Point<V>>)
    ensures |LinearFormat(ps)| == |StackedFormat(ps)|
    ensures forall i :: 0 <= i < |ps| ==>
              LinearFormat(ps)[i].x == StackedFormat(ps)[i].0 &&
              LinearFormat(ps)[i].y == StackedFormat(ps)[i].1
  {
  }

  /** The line chart's datum keeps every series, in order, label and points:
      reading it back gives the input. */
  lemma LineDatumRoundTrip<V>(data: seq<Series<V>>)
    ensures SeriesOfLineDatum(LineDatum(data)) == data
  {
    var r := LineDatum(data);
    var back := SeriesOfLineDatum(r);
    forall i | 0 <= i < |data|
      ensures back[i] == data[i]
    {
      assert TargetPrefix <= r[i].key;
      assert r[i].key[|TargetPrefix|..] == data[i].t;
      LinearRoundTrip(data[i].d);
    }
  }

  /** The stacked chart's datum keeps every series, in order, label and points. */
  lemma StackedDatumRoundTrip<V>(data: seq<Series<V>>)
    ensures SeriesOfStackedDatum(StackedDatum(data)) == data
  {
    var r := StackedDatum(data);
    var back := SeriesOfStackedDatum(r);
    forall i | 0 <= i < |data|
      ensures back[i] == data[i]
    {
      assert TargetPrefix <= r[i].key;
      assert r[i].key[|TargetPrefix|..] == data[i].t;
      StackedRoundTrip(data[i].d);
    }
  }

  /** Both charts show the same series under the same keys in the same order. */
  lemma DatumsAgree<V>(data: seq<Series<V>>)
    ensures |LineDatum(data)| == |StackedDatum(data)|
    ensures forall i :: 0 <= i < |data| ==> LineDatum(data)[i].key == StackedDatum(data)[i].key
  {
  }
}
