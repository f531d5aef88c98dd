/** The values that flow from the metrics backend to the charts. */
module Series {

  /** A JavaScript value that may be null or undefined (None). */
  datatype Option<+T> = None | Some(value: T)

  /** One sample as the backend sends it: `{d: epochSeconds, v: value}`.
      The value is kept opaque; None stands for a null or missing `v`. */
  datatype Point<V> = Point(d: nat, v: Option<V>)

  /** One target's answer: `{t: label, d: [points]}`. */
  datatype Series<V> = Series(t: string, d: seq<Point<V>>)

  /** An entry of a chart row.
      Stamp(t) is the row's `new Date(t * 1000)`, kept as the second count t;
      Sample(o) is a value copied from a point (None: null or undefined);
      Zero is the literal number 0 that dashboard.js writes for a missing first point. */
  datatype Entry<V> = Stamp(time: nat) | Sample(value: Option<V>) | Zero

  /** What convertToDygraph returns: the empty array `[]`, or the object
      `{labels, datapoints}` whose rows are arrays `[date, cell_0, ..., cell_{n-1}]`. */
  datatype Chart<V> = Empty | Chart(labels: seq<string>, rows: seq<seq<Entry<V>>>)

  /** The labels `t` of the series, in order. */
  function Labels<V>(s: seq<Series<V>>): seq<string>
  {
    seq(|s|, i requires 0 <= i < |s| => s[i].t)
  }

  lemma LabelsSnoc<V>(s: seq<Series<V>>, i: nat)
    requires i < |s|
    ensures Labels(s[..i + 1]) == Labels(s[..i]) + [s[i].t]
  {
  }
}
