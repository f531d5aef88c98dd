/** The first step of the union merge: `data.sort(...)` puts the series in
    descending order of their labels, so that a target keeps its colour from one
    refresh to the next. The comparator returns 1, -1 or 0 from JavaScript's
    string `<` and `>`, and `Array.prototype.sort` is stable (ECMAScript 2019 on),
    so series with equal labels keep their relative order. */
module LabelSort {
  import opened Series
  import opened Strings

  /** Inserts x behind every element whose label is not smaller than x's label
      (so behind the equal ones, which came earlier in the input). */
  function Insert<V>(s: seq<Series<V>>, x: Series<V>): seq<Series<V>>
  {
    if s == [] then [x]
    else if LexLess(s[|s| - 1].t, x.t) then Insert(s[..|s| - 1], x) + [s[|s| - 1]]
    else s + [x]
  }

  /** The order the comparator asks for: insertion sort, one element at a time. */
  function SortByLabel<V>(s: seq<Series<V>>): seq<Series<V>>
  {
    if s == [] then [] else Insert(SortByLabel(s[..|s| - 1]), s[|s| - 1])
  }

  /** Labels never increase from left to right. */
  ghost predicate DescendingByLabel<V>(s: seq<Series<V>>)
  {
    forall i, j :: 0 <= i < j < |s| ==> !LexLess(s[i].t, s[j].t)
  }

  /** The series carrying label l, in their order in s. */
  function WithLabel<V>(s: seq<Series<V>>, l: string): seq<Series<V>>
  {
    if s == [] then []
    else WithLabel(s[..|s| - 1], l) + (if s[|s| - 1].t == l then [s[|s| - 1]] else [])
  }

  ghost predicate AllAtLeast<V>(s: seq<Series<V>>, l: string)
  {
    forall i :: 0 <= i < |s| ==> !LexLess(s[i].t, l)
  }

  lemma {:induction false} InsertMultiset<V>(s: seq<Series<V>>, x: Series<V>)
    ensures multiset(Insert(s, x)) == multiset(s) + multiset{x}
  {
    if s != [] && LexLess(s[|s| - 1].t, x.t) {
      InsertMultiset(s[..|s| - 1], x);
      assert s == s[..|s| - 1] + [s[|s| - 1]];
    }
  }

  lemma {:induction false} InsertAtLeast<V>(s: seq<Series<V>>, x: Series<V>, l: string)
    requires AllAtLeast(s, l) && !LexLess(x.t, l)
    ensures AllAtLeast(Insert(s, x), l)
  {
    if s != [] && LexLess(s[|s| - 1].t, x.t) {
      InsertAtLeast(s[..|s| - 1], x, l);
    }
  }

  lemma {:induction false} InsertSorted<V>(s: seq<Series<V>>, x: Series<V>)
    requires DescendingByLabel(s)
    ensures DescendingByLabel(Insert(s, x))
  {
    if s == [] {
    } else {
      var last := s[|s| - 1];
      if LexLess(last.t, x.t) {
        var init := s[..|s| - 1];
        InsertSorted(init, x);
        LexAsymmetric(last.t, x.t);
        InsertAtLeast(init, x, last.t);
      } else {
        forall i | 0 <= i < |s| - 1
          ensures !LexLess(s[i].t, x.t)
        {
          NotLessTransitive(s[i].t, last.t, x.t);
        }
      }
    }
  }

  lemma {:induction false} WithLabelAppend<V>(a: seq<Series<V>>, b: seq<Series<V>>, l: string)
    ensures WithLabel(a + b, l) == WithLabel(a, l) + WithLabel(b, l)
  {
    if b != [] {
      assert (a + b)[..|a + b| - 1] == a + b[..|b| - 1];
      WithLabelAppend(a, b[..|b| - 1], l);
    } else {
      assert a + b == a;
    }
  }

  lemma {:induction false} InsertStable<V>(s: seq<Series<V>>, x: Series<V>, l: string)
    ensures WithLabel(Insert(s, x), l) == WithLabel(s, l) + WithLabel([x], l)
  {
    if s == [] {
    } else {
      var init, last := s[..|s| - 1], s[|s| - 1];
      if LexLess(last.t, x.t) {
        InsertStable(init, x, l);
        WithLabelAppend(Insert(init, x), [last], l);
        LexIrreflexive(x.t);
        assert last.t != x.t;
        assert WithLabel([last], l) == WithLabel([], l) + (if last.t == l then [last] else []);
        assert WithLabel([x], l) == WithLabel([], l) + (if x.t == l then [x] else []);
      } else {
        WithLabelAppend(s, [x], l);
      }
    }
  }

  /** The sorted sequence holds exactly the input's series. */
  lemma {:induction false} SortByLabelPermutation<V>(s: seq<Series<V>>)
    ensures multiset(SortByLabel(s)) == multiset(s)
    ensures |SortByLabel(s)| == |s|
  {
    if s != [] {
      var init, last := s[..|s| - 1], s[|s| - 1];
      SortByLabelPermutation(init);
      InsertMultiset(SortByLabel(init), last);
      assert s == init + [last];
      assert multiset(s) == multiset(init) + multiset{last};
      assert |Insert(SortByLabel(init), last)| == |multiset(Insert(SortByLabel(init), last))|;
    }
  }

  /** The sorted sequence is in descending label order. */
  lemma {:induction false} SortByLabelSorted<V>(s: seq<Series<V>>)
    ensures DescendingByLabel(SortByLabel(s))
  {
    if s != [] {
      SortByLabelSorted(s[..|s| - 1]);
      InsertSorted(SortByLabel(s[..|s| - 1]), s[|s| - 1]);
    }
  }

  /** Stability: the series with any one label appear in the input's order. */
  lemma {:induction false} SortByLabelStable<V>(s: seq<Series<V>>, l: string)
    ensures WithLabel(SortByLabel(s), l) == WithLabel(s, l)
  {
    if s != [] {
      var init, last := s[..|s| - 1], s[|s| - 1];
      SortByLabelStable(init, l);
      InsertStable(SortByLabel(init), last, l);
      assert WithLabel([last], l) == WithLabel([], l) + (if last.t == l then [last] else []);
    }
  }

  /** One swap of the insertion step moves x in front of a smaller label. */
  lemma SwapKeepsInsert<V>(b: seq<Series<V>>, j: nat, k: nat, x: Series<V>)
    requires 0 < j < k <= |b| && b[j] == x && LexLess(b[j - 1].t, x.t)
    ensures Insert(b[..j], x) + b[j + 1..k] == Insert(b[..j - 1], x) + b[j - 1 := x][j := b[j - 1]][j..k]
  {
    assert b[..j][..j - 1] == b[..j - 1];
    assert b[j - 1 := x][j := b[j - 1]][j..k] == [b[j - 1]] + b[j + 1..k];
  }

  /** Where the swaps stop, x goes right behind the prefix. */
  lemma InsertStops<V>(p: seq<Series<V>>, x: Series<V>)
    requires p == [] || !LexLess(p[|p| - 1].t, x.t)
    ensures Insert(p, x) == p + [x]
  {
  }

  /** Moves a[i] to its place in the sorted prefix a[..i] by adjacent swaps. */
  method InsertAt<V>(a: array<Series<V>>, i: nat)
    requires i < a.Length
    modifies a
    ensures a[..i + 1] == Insert(old(a[..i]), old(a[i]))
    ensures a[i + 1..] == old(a[i + 1..])
  {
    ghost var sorted := a[..i];
    var x := a[i];
    var j := i;
    while j > 0 && LexLess(a[j - 1].t, a[j].t)
      invariant 0 <= j <= i
      invariant a[j] == x
      invariant a[i + 1..] == old(a[i + 1..])
      invariant Insert(sorted, x) == Insert(a[..j], x) + a[j + 1..i + 1]
    {
      ghost var before := a[..];
      SwapKeepsInsert(before, j, i + 1, x);
      a[j - 1], a[j] := a[j], a[j - 1];
      assert a[..] == before[j - 1 := x][j := before[j - 1]];
      assert a[..j - 1] == before[..j - 1];
      j := j - 1;
    }
    InsertStops(a[..j], x);
    assert a[..i + 1] == a[..j] + [x] + a[j + 1..i + 1];
  }

  /** `data.sort(comparator)` on the caller's array, in place. */
  method SortSeries<V>(a: array<Series<V>>)
    modifies a
    ensures a[..] == SortByLabel(old(a[..]))
  {
    ghost var orig := a[..];
    var i := 0;
    while i < a.Length
      invariant 0 <= i <= a.Length
      invariant a[..i] == SortByLabel(orig[..i])
      invariant a[i..] == orig[i..]
    {
      InsertAt(a, i);
      assert orig[..i + 1][..i] == orig[..i];
      i := i + 1;
    }
    assert a[..] == a[..a.Length] && orig == orig[..a.Length];
  }
}
