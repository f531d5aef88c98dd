/** JavaScript string comparison and the decimal spelling of timestamps. */
module Strings {

  /** `a < b` on JavaScript strings: lexicographic, a proper prefix is smaller. */
  predicate LexLess(a: string, b: string)
  {
    if |b| == 0 then false
    else if |a| == 0 then true
    else if a[0] != b[0] then a[0] < b[0]
    else LexLess(a[1..], b[1..])
  }

  lemma {:induction false} LexIrreflexive(a: string)
    ensures !LexLess(a, a)
  {
    if |a| > 0 {
      LexIrreflexive(a[1..]);
    }
  }

  lemma {:induction false} LexAsymmetric(a: string, b: string)
    ensures !(LexLess(a, b) && LexLess(b, a))
  {
    if |a| > 0 && |b| > 0 && a[0] == b[0] {
      LexAsymmetric(a[1..], b[1..]);
    }
  }

  lemma {:induction false} LexTransitive(a: string, b: string, c: string)
    requires LexLess(a, b) && LexLess(b, c)
    ensures LexLess(a, c)
  {
    if |a| > 0 && a[0] == b[0] && b[0] == c[0] {
      LexTransitive(a[1..], b[1..], c[1..]);
    }
  }

  /** Any two different strings are ordered one way or the other. */
  lemma {:induction false} LexTotal(a: string, b: string)
    requires a != b
    ensures LexLess(a, b) || LexLess(b, a)
  {
    if |a| > 0 && |b| > 0 && a[0] == b[0] {
      assert a == [a[0]] + a[1..] && b == [b[0]] + b[1..];
      LexTotal(a[1..], b[1..]);
    }
  }

  /** "Not smaller" is transitive, which is what a descending sort relies on. */
  lemma NotLessTransitive(a: string, b: string, c: string)
    requires !LexLess(a, b) && !LexLess(b, c)
    ensures !LexLess(a, c)
  {
    if LexLess(a, c) {
      if a != b {
        LexTotal(a, b);
        LexTransitive(b, a, c);
      }
    }
  }

  /** Comparing two equally long strings that end in one more character each. */
  lemma {:induction false} LexLessSnoc(x: string, y: string, c: char, e: char)
    requires |x| == |y|
    ensures LexLess(x + [c], y + [e]) <==> LexLess(x, y) || (x == y && c < e)
  {
    if |x| == 0 {
      assert x + [c] == [c] && y + [e] == [e];
    } else {
      assert (x + [c])[1..] == x[1..] + [c];
      assert (y + [e])[1..] == y[1..] + [e];
      LexLessSnoc(x[1..], y[1..], c, e);
      if x[0] == y[0] && x[1..] == y[1..] {
        assert x == [x[0]] + x[1..] && y == [y[0]] + y[1..];
      }
    }
  }

  function Digit(n: nat): (c: char)
    requires n < 10
  {
    ('0' as int + n) as char
  }

  /** The decimal spelling of a timestamp: no leading zeros, at least one
      digit. This is how JavaScript turns an integer below 10^21 into an object
      key; larger numbers get exponent notation, which is not modelled. */
  function Dec(n: nat): (s: string)
    ensures |s| >= 1
  {
    if n < 10 then [Digit(n)] else Dec(n / 10) + [Digit(n % 10)]
  }

  /** Distinct timestamps have distinct keys. */
  lemma {:induction false} DecInjective(a: nat, b: nat)
    requires Dec(a) == Dec(b)
    ensures a == b
  {
    if a >= 10 && b >= 10 {
      var da, db := Dec(a), Dec(b);
      assert da[..|da| - 1] == Dec(a / 10);
      assert db[..|db| - 1] == Dec(b / 10);
      DecInjective(a / 10, b / 10);
      assert da[|da| - 1] == Digit(a % 10);
      assert db[|db| - 1] == Digit(b % 10);
    }
  }

  /** For timestamps spelt with the same number of digits, the string order of
      their keys is their numeric order. */
  lemma {:induction false} DecOrder(a: nat, b: nat)
    requires |Dec(a)| == |Dec(b)|
    ensures LexLess(Dec(a), Dec(b)) <==> a < b
  {
    if a >= 10 && b >= 10 {
      LexLessSnoc(Dec(a / 10), Dec(b / 10), Digit(a % 10), Digit(b % 10));
      DecOrder(a / 10, b / 10);
      if Dec(a / 10) == Dec(b / 10) {
        DecInjective(a / 10, b / 10);
      }
    }
  }
}
