/** Shared vocabulary: optional values and the order JavaScript uses on strings. */
module Basics {

  datatype Option<+T> = None | Some(value: T)

  /** Strict lexicographic order on strings, the order of `<` and of an argument-less `sort()`. */
  predicate Before(a: string, b: string) {
    && b != []
    && (a == [] || a[0] < b[0] || (a[0] == b[0] && Before(a[1..], b[1..])))
  }

  lemma {:induction false} BeforeIsIrreflexive(a: string)
    ensures !Before(a, a)
  {
    if a != [] { BeforeIsIrreflexive(a[1..]); }
  }

  lemma {:induction false} BeforeIsTotal(a: string, b: string)
    ensures Before(a, b) || a == b || Before(b, a)
  {
    if a != [] && b != [] && a[0] == b[0] {
      BeforeIsTotal(a[1..], b[1..]);
      if a[1..] == b[1..] { assert a == [a[0]] + a[1..] == b; }
    }
  }

  lemma {:induction false} BeforeIsTransitive(a: string, b: string, c: string)
    requires Before(a, b) && Before(b, c)
    ensures Before(a, c)
  {
    if a != [] && a[0] == b[0] == c[0] { BeforeIsTransitive(a[1..], b[1..], c[1..]); }
  }

  /** Strings that share a prefix are ordered as their remainders are. */
  lemma {:induction false} BeforeSkipsCommonPrefix(p: string, a: string, b: string)
    ensures Before(p + a, p + b) == Before(a, b)
  {
    if p == [] {
      assert p + a == a && p + b == b;
    } else {
      assert (p + a)[1..] == p[1..] + a && (p + b)[1..] == p[1..] + b;
      BeforeSkipsCommonPrefix(p[1..], a, b);
    }
  }

  /** Two strings of one length that differ are ordered whatever is appended to them. */
  lemma {:induction false} BeforeDecidedEarly(a: string, b: string, x: string, y: string)
    requires |a| == |b| && Before(a, b)
    ensures Before(a + x, b + y)
  {
    assert (a + x)[1..] == a[1..] + x && (b + y)[1..] == b[1..] + y;
    if a[0] == b[0] { BeforeDecidedEarly(a[1..], b[1..], x, y); }
  }

  // ---- Sums over a finite set of keys ----

  ghost function SumOver(s: set<string>, f: string -> int): int {
    if s == {} then 0 else
      var x :| x in s;
      f(x) + SumOver(s - {x}, f)
  }

  lemma {:induction false} SumOverRemove(s: set<string>, f: string -> int, y: string)
    requires y in s
    ensures SumOver(s, f) == f(y) + SumOver(s - {y}, f)
  {
    var x :| x in s && SumOver(s, f) == f(x) + SumOver(s - {x}, f);
    if x != y {
      SumOverRemove(s - {x}, f, y);
      SumOverRemove(s - {y}, f, x);
      assert s - {x} - {y} == s - {y} - {x};
    }
  }

  lemma {:induction false} SumOverEqual(s: set<string>, f: string -> int, g: string -> int)
    requires forall x | x in s :: f(x) == g(x)
    ensures SumOver(s, f) == SumOver(s, g)
  {
    if s != {} {
      var x :| x in s;
      SumOverRemove(s, f, x);
      SumOverRemove(s, g, x);
      SumOverEqual(s - {x}, f, g);
    }
  }

  /** Changing the summand at one key changes the sum by as much. */
  lemma SumOverChange(s: set<string>, f: string -> int, g: string -> int, y: string)
    requires y in s
    requires forall x | x in s && x != y :: f(x) == g(x)
    ensures SumOver(s, g) == SumOver(s, f) + g(y) - f(y)
  {
    SumOverRemove(s, f, y);
    SumOverRemove(s, g, y);
    SumOverEqual(s - {y}, f, g);
  }

  lemma {:induction false} SumOverDifference(s: set<string>, f: string -> int, g: string -> int, h: string -> int)
    requires forall x | x in s :: h(x) == f(x) - g(x)
    ensures SumOver(s, h) == SumOver(s, f) - SumOver(s, g)
  {
    if s != {} {
      var x :| x in s;
      SumOverRemove(s, f, x);
      SumOverRemove(s, g, x);
      SumOverRemove(s, h, x);
      SumOverDifference(s - {x}, f, g, h);
    }
  }

  lemma {:induction false} SumOfZeros(s: set<string>, f: string -> int)
    requires forall x | x in s :: f(x) == 0
    ensures SumOver(s, f) == 0
  {
    SumOverDifference(s, f, f, f);
  }

  lemma {:induction false} SumOfNonNegatives(s: set<string>, f: string -> int)
    requires forall x | x in s :: f(x) >= 0
    ensures SumOver(s, f) >= 0
    ensures forall x | x in s :: f(x) <= SumOver(s, f)
  {
    if s != {} {
      var x :| x in s && SumOver(s, f) == f(x) + SumOver(s - {x}, f);
      SumOfNonNegatives(s - {x}, f);
    }
  }

  lemma {:induction false} SumIsMonotone(s: set<string>, f: string -> int, g: string -> int)
    requires forall x | x in s :: f(x) <= g(x)
    ensures SumOver(s, f) <= SumOver(s, g)
  {
    var d := (x: string) => g(x) - f(x);
    SumOfNonNegatives(s, d);
    SumOverDifference(s, g, f, d);
  }

  lemma {:induction false} SumOfConstant(s: set<string>, c: int)
    ensures SumOver(s, (x: string) => c) == c * |s|
  {
    if s != {} {
      var x :| x in s;
      SumOverRemove(s, (x: string) => c, x);
      SumOfConstant(s - {x}, c);
      assert c * |s| == c + c * |s - {x}|;
    }
  }
}
