/** Sums of a per-row quantity over the rows of a table. */
module Sums {

  ghost function Sum<T>(s: set<T>, f: T -> int): int
    decreases |s|
  {
    if s == {} then 0
    else
      var x :| x in s;
      f(x) + Sum(s - {x}, f)
  }

  lemma {:induction false} SumRemove<T>(s: set<T>, x: T, f: T -> int)
    requires x in s
    ensures Sum(s, f) == f(x) + Sum(s - {x}, f)
    decreases |s|
  {
    var y :| y in s && Sum(s, f) == f(y) + Sum(s - {y}, f);
    if y != x {
      SumRemove(s - {y}, x, f);
      SumRemove(s - {x}, y, f);
      assert s - {y} - {x} == s - {x} - {y};
    }
  }

  /** Rowwise smaller quantities have a smaller sum. */
  lemma {:induction false} SumMonotone<T>(s: set<T>, f: T -> int, g: T -> int)
    requires forall x | x in s :: f(x) <= g(x)
    ensures Sum(s, f) <= Sum(s, g)
    decreases |s|
  {
    if s != {} {
      var x :| x in s;
      SumRemove(s, x, f);
      SumRemove(s, x, g);
      SumMonotone(s - {x}, f, g);
    }
  }

  lemma SumCongruent<T>(s: set<T>, f: T -> int, g: T -> int)
    requires forall x | x in s :: f(x) == g(x)
    ensures Sum(s, f) == Sum(s, g)
  {
    SumMonotone(s, f, g);
    SumMonotone(s, g, f);
  }

  /** One strictly smaller row makes the whole sum strictly smaller. */
  lemma SumStrict<T>(s: set<T>, f: T -> int, g: T -> int, x: T)
    requires x in s && f(x) < g(x)
    requires forall y | y in s :: f(y) <= g(y)
    ensures Sum(s, f) < Sum(s, g)
  {
    SumRemove(s, x, f);
    SumRemove(s, x, g);
    SumMonotone(s - {x}, f, g);
  }

  lemma {:induction false} SumNonnegative<T>(s: set<T>, f: T -> int)
    requires forall x | x in s :: f(x) >= 0
    ensures Sum(s, f) >= 0
    decreases |s|
  {
    if s != {} {
      var x :| x in s;
      SumRemove(s, x, f);
      SumNonnegative(s - {x}, f);
    }
  }
}
