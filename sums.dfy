/** Sums of real-valued terms over a sequence, and the arithmetic facts behind weighted
    averages. Kept apart from the scoring definitions so that each proof sees only the
    facts it needs. */
module Sums {

  function SumOver<T>(s: seq<T>, f: T -> real): real {
    if s == [] then 0.0 else SumOver(s[..|s| - 1], f) + f(s[|s| - 1])
  }

  lemma AddBound(prev: real, last: real, n: nat, m: real)
    requires n >= 1
    requires prev <= (n - 1) as real * m && last <= m
    ensures prev + last <= n as real * m
  {
  }

  lemma AddLowerBound(prev: real, last: real)
    requires prev >= 0.0 && last >= 0.0
    ensures prev + last >= 0.0
  {
  }

  lemma AllAtStep(prev: real, n: nat, m: real)
    requires n >= 1
    requires prev == (n - 1) as real * m
    ensures prev + m == n as real * m
  {
  }

  lemma DivUpper(s: real, n: real, hi: real)
    requires n > 0.0 && s <= n * hi
    ensures s / n <= hi
  {
  }

  lemma DivLower(s: real, n: real, lo: real)
    requires n > 0.0 && n * lo <= s
    ensures lo <= s / n
  {
  }

  lemma DivWithin(s: real, n: real, lo: real, hi: real)
    requires n > 0.0 && lo * n <= s <= hi * n
    ensures lo <= s / n <= hi
  {
  }

  lemma DivExact(s: real, n: real, m: real)
    requires n > 0.0 && s == n * m
    ensures s / n == m
  {
  }

  lemma ScaleBounds(a: real, w: real, lo: real, hi: real)
    requires w > 0.0 && lo <= a <= hi
    ensures lo * w <= a * w <= hi * w
  {
  }

  lemma ZeroProduct(a: real, lo: real, hi: real)
    ensures lo * 0.0 <= a * 0.0 <= hi * 0.0
  {
  }

  /** Terms that all equal `m` sum to the count times `m`. */
  lemma {:induction false} SumOverConst<T>(s: seq<T>, f: T -> real, m: real)
    requires forall i :: 0 <= i < |s| ==> f(s[i]) == m
    ensures SumOver(s, f) == |s| as real * m
  {
    if s != [] {
      var init := s[..|s| - 1];
      assert forall i :: 0 <= i < |init| ==> init[i] == s[i];
      SumOverConst(init, f, m);
      AllAtStep(SumOver(init, f), |s|, m);
    }
  }

  /** Terms that all equal `m` have mean `m`. */
  lemma SumOverConstMean<T>(s: seq<T>, f: T -> real, m: real)
    requires |s| > 0
    requires forall i :: 0 <= i < |s| ==> f(s[i]) == m
    ensures SumOver(s, f) / |s| as real == m
  {
    SumOverConst(s, f, m);
    DivExact(SumOver(s, f), |s| as real, m);
  }

  /** Terms that are all at most `m` sum to at most the count times `m`. */
  lemma {:induction false} SumOverUpper<T>(s: seq<T>, f: T -> real, m: real)
    requires forall i :: 0 <= i < |s| ==> f(s[i]) <= m
    ensures SumOver(s, f) <= |s| as real * m
  {
    if s != [] {
      var init := s[..|s| - 1];
      assert forall i :: 0 <= i < |init| ==> init[i] == s[i];
      SumOverUpper(init, f, m);
      AddBound(SumOver(init, f), f(s[|s| - 1]), |s|, m);
    }
  }

  /** Termwise `f <= g` carries over to the sums. */
  lemma {:induction false} SumOverMonotone<T>(s: seq<T>, f: T -> real, g: T -> real)
    requires forall i :: 0 <= i < |s| ==> f(s[i]) <= g(s[i])
    ensures SumOver(s, f) <= SumOver(s, g)
  {
    if s != [] {
      var init := s[..|s| - 1];
      assert forall i :: 0 <= i < |init| ==> init[i] == s[i];
      SumOverMonotone(init, f, g);
    }
  }

  /** A constant factor comes out of a sum. */
  lemma {:induction false} SumOverScale<T>(s: seq<T>, g: T -> real, c: real)
    ensures SumOver(s, x => c * g(x)) == c * SumOver(s, g)
  {
    if s != [] {
      var init := s[..|s| - 1];
      SumOverScale(init, g, c);
      Distribute(c, SumOver(init, g), g(s[|s| - 1]));
    }
  }

  lemma Distribute(c: real, a: real, b: real)
    ensures c * (a + b) == c * a + c * b
  {
  }

  /** Termwise bounds `lo * g <= f <= hi * g` carry over to the sums. */
  lemma SumOverBounds<T>(s: seq<T>, f: T -> real, g: T -> real, lo: real, hi: real)
    requires forall i :: 0 <= i < |s| ==> lo * g(s[i]) <= f(s[i]) <= hi * g(s[i])
    ensures lo * SumOver(s, g) <= SumOver(s, f) <= hi * SumOver(s, g)
  {
    SumOverMonotone(s, x => lo * g(x), f);
    SumOverScale(s, g, lo);
    SumOverMonotone(s, f, x => hi * g(x));
    SumOverScale(s, g, hi);
  }

  /** Terms of the form `avg * w`, with non-negative `w` and `avg` within `[lo, hi]`
      wherever `w` is positive, sum to between `lo` and `hi` times the sum of the `w`. */
  lemma WeightedBounds<T>(s: seq<T>, f: T -> real, w: T -> real, avg: T -> real, lo: real, hi: real)
    requires forall x :: f(x) == avg(x) * w(x)
    requires forall i :: 0 <= i < |s| ==> w(s[i]) >= 0.0
    requires forall i :: 0 <= i < |s| && w(s[i]) > 0.0 ==> lo <= avg(s[i]) <= hi
    ensures lo * SumOver(s, w) <= SumOver(s, f) <= hi * SumOver(s, w)
  {
    forall i | 0 <= i < |s|
      ensures lo * w(s[i]) <= f(s[i]) <= hi * w(s[i])
    {
      if w(s[i]) > 0.0 {
        ScaleBounds(avg(s[i]), w(s[i]), lo, hi);
      } else {
        ZeroProduct(avg(s[i]), lo, hi);
      }
    }
    SumOverBounds(s, f, w, lo, hi);
  }

  lemma SumRatioWithin<T>(s: seq<T>, f: T -> real, w: T -> real, lo: real, hi: real)
    requires SumOver(s, w) > 0.0
    requires lo * SumOver(s, w) <= SumOver(s, f) <= hi * SumOver(s, w)
    ensures lo <= SumOver(s, f) / SumOver(s, w) <= hi
  {
    DivWithin(SumOver(s, f), SumOver(s, w), lo, hi);
  }

  /** The weighted average `sum(f) / sum(w)` of such terms lies within `[lo, hi]`. */
  lemma WeightedAverageBounds<T>(s: seq<T>, f: T -> real, w: T -> real, avg: T -> real, lo: real, hi: real)
    requires forall x :: f(x) == avg(x) * w(x)
    requires forall i :: 0 <= i < |s| ==> w(s[i]) >= 0.0
    requires forall i :: 0 <= i < |s| && w(s[i]) > 0.0 ==> lo <= avg(s[i]) <= hi
    requires SumOver(s, w) > 0.0
    ensures lo <= SumOver(s, f) / SumOver(s, w) <= hi
  {
    WeightedBounds(s, f, w, avg, lo, hi);
    SumRatioWithin(s, f, w, lo, hi);
  }

  /** Non-negative terms have a non-negative sum, and a positive one if any term is. */
  lemma {:induction false} SumOverNonNegative<T>(s: seq<T>, f: T -> real)
    requires forall i :: 0 <= i < |s| ==> f(s[i]) >= 0.0
    ensures SumOver(s, f) >= 0.0
    ensures (exists i :: 0 <= i < |s| && f(s[i]) > 0.0) ==> SumOver(s, f) > 0.0
  {
    if s != [] {
      var init, x := s[..|s| - 1], s[|s| - 1];
      assert forall i :: 0 <= i < |init| ==> init[i] == s[i];
      SumOverNonNegative(init, f);
      if i :| 0 <= i < |s| && f(s[i]) > 0.0 {
        if i < |s| - 1 {
          assert f(init[i]) > 0.0;
        }
      }
    }
  }

  lemma {:induction false} SumOverZero<T>(s: seq<T>, f: T -> real)
    requires forall i :: 0 <= i < |s| ==> f(s[i]) == 0.0
    ensures SumOver(s, f) == 0.0
  {
    if s != [] {
      var init := s[..|s| - 1];
      assert forall i :: 0 <= i < |init| ==> init[i] == s[i];
      SumOverZero(init, f);
    }
  }

  lemma {:induction false} SumOverRemove<T>(s: seq<T>, i: nat, f: T -> real)
    requires i < |s|
    ensures SumOver(s, f) == SumOver(s[..i] + s[i + 1..], f) + f(s[i])
  {
    var n := |s| - 1;
    if i < n {
      var init := s[..n];
      SumOverRemove(init, i, f);
      var t := s[..i] + s[i + 1..];
      assert t[..|t| - 1] == init[..i] + init[i + 1..];
      assert t[|t| - 1] == s[n];
    } else {
      assert s[..i] + s[i + 1..] == s[..n];
    }
  }

  /** Taking the last element off a sequence takes it off its multiset. */
  lemma DropLast<T>(s: seq<T>)
    requires s != []
    ensures multiset(s[..|s| - 1]) == multiset(s) - multiset{s[|s| - 1]}
  {
    assert s == s[..|s| - 1] + [s[|s| - 1]];
  }

  /** Removing the element at `i` removes it from the multiset. */
  lemma DropAt<T>(t: seq<T>, i: nat)
    requires i < |t|
    ensures multiset(t[..i] + t[i + 1..]) == multiset(t) - multiset{t[i]}
  {
    assert t == t[..i] + [t[i]] + t[i + 1..];
  }

  /** A sum does not depend on the order of its terms. */
  lemma {:induction false} SumOverPermutation<T>(s: seq<T>, t: seq<T>, f: T -> real)
    requires multiset(s) == multiset(t)
    ensures SumOver(s, f) == SumOver(t, f)
  {
    if s == [] {
      assert |t| == |multiset(t)| == 0;
    } else {
      var x := s[|s| - 1];
      assert x in multiset(s);
      var i :| 0 <= i < |t| && t[i] == x;
      DropLast(s);
      DropAt(t, i);
      SumOverPermutation(s[..|s| - 1], t[..i] + t[i + 1..], f);
      SumOverRemove(t, i, f);
    }
  }
}
