/** difflib's SequenceMatcher.quick_ratio, kept exact.

    The library computes a float `2.0 * M / L`, where `L` is the total length of
    the two strings and `M` the number of characters they have in common when
    both are read as multisets (1.0 when both strings are empty).  Here the
    score is the fraction `2M / L` itself, so "score == 1.0" is the decidable
    test `num == den`. */
module Similarity {

  /** A non-negative rational `num / den`. */
  datatype Ratio = Ratio(num: nat, den: nat)

  /** A ratio with a positive denominator: a well-defined number. */
  type Fraction = r: Ratio | 0 < r.den witness Ratio(0, 1)

  /** `r <= s` as rational numbers. */
  predicate AtMost(r: Fraction, s: Fraction)
  {
    r.num * s.den <= s.num * r.den
  }

  /** `r == s` as rational numbers (2/4 and 1/2 are the same score). */
  predicate Same(r: Fraction, s: Fraction)
  {
    r.num * s.den == s.num * r.den
  }

  /** The score is exactly 1.0. */
  predicate IsOne(r: Fraction)
  {
    r.num == r.den
  }

  /** Score times 100, the percentage a reconciliation result reports. */
  function Percent(r: Fraction): (p: Fraction)
    ensures r.num <= r.den ==> p.num <= 100 * p.den
    ensures IsOne(r) ==> p.num == 100 * p.den
  {
    Ratio(100 * r.num, r.den)
  }

  /** Number of characters `a` and `b` have in common, counted with multiplicity. */
  function Matches(a: string, b: string): (m: nat)
    ensures m <= |a| && m <= |b|
  {
    IntersectionBounded(multiset(a), multiset(b));
    IntersectionBounded(multiset(b), multiset(a));
    assert multiset(b) * multiset(a) == multiset(a) * multiset(b);
    |multiset(a) * multiset(b)|
  }

  /** quick_ratio of `a` against `b`: `2 * Matches / (|a| + |b|)`, or 1 when both are empty. */
  function QuickRatio(a: string, b: string): (r: Fraction)
    ensures r.num <= r.den
    ensures |a| + |b| == 0 ==> IsOne(r)
  {
    if |a| + |b| == 0 then Ratio(1, 1) else Ratio(2 * Matches(a, b), |a| + |b|)
  }

  /** A sub-multiset is no larger than the multiset that contains it. */
  lemma IntersectionBounded(x: multiset<char>, y: multiset<char>)
    ensures |x * y| <= |x|
  {
    var rest := x - x * y;
    assert x == x * y + rest;
  }

  /** A sub-multiset of the same size is the whole multiset. */
  lemma {:induction false} SubmultisetOfSameSize(x: multiset<char>, y: multiset<char>)
    requires x <= y && |x| == |y|
    ensures x == y
  {
    var rest := y - x;
    assert y == x + rest;
    assert |rest| == 0;
  }

  /** The score is 1.0 exactly when the two strings are anagrams of each other:
      equal strings score 1.0 and strings that differ as multisets score below it. */
  lemma {:induction false} QuickRatioIsOne(a: string, b: string)
    ensures IsOne(QuickRatio(a, b)) <==> multiset(a) == multiset(b)
  {
    var x, y := multiset(a), multiset(b);
    if multiset(a) == multiset(b) {
      assert x * y == x;
      assert |x| == |a| && |y| == |b|;
    }
    if |a| + |b| > 0 && IsOne(QuickRatio(a, b)) {
      var m := Matches(a, b);
      assert m == |a| && m == |b|;
      assert |x| == |a| && |y| == |b|;
      SubmultisetOfSameSize(x * y, x);
      assert y * x == x * y;
      SubmultisetOfSameSize(y * x, y);
    }
  }

  /** Equal strings always score 1.0. */
  lemma QuickRatioOfSelf(a: string)
    ensures IsOne(QuickRatio(a, a))
  {
    QuickRatioIsOne(a, a);
  }

  /** quick_ratio does not depend on the order of its arguments. */
  lemma QuickRatioSymmetric(a: string, b: string)
    ensures QuickRatio(a, b) == QuickRatio(b, a)
  {
    assert multiset(b) * multiset(a) == multiset(a) * multiset(b);
  }

  /** Strings with no character in common score 0. */
  lemma QuickRatioDisjoint(a: string, b: string)
    requires |a| + |b| > 0
    requires forall i, j :: 0 <= i < |a| && 0 <= j < |b| ==> a[i] != b[j]
    ensures QuickRatio(a, b).num == 0
  {
  }

  /** Any two scores are comparable. */
  lemma AtMostTotal(r: Fraction, s: Fraction)
    ensures AtMost(r, s) || AtMost(s, r)
  {
  }

  /** Multiplying both sides of `x <= y` by a non-negative `z`. */
  lemma MulMono(x: nat, y: nat, z: nat)
    requires x <= y
    ensures x * z <= y * z
  {
  }

  /** Cancelling a positive factor from both sides of `x * z <= y * z`. */
  lemma MulCancel(x: nat, y: nat, z: nat)
    requires 0 < z && x * z <= y * z
    ensures x <= y
  {
    if y < x {
      MulMono(y + 1, x, z);
    }
  }

  /** `AtMost` is transitive, so sorting by it is well-defined. */
  lemma AtMostTrans(r: Fraction, s: Fraction, t: Fraction)
    requires AtMost(r, s) && AtMost(s, t)
    ensures AtMost(r, t)
  {
    MulMono(r.num * s.den, s.num * r.den, t.den);
    MulMono(s.num * t.den, t.num * s.den, r.den);
    assert r.num * s.den * t.den == (r.num * t.den) * s.den;
    assert s.num * r.den * t.den == s.num * t.den * r.den;
    assert t.num * s.den * r.den == (t.num * r.den) * s.den;
    MulCancel(r.num * t.den, t.num * r.den, s.den);
  }

  /** `Same` is transitive. */
  lemma SameTrans(r: Fraction, s: Fraction, t: Fraction)
    requires Same(r, s) && Same(s, t)
    ensures Same(r, t)
  {
    AtMostTrans(r, s, t);
    AtMostTrans(t, s, r);
  }

  /** Scaling to a percentage keeps the order of scores. */
  lemma PercentKeepsOrder(r: Fraction, s: Fraction)
    ensures AtMost(Percent(r), Percent(s)) <==> AtMost(r, s)
  {
    assert Percent(r).num * Percent(s).den == 100 * (r.num * s.den);
    assert Percent(s).num * Percent(r).den == 100 * (s.num * r.den);
  }
}
