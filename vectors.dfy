/** The array reductions the recommender uses (`np.sum`, `np.count_nonzero`,
    `np.mean`, boolean masks, `max`) on sequences of reals. */
module Vectors {

  /** A square root as the model sees `math.sqrt`: positive on positive
      arguments, and otherwise left open. */
  type SqrtFn = f: real -> real | forall x: real :: 0.0 < x ==> 0.0 < f(x)
    witness (x: real) => x

  /** A product, named so that the sign facts below are stated about it once:
      the solver handles a square `a * a` poorly when it appears directly. */
  function Mul(x: real, y: real): real
  {
    x * y
  }

  lemma MulPositive(x: real, y: real)
    requires 0.0 < x && 0.0 < y
    ensures 0.0 < Mul(x, y)
  {
  }

  lemma MulNonNegative(x: real, y: real)
    requires 0.0 <= x && 0.0 <= y
    ensures 0.0 <= Mul(x, y)
  {
  }

  lemma MulCommutes(x: real, y: real)
    ensures Mul(x, y) == Mul(y, x)
  {
  }

  lemma DivPositive(x: real, y: real)
    requires 0.0 < x && 0.0 < y
    ensures 0.0 < x / y
  {
  }

  /** Dividing by a positive number keeps the sign. */
  lemma DivSign(x: real, y: real)
    requires 0.0 < y
    ensures 0.0 < x / y <==> 0.0 < x
    ensures x / y < 0.0 <==> x < 0.0
  {
    assert (x / y) * y == x;
    if x < 0.0 {
      DivPositive(-x, y);
      assert -x / y == -(x / y);
    }
  }

  lemma MulNegate(x: real, y: real)
    ensures Mul(-x, -y) == Mul(x, y)
  {
  }

  /** Multiplying a share `x / n` of `a` back by `n` gives `x` times `a`. */
  lemma MulDivCancel(x: real, n: real, a: real)
    requires n != 0.0
    ensures Mul(n, Mul(x / n, a)) == Mul(x, a)
  {
    assert n * (x / n) == x;
    assert n * ((x / n) * a) == (n * (x / n)) * a;
  }

  /** `v ** 2`: never negative, and positive exactly off zero. */
  function Sq(a: real): (r: real)
    ensures 0.0 <= r
    ensures a != 0.0 <==> 0.0 < r
  {
    if a > 0.0 then
      MulPositive(a, a);
      Mul(a, a)
    else if a < 0.0 then
      MulPositive(-a, -a);
      MulNegate(a, a);
      Mul(a, a)
    else
      Mul(a, a)
  }

  lemma {:induction false} SuccTimes(n: nat, x: real)
    ensures (n + 1) as real * x == n as real * x + x
  {
  }

  lemma DivTimes(x: real, n: real)
    requires n != 0.0
    ensures (x / n) * n == x
  {
  }

  /** Moving `a` by `x / n` and taking `a` back off leaves a shift that
      `n` scales back to `x`. */
  lemma ShiftScalesBack(a: real, x: real, n: real)
    requires n != 0.0
    ensures Mul((a + x / n) - a, n) == x
  {
    assert (a + x / n) - a == x / n;
    DivTimes(x, n);
  }

  /** `np.sum`, accumulated from the left. */
  function Sum(s: seq<real>): real
  {
    if |s| == 0 then 0.0 else Sum(s[..|s| - 1]) + s[|s| - 1]
  }

  lemma {:induction false} SumAppend(a: seq<real>, b: seq<real>)
    ensures Sum(a + b) == Sum(a) + Sum(b)
    decreases |b|
  {
    if |b| > 0 {
      assert (a + b)[..|a + b| - 1] == a + b[..|b| - 1];
      SumAppend(a, b[..|b| - 1]);
    } else {
      assert a + b == a;
    }
  }

  /** `np.count_nonzero`. */
  function CountNonZero(s: seq<real>): (n: nat)
    ensures n <= |s|
  {
    if |s| == 0 then 0
    else CountNonZero(s[..|s| - 1]) + (if s[|s| - 1] != 0.0 then 1 else 0)
  }

  /** `s[s > 0]`: the strictly positive entries, in order. */
  function Positives(s: seq<real>): (p: seq<real>)
    ensures |p| <= |s|
    ensures forall k :: 0 <= k < |p| ==> 0.0 < p[k]
  {
    if |s| == 0 then []
    else Positives(s[..|s| - 1]) + (if s[|s| - 1] > 0.0 then [s[|s| - 1]] else [])
  }

  predicate HasPositive(s: seq<real>)
  {
    exists k :: 0 <= k < |s| && 0.0 < s[k]
  }

  lemma {:induction false} PositivesAppend(a: seq<real>, b: seq<real>)
    ensures Positives(a + b) == Positives(a) + Positives(b)
    decreases |b|
  {
    if |b| > 0 {
      assert (a + b)[..|a + b| - 1] == a + b[..|b| - 1];
      PositivesAppend(a, b[..|b| - 1]);
    } else {
      assert a + b == a;
    }
  }

  /** The mask keeps something exactly when some entry is positive. */
  lemma {:induction false} PositivesNonEmpty(s: seq<real>)
    ensures |Positives(s)| > 0 <==> HasPositive(s)
    decreases |s|
  {
    if |s| > 0 {
      var t := s[..|s| - 1];
      PositivesNonEmpty(t);
      if HasPositive(t) {
        var k :| 0 <= k < |t| && 0.0 < t[k];
        assert s[k] == t[k];
      }
      if HasPositive(s) && !(s[|s| - 1] > 0.0) {
        var k :| 0 <= k < |s| && 0.0 < s[k];
        assert k < |t| && t[k] == s[k];
      }
    }
  }

  /** Every entry the mask keeps comes from the input, and lies in any
      interval that holds every positive input entry. */
  lemma {:induction false} PositivesWithin(s: seq<real>, lo: real, hi: real)
    requires forall k :: 0 <= k < |s| && 0.0 < s[k] ==> lo <= s[k] <= hi
    ensures forall k :: 0 <= k < |Positives(s)| ==> lo <= Positives(s)[k] <= hi
    decreases |s|
  {
    if |s| > 0 {
      var t := s[..|s| - 1];
      assert forall k :: 0 <= k < |t| ==> t[k] == s[k];
      PositivesWithin(t, lo, hi);
    }
  }

  /** Zero entries are dropped by the mask: putting one anywhere changes nothing. */
  lemma PositivesIgnoreZero(a: seq<real>, b: seq<real>)
    ensures Positives(a + [0.0] + b) == Positives(a + b)
  {
    PositivesAppend(a + [0.0], b);
    PositivesAppend(a, [0.0]);
    PositivesAppend(a, b);
    PositivesOne(0.0);
  }

  /** On non-negative entries the mask loses nothing of the sum. */
  lemma {:induction false} SumPositives(s: seq<real>)
    requires forall k :: 0 <= k < |s| ==> 0.0 <= s[k]
    ensures Sum(Positives(s)) == Sum(s)
    decreases |s|
  {
    if |s| > 0 {
      var t := s[..|s| - 1];
      SumPositives(t);
      SumAppend(Positives(t), if s[|s| - 1] > 0.0 then [s[|s| - 1]] else []);
      assert Sum([s[|s| - 1]]) == s[|s| - 1] by {
        assert [s[|s| - 1]][..0] == [];
      }
    }
  }

  lemma {:induction false} SumWithin(s: seq<real>, lo: real, hi: real)
    requires forall k :: 0 <= k < |s| ==> lo <= s[k] <= hi
    ensures |s| as real * lo <= Sum(s) <= |s| as real * hi
    decreases |s|
  {
    if |s| > 0 {
      var t := s[..|s| - 1];
      assert forall k :: 0 <= k < |t| ==> t[k] == s[k];
      SumWithin(t, lo, hi);
      SuccTimes(|t|, lo);
      SuccTimes(|t|, hi);
    }
  }

  lemma {:induction false} SumNonNegative(s: seq<real>)
    requires forall k :: 0 <= k < |s| ==> 0.0 <= s[k]
    ensures 0.0 <= Sum(s)
    decreases |s|
  {
    if |s| > 0 {
      var t := s[..|s| - 1];
      assert forall k :: 0 <= k < |t| ==> t[k] == s[k];
      SumNonNegative(t);
    }
  }

  /** `np.mean` of a non-empty array. */
  function Mean(s: seq<real>): real
    requires |s| > 0
  {
    Sum(s) / |s| as real
  }

  lemma {:induction false} SumOfPositives(s: seq<real>)
    requires |s| > 0 && forall k :: 0 <= k < |s| ==> 0.0 < s[k]
    ensures 0.0 < Sum(s)
    decreases |s|
  {
    if |s| > 1 {
      SumOfPositives(s[..|s| - 1]);
    }
  }

  /** A mean of positive entries is positive. */
  lemma MeanPositive(s: seq<real>)
    requires |s| > 0 && forall k :: 0 <= k < |s| ==> 0.0 < s[k]
    ensures 0.0 < Mean(s)
  {
    SumOfPositives(s);
  }

  lemma MeanTimesCount(s: seq<real>)
    requires |s| > 0
    ensures Mean(s) * |s| as real == Sum(s)
  {
    DivTimes(Sum(s), |s| as real);
  }

  /** On non-negative entries the mask `> 0` and `count_nonzero` agree. */
  lemma {:induction false} CountNonZeroOfNonNegative(s: seq<real>)
    requires forall k :: 0 <= k < |s| ==> 0.0 <= s[k]
    ensures CountNonZero(s) == |Positives(s)|
    decreases |s|
  {
    if |s| > 0 {
      CountNonZeroOfNonNegative(s[..|s| - 1]);
    }
  }

  /** Zero entries neither add to the mean of the positive entries nor
      count: on non-negative entries, that mean is the sum over the number
      of non-zero entries. */
  lemma MeanOfPositivesIsSumOverCount(s: seq<real>)
    requires HasPositive(s)
    requires forall k :: 0 <= k < |s| ==> 0.0 <= s[k]
    ensures |Positives(s)| > 0 && CountNonZero(s) > 0
    ensures Mean(Positives(s)) == Sum(s) / CountNonZero(s) as real
  {
    PositivesNonEmpty(s);
    CountNonZeroOfNonNegative(s);
    SumPositives(s);
  }

  /** A mean lies between any lower and upper bound of its entries. */
  lemma MeanWithin(s: seq<real>, lo: real, hi: real)
    requires |s| > 0
    requires forall k :: 0 <= k < |s| ==> lo <= s[k] <= hi
    ensures lo <= Mean(s) <= hi
  {
    SumWithin(s, lo, hi);
    var n := |s| as real;
    assert n * lo <= Sum(s) <= n * hi;
    assert Mean(s) * n == Sum(s);
  }

  /** The mask-then-mean rule on the ratings [0, 3, 0, 5]: 4, not 2. */
  lemma MeanOfPositivesExample()
    ensures Positives([0.0, 3.0, 0.0, 5.0]) == [3.0, 5.0]
    ensures Mean(Positives([0.0, 3.0, 0.0, 5.0])) == 4.0
  {
    assert Positives([0.0]) == [] by { assert [0.0][..0] == []; }
    assert Positives([0.0, 3.0]) == [3.0] by { assert [0.0, 3.0][..1] == [0.0]; }
    assert Positives([0.0, 3.0, 0.0]) == [3.0] by { assert [0.0, 3.0, 0.0][..2] == [0.0, 3.0]; }
    assert [0.0, 3.0, 0.0, 5.0][..3] == [0.0, 3.0, 0.0];
    assert Sum([3.0, 5.0]) == 8.0 by {
      assert [3.0, 5.0][..1] == [3.0] && [3.0][..0] == [];
    }
  }

  lemma PositivesOne(x: real)
    ensures Positives([x]) == if x > 0.0 then [x] else []
  {
    assert [x][..0] == [];
  }

  /** Moving a strictly positive factor keeps a strict order. */
  lemma MulStrictlyMonotone(a: real, b: real, s: real)
    requires a < b && 0.0 < s
    ensures Mul(a, s) < Mul(b, s)
  {
    MulPositive(b - a, s);
    assert Mul(b - a, s) == Mul(b, s) - Mul(a, s);
  }

  lemma MulMonotone(a: real, b: real, s: real)
    requires a <= b && 0.0 <= s
    ensures Mul(a, s) <= Mul(b, s)
  {
    MulNonNegative(b - a, s);
    assert Mul(b - a, s) == Mul(b, s) - Mul(a, s);
  }

  lemma MulDistributes(a: real, x: real, y: real)
    ensures Mul(a, x + y) == Mul(a, x) + Mul(a, y)
  {
  }

  /** Dividing by a positive number keeps bounds that held for the product. */
  lemma DivWithin(x: real, s: real, lo: real, hi: real)
    requires 0.0 < s && Mul(lo, s) <= x <= Mul(hi, s)
    ensures lo <= x / s <= hi
  {
    var q := x / s;
    DivTimes(x, s);
    assert Mul(q, s) == x;
    if q < lo {
      MulStrictlyMonotone(q, lo, s);
    }
    if hi < q {
      MulStrictlyMonotone(hi, q, s);
    }
  }

  /** Dot product of two vectors of the same length, summed from the left. */
  function Dot(x: seq<real>, y: seq<real>): real
    requires |x| == |y|
  {
    if |x| == 0 then 0.0 else Dot(x[..|x| - 1], y[..|y| - 1]) + Mul(x[|x| - 1], y[|y| - 1])
  }

  lemma {:induction false} DotSwap(x: seq<real>, y: seq<real>)
    requires |x| == |y|
    ensures Dot(x, y) == Dot(y, x)
    decreases |x|
  {
    if |x| > 0 {
      DotSwap(x[..|x| - 1], y[..|y| - 1]);
      MulCommutes(x[|x| - 1], y[|y| - 1]);
    }
  }

  /** With non-negative weights `w`, a weighted sum of values in `[lo, hi]`
      lies between `lo` and `hi` times the total weight. */
  lemma {:induction false} DotWithin(w: seq<real>, x: seq<real>, lo: real, hi: real)
    requires |w| == |x|
    requires forall k :: 0 <= k < |w| ==> 0.0 <= w[k] && lo <= x[k] <= hi
    ensures Mul(lo, Sum(w)) <= Dot(w, x) <= Mul(hi, Sum(w))
    decreases |w|
  {
    if |w| > 0 {
      var n := |w| - 1;
      var w', x' := w[..n], x[..n];
      assert forall k :: 0 <= k < n ==> w'[k] == w[k] && x'[k] == x[k];
      DotWithin(w', x', lo, hi);
      MulMonotone(lo, x[n], w[n]);
      MulMonotone(x[n], hi, w[n]);
      MulCommutes(w[n], x[n]);
      assert Sum(w) == Sum(w') + w[n];
      assert Dot(w, x) == Dot(w', x') + Mul(w[n], x[n]);
      MulDistributes(lo, Sum(w'), w[n]);
      MulDistributes(hi, Sum(w'), w[n]);
      MulCommutes(lo, w[n]);
      MulCommutes(hi, w[n]);
    }
  }

  /** One more entry of a running dot product or sum. */
  lemma DotSnoc(x: seq<real>, y: seq<real>, k: nat)
    requires |x| == |y| && k < |x|
    ensures Dot(x[..k + 1], y[..k + 1]) == Dot(x[..k], y[..k]) + Mul(x[k], y[k])
    ensures Sum(x[..k + 1]) == Sum(x[..k]) + x[k]
  {
    assert x[..k + 1][..k] == x[..k] && y[..k + 1][..k] == y[..k];
  }

  /** The running dot product and sum over the whole sequences. */
  lemma DotAll(x: seq<real>, y: seq<real>)
    requires |x| == |y|
    ensures Dot(x[..|x|], y[..|y|]) == Dot(x, y) && Sum(x[..|x|]) == Sum(x)
  {
    assert x[..|x|] == x && y[..|y|] == y;
  }

  lemma {:induction false} DotNonNegative(x: seq<real>, y: seq<real>)
    requires |x| == |y|
    requires forall k :: 0 <= k < |x| ==> 0.0 <= x[k] && 0.0 <= y[k]
    ensures 0.0 <= Dot(x, y)
    decreases |x|
  {
    if |x| > 0 {
      var n := |x| - 1;
      assert forall k :: 0 <= k < n ==> x[..n][k] == x[k] && y[..n][k] == y[k];
      DotNonNegative(x[..n], y[..n]);
      MulNonNegative(x[n], y[n]);
    }
  }

  /** Summing the pointwise products is the dot product. */
  lemma {:induction false} SumOfProducts(x: seq<real>, y: seq<real>)
    requires |x| == |y|
    ensures Sum(seq(|x|, k requires 0 <= k < |x| => Mul(x[k], y[k]))) == Dot(x, y)
    decreases |x|
  {
    var p := seq(|x|, k requires 0 <= k < |x| => Mul(x[k], y[k]));
    if |x| > 0 {
      var n := |x| - 1;
      SumOfProducts(x[..n], y[..n]);
      assert p[..n] == seq(n, k requires 0 <= k < n => Mul(x[..n][k], y[..n][k]));
    }
  }

  /** A weighted mean with non-negative weights of positive total lies
      between any bounds of its values. */
  lemma WeightedMeanWithin(w: seq<real>, x: seq<real>, lo: real, hi: real)
    requires |w| == |x| && 0.0 < Sum(w)
    requires forall k :: 0 <= k < |w| ==> 0.0 <= w[k] && lo <= x[k] <= hi
    ensures lo <= Dot(w, x) / Sum(w) <= hi
  {
    DotWithin(w, x, lo, hi);
    DivWithin(Dot(w, x), Sum(w), lo, hi);
  }

  /** `max` of a non-empty array: an entry, and no entry exceeds it. */
  function MaxOf(s: seq<real>): (m: real)
    requires |s| > 0
    ensures m in s
    ensures forall k :: 0 <= k < |s| ==> s[k] <= m
  {
    if |s| == 1 then s[0]
    else
      var m' := MaxOf(s[..|s| - 1]);
      assert forall k :: 0 <= k < |s| - 1 ==> s[k] == s[..|s| - 1][k];
      if s[|s| - 1] > m' then s[|s| - 1] else m'
  }
}
