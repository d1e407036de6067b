/** `Avaluador.calcular_error`: the mean absolute error and the mean squared
    error of a prediction vector against the user's actual ratings, over the
    positions the user rated (actual rating different from 0). */
module Evaluator {
  import opened Vectors

  /** `self._prediccions`, which may be `None`. */
  datatype Predictions = NoPredictions | Given(values: seq<real>)

  /** What `calcular_error` arrives at: nothing when there are no
      predictions, the "more ratings needed" branch when every actual rating
      is 0, and otherwise MAE and the mean squared error whose square root
      is the RMSE. */
  datatype Outcome = Skipped | NeedMoreRatings | Metrics(mae: real, meanSquared: real)

  function Abs(x: real): real
  {
    if x < 0.0 then -x else x
  }

  /** `x[c]` for the mask `c = actual != 0.0`: the entries of `x` at the
      rated positions, in order. */
  function Mask(x: seq<real>, actual: seq<real>): (m: seq<real>)
    requires |x| == |actual|
    ensures |m| == CountNonZero(actual)
  {
    if |x| == 0 then []
    else
      var n := |x| - 1;
      Mask(x[..n], actual[..n]) + (if actual[n] != 0.0 then [x[n]] else [])
  }

  /** `abs(p - a)` elementwise. */
  function AbsDiffs(p: seq<real>, a: seq<real>): (d: seq<real>)
    requires |p| == |a|
    ensures |d| == |p|
    ensures forall k :: 0 <= k < |d| ==> d[k] == Abs(p[k] - a[k])
  {
    seq(|p|, k requires 0 <= k < |p| => Abs(p[k] - a[k]))
  }

  /** `(a - p)**2` elementwise. */
  function SqDiffs(a: seq<real>, p: seq<real>): (d: seq<real>)
    requires |a| == |p|
    ensures |d| == |a|
    ensures forall k :: 0 <= k < |d| ==> d[k] == Sq(a[k] - p[k])
  {
    seq(|a|, k requires 0 <= k < |a| => Sq(a[k] - p[k]))
  }

  /** `calcular_error` for a user whose ratings are `actual`. */
  function Evaluate(predictions: Predictions, actual: seq<real>): (o: Outcome)
    requires predictions.Given? ==> |predictions.values| == |actual|
    ensures o.Skipped? <==> predictions.NoPredictions?
    ensures o.NeedMoreRatings? <==> predictions.Given? && forall k :: 0 <= k < |actual| ==> actual[k] == 0.0
  {
    if predictions.NoPredictions? then Skipped
    else if CountNonZero(actual) == 0 then
      AllZeroWhenNoneCounted(actual);
      NeedMoreRatings
    else
      SomeNonZeroWhenCounted(actual);
      var p, a := Mask(predictions.values, actual), Mask(actual, actual);
      var n := CountNonZero(actual) as real;
      Metrics(Sum(AbsDiffs(p, a)) / n, Sum(SqDiffs(a, p)) / n)
  }

  lemma {:induction false} AllZeroWhenNoneCounted(s: seq<real>)
    requires CountNonZero(s) == 0
    ensures forall k :: 0 <= k < |s| ==> s[k] == 0.0
    decreases |s|
  {
    if |s| > 0 {
      AllZeroWhenNoneCounted(s[..|s| - 1]);
      assert forall k :: 0 <= k < |s| - 1 ==> s[k] == s[..|s| - 1][k];
    }
  }

  lemma {:induction false} SomeNonZeroWhenCounted(s: seq<real>)
    requires CountNonZero(s) > 0
    ensures exists k :: 0 <= k < |s| && s[k] != 0.0
    decreases |s|
  {
    if s[|s| - 1] == 0.0 {
      SomeNonZeroWhenCounted(s[..|s| - 1]);
      var k :| 0 <= k < |s| - 1 && s[..|s| - 1][k] != 0.0;
      assert s[k] != 0.0;
    }
  }

  /** Predictions at unrated positions never matter: two prediction
      vectors that agree wherever the user rated select the same entries. */
  lemma {:induction false} MaskIgnoresUnrated(p: seq<real>, q: seq<real>, actual: seq<real>)
    requires |p| == |actual| && |q| == |actual|
    requires forall k :: 0 <= k < |actual| && actual[k] != 0.0 ==> p[k] == q[k]
    ensures Mask(p, actual) == Mask(q, actual)
    decreases |actual|
  {
    if |actual| > 0 {
      var n := |actual| - 1;
      assert forall k :: 0 <= k < n ==> p[..n][k] == p[k] && q[..n][k] == q[k] && actual[..n][k] == actual[k];
      MaskIgnoresUnrated(p[..n], q[..n], actual[..n]);
    }
  }

  lemma EvaluateIgnoresUnrated(p: seq<real>, q: seq<real>, actual: seq<real>)
    requires |p| == |actual| && |q| == |actual|
    requires forall k :: 0 <= k < |actual| && actual[k] != 0.0 ==> p[k] == q[k]
    ensures Evaluate(Given(p), actual) == Evaluate(Given(q), actual)
  {
    MaskIgnoresUnrated(p, q, actual);
  }

  lemma DivNonNegative(x: real, n: real)
    requires 0.0 <= x && 0.0 < n
    ensures 0.0 <= x / n
  {
    if 0.0 < x {
      DivPositive(x, n);
    }
  }

  /** Both metrics are non-negative. */
  lemma MetricsNonNegative(predictions: seq<real>, actual: seq<real>)
    requires |predictions| == |actual|
    ensures Evaluate(Given(predictions), actual).Metrics? ==>
              0.0 <= Evaluate(Given(predictions), actual).mae &&
              0.0 <= Evaluate(Given(predictions), actual).meanSquared
  {
    if CountNonZero(actual) > 0 {
      var p, a := Mask(predictions, actual), Mask(actual, actual);
      var n := CountNonZero(actual) as real;
      SumNonNegative(AbsDiffs(p, a));
      SumNonNegative(SqDiffs(a, p));
      DivNonNegative(Sum(AbsDiffs(p, a)), n);
      DivNonNegative(Sum(SqDiffs(a, p)), n);
    }
  }

  lemma {:induction false} SumZero(s: seq<real>)
    requires forall k :: 0 <= k < |s| ==> s[k] == 0.0
    ensures Sum(s) == 0.0
    decreases |s|
  {
    if |s| > 0 {
      assert forall k :: 0 <= k < |s| - 1 ==> s[..|s| - 1][k] == s[k];
      SumZero(s[..|s| - 1]);
    }
  }

  /** Predictions equal to the ratings at every rated position give zero
      error on both metrics. */
  lemma ExactPredictionsHaveNoError(predictions: seq<real>, actual: seq<real>)
    requires |predictions| == |actual|
    requires forall k :: 0 <= k < |actual| && actual[k] != 0.0 ==> predictions[k] == actual[k]
    requires CountNonZero(actual) > 0
    ensures Evaluate(Given(predictions), actual) == Metrics(0.0, 0.0)
  {
    EvaluateIgnoresUnrated(predictions, actual, actual);
    var a := Mask(actual, actual);
    SumZero(AbsDiffs(a, a));
    SumZero(SqDiffs(a, a));
  }

  /** Two rated positions with errors 1 and 2 and one unrated position
      whose prediction is far off: MAE 1.5 and mean squared error 2.5. */
  lemma EvaluateExample()
    ensures Evaluate(Given([4.0, 9.0, 1.0]), [5.0, 0.0, 3.0]) == Metrics(1.5, 2.5)
  {
    var p, a := [4.0, 9.0, 1.0], [5.0, 0.0, 3.0];
    assert CountNonZero(a) == 2 by {
      assert a[..2] == [5.0, 0.0] && a[..2][..1] == [5.0] && [5.0][..0] == [];
    }
    assert Mask(p, a) == [4.0, 1.0] && Mask(a, a) == [5.0, 3.0] by {
      assert p[..2] == [4.0, 9.0] && a[..2] == [5.0, 0.0];
      assert p[..2][..1] == [4.0] && a[..2][..1] == [5.0];
      assert [4.0][..0] == [] && [5.0][..0] == [];
    }
    assert Sum(AbsDiffs([4.0, 1.0], [5.0, 3.0])) == 3.0 by {
      var ad := AbsDiffs([4.0, 1.0], [5.0, 3.0]);
      assert ad == [1.0, 2.0];
      assert ad[..1] == [1.0] && [1.0][..0] == [];
    }
    assert Sum(SqDiffs([5.0, 3.0], [4.0, 1.0])) == 5.0 by {
      var sd := SqDiffs([5.0, 3.0], [4.0, 1.0]);
      assert sd == [1.0, 4.0];
      assert sd[..1] == [1.0] && [1.0][..0] == [];
    }
  }
}
