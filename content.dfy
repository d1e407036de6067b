/** `RecomanacioBasadaEnContingut.recomana_per` from the feature matrix on:
    the feature rows are weighted by the user's ratings, summed into a
    profile and normalised by the sum of the ratings; each item scores the
    dot product of its features with the profile, scaled by the highest
    rating of the matrix. The five best items the user has not rated are
    chosen. The feature matrix is an input with one row per item. */
module ContentBased {
  import opened Wrappers
  import opened Ids
  import opened Vectors
  import opened Score
  import opened Selection

  /** A matrix with `rows` rows of `width` entries each. */
  predicate Shaped(f: seq<seq<real>>, rows: nat, width: nat)
  {
    |f| == rows && forall i :: 0 <= i < |f| ==> |f[i]| == width
  }

  /** Column `b` of a shaped matrix. */
  function Col(f: seq<seq<real>>, width: nat, b: nat): (c: seq<real>)
    requires Shaped(f, |f|, width) && b < width
    ensures |c| == |f|
    ensures forall i :: 0 <= i < |f| ==> c[i] == f[i][b]
  {
    seq(|f|, i requires 0 <= i < |f| => f[i][b])
  }

  /** `mat_numerador` after its rows are multiplied by the ratings. */
  function Scale(f: seq<seq<real>>, v: seq<real>, width: nat): (g: seq<seq<real>>)
    requires Shaped(f, |v|, width)
    ensures Shaped(g, |v|, width)
    ensures forall i, j :: 0 <= i < |v| && 0 <= j < width ==> g[i][j] == Mul(f[i][j], v[i])
  {
    seq(|v|, i requires 0 <= i < |v| => seq(width, j requires 0 <= j < width => Mul(f[i][j], v[i])))
  }

  /** `np.sum(_, axis=0)`: the sum of every column. */
  function ColumnSums(g: seq<seq<real>>, width: nat): (s: seq<real>)
    requires Shaped(g, |g|, width)
    ensures |s| == width
  {
    seq(width, b requires 0 <= b < width => Sum(Col(g, width, b)))
  }

  /** `Q`: the profile divided by the sum of the ratings. With no feature
      column there is nothing to divide.
      Each entry is the rating-weighted mean of its feature column. */
  function Profile(f: seq<seq<real>>, v: seq<real>, width: nat): (q: seq<real>)
    requires Shaped(f, |v|, width) && (Sum(v) != 0.0 || width == 0)
    ensures |q| == width
    ensures forall b :: 0 <= b < width ==> q[b] == Dot(v, Col(f, width, b)) / Sum(v)
  {
    var perfil := ColumnSums(Scale(f, v, width), width);
    ScaledColumnSums(f, v, width);
    seq(width, b requires 0 <= b < width => perfil[b] / Sum(v))
  }

  /** Column `b` of `perfil` is the dot product of the ratings with feature
      column `b`. */
  lemma ScaledColumnSums(f: seq<seq<real>>, v: seq<real>, width: nat)
    requires Shaped(f, |v|, width)
    ensures forall b :: 0 <= b < width ==> ColumnSums(Scale(f, v, width), width)[b] == Dot(v, Col(f, width, b))
  {
    var g := Scale(f, v, width);
    forall b | 0 <= b < width ensures ColumnSums(g, width)[b] == Dot(v, Col(f, width, b)) {
      var x := Col(f, width, b);
      assert Col(g, width, b) == seq(|x|, k requires 0 <= k < |x| => Mul(x[k], v[k]));
      SumOfProducts(x, v);
      DotSwap(x, v);
    }
  }

  /** With non-negative ratings of positive sum, each profile entry lies
      within the bounds of its feature column. */
  lemma ProfileWithin(f: seq<seq<real>>, v: seq<real>, width: nat, b: nat, lo: real, hi: real)
    requires Shaped(f, |v|, width) && 0.0 < Sum(v) && b < width
    requires forall i :: 0 <= i < |v| ==> 0.0 <= v[i] && lo <= f[i][b] <= hi
    ensures lo <= Profile(f, v, width)[b] <= hi
  {
    WeightedMeanWithin(v, Col(f, width, b), lo, hi);
  }

  /** The feature rows of items the user has not rated (rating 0) do not
      affect the profile. */
  lemma UnratedRowsIgnored(f: seq<seq<real>>, g: seq<seq<real>>, v: seq<real>, width: nat)
    requires Shaped(f, |v|, width) && Shaped(g, |v|, width) && (Sum(v) != 0.0 || width == 0)
    requires forall i :: 0 <= i < |v| && v[i] != 0.0 ==> f[i] == g[i]
    ensures Profile(f, v, width) == Profile(g, v, width)
  {
    var sf, sg := Scale(f, v, width), Scale(g, v, width);
    forall i | 0 <= i < |v| ensures sf[i] == sg[i] {
      if v[i] != 0.0 {
        assert f[i] == g[i];
      }
      assert forall j :: 0 <= j < width ==> sf[i][j] == sg[i][j];
    }
    assert sf == sg;
  }

  /** The final scores before selection, one per item. */
  function ContentScores(st: Store, u: string, f: seq<seq<real>>, width: nat): (p: seq<real>)
    requires Valid(st) && u in st.users && |st.items| > 0
    requires Shaped(f, |st.items|, width)
    requires Sum(RatingsVector(st, u)) != 0.0 || width == 0
    ensures |p| == |st.items|
  {
    var q := Profile(f, RatingsVector(st, u), width);
    seq(|f|, i requires 0 <= i < |f| => Mul(Dot(f[i], q), MaxRating(st)))
  }

  /** A weighted mean of non-negative values with non-negative weights of
      positive sum is not negative. */
  lemma WeightedMeanNonNegative(v: seq<real>, x: seq<real>)
    requires |v| == |x| && 0.0 < Sum(v)
    requires forall i :: 0 <= i < |v| ==> 0.0 <= v[i] && 0.0 <= x[i]
    ensures 0.0 <= Dot(v, x) / Sum(v)
  {
    DotNonNegative(v, x);
    if 0.0 < Dot(v, x) {
      DivPositive(Dot(v, x), Sum(v));
    }
  }

  /** With non-negative features and ratings of positive sum the profile
      has no negative entry. */
  lemma ProfileNonNegative(f: seq<seq<real>>, v: seq<real>, width: nat)
    requires Shaped(f, |v|, width) && 0.0 < Sum(v)
    requires forall i, j :: 0 <= i < |v| && 0 <= j < width ==> 0.0 <= f[i][j]
    requires forall i :: 0 <= i < |v| ==> 0.0 <= v[i]
    ensures forall b :: 0 <= b < width ==> 0.0 <= Profile(f, v, width)[b]
  {
    var q := Profile(f, v, width);
    forall b | 0 <= b < width ensures 0.0 <= q[b] {
      WeightedMeanNonNegative(v, Col(f, width, b));
    }
  }

  /** With non-negative features and ratings, and a non-negative maximum,
      no score is negative. */
  lemma ContentScoresNonNegative(st: Store, u: string, f: seq<seq<real>>, width: nat)
    requires Valid(st) && u in st.users && |st.items| > 0
    requires Shaped(f, |st.items|, width)
    requires 0.0 < Sum(RatingsVector(st, u))
    requires forall i, j :: 0 <= i < |f| && 0 <= j < width ==> 0.0 <= f[i][j]
    requires forall c :: 0 <= c < |st.items| ==> 0.0 <= RatingsVector(st, u)[c]
    requires 0.0 <= MaxRating(st)
    ensures forall i :: 0 <= i < |st.items| ==> 0.0 <= ContentScores(st, u, f, width)[i]
  {
    var v := RatingsVector(st, u);
    var q := Profile(f, v, width);
    var p := ContentScores(st, u, f, width);
    ProfileNonNegative(f, v, width);
    forall i | 0 <= i < |st.items| ensures 0.0 <= p[i] {
      DotNonNegative(f[i], q);
      MulNonNegative(Dot(f[i], q), MaxRating(st));
    }
  }

  /** `mat_numerador[i,:] = mat_numerador[i,:]*vector_puntuacions[i]` for
      every row, in place. */
  method ScaleRows(m: array2<real>, v: seq<real>)
    requires m.Length0 == |v|
    modifies m
    ensures forall i, j :: 0 <= i < m.Length0 && 0 <= j < m.Length1 ==> m[i, j] == Mul(old(m[i, j]), v[i])
  {
    for i := 0 to m.Length0
      invariant forall a, b :: 0 <= a < m.Length0 && 0 <= b < m.Length1 ==>
                  m[a, b] == if a < i then Mul(old(m[a, b]), v[a]) else old(m[a, b])
    {
      for j := 0 to m.Length1
        invariant forall a, b :: 0 <= a < m.Length0 && 0 <= b < m.Length1 ==>
                    m[a, b] == if a < i || (a == i && b < j) then Mul(old(m[a, b]), v[a]) else old(m[a, b])
      {
        m[i, j] := Mul(m[i, j], v[i]);
      }
    }
  }

  /** `mat_numerador = np.copy(tfidf_matrix)` followed by the in-place row
      scaling, read back as a matrix of values. */
  method WeightRows(f: seq<seq<real>>, v: seq<real>, width: nat) returns (g: seq<seq<real>>)
    requires Shaped(f, |v|, width)
    ensures g == Scale(f, v, width)
  {
    var matNumerador := new real[|f|, width]((i: int, j: int) requires 0 <= i < |f| && 0 <= j < width => f[i][j]);
    assert forall i, j :: 0 <= i < |f| && 0 <= j < width ==> matNumerador[i, j] == f[i][j];
    ScaleRows(matNumerador, v);
    g := seq(|f|, i requires 0 <= i < |f| reads matNumerador =>
           seq(width, j requires 0 <= j < width reads matNumerador => matNumerador[i, j]));
    assert forall i :: 0 <= i < |f| ==> g[i] == Scale(f, v, width)[i];
  }

  /** `Q = perfil / normalitzador`, `P = tfidf_matrix.dot(Q)` and
      `P_final = P * max`, from the column sums `perfil` of the weighted rows. */
  method ScoreItems(st: Store, u: string, f: seq<seq<real>>, width: nat, perfil: seq<real>) returns (pFinal: seq<real>)
    requires Valid(st) && u in st.users && |st.items| > 0
    requires Shaped(f, |st.items|, width)
    requires Sum(RatingsVector(st, u)) != 0.0 || width == 0
    requires perfil == ColumnSums(Scale(f, RatingsVector(st, u), width), width)
    ensures pFinal == ContentScores(st, u, f, width)
  {
    var normalitzador := Sum(RatingsVector(st, u));
    var q := seq(width, b requires 0 <= b < width => perfil[b] / normalitzador);
    assert q == Profile(f, RatingsVector(st, u), width);
    var s := seq(|f|, i requires 0 <= i < |f| => Dot(f[i], q));
    var max := MaxRating(st);
    pFinal := seq(|f|, i requires 0 <= i < |f| => Mul(s[i], max));
  }

  /** `recomana_per` of the content-based strategy over the feature matrix
      `f` (one row per item, `width` columns). The failures come in the
      source's order: an unknown user, a matrix without cells for `max()`
      (the NaN of an empty profile does not stop the program before it),
      and too few unrated items, which the loop meets whatever the scores
      are. Past them, the NaN profile of a user whose ratings sum to 0 is
      reported as such; the scores are then not computed. */
  method Recommend(st: Store, u: string, f: seq<seq<real>>, width: nat) returns (r: Result<Recommendation>)
    requires Valid(st) && Shaped(f, |st.items|, width)
    ensures r.Err? && r.error == UnknownId <==> u !in st.users
    ensures r.Err? && r.error == EmptyMatrix <==> u in st.users && |st.items| == 0
    ensures r.Err? && r.error == Exhausted <==>
              u in st.users && |st.items| > 0 && CountAdmitted(st.items, NotSeen(st, u)) < Quota
    ensures r.Err? && r.error == NotANumber <==>
              u in st.users && |st.items| > 0 && CountAdmitted(st.items, NotSeen(st, u)) >= Quota &&
              Sum(RatingsVector(st, u)) == 0.0 && width > 0
    ensures r.Err? ==> r.error in {UnknownId, EmptyMatrix, NotANumber, Exhausted}
    ensures r.Ok? ==> u in st.users && |st.items| > 0 && (Sum(RatingsVector(st, u)) != 0.0 || width == 0)
    ensures r.Ok? ==> r.value.scores == ContentScores(st, u, f, width)
    ensures r.Ok? ==> Greedy(r.value.scores, st.items, NotSeen(st, u), Quota) == Ok(r.value.items)
    ensures r.Ok? ==> TopPicks(r.value.scores, st.items, NotSeen(st, u), r.value.items)
  {
    if u !in st.users {
      return Err(UnknownId);
    }
    var v := RatingsVector(st, u);
    var scaled := WeightRows(f, v, width);
    var perfil := ColumnSums(scaled, width);
    var normalitzador := Sum(v);
    if |st.items| == 0 {
      return Err(EmptyMatrix);
    }
    var nan := normalitzador == 0.0 && width > 0;
    var pFinal := seq(|f|, _ => 0.0);
    if !nan {
      pFinal := ScoreItems(st, u, f, width, perfil);
    }
    SortedIsDistinct(st.items);
    GreedyTop(pFinal, st.items, NotSeen(st, u));
    var picked := SelectTop(pFinal, st.items, NotSeen(st, u));
    if picked.Err? {
      return Err(Exhausted);
    }
    if nan {
      return Err(NotANumber);
    }
    return Ok(Recommendation(pFinal, picked.value));
  }
}
