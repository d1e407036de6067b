/** The rating-matrix store of score.py (class `Score`): a users x items
    matrix whose rows and columns follow the sorted id lists, where a cell
    holding 0 means "not rated", and the aggregates read from it. */
module Score {
  import opened Wrappers
  import opened Ids
  import opened Vectors

  /** `_ll_usuaris`, `_ll_items` and `_mat` once a loader has filled them. */
  datatype Store = Store(users: seq<string>, items: seq<string>, mat: seq<seq<real>>)

  /** Both id lists are sorted (hence duplicate-free) and the matrix has one
      row per user and one column per item. */
  predicate Valid(st: Store)
  {
    && StrictlySorted(st.users)
    && StrictlySorted(st.items)
    && |st.mat| == |st.users|
    && forall r :: 0 <= r < |st.mat| ==> |st.mat[r]| == |st.items|
  }

  /** `_mat[:, c]`. */
  function Column(st: Store, c: nat): (col: seq<real>)
    requires Valid(st) && c < |st.items|
    ensures |col| == |st.users|
    ensures forall r :: 0 <= r < |col| ==> col[r] == st.mat[r][c]
  {
    seq(|st.mat|, r requires 0 <= r < |st.mat| => st.mat[r][c])
  }

  /** The cell of a registered user and item. */
  function Cell(st: Store, u: string, i: string): real
    requires Valid(st) && u in st.users && i in st.items
  {
    st.mat[IndexOf(st.users, u)][IndexOf(st.items, i)]
  }

  /** Looking a cell up by the ids at row `r` and column `c` gives that cell. */
  lemma CellAt(st: Store, r: nat, c: nat)
    requires Valid(st) && r < |st.users| && c < |st.items|
    ensures Cell(st, st.users[r], st.items[c]) == st.mat[r][c]
  {
    SortedIsDistinct(st.users);
    SortedIsDistinct(st.items);
    IndexOfDistinct(st.users, r);
    IndexOfDistinct(st.items, c);
  }

  // ---------------------------------------------------------------- votes

  /** `num_vots`: how many cells of the item's column are non-zero. */
  function NumVotes(st: Store, i: string): (n: nat)
    requires Valid(st) && i in st.items
    ensures n <= |st.users|
  {
    CountNonZero(Column(st, IndexOf(st.items, i)))
  }

  /** Positions of the non-zero entries. */
  function NonZeroAt(s: seq<real>): set<nat>
  {
    set k: nat | k < |s| && s[k] != 0.0
  }

  lemma {:induction false} CountNonZeroIsCard(s: seq<real>)
    ensures CountNonZero(s) == |NonZeroAt(s)|
    decreases |s|
  {
    if |s| > 0 {
      var t := s[..|s| - 1];
      CountNonZeroIsCard(t);
      var last: nat := |s| - 1;
      if s[last] != 0.0 {
        assert NonZeroAt(s) == NonZeroAt(t) + {last};
        assert last !in NonZeroAt(t);
      } else {
        assert NonZeroAt(s) == NonZeroAt(t);
      }
    } else {
      assert NonZeroAt(s) == {};
    }
  }

  /** `num_vots(i)` is the number of users for whom `no_vista(u, i)` is false. */
  lemma NumVotesCountsRaters(st: Store, i: string)
    requires Valid(st) && i in st.items
    ensures NumVotes(st, i) == |set r: nat | r < |st.users| && !Unrated(st, st.users[r], i)|
  {
    var c := IndexOf(st.items, i);
    var col := Column(st, c);
    CountNonZeroIsCard(col);
    forall r: nat | r < |st.users| ensures Unrated(st, st.users[r], i) <==> col[r] == 0.0 {
      CellAt(st, r, c);
    }
    assert NonZeroAt(col) == set r: nat | r < |st.users| && !Unrated(st, st.users[r], i);
  }

  /** The ids list of `min_vots` over the first `n` columns. */
  function WithMinVotes(st: Store, m: int, n: nat): (ll: seq<string>)
    requires Valid(st) && n <= |st.items|
    ensures |ll| <= n
    ensures forall x :: x in ll ==> x in st.items
  {
    if n == 0 then []
    else WithMinVotes(st, m, n - 1) +
         (if CountNonZero(Column(st, n - 1)) >= m then [st.items[n - 1]] else [])
  }

  lemma {:induction false} WithMinVotesMembers(st: Store, m: int, n: nat)
    requires Valid(st) && n <= |st.items|
    ensures forall x :: x in WithMinVotes(st, m, n) <==>
              exists c :: 0 <= c < n && st.items[c] == x && CountNonZero(Column(st, c)) >= m
    ensures forall a, b :: 0 <= a < b < |WithMinVotes(st, m, n)| ==>
              Less(WithMinVotes(st, m, n)[a], WithMinVotes(st, m, n)[b])
  {
    if n > 0 {
      WithMinVotesMembers(st, m, n - 1);
      var prev := WithMinVotes(st, m, n - 1);
      forall a | 0 <= a < |prev| ensures Less(prev[a], st.items[n - 1]) {
        assert prev[a] in prev;
        var c :| 0 <= c < n - 1 && st.items[c] == prev[a] && CountNonZero(Column(st, c)) >= m;
      }
    }
  }

  /** `min_vots(m)`: the ids of the items with at least `m` non-zero cells,
      in column order (equivalently, sorted). */
  method MinVotes(st: Store, m: int) returns (ll: seq<string>)
    requires Valid(st)
    ensures ll == WithMinVotes(st, m, |st.items|)
    ensures forall x :: x in ll <==> x in st.items && NumVotes(st, x) >= m
    ensures StrictlySorted(ll)
  {
    ll := [];
    var index := 0;
    while index < |st.items|
      invariant index <= |st.items|
      invariant ll == WithMinVotes(st, m, index)
    {
      if CountNonZero(Column(st, index)) >= m {
        ll := ll + [st.items[index]];
      }
      index := index + 1;
    }
    WithMinVotesMembers(st, m, |st.items|);
    SortedIsDistinct(st.items);
    forall x ensures x in ll <==> x in st.items && NumVotes(st, x) >= m {
      if x in st.items {
        IndexOfDistinct(st.items, IndexOf(st.items, x));
      }
    }
  }

  // ------------------------------------------------------------- averages

  /** `avg_item`: the mean of the strictly positive cells of the item's
      column. The source takes the mean of an empty selection (NaN) when
      there is none, so such a column is excluded. */
  function AvgItem(st: Store, i: string): (a: real)
    requires Valid(st) && i in st.items
    requires HasPositive(Column(st, IndexOf(st.items, i)))
    ensures 0.0 < a
  {
    var pos := Positives(Column(st, IndexOf(st.items, i)));
    PositivesNonEmpty(Column(st, IndexOf(st.items, i)));
    MeanPositive(pos);
    Mean(pos)
  }

  /** Zero cells neither add to the average nor count: on a column without
      negative cells, `avg_item` is the column's sum over `num_vots`. */
  lemma AvgItemIsSumOverVotes(st: Store, i: string)
    requires Valid(st) && i in st.items
    requires HasPositive(Column(st, IndexOf(st.items, i)))
    requires forall r :: 0 <= r < |st.users| ==> 0.0 <= st.mat[r][IndexOf(st.items, i)]
    ensures NumVotes(st, i) > 0
    ensures AvgItem(st, i) == Sum(Column(st, IndexOf(st.items, i))) / NumVotes(st, i) as real
  {
    MeanOfPositivesIsSumOverCount(Column(st, IndexOf(st.items, i)));
  }

  /** The average lies within any bounds of the positive cells of the column. */
  lemma AvgItemWithin(st: Store, i: string, lo: real, hi: real)
    requires Valid(st) && i in st.items
    requires HasPositive(Column(st, IndexOf(st.items, i)))
    requires forall r :: 0 <= r < |st.users| && 0.0 < st.mat[r][IndexOf(st.items, i)] ==>
               lo <= st.mat[r][IndexOf(st.items, i)] <= hi
    ensures lo <= AvgItem(st, i) <= hi
  {
    var col := Column(st, IndexOf(st.items, i));
    PositivesNonEmpty(col);
    PositivesWithin(col, lo, hi);
    MeanWithin(Positives(col), lo, hi);
  }

  /** `avg_usu`: the same rule as `avg_item`, over the user's row. */
  function AvgUser(st: Store, u: string): (a: real)
    requires Valid(st) && u in st.users
    requires HasPositive(st.mat[IndexOf(st.users, u)])
    ensures 0.0 < a
  {
    var pos := Positives(st.mat[IndexOf(st.users, u)]);
    PositivesNonEmpty(st.mat[IndexOf(st.users, u)]);
    MeanPositive(pos);
    Mean(pos)
  }

  /** On a row without negative cells, `avg_usu` is the row's sum over the
      number of rated items. */
  lemma AvgUserIsSumOverRated(st: Store, u: string)
    requires Valid(st) && u in st.users
    requires HasPositive(st.mat[IndexOf(st.users, u)])
    requires forall c :: 0 <= c < |st.items| ==> 0.0 <= st.mat[IndexOf(st.users, u)][c]
    ensures CountNonZero(st.mat[IndexOf(st.users, u)]) > 0
    ensures AvgUser(st, u) == Sum(st.mat[IndexOf(st.users, u)]) / CountNonZero(st.mat[IndexOf(st.users, u)]) as real
  {
    MeanOfPositivesIsSumOverCount(st.mat[IndexOf(st.users, u)]);
  }

  lemma AvgUserWithin(st: Store, u: string, lo: real, hi: real)
    requires Valid(st) && u in st.users
    requires HasPositive(st.mat[IndexOf(st.users, u)])
    requires forall c :: 0 <= c < |st.items| && 0.0 < st.mat[IndexOf(st.users, u)][c] ==>
               lo <= st.mat[IndexOf(st.users, u)][c] <= hi
    ensures lo <= AvgUser(st, u) <= hi
  {
    var row := st.mat[IndexOf(st.users, u)];
    PositivesNonEmpty(row);
    PositivesWithin(row, lo, hi);
    MeanWithin(Positives(row), lo, hi);
  }

  /** Whether every id in `ids` is a registered item with a positive cell,
      so that its `avg_item` is a number. */
  predicate AllAveraged(st: Store, ids: seq<string>)
    requires Valid(st)
  {
    forall x :: x in ids ==> x in st.items && HasPositive(Column(st, IndexOf(st.items, x)))
  }

  /** The `avg_item` of each id of `ids`, in order. */
  function ItemAverages(st: Store, ids: seq<string>): (v: seq<real>)
    requires Valid(st) && AllAveraged(st, ids)
    ensures |v| == |ids|
    ensures forall k :: 0 <= k < |v| ==> v[k] == AvgItem(st, ids[k])
  {
    seq(|ids|, k requires 0 <= k < |ids| => AvgItem(st, ids[k]))
  }

  /** `avg_global`: the mean of `avg_item` over the given ids, summed from
      an integer 0, so that an empty list is a division by zero. */
  method AvgGlobal(st: Store, ids: seq<string>) returns (r: Result<real>)
    requires Valid(st) && AllAveraged(st, ids)
    ensures r.Err? <==> |ids| == 0
    ensures r.Err? ==> r.error == NoCandidates
    ensures r.Ok? ==> r.value == Mean(ItemAverages(st, ids))
  {
    ghost var avgs := ItemAverages(st, ids);
    var suma := 0.0;
    for k := 0 to |ids|
      invariant suma == Sum(avgs[..k])
    {
      assert avgs[..k + 1][..k] == avgs[..k];
      suma := suma + AvgItem(st, ids[k]);
    }
    assert avgs[..|ids|] == avgs;
    if |ids| == 0 {
      return Err(NoCandidates);
    }
    return Ok(suma / |ids| as real);
  }

  /** The global average lies between any bounds of the item averages it
      combines, and is positive. */
  lemma GlobalAverageWithin(st: Store, ids: seq<string>, lo: real, hi: real)
    requires Valid(st) && AllAveraged(st, ids) && |ids| > 0
    requires forall x :: x in ids ==> lo <= AvgItem(st, x) <= hi
    ensures lo <= Mean(ItemAverages(st, ids)) <= hi
    ensures 0.0 < Mean(ItemAverages(st, ids))
  {
    var v := ItemAverages(st, ids);
    assert forall k :: 0 <= k < |v| ==> ids[k] in ids;
    MeanWithin(v, lo, hi);
    MeanPositive(v);
  }

  // --------------------------------------------------------------- lookups

  /** `no_vista`: the user has not rated the item, i.e. the cell is exactly 0.
      Both ids must be registered (`list.index` raises otherwise). */
  function Unrated(st: Store, u: string, i: string): (b: bool)
    requires Valid(st) && u in st.users && i in st.items
    ensures !b ==> NumVotes(st, i) >= 1
  {
    var col := Column(st, IndexOf(st.items, i));
    CountNonZeroIsCard(col);
    assert Cell(st, u, i) != 0.0 ==> IndexOf(st.users, u) in NonZeroAt(col);
    Cell(st, u, i) == 0.0
  }

  /** `no_vista(u, _)` as the admission test of a selection loop. */
  function NotSeen(st: Store, u: string): string -> bool
  {
    x => Valid(st) && u in st.users && x in st.items && Unrated(st, u, x)
  }

  /** `vector_puntuacions`: the user's row, aligned with the item list; its
      zero entries are exactly the items `no_vista` reports unrated. */
  function RatingsVector(st: Store, u: string): (v: seq<real>)
    requires Valid(st) && u in st.users
    ensures |v| == |st.items|
    ensures forall c :: 0 <= c < |v| ==> (v[c] == 0.0 <==> Unrated(st, u, st.items[c]))
  {
    var row := st.mat[IndexOf(st.users, u)];
    assert forall c :: 0 <= c < |row| ==> Cell(st, u, st.items[c]) == row[c] by {
      forall c | 0 <= c < |row| ensures Cell(st, u, st.items[c]) == row[c] {
        CellAt(st, IndexOf(st.users, u), c);
      }
    }
    row
  }

  /** `_mat.max()`: a cell of the matrix that no cell exceeds. A matrix
      without cells has no maximum (numpy raises). */
  function MaxRating(st: Store): (m: real)
    requires Valid(st) && |st.users| > 0 && |st.items| > 0
    ensures exists r, c :: 0 <= r < |st.users| && 0 <= c < |st.items| && st.mat[r][c] == m
    ensures forall r, c :: 0 <= r < |st.users| && 0 <= c < |st.items| ==> st.mat[r][c] <= m
  {
    var rowMax := seq(|st.mat|, r requires 0 <= r < |st.mat| => MaxOf(st.mat[r]));
    var m := MaxOf(rowMax);
    assert forall r, c :: 0 <= r < |st.users| && 0 <= c < |st.items| ==> st.mat[r][c] <= rowMax[r];
    var r :| 0 <= r < |rowMax| && rowMax[r] == m;
    assert m in st.mat[r];
    var c :| 0 <= c < |st.mat[r]| && st.mat[r][c] == m;
    m
  }

  // ------------------------------------------------------------ similarity

  /** The three running sums of `similitud`: the dot product and the two
      sums of squares, over co-rated positions only. */
  datatype Overlap = Overlap(dot: real, normSecondary: real, normClient: real)

  /** The sums over positions `0..n-1` of the client row `x` and the
      secondary row `y`. */
  function CoRated(x: seq<real>, y: seq<real>, n: nat): (o: Overlap)
    requires n <= |x| && n <= |y|
    ensures 0.0 <= o.normSecondary && 0.0 <= o.normClient
  {
    if n == 0 then Overlap(0.0, 0.0, 0.0)
    else
      var o := CoRated(x, y, n - 1);
      var a, b := x[n - 1], y[n - 1];
      if a != 0.0 && b != 0.0 then
        Overlap(o.dot + Mul(a, b), o.normSecondary + Sq(b), o.normClient + Sq(a))
      else o
  }

  /** The cosine `dot / (sqrt(n1) * sqrt(n2))`, or 0 when any sum is 0. */
  function Cosine(o: Overlap, sqrt: SqrtFn): (c: real)
    requires 0.0 <= o.normSecondary && 0.0 <= o.normClient
    ensures 0.0 < c <==> 0.0 < o.dot && 0.0 < o.normSecondary && 0.0 < o.normClient
    ensures c < 0.0 <==> o.dot < 0.0 && 0.0 < o.normSecondary && 0.0 < o.normClient
  {
    if o.dot != 0.0 && o.normSecondary != 0.0 && o.normClient != 0.0 then
      MulPositive(sqrt(o.normSecondary), sqrt(o.normClient));
      DivSign(o.dot, Mul(sqrt(o.normSecondary), sqrt(o.normClient)));
      o.dot / Mul(sqrt(o.normSecondary), sqrt(o.normClient))
    else 0.0
  }

  /** What `similitud(a, b)` yields: both ids must be registered, and the
      scan runs over positions `0..|users|-1` of the rows. */
  function SimilarityOf(st: Store, a: string, b: string, sqrt: SqrtFn): (r: Result<real>)
    requires Valid(st)
    ensures r.Err? <==> a !in st.users || b !in st.users || |st.users| > |st.items|
    ensures r.Err? ==> (r.error == UnknownId <==> a !in st.users || b !in st.users)
    ensures r.Err? ==> r.error == UnknownId || r.error == OutOfRange
  {
    if a !in st.users || b !in st.users then Err(UnknownId)
    else if |st.users| > |st.items| then Err(OutOfRange)
    else Ok(Cosine(CoRated(st.mat[IndexOf(st.users, a)], st.mat[IndexOf(st.users, b)], |st.users|), sqrt))
  }

  /** `similitud`: accumulates the three sums over the co-rated positions
      among the first `|users|` columns (the loop bound is the row count). */
  method Similarity(st: Store, a: string, b: string, sqrt: SqrtFn) returns (r: Result<real>)
    requires Valid(st)
    ensures r == SimilarityOf(st, a, b, sqrt)
  {
    if a !in st.users || b !in st.users {
      return Err(UnknownId);
    }
    var client := st.mat[IndexOf(st.users, a)];
    var secondary := st.mat[IndexOf(st.users, b)];
    var numerador, denominador1, denominador2 := 0.0, 0.0, 0.0;
    var numRows := |st.mat|;
    for j := 0 to numRows
      invariant j <= |st.items|
      invariant numerador == CoRated(client, secondary, j).dot
      invariant denominador1 == CoRated(client, secondary, j).normSecondary
      invariant denominador2 == CoRated(client, secondary, j).normClient
    {
      if j >= |st.items| {
        return Err(OutOfRange);
      }
      var vClient, vSecondary := client[j], secondary[j];
      if vClient != 0.0 && vSecondary != 0.0 {
        numerador := numerador + Mul(vClient, vSecondary);
        denominador1 := denominador1 + Sq(vSecondary);
        denominador2 := denominador2 + Sq(vClient);
      }
    }
    assert Overlap(numerador, denominador1, denominador2) == CoRated(client, secondary, |st.users|);
    return Ok(Cosine(Overlap(numerador, denominador1, denominador2), sqrt));
  }

  /** Swapping the rows swaps the two sums of squares and keeps the dot product. */
  lemma {:induction false} CoRatedSwap(x: seq<real>, y: seq<real>, n: nat)
    requires n <= |x| && n <= |y|
    ensures CoRated(y, x, n) ==
            Overlap(CoRated(x, y, n).dot, CoRated(x, y, n).normClient, CoRated(x, y, n).normSecondary)
  {
    if n > 0 {
      CoRatedSwap(x, y, n - 1);
      MulCommutes(x[n - 1], y[n - 1]);
    }
  }

  lemma CosineSwap(o: Overlap, sqrt: SqrtFn)
    requires 0.0 <= o.normSecondary && 0.0 <= o.normClient
    ensures Cosine(o, sqrt) == Cosine(Overlap(o.dot, o.normClient, o.normSecondary), sqrt)
  {
    MulCommutes(sqrt(o.normSecondary), sqrt(o.normClient));
  }

  /** `similitud` is symmetric in its two users. */
  lemma SimilaritySymmetric(st: Store, a: string, b: string, sqrt: SqrtFn)
    requires Valid(st)
    ensures SimilarityOf(st, a, b, sqrt) == SimilarityOf(st, b, a, sqrt)
  {
    if a in st.users && b in st.users && |st.users| <= |st.items| {
      var x, y := st.mat[IndexOf(st.users, a)], st.mat[IndexOf(st.users, b)];
      CoRatedSwap(x, y, |st.users|);
      var o := CoRated(x, y, |st.users|);
      CosineSwap(o, sqrt);
    }
  }

  /** The entries of `x` where `y` is zero, set to zero. */
  function MaskBy(x: seq<real>, y: seq<real>): (m: seq<real>)
    requires |x| == |y|
    ensures |m| == |x|
  {
    seq(|x|, j requires 0 <= j < |x| => if y[j] != 0.0 then x[j] else 0.0)
  }

  /** Only co-rated positions contribute: zeroing the entries of either row
      where the other row is zero changes none of the three sums. */
  lemma {:induction false} CoRatedOnlyShared(x: seq<real>, y: seq<real>, n: nat)
    requires |x| == |y| && n <= |x|
    ensures CoRated(x, y, n) == CoRated(MaskBy(x, y), MaskBy(y, x), n)
  {
    if n > 0 {
      CoRatedOnlyShared(x, y, n - 1);
      var mx, my := MaskBy(x, y), MaskBy(y, x);
      var j := n - 1;
      if x[j] != 0.0 && y[j] != 0.0 {
        assert mx[j] == x[j] && my[j] == y[j];
      } else {
        assert mx[j] == 0.0 || my[j] == 0.0;
      }
    }
  }

  /** Two users without a co-rated position among the scanned ones have similarity 0. */
  lemma {:induction false} CoRatedDisjoint(x: seq<real>, y: seq<real>, n: nat)
    requires n <= |x| && n <= |y|
    requires forall j :: 0 <= j < n ==> x[j] == 0.0 || y[j] == 0.0
    ensures CoRated(x, y, n) == Overlap(0.0, 0.0, 0.0)
  {
    if n > 0 {
      CoRatedDisjoint(x, y, n - 1);
    }
  }

  lemma SimilarityDisjointIsZero(st: Store, a: string, b: string, sqrt: SqrtFn)
    requires Valid(st) && a in st.users && b in st.users && |st.users| <= |st.items|
    requires forall j :: 0 <= j < |st.users| ==>
               st.mat[IndexOf(st.users, a)][j] == 0.0 || st.mat[IndexOf(st.users, b)][j] == 0.0
    ensures SimilarityOf(st, a, b, sqrt) == Ok(0.0)
  {
    CoRatedDisjoint(st.mat[IndexOf(st.users, a)], st.mat[IndexOf(st.users, b)], |st.users|);
  }

  /** With non-negative rows, one co-rated position makes the similarity positive. */
  lemma {:induction false} CoRatedPositive(x: seq<real>, y: seq<real>, n: nat, j: nat)
    requires n <= |x| && n <= |y| && j < n
    requires forall k :: 0 <= k < n ==> 0.0 <= x[k] && 0.0 <= y[k]
    requires x[j] != 0.0 && y[j] != 0.0
    ensures CoRated(x, y, n).dot > 0.0
    ensures CoRated(x, y, n).normSecondary > 0.0 && CoRated(x, y, n).normClient > 0.0
  {
    var o := CoRated(x, y, n - 1);
    if j < n - 1 {
      CoRatedPositive(x, y, n - 1, j);
    } else {
      CoRatedNonNegative(x, y, n - 1);
    }
    var a, b := x[n - 1], y[n - 1];
    if a != 0.0 && b != 0.0 {
      MulPositive(a, b);
    }
  }

  lemma {:induction false} CoRatedNonNegative(x: seq<real>, y: seq<real>, n: nat)
    requires n <= |x| && n <= |y|
    requires forall k :: 0 <= k < n ==> 0.0 <= x[k] && 0.0 <= y[k]
    ensures CoRated(x, y, n).dot >= 0.0
  {
    if n > 0 {
      CoRatedNonNegative(x, y, n - 1);
      MulNonNegative(x[n - 1], y[n - 1]);
    }
  }

  lemma SimilarityPositive(st: Store, a: string, b: string, sqrt: SqrtFn, j: nat)
    requires Valid(st) && a in st.users && b in st.users && |st.users| <= |st.items|
    requires forall c :: 0 <= c < |st.items| ==>
               0.0 <= st.mat[IndexOf(st.users, a)][c] && 0.0 <= st.mat[IndexOf(st.users, b)][c]
    requires j < |st.users| && st.mat[IndexOf(st.users, a)][j] != 0.0 && st.mat[IndexOf(st.users, b)][j] != 0.0
    ensures SimilarityOf(st, a, b, sqrt).Ok? && SimilarityOf(st, a, b, sqrt).value > 0.0
  {
    var x, y := st.mat[IndexOf(st.users, a)], st.mat[IndexOf(st.users, b)];
    CoRatedPositive(x, y, |st.users|, j);
  }

  /** With an exact square root, a user who rated something among the
      scanned positions has similarity 1 with themself. */
  lemma SimilaritySelf(st: Store, a: string, sqrt: SqrtFn, j: nat)
    requires Valid(st) && a in st.users && |st.users| <= |st.items|
    requires forall z: real :: 0.0 < z ==> Sq(sqrt(z)) == z
    requires j < |st.users| && st.mat[IndexOf(st.users, a)][j] != 0.0
    ensures SimilarityOf(st, a, a, sqrt) == Ok(1.0)
  {
    var x := st.mat[IndexOf(st.users, a)];
    CoRatedSelf(x, |st.users|);
    CoRatedSelfPositive(x, |st.users|, j);
    CosineSelf(CoRated(x, x, |st.users|), sqrt);
  }

  /** An exact square root gives cosine 1 when the three sums agree. */
  lemma CosineSelf(o: Overlap, sqrt: SqrtFn)
    requires forall z: real :: 0.0 < z ==> Sq(sqrt(z)) == z
    requires 0.0 < o.dot && o.dot == o.normSecondary == o.normClient
    ensures Cosine(o, sqrt) == 1.0
  {
    var m := Mul(sqrt(o.dot), sqrt(o.dot));
    assert m == Sq(sqrt(o.dot)) == o.dot;
    assert o.dot / m == 1.0;
  }

  lemma {:induction false} CoRatedSelf(x: seq<real>, n: nat)
    requires n <= |x|
    ensures CoRated(x, x, n).dot == CoRated(x, x, n).normSecondary == CoRated(x, x, n).normClient
  {
    if n > 0 {
      CoRatedSelf(x, n - 1);
    }
  }

  lemma {:induction false} CoRatedSelfPositive(x: seq<real>, n: nat, j: nat)
    requires n <= |x| && j < n && x[j] != 0.0
    ensures CoRated(x, x, n).normClient > 0.0
  {
    if j < n - 1 {
      CoRatedSelfPositive(x, n - 1, j);
    }
  }

  /** The scan stops at the user count: with 2 users and 3 items, two users
      who both rated only the third item come out with similarity 0. */
  lemma SimilarityMissesLaterItems(sqrt: SqrtFn)
    ensures SimilarityOf(Store(["a", "b"], ["x", "y", "z"], [[0.0, 0.0, 5.0], [0.0, 0.0, 4.0]]),
                         "a", "b", sqrt) == Ok(0.0)
  {
    var st := Store(["a", "b"], ["x", "y", "z"], [[0.0, 0.0, 5.0], [0.0, 0.0, 4.0]]);
    assert Less("a", "b") && Less("x", "y") && Less("y", "z") && Less("x", "z");
    assert Valid(st);
    assert IndexOf(st.users, "a") == 0 && IndexOf(st.users, "b") == 1;
    CoRatedDisjoint(st.mat[0], st.mat[1], 2);
  }
}
