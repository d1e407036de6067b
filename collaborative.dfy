/** `RecomanacioColaborativa.recomana_per`: users are ranked by their cosine
    similarity to the client, the six after the first of the ranking become
    neighbours, and each item is scored by the client's average plus the
    similarity-weighted mean of the neighbours' deviations from their own
    averages. The five best items the client has not rated are chosen. */
module Collaborative {
  import opened Wrappers
  import opened Ids
  import opened Vectors
  import opened Score
  import opened Selection

  /** An entry of `similituds`: a user and their similarity to the client. */
  datatype Neighbour = Neighbour(user: string, sim: real)

  /** `k` of the source: the slice `[:k+2][1:]` keeps up to `k + 1` entries. */
  const K: nat := 5

  // ------------------------------------------------------------- ranking

  /** The order `sort(key=sim, reverse=True)` leaves two entries in when they
      come from a list sorted by user id: higher similarity first, and among
      equal similarities the original (id) order, since the sort is stable. */
  predicate Before(a: Neighbour, b: Neighbour)
  {
    a.sim > b.sim || (a.sim == b.sim && Less(a.user, b.user))
  }

  predicate Ranked(s: seq<Neighbour>)
  {
    forall i, j :: 0 <= i < j < |s| ==> Before(s[i], s[j])
  }

  /** No user appears twice. */
  predicate DistinctUsers(s: seq<Neighbour>)
  {
    forall i, j :: 0 <= i < j < |s| ==> s[i].user != s[j].user
  }

  /** The entries follow strictly increasing user ids, as `ll_usuaris` does. */
  predicate ByUser(s: seq<Neighbour>)
  {
    forall i, j :: 0 <= i < j < |s| ==> Less(s[i].user, s[j].user)
  }

  function UserIds(s: seq<Neighbour>): (ids: seq<string>)
    ensures |ids| == |s|
    ensures forall k :: 0 <= k < |s| ==> ids[k] == s[k].user
  {
    seq(|s|, k requires 0 <= k < |s| => s[k].user)
  }

  /** Places `e` after every entry at least as similar: stable insertion
      into a list in descending order. */
  function InsertRanked(e: Neighbour, s: seq<Neighbour>): (r: seq<Neighbour>)
    ensures |r| == |s| + 1
  {
    if |s| == 0 then [e]
    else if s[0].sim >= e.sim then [s[0]] + InsertRanked(e, s[1..])
    else [e] + s
  }

  /** The stable descending sort of `similituds`, inserting the entries in
      their original order. */
  function RankAll(s: seq<Neighbour>): (r: seq<Neighbour>)
    ensures |r| == |s|
  {
    if |s| == 0 then [] else InsertRanked(s[|s| - 1], RankAll(s[..|s| - 1]))
  }

  lemma {:induction false} InsertRankedPermutes(e: Neighbour, s: seq<Neighbour>)
    ensures multiset(InsertRanked(e, s)) == multiset(s) + multiset{e}
    ensures forall x :: x in InsertRanked(e, s) <==> x == e || x in s
  {
    if |s| > 0 && s[0].sim >= e.sim {
      InsertRankedPermutes(e, s[1..]);
      assert s == [s[0]] + s[1..];
    }
    var t := InsertRanked(e, s);
    forall x ensures x in t <==> x == e || x in s {
      assert x in t <==> x in multiset(t);
      assert x in s <==> x in multiset(s);
    }
  }

  /** Inserting an entry whose id is above every id present keeps the list
      ranked, and keeps ids distinct. */
  lemma {:induction false} InsertRankedKeepsRanked(e: Neighbour, s: seq<Neighbour>)
    requires Ranked(s) && DistinctUsers(s)
    requires forall x :: x in s ==> Less(x.user, e.user)
    ensures Ranked(InsertRanked(e, s)) && DistinctUsers(InsertRanked(e, s))
  {
    if |s| > 0 {
      LessIrreflexive(e.user);
      var rest := s[1..];
      assert forall k :: 0 <= k < |rest| ==> rest[k] == s[k + 1];
      if s[0].sim >= e.sim {
        InsertRankedKeepsRanked(e, rest);
        InsertRankedPermutes(e, rest);
        assert forall x :: x in rest ==> Before(s[0], x) && s[0].user != x.user;
        ConsKeepsRanked(s[0], InsertRanked(e, rest));
      } else {
        assert forall x :: x in s ==> Before(e, x) && e.user != x.user;
        ConsKeepsRanked(e, s);
      }
    }
  }

  /** An entry placed before a ranked list of distinct users, ahead of and
      different from every one of them, keeps the list ranked and distinct. */
  lemma ConsKeepsRanked(h: Neighbour, t: seq<Neighbour>)
    requires Ranked(t) && DistinctUsers(t)
    requires forall x :: x in t ==> Before(h, x) && h.user != x.user
    ensures Ranked([h] + t) && DistinctUsers([h] + t)
  {
    var s := [h] + t;
    assert forall j :: 0 < j < |s| ==> s[j] == t[j - 1] && t[j - 1] in t;
  }

  /** The ranking is a permutation of the similarities; on a list in
      strictly increasing id order it is ranked and keeps ids distinct. */
  lemma {:induction false} RankAllCorrect(s: seq<Neighbour>)
    requires ByUser(s)
    ensures multiset(RankAll(s)) == multiset(s)
    ensures forall x :: x in RankAll(s) <==> x in s
    ensures Ranked(RankAll(s)) && DistinctUsers(RankAll(s))
  {
    if |s| > 0 {
      var init, e := s[..|s| - 1], s[|s| - 1];
      assert s == init + [e];
      RankAllCorrect(init);
      InsertRankedPermutes(e, RankAll(init));
      assert forall x :: x in init ==> Less(x.user, e.user);
      InsertRankedKeepsRanked(e, RankAll(init));
    }
  }

  /** `similituds[:k+2][1:]`: drops the first entry of the ranking, which is
      the client only when no other user ranks before them. */
  function Neighbours(r: seq<Neighbour>): (n: seq<Neighbour>)
    ensures |r| == 0 ==> |n| == 0
    ensures |r| > 0 ==> |n| == (if |r| < K + 2 then |r| else K + 2) - 1
    ensures forall k :: 0 <= k < |n| ==> n[k] == r[k + 1]
  {
    if |r| == 0 then [] else r[..if |r| < K + 2 then |r| else K + 2][1..]
  }

  // ---------------------------------------------------------- similarities

  /** `similitud(client, usuari)` when it returns a value. */
  function SimilarityTo(st: Store, u: string, v: string, sqrt: SqrtFn): real
    requires Valid(st) && u in st.users && v in st.users && |st.users| <= |st.items|
  {
    Cosine(CoRated(st.mat[IndexOf(st.users, u)], st.mat[IndexOf(st.users, v)], |st.users|), sqrt)
  }

  /** The call fails exactly when the rows are scanned past the last
      column, and otherwise yields `SimilarityTo`. */
  lemma SimilarityCall(st: Store, u: string, v: string, sqrt: SqrtFn, r: Result<real>)
    requires Valid(st) && u in st.users && v in st.users
    requires r == SimilarityOf(st, u, v, sqrt)
    ensures r.Err? <==> |st.users| > |st.items|
    ensures r.Err? ==> r.error == OutOfRange
    ensures r.Ok? ==> |st.users| <= |st.items| && r.value == SimilarityTo(st, u, v, sqrt)
  {
  }

  /** `similituds` after `n` iterations: the first `n` users in id order,
      each with their similarity to the client. */
  function SimilaritiesUpTo(st: Store, u: string, sqrt: SqrtFn, n: nat): (s: seq<Neighbour>)
    requires Valid(st) && u in st.users && n <= |st.users| <= |st.items|
    ensures |s| == n
    ensures forall k :: 0 <= k < n ==> s[k] == Neighbour(st.users[k], SimilarityTo(st, u, st.users[k], sqrt))
  {
    if n == 0 then []
    else SimilaritiesUpTo(st, u, sqrt, n - 1) + [Neighbour(st.users[n - 1], SimilarityTo(st, u, st.users[n - 1], sqrt))]
  }

  /** `similituds` before sorting. */
  function Similarities(st: Store, u: string, sqrt: SqrtFn): seq<Neighbour>
    requires Valid(st) && u in st.users && |st.users| <= |st.items|
  {
    SimilaritiesUpTo(st, u, sqrt, |st.users|)
  }

  /** The neighbours the prediction combines. */
  function NeighboursOf(st: Store, u: string, sqrt: SqrtFn): seq<Neighbour>
    requires Valid(st) && u in st.users && |st.users| <= |st.items|
  {
    Neighbours(RankAll(Similarities(st, u, sqrt)))
  }

  /** The neighbours are registered users with distinct ids, in ranking
      order, `min(k + 2, |users|) - 1` of them. */
  lemma NeighboursOfFacts(st: Store, u: string, sqrt: SqrtFn)
    requires Valid(st) && u in st.users && |st.users| <= |st.items|
    ensures |NeighboursOf(st, u, sqrt)| == (if |st.users| < K + 2 then |st.users| else K + 2) - 1
    ensures forall x :: x in NeighboursOf(st, u, sqrt) ==> x.user in st.users
    ensures DistinctUsers(NeighboursOf(st, u, sqrt))
    ensures Ranked(NeighboursOf(st, u, sqrt))
  {
    var s := Similarities(st, u, sqrt);
    SimilaritiesByUser(st, u, sqrt);
    RankAllCorrect(s);
    NeighboursKeep(RankAll(s));
  }

  lemma SimilaritiesByUser(st: Store, u: string, sqrt: SqrtFn)
    requires Valid(st) && u in st.users && |st.users| <= |st.items|
    ensures ByUser(Similarities(st, u, sqrt))
    ensures forall x :: x in Similarities(st, u, sqrt) ==> x.user in st.users
  {
    var s := Similarities(st, u, sqrt);
    assert forall k :: 0 <= k < |s| ==> s[k].user == st.users[k];
  }

  /** The neighbours are a ranked slice of the ranking. */
  lemma NeighboursKeep(r: seq<Neighbour>)
    requires Ranked(r) && DistinctUsers(r)
    ensures Ranked(Neighbours(r)) && DistinctUsers(Neighbours(r))
    ensures forall x :: x in Neighbours(r) ==> x in r
  {
    var n := Neighbours(r);
    assert forall k :: 0 <= k < |n| ==> n[k] == r[k + 1];
  }

  /** The loop that appends `(usuari, similitud(client, usuari))` for every
      user in id order; the first call already fails when the rows are
      longer than the item count allows. */
  method ScanSimilarities(st: Store, u: string, sqrt: SqrtFn) returns (r: Result<seq<Neighbour>>)
    requires Valid(st) && u in st.users
    ensures r.Err? <==> |st.users| > |st.items|
    ensures r.Err? ==> r.error == OutOfRange
    ensures r.Ok? ==> |st.users| <= |st.items| && r.value == Similarities(st, u, sqrt)
  {
    var similituds: seq<Neighbour> := [];
    for k := 0 to |st.users|
      invariant k > 0 ==> |st.users| <= |st.items|
      invariant k > 0 ==> similituds == SimilaritiesUpTo(st, u, sqrt, k)
      invariant k == 0 ==> similituds == []
    {
      var usuari := st.users[k];
      var s := Similarity(st, u, usuari, sqrt);
      SimilarityCall(st, u, usuari, sqrt, s);
      if s.Err? {
        return Err(s.error);
      }
      similituds := similituds + [Neighbour(usuari, s.value)];
    }
    return Ok(similituds);
  }

  // ------------------------------------------------------------ prediction

  /** Every neighbour is a registered user with a positive cell, so that
      `avg_usu` of them is a number. */
  predicate Averaged(st: Store, nbrs: seq<Neighbour>)
    requires Valid(st)
  {
    forall x :: x in nbrs ==> x.user in st.users && HasPositive(st.mat[IndexOf(st.users, x.user)])
  }

  function Weights(nbrs: seq<Neighbour>): (w: seq<real>)
    ensures |w| == |nbrs|
    ensures forall k :: 0 <= k < |nbrs| ==> w[k] == nbrs[k].sim
  {
    seq(|nbrs|, k requires 0 <= k < |nbrs| => nbrs[k].sim)
  }

  /** How far each neighbour's cell for item `i` lies from that neighbour's average. */
  function Deviations(st: Store, nbrs: seq<Neighbour>, i: string): (d: seq<real>)
    requires Valid(st) && Averaged(st, nbrs) && i in st.items
    ensures |d| == |nbrs|
    ensures forall k :: 0 <= k < |nbrs| ==> d[k] == Cell(st, nbrs[k].user, i) - AvgUser(st, nbrs[k].user)
  {
    seq(|nbrs|, k requires 0 <= k < |nbrs| => Cell(st, nbrs[k].user, i) - AvgUser(st, nbrs[k].user))
  }

  /** Everything the prediction divides by or averages is a number: the
      client and every neighbour have a positive cell, and the similarities
      do not sum to 0. */
  predicate Finite(st: Store, u: string, nbrs: seq<Neighbour>)
    requires Valid(st)
  {
    u in st.users && HasPositive(st.mat[IndexOf(st.users, u)]) && Averaged(st, nbrs) && Sum(Weights(nbrs)) != 0.0
  }

  /** The predicted score of item `i`: the client's average plus the
      similarity-weighted mean deviation of the neighbours. */
  function Prediction(st: Store, u: string, nbrs: seq<Neighbour>, i: string): (p: real)
    requires Valid(st) && Finite(st, u, nbrs) && i in st.items
    ensures Mul(p - AvgUser(st, u), Sum(Weights(nbrs))) == Dot(Weights(nbrs), Deviations(st, nbrs, i))
  {
    ShiftScalesBack(AvgUser(st, u), Dot(Weights(nbrs), Deviations(st, nbrs, i)), Sum(Weights(nbrs)));
    AvgUser(st, u) + Dot(Weights(nbrs), Deviations(st, nbrs, i)) / Sum(Weights(nbrs))
  }

  function Predictions(st: Store, u: string, nbrs: seq<Neighbour>): (p: seq<real>)
    requires Valid(st) && Finite(st, u, nbrs)
    ensures |p| == |st.items|
  {
    seq(|st.items|, c requires 0 <= c < |st.items| => Prediction(st, u, nbrs, st.items[c]))
  }

  /** With non-negative similarities the prediction moves the client's
      average by a weighted mean of the deviations, so it stays within the
      client's average shifted by the extreme deviations. */
  lemma PredictionWithin(st: Store, u: string, nbrs: seq<Neighbour>, i: string, lo: real, hi: real)
    requires Valid(st) && Finite(st, u, nbrs) && i in st.items
    requires forall k :: 0 <= k < |nbrs| ==> 0.0 <= nbrs[k].sim
    requires forall k :: 0 <= k < |nbrs| ==> lo <= Cell(st, nbrs[k].user, i) - AvgUser(st, nbrs[k].user) <= hi
    ensures AvgUser(st, u) + lo <= Prediction(st, u, nbrs, i) <= AvgUser(st, u) + hi
  {
    var w := Weights(nbrs);
    assert 0.0 <= Sum(w) by {
      SumNonNegative(w);
    }
    WeightedMeanWithin(w, Deviations(st, nbrs, i), lo, hi);
  }

  /** Neighbours that all rated item `i` exactly at their own average leave
      the client's average unchanged. */
  lemma PredictionAtAverages(st: Store, u: string, nbrs: seq<Neighbour>, i: string)
    requires Valid(st) && Finite(st, u, nbrs) && i in st.items
    requires forall k :: 0 <= k < |nbrs| ==> 0.0 <= nbrs[k].sim
    requires forall k :: 0 <= k < |nbrs| ==> Cell(st, nbrs[k].user, i) == AvgUser(st, nbrs[k].user)
    ensures Prediction(st, u, nbrs, i) == AvgUser(st, u)
  {
    PredictionWithin(st, u, nbrs, i, 0.0, 0.0);
  }

  /** A neighbour who has not rated the item counts with the cell 0, so
      their deviation is minus their average and pulls the prediction down. */
  lemma UnratedNeighbourPullsDown(st: Store, nbrs: seq<Neighbour>, i: string, k: nat)
    requires Valid(st) && Averaged(st, nbrs) && i in st.items && k < |nbrs|
    requires nbrs[k] in nbrs && Unrated(st, nbrs[k].user, i)
    ensures Deviations(st, nbrs, i)[k] == -AvgUser(st, nbrs[k].user) < 0.0
  {
  }

  /** The inner loop of `recomana_per` for one item: it accumulates the
      weighted deviations and the weights over `usuaris_similars`, looking
      each neighbour's similarity up by `index` of their id. */
  method Accumulate(st: Store, nbrs: seq<Neighbour>, similars: seq<string>, item: string)
    returns (numerador: real, denominador: real)
    requires Valid(st) && Averaged(st, nbrs) && DistinctUsers(nbrs) && item in st.items
    requires similars == UserIds(nbrs)
    ensures numerador == Dot(Weights(nbrs), Deviations(st, nbrs, item))
    ensures denominador == Sum(Weights(nbrs))
  {
    ghost var w, d := Weights(nbrs), Deviations(st, nbrs, item);
    numerador, denominador := 0.0, 0.0;
    for k := 0 to |similars|
      invariant numerador == Dot(w[..k], d[..k])
      invariant denominador == Sum(w[..k])
    {
      DotSnoc(w, d, k);
      var usuari := similars[k];
      var i := IndexOf(similars, usuari);
      AccumulateStep(st, nbrs, similars, item, k);
      var mitjana := AvgUser(st, usuari);
      numerador := numerador + Mul(nbrs[i].sim, Cell(st, usuari, item) - mitjana);
      denominador := denominador + nbrs[i].sim;
    }
    DotAll(w, d);
  }

  /** The neighbour found by `similars.index` is the one at hand, and its
      term is its similarity times its deviation. */
  lemma AccumulateStep(st: Store, nbrs: seq<Neighbour>, similars: seq<string>, item: string, k: nat)
    requires Valid(st) && Averaged(st, nbrs) && DistinctUsers(nbrs) && item in st.items
    requires similars == UserIds(nbrs) && k < |nbrs|
    ensures similars[k] in st.users && HasPositive(st.mat[IndexOf(st.users, similars[k])])
    ensures IndexOf(similars, similars[k]) == k
    ensures Weights(nbrs)[k] == nbrs[k].sim
    ensures Deviations(st, nbrs, item)[k] == Cell(st, similars[k], item) - AvgUser(st, similars[k])
  {
    assert Distinct(similars);
    IndexOfDistinct(similars, k);
    assert nbrs[k] in nbrs;
  }

  /** One pass of the item loop: the client's average plus the quotient
      the inner loop accumulates. */
  method PredictItem(st: Store, u: string, nbrs: seq<Neighbour>, similars: seq<string>, mitjanaUsu: real, item: string)
    returns (score: real)
    requires Valid(st) && Finite(st, u, nbrs) && DistinctUsers(nbrs) && item in st.items
    requires similars == UserIds(nbrs) && mitjanaUsu == AvgUser(st, u)
    ensures score == Prediction(st, u, nbrs, item)
  {
    var numerador, denominador := Accumulate(st, nbrs, similars, item);
    score := mitjanaUsu + numerador / denominador;
  }

  /** The item loop of `recomana_per`, filling `puntuacions` in item order. */
  method PredictAll(st: Store, u: string, nbrs: seq<Neighbour>) returns (p: seq<real>)
    requires Valid(st) && Finite(st, u, nbrs) && DistinctUsers(nbrs)
    ensures p == Predictions(st, u, nbrs)
  {
    var ll := st.items;
    var similars := UserIds(nbrs);
    var puntuacions := new real[|ll|];
    var mitjanaUsu := AvgUser(st, u);
    ghost var predicted := Predictions(st, u, nbrs);
    for c := 0 to |ll|
      invariant forall j :: 0 <= j < c ==> puntuacions[j] == predicted[j]
    {
      puntuacions[c] := PredictItem(st, u, nbrs, similars, mitjanaUsu, ll[c]);
    }
    p := puntuacions[..];
  }

  // -------------------------------------------------------- recommendation

  /** `recomana_per` of the collaborative strategy. The failures come in the
      source's order: an unknown client (`list.index`), a scan past the last
      column when there are more users than items, `0/0` when the client is
      the only user, and too few unrated items, which the loop meets
      whatever the scores are. Past them, a NaN or infinite score is
      reported as such; the scores are then not computed. */
  method Recommend(st: Store, u: string, sqrt: SqrtFn) returns (r: Result<Recommendation>)
    requires Valid(st)
    ensures r.Err? && r.error == UnknownId <==> u !in st.users
    ensures r.Err? && r.error == OutOfRange <==> u in st.users && |st.users| > |st.items|
    ensures r.Err? && r.error == ZeroDenominator <==>
              u in st.users && |st.users| <= |st.items| && |NeighboursOf(st, u, sqrt)| == 0
    ensures r.Err? && r.error == Exhausted <==>
              u in st.users && |st.users| <= |st.items| && |NeighboursOf(st, u, sqrt)| > 0 &&
              CountAdmitted(st.items, NotSeen(st, u)) < Quota
    ensures r.Err? && r.error == NotANumber <==>
              u in st.users && |st.users| <= |st.items| && |NeighboursOf(st, u, sqrt)| > 0 &&
              CountAdmitted(st.items, NotSeen(st, u)) >= Quota && !Finite(st, u, NeighboursOf(st, u, sqrt))
    ensures r.Err? ==> r.error in {UnknownId, OutOfRange, ZeroDenominator, NotANumber, Exhausted}
    ensures r.Ok? ==> u in st.users && |st.users| <= |st.items| && Finite(st, u, NeighboursOf(st, u, sqrt))
    ensures r.Ok? ==> r.value.scores == Predictions(st, u, NeighboursOf(st, u, sqrt))
    ensures r.Ok? ==> Greedy(r.value.scores, st.items, NotSeen(st, u), Quota) == Ok(r.value.items)
    ensures r.Ok? ==> TopPicks(r.value.scores, st.items, NotSeen(st, u), r.value.items)
  {
    if u !in st.users {
      return Err(UnknownId);
    }
    var similituds := ScanSimilarities(st, u, sqrt);
    if similituds.Err? {
      return Err(similituds.error);
    }
    var nbrs := Neighbours(RankAll(similituds.value));
    NeighboursOfFacts(st, u, sqrt);
    if |nbrs| == 0 {
      return Err(ZeroDenominator);
    }
    var finite := Finite(st, u, nbrs);
    var puntuacions := seq(|st.items|, _ => 0.0);
    if finite {
      puntuacions := PredictAll(st, u, nbrs);
    }
    SortedIsDistinct(st.items);
    GreedyTop(puntuacions, st.items, NotSeen(st, u));
    var picked := SelectTop(puntuacions, st.items, NotSeen(st, u));
    if picked.Err? {
      return Err(Exhausted);
    }
    if !finite {
      return Err(NotANumber);
    }
    return Ok(Recommendation(puntuacions, picked.value));
  }

  /** Ties at the top can push the client out of first place: a user with
      the same similarity and a smaller id ranks first and is dropped, and
      the client becomes a neighbour of themself. */
  lemma ClientCanBeOwnNeighbour()
    ensures Neighbours(RankAll([Neighbour("a", 1.0), Neighbour("u", 1.0), Neighbour("z", 0.5)]))
            == [Neighbour("u", 1.0), Neighbour("z", 0.5)]
  {
    var s := [Neighbour("a", 1.0), Neighbour("u", 1.0), Neighbour("z", 0.5)];
    assert s[..2] == [Neighbour("a", 1.0), Neighbour("u", 1.0)];
    assert s[..2][..1] == [Neighbour("a", 1.0)];
    assert [Neighbour("a", 1.0)][..0] == [];
    assert RankAll([Neighbour("a", 1.0)]) == [Neighbour("a", 1.0)];
    assert [Neighbour("a", 1.0)][1..] == [];
    assert InsertRanked(Neighbour("u", 1.0), [Neighbour("a", 1.0)]) == [Neighbour("a", 1.0), Neighbour("u", 1.0)];
    assert RankAll(s[..2]) == [Neighbour("a", 1.0), Neighbour("u", 1.0)];
    var r := [Neighbour("a", 1.0), Neighbour("u", 1.0)];
    assert r[1..] == [Neighbour("u", 1.0)] && r[1..][1..] == [];
    assert InsertRanked(Neighbour("z", 0.5), r) == [Neighbour("a", 1.0), Neighbour("u", 1.0), Neighbour("z", 0.5)];
    var t := [Neighbour("a", 1.0), Neighbour("u", 1.0), Neighbour("z", 0.5)];
    assert RankAll(s) == t;
    assert t[..3] == t && t[1..] == [Neighbour("u", 1.0), Neighbour("z", 0.5)];
  }
}
