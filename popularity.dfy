/** `RecomanacioSimple.recomana_per`: every item is scored by blending its
    own average with the global average of the items that have enough
    votes, and the best five candidates the user has not rated are chosen. */
module Popularity {
  import opened Wrappers
  import opened Ids
  import opened Vectors
  import opened Score
  import opened Selection

  /** `(v/(v+m))*avg_item + (m/(v+m))*avg_global`, in true division: the
      average of the item's average counted `v` times and the global
      average counted `m` times. */
  function Blend(v: nat, m: int, avgItem: real, avgGlobal: real): (b: real)
    requires v + m != 0
    ensures Mul((v + m) as real, b) == Mul(v as real, avgItem) + Mul(m as real, avgGlobal)
  {
    var n := (v + m) as real;
    MulDivCancel(v as real, n, avgItem);
    MulDivCancel(m as real, n, avgGlobal);
    MulDistributes(n, Mul(v as real / n, avgItem), Mul(m as real / n, avgGlobal));
    Mul(v as real / n, avgItem) + Mul(m as real / n, avgGlobal)
  }

  /** With a non-negative threshold the blend is a convex combination, so
      it lies between the item's average and the global average. */
  lemma BlendWithin(v: nat, m: int, avgItem: real, avgGlobal: real)
    requires 0 <= m && 0 < v + m
    ensures avgItem <= avgGlobal ==> avgItem <= Blend(v, m, avgItem, avgGlobal) <= avgGlobal
    ensures avgGlobal <= avgItem ==> avgGlobal <= Blend(v, m, avgItem, avgGlobal) <= avgItem
  {
    var n := (v + m) as real;
    var wv, wm := v as real / n, m as real / n;
    assert 0.0 <= wv && 0.0 <= wm && wv + wm == 1.0;
    MulCommutes(wv, avgItem);
    MulCommutes(wv, avgGlobal);
    MulCommutes(wm, avgItem);
    MulCommutes(wm, avgGlobal);
    MulDistributes(avgItem, wv, wm);
    MulDistributes(avgGlobal, wv, wm);
    if avgItem <= avgGlobal {
      MulMonotone(avgItem, avgGlobal, wv);
      MulMonotone(avgItem, avgGlobal, wm);
    } else {
      MulMonotone(avgGlobal, avgItem, wv);
      MulMonotone(avgGlobal, avgItem, wm);
    }
  }

  /** An item nobody voted for gets exactly the global average. */
  lemma BlendWithoutVotes(m: int, avgItem: real, avgGlobal: real)
    requires m != 0
    ensures Blend(0, m, avgItem, avgGlobal) == avgGlobal
  {
    assert 0 as real / m as real == 0.0;
    assert m as real / m as real == 1.0;
  }

  /** With threshold 0 an item with votes gets exactly its own average. */
  lemma BlendWithoutThreshold(v: nat, avgItem: real, avgGlobal: real)
    requires 0 < v
    ensures Blend(v, 0, avgItem, avgGlobal) == avgItem
  {
    assert v as real / v as real == 1.0;
  }

  /** A better item average never lowers the blend. */
  lemma BlendMonotone(v: nat, m: int, a1: real, a2: real, avgGlobal: real)
    requires 0 <= m && 0 < v + m && a1 <= a2
    ensures Blend(v, m, a1, avgGlobal) <= Blend(v, m, a2, avgGlobal)
  {
    var w := v as real / (v + m) as real;
    assert 0.0 <= w;
    MulMonotone(a1, a2, w);
    MulCommutes(w, a1);
    MulCommutes(w, a2);
  }

  /** `min_vots(m)`: the items considered. */
  function Candidates(st: Store, m: int): seq<string>
    requires Valid(st)
  {
    WithMinVotes(st, m, |st.items|)
  }

  /** No item makes `num_vots + min_vots` zero. */
  predicate NoZeroDenominator(st: Store, m: int)
    requires Valid(st)
  {
    forall c :: 0 <= c < |st.items| ==> NumVotes(st, st.items[c]) + m != 0
  }

  lemma ZeroDenominatorAt(st: Store, m: int, c: nat)
    requires Valid(st) && c < |st.items| && NumVotes(st, st.items[c]) + m == 0
    ensures !NoZeroDenominator(st, m)
  {
  }

  /** Every item has a positive cell, so no `avg_item` is NaN. */
  predicate AllRated(st: Store)
    requires Valid(st)
  {
    forall c :: 0 <= c < |st.items| ==> HasPositive(Column(st, c))
  }

  lemma AllRatedAt(st: Store, c: nat)
    requires Valid(st) && AllRated(st) && c < |st.items|
    ensures HasPositive(Column(st, IndexOf(st.items, st.items[c])))
  {
    SortedIsDistinct(st.items);
    IndexOfDistinct(st.items, c);
  }

  predicate Ready(st: Store, m: int)
    requires Valid(st)
  {
    |Candidates(st, m)| > 0 && NoZeroDenominator(st, m) && AllRated(st)
  }

  lemma CandidatesAveraged(st: Store, m: int)
    requires Valid(st) && AllRated(st)
    ensures forall x :: x in Candidates(st, m) ==> x in st.items
    ensures AllAveraged(st, Candidates(st, m))
  {
    WithMinVotesMembers(st, m, |st.items|);
  }

  /** The blend of the item at position `c`. */
  function Entry(st: Store, m: int, g: real, c: nat): real
    requires Valid(st) && c < |st.items| && NumVotes(st, st.items[c]) + m != 0 && AllRated(st)
  {
    AllRatedAt(st, c);
    Blend(NumVotes(st, st.items[c]), m, AvgItem(st, st.items[c]), g)
  }

  /** Every item's blend with a given global average, in item order. */
  function BlendAll(st: Store, m: int, g: real): (s: seq<real>)
    requires Valid(st) && NoZeroDenominator(st, m) && AllRated(st)
    ensures |s| == |st.items|
    ensures forall c :: 0 <= c < |st.items| ==> s[c] == Entry(st, m, g, c)
  {
    seq(|st.items|, c requires 0 <= c < |st.items| => Entry(st, m, g, c))
  }

  /** The score vector of `recomana_per`. */
  function Scores(st: Store, m: int): (s: seq<real>)
    requires Valid(st) && Ready(st, m)
    ensures |s| == |st.items|
  {
    CandidatesAveraged(st, m);
    BlendAll(st, m, Mean(ItemAverages(st, Candidates(st, m))))
  }

  /** With a non-negative threshold every score lies between the lowest and
      the highest cell average. */
  lemma ScoresWithin(st: Store, m: int, lo: real, hi: real)
    requires Valid(st) && Ready(st, m) && 0 <= m
    requires forall x :: x in st.items ==> lo <= AvgItem(st, x) <= hi
    ensures forall c :: 0 <= c < |st.items| ==> lo <= Scores(st, m)[c] <= hi
  {
    CandidatesAveraged(st, m);
    var cands := Candidates(st, m);
    var g := Mean(ItemAverages(st, cands));
    GlobalAverageWithin(st, cands, lo, hi);
    forall c | 0 <= c < |st.items| ensures lo <= Scores(st, m)[c] <= hi {
      var x := st.items[c];
      BlendWithin(NumVotes(st, x), m, AvgItem(st, x), g);
    }
  }

  /** The loop of `recomana_per` that fills `puntuacions` (`np.zeros`, then
      one write per position): it stops at the first item whose
      `num_vots + min_vots` is zero. When some average is NaN (`nan`) the
      scores it writes are not modelled. */
  method BlendLoop(st: Store, m: int, g: real, nan: bool) returns (r: Result<seq<real>>)
    requires Valid(st) && (!nan ==> AllRated(st))
    ensures r.Err? <==> !NoZeroDenominator(st, m)
    ensures r.Err? ==> r.error == ZeroDenominator
    ensures r.Ok? ==> |r.value| == |st.items|
    ensures r.Ok? && !nan ==> r.value == BlendAll(st, m, g)
  {
    var ll := st.items;
    var p := seq(|ll|, _ => 0.0);
    for c := 0 to |ll|
      invariant |p| == |ll|
      invariant forall j :: 0 <= j < c ==>
                  NumVotes(st, st.items[j]) + m != 0 && (!nan ==> p[j] == Entry(st, m, g, j))
    {
      var ok, puntuacio := BlendItem(st, m, g, nan, c);
      if !ok {
        ZeroDenominatorAt(st, m, c);
        return Err(ZeroDenominator);
      }
      if !nan {
        p := p[c := puntuacio];
      }
    }
    return Ok(p);
  }

  /** One pass of the loop: `num_vots`, `avg_item` and the blend of the item
      at position `c`, or `ok == false` where the division would raise. */
  method BlendItem(st: Store, m: int, g: real, nan: bool, c: nat) returns (ok: bool, puntuacio: real)
    requires Valid(st) && (!nan ==> AllRated(st)) && c < |st.items|
    ensures ok <==> NumVotes(st, st.items[c]) + m != 0
    ensures ok && !nan ==> puntuacio == Entry(st, m, g, c)
  {
    var numVots := NumVotes(st, st.items[c]);
    if numVots + m == 0 {
      return false, 0.0;
    }
    if nan {
      return true, 0.0;
    }
    AllRatedAt(st, c);
    var avgItem := AvgItem(st, st.items[c]);
    return true, Blend(numVots, m, avgItem, g);
  }

  /** Items are admitted when they are candidates the user has not rated. */
  predicate Admits(st: Store, u: string, m: int, x: string)
  {
    Valid(st) && u in st.users && x in Candidates(st, m) && x in st.items && Unrated(st, u, x)
  }

  function Filter(st: Store, u: string, m: int): string -> bool
  {
    x => Admits(st, u, m, x)
  }

  /** `recomana_per` with the vote threshold passed in. The failures come
      in the source's order: no candidate for `avg_global`, an integer
      division by zero, an unknown user in `no_vista`, and too few
      admissible items for the loop; these do not depend on the scores, so
      they come first even when some average is NaN. Past them, a NaN
      average is reported as such. */
  method Recommend(st: Store, u: string, m: int) returns (r: Result<Recommendation>)
    requires Valid(st)
    ensures r.Err? && r.error == NoCandidates <==> |Candidates(st, m)| == 0
    ensures r.Err? && r.error == ZeroDenominator <==> |Candidates(st, m)| > 0 && !NoZeroDenominator(st, m)
    ensures r.Err? && r.error == UnknownId <==>
              |Candidates(st, m)| > 0 && NoZeroDenominator(st, m) && u !in st.users
    ensures r.Err? && r.error == Exhausted <==>
              |Candidates(st, m)| > 0 && NoZeroDenominator(st, m) && u in st.users &&
              CountAdmitted(st.items, Filter(st, u, m)) < Quota
    ensures r.Err? && r.error == NotANumber <==>
              |Candidates(st, m)| > 0 && NoZeroDenominator(st, m) && u in st.users &&
              CountAdmitted(st.items, Filter(st, u, m)) >= Quota && !AllRated(st)
    ensures r.Err? ==> r.error in {NoCandidates, ZeroDenominator, NotANumber, UnknownId, Exhausted}
    ensures r.Ok? ==> Ready(st, m) && u in st.users && r.value.scores == Scores(st, m)
    ensures r.Ok? ==> Greedy(Scores(st, m), st.items, Filter(st, u, m), Quota) == Ok(r.value.items)
    ensures r.Ok? ==> TopPicks(Scores(st, m), st.items, Filter(st, u, m), r.value.items)
  {
    var cands := MinVotes(st, m);
    if |cands| == 0 {
      return Err(NoCandidates);
    }
    var nan := !AllRated(st);
    var g := 0.0;
    if !nan {
      CandidatesAveraged(st, m);
      var avg := AvgGlobal(st, cands);
      g := avg.value;
    }
    var scores := BlendLoop(st, m, g, nan);
    if scores.Err? {
      return Err(scores.error);
    }
    if u !in st.users {
      return Err(UnknownId);
    }
    SortedIsDistinct(st.items);
    GreedyTop(scores.value, st.items, Filter(st, u, m));
    var picked := SelectTop(scores.value, st.items, Filter(st, u, m));
    if picked.Err? {
      return Err(Exhausted);
    }
    if nan {
      return Err(NotANumber);
    }
    return Ok(Recommendation(scores.value, picked.value));
  }
}
