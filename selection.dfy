/** The greedy top-5 loop shared by the three strategies of recomanacions.py:
    take the first position of the largest remaining score, keep its item if
    the strategy admits it, and delete that position from both the score list
    and the id list. */
module Selection {
  import opened Wrappers
  import opened Ids

  /** What every `recomana_per` returns: the full score vector, aligned
      with the item list, and the chosen items. */
  datatype Recommendation = Recommendation(scores: seq<real>, items: seq<string>)

  /** How many items every strategy returns. */
  const Quota: nat := 5

  /** `s.index(max(s))` and `np.argmax(s)`: the first position of the maximum. */
  function ArgMax(s: seq<real>): (k: nat)
    requires |s| > 0
    ensures k < |s|
    ensures forall j :: 0 <= j < |s| ==> s[j] <= s[k]
    ensures forall j :: 0 <= j < k ==> s[j] < s[k]
  {
    if |s| == 1 then 0
    else
      var k' := ArgMax(s[..|s| - 1]);
      assert forall j :: 0 <= j < |s| - 1 ==> s[j] == s[..|s| - 1][j];
      if s[|s| - 1] > s[k'] then |s| - 1 else k'
  }

  /** `list.pop(k)` and `np.delete(a, k)`: later entries move down by one. */
  function RemoveAt<T>(s: seq<T>, k: nat): (r: seq<T>)
    requires k < |s|
    ensures |r| == |s| - 1
    ensures forall j :: 0 <= j < |r| ==> r[j] == if j < k then s[j] else s[j + 1]
  {
    s[..k] + s[k + 1..]
  }

  function PrependAll(items: seq<string>, r: Result<seq<string>>): Result<seq<string>>
  {
    if r.Ok? then Ok(items + r.value) else r
  }

  /** What the loop returns when `need` more items are still wanted: fewer
      admissible items than that make `max` of an empty list fail. */
  function Greedy(scores: seq<real>, ids: seq<string>, admit: string -> bool, need: nat): (r: Result<seq<string>>)
    requires |scores| == |ids|
    ensures r.Err? ==> r.error == Exhausted
    ensures r.Ok? ==> |r.value| == need
    ensures r.Ok? ==> forall x :: x in r.value ==> x in ids && admit(x)
    decreases |scores|
  {
    if need == 0 then Ok([])
    else if |scores| == 0 then Err(Exhausted)
    else
      var k := ArgMax(scores);
      var picked := admit(ids[k]);
      var rest := Greedy(RemoveAt(scores, k), RemoveAt(ids, k), admit, if picked then need - 1 else need);
      assert forall x :: x in RemoveAt(ids, k) ==> x in ids;
      if picked then PrependAll([ids[k]], rest) else rest
  }

  /** The loop `while len(items) < 5`: it pops from copies, so the caller's
      score vector and id list are left as they were. */
  method SelectTop(scores: seq<real>, ids: seq<string>, admit: string -> bool) returns (r: Result<seq<string>>)
    requires |scores| == |ids|
    ensures r == Greedy(scores, ids, admit, Quota)
  {
    var copia, ll := scores, ids;
    var items: seq<string> := [];
    PrependAllNothing(Greedy(scores, ids, admit, Quota));
    while |items| < Quota
      invariant |copia| == |ll| && |items| <= Quota
      invariant Greedy(scores, ids, admit, Quota) == PrependAll(items, Greedy(copia, ll, admit, Quota - |items|))
      decreases |copia|
    {
      if |copia| == 0 {
        return Err(Exhausted);
      }
      var index := ArgMax(copia);
      var id := ll[index];
      GreedyStep(copia, ll, admit, Quota - |items|);
      if admit(id) {
        PrependAllAssoc(items, [id], Greedy(RemoveAt(copia, index), RemoveAt(ll, index), admit, Quota - |items| - 1));
        items := items + [id];
      }
      copia := RemoveAt(copia, index);
      ll := RemoveAt(ll, index);
    }
    assert items + [] == items;
    return Ok(items);
  }

  /** One round of the loop, as `Greedy` takes it. */
  lemma GreedyStep(scores: seq<real>, ids: seq<string>, admit: string -> bool, need: nat)
    requires |scores| == |ids| && |scores| > 0 && need > 0
    ensures var k := ArgMax(scores);
            Greedy(scores, ids, admit, need) ==
              if admit(ids[k]) then PrependAll([ids[k]], Greedy(RemoveAt(scores, k), RemoveAt(ids, k), admit, need - 1))
              else Greedy(RemoveAt(scores, k), RemoveAt(ids, k), admit, need)
  {
  }

  lemma PrependAllNothing(r: Result<seq<string>>)
    ensures PrependAll([], r) == r
  {
    if r.Ok? {
      assert [] + r.value == r.value;
    }
  }

  lemma PrependAllAssoc(a: seq<string>, b: seq<string>, r: Result<seq<string>>)
    ensures PrependAll(a, PrependAll(b, r)) == PrependAll(a + b, r)
  {
    if r.Ok? {
      assert a + (b + r.value) == (a + b) + r.value;
    }
  }

  /** The number of positions whose item would be admitted. */
  function CountAdmitted(ids: seq<string>, admit: string -> bool): (n: nat)
    ensures n <= |ids|
  {
    if |ids| == 0 then 0
    else CountAdmitted(ids[..|ids| - 1], admit) + (if admit(ids[|ids| - 1]) then 1 else 0)
  }

  lemma {:induction false} CountAdmittedAppend(a: seq<string>, b: seq<string>, admit: string -> bool)
    ensures CountAdmitted(a + b, admit) == CountAdmitted(a, admit) + CountAdmitted(b, admit)
    decreases |b|
  {
    if |b| > 0 {
      assert (a + b)[..|a + b| - 1] == a + b[..|b| - 1];
      CountAdmittedAppend(a, b[..|b| - 1], admit);
    } else {
      assert a + b == a;
    }
  }

  /** Deleting a position loses one admissible item exactly when that item is admitted. */
  lemma CountAdmittedRemoveAt(ids: seq<string>, k: nat, admit: string -> bool)
    requires k < |ids|
    ensures CountAdmitted(RemoveAt(ids, k), admit) + (if admit(ids[k]) then 1 else 0) == CountAdmitted(ids, admit)
  {
    assert ids == ids[..k] + [ids[k]] + ids[k + 1..];
    CountAdmittedAppend(ids[..k] + [ids[k]], ids[k + 1..], admit);
    CountAdmittedAppend(ids[..k], [ids[k]], admit);
    CountAdmittedAppend(ids[..k], ids[k + 1..], admit);
    assert [ids[k]][..0] == [];
  }

  /** The loop succeeds exactly when enough admissible items exist, and then
      returns exactly `need` items. */
  lemma {:induction false} GreedySucceeds(scores: seq<real>, ids: seq<string>, admit: string -> bool, need: nat)
    requires |scores| == |ids|
    ensures Greedy(scores, ids, admit, need).Ok? <==> CountAdmitted(ids, admit) >= need
    ensures Greedy(scores, ids, admit, need).Ok? ==> |Greedy(scores, ids, admit, need).value| == need
    decreases |scores|
  {
    if need > 0 && |scores| > 0 {
      var k := ArgMax(scores);
      var picked := admit(ids[k]);
      CountAdmittedRemoveAt(ids, k, admit);
      GreedySucceeds(RemoveAt(scores, k), RemoveAt(ids, k), admit, if picked then need - 1 else need);
    }
  }

  /** With distinct ids the returned items are distinct. */
  lemma {:induction false} GreedyDistinct(scores: seq<real>, ids: seq<string>, admit: string -> bool, need: nat)
    requires |scores| == |ids| && Distinct(ids)
    ensures Greedy(scores, ids, admit, need).Ok? ==> Distinct(Greedy(scores, ids, admit, need).value)
    decreases |scores|
  {
    if need > 0 && |scores| > 0 {
      var k := ArgMax(scores);
      var picked := admit(ids[k]);
      var rids := RemoveAt(ids, k);
      assert Distinct(rids);
      assert ids[k] !in rids;
      var rest := Greedy(RemoveAt(scores, k), rids, admit, if picked then need - 1 else need);
      GreedyDistinct(RemoveAt(scores, k), rids, admit, if picked then need - 1 else need);
      if picked && rest.Ok? {
        var v := [ids[k]] + rest.value;
        forall a, b | 0 <= a < b < |v| ensures v[a] != v[b] {
          if a == 0 {
            assert v[b] == rest.value[b - 1] && v[b] in rest.value;
          } else {
            assert v[a] == rest.value[a - 1] && v[b] == rest.value[b - 1];
          }
        }
      }
    }
  }

  /** The score standing beside id `x` (ids distinct). */
  function ScoreOf(scores: seq<real>, ids: seq<string>, x: string): real
    requires |scores| == |ids| && x in ids
  {
    scores[IndexOf(ids, x)]
  }

  /** Deleting another position keeps each remaining id beside its score. */
  lemma ScoreOfRemoveAt(scores: seq<real>, ids: seq<string>, k: nat, x: string)
    requires |scores| == |ids| && Distinct(ids) && k < |ids| && x in RemoveAt(ids, k)
    ensures x in ids && x != ids[k]
    ensures ScoreOf(RemoveAt(scores, k), RemoveAt(ids, k), x) == ScoreOf(scores, ids, x)
  {
    var rids := RemoveAt(ids, k);
    var j := IndexOf(rids, x);
    var j' := if j < k then j else j + 1;
    assert ids[j'] == x;
    IndexOfDistinct(ids, j');
  }

  /** After the maximum at `k` is deleted, every other id stays, beside
      the same score, and none scores above the maximum. */
  lemma RemoveMaxKeepsScores(scores: seq<real>, ids: seq<string>, k: nat)
    requires |scores| == |ids| && Distinct(ids) && |ids| > 0 && k == ArgMax(scores)
    ensures Distinct(RemoveAt(ids, k))
    ensures ScoreOf(scores, ids, ids[k]) == scores[k]
    ensures forall x :: x in ids ==> ScoreOf(scores, ids, x) <= scores[k]
    ensures forall x :: x in RemoveAt(ids, k) <==> x in ids && x != ids[k]
    ensures forall x :: x in RemoveAt(ids, k) ==>
              ScoreOf(RemoveAt(scores, k), RemoveAt(ids, k), x) == ScoreOf(scores, ids, x)
  {
    var rids := RemoveAt(ids, k);
    IndexOfDistinct(ids, k);
    forall x | x in ids && x != ids[k] ensures x in rids {
      var j := IndexOf(ids, x);
      assert rids[if j < k then j else j - 1] == x;
    }
    forall x | x in rids ensures x in ids && x != ids[k] &&
                                 ScoreOf(RemoveAt(scores, k), rids, x) == ScoreOf(scores, ids, x) {
      ScoreOfRemoveAt(scores, ids, k, x);
    }
  }

  /** `v` lists ids of `ids` in non-increasing order of their scores. */
  predicate Ordered(scores: seq<real>, ids: seq<string>, v: seq<string>)
    requires |scores| == |ids|
  {
    && (forall x :: x in v ==> x in ids)
    && forall a, b :: 0 <= a < b < |v| ==> ScoreOf(scores, ids, v[a]) >= ScoreOf(scores, ids, v[b])
  }

  lemma OrderedCons(scores: seq<real>, ids: seq<string>, x: string, v: seq<string>)
    requires |scores| == |ids| && x in ids && Ordered(scores, ids, v)
    requires forall y :: y in v ==> ScoreOf(scores, ids, y) <= ScoreOf(scores, ids, x)
    ensures Ordered(scores, ids, [x] + v)
  {
    var w := [x] + v;
    forall a, b | 0 <= a < b < |w| ensures ScoreOf(scores, ids, w[a]) >= ScoreOf(scores, ids, w[b]) {
      assert w[b] == v[b - 1] && w[b] in v;
      if a > 0 {
        assert w[a] == v[a - 1];
      }
    }
  }

  /** The returned items come in non-increasing order of their scores. */
  lemma {:induction false} GreedyOrdered(scores: seq<real>, ids: seq<string>, admit: string -> bool, need: nat)
    requires |scores| == |ids| && Distinct(ids)
    requires Greedy(scores, ids, admit, need).Ok?
    ensures Ordered(scores, ids, Greedy(scores, ids, admit, need).value)
    decreases |scores|
  {
    if need > 0 && |scores| > 0 {
      var k := ArgMax(scores);
      var picked := admit(ids[k]);
      var rs, rids := RemoveAt(scores, k), RemoveAt(ids, k);
      var need' := if picked then need - 1 else need;
      RemoveMaxKeepsScores(scores, ids, k);
      GreedyOrdered(rs, rids, admit, need');
      var rest := Greedy(rs, rids, admit, need').value;
      assert Ordered(scores, ids, rest) by {
        forall a | 0 <= a < |rest| ensures rest[a] in rids && ScoreOf(rs, rids, rest[a]) == ScoreOf(scores, ids, rest[a]) {
          assert rest[a] in rest;
        }
      }
      if picked {
        OrderedCons(scores, ids, ids[k], rest);
        assert Greedy(scores, ids, admit, need).value == [ids[k]] + rest;
      }
    }
  }

  /** Every admissible item left out scores no more than any returned one. */
  lemma {:induction false} GreedyBest(scores: seq<real>, ids: seq<string>, admit: string -> bool, need: nat)
    requires |scores| == |ids| && Distinct(ids)
    requires Greedy(scores, ids, admit, need).Ok?
    ensures forall y :: y in Greedy(scores, ids, admit, need).value ==> y in ids
    ensures forall x, y :: (x in ids && admit(x) && x !in Greedy(scores, ids, admit, need).value &&
                           y in Greedy(scores, ids, admit, need).value) ==>
              ScoreOf(scores, ids, x) <= ScoreOf(scores, ids, y)
    decreases |scores|
  {
    if need > 0 && |scores| > 0 {
      var v := Greedy(scores, ids, admit, need).value;
      var k := ArgMax(scores);
      var picked := admit(ids[k]);
      var rs, rids := RemoveAt(scores, k), RemoveAt(ids, k);
      var need' := if picked then need - 1 else need;
      RemoveMaxKeepsScores(scores, ids, k);
      GreedyBest(rs, rids, admit, need');
      var rest := Greedy(rs, rids, admit, need').value;
      assert picked ==> v == [ids[k]] + rest;
      assert !picked ==> v == rest;
      forall x, y | x in ids && admit(x) && x !in v && y in v
        ensures ScoreOf(scores, ids, x) <= ScoreOf(scores, ids, y)
      {
        assert x != ids[k];
        if y != ids[k] {
          assert y in rest && x !in rest;
        }
      }
    }
  }

  /** What the loop promises on success: `Quota` distinct admitted items of
      the id list, best first, none beaten by an admissible item left out. */
  predicate TopPicks(scores: seq<real>, ids: seq<string>, admit: string -> bool, v: seq<string>)
    requires |scores| == |ids|
  {
    && |v| == Quota
    && Distinct(v)
    && (forall x :: x in v ==> admit(x))
    && Ordered(scores, ids, v)
    && forall x, y :: (x in ids && admit(x) && x !in v && y in v) ==> ScoreOf(scores, ids, x) <= ScoreOf(scores, ids, y)
  }

  /** The loop succeeds exactly when `Quota` admissible items exist, and
      its picks are then the top ones. */
  lemma GreedyTop(scores: seq<real>, ids: seq<string>, admit: string -> bool)
    requires |scores| == |ids| && Distinct(ids)
    ensures Greedy(scores, ids, admit, Quota).Ok? <==> CountAdmitted(ids, admit) >= Quota
    ensures Greedy(scores, ids, admit, Quota).Ok? ==> TopPicks(scores, ids, admit, Greedy(scores, ids, admit, Quota).value)
  {
    GreedySucceeds(scores, ids, admit, Quota);
    GreedyDistinct(scores, ids, admit, Quota);
    if Greedy(scores, ids, admit, Quota).Ok? {
      GreedyOrdered(scores, ids, admit, Quota);
      GreedyBest(scores, ids, admit, Quota);
    }
  }
}
