/** The two loaders of score.py (`ScoreMovies.__init__`, `ScoreBooks.__init__`),
    over rating lines that have already been read and split. Each registers
    ids, sorts the id lists, allocates a zero matrix and writes the ratings
    into it cell by cell. */
module Ingest {
  import opened Wrappers
  import opened Ids
  import opened Score

  /** One split rating line: user id, item id and score. */
  datatype Rating = Rating(user: string, item: string, score: real)

  /** Registration stops once this many distinct items are known. */
  const ItemCap: nat := 50000

  /** The books loader reads at most this many rating lines. */
  const LineCap: nat := 50000

  function ItemKeys(recs: seq<Rating>): (keys: seq<string>)
    ensures |keys| == |recs|
    ensures forall k :: 0 <= k < |recs| ==> keys[k] == recs[k].item
  {
    seq(|recs|, k requires 0 <= k < |recs| => recs[k].item)
  }

  function UsersOf(recs: seq<Rating>): set<string>
  {
    set k | 0 <= k < |recs| :: recs[k].user
  }

  lemma UsersOfSnoc(recs: seq<Rating>, rec: Rating)
    ensures UsersOf(recs + [rec]) == UsersOf(recs) + {rec.user}
  {
    var all := recs + [rec];
    assert all[|recs|] == rec;
    forall x | x in UsersOf(recs) ensures x in UsersOf(all) {
      var k :| 0 <= k < |recs| && recs[k].user == x;
      assert all[k] == recs[k];
    }
  }

  /** The score of the last line for `(u, i)`, or 0 when there is none:
      later writes overwrite earlier ones, and the matrix starts at zero. */
  function LastScore(recs: seq<Rating>, u: string, i: string): (r: real)
    ensures r == 0.0 || Rating(u, i, r) in recs
  {
    if |recs| == 0 then 0.0
    else if recs[|recs| - 1].user == u && recs[|recs| - 1].item == i then recs[|recs| - 1].score
    else LastScore(recs[..|recs| - 1], u, i)
  }

  /** One more line of a running prefix. */
  lemma LastScoreStep(recs: seq<Rating>, k: nat, u: string, i: string)
    requires k < |recs|
    ensures LastScore(recs[..k + 1], u, i) ==
              if recs[k].user == u && recs[k].item == i then recs[k].score else LastScore(recs[..k], u, i)
  {
    assert recs[..k + 1][..k] == recs[..k];
  }

  /** Last write wins: a line for `(u, i)` followed by none decides the cell. */
  lemma {:induction false} LastWriteWins(pre: seq<Rating>, s: real, post: seq<Rating>, u: string, i: string)
    requires forall k :: 0 <= k < |post| ==> post[k].user != u || post[k].item != i
    ensures LastScore(pre + [Rating(u, i, s)] + post, u, i) == s
    decreases |post|
  {
    var all := pre + [Rating(u, i, s)] + post;
    if |post| > 0 {
      assert all[..|all| - 1] == pre + [Rating(u, i, s)] + post[..|post| - 1];
      LastWriteWins(pre, s, post[..|post| - 1], u, i);
    } else {
      assert all[|all| - 1] == Rating(u, i, s);
    }
  }

  /** A pair without any line stays at 0, i.e. unrated. */
  lemma {:induction false} NoLineNoScore(recs: seq<Rating>, u: string, i: string)
    requires forall k :: 0 <= k < |recs| ==> recs[k].user != u || recs[k].item != i
    ensures LastScore(recs, u, i) == 0.0
    decreases |recs|
  {
    if |recs| > 0 {
      NoLineNoScore(recs[..|recs| - 1], u, i);
    }
  }

  /** Whether both ids of a line are registered. */
  predicate Known(users: seq<string>, items: seq<string>, rec: Rating)
  {
    rec.user in users && rec.item in items
  }

  /** `np.zeros((nu, ni))` followed by `_mat[index(u), index(i)] = score` for
      every line in order. A line with an unregistered id either raises
      (`list.index`, movies) or is skipped (books, which test membership first). */
  method FillMatrix(users: seq<string>, items: seq<string>, recs: seq<Rating>, skipUnknown: bool)
    returns (r: Result<seq<seq<real>>>)
    requires Distinct(users) && Distinct(items)
    ensures r.Err? <==> !skipUnknown && exists k :: 0 <= k < |recs| && !Known(users, items, recs[k])
    ensures r.Err? ==> r.error == UnknownId
    ensures r.Ok? ==> |r.value| == |users|
    ensures r.Ok? ==> forall a :: 0 <= a < |users| ==> |r.value[a]| == |items|
    ensures r.Ok? ==> forall a, b :: 0 <= a < |users| && 0 <= b < |items| ==>
                        r.value[a][b] == LastScore(recs, users[a], items[b])
  {
    var m := new real[|users|, |items|]((_, _) => 0.0);
    for k := 0 to |recs|
      invariant forall a, b :: 0 <= a < |users| && 0 <= b < |items| ==>
                  m[a, b] == LastScore(recs[..k], users[a], items[b])
      invariant !skipUnknown ==> forall j :: 0 <= j < k ==> Known(users, items, recs[j])
    {
      forall a, b | 0 <= a < |users| && 0 <= b < |items| {
        LastScoreStep(recs, k, users[a], items[b]);
      }
      var rec := recs[k];
      if Known(users, items, rec) {
        var a0, b0 := IndexOf(users, rec.user), IndexOf(items, rec.item);
        m[a0, b0] := rec.score;
      } else if !skipUnknown {
        return Err(UnknownId);
      }
    }
    assert recs[..|recs|] == recs;
    var mat := seq(|users|, a requires 0 <= a < |users| reads m =>
                 seq(|items|, b requires 0 <= b < |items| reads m => m[a, b]));
    return Ok(mat);
  }

  /** The movie lines consumed while fewer than `ItemCap` items are known. */
  function MovieScanned(recs: seq<Rating>): (n: nat)
    ensures n <= |recs|
  {
    Admitted(ItemKeys(recs), {}, ItemCap)
  }

  function MovieUsers(recs: seq<Rating>): set<string>
  {
    UsersOf(recs[..MovieScanned(recs)])
  }

  function MovieItems(recs: seq<Rating>): set<string>
  {
    Elems(ItemKeys(recs)[..MovieScanned(recs)])
  }

  /** At most `ItemCap` items are registered, and the scan stops early only
      once the cap is reached. */
  lemma MovieItemsCapped(recs: seq<Rating>)
    ensures |MovieItems(recs)| <= ItemCap
    ensures MovieScanned(recs) == |recs| || |MovieItems(recs)| == ItemCap
  {
    AdmittedWithinCap(ItemKeys(recs), {}, ItemCap);
    assert {} + MovieItems(recs) == MovieItems(recs);
  }

  /** The first pass of `ScoreMovies.__init__`: the ids of the lines read
      while fewer than `ItemCap` items are known. */
  method RegisterMovies(recs: seq<Rating>) returns (userSet: set<string>, itemSet: set<string>)
    ensures userSet == MovieUsers(recs) && itemSet == MovieItems(recs)
  {
    ghost var keys := ItemKeys(recs);
    userSet, itemSet := {}, {};
    var k := 0;
    while k < |recs| && |itemSet| < ItemCap
      invariant k <= |recs|
      invariant userSet == UsersOf(recs[..k])
      invariant itemSet == Elems(keys[..k])
      invariant MovieScanned(recs) == k + Admitted(keys[k..], itemSet, ItemCap)
    {
      AdmitStep(keys, k, itemSet, ItemCap);
      UsersStep(recs, k);
      userSet := userSet + {recs[k].user};
      itemSet := itemSet + {recs[k].item};
      k := k + 1;
    }
  }

  lemma UsersStep(recs: seq<Rating>, k: nat)
    requires k < |recs|
    ensures UsersOf(recs[..k + 1]) == UsersOf(recs[..k]) + {recs[k].user}
  {
    assert recs[..k + 1] == recs[..k] + [recs[k]];
    UsersOfSnoc(recs[..k], recs[k]);
  }

  /** `ScoreMovies.__init__`: registers the ids of the first pass, then
      writes every line and fails on an id the first pass did not register. */
  method LoadMovies(recs: seq<Rating>) returns (r: Result<Store>)
    ensures r.Err? <==> exists k :: 0 <= k < |recs| &&
                          (recs[k].user !in MovieUsers(recs) || recs[k].item !in MovieItems(recs))
    ensures r.Err? ==> r.error == UnknownId
    ensures r.Ok? ==> Valid(r.value)
    ensures r.Ok? ==> Elems(r.value.users) == MovieUsers(recs) && Elems(r.value.items) == MovieItems(recs)
    ensures r.Ok? ==> forall a, b :: 0 <= a < |r.value.users| && 0 <= b < |r.value.items| ==>
                        r.value.mat[a][b] == LastScore(recs, r.value.users[a], r.value.items[b])
  {
    var userSet, itemSet := RegisterMovies(recs);
    var users := SortedList(userSet);
    var items := SortedList(itemSet);
    SortedIsDistinct(users);
    SortedIsDistinct(items);
    assert forall x :: x in users <==> x in userSet by {
      forall x ensures x in users <==> x in userSet { assert x in users <==> x in Elems(users); }
    }
    assert forall x :: x in items <==> x in itemSet by {
      forall x ensures x in items <==> x in itemSet { assert x in items <==> x in Elems(items); }
    }
    var mat := FillMatrix(users, items, recs, false);
    if mat.Err? {
      return Err(mat.error);
    }
    return Ok(Store(users, items, mat.value));
  }

  /** `ScoreBooks.__init__`: items come from the catalogue lines read while
      fewer than `ItemCap` are known, users from every line of the users
      file, and only the first `LineCap` rating lines are read; a rating
      line is written only when both of its ids are registered. */
  /** The rating lines the books loader reads: the first `LineCap`. */
  function BooksRead(recs: seq<Rating>): (read: seq<Rating>)
    ensures |read| <= |recs| && |read| <= LineCap && read == recs[..|read|]
    ensures |recs| <= LineCap ==> read == recs
    ensures |recs| >= LineCap ==> |read| == LineCap
  {
    recs[..if |recs| < LineCap then |recs| else LineCap]
  }

  /** What `ScoreBooks.__init__` leaves behind: a well-formed store holding
      every id of the users file, the catalogue ids read before the cap,
      and in each cell the last score of the lines read for that pair. */
  predicate BooksLoaded(st: Store, catalogue: seq<string>, userLines: seq<string>, recs: seq<Rating>)
  {
    && Valid(st)
    && Elems(st.users) == Elems(userLines)
    && Elems(st.items) == Elems(catalogue[..Admitted(catalogue, {}, ItemCap)])
    && forall a, b :: 0 <= a < |st.users| && 0 <= b < |st.items| ==>
         st.mat[a][b] == LastScore(BooksRead(recs), st.users[a], st.items[b])
  }

  method LoadBooks(catalogue: seq<string>, userLines: seq<string>, recs: seq<Rating>) returns (st: Store)
    ensures BooksLoaded(st, catalogue, userLines, recs)
  {
    var itemSet := RegisterCatalogue(catalogue);
    var userSet := RegisterUsers(userLines);
    var users := SortedList(userSet);
    var items := SortedList(itemSet);
    SortedIsDistinct(users);
    SortedIsDistinct(items);
    var mat := FillMatrix(users, items, BooksRead(recs), true);
    st := Store(users, items, mat.value);
  }

  /** The catalogue pass of `ScoreBooks.__init__`: the ids of the lines read
      while fewer than `ItemCap` items are known. */
  method RegisterCatalogue(catalogue: seq<string>) returns (itemSet: set<string>)
    ensures itemSet == Elems(catalogue[..Admitted(catalogue, {}, ItemCap)])
  {
    itemSet := {};
    var k := 0;
    while k < |catalogue| && |itemSet| < ItemCap
      invariant k <= |catalogue|
      invariant itemSet == Elems(catalogue[..k])
      invariant Admitted(catalogue, {}, ItemCap) == k + Admitted(catalogue[k..], itemSet, ItemCap)
    {
      AdmitStep(catalogue, k, itemSet, ItemCap);
      itemSet := itemSet + {catalogue[k]};
      k := k + 1;
    }
  }

  /** The users pass of `ScoreBooks.__init__`: every id of the users file. */
  method RegisterUsers(userLines: seq<string>) returns (userSet: set<string>)
    ensures userSet == Elems(userLines)
  {
    userSet := {};
    for j := 0 to |userLines|
      invariant userSet == Elems(userLines[..j])
    {
      ElemsStep(userLines, j);
      userSet := userSet + {userLines[j]};
    }
    assert userLines[..|userLines|] == userLines;
  }

  /** The books loader stops at the line cap: once `LineCap` lines are
      there, more lines leave the loaded store as it was. */
  lemma BooksIgnoreLinesPastCap(catalogue: seq<string>, userLines: seq<string>, recs: seq<Rating>,
                                more: seq<Rating>, st: Store, st': Store)
    requires |recs| >= LineCap
    requires BooksLoaded(st, catalogue, userLines, recs)
    requires BooksLoaded(st', catalogue, userLines, recs + more)
    ensures st' == st
  {
    assert BooksRead(recs + more) == BooksRead(recs);
    SortedUnique(st.users, st'.users);
    SortedUnique(st.items, st'.items);
    forall a, b | 0 <= a < |st.users| && 0 <= b < |st.items| ensures st'.mat[a][b] == st.mat[a][b] {
      assert st'.users[a] == st.users[a] && st'.items[b] == st.items[b];
    }
    forall a | 0 <= a < |st.users| ensures st'.mat[a] == st.mat[a] {
      assert |st'.mat[a]| == |st.mat[a]|;
    }
  }

  /** A line whose pair differs from `(u, i)` leaves that cell as it was;
      in particular a skipped line with an unregistered id changes no cell. */
  lemma OtherLineKeepsCell(recs: seq<Rating>, rec: Rating, u: string, i: string)
    requires rec.user != u || rec.item != i
    ensures LastScore(recs + [rec], u, i) == LastScore(recs, u, i)
  {
    assert (recs + [rec])[..|recs|] == recs;
  }
}
