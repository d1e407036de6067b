/** User and item identifiers: their order, sorted id lists, positions in
    them, and the first-seen admission cap used while loading. */
module Ids {

  /** Python's `<` on `str`: lexicographic order of code points. */
  predicate Less(a: string, b: string)
    decreases |a|
  {
    if |a| == 0 then |b| > 0
    else if |b| == 0 then false
    else a[0] < b[0] || (a[0] == b[0] && Less(a[1..], b[1..]))
  }

  lemma {:induction false} LessIrreflexive(a: string)
    ensures !Less(a, a)
  {
    if |a| > 0 {
      LessIrreflexive(a[1..]);
    }
  }

  lemma {:induction false} LessAsymmetric(a: string, b: string)
    requires Less(a, b)
    ensures !Less(b, a)
  {
    if |a| > 0 && |b| > 0 && a[0] == b[0] {
      LessAsymmetric(a[1..], b[1..]);
    }
  }

  lemma {:induction false} LessTransitive(a: string, b: string, c: string)
    requires Less(a, b) && Less(b, c)
    ensures Less(a, c)
  {
    if |a| > 0 && a[0] == b[0] && b[0] == c[0] {
      LessTransitive(a[1..], b[1..], c[1..]);
    }
  }

  lemma {:induction false} LessTotal(a: string, b: string)
    requires a != b
    ensures Less(a, b) || Less(b, a)
  {
    if |a| > 0 && |b| > 0 && a[0] == b[0] {
      assert a == [a[0]] + a[1..] && b == [b[0]] + b[1..];
      LessTotal(a[1..], b[1..]);
    }
  }

  /** The list `sorted(...)` returns for a set of ids: increasing, hence without repeats. */
  predicate StrictlySorted(s: seq<string>)
  {
    forall i, j :: 0 <= i < j < |s| ==> Less(s[i], s[j])
  }

  predicate Distinct<T(==)>(s: seq<T>)
  {
    forall i, j :: 0 <= i < j < |s| ==> s[i] != s[j]
  }

  function Elems<T>(s: seq<T>): set<T>
  {
    set x | x in s
  }

  lemma ElemsSnoc<T>(s: seq<T>, x: T)
    ensures Elems(s + [x]) == Elems(s) + {x}
  {
  }

  lemma SortedIsDistinct(s: seq<string>)
    requires StrictlySorted(s)
    ensures Distinct(s)
  {
    forall i, j | 0 <= i < j < |s| ensures s[i] != s[j] {
      LessIrreflexive(s[i]);
    }
  }

  /** `list.index`: the first position holding `x`. */
  function IndexOf<T(==)>(s: seq<T>, x: T): (k: nat)
    requires x in s
    ensures k < |s| && s[k] == x
    ensures forall j :: 0 <= j < k ==> s[j] != x
  {
    if s[0] == x then 0 else 1 + IndexOf(s[1..], x)
  }

  lemma IndexOfDistinct<T>(s: seq<T>, k: nat)
    requires Distinct(s) && k < |s|
    ensures IndexOf(s, s[k]) == k
  {
  }

  /** Puts `x` into a sorted list unless it is there already. */
  function Insert(s: seq<string>, x: string): (r: seq<string>)
    requires StrictlySorted(s)
    ensures StrictlySorted(r)
    ensures Elems(r) == Elems(s) + {x}
  {
    if |s| == 0 then [x]
    else if s[0] == x then s
    else if Less(x, s[0]) then
      assert Elems([x] + s) == {x} + Elems(s);
      assert forall j :: 0 < j < |s| ==> Less(x, s[j]) by {
        forall j | 0 < j < |s| ensures Less(x, s[j]) { LessTransitive(x, s[0], s[j]); }
      }
      [x] + s
    else
      LessTotal(x, s[0]);
      var t := Insert(s[1..], x);
      assert Elems(s) == {s[0]} + Elems(s[1..]);
      forall y | y in t ensures Less(s[0], y) {
        assert y in Elems(t);
        if y != x {
          assert y in Elems(s[1..]);
          var j :| 0 <= j < |s[1..]| && s[1..][j] == y;
          assert s[j + 1] == y;
        }
      }
      assert Elems([s[0]] + t) == {s[0]} + Elems(t);
      [s[0]] + t
  }

  /** `list(sorted(ids))` for a set of ids. */
  method SortedList(ids: set<string>) returns (r: seq<string>)
    ensures StrictlySorted(r) && Elems(r) == ids
  {
    r := [];
    var rest := ids;
    while rest != {}
      invariant StrictlySorted(r)
      invariant Elems(r) + rest == ids
      decreases |rest|
    {
      var x :| x in rest;
      r := Insert(r, x);
      rest := rest - {x};
    }
  }

  /** Two increasing lists with the same ids are the same list: the sorted
      list of a set is unique, so `SortedList` is determined by its contract. */
  lemma {:induction false} SortedUnique(a: seq<string>, b: seq<string>)
    requires StrictlySorted(a) && StrictlySorted(b) && Elems(a) == Elems(b)
    ensures a == b
    decreases |a|
  {
    assert |a| > 0 ==> a[0] in Elems(b);
    assert |b| > 0 ==> b[0] in Elems(a);
    if |a| > 0 && |b| > 0 {
      if a[0] != b[0] {
        var i := IndexOf(b, a[0]);
        var j := IndexOf(a, b[0]);
        assert Less(b[0], a[0]) && Less(a[0], b[0]);
        LessAsymmetric(a[0], b[0]);
      }
      SortedIsDistinct(a);
      SortedIsDistinct(b);
      assert Elems(a[1..]) == Elems(a) - {a[0]} by {
        assert a == [a[0]] + a[1..];
      }
      assert Elems(b[1..]) == Elems(b) - {b[0]} by {
        assert b == [b[0]] + b[1..];
      }
      SortedUnique(a[1..], b[1..]);
      assert a == [a[0]] + a[1..] && b == [b[0]] + b[1..];
    }
  }

  /** How many of `keys` a loader consumes when it keeps reading only while
      fewer than `cap` distinct keys are registered (`seen` are the keys
      registered before the first one). */
  function Admitted(keys: seq<string>, seen: set<string>, cap: nat): (n: nat)
    ensures n <= |keys|
  {
    if |keys| == 0 || |seen| >= cap then 0
    else 1 + Admitted(keys[1..], seen + {keys[0]}, cap)
  }

  /** One more key of a running prefix. */
  lemma ElemsStep<T>(s: seq<T>, k: nat)
    requires k < |s|
    ensures Elems(s[..k + 1]) == Elems(s[..k]) + {s[k]}
  {
    assert s[..k + 1] == s[..k] + [s[k]];
    ElemsSnoc(s[..k], s[k]);
  }

  /** One more key admitted by a scan that has not reached the cap. */
  lemma AdmitStep(keys: seq<string>, k: nat, seen: set<string>, cap: nat)
    requires k < |keys| && |seen| < cap
    ensures Elems(keys[..k + 1]) == Elems(keys[..k]) + {keys[k]}
    ensures Admitted(keys[k..], seen, cap) == 1 + Admitted(keys[k + 1..], seen + {keys[k]}, cap)
  {
    ElemsStep(keys, k);
    assert keys[k..][1..] == keys[k + 1..];
  }

  lemma ElemsPrefixCons(keys: seq<string>, n: nat)
    requires 0 < n <= |keys|
    ensures Elems(keys[..n]) == {keys[0]} + Elems(keys[1..][..n - 1])
  {
    assert keys[..n] == [keys[0]] + keys[1..][..n - 1];
  }

  /** The admitted keys never exceed the cap, and reading stops early only
      once the cap is reached: first-N-seen sampling. */
  lemma {:induction false} AdmittedWithinCap(keys: seq<string>, seen: set<string>, cap: nat)
    requires |seen| <= cap
    ensures |seen + Elems(keys[..Admitted(keys, seen, cap)])| <= cap
    ensures Admitted(keys, seen, cap) == |keys| ||
            |seen + Elems(keys[..Admitted(keys, seen, cap)])| == cap
    decreases |keys|
  {
    var n := Admitted(keys, seen, cap);
    if |keys| == 0 || |seen| >= cap {
      assert n == 0;
      assert Elems(keys[..n]) == {};
    } else {
      var seen' := seen + {keys[0]};
      var m := Admitted(keys[1..], seen', cap);
      assert n == 1 + m;
      assert |seen'| <= |seen| + 1;
      AdmittedWithinCap(keys[1..], seen', cap);
      ElemsPrefixCons(keys, n);
      assert seen + Elems(keys[..n]) == seen' + Elems(keys[1..][..m]);
    }
  }
}
