/** A stable sort: the result is determined, so this one stands for the one that the platform has. */
module StableSort {
  import opened Prelude

  ghost predicate IsTotalPreorder<T(!new)>(le: (T, T) -> bool) {
    && (forall x, y :: le(x, y) || le(y, x))
    && forall x, y, z :: le(x, y) && le(y, z) ==> le(x, z)
  }

  ghost predicate IsSorted<T>(s: seq<T>, le: (T, T) -> bool) {
    forall i, j :: 0 <= i < j < |s| ==> le(s[i], s[j])
  }

  /** Puts x behind everything that is not greater. */
  function Place<T>(s: seq<T>, x: T, le: (T, T) -> bool): seq<T> {
    if s == [] || le(Last(s), x) then s + [x] else Place(Init(s), x, le) + [Last(s)]
  }

  function SortBy<T>(s: seq<T>, le: (T, T) -> bool): seq<T> {
    if s == [] then [] else Place(SortBy(Init(s), le), Last(s), le)
  }

  lemma {:induction false} PlaceAdds<T>(s: seq<T>, x: T, le: (T, T) -> bool)
    ensures multiset(Place(s, x, le)) == multiset(s) + multiset{x}
  {
    if s != [] && !le(Last(s), x) {
      PlaceAdds(Init(s), x, le);
      assert s == Init(s) + [Last(s)];
    }
  }

  lemma {:induction false} SortPermutes<T>(s: seq<T>, le: (T, T) -> bool)
    ensures multiset(SortBy(s, le)) == multiset(s)
    ensures |SortBy(s, le)| == |s|
    ensures forall x :: x in SortBy(s, le) <==> x in s
  {
    if s != [] {
      SortPermutes(Init(s), le);
      PlaceAdds(SortBy(Init(s), le), Last(s), le);
      assert s == Init(s) + [Last(s)];
    }
    assert |multiset(SortBy(s, le))| == |multiset(s)|;
    assert forall x :: x in SortBy(s, le) <==> x in multiset(SortBy(s, le));
    assert forall x :: x in s <==> x in multiset(s);
  }

  lemma {:induction false} PlaceKeepsSorted<T(!new)>(s: seq<T>, x: T, le: (T, T) -> bool)
    requires IsTotalPreorder(le) && IsSorted(s, le)
    ensures IsSorted(Place(s, x, le), le)
  {
    if s != [] {
      var last := Last(s);
      if le(last, x) {
        forall i | 0 <= i < |s|
          ensures le(s[i], x)
        {
          assert i == |s| - 1 || le(s[i], last);
        }
      } else {
        PlaceKeepsSorted(Init(s), x, le);
        PlaceAdds(Init(s), x, le);
        var r := Place(Init(s), x, le);
        forall i | 0 <= i < |r|
          ensures le(r[i], last)
        {
          assert r[i] in multiset(r);
          assert r[i] in Init(s) || r[i] == x;
          if r[i] in Init(s) {
            var j :| 0 <= j < |s| - 1 && s[j] == r[i];
          }
        }
      }
    }
  }

  lemma {:induction false} SortSorts<T(!new)>(s: seq<T>, le: (T, T) -> bool)
    requires IsTotalPreorder(le)
    ensures IsSorted(SortBy(s, le), le)
  {
    if s != [] {
      SortSorts(Init(s), le);
      PlaceKeepsSorted(SortBy(Init(s), le), Last(s), le);
    }
  }

  // ---- Stability ----

  predicate Ties<T>(x: T, y: T, le: (T, T) -> bool) {
    le(x, y) && le(y, x)
  }

  /** The elements that tie with y, in their order. */
  function Tied<T>(s: seq<T>, y: T, le: (T, T) -> bool): (r: seq<T>)
    ensures forall x :: x in r ==> x in s
  {
    if s == [] then []
    else if Ties(Last(s), y, le) then Tied(Init(s), y, le) + [Last(s)]
    else Tied(Init(s), y, le)
  }

  /** Elements that tie stand in r as they stand in s. */
  ghost predicate IsStable<T(!new)>(s: seq<T>, r: seq<T>, le: (T, T) -> bool) {
    forall y :: Tied(r, y, le) == Tied(s, y, le)
  }

  lemma {:induction false} PlaceIsStable<T(!new)>(s: seq<T>, x: T, y: T, le: (T, T) -> bool)
    requires IsTotalPreorder(le)
    ensures Tied(Place(s, x, le), y, le) == Tied(s + [x], y, le)
  {
    assert Init(s + [x]) == s;
    if s != [] && !le(Last(s), x) {
      PlaceIsStable(Init(s), x, y, le);
      assert Init(Init(s) + [x]) == Init(s);
      var placed := Place(Init(s), x, le);
      assert Place(s, x, le) == placed + [Last(s)] && Init(placed + [Last(s)]) == placed;
    }
  }

  lemma {:induction false} TiedOfSort<T(!new)>(s: seq<T>, y: T, le: (T, T) -> bool)
    requires IsTotalPreorder(le)
    ensures Tied(SortBy(s, le), y, le) == Tied(s, y, le)
  {
    if s != [] {
      var sorted := SortBy(Init(s), le);
      TiedOfSort(Init(s), y, le);
      PlaceIsStable(sorted, Last(s), y, le);
      assert Init(sorted + [Last(s)]) == sorted;
    }
  }

  lemma {:induction false} TiedHolds<T(!new)>(s: seq<T>, x: T, le: (T, T) -> bool)
    requires IsTotalPreorder(le) && x in s
    ensures x in Tied(s, x, le)
  {
    if x != Last(s) {
      TiedHolds(Init(s), x, le);
    }
  }

  lemma LastIsGreatest<T(!new)>(s: seq<T>, x: T, le: (T, T) -> bool)
    requires IsTotalPreorder(le) && IsSorted(s, le) && x in s
    ensures le(x, Last(s))
  {
    var i :| 0 <= i < |s| && s[i] == x;
    assert i == |s| - 1 || le(s[i], s[|s| - 1]);
  }

  /** A sorted sequence is determined by the order of its ties. */
  lemma {:induction false} SortedIsDetermined<T(!new)>(a: seq<T>, b: seq<T>, le: (T, T) -> bool)
    requires IsTotalPreorder(le) && IsSorted(a, le) && IsSorted(b, le) && IsStable(a, b, le)
    ensures a == b
    decreases |a|
  {
    if b != [] {
      TiedHolds(b, Last(b), le);
      assert Last(b) in Tied(a, Last(b), le);
    }
    if a != [] {
      var x := Last(a);
      TiedHolds(a, x, le);
      assert x in Tied(b, x, le);
      var z := Last(b);
      LastIsGreatest(a, z, le);
      LastIsGreatest(b, x, le);
      assert Last(Tied(a, x, le)) == x && Last(Tied(b, x, le)) == z;
      forall y
        ensures Tied(Init(b), y, le) == Tied(Init(a), y, le)
      {
        assert Tied(b, y, le) == Tied(a, y, le);
        assert Ties(x, y, le) ==>
                 Init(Tied(a, y, le)) == Tied(Init(a), y, le) && Init(Tied(b, y, le)) == Tied(Init(b), y, le);
      }
      SortedIsDetermined(Init(a), Init(b), le);
    }
  }

  /** The sort is stable, and nothing else is sorted and stable. */
  lemma SortIsStable<T(!new)>(s: seq<T>, r: seq<T>, le: (T, T) -> bool)
    requires IsTotalPreorder(le)
    ensures IsSorted(r, le) && IsStable(s, r, le) <==> r == SortBy(s, le)
  {
    SortSorts(s, le);
    forall y
      ensures Tied(SortBy(s, le), y, le) == Tied(s, y, le)
    {
      TiedOfSort(s, y, le);
    }
    if IsSorted(r, le) && IsStable(s, r, le) {
      SortedIsDetermined(r, SortBy(s, le), le);
    }
  }
}
