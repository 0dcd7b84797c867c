/** What a stable sort does, said of places: where each element of the sorted list stood before. */
module Stability {
  import opened Sorting

  /** Sorted and stable: the k-th element comes from place p[k], each from another, and tied ones keep their order. */
  ghost predicate ComesFrom<T>(r: seq<T>, s: seq<T>, p: seq<nat>, le: (T, T) -> bool) {
    && |r| == |s| == |p|
    && (forall k | 0 <= k < |p| :: p[k] < |s| && r[k] == s[p[k]])
    && (forall k, l | 0 <= k < l < |p| :: p[k] != p[l])
    && (forall k, l | 0 <= k < l < |p| :: le(r[k], r[l]))
    && (forall k, l | 0 <= k < l < |p| && le(r[l], r[k]) :: p[k] < p[l])
  }

  datatype Placed<T> = Placed(at: nat, x: T)

  function PlacedLe<T>(le: (T, T) -> bool): (Placed<T>, Placed<T>) -> bool {
    (a: Placed<T>, b: Placed<T>) => le(a.x, b.x)
  }

  function Places<T>(s: seq<T>, from: nat): (r: seq<Placed<T>>)
    ensures |r| == |s|
  {
    seq(|s|, i requires 0 <= i < |s| => Placed(from + i, s[i]))
  }

  ghost predicate Steady<T>(r: seq<Placed<T>>, le: (T, T) -> bool) {
    forall k, l | 0 <= k < l < |r| && le(r[l].x, r[k].x) :: r[k].at < r[l].at
  }

  lemma SteadyPrefixed<T>(x: Placed<T>, r: seq<Placed<T>>, le: (T, T) -> bool)
    ensures Steady([x] + r, le) <==> Steady(r, le) && forall y | y in r && le(y.x, x.x) :: x.at < y.at
  {
    var s := [x] + r;
    assert forall k | 0 <= k < |r| :: s[k + 1] == r[k];
    if Steady(s, le) {
      forall k, l | 0 <= k < l < |r| && le(r[l].x, r[k].x) ensures r[k].at < r[l].at {
        assert s[k + 1].at < s[l + 1].at;
      }
      forall y | y in r && le(y.x, x.x) ensures x.at < y.at {
        var l :| 0 <= l < |r| && r[l] == y;
        assert s[0].at < s[l + 1].at;
      }
    }
  }

  lemma {:induction false} InsertIsSteady<T(!new)>(x: Placed<T>, r: seq<Placed<T>>, le: (T, T) -> bool)
    requires Steady(r, le) && forall y | y in r :: x.at < y.at
    ensures Steady(Insert(x, r, PlacedLe(le)), le)
  {
    hide Steady;
    SteadyPrefixed(x, r, le);
    if r == [] {
      assert [x] + [] == [x];
    } else if !le(x.x, r[0].x) {
      var rest := Insert(x, r[1..], PlacedLe(le));
      assert r == [r[0]] + r[1..];
      SteadyPrefixed(r[0], r[1..], le);
      InsertIsSteady(x, r[1..], le);
      SteadyPrefixed(r[0], rest, le);
      forall y | y in rest ensures y == x || y in r[1..] {
        assert y in multiset(rest) && multiset(rest) == multiset{x} + multiset(r[1..]);
      }
    }
  }

  lemma {:induction false} SortIsSteady<T(!new)>(s: seq<T>, from: nat, le: (T, T) -> bool)
    ensures var r := Sort(Places(s, from), PlacedLe(le));
            Steady(r, le) && forall y | y in r :: from <= y.at < from + |s| && y.x == s[y.at - from]
    decreases |s|
  {
    hide Steady, Insert;
    var all := Places(s, from);
    var r := Sort(all, PlacedLe(le));
    if s == [] {
      NothingSteady<T>(le);
    } else {
      assert all[1..] == Places(s[1..], from + 1);
      SortIsSteady(s[1..], from + 1, le);
      assert all[0].at == from;
      InsertIsSteady(all[0], Sort(all[1..], PlacedLe(le)), le);
    }
    PlacesStay(s, from, le);
  }

  lemma PlacesStay<T>(s: seq<T>, from: nat, le: (T, T) -> bool)
    ensures forall y | y in Sort(Places(s, from), PlacedLe(le)) ::
              from <= y.at < from + |s| && y.x == s[y.at - from]
  {
    hide Sort;
    var all := Places(s, from);
    var r := Sort(all, PlacedLe(le));
    forall y | y in r ensures from <= y.at < from + |s| && y.x == s[y.at - from] {
      SameElements(r, all, y);
    }
  }

  lemma NothingSteady<T>(le: (T, T) -> bool)
    ensures Steady<T>([], le)
  {
  }

  function Contents<T>(r: seq<Placed<T>>): (s: seq<T>)
    ensures |s| == |r|
  {
    seq(|r|, i requires 0 <= i < |r| => r[i].x)
  }

  lemma {:induction false} ContentsInserted<T>(x: Placed<T>, r: seq<Placed<T>>, le: (T, T) -> bool)
    ensures Contents(Insert(x, r, PlacedLe(le))) == Insert(x.x, Contents(r), le)
  {
    if r == [] {
    } else if le(x.x, r[0].x) {
      ContentsPrefixed(x, r);
    } else {
      ContentsInserted(x, r[1..], le);
      ContentsPrefixed(r[0], r[1..]);
      ContentsPrefixed(r[0], Insert(x, r[1..], PlacedLe(le)));
      assert r == [r[0]] + r[1..];
      assert Contents(r)[0] == r[0].x && Contents(r)[1..] == Contents(r[1..]);
    }
  }

  lemma ContentsPrefixed<T>(x: Placed<T>, r: seq<Placed<T>>)
    ensures Contents([x] + r) == [x.x] + Contents(r)
  {
  }

  lemma {:induction false} ContentsSorted<T>(s: seq<T>, from: nat, le: (T, T) -> bool)
    ensures Contents(Sort(Places(s, from), PlacedLe(le))) == Sort(s, le)
    decreases |s|
  {
    if s != [] {
      hide Insert;
      var all := Places(s, from);
      assert all[1..] == Places(s[1..], from + 1);
      ContentsSorted(s[1..], from + 1, le);
      ContentsInserted(all[0], Sort(all[1..], PlacedLe(le)), le);
    }
  }

  /** What a stable sort does, said of places. */
  lemma SortComesFrom<T(!new)>(s: seq<T>, le: (T, T) -> bool) returns (p: seq<nat>)
    requires TotalPreorder(le)
    ensures ComesFrom(Sort(s, le), s, p, le)
  {
    hide Sort;
    var all := Places(s, 0);
    var r := Sort(all, PlacedLe(le));
    SortIsSteady(s, 0, le);
    p := Map(r, (y: Placed<T>) => y.at);
    ContentsSorted(s, 0, le);
    assert forall k | 0 <= k < |r| :: Contents(r)[k] == r[k].x && r[k] in r;
    SortIsSorted(s, le);
    PlacesDiffer(s, le);
  }

  lemma PlacesDiffer<T(!new)>(s: seq<T>, le: (T, T) -> bool)
    ensures var r := Sort(Places(s, 0), PlacedLe(le)); forall k, l | 0 <= k < l < |r| :: r[k].at != r[l].at
  {
    hide Sort;
    var all := Places(s, 0);
    var r := Sort(all, PlacedLe(le));
    assert forall k, l | 0 <= k < l < |all| :: all[k].at != all[l].at;
    DistinctPermutation(all, r);
    forall k, l | 0 <= k < l < |r| ensures r[k].at != r[l].at {
      SameElements(all, r, r[k]);
      SameElements(all, r, r[l]);
      assert r[k] in all && r[l] in all;
    }
  }
}
