/**
 Stable sorting by a comparison.  Rust's `sort_by`, JavaScript's `Array.prototype.sort` and PHP's
 `usort`/`ksort` are all stable, so one function stands for the four library calls; the lemmas say
 what any stable sort promises: a permutation, in order, that keeps the order of equal elements.
 */
module Sorting {

  ghost predicate TotalPreorder<T(!new)>(le: (T, T) -> bool) {
    && (forall a, b :: le(a, b) || le(b, a))
    && (forall a, b, c :: le(a, b) && le(b, c) ==> le(a, c))
  }

  ghost predicate TotalOrder<T(!new)>(le: (T, T) -> bool) {
    && TotalPreorder(le)
    && (forall a, b :: le(a, b) && le(b, a) ==> a == b)
  }

  lemma TotalOrderIsPreorder<T(!new)>(le: (T, T) -> bool)
    requires TotalOrder(le)
    ensures TotalPreorder(le)
  {
  }

  predicate SortedBy<T>(s: seq<T>, le: (T, T) -> bool) {
    forall i, j | 0 <= i < j < |s| :: le(s[i], s[j])
  }

  /** Places x before the first element that it does not exceed. */
  function Insert<T>(x: T, s: seq<T>, le: (T, T) -> bool): (r: seq<T>)
    ensures |r| == |s| + 1
    ensures multiset(r) == multiset{x} + multiset(s)
  {
    if s == [] then [x]
    else if le(x, s[0]) then
      assert [x] + s == [x] + s;
      [x] + s
    else
      assert s == [s[0]] + s[1..];
      [s[0]] + Insert(x, s[1..], le)
  }

  function Sort<T>(s: seq<T>, le: (T, T) -> bool): (r: seq<T>)
    ensures |r| == |s|
    ensures multiset(r) == multiset(s)
  {
    if s == [] then []
    else
      assert s == [s[0]] + s[1..];
      Insert(s[0], Sort(s[1..], le), le)
  }

  lemma {:induction false} InsertKeepsSorted<T(!new)>(x: T, s: seq<T>, le: (T, T) -> bool)
    requires TotalPreorder(le) && SortedBy(s, le)
    ensures SortedBy(Insert(x, s, le), le)
  {
    if s == [] {
    } else if le(x, s[0]) {
    } else {
      var rest := Insert(x, s[1..], le);
      InsertKeepsSorted(x, s[1..], le);
      forall y | y in rest ensures le(s[0], y) {
        assert y in multiset(rest);
        assert y == x || y in s[1..];
      }
    }
  }

  lemma {:induction false} SortIsSorted<T(!new)>(s: seq<T>, le: (T, T) -> bool)
    requires TotalPreorder(le)
    ensures SortedBy(Sort(s, le), le)
  {
    if s == [] {
    } else {
      SortIsSorted(s[1..], le);
      InsertKeepsSorted(s[0], Sort(s[1..], le), le);
    }
  }

  /** Sorting leaves a sorted sequence as it is. */
  lemma {:induction false} SortOfSorted<T>(s: seq<T>, le: (T, T) -> bool)
    requires SortedBy(s, le)
    ensures Sort(s, le) == s
  {
    if s == [] {
    } else {
      SortOfSorted(s[1..], le);
      assert s == [s[0]] + s[1..];
    }
  }

  lemma SameElements<T>(s: seq<T>, t: seq<T>, x: T)
    requires multiset(s) == multiset(t)
    ensures x in s <==> x in t
  {
    assert x in s <==> x in multiset(s);
    assert x in t <==> x in multiset(t);
  }

  lemma HeadIsLeast<T(!new)>(s: seq<T>, le: (T, T) -> bool, x: T)
    requires TotalPreorder(le) && SortedBy(s, le) && x in s
    ensures le(s[0], x)
  {
  }

  /** The comparison ties no two different elements of s. */
  ghost predicate NoTies<T>(s: seq<T>, le: (T, T) -> bool) {
    forall x, y | x in s && y in s && le(x, y) && le(y, x) :: x == y
  }

  lemma SameHead<T(!new)>(s: seq<T>, t: seq<T>, le: (T, T) -> bool)
    requires TotalPreorder(le) && NoTies(s, le) && SortedBy(s, le) && SortedBy(t, le)
    requires multiset(s) == multiset(t) && s != [] && t != []
    ensures s[0] == t[0]
  {
    SameElements(s, t, s[0]);
    SameElements(s, t, t[0]);
    HeadIsLeast(s, le, t[0]);
    HeadIsLeast(t, le, s[0]);
  }

  lemma DropHead<T>(s: seq<T>)
    requires s != []
    ensures s == [s[0]] + s[1..] && multiset(s[1..]) == multiset(s) - multiset{s[0]}
  {
  }

  /** There is one sorted arrangement of elements that the comparison never ties. */
  lemma {:induction false} SortedUnique<T(!new)>(s: seq<T>, t: seq<T>, le: (T, T) -> bool)
    requires TotalPreorder(le) && NoTies(s, le)
    requires SortedBy(s, le) && SortedBy(t, le)
    requires multiset(s) == multiset(t)
    ensures s == t
  {
    hide TotalPreorder;
    assert |s| == |multiset(s)| == |multiset(t)| == |t|;
    if s != [] {
      SameHead(s, t, le);
      DropHead(s);
      DropHead(t);
      SortedUnique(s[1..], t[1..], le);
    }
  }

  lemma SortOfUntied<T(!new)>(s: seq<T>, t: seq<T>, le: (T, T) -> bool)
    requires TotalPreorder(le) && NoTies(s, le)
    requires multiset(s) == multiset(t)
    ensures Sort(s, le) == Sort(t, le)
  {
    hide Sort, TotalPreorder;
    SortIsSorted(s, le);
    SortIsSorted(t, le);
    forall x ensures x in Sort(s, le) <==> x in s { SameElements(s, Sort(s, le), x); }
    SortedUnique(Sort(s, le), Sort(t, le), le);
  }

  /** Under a total order the sorted result depends on the elements alone, not on their order. */
  lemma SortOfPermutation<T(!new)>(s: seq<T>, t: seq<T>, le: (T, T) -> bool)
    requires TotalOrder(le)
    requires multiset(s) == multiset(t)
    ensures Sort(s, le) == Sort(t, le)
  {
    SortOfUntied(s, t, le);
  }

  predicate Distinct<T(==)>(s: seq<T>) {
    forall i, j | 0 <= i < j < |s| :: s[i] != s[j]
  }

  lemma DistinctTail<T>(s: seq<T>)
    requires s != []
    ensures Distinct(s) <==> s[0] !in s[1..] && Distinct(s[1..])
  {
  }

  lemma CountAtTwo<T>(s: seq<T>, i: nat, j: nat)
    requires i < j < |s| && s[i] == s[j]
    ensures multiset(s)[s[i]] >= 2
  {
    assert s == s[..j] + [s[j]] + s[j + 1..];
    assert s[..j][i] == s[i];
    assert s[i] in multiset(s[..j]);
  }

  lemma {:induction false} CountWhenDistinct<T>(s: seq<T>, x: T)
    requires Distinct(s)
    ensures multiset(s)[x] <= 1
  {
    if s != [] {
      CountWhenDistinct(s[1..], x);
      assert s == [s[0]] + s[1..];
      if s[0] == x { assert x !in s[1..]; }
    }
  }

  /** A rearrangement of distinct elements has distinct elements. */
  lemma DistinctPermutation<T>(s: seq<T>, t: seq<T>)
    requires Distinct(s) && multiset(s) == multiset(t)
    ensures Distinct(t)
  {
    forall i, j | 0 <= i < j < |t| ensures t[i] != t[j] {
      CountWhenDistinct(s, t[i]);
      if t[i] == t[j] { CountAtTwo(t, i, j); }
    }
  }

  lemma OthersRemain<T>(t: seq<T>, i: nat, x: T)
    requires i < |t| && x in t && x != t[i]
    ensures x in t[..i] + t[i + 1..]
  {
    var j :| 0 <= j < |t| && t[j] == x;
    if j < i { assert t[..i][j] == x; } else { assert t[i + 1..][j - i - 1] == x; }
  }

  /** As many elements, all of them distinct members of t, are the elements of t. */
  lemma {:induction false} DistinctFill<T>(s: seq<T>, t: seq<T>)
    requires Distinct(s) && |s| == |t| && forall x | x in s :: x in t
    ensures multiset(s) == multiset(t)
  {
    hide Distinct;
    if s != [] {
      assert s[0] in s;
      var i :| 0 <= i < |t| && t[i] == s[0];
      var rest := t[..i] + t[i + 1..];
      DistinctTail(s);
      forall x | x in s[1..] ensures x in rest { OthersRemain(t, i, x); }
      DistinctFill(s[1..], rest);
      DropHead(s);
      TakeOut(t, i);
    }
  }

  /** Distinct elements with the same members are rearrangements of each other. */
  lemma DistinctSameMembers<T>(s: seq<T>, t: seq<T>)
    requires Distinct(s) && Distinct(t) && forall x :: x in s <==> x in t
    ensures multiset(s) == multiset(t)
  {
    forall x ensures multiset(s)[x] == multiset(t)[x] {
      CountWhenDistinct(s, x);
      CountWhenDistinct(t, x);
      assert x in s <==> x in multiset(s);
      assert x in t <==> x in multiset(t);
    }
  }

  function Map<T, U>(s: seq<T>, f: T -> U): (r: seq<U>)
    ensures |r| == |s|
  {
    seq(|s|, i requires 0 <= i < |s| => f(s[i]))
  }

  lemma TakeOut<T>(t: seq<T>, i: nat)
    requires i < |t|
    ensures multiset(t) == multiset{t[i]} + multiset(t[..i] + t[i + 1..])
  {
    assert t == t[..i] + [t[i]] + t[i + 1..];
  }

  lemma {:induction false} MapPermutes<T, U>(s: seq<T>, t: seq<T>, f: T -> U)
    requires multiset(s) == multiset(t)
    ensures multiset(Map(s, f)) == multiset(Map(t, f))
    decreases |s|
  {
    assert |s| == |multiset(s)| == |multiset(t)| == |t|;
    if s != [] {
      SameElements(s, t, s[0]);
      var i :| 0 <= i < |t| && t[i] == s[0];
      DropHead(s);
      TakeOut(t, i);
      MapPermutes(s[1..], t[..i] + t[i + 1..], f);
      MapHead(s, f);
      MapTakenOut(t, i, f);
    }
  }

  lemma MapHead<T, U>(s: seq<T>, f: T -> U)
    requires s != []
    ensures multiset(Map(s, f)) == multiset{f(s[0])} + multiset(Map(s[1..], f))
  {
    assert Map(s, f) == [f(s[0])] + Map(s[1..], f);
  }

  lemma MapTakenOut<T, U>(t: seq<T>, i: nat, f: T -> U)
    requires i < |t|
    ensures multiset(Map(t, f)) == multiset{f(t[i])} + multiset(Map(t[..i] + t[i + 1..], f))
  {
    TakeOut(Map(t, f), i);
    assert Map(t, f)[..i] + Map(t, f)[i + 1..] == Map(t[..i] + t[i + 1..], f);
  }

  // ----- stability -----

  /** The elements that the comparison ties with z, in order. */
  function Class<T>(s: seq<T>, z: T, le: (T, T) -> bool): (r: seq<T>)
    ensures forall i | 0 <= i < |r| :: r[i] in s && le(z, r[i]) && le(r[i], z)
  {
    if s == [] then []
    else if le(z, s[0]) && le(s[0], z) then [s[0]] + Class(s[1..], z, le)
    else Class(s[1..], z, le)
  }

  lemma {:induction false} InsertKeepsClasses<T(!new)>(x: T, s: seq<T>, z: T, le: (T, T) -> bool)
    requires TotalPreorder(le)
    ensures Class(Insert(x, s, le), z, le) == Class([x] + s, z, le)
  {
    assert ([x] + s)[1..] == s;
    if s != [] && !le(x, s[0]) {
      InsertKeepsClasses(x, s[1..], z, le);
      assert ([x] + s[1..])[1..] == s[1..];
      assert Insert(x, s, le)[1..] == Insert(x, s[1..], le);
    }
  }

  /** Sorting keeps the order of tied elements. */
  lemma {:induction false} SortIsStable<T(!new)>(s: seq<T>, z: T, le: (T, T) -> bool)
    requires TotalPreorder(le)
    ensures Class(Sort(s, le), z, le) == Class(s, z, le)
  {
    if s != [] {
      SortIsStable(s[1..], z, le);
      InsertKeepsClasses(s[0], Sort(s[1..], le), z, le);
      assert ([s[0]] + Sort(s[1..], le))[1..] == Sort(s[1..], le);
    }
  }

  lemma HeadsTied<T(!new)>(s: seq<T>, t: seq<T>, le: (T, T) -> bool)
    requires TotalPreorder(le) && SortedBy(s, le) && s != [] && t != []
    requires Class(s, t[0], le) == Class(t, t[0], le)
    ensures le(s[0], t[0])
  {
  }

  lemma EmptyTogether<T(!new)>(s: seq<T>, t: seq<T>, le: (T, T) -> bool)
    requires TotalPreorder(le) && forall z :: Class(s, z, le) == Class(t, z, le)
    ensures s != [] ==> t != []
  {
    if s != [] {
      assert le(s[0], s[0]);
      assert Class(s, s[0], le)[0] == s[0];
      assert s[0] in t;
    }
  }

  /** A sorted sequence is put together from its classes in one way. */
  lemma {:induction false} SortedFromClasses<T(!new)>(s: seq<T>, t: seq<T>, le: (T, T) -> bool)
    requires TotalPreorder(le) && SortedBy(s, le) && SortedBy(t, le)
    requires forall z :: Class(s, z, le) == Class(t, z, le)
    ensures s == t
  {
    if s == [] || t == [] {
      EmptyTogether(s, t, le);
      EmptyTogether(t, s, le);
    } else {
      HeadsTied(s, t, le);
      HeadsTied(t, s, le);
      assert Class(s, s[0], le)[0] == s[0] && Class(t, s[0], le)[0] == t[0];
      forall z ensures Class(s[1..], z, le) == Class(t[1..], z, le) {
        ClassOfTail(s, z, le);
        ClassOfTail(t, z, le);
      }
      SortedFromClasses(s[1..], t[1..], le);
      assert s == [s[0]] + s[1..] && t == [t[0]] + t[1..];
    }
  }

  lemma ClassOfTail<T>(s: seq<T>, z: T, le: (T, T) -> bool)
    requires s != []
    ensures Class(s[1..], z, le) ==
              if le(z, s[0]) && le(s[0], z) then Class(s, z, le)[1..] else Class(s, z, le)
  {
  }

  ghost predicate SameClasses<T(!new)>(s: seq<T>, t: seq<T>, le: (T, T) -> bool) {
    forall z :: Class(s, z, le) == Class(t, z, le)
  }

  /** So two sequences sort alike exactly when their classes agree. */
  lemma SortsAlike<T(!new)>(s: seq<T>, t: seq<T>, le: (T, T) -> bool)
    requires TotalPreorder(le)
    ensures Sort(s, le) == Sort(t, le) <==> SameClasses(s, t, le)
  {
    SortIsSorted(s, le);
    SortIsSorted(t, le);
    forall z ensures Class(Sort(s, le), z, le) == Class(s, z, le) && Class(Sort(t, le), z, le) == Class(t, z, le) {
      SortIsStable(s, z, le);
      SortIsStable(t, z, le);
    }
    if SameClasses(s, t, le) {
      SortedFromClasses(Sort(s, le), Sort(t, le), le);
    }
  }

  // ----- sums of multisets -----

  function SumOf<T, U>(s: seq<T>, f: T -> multiset<U>): multiset<U> {
    if s == [] then multiset{} else f(s[0]) + SumOf(s[1..], f)
  }

  lemma {:induction false} SumAppend<T, U>(s: seq<T>, t: seq<T>, f: T -> multiset<U>)
    ensures SumOf(s + t, f) == SumOf(s, f) + SumOf(t, f)
  {
    if s == [] {
      assert s + t == t;
    } else {
      assert (s + t)[1..] == s[1..] + t;
      SumAppend(s[1..], t, f);
    }
  }

  lemma SumTakenOut<T, U>(t: seq<T>, i: nat, f: T -> multiset<U>)
    requires i < |t|
    ensures SumOf(t, f) == f(t[i]) + SumOf(t[..i] + t[i + 1..], f)
  {
    var from := t[i..];
    SumAppend(t[..i], t[i + 1..], f);
    SumAppend(t[..i], from, f);
    assert t == t[..i] + from;
    assert from[0] == t[i] && from[1..] == t[i + 1..];
  }

  lemma {:induction false} SumPermutes<T, U>(s: seq<T>, t: seq<T>, f: T -> multiset<U>)
    requires multiset(s) == multiset(t)
    ensures SumOf(s, f) == SumOf(t, f)
    decreases |s|
  {
    assert |s| == |multiset(s)| == |multiset(t)| == |t|;
    if s != [] {
      SameElements(s, t, s[0]);
      var i :| 0 <= i < |t| && t[i] == s[0];
      var rest := t[..i] + t[i + 1..];
      DropHead(s);
      TakeOut(t, i);
      SumPermutes(s[1..], rest, f);
      SumTakenOut(t, i, f);
    }
  }

  // ----- comparisons that order only the elements at hand -----

  ghost predicate OrdersOn<T(!new)>(s: seq<T>, le: (T, T) -> bool) {
    && (forall a, b | a in s && b in s :: le(a, b) || le(b, a))
    && (forall a, b, c | a in s && b in s && c in s && le(a, b) && le(b, c) :: le(a, c))
  }

  /** The comparison among elements of s, with everything else tied above them. */
  function Within<T(==)>(s: seq<T>, le: (T, T) -> bool): (T, T) -> bool {
    (a: T, b: T) => b !in s || (a in s && le(a, b))
  }

  lemma WithinIsPreorder<T(!new)>(s: seq<T>, le: (T, T) -> bool)
    requires OrdersOn(s, le)
    ensures TotalPreorder(Within(s, le))
  {
  }

  lemma {:induction false} InsertWithin<T>(s: seq<T>, x: T, t: seq<T>, le: (T, T) -> bool)
    requires x in s && forall y | y in t :: y in s
    ensures Insert(x, t, Within(s, le)) == Insert(x, t, le)
  {
    if t != [] { InsertWithin(s, x, t[1..], le); }
  }

  lemma {:induction false} SortWithin<T>(s: seq<T>, t: seq<T>, le: (T, T) -> bool)
    requires forall y | y in t :: y in s
    ensures Sort(t, Within(s, le)) == Sort(t, le)
  {
    if t != [] {
      SortWithin(s, t[1..], le);
      forall y | y in Sort(t[1..], le) ensures y in s { SameElements(Sort(t[1..], le), t[1..], y); }
      InsertWithin(s, t[0], Sort(t[1..], le), le);
    }
  }

  lemma SortIsSortedOn<T(!new)>(s: seq<T>, le: (T, T) -> bool)
    requires OrdersOn(s, le)
    ensures SortedBy(Sort(s, le), le)
  {
    hide TotalPreorder, OrdersOn, Sort;
    WithinIsPreorder(s, le);
    SortIsSorted(s, Within(s, le));
    SortWithin(s, s, le);
    var r := Sort(s, le);
    forall i, j | 0 <= i < j < |r| ensures le(r[i], r[j]) {
      SameElements(r, s, r[j]);
      assert Within(s, le)(r[i], r[j]);
    }
  }

  lemma SortOfUntiedOn<T(!new)>(s: seq<T>, t: seq<T>, le: (T, T) -> bool)
    requires OrdersOn(s, le) && NoTies(s, le) && multiset(s) == multiset(t)
    ensures Sort(s, le) == Sort(t, le)
  {
    hide TotalPreorder, OrdersOn, Sort;
    WithinIsPreorder(s, le);
    assert NoTies(s, Within(s, le));
    SortOfUntied(s, t, Within(s, le));
    forall y | y in t ensures y in s { SameElements(s, t, y); }
    SortWithin(s, s, le);
    SortWithin(s, t, le);
  }

  // ----- rewriting elements beside sorting them -----

  /** The comparison does not see what f does to the elements of s. */
  ghost predicate Keeps<T>(s: seq<T>, f: T -> T, le: (T, T) -> bool) {
    forall a, b | a in s && b in s :: le(f(a), f(b)) == le(a, b)
  }

  lemma MapOfMore<T>(x: T, s: seq<T>, f: T -> T)
    ensures Map([x] + s, f) == [f(x)] + Map(s, f)
  {
  }

  lemma {:induction false} InsertMapped<T>(x: T, s: seq<T>, f: T -> T, le: (T, T) -> bool)
    requires forall y | y in s :: le(f(x), f(y)) == le(x, y)
    ensures Insert(f(x), Map(s, f), le) == Map(Insert(x, s, le), f)
  {
    hide Map;
    if s == [] {
      MapOfMore(x, [], f);
      assert Map<T, T>([], f) == [] && [x] + [] == [x];
    } else {
      assert s == [s[0]] + s[1..];
      MapOfMore(s[0], s[1..], f);
      assert Map(s, f)[1..] == Map(s[1..], f) && Map(s, f)[0] == f(s[0]);
      if le(x, s[0]) {
        MapOfMore(x, s, f);
      } else {
        InsertMapped(x, s[1..], f, le);
        MapOfMore(s[0], Insert(x, s[1..], le), f);
      }
    }
  }

  /** Such a rewriting can be done before or after sorting. */
  lemma {:induction false} SortMapped<T>(s: seq<T>, f: T -> T, le: (T, T) -> bool)
    requires Keeps(s, f, le)
    ensures Sort(Map(s, f), le) == Map(Sort(s, le), f)
  {
    if s != [] {
      hide Insert;
      var rest := Sort(s[1..], le);
      assert Map(s, f)[1..] == Map(s[1..], f) && Map(s, f)[0] == f(s[0]);
      SortMapped(s[1..], f, le);
      forall y | y in rest ensures y in s && s[0] in s { SameElements(rest, s[1..], y); }
      InsertMapped(s[0], rest, f, le);
    }
  }
}
