/** Keeping the first of all elements with the same key, as a set of seen keys does. */
module FirstSeen {

  function Keys<T, K(==)>(s: seq<T>, key: T -> K): set<K> {
    set i | 0 <= i < |s| :: key(s[i])
  }

  function FirstOf<T, K(==)>(s: seq<T>, key: T -> K): seq<T> {
    if s == [] then []
    else
      var front, last := s[..|s| - 1], s[|s| - 1];
      FirstOf(front, key) + if key(last) in Keys(front, key) then [] else [last]
  }

  /** Where the kept elements stand. */
  function FirstPositions<T, K(==)>(s: seq<T>, key: T -> K): seq<nat> {
    if s == [] then []
    else
      var front, last := s[..|s| - 1], s[|s| - 1];
      FirstPositions(front, key) + if key(last) in Keys(front, key) then [] else [|s| - 1]
  }

  lemma KeysOfMore<T, K>(s: seq<T>, x: T, key: T -> K)
    ensures Keys(s + [x], key) == Keys(s, key) + {key(x)}
  {
    var t := s + [x];
    assert t[|s|] == x;
    forall i | 0 <= i < |s| ensures t[i] == s[i] {}
    forall k | k in Keys(s, key) ensures k in Keys(t, key) {
      var i :| 0 <= i < |s| && key(s[i]) == k;
      assert key(t[i]) == k;
    }
  }

  lemma FirstOfMore<T, K>(s: seq<T>, x: T, key: T -> K)
    ensures FirstOf(s + [x], key) == FirstOf(s, key) + if key(x) in Keys(s, key) then [] else [x]
    ensures FirstPositions(s + [x], key) == FirstPositions(s, key) + if key(x) in Keys(s, key) then [] else [|s|]
  {
    assert (s + [x])[..|s|] == s;
  }

  /** The kept elements stand at increasing positions: at exactly those whose key was not there before. */
  lemma {:induction false} FirstOfIsFirst<T, K>(s: seq<T>, key: T -> K)
    ensures var at := FirstPositions(s, key);
            && |at| == |FirstOf(s, key)|
            && (forall j | 0 <= j < |at| :: at[j] < |s| && FirstOf(s, key)[j] == s[at[j]])
            && (forall j, k | 0 <= j < k < |at| :: at[j] < at[k])
            && forall i | 0 <= i < |s| :: i in at <==> key(s[i]) !in Keys(s[..i], key)
    decreases |s|
  {
    if s != [] {
      var n := |s| - 1;
      var front := s[..n];
      FirstOfIsFirst(front, key);
      var at := FirstPositions(front, key);
      forall i | 0 <= i < |s| ensures i in FirstPositions(s, key) <==> key(s[i]) !in Keys(s[..i], key) {
        if i < n {
          assert front[..i] == s[..i] && front[i] == s[i];
        } else {
          assert n !in at;
        }
      }
    }
  }

  /** Every key is kept, and none twice. */
  lemma {:induction false} FirstOfKeepsKeys<T, K>(s: seq<T>, key: T -> K)
    ensures Keys(FirstOf(s, key), key) == Keys(s, key)
    ensures forall i, j | 0 <= i < j < |FirstOf(s, key)| :: key(FirstOf(s, key)[i]) != key(FirstOf(s, key)[j])
    decreases |s|
  {
    if s != [] {
      var front, last := s[..|s| - 1], s[|s| - 1];
      FirstOfKeepsKeys(front, key);
      assert s == front + [last];
      KeysOfMore(front, last, key);
      KeysOfMore(FirstOf(front, key), last, key);
      NewKey(FirstOf(front, key), last, key);
      if key(last) in Keys(front, key) {
        assert FirstOf(s, key) == FirstOf(front, key);
      } else {
        assert FirstOf(s, key) == FirstOf(front, key) + [last];
      }
    }
  }

  lemma NewKey<T, K>(s: seq<T>, x: T, key: T -> K)
    ensures key(x) !in Keys(s, key) ==> forall i | 0 <= i < |s| :: key(s[i]) != key(x)
  {
  }

  lemma {:induction false} FirstOfIsPart<T, K>(s: seq<T>, key: T -> K, x: T)
    requires x in FirstOf(s, key)
    ensures x in s
    decreases |s|
  {
    var front, last := s[..|s| - 1], s[|s| - 1];
    if x in FirstOf(front, key) { FirstOfIsPart(front, key, x); }
  }

  /** Without repeated keys nothing is dropped. */
  lemma {:induction false} FirstOfDistinct<T, K>(s: seq<T>, key: T -> K)
    requires forall i, j | 0 <= i < j < |s| :: key(s[i]) != key(s[j])
    ensures FirstOf(s, key) == s
    decreases |s|
  {
    if s != [] {
      var front, last := s[..|s| - 1], s[|s| - 1];
      FirstOfDistinct(front, key);
      assert key(last) !in Keys(front, key);
      assert s == front + [last];
    }
  }

  /** Adding elements only adds to what is kept. */
  lemma {:induction false} FirstOfGrows<T, K>(s: seq<T>, t: seq<T>, key: T -> K)
    ensures FirstOf(s, key) <= FirstOf(s + t, key)
    decreases |t|
  {
    if t == [] {
      assert s + t == s;
    } else {
      var front := t[..|t| - 1];
      FirstOfGrows(s, front, key);
      assert (s + t)[..|s + t| - 1] == s + front;
    }
  }
}
