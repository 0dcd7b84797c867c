/** How many elements of a sequence have a property. */
module Counting {

  function CountIf<T>(s: seq<T>, p: T -> bool): nat {
    if s == [] then 0 else CountIf(s[..|s| - 1], p) + if p(s[|s| - 1]) then 1 else 0
  }

  lemma {:induction false} CountAppend<T>(s: seq<T>, t: seq<T>, p: T -> bool)
    ensures CountIf(s + t, p) == CountIf(s, p) + CountIf(t, p)
    decreases |t|
  {
    if t == [] {
      assert s + t == s;
    } else {
      assert (s + t)[..|s + t| - 1] == s + t[..|t| - 1];
      CountAppend(s, t[..|t| - 1], p);
    }
  }

  method Count<T>(s: seq<T>, p: T -> bool) returns (n: nat)
    ensures n == CountIf(s, p)
  {
    n := 0;
    for i := 0 to |s|
      invariant n == CountIf(s[..i], p)
    {
      assert s[..i + 1][..i] == s[..i];
      if p(s[i]) { n := n + 1; }
    }
    assert s[..|s|] == s;
  }
}
