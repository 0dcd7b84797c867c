/** Characters and strings as the sources use them: ASCII case, white space, and code-point order. */
module Text {
  import opened Sorting

  /** Lexicographic order by code point, the order of Rust's `str`. */
  predicate StrLe(a: string, b: string) {
    a == [] || (b != [] && (a[0] < b[0] || (a[0] == b[0] && StrLe(a[1..], b[1..]))))
  }

  /** The strings part at k, where the first has the smaller character. */
  predicate PartsBelow(a: string, b: string, k: nat) {
    k < |a| && k < |b| && a[..k] == b[..k] && (a[k] as int) < (b[k] as int)
  }

  lemma PartsLater(a: string, b: string, k: nat)
    requires a != "" && b != "" && a[0] == b[0]
    ensures PartsBelow(a, b, k + 1) <==> PartsBelow(a[1..], b[1..], k)
  {
    var x, y := a[1..], b[1..];
    if k < |x| && k < |y| {
      assert a[..k + 1] == [a[0]] + x[..k] && b[..k + 1] == [b[0]] + y[..k];
      if a[..k + 1] == b[..k + 1] { assert x[..k] == a[..k + 1][1..] && y[..k] == b[..k + 1][1..]; }
    }
  }

  lemma PartsAtOnce(a: string, b: string)
    requires a != "" && b != ""
    ensures PartsBelow(a, b, 0) <==> (a[0] as int) < (b[0] as int)
    ensures a[0] != b[0] ==> !(a <= b) && forall k: nat | k > 0 :: !PartsBelow(a, b, k)
  {
    forall k: nat | k > 0 && PartsBelow(a, b, k) ensures a[0] == b[0] { assert a[..k][0] == b[..k][0]; }
  }

  /** One string comes before another when it is the start of it, or has the smaller character where they part. */
  lemma {:induction false} StrLeIs(a: string, b: string)
    ensures StrLe(a, b) <==> a <= b || exists k: nat :: PartsBelow(a, b, k)
  {
    hide PartsBelow;
    if a != "" && b != "" {
      PartsAtOnce(a, b);
      if a[0] == b[0] {
        StrLeIs(a[1..], b[1..]);
        assert a == [a[0]] + a[1..] && b == [b[0]] + b[1..];
        forall k: nat ensures PartsBelow(a, b, k + 1) <==> PartsBelow(a[1..], b[1..], k) { PartsLater(a, b, k); }
        if k: nat :| PartsBelow(a, b, k) { assert PartsBelow(a[1..], b[1..], k - 1); }
        if k: nat :| PartsBelow(a[1..], b[1..], k) { assert PartsBelow(a, b, k + 1); }
      }
    } else {
      PartsNowhere(a, b);
    }
  }

  lemma PartsNowhere(a: string, b: string)
    requires a == "" || b == ""
    ensures forall k: nat :: !PartsBelow(a, b, k)
  {
  }

  function ByText(): (string, string) -> bool {
    (a, b) => StrLe(a, b)
  }

  lemma {:induction false} StrLeTotal(a: string, b: string)
    ensures StrLe(a, b) || StrLe(b, a)
  {
    if a != [] && b != [] { StrLeTotal(a[1..], b[1..]); }
  }

  lemma {:induction false} StrLeTransitive(a: string, b: string, c: string)
    requires StrLe(a, b) && StrLe(b, c)
    ensures StrLe(a, c)
  {
    if a != [] && a[0] == b[0] && b[0] == c[0] { StrLeTransitive(a[1..], b[1..], c[1..]); }
  }

  lemma {:induction false} StrLeAntisymmetric(a: string, b: string)
    requires StrLe(a, b) && StrLe(b, a)
    ensures a == b
  {
    if a != [] && b != [] {
      StrLeAntisymmetric(a[1..], b[1..]);
      assert a == [a[0]] + a[1..] && b == [b[0]] + b[1..];
    }
  }

  lemma TextOrderIsTotal()
    ensures TotalOrder(ByText())
  {
    forall a: string, b: string ensures ByText()(a, b) || ByText()(b, a) { StrLeTotal(a, b); }
    forall a: string, b: string, c: string | ByText()(a, b) && ByText()(b, c) ensures ByText()(a, c) {
      StrLeTransitive(a, b, c);
    }
    forall a: string, b: string | ByText()(a, b) && ByText()(b, a) ensures a == b { StrLeAntisymmetric(a, b); }
  }

  /** Rust's `char::is_whitespace`: the Unicode White_Space property. */
  predicate IsWhite(c: char) {
    var n := c as int;
    || 9 <= n <= 13 || n == 0x20 || n == 0x85 || n == 0xA0 || n == 0x1680
    || 0x2000 <= n <= 0x200A || n == 0x2028 || n == 0x2029 || n == 0x202F || n == 0x205F || n == 0x3000
  }

  function TrimStart(s: string): (r: string)
    ensures |r| <= |s|
    ensures r == [] || !IsWhite(r[0])
  {
    if s != [] && IsWhite(s[0]) then TrimStart(s[1..]) else s
  }

  function TrimEnd(s: string): (r: string)
    ensures |r| <= |s| && r == s[..|r|]
    ensures r == [] || !IsWhite(r[|r| - 1])
  {
    if s != [] && IsWhite(s[|s| - 1]) then TrimEnd(s[..|s| - 1]) else s
  }

  function Trim(s: string): (r: string) {
    TrimEnd(TrimStart(s))
  }

  predicate AllWhite(s: string) {
    forall i | 0 <= i < |s| :: IsWhite(s[i])
  }

  /** No white space at either end. */
  predicate Trimmed(s: string) {
    s == "" || (!IsWhite(s[0]) && !IsWhite(s[|s| - 1]))
  }

  lemma {:induction false} TrimStartTakes(front: string, s: string)
    requires AllWhite(front) && (s == "" || !IsWhite(s[0]))
    ensures TrimStart(front + s) == s
  {
    if front == "" {
      assert front + s == s;
    } else {
      assert (front + s)[0] == front[0] && (front + s)[1..] == front[1..] + s;
      TrimStartTakes(front[1..], s);
    }
  }

  lemma {:induction false} TrimEndTakes(s: string, back: string)
    requires AllWhite(back) && (s == "" || !IsWhite(s[|s| - 1]))
    ensures TrimEnd(s + back) == s
  {
    if back == "" {
      assert s + back == s;
    } else {
      var n := |back| - 1;
      assert (s + back)[|s + back| - 1] == back[n] && (s + back)[..|s + back| - 1] == s + back[..n];
      TrimEndTakes(s, back[..n]);
    }
  }

  lemma {:induction false} TrimStartOfWhite(s: string)
    requires AllWhite(s)
    ensures TrimStart(s) == ""
  {
    if s != "" { TrimStartOfWhite(s[1..]); }
  }

  /** Trimming takes off all white space at both ends and nothing else. */
  lemma TrimTakes(front: string, s: string, back: string)
    requires AllWhite(front) && Trimmed(s) && AllWhite(back)
    ensures Trim(front + s + back) == s
  {
    if s == "" {
      assert front + s + back == front + back;
      TrimStartOfWhite(front + back);
    } else {
      assert front + s + back == front + (s + back);
      TrimStartTakes(front, s + back);
      TrimEndTakes(s, back);
    }
  }

  lemma {:induction false} StartSplits(s: string) returns (front: string)
    ensures AllWhite(front) && s == front + TrimStart(s)
  {
    front := "";
    if s != "" && IsWhite(s[0]) {
      var rest := StartSplits(s[1..]);
      front := [s[0]] + rest;
      assert s == [s[0]] + s[1..];
    }
  }

  lemma {:induction false} EndSplits(s: string) returns (back: string)
    ensures AllWhite(back) && s == TrimEnd(s) + back
  {
    back := "";
    if s != "" && IsWhite(s[|s| - 1]) {
      var rest := EndSplits(s[..|s| - 1]);
      back := rest + [s[|s| - 1]];
    }
  }

  lemma TrimIsTrimmed(s: string)
    ensures Trimmed(Trim(s))
  {
    hide IsWhite;
    var t := TrimStart(s);
    var u := TrimEnd(t);
    if u != "" { assert t[..|u|][0] == t[0]; }
  }

  /** Every text is its trimmed self between white space. */
  lemma TrimSplits(s: string) returns (front: string, back: string)
    ensures AllWhite(front) && AllWhite(back) && s == front + Trim(s) + back && Trimmed(Trim(s))
  {
    hide AllWhite, Trimmed, TrimStart, TrimEnd;
    front := StartSplits(s);
    var t := TrimStart(s);
    back := EndSplits(t);
    TrimIsTrimmed(s);
    Regroup(front, TrimEnd(t), back);
  }

  lemma Regroup(a: string, b: string, c: string)
    ensures a + (b + c) == a + b + c
  {
  }

  /** The characters that are taken off. */
  lemma WhiteCharacters(c: char)
    ensures IsWhite(c) <==>
      c in "\t\n\U{0B}\U{0C}\r \U{85}\U{A0}\U{1680}\U{2028}\U{2029}\U{202F}\U{205F}\U{3000}"
        || c in "\U{2000}\U{2001}\U{2002}\U{2003}\U{2004}\U{2005}\U{2006}\U{2007}\U{2008}\U{2009}\U{200A}"
  {
  }

  /** The source's `value.trim().is_empty()`. */
  predicate Blank(s: string) {
    Trim(s) == ""
  }

  function LowerChar(c: char): char {
    if 'A' <= c <= 'Z' then c - 'A' + 'a' else c
  }

  /** ASCII lower-casing; every other character is unchanged. */
  function Lower(s: string): (r: string)
    ensures |r| == |s|
  {
    seq(|s|, i requires 0 <= i < |s| => LowerChar(s[i]))
  }
}
