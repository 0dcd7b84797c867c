/** The gateway's bounded append, and what becomes of an agent's text once the bound is reached. */
module Capping {
  import opened Wrappers
  import opened Splitting
  import opened Telemetry

  /** How many bytes a character takes in UTF-8. */
  function Width(c: char): (n: nat)
    ensures 1 <= n <= 4
  {
    if c as int < 0x80 then 1 else if c as int < 0x800 then 2 else if c as int < 0x1_0000 then 3 else 4
  }

  function Bytes(s: string): nat {
    if s == "" then 0 else Width(s[0]) + Bytes(s[1..])
  }

  /** The longest beginning of whole characters within so many bytes. */
  function Within(s: string, room: nat): (r: string)
    ensures r <= s
    decreases |s|
  {
    if s == "" || Width(s[0]) > room then ""
    else
      var rest := Within(s[1..], room - Width(s[0]));
      assert s == [s[0]] + s[1..];
      [s[0]] + rest
  }

  /** `push_capped`: all of the text, or what fits of it, or nothing. */
  function Capped(cap: nat): Push {
    (buf: string, more: string) =>
      var remaining: nat := if Bytes(buf) < cap then cap - Bytes(buf) else 0;
      if remaining == 0 || more == "" then buf
      else if Bytes(more) <= remaining then buf + more
      else buf + Within(more, remaining)
  }

  // ----- bytes and beginnings -----

  lemma {:induction false} BytesAppend(s: string, t: string)
    ensures Bytes(s + t) == Bytes(s) + Bytes(t)
  {
    hide Width;
    if s == "" {
      assert s + t == t;
    } else {
      assert (s + t)[0] == s[0] && (s + t)[1..] == s[1..] + t;
      BytesAppend(s[1..], t);
    }
  }

  lemma {:induction false} SomeBytes(s: string)
    ensures Bytes(s) >= |s|
  {
    hide Width;
    if s != "" { SomeBytes(s[1..]); }
  }

  lemma {:induction false} WithinIs(s: string, room: nat)
    ensures var r := Within(s, room);
            && Bytes(r) <= room && (Bytes(s) <= room <==> r == s)
            && (|r| < |s| ==> Bytes(r) + Width(s[|r|]) > room)
    decreases |s|
  {
    hide Width;
    if s != "" && Width(s[0]) <= room {
      var rest := Within(s[1..], room - Width(s[0]));
      WithinIs(s[1..], room - Width(s[0]));
      assert ([s[0]] + rest)[1..] == rest && s == [s[0]] + s[1..];
    }
  }

  lemma {:induction false} WithinAppend(s: string, t: string, room: nat)
    ensures Bytes(s) <= room ==> Within(s + t, room) == s + Within(t, room - Bytes(s))
    ensures Bytes(s) > room ==> Within(s + t, room) == Within(s, room)
    decreases |s|
  {
    hide Width;
    if s == "" {
      assert s + t == t;
    } else {
      assert (s + t)[0] == s[0] && (s + t)[1..] == s[1..] + t;
      if Width(s[0]) <= room {
        WithinAppend(s[1..], t, room - Width(s[0]));
        if Bytes(s) <= room { OneInFront(s, Within(t, room - Bytes(s))); }
      }
    }
  }

  lemma OneInFront(s: string, t: string)
    requires s != ""
    ensures [s[0]] + (s[1..] + t) == s + t
  {
  }

  /** What the append does while the buffer is within the bound. */
  lemma CappedIs(cap: nat, buf: string, more: string)
    requires Bytes(buf) <= cap
    ensures Capped(cap)(buf, more) == buf + Within(more, cap - Bytes(buf))
    ensures Bytes(Capped(cap)(buf, more)) <= cap
  {
    hide Within, Width, Bytes;
    var remaining := cap - Bytes(buf);
    WithinIs(more, remaining);
    BytesAppend(buf, Within(more, remaining));
    if remaining == 0 { NothingWithin(more); }
    if more == "" { NothingOfNothing(remaining); }
    assert buf + "" == buf;
    assert Capped(cap)(buf, more) == buf + Within(more, remaining);
  }

  lemma NothingOfNothing(room: nat)
    ensures Within("", room) == ""
  {
  }

  lemma NothingWithin(s: string)
    ensures Within(s, 0) == ""
  {
  }

  // ----- an agent's text -----

  /** The texts of a message, appended one after the other, a line break before each but the first. */
  function Collected(texts: seq<string>, push: Push): string {
    if texts == [] then ""
    else
      var buf := Collected(texts[..|texts| - 1], push);
      push(if buf == "" then buf else push(buf, "\n"), texts[|texts| - 1])
  }

  function Onward(texts: seq<string>, buf: string, push: Push): string
    decreases |texts|
  {
    if texts == [] then buf
    else Onward(texts[1..], push(if buf == "" then buf else push(buf, "\n"), texts[0]), push)
  }

  lemma {:induction false} OnwardMore(texts: seq<string>, last: string, buf: string, push: Push)
    ensures Onward(texts + [last], buf, push) ==
              var before := Onward(texts, buf, push); push(if before == "" then before else push(before, "\n"), last)
    decreases |texts|
  {
    if texts == [] {
      assert [] + [last] == [last];
    } else {
      assert (texts + [last])[0] == texts[0] && (texts + [last])[1..] == texts[1..] + [last];
      OnwardMore(texts[1..], last, push(if buf == "" then buf else push(buf, "\n"), texts[0]), push);
    }
  }

  lemma {:induction false} OnwardIsCollected(texts: seq<string>, push: Push)
    ensures Onward(texts, "", push) == Collected(texts, push)
    decreases |texts|
  {
    if texts != [] {
      var n := |texts| - 1;
      assert texts == texts[..n] + [texts[n]];
      OnwardIsCollected(texts[..n], push);
      OnwardMore(texts[..n], texts[n], "", push);
    }
  }

  lemma {:induction false} PartsGoOnward(parts: seq<Part>, buf: string, push: Push, v: Version)
    ensures CollectParts(EncodeParts(parts, v), buf, push) == Onward(TextsIn(parts), buf, push)
    decreases |parts|
  {
    hide EncodePart, Json.StrField;
    if parts != [] {
      PartTextField(parts[0], v);
      assert EncodeParts(parts, v)[1..] == EncodeParts(parts[1..], v);
      if parts[0].TextPart? && parts[0].text != "" {
        var text := parts[0].text;
        assert TextsIn(parts)[0] == text && TextsIn(parts)[1..] == TextsIn(parts[1..]);
        PartsGoOnward(parts[1..], push(if buf == "" then buf else push(buf, "\n"), text), push, v);
      } else {
        assert TextsIn(parts) == TextsIn(parts[1..]);
        PartsGoOnward(parts[1..], buf, push, v);
      }
    }
  }

  /** With any append, what is collected of a message's parts is made of its texts alone. */
  lemma PartsAreCollected(parts: seq<Part>, push: Push, v: Version)
    ensures CollectParts(EncodeParts(parts, v), "", push) == Collected(TextsIn(parts), push)
  {
    PartsGoOnward(parts, "", push, v);
    OnwardIsCollected(TextsIn(parts), push);
  }

  // ----- past the bound -----

  /** The whole text fits, or is cut in its last part, or is cut without a byte to spare. */
  predicate CutsCleanly(texts: seq<string>, cap: nat) {
    || |texts| <= 1
    || Bytes(Lines(texts[..|texts| - 1]) + "\n") <= cap
    || Bytes(Within(Lines(texts), cap)) == cap
  }

  lemma LinesGrow(texts: seq<string>, last: string)
    requires texts != []
    ensures Lines(texts + [last]) == Lines(texts) + "\n" + last
  {
    JoinMore(texts, last);
  }

  lemma {:induction false} LinesStart(texts: seq<string>)
    requires texts != [] && texts[0] != ""
    ensures Lines(texts) != ""
  {
  }

  /** What is collected: within the bound, and at least the longest beginning within it. */
  ghost predicate Bounded(texts: seq<string>, cap: nat) {
    var all, kept := Lines(texts), Collected(texts, Capped(cap));
    && Bytes(kept) <= cap && Within(all, cap) <= kept
    && (Bytes(all) <= cap ==> kept == all)
    && (kept <= all <==> CutsCleanly(texts, cap))
    && (kept <= all ==> kept == Within(all, cap))
  }

  lemma NextIsNarrow(p: string, kept: string, cap: nat)
    requires p <= kept && |p| < |kept| && Bytes(kept) <= cap
    ensures Bytes(p) + Width(kept[|p|]) <= cap
  {
    var rest := kept[|p|..];
    assert kept == p + rest;
    BytesAppend(p, rest);
    assert Bytes(rest) >= Width(rest[0]);
  }

  /** A longer collection than the longest beginning departs from the text. */
  lemma LongerDeparts(all: string, kept: string, cap: nat)
    requires Bytes(kept) <= cap && Within(all, cap) <= kept
    ensures kept <= all <==> kept == Within(all, cap)
  {
    hide Bytes, Width, Within;
    var p := Within(all, cap);
    WithinIs(all, cap);
    if |p| < |kept| {
      NextIsNarrow(p, kept, cap);
      assert |p| < |all| ==> kept[|p|] != all[|p|];
    }
  }

  lemma FullStays(all: string, kept: string, cap: nat)
    requires Bytes(kept) <= cap && Within(all, cap) <= kept && Bytes(Within(all, cap)) == cap
    ensures kept == Within(all, cap)
  {
    var p := Within(all, cap);
    var rest := kept[|p|..];
    assert kept == p + rest;
    BytesAppend(p, rest);
    SomeBytes(rest);
  }

  lemma BreakIsOne()
    ensures Bytes("\n") == 1 && Bytes("") == 0 && forall room: nat | room >= 1 :: Within("\n", room) == "\n"
  {
    assert "\n"[1..] == "";
    forall room: nat | room >= 1 ensures Within("\n", room) == "\n" { WithinIs("\n", room); }
  }

  lemma FirstFits(s: string, cap: nat)
    requires s != "" && cap >= 4
    ensures Within(s, cap) != ""
  {
  }

  lemma OneTextIsBounded(t: string, cap: nat)
    ensures Bounded([t], cap)
  {
    hide Bytes, Within, Width, Capped;
    BreakIsOne();
    assert [t][..0] == [];
    assert Lines([t]) == t && Collected([], Capped(cap)) == "";
    CappedIs(cap, "", t);
    assert "" + Within(t, cap) == Within(t, cap);
    assert Collected([t], Capped(cap)) == Within(t, cap);
    WithinIs(t, cap);
  }

  /** The last text comes after a whole line: it is cut itself, if anything is. */
  lemma LastIsCut(wf: string, t: string, cap: nat)
    requires Bytes(wf + "\n") <= cap
    ensures var all := wf + "\n" + t;
            Capped(cap)(Capped(cap)(wf, "\n"), t) == Within(all, cap)
  {
    hide Bytes, Within, Width, Capped;
    BreakIsOne();
    BytesAppend(wf, "\n");
    CappedIs(cap, wf, "\n");
    CappedIs(cap, wf + "\n", t);
    WithinAppend(wf + "\n", t, cap);
  }

  /** The bound was met exactly: nothing more is taken. */
  lemma NothingMore(kept: string, t: string, cap: nat)
    requires Bytes(kept) == cap
    ensures Capped(cap)(Capped(cap)(kept, "\n"), t) == kept
  {
    hide Bytes, Within, Width, Capped;
    CappedIs(cap, kept, "\n");
    NothingWithin("\n");
    assert kept + "" == kept;
    CappedIs(cap, kept, t);
    NothingWithin(t);
  }

  /** The bound was passed before: what is taken from now on departs from the text if there is room for a break. */
  lemma MoreDeparts(wf: string, t: string, kept: string, cap: nat)
    requires Bytes(wf) > cap && Bytes(kept) <= cap && Within(wf, cap) <= kept
    ensures var all, more := wf + "\n" + t, Capped(cap)(Capped(cap)(kept, "\n"), t);
            && Bytes(more) <= cap && Within(all, cap) == Within(wf, cap) <= more && Bytes(all) > cap
            && (more <= all <==> Bytes(Within(wf, cap)) == cap) && (more <= all ==> more == Within(all, cap))
  {
    hide Bytes, Within, Width, Capped;
    var all, p := wf + "\n" + t, Within(wf, cap);
    assert all == wf + ("\n" + t);
    WithinAppend(wf, "\n" + t, cap);
    BytesAppend(wf, "\n" + t);
    BreakIsOne();
    CappedIs(cap, kept, "\n");
    var one := Capped(cap)(kept, "\n");
    CappedIs(cap, one, t);
    var more := Capped(cap)(one, t);
    LongerDeparts(all, more, cap);
    WithinIs(wf, cap);
    if Bytes(p) == cap {
      FullStays(all, more, cap);
    } else if kept == p {
      assert one == kept + "\n" && |more| > |p|;
    }
  }

  lemma CollectedMore(texts: seq<string>, t: string, cap: nat)
    requires Collected(texts, Capped(cap)) != ""
    ensures Collected(texts + [t], Capped(cap)) == Capped(cap)(Capped(cap)(Collected(texts, Capped(cap)), "\n"), t)
  {
    assert (texts + [t])[..|texts|] == texts;
  }

  /**
   Whatever texts are appended: what is kept is within the bound and begins with as much of the whole text as fits. It
   is a beginning of the whole text exactly when that fits, or is cut in its last part, or is cut without a byte to
   spare.
   */
  lemma {:induction false} TextIsBounded(texts: seq<string>, cap: nat)
    requires cap >= 4 && forall i | 0 <= i < |texts| :: texts[i] != ""
    ensures Bounded(texts, cap)
    decreases |texts|
  {
    hide Bytes, Within, Width, Capped, Lines, Collected;
    if texts == [] {
      NoTextIsBounded(cap);
    } else if |texts| == 1 {
      OneTextIsBounded(texts[0], cap);
      assert texts == [texts[0]];
    } else {
      var n := |texts| - 1;
      var front, t := texts[..n], texts[n];
      assert texts == front + [t];
      TextIsBounded(front, cap);
      LinesGrow(front, t);
      LinesStart(front);
      FirstFits(Lines(front), cap);
      CollectedMore(front, t, cap);
      BreakIsOne();
      BytesAppend(Lines(front), "\n");
      StepIsBounded(front, t, cap);
    }
  }

  lemma NoTextIsBounded(cap: nat)
    ensures Bounded([], cap)
  {
  }

  lemma StepIsBounded(front: seq<string>, t: string, cap: nat)
    requires front != [] && Bounded(front, cap) && Lines(front + [t]) == Lines(front) + "\n" + t
    requires var kept := Collected(front, Capped(cap));
             Collected(front + [t], Capped(cap)) == Capped(cap)(Capped(cap)(kept, "\n"), t)
    requires Bytes(Lines(front) + "\n") == Bytes(Lines(front)) + 1
    ensures Bounded(front + [t], cap)
  {
    hide Bytes, Within, Width, Capped, Lines, Collected;
    var wf, kept := Lines(front), Collected(front, Capped(cap));
    var all, more := wf + "\n" + t, Collected(front + [t], Capped(cap));
    assert (front + [t])[..|front|] == front;
    WithinIs(all, cap);
    if Bytes(wf) < cap {
      LastIsCut(wf, t, cap);
    } else if Bytes(wf) == cap {
      NothingMore(wf, t, cap);
      ExactlyFull(wf, t, cap);
    } else {
      MoreDeparts(wf, t, kept, cap);
    }
  }

  lemma ExactlyFull(wf: string, t: string, cap: nat)
    requires Bytes(wf) == cap
    ensures var all := wf + "\n" + t; Within(all, cap) == wf && Bytes(all) > cap
  {
    hide Bytes, Within, Width;
    var all := wf + "\n" + t;
    assert all == wf + ("\n" + t);
    WithinAppend(wf, "\n" + t, cap);
    NothingWithin("\n" + t);
    BytesAppend(wf, "\n" + t);
    SomeBytes("\n" + t);
  }

  // ----- the statement -----

  lemma OnePieceStays(said: string, cap: nat)
    requires Bytes(said) <= cap
    ensures Capped(cap)("", said) == said
  {
    hide Within, Width;
    CappedIs(cap, "", said);
    WithinIs(said, cap);
  }

  /**
   The statement that a message leaves behind the gateway's bounded append: a beginning of what the agent said exactly
   in those cases.
   */
  lemma MessageIsBounded(statement: string, m: AgentMessage, v: Version, cap: nat)
    requires cap >= 4 && TextsIn(m.parts) != []
    ensures var kept := StatementAfter(statement, EncodeResponse(MessagePayload(m), v), Capped(cap));
            var texts := TextsIn(m.parts);
            && Bytes(kept) <= cap && Within(Lines(texts), cap) <= kept
            && (kept <= Lines(texts) <==> CutsCleanly(texts, cap))
  {
    hide Bytes, Within, Width, Capped, Lines, Collected, EncodeResponse, Words, CutsCleanly, TextsIn;
    var texts := TextsIn(m.parts);
    TextsAreNotEmpty(m.parts);
    TextIsBounded(texts, cap);
    MessageWords(m, v, Capped(cap));
    LinesStart(texts);
    FirstFits(Lines(texts), cap);
    OnePieceStays(Collected(texts, Capped(cap)), cap);
  }

  lemma MessageWords(m: AgentMessage, v: Version, push: Push)
    ensures Words(EncodeResponse(MessagePayload(m), v), push) == Collected(TextsIn(m.parts), push)
  {
    hide EncodeResponse, Payload, EncodeMessage, CollectParts, Json.Get, Collected, TextsIn;
    PayloadReached(MessagePayload(m), v);
    MessageIsPayload(m, v);
    MessageMembers(m, v);
    PartsAreCollected(m.parts, push, v);
  }

  /** One byte is left and the next letter takes two: it goes, and the line break after its text stays. */
  lemma BreakAfterTheCut(s: string, t: string, cap: nat)
    requires cap >= 4 && Bytes(s) == cap - 1 && t != ""
    ensures var texts := [s + "\U{E9}", t];
            Collected(texts, Capped(cap)) == s + "\n" && !(s + "\n" <= Lines(texts))
  {
    hide Bytes, Within, Width, Capped, Lines, Collected;
    var one, texts := s + "\U{E9}", [s + "\U{E9}", t];
    BreakIsOne();
    CutLetter(s, cap);
    FirstOfAll(one, cap);
    CappedIs(cap, "", one);
    assert "" + s == s && Collected([one], Capped(cap)) == s;
    CappedIs(cap, s, "\n");
    assert Capped(cap)(s, "\n") == s + "\n";
    BytesAppend(s, "\n");
    CappedIs(cap, s + "\n", t);
    NothingWithin(t);
    assert s + "\n" + "" == s + "\n";
    NotEmpty(s, cap);
    assert [one] + [t] == texts;
    CollectedMore([one], t, cap);
    LinesGrow([one], t);
    LinesOfOne(one);
    assert (s + "\n")[|s|] == '\n' && (one + "\n" + t)[|s|] == '\U{E9}';
  }

  lemma CutLetter(s: string, cap: nat)
    requires cap >= 1 && Bytes(s) == cap - 1
    ensures Within(s + "\U{E9}", cap) == s
  {
    WithinAppend(s, "\U{E9}", cap);
    assert Within("\U{E9}", 1) == "";
  }

  lemma NotEmpty(s: string, cap: nat)
    requires cap >= 4 && Bytes(s) == cap - 1
    ensures s != ""
  {
  }

  lemma FirstOfAll(one: string, cap: nat)
    ensures Collected([one], Capped(cap)) == Capped(cap)("", one)
  {
    hide Capped;
    assert [one][..0] == [];
    assert Collected([], Capped(cap)) == "";
  }

  lemma LinesOfOne(one: string)
    ensures Lines([one]) == one
  {
  }
}
