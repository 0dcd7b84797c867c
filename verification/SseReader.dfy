/**
 The gateway's reader of upstream event streams: it buffers whatever chunks the network delivers,
 drains the buffer line by line and parses each `data:` line, a subset of section 9.2.6 of the WHATWG
 HTML Living Standard.  UTF-8 decoding and JSON parsing are parameters.
 */
module SseReader {
  import opened Wrappers
  import opened Text

  type Byte = n: int | 0 <= n < 256
  type Bytes = seq<Byte>
  const NEWLINE: Byte := 10

  datatype StreamError =
    | Transport(reason: string)
    | EventTooLarge
    | NotUtf8
    | MalformedEvent(reason: string)

  /** What the network hands over: a chunk of the body, or a failure of the connection. */
  datatype Delivery = Chunk(bytes: Bytes) | Fault(reason: string)

  /** The two library parsers the reader calls. */
  datatype Codec<!V> = Codec(utf8: Bytes -> Option<string>, json: string -> Result<V, string>)

  type Event<V> = Result<V, StreamError>

  // ----- one line -----

  function TrimLineEnd(s: string): string {
    if s != "" && (s[|s| - 1] == '\r' || s[|s| - 1] == '\n') then TrimLineEnd(s[..|s| - 1]) else s
  }

  function ParseDataLine<V>(line: Bytes, codec: Codec<V>): Result<Option<V>, StreamError> {
    match codec.utf8(line)
    case None => Err(NotUtf8)
    case Some(text) =>
      var field := TrimLineEnd(text);
      if !("data:" <= field) then Ok(None)
      else
        var payload := Trim(field[5..]);
        if payload == "" then Ok(None)
        else
          match codec.json(payload)
          case Ok(v) => Ok(Some(v))
          case Err(e) => Err(MalformedEvent(e))
  }

  // ----- a whole body at once -----

  function NewlineAt(s: Bytes): (n: nat)
    ensures n <= |s|
    ensures n < |s| ==> s[n] == NEWLINE
    ensures forall i | 0 <= i < n :: s[i] != NEWLINE
  {
    if s == [] || s[0] == NEWLINE then 0 else 1 + NewlineAt(s[1..])
  }

  /** The lines of a body, each with its newline. */
  function CompleteLines(s: Bytes): seq<Bytes>
    decreases |s|
  {
    var n := NewlineAt(s);
    if n == |s| then [] else [s[..n + 1]] + CompleteLines(s[n + 1..])
  }

  /** What follows the last newline. */
  function Tail(s: Bytes): (t: Bytes)
    ensures NEWLINE !in t && |t| <= |s|
    decreases |s|
  {
    var n := NewlineAt(s);
    if n == |s| then s else Tail(s[n + 1..])
  }

  /** Events in order, and whether an error ended the stream. */
  datatype Run<V> = Run(events: seq<Event<V>>, stopped: bool)
  {
    function Then(next: Run<V>): Run<V> {
      if stopped then this else Run(events + next.events, next.stopped)
    }
  }

  function ReadLine<V>(line: Bytes, codec: Codec<V>): Run<V> {
    match ParseDataLine(line, codec)
    case Ok(Some(v)) => Run([Ok(v)], false)
    case Ok(None) => Run([], false)
    case Err(e) => Run([Err(e)], true)
  }

  function ReadLines<V>(lines: seq<Bytes>, codec: Codec<V>): Run<V> {
    if lines == [] then Run([], false) else ReadLine(lines[0], codec).Then(ReadLines(lines[1..], codec))
  }

  /** The one-pass reading: every line, then the unterminated tail, up to the first error. */
  function OnePass<V>(body: Bytes, codec: Codec<V>): seq<Event<V>> {
    ReadLines(CompleteLines(body) + [Tail(body)], codec).events
  }

  function Flatten(lines: seq<Bytes>): Bytes {
    if lines == [] then [] else lines[0] + Flatten(lines[1..])
  }

  lemma {:induction false} SplitStep(s: Bytes)
    ensures var n := NewlineAt(s);
            && (n == |s| ==> CompleteLines(s) == [] && Tail(s) == s)
            && (n < |s| ==> CompleteLines(s) == [s[..n + 1]] + CompleteLines(s[n + 1..]) && Tail(s) == Tail(s[n + 1..]))
  {
  }

  /** The split loses nothing, and cuts exactly after each newline. */
  lemma {:induction false} SplitIsExact(body: Bytes)
    ensures Flatten(CompleteLines(body)) + Tail(body) == body
    ensures forall line | line in CompleteLines(body) ::
              line != [] && line[|line| - 1] == NEWLINE && NEWLINE !in line[..|line| - 1]
    ensures NEWLINE !in Tail(body)
    decreases |body|
  {
    hide NewlineAt, CompleteLines, Tail;
    var n := NewlineAt(body);
    SplitStep(body);
    if n < |body| {
      SplitIsExact(body[n + 1..]);
      assert body == body[..n + 1] + body[n + 1..];
    }
  }

  // ----- the reader -----

  /** What the reader yields from a given buffer on; deliveries after an error are never asked for. */
  function Reading<V>(pending: Bytes, deliveries: seq<Delivery>, codec: Codec<V>, cap: nat): seq<Event<V>>
    decreases |deliveries|
  {
    if deliveries == [] then ReadLine(pending, codec).events
    else
      match deliveries[0]
      case Fault(reason) => [Err(Transport(reason))]
      case Chunk(bytes) =>
        var buffer := pending + bytes;
        if |buffer| > cap then [Err(EventTooLarge)]
        else
          var lines := ReadLines(CompleteLines(buffer), codec);
          if lines.stopped then lines.events
          else lines.events + Reading(Tail(buffer), deliveries[1..], codec, cap)
  }

  lemma ThenAssociates<V>(a: Run<V>, b: Run<V>, c: Run<V>)
    ensures a.Then(b).Then(c) == a.Then(b.Then(c))
  {
  }

  lemma ThenFromNothing<V>(a: Run<V>)
    ensures Run([], false).Then(a) == a
  {
  }

  lemma {:induction false} ReadLinesAppend<V>(a: seq<Bytes>, b: seq<Bytes>, codec: Codec<V>)
    ensures ReadLines(a + b, codec) == ReadLines(a, codec).Then(ReadLines(b, codec))
  {
    hide ReadLine, Run.Then;
    if a == [] {
      assert a + b == b;
      ThenFromNothing(ReadLines(b, codec));
    } else {
      assert (a + b)[0] == a[0] && (a + b)[1..] == a[1..] + b;
      ReadLinesAppend(a[1..], b, codec);
      ThenAssociates(ReadLine(a[0], codec), ReadLines(a[1..], codec), ReadLines(b, codec));
    }
  }

  lemma DrainStep<V>(pending: Bytes, codec: Codec<V>)
    requires NewlineAt(pending) < |pending|
    ensures var n := NewlineAt(pending);
            && Tail(pending) == Tail(pending[n + 1..])
            && ReadLines(CompleteLines(pending), codec)
                 == ReadLine(pending[..n + 1], codec).Then(ReadLines(CompleteLines(pending[n + 1..]), codec))
  {
  }

  /** The inner loop: whole lines leave the buffer one at a time, until an error or no newline is left. */
  method DrainLines<V>(buffer: Bytes, codec: Codec<V>) returns (pending: Bytes, run: Run<V>)
    ensures run == ReadLines(CompleteLines(buffer), codec)
    ensures !run.stopped ==> pending == Tail(buffer)
  {
    hide ReadLine, Run.Then, Tail, CompleteLines, ReadLines;
    pending, run := buffer, Run([], false);
    ThenFromNothing(ReadLines(CompleteLines(buffer), codec));
    while true
      invariant !run.stopped && Tail(pending) == Tail(buffer)
      invariant run.Then(ReadLines(CompleteLines(pending), codec)) == ReadLines(CompleteLines(buffer), codec)
      decreases |pending|
    {
      var newline := NewlineAt(pending);
      if newline == |pending| {
        NothingLeft(run, pending, codec);
        return;
      }
      var line := pending[..newline + 1];
      ghost var rest := ReadLines(CompleteLines(pending[newline + 1..]), codec);
      DrainStep(pending, codec);
      ThenAssociates(run, ReadLine(line, codec), rest);
      pending := pending[newline + 1..];
      match ParseDataLine(line, codec) {
        case Ok(Some(event)) =>
          EventRead(run, line, codec);
          run := Run(run.events + [Ok(event)], false);
        case Ok(None) =>
          EventRead(run, line, codec);
        case Err(e) =>
          EventRead(run, line, codec);
          StoppedRun(run.Then(ReadLine(line, codec)), rest);
          run := Run(run.events + [Err(e)], true);
          return;
      }
    }
  }

  lemma EventRead<V>(run: Run<V>, line: Bytes, codec: Codec<V>)
    requires !run.stopped
    ensures run.Then(ReadLine(line, codec)) ==
              match ParseDataLine(line, codec)
              case Ok(Some(event)) => Run(run.events + [Ok(event)], false)
              case Ok(None) => run
              case Err(e) => Run(run.events + [Err(e)], true)
  {
  }

  lemma StoppedRun<V>(run: Run<V>, next: Run<V>)
    requires run.stopped
    ensures run.Then(next) == run
  {
  }

  lemma NothingLeft<V>(run: Run<V>, pending: Bytes, codec: Codec<V>)
    requires !run.stopped && NewlineAt(pending) == |pending|
    ensures Tail(pending) == pending && run.Then(ReadLines(CompleteLines(pending), codec)) == run
  {
  }

  /** The reader: each delivery joins the buffer, which is checked against the cap and then drained. */
  method SseEvents<V>(deliveries: seq<Delivery>, codec: Codec<V>, cap: nat) returns (events: seq<Event<V>>)
    ensures events == Reading([], deliveries, codec, cap)
  {
    hide ReadLines, CompleteLines, ParseDataLine, Tail;
    events := [];
    var pending: Bytes := [];
    var next := 0;
    while next < |deliveries|
      invariant next <= |deliveries|
      invariant NEWLINE !in pending && |pending| <= cap
      invariant Reading([], deliveries, codec, cap) == events + Reading(pending, deliveries[next..], codec, cap)
    {
      var delivery := deliveries[next];
      if delivery.Fault? {
        return events + [Err(Transport(delivery.reason))];
      }
      var buffer := pending + delivery.bytes;
      if |buffer| > cap {
        return events + [Err(EventTooLarge)];
      }
      ghost var before := events;
      var rest, run := DrainLines(buffer, codec);
      events := events + run.events;
      if run.stopped {
        return;
      }
      pending := rest;
      assert deliveries[next..][1..] == deliveries[next + 1..];
      next := next + 1;
      ghost var later := Reading(pending, deliveries[next..], codec, cap);
      assert before + (run.events + later) == before + run.events + later;
    }
    match ParseDataLine(pending, codec) {
      case Ok(Some(event)) => events := events + [Ok(event)];
      case Ok(None) =>
      case Err(e) => events := events + [Err(e)];
    }
  }

  // ----- what one line yields -----

  predicate LineEnds(s: string) {
    forall i | 0 <= i < |s| :: s[i] == '\r' || s[i] == '\n'
  }

  lemma {:induction false} LineEndSplits(s: string) returns (ends: string)
    ensures LineEnds(ends) && s == TrimLineEnd(s) + ends
  {
    ends := "";
    if s != "" && (s[|s| - 1] == '\r' || s[|s| - 1] == '\n') {
      var rest := LineEndSplits(s[..|s| - 1]);
      ends := rest + [s[|s| - 1]];
    }
  }

  /** Taking off line ends neither makes nor breaks the field's name. */
  lemma FieldStays(text: string, field: string, ends: string)
    requires text == field + ends && LineEnds(ends)
    ensures "data:" <= text <==> "data:" <= field
  {
    forall i | |field| <= i < |text| ensures text[i] == '\r' || text[i] == '\n' {
      assert text[i] == ends[i - |field|];
    }
    var next := if |field| < |text| then text[|field|] else '\n';
    assert next == '\r' || next == '\n';
    if "data:" <= text {
      forall i | 0 <= i < 5 ensures text[i] != '\r' && text[i] != '\n' { assert text[i] == "data:"[i]; }
      assert field[..5] == text[..5];
    }
  }

  lemma WhiteAppends(a: string, b: string)
    requires AllWhite(a) && LineEnds(b)
    ensures AllWhite(a + b)
  {
  }

  /** The payload that is parsed: what is left of the field without the white space and line ends around it. */
  lemma PayloadIs(text: string, front: string, payload: string, back: string)
    requires AllWhite(front) && Trimmed(payload) && AllWhite(back) && text == "data:" + front + payload + back
    ensures "data:" <= TrimLineEnd(text) && Trim(TrimLineEnd(text)[5..]) == payload
  {
    hide AllWhite, Trimmed, Trim, TrimLineEnd;
    var ends := LineEndSplits(text);
    var field := TrimLineEnd(text);
    FieldStays(text, field, ends);
    var inner := field[5..];
    var before, after := TrimSplits(inner);
    assert text[5..] == inner + ends && text[5..] == front + payload + back;
    assert inner + ends == before + Trim(inner) + (after + ends);
    WhiteAppends(after, ends);
    TrimTakes(before, Trim(inner), after + ends);
    TrimTakes(front, payload, back);
  }

  /**
   What a line yields. One that is not text fails the stream. One that does not begin with `data:` yields nothing.
   Of any other the part between blanks and line ends is parsed, unless it is empty: its value is the event, and if
   it is not JSON the stream fails.
   */
  lemma LineYields<V>(line: Bytes, codec: Codec<V>, front: string, payload: string, back: string)
    requires AllWhite(front) && Trimmed(payload) && AllWhite(back)
    ensures codec.utf8(line) == None ==> ReadLine(line, codec) == Run([Err(NotUtf8)], true)
    ensures codec.utf8(line).Some? && !("data:" <= codec.utf8(line).value) ==> ReadLine(line, codec) == Run([], false)
    ensures codec.utf8(line) == Some("data:" + front + payload + back) ==>
              ReadLine(line, codec) ==
                if payload == "" then Run([], false)
                else match codec.json(payload)
                     case Ok(v) => Run([Ok(v)], false)
                     case Err(e) => Run([Err(MalformedEvent(e))], true)
  {
    hide AllWhite, Trimmed, Trim, TrimLineEnd;
    if codec.utf8(line).Some? {
      var text := codec.utf8(line).value;
      var ends := LineEndSplits(text);
      FieldStays(text, TrimLineEnd(text), ends);
      if text == "data:" + front + payload + back { PayloadIs(text, front, payload, back); }
    }
  }

  /** Every line that begins with `data:` has these parts. */
  lemma DataLineSplits(text: string) returns (front: string, payload: string, back: string)
    requires "data:" <= text
    ensures AllWhite(front) && Trimmed(payload) && AllWhite(back) && text == "data:" + front + payload + back
  {
    hide AllWhite, Trimmed, Trim;
    front, back := TrimSplits(text[5..]);
    payload := Trim(text[5..]);
    assert text == "data:" + text[5..];
  }

  /** A body without a final newline: its only line counts, and one that is not JSON is an error, never a clean end. */
  lemma LastLineCounts<V>(line: Bytes, codec: Codec<V>, front: string, payload: string, back: string, cap: nat)
    requires NEWLINE !in line && |line| <= cap && codec.utf8(line) == Some("data:" + front + payload + back)
    requires AllWhite(front) && Trimmed(payload) && AllWhite(back) && payload != ""
    ensures forall v :: Reading([], [Chunk(line)], codec, cap) == [Ok(v)] <==> codec.json(payload) == Ok(v)
    ensures forall e ::
              Reading([], [Chunk(line)], codec, cap) == [Err(MalformedEvent(e))] <==> codec.json(payload) == Err(e)
  {
    hide AllWhite, Trimmed, ReadLine;
    LineYields(line, codec, front, payload, back);
    assert NewlineAt([] + line) == |line|;
    assert [] + line == line;
    SplitStep(line);
    assert Reading([], [Chunk(line)], codec, cap) == ReadLine(line, codec).events;
  }

  // ----- chunking does not matter -----

  /** Splitting a longer buffer drains what the shorter one did, then goes on from its tail. */
  lemma {:induction false} SplitGrows(s: Bytes, t: Bytes)
    ensures CompleteLines(s + t) == CompleteLines(s) + CompleteLines(Tail(s) + t)
    ensures Tail(s + t) == Tail(Tail(s) + t)
    decreases |s|
  {
    hide CompleteLines, Tail, NewlineAt;
    var n := NewlineAt(s);
    SplitStep(s);
    if n < |s| {
      NewlineStays(s, t);
      assert (s + t)[..n + 1] == s[..n + 1] && (s + t)[n + 1..] == s[n + 1..] + t;
      SplitStep(s + t);
      SplitGrows(s[n + 1..], t);
      assert [s[..n + 1]] + CompleteLines(s[n + 1..]) + CompleteLines(Tail(s) + t)
          == [s[..n + 1]] + (CompleteLines(s[n + 1..]) + CompleteLines(Tail(s) + t));
    }
  }

  lemma NewlineStays(s: Bytes, t: Bytes)
    requires NewlineAt(s) < |s|
    ensures NewlineAt(s + t) == NewlineAt(s)
  {
    var n, m := NewlineAt(s), NewlineAt(s + t);
    assert (s + t)[n] == s[n];
    forall i | 0 <= i < n ensures (s + t)[i] != NEWLINE { assert (s + t)[i] == s[i]; }
  }

  function Body(deliveries: seq<Delivery>): Bytes {
    if deliveries == [] then []
    else (match deliveries[0] case Chunk(bytes) => bytes case Fault(_) => []) + Body(deliveries[1..])
  }

  lemma {:induction false} BodyGrows(deliveries: seq<Delivery>, i: nat)
    requires i < |deliveries| && deliveries[i].Chunk?
    ensures Body(deliveries[..i + 1]) == Body(deliveries[..i]) + deliveries[i].bytes
  {
    if i == 0 {
      assert deliveries[..1] == [deliveries[0]] && deliveries[..1][1..] == [];
    } else {
      assert deliveries[..i + 1][1..] == deliveries[1..][..i] && deliveries[..i][1..] == deliveries[1..][..i - 1];
      BodyGrows(deliveries[1..], i - 1);
    }
  }

  /** Delivery k ends the stream: it is a failure, or it overfills the buffer beside the unfinished line. */
  predicate Trips(deliveries: seq<Delivery>, k: nat, cap: nat)
    requires k < |deliveries|
  {
    deliveries[k].Fault? || |Tail(Body(deliveries[..k]))| + |deliveries[k].bytes| > cap
  }

  function TripError(delivery: Delivery): StreamError {
    if delivery.Fault? then Transport(delivery.reason) else EventTooLarge
  }

  lemma {:induction false} ReadingUnfolds<V>(pending: Bytes, deliveries: seq<Delivery>, codec: Codec<V>, cap: nat)
    requires deliveries != [] && deliveries[0].Chunk? && |pending + deliveries[0].bytes| <= cap
    ensures var buffer := pending + deliveries[0].bytes;
            var lines := ReadLines(CompleteLines(buffer), codec);
            Reading(pending, deliveries, codec, cap) ==
              if lines.stopped then lines.events else lines.events + Reading(Tail(buffer), deliveries[1..], codec, cap)
  {
    hide ReadLines, CompleteLines, Tail;
  }

  /** After i untripped deliveries the reader has yielded the lines of their body and buffers its tail. */
  lemma {:induction false} ReadingAfter<V>(deliveries: seq<Delivery>, i: nat, codec: Codec<V>, cap: nat)
    requires i <= |deliveries| && forall j | 0 <= j < i :: !Trips(deliveries, j, cap)
    ensures var lines := ReadLines(CompleteLines(Body(deliveries[..i])), codec);
            Reading([], deliveries, codec, cap) ==
              if lines.stopped then lines.events
              else lines.events + Reading(Tail(Body(deliveries[..i])), deliveries[i..], codec, cap)
  {
    hide ReadLines, CompleteLines, ReadLine, Tail, Reading;
    if i == 0 {
      EmptyBody(codec);
      assert deliveries[0..] == deliveries;
      assert deliveries[..0] == [];
    } else {
      var k := i - 1;
      ReadingAfter(deliveries, k, codec, cap);
      assert !Trips(deliveries, k, cap);
      var body, bytes := Body(deliveries[..k]), deliveries[k].bytes;
      BodyGrows(deliveries, k);
      SplitGrows(body, bytes);
      ReadLinesAppend(CompleteLines(body), CompleteLines(Tail(body) + bytes), codec);
      assert deliveries[k..][0] == deliveries[k] && deliveries[k..][1..] == deliveries[i..];
      ReadingUnfolds(Tail(body), deliveries[k..], codec, cap);
      var first, second := ReadLines(CompleteLines(body), codec), ReadLines(CompleteLines(Tail(body) + bytes), codec);
      var later := Reading(Tail(Tail(body) + bytes), deliveries[i..], codec, cap);
      assert first.events + (second.events + later) == first.events + second.events + later;
    }
  }

  /** What the reader buffers between deliveries: an unfinished line within the cap. */
  lemma BufferIsBounded(deliveries: seq<Delivery>, i: nat, cap: nat)
    requires i <= |deliveries| && forall j | 0 <= j < i :: !Trips(deliveries, j, cap)
    ensures var buffer := Tail(Body(deliveries[..i])); NEWLINE !in buffer && |buffer| <= cap
  {
    hide Tail, CompleteLines;
    if i == 0 {
      assert deliveries[..0] == [];
    } else {
      assert !Trips(deliveries, i - 1, cap);
      BodyGrows(deliveries, i - 1);
      SplitGrows(Body(deliveries[..i - 1]), deliveries[i - 1].bytes);
    }
  }

  lemma EmptyBody<V>(codec: Codec<V>)
    ensures ReadLines(CompleteLines([]), codec) == Run([], false) && Tail([]) == [] && Body([]) == []
  {
  }

  /** However the body was cut: an untripped reading is the one-pass reading. */
  lemma ReaderIsOnePass<V>(deliveries: seq<Delivery>, codec: Codec<V>, cap: nat)
    requires forall j | 0 <= j < |deliveries| :: !Trips(deliveries, j, cap)
    ensures Reading([], deliveries, codec, cap) == OnePass(Body(deliveries), codec)
  {
    hide CompleteLines, ReadLine, Tail;
    var n := |deliveries|;
    ReadingAfter(deliveries, n, codec, cap);
    assert deliveries[..n] == deliveries && deliveries[n..] == [];
    var body := Body(deliveries);
    ReadLinesAppend(CompleteLines(body), [Tail(body)], codec);
    OneLine(Tail(body), codec);
  }

  lemma OneLine<V>(line: Bytes, codec: Codec<V>)
    ensures ReadLines([line], codec) == ReadLine(line, codec)
  {
  }

  /** Two cuttings of one body, neither of which trips the cap, read alike. */
  lemma ChunkingDoesNotMatter<V>(one: seq<Delivery>, other: seq<Delivery>, codec: Codec<V>, cap: nat)
    requires Body(one) == Body(other)
    requires forall j | 0 <= j < |one| :: !Trips(one, j, cap)
    requires forall j | 0 <= j < |other| :: !Trips(other, j, cap)
    ensures Reading([], one, codec, cap) == Reading([], other, codec, cap)
  {
    ReaderIsOnePass(one, codec, cap);
    ReaderIsOnePass(other, codec, cap);
  }

  /**
   A tripped stream yields the complete lines of everything delivered before the trip, and then the
   trip's error, unless one of those lines already ended it.
   */
  lemma ReaderStopsAtTrip<V>(deliveries: seq<Delivery>, k: nat, codec: Codec<V>, cap: nat)
    requires k < |deliveries| && Trips(deliveries, k, cap)
    requires forall j | 0 <= j < k :: !Trips(deliveries, j, cap)
    ensures Reading([], deliveries, codec, cap) ==
              ReadLines(CompleteLines(Body(deliveries[..k])),
                  codec).Then(Run([Err(TripError(deliveries[k]))], true)).events
  {
    hide CompleteLines, ReadLine, Tail;
    ReadingAfter(deliveries, k, codec, cap);
    assert deliveries[k..][0] == deliveries[k];
  }

  /** An error is the last thing a stream yields. */
  lemma {:induction false} NothingAfterAnError<V>(pending: Bytes, deliveries: seq<Delivery>, codec: Codec<V>, cap: nat)
    ensures forall i | 0 <= i < |Reading(pending, deliveries, codec, cap)| - 1 ::
            Reading(pending, deliveries, codec, cap)[i].Ok?
    decreases |deliveries|
  {
    hide CompleteLines, ParseDataLine, Tail, ReadLines;
    if deliveries != [] && deliveries[0].Chunk? {
      var buffer := pending + deliveries[0].bytes;
      LinesUpToAnError(CompleteLines(buffer), codec);
      NothingAfterAnError(Tail(buffer), deliveries[1..], codec, cap);
    }
  }

  lemma {:induction false} LinesUpToAnError<V>(lines: seq<Bytes>, codec: Codec<V>)
    ensures var run := ReadLines(lines, codec);
            && (forall i | 0 <= i < |run.events| :: run.events[i].Ok? || i == |run.events| - 1)
            && (!run.stopped ==> forall i | 0 <= i < |run.events| :: run.events[i].Ok?)
            && (run.stopped ==> run.events != [] && run.events[|run.events| - 1].Err?)
  {
    hide ParseDataLine;
    if lines != [] { LinesUpToAnError(lines[1..], codec); }
  }
}
