/** The synchronization client: sends an artifact's candidates in batches and reports one outcome each. */
module Synchronization {
  import opened Wrappers
  import opened Ingestion
  import opened Arithmetic
  import opened Counting

  /** An element of a reply's outcome list; reading a member of `Null` throws. */
  datatype Remote = Null | Remote(candidateId: Option<string>, status: Option<string>, message: Option<string>)

  /**
   What a batch was answered. Failed stands for a network error, a timeout, an error status, an oversized
   or unparsable body; a body without an outcome list is Parsed(None).
   */
  datatype Reply = Failed | Parsed(outcomes: Option<seq<Remote>>)

  datatype SyncOutcome = SyncOutcome(candidateId: string, status: Status, message: Option<string>)

  datatype Found = Throws | Missing | Match(status: Option<string>, message: Option<string>)

  /** The first element that names the candidate. */
  function Find(items: seq<Remote>, id: string): Found {
    if items == [] then Missing
    else if items[0].Null? then Throws
    else if items[0].candidateId == Some(id) then Match(items[0].status, items[0].message)
    else Find(items[1..], id)
  }

  function Lookup(reply: Reply, id: string): Found
    requires reply.Parsed?
  {
    match reply.outcomes case None => Missing case Some(items) => Find(items, id)
  }

  function Truncated(s: string): string {
    if |s| > 256 then s[..256] else s
  }

  /** A status as it is sent. */
  function Word(status: Status): string {
    match status
    case Accepted => "accepted"
    case Duplicate => "duplicate"
    case Rejected => "rejected"
    case Retryable => "retryable"
    case Unsupported => "unsupported"
  }

  /** A final status; any other text, or none, can be tried again. */
  function FinalStatus(text: Option<string>): Status {
    if text == Some("accepted") then Accepted
    else if text == Some("duplicate") then Duplicate
    else if text == Some("rejected") then Rejected
    else if text == Some("unsupported") then Unsupported
    else Retryable
  }

  lemma WordsAreRead(status: Status)
    ensures FinalStatus(Some(Word(status))) == status
  {
  }

  lemma FinalIsWord(text: Option<string>)
    ensures FinalStatus(text) != Retryable ==> text == Some(Word(FinalStatus(text)))
  {
  }

  /** What a reply says of a candidate: a final status is taken over, everything else can be tried again. */
  function Read(found: Found, id: string): SyncOutcome
    requires !found.Throws?
  {
    match found
    case Missing => SyncOutcome(id, Retryable, None)
    case Match(status, message) =>
      SyncOutcome(id, FinalStatus(status), match message case Some(text) => Some(Truncated(text)) case None => None)
  }

  /** A reply is read as a whole or not at all. */
  predicate Usable(reply: Reply, ids: seq<string>) {
    reply.Parsed? && forall id | id in ids :: !Lookup(reply, id).Throws?
  }

  function OutcomeIn(reply: Reply, ids: seq<string>, id: string): SyncOutcome
    requires id in ids
  {
    if Usable(reply, ids) then Read(Lookup(reply, id), id) else SyncOutcome(id, Retryable, None)
  }

  function Min(a: nat, b: nat): nat { if a < b then a else b }

  /** The k-th batch of the artifact. */
  function Slice<T>(items: seq<T>, size: nat, k: nat): seq<T> {
    var from := Min(k * size, |items|);
    items[from..Min(from + size, |items|)]
  }

  datatype SynchronizationReport = SynchronizationReport(crawlId: string, contentIdentity: string, batches: nat,
      outcomes: seq<SyncOutcome>, counters: map<Status, nat>)

  /** How many outcomes have the status. */
  function Tally(outcomes: seq<SyncOutcome>, status: Status): nat {
    CountIf(outcomes, (o: SyncOutcome) => o.status == status)
  }

  const NO_COUNTS: map<Status, nat> :=
      map[Accepted := 0, Duplicate := 0, Rejected := 0, Retryable := 0, Unsupported := 0]

  /** Each candidate's outcome is what the reply to its batch says of it. */
  ghost predicate Answered(ids: seq<string>, size: nat, reply: nat -> Reply, outcomes: seq<SyncOutcome>)
    requires size > 0
  {
    && |outcomes| <= |ids|
    && forall i | 0 <= i < |outcomes| ::
         && ids[i] in Slice(ids, size, i / size)
         && outcomes[i] == OutcomeIn(reply(i / size), Slice(ids, size, i / size), ids[i])
  }

  class SynchronizationClient {
    const maxBatchSize: nat

    constructor (maxBatchSize: nat)
      requires maxBatchSize > 0
      ensures this.maxBatchSize == maxBatchSize
    {
      this.maxBatchSize := maxBatchSize;
    }

    /** The outcomes of one batch; the list built before an exception is dropped with it. */
    method ReadReply(reply: Reply, ids: seq<string>) returns (outcomes: seq<SyncOutcome>)
      ensures |outcomes| == |ids| && forall i | 0 <= i < |ids| :: outcomes[i] == OutcomeIn(reply, ids, ids[i])
    {
      outcomes := [];
      if reply.Parsed? {
        var i := 0;
        while i < |ids| && !Lookup(reply, ids[i]).Throws?
          invariant 0 <= i <= |ids| == |ids| && |outcomes| == i
          invariant forall j | 0 <= j < i ::
                    !Lookup(reply, ids[j]).Throws? && outcomes[j] == Read(Lookup(reply, ids[j]), ids[j])
        {
          outcomes := outcomes + [Read(Lookup(reply, ids[i]), ids[i])];
          i := i + 1;
        }
        if i == |ids| { return; }
        assert ids[i] in ids;
      }
      outcomes := seq(|ids|, i requires 0 <= i < |ids| => SyncOutcome(ids[i], Retryable, None));
    }

    method SendBatches(ids: seq<string>, reply: nat -> Reply) returns (batches: nat, outcomes: seq<SyncOutcome>)
      requires maxBatchSize > 0
      ensures batches == (|ids| + maxBatchSize - 1) / maxBatchSize
      ensures |outcomes| == |ids| && Answered(ids, maxBatchSize, reply, outcomes)
    {
      hide Answered;
      batches, outcomes := 0, [];
      NothingAnswered(ids, maxBatchSize, reply);
      var offset := 0;
      while offset < |ids|
        invariant Sent(maxBatchSize, |ids|, batches, offset, |outcomes|)
        invariant Answered(ids, maxBatchSize, reply, outcomes)
        decreases |ids| - offset
      {
        var batch := ids[offset..Min(offset + maxBatchSize, |ids|)];
        var read := ReadReply(reply(batches), batch);
        AnsweredStep(ids, maxBatchSize, reply, batches, outcomes, read);
        SentStep(maxBatchSize, |ids|, batches, offset, |outcomes|);
        batches, outcomes, offset := batches + 1, outcomes + read, offset + maxBatchSize;
      }
    }

    method Count(outcomes: seq<SyncOutcome>) returns (counters: map<Status, nat>)
      ensures counters.Keys == NO_COUNTS.Keys
      ensures forall status | status in NO_COUNTS :: counters[status] == Tally(outcomes, status)
    {
      counters := NO_COUNTS;
      for i := 0 to |outcomes|
        invariant counters.Keys == NO_COUNTS.Keys
        invariant forall status | status in NO_COUNTS :: counters[status] == Tally(outcomes[..i], status)
      {
        assert outcomes[..i + 1][..i] == outcomes[..i];
        var status := outcomes[i].status;
        assert status.Accepted? || status.Duplicate? || status.Rejected? || status.Retryable? || status.Unsupported?;
        counters := counters[status := counters[status] + 1];
      }
      assert outcomes[..|outcomes|] == outcomes;
    }

    method Synchronize(crawlId: string, contentIdentity: string, ids: seq<string>, reply: nat -> Reply)
        returns (report: SynchronizationReport)
      requires maxBatchSize > 0
      ensures report.crawlId == crawlId && report.contentIdentity == contentIdentity
      ensures report.batches == (|ids| + maxBatchSize - 1) / maxBatchSize
      ensures |report.outcomes| == |ids| && Answered(ids, maxBatchSize, reply, report.outcomes)
      ensures report.counters.Keys == NO_COUNTS.Keys
      ensures forall status | status in NO_COUNTS :: report.counters[status] == Tally(report.outcomes, status)
    {
      hide Answered, Tally;
      var batches, outcomes := SendBatches(ids, reply);
      var counters := Count(outcomes);
      report := SynchronizationReport(crawlId, contentIdentity, batches, outcomes, counters);
    }
  }

  /** Where the loop stands after so many batches. */
  ghost predicate Sent(size: nat, n: nat, batches: nat, offset: nat, done: nat)
    requires size > 0
  {
    offset == batches * size && done == Min(offset, n) && batches == (done + size - 1) / size
  }

  lemma SentStep(size: nat, n: nat, batches: nat, offset: nat, done: nat)
    requires size > 0 && Sent(size, n, batches, offset, done) && offset < n
    ensures Sent(size, n, batches + 1, offset + size, Min(offset + size, n))
    ensures done == batches * size
  {
    CountsBatches(size, batches, Min(offset + size, n));
  }

  lemma NothingAnswered(ids: seq<string>, size: nat, reply: nat -> Reply)
    requires size > 0
    ensures Answered(ids, size, reply, [])
  {
  }

  lemma CountsBatches(size: nat, k: nat, n: nat)
    requires size > 0 && k * size < n <= k * size + size
    ensures (n + size - 1) / size == k + 1
  {
    QuotientIs(size, k + 1, n + size - 1);
  }

  lemma AnsweredStep(ids: seq<string>, size: nat, reply: nat -> Reply, k: nat, before: seq<SyncOutcome>,
      read: seq<SyncOutcome>)
    requires size > 0 && |before| == k * size < |ids| && Answered(ids, size, reply, before)
    requires var batch := ids[k * size..Min(k * size + size, |ids|)];
             |read| == |batch| && forall i | 0 <= i < |batch| :: read[i] == OutcomeIn(reply(k), batch, batch[i])
    ensures Answered(ids, size, reply, before + read)
  {
    hide OutcomeIn;
    var batch := ids[k * size..Min(k * size + size, |ids|)];
    assert Slice(ids, size, k) == batch;
    var outcomes := before + read;
    forall i | 0 <= i < |outcomes|
      ensures ids[i] in Slice(ids, size, i / size)
              && outcomes[i] == OutcomeIn(reply(i / size), Slice(ids, size, i / size), ids[i])
    {
      if i >= |before| {
        QuotientIs(size, k, i);
        assert ids[i] == batch[i - |before|];
      }
    }
  }

  // ----- what the report means -----

  lemma {:induction false} TalliesSum(outcomes: seq<SyncOutcome>)
    ensures Tally(outcomes, Accepted) + Tally(outcomes, Duplicate) + Tally(outcomes, Rejected)
            + Tally(outcomes, Retryable) + Tally(outcomes, Unsupported) == |outcomes|
  {
    if outcomes != [] { TalliesSum(outcomes[..|outcomes| - 1]); }
  }

  /**
   Whatever was answered: one outcome per candidate, in the artifact's order, and counters that sum to their number.
   */
  lemma EveryCandidateIsReported(ids: seq<string>, size: nat, reply: nat -> Reply, outcomes: seq<SyncOutcome>)
    requires size > 0 && |outcomes| == |ids| && Answered(ids, size, reply, outcomes)
    ensures forall i | 0 <= i < |ids| :: outcomes[i].candidateId == ids[i]
    ensures Tally(outcomes, Accepted) + Tally(outcomes, Duplicate) + Tally(outcomes, Rejected)
            + Tally(outcomes, Retryable) + Tally(outcomes, Unsupported) == |ids|
  {
    TalliesSum(outcomes);
  }

  /** A status other than retryable was said of that very candidate, in a reply to a batch that held it. */
  lemma {:induction false} FindIsFirst(items: seq<Remote>, id: string)
    ensures match Find(items, id)
            case Match(status, message) => exists i | 0 <= i < |items| :: items[i] == Remote(Some(id), status, message)
                                             && forall j | 0 <= j < i ::
                                                items[j].Remote? && items[j].candidateId != Some(id)
            case Missing => forall j | 0 <= j < |items| :: items[j].Remote? && items[j].candidateId != Some(id)
            case Throws => exists i | 0 <= i < |items| :: items[i].Null? && forall j | 0 <= j < i ::
                items[j].Remote? && items[j].candidateId != Some(id)
  {
    if items != [] && items[0].Remote? && items[0].candidateId != Some(id) {
      var rest := items[1..];
      FindIsFirst(rest, id);
      match Find(rest, id) {
        case Match(status, message) =>
          var i :| 0 <= i < |rest| && rest[i] == Remote(Some(id), status, message)
                   && forall j | 0 <= j < i :: rest[j].Remote? && rest[j].candidateId != Some(id);
          assert items[i + 1] == rest[i];
          forall j | 0 <= j < i + 1 ensures items[j].Remote? && items[j].candidateId != Some(id) {
            if j > 0 { assert items[j] == rest[j - 1]; }
          }
        case Missing =>
          forall j | 0 <= j < |items| ensures items[j].Remote? && items[j].candidateId != Some(id) {
            if j > 0 { assert items[j] == rest[j - 1]; }
          }
        case Throws =>
          var i :| 0 <= i < |rest| && rest[i].Null? && forall j | 0 <= j < i ::
              rest[j].Remote? && rest[j].candidateId != Some(id);
          assert items[i + 1].Null?;
          forall j | 0 <= j < i + 1 ensures items[j].Remote? && items[j].candidateId != Some(id) {
            if j > 0 { assert items[j] == rest[j - 1]; }
          }
      }
    }
  }

  // ----- what an outcome says -----

  /** The first element that names the candidate has this status and message, and no null stands before it. */
  ghost predicate Named(items: seq<Remote>, id: string, status: Option<string>, message: Option<string>) {
    exists i | 0 <= i < |items| ::
      items[i] == Remote(Some(id), status, message)
      && forall j | 0 <= j < i :: items[j].Remote? && items[j].candidateId != Some(id)
  }

  /** A null stands before any element that names the candidate. */
  ghost predicate Blocked(items: seq<Remote>, id: string) {
    exists i | 0 <= i < |items| ::
      items[i].Null? && forall j | 0 <= j < i :: items[j].Remote? && items[j].candidateId != Some(id)
  }

  lemma FindSays(items: seq<Remote>, id: string)
    ensures Blocked(items, id) <==> Find(items, id).Throws?
    ensures forall status, message :: Named(items, id, status, message) <==> Find(items, id) == Match(status, message)
  {
    FindIsFirst(items, id);
    forall status, message | Named(items, id, status, message) ensures Find(items, id) == Match(status, message) {
      var i :| 0 <= i < |items| && items[i] == Remote(Some(id), status, message)
               && forall j | 0 <= j < i :: items[j].Remote? && items[j].candidateId != Some(id);
      FoundAt(items, id, i);
    }
    if Blocked(items, id) {
      var i :| 0 <= i < |items| && items[i].Null?
               && forall j | 0 <= j < i :: items[j].Remote? && items[j].candidateId != Some(id);
      FoundAt(items, id, i);
    }
  }

  lemma {:induction false} FoundAt(items: seq<Remote>, id: string, i: nat)
    requires i < |items| && forall j | 0 <= j < i :: items[j].Remote? && items[j].candidateId != Some(id)
    ensures items[i].Null? ==> Find(items, id) == Throws
    ensures items[i].Remote? && items[i].candidateId == Some(id) ==>
              Find(items, id) == Match(items[i].status, items[i].message)
  {
    if i > 0 { FoundAt(items[1..], id, i - 1); }
  }

  /** Every candidate of the k-th batch can be looked for in the list. */
  ghost predicate Legible(ids: seq<string>, size: nat, k: nat, items: seq<Remote>)
    requires size > 0
  {
    forall j | 0 <= j < |ids| && j / size == k :: !Blocked(items, ids[j])
  }

  lemma SliceHas(ids: seq<string>, size: nat, k: nat, id: string)
    requires size > 0
    ensures id in Slice(ids, size, k) <==> exists j | 0 <= j < |ids| && j / size == k :: ids[j] == id
  {
    var from := Min(k * size, |ids|);
    var batch := Slice(ids, size, k);
    if id in batch {
      var i :| 0 <= i < |batch| && batch[i] == id;
      QuotientIs(size, k, from + i);
      assert ids[from + i] == id;
    }
    if j :| 0 <= j < |ids| && j / size == k && ids[j] == id {
      AtQuotient(size, j);
      assert batch[j - from] == id;
    }
  }

  lemma AtQuotient(size: nat, j: nat)
    requires size > 0
    ensures j / size * size <= j < j / size * size + size
  {
  }

  lemma LegibleIsUsable(ids: seq<string>, size: nat, k: nat, reply: Reply)
    requires size > 0 && reply.Parsed? && reply.outcomes.Some?
    ensures Usable(reply, Slice(ids, size, k)) <==> Legible(ids, size, k, reply.outcomes.value)
  {
    hide Blocked, Find, Slice;
    var items := reply.outcomes.value;
    forall id ensures Blocked(items, id) <==> Find(items, id).Throws? { FindSays(items, id); }
    forall id ensures id in Slice(ids, size, k) <==> exists j | 0 <= j < |ids| && j / size == k :: ids[j] == id {
      SliceHas(ids, size, k, id);
    }
    if Legible(ids, size, k, items) {
      forall id | id in Slice(ids, size, k) ensures !Lookup(reply, id).Throws? {
        var j :| 0 <= j < |ids| && j / size == k && ids[j] == id;
      }
    }
    if Usable(reply, Slice(ids, size, k)) {
      forall j | 0 <= j < |ids| && j / size == k ensures !Blocked(items, ids[j]) {
        assert !Lookup(reply, ids[j]).Throws?;
      }
    }
  }

  /** The outcome has this status if it is final, and the beginning of this message. */
  predicate Carries(o: SyncOutcome, status: Option<string>, message: Option<string>) {
    && (o.status == Accepted <==> status == Some("accepted"))
    && (o.status == Duplicate <==> status == Some("duplicate"))
    && (o.status == Rejected <==> status == Some("rejected"))
    && (o.status == Unsupported <==> status == Some("unsupported"))
    && match message
       case None => o.message == None
       case Some(text) =>
         o.message.Some? && o.message.value <= text && |o.message.value| == if |text| < 256 then |text| else 256
  }

  lemma ReadCarries(status: Option<string>, message: Option<string>, id: string)
    ensures Carries(Read(Match(status, message), id), status, message)
  {
  }

  /** The list that answered a batch, if every candidate of the batch can be looked for in it. */
  ghost predicate Tells(reply: Reply, ids: seq<string>, size: nat, k: nat, items: seq<Remote>)
    requires size > 0
  {
    reply == Parsed(Some(items)) && Legible(ids, size, k, items)
  }

  lemma ReplySays(reply: Reply, ids: seq<string>, size: nat, k: nat, id: string)
    requires size > 0 && id in Slice(ids, size, k)
    ensures match OutcomeSource(reply, ids, size, k, id)
            case Some((status, message)) => Carries(OutcomeIn(reply, Slice(ids, size, k), id), status, message)
            case None => OutcomeIn(reply, Slice(ids, size, k), id) == SyncOutcome(id, Retryable, None)
  {
    hide Legible, Named, Blocked, Find, Slice, Read, Carries;
    if reply.Parsed? && reply.outcomes.Some? {
      var items := reply.outcomes.value;
      FindSays(items, id);
      LegibleIsUsable(ids, size, k, reply);
      match Find(items, id)
      case Match(status, message) => ReadCarries(status, message, id);
      case _ => NothingRead(id);
    } else {
      NothingRead(id);
    }
  }

  lemma NothingRead(id: string)
    ensures Read(Missing, id) == SyncOutcome(id, Retryable, None)
  {
  }

  /** Status and message of the element that decides, if there is one. */
  function OutcomeSource(reply: Reply, ids: seq<string>, size: nat, k: nat, id: string):
      Option<(Option<string>, Option<string>)>
  {
    if !Usable(reply, Slice(ids, size, k)) || reply.outcomes.None? then None
    else match Find(reply.outcomes.value, id)
         case Match(status, message) => Some((status, message))
         case _ => None
  }

  lemma SourceIsNamed(reply: Reply, ids: seq<string>, size: nat, k: nat, id: string)
    requires size > 0
    ensures forall items, status, message | Tells(reply, ids, size, k, items) && Named(items, id, status, message) ::
              OutcomeSource(reply, ids, size, k, id) == Some((status, message))
    ensures OutcomeSource(reply, ids, size, k, id).Some? ==>
              exists items, status, message :: Tells(reply, ids, size, k, items) && Named(items, id, status, message)
  {
    hide Legible, Named, Blocked, Find, Slice;
    if reply.Parsed? && reply.outcomes.Some? {
      var items := reply.outcomes.value;
      FindSays(items, id);
      LegibleIsUsable(ids, size, k, reply);
      if OutcomeSource(reply, ids, size, k, id).Some? {
        var (status, message) := OutcomeSource(reply, ids, size, k, id).value;
        assert Tells(reply, ids, size, k, items) && Named(items, id, status, message);
      }
    }
  }

  /**
   Where a batch was answered with a list in which every candidate of the batch can be looked for, and an element names
   this one, the outcome has the status sent there if that is final, and the beginning of the message sent there. In
   every other case it can be tried again.
   */
  ghost predicate SaidBy(reply: Reply, ids: seq<string>, size: nat, k: nat, id: string, o: SyncOutcome)
    requires size > 0
  {
    && (forall items, status, message | Tells(reply, ids, size, k, items) && Named(items, id, status, message) ::
          Carries(o, status, message))
    && ((forall items, status, message :: Tells(reply, ids, size, k, items) ==> !Named(items, id, status, message)) ==>
          o == SyncOutcome(id, Retryable, None))
  }

  lemma ReplyDecides(reply: Reply, ids: seq<string>, size: nat, k: nat, id: string)
    requires size > 0 && id in Slice(ids, size, k)
    ensures SaidBy(reply, ids, size, k, id, OutcomeIn(reply, Slice(ids, size, k), id))
  {
    hide Tells, Named, OutcomeIn, OutcomeSource, Slice, Carries;
    ReplySays(reply, ids, size, k, id);
    SourceIsNamed(reply, ids, size, k, id);
  }

  /** What is reported of a candidate: what the reply to its own batch says of it. */
  lemma OutcomeSays(ids: seq<string>, size: nat, reply: nat -> Reply, outcomes: seq<SyncOutcome>, i: nat, k: nat)
    requires size > 0 && k == i / size && i < |outcomes| == |ids|
    requires Answered(ids, size, reply, outcomes)
    ensures outcomes[i].candidateId == ids[i] && SaidBy(reply(k), ids, size, k, ids[i], outcomes[i])
  {
    hide *;
    OutcomeNames(ids, size, reply, outcomes, i, k);
    ReplyDecides(reply(k), ids, size, k, ids[i]);
  }

  lemma OutcomeNames(ids: seq<string>, size: nat, reply: nat -> Reply, outcomes: seq<SyncOutcome>, i: nat, k: nat)
    requires size > 0 && i < |outcomes| <= |ids| && Answered(ids, size, reply, outcomes) && k == i / size
    ensures ids[i] in Slice(ids, size, k) && outcomes[i].candidateId == ids[i]
    ensures outcomes[i] == OutcomeIn(reply(k), Slice(ids, size, k), ids[i])
  {
  }
}
