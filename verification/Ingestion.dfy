/**
 The ingestion service: one transaction stages a batch of candidates row by row, catching what goes
 wrong with a candidate, and a crawl that was seen before is answered from what was stored.
 */
module Ingestion {
  import opened Wrappers
  import opened Counting
  import Purl

  // ----- what a request carries -----

  /** A candidate's `candidate_id`: absent, a string, a number's text, or a value PHP cannot print. */
  datatype IdField = NoId | TextId(s: string) | NumberId(text: string) | Unprintable

  /** A member of a JSON object: null, a scalar's text, or a list of texts. */
  datatype Member = NullMember | TextMember(s: string) | ListMember(items: seq<string>)

  /** An entry of the observation list, its members by the names they were sent under. */
  datatype Observation = NoObject | Object(members: map<string, Member>)

  /** The members that every candidate must have. */
  const REQUIRED_MEMBERS: set<string> :=
    {"candidate_id", "ecosystem", "purl", "name", "evidence_ids", "rank", "detections", "resolution"}

  /** An entry of the candidate list; `names` are those of its members. */
  datatype Candidate =
    | NotAnObject
    | Fields(id: IdField, names: set<string>, purl: Option<Purl.Purl>, evidenceIds: Option<seq<string>>,
             detections: Option<seq<Option<seq<string>>>>, observations: seq<Observation>)

  datatype Envelope = Envelope(
    artifactKind: string, schemaVersion: string, crawlId: string, contentIdentity: string,
    candidates: seq<Candidate>, evidence: seq<string>)

  // ----- the tables -----

  datatype Batch = Batch(id: nat, crawlId: string, contentIdentity: string, processed: bool)
  datatype Staged = Staged(id: nat, batchId: nat, candidateId: string)
  datatype EvidenceRow = EvidenceRow(batchId: nat, stagedId: nat, evidenceId: string)
  datatype ObservationRow = ObservationRow(batchId: nat, stagedId: nat, kind: string, sourceId: string)
  datatype Outcome = Outcome(batchId: nat, stagedId: Option<nat>, candidateId: string, accepted: bool)

  datatype Store = Store(
    batches: seq<Batch>, staged: seq<Staged>, evidence: seq<EvidenceRow>, observations: seq<ObservationRow>,
    outcomes: seq<Outcome>)

  const EMPTY_STORE: Store := Store([], [], [], [], [])

  /** Inserts fail on the unique keys of the migration. */
  function WithBatch(db: Store, crawlId: string, contentIdentity: string): Option<Store> {
    if exists b | b in db.batches :: b.crawlId == crawlId && b.contentIdentity == contentIdentity then None
    else Some(db.(batches := db.batches + [Batch(|db.batches|, crawlId, contentIdentity, false)]))
  }

  function WithStaged(db: Store, batchId: nat, candidateId: string): Option<Store> {
    if exists s | s in db.staged :: s.batchId == batchId && s.candidateId == candidateId then None
    else Some(db.(staged := db.staged + [Staged(|db.staged|, batchId, candidateId)]))
  }

  function WithEvidence(db: Store, batchId: nat, stagedId: nat, evidenceId: string): Option<Store> {
    if exists e | e in db.evidence :: e.batchId == batchId && e.evidenceId == evidenceId then None
    else Some(db.(evidence := db.evidence + [EvidenceRow(batchId, stagedId, evidenceId)]))
  }

  function TextOf(members: map<string, Member>, name: string): Option<string> {
    if name in members && members[name].TextMember? then Some(members[name].s) else None
  }

  /** Kind and source of an observation. A missing member is an exception, and so is a null where the table has none. */
  function ReadObservation(o: Observation): Option<(string, string)> {
    if o.NoObject? then None
    else
      match (TextOf(o.members, "kind"), TextOf(o.members, "sourceId"))
      case (Some(kind), Some(sourceId)) =>
        if "value" in o.members && "evidenceIds" in o.members && o.members["evidenceIds"] != NullMember
            then Some((kind, sourceId)) else None
      case _ => None
  }

  function WithObservation(db: Store, batchId: nat, stagedId: nat, o: Observation): Option<Store> {
    match ReadObservation(o)
    case None => None
    case Some((kind, sourceId)) =>
      Some(db.(observations := db.observations + [ObservationRow(batchId, stagedId, kind, sourceId)]))
  }

  function WithOutcome(db: Store, batchId: nat, stagedId: Option<nat>, candidateId: string,
      accepted: bool): Option<Store> {
    if exists o | o in db.outcomes :: o.batchId == batchId && o.candidateId == candidateId then None
    else Some(db.(outcomes := db.outcomes + [Outcome(batchId, stagedId, candidateId, accepted)]))
  }

  // ----- one candidate -----

  /** The id an outcome is recorded under; none when converting it to a string already fails. */
  function OutcomeId(c: Candidate): Option<string> {
    match c
    case NotAnObject => Some("unknown")
    case Fields(NoId, _, _, _, _, _) => Some("unknown")
    case Fields(TextId(s), _, _, _, _, _) => Some(s)
    case Fields(NumberId(text), _, _, _, _, _) => Some(text)
    case Fields(Unprintable, _, _, _, _, _) => None
  }

  predicate AllKnown(ids: seq<string>, known: seq<string>) {
    forall id | id in ids :: id in known
  }

  /** Complete, named by its own PURL as PHP prints it, and with resolved evidence throughout. */
  predicate ValidCandidate(c: Candidate, known: seq<string>) {
    && c.Fields? && REQUIRED_MEMBERS <= c.names && c.purl.Some? && c.id == TextId(Purl.PhpIdentity(c.purl.value))
    && c.evidenceIds.Some? && AllKnown(c.evidenceIds.value, known)
    && c.detections.Some? && forall d | d in c.detections.value :: d.Some? && AllKnown(d.value, known)
  }

  /** The envelope's evidence that the candidate refers to, inserted until one insert fails. */
  function StageEvidence(db: Store, batchId: nat, stagedId: nat, items: seq<string>, wanted: seq<string>): (Store, bool)
    decreases |items|
  {
    if items == [] then (db, true)
    else if items[0] !in wanted then StageEvidence(db, batchId, stagedId, items[1..], wanted)
    else
      match WithEvidence(db, batchId, stagedId, items[0])
      case None => (db, false)
      case Some(next) => StageEvidence(next, batchId, stagedId, items[1..], wanted)
  }

  function StageObservations(db: Store, batchId: nat, stagedId: nat, observations: seq<Observation>): (Store, bool)
    decreases |observations|
  {
    if observations == [] then (db, true)
    else
      match WithObservation(db, batchId, stagedId, observations[0])
      case None => (db, false)
      case Some(next) => StageObservations(next, batchId, stagedId, observations[1..])
  }

  /** The guarded part: the rows it got to insert stay, whether or not it reaches its end. */
  function TryCandidate(db: Store, batchId: nat, known: seq<string>, c: Candidate, id: string): (Store, bool) {
    if !ValidCandidate(c, known) then (db, false)
    else
      match WithStaged(db, batchId, c.id.s)
      case None => (db, false)
      case Some(d1) =>
        var (d2, evidenceDone) := StageEvidence(d1, batchId, |db.staged|, known, c.evidenceIds.value);
        if !evidenceDone then (d2, false)
        else
          var (d3, observationsDone) := StageObservations(d2, batchId, |db.staged|, c.observations);
          if !observationsDone then (d3, false)
          else
            match WithOutcome(d3, batchId, Some(|db.staged|), id, true)
            case None => (d3, false)
            case Some(d4) => (d4, true)
  }

  /** A candidate that fails is recorded as rejected; if even that fails, the transaction does. */
  function ProcessCandidate(db: Store, batchId: nat, known: seq<string>, c: Candidate): Option<Store> {
    match OutcomeId(c)
    case None => None
    case Some(id) =>
      var (tried, done) := TryCandidate(db, batchId, known, c, id);
      if done then Some(tried) else WithOutcome(tried, batchId, None, id, false)
  }

  function ProcessAll(db: Store, batchId: nat, known: seq<string>, candidates: seq<Candidate>): Option<Store> {
    if candidates == [] then Some(db)
    else
      match ProcessAll(db, batchId, known, candidates[..|candidates| - 1])
      case None => None
      case Some(next) => ProcessCandidate(next, batchId, known, candidates[|candidates| - 1])
  }

  // ----- one request -----

  predicate IdChar(c: char) {
    'a' <= c <= 'z' || 'A' <= c <= 'Z' || '0' <= c <= '9'
  }

  /** PHP's `$` also matches before a final newline. */
  function BeforeFinalNewline(s: string): string {
    if s != "" && s[|s| - 1] == '\n' then s[..|s| - 1] else s
  }

  predicate ValidCrawlId(s: string) {
    var t := BeforeFinalNewline(s);
    1 <= |t| <= 128 && IdChar(t[0]) && forall i | 1 <= i < |t| :: IdChar(t[i]) || t[i] in "._-"
  }

  predicate ValidContentIdentity(s: string) {
    var t := BeforeFinalNewline(s);
    "sha256:" <= t && |t| == 71 && forall i | 7 <= i < 71 :: '0' <= t[i] <= '9' || 'a' <= t[i] <= 'f'
  }

  predicate DistinctIds(ids: seq<string>) {
    forall i, j | 0 <= i < j < |ids| :: ids[i] != ids[j]
  }

  /** What must hold of the envelope before anything is stored; `clean` is the scan for credentials. */
  predicate ValidEnvelope(env: Envelope, maxCandidates: nat, clean: Envelope -> bool) {
    && env.artifactKind == "candidate-ingestion" && env.schemaVersion == "candidate-ingestion/1.0"
    && ValidCrawlId(env.crawlId) && ValidContentIdentity(env.contentIdentity)
    && |env.candidates| <= maxCandidates && DistinctIds(env.evidence) && clean(env)
  }

  function FindBatch(batches: seq<Batch>, crawlId: string): (r: Option<Batch>)
    ensures r.Some? ==> r.value in batches && r.value.crawlId == crawlId
    ensures r.None? ==> forall b | b in batches :: b.crawlId != crawlId
  {
    if batches == [] then None
    else if batches[0].crawlId == crawlId then Some(batches[0])
    else FindBatch(batches[1..], crawlId)
  }

  function OutcomesOf(outcomes: seq<Outcome>, batchId: nat): seq<Outcome> {
    if outcomes == [] then []
    else OutcomesOf(outcomes[..|outcomes| - 1], batchId)
         + if outcomes[|outcomes| - 1].batchId == batchId then [outcomes[|outcomes| - 1]] else []
  }

  datatype Status = Accepted | Duplicate | Rejected | Retryable | Unsupported
  datatype Reported = Reported(candidateId: string, status: Status)
  datatype Response = Response(batchId: nat, crawlId: string, contentIdentity: string, counts: map<Status, nat>,
      outcomes: seq<Reported>)

  function StatusOf(o: Outcome, replay: bool): Status {
    if !o.accepted then Rejected else if replay then Duplicate else Accepted
  }

  function Report(outcomes: seq<Outcome>, replay: bool): (r: seq<Reported>)
    ensures |r| == |outcomes|
  {
    seq(|outcomes|, i requires 0 <= i < |outcomes| => Reported(outcomes[i].candidateId, StatusOf(outcomes[i], replay)))
  }

  function HasStatus(status: Status): Reported -> bool {
    (r: Reported) => r.status == status
  }

  function CountOf(reported: seq<Reported>, status: Status): nat {
    CountIf(reported, HasStatus(status))
  }

  function Counts(reported: seq<Reported>): map<Status, nat> {
    map status | status in {Accepted, Duplicate, Rejected, Retryable, Unsupported} :: CountOf(reported, status)
  }

  lemma NothingCounted()
    ensures Counts([]) == map[Accepted := 0, Duplicate := 0, Rejected := 0, Retryable := 0, Unsupported := 0]
  {
  }

  lemma CountsGrow(reported: seq<Reported>, i: nat)
    requires i < |reported|
    ensures var counts, status := Counts(reported[..i]), reported[i].status;
            status in counts && Counts(reported[..i + 1]) == counts[status := counts[status] + 1]
  {
    assert reported[..i + 1][..i] == reported[..i];
    var status := reported[i].status;
    assert status.Accepted? || status.Duplicate? || status.Rejected? || status.Retryable? || status.Unsupported?;
  }

  function ResponseFor(db: Store, batch: Batch, replay: bool): Response {
    var reported := Report(OutcomesOf(db.outcomes, batch.id), replay);
    Response(batch.id, batch.crawlId, batch.contentIdentity, Counts(reported), reported)
  }

  datatype IngestError = InvalidEnvelope | CrawlBoundToAnotherArtifact | TransactionFailed

  /** The transaction: either the whole new store, or nothing. */
  function Commit(db: Store, env: Envelope): Option<Store> {
    match WithBatch(db, env.crawlId, env.contentIdentity)
    case None => None
    case Some(begun) =>
      match ProcessAll(begun, |db.batches|, env.evidence, env.candidates)
      case None => None
      case Some(filled) =>
        Some(filled.(batches := db.batches + [Batch(|db.batches|, env.crawlId, env.contentIdentity, true)]))
  }

  function Serve(db: Store, env: Envelope, maxCandidates: nat,
      clean: Envelope -> bool): (Store, Result<Response, IngestError>) {
    if !ValidEnvelope(env, maxCandidates, clean) then (db, Err(InvalidEnvelope))
    else
      match FindBatch(db.batches, env.crawlId)
      case Some(batch) =>
        if batch.contentIdentity != env.contentIdentity then (db, Err(CrawlBoundToAnotherArtifact))
        else (db, Ok(ResponseFor(db, batch, true)))
      case None =>
        match Commit(db, env)
        case None => (db, Err(TransactionFailed))
        case Some(next) => (next, Ok(ResponseFor(next, next.batches[|db.batches|], false)))
  }

  /** Once a candidate broke the transaction, no later one mends it. */
  lemma {:induction false} FailureIsFinal(db: Store, batchId: nat, known: seq<string>, candidates: seq<Candidate>,
      n: nat)
    requires n <= |candidates| && ProcessAll(db, batchId, known, candidates[..n]).None?
    ensures ProcessAll(db, batchId, known, candidates).None?
    decreases |candidates|
  {
    hide ProcessCandidate;
    if n < |candidates| {
      var front := candidates[..|candidates| - 1];
      assert front[..n] == candidates[..n];
      FailureIsFinal(db, batchId, known, front, n);
    } else {
      assert candidates[..n] == candidates;
    }
  }

  /** Rows were added for one batch only, and no batch row changed. */
  ghost predicate AddsOnly(db: Store, next: Store, batchId: nat) {
    && next.batches == db.batches
    && db.staged <= next.staged
    && (forall i | |db.staged| <= i < |next.staged| :: next.staged[i].batchId == batchId && next.staged[i].id == i)
    && db.evidence <= next.evidence
    && (forall i | |db.evidence| <= i < |next.evidence| :: next.evidence[i].batchId == batchId)
    && db.observations <= next.observations
    && (forall i | |db.observations| <= i < |next.observations| :: next.observations[i].batchId == batchId)
    && db.outcomes <= next.outcomes
    && (forall i | |db.outcomes| <= i < |next.outcomes| :: next.outcomes[i].batchId == batchId)
  }

  lemma {:induction false} EvidenceAddsOnly(db: Store, batchId: nat, stagedId: nat, items: seq<string>,
      wanted: seq<string>)
    ensures AddsOnly(db, StageEvidence(db, batchId, stagedId, items, wanted).0, batchId)
    ensures StageEvidence(db, batchId, stagedId, items, wanted).0.staged == db.staged
    ensures StageEvidence(db, batchId, stagedId, items, wanted).0.outcomes == db.outcomes
    decreases |items|
  {
    if items != [] {
      if items[0] !in wanted {
        EvidenceAddsOnly(db, batchId, stagedId, items[1..], wanted);
      } else {
        match WithEvidence(db, batchId, stagedId, items[0])
        case None =>
        case Some(next) => EvidenceAddsOnly(next, batchId, stagedId, items[1..], wanted);
      }
    }
  }

  lemma {:induction false} ObservationsAddOnly(db: Store, batchId: nat, stagedId: nat, observations: seq<Observation>)
    ensures AddsOnly(db, StageObservations(db, batchId, stagedId, observations).0, batchId)
    ensures StageObservations(db, batchId, stagedId, observations).0.staged == db.staged
    ensures StageObservations(db, batchId, stagedId, observations).0.outcomes == db.outcomes
    decreases |observations|
  {
    if observations != [] {
      match WithObservation(db, batchId, stagedId, observations[0])
      case None =>
      case Some(next) => ObservationsAddOnly(next, batchId, stagedId, observations[1..]);
    }
  }

  /** What one candidate leaves behind: at most one staged row, and an accepted outcome only if it got to the end. */
  lemma TryAddsOnly(db: Store, batchId: nat, known: seq<string>, c: Candidate, id: string)
    ensures var (next, done) := TryCandidate(db, batchId, known, c, id);
            && AddsOnly(db, next, batchId)
            && (next.staged == db.staged
               || (ValidCandidate(c, known) && next.staged == db.staged + [Staged(|db.staged|, batchId, c.id.s)]))
            && (done ==> ValidCandidate(c, known) && |next.staged| == |db.staged| + 1
                         && next.outcomes == db.outcomes + [Outcome(batchId, Some(|db.staged|), id, true)]
                         && WithOutcome(db, batchId, None, id, false).Some?)
            && (!done ==> next.outcomes == db.outcomes)
  {
    hide ValidCandidate, StageEvidence, StageObservations;
    if ValidCandidate(c, known) {
      ValidIsFields(c, known);
      match WithStaged(db, batchId, c.id.s) {
        case None =>
        case Some(d1) =>
          EvidenceAddsOnly(d1, batchId, |db.staged|, known, c.evidenceIds.value);
          var (d2, _) := StageEvidence(d1, batchId, |db.staged|, known, c.evidenceIds.value);
          ObservationsAddOnly(d2, batchId, |db.staged|, c.observations);
      }
    }
  }

  lemma ValidIsFields(c: Candidate, known: seq<string>)
    requires ValidCandidate(c, known)
    ensures c.Fields? && c.id.TextId? && c.evidenceIds.Some? && OutcomeId(c) == Some(c.id.s)
  {
  }

  /** An accepted outcome points at the row staged with it, under the same id; a rejected one points nowhere. */
  predicate AcceptedHasRow(db: Store, next: Store, o: Outcome) {
    && (o.accepted ==>
          && o.stagedId == Some(|db.staged|)
          && next.staged == db.staged + [Staged(|db.staged|, o.batchId, o.candidateId)])
    && (!o.accepted ==> o.stagedId == None)
  }

  /**
   A candidate adds exactly one outcome, under its id; it breaks the transaction when that id is taken or unprintable.
   */
  lemma ProcessAddsOneOutcome(db: Store, batchId: nat, known: seq<string>, c: Candidate)
    ensures ProcessCandidate(db, batchId, known, c).Some? <==>
              OutcomeId(c).Some? && forall o | o in db.outcomes && o.batchId == batchId ::
                  o.candidateId != OutcomeId(c).value
    ensures match ProcessCandidate(db, batchId, known, c)
            case None => true
            case Some(next) =>
              && AddsOnly(db, next, batchId) && |next.outcomes| == |db.outcomes| + 1
              && next.outcomes[|db.outcomes|].candidateId == OutcomeId(c).value
              && AcceptedHasRow(db, next, next.outcomes[|db.outcomes|])
  {
    hide TryCandidate, ValidCandidate;
    if OutcomeId(c).Some? {
      var id := OutcomeId(c).value;
      TryAddsOnly(db, batchId, known, c, id);
      var (tried, done) := TryCandidate(db, batchId, known, c, id);
      if done { ValidIsFields(c, known); }
    }
  }

  lemma {:induction false} BatchesUntouched(db: Store, batchId: nat, known: seq<string>, candidates: seq<Candidate>)
    ensures match ProcessAll(db, batchId, known, candidates) case None => true
            case Some(next) => AddsOnly(db, next, batchId)
    decreases |candidates|
  {
    hide ProcessCandidate;
    if candidates != [] {
      var front := candidates[..|candidates| - 1];
      BatchesUntouched(db, batchId, known, front);
      match ProcessAll(db, batchId, known, front)
      case None =>
      case Some(next) =>
        ProcessAddsOneOutcome(next, batchId, known, candidates[|candidates| - 1]);
    }
  }

  // ----- the service -----

  class CandidateIngestionService {
    var db: Store
    const maxCandidates: nat
    const clean: Envelope -> bool

    constructor (maxCandidates: nat, clean: Envelope -> bool)
      ensures db == EMPTY_STORE && this.maxCandidates == maxCandidates && this.clean == clean
    {
      db := EMPTY_STORE;
      this.maxCandidates := maxCandidates;
      this.clean := clean;
    }

    /** An insert: the row, or a violated unique key and no change. */
    method Insert(row: Option<Store>) returns (ok: bool)
      modifies this
      ensures ok == row.Some? && db == (if row.Some? then row.value else old(db))
    {
      if row.Some? { db := row.value; }
      ok := row.Some?;
    }

    method Stage(batchId: nat, known: seq<string>, c: Candidate, id: string) returns (done: bool)
      modifies this
      ensures (db, done) == TryCandidate(old(db), batchId, known, c, id)
    {
      if !ValidCandidate(c, known) { return false; }
      var stagedId := |db.staged|;
      var ok := Insert(WithStaged(db, batchId, c.id.s));
      if !ok { return false; }
      var d1 := db;
      for i := 0 to |known|
        invariant StageEvidence(db, batchId, stagedId, known[i..], c.evidenceIds.value) ==
            StageEvidence(d1, batchId, stagedId, known, c.evidenceIds.value)
      {
        assert known[i..][0] == known[i] && known[i..][1..] == known[i + 1..];
        if known[i] in c.evidenceIds.value {
          ok := Insert(WithEvidence(db, batchId, stagedId, known[i]));
          if !ok { return false; }
        }
      }
      var d2 := db;
      for i := 0 to |c.observations|
        invariant StageObservations(db, batchId, stagedId, c.observations[i..])
                  == StageObservations(d2, batchId, stagedId, c.observations)
      {
        assert c.observations[i..][0] == c.observations[i] && c.observations[i..][1..] == c.observations[i + 1..];
        ok := Insert(WithObservation(db, batchId, stagedId, c.observations[i]));
        if !ok { return false; }
      }
      done := Insert(WithOutcome(db, batchId, Some(stagedId), id, true));
    }

    /** One round of the loop: the guarded part, and the handler that records a rejection. */
    method Handle(batchId: nat, known: seq<string>, c: Candidate) returns (ok: bool)
      modifies this
      ensures ok == ProcessCandidate(old(db), batchId, known, c).Some?
      ensures ok ==> db == ProcessCandidate(old(db), batchId, known, c).value
    {
      hide TryCandidate, WithOutcome;
      var id := OutcomeId(c);
      if id.None? { return false; }
      var done := Stage(batchId, known, c, id.value);
      if done { return true; }
      ok := Insert(WithOutcome(db, batchId, None, id.value, false));
    }

    /** The transaction's body; false stands for an exception that leaves it. */
    method FillBatch(env: Envelope) returns (ok: bool)
      modifies this
      ensures ok == Commit(old(db), env).Some?
      ensures ok ==> db == Commit(old(db), env).value
    {
      hide ProcessCandidate;
      var batchId := |db.batches|;
      ok := Insert(WithBatch(db, env.crawlId, env.contentIdentity));
      if !ok { return; }
      ghost var begun := db;
      for i := 0 to |env.candidates|
        invariant ProcessAll(begun, batchId, env.evidence, env.candidates[..i]) == Some(db)
      {
        assert env.candidates[..i + 1][..i] == env.candidates[..i];
        ok := Handle(batchId, env.evidence, env.candidates[i]);
        if !ok {
          FailureIsFinal(begun, batchId, env.evidence, env.candidates, i + 1);
          return false;
        }
      }
      assert env.candidates[..|env.candidates|] == env.candidates;
      BatchesUntouched(begun, batchId, env.evidence, env.candidates);
      db := db.(batches := db.batches[batchId := db.batches[batchId].(processed := true)]);
      return true;
    }

    method ResponseForBatch(batch: Batch, replay: bool) returns (r: Response)
      ensures r == ResponseFor(db, batch, replay)
    {
      hide Counts;
      var reported := Report(OutcomesOf(db.outcomes, batch.id), replay);
      NothingCounted();
      var counts: map<Status, nat> :=
          map[Accepted := 0, Duplicate := 0, Rejected := 0, Retryable := 0, Unsupported := 0];
      for i := 0 to |reported|
        invariant counts == Counts(reported[..i])
      {
        CountsGrow(reported, i);
        counts := counts[reported[i].status := counts[reported[i].status] + 1];
      }
      assert reported[..|reported|] == reported;
      r := Response(batch.id, batch.crawlId, batch.contentIdentity, counts, reported);
    }

    /** One request, served alone. */
    method Ingest(env: Envelope) returns (r: Result<Response, IngestError>)
      modifies this
      ensures (db, r) == Serve(old(db), env, maxCandidates, clean)
    {
      if !ValidEnvelope(env, maxCandidates, clean) {
        return Err(InvalidEnvelope);
      }
      var existing := FindBatch(db.batches, env.crawlId);
      if existing.Some? {
        if existing.value.contentIdentity != env.contentIdentity {
          return Err(CrawlBoundToAnotherArtifact);
        }
        var replayed := ResponseForBatch(existing.value, true);
        return Ok(replayed);
      }
      var before := db;
      var ok := FillBatch(env);
      if !ok {
        db := before;
        return Err(TransactionFailed);
      }
      var response := ResponseForBatch(db.batches[|before.batches|], false);
      return Ok(response);
    }
  }
}
