/**
 Client, network and ingestion service together. The network may lose a request or its reply, and other
 requests are served between the client's own.
 */
module Protocol {
  import opened Wrappers
  import opened Candidates
  import opened Ingestion
  import opened IngestionProperties
  import opened Acceptance
  import opened Synchronization
  import opened Arithmetic
  import Entries
  import Purl

  datatype Artifact = Artifact(crawlId: string, contentIdentity: string, candidates: seq<PackageCandidate>,
      evidence: seq<Evidence>)

  // ----- what the client puts on the wire -----

  function TransportDetections(detections: seq<Detection>): (r: seq<Option<seq<string>>>)
    ensures |r| == |detections|
  {
    seq(|detections|, i requires 0 <= i < |detections| => Some(detections[i].evidenceIds))
  }

  /** An observation as the client sends it, under these member names. */
  function TransportObservation(o: CandidateObservation): Observation {
    Object(map["kind" := TextMember(o.kind), "value" := TextMember(o.value), "source_id" := TextMember(o.sourceId),
               "evidence_ids" := ListMember(o.evidenceIds)])
  }

  function TransportObservations(observations: seq<CandidateObservation>): (r: seq<Observation>)
    ensures |r| == |observations|
  {
    seq(|observations|, i requires 0 <= i < |observations| => TransportObservation(observations[i]))
  }

  /** The members that every candidate has on the wire. */
  const SENT_MEMBERS: set<string> :=
    {"candidate_id", "ecosystem", "purl", "name", "evidence_ids", "rank", "detections", "resolution"}

  function TransportCandidate(c: PackageCandidate): Candidate {
    Fields(TextId(c.candidateId), SENT_MEMBERS, Some(c.purl), Some(c.evidenceIds),
        Some(TransportDetections(c.detections)), match c.observations case None => []
        case Some(observations) => TransportObservations(observations))
  }

  /** What the client sends as `source_id` the service looks for as `sourceId`: it can read none of the observations. */
  lemma ObservationsAreUnreadable(o: CandidateObservation)
    ensures ReadObservation(TransportObservation(o)) == None
  {
    assert "sourceId" !in TransportObservation(o).members;
  }

  function TransportAll(candidates: seq<PackageCandidate>): (r: seq<Candidate>)
    ensures |r| == |candidates|
    ensures forall i | 0 <= i < |r| :: r[i] == TransportCandidate(candidates[i])
  {
    seq(|candidates|, i requires 0 <= i < |candidates| => TransportCandidate(candidates[i]))
  }

  /** A batch goes out under the identity of the whole artifact, with all of its evidence. */
  function TransportEnvelope(a: Artifact, batch: seq<PackageCandidate>): Envelope {
    Envelope("candidate-ingestion", "candidate-ingestion/1.0", a.crawlId, a.contentIdentity, TransportAll(batch),
        EvidenceIds(a.evidence))
  }

  /** What the service asks of a candidate that the scraper's own validator let through. */
  ghost predicate Transportable(c: PackageCandidate, known: seq<string>) {
    Purl.Portable(c.purl) && AllKnown(c.evidenceIds, known) && forall i | 0 <= i < |c.detections| ::
        AllKnown(c.detections[i].evidenceIds, known)
  }

  /**
   A candidate under its own identity arrives valid exactly when its PURL is portable and its evidence and
   its detections' evidence are known; its observations can be read exactly when it has none.
   */
  lemma ArrivesValid(c: PackageCandidate, known: seq<string>, le: Entries.Collation)
    requires Purl.ValidKind(c.purl.kind) && c.candidateId == Purl.CandidateIdentity(c.purl, le)
    ensures ValidCandidate(TransportCandidate(c), known) <==> Transportable(c, known)
    ensures Readable(TransportCandidate(c).observations) <==> (c.observations == None || c.observations == Some([]))
  {
    hide Purl.CandidateIdentity, Purl.PhpIdentity, Purl.Portable, AllKnown, Purl.ValidKind;
    Purl.LanguagesAgreeOnPortablePurls(c.purl, le);
    var wire := TransportDetections(c.detections);
    forall i | 0 <= i < |c.detections| ensures wire[i] == Some(c.detections[i].evidenceIds) && wire[i] in wire {}
    match c.observations {
      case None =>
      case Some(observations) =>
        var read := TransportCandidate(c).observations;
        assert |read| == |observations|;
        if observations != [] {
          ObservationsAreUnreadable(observations[0]);
          assert read[0] == TransportObservation(observations[0]) && read[0] in read;
        }
    }
  }

  // ----- the network -----

  datatype Fate = RequestLost | ReplyLost | Delivered

  datatype Server = Server(maxCandidates: nat, clean: Envelope -> bool)

  /** The text itself, or the text before one final newline, as PHP's `$` allows. */
  predicate Ends(s: string, t: string) {
    s == t || s == t + "\n"
  }

  /** Letters, digits, and after the first character dots, underscores and hyphens; at most 128 characters. */
  predicate CrawlName(t: string) {
    && 1 <= |t| <= 128
    && forall i | 0 <= i < |t| ::
         'A' <= t[i] <= 'Z' || 'a' <= t[i] <= 'z' || '0' <= t[i] <= '9' || (i > 0 && t[i] in "._-")
  }

  /** `sha256:` and 64 lower-case hexadecimal digits. */
  predicate HashName(t: string) {
    && |t| == 71 && t[..7] == "sha256:"
    && forall i | 7 <= i < 71 :: '0' <= t[i] <= '9' || 'a' <= t[i] <= 'f'
  }

  lemma CrawlIdIsName(s: string)
    ensures ValidCrawlId(s) <==> exists t :: Ends(s, t) && CrawlName(t)
  {
    var t := BeforeFinalNewline(s);
    EndsBefore(s);
    CrawlNames(s);
    hide CrawlName, Ends, ValidCrawlId, BeforeFinalNewline;
    if CrawlName(t) { assert Ends(s, t) && CrawlName(t); }
    if u :| Ends(s, u) && CrawlName(u) { assert u == t; }
  }

  lemma CrawlNames(s: string)
    ensures ValidCrawlId(s) <==> CrawlName(BeforeFinalNewline(s))
    ensures forall t | CrawlName(t) :: t != "" && t[|t| - 1] != '\n'
  {
    hide BeforeFinalNewline;
  }

  lemma IdentityIsHash(s: string)
    ensures ValidContentIdentity(s) <==> exists t :: Ends(s, t) && HashName(t)
  {
    var t := BeforeFinalNewline(s);
    EndsBefore(s);
    if ValidContentIdentity(s) { assert Ends(s, t) && HashName(t); }
    if u :| Ends(s, u) && HashName(u) { assert u[|u| - 1] != '\n' && u == t; }
  }

  lemma EndsBefore(s: string)
    ensures Ends(s, BeforeFinalNewline(s))
    ensures forall u | Ends(s, u) && u != "" && u[|u| - 1] != '\n' :: u == BeforeFinalNewline(s)
  {
    if s != "" { assert s == s[..|s| - 1] + [s[|s| - 1]]; }
  }

  /** When the service lets a batch in at all. */
  lemma EnvelopeIsAdmitted(a: Artifact, batch: seq<PackageCandidate>, server: Server)
    ensures ValidEnvelope(TransportEnvelope(a, batch), server.maxCandidates, server.clean) <==>
              && (exists t :: Ends(a.crawlId, t) && CrawlName(t))
              && (exists t :: Ends(a.contentIdentity, t) && HashName(t))
              && |batch| <= server.maxCandidates
              && (forall i, j | 0 <= i < j < |a.evidence| :: a.evidence[i].id != a.evidence[j].id)
              && server.clean(TransportEnvelope(a, batch))
  {
    hide ValidCrawlId, ValidContentIdentity, CrawlName, HashName;
    CrawlIdIsName(a.crawlId);
    IdentityIsHash(a.contentIdentity);
    var ids := EvidenceIds(a.evidence);
    if DistinctIds(ids) {
      forall i, j | 0 <= i < j < |a.evidence| ensures a.evidence[i].id != a.evidence[j].id { assert ids[i] != ids[j]; }
    }
  }

  function RemoteOutcomes(reported: seq<Reported>): (r: seq<Remote>)
    ensures |r| == |reported|
  {
    seq(|reported|, i requires 0 <= i < |reported| =>
        Remote(Some(reported[i].candidateId), Some(Word(reported[i].status)), None))
  }

  /** An error response has another status than 2xx; the client makes no difference between those. */
  function ReplyOf(r: Result<Response, IngestError>): Reply {
    match r case Ok(response) => Parsed(Some(RemoteOutcomes(response.outcomes))) case Err(_) => Failed
  }

  function Exchange(db: Store, env: Envelope, fate: Fate, server: Server): (Store, Reply) {
    if fate.RequestLost? then (db, Failed)
    else
      var (next, r) := Serve(db, env, server.maxCandidates, server.clean);
      (next, if fate.ReplyLost? then Failed else ReplyOf(r))
  }

  /** One call of `synchronize`: what becomes of each batch, and what else is served before the next. */
  datatype Session = Session(db: Store, artifact: Artifact, size: nat, server: Server, fates: nat -> Fate,
      between: nat -> seq<Envelope>)

  function BatchEnvelope(s: Session, k: nat): Envelope {
    TransportEnvelope(s.artifact, Slice(s.artifact.candidates, s.size, k))
  }

  /** The store when batch k is sent. */
  function StoreAt(s: Session, k: nat): Store {
    ServeAll(if k == 0 then s.db else Exchange(StoreAt(s, k - 1), BatchEnvelope(s, k - 1), s.fates(k - 1), s.server).0,
             s.between(k), s.server.maxCandidates, s.server.clean)
  }

  function ReplyAt(s: Session, k: nat): Reply {
    Exchange(StoreAt(s, k), BatchEnvelope(s, k), s.fates(k), s.server).1
  }

  /** The replies the client sees. */
  function Replies(s: Session): nat -> Reply {
    (k: nat) => ReplyAt(s, k)
  }

  lemma ExchangeKeepsSound(db: Store, env: Envelope, fate: Fate, server: Server)
    requires Sound(db)
    ensures var next := Exchange(db, env, fate, server).0; Sound(next) && Grows(db, next)
  {
    hide Serve, Sound, Grows;
    GrowsItself(db);
    ServeKeepsSound(db, env, server.maxCandidates, server.clean);
  }

  lemma {:induction false} StoresGrow(s: Session, j: nat, k: nat)
    requires Sound(s.db) && j <= k
    ensures Sound(StoreAt(s, k)) && Grows(StoreAt(s, j), StoreAt(s, k))
    decreases k
  {
    hide Serve, ServeAll, Exchange, Sound, Grows;
    if j < k || k > 0 {
      if j < k { StoresGrow(s, j, k - 1); } else { StoresGrow(s, k - 1, k - 1); }
      var before := StoreAt(s, k - 1);
      ExchangeKeepsSound(before, BatchEnvelope(s, k - 1), s.fates(k - 1), s.server);
      var after := Exchange(before, BatchEnvelope(s, k - 1), s.fates(k - 1), s.server).0;
      RunKeepsSound(after, s.between(k), s.server.maxCandidates, s.server.clean);
      GrowsTransitive(before, after, StoreAt(s, k));
      if j < k { GrowsTransitive(StoreAt(s, j), before, StoreAt(s, k)); }
      GrowsItself(StoreAt(s, k));
    } else {
      RunKeepsSound(s.db, s.between(0), s.server.maxCandidates, s.server.clean);
      GrowsItself(StoreAt(s, 0));
    }
  }

  // ----- every report is backed by the store -----

  /** Some batch of this crawl and artifact holds a staged row for the candidate. */
  ghost predicate StagedFor(db: Store, crawlId: string, contentIdentity: string, id: string) {
    exists b, row | b in db.batches && row in db.staged ::
      b.crawlId == crawlId && b.contentIdentity == contentIdentity && row.batchId == b.id && row.candidateId == id
  }

  lemma StagedStays(db: Store, next: Store, crawlId: string, contentIdentity: string, id: string)
    requires StagedFor(db, crawlId, contentIdentity, id) && Grows(db, next)
    ensures StagedFor(next, crawlId, contentIdentity, id)
  {
  }

  ghost predicate SaysStored(r: Reported) {
    r.status == Accepted || r.status == Duplicate
  }

  lemma ReportRowIsStored(db: Store, b: Batch, replay: bool, j: nat)
    requires Sound(db) && b in db.batches && j < |OutcomesOf(db.outcomes, b.id)|
    requires SaysStored(Report(OutcomesOf(db.outcomes, b.id), replay)[j])
    ensures StagedFor(db, b.crawlId, b.contentIdentity, Report(OutcomesOf(db.outcomes, b.id), replay)[j].candidateId)
  {
    hide OutcomesOf;
    var rows := OutcomesOf(db.outcomes, b.id);
    OutcomesOfOne(db.outcomes, b.id);
    assert rows[j] in rows && rows[j].batchId == b.id && rows[j].accepted;
    AcceptedIsStagedOnce(db, rows[j]);
  }

  lemma ServedIsStored(db: Store, env: Envelope, maxCandidates: nat, clean: Envelope -> bool, j: nat)
    requires Sound(db)
    requires var (next, r) := Serve(db, env, maxCandidates, clean);
             r.Ok? && j < |r.value.outcomes| && SaysStored(r.value.outcomes[j])
    ensures var (next, r) := Serve(db, env, maxCandidates, clean);
            StagedFor(next, env.crawlId, env.contentIdentity, r.value.outcomes[j].candidateId)
  {
    hide OutcomesOf, Report, Commit, ValidEnvelope, SaysStored, StagedFor, Sound, Counts;
    ServeKeepsSound(db, env, maxCandidates, clean);
    var next := Serve(db, env, maxCandidates, clean).0;
    match FindBatch(db.batches, env.crawlId)
    case Some(b) => ReportRowIsStored(db, b, true, j);
    case None =>
      CommitAddsBatch(db, env);
      ReportRowIsStored(next, next.batches[|db.batches|], false, j);
  }

  lemma CommitAddsBatch(db: Store, env: Envelope)
    requires Sound(db) && Commit(db, env).Some?
    ensures Commit(db, env).value.batches == db.batches + [Batch(|db.batches|, env.crawlId, env.contentIdentity, true)]
  {
    hide Commit;
    CommitKeepsSound(db, env);
  }

  lemma FoundInReply(reported: seq<Reported>, id: string, status: Status)
    requires Find(RemoteOutcomes(reported), id) == Match(Some(Word(status)), None)
    ensures exists j | 0 <= j < |reported| :: reported[j] == Reported(id, status)
  {
    var items := RemoteOutcomes(reported);
    FindIsFirst(items, id);
    var j :| 0 <= j < |items| && items[j] == Remote(Some(id), Some(Word(status)), None);
    WordsAreRead(status);
    WordsAreRead(reported[j].status);
    assert reported[j] == Reported(id, status);
  }

  lemma RemotesCarryNoMessage(reported: seq<Reported>, id: string)
    ensures match Find(RemoteOutcomes(reported), id)
            case Match(status, message) => status.Some? && message == None
            case Missing => true
            case Throws => false
  {
    FindIsFirst(RemoteOutcomes(reported), id);
  }

  lemma ReportedIsStored(db: Store, env: Envelope, fate: Fate, server: Server, ids: seq<string>, id: string)
    requires Sound(db) && id in ids
    requires OutcomeIn(Exchange(db, env, fate, server).1, ids, id).status in {Accepted, Duplicate}
    ensures StagedFor(Exchange(db, env, fate, server).0, env.crawlId, env.contentIdentity, id)
  {
    hide Serve, StagedFor, Sound, Find, RemoteOutcomes;
    var (next, r) := Serve(db, env, server.maxCandidates, server.clean);
    var reported := r.value.outcomes;
    RemotesCarryNoMessage(reported, id);
    var status := OutcomeIn(Exchange(db, env, fate, server).1, ids, id).status;
    FinalIsWord(Find(RemoteOutcomes(reported), id).status);
    FoundInReply(reported, id, status);
    var j :| 0 <= j < |reported| && reported[j] == Reported(id, status);
    ServedIsStored(db, env, server.maxCandidates, server.clean, j);
  }

  /**
   Whatever is lost and whatever else is served: a candidate that the client reports as accepted or duplicate
   has a staged row in a batch of its crawl and artifact, then and ever after.
   */
  lemma ReportsAreBacked(s: Session, outcomes: seq<SyncOutcome>, i: nat, k: nat)
    requires Sound(s.db) && s.size > 0
    requires var ids := IdsOf(s.artifact.candidates);
             i < |outcomes| == |ids| && Answered(ids, s.size, Replies(s), outcomes)
    requires outcomes[i].status in {Accepted, Duplicate} && i / s.size < k
    ensures StagedFor(StoreAt(s, k), s.artifact.crawlId, s.artifact.contentIdentity,
            s.artifact.candidates[i].candidateId)
  {
    hide Exchange, OutcomeIn, StagedFor, Sound, Grows, ServeAll, Slice;
    var ids := IdsOf(s.artifact.candidates);
    var at := i / s.size;
    StoresGrow(s, 0, at);
    var env := BatchEnvelope(s, at);
    ReportedIsStored(StoreAt(s, at), env, s.fates(at), s.server, Slice(ids, s.size, at), ids[i]);
    var after := Exchange(StoreAt(s, at), env, s.fates(at), s.server).0;
    ExchangeKeepsSound(StoreAt(s, at), env, s.fates(at), s.server);
    RunKeepsSound(after, s.between(at + 1), s.server.maxCandidates, s.server.clean);
    StagedStays(after, StoreAt(s, at + 1), s.artifact.crawlId, s.artifact.contentIdentity, ids[i]);
    StoresGrow(s, at + 1, k);
    StagedStays(StoreAt(s, at + 1), StoreAt(s, k), s.artifact.crawlId, s.artifact.contentIdentity, ids[i]);
  }

  // ----- only one batch of an artifact is ever staged -----

  /** Every request about the artifact's crawl is one of its own batches, sent any number of times in any order. */
  ghost predicate OwnBatches(requests: seq<Envelope>, a: Artifact, size: nat) {
    forall i | 0 <= i < |requests| && requests[i].crawlId == a.crawlId :: IsBatch(requests[i], a, size)
  }

  ghost predicate IsBatch(env: Envelope, a: Artifact, size: nat) {
    exists k: nat :: k * size < |a.candidates| && env == TransportEnvelope(a, Slice(a.candidates, size, k))
  }

  ghost predicate HoldsBatch(db: Store, b: Batch, a: Artifact, size: nat, k: nat) {
    && k * size < |a.candidates|
    && StagedIds(db, b.id) == ValidIds(EvidenceIds(a.evidence), TransportAll(Slice(a.candidates, size, k)))
  }

  /** The crawl is new, or its batch holds the valid candidates of one batch of the artifact. */
  ghost predicate HoldsOneBatch(db: Store, a: Artifact, size: nat) {
    match FindBatch(db.batches, a.crawlId)
    case None => true
    case Some(b) => b.contentIdentity == a.contentIdentity && exists k: nat :: HoldsBatch(db, b, a, size, k)
  }

  lemma OtherCrawlLeavesStaged(db: Store, env: Envelope, b: Batch)
    requires Sound(db) && b in db.batches && Commit(db, env).Some?
    ensures StagedIds(Commit(db, env).value, b.id) == StagedIds(db, b.id)
  {
    hide Commit;
    CommitKeepsSound(db, env);
    FoundBatchIs(db, b);
    var next := Commit(db, env).value;
    forall row | row in next.staged && row.batchId == b.id ensures row in db.staged {
      var i :| 0 <= i < |next.staged| && next.staged[i] == row;
      assert next.staged[i] == db.staged[i];
    }
  }

  lemma FoundAfter(db: Store, next: Store, b: Batch)
    requires Sound(next) && next.batches == db.batches + [b]
    ensures FindBatch(next.batches, b.crawlId) == Some(b)
    ensures forall c | c in db.batches :: FindBatch(next.batches, c.crawlId) == Some(c)
    ensures forall crawlId | crawlId != b.crawlId :: FindBatch(db.batches, crawlId) == None ==>
            FindBatch(next.batches, crawlId) == None
  {
    hide FindBatch, Sound;
    assert next.batches[|db.batches|] == b;
    FoundBatchIs(next, b);
    forall c | c in db.batches ensures FindBatch(next.batches, c.crawlId) == Some(c) {
      assert c in next.batches;
      FoundBatchIs(next, c);
    }
  }

  lemma ServeHoldsOneBatch(db: Store, env: Envelope, server: Server, a: Artifact, size: nat)
    requires Sound(db) && HoldsOneBatch(db, a, size)
    requires env.crawlId == a.crawlId ==> IsBatch(env, a, size)
    ensures HoldsOneBatch(Serve(db, env, server.maxCandidates, server.clean).0, a, size)
  {
    hide Commit, FindBatch, StagedIds, ValidIds, TransportEnvelope, Sound, Slice, ResponseFor;
    var next := Serve(db, env, server.maxCandidates, server.clean).0;
    if next != db {
      ServeKeepsSound(db, env, server.maxCandidates, server.clean);
      CommitAddsBatch(db, env);
      var b := Batch(|db.batches|, env.crawlId, env.contentIdentity, true);
      FoundAfter(db, next, b);
      if env.crawlId == a.crawlId {
        BatchIsExact(db, env);
        var k: nat :| k * size < |a.candidates| && env == TransportEnvelope(a, Slice(a.candidates, size, k));
        EnvelopeCarries(a, Slice(a.candidates, size, k));
        assert HoldsBatch(next, b, a, size, k);
      } else if FindBatch(db.batches, a.crawlId).Some? {
        var own := FindBatch(db.batches, a.crawlId).value;
        OtherCrawlLeavesStaged(db, env, own);
        var k: nat :| HoldsBatch(db, own, a, size, k);
        assert HoldsBatch(next, own, a, size, k);
      }
    }
  }

  lemma EnvelopeCarries(a: Artifact, batch: seq<PackageCandidate>)
    ensures var env := TransportEnvelope(a, batch);
            env.evidence == EvidenceIds(a.evidence) && env.candidates == TransportAll(batch)
                && env.contentIdentity == a.contentIdentity
  {
  }

  lemma {:induction false} RunHoldsOneBatch(db: Store, requests: seq<Envelope>, server: Server, a: Artifact, size: nat)
    requires Sound(db) && HoldsOneBatch(db, a, size) && OwnBatches(requests, a, size)
    ensures HoldsOneBatch(ServeAll(db, requests, server.maxCandidates, server.clean), a, size)
    decreases |requests|
  {
    hide Serve, Sound, HoldsOneBatch, IsBatch;
    if requests != [] {
      var next := Serve(db, requests[0], server.maxCandidates, server.clean).0;
      ServeKeepsSound(db, requests[0], server.maxCandidates, server.clean);
      ServeHoldsOneBatch(db, requests[0], server, a, size);
      assert OwnBatches(requests[1..], a, size) by {
        forall i | 0 <= i < |requests[1..]| && requests[1..][i].crawlId == a.crawlId
          ensures IsBatch(requests[1..][i], a, size)
        {
          assert requests[1..][i] == requests[i + 1];
        }
      }
      RunHoldsOneBatch(next, requests[1..], server, a, size);
    }
  }

  lemma ValidOnes(known: seq<string>, batch: seq<PackageCandidate>, id: string)
    requires forall c | c in batch :: ValidCandidate(TransportCandidate(c), known)
    ensures id in ValidIds(known, TransportAll(batch)) <==> id in IdsOf(batch)
  {
    hide ValidCandidate;
    var wire := TransportAll(batch);
    if id in IdsOf(batch) {
      var i :| 0 <= i < |batch| && IdsOf(batch)[i] == id;
      assert batch[i] in batch;
      assert wire[i] in wire && wire[i].id.s == id;
    }
    if id in ValidIds(known, wire) {
      var c :| c in wire && ValidCandidate(c, known) && c.id.s == id;
      var i :| 0 <= i < |wire| && wire[i] == c;
      assert IdsOf(batch)[i] == id;
    }
  }

  lemma SomeoneIsLeftOut(candidates: seq<PackageCandidate>, size: nat, k: nat)
    requires size > 0 && |candidates| > size && k * size < |candidates| && DistinctIds(IdsOf(candidates))
    ensures exists i | 0 <= i < |candidates| :: candidates[i].candidateId !in IdsOf(Slice(candidates, size, k))
  {
    var i := if k == 0 then size else 0;
    if k > 0 { AtLeast(size, k); }
    var slice := Slice(candidates, size, k);
    forall j | 0 <= j < |slice| ensures IdsOf(slice)[j] != candidates[i].candidateId {
      var at := k * size + j;
      assert slice[j] == candidates[at] && at != i;
      assert IdsOf(candidates)[at] != IdsOf(candidates)[i];
    }
    assert candidates[i].candidateId !in IdsOf(slice);
  }

  lemma OneBatchIsAll(candidates: seq<PackageCandidate>, size: nat, k: nat)
    requires size > 0 && |candidates| <= size && k * size < |candidates|
    ensures Slice(candidates, size, k) == candidates
  {
    if k > 0 { AtLeast(size, k); }
  }

  /**
   An artifact of valid candidates, its batches sent in any order and as often as one likes among any other
   requests: once its crawl is stored, all its candidates are staged exactly when they fit one batch. With
   more, the first batch to commit takes the crawl and every other is answered as a replay of it.
   */
  lemma AllStagedExactlyWhenOneBatch(db: Store, requests: seq<Envelope>, server: Server, a: Artifact, size: nat,
      b: Batch)
    requires Sound(db) && FindBatch(db.batches, a.crawlId) == None && size > 0 && OwnBatches(requests, a, size)
    requires DistinctIds(IdsOf(a.candidates))
    requires forall c | c in a.candidates :: ValidCandidate(TransportCandidate(c), EvidenceIds(a.evidence))
    requires FindBatch(ServeAll(db, requests, server.maxCandidates, server.clean).batches, a.crawlId) == Some(b)
    ensures var next := ServeAll(db, requests, server.maxCandidates, server.clean);
            (forall c | c in a.candidates :: c.candidateId in StagedIds(next, b.id)) <==> |a.candidates| <= size
  {
    hide Sound, OwnBatches, ServeAll, FindBatch, StagedIds, ValidIds, ValidCandidate, Slice, DistinctIds,
         TransportCandidate, IdsOf;
    RunHoldsOneBatch(db, requests, server, a, size);
    var next := ServeAll(db, requests, server.maxCandidates, server.clean);
    var known := EvidenceIds(a.evidence);
    var k: nat :| HoldsBatch(next, b, a, size, k);
    var batch := Slice(a.candidates, size, k);
    forall c | c in batch ensures c in a.candidates { SliceIsPart(a.candidates, size, k, c); }
    forall c | c in a.candidates ensures c.candidateId in StagedIds(next, b.id) <==> c.candidateId in IdsOf(batch) {
      ValidOnes(known, batch, c.candidateId);
    }
    if |a.candidates| <= size {
      OneBatchIsAll(a.candidates, size, k);
      forall c | c in a.candidates ensures c.candidateId in IdsOf(batch) { IdIsListed(a.candidates, c); }
    } else {
      SomeoneIsLeftOut(a.candidates, size, k);
    }
  }

  lemma SliceIsPart<T>(items: seq<T>, size: nat, k: nat, x: T)
    requires x in Slice(items, size, k)
    ensures x in items
  {
  }

  lemma IdIsListed(candidates: seq<PackageCandidate>, c: PackageCandidate)
    requires c in candidates
    ensures c.candidateId in IdsOf(candidates)
  {
    var i :| 0 <= i < |candidates| && candidates[i] == c;
    assert IdsOf(candidates)[i] == c.candidateId;
  }

  // ----- a session without losses -----

  lemma {:induction false} OthersLeaveCrawlFree(db: Store, requests: seq<Envelope>, server: Server, crawlId: string)
    requires Sound(db) && FindBatch(db.batches, crawlId) == None
    requires forall i | 0 <= i < |requests| :: requests[i].crawlId != crawlId
    ensures FindBatch(ServeAll(db, requests, server.maxCandidates, server.clean).batches, crawlId) == None
    decreases |requests|
  {
    hide Commit, FindBatch, Sound, ResponseFor, ValidEnvelope;
    if requests != [] {
      var env := requests[0];
      var next := Serve(db, env, server.maxCandidates, server.clean).0;
      ServeKeepsSound(db, env, server.maxCandidates, server.clean);
      if next != db {
        CommitAddsBatch(db, env);
        FoundAfter(db, next, Batch(|db.batches|, env.crawlId, env.contentIdentity, true));
      }
      forall i | 0 <= i < |requests[1..]| ensures requests[1..][i].crawlId != crawlId {
        assert requests[1..][i] == requests[i + 1];
      }
      OthersLeaveCrawlFree(next, requests[1..], server, crawlId);
    }
  }

  lemma WireIds(batch: seq<PackageCandidate>)
    ensures Printable(TransportAll(batch)) && OutcomeIds(TransportAll(batch)) == IdsOf(batch)
  {
  }

  lemma FindAmong(reported: seq<Reported>, i: nat)
    requires i < |reported|
    requires forall j, k | 0 <= j < k < |reported| :: reported[j].candidateId != reported[k].candidateId
    ensures Find(RemoteOutcomes(reported), reported[i].candidateId) == Match(Some(Word(reported[i].status)), None)
  {
    var items, id := RemoteOutcomes(reported), reported[i].candidateId;
    FindIsFirst(items, id);
    assert items[i] == Remote(Some(id), Some(Word(reported[i].status)), None);
  }

  lemma FindNowhere(reported: seq<Reported>, id: string)
    requires forall j | 0 <= j < |reported| :: reported[j].candidateId != id
    ensures Find(RemoteOutcomes(reported), id) == Missing
  {
    FindIsFirst(RemoteOutcomes(reported), id);
  }

  /** The crawl's first request: each candidate of the batch is answered by whether it was acceptable. */
  lemma FirstReply(db: Store, a: Artifact, batch: seq<PackageCandidate>, server: Server, i: nat)
    requires Sound(db) && FindBatch(db.batches, a.crawlId) == None && i < |batch| && DistinctIds(IdsOf(batch))
    requires ValidEnvelope(TransportEnvelope(a, batch), server.maxCandidates, server.clean)
    ensures var (next, reply) := Exchange(db, TransportEnvelope(a, batch), Delivered, server);
            var wire := TransportAll(batch);
            && OutcomeIn(reply, IdsOf(batch), IdsOf(batch)[i]).status ==
                 (if Acceptable(EvidenceIds(a.evidence), wire[..i], wire[i]) then Accepted else Rejected)
            && var b := Batch(|db.batches|, a.crawlId, a.contentIdentity, true);
               b in next.batches && forall o | o in OutcomesOf(next.outcomes, b.id) :: o.candidateId in IdsOf(batch)
  {
    hide Commit, FindBatch, OutcomesOf, Sound, Acceptable, TransportCandidate, DistinctIds, OutcomeIds, Printable, Find,
         Counts, ValidEnvelope;
    var env := TransportEnvelope(a, batch);
    EvidenceIsDistinct(env, server);
    WireIds(batch);
    CommittedBatch(db, env);
    BatchIsExact(db, env);
    CommitAddsBatch(db, env);
    var next := Commit(db, env).value;
    var rows := OutcomesOf(next.outcomes, |db.batches|);
    var reported := Report(rows, false);
    forall j, k | 0 <= j < k < |reported| ensures reported[j].candidateId != reported[k].candidateId {
      DistinctAt(IdsOf(batch), j, k);
    }
    FindAmong(reported, i);
    WordsAreRead(reported[i].status);
    forall id | id in IdsOf(batch) ensures !Find(RemoteOutcomes(reported), id).Throws? {
      RemotesCarryNoMessage(reported, id);
    }
  }

  lemma EvidenceIsDistinct(env: Envelope, server: Server)
    requires ValidEnvelope(env, server.maxCandidates, server.clean)
    ensures DistinctIds(env.evidence)
  {
  }

  lemma DistinctAt(ids: seq<string>, j: nat, k: nat)
    requires DistinctIds(ids) && j < k < |ids|
    ensures ids[j] != ids[k]
  {
  }

  /** A later batch finds the crawl stored, and none of its candidates in what was stored. */
  lemma LaterReply(db: Store, env: Envelope, fate: Fate, server: Server, b: Batch, ids: seq<string>, id: string)
    requires Sound(db) && b in db.batches && b.crawlId == env.crawlId && id in ids
    requires forall o | o in OutcomesOf(db.outcomes, b.id) :: o.candidateId != id
    ensures OutcomeIn(Exchange(db, env, fate, server).1, ids, id) == SyncOutcome(id, Retryable, None)
  {
    hide Commit, FindBatch, OutcomesOf, Sound, Find, Counts, ValidEnvelope;
    FoundBatchIs(db, b);
    var reported := Report(OutcomesOf(db.outcomes, b.id), true);
    FindNowhere(reported, id);
  }

  /** Nothing is lost, and no one else speaks for the crawl. */
  ghost predicate Undisturbed(s: Session) {
    && (forall k: nat :: s.fates(k) == Delivered)
    && forall k: nat, i | 0 <= i < |s.between(k)| :: s.between(k)[i].crawlId != s.artifact.crawlId
  }

  lemma BatchStays(s: Session, b: Batch, ids: seq<string>, k: nat)
    requires Sound(s.db) && k > 0
    requires var next := Exchange(StoreAt(s, 0), BatchEnvelope(s, 0), s.fates(0), s.server).0;
             b in next.batches && forall o | o in OutcomesOf(next.outcomes, b.id) :: o.candidateId in ids
    ensures Sound(StoreAt(s, k)) && b in StoreAt(s, k).batches
    ensures forall o | o in OutcomesOf(StoreAt(s, k).outcomes, b.id) :: o.candidateId in ids
  {
    hide Exchange, ServeAll, Sound, OutcomesOf, BatchEnvelope;
    var next := Exchange(StoreAt(s, 0), BatchEnvelope(s, 0), s.fates(0), s.server).0;
    StoresGrow(s, 0, 0);
    ExchangeKeepsSound(StoreAt(s, 0), BatchEnvelope(s, 0), s.fates(0), s.server);
    RunKeepsSound(next, s.between(1), s.server.maxCandidates, s.server.clean);
    StoresGrow(s, 1, k);
    GrowsTransitive(next, StoreAt(s, 1), StoreAt(s, k));
    FoundBatchIs(next, b);
    StoredOutcomesStay(next, StoreAt(s, k), b.id);
  }

  /** A new crawl whose first batch the service lets in, nothing lost, and candidates of distinct identities. */
  ghost predicate FreshSession(s: Session) {
    && Sound(s.db) && FindBatch(s.db.batches, s.artifact.crawlId) == None && s.size > 0 && Undisturbed(s)
    && DistinctIds(IdsOf(s.artifact.candidates))
    && ValidEnvelope(BatchEnvelope(s, 0), s.server.maxCandidates, s.server.clean)
  }

  function FirstBatch(s: Session): seq<PackageCandidate> {
    Slice(s.artifact.candidates, s.size, 0)
  }

  lemma FirstBatchIds(s: Session)
    requires FreshSession(s)
    ensures |FirstBatch(s)| == Min(s.size, |s.artifact.candidates|)
    ensures IdsOf(FirstBatch(s)) == IdsOf(s.artifact.candidates)[..|FirstBatch(s)|]
            == Slice(IdsOf(s.artifact.candidates), s.size, 0)
    ensures DistinctIds(IdsOf(FirstBatch(s)))
  {
    hide Sound, FindBatch, Undisturbed, ValidEnvelope;
    assert IdsOf(FirstBatch(s)) == IdsOf(s.artifact.candidates)[..|FirstBatch(s)|];
    PartIsDistinct(IdsOf(s.artifact.candidates), |FirstBatch(s)|);
  }

  lemma FreshStore(s: Session)
    requires FreshSession(s)
    ensures Sound(StoreAt(s, 0)) && FindBatch(StoreAt(s, 0).batches, s.artifact.crawlId) == None
            && s.fates(0) == Delivered
  {
    hide Sound, FindBatch, ValidEnvelope, DistinctIds, ServeAll;
    OthersLeaveCrawlFree(s.db, s.between(0), s.server, s.artifact.crawlId);
    RunKeepsSound(s.db, s.between(0), s.server.maxCandidates, s.server.clean);
  }

  lemma FirstOfSession(s: Session, i: nat)
    requires FreshSession(s) && i < |FirstBatch(s)|
    ensures var ids, wire := IdsOf(FirstBatch(s)), TransportAll(FirstBatch(s));
            && OutcomeIn(ReplyAt(s, 0), ids, ids[i]).status ==
                 (if Acceptable(EvidenceIds(s.artifact.evidence), wire[..i], wire[i]) then Accepted else Rejected)
            && var b := Batch(|StoreAt(s, 0).batches|, s.artifact.crawlId, s.artifact.contentIdentity, true);
               var next := Exchange(StoreAt(s, 0), BatchEnvelope(s, 0), s.fates(0), s.server).0;
               b in next.batches && forall o | o in OutcomesOf(next.outcomes, b.id) :: o.candidateId in ids
  {
    hide Sound, FindBatch, ValidEnvelope, DistinctIds, Exchange, OutcomeIn, Acceptable, OutcomesOf, StoreAt,
         TransportAll, Slice, Undisturbed, IdsOf;
    FreshStore(s);
    FirstBatchIds(s);
    FirstReply(StoreAt(s, 0), s.artifact, FirstBatch(s), s.server, i);
  }

  /** What the client is told of the first batch is what was acceptable. */
  lemma InTheFirstBatch(s: Session, outcomes: seq<SyncOutcome>, i: nat)
    requires FreshSession(s) && i < s.size
    requires var ids := IdsOf(s.artifact.candidates);
             i < |outcomes| == |ids| && Answered(ids, s.size, Replies(s), outcomes)
    ensures outcomes[i].status ==
              if Acceptable(EvidenceIds(s.artifact.evidence), TransportAll(s.artifact.candidates[..i]),
                  TransportCandidate(s.artifact.candidates[i]))
              then Accepted else Rejected
  {
    hide Acceptable, OutcomeIn, FreshSession, TransportCandidate, ReplyAt;
    FirstBatchIds(s);
    QuotientIs(s.size, 0, i);
    FirstOfSession(s, i);
    assert TransportAll(FirstBatch(s))[..i] == TransportAll(s.artifact.candidates[..i]);
    assert FirstBatch(s)[i] == s.artifact.candidates[i];
  }

  /** Every candidate past the first batch is reported retryable, however valid it is. */
  lemma PastTheFirstBatch(s: Session, outcomes: seq<SyncOutcome>, i: nat)
    requires FreshSession(s) && i >= s.size
    requires var ids := IdsOf(s.artifact.candidates);
             i < |outcomes| == |ids| && Answered(ids, s.size, Replies(s), outcomes)
    ensures outcomes[i].status == Retryable
  {
    hide Acceptable, OutcomeIn, TransportCandidate, StoreAt, OutcomesOf, Exchange, Answered, TransportAll,
         BatchEnvelope, FirstBatch, Sound, Undisturbed, FindBatch, ValidEnvelope, DistinctIds;
    var b := Batch(|StoreAt(s, 0).batches|, s.artifact.crawlId, s.artifact.contentIdentity, true);
    FirstBatchIds(s);
    FirstOfSession(s, 0);
    PastTheFirst(s.size, i);
    BatchStays(s, b, IdsOf(FirstBatch(s)), i / s.size);
    PastIsElsewhere(IdsOf(s.artifact.candidates), |FirstBatch(s)|, i);
    LaterAnswer(s, outcomes, i, b);
  }

  lemma LaterAnswer(s: Session, outcomes: seq<SyncOutcome>, i: nat, b: Batch)
    requires s.size > 0 && Sound(StoreAt(s, i / s.size)) && b in StoreAt(s, i / s.size).batches
             && b.crawlId == s.artifact.crawlId
    requires var ids := IdsOf(s.artifact.candidates);
             i < |outcomes| == |ids| && Answered(ids, s.size, Replies(s), outcomes)
    requires forall o | o in OutcomesOf(StoreAt(s, i / s.size).outcomes, b.id) ::
             o.candidateId != s.artifact.candidates[i].candidateId
    ensures outcomes[i].status == Retryable
  {
    hide Exchange, Sound, OutcomesOf, OutcomeIn, StoreAt;
    var k, ids := i / s.size, IdsOf(s.artifact.candidates);
    LaterReply(StoreAt(s, k), BatchEnvelope(s, k), s.fates(k), s.server, b, Slice(ids, s.size, k), ids[i]);
  }

  lemma PastTheFirst(size: nat, i: nat)
    requires 0 < size <= i
    ensures i / size > 0
  {
  }

  lemma PartIsDistinct(ids: seq<string>, n: nat)
    requires DistinctIds(ids) && n <= |ids|
    ensures DistinctIds(ids[..n])
  {
  }

  lemma PastIsElsewhere(ids: seq<string>, n: nat, i: nat)
    requires DistinctIds(ids) && n <= i < |ids|
    ensures ids[i] !in ids[..n]
  {
  }
}
