/** What the ingestion service promises: of one batch, of replays, and of every run of requests. */
module IngestionProperties {
  import opened Wrappers
  import opened Ingestion
  import Purl

  // ----- the store's invariant -----

  ghost predicate UniqueStaged(staged: seq<Staged>) {
    forall i, j | 0 <= i < j < |staged| ::
        (staged[i].batchId, staged[i].candidateId) != (staged[j].batchId, staged[j].candidateId)
  }

  ghost predicate UniqueOutcomes(outcomes: seq<Outcome>) {
    forall i, j | 0 <= i < j < |outcomes| ::
        (outcomes[i].batchId, outcomes[i].candidateId) != (outcomes[j].batchId, outcomes[j].candidateId)
  }

  /** No row without its batch. */
  ghost predicate HaveBatches(db: Store) {
    && (forall s | s in db.staged :: s.batchId < |db.batches|)
    && (forall o | o in db.outcomes :: o.batchId < |db.batches|)
    && (forall e | e in db.evidence :: e.batchId < |db.batches|)
  }

  /** The unique keys of the tables. */
  ghost predicate UniqueRows(db: Store) {
    UniqueStaged(db.staged) && UniqueOutcomes(db.outcomes) && HaveBatches(db)
  }

  ghost predicate UniqueEvidence(db: Store) {
    forall i, j | 0 <= i < j < |db.evidence| ::
        (db.evidence[i].batchId, db.evidence[i].evidenceId) != (db.evidence[j].batchId, db.evidence[j].evidenceId)
  }

  /** An accepted outcome names a staged row of its own batch and candidate; a rejected one names none. */
  ghost predicate OutcomesPoint(db: Store) {
    && (forall i | 0 <= i < |db.staged| :: db.staged[i].id == i)
    && forall o | o in db.outcomes ::
         if o.accepted then
           && o.stagedId.Some? && o.stagedId.value < |db.staged|
           && db.staged[o.stagedId.value].batchId == o.batchId
           && db.staged[o.stagedId.value].candidateId == o.candidateId
         else o.stagedId == None
  }

  /** Every evidence row and every observation row names a staged row of its own batch. */
  ghost predicate RowsOwned(db: Store) {
    && (forall e | e in db.evidence :: e.stagedId < |db.staged| && db.staged[e.stagedId].batchId == e.batchId)
    && (forall o | o in db.observations :: o.stagedId < |db.staged| && db.staged[o.stagedId].batchId == o.batchId)
  }

  ghost predicate NumberedBatches(db: Store) {
    forall i | 0 <= i < |db.batches| :: db.batches[i].id == i
  }

  ghost predicate SoundRows(db: Store) {
    UniqueRows(db) && UniqueEvidence(db) && OutcomesPoint(db) && RowsOwned(db) && NumberedBatches(db)
  }

  /** Requests served one at a time bind a crawl to one artifact. */
  ghost predicate OneArtifactPerCrawl(db: Store) {
    forall i, j | 0 <= i < j < |db.batches| :: db.batches[i].crawlId != db.batches[j].crawlId
  }

  ghost predicate Sound(db: Store) {
    SoundRows(db) && OneArtifactPerCrawl(db)
  }

  // ----- one candidate keeps it -----

  lemma {:induction false} EvidenceStaysUnique(db: Store, batchId: nat, stagedId: nat, items: seq<string>,
      wanted: seq<string>)
    requires UniqueEvidence(db)
    ensures UniqueEvidence(StageEvidence(db, batchId, stagedId, items, wanted).0)
    decreases |items|
  {
    if items != [] {
      if items[0] !in wanted {
        EvidenceStaysUnique(db, batchId, stagedId, items[1..], wanted);
      } else {
        match WithEvidence(db, batchId, stagedId, items[0])
        case None =>
        case Some(next) => EvidenceStaysUnique(next, batchId, stagedId, items[1..], wanted);
      }
    }
  }

  lemma {:induction false} ObservationsLeaveEvidence(db: Store, batchId: nat, stagedId: nat,
      observations: seq<Observation>)
    ensures StageObservations(db, batchId, stagedId, observations).0.evidence == db.evidence
    decreases |observations|
  {
    if observations != [] {
      match WithObservation(db, batchId, stagedId, observations[0])
      case None =>
      case Some(next) => ObservationsLeaveEvidence(next, batchId, stagedId, observations[1..]);
    }
  }

  lemma TryKeepsEvidence(db: Store, batchId: nat, known: seq<string>, c: Candidate, id: string)
    requires UniqueEvidence(db)
    ensures UniqueEvidence(TryCandidate(db, batchId, known, c, id).0)
  {
    hide ValidCandidate, StageEvidence, StageObservations;
    if ValidCandidate(c, known) {
      ValidIsFields(c, known);
      match WithStaged(db, batchId, c.id.s)
      case None =>
      case Some(d1) =>
        EvidenceStaysUnique(d1, batchId, |db.staged|, known, c.evidenceIds.value);
        var d2 := StageEvidence(d1, batchId, |db.staged|, known, c.evidenceIds.value).0;
        ObservationsLeaveEvidence(d2, batchId, |db.staged|, c.observations);
    }
  }

  /** Rows were added to evidence and observations for one staged row only. */
  ghost predicate OwnedBy(db: Store, next: Store, stagedId: nat) {
    && db.evidence <= next.evidence && db.observations <= next.observations
    && (forall i | |db.evidence| <= i < |next.evidence| :: next.evidence[i].stagedId == stagedId)
    && (forall i | |db.observations| <= i < |next.observations| :: next.observations[i].stagedId == stagedId)
  }

  lemma {:induction false} EvidenceIsOwned(db: Store, batchId: nat, stagedId: nat, items: seq<string>,
      wanted: seq<string>)
    ensures OwnedBy(db, StageEvidence(db, batchId, stagedId, items, wanted).0, stagedId)
    decreases |items|
  {
    if items != [] {
      if items[0] !in wanted {
        EvidenceIsOwned(db, batchId, stagedId, items[1..], wanted);
      } else {
        match WithEvidence(db, batchId, stagedId, items[0])
        case None =>
        case Some(next) => EvidenceIsOwned(next, batchId, stagedId, items[1..], wanted);
      }
    }
  }

  lemma {:induction false} ObservationsAreOwned(db: Store, batchId: nat, stagedId: nat, observations: seq<Observation>)
    ensures OwnedBy(db, StageObservations(db, batchId, stagedId, observations).0, stagedId)
    decreases |observations|
  {
    if observations != [] {
      match WithObservation(db, batchId, stagedId, observations[0])
      case None =>
      case Some(next) => ObservationsAreOwned(next, batchId, stagedId, observations[1..]);
    }
  }

  lemma TryOwns(db: Store, batchId: nat, known: seq<string>, c: Candidate, id: string)
    ensures var next := TryCandidate(db, batchId, known, c, id).0;
            && OwnedBy(db, next, |db.staged|)
            && (next.evidence != db.evidence || next.observations != db.observations ==>
                  |next.staged| == |db.staged| + 1)
  {
    hide ValidCandidate, StageEvidence, StageObservations;
    if ValidCandidate(c, known) {
      ValidIsFields(c, known);
      match WithStaged(db, batchId, c.id.s)
      case None =>
      case Some(d1) =>
        EvidenceIsOwned(d1, batchId, |db.staged|, known, c.evidenceIds.value);
        EvidenceAddsOnly(d1, batchId, |db.staged|, known, c.evidenceIds.value);
        var d2 := StageEvidence(d1, batchId, |db.staged|, known, c.evidenceIds.value).0;
        ObservationsAreOwned(d2, batchId, |db.staged|, c.observations);
        ObservationsAddOnly(d2, batchId, |db.staged|, c.observations);
    }
  }

  lemma OwnedAfter(db: Store, batchId: nat, known: seq<string>, c: Candidate, id: string)
    requires RowsOwned(db)
    ensures RowsOwned(TryCandidate(db, batchId, known, c, id).0)
  {
    hide TryCandidate, ValidCandidate;
    TryOwns(db, batchId, known, c, id);
    TryAddsOnly(db, batchId, known, c, id);
    OwnersStand(db, TryCandidate(db, batchId, known, c, id).0, batchId);
  }

  lemma OwnersStand(db: Store, next: Store, batchId: nat)
    requires RowsOwned(db) && AddsOnly(db, next, batchId) && OwnedBy(db, next, |db.staged|)
    requires next.evidence != db.evidence || next.observations != db.observations ==> |next.staged| == |db.staged| + 1
    ensures RowsOwned(next)
  {
    if next.evidence == db.evidence && next.observations == db.observations {
      SameOwners(db, next);
    } else {
      assert next.staged[|db.staged|].batchId == batchId;
    }
  }

  lemma SameOwners(db: Store, next: Store)
    requires RowsOwned(db) && next.evidence == db.evidence && next.observations == db.observations
    requires db.staged <= next.staged
    ensures RowsOwned(next)
  {
  }

  lemma TryKeepsStagedUnique(db: Store, batchId: nat, known: seq<string>, c: Candidate, id: string)
    requires UniqueRows(db)
    ensures var next := TryCandidate(db, batchId, known, c, id).0;
            || next.staged == db.staged
            || (|next.staged| == |db.staged| + 1
                && forall s | s in db.staged ::
                   s.batchId != batchId || s.candidateId != next.staged[|db.staged|].candidateId)
  {
    hide ValidCandidate, StageEvidence, StageObservations;
    TryAddsOnly(db, batchId, known, c, id);
    if ValidCandidate(c, known) {
      ValidIsFields(c, known);
    }
  }

  lemma MoreStaged(staged: seq<Staged>, more: seq<Staged>)
    requires UniqueStaged(staged) && staged <= more && |more| == |staged| + 1
    requires var row := more[|staged|];
             forall s | s in staged :: s.batchId != row.batchId || s.candidateId != row.candidateId
    ensures UniqueStaged(more)
  {
  }

  lemma MoreOutcomes(outcomes: seq<Outcome>, more: seq<Outcome>)
    requires UniqueOutcomes(outcomes) && outcomes <= more && |more| == |outcomes| + 1
    requires var row := more[|outcomes|];
             forall o | o in outcomes && o.batchId == row.batchId :: o.candidateId != row.candidateId
    ensures UniqueOutcomes(more)
  {
  }

  lemma StagedAfter(db: Store, batchId: nat, known: seq<string>, c: Candidate)
    requires UniqueRows(db) && ProcessCandidate(db, batchId, known, c).Some?
    ensures UniqueStaged(ProcessCandidate(db, batchId, known, c).value.staged)
  {
    hide TryCandidate, WithOutcome, UniqueStaged, UniqueOutcomes, HaveBatches, ProcessCandidate;
    ProcessAddsOneOutcome(db, batchId, known, c);
    var id := OutcomeId(c).value;
    TryAddsOnly(db, batchId, known, c, id);
    TryKeepsStagedUnique(db, batchId, known, c, id);
    OutcomeLeavesStaged(db, batchId, known, c);
    var next := TryCandidate(db, batchId, known, c, id).0;
    if next.staged != db.staged { MoreStaged(db.staged, next.staged); }
  }

  lemma OutcomesAfter(db: Store, batchId: nat, known: seq<string>, c: Candidate)
    requires UniqueRows(db) && OutcomesPoint(db) && ProcessCandidate(db, batchId, known, c).Some?
    ensures UniqueOutcomes(ProcessCandidate(db, batchId, known, c).value.outcomes)
            && OutcomesPoint(ProcessCandidate(db, batchId, known, c).value)
  {
    hide ProcessCandidate, UniqueStaged, UniqueOutcomes, HaveBatches;
    ProcessAddsOneOutcome(db, batchId, known, c);
    var next := ProcessCandidate(db, batchId, known, c).value;
    MoreOutcomes(db.outcomes, next.outcomes);
    PointsOn(db, next, batchId);
  }

  lemma PointsOn(db: Store, next: Store, batchId: nat)
    requires OutcomesPoint(db) && AddsOnly(db, next, batchId) && |next.outcomes| == |db.outcomes| + 1
    requires AcceptedHasRow(db, next, next.outcomes[|db.outcomes|])
    ensures OutcomesPoint(next)
  {
  }

  /** Handling one candidate keeps every key unique and every outcome pointing right. */
  lemma ProcessKeepsSound(db: Store, batchId: nat, known: seq<string>, c: Candidate)
    requires SoundRows(db) && batchId < |db.batches|
    requires ProcessCandidate(db, batchId, known, c).Some?
    ensures SoundRows(ProcessCandidate(db, batchId, known, c).value)
  {
    hide ProcessCandidate, TryCandidate, UniqueEvidence, UniqueStaged, UniqueOutcomes, OutcomesPoint, RowsOwned;
    StagedAfter(db, batchId, known, c);
    OutcomesAfter(db, batchId, known, c);
    ProcessAddsOneOutcome(db, batchId, known, c);
    TryKeepsEvidence(db, batchId, known, c, OutcomeId(c).value);
    OwnedAfter(db, batchId, known, c, OutcomeId(c).value);
    OutcomeLeavesRest(db, batchId, known, c);
  }

  lemma OutcomeLeavesStaged(db: Store, batchId: nat, known: seq<string>, c: Candidate)
    requires ProcessCandidate(db, batchId, known, c).Some?
    ensures ProcessCandidate(db, batchId, known, c).value.staged
            == TryCandidate(db, batchId, known, c, OutcomeId(c).value).0.staged
  {
    hide TryCandidate;
  }

  lemma OutcomeLeavesRest(db: Store, batchId: nat, known: seq<string>, c: Candidate)
    requires ProcessCandidate(db, batchId, known, c).Some?
    requires UniqueEvidence(TryCandidate(db, batchId, known, c, OutcomeId(c).value).0)
    requires RowsOwned(TryCandidate(db, batchId, known, c, OutcomeId(c).value).0)
    ensures UniqueEvidence(ProcessCandidate(db, batchId, known, c).value)
    ensures RowsOwned(ProcessCandidate(db, batchId, known, c).value)
  {
    hide TryCandidate;
  }

  // ----- one batch -----

  lemma {:induction false} OutcomesOfAppend(s: seq<Outcome>, t: seq<Outcome>, batchId: nat)
    ensures OutcomesOf(s + t, batchId) == OutcomesOf(s, batchId) + OutcomesOf(t, batchId)
    decreases |t|
  {
    if t == [] {
      assert s + t == s;
    } else {
      assert (s + t)[..|s + t| - 1] == s + t[..|t| - 1];
      OutcomesOfAppend(s, t[..|t| - 1], batchId);
    }
  }

  lemma {:induction false} OutcomesOfOne(s: seq<Outcome>, batchId: nat)
    ensures (forall o | o in s :: o.batchId == batchId) ==> OutcomesOf(s, batchId) == s
    ensures (forall o | o in s :: o.batchId != batchId) ==> OutcomesOf(s, batchId) == []
    ensures forall o | o in OutcomesOf(s, batchId) :: o in s && o.batchId == batchId
  {
    if s != [] {
      OutcomesOfOne(s[..|s| - 1], batchId);
      assert s == s[..|s| - 1] + [s[|s| - 1]];
    }
  }

  lemma {:induction false} AllKeepSound(db: Store, batchId: nat, known: seq<string>, candidates: seq<Candidate>)
    requires SoundRows(db) && batchId < |db.batches|
    ensures match ProcessAll(db, batchId, known, candidates) case None => true case Some(next) => SoundRows(next)
    decreases |candidates|
  {
    hide ProcessCandidate, SoundRows;
    if candidates != [] {
      var front := candidates[..|candidates| - 1];
      AllKeepSound(db, batchId, known, front);
      BatchesUntouched(db, batchId, known, front);
      match ProcessAll(db, batchId, known, front)
      case None =>
      case Some(next) =>
        if ProcessCandidate(next, batchId, known, candidates[|candidates| - 1]).Some? {
          ProcessKeepsSound(next, batchId, known, candidates[|candidates| - 1]);
        }
    }
  }

  predicate Printable(candidates: seq<Candidate>) {
    forall i | 0 <= i < |candidates| :: OutcomeId(candidates[i]).Some?
  }

  function OutcomeIds(candidates: seq<Candidate>): (r: seq<string>)
    requires Printable(candidates)
    ensures |r| == |candidates|
  {
    seq(|candidates|, i requires 0 <= i < |candidates| => OutcomeId(candidates[i]).value)
  }

  /** The rows of outcomes a batch adds: one for each candidate, in order, under its id. */
  ghost predicate OutcomesAdded(db: Store, next: Store, batchId: nat, candidates: seq<Candidate>)
    requires Printable(candidates)
  {
    && db.outcomes <= next.outcomes
    && var added := next.outcomes[|db.outcomes|..];
       && |added| == |candidates|
       && forall i | 0 <= i < |added| ::
          added[i].batchId == batchId && added[i].candidateId == OutcomeIds(candidates)[i]
  }

  lemma TakenIds(db: Store, next: Store, batchId: nat, candidates: seq<Candidate>, id: string)
    requires Printable(candidates) && OutcomesAdded(db, next, batchId, candidates)
    requires forall o | o in db.outcomes :: o.batchId != batchId
    ensures (exists o | o in next.outcomes :: o.batchId == batchId && o.candidateId == id) <==>
            id in OutcomeIds(candidates)
  {
  }

  lemma OneMoreOutcome(db: Store, middle: Store, next: Store, batchId: nat, candidates: seq<Candidate>)
    requires candidates != [] && Printable(candidates)
    requires OutcomesAdded(db, middle, batchId, candidates[..|candidates| - 1])
    requires middle.outcomes <= next.outcomes && |next.outcomes| == |middle.outcomes| + 1
    requires var o := next.outcomes[|middle.outcomes|];
             o.batchId == batchId && o.candidateId == OutcomeId(candidates[|candidates| - 1]).value
    ensures OutcomesAdded(db, next, batchId, candidates)
  {
  }

  lemma OneMoreId(candidates: seq<Candidate>)
    requires candidates != [] && Printable(candidates)
    ensures var front := candidates[..|candidates| - 1];
            && Printable(front)
            && OutcomeIds(candidates) == OutcomeIds(front) + [OutcomeId(candidates[|candidates| - 1]).value]
            && (DistinctIds(OutcomeIds(candidates)) <==>
                  DistinctIds(OutcomeIds(front)) && OutcomeId(candidates[|candidates| - 1]).value !in OutcomeIds(front))
  {
    var front, last := candidates[..|candidates| - 1], OutcomeId(candidates[|candidates| - 1]).value;
    var ids, more := OutcomeIds(front), OutcomeIds(candidates);
    assert more == ids + [last];
    if DistinctIds(more) {
      forall i, j | 0 <= i < j < |ids| ensures ids[i] != ids[j] { assert more[i] != more[j]; }
      forall i | 0 <= i < |ids| ensures ids[i] != last { assert more[i] != more[|ids|]; }
    }
  }

  /** Handling the candidates fails exactly when two would write the same outcome id, or one has no printable id. */
  lemma {:induction false} AllAddOutcomes(db: Store, batchId: nat, known: seq<string>, candidates: seq<Candidate>)
    requires forall o | o in db.outcomes :: o.batchId != batchId
    ensures ProcessAll(db, batchId, known, candidates).Some? <==>
            Printable(candidates) && DistinctIds(OutcomeIds(candidates))
    ensures match ProcessAll(db, batchId, known, candidates)
            case None => true case Some(next) => OutcomesAdded(db, next, batchId, candidates)
    decreases |candidates|
  {
    hide ProcessCandidate, OutcomesAdded, OutcomeId, DistinctIds;
    if candidates == [] {
      NothingAdded(db, batchId);
    } else {
      var n := |candidates| - 1;
      var front, last := candidates[..n], candidates[n];
      AllAddOutcomes(db, batchId, known, front);
      if Printable(candidates) { OneMoreId(candidates); }
      match ProcessAll(db, batchId, known, front) {
        case None =>
        case Some(next) =>
          ProcessAddsOneOutcome(next, batchId, known, last);
          if OutcomeId(last).Some? { TakenIds(db, next, batchId, front, OutcomeId(last).value); }
          match ProcessCandidate(next, batchId, known, last) {
            case None =>
            case Some(after) =>
              assert forall i | 0 <= i < n :: OutcomeId(candidates[i]) == OutcomeId(front[i]);
              OneMoreOutcome(db, next, after, batchId, candidates);
          }
      }
    }
  }

  lemma NothingAdded(db: Store, batchId: nat)
    ensures OutcomesAdded(db, db, batchId, []) && DistinctIds(OutcomeIds([]))
  {
  }

  /** The store after a committed transaction, beside the store it started from. */
  lemma CommitKeepsSound(db: Store, env: Envelope)
    requires SoundRows(db) && Commit(db, env).Some?
    ensures var next := Commit(db, env).value;
            && SoundRows(next) && next.batches
               == db.batches + [Batch(|db.batches|, env.crawlId, env.contentIdentity, true)]
            && db.staged <= next.staged && db.outcomes <= next.outcomes
            && (forall i | |db.outcomes| <= i < |next.outcomes| :: next.outcomes[i].batchId == |db.batches|)
            && (forall i | |db.staged| <= i < |next.staged| :: next.staged[i].batchId == |db.batches|)
            && db.evidence <= next.evidence && db.observations <= next.observations
            && (forall i | |db.evidence| <= i < |next.evidence| :: next.evidence[i].batchId == |db.batches|)
            && (forall i | |db.observations| <= i < |next.observations| ::
                  next.observations[i].batchId == |db.batches|)
            && (forall b | b in db.batches :: b.crawlId != env.crawlId || b.contentIdentity != env.contentIdentity)
  {
    hide ProcessAll;
    var begun := WithBatch(db, env.crawlId, env.contentIdentity).value;
    BeginKeepsSound(db, env.crawlId, env.contentIdentity);
    AllKeepSound(begun, |db.batches|, env.evidence, env.candidates);
    BatchesUntouched(begun, |db.batches|, env.evidence, env.candidates);
    var filled := ProcessAll(begun, |db.batches|, env.evidence, env.candidates).value;
    assert |filled.batches| == |db.batches| + 1;
  }

  lemma BeginKeepsSound(db: Store, crawlId: string, contentIdentity: string)
    requires SoundRows(db) && WithBatch(db, crawlId, contentIdentity).Some?
    ensures SoundRows(WithBatch(db, crawlId, contentIdentity).value)
  {
  }

  /**
   A crawl that was not seen before: the transaction commits exactly when every candidate has a printable
   outcome id and no two have the same; it then holds one outcome per candidate, in the envelope's order.
   */
  lemma CommittedBatch(db: Store, env: Envelope)
    requires Sound(db) && FindBatch(db.batches, env.crawlId) == None
    ensures Commit(db, env).Some? <==> Printable(env.candidates) && DistinctIds(OutcomeIds(env.candidates))
    ensures match Commit(db, env)
            case None => true
            case Some(next) =>
              var rows := OutcomesOf(next.outcomes, |db.batches|);
              |rows| == |env.candidates| && forall i | 0 <= i < |rows| ::
                  rows[i].candidateId == OutcomeIds(env.candidates)[i]
  {
    hide ProcessAll, Printable, DistinctIds, OutcomesAdded, OutcomesOf;
    CrawlIsNew(db, env);
    var batchId := |db.batches|;
    var begun := WithBatch(db, env.crawlId, env.contentIdentity).value;
    AllAddOutcomes(begun, batchId, env.evidence, env.candidates);
    match ProcessAll(begun, batchId, env.evidence, env.candidates)
    case None =>
    case Some(filled) => AddedRowsAreTheBatch(begun, filled, batchId, env.candidates);
  }

  lemma CrawlIsNew(db: Store, env: Envelope)
    requires Sound(db) && FindBatch(db.batches, env.crawlId) == None
    ensures WithBatch(db, env.crawlId, env.contentIdentity).Some?
    ensures forall o | o in db.outcomes :: o.batchId != |db.batches|
  {
    hide FindBatch;
  }

  lemma AddedRowsAreTheBatch(db: Store, next: Store, batchId: nat, candidates: seq<Candidate>)
    requires Printable(candidates) && OutcomesAdded(db, next, batchId, candidates)
    requires forall o | o in db.outcomes :: o.batchId != batchId
    ensures var rows := OutcomesOf(next.outcomes, batchId);
            |rows| == |candidates| && forall i | 0 <= i < |rows| :: rows[i].candidateId == OutcomeIds(candidates)[i]
  {
    hide Printable, OutcomeIds;
    NewRows(db.outcomes, next.outcomes, batchId);
  }

  lemma NewRows(before: seq<Outcome>, after: seq<Outcome>, batchId: nat)
    requires before <= after && (forall o | o in before :: o.batchId != batchId) && forall o | o in after[|before|..] ::
             o.batchId == batchId
    ensures OutcomesOf(after, batchId) == after[|before|..]
  {
    hide OutcomesOf;
    var added := after[|before|..];
    assert after == before + added;
    OutcomesOfAppend(before, added, batchId);
    OutcomesOfOne(before, batchId);
    OutcomesOfOne(added, batchId);
  }

  lemma {:induction false} CountsSum(reported: seq<Reported>)
    ensures CountOf(reported, Accepted) + CountOf(reported, Duplicate) + CountOf(reported, Rejected)
            + CountOf(reported, Retryable) + CountOf(reported, Unsupported) == |reported|
  {
    if reported != [] { CountsSum(reported[..|reported| - 1]); }
  }

  /** Every accepted outcome has one staged row of its batch and candidate, and only one. */
  lemma AcceptedIsStagedOnce(db: Store, o: Outcome)
    requires SoundRows(db) && o in db.outcomes && o.accepted
    ensures exists i | 0 <= i < |db.staged| ::
              && db.staged[i].batchId == o.batchId && db.staged[i].candidateId == o.candidateId
              && forall j | 0 <= j < |db.staged| && j != i ::
                   !(db.staged[j].batchId == o.batchId && db.staged[j].candidateId == o.candidateId)
  {
    var i := o.stagedId.value;
    forall j | 0 <= j < |db.staged| && j != i
      ensures !(db.staged[j].batchId == o.batchId && db.staged[j].candidateId == o.candidateId)
    {
      if j < i {
        assert (db.staged[j].batchId, db.staged[j].candidateId) != (db.staged[i].batchId, db.staged[i].candidateId);
      } else {
        assert (db.staged[i].batchId, db.staged[i].candidateId) != (db.staged[j].batchId, db.staged[j].candidateId);
      }
    }
  }

  // ----- one request -----

  /** Nothing that was stored changed. */
  ghost predicate Grows(db: Store, next: Store) {
    && db.batches <= next.batches && db.staged <= next.staged && db.outcomes <= next.outcomes
    && db.evidence <= next.evidence && db.observations <= next.observations
    && (forall i | |db.outcomes| <= i < |next.outcomes| :: next.outcomes[i].batchId >= |db.batches|)
    && (forall i | |db.evidence| <= i < |next.evidence| :: next.evidence[i].batchId >= |db.batches|)
    && (forall i | |db.observations| <= i < |next.observations| :: next.observations[i].batchId >= |db.batches|)
  }

  lemma ServeKeepsSound(db: Store, env: Envelope, maxCandidates: nat, clean: Envelope -> bool)
    requires Sound(db)
    ensures var next := Serve(db, env, maxCandidates, clean).0; Sound(next) && Grows(db, next)
  {
    hide Commit, SoundRows, ValidEnvelope, ResponseFor;
    if ValidEnvelope(env, maxCandidates, clean) && FindBatch(db.batches, env.crawlId).None? && Commit(db, env).Some? {
      CommitKeepsSound(db, env);
    }
  }

  lemma FoundBatchIs(db: Store, b: Batch)
    requires Sound(db) && b in db.batches
    ensures FindBatch(db.batches, b.crawlId) == Some(b) && b.id < |db.batches|
  {
  }

  /** A replay changes nothing, and answers duplicate exactly where the stored outcome is accepted. */
  lemma ReplayIsIdempotent(db: Store, env: Envelope, maxCandidates: nat, clean: Envelope -> bool, b: Batch)
    requires Sound(db) && b in db.batches && b.crawlId == env.crawlId && ValidEnvelope(env, maxCandidates, clean)
    ensures var (next, r) := Serve(db, env, maxCandidates, clean);
            && next == db
            && (r.Ok? <==> b.contentIdentity == env.contentIdentity)
            && (r.Ok? ==>
                  var stored := OutcomesOf(db.outcomes, b.id);
                  && |r.value.outcomes| == |stored|
                  && forall i | 0 <= i < |stored| ::
                       && r.value.outcomes[i].candidateId == stored[i].candidateId
                       && r.value.outcomes[i].status == if stored[i].accepted then Duplicate else Rejected)
  {
    hide ValidEnvelope, Commit;
    FoundBatchIs(db, b);
  }

  // ----- whole runs -----

  /** Requests served one after the other; lost responses and retries are requests like any other. */
  function ServeAll(db: Store, requests: seq<Envelope>, maxCandidates: nat, clean: Envelope -> bool): Store
    decreases |requests|
  {
    if requests == [] then db
    else ServeAll(Serve(db, requests[0], maxCandidates, clean).0, requests[1..], maxCandidates, clean)
  }

  lemma GrowsTransitive(a: Store, b: Store, c: Store)
    requires Grows(a, b) && Grows(b, c)
    ensures Grows(a, c)
  {
  }

  lemma {:induction false} RunKeepsSound(db: Store, requests: seq<Envelope>, maxCandidates: nat,
      clean: Envelope -> bool)
    requires Sound(db)
    ensures var next := ServeAll(db, requests, maxCandidates, clean); Sound(next) && Grows(db, next)
    decreases |requests|
  {
    hide Serve, Sound, Grows;
    if requests == [] {
      GrowsItself(db);
    } else {
      var next := Serve(db, requests[0], maxCandidates, clean).0;
      ServeKeepsSound(db, requests[0], maxCandidates, clean);
      RunKeepsSound(next, requests[1..], maxCandidates, clean);
      GrowsTransitive(db, next, ServeAll(next, requests[1..], maxCandidates, clean));
    }
  }

  lemma GrowsItself(db: Store)
    ensures Grows(db, db)
  {
  }

  lemma EmptyIsSound()
    ensures Sound(EMPTY_STORE)
  {
  }

  lemma StoredOutcomesStay(db: Store, next: Store, batchId: nat)
    requires Grows(db, next) && batchId < |db.batches|
    ensures OutcomesOf(next.outcomes, batchId) == OutcomesOf(db.outcomes, batchId)
  {
    var added := next.outcomes[|db.outcomes|..];
    assert next.outcomes == db.outcomes + added;
    OutcomesOfAppend(db.outcomes, added, batchId);
    OutcomesOfOne(added, batchId);
  }

  /**
   Over every run: once a crawl has committed, it stays bound to the artifact it committed with, and its
   outcome rows never change.
   */
  lemma CrawlKeepsItsArtifact(db: Store, requests: seq<Envelope>, maxCandidates: nat, clean: Envelope -> bool, b: Batch)
    requires Sound(db) && b in db.batches
    ensures var next := ServeAll(db, requests, maxCandidates, clean);
            && FindBatch(next.batches, b.crawlId) == Some(b)
            && OutcomesOf(next.outcomes, b.id) == OutcomesOf(db.outcomes, b.id)
  {
    hide ServeAll, FindBatch, OutcomesOf;
    var next := ServeAll(db, requests, maxCandidates, clean);
    RunKeepsSound(db, requests, maxCandidates, clean);
    FoundBatchIs(db, b);
    assert b in next.batches;
    FoundBatchIs(next, b);
    StoredOutcomesStay(db, next, b.id);
  }

  /** In particular no run from an empty store ever breaks the store's invariant. */
  lemma EveryReachableStoreIsSound(requests: seq<Envelope>, maxCandidates: nat, clean: Envelope -> bool)
    ensures Sound(ServeAll(EMPTY_STORE, requests, maxCandidates, clean))
  {
    EmptyIsSound();
    RunKeepsSound(EMPTY_STORE, requests, maxCandidates, clean);
  }
}
