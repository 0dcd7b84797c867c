/**
 Which candidates of a batch are accepted, and which leave a staged row. A candidate that fails after
 its staged row was inserted keeps that row and the evidence it claimed so far, so acceptance depends
 on the candidates before it.
 */
module Acceptance {
  import opened Wrappers
  import opened Ingestion
  import opened IngestionProperties
  import Purl

  /** The evidence ids a batch's rows hold. */
  ghost function Claimed(db: Store, batchId: nat): set<string> {
    set e | e in db.evidence && e.batchId == batchId :: e.evidenceId
  }

  /** What a candidate gets to claim: the envelope's evidence it refers to, in order, up to a taken one. */
  function Claims(known: seq<string>, wanted: seq<string>, taken: set<string>): set<string> {
    if known == [] then {}
    else if known[0] !in wanted then Claims(known[1..], wanted, taken)
    else if known[0] in taken then {}
    else {known[0]} + Claims(known[1..], wanted, taken)
  }

  predicate Free(known: seq<string>, wanted: seq<string>, taken: set<string>) {
    forall i | 0 <= i < |known| :: known[i] in wanted ==> known[i] !in taken
  }

  /** The evidence the candidates before this one hold when its turn comes. */
  function ClaimedBy(known: seq<string>, candidates: seq<Candidate>): set<string> {
    if candidates == [] then {}
    else
      var before, last := ClaimedBy(known, candidates[..|candidates| - 1]), candidates[|candidates| - 1];
      if ValidCandidate(last, known) then before + Claims(known, last.evidenceIds.value, before) else before
  }

  predicate Readable(observations: seq<Observation>) {
    forall o | o in observations :: ReadObservation(o).Some?
  }

  /** Valid, readable, and referring to no evidence that an earlier candidate claimed. */
  predicate Acceptable(known: seq<string>, before: seq<Candidate>, c: Candidate) {
    ValidCandidate(c, known) && Readable(c.observations) && Free(known, c.evidenceIds.value, ClaimedBy(known, before))
  }

  // ----- one candidate -----

  lemma DistinctRest(items: seq<string>)
    requires items != [] && DistinctIds(items)
    ensures DistinctIds(items[1..]) && items[0] !in items[1..]
  {
  }

  lemma {:induction false} TakenElsewhere(known: seq<string>, wanted: seq<string>, taken: set<string>, id: string)
    requires id !in known
    ensures Claims(known, wanted, taken + {id}) == Claims(known, wanted, taken)
    ensures Free(known, wanted, taken + {id}) <==> Free(known, wanted, taken)
  {
    if known != [] { TakenElsewhere(known[1..], wanted, taken, id); }
  }

  lemma {:induction false} EvidenceIsClaimed(db: Store, batchId: nat, stagedId: nat, items: seq<string>,
      wanted: seq<string>)
    requires DistinctIds(items)
    ensures var (next, done) := StageEvidence(db, batchId, stagedId, items, wanted);
            && (done <==> Free(items, wanted, Claimed(db, batchId)))
            && Claimed(next, batchId) == Claimed(db, batchId) + Claims(items, wanted, Claimed(db, batchId))
    decreases |items|
  {
    hide DistinctIds;
    if items != [] {
      DistinctRest(items);
      FreeStep(items, wanted, Claimed(db, batchId));
      if items[0] !in wanted {
        EvidenceIsClaimed(db, batchId, stagedId, items[1..], wanted);
      } else {
        RowIsClaimed(db, batchId, stagedId, items[0]);
        match WithEvidence(db, batchId, stagedId, items[0])
        case None =>
        case Some(next) =>
          EvidenceIsClaimed(next, batchId, stagedId, items[1..], wanted);
          TakenElsewhere(items[1..], wanted, Claimed(db, batchId), items[0]);
      }
    }
  }

  lemma FreeStep(items: seq<string>, wanted: seq<string>, taken: set<string>)
    requires items != []
    ensures Free(items, wanted, taken) <==>
            (items[0] in wanted ==> items[0] !in taken) && Free(items[1..], wanted, taken)
  {
  }

  lemma RowIsClaimed(db: Store, batchId: nat, stagedId: nat, id: string)
    ensures match WithEvidence(db, batchId, stagedId, id)
            case None => id in Claimed(db, batchId)
            case Some(next) => id !in Claimed(db, batchId) && Claimed(next, batchId) == Claimed(db, batchId) + {id}
  {
  }

  lemma {:induction false} ObservationsRead(db: Store, batchId: nat, stagedId: nat, observations: seq<Observation>)
    ensures StageObservations(db, batchId, stagedId, observations).1 <==> Readable(observations)
    decreases |observations|
  {
    if observations != [] {
      assert observations == [observations[0]] + observations[1..];
      match WithObservation(db, batchId, stagedId, observations[0])
      case None => assert observations[0] in observations;
      case Some(next) => ObservationsRead(next, batchId, stagedId, observations[1..]);
    }
  }

  /** A candidate whose id is new to the batch: what it leaves behind, and when it is accepted. */
  lemma TryIsExact(db: Store, batchId: nat, known: seq<string>, c: Candidate, id: string)
    requires DistinctIds(known) && OutcomeId(c) == Some(id)
    requires forall s | s in db.staged && s.batchId == batchId :: s.candidateId != id
    requires forall o | o in db.outcomes && o.batchId == batchId :: o.candidateId != id
    ensures var (next, done) := TryCandidate(db, batchId, known, c, id);
            var taken := Claimed(db, batchId);
            if ValidCandidate(c, known) then
              && (done <==> Readable(c.observations) && Free(known, c.evidenceIds.value, taken))
              && Claimed(next, batchId) == taken + Claims(known, c.evidenceIds.value, taken)
              && next.staged == db.staged + [Staged(|db.staged|, batchId, id)]
            else
              !done && next == db
  {
    hide ValidCandidate, StageEvidence, StageObservations, Claims, Free, DistinctIds, Claimed, Readable;
    if ValidCandidate(c, known) {
      ValidIsFields(c, known);
      var d1 := db.(staged := db.staged + [Staged(|db.staged|, batchId, c.id.s)]);
      ClaimedIsEvidence(db, d1, batchId);
      EvidenceIsClaimed(d1, batchId, |db.staged|, known, c.evidenceIds.value);
      EvidenceAddsOnly(d1, batchId, |db.staged|, known, c.evidenceIds.value);
      var (d2, claimed) := StageEvidence(d1, batchId, |db.staged|, known, c.evidenceIds.value);
      if claimed {
        ObservationsRead(d2, batchId, |db.staged|, c.observations);
        ObservationsAddOnly(d2, batchId, |db.staged|, c.observations);
        ObservationsLeaveEvidence(d2, batchId, |db.staged|, c.observations);
        var d3 := StageObservations(d2, batchId, |db.staged|, c.observations).0;
        ClaimedIsEvidence(d2, d3, batchId);
        ClaimedIsEvidence(d3, TryCandidate(db, batchId, known, c, id).0, batchId);
      }
    }
  }

  lemma ClaimedIsEvidence(db: Store, next: Store, batchId: nat)
    ensures db.evidence == next.evidence ==> Claimed(db, batchId) == Claimed(next, batchId)
  {
  }

  // ----- the batch -----

  ghost function StagedIds(db: Store, batchId: nat): set<string> {
    set s | s in db.staged && s.batchId == batchId :: s.candidateId
  }

  function ValidIds(known: seq<string>, candidates: seq<Candidate>): set<string> {
    set c | c in candidates && ValidCandidate(c, known) :: c.id.s
  }

  ghost predicate NoRows(db: Store, batchId: nat) {
    && (forall s | s in db.staged :: s.batchId != batchId)
    && (forall e | e in db.evidence :: e.batchId != batchId)
    && (forall o | o in db.outcomes :: o.batchId != batchId)
  }

  ghost predicate StagedHasOutcome(db: Store, batchId: nat) {
    forall s | s in db.staged && s.batchId == batchId :: exists o | o in db.outcomes ::
        o.batchId == batchId && o.candidateId == s.candidateId
  }

  /** The outcome rows past the first n say which candidates were acceptable in their turn. */
  ghost predicate OutcomesExact(n: nat, outcomes: seq<Outcome>, known: seq<string>, candidates: seq<Candidate>) {
    && |outcomes| == n + |candidates|
    && forall i | 0 <= i < |candidates| :: outcomes[n + i].accepted <==>
       Acceptable(known, candidates[..i], candidates[i])
  }

  lemma ProcessIsExact(db: Store, batchId: nat, known: seq<string>, c: Candidate)
    requires DistinctIds(known) && StagedHasOutcome(db, batchId) && ProcessCandidate(db, batchId, known, c).Some?
    ensures var next := ProcessCandidate(db, batchId, known, c).value;
            var taken := Claimed(db, batchId);
            && |next.outcomes| == |db.outcomes| + 1 && db.outcomes <= next.outcomes
            && (next.outcomes[|db.outcomes|].accepted <==>
                  ValidCandidate(c, known) && Readable(c.observations) && Free(known, c.evidenceIds.value, taken))
            && Claimed(next, batchId)
               == (if ValidCandidate(c, known) then taken + Claims(known, c.evidenceIds.value, taken) else taken)
            && next.staged == db.staged
               + (if ValidCandidate(c, known) then [Staged(|db.staged|, batchId, c.id.s)] else [])
            && StagedHasOutcome(next, batchId)
  {
    hide ValidCandidate, TryCandidate, Claims, Free, Claimed, DistinctIds, Readable;
    var next := ProcessCandidate(db, batchId, known, c).value;
    ProcessAddsOneOutcome(db, batchId, known, c);
    var id := OutcomeId(c).value;
    TryIsExact(db, batchId, known, c, id);
    TryAddsOnly(db, batchId, known, c, id);
    var tried := TryCandidate(db, batchId, known, c, id).0;
    ClaimedIsEvidence(tried, next, batchId);
    if ValidCandidate(c, known) { ValidIsFields(c, known); }
    assert next.outcomes[|db.outcomes|] in next.outcomes;
    forall s | s in next.staged && s.batchId == batchId
      ensures exists o | o in next.outcomes :: o.batchId == batchId && o.candidateId == s.candidateId
    {
      if s in db.staged {
        var o :| o in db.outcomes && o.batchId == batchId && o.candidateId == s.candidateId;
        assert o in next.outcomes;
      }
    }
  }

  lemma StagedIdsStep(db: Store, next: Store, batchId: nat, known: seq<string>, front: seq<Candidate>, c: Candidate)
    requires StagedIds(db, batchId) == ValidIds(known, front)
    requires ValidCandidate(c, known) ==> c.Fields? && c.id.TextId?
    requires next.staged
             == db.staged + (if ValidCandidate(c, known) then [Staged(|db.staged|, batchId, c.id.s)] else [])
    ensures StagedIds(next, batchId) == ValidIds(known, front + [c])
  {
    hide ValidCandidate;
    if ValidCandidate(c, known) {
      assert StagedIds(next, batchId) == StagedIds(db, batchId) + {c.id.s} by {
        var row := Staged(|db.staged|, batchId, c.id.s);
        assert row in next.staged;
        forall s | s in next.staged ensures s in db.staged || s == row {}
      }
      assert ValidIds(known, front + [c]) == ValidIds(known, front) + {c.id.s} by {
        assert c in front + [c];
      }
    } else {
      assert ValidIds(known, front + [c]) == ValidIds(known, front);
      assert next.staged == db.staged;
    }
  }

  lemma OutcomesExactStep(n: nat, before: seq<Outcome>, after: seq<Outcome>, known: seq<string>,
      candidates: seq<Candidate>)
    requires candidates != [] && OutcomesExact(n, before, known, candidates[..|candidates| - 1])
    requires before <= after && |after| == |before| + 1
    requires after[|before|].accepted <==>
             Acceptable(known, candidates[..|candidates| - 1], candidates[|candidates| - 1])
    ensures OutcomesExact(n, after, known, candidates)
  {
    hide Acceptable;
    var front := candidates[..|candidates| - 1];
    forall i | 0 <= i < |candidates|
      ensures after[n + i].accepted <==> Acceptable(known, candidates[..i], candidates[i])
    {
      if i < |front| {
        assert front[..i] == candidates[..i];
        assert after[n + i] == before[n + i];
      }
    }
  }

  lemma {:induction false} AllAreExact(db: Store, batchId: nat, known: seq<string>, candidates: seq<Candidate>)
    requires DistinctIds(known) && NoRows(db, batchId) && ProcessAll(db, batchId, known, candidates).Some?
    ensures var next := ProcessAll(db, batchId, known, candidates).value;
            && StagedHasOutcome(next, batchId)
            && Claimed(next, batchId) == ClaimedBy(known, candidates)
            && StagedIds(next, batchId) == ValidIds(known, candidates)
            && OutcomesExact(|db.outcomes|, next.outcomes, known, candidates)
    decreases |candidates|
  {
    hide DistinctIds, ValidCandidate, ProcessCandidate, StagedHasOutcome, Claimed, StagedIds, ValidIds, OutcomesExact,
         NoRows, Readable, Free, Claims;
    if candidates == [] {
      NothingExact(db, batchId, known);
    } else {
      var front, c := candidates[..|candidates| - 1], candidates[|candidates| - 1];
      AllAreExact(db, batchId, known, front);
      var middle := ProcessAll(db, batchId, known, front).value;
      var next := ProcessCandidate(middle, batchId, known, c).value;
      ProcessIsExact(middle, batchId, known, c);
      if ValidCandidate(c, known) { ValidIsFields(c, known); }
      assert candidates == front + [c];
      StagedIdsStep(middle, next, batchId, known, front, c);
      OutcomesExactStep(|db.outcomes|, middle.outcomes, next.outcomes, known, candidates);
    }
  }

  lemma NothingExact(db: Store, batchId: nat, known: seq<string>)
    requires NoRows(db, batchId)
    ensures StagedHasOutcome(db, batchId) && Claimed(db, batchId) == {}
            && StagedIds(db, batchId) == {} == ValidIds(known, [])
    ensures OutcomesExact(|db.outcomes|, db.outcomes, known, [])
  {
  }

  // ----- main results -----

  lemma NewBatchHasNoRows(db: Store)
    requires Sound(db)
    ensures NoRows(db, |db.batches|)
  {
  }

  /**
   A committed batch: outcome i is accepted exactly when its candidate is valid, its observations can be
   read, and no evidence it refers to was claimed before; and the staged rows are those of all the valid
   candidates, the rejected ones among them included.
   */
  lemma BatchIsExact(db: Store, env: Envelope)
    requires Sound(db) && FindBatch(db.batches, env.crawlId) == None && DistinctIds(env.evidence)
             && Commit(db, env).Some?
    ensures var next := Commit(db, env).value;
            var rows := OutcomesOf(next.outcomes, |db.batches|);
            && |rows| == |env.candidates|
            && (forall i | 0 <= i < |rows| :: rows[i].accepted <==>
               Acceptable(env.evidence, env.candidates[..i], env.candidates[i]))
            && StagedIds(next, |db.batches|) == ValidIds(env.evidence, env.candidates)
  {
    hide ProcessAll, Printable, DistinctIds, OutcomesAdded, OutcomesOf, OutcomesExact, Acceptable, ValidIds, Sound,
         FindBatch;
    var batchId := |db.batches|;
    NewBatchHasNoRows(db);
    CommittedBatch(db, env);
    var begun := WithBatch(db, env.crawlId, env.contentIdentity).value;
    AllAddOutcomes(begun, batchId, env.evidence, env.candidates);
    AllAreExact(begun, batchId, env.evidence, env.candidates);
    var filled := ProcessAll(begun, batchId, env.evidence, env.candidates).value;
    RowsAreExact(begun, filled, batchId, env.evidence, env.candidates);
  }

  lemma RowsAreExact(db: Store, next: Store, batchId: nat, known: seq<string>, candidates: seq<Candidate>)
    requires Printable(candidates) && OutcomesAdded(db, next, batchId, candidates) && NoRows(db, batchId)
    requires OutcomesExact(|db.outcomes|, next.outcomes, known, candidates)
    ensures var rows := OutcomesOf(next.outcomes, batchId);
            |rows| == |candidates| && forall i | 0 <= i < |rows| :: rows[i].accepted <==>
                Acceptable(known, candidates[..i], candidates[i])
  {
    hide Printable, OutcomeIds, OutcomesOf, Acceptable;
    NewRows(db.outcomes, next.outcomes, batchId);
  }

  lemma {:induction false} AcceptedClaims(known: seq<string>, wanted: seq<string>, taken: set<string>)
    requires Free(known, wanted, taken)
    ensures forall i | 0 <= i < |known| :: known[i] in wanted ==> known[i] in Claims(known, wanted, taken)
  {
    if known != [] {
      FreeStep(known, wanted, taken);
      AcceptedClaims(known[1..], wanted, taken);
      forall i | 0 <= i < |known| ensures known[i] in wanted ==> known[i] in Claims(known, wanted, taken) {
        if i > 0 { assert known[i] == known[1..][i - 1]; }
      }
    }
  }

  lemma {:induction false} ClaimsStay(known: seq<string>, candidates: seq<Candidate>, n: nat)
    requires n <= |candidates|
    ensures ClaimedBy(known, candidates[..n]) <= ClaimedBy(known, candidates)
    decreases |candidates|
  {
    hide ValidCandidate, Claims;
    if n < |candidates| {
      var front := candidates[..|candidates| - 1];
      assert front[..n] == candidates[..n];
      ClaimsStay(known, front, n);
    } else {
      assert candidates[..n] == candidates;
    }
  }

  predicate RefersTo(c: Candidate, id: string) {
    c.Fields? && c.evidenceIds.Some? && id in c.evidenceIds.value
  }

  /** What an accepted candidate refers to was unclaimed before it, and is claimed after it. */
  lemma AcceptedIsClaimed(known: seq<string>, before: seq<Candidate>, c: Candidate, id: string)
    requires Acceptable(known, before, c) && RefersTo(c, id)
    ensures id !in ClaimedBy(known, before) && id in ClaimedBy(known, before + [c])
  {
    hide Claims, Readable;
    assert id in known;
    var k :| 0 <= k < |known| && known[k] == id;
    AcceptedClaims(known, c.evidenceIds.value, ClaimedBy(known, before));
    assert (before + [c])[..|before|] == before;
  }

  /** Two accepted candidates of one batch never rest on the same evidence. */
  lemma AcceptedShareNoEvidence(known: seq<string>, candidates: seq<Candidate>, i: nat, j: nat, id: string)
    requires i < j < |candidates|
    requires Acceptable(known, candidates[..i], candidates[i]) && Acceptable(known, candidates[..j], candidates[j])
    ensures !(RefersTo(candidates[i], id) && RefersTo(candidates[j], id))
  {
    hide ClaimedBy, Acceptable, RefersTo;
    if RefersTo(candidates[i], id) && RefersTo(candidates[j], id) {
      AcceptedIsClaimed(known, candidates[..i], candidates[i], id);
      AcceptedIsClaimed(known, candidates[..j], candidates[j], id);
      assert candidates[..j][..i + 1] == candidates[..i] + [candidates[i]];
      ClaimsStay(known, candidates[..j], i + 1);
    }
  }

  lemma {:induction false} ClaimsAreWanted(known: seq<string>, wanted: seq<string>, taken: set<string>)
    ensures forall id | id in Claims(known, wanted, taken) :: id in wanted
  {
    if known != [] { ClaimsAreWanted(known[1..], wanted, taken); }
  }

  lemma {:induction false} ClaimedByIsWanted(known: seq<string>, candidates: seq<Candidate>)
    ensures forall id | id in ClaimedBy(known, candidates) ::
              exists j | 0 <= j < |candidates| :: ValidCandidate(candidates[j], known) && RefersTo(candidates[j], id)
    decreases |candidates|
  {
    hide ValidCandidate, Claims;
    if candidates != [] {
      var n := |candidates| - 1;
      var front, c := candidates[..n], candidates[n];
      ClaimedByIsWanted(known, front);
      if ValidCandidate(c, known) {
        ValidIsFields(c, known);
        ClaimsAreWanted(known, c.evidenceIds.value, ClaimedBy(known, front));
      }
      forall id | id in ClaimedBy(known, candidates)
        ensures exists j | 0 <= j < |candidates| :: ValidCandidate(candidates[j], known) && RefersTo(candidates[j], id)
      {
        if id in ClaimedBy(known, front) {
          var j :| 0 <= j < |front| && ValidCandidate(front[j], known) && RefersTo(front[j], id);
          assert candidates[j] == front[j];
        } else {
          assert ValidCandidate(candidates[n], known) && RefersTo(candidates[n], id);
        }
      }
    }
  }

  ghost predicate SharesNoEvidence(known: seq<string>, candidates: seq<Candidate>) {
    forall i, j | 0 <= i < j < |candidates| && ValidCandidate(candidates[i], known)
        && ValidCandidate(candidates[j], known) ::
      forall id: string | RefersTo(candidates[i], id) :: !RefersTo(candidates[j], id)
  }

  /**
   Valid candidates with readable observations are all accepted exactly when no two of them refer to the
   same evidence.
   */
  lemma AllAcceptedExactlyWhenDisjoint(known: seq<string>, candidates: seq<Candidate>)
    requires forall i | 0 <= i < |candidates| ::
             ValidCandidate(candidates[i], known) && Readable(candidates[i].observations)
    ensures (forall i | 0 <= i < |candidates| :: Acceptable(known, candidates[..i], candidates[i])) <==>
            SharesNoEvidence(known, candidates)
  {
    hide ClaimedBy, Readable, ValidCandidate, Free;
    if SharesNoEvidence(known, candidates) {
      forall i | 0 <= i < |candidates| ensures Acceptable(known, candidates[..i], candidates[i]) {
        DisjointIsFree(known, candidates, i);
      }
    }
    if forall i | 0 <= i < |candidates| :: Acceptable(known, candidates[..i], candidates[i]) {
      forall i, j | 0 <= i < j < |candidates|
        ensures forall id: string | RefersTo(candidates[i], id) :: !RefersTo(candidates[j], id)
      {
        forall id: string | RefersTo(candidates[i], id) ensures !RefersTo(candidates[j], id) {
          AcceptedShareNoEvidence(known, candidates, i, j, id);
        }
      }
    }
  }

  lemma DisjointIsFree(known: seq<string>, candidates: seq<Candidate>, i: nat)
    requires i < |candidates| && SharesNoEvidence(known, candidates) && ValidCandidate(candidates[i], known)
    ensures Free(known, candidates[i].evidenceIds.value, ClaimedBy(known, candidates[..i]))
  {
    hide ClaimedBy, ValidCandidate;
    var before := candidates[..i];
    ClaimedByIsWanted(known, before);
    ValidIsFields(candidates[i], known);
    forall k | 0 <= k < |known| && RefersTo(candidates[i], known[k]) ensures known[k] !in ClaimedBy(known, before) {
    }
  }

  /**
   A staged row does not imply acceptance: of two valid candidates that cite the same evidence the second
   is rejected, and its staged row stays.
   */
  lemma RejectedCandidateCanStayStaged(p: Purl.Purl, q: Purl.Purl)
    ensures var first := Fields(TextId(Purl.PhpIdentity(p)), REQUIRED_MEMBERS, Some(p), Some(["e"]), Some([]), []);
            var second := Fields(TextId(Purl.PhpIdentity(q)), REQUIRED_MEMBERS, Some(q), Some(["e"]), Some([]), []);
            && Acceptable(["e"], [], first) && !Acceptable(["e"], [first], second)
            && Purl.PhpIdentity(q) in ValidIds(["e"], [first, second])
  {
    hide Purl.PhpIdentity;
    var first := Fields(TextId(Purl.PhpIdentity(p)), REQUIRED_MEMBERS, Some(p), Some(["e"]), Some([]), []);
    var second := Fields(TextId(Purl.PhpIdentity(q)), REQUIRED_MEMBERS, Some(q), Some(["e"]), Some([]), []);
    assert Acceptable(["e"], [], first);
    AcceptedIsClaimed(["e"], [], first, "e");
    assert [] + [first] == [first];
    assert "e" in ClaimedBy(["e"], [first]);
    assert second in [first, second];
  }
}
