/**
 Where the rows of a committed batch come from: which evidence and which observations stand beside each staged
 candidate.
 */
module Provenance {
  import opened Wrappers
  import opened Counting
  import opened Ingestion
  import opened IngestionProperties
  import opened Acceptance

  // ----- what a candidate should leave -----

  /** The envelope's evidence that a candidate cites, in the envelope's order. */
  function Cited(known: seq<string>, wanted: seq<string>): seq<string> {
    if known == [] then [] else (if known[0] in wanted then [known[0]] else []) + Cited(known[1..], wanted)
  }

  /** Up to the first that is taken. */
  function UpToTaken(ids: seq<string>, taken: set<string>): seq<string> {
    if ids == [] || ids[0] in taken then [] else [ids[0]] + UpToTaken(ids[1..], taken)
  }

  /** An observation has a value and evidence, and this kind and source, under these names. */
  predicate Says(o: Observation, kind: string, sourceId: string) {
    && o.Object? && "kind" in o.members && "sourceId" in o.members && "value" in o.members && "evidenceIds" in o.members
    && o.members["kind"] == TextMember(kind) && o.members["sourceId"] == TextMember(sourceId)
    && o.members["evidenceIds"] != NullMember
  }

  lemma ReadingSays(o: Observation)
    ensures forall kind, sourceId :: ReadObservation(o) == Some((kind, sourceId)) <==> Says(o, kind, sourceId)
    ensures ReadObservation(o).Some? <==> exists kind, sourceId :: Says(o, kind, sourceId)
  {
    if ReadObservation(o).Some? { assert Says(o, ReadObservation(o).value.0, ReadObservation(o).value.1); }
  }

  /** How many observations stand before the first that cannot be read. */
  ghost function LegibleCount(observations: seq<Observation>): (n: nat)
    ensures n <= |observations|
  {
    if observations == [] then 0
    else if exists kind, sourceId :: Says(observations[0], kind, sourceId) then 1 + LegibleCount(observations[1..])
    else 0
  }

  // ----- what the tables hold -----

  function EvidenceOf(rows: seq<EvidenceRow>, stagedId: nat): seq<string> {
    if rows == [] then []
    else
      var last := rows[|rows| - 1];
      EvidenceOf(rows[..|rows| - 1], stagedId) + if last.stagedId == stagedId then [last.evidenceId] else []
  }

  function ObservationsOf(rows: seq<ObservationRow>, stagedId: nat): seq<ObservationRow> {
    if rows == [] then []
    else
      var last := rows[|rows| - 1];
      ObservationsOf(rows[..|rows| - 1], stagedId) + if last.stagedId == stagedId then [last] else []
  }

  lemma {:induction false} EvidenceOfAppend(s: seq<EvidenceRow>, t: seq<EvidenceRow>, stagedId: nat)
    ensures EvidenceOf(s + t, stagedId) == EvidenceOf(s, stagedId) + EvidenceOf(t, stagedId)
    decreases |t|
  {
    if t == [] {
      assert s + t == s;
    } else {
      assert (s + t)[..|s + t| - 1] == s + t[..|t| - 1];
      EvidenceOfAppend(s, t[..|t| - 1], stagedId);
    }
  }

  lemma {:induction false} ObservationsOfAppend(s: seq<ObservationRow>, t: seq<ObservationRow>, stagedId: nat)
    ensures ObservationsOf(s + t, stagedId) == ObservationsOf(s, stagedId) + ObservationsOf(t, stagedId)
    decreases |t|
  {
    if t == [] {
      assert s + t == s;
    } else {
      assert (s + t)[..|s + t| - 1] == s + t[..|t| - 1];
      ObservationsOfAppend(s, t[..|t| - 1], stagedId);
    }
  }

  lemma {:induction false} OthersEvidence(rows: seq<EvidenceRow>, stagedId: nat)
    requires forall e | e in rows :: e.stagedId != stagedId
    ensures EvidenceOf(rows, stagedId) == []
  {
    if rows != [] { OthersEvidence(rows[..|rows| - 1], stagedId); }
  }

  lemma {:induction false} OthersObservations(rows: seq<ObservationRow>, stagedId: nat)
    requires forall o | o in rows :: o.stagedId != stagedId
    ensures ObservationsOf(rows, stagedId) == []
  {
    if rows != [] { OthersObservations(rows[..|rows| - 1], stagedId); }
  }

  lemma {:induction false} OwnObservations(rows: seq<ObservationRow>, stagedId: nat)
    requires forall o | o in rows :: o.stagedId == stagedId
    ensures ObservationsOf(rows, stagedId) == rows
  {
    if rows != [] { OwnObservations(rows[..|rows| - 1], stagedId); }
  }

  function EvidenceRows(batchId: nat, stagedId: nat, ids: seq<string>): (r: seq<EvidenceRow>)
    ensures |r| == |ids|
  {
    seq(|ids|, i requires 0 <= i < |ids| => EvidenceRow(batchId, stagedId, ids[i]))
  }

  lemma {:induction false} OwnEvidence(batchId: nat, stagedId: nat, ids: seq<string>)
    ensures EvidenceOf(EvidenceRows(batchId, stagedId, ids), stagedId) == ids
  {
    if ids != [] {
      var n := |ids| - 1;
      assert EvidenceRows(batchId, stagedId, ids)[..n] == EvidenceRows(batchId, stagedId, ids[..n]);
      OwnEvidence(batchId, stagedId, ids[..n]);
      assert ids == ids[..n] + [ids[n]];
    }
  }

  // ----- one candidate -----

  lemma {:induction false} TakenNotCited(known: seq<string>, wanted: seq<string>, taken: set<string>, id: string)
    requires id !in known
    ensures UpToTaken(Cited(known, wanted), taken + {id}) == UpToTaken(Cited(known, wanted), taken)
  {
    if known != [] {
      TakenNotCited(known[1..], wanted, taken, id);
      CitedStep(known, wanted);
    }
  }

  lemma CitedStep(known: seq<string>, wanted: seq<string>)
    requires known != []
    ensures known[0] !in wanted ==> Cited(known, wanted) == Cited(known[1..], wanted)
    ensures known[0] in wanted ==>
              Cited(known, wanted) == [known[0]] + Cited(known[1..], wanted)
              && Cited(known, wanted)[1..] == Cited(known[1..], wanted)
  {
  }

  lemma {:induction false} EvidenceIsCited(db: Store, batchId: nat, stagedId: nat, items: seq<string>,
      wanted: seq<string>)
    requires DistinctIds(items)
    ensures StageEvidence(db, batchId, stagedId, items, wanted).0.evidence == db.evidence +
              EvidenceRows(batchId, stagedId, UpToTaken(Cited(items, wanted), Claimed(db, batchId)))
    ensures StageEvidence(db, batchId, stagedId, items, wanted).0.observations == db.observations
    decreases |items|
  {
    hide DistinctIds, Claimed;
    if items != [] {
      DistinctRest(items);
      CitedStep(items, wanted);
      if items[0] !in wanted {
        EvidenceIsCited(db, batchId, stagedId, items[1..], wanted);
      } else {
        RowIsClaimed(db, batchId, stagedId, items[0]);
        match WithEvidence(db, batchId, stagedId, items[0])
        case None =>
        case Some(next) =>
          EvidenceIsCited(next, batchId, stagedId, items[1..], wanted);
          TakenNotCited(items[1..], wanted, Claimed(db, batchId), items[0]);
          var rest := UpToTaken(Cited(items[1..], wanted), Claimed(db, batchId));
          assert EvidenceRows(batchId, stagedId, [items[0]] + rest)
              == [EvidenceRow(batchId, stagedId, items[0])] + EvidenceRows(batchId, stagedId, rest);
      }
    }
  }

  /** These rows are the first of these observations, filed under one batch and staged row. */
  ghost predicate Records(rows: seq<ObservationRow>, batchId: nat, stagedId: nat, observations: seq<Observation>) {
    && |rows| <= |observations|
    && forall j | 0 <= j < |rows| ::
         && rows[j].batchId == batchId && rows[j].stagedId == stagedId
         && Says(observations[j], rows[j].kind, rows[j].sourceId)
  }

  lemma {:induction false} ObservationsAreRecorded(db: Store, batchId: nat, stagedId: nat,
      observations: seq<Observation>) returns (rows: seq<ObservationRow>)
    ensures StageObservations(db, batchId, stagedId, observations).0.observations == db.observations + rows
    ensures |rows| == LegibleCount(observations) && Records(rows, batchId, stagedId, observations)
    decreases |observations|
  {
    hide ReadObservation, Says;
    rows := [];
    if observations == [] {
      assert db.observations + [] == db.observations;
    } else {
      ReadingSays(observations[0]);
      match WithObservation(db, batchId, stagedId, observations[0])
      case None => assert db.observations + [] == db.observations;
      case Some(next) =>
        var rest := ObservationsAreRecorded(next, batchId, stagedId, observations[1..]);
        var row := next.observations[|db.observations|];
        rows := [row] + rest;
        assert next.observations == db.observations + [row];
        assert db.observations + [row] + rest == db.observations + ([row] + rest);
    }
  }

  lemma {:induction false} FreeIsUntaken(known: seq<string>, wanted: seq<string>, taken: set<string>)
    ensures Free(known, wanted, taken) <==> UpToTaken(Cited(known, wanted), taken) == Cited(known, wanted)
    decreases |known|
  {
    hide Free;
    if known == [] {
      NothingTaken(wanted, taken);
    } else {
      FreeStep(known, wanted, taken);
      FreeIsUntaken(known[1..], wanted, taken);
      CitedStep(known, wanted);
      var cited := Cited(known, wanted);
      if known[0] in wanted && known[0] !in taken {
        assert UpToTaken(cited, taken) == [known[0]] + UpToTaken(cited[1..], taken);
        if UpToTaken(cited, taken) == cited { assert UpToTaken(cited[1..], taken) == cited[1..]; }
      }
    }
  }

  lemma NothingTaken(wanted: seq<string>, taken: set<string>)
    ensures Free([], wanted, taken) && Cited([], wanted) == []
  {
  }

  /** What stands beside one staged row: the candidate's evidence that was not taken, and its legible observations. */
  ghost predicate Beside(db: Store, batchId: nat, stagedId: nat, known: seq<string>, c: Candidate, taken: set<string>) {
    && c.Fields? && c.id.TextId? && c.evidenceIds.Some?
    && var cited, rows := Cited(known, c.evidenceIds.value), ObservationsOf(db.observations, stagedId);
    && stagedId < |db.staged| && db.staged[stagedId] == Staged(stagedId, batchId, c.id.s)
    && EvidenceOf(db.evidence, stagedId) == UpToTaken(cited, taken)
    && Records(rows, batchId, stagedId, c.observations)
    && |rows| == if UpToTaken(cited, taken) == cited then LegibleCount(c.observations) else 0
  }

  lemma {:induction false} TryLeaves(db: Store, batchId: nat, known: seq<string>, c: Candidate, id: string)
    requires DistinctIds(known) && ValidCandidate(c, known) && id == c.id.s && RowsOwned(db)
    requires forall s | s in db.staged && s.batchId == batchId :: s.candidateId != id
    ensures Beside(TryCandidate(db, batchId, known, c, id).0, batchId, |db.staged|, known, c, Claimed(db, batchId))
  {
    hide ValidCandidate, StageEvidence, StageObservations, Claims, Free, DistinctIds, Claimed, UpToTaken, Cited,
         RowsOwned, EvidenceOf, ObservationsOf, EvidenceRows, Records, LegibleCount;
    ValidIsFields(c, known);
    var r, wanted := |db.staged|, c.evidenceIds.value;
    var d1 := db.(staged := db.staged + [Staged(r, batchId, c.id.s)]);
    assert WithStaged(db, batchId, c.id.s) == Some(d1);
    ClaimedIsEvidence(db, d1, batchId);
    EvidenceIsCited(d1, batchId, r, known, wanted);
    EvidenceIsClaimed(d1, batchId, r, known, wanted);
    EvidenceAddsOnly(d1, batchId, r, known, wanted);
    FreeIsUntaken(known, wanted, Claimed(db, batchId));
    var kept := UpToTaken(Cited(known, wanted), Claimed(db, batchId));
    var (d2, done) := StageEvidence(d1, batchId, r, known, wanted);
    NothingThere(db);
    EvidenceOfAppend(db.evidence, EvidenceRows(batchId, r, kept), r);
    OwnEvidence(batchId, r, kept);
    if done {
      ObservationsAddOnly(d2, batchId, r, c.observations);
      ObservationsLeaveEvidence(d2, batchId, r, c.observations);
      var rows := ObservationsAreRecorded(d2, batchId, r, c.observations);
      RecordsAreOwn(rows, batchId, r, c.observations);
      ObservationsOfAppend(db.observations, rows, r);
      var d3 := StageObservations(d2, batchId, r, c.observations).0;
      var next := TryCandidate(db, batchId, known, c, id).0;
      assert next.staged == d3.staged == d1.staged && next.evidence == d2.evidence;
      assert next.observations == db.observations + rows;
      assert ObservationsOf(next.observations, r) == rows;
    } else {
      NoRecords(batchId, r, c.observations);
    }
  }

  lemma NothingThere(db: Store)
    requires RowsOwned(db)
    ensures EvidenceOf(db.evidence, |db.staged|) == [] && ObservationsOf(db.observations, |db.staged|) == []
  {
    OthersEvidence(db.evidence, |db.staged|);
    OthersObservations(db.observations, |db.staged|);
  }

  lemma RecordsAreOwn(rows: seq<ObservationRow>, batchId: nat, stagedId: nat, observations: seq<Observation>)
    requires Records(rows, batchId, stagedId, observations)
    ensures ObservationsOf(rows, stagedId) == rows
  {
    OwnObservations(rows, stagedId);
  }

  lemma NoRecords(batchId: nat, stagedId: nat, observations: seq<Observation>)
    ensures Records([], batchId, stagedId, observations)
  {
  }

  /** Rows for another staged candidate change nothing here. */
  lemma BesideStays(db: Store, next: Store, other: nat, batchId: nat, stagedId: nat, known: seq<string>, c: Candidate,
      taken: set<string>)
    requires Beside(db, batchId, stagedId, known, c, taken) && db.staged <= next.staged
    requires OwnedBy(db, next, other) && other != stagedId
    ensures Beside(next, batchId, stagedId, known, c, taken)
  {
    hide EvidenceOf, ObservationsOf, UpToTaken, Cited, Records, LegibleCount;
    var evidence, observations := next.evidence[|db.evidence|..], next.observations[|db.observations|..];
    assert next.evidence == db.evidence + evidence && next.observations == db.observations + observations;
    EvidenceOfAppend(db.evidence, evidence, stagedId);
    ObservationsOfAppend(db.observations, observations, stagedId);
    OthersEvidence(evidence, stagedId);
    OthersObservations(observations, stagedId);
    assert EvidenceOf(next.evidence, stagedId) == EvidenceOf(db.evidence, stagedId);
    assert ObservationsOf(next.observations, stagedId) == ObservationsOf(db.observations, stagedId);
  }

  lemma SameBeside(db: Store, next: Store, batchId: nat, stagedId: nat, known: seq<string>, c: Candidate,
      taken: set<string>)
    requires Beside(db, batchId, stagedId, known, c, taken) && next.staged == db.staged
    requires next.evidence == db.evidence && next.observations == db.observations
    ensures Beside(next, batchId, stagedId, known, c, taken)
  {
  }

  lemma OutcomeAloneIsAdded(db: Store, batchId: nat, known: seq<string>, c: Candidate)
    requires ProcessCandidate(db, batchId, known, c).Some?
    ensures var next := ProcessCandidate(db, batchId, known, c).value;
            var tried := TryCandidate(db, batchId, known, c, OutcomeId(c).value).0;
            next.staged == tried.staged && next.evidence == tried.evidence && next.observations == tried.observations
  {
    hide TryCandidate;
  }

  lemma ProcessLeaves(db: Store, batchId: nat, known: seq<string>, c: Candidate)
    requires DistinctIds(known) && RowsOwned(db) && StagedHasOutcome(db, batchId)
    requires ProcessCandidate(db, batchId, known, c).Some?
    ensures var next := ProcessCandidate(db, batchId, known, c).value;
            && OwnedBy(db, next, |db.staged|) && db.staged <= next.staged
            && |next.staged| == |db.staged| + (if ValidCandidate(c, known) then 1 else 0)
            && (ValidCandidate(c, known) ==>
                  Beside(next, batchId, |db.staged|, known, c, Claimed(db, batchId)))
  {
    hide TryCandidate, ValidCandidate, ProcessCandidate, Beside, DistinctIds, Claims, Claimed;
    var next := ProcessCandidate(db, batchId, known, c).value;
    ProcessIsExact(db, batchId, known, c);
    OutcomeAloneIsAdded(db, batchId, known, c);
    ProcessAddsOneOutcome(db, batchId, known, c);
    var id := OutcomeId(c).value;
    TryOwns(db, batchId, known, c, id);
    if ValidCandidate(c, known) {
      ValidIsFields(c, known);
      TryLeaves(db, batchId, known, c, id);
      SameBeside(TryCandidate(db, batchId, known, c, id).0, next, batchId, |db.staged|, known, c, Claimed(db, batchId));
    }
  }

  // ----- the batch -----

  function IsValid(known: seq<string>): Candidate -> bool {
    (c: Candidate) => ValidCandidate(c, known)
  }

  /** The row of the i-th candidate: rows are numbered on, one for each valid candidate. */
  function RowOf(first: nat, known: seq<string>, candidates: seq<Candidate>, i: nat): nat
    requires i <= |candidates|
  {
    first + CountIf(candidates[..i], IsValid(known))
  }

  ghost predicate AllBeside(first: nat, next: Store, batchId: nat, known: seq<string>, candidates: seq<Candidate>) {
    forall i | 0 <= i < |candidates| && ValidCandidate(candidates[i], known) ::
      Beside(next, batchId, RowOf(first, known, candidates, i), known, candidates[i],
        ClaimedBy(known, candidates[..i]))
  }

  lemma RowsCountOn(first: nat, known: seq<string>, candidates: seq<Candidate>)
    requires candidates != []
    ensures var n := |candidates| - 1;
            && RowOf(first, known, candidates, n) == RowOf(first, known, candidates[..n], n)
            && RowOf(first, known, candidates, n + 1)
               == RowOf(first, known, candidates, n) + (if ValidCandidate(candidates[n], known) then 1 else 0)
  {
    hide ValidCandidate;
    var n := |candidates| - 1;
    assert candidates[..n + 1] == candidates && candidates[..n][..n] == candidates[..n];
  }

  lemma {:induction false} EarlierRow(first: nat, known: seq<string>, candidates: seq<Candidate>, i: nat)
    requires i < |candidates| && ValidCandidate(candidates[i], known)
    ensures RowOf(first, known, candidates, i) < RowOf(first, known, candidates, |candidates|)
    decreases |candidates|
  {
    hide ValidCandidate, RowOf;
    var n := |candidates| - 1;
    RowsCountOn(first, known, candidates);
    if i < n {
      EarlierRow(first, known, candidates[..n], i);
      SameRow(first, known, candidates, i);
    }
  }

  lemma SameRow(first: nat, known: seq<string>, candidates: seq<Candidate>, i: nat)
    requires i < |candidates|
    ensures var front := candidates[..|candidates| - 1];
            front[..i] == candidates[..i] && RowOf(first, known, front, i) == RowOf(first, known, candidates, i)
  {
    assert candidates[..|candidates| - 1][..i] == candidates[..i];
  }

  lemma {:induction false} AllLeave(db: Store, batchId: nat, known: seq<string>, candidates: seq<Candidate>)
    requires SoundRows(db) && batchId < |db.batches| && DistinctIds(known) && NoRows(db, batchId)
    requires ProcessAll(db, batchId, known, candidates).Some?
    ensures var next := ProcessAll(db, batchId, known, candidates).value;
            && |next.staged| == RowOf(|db.staged|, known, candidates, |candidates|)
            && AllBeside(|db.staged|, next, batchId, known, candidates)
    decreases |candidates|
  {
    hide ProcessCandidate, ValidCandidate, Beside, RowOf, SoundRows, NoRows, DistinctIds, StagedHasOutcome, Claimed,
         ClaimedBy, StagedIds, ValidIds, OutcomesExact, OwnedBy;
    var first := |db.staged|;
    if candidates == [] {
      NoRowYet(first, known);
    } else {
      var n := |candidates| - 1;
      var front, c := candidates[..n], candidates[n];
      AllLeave(db, batchId, known, front);
      AllAreExact(db, batchId, known, front);
      AllKeepSound(db, batchId, known, front);
      var middle := ProcessAll(db, batchId, known, front).value;
      var next := ProcessCandidate(middle, batchId, known, c).value;
      SoundIsOwned(middle);
      ProcessLeaves(middle, batchId, known, c);
      RowsCountOn(first, known, candidates);
      forall i | 0 <= i < |candidates| && ValidCandidate(candidates[i], known)
        ensures Beside(next, batchId, RowOf(first, known, candidates, i), known, candidates[i],
          ClaimedBy(known, candidates[..i]))
      {
        SameRow(first, known, candidates, i);
        if i < n {
          EarlierRow(first, known, front, i);
          BesideStays(middle, next, |middle.staged|, batchId, RowOf(first, known, front, i), known, front[i],
            ClaimedBy(known, front[..i]));
        }
      }
    }
  }

  lemma NoRowYet(first: nat, known: seq<string>)
    ensures RowOf(first, known, [], 0) == first
  {
  }

  lemma SoundIsOwned(db: Store)
    requires SoundRows(db)
    ensures RowsOwned(db)
  {
  }

  // ----- main results -----

  lemma {:induction false} AllLegible(observations: seq<Observation>)
    requires Readable(observations)
    ensures LegibleCount(observations) == |observations|
  {
    hide ReadObservation, Says;
    if observations != [] {
      assert observations[0] in observations;
      ReadingSays(observations[0]);
      forall o | o in observations[1..] ensures ReadObservation(o).Some? { assert o in observations; }
      AllLegible(observations[1..]);
    }
  }

  /** All that the candidate cites, and all of its observations. */
  ghost predicate Complete(db: Store, stagedId: nat, known: seq<string>, c: Candidate) {
    && c.Fields? && c.evidenceIds.Some? && EvidenceOf(db.evidence, stagedId) == Cited(known, c.evidenceIds.value)
    && |ObservationsOf(db.observations, stagedId)| == |c.observations|
  }

  /**
   The rows of a committed batch: its i-th candidate, if valid, has the staged row numbered after those of the valid
   candidates before it. Under that row stand, in the envelope's order, the evidence that the candidate cites up to the
   first that an earlier candidate holds, and then its observations up to the first that cannot be read, each with its
   own kind and source. An accepted candidate has all of its evidence and observations there.
   */
  lemma RowsOfTheBatch(db: Store, env: Envelope, i: nat)
    requires Sound(db) && FindBatch(db.batches, env.crawlId) == None && DistinctIds(env.evidence)
    requires Commit(db, env).Some? && i < |env.candidates| && ValidCandidate(env.candidates[i], env.evidence)
    ensures var next, c := Commit(db, env).value, env.candidates[i];
            var row := RowOf(|db.staged|, env.evidence, env.candidates, i);
            var rows := OutcomesOf(next.outcomes, |db.batches|);
            && |rows| == |env.candidates|
            && Beside(next, |db.batches|, row, env.evidence, c, ClaimedBy(env.evidence, env.candidates[..i]))
            && (rows[i].accepted ==> Complete(next, row, env.evidence, c))
  {
    hide *;
    BatchIsExact(db, env);
    RowsStand(db, env, i);
    var known, c, before := env.evidence, env.candidates[i], env.candidates[..i];
    assert OutcomesOf(Commit(db, env).value.outcomes, |db.batches|)[i].accepted <==> Acceptable(known, before, c);
    if Acceptable(known, before, c) {
      AllThere(Commit(db, env).value, |db.batches|, RowOf(|db.staged|, known, env.candidates, i), known, before, c);
    }
  }

  lemma RowsStand(db: Store, env: Envelope, i: nat)
    requires Sound(db) && DistinctIds(env.evidence)
    requires Commit(db, env).Some? && i < |env.candidates| && ValidCandidate(env.candidates[i], env.evidence)
    ensures Beside(Commit(db, env).value, |db.batches|, RowOf(|db.staged|, env.evidence, env.candidates, i),
              env.evidence, env.candidates[i], ClaimedBy(env.evidence, env.candidates[..i]))
  {
    hide ProcessAll, ValidCandidate, Beside, RowOf, Sound, DistinctIds, ClaimedBy, SoundRows, NoRows;
    NewBatchHasNoRows(db);
    var begun := WithBatch(db, env.crawlId, env.contentIdentity).value;
    SoundBegins(db, env);
    AllLeave(begun, |db.batches|, env.evidence, env.candidates);
    var filled := ProcessAll(begun, |db.batches|, env.evidence, env.candidates).value;
    SameBeside(filled, Commit(db, env).value, |db.batches|, RowOf(|db.staged|, env.evidence, env.candidates, i),
      env.evidence, env.candidates[i], ClaimedBy(env.evidence, env.candidates[..i]));
  }

  lemma SoundBegins(db: Store, env: Envelope)
    requires Sound(db) && WithBatch(db, env.crawlId, env.contentIdentity).Some?
    ensures var begun := WithBatch(db, env.crawlId, env.contentIdentity).value;
            && SoundRows(begun) && |begun.batches| == |db.batches| + 1 && begun.staged == db.staged
            && (NoRows(db, |db.batches|) ==> NoRows(begun, |db.batches|))
  {
    BeginKeepsSound(db, env.crawlId, env.contentIdentity);
  }

  lemma AllThere(db: Store, batchId: nat, row: nat, known: seq<string>, before: seq<Candidate>, c: Candidate)
    requires Beside(db, batchId, row, known, c, ClaimedBy(known, before)) && Acceptable(known, before, c)
    ensures Complete(db, row, known, c)
  {
    hide EvidenceOf, ObservationsOf, Cited, UpToTaken, Free, Readable, LegibleCount, ValidCandidate, ClaimedBy;
    FreeIsUntaken(known, c.evidenceIds.value, ClaimedBy(known, before));
    AllLegible(c.observations);
  }
}
