/**
 The service looks a crawl up before its transaction begins. Here requests overlap: any number of them can
 have looked and found nothing before one of them commits. Transactions themselves are serial.
 */
module Interleaving {
  import opened Wrappers
  import opened Ingestion
  import opened IngestionProperties

  datatype World = World(db: Store, pending: seq<Envelope>)

  datatype Step = Look(env: Envelope) | Finish(i: nat)

  /** A request whose crawl is unknown goes on to its transaction; every other one is answered at once. */
  function Take(w: World, step: Step): World {
    match step
    case Look(env) => if FindBatch(w.db.batches, env.crawlId).None? then w.(pending := w.pending + [env]) else w
    case Finish(i) =>
      if i >= |w.pending| then w
      else
        World(match Commit(w.db, w.pending[i]) case None => w.db case Some(next) => next,
            w.pending[..i] + w.pending[i + 1..])
  }

  function Run(w: World, steps: seq<Step>): World
    decreases |steps|
  {
    if steps == [] then w else Run(Take(w, steps[0]), steps[1..])
  }

  /** The unique key of the batches. */
  ghost predicate UniquePairs(db: Store) {
    forall i, j | 0 <= i < j < |db.batches| ::
      (db.batches[i].crawlId, db.batches[i].contentIdentity) != (db.batches[j].crawlId, db.batches[j].contentIdentity)
  }

  lemma CommitKeepsPairs(db: Store, env: Envelope)
    requires SoundRows(db) && UniquePairs(db) && Commit(db, env).Some?
    ensures SoundRows(Commit(db, env).value) && UniquePairs(Commit(db, env).value)
  {
    hide Commit, SoundRows;
    CommitKeepsSound(db, env);
  }

  /** However requests overlap, every key stays unique and every accepted outcome points at its staged row. */
  lemma {:induction false} OverlapKeepsRows(w: World, steps: seq<Step>)
    requires SoundRows(w.db) && UniquePairs(w.db)
    ensures SoundRows(Run(w, steps).db) && UniquePairs(Run(w, steps).db)
    decreases |steps|
  {
    hide Commit, SoundRows, UniquePairs;
    if steps != [] {
      match steps[0] {
        case Look(_) =>
        case Finish(i) =>
          if i < |w.pending| && Commit(w.db, w.pending[i]).Some? { CommitKeepsPairs(w.db, w.pending[i]); }
      }
      OverlapKeepsRows(Take(w, steps[0]), steps[1..]);
    }
  }

  /**
   A transaction breaks the binding of crawls to artifacts exactly when it commits a crawl that was stored
   since it looked; with the same artifact it cannot commit.
   */
  lemma FinishKeepsOneArtifact(w: World, i: nat)
    requires Sound(w.db) && i < |w.pending|
    ensures var env := w.pending[i];
            OneArtifactPerCrawl(Take(w, Finish(i)).db) <==>
                Commit(w.db, env).None? || FindBatch(w.db.batches, env.crawlId).None?
    ensures (exists b | b in w.db.batches ::
            b.crawlId == w.pending[i].crawlId && b.contentIdentity == w.pending[i].contentIdentity)
              ==> Take(w, Finish(i)).db == w.db
  {
    hide Commit, FindBatch, SoundRows;
    var env := w.pending[i];
    if Commit(w.db, env).Some? {
      CommitKeepsSound(w.db, env);
      var next := Commit(w.db, env).value;
      var n := |w.db.batches|;
      assert next.batches[n].crawlId == env.crawlId;
      if FindBatch(w.db.batches, env.crawlId).Some? {
        var b := FindBatch(w.db.batches, env.crawlId).value;
        var j :| 0 <= j < n && w.db.batches[j] == b;
        assert next.batches[j].crawlId == next.batches[n].crawlId;
      }
    }
  }

  /** Two clients that use one crawl id for different artifacts, both of which look first. */
  lemma TwoArtifactsForOneCrawl(first: Envelope, second: Envelope)
    requires first.crawlId == second.crawlId && first.contentIdentity != second.contentIdentity
    requires first.candidates == [] == second.candidates
    ensures var w := Run(World(EMPTY_STORE, []), [Look(first), Look(second), Finish(0), Finish(0)]);
            |w.db.batches| == 2 && !OneArtifactPerCrawl(w.db)
  {
    var w2 := World(EMPTY_STORE, [first, second]);
    var start := World(EMPTY_STORE, []);
    assert Take(Take(start, Look(first)), Look(second)) == w2;
    var one := Store([Batch(0, first.crawlId, first.contentIdentity, true)], [], [], [], []);
    assert EMPTY_STORE.batches + one.batches == one.batches;
    assert Commit(EMPTY_STORE, first) == Some(one);
    var w3 := World(one, [second]);
    assert Take(w2, Finish(0)) == w3;
    var two := Store(one.batches + [Batch(1, second.crawlId, second.contentIdentity, true)], [], [], [], []);
    assert Commit(one, second) == Some(two);
    var w4 := World(two, []);
    assert Take(w3, Finish(0)) == w4;
    var steps := [Look(first), Look(second), Finish(0), Finish(0)];
    RunsOn(start, steps);
    RunsOn(Take(start, steps[0]), steps[1..]);
    RunsOn(w2, steps[2..]);
    RunsOn(w3, steps[3..]);
    assert two.batches[0].crawlId == two.batches[1].crawlId;
  }

  lemma RunsOn(w: World, steps: seq<Step>)
    requires steps != []
    ensures Run(w, steps) == Run(Take(w, steps[0]), steps[1..])
  {
  }

  /** Clients that derive the crawl id from the artifact, or the other way round, are safe however they overlap. */
  ghost predicate Bound(db: Store, artifactOf: string -> string) {
    forall b | b in db.batches :: b.contentIdentity == artifactOf(b.crawlId)
  }

  ghost predicate Follows(envs: seq<Envelope>, artifactOf: string -> string) {
    forall env | env in envs :: env.contentIdentity == artifactOf(env.crawlId)
  }

  ghost predicate StepsFollow(steps: seq<Step>, artifactOf: string -> string) {
    forall i | 0 <= i < |steps| && steps[i].Look? :: steps[i].env.contentIdentity == artifactOf(steps[i].env.crawlId)
  }

  lemma BoundIsOneArtifact(db: Store, artifactOf: string -> string)
    requires UniquePairs(db) && Bound(db, artifactOf)
    ensures OneArtifactPerCrawl(db)
  {
  }

  lemma TakeKeepsBound(w: World, step: Step, artifactOf: string -> string)
    requires SoundRows(w.db) && Bound(w.db, artifactOf) && Follows(w.pending, artifactOf)
             && StepsFollow([step], artifactOf)
    ensures Bound(Take(w, step).db, artifactOf) && Follows(Take(w, step).pending, artifactOf)
  {
    hide Commit, SoundRows;
    match step {
      case Look(env) => assert [step][0] == step;
      case Finish(i) =>
        if i < |w.pending| {
          var env := w.pending[i];
          assert env in w.pending;
          if Commit(w.db, env).Some? { CommitKeepsSound(w.db, env); }
        }
    }
  }

  lemma {:induction false} OneArtifactWhenBound(w: World, steps: seq<Step>, artifactOf: string -> string)
    requires SoundRows(w.db) && UniquePairs(w.db)
    requires Bound(w.db, artifactOf) && Follows(w.pending, artifactOf) && StepsFollow(steps, artifactOf)
    ensures OneArtifactPerCrawl(Run(w, steps).db)
    decreases |steps|
  {
    hide SoundRows, UniquePairs, Bound, Follows, Take;
    if steps == [] {
      BoundIsOneArtifact(w.db, artifactOf);
    } else {
      var next := Take(w, steps[0]);
      assert StepsFollow([steps[0]], artifactOf);
      assert StepsFollow(steps[1..], artifactOf);
      TakeKeepsBound(w, steps[0], artifactOf);
      OverlapKeepsRows(w, [steps[0]]);
      assert [steps[0]][1..] == [];
      OneArtifactWhenBound(next, steps[1..], artifactOf);
    }
  }
}
