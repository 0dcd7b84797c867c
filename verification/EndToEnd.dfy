/** From a scraper run to the service's tables: what becomes of an assembled artifact. */
module EndToEnd {
  import opened Wrappers
  import opened Candidates
  import opened CandidateValidator
  import opened Ingestion
  import opened IngestionProperties
  import opened Acceptance
  import opened Protocol
  import opened RunAssembly
  import Entries
  import Purl
  import Sorting

  /** A run's candidates as the client sends them. */
  function ArtifactOf(crawlId: string, contentIdentity: string, assembled: Assembled): Artifact {
    Artifact(crawlId, contentIdentity, assembled.candidates, assembled.evidence)
  }

  lemma AllInKnown(ids: seq<string>, evidence: seq<Evidence>)
    ensures AllIn(ids, KnownIds(evidence)) <==> AllKnown(ids, EvidenceIds(evidence))
  {
    var listed := EvidenceIds(evidence);
    forall id ensures id in KnownIds(evidence) <==> id in listed {
      if id in KnownIds(evidence) {
        var i :| 0 <= i < |evidence| && evidence[i].id == id;
        assert listed[i] == id;
      }
      if id in listed {
        var i :| 0 <= i < |listed| && listed[i] == id;
        assert evidence[i] in evidence;
      }
    }
  }

  /** A candidate that passed the validator arrives valid exactly when its PURL is portable. */
  lemma ValidatedArrives(c: PackageCandidate, evidence: seq<Evidence>, le: Entries.Collation)
    requires Purl.ValidKind(c.purl.kind) && Refers(c, KnownIds(evidence), le)
    ensures ValidCandidate(TransportCandidate(c), EvidenceIds(evidence)) <==> Purl.Portable(c.purl)
  {
    hide Purl.CandidateIdentity, Purl.Portable, Purl.ValidKind, ValidCandidate, AllIn, AllKnown;
    ArrivesValid(c, EvidenceIds(evidence), le);
    AllInKnown(c.evidenceIds, evidence);
    forall i | 0 <= i < |c.detections| ensures AllKnown(c.detections[i].evidenceIds, EvidenceIds(evidence)) {
      assert DetectionLists(c.detections)[i] in DetectionLists(c.detections);
      AllInKnown(c.detections[i].evidenceIds, evidence);
    }
  }

  lemma SortedIdsDistinct(candidates: seq<PackageCandidate>, sorted: seq<PackageCandidate>)
    requires multiset(sorted) == multiset(candidates)
    requires forall i, j | 0 <= i < j < |candidates| :: candidates[i].candidateId != candidates[j].candidateId
    ensures DistinctIds(IdsOf(sorted))
  {
    var ids, sortedIds := Sorting.Map(candidates, ById()), Sorting.Map(sorted, ById());
    Sorting.MapPermutes(candidates, sorted, ById());
    Sorting.DistinctPermutation(ids, sortedIds);
    assert sortedIds == IdsOf(sorted);
  }

  /**
   The artifact of a run that the validator passed, sent in batches in any order, repeated at will, among any
   other requests: if its PURLs are portable, then once its crawl is stored all its candidates are staged exactly
   when they fit one batch.
   */
  lemma RunIsStagedExactlyWhenOneBatch(
      results: seq<AdapterRunResult>, assembled: Assembled, crawlId: string, contentIdentity: string,
      le: Entries.Collation, db: Store, requests: seq<Envelope>, server: Server, size: nat, b: Batch)
    requires multiset(assembled.candidates) == multiset(Kept(results))
    requires CheckAll(assembled.candidates, KnownIds(assembled.evidence), le) == []
    requires forall c | c in assembled.candidates :: Purl.ValidKind(c.purl.kind) && Purl.Portable(c.purl)
    requires Sound(db) && FindBatch(db.batches, crawlId) == None && size > 0
    requires OwnBatches(requests, ArtifactOf(crawlId, contentIdentity, assembled), size)
    requires FindBatch(ServeAll(db, requests, server.maxCandidates, server.clean).batches, crawlId) == Some(b)
    ensures var next := ServeAll(db, requests, server.maxCandidates, server.clean);
            (forall c | c in assembled.candidates :: c.candidateId in StagedIds(next, b.id)) <==>
                |assembled.candidates| <= size
  {
    hide Sound, OwnBatches, ServeAll, FindBatch, StagedIds, ValidCandidate, DistinctIds, IdsOf, CheckAll, Refers, Kept,
         TransportCandidate, Purl.ValidKind, Purl.Portable;
    var a := ArtifactOf(crawlId, contentIdentity, assembled);
    KeptInFirstSeenOrder(results);
    SortedIdsDistinct(Kept(results), assembled.candidates);
    NoIssuesExactly(assembled.candidates, KnownIds(assembled.evidence), le);
    forall c | c in a.candidates ensures ValidCandidate(TransportCandidate(c), EvidenceIds(a.evidence)) {
      ValidatedArrives(c, assembled.evidence, le);
    }
    AllStagedExactlyWhenOneBatch(db, requests, server, a, size, b);
  }
}
