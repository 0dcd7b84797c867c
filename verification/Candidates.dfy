/** The candidate artifact that passes between the scraper, its validator and the ingestion service. */
module Candidates {
  import opened Wrappers
  import Purl

  datatype CandidateObservation = CandidateObservation(kind: string, value: string, sourceId: string,
      evidenceIds: seq<string>)
  datatype Detection = Detection(kind: string, name: string, evidenceIds: seq<string>)
  datatype ChoiceAssessment = ChoiceAssessment(factors: seq<seq<string>>, evidenceIds: seq<string>)

  /** Downloads and stars are reduced to the evidence ids they cite. */
  datatype PackageCandidate = PackageCandidate(
    candidateId: string, purl: Purl.Purl, rankSource: string, evidenceIds: seq<string>, detections: seq<Detection>,
    downloads: Option<seq<seq<string>>>, stars: Option<seq<seq<string>>>, choice: Option<ChoiceAssessment>,
    observations: Option<seq<CandidateObservation>>)

  datatype Evidence = Evidence(id: string, sourceId: string)

  function IdsOf(candidates: seq<PackageCandidate>): (r: seq<string>)
    ensures |r| == |candidates|
  {
    seq(|candidates|, i requires 0 <= i < |candidates| => candidates[i].candidateId)
  }

  function EvidenceIds(evidence: seq<Evidence>): (r: seq<string>)
    ensures |r| == |evidence|
  {
    seq(|evidence|, i requires 0 <= i < |evidence| => evidence[i].id)
  }
}
