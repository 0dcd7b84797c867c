/** The schema package's reference checks on an artifact: identities derive from PURLs, cited evidence exists. */
module CandidateValidator {
  import opened Wrappers
  import opened Candidates
  import Entries
  import Purl

  datatype Code = IdentityMismatch | UnresolvedEvidence

  /** Where an issue was found: the candidate, the list, and the position in it. */
  datatype Part = InIdentity | InCandidate | InDetection(i: nat) | InDownload(i: nat) | InStar(i: nat) | InChoice
      | InFactor(i: nat)
  datatype Issue = Issue(candidate: nat, part: Part, code: Code)

  /** One issue for each unknown id. */
  function CheckEvidence(ids: seq<string>, known: set<string>, candidate: nat, part: Part): seq<Issue> {
    if ids == [] then []
    else
      CheckEvidence(ids[..|ids| - 1], known, candidate, part)
      + if ids[|ids| - 1] in known then [] else [Issue(candidate, part, UnresolvedEvidence)]
  }

  type Parts = nat -> Part

  function Detections(): Parts { (i: nat) => InDetection(i) }
  function Downloads(): Parts { (i: nat) => InDownload(i) }
  function Stars(): Parts { (i: nat) => InStar(i) }
  function Factors(): Parts { (i: nat) => InFactor(i) }

  function CheckLists(lists: seq<seq<string>>, known: set<string>, candidate: nat, part: Parts): seq<Issue> {
    if lists == [] then []
    else
      CheckLists(lists[..|lists| - 1], known, candidate, part)
      + CheckEvidence(lists[|lists| - 1], known, candidate, part(|lists| - 1))
  }

  function OrEmpty<T>(s: Option<seq<T>>): seq<T> {
    match s case Some(items) => items case None => []
  }

  function DetectionLists(detections: seq<Detection>): (r: seq<seq<string>>)
    ensures |r| == |detections|
  {
    seq(|detections|, i requires 0 <= i < |detections| => detections[i].evidenceIds)
  }

  function CheckCandidate(c: PackageCandidate, known: set<string>, at: nat, le: Entries.Collation): seq<Issue> {
    (if c.candidateId != Purl.CandidateIdentity(c.purl, le) then [Issue(at, InIdentity, IdentityMismatch)] else [])
    + CheckEvidence(c.evidenceIds, known, at, InCandidate)
    + CheckLists(DetectionLists(c.detections), known, at, Detections())
    + CheckLists(OrEmpty(c.downloads), known, at, Downloads())
    + CheckLists(OrEmpty(c.stars), known, at, Stars())
    + (match c.choice
       case None => []
       case Some(choice) =>
         CheckEvidence(choice.evidenceIds, known, at, InChoice) + CheckLists(choice.factors, known, at, Factors()))
  }

  function CheckAll(candidates: seq<PackageCandidate>, known: set<string>, le: Entries.Collation): seq<Issue> {
    if candidates == [] then []
    else
      CheckAll(candidates[..|candidates| - 1], known, le)
      + CheckCandidate(candidates[|candidates| - 1], known, |candidates| - 1, le)
  }

  function KnownIds(evidence: seq<Evidence>): set<string> {
    set item | item in evidence :: item.id
  }

  // ----- the loops -----

  method PushEvidence(issues: seq<Issue>, ids: seq<string>, known: set<string>, candidate: nat, part: Part)
      returns (r: seq<Issue>)
    ensures r == issues + CheckEvidence(ids, known, candidate, part)
  {
    r := issues;
    for i := 0 to |ids|
      invariant r == issues + CheckEvidence(ids[..i], known, candidate, part)
    {
      assert ids[..i + 1][..i] == ids[..i];
      if ids[i] !in known { r := r + [Issue(candidate, part, UnresolvedEvidence)]; }
    }
    assert ids[..|ids|] == ids;
  }

  method PushLists(issues: seq<Issue>, lists: seq<seq<string>>, known: set<string>, candidate: nat, part: Parts)
      returns (r: seq<Issue>)
    ensures r == issues + CheckLists(lists, known, candidate, part)
  {
    hide CheckEvidence;
    r := issues;
    for i := 0 to |lists|
      invariant r == issues + CheckLists(lists[..i], known, candidate, part)
    {
      assert lists[..i + 1][..i] == lists[..i];
      r := PushEvidence(r, lists[i], known, candidate, part(i));
    }
    assert lists[..|lists|] == lists;
  }

  method PushCandidate(issues: seq<Issue>, c: PackageCandidate, known: set<string>, at: nat, le: Entries.Collation)
      returns (r: seq<Issue>)
    ensures r == issues + CheckCandidate(c, known, at, le)
  {
    hide CheckEvidence, CheckLists, Purl.CandidateIdentity, DetectionLists;
    r := issues;
    if c.candidateId != Purl.CandidateIdentity(c.purl, le) { r := r + [Issue(at, InIdentity, IdentityMismatch)]; }
    r := PushEvidence(r, c.evidenceIds, known, at, InCandidate);
    r := PushLists(r, DetectionLists(c.detections), known, at, Detections());
    r := PushLists(r, OrEmpty(c.downloads), known, at, Downloads());
    r := PushLists(r, OrEmpty(c.stars), known, at, Stars());
    if c.choice.Some? {
      r := PushEvidence(r, c.choice.value.evidenceIds, known, at, InChoice);
      r := PushLists(r, c.choice.value.factors, known, at, Factors());
    }
  }

  /** The reference checks of `candidateParse`, after the schema accepted the artifact's shape. */
  method CheckReferences(candidates: seq<PackageCandidate>, evidence: seq<Evidence>, le: Entries.Collation)
      returns (issues: seq<Issue>)
    ensures issues == CheckAll(candidates, KnownIds(evidence), le)
  {
    hide CheckCandidate;
    var known := KnownIds(evidence);
    issues := [];
    for at := 0 to |candidates|
      invariant issues == CheckAll(candidates[..at], known, le)
    {
      assert candidates[..at + 1][..at] == candidates[..at];
      issues := PushCandidate(issues, candidates[at], known, at, le);
    }
    assert candidates[..|candidates|] == candidates;
  }

  // ----- when there are none -----

  predicate AllIn(ids: seq<string>, known: set<string>) {
    forall id | id in ids :: id in known
  }

  predicate ListsIn(lists: seq<seq<string>>, known: set<string>) {
    forall ids | ids in lists :: AllIn(ids, known)
  }

  /** Every evidence id the candidate cites outside its own list, its observations' aside. */
  predicate NestedIn(c: PackageCandidate, known: set<string>) {
    && ListsIn(DetectionLists(c.detections), known) && ListsIn(OrEmpty(c.downloads), known)
    && ListsIn(OrEmpty(c.stars), known)
    && (c.choice.Some? ==> AllIn(c.choice.value.evidenceIds, known) && ListsIn(c.choice.value.factors, known))
  }

  predicate Refers(c: PackageCandidate, known: set<string>, le: Entries.Collation) {
    c.candidateId == Purl.CandidateIdentity(c.purl, le) && AllIn(c.evidenceIds, known) && NestedIn(c, known)
  }

  lemma {:induction false} EvidencePasses(ids: seq<string>, known: set<string>, candidate: nat, part: Part)
    ensures CheckEvidence(ids, known, candidate, part) == [] <==> AllIn(ids, known)
  {
    if ids != [] {
      var front, last := ids[..|ids| - 1], ids[|ids| - 1];
      EvidencePasses(front, known, candidate, part);
      assert ids == front + [last];
      assert last in ids;
    }
  }

  lemma {:induction false} ListsPass(lists: seq<seq<string>>, known: set<string>, candidate: nat, part: Parts)
    ensures CheckLists(lists, known, candidate, part) == [] <==> ListsIn(lists, known)
  {
    hide AllIn;
    if lists != [] {
      var front, last := lists[..|lists| - 1], lists[|lists| - 1];
      ListsPass(front, known, candidate, part);
      EvidencePasses(last, known, candidate, part(|lists| - 1));
      assert lists == front + [last];
      assert last in lists;
    }
  }

  lemma CandidatePasses(c: PackageCandidate, known: set<string>, at: nat, le: Entries.Collation)
    ensures CheckCandidate(c, known, at, le) == [] <==> Refers(c, known, le)
  {
    hide CheckEvidence, CheckLists, AllIn, ListsIn, Purl.CandidateIdentity, DetectionLists;
    EvidencePasses(c.evidenceIds, known, at, InCandidate);
    ListsPass(DetectionLists(c.detections), known, at, Detections());
    ListsPass(OrEmpty(c.downloads), known, at, Downloads());
    ListsPass(OrEmpty(c.stars), known, at, Stars());
    if c.choice.Some? {
      EvidencePasses(c.choice.value.evidenceIds, known, at, InChoice);
      ListsPass(c.choice.value.factors, known, at, Factors());
    }
  }

  /** No issue is raised exactly when every identity derives from its PURL and every checked reference resolves. */
  lemma {:induction false} NoIssuesExactly(candidates: seq<PackageCandidate>, known: set<string>, le: Entries.Collation)
    ensures CheckAll(candidates, known, le) == [] <==> forall c | c in candidates :: Refers(c, known, le)
  {
    hide CheckCandidate, Refers;
    if candidates != [] {
      var front, last := candidates[..|candidates| - 1], candidates[|candidates| - 1];
      NoIssuesExactly(front, known, le);
      CandidatePasses(last, known, |candidates| - 1, le);
      assert candidates == front + [last];
      assert last in candidates;
    }
  }

  /** The same candidates, whatever their observations. */
  ghost predicate SameButObservations(one: seq<PackageCandidate>, other: seq<PackageCandidate>) {
    |one| == |other| && forall i | 0 <= i < |one| :: one[i] == other[i].(observations := one[i].observations)
  }

  /** The evidence that observations cite is not checked: whatever they are, the same issues are found. */
  lemma {:induction false} ObservationsAreUnchecked(
      one: seq<PackageCandidate>, other: seq<PackageCandidate>, known: set<string>, le: Entries.Collation)
    requires SameButObservations(one, other)
    ensures CheckAll(one, known, le) == CheckAll(other, known, le)
  {
    hide CheckEvidence, CheckLists, Purl.CandidateIdentity, DetectionLists;
    if one != [] {
      var n := |one| - 1;
      ObservationsAreUnchecked(one[..n], other[..n], known, le);
      assert CheckCandidate(one[n], known, n, le) == CheckCandidate(other[n], known, n, le) by {
        Unseen(one[n], other[n], known, n, le);
      }
    }
  }

  lemma Unseen(c: PackageCandidate, d: PackageCandidate, known: set<string>, at: nat, le: Entries.Collation)
    requires c == d.(observations := c.observations)
    ensures CheckCandidate(c, known, at, le) == CheckCandidate(d, known, at, le)
  {
    hide CheckEvidence, CheckLists, Purl.CandidateIdentity;
  }

  // ----- which issues -----

  predicate Unresolved(ids: seq<string>, known: set<string>) {
    exists id | id in ids :: id !in known
  }

  /** What an issue says: its candidate has another identity, or cites unknown evidence in that part. */
  predicate Justified(candidates: seq<PackageCandidate>, known: set<string>, le: Entries.Collation, issue: Issue) {
    && issue.candidate < |candidates|
    && var c := candidates[issue.candidate];
    && (issue.code == IdentityMismatch <==> issue.part == InIdentity)
    && match issue.part
       case InIdentity => c.candidateId != Purl.CandidateIdentity(c.purl, le)
       case InCandidate => Unresolved(c.evidenceIds, known)
       case InDetection(i) => i < |c.detections| && Unresolved(c.detections[i].evidenceIds, known)
       case InDownload(i) =>
         c.downloads.Some? && i < |c.downloads.value| && Unresolved(c.downloads.value[i], known)
       case InStar(i) => c.stars.Some? && i < |c.stars.value| && Unresolved(c.stars.value[i], known)
       case InChoice => c.choice.Some? && Unresolved(c.choice.value.evidenceIds, known)
       case InFactor(i) =>
         c.choice.Some? && i < |c.choice.value.factors| && Unresolved(c.choice.value.factors[i], known)
  }

  lemma {:induction false} EvidenceIssues(ids: seq<string>, known: set<string>, candidate: nat, part: Part,
      issue: Issue)
    ensures issue in CheckEvidence(ids, known, candidate, part) <==>
              issue == Issue(candidate, part, UnresolvedEvidence) && Unresolved(ids, known)
  {
    if ids != [] {
      var front, last := ids[..|ids| - 1], ids[|ids| - 1];
      EvidenceIssues(front, known, candidate, part, issue);
      assert ids == front + [last];
    }
  }

  lemma {:induction false} ListIssues(lists: seq<seq<string>>, known: set<string>, candidate: nat, part: Parts,
      issue: Issue)
    ensures issue in CheckLists(lists, known, candidate, part) <==>
              exists i | 0 <= i < |lists| ::
                issue == Issue(candidate, part(i), UnresolvedEvidence) && Unresolved(lists[i], known)
  {
    hide Unresolved;
    if lists != [] {
      var n := |lists| - 1;
      var front := lists[..n];
      ListIssues(front, known, candidate, part, issue);
      EvidenceIssues(lists[n], known, candidate, part(n), issue);
      assert forall i | 0 <= i < n :: front[i] == lists[i];
    }
  }

  /** The issues of a list of lists, with the positions in it. */
  lemma PartIssues(lists: seq<seq<string>>, known: set<string>, at: nat, part: Parts, issue: Issue)
    requires forall i: nat, j: nat :: part(i) == part(j) ==> i == j
    ensures issue in CheckLists(lists, known, at, part) ==>
              issue.candidate == at && issue.code == UnresolvedEvidence && exists i: nat :: issue.part == part(i)
    ensures forall i: nat | issue.part == part(i) ::
              issue in CheckLists(lists, known, at, part) <==>
                issue.candidate == at && issue.code == UnresolvedEvidence && i < |lists| && Unresolved(lists[i], known)
  {
    hide Unresolved;
    ListIssues(lists, known, at, part, issue);
  }

  lemma PartsDiffer()
    ensures forall i: nat, j: nat :: Detections()(i) == Detections()(j) ==> i == j
    ensures forall i: nat, j: nat :: Downloads()(i) == Downloads()(j) ==> i == j
    ensures forall i: nat, j: nat :: Stars()(i) == Stars()(j) ==> i == j
    ensures forall i: nat, j: nat :: Factors()(i) == Factors()(j) ==> i == j
  {
  }

  lemma CandidateIssues(candidates: seq<PackageCandidate>, at: nat, known: set<string>, le: Entries.Collation,
      issue: Issue)
    requires at < |candidates|
    ensures issue in CheckCandidate(candidates[at], known, at, le) <==>
              issue.candidate == at && Justified(candidates, known, le, issue)
  {
    hide CheckEvidence, CheckLists, Unresolved, Purl.CandidateIdentity;
    var c := candidates[at];
    PartsDiffer();
    EvidenceIssues(c.evidenceIds, known, at, InCandidate, issue);
    PartIssues(DetectionLists(c.detections), known, at, Detections(), issue);
    PartIssues(OrEmpty(c.downloads), known, at, Downloads(), issue);
    PartIssues(OrEmpty(c.stars), known, at, Stars(), issue);
    if c.choice.Some? {
      EvidenceIssues(c.choice.value.evidenceIds, known, at, InChoice, issue);
      PartIssues(c.choice.value.factors, known, at, Factors(), issue);
    }
    match issue.part {
      case InDetection(i) => assert issue.part == Detections()(i);
      case InDownload(i) => assert issue.part == Downloads()(i);
      case InStar(i) => assert issue.part == Stars()(i);
      case InFactor(i) => assert issue.part == Factors()(i);
      case _ =>
    }
  }

  lemma {:induction false} IssuesUpTo(candidates: seq<PackageCandidate>, n: nat, known: set<string>,
      le: Entries.Collation, issue: Issue)
    requires n <= |candidates|
    ensures issue in CheckAll(candidates[..n], known, le) <==>
              issue.candidate < n && Justified(candidates, known, le, issue)
    decreases n
  {
    hide CheckCandidate, Justified;
    if n > 0 {
      assert candidates[..n][..n - 1] == candidates[..n - 1];
      IssuesUpTo(candidates, n - 1, known, le, issue);
      CandidateIssues(candidates, n - 1, known, le, issue);
    }
  }

  /** Every issue is raised for its reason, and every reason raises its issue. */
  lemma IssuesAreJustified(candidates: seq<PackageCandidate>, known: set<string>, le: Entries.Collation, issue: Issue)
    ensures issue in CheckAll(candidates, known, le) <==> Justified(candidates, known, le, issue)
  {
    assert candidates[..|candidates|] == candidates;
    hide *;
    IssuesUpTo(candidates, |candidates|, known, le, issue);
    JustifiedIsInside(candidates, known, le, issue);
  }

  lemma JustifiedIsInside(candidates: seq<PackageCandidate>, known: set<string>, le: Entries.Collation, issue: Issue)
    ensures Justified(candidates, known, le, issue) ==> issue.candidate < |candidates|
  {
    hide Unresolved, Purl.CandidateIdentity;
  }
}
