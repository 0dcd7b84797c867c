/** One scraper run: adapters deliver candidates, which are merged, counted and given their evidence. */
module RunAssembly {
  import opened Wrappers
  import opened Candidates
  import opened CandidateValidator
  import opened FirstSeen
  import opened Sorting
  import opened Counting
  import Entries
  import Purl
  import Text

  // ----- one adapter -----

  datatype PackageDetails = PackageDetails(
    packageName: string, purl: Purl.Purl, urlsParse: bool, rankSource: string, evidenceIds: seq<string>,
    downloads: Option<seq<seq<string>>>, stars: Option<seq<seq<string>>>, choice: Option<ChoiceAssessment>,
    observations: Option<seq<CandidateObservation>>)

  /** An adapter's answers; none where it throws. */
  datatype Adapter = Adapter(
    sourceId: string, top: seq<PackageDetails>, fetch: PackageDetails -> Option<PackageDetails>,
    detect: PackageDetails -> Option<seq<Detection>>)

  datatype Settings = Settings(le: Entries.Collation, trim: Purl.Trimmer, classify: PackageDetails -> seq<Detection>)

  function Itself(): string -> string { (s: string) => s }

  function KindAndName(): Detection -> (string, string) {
    (d: Detection) => (d.kind, d.name)
  }

  function ById(): PackageCandidate -> string {
    (c: PackageCandidate) => c.candidateId
  }

  /** None when one of the package's URLs does not parse. */
  function NormalizePackageCandidate(details: PackageDetails, detections: seq<Detection>,
      settings: Settings): Option<PackageCandidate> {
    var purl := Purl.NormalizeCandidatePurl(details.purl, settings.le, settings.trim);
    if !details.urlsParse then None
    else
      Some(PackageCandidate(
        Purl.CandidateIdentity(purl, settings.le), purl, details.rankSource, FirstOf(details.evidenceIds, Itself()),
        detections, details.downloads, details.stars, details.choice, details.observations))
  }

  /** What one summary comes to. */
  function Resolved(adapter: Adapter, summary: PackageDetails, settings: Settings): Option<PackageCandidate> {
    match adapter.fetch(summary)
    case None => None
    case Some(details) =>
      match adapter.detect(details)
      case None => None
      case Some(detections) =>
        NormalizePackageCandidate(details, FirstOf(detections + settings.classify(details), KindAndName()), settings)
  }

  datatype AdapterRunResult = AdapterRunResult(sourceId: string, discovered: nat, candidates: seq<PackageCandidate>,
      failures: seq<string>)

  function Delivered(adapter: Adapter, summaries: seq<PackageDetails>, settings: Settings): seq<PackageCandidate> {
    if summaries == [] then []
    else
      var n := |summaries| - 1;
      Delivered(adapter, summaries[..n], settings)
      + match Resolved(adapter, summaries[n], settings) case Some(c) => [c] case None => []
  }

  function Failed(adapter: Adapter, summaries: seq<PackageDetails>, settings: Settings): seq<string> {
    if summaries == [] then []
    else
      var n := |summaries| - 1;
      Failed(adapter, summaries[..n], settings) + if Resolved(adapter, summaries[n], settings).None?
          then [summaries[n].packageName] else []
  }

  function Limited<T>(s: seq<T>, limit: nat): seq<T> {
    if limit < |s| then s[..limit] else s
  }

  method RunAdapter(adapter: Adapter, limit: nat, settings: Settings) returns (r: AdapterRunResult)
    ensures var summaries := Limited(adapter.top, limit);
            r == AdapterRunResult(adapter.sourceId, |adapter.top|, Delivered(adapter, summaries, settings),
                Failed(adapter, summaries, settings))
  {
    hide Resolved, Limited;
    var summaries, candidates, failures := Limited(adapter.top, limit), [], [];
    for i := 0 to |summaries|
      invariant candidates == Delivered(adapter, summaries[..i], settings)
      invariant failures == Failed(adapter, summaries[..i], settings)
    {
      assert summaries[..i + 1][..i] == summaries[..i];
      match Resolved(adapter, summaries[i], settings) {
        case Some(c) => candidates := candidates + [c];
        case None => failures := failures + [summaries[i].packageName];
      }
    }
    assert summaries[..|summaries|] == summaries;
    r := AdapterRunResult(adapter.sourceId, |adapter.top|, candidates, failures);
  }

  /**
   Every summary within the limit is either a candidate or a failure, and every candidate carries its own identity.
   */
  lemma {:induction false} EverySummaryCounts(adapter: Adapter, summaries: seq<PackageDetails>, settings: Settings)
    ensures |Delivered(adapter, summaries, settings)| + |Failed(adapter, summaries, settings)| == |summaries|
    ensures forall c | c in Delivered(adapter, summaries, settings) ::
              && c.candidateId == Purl.CandidateIdentity(c.purl, settings.le)
              && forall i, j | 0 <= i < j < |c.detections| ::
                   (c.detections[i].kind, c.detections[i].name) != (c.detections[j].kind, c.detections[j].name)
  {
    hide Purl.CandidateIdentity, Purl.NormalizeCandidatePurl, FirstOf;
    if summaries != [] {
      var n := |summaries| - 1;
      EverySummaryCounts(adapter, summaries[..n], settings);
      match adapter.fetch(summaries[n])
      case None =>
      case Some(details) =>
        match adapter.detect(details)
        case None =>
        case Some(detections) => FirstOfKeepsKeys(detections + settings.classify(details), KindAndName());
    }
  }

  // ----- which sources -----

  const ALL_SOURCES: seq<string> := ["npm", "packagist", "pypi", "crates", "go", "libs-tech"]

  /** The sources that a trimmed, lower-cased word stands for. */
  function Expanded(word: string): seq<string> {
    match word
    case "all" => ALL_SOURCES
    case "javascript" => ["npm"]
    case "typescript" => ["npm"]
    case "php" => ["packagist"]
    case "python" => ["pypi"]
    case "rust" => ["crates"]
    case _ => [word]
  }

  function ExpandAll(words: seq<string>): seq<string> {
    if words == [] then [] else ExpandAll(words[..|words| - 1]) + Expanded(words[|words| - 1])
  }

  /** `normalizeEcosystems`, after the input was split into words. */
  function NormalizeEcosystems(words: seq<string>): seq<string> {
    FirstOf(ExpandAll(words), Itself())
  }

  lemma {:induction false} ExpandedIsFinal(words: seq<string>)
    ensures forall id | id in ExpandAll(words) :: Expanded(id) == [id]
    ensures (forall word | word in words :: Expanded(word) == [word]) ==> ExpandAll(words) == words
  {
    hide Expanded;
    if words != [] {
      var front, last := words[..|words| - 1], words[|words| - 1];
      ExpandedIsFinal(front);
      ExpandedOnce(last);
      assert words == front + [last];
    }
  }

  lemma ExpandedOnce(word: string)
    ensures forall id | id in Expanded(word) :: Expanded(id) == [id]
  {
  }

  /** Sources come once each, and normalizing them again changes nothing: no alias and no `all` is left. */
  lemma EcosystemsAreSettled(words: seq<string>)
    ensures var ids := NormalizeEcosystems(words);
            && (forall i, j | 0 <= i < j < |ids| :: ids[i] != ids[j])
            && NormalizeEcosystems(ids) == ids
  {
    hide Expanded, FirstOf, ExpandAll;
    var all, ids := ExpandAll(words), NormalizeEcosystems(words);
    FirstOfKeepsKeys(all, Itself());
    forall i, j | 0 <= i < j < |ids| ensures ids[i] != ids[j] { assert Itself()(ids[i]) != Itself()(ids[j]); }
    ExpandedIsFinal(words);
    forall id | id in ids ensures Expanded(id) == [id] { FirstOfIsPart(all, Itself(), id); }
    ExpandedIsFinal(ids);
    FirstOfDistinct(ids, Itself());
  }

  // ----- the run -----

  datatype Coverage = Coverage(
    sourceId: string, discovered: nat, deduplicated: nat, detailed: nat, normalized: nat, classified: nat,
    conflicted: nat, synchronized: nat, skipped: nat, failed: nat)

  datatype Counts = Counts(discovered: nat, deduplicated: nat, detailed: nat, normalized: nat, classified: nat,
      failed: nat, skipped: nat)

  function Totals(coverage: seq<Coverage>): Counts {
    if coverage == [] then Counts(0, 0, 0, 0, 0, 0, 0)
    else
      var c, t := coverage[|coverage| - 1], Totals(coverage[..|coverage| - 1]);
      Counts(t.discovered + c.discovered, t.deduplicated + c.deduplicated, t.detailed + c.detailed,
          t.normalized + c.normalized, t.classified + c.classified, t.failed + c.failed, t.skipped + c.skipped)
  }

  function Conflicted(coverage: seq<Coverage>): nat {
    if coverage == [] then 0 else Conflicted(coverage[..|coverage| - 1]) + coverage[|coverage| - 1].conflicted
  }

  function IsClassified(): PackageCandidate -> bool {
    (c: PackageCandidate) => c.detections != []
  }

  function IsConflicted(): PackageCandidate -> bool {
    (c: PackageCandidate) => |OrEmpty(c.observations)| > 1
  }

  function AllCandidates(results: seq<AdapterRunResult>): seq<PackageCandidate> {
    if results == [] then [] else AllCandidates(results[..|results| - 1]) + results[|results| - 1].candidates
  }

  /** The candidates kept of all sources: the first with each identity. */
  function Kept(results: seq<AdapterRunResult>): seq<PackageCandidate> {
    FirstOf(AllCandidates(results), ById())
  }

  /** What the last source adds to the candidates kept so far. */
  function Unique(results: seq<AdapterRunResult>): seq<PackageCandidate>
    requires results != []
  {
    var front, last := results[..|results| - 1], results[|results| - 1];
    FirstOfGrows(AllCandidates(front), last.candidates, ById());
    Kept(results)[|Kept(front)|..]
  }

  function UnsupportedRow(sourceId: string): Coverage {
    Coverage(sourceId, 0, 0, 0, 0, 0, 0, 0, 0, 0)
  }

  /** The row of the last source. */
  function Row(results: seq<AdapterRunResult>): Coverage
    requires results != []
  {
    var r, unique := results[|results| - 1], Unique(results);
    Coverage(r.sourceId, r.discovered, |unique|, |r.candidates|, |unique|, CountIf(unique, IsClassified()),
        CountIf(unique, IsConflicted()), 0, 0, |r.failures|)
  }

  function Rows(results: seq<AdapterRunResult>): seq<Coverage> {
    if results == [] then [] else Rows(results[..|results| - 1]) + [Row(results)]
  }

  function UnsupportedRows(sourceIds: seq<string>): seq<Coverage> {
    Map(sourceIds, (id: string) => UnsupportedRow(id))
  }

  // ----- evidence -----

  function CitedIds(candidates: seq<PackageCandidate>): seq<string> {
    if candidates == [] then [] else CitedIds(candidates[..|candidates| - 1]) + candidates[|candidates| - 1].evidenceIds
  }

  /** A later candidate that cites the same evidence replaces its source. */
  function LastSource(candidates: seq<PackageCandidate>, id: string): string {
    if candidates == [] then ""
    else if id in candidates[|candidates| - 1].evidenceIds then candidates[|candidates| - 1].rankSource
    else LastSource(candidates[..|candidates| - 1], id)
  }

  function EvidenceFor(candidates: seq<PackageCandidate>): (r: seq<Evidence>) {
    var ids := FirstOf(CitedIds(candidates), Itself());
    seq(|ids|, i requires 0 <= i < |ids| => Evidence(ids[i], LastSource(candidates, ids[i])))
  }

  // ----- the artifact -----

  datatype Assembled = Assembled(coverage: seq<Coverage>, candidates: seq<PackageCandidate>, evidence: seq<Evidence>,
      counts: Counts, conflicted: nat)
  datatype RunSummary = RunSummary(exitCode: nat, counts: Counts, artifact: Option<Assembled>)
  datatype RunError = SourceFailed | InvalidArtifact

  function BySource(le: Entries.Collation): (Coverage, Coverage) -> bool {
    (a: Coverage, b: Coverage) => le(a.sourceId, b.sourceId)
  }
  function ByCandidate(le: Entries.Collation): (PackageCandidate, PackageCandidate) -> bool {
    (a: PackageCandidate, b: PackageCandidate) => le(a.candidateId, b.candidateId)
  }
  function ByEvidence(le: Entries.Collation): (Evidence, Evidence) -> bool {
    (a: Evidence, b: Evidence) => le(a.id, b.id)
  }

  function SortedArtifact(coverage: seq<Coverage>, candidates: seq<PackageCandidate>, counts: Counts,
      le: Entries.Collation): Assembled {
    Assembled(Sort(coverage, BySource(le)), Sort(candidates, ByCandidate(le)),
        Sort(EvidenceFor(candidates), ByEvidence(le)), counts, Conflicted(coverage))
  }

  type Adapters = map<string, Option<AdapterRunResult>>

  function Supported(ecosystems: seq<string>, adapters: Adapters): seq<string> {
    if ecosystems == [] then []
    else
      var n := |ecosystems| - 1;
      Supported(ecosystems[..n], adapters) + if ecosystems[n] in adapters then [ecosystems[n]] else []
  }

  function Unsupported(ecosystems: seq<string>, adapters: Adapters): seq<string> {
    if ecosystems == [] then []
    else
      var n := |ecosystems| - 1;
      Unsupported(ecosystems[..n], adapters) + if ecosystems[n] in adapters then [] else [ecosystems[n]]
  }

  /** All sources deliver, or the run fails with one of them. */
  function Results(sourceIds: seq<string>, adapters: Adapters): Option<seq<AdapterRunResult>> {
    if sourceIds == [] then Some([])
    else
      var n := |sourceIds| - 1;
      match Results(sourceIds[..n], adapters)
      case None => None
      case Some(results) =>
        if sourceIds[n] in adapters && adapters[sourceIds[n]].Some? then Some(results + [adapters[sourceIds[n]].value])
            else None
  }

  function HasFailures(results: seq<AdapterRunResult>): bool {
    exists r | r in results :: r.failures != []
  }

  // ----- the loops -----

  method DropSeen(candidates: seq<PackageCandidate>, seen: set<string>, ghost before: seq<PackageCandidate>)
    returns (unique: seq<PackageCandidate>, next: set<string>)
    requires seen == Keys(before, ById())
    ensures FirstOf(before, ById()) + unique == FirstOf(before + candidates, ById())
    ensures next == Keys(before + candidates, ById())
  {
    hide FirstOf, Keys;
    unique, next := [], seen;
    assert before + candidates[..0] == before;
    for i := 0 to |candidates|
      invariant FirstOf(before, ById()) + unique == FirstOf(before + candidates[..i], ById())
      invariant next == Keys(before + candidates[..i], ById())
    {
      var c := candidates[i];
      assert before + candidates[..i + 1] == (before + candidates[..i]) + [c];
      FirstOfMore(before + candidates[..i], c, ById());
      KeysOfMore(before + candidates[..i], c, ById());
      if c.candidateId !in next {
        unique, next := unique + [c], next + {c.candidateId};
      }
    }
    assert before + candidates[..|candidates|] == before + candidates;
  }

  method Merge(results: seq<AdapterRunResult>, unsupported: seq<string>)
    returns (candidates: seq<PackageCandidate>, coverage: seq<Coverage>, counts: Counts)
    ensures candidates == Kept(results) && coverage == UnsupportedRows(unsupported) + Rows(results)
            && counts == Totals(coverage)
  {
    hide FirstOf, Keys, CountIf, Map, Totals;
    var seen: set<string> := {};
    candidates, coverage, counts := [], UnsupportedRows(unsupported), Counts(0, 0, 0, 0, 0, 0, 0);
    MergeStart(unsupported);
    for i := 0 to |results|
      invariant candidates == Kept(results[..i]) && seen == Keys(AllCandidates(results[..i]), ById())
      invariant coverage == UnsupportedRows(unsupported) + Rows(results[..i]) && counts == Totals(coverage)
    {
      var r, upTo := results[i], results[..i + 1];
      assert upTo[..i] == results[..i];
      var unique: seq<PackageCandidate>;
      unique, seen := DropSeen(r.candidates, seen, AllCandidates(results[..i]));
      assert unique == Unique(upTo);
      var classified := Count(unique, IsClassified());
      var conflicted := Count(unique, IsConflicted());
      counts := Counts(counts.discovered + r.discovered, counts.deduplicated + |unique|,
          counts.detailed + |r.candidates|, counts.normalized + |unique|, counts.classified + classified, counts.failed
          + |r.failures|, counts.skipped);
      TotalsOfMore(coverage, Row(upTo));
      candidates, coverage := candidates + unique, coverage + [Row(upTo)];
    }
    assert results[..|results|] == results;
  }

  lemma TotalsOfMore(coverage: seq<Coverage>, c: Coverage)
    ensures var t := Totals(coverage);
            Totals(coverage + [c]) ==
              Counts(t.discovered + c.discovered, t.deduplicated + c.deduplicated, t.detailed + c.detailed,
                  t.normalized + c.normalized, t.classified + c.classified, t.failed + c.failed, t.skipped + c.skipped)
  {
    assert (coverage + [c])[..|coverage|] == coverage;
  }

  lemma {:induction false} UnsupportedAddNothing(sourceIds: seq<string>)
    ensures Totals(UnsupportedRows(sourceIds)) == Counts(0, 0, 0, 0, 0, 0, 0)
            && Conflicted(UnsupportedRows(sourceIds)) == 0
    decreases |sourceIds|
  {
    if sourceIds != [] {
      var n := |sourceIds| - 1;
      UnsupportedAddNothing(sourceIds[..n]);
      assert UnsupportedRows(sourceIds)[..n] == UnsupportedRows(sourceIds[..n]);
    }
  }

  lemma MergeStart(unsupported: seq<string>)
    ensures Kept([]) == [] && Keys(AllCandidates([]), ById()) == {}
    ensures Totals(UnsupportedRows(unsupported)) == Counts(0, 0, 0, 0, 0, 0, 0)
  {
    UnsupportedAddNothing(unsupported);
  }

  /** The evidence map while it is filled: ids in the order they were first set, and the source set last. */
  ghost predicate Filled(ids: seq<string>, sources: map<string, string>, cited: seq<string>,
      candidates: seq<PackageCandidate>) {
    && ids == FirstOf(cited, Itself()) && sources.Keys == Keys(cited, Itself())
    && forall id | id in sources :: sources[id] == LastSource(candidates, id)
  }

  method CollectEvidence(candidates: seq<PackageCandidate>) returns (evidence: seq<Evidence>)
    ensures evidence == EvidenceFor(candidates)
  {
    hide FirstOf, Keys;
    var ids: seq<string>, sources: map<string, string> := [], map[];
    EmptyFilled();
    for i := 0 to |candidates|
      invariant Filled(ids, sources, CitedIds(candidates[..i]), candidates[..i])
    {
      assert candidates[..i + 1][..i] == candidates[..i];
      ids, sources := SetEvidence(ids, sources, candidates[..i], candidates[i]);
      assert candidates[..i + 1] == candidates[..i] + [candidates[i]];
    }
    assert candidates[..|candidates|] == candidates;
    KeysOfFirst(CitedIds(candidates));
    evidence := seq(|ids|,
        i requires 0 <= i < |ids| && forall id | id in ids :: id in sources => Evidence(ids[i], sources[ids[i]]));
  }

  lemma EmptyFilled()
    ensures Filled([], map[], CitedIds([]), [])
  {
  }

  lemma {:induction false} KeysOfFirst(cited: seq<string>)
    ensures forall id | id in FirstOf(cited, Itself()) :: id in Keys(cited, Itself())
  {
    forall id | id in FirstOf(cited, Itself()) ensures id in Keys(cited, Itself()) {
      FirstOfIsPart(cited, Itself(), id);
      var i :| 0 <= i < |cited| && cited[i] == id;
      assert Itself()(cited[i]) == id;
    }
  }

  /** The same, after the first j ids of the next candidate. */
  ghost predicate FilledUpTo(ids: seq<string>, sources: map<string, string>, front: seq<PackageCandidate>,
      c: PackageCandidate, j: nat)
    requires j <= |c.evidenceIds|
  {
    var cited := CitedIds(front) + c.evidenceIds[..j];
    && ids == FirstOf(cited, Itself()) && sources.Keys == Keys(cited, Itself())
    && forall id | id in sources :: sources[id] == if id in c.evidenceIds[..j] then c.rankSource
       else LastSource(front, id)
  }

  lemma SetOne(ids: seq<string>, sources: map<string, string>, front: seq<PackageCandidate>, c: PackageCandidate,
      j: nat)
    requires j < |c.evidenceIds| && FilledUpTo(ids, sources, front, c, j)
    ensures var id := c.evidenceIds[j];
            FilledUpTo(if id in sources then ids else ids + [id], sources[id := c.rankSource], front, c, j + 1)
  {
    hide FirstOf, Keys, CitedIds, LastSource;
    var id, cited := c.evidenceIds[j], CitedIds(front) + c.evidenceIds[..j];
    assert CitedIds(front) + c.evidenceIds[..j + 1] == cited + [id];
    FirstOfMore(cited, id, Itself());
    KeysOfMore(cited, id, Itself());
    assert c.evidenceIds[..j + 1] == c.evidenceIds[..j] + [id];
  }

  lemma SetNone(ids: seq<string>, sources: map<string, string>, front: seq<PackageCandidate>, c: PackageCandidate)
    requires Filled(ids, sources, CitedIds(front), front)
    ensures FilledUpTo(ids, sources, front, c, 0)
  {
    hide FirstOf, Keys, CitedIds, LastSource;
    assert CitedIds(front) + c.evidenceIds[..0] == CitedIds(front);
  }

  lemma SetAll(ids: seq<string>, sources: map<string, string>, front: seq<PackageCandidate>, c: PackageCandidate)
    requires FilledUpTo(ids, sources, front, c, |c.evidenceIds|)
    ensures Filled(ids, sources, CitedIds(front + [c]), front + [c])
  {
    hide FirstOf, Keys, CitedIds, LastSource;
    CitedOfMore(front, c);
    assert c.evidenceIds[..|c.evidenceIds|] == c.evidenceIds;
    forall id | id in sources ensures sources[id] == LastSource(front + [c], id) { SourceOfMore(front, c, id); }
  }

  lemma CitedOfMore(front: seq<PackageCandidate>, c: PackageCandidate)
    ensures CitedIds(front + [c]) == CitedIds(front) + c.evidenceIds
  {
  }

  lemma SourceOfMore(front: seq<PackageCandidate>, c: PackageCandidate, id: string)
    ensures LastSource(front + [c], id) == if id in c.evidenceIds then c.rankSource else LastSource(front, id)
  {
  }

  method SetEvidence(ids: seq<string>, sources: map<string, string>, ghost front: seq<PackageCandidate>,
      c: PackageCandidate)
    returns (newIds: seq<string>, newSources: map<string, string>)
    requires Filled(ids, sources, CitedIds(front), front)
    ensures Filled(newIds, newSources, CitedIds(front + [c]), front + [c])
  {
    hide Filled, FilledUpTo;
    newIds, newSources := ids, sources;
    SetNone(ids, sources, front, c);
    for j := 0 to |c.evidenceIds|
      invariant FilledUpTo(newIds, newSources, front, c, j)
    {
      SetOne(newIds, newSources, front, c, j);
      var id := c.evidenceIds[j];
      if id !in newSources { newIds := newIds + [id]; }
      newSources := newSources[id := c.rankSource];
    }
    SetAll(newIds, newSources, front, c);
  }

  method Resolve(ecosystems: seq<string>, adapters: Adapters) returns (supported: seq<string>, unsupported: seq<string>)
    ensures supported == Supported(ecosystems, adapters) && unsupported == Unsupported(ecosystems, adapters)
  {
    supported, unsupported := [], [];
    for i := 0 to |ecosystems|
      invariant supported == Supported(ecosystems[..i], adapters)
                && unsupported == Unsupported(ecosystems[..i], adapters)
    {
      assert ecosystems[..i + 1][..i] == ecosystems[..i];
      if ecosystems[i] in adapters {
        supported := supported + [ecosystems[i]];
      } else {
        unsupported := unsupported + [ecosystems[i]];
      }
    }
    assert ecosystems[..|ecosystems|] == ecosystems;
  }

  /**
   A run whose sources all deliver, and what its artifact is made of; `accepts` is the schema and the scan for unsafe
   content.
   */
  method ExecuteRun(ecosystems: seq<string>, adapters: Adapters, strict: bool, le: Entries.Collation,
      accepts: Assembled -> bool)
    returns (r: Result<RunSummary, RunError>)
    ensures
      var results := Results(Supported(ecosystems, adapters), adapters);
      if results.None? then r == Err(SourceFailed)
      else
        var kept, unsupported := Kept(results.value), Unsupported(ecosystems, adapters);
        var coverage := UnsupportedRows(unsupported) + Rows(results.value);
        var artifact := SortedArtifact(coverage, kept, Totals(coverage), le);
        var empty := results.value != [] && kept == [];
        if !empty && (!accepts(artifact) || CheckAll(artifact.candidates, KnownIds(artifact.evidence), le) != []) then
          r == Err(InvalidArtifact)
        else
          r == Ok(RunSummary(if empty || (strict && (HasFailures(results.value) || unsupported != [])) then 1 else 0,
                             Totals(coverage), if empty then None else Some(artifact)))
  {
    hide CheckAll, KnownIds, Kept, Rows, Totals, UnsupportedRows, Sort, EvidenceFor, Results, FirstOf, Conflicted;
    var supported, unsupported := Resolve(ecosystems, adapters);
    var results := Results(supported, adapters);
    if results.None? { return Err(SourceFailed); }
    EachDelivers(supported, adapters);
    var candidates, coverage, counts := Merge(results.value, unsupported);
    EmptyCounts(results.value, unsupported);
    var noArtifact := supported != [] && counts.normalized == 0;
    var exitCode := if noArtifact || (strict && (HasFailures(results.value) || unsupported != [])) then 1 else 0;
    if noArtifact { return Ok(RunSummary(exitCode, counts, None)); }
    var evidence := CollectEvidence(candidates);
    var artifact := Assembled(Sort(coverage, BySource(le)), Sort(candidates, ByCandidate(le)),
        Sort(evidence, ByEvidence(le)), counts, Conflicted(coverage));
    if !accepts(artifact) { return Err(InvalidArtifact); }
    var issues := CheckReferences(artifact.candidates, artifact.evidence, le);
    if issues != [] { return Err(InvalidArtifact); }
    return Ok(RunSummary(exitCode, counts, Some(artifact)));
  }

  lemma {:induction false} EachDelivers(sourceIds: seq<string>, adapters: Adapters)
    requires Results(sourceIds, adapters).Some?
    ensures |Results(sourceIds, adapters).value| == |sourceIds|
  {
    if sourceIds != [] { EachDelivers(sourceIds[..|sourceIds| - 1], adapters); }
  }

  // ----- what the run guarantees -----

  lemma KeptGrows(results: seq<AdapterRunResult>)
    requires results != []
    ensures Kept(results) == Kept(results[..|results| - 1]) + Unique(results)
  {
    var front, last := results[..|results| - 1], results[|results| - 1];
    FirstOfGrows(AllCandidates(front), last.candidates, ById());
  }

  lemma ConflictedOfMore(coverage: seq<Coverage>, c: Coverage)
    ensures Conflicted(coverage + [c]) == Conflicted(coverage) + c.conflicted
  {
  }

  /**
   The counters, which sum the coverage's columns, say what the artifact holds: as many deduplicated and
   normalised candidates as it lists, and as many classified and conflicted ones.
   */
  lemma {:induction false} CountersTellTheArtifact(results: seq<AdapterRunResult>, unsupported: seq<string>)
    ensures var coverage, kept := UnsupportedRows(unsupported) + Rows(results), Kept(results);
            var t := Totals(coverage);
            && t.normalized == t.deduplicated == |kept| && t.detailed == |AllCandidates(results)|
            && t.classified == CountIf(kept, IsClassified()) && Conflicted(coverage) == CountIf(kept, IsConflicted())
            && t.skipped == 0
    decreases |results|
  {
    hide FirstOf, CountIf, Totals, Conflicted, UnsupportedRows, Unique, Kept;
    var rows := UnsupportedRows(unsupported);
    if results == [] {
      UnsupportedAddNothing(unsupported);
      assert rows + Rows([]) == rows;
      NothingKept();
    } else {
      var front := results[..|results| - 1];
      CountersTellTheArtifact(front, unsupported);
      assert rows + Rows(results) == (rows + Rows(front)) + [Row(results)];
      TotalsOfMore(rows + Rows(front), Row(results));
      ConflictedOfMore(rows + Rows(front), Row(results));
      KeptGrows(results);
      CountAppend(Kept(front), Unique(results), IsClassified());
      CountAppend(Kept(front), Unique(results), IsConflicted());
    }
  }

  lemma NothingKept()
    ensures Kept([]) == []
            && CountIf<PackageCandidate>([], IsClassified()) == 0 == CountIf<PackageCandidate>([], IsConflicted())
  {
  }

  lemma EmptyCounts(results: seq<AdapterRunResult>, unsupported: seq<string>)
    ensures Totals(UnsupportedRows(unsupported) + Rows(results)).normalized == |Kept(results)|
  {
    CountersTellTheArtifact(results, unsupported);
  }

  /** Each identity once, at the place where the sources, in their order, first delivered it. */
  lemma KeptInFirstSeenOrder(results: seq<AdapterRunResult>)
    ensures var all, kept := AllCandidates(results), Kept(results);
            && (forall i, j | 0 <= i < j < |kept| :: kept[i].candidateId != kept[j].candidateId)
            && Keys(kept, ById()) == Keys(all, ById())
            && var at := FirstPositions(all, ById());
               && |at| == |kept|
               && (forall j | 0 <= j < |at| :: at[j] < |all| && kept[j] == all[at[j]])
               && (forall j, k | 0 <= j < k < |at| :: at[j] < at[k])
               && forall i | 0 <= i < |all| :: i in at <==>
                  forall k | 0 <= k < i :: all[k].candidateId != all[i].candidateId
  {
    hide FirstOf, FirstPositions;
    var all := AllCandidates(results);
    FirstOfKeepsKeys(all, ById());
    FirstOfIsFirst(all, ById());
    forall i | 0 <= i < |all|
      ensures i in FirstPositions(all, ById()) <==> forall k | 0 <= k < i :: all[k].candidateId != all[i].candidateId
    {
      FirstAt(all, i);
    }
  }

  lemma FirstAt(all: seq<PackageCandidate>, i: nat)
    requires i < |all|
    ensures ById()(all[i]) !in Keys(all[..i], ById()) <==>
            forall k | 0 <= k < i :: all[k].candidateId != all[i].candidateId
  {
  }

  lemma {:induction false} CitedIsOwn(candidates: seq<PackageCandidate>, id: string)
    ensures id in CitedIds(candidates) <==> exists c | c in candidates :: id in c.evidenceIds
    decreases |candidates|
  {
    if candidates != [] {
      var front, last := candidates[..|candidates| - 1], candidates[|candidates| - 1];
      CitedIsOwn(front, id);
      assert candidates == front + [last];
      assert last in candidates;
    }
  }

  /** The evidence of a run: one record for each id that some candidate lists as its own. */
  lemma EvidenceIsCited(candidates: seq<PackageCandidate>)
    ensures KnownIds(EvidenceFor(candidates)) == set c, id | c in candidates && id in c.evidenceIds :: id
    ensures forall i, j | 0 <= i < j < |EvidenceFor(candidates)| ::
            EvidenceFor(candidates)[i].id != EvidenceFor(candidates)[j].id
  {
    hide FirstOf, LastSource;
    var cited, evidence := CitedIds(candidates), EvidenceFor(candidates);
    var ids := FirstOf(cited, Itself());
    FirstOfKeepsKeys(cited, Itself());
    forall id ensures id in KnownIds(evidence) <==> exists c | c in candidates :: id in c.evidenceIds {
      CitedIsOwn(candidates, id);
      InFirst(cited, id);
      if id in ids {
        var i :| 0 <= i < |ids| && ids[i] == id;
        assert evidence[i] in evidence && evidence[i].id == id;
      }
    }
    forall i, j | 0 <= i < j < |evidence| ensures evidence[i].id != evidence[j].id {
      assert Itself()(ids[i]) != Itself()(ids[j]);
    }
  }

  lemma InFirst(cited: seq<string>, id: string)
    ensures id in FirstOf(cited, Itself()) <==> id in cited
  {
  }

  ghost predicate OwnIdentities(candidates: seq<PackageCandidate>, le: Entries.Collation) {
    forall c | c in candidates :: c.candidateId == Purl.CandidateIdentity(c.purl, le)
  }

  /**
   The validator's reference checks pass exactly when all evidence that a candidate's detections,
   downloads, stars and assessment cite is some kept candidate's own; in particular when it is its own.
   */
  lemma ReferencesResolveExactly(coverage: seq<Coverage>, kept: seq<PackageCandidate>, counts: Counts,
      le: Entries.Collation)
    requires OwnIdentities(kept, le)
    ensures var artifact := SortedArtifact(coverage, kept, counts, le);
            CheckAll(artifact.candidates, KnownIds(artifact.evidence), le) == [] <==>
              forall c | c in kept :: NestedIn(c, set d, id | d in kept && id in d.evidenceIds :: id)
  {
    hide CheckAll, Sort, NestedIn, EvidenceFor, Purl.CandidateIdentity;
    var artifact := SortedArtifact(coverage, kept, counts, le);
    var known := KnownIds(artifact.evidence);
    NoIssuesExactly(artifact.candidates, known, le);
    EvidenceIsCited(kept);
    forall item ensures item in artifact.evidence <==> item in EvidenceFor(kept) {
      SameElements(artifact.evidence, EvidenceFor(kept), item);
    }
    assert known == KnownIds(EvidenceFor(kept));
    forall c ensures c in artifact.candidates <==> c in kept { SameElements(artifact.candidates, kept, c); }
    forall c | c in kept ensures AllIn(c.evidenceIds, known) {}
  }

  lemma NestedInMore(c: PackageCandidate, known: set<string>, more: set<string>)
    requires NestedIn(c, known) && known <= more
    ensures NestedIn(c, more)
  {
  }

  /** Candidates that cite only their own evidence always pass the reference checks. */
  lemma OwnEvidenceIsEnough(coverage: seq<Coverage>, kept: seq<PackageCandidate>, counts: Counts, le: Entries.Collation)
    requires OwnIdentities(kept, le) && forall c | c in kept :: NestedIn(c, set id | id in c.evidenceIds)
    ensures var artifact := SortedArtifact(coverage, kept, counts, le);
            CheckAll(artifact.candidates, KnownIds(artifact.evidence), le) == []
  {
    hide NestedIn, OwnIdentities, CheckAll, SortedArtifact;
    ReferencesResolveExactly(coverage, kept, counts, le);
    var known := set d, id | d in kept && id in d.evidenceIds :: id;
    forall c | c in kept ensures NestedIn(c, known) {
      var own := set id | id in c.evidenceIds;
      forall id | id in own ensures id in known { assert c in kept && id in c.evidenceIds; }
      NestedInMore(c, own, known);
    }
  }
}
