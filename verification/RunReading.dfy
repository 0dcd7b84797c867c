/** What a run's artifact says, in terms of what the sources delivered. */
module RunReading {
  import opened Wrappers
  import opened Candidates
  import opened CandidateValidator
  import opened Counting
  import opened FirstSeen
  import opened Sorting
  import opened RunAssembly
  import Entries
  import Purl
  import Text

  // ----- which sources -----

  /** The sources that a word asks for. */
  predicate AsksFor(word: string, id: string) {
    || (word == "all" && id in ["npm", "packagist", "pypi", "crates", "go", "libs-tech"])
    || (word in ["javascript", "typescript"] && id == "npm") || (word == "php" && id == "packagist")
    || (word == "python" && id == "pypi") || (word == "rust" && id == "crates")
    || (word !in ["all", "javascript", "typescript", "php", "python", "rust"] && id == word)
  }

  lemma ExpandedAsks(word: string)
    ensures forall id :: id in Expanded(word) <==> AsksFor(word, id)
  {
  }

  lemma {:induction false} ExpandAllAsks(words: seq<string>, id: string)
    ensures id in ExpandAll(words) <==> exists word | word in words :: AsksFor(word, id)
  {
    hide Expanded, AsksFor;
    if words != [] {
      var n := |words| - 1;
      ExpandAllAsks(words[..n], id);
      ExpandedAsks(words[n]);
      assert words == words[..n] + [words[n]];
    }
  }

  /** A source is asked for exactly when some word asks for it. */
  lemma SourcesAskedFor(words: seq<string>, id: string)
    ensures id in NormalizeEcosystems(words) <==> exists word | word in words :: AsksFor(word, id)
  {
    hide ExpandAll, AsksFor, FirstOf;
    ExpandAllAsks(words, id);
    InFirst(ExpandAll(words), id);
  }

  // ----- one candidate -----

  /** Trimmed, and absent if nothing is left. */
  predicate Tidied(given: Option<string>, trim: Purl.Trimmer, kept: Option<string>) {
    if given.None? || trim(given.value) == "" then kept == None else kept == Some(trim(given.value))
  }

  /** The candidate is made of these details and detections. */
  ghost predicate MadeOf(c: PackageCandidate, details: PackageDetails, found: seq<Detection>, settings: Settings) {
    && details.urlsParse
    && c.candidateId == Purl.CandidateIdentity(c.purl, settings.le)
    && c.purl.kind == Text.Lower(details.purl.kind) && (c.purl.qualifiers.Some? <==> details.purl.qualifiers.Some?)
    && (c.purl.qualifiers.Some? ==> multiset(c.purl.qualifiers.value) == multiset(details.purl.qualifiers.value))
    && c.purl.name == settings.trim(details.purl.name) && c.purl.version == settings.trim(details.purl.version)
    && Tidied(details.purl.namespace, settings.trim, c.purl.namespace)
    && Tidied(details.purl.subpath, settings.trim, c.purl.subpath)
    && c.rankSource == details.rankSource && c.downloads == details.downloads && c.stars == details.stars
    && c.choice == details.choice && c.observations == details.observations
    && (forall id :: id in c.evidenceIds <==> id in details.evidenceIds)
    && (forall i, j | 0 <= i < j < |c.evidenceIds| :: c.evidenceIds[i] != c.evidenceIds[j])
    && (forall d :: d in c.detections <==> FirstOfItsKind(found, d))
  }

  /** The first of these detections with its kind and name. */
  ghost predicate FirstOfItsKind(found: seq<Detection>, d: Detection) {
    exists i | 0 <= i < |found| ::
      found[i] == d && forall j | 0 <= j < i :: found[j].kind != d.kind || found[j].name != d.name
  }

  lemma DetectionsAreFirst(found: seq<Detection>, d: Detection)
    ensures d in FirstOf(found, KindAndName()) <==> FirstOfItsKind(found, d)
  {
    hide FirstOf, FirstPositions;
    FirstOfIsFirst(found, KindAndName());
    var kept, at := FirstOf(found, KindAndName()), FirstPositions(found, KindAndName());
    forall i | 0 <= i < |found|
      ensures i in at <==> forall j | 0 <= j < i :: found[j].kind != found[i].kind || found[j].name != found[i].name
    {
      KeySeen(found, i);
    }
    if d in kept {
      var k :| 0 <= k < |kept| && kept[k] == d;
      assert found[at[k]] == d && at[k] in at;
    }
    if FirstOfItsKind(found, d) {
      var i :| 0 <= i < |found| && found[i] == d
               && forall j | 0 <= j < i :: found[j].kind != d.kind || found[j].name != d.name;
      var k :| 0 <= k < |at| && at[k] == i;
      assert kept[k] == d;
    }
  }

  lemma KeySeen(found: seq<Detection>, i: nat)
    requires i < |found|
    ensures KindAndName()(found[i]) !in Keys(found[..i], KindAndName()) <==>
              forall j | 0 <= j < i :: found[j].kind != found[i].kind || found[j].name != found[i].name
  {
    var key := KindAndName();
    forall j | 0 <= j < i ensures key(found[..i][j]) == (found[j].kind, found[j].name) {}
  }

  lemma NormalizedIsMade(details: PackageDetails, found: seq<Detection>, settings: Settings)
    ensures match NormalizePackageCandidate(details, FirstOf(found, KindAndName()), settings)
            case None => !details.urlsParse
            case Some(c) => MadeOf(c, details, found, settings)
  {
    hide FirstOf, FirstOfItsKind, Purl.CandidateIdentity, Sort;
    forall d ensures d in FirstOf(found, KindAndName()) <==> FirstOfItsKind(found, d) { DetectionsAreFirst(found, d); }
    var ids := FirstOf(details.evidenceIds, Itself());
    FirstOfKeepsKeys(details.evidenceIds, Itself());
    forall i, j | 0 <= i < j < |ids| ensures ids[i] != ids[j] { assert Itself()(ids[i]) != Itself()(ids[j]); }
    forall id ensures id in ids <==> id in details.evidenceIds { InFirst(details.evidenceIds, id); }
  }

  /** What a source delivers: candidates made of what it was asked for and of what was detected in it, by both ways. */
  lemma {:induction false} DeliveredAreMade(adapter: Adapter, summaries: seq<PackageDetails>, settings: Settings,
      c: PackageCandidate)
    requires c in Delivered(adapter, summaries, settings)
    ensures exists summary, details, found ::
              && summary in summaries && adapter.fetch(summary) == Some(details)
              && adapter.detect(details) == Some(found)
              && MadeOf(c, details, found + settings.classify(details), settings)
    decreases |summaries|
  {
    hide MadeOf, FirstOf, NormalizePackageCandidate;
    var n := |summaries| - 1;
    if c in Delivered(adapter, summaries[..n], settings) {
      DeliveredAreMade(adapter, summaries[..n], settings, c);
      assert forall s | s in summaries[..n] :: s in summaries;
    } else {
      var details := adapter.fetch(summaries[n]).value;
      var found := adapter.detect(details).value;
      NormalizedIsMade(details, found + settings.classify(details), settings);
      assert summaries[n] in summaries;
    }
  }

  /** It cannot be fetched or searched, or one of its URLs does not parse. */
  predicate Fails(adapter: Adapter, summary: PackageDetails) {
    adapter.fetch(summary) == None || adapter.detect(adapter.fetch(summary).value) == None
    || !adapter.fetch(summary).value.urlsParse
  }

  lemma FailsIs(adapter: Adapter, summary: PackageDetails, settings: Settings)
    ensures Resolved(adapter, summary, settings).None? <==> Fails(adapter, summary)
  {
  }

  /** The packages that failed, by name. */
  lemma {:induction false} FailuresAre(adapter: Adapter, summaries: seq<PackageDetails>, settings: Settings,
      name: string)
    ensures name in Failed(adapter, summaries, settings) <==>
              exists summary | summary in summaries :: summary.packageName == name && Fails(adapter, summary)
    decreases |summaries|
  {
    hide Resolved, Fails;
    if summaries != [] {
      var n := |summaries| - 1;
      FailuresAre(adapter, summaries[..n], settings, name);
      FailsIs(adapter, summaries[n], settings);
      assert summaries == summaries[..n] + [summaries[n]];
    }
  }

  // ----- evidence -----

  lemma {:induction false} LastSourceIs(candidates: seq<PackageCandidate>, id: string)
    requires exists c | c in candidates :: id in c.evidenceIds
    ensures exists i | 0 <= i < |candidates| ::
              && id in candidates[i].evidenceIds && LastSource(candidates, id) == candidates[i].rankSource
              && forall j | i < j < |candidates| :: id !in candidates[j].evidenceIds
    decreases |candidates|
  {
    var n := |candidates| - 1;
    if id in candidates[n].evidenceIds {
      assert LastSource(candidates, id) == candidates[n].rankSource;
    } else {
      var front := candidates[..n];
      assert candidates == front + [candidates[n]];
      LastSourceIs(front, id);
      var i :| 0 <= i < |front| && id in front[i].evidenceIds && LastSource(front, id) == front[i].rankSource
               && forall j | i < j < |front| :: id !in front[j].evidenceIds;
      forall j | i < j < |candidates| ensures id !in candidates[j].evidenceIds {
        if j < n { assert candidates[j] == front[j]; }
      }
      assert id in candidates[i].evidenceIds;
    }
  }

  /** Each evidence record has the source of the last candidate that cites it. */
  lemma EvidenceHasLastSource(candidates: seq<PackageCandidate>, k: nat)
    requires k < |EvidenceFor(candidates)|
    ensures exists i | 0 <= i < |candidates| ::
              && EvidenceFor(candidates)[k].id in candidates[i].evidenceIds
              && EvidenceFor(candidates)[k].sourceId == candidates[i].rankSource
              && forall j | i < j < |candidates| :: EvidenceFor(candidates)[k].id !in candidates[j].evidenceIds
  {
    hide FirstOf, LastSource;
    var id := EvidenceFor(candidates)[k].id;
    InFirst(CitedIds(candidates), id);
    CitedIsOwn(candidates, id);
    LastSourceIs(candidates, id);
  }

  // ----- coverage -----

  lemma {:induction false} CountAlike<T>(s: seq<T>, p: T -> bool, q: T -> bool)
    requires forall x | x in s :: p(x) == q(x)
    ensures CountIf(s, p) == CountIf(s, q)
  {
    if s != [] {
      assert s[|s| - 1] in s;
      CountAlike(s[..|s| - 1], p, q);
    }
  }

  lemma {:induction false} RowAt(results: seq<AdapterRunResult>, i: nat)
    requires i < |results|
    ensures |Rows(results)| == |results| && Rows(results)[i] == Row(results[..i + 1])
    decreases |results|
  {
    hide Row;
    var n := |results| - 1;
    if i < n {
      RowAt(results[..n], i);
      assert results[..n][..i + 1] == results[..i + 1];
    } else {
      assert results[..i + 1] == results;
      if n > 0 { RowAt(results[..n], 0); }
    }
  }

  /** What the coverage says of a source: what it found, and what of it was kept beside the sources before it. */
  lemma CoverageSays(results: seq<AdapterRunResult>, i: nat)
    requires i < |results|
    ensures |Rows(results)| == |results|
    ensures var row, r := Rows(results)[i], results[i];
            var before, after := Kept(results[..i]), Kept(results[..i + 1]);
            && before <= after
            && row.sourceId == r.sourceId && row.discovered == r.discovered && row.failed == |r.failures|
            && row.detailed == |r.candidates|
            && row.deduplicated == row.normalized == |after| - |before|
            && row.classified == CountIf(after[|before|..], (c: PackageCandidate) => c.detections != [])
            && row.conflicted == CountIf(after[|before|..], (c: PackageCandidate) =>
                 c.observations.Some? && |c.observations.value| > 1)
            && row.synchronized == row.skipped == 0
  {
    hide CountIf, Kept, Unique;
    RowAt(results, i);
    var upTo := results[..i + 1];
    assert upTo[..|upTo| - 1] == results[..i];
    KeptGrows(upTo);
    CountAlike(Unique(upTo), IsClassified(), (c: PackageCandidate) => c.detections != []);
    CountAlike(Unique(upTo), IsConflicted(), (c: PackageCandidate) =>
      c.observations.Some? && |c.observations.value| > 1);
  }

  function SumOfDiscovered(results: seq<AdapterRunResult>): nat {
    if results == [] then 0 else SumOfDiscovered(results[..|results| - 1]) + results[|results| - 1].discovered
  }

  function SumOfFailures(results: seq<AdapterRunResult>): nat {
    if results == [] then 0 else SumOfFailures(results[..|results| - 1]) + |results[|results| - 1].failures|
  }

  /** The other two counters: everything discovered, and everything that failed. */
  lemma {:induction false} CountersSum(results: seq<AdapterRunResult>, unsupported: seq<string>)
    ensures var t := Totals(UnsupportedRows(unsupported) + Rows(results));
            t.discovered == SumOfDiscovered(results) && t.failed == SumOfFailures(results)
    decreases |results|
  {
    hide Totals, UnsupportedRows, Unique, CountIf;
    var rows := UnsupportedRows(unsupported);
    if results == [] {
      UnsupportedAddNothing(unsupported);
      assert rows + Rows([]) == rows;
    } else {
      var front := results[..|results| - 1];
      CountersSum(front, unsupported);
      assert rows + Rows(results) == (rows + Rows(front)) + [Row(results)];
      TotalsOfMore(rows + Rows(front), Row(results));
    }
  }

  // ----- the artifact -----

  /** The artifact lists what was kept and cited, in the order of its ids. */
  lemma ArtifactIsOrdered(coverage: seq<Coverage>, kept: seq<PackageCandidate>, counts: Counts, le: Entries.Collation)
    requires TotalOrder(le)
    ensures var a := SortedArtifact(coverage, kept, counts, le);
            && multiset(a.candidates) == multiset(kept) && multiset(a.coverage) == multiset(coverage)
            && multiset(a.evidence) == multiset(EvidenceFor(kept)) && a.counts == counts
            && (forall i, j | 0 <= i < j < |a.candidates| ::
               le(a.candidates[i].candidateId, a.candidates[j].candidateId))
            && (forall i, j | 0 <= i < j < |a.evidence| :: le(a.evidence[i].id, a.evidence[j].id))
            && (forall i, j | 0 <= i < j < |a.coverage| :: le(a.coverage[i].sourceId, a.coverage[j].sourceId))
  {
    hide Sort, EvidenceFor, TotalOrder, TotalPreorder, Conflicted;
    var source, id, evidenceId :=
      (c: Coverage) => c.sourceId, (c: PackageCandidate) => c.candidateId, (e: Evidence) => e.id;
    SortedByKey(coverage, BySource(le), source, le);
    SortedByKey(kept, ByCandidate(le), id, le);
    SortedByKey(EvidenceFor(kept), ByEvidence(le), evidenceId, le);
    var a := SortedArtifact(coverage, kept, counts, le);
    assert a.coverage == Sort(coverage, BySource(le)) && a.candidates == Sort(kept, ByCandidate(le));
    assert a.evidence == Sort(EvidenceFor(kept), ByEvidence(le));
    forall i, j | 0 <= i < j < |a.coverage| ensures le(a.coverage[i].sourceId, a.coverage[j].sourceId) {
      assert BySource(le)(a.coverage[i], a.coverage[j]);
    }
    forall i, j | 0 <= i < j < |a.candidates| ensures le(a.candidates[i].candidateId, a.candidates[j].candidateId) {
      assert ByCandidate(le)(a.candidates[i], a.candidates[j]);
    }
    forall i, j | 0 <= i < j < |a.evidence| ensures le(a.evidence[i].id, a.evidence[j].id) {
      assert ByEvidence(le)(a.evidence[i], a.evidence[j]);
    }
  }

  lemma SortedByKey<T(!new)>(s: seq<T>, order: (T, T) -> bool, key: T -> string, le: Entries.Collation)
    requires TotalOrder(le) && forall a, b :: order(a, b) == le(key(a), key(b))
    ensures SortedBy(Sort(s, order), order)
  {
    hide Sort;
    forall a, b ensures order(a, b) || order(b, a) { assert le(key(a), key(b)) || le(key(b), key(a)); }
    forall a, b, c | order(a, b) && order(b, c) ensures order(a, c) { assert le(key(a), key(b)) && le(key(b), key(c)); }
    SortIsSorted(s, order);
  }
}
