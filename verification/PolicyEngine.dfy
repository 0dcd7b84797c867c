/**
 The policy engine: an index from (ecosystem, runtime, normalized package alias) to rules, built from
 the language artifacts, and the package check that is answered from it.
 */
module PolicyEngine {
  import opened Wrappers
  import opened Sorting
  import opened Text
  import opened Registry

  const GENERIC_RUNTIME: string := "*"

  function Normalize(value: string): string {
    Lower(Trim(value))
  }

  function Aliases(p: Package): seq<string> {
    [p.id, p.slug, p.purl.name]
    + match p.purl.namespace case Some(ns) => [ns + "/" + p.purl.name] case None => []
  }

  function CanonicalPackageName(purl: Purl): string {
    match purl.namespace case Some(ns) => ns + "/" + purl.name case None => purl.name
  }

  datatype PolicyKey = PolicyKey(ecosystemId: string, runtimeId: string, packageAlias: string)
  datatype PolicyRule = PolicyRule(invariantId: string, severity: string, approvedReplacement: string, reason: string)
  datatype LanguageView = LanguageView(id: string, slug: string, name: string, runtimeIds: seq<string>,
      invariantIds: seq<string>)

  datatype Engine = Engine(
    languages: seq<LanguageView>,
    languageByAlias: map<string, string>,
    runtimeByAlias: map<string, string>,
    runtimeToLanguage: map<string, string>,
    packageAliases: map<string, string>,
    policyIndex: map<PolicyKey, seq<PolicyRule>>)

  const EMPTY_ENGINE: Engine := Engine([], map[], map[], map[], map[], map[])

  // ----- what an engine should hold, read off the artifacts -----

  type Pair = (string, string)

  /** The package with an id, if the artifact has one; of several, the last. */
  function FindPackage(packages: seq<Package>, id: string): (r: Option<Package>)
    ensures r.Some? ==> r.value in packages && r.value.id == id
    ensures r.None? ==> forall p | p in packages :: p.id != id
  {
    if packages == [] then None
    else
      var last := packages[|packages| - 1];
      assert forall p | p in packages :: p in packages[..|packages| - 1] || p == last;
      if last.id == id then Some(last) else FindPackage(packages[..|packages| - 1], id)
  }

  function RuntimeKey(inv: Invariant): string {
    match inv.runtimeId case Some(id) => id case None => GENERIC_RUNTIME
  }

  function Replacement(inv: Invariant, approved: Package): string {
    match inv.replacementExample
    case Some(example) => if Blank(example) then CanonicalPackageName(approved.purl) else example
    case None => CanonicalPackageName(approved.purl)
  }

  /** Both packages of an invariant are among the artifact's. */
  predicate Resolved(a: Artifact, inv: Invariant) {
    FindPackage(a.packages, inv.bannedPackageId).Some? && FindPackage(a.packages, inv.approvedPackageId).Some?
  }

  function RuleOf(a: Artifact, inv: Invariant): PolicyRule
    requires Resolved(a, inv)
  {
    PolicyRule(inv.id, inv.severity, Replacement(inv, FindPackage(a.packages, inv.approvedPackageId).value), inv.reason)
  }

  /** The invariant bans a package that answers to this normalized name. */
  predicate Bans(a: Artifact, inv: Invariant, alias: string) {
    match FindPackage(a.packages, inv.bannedPackageId)
    case Some(p) => exists s | s in Aliases(p) :: Normalize(s) == alias
    case None => false
  }

  ghost function LanguagePairs(artifacts: seq<Artifact>): set<Pair> {
    (set a | a in artifacts :: (Normalize(a.language.id), a.language.id))
    + (set a | a in artifacts :: (Normalize(a.language.slug), a.language.id))
  }

  ghost function RuntimePairsOf(runtimes: seq<Runtime>): set<Pair> {
    (set r | r in runtimes :: (Normalize(r.id), r.id)) + (set r | r in runtimes :: (Normalize(r.slug), r.id))
  }

  ghost function RuntimePairs(artifacts: seq<Artifact>): set<Pair> {
    set a, p | a in artifacts && p in RuntimePairsOf(a.runtimes) :: p
  }

  ghost function AliasPairs(p: Package): set<Pair> {
    set s | s in Aliases(p) :: (Normalize(s), p.id)
  }

  ghost function PackagePairsOf(packages: seq<Package>): set<Pair> {
    set p, q | p in packages && q in AliasPairs(p) :: q
  }

  ghost function PackagePairs(artifacts: seq<Artifact>): set<Pair> {
    set a, p | a in artifacts && p in PackagePairsOf(a.packages) :: p
  }

  /** No alias stands for two ids. */
  ghost predicate Unambiguous(pairs: set<Pair>) {
    forall p, q | p in pairs && q in pairs && p.0 == q.0 :: p.1 == q.1
  }

  ghost predicate Represents(m: map<string, string>, pairs: set<Pair>) {
    && (forall p | p in pairs :: p.0 in m && m[p.0] == p.1)
    && (forall k | k in m :: (k, m[k]) in pairs)
  }

  ghost predicate InvariantIndexes(a: Artifact, inv: Invariant, key: PolicyKey, rule: PolicyRule) {
    && Resolved(a, inv) && rule == RuleOf(a, inv)
    && key.ecosystemId == a.language.id && key.runtimeId == RuntimeKey(inv) && Bans(a, inv, key.packageAlias)
  }

  ghost predicate Indexes(a: Artifact, invariants: seq<Invariant>, key: PolicyKey, rule: PolicyRule) {
    exists inv | inv in invariants :: InvariantIndexes(a, inv, key, rule)
  }

  function RulesAt(index: map<PolicyKey, seq<PolicyRule>>, key: PolicyKey): seq<PolicyRule> {
    if key in index then index[key] else []
  }

  ghost predicate IndexHolds(index: map<PolicyKey, seq<PolicyRule>>, artifacts: seq<Artifact>) {
    forall key, rule :: rule in RulesAt(index, key) <==>
        exists a | a in artifacts :: Indexes(a, a.invariants, key, rule)
  }

  function LastOwner(artifacts: seq<Artifact>, runtimeId: string): Option<string> {
    if artifacts == [] then None
    else
      var last := artifacts[|artifacts| - 1];
      if runtimeId in RuntimeIds(last.runtimes) then Some(last.language.id)
      else LastOwner(artifacts[..|artifacts| - 1], runtimeId)
  }

  function OwnerAt(m: map<string, string>, id: string): Option<string> {
    if id in m then Some(m[id]) else None
  }

  function View(a: Artifact): LanguageView {
    LanguageView(a.language.id, a.language.slug, a.language.name, RuntimeIds(a.runtimes), InvariantIds(a.invariants))
  }

  function Views(artifacts: seq<Artifact>): seq<LanguageView> {
    seq(|artifacts|, i requires 0 <= i < |artifacts| => View(artifacts[i]))
  }

  function ById(): (LanguageView, LanguageView) -> bool {
    (a: LanguageView, b: LanguageView) => StrLe(a.id, b.id)
  }

  /** The engine holds what the artifacts say, before its languages are sorted. */
  ghost predicate Holds(e: Engine, artifacts: seq<Artifact>) {
    && Represents(e.languageByAlias, LanguagePairs(artifacts))
    && Represents(e.runtimeByAlias, RuntimePairs(artifacts))
    && Represents(e.packageAliases, PackagePairs(artifacts))
    && (forall id :: OwnerAt(e.runtimeToLanguage, id) == LastOwner(artifacts, id))
    && IndexHolds(e.policyIndex, artifacts)
  }

  // ----- building -----

  function InsertAlias(aliases: map<string, string>, alias: string,
      id: string): Result<map<string, string>, RegistryError> {
    var normalized := Normalize(alias);
    if normalized in aliases && aliases[normalized] != id then Err(Invalid("registry aliases are ambiguous"))
    else Ok(aliases[normalized := id])
  }

  /** Inserting one alias fails exactly when the alias already stands for another id. */
  lemma InsertAliasRepresents(m: map<string, string>, pairs: set<Pair>, alias: string, id: string)
    requires Represents(m, pairs)
    ensures var r := InsertAlias(m, alias, id);
            && (r.Ok? <==> Unambiguous(pairs + {(Normalize(alias), id)}))
            && (r.Ok? ==> Represents(r.value, pairs + {(Normalize(alias), id)}))
  {
    hide Normalize;
    var key := Normalize(alias);
    if key in m && m[key] != id {
      assert (key, m[key]) in pairs && (key, id) in pairs + {(key, id)};
    }
  }

  lemma RuntimePairsGrow(runtimes: seq<Runtime>, i: nat)
    requires i < |runtimes|
    ensures RuntimePairsOf(runtimes[..i + 1]) ==
              RuntimePairsOf(runtimes[..i]) + {(Normalize(runtimes[i].id), runtimes[i].id)}
                  + {(Normalize(runtimes[i].slug), runtimes[i].id)}
    ensures RuntimePairsOf(runtimes[..i + 1]) <= RuntimePairsOf(runtimes)
  {
    hide Normalize;
    assert runtimes[..i + 1] == runtimes[..i] + [runtimes[i]];
  }

  method IndexRuntimes(aliases: map<string, string>, owners: map<string, string>, a: Artifact, ghost pairs: set<Pair>)
    returns (r: Result<(map<string, string>, map<string, string>), RegistryError>)
    requires Represents(aliases, pairs)
    ensures r.Ok? <==> Unambiguous(pairs + RuntimePairsOf(a.runtimes))
    ensures r.Ok? ==> Represents(r.value.0, pairs + RuntimePairsOf(a.runtimes))
    ensures r.Ok? ==> forall id :: OwnerAt(r.value.1, id) ==
                        if id in RuntimeIds(a.runtimes) then Some(a.language.id) else OwnerAt(owners, id)
  {
    hide Normalize, InsertAlias, RuntimePairsOf, Represents, Unambiguous;
    var byAlias, toLanguage := aliases, owners;
    NoRuntimePairs(a.runtimes, pairs);
    for i := 0 to |a.runtimes|
      invariant Represents(byAlias, pairs + RuntimePairsOf(a.runtimes[..i]))
      invariant forall id :: OwnerAt(toLanguage, id) ==
                  if id in RuntimeIds(a.runtimes)[..i] then Some(a.language.id) else OwnerAt(owners, id)
    {
      var runtime := a.runtimes[i];
      ghost var before := pairs + RuntimePairsOf(a.runtimes[..i]);
      ghost var one, two := {(Normalize(runtime.id), runtime.id)}, {(Normalize(runtime.slug), runtime.id)};
      RuntimePairsGrow(a.runtimes, i);
      assert before + one + two == pairs + RuntimePairsOf(a.runtimes[..i + 1]);
      InsertAliasRepresents(byAlias, before, runtime.id, runtime.id);
      var first := InsertAlias(byAlias, runtime.id, runtime.id);
      if first.Err? {
        WholeIsAmbiguous(before + one, pairs + RuntimePairsOf(a.runtimes));
        return Err(first.error);
      }
      InsertAliasRepresents(first.value, before + one, runtime.slug, runtime.id);
      var second := InsertAlias(first.value, runtime.slug, runtime.id);
      if second.Err? {
        WholeIsAmbiguous(before + one + two, pairs + RuntimePairsOf(a.runtimes));
        return Err(second.error);
      }
      byAlias := second.value;
      toLanguage := toLanguage[runtime.id := a.language.id];
      assert RuntimeIds(a.runtimes)[..i + 1] == RuntimeIds(a.runtimes)[..i] + [runtime.id];
    }
    assert a.runtimes[..|a.runtimes|] == a.runtimes;
    assert RuntimeIds(a.runtimes)[..|a.runtimes|] == RuntimeIds(a.runtimes);
    RepresentedIsUnambiguous(byAlias, pairs + RuntimePairsOf(a.runtimes));
    return Ok((byAlias, toLanguage));
  }

  lemma NoRuntimePairs(runtimes: seq<Runtime>, pairs: set<Pair>)
    ensures pairs + RuntimePairsOf(runtimes[..0]) == pairs
  {
  }

  lemma WholeIsAmbiguous(part: set<Pair>, whole: set<Pair>)
    requires part <= whole && !Unambiguous(part)
    ensures !Unambiguous(whole)
  {
  }

  lemma RepresentedIsUnambiguous(m: map<string, string>, pairs: set<Pair>)
    requires Represents(m, pairs)
    ensures Unambiguous(pairs)
  {
  }

  lemma AliasPairsGrow(p: Package, j: nat)
    requires j < |Aliases(p)|
    ensures FirstAliases(p, j + 1) == FirstAliases(p, j) + {(Normalize(Aliases(p)[j]), p.id)}
    ensures FirstAliases(p, j + 1) <= AliasPairs(p)
  {
    hide Normalize, Aliases;
    assert Aliases(p)[..j + 1] == Aliases(p)[..j] + [Aliases(p)[j]];
  }

  ghost function FirstAliases(p: Package, j: nat): set<Pair>
    requires j <= |Aliases(p)|
  {
    set s | s in Aliases(p)[..j] :: (Normalize(s), p.id)
  }

  lemma AllAliases(p: Package)
    ensures FirstAliases(p, 0) == {} && FirstAliases(p, |Aliases(p)|) == AliasPairs(p)
  {
  }

  lemma PackagePairsGrow(packages: seq<Package>, i: nat)
    requires i < |packages|
    ensures PackagePairsOf(packages[..i + 1]) == PackagePairsOf(packages[..i]) + AliasPairs(packages[i])
    ensures PackagePairsOf(packages[..i + 1]) <= PackagePairsOf(packages)
  {
  }

  method IndexPackageAliases(aliases: map<string, string>, packages: seq<Package>, ghost pairs: set<Pair>)
    returns (r: Result<map<string, string>, RegistryError>)
    requires Represents(aliases, pairs)
    ensures r.Ok? <==> Unambiguous(pairs + PackagePairsOf(packages))
    ensures r.Ok? ==> Represents(r.value, pairs + PackagePairsOf(packages))
  {
    hide Normalize, InsertAlias, PackagePairsOf, AliasPairs, FirstAliases, Represents, Unambiguous, Aliases;
    var m := aliases;
    NoPackagePairs(packages, pairs);
    for i := 0 to |packages|
      invariant Represents(m, pairs + PackagePairsOf(packages[..i]))
    {
      PackagePairsGrow(packages, i);
      var p := packages[i];
      ghost var before := pairs + PackagePairsOf(packages[..i]);
      AllAliases(p);
      assert before + {} == before;
      for j := 0 to |Aliases(p)|
        invariant Represents(m, before + FirstAliases(p, j))
      {
        var alias := Aliases(p)[j];
        ghost var step := {(Normalize(alias), p.id)};
        AliasPairsGrow(p, j);
        assert before + FirstAliases(p, j) + step == before + FirstAliases(p, j + 1);
        InsertAliasRepresents(m, before + FirstAliases(p, j), alias, p.id);
        var next := InsertAlias(m, alias, p.id);
        if next.Err? {
          assert before + FirstAliases(p, j + 1) <= pairs + PackagePairsOf(packages);
          WholeIsAmbiguous(before + FirstAliases(p, j) + step, pairs + PackagePairsOf(packages));
          return Err(Invalid("package aliases are ambiguous"));
        }
        m := next.value;
      }
      assert before + AliasPairs(p) == pairs + PackagePairsOf(packages[..i + 1]);
    }
    assert packages[..|packages|] == packages;
    RepresentedIsUnambiguous(m, pairs + PackagePairsOf(packages));
    return Ok(m);
  }

  lemma NoPackagePairs(packages: seq<Package>, pairs: set<Pair>)
    ensures pairs + PackagePairsOf(packages[..0]) == pairs
  {
  }

  /** Appending a rule under a key. */
  function Push(index: map<PolicyKey, seq<PolicyRule>>, key: PolicyKey,
      rule: PolicyRule): map<PolicyKey, seq<PolicyRule>> {
    index[key := RulesAt(index, key) + [rule]]
  }

  lemma PushAdds(index: map<PolicyKey, seq<PolicyRule>>, at: PolicyKey, pushed: PolicyRule)
    ensures forall key, rule ::
              rule in RulesAt(Push(index, at, pushed), key) <==>
                  rule in RulesAt(index, key) || (key == at && rule == pushed)
  {
  }

  ghost predicate Adds(index: map<PolicyKey, seq<PolicyRule>>, next: map<PolicyKey, seq<PolicyRule>>, a: Artifact,
      inv: Invariant, aliases: seq<string>)
    requires Resolved(a, inv)
  {
    forall key, rule :: rule in RulesAt(next, key) <==>
      rule in RulesAt(index, key)
      || (rule == RuleOf(a, inv) && key.ecosystemId == a.language.id && key.runtimeId == RuntimeKey(inv)
          && exists s | s in aliases :: Normalize(s) == key.packageAlias)
  }

  /** One push for every alias of the banned package, repeated aliases included. */
  method IndexInvariant(index: map<PolicyKey, seq<PolicyRule>>, a: Artifact, inv: Invariant)
    returns (r: Result<map<PolicyKey, seq<PolicyRule>>, RegistryError>)
    ensures r.Ok? <==> Resolved(a, inv)
    ensures r.Ok? ==> forall key, rule ::
              rule in RulesAt(r.value, key) <==> rule in RulesAt(index, key) || InvariantIndexes(a, inv, key, rule)
  {
    hide Normalize, Aliases, RulesAt, Push, Replacement, RuntimeKey;
    var banned := FindPackage(a.packages, inv.bannedPackageId);
    if banned.None? {
      return Err(Invalid("banned package relationship is unresolved"));
    }
    var approved := FindPackage(a.packages, inv.approvedPackageId);
    if approved.None? {
      return Err(Invalid("approved package relationship is unresolved"));
    }
    var rule := PolicyRule(inv.id, inv.severity, Replacement(inv, approved.value), inv.reason);
    var aliases := Aliases(banned.value);
    var m := index;
    for j := 0 to |aliases|
      invariant Adds(index, m, a, inv, aliases[..j])
    {
      var key := PolicyKey(a.language.id, RuntimeKey(inv), Normalize(aliases[j]));
      PushAdds(m, key, rule);
      assert aliases[..j + 1] == aliases[..j] + [aliases[j]];
      m := Push(m, key, rule);
    }
    assert aliases[..|aliases|] == aliases;
    return Ok(m);
  }

  method IndexInvariants(index: map<PolicyKey, seq<PolicyRule>>, a: Artifact)
      returns (r: Result<map<PolicyKey, seq<PolicyRule>>, RegistryError>)
    ensures r.Ok? <==> forall inv | inv in a.invariants :: Resolved(a, inv)
    ensures r.Ok? ==> forall key, rule ::
              rule in RulesAt(r.value, key) <==> rule in RulesAt(index, key) || Indexes(a, a.invariants, key, rule)
  {
    hide InvariantIndexes, RulesAt, Resolved;
    var m := index;
    for i := 0 to |a.invariants|
      invariant forall inv | inv in a.invariants[..i] :: Resolved(a, inv)
      invariant forall key, rule :: rule in RulesAt(m, key) <==>
                rule in RulesAt(index, key) || Indexes(a, a.invariants[..i], key, rule)
    {
      var inv := a.invariants[i];
      assert inv in a.invariants;
      assert a.invariants[..i + 1] == a.invariants[..i] + [inv];
      var next := IndexInvariant(m, a, inv);
      if next.Err? {
        return Err(next.error);
      }
      m := next.value;
    }
    assert a.invariants[..|a.invariants|] == a.invariants;
    return Ok(m);
  }

  ghost predicate AllResolved(artifacts: seq<Artifact>) {
    forall a, inv | a in artifacts && inv in a.invariants :: Resolved(a, inv)
  }

  /** What makes a registry build: no alias for two ids, and every invariant's packages present. */
  ghost predicate Buildable(artifacts: seq<Artifact>) {
    && Unambiguous(LanguagePairs(artifacts)) && Unambiguous(RuntimePairs(artifacts))
    && Unambiguous(PackagePairs(artifacts))
    && AllResolved(artifacts)
  }

  lemma LanguagePairsGrow(artifacts: seq<Artifact>, i: nat)
    requires i < |artifacts|
    ensures var l := artifacts[i].language;
            LanguagePairs(artifacts[..i + 1]) ==
              LanguagePairs(artifacts[..i]) + {(Normalize(l.id), l.id)} + {(Normalize(l.slug), l.id)}
    ensures LanguagePairs(artifacts[..i + 1]) <= LanguagePairs(artifacts)
  {
    hide Normalize;
    assert artifacts[..i + 1] == artifacts[..i] + [artifacts[i]];
  }

  lemma OtherPairsGrow(artifacts: seq<Artifact>, i: nat)
    requires i < |artifacts|
    ensures RuntimePairs(artifacts[..i + 1]) == RuntimePairs(artifacts[..i]) + RuntimePairsOf(artifacts[i].runtimes)
    ensures RuntimePairs(artifacts[..i + 1]) <= RuntimePairs(artifacts)
    ensures PackagePairs(artifacts[..i + 1]) == PackagePairs(artifacts[..i]) + PackagePairsOf(artifacts[i].packages)
    ensures PackagePairs(artifacts[..i + 1]) <= PackagePairs(artifacts)
  {
    hide RuntimePairsOf, PackagePairsOf;
    assert artifacts[..i + 1] == artifacts[..i] + [artifacts[i]];
  }

  lemma EmptyHolds(artifacts: seq<Artifact>)
    ensures Holds(EMPTY_ENGINE, artifacts[..0])
  {
    hide RuntimePairsOf, PackagePairsOf, Indexes;
  }

  lemma IndexGrows(index: map<PolicyKey, seq<PolicyRule>>, next: map<PolicyKey, seq<PolicyRule>>,
      artifacts: seq<Artifact>, i: nat)
    requires i < |artifacts| && IndexHolds(index, artifacts[..i])
    requires var a := artifacts[i];
             forall key, rule :: rule in RulesAt(next, key) <==>
                 rule in RulesAt(index, key) || Indexes(a, a.invariants, key, rule)
    ensures IndexHolds(next, artifacts[..i + 1])
  {
  }

  lemma OwnersGrow(artifacts: seq<Artifact>, i: nat, id: string)
    requires i < |artifacts|
    ensures LastOwner(artifacts[..i + 1], id) ==
              if id in RuntimeIds(artifacts[i].runtimes) then Some(artifacts[i].language.id)
                  else LastOwner(artifacts[..i], id)
  {
    assert artifacts[..i + 1][..i] == artifacts[..i];
  }

  /** One pass of the outer loop: the next artifact's aliases, runtimes, packages and invariants. */
  method IndexArtifact(e: Engine, artifacts: seq<Artifact>, i: nat) returns (r: Result<Engine, RegistryError>)
    requires i < |artifacts| && Holds(e, artifacts[..i])
    ensures r.Err? ==> !Buildable(artifacts)
    ensures r.Ok? ==> Holds(r.value, artifacts[..i + 1]) && AllResolved([artifacts[i]])
    ensures r.Ok? ==> r.value.languages == e.languages + [View(artifacts[i])]
  {
    hide Normalize, InsertAlias, LanguagePairs, RuntimePairs, PackagePairs, RuntimePairsOf, PackagePairsOf, Represents,
         Unambiguous, IndexHolds, Indexes, Resolved, RulesAt, LastOwner, OwnerAt, RuntimeIds, View;
    var a := artifacts[i];
    var id := a.language.id;
    LanguagePairsGrow(artifacts, i);
    OtherPairsGrow(artifacts, i);
    ghost var known := LanguagePairs(artifacts[..i]);
    ghost var one, two := {(Normalize(id), id)}, {(Normalize(a.language.slug), id)};
    InsertAliasRepresents(e.languageByAlias, known, id, id);
    var first := InsertAlias(e.languageByAlias, id, id);
    if first.Err? {
      WholeIsAmbiguous(known + one, LanguagePairs(artifacts));
      return Err(first.error);
    }
    InsertAliasRepresents(first.value, known + one, a.language.slug, id);
    var second := InsertAlias(first.value, a.language.slug, id);
    if second.Err? {
      WholeIsAmbiguous(known + one + two, LanguagePairs(artifacts));
      return Err(second.error);
    }
    var runtimes := IndexRuntimes(e.runtimeByAlias, e.runtimeToLanguage, a, RuntimePairs(artifacts[..i]));
    if runtimes.Err? {
      WholeIsAmbiguous(RuntimePairs(artifacts[..i + 1]), RuntimePairs(artifacts));
      return Err(runtimes.error);
    }
    var packages := IndexPackageAliases(e.packageAliases, a.packages, PackagePairs(artifacts[..i]));
    if packages.Err? {
      WholeIsAmbiguous(PackagePairs(artifacts[..i + 1]), PackagePairs(artifacts));
      return Err(packages.error);
    }
    var rules := IndexInvariants(e.policyIndex, a);
    if rules.Err? {
      assert a in artifacts;
      return Err(rules.error);
    }
    IndexGrows(e.policyIndex, rules.value, artifacts, i);
    forall r ensures OwnerAt(runtimes.value.1, r) == LastOwner(artifacts[..i + 1], r) { OwnersGrow(artifacts, i, r); }
    return Ok(Engine(e.languages + [View(a)], second.value, runtimes.value.0, runtimes.value.1, packages.value,
        rules.value));
  }

  /** Building succeeds exactly for buildable registries, and the engine then holds what the artifacts say. */
  method BuildEngine(artifacts: seq<Artifact>) returns (r: Result<Engine, RegistryError>)
    ensures r.Ok? <==> Buildable(artifacts)
    ensures r.Ok? ==> Holds(r.value, artifacts) && r.value.languages == Sort(Views(artifacts), ById())
  {
    hide View, Resolved, LanguagePairs, RuntimePairs, PackagePairs, Represents, Unambiguous, IndexHolds, LastOwner,
         OwnerAt;
    var e := EMPTY_ENGINE;
    EmptyHolds(artifacts);
    for i := 0 to |artifacts|
      invariant Holds(e, artifacts[..i])
      invariant AllResolved(artifacts[..i])
      invariant e.languages == Views(artifacts[..i])
    {
      var next := IndexArtifact(e, artifacts, i);
      if next.Err? {
        return Err(next.error);
      }
      e := next.value;
      assert artifacts[..i + 1] == artifacts[..i] + [artifacts[i]];
    }
    assert artifacts[..|artifacts|] == artifacts;
    RepresentedIsUnambiguous(e.languageByAlias, LanguagePairs(artifacts));
    RepresentedIsUnambiguous(e.runtimeByAlias, RuntimePairs(artifacts));
    RepresentedIsUnambiguous(e.packageAliases, PackagePairs(artifacts));
    return Ok(e.(languages := Sort(e.languages, ById())));
  }

  // ----- checking packages -----

  datatype Violation = Violation(package: string, severity: string, approvedReplacement: string, reason: string)
  datatype Dependency = Dependency(package: string, version: string)
  datatype CheckError = UnknownEcosystem | UnknownRuntime | RuntimeMismatch | InvalidDependency

  predicate ValidDependency(d: Dependency) {
    !Blank(d.package) && !Blank(d.version)
  }

  /** The sort key of the answer: all four fields, in this order. */
  predicate FieldsLe(a: Violation, b: Violation) {
    if a.package != b.package then StrLe(a.package, b.package)
    else if a.severity != b.severity then StrLe(a.severity, b.severity)
    else if a.approvedReplacement != b.approvedReplacement then StrLe(a.approvedReplacement, b.approvedReplacement)
    else StrLe(a.reason, b.reason)
  }

  function ByFields(): (Violation, Violation) -> bool {
    (a, b) => FieldsLe(a, b)
  }

  function Raise(package: string): PolicyRule -> Violation {
    (rule: PolicyRule) => Violation(package, rule.severity, rule.approvedReplacement, rule.reason)
  }

  /** Rules whose invariant was not seen before. */
  function Unseen(rules: seq<PolicyRule>, seen: set<string>): seq<PolicyRule> {
    if rules == [] then []
    else if rules[0].invariantId in seen then Unseen(rules[1..], seen)
    else [rules[0]] + Unseen(rules[1..], seen + {rules[0].invariantId})
  }

  /** The runtime's own rules for an alias, then the generic ones. */
  function RulesFor(e: Engine, ecosystemId: string, runtimeId: string, alias: string): seq<PolicyRule> {
    RulesAt(e.policyIndex, PolicyKey(ecosystemId, runtimeId, alias))
    + RulesAt(e.policyIndex, PolicyKey(ecosystemId, GENERIC_RUNTIME, alias))
  }

  function Raised(e: Engine, ecosystemId: string, runtimeId: string, package: string): seq<Violation> {
    Map(Unseen(RulesFor(e, ecosystemId, runtimeId, Normalize(package)), {}), Raise(package))
  }

  function RaisedAll(e: Engine, ecosystemId: string, runtimeId: string, dependencies: seq<Dependency>): seq<Violation> {
    if dependencies == [] then []
    else RaisedAll(e, ecosystemId, runtimeId, dependencies[..|dependencies| - 1])
         + Raised(e, ecosystemId, runtimeId, dependencies[|dependencies| - 1].package)
  }

  function EcosystemId(e: Engine, value: string): Option<string> {
    OwnerAt(e.languageByAlias, Normalize(value))
  }

  function RuntimeId(e: Engine, value: string): Option<string> {
    OwnerAt(e.runtimeByAlias, Normalize(value))
  }

  function Check(e: Engine, ecosystem: string, runtime: string,
      dependencies: seq<Dependency>): Result<seq<Violation>, CheckError> {
    var valid := forall d | d in dependencies :: ValidDependency(d);
    if e.languages == [] then (if valid then Ok([]) else Err(InvalidDependency))
    else
      match EcosystemId(e, ecosystem)
      case None => Err(UnknownEcosystem)
      case Some(ecosystemId) =>
        match RuntimeId(e, runtime)
        case None => Err(UnknownRuntime)
        case Some(runtimeId) =>
          if OwnerAt(e.runtimeToLanguage, runtimeId) != Some(ecosystemId) then Err(RuntimeMismatch)
          else if !valid then Err(InvalidDependency)
          else Ok(Sort(RaisedAll(e, ecosystemId, runtimeId, dependencies), ByFields()))
  }

  lemma {:induction false} UnseenStep(rules: seq<PolicyRule>, seen: set<string>, i: nat)
    requires i < |rules|
    ensures Unseen(rules[i..], seen) ==
              if rules[i].invariantId in seen then Unseen(rules[i + 1..], seen)
              else [rules[i]] + Unseen(rules[i + 1..], seen + {rules[i].invariantId})
  {
  }

  /** The loop over the rules found for one dependency, with its set of invariants already reported. */
  method RaiseOnce(rules: seq<PolicyRule>, package: string) returns (violations: seq<Violation>)
    ensures violations == Map(Unseen(rules, {}), Raise(package))
  {
    violations := [];
    var seen: set<string> := {};
    ghost var kept: seq<PolicyRule> := [];
    assert rules[0..] == rules;
    for i := 0 to |rules|
      invariant violations == Map(kept, Raise(package))
      invariant kept + Unseen(rules[i..], seen) == Unseen(rules, {})
    {
      UnseenStep(rules, seen, i);
      if rules[i].invariantId !in seen {
        seen := seen + {rules[i].invariantId};
        assert kept + ([rules[i]] + Unseen(rules[i + 1..], seen)) == kept + [rules[i]] + Unseen(rules[i + 1..], seen);
        kept := kept + [rules[i]];
        violations := violations + [Raise(package)(rules[i])];
        assert violations == Map(kept, Raise(package));
      }
    }
    assert kept + Unseen([], seen) == kept;
  }

  method CheckPackages(e: Engine, ecosystem: string, runtime: string, dependencies: seq<Dependency>)
    returns (r: Result<seq<Violation>, CheckError>)
    ensures r == Check(e, ecosystem, runtime, dependencies)
  {
    hide ValidDependency, Raised, Sort, Normalize, Raise, Unseen, Map;
    if e.languages == [] {
      if exists d | d in dependencies :: !ValidDependency(d) {
        return Err(InvalidDependency);
      }
      return Ok([]);
    }
    var ecosystemId := EcosystemId(e, ecosystem);
    if ecosystemId.None? {
      return Err(UnknownEcosystem);
    }
    var runtimeId := RuntimeId(e, runtime);
    if runtimeId.None? {
      return Err(UnknownRuntime);
    }
    if OwnerAt(e.runtimeToLanguage, runtimeId.value) != Some(ecosystemId.value) {
      return Err(RuntimeMismatch);
    }
    var violations: seq<Violation> := [];
    for i := 0 to |dependencies|
      invariant forall d | d in dependencies[..i] :: ValidDependency(d)
      invariant violations == RaisedAll(e, ecosystemId.value, runtimeId.value, dependencies[..i])
    {
      var d := dependencies[i];
      assert d in dependencies;
      if !ValidDependency(d) {
        return Err(InvalidDependency);
      }
      var found := RaiseOnce(RulesFor(e, ecosystemId.value, runtimeId.value, Normalize(d.package)), d.package);
      assert found == Raised(e, ecosystemId.value, runtimeId.value, d.package) by {
        RaisedIs(e, ecosystemId.value, runtimeId.value, d.package);
      }
      violations := violations + found;
      assert dependencies[..i + 1][..i] == dependencies[..i];
      assert dependencies[..i + 1] == dependencies[..i] + [d];
    }
    assert dependencies[..|dependencies|] == dependencies;
    return Ok(Sort(violations, ByFields()));
  }

  lemma RaisedIs(e: Engine, ecosystemId: string, runtimeId: string, package: string)
    ensures Raised(e, ecosystemId, runtimeId, package)
            == Map(Unseen(RulesFor(e, ecosystemId, runtimeId, Normalize(package)), {}), Raise(package))
  {
  }

  // ----- the check is a plain scan of the language's invariants -----

  /** The rules a reader of the registry would collect: every applicable invariant that bans the alias. */
  function Scan(a: Artifact, invariants: seq<Invariant>, runtimeId: string, alias: string): seq<PolicyRule>
  {
    if invariants == [] then []
    else
      var inv := invariants[0];
      (if Resolved(a, inv) && (inv.runtimeId == None || inv.runtimeId == Some(runtimeId)) && Bans(a, inv, alias)
       then [RuleOf(a, inv)] else [])
      + Scan(a, invariants[1..], runtimeId, alias)
  }

  function ScanAll(a: Artifact, runtimeId: string, dependencies: seq<Dependency>): seq<Violation> {
    if dependencies == [] then []
    else
      var last := dependencies[|dependencies| - 1].package;
      ScanAll(a, runtimeId, dependencies[..|dependencies| - 1])
      + Map(Scan(a, a.invariants, runtimeId, Normalize(last)), Raise(last))
  }

  predicate DistinctInvariants(invariants: seq<Invariant>) {
    forall i, j | 0 <= i < j < |invariants| :: invariants[i].id != invariants[j].id
  }

  ghost predicate DistinctLanguages(artifacts: seq<Artifact>) {
    forall a, b | a in artifacts && b in artifacts && a.language.id == b.language.id :: a == b
  }

  lemma {:induction false} ScanFinds(a: Artifact, invariants: seq<Invariant>, runtimeId: string, alias: string,
      rule: PolicyRule)
    ensures rule in Scan(a, invariants, runtimeId, alias) <==>
              exists inv | inv in invariants ::
                && Resolved(a, inv) && rule == RuleOf(a, inv)
                && (inv.runtimeId == None || inv.runtimeId == Some(runtimeId)) && Bans(a, inv, alias)
  {
    hide Resolved, Bans, Normalize;
    if invariants != [] {
      ScanFinds(a, invariants[1..], runtimeId, alias, rule);
      assert invariants == [invariants[0]] + invariants[1..];
    }
  }

  lemma {:induction false} ScanIsDistinct(a: Artifact, invariants: seq<Invariant>, runtimeId: string, alias: string)
    requires DistinctInvariants(invariants)
    ensures Distinct(Scan(a, invariants, runtimeId, alias))
  {
    hide Resolved, Bans, Normalize;
    if invariants != [] {
      var rest := Scan(a, invariants[1..], runtimeId, alias);
      ScanIsDistinct(a, invariants[1..], runtimeId, alias);
      var inv := invariants[0];
      if Resolved(a, inv) {
        var rule := RuleOf(a, inv);
        ScanFinds(a, invariants[1..], runtimeId, alias, rule);
        assert forall i | 1 <= i < |invariants| :: invariants[i].id != inv.id;
        assert rule !in rest;
        DistinctTail([rule] + rest);
        assert ([rule] + rest)[1..] == rest;
      }
    }
  }

  /** In a set of rules an invariant has one rule. */
  ghost predicate OneRuleEach(rules: seq<PolicyRule>) {
    forall x, y | x in rules && y in rules && x.invariantId == y.invariantId :: x == y
  }

  /** Dropping rules of invariants already seen keeps each rule once. */
  lemma {:induction false} UnseenIsTheSet(rules: seq<PolicyRule>, seen: set<string>)
    requires OneRuleEach(rules)
    ensures forall x :: x in Unseen(rules, seen) <==> x in rules && x.invariantId !in seen
    ensures Distinct(Unseen(rules, seen))
  {
    if rules != [] {
      var head, tail := rules[0], rules[1..];
      assert rules == [head] + tail;
      if head.invariantId in seen {
        UnseenIsTheSet(tail, seen);
      } else {
        var rest := Unseen(tail, seen + {head.invariantId});
        UnseenIsTheSet(tail, seen + {head.invariantId});
        assert head !in rest;
        DistinctTail([head] + rest);
        assert ([head] + rest)[1..] == rest;
      }
    }
  }

  /** Which rules the index gives for a query on a language. */
  lemma RulesForAre(e: Engine, artifacts: seq<Artifact>, a: Artifact, runtimeId: string, alias: string,
      rule: PolicyRule)
    requires IndexHolds(e.policyIndex, artifacts) && DistinctLanguages(artifacts) && a in artifacts
    ensures rule in RulesFor(e, a.language.id, runtimeId, alias) <==>
              exists inv | inv in a.invariants ::
                && Resolved(a, inv) && rule == RuleOf(a, inv)
                && (RuntimeKey(inv) == runtimeId || RuntimeKey(inv) == GENERIC_RUNTIME) && Bans(a, inv, alias)
  {
    hide Resolved, Bans, RulesAt, RuntimeKey, IndexHolds;
    var own := PolicyKey(a.language.id, runtimeId, alias);
    var generic := PolicyKey(a.language.id, GENERIC_RUNTIME, alias);
    IndexedAt(e, artifacts, a, own, rule);
    IndexedAt(e, artifacts, a, generic, rule);
  }

  lemma IndexedAt(e: Engine, artifacts: seq<Artifact>, a: Artifact, key: PolicyKey, rule: PolicyRule)
    requires IndexHolds(e.policyIndex, artifacts) && DistinctLanguages(artifacts) && a in artifacts
             && key.ecosystemId == a.language.id
    ensures rule in RulesAt(e.policyIndex, key) <==> Indexes(a, a.invariants, key, rule)
  {
  }

  /** No invariant of the language is bound to a runtime that is literally the generic key. */
  predicate NoGenericRuntime(a: Artifact) {
    forall inv | inv in a.invariants :: inv.runtimeId != Some(GENERIC_RUNTIME)
  }

  lemma RulesAreScanned(e: Engine, artifacts: seq<Artifact>, a: Artifact, runtimeId: string, alias: string)
    requires IndexHolds(e.policyIndex, artifacts) && DistinctLanguages(artifacts) && a in artifacts
    requires DistinctInvariants(a.invariants) && NoGenericRuntime(a)
    ensures multiset(Unseen(RulesFor(e, a.language.id, runtimeId, alias), {}))
            == multiset(Scan(a, a.invariants, runtimeId, alias))
  {
    hide Resolved, Bans, RulesFor, Scan, Unseen, IndexHolds, Distinct;
    var rules, scanned := RulesFor(e, a.language.id, runtimeId, alias), Scan(a, a.invariants, runtimeId, alias);
    forall rule ensures rule in rules <==> rule in scanned {
      RulesForAre(e, artifacts, a, runtimeId, alias, rule);
      ScanFinds(a, a.invariants, runtimeId, alias, rule);
    }
    RulesForAreOneEach(e, artifacts, a, runtimeId, alias);
    UnseenIsTheSet(rules, {});
    ScanIsDistinct(a, a.invariants, runtimeId, alias);
    DistinctSameMembers(Unseen(rules, {}), scanned);
  }

  lemma RulesForAreOneEach(e: Engine, artifacts: seq<Artifact>, a: Artifact, runtimeId: string, alias: string)
    requires IndexHolds(e.policyIndex, artifacts) && DistinctLanguages(artifacts) && a in artifacts
    requires DistinctInvariants(a.invariants)
    ensures OneRuleEach(RulesFor(e, a.language.id, runtimeId, alias))
  {
    hide Resolved, Bans, RulesFor, IndexHolds;
    var rules := RulesFor(e, a.language.id, runtimeId, alias);
    forall x, y | x in rules && y in rules && x.invariantId == y.invariantId ensures x == y {
      RulesForAre(e, artifacts, a, runtimeId, alias, x);
      RulesForAre(e, artifacts, a, runtimeId, alias, y);
    }
  }

  lemma {:induction false} ViolationsAreScanned(e: Engine, artifacts: seq<Artifact>, a: Artifact, runtimeId: string,
      dependencies: seq<Dependency>)
    requires IndexHolds(e.policyIndex, artifacts) && DistinctLanguages(artifacts) && a in artifacts
    requires DistinctInvariants(a.invariants) && NoGenericRuntime(a)
    ensures multiset(RaisedAll(e, a.language.id, runtimeId, dependencies))
            == multiset(ScanAll(a, runtimeId, dependencies))
    decreases |dependencies|
  {
    hide RulesFor, Scan, Unseen, IndexHolds, Map, Normalize;
    if dependencies != [] {
      var last := dependencies[|dependencies| - 1].package;
      ViolationsAreScanned(e, artifacts, a, runtimeId, dependencies[..|dependencies| - 1]);
      RulesAreScanned(e, artifacts, a, runtimeId, Normalize(last));
      MapPermutes(Unseen(RulesFor(e, a.language.id, runtimeId, Normalize(last)), {}),
          Scan(a, a.invariants, runtimeId, Normalize(last)), Raise(last));
    }
  }

  lemma FieldsTotal(a: Violation, b: Violation)
    ensures FieldsLe(a, b) || FieldsLe(b, a)
    ensures FieldsLe(a, b) && FieldsLe(b, a) ==> a == b
  {
    StrLeTotal(a.package, b.package);
    StrLeTotal(a.severity, b.severity);
    StrLeTotal(a.approvedReplacement, b.approvedReplacement);
    StrLeTotal(a.reason, b.reason);
    if FieldsLe(a, b) && FieldsLe(b, a) {
      if a.package != b.package { StrLeAntisymmetric(a.package, b.package); }
      else if a.severity != b.severity { StrLeAntisymmetric(a.severity, b.severity); }
      else if a.approvedReplacement != b.approvedReplacement {
        StrLeAntisymmetric(a.approvedReplacement, b.approvedReplacement);
      }
      else { StrLeAntisymmetric(a.reason, b.reason); }
    }
  }

  lemma TransitiveField(x: string, y: string, z: string)
    requires StrLe(x, y) && StrLe(y, z)
    ensures StrLe(x, z) && (x == z ==> x == y)
  {
  }

  lemma FieldsTransitive(a: Violation, b: Violation, c: Violation)
    requires FieldsLe(a, b) && FieldsLe(b, c)
    ensures FieldsLe(a, c)
  {
    hide StrLe;
    if a.package != b.package && b.package != c.package {
      TransitiveField(a.package, b.package, c.package);
    } else if a.package == b.package && b.package == c.package {
      if a.severity != b.severity && b.severity != c.severity {
        TransitiveField(a.severity, b.severity, c.severity);
      } else if a.severity == b.severity && b.severity == c.severity {
        if a.approvedReplacement != b.approvedReplacement && b.approvedReplacement != c.approvedReplacement {
          TransitiveField(a.approvedReplacement, b.approvedReplacement, c.approvedReplacement);
        } else if a.approvedReplacement == b.approvedReplacement && b.approvedReplacement == c.approvedReplacement {
          TransitiveField(a.reason, b.reason, c.reason);
        }
      }
    }
  }

  /** The sort key covers every field, so it orders violations totally. */
  lemma FieldsOrderIsTotal()
    ensures TotalOrder(ByFields())
  {
    hide FieldsLe;
    forall a: Violation, b: Violation ensures ByFields()(a, b) || ByFields()(b, a) { FieldsTotal(a, b); }
    forall a: Violation, b: Violation, c: Violation | ByFields()(a, b) && ByFields()(b, c) ensures ByFields()(a, c) {
      FieldsTransitive(a, b, c);
    }
    forall a: Violation, b: Violation | ByFields()(a, b) && ByFields()(b, a) ensures a == b { FieldsTotal(a, b); }
  }

  // ----- main results -----

  /** Of two runtimes with one id, none belongs to another language. */
  ghost predicate OneOwner(artifacts: seq<Artifact>) {
    forall a, b, r, s | a in artifacts && b in artifacts && r in a.runtimes && s in b.runtimes && r.id == s.id ::
      a.language.id == b.language.id
  }

  lemma PairFound(m: map<string, string>, pairs: set<Pair>, key: string, id: string)
    requires Represents(m, pairs)
    ensures OwnerAt(m, key) == Some(id) <==> (key, id) in pairs
    ensures OwnerAt(m, key) == None <==> forall p | p in pairs :: p.0 != key
  {
  }

  /**
   The answer to a query on an ecosystem and one of its runtimes: the violations that a plain scan of that
   language's invariants finds, each (dependency, invariant) pair once, in the order of all four fields.
   */
  lemma CheckIsTheScan(e: Engine, artifacts: seq<Artifact>, a: Artifact, runtimeId: string, ecosystem: string,
      runtime: string, dependencies: seq<Dependency>)
    requires Holds(e, artifacts) && e.languages != [] && DistinctLanguages(artifacts) && a in artifacts
    requires DistinctInvariants(a.invariants) && NoGenericRuntime(a)
    requires (Normalize(ecosystem), a.language.id) in LanguagePairs(artifacts)
    requires (Normalize(runtime), runtimeId) in RuntimePairs(artifacts)
    requires LastOwner(artifacts, runtimeId) == Some(a.language.id)
    requires forall d | d in dependencies :: ValidDependency(d)
    ensures var r := Check(e, ecosystem, runtime, dependencies);
            && r.Ok? && SortedBy(r.value, ByFields())
            && multiset(r.value) == multiset(ScanAll(a, runtimeId, dependencies))
  {
    hide Normalize, Sort, IndexHolds, RaisedAll, ScanAll, Represents, LanguagePairs, RuntimePairs, LastOwner, ByFields,
         TotalOrder;
    PairFound(e.languageByAlias, LanguagePairs(artifacts), Normalize(ecosystem), a.language.id);
    PairFound(e.runtimeByAlias, RuntimePairs(artifacts), Normalize(runtime), runtimeId);
    ViolationsAreScanned(e, artifacts, a, runtimeId, dependencies);
    FieldsOrderIsTotal();
    TotalOrderIsPreorder(ByFields());
    SortIsSorted(RaisedAll(e, a.language.id, runtimeId, dependencies), ByFields());
  }

  /** The query names an ecosystem and a runtime by aliases of these ids. */
  ghost predicate Names(artifacts: seq<Artifact>, ecosystem: string, runtime: string, id: string, rid: string) {
    (Normalize(ecosystem), id) in LanguagePairs(artifacts) && (Normalize(runtime), rid) in RuntimePairs(artifacts)
  }

  predicate AllValid(dependencies: seq<Dependency>) {
    forall d | d in dependencies :: ValidDependency(d)
  }

  lemma NamesFound(e: Engine, artifacts: seq<Artifact>, ecosystem: string, runtime: string)
    requires Holds(e, artifacts)
    ensures EcosystemId(e, ecosystem).None? <==> forall p | p in LanguagePairs(artifacts) :: p.0 != Normalize(ecosystem)
    ensures RuntimeId(e, runtime).None? <==> forall p | p in RuntimePairs(artifacts) :: p.0 != Normalize(runtime)
    ensures forall id, rid :: Names(artifacts, ecosystem, runtime, id, rid) <==>
              EcosystemId(e, ecosystem) == Some(id) && RuntimeId(e, runtime) == Some(rid)
  {
    hide Normalize, IndexHolds, Represents, LanguagePairs, RuntimePairs, LastOwner;
    forall id, rid
      ensures Names(artifacts, ecosystem, runtime, id, rid) <==>
                EcosystemId(e, ecosystem) == Some(id) && RuntimeId(e, runtime) == Some(rid)
    {
      PairFound(e.languageByAlias, LanguagePairs(artifacts), Normalize(ecosystem), id);
      PairFound(e.runtimeByAlias, RuntimePairs(artifacts), Normalize(runtime), rid);
    }
    PairFound(e.languageByAlias, LanguagePairs(artifacts), Normalize(ecosystem), "");
    PairFound(e.runtimeByAlias, RuntimePairs(artifacts), Normalize(runtime), "");
  }

  // ----- what a violation says -----

  /** The package that an id stands for: of several with this id, the last. */
  ghost predicate StandsFor(packages: seq<Package>, id: string, p: Package) {
    exists i | 0 <= i < |packages| ::
      packages[i] == p && p.id == id && forall j | i < j < |packages| :: packages[j].id != id
  }

  /** A name, up to case and surrounding white space, is a package's id, slug, name or namespaced name. */
  predicate Answers(p: Package, name: string) {
    || Lower(Trim(name)) == Lower(Trim(p.id)) || Lower(Trim(name)) == Lower(Trim(p.slug))
    || Lower(Trim(name)) == Lower(Trim(p.purl.name))
    || (p.purl.namespace.Some? && Lower(Trim(name)) == Lower(Trim(p.purl.namespace.value + "/" + p.purl.name)))
  }

  /** The advice of an invariant: its own example unless that is blank, else the approved package by name. */
  predicate Advises(inv: Invariant, approved: Package, text: string) {
    if inv.replacementExample.Some? && Trim(inv.replacementExample.value) != ""
    then text == inv.replacementExample.value
    else if approved.purl.namespace.Some? then text == approved.purl.namespace.value + "/" + approved.purl.name
    else text == approved.purl.name
  }

  /** This violation is what an invariant of the language says of a dependency on this runtime. */
  ghost predicate Violates(a: Artifact, runtimeId: string, d: Dependency, inv: Invariant, v: Violation) {
    && (inv.runtimeId == None || inv.runtimeId == Some(runtimeId) || inv.runtimeId == Some("*"))
    && (exists banned :: StandsFor(a.packages, inv.bannedPackageId, banned) && Answers(banned, d.package))
    && (exists approved ::
          StandsFor(a.packages, inv.approvedPackageId, approved) && Advises(inv, approved, v.approvedReplacement))
    && v.package == d.package && v.severity == inv.severity && v.reason == inv.reason
  }

  lemma {:induction false} FindStandsFor(packages: seq<Package>, id: string, p: Package)
    ensures FindPackage(packages, id) == Some(p) <==> StandsFor(packages, id, p)
  {
    if packages != [] {
      var n := |packages| - 1;
      var front := packages[..n];
      FindStandsFor(front, id, p);
      if packages[n].id == id {
        if StandsFor(packages, id, p) {
          var i :| 0 <= i < |packages| && packages[i] == p && p.id == id
                   && forall j | i < j < |packages| :: packages[j].id != id;
          assert i == n;
        }
        if packages[n] == p { assert packages[n] == p && p.id == id; }
      } else {
        if StandsFor(front, id, p) {
          var i :| 0 <= i < |front| && front[i] == p && p.id == id && forall j | i < j < |front| :: front[j].id != id;
          assert packages[i] == p;
          forall j | i < j < |packages| ensures packages[j].id != id { if j < n { assert packages[j] == front[j]; } }
        }
        if StandsFor(packages, id, p) {
          var i :| 0 <= i < |packages| && packages[i] == p && p.id == id
                   && forall j | i < j < |packages| :: packages[j].id != id;
          assert front[i] == p;
          forall j | i < j < |front| ensures front[j].id != id { assert packages[j] == front[j]; }
        }
      }
    }
  }

  lemma AliasesAnswer(p: Package, name: string)
    ensures (exists s | s in Aliases(p) :: Normalize(s) == Normalize(name)) <==> Answers(p, name)
  {
    hide Lower, Trim;
    AliasesAre(p);
  }

  lemma AliasesAre(p: Package)
    ensures p.id in Aliases(p) && p.slug in Aliases(p) && p.purl.name in Aliases(p)
    ensures p.purl.namespace.Some? ==> p.purl.namespace.value + "/" + p.purl.name in Aliases(p)
    ensures forall s | s in Aliases(p) ::
              || s == p.id || s == p.slug || s == p.purl.name
              || (p.purl.namespace.Some? && s == p.purl.namespace.value + "/" + p.purl.name)
  {
    var all := Aliases(p);
    assert all[0] == p.id && all[1] == p.slug && all[2] == p.purl.name;
    if p.purl.namespace.Some? { assert all[3] == p.purl.namespace.value + "/" + p.purl.name; }
  }

  lemma BansAnswers(a: Artifact, inv: Invariant, name: string)
    ensures Bans(a, inv, Normalize(name)) <==>
              exists banned :: StandsFor(a.packages, inv.bannedPackageId, banned) && Answers(banned, name)
  {
    hide StandsFor, Answers, Aliases, Normalize;
    forall p ensures FindPackage(a.packages, inv.bannedPackageId) == Some(p) <==>
                     StandsFor(a.packages, inv.bannedPackageId, p)
    {
      FindStandsFor(a.packages, inv.bannedPackageId, p);
    }
    var found := FindPackage(a.packages, inv.bannedPackageId);
    if found.Some? { AliasesAnswer(found.value, name); }
  }

  /** What a rule's violation says, read off the registry. */
  lemma RuleSays(a: Artifact, runtimeId: string, d: Dependency, inv: Invariant, v: Violation)
    ensures Violates(a, runtimeId, d, inv, v) <==>
              && Resolved(a, inv) && Bans(a, inv, Normalize(d.package))
              && (RuntimeKey(inv) == runtimeId || RuntimeKey(inv) == GENERIC_RUNTIME)
              && v == Raise(d.package)(RuleOf(a, inv))
  {
    hide StandsFor, Answers, Normalize;
    BansAnswers(a, inv, d.package);
    forall p ensures FindPackage(a.packages, inv.approvedPackageId) == Some(p) <==>
                     StandsFor(a.packages, inv.approvedPackageId, p)
    {
      FindStandsFor(a.packages, inv.approvedPackageId, p);
    }
    AdviceIs(inv);
  }

  lemma AdviceIs(inv: Invariant)
    ensures forall approved, text :: Advises(inv, approved, text) <==> text == Replacement(inv, approved)
  {
    hide Trim;
  }

  lemma RaisedSay(e: Engine, artifacts: seq<Artifact>, a: Artifact, runtimeId: string, d: Dependency, v: Violation)
    requires IndexHolds(e.policyIndex, artifacts) && DistinctLanguages(artifacts) && a in artifacts
    requires DistinctInvariants(a.invariants)
    ensures v in Raised(e, a.language.id, runtimeId, d.package) <==>
              exists inv | inv in a.invariants :: Violates(a, runtimeId, d, inv, v)
  {
    hide Violates, IndexHolds, RulesFor, Unseen, Normalize, Bans, Resolved;
    var rules := RulesFor(e, a.language.id, runtimeId, Normalize(d.package));
    RulesForAreOneEach(e, artifacts, a, runtimeId, Normalize(d.package));
    UnseenIsTheSet(rules, {});
    forall rule ensures rule in rules <==>
              exists inv | inv in a.invariants ::
                && Resolved(a, inv) && rule == RuleOf(a, inv)
                && (RuntimeKey(inv) == runtimeId || RuntimeKey(inv) == GENERIC_RUNTIME)
                && Bans(a, inv, Normalize(d.package))
    {
      RulesForAre(e, artifacts, a, runtimeId, Normalize(d.package), rule);
    }
    forall inv ensures Violates(a, runtimeId, d, inv, v) <==>
              && Resolved(a, inv) && Bans(a, inv, Normalize(d.package))
              && (RuntimeKey(inv) == runtimeId || RuntimeKey(inv) == GENERIC_RUNTIME)
              && v == Raise(d.package)(RuleOf(a, inv))
    {
      RuleSays(a, runtimeId, d, inv, v);
    }
    var unseen := Unseen(rules, {});
    var raised := Map(unseen, Raise(d.package));
    if v in raised {
      var i :| 0 <= i < |raised| && raised[i] == v;
      assert unseen[i] in unseen && v == Raise(d.package)(unseen[i]);
    }
    if inv :| inv in a.invariants && Violates(a, runtimeId, d, inv, v) {
      var rule := RuleOf(a, inv);
      assert rule in unseen;
      var i :| 0 <= i < |unseen| && unseen[i] == rule;
      assert raised[i] == v;
    }
  }

  lemma {:induction false} RaisedAllSay(e: Engine, artifacts: seq<Artifact>, a: Artifact, runtimeId: string,
      dependencies: seq<Dependency>, v: Violation)
    requires IndexHolds(e.policyIndex, artifacts) && DistinctLanguages(artifacts) && a in artifacts
    requires DistinctInvariants(a.invariants)
    ensures v in RaisedAll(e, a.language.id, runtimeId, dependencies) <==>
              exists d, inv | d in dependencies && inv in a.invariants :: Violates(a, runtimeId, d, inv, v)
    decreases |dependencies|
  {
    hide Violates, IndexHolds, Raised, DistinctLanguages, DistinctInvariants;
    if dependencies != [] {
      var n := |dependencies| - 1;
      RaisedAllSay(e, artifacts, a, runtimeId, dependencies[..n], v);
      RaisedSay(e, artifacts, a, runtimeId, dependencies[n], v);
      assert dependencies == dependencies[..n] + [dependencies[n]];
    }
  }

  /**
   What the answer to a query says: a violation for each dependency that an invariant of the language, bound to no
   other runtime, bans by any of its names; with the dependency as it was written, the invariant's own severity and
   reason, and its advice.
   */
  lemma ViolationsSay(e: Engine, artifacts: seq<Artifact>, a: Artifact, runtimeId: string, ecosystem: string,
      runtime: string, dependencies: seq<Dependency>, v: Violation)
    requires Holds(e, artifacts) && e.languages != [] && DistinctLanguages(artifacts) && a in artifacts
    requires DistinctInvariants(a.invariants) && Names(artifacts, ecosystem, runtime, a.language.id, runtimeId)
    requires Check(e, ecosystem, runtime, dependencies).Ok?
    ensures v in Check(e, ecosystem, runtime, dependencies).value <==>
              exists d, inv | d in dependencies && inv in a.invariants :: Violates(a, runtimeId, d, inv, v)
  {
    hide Violates, Sort, IndexHolds, RaisedAll, Represents, LanguagePairs, RuntimePairs, LastOwner, DistinctLanguages,
         DistinctInvariants, ByFields;
    NamesFound(e, artifacts, ecosystem, runtime);
    RaisedAllSay(e, artifacts, a, runtimeId, dependencies, v);
    var raised := RaisedAll(e, a.language.id, runtimeId, dependencies);
    SameElements(Sort(raised, ByFields()), raised, v);
  }

  /** When a query is answered, and when it is refused with which error. */
  lemma CheckRefuses(e: Engine, artifacts: seq<Artifact>, ecosystem: string, runtime: string,
      dependencies: seq<Dependency>)
    requires Holds(e, artifacts) && e.languages != []
    ensures var r := Check(e, ecosystem, runtime, dependencies);
            var unknownEcosystem := forall p | p in LanguagePairs(artifacts) :: p.0 != Normalize(ecosystem);
            var unknownRuntime := forall p | p in RuntimePairs(artifacts) :: p.0 != Normalize(runtime);
            var owned := exists id, rid ::
                Names(artifacts, ecosystem, runtime, id, rid) && LastOwner(artifacts, rid) == Some(id);
            && (r == Err(UnknownEcosystem) <==> unknownEcosystem)
            && (r == Err(UnknownRuntime) <==> !unknownEcosystem && unknownRuntime)
            && (r == Err(RuntimeMismatch) <==>
                  exists id, rid :: Names(artifacts, ecosystem, runtime, id, rid)
                      && LastOwner(artifacts, rid) != Some(id))
            && (r == Err(InvalidDependency) <==> owned && !AllValid(dependencies))
            && (r.Ok? <==> owned && AllValid(dependencies))
  {
    hide Normalize, Sort, IndexHolds, RaisedAll, Represents, LanguagePairs, RuntimePairs, LastOwner, Names,
         ValidDependency;
    NamesFound(e, artifacts, ecosystem, runtime);
    if EcosystemId(e, ecosystem).Some? && RuntimeId(e, runtime).Some? {
      var id, rid := EcosystemId(e, ecosystem).value, RuntimeId(e, runtime).value;
      assert Names(artifacts, ecosystem, runtime, id, rid);
      assert OwnerAt(e.runtimeToLanguage, rid) == LastOwner(artifacts, rid);
    }
  }

  /** The same artifacts, with languages, runtimes, packages and invariants in any order. */
  ghost predicate SameContents(a: Artifact, b: Artifact) {
    && a.language == b.language && multiset(a.runtimes) == multiset(b.runtimes)
    && multiset(a.packages) == multiset(b.packages) && multiset(a.invariants) == multiset(b.invariants)
  }

  ghost predicate Covered(artifacts: seq<Artifact>, others: seq<Artifact>) {
    forall a | a in artifacts :: exists b :: b in others && SameContents(a, b)
  }

  ghost predicate Rearranged(artifacts: seq<Artifact>, others: seq<Artifact>) {
    Covered(artifacts, others) && Covered(others, artifacts)
  }

  lemma Counterpart(artifacts: seq<Artifact>, others: seq<Artifact>, a: Artifact) returns (b: Artifact)
    requires Covered(artifacts, others) && a in artifacts
    ensures b in others && SameContents(a, b) && SameContents(b, a)
  {
    b :| b in others && SameContents(a, b);
  }

  predicate DistinctPackages(packages: seq<Package>) {
    forall i, j | 0 <= i < j < |packages| :: packages[i].id != packages[j].id
  }

  lemma PackageFoundAlike(packages: seq<Package>, others: seq<Package>, id: string)
    requires multiset(packages) == multiset(others) && DistinctPackages(packages)
    ensures FindPackage(packages, id) == FindPackage(others, id)
  {
    var p, q := FindPackage(packages, id), FindPackage(others, id);
    if p.Some? { SameElements(packages, others, p.value); }
    if q.Some? { SameElements(packages, others, q.value); }
    if p.Some? && q.Some? {
      var i :| 0 <= i < |packages| && packages[i] == p.value;
      var j :| 0 <= j < |packages| && packages[j] == q.value;
    }
  }

  lemma RearrangedLanguagePairs(artifacts: seq<Artifact>, others: seq<Artifact>)
    requires Covered(artifacts, others)
    ensures LanguagePairs(artifacts) <= LanguagePairs(others)
  {
  }

  lemma RearrangedRuntimePairs(artifacts: seq<Artifact>, others: seq<Artifact>)
    requires Covered(artifacts, others)
    ensures RuntimePairs(artifacts) <= RuntimePairs(others)
  {
    hide Normalize, Covered, RuntimePairsOf;
    forall p | p in RuntimePairs(artifacts) ensures p in RuntimePairs(others) {
      var a :| a in artifacts && p in RuntimePairsOf(a.runtimes);
      var b := Counterpart(artifacts, others, a);
      SameRuntimePairs(a.runtimes, b.runtimes);
    }
  }

  lemma SameRuntimePairs(runtimes: seq<Runtime>, others: seq<Runtime>)
    requires multiset(runtimes) == multiset(others)
    ensures RuntimePairsOf(runtimes) == RuntimePairsOf(others)
  {
    hide Normalize;
    forall r ensures r in runtimes <==> r in others { SameElements(runtimes, others, r); }
  }

  lemma SameMaps(m: map<string, string>, n: map<string, string>, pairs: set<Pair>)
    requires Represents(m, pairs) && Represents(n, pairs)
    ensures m == n
  {
  }

  lemma {:induction false} OwnerIsUnique(artifacts: seq<Artifact>, id: string)
    ensures match LastOwner(artifacts, id)
            case Some(language) => exists a | a in artifacts ::
              id in RuntimeIds(a.runtimes) && a.language.id == language
            case None => forall a | a in artifacts :: id !in RuntimeIds(a.runtimes)
  {
    if artifacts != [] {
      var last := artifacts[|artifacts| - 1];
      OwnerIsUnique(artifacts[..|artifacts| - 1], id);
      assert artifacts == artifacts[..|artifacts| - 1] + [last];
    }
  }

  lemma RuntimeIdFound(runtimes: seq<Runtime>, id: string)
    ensures id in RuntimeIds(runtimes) <==> exists r :: r in runtimes && r.id == id
  {
    if id in RuntimeIds(runtimes) {
      var k :| 0 <= k < |runtimes| && RuntimeIds(runtimes)[k] == id;
      assert runtimes[k] in runtimes;
    }
    if r :| r in runtimes && r.id == id {
      var k :| 0 <= k < |runtimes| && runtimes[k] == r;
      assert RuntimeIds(runtimes)[k] == id;
    }
  }

  lemma OwnersAlike(artifacts: seq<Artifact>, others: seq<Artifact>, id: string)
    requires Rearranged(artifacts, others) && OneOwner(artifacts)
    ensures LastOwner(artifacts, id) == LastOwner(others, id)
  {
    hide LastOwner, RuntimeIds, Covered;
    OwnerIsUnique(artifacts, id);
    OwnerIsUnique(others, id);
    match LastOwner(others, id) {
      case Some(language) =>
        var b :| b in others && id in RuntimeIds(b.runtimes) && b.language.id == language;
        var a := Counterpart(others, artifacts, b);
        SameRuntimeIds(a, b, id);
        var c :| c in artifacts && id in RuntimeIds(c.runtimes) && c.language.id == LastOwner(artifacts, id).value;
        RuntimeIdFound(a.runtimes, id);
        RuntimeIdFound(c.runtimes, id);
      case None =>
        forall a | a in artifacts ensures id !in RuntimeIds(a.runtimes) {
          var b := Counterpart(artifacts, others, a);
          SameRuntimeIds(a, b, id);
        }
    }
  }

  lemma SameRuntimeIds(a: Artifact, b: Artifact, id: string)
    requires SameContents(a, b)
    ensures id in RuntimeIds(a.runtimes) <==> id in RuntimeIds(b.runtimes)
  {
    RuntimeIdFound(a.runtimes, id);
    RuntimeIdFound(b.runtimes, id);
    forall r ensures r in a.runtimes <==> r in b.runtimes { SameElements(a.runtimes, b.runtimes, r); }
  }

  lemma RulesAlike(a: Artifact, b: Artifact, key: PolicyKey, rule: PolicyRule)
    requires SameContents(a, b) && DistinctPackages(a.packages)
    ensures Indexes(a, a.invariants, key, rule) <==> Indexes(b, b.invariants, key, rule)
  {
    forall inv ensures InvariantIndexes(a, inv, key, rule) <==> InvariantIndexes(b, inv, key, rule) {
      PackageFoundAlike(a.packages, b.packages, inv.bannedPackageId);
      PackageFoundAlike(a.packages, b.packages, inv.approvedPackageId);
    }
    forall inv ensures inv in a.invariants <==> inv in b.invariants { SameElements(a.invariants, b.invariants, inv); }
  }

  lemma IndexesAlike(e: Engine, f: Engine, artifacts: seq<Artifact>, others: seq<Artifact>, key: PolicyKey,
      rule: PolicyRule)
    requires IndexHolds(e.policyIndex, artifacts) && IndexHolds(f.policyIndex, others)
    requires Rearranged(artifacts, others) && forall a | a in artifacts :: DistinctPackages(a.packages)
    ensures rule in RulesAt(e.policyIndex, key) <==> rule in RulesAt(f.policyIndex, key)
  {
    hide Indexes, SameContents, RulesAt, Covered;
    if rule in RulesAt(e.policyIndex, key) {
      var a :| a in artifacts && Indexes(a, a.invariants, key, rule);
      var b := Counterpart(artifacts, others, a);
      RulesAlike(a, b, key, rule);
    }
    if rule in RulesAt(f.policyIndex, key) {
      var b :| b in others && Indexes(b, b.invariants, key, rule);
      var a := Counterpart(others, artifacts, b);
      RulesAlike(a, b, key, rule);
    }
  }

  lemma RaisedAlike(e: Engine, f: Engine, artifacts: seq<Artifact>, others: seq<Artifact>, ecosystemId: string,
      runtimeId: string, package: string)
    requires IndexHolds(e.policyIndex, artifacts) && IndexHolds(f.policyIndex, others)
    requires Rearranged(artifacts, others) && forall a | a in artifacts :: DistinctPackages(a.packages)
    requires DistinctLanguages(artifacts) && DistinctLanguages(others)
    requires forall a | a in artifacts :: DistinctInvariants(a.invariants)
    ensures multiset(Raised(e, ecosystemId, runtimeId, package)) == multiset(Raised(f, ecosystemId, runtimeId, package))
  {
    hide IndexHolds, Rearranged, Covered, DistinctLanguages, RulesAt, Unseen, Map, Normalize, Distinct, OneRuleEach;
    var alias := Normalize(package);
    var rules, found := RulesFor(e, ecosystemId, runtimeId, alias), RulesFor(f, ecosystemId, runtimeId, alias);
    forall rule ensures rule in rules <==> rule in found {
      IndexesAlike(e, f, artifacts, others, PolicyKey(ecosystemId, runtimeId, alias), rule);
      IndexesAlike(e, f, artifacts, others, PolicyKey(ecosystemId, GENERIC_RUNTIME, alias), rule);
    }
    AnyRulesAreOneEach(e, artifacts, ecosystemId, runtimeId, alias);
    SameMembersOneEach(rules, found);
    UnseenIsTheSet(rules, {});
    UnseenIsTheSet(found, {});
    DistinctSameMembers(Unseen(rules, {}), Unseen(found, {}));
    MapPermutes(Unseen(rules, {}), Unseen(found, {}), Raise(package));
  }

  lemma SameMembersOneEach(rules: seq<PolicyRule>, found: seq<PolicyRule>)
    requires OneRuleEach(rules) && forall rule :: rule in rules <==> rule in found
    ensures OneRuleEach(found)
  {
  }

  lemma AnyRulesAreOneEach(e: Engine, artifacts: seq<Artifact>, ecosystemId: string, runtimeId: string, alias: string)
    requires IndexHolds(e.policyIndex, artifacts) && DistinctLanguages(artifacts)
    requires forall a | a in artifacts :: DistinctInvariants(a.invariants)
    ensures OneRuleEach(RulesFor(e, ecosystemId, runtimeId, alias))
  {
    hide RulesAt, InvariantIndexes, DistinctInvariants;
    if a :| a in artifacts && a.language.id == ecosystemId {
      RulesForAreOneEach(e, artifacts, a, runtimeId, alias);
    } else {
      forall key: PolicyKey, rule: PolicyRule | key.ecosystemId == ecosystemId
        ensures rule !in RulesAt(e.policyIndex, key)
      {
        if rule in RulesAt(e.policyIndex, key) {
          var a :| a in artifacts && Indexes(a, a.invariants, key, rule);
          IndexesOwnLanguage(a, key, rule);
        }
      }
    }
  }

  lemma IndexesOwnLanguage(a: Artifact, key: PolicyKey, rule: PolicyRule)
    requires Indexes(a, a.invariants, key, rule)
    ensures key.ecosystemId == a.language.id
  {
  }

  lemma {:induction false} RaisedAllAlike(e: Engine, f: Engine, artifacts: seq<Artifact>, others: seq<Artifact>,
      ecosystemId: string, runtimeId: string, dependencies: seq<Dependency>)
    requires IndexHolds(e.policyIndex, artifacts) && IndexHolds(f.policyIndex, others)
    requires Rearranged(artifacts, others) && forall a | a in artifacts :: DistinctPackages(a.packages)
    requires DistinctLanguages(artifacts) && DistinctLanguages(others)
    requires forall a | a in artifacts :: DistinctInvariants(a.invariants)
    ensures multiset(RaisedAll(e, ecosystemId, runtimeId, dependencies))
            == multiset(RaisedAll(f, ecosystemId, runtimeId, dependencies))
    decreases |dependencies|
  {
    hide IndexHolds, Rearranged, Covered, DistinctLanguages, Raised;
    if dependencies != [] {
      RaisedAllAlike(e, f, artifacts, others, ecosystemId, runtimeId, dependencies[..|dependencies| - 1]);
      RaisedAlike(e, f, artifacts, others, ecosystemId, runtimeId, dependencies[|dependencies| - 1].package);
    }
  }

  /**
   Rearranging languages, runtimes, packages or invariants changes no answer, as long as no runtime id is
   shared by two languages.
   */
  lemma RearrangedRegistriesAnswerAlike(e: Engine, f: Engine, artifacts: seq<Artifact>, others: seq<Artifact>,
                                        ecosystem: string, runtime: string, dependencies: seq<Dependency>)
    requires Holds(e, artifacts) && Holds(f, others) && (e.languages == [] <==> f.languages == [])
    requires Rearranged(artifacts, others) && OneOwner(artifacts)
    requires DistinctLanguages(artifacts) && DistinctLanguages(others)
    requires forall a | a in artifacts :: DistinctPackages(a.packages) && DistinctInvariants(a.invariants)
    ensures Check(e, ecosystem, runtime, dependencies) == Check(f, ecosystem, runtime, dependencies)
  {
    hide IndexHolds, Covered, DistinctLanguages, RaisedAll, Represents, LanguagePairs, RuntimePairs, PackagePairs,
         LastOwner, Sort, TotalOrder, ByFields, Normalize, OneOwner;
    RearrangedLanguagePairs(artifacts, others);
    RearrangedLanguagePairs(others, artifacts);
    RearrangedRuntimePairs(artifacts, others);
    RearrangedRuntimePairs(others, artifacts);
    assert LanguagePairs(artifacts) == LanguagePairs(others);
    assert RuntimePairs(artifacts) == RuntimePairs(others);
    SameMaps(e.languageByAlias, f.languageByAlias, LanguagePairs(artifacts));
    SameMaps(e.runtimeByAlias, f.runtimeByAlias, RuntimePairs(artifacts));
    if EcosystemId(e, ecosystem).Some? && RuntimeId(e, runtime).Some? {
      var id, rid := EcosystemId(e, ecosystem).value, RuntimeId(e, runtime).value;
      OwnersAlike(artifacts, others, rid);
      RaisedAllAlike(e, f, artifacts, others, id, rid, dependencies);
      FieldsOrderIsTotal();
      SortOfPermutation(RaisedAll(e, id, rid, dependencies), RaisedAll(f, id, rid, dependencies), ByFields());
    }
  }

  /** What building gives, its languages sorted by id. */
  ghost predicate Built(e: Engine, artifacts: seq<Artifact>) {
    Holds(e, artifacts) && e.languages == Sort(Views(artifacts), ById())
  }

  ghost predicate AnswerAlike(e: Engine, f: Engine) {
    forall ecosystem, runtime, dependencies ::
        Check(e, ecosystem, runtime, dependencies) == Check(f, ecosystem, runtime, dependencies)
  }

  /** The same artifacts with another one last. */
  function MovedLast(artifacts: seq<Artifact>, i: nat): seq<Artifact>
    requires i < |artifacts|
  {
    artifacts[..i] + artifacts[i + 1..] + [artifacts[i]]
  }

  lemma MovedIsPermuted(artifacts: seq<Artifact>, i: nat)
    requires i < |artifacts|
    ensures multiset(MovedLast(artifacts, i)) == multiset(artifacts)
    ensures forall a :: a in MovedLast(artifacts, i) <==> a in artifacts
  {
    var others := MovedLast(artifacts, i);
    TakeOut(artifacts, i);
    forall a ensures a in others <==> a in artifacts { SameElements(others, artifacts, a); }
  }

  lemma {:induction false} OwnedIds(artifacts: seq<Artifact>, id: string)
    ensures LastOwner(artifacts, id).Some? <==> id in set a, r | a in artifacts && r in a.runtimes :: r.id
  {
    OwnerIsUnique(artifacts, id);
    hide LastOwner, RuntimeIds;
    forall a | a in artifacts ensures id in RuntimeIds(a.runtimes) <==> exists r :: r in a.runtimes && r.id == id {
      RuntimeIdFound(a.runtimes, id);
    }
  }

  /** The engine that the rearranged artifacts build: only the owners of runtimes can change. */
  lemma BuiltFromPermuted(e: Engine, artifacts: seq<Artifact>, others: seq<Artifact>) returns (f: Engine)
    requires Built(e, artifacts) && forall a :: a in others <==> a in artifacts
    ensures Built(f, others) && f.languageByAlias == e.languageByAlias && f.runtimeByAlias == e.runtimeByAlias
  {
    hide LastOwner, Sort, Views, IndexHolds, Represents, LanguagePairs, RuntimePairs, PackagePairs;
    var ids := set a, r | a in others && r in a.runtimes :: r.id;
    var owners := map id | id in ids :: match LastOwner(others, id) case Some(language) => language case None => "";
    f := e.(languages := Sort(Views(others), ById()), runtimeToLanguage := owners);
    SamePairs(artifacts, others);
    SameIndex(e.policyIndex, artifacts, others);
    forall id ensures OwnerAt(owners, id) == LastOwner(others, id) { OwnedIds(others, id); }
  }

  lemma SamePairs(artifacts: seq<Artifact>, others: seq<Artifact>)
    requires forall a :: a in others <==> a in artifacts
    ensures LanguagePairs(others) == LanguagePairs(artifacts) && RuntimePairs(others) == RuntimePairs(artifacts)
    ensures PackagePairs(others) == PackagePairs(artifacts)
  {
    hide Normalize, RuntimePairsOf, PackagePairsOf;
  }

  lemma SameIndex(index: map<PolicyKey, seq<PolicyRule>>, artifacts: seq<Artifact>, others: seq<Artifact>)
    requires IndexHolds(index, artifacts) && forall a :: a in others <==> a in artifacts
    ensures IndexHolds(index, others)
  {
    hide RulesAt, Indexes;
  }

  /**
   A runtime id that two languages declare: the one that does not own it gets it when moved last, and then its
   query on that runtime, refused before, is answered.
   */
  lemma SharedRuntimeDependsOnOrder(e: Engine, artifacts: seq<Artifact>, a: Artifact, b: Artifact, r: Runtime,
      s: Runtime)
    requires Built(e, artifacts) && a in artifacts && b in artifacts && r in a.runtimes && s in b.runtimes
    requires r.id == s.id && a.language.id != b.language.id
    ensures exists others, f :: multiset(others) == multiset(artifacts) && Built(f, others) && !AnswerAlike(e, f)
  {
    hide Built, Sort, AnswerAlike, LastOwner, MovedLast;
    var c := if LastOwner(artifacts, r.id) == Some(a.language.id) then b else a;
    var i :| 0 <= i < |artifacts| && artifacts[i] == c;
    var others := MovedLast(artifacts, i);
    MovedIsPermuted(artifacts, i);
    var f := BuiltFromPermuted(e, artifacts, others);
    RuntimeIdFound(c.runtimes, r.id);
    MovedOwns(artifacts, i, r.id);
    OwnerDecides(e, artifacts, c, r.id);
    OwnerDecides(f, others, c, r.id);
    AnswersDiffer(e, f, c.language.id, r.id);
  }

  lemma AnswersDiffer(e: Engine, f: Engine, ecosystem: string, runtime: string)
    requires Check(e, ecosystem, runtime, []) != Check(f, ecosystem, runtime, [])
    ensures !AnswerAlike(e, f)
  {
    hide Check;
  }

  lemma MovedOwns(artifacts: seq<Artifact>, i: nat, id: string)
    requires i < |artifacts| && id in RuntimeIds(artifacts[i].runtimes)
    ensures LastOwner(MovedLast(artifacts, i), id) == Some(artifacts[i].language.id)
  {
  }

  /** A language's query on a runtime it declares is answered exactly when it owns the runtime. */
  lemma OwnerDecides(e: Engine, artifacts: seq<Artifact>, c: Artifact, id: string)
    requires Built(e, artifacts) && c in artifacts && id in RuntimeIds(c.runtimes)
    ensures Check(e, c.language.id, id, []) ==
              if LastOwner(artifacts, id) == Some(c.language.id) then Ok([]) else Err(RuntimeMismatch)
  {
    hide Normalize, IndexHolds, Represents, LastOwner;
    assert |e.languages| == |artifacts|;
    RuntimeIdFound(c.runtimes, id);
    var pair := (Normalize(id), id);
    assert pair in RuntimePairsOf(c.runtimes);
    PairFound(e.languageByAlias, LanguagePairs(artifacts), Normalize(c.language.id), c.language.id);
    PairFound(e.runtimeByAlias, RuntimePairs(artifacts), Normalize(id), id);
  }

  /**
   Whatever is permuted, languages, runtimes, packages or invariants, every query is answered alike: exactly when
   no runtime id belongs to two languages. Permuting the languages alone already shows it.
   */
  lemma OrderIsInvisibleExactly(e: Engine, artifacts: seq<Artifact>)
    requires Built(e, artifacts) && DistinctLanguages(artifacts)
    requires forall a | a in artifacts :: DistinctPackages(a.packages) && DistinctInvariants(a.invariants)
    ensures (forall others, f | Rearranged(artifacts, others) && DistinctLanguages(others) && Built(f, others) ::
            AnswerAlike(e, f))
              <==> OneOwner(artifacts)
    ensures (forall others, f | multiset(others) == multiset(artifacts) && Built(f, others) :: AnswerAlike(e, f))
              <==> OneOwner(artifacts)
  {
    hide Built, AnswerAlike, Rearranged, DistinctLanguages, OneOwner, DistinctPackages, DistinctInvariants;
    if OneOwner(artifacts) {
      forall others, f | Rearranged(artifacts, others) && DistinctLanguages(others) && Built(f, others)
        ensures AnswerAlike(e, f)
      {
        OwnersAnswerAlike(e, f, artifacts, others);
      }
    } else {
      TwoOwnersShow(e, artifacts);
    }
    forall others | multiset(others) == multiset(artifacts)
      ensures Rearranged(artifacts, others) && DistinctLanguages(others)
    {
      PermutedIsRearranged(artifacts, others);
    }
  }

  lemma TwoOwnersShow(e: Engine, artifacts: seq<Artifact>)
    requires Built(e, artifacts) && !OneOwner(artifacts)
    ensures exists others, f :: multiset(others) == multiset(artifacts) && Built(f, others) && !AnswerAlike(e, f)
  {
    hide Built, AnswerAlike;
    var a, b, r, s :| a in artifacts && b in artifacts && r in a.runtimes && s in b.runtimes && r.id == s.id
                      && a.language.id != b.language.id;
    SharedRuntimeDependsOnOrder(e, artifacts, a, b, r, s);
  }

  lemma PermutedIsRearranged(artifacts: seq<Artifact>, others: seq<Artifact>)
    requires multiset(others) == multiset(artifacts) && DistinctLanguages(artifacts)
    ensures Rearranged(artifacts, others) && DistinctLanguages(others)
  {
    forall a ensures a in others <==> a in artifacts { SameElements(others, artifacts, a); }
    assert forall a: Artifact :: SameContents(a, a);
  }

  lemma OwnersAnswerAlike(e: Engine, f: Engine, artifacts: seq<Artifact>, others: seq<Artifact>)
    requires Built(e, artifacts) && Built(f, others) && Rearranged(artifacts, others) && OneOwner(artifacts)
    requires DistinctLanguages(artifacts) && DistinctLanguages(others)
    requires forall a | a in artifacts :: DistinctPackages(a.packages) && DistinctInvariants(a.invariants)
    ensures AnswerAlike(e, f)
  {
    hide Holds, Check, Sort, OneOwner, DistinctLanguages, SameContents;
    assert |e.languages| == |artifacts| && |f.languages| == |others|;
    NothingToNothing(artifacts, others);
    forall ecosystem, runtime, dependencies
      ensures Check(e, ecosystem, runtime, dependencies) == Check(f, ecosystem, runtime, dependencies)
    {
      RearrangedRegistriesAnswerAlike(e, f, artifacts, others, ecosystem, runtime, dependencies);
    }
  }

  lemma NothingToNothing(artifacts: seq<Artifact>, others: seq<Artifact>)
    requires Rearranged(artifacts, others)
    ensures artifacts == [] <==> others == []
  {
    hide SameContents;
    if artifacts != [] { assert artifacts[0] in artifacts; }
    if others != [] { assert others[0] in others; }
  }

  /**
   For a runtime of another name, the index agrees with the scan on every alias exactly when no invariant
   of the language is bound to a runtime that is literally the generic key.
   */
  lemma IndexAgreesExactly(e: Engine, artifacts: seq<Artifact>, a: Artifact, runtimeId: string)
    requires IndexHolds(e.policyIndex, artifacts) && DistinctLanguages(artifacts) && a in artifacts
    requires DistinctInvariants(a.invariants) && (forall inv | inv in a.invariants :: Resolved(a, inv))
    requires runtimeId != GENERIC_RUNTIME
    ensures (forall alias, rule ::
               rule in RulesFor(e, a.language.id, runtimeId, alias) <==>
                   rule in Scan(a, a.invariants, runtimeId, alias))
              <==> NoGenericRuntime(a)
  {
    hide Resolved, Bans, RulesFor, Scan, IndexHolds, DistinctLanguages, DistinctInvariants;
    if NoGenericRuntime(a) {
      forall alias, rule
        ensures rule in RulesFor(e, a.language.id, runtimeId, alias) <==>
                rule in Scan(a, a.invariants, runtimeId, alias)
      {
        RulesForAre(e, artifacts, a, runtimeId, alias, rule);
        ScanFinds(a, a.invariants, runtimeId, alias, rule);
      }
    } else {
      var inv :| inv in a.invariants && inv.runtimeId == Some(GENERIC_RUNTIME);
      assert Resolved(a, inv);
      var alias, rule := Normalize(inv.bannedPackageId), RuleOf(a, inv);
      BansItsOwnId(a, inv);
      RulesForAre(e, artifacts, a, runtimeId, alias, rule);
      ScanFinds(a, a.invariants, runtimeId, alias, rule);
      OneInvariantOf(a, inv);
    }
  }

  lemma BansItsOwnId(a: Artifact, inv: Invariant)
    requires Resolved(a, inv)
    ensures Bans(a, inv, Normalize(inv.bannedPackageId))
  {
  }

  lemma OneInvariantOf(a: Artifact, inv: Invariant)
    requires DistinctInvariants(a.invariants) && inv in a.invariants && Resolved(a, inv)
    ensures forall other | other in a.invariants && Resolved(a, other) && RuleOf(a, other) == RuleOf(a, inv) ::
            other == inv
  {
  }

  // ----- validated registries -----

  lemma IdsInOrder(index: Index, artifacts: seq<Artifact>)
    requires Validated(index, artifacts)
    ensures forall i | 0 <= i < |artifacts| :: artifacts[i].language.id == IndexIds(index.languages)[i]
    ensures ListsExpected(IndexIds(index.languages)) && |artifacts| == |index.languages|
  {
    hide ListsExpected, ValidCatalogues, ValidTools, ValidContents;
  }

  lemma ArtifactFacts(index: Index, entry: IndexLanguage, a: Artifact)
    requires ValidArtifact(index, entry, a)
    ensures DistinctInvariants(a.invariants) && DistinctPackages(a.packages)
    ensures forall inv | inv in a.invariants :: Resolved(a, inv)
  {
    hide Stable, ValidTools, ValidPackage, ValidBuilder, FindPackage, ValidCompatibility, ValidDocumentation,
         ValidChunk, ValidIdentity;
    forall i, j | 0 <= i < j < |a.invariants| ensures a.invariants[i].id != a.invariants[j].id {
      assert InvariantIds(a.invariants)[i] != InvariantIds(a.invariants)[j];
    }
    forall i, j | 0 <= i < j < |a.packages| ensures a.packages[i].id != a.packages[j].id {
      assert PackageIds(a.packages)[i] != PackageIds(a.packages)[j];
    }
    forall inv | inv in a.invariants ensures Resolved(a, inv) {
      assert ValidInvariant(a, inv);
      PackageIdFound(a.packages, inv.bannedPackageId);
      PackageIdFound(a.packages, inv.approvedPackageId);
    }
  }

  lemma PackageIdFound(packages: seq<Package>, id: string)
    requires id in PackageIds(packages)
    ensures FindPackage(packages, id).Some?
  {
  }

  /** No alias stands for two ids, of languages, of runtimes or of packages. */
  ghost predicate NoAmbiguousAlias(artifacts: seq<Artifact>) {
    Unambiguous(LanguagePairs(artifacts)) && Unambiguous(RuntimePairs(artifacts))
        && Unambiguous(PackagePairs(artifacts))
  }

  /**
   A validated registry can fail to build only on an ambiguous alias, so neither unresolved-package branch
   is ever taken; its languages are distinct, and so are each artifact's packages and invariants.
   */
  lemma ValidatedFailsOnlyOnAliases(index: Index, artifacts: seq<Artifact>)
    requires Validated(index, artifacts)
    ensures Buildable(artifacts) <==> NoAmbiguousAlias(artifacts)
    ensures DistinctLanguages(artifacts)
    ensures forall a | a in artifacts :: DistinctPackages(a.packages) && DistinctInvariants(a.invariants)
  {
    hide ValidArtifact, DistinctInvariants, DistinctPackages, Resolved, Unambiguous, LanguagePairs, RuntimePairs,
         PackagePairs, ValidIndex, EXPECTED_LANGUAGES;
    forall a | a in artifacts
      ensures DistinctInvariants(a.invariants) && DistinctPackages(a.packages)
      ensures forall inv | inv in a.invariants :: Resolved(a, inv)
    {
      var i :| 0 <= i < |artifacts| && artifacts[i] == a;
      ArtifactFacts(index, index.languages[i], a);
    }
    IdsInOrder(index, artifacts);
    forall a, b | a in artifacts && b in artifacts && a.language.id == b.language.id ensures a == b {
      var i :| 0 <= i < |artifacts| && artifacts[i] == a;
      var j :| 0 <= j < |artifacts| && artifacts[j] == b;
      assert IndexIds(index.languages)[i] == IndexIds(index.languages)[j];
    }
  }

  function ViewIds(views: seq<LanguageView>): seq<string> {
    Map(views, (v: LanguageView) => v.id)
  }

  /** The built engine lists exactly the 25 expected languages, in order of their ids. */
  lemma LanguagesAreTheExpectedOnes(index: Index, artifacts: seq<Artifact>)
    requires Validated(index, artifacts)
    ensures var ids := ViewIds(Sort(Views(artifacts), ById()));
            SortedBy(ids, ByText()) && ListsExpected(ids)
  {
    hide Sort, EXPECTED_LANGUAGES, TotalOrder, StrLe, ValidArtifact, Validated, Distinct;
    var views := Views(artifacts);
    var sorted := Sort(views, ById());
    IdsInOrder(index, artifacts);
    TextOrderIsTotal();
    ByIdIsPreorder();
    SortIsSorted(views, ById());
    var ids := ViewIds(sorted);
    forall i, j | 0 <= i < j < |ids| ensures ByText()(ids[i], ids[j]) { assert ById()(sorted[i], sorted[j]); }
    MapPermutes(views, sorted, (v: LanguageView) => v.id);
    assert ViewIds(views) == IndexIds(index.languages);
    DistinctPermutation(ViewIds(views), ids);
    forall id ensures id in ids <==> id in ViewIds(views) { SameElements(ids, ViewIds(views), id); }
  }

  /** The engine lists each language with its own names, and its runtimes and invariants in their order. */
  lemma ViewsSay(e: Engine, artifacts: seq<Artifact>, view: LanguageView)
    requires e.languages == Sort(Views(artifacts), ById())
    ensures view in e.languages <==> exists a | a in artifacts ::
              && view.id == a.language.id && view.slug == a.language.slug && view.name == a.language.name
              && |view.runtimeIds| == |a.runtimes| && |view.invariantIds| == |a.invariants|
              && (forall i | 0 <= i < |a.runtimes| :: view.runtimeIds[i] == a.runtimes[i].id)
              && (forall i | 0 <= i < |a.invariants| :: view.invariantIds[i] == a.invariants[i].id)
  {
    hide Sort;
    var views := Views(artifacts);
    SameElements(e.languages, views, view);
    forall a: Artifact ensures view == View(a) <==>
              && view.id == a.language.id && view.slug == a.language.slug && view.name == a.language.name
              && |view.runtimeIds| == |a.runtimes| && |view.invariantIds| == |a.invariants|
              && (forall i | 0 <= i < |a.runtimes| :: view.runtimeIds[i] == a.runtimes[i].id)
              && (forall i | 0 <= i < |a.invariants| :: view.invariantIds[i] == a.invariants[i].id)
    {
      ViewIs(a, view);
    }
    hide View;
    if view in views {
      var i :| 0 <= i < |views| && views[i] == view;
      assert artifacts[i] in artifacts && view == View(artifacts[i]);
    }
    if a :| a in artifacts && view == View(a) {
      var i :| 0 <= i < |artifacts| && artifacts[i] == a;
      assert views[i] == view;
    }
  }

  lemma ViewIs(a: Artifact, view: LanguageView)
    ensures view == View(a) <==>
              && view.id == a.language.id && view.slug == a.language.slug && view.name == a.language.name
              && |view.runtimeIds| == |a.runtimes| && |view.invariantIds| == |a.invariants|
              && (forall i | 0 <= i < |a.runtimes| :: view.runtimeIds[i] == a.runtimes[i].id)
              && (forall i | 0 <= i < |a.invariants| :: view.invariantIds[i] == a.invariants[i].id)
  {
  }

  lemma ByIdIsPreorder()
    ensures TotalPreorder(ById())
  {
    forall a: LanguageView, b: LanguageView ensures ById()(a, b) || ById()(b, a) { StrLeTotal(a.id, b.id); }
    forall a: LanguageView, b: LanguageView, c: LanguageView | ById()(a, b) && ById()(b, c) ensures ById()(a, c) {
      StrLeTransitive(a.id, b.id, c.id);
    }
  }

  /** The artifacts that values stand for; none when one of them does not parse. */
  function ParseAll<V>(values: seq<V>, parse: V -> Option<Artifact>): Option<seq<Artifact>> {
    if values == [] then Some([])
    else
      match (ParseAll(values[..|values| - 1], parse), parse(values[|values| - 1]))
      case (Some(artifacts), Some(a)) => Some(artifacts + [a])
      case _ => None
  }

  /**
   Loading a split registry: it succeeds exactly when index and artifacts pass their validators and no alias is
   ambiguous, and the engine then holds what they say and lists the expected languages in order.
   */
  method FromV2<V>(index: Index, values: seq<V>, parse: V -> Option<Artifact>)
      returns (r: Result<Engine, RegistryError>)
    ensures r.Ok? <==>
              && ValidIndex(index) && ParseAll(values, parse).Some?
              && ValidArtifacts(index, ParseAll(values, parse).value)
              && NoAmbiguousAlias(ParseAll(values, parse).value)
    ensures r.Ok? ==>
              && Built(r.value, ParseAll(values, parse).value)
              && SortedBy(ViewIds(r.value.languages), ByText()) && ListsExpected(ViewIds(r.value.languages))
  {
    hide ValidIndex, ValidArtifact, Holds, NoAmbiguousAlias, Sort, ListsExpected, Buildable;
    var validIndex := ValidateIndex(index);
    if validIndex.Err? { return Err(validIndex.error); }
    EachParses(values, parse);
    if |index.languages| != |values| { return Err(Invalid("language artifact count is inconsistent")); }
    var parsed := ParseAll(values, parse);
    if parsed.None? { return Err(Malformed); }
    var artifacts := parsed.value;
    var valid := ValidateArtifacts(index, artifacts);
    if valid.Err? { return Err(valid.error); }
    ValidatedFailsOnlyOnAliases(index, artifacts);
    LanguagesAreTheExpectedOnes(index, artifacts);
    r := BuildEngine(artifacts);
  }

  lemma {:induction false} EachParses<V>(values: seq<V>, parse: V -> Option<Artifact>)
    ensures ParseAll(values, parse).Some? ==> |ParseAll(values, parse).value| == |values|
  {
    if values != [] { EachParses(values[..|values| - 1], parse); }
  }

  /** Each normalized alias resolves to the one id that declared it, and to nothing else. */
  lemma AliasesResolve(e: Engine, artifacts: seq<Artifact>, value: string, id: string)
    requires Holds(e, artifacts)
    ensures EcosystemId(e, value) == Some(id) <==>
              exists a | a in artifacts ::
                  a.language.id == id && Normalize(value) in [Normalize(a.language.id), Normalize(a.language.slug)]
    ensures RuntimeId(e, value) == Some(id) <==>
              exists a, r | a in artifacts && r in a.runtimes ::
                  r.id == id && Normalize(value) in [Normalize(r.id), Normalize(r.slug)]
  {
    hide *;
    LanguageResolves(e, artifacts, value, id);
    RuntimeResolves(e, artifacts, value, id);
  }

  lemma LanguageResolves(e: Engine, artifacts: seq<Artifact>, value: string, id: string)
    requires Holds(e, artifacts)
    ensures EcosystemId(e, value) == Some(id) <==>
              exists a | a in artifacts ::
                  a.language.id == id && Normalize(value) in [Normalize(a.language.id), Normalize(a.language.slug)]
  {
    hide Normalize, IndexHolds, Represents;
    PairFound(e.languageByAlias, LanguagePairs(artifacts), Normalize(value), id);
  }

  lemma RuntimeResolves(e: Engine, artifacts: seq<Artifact>, value: string, id: string)
    requires Holds(e, artifacts)
    ensures RuntimeId(e, value) == Some(id) <==>
              exists a, r | a in artifacts && r in a.runtimes ::
                  r.id == id && Normalize(value) in [Normalize(r.id), Normalize(r.slug)]
  {
    hide Normalize, IndexHolds, Represents;
    PairFound(e.runtimeByAlias, RuntimePairs(artifacts), Normalize(value), id);
    var pair := (Normalize(value), id);
    if pair in RuntimePairs(artifacts) {
      var a :| a in artifacts && pair in RuntimePairsOf(a.runtimes);
      var r :| r in a.runtimes && r.id == id && Normalize(value) in [Normalize(r.id), Normalize(r.slug)];
    }
    if a, r :|
      && a in artifacts && r in a.runtimes && r.id == id
      && Normalize(value) in [Normalize(r.id), Normalize(r.slug)]
    {
      assert pair in RuntimePairsOf(a.runtimes);
    }
  }
}
