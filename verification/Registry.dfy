/**
 The split registry: an index of 25 languages and one artifact for each, and the checks that both must
 pass before an engine is built from them.
 */
module Registry {
  import opened Wrappers
  import opened Sorting
  import opened Text
  import opened Splitting

  datatype Purl = Purl(kind: string, namespace: Option<string>, name: string, version: string)

  datatype Language = Language(id: string, slug: string, name: string, purl: Purl, defaultManagerId: Option<string>)
  datatype Runtime = Runtime(id: string, slug: string, name: string, purl: Purl, languageId: string, engineType: string)
  datatype PackageRegistry = PackageRegistry(id: string, slug: string, name: string, purl: Purl)
  datatype Manager = Manager(
    id: string, slug: string, name: string, purl: Purl, languageId: string, registryId: Option<string>, binary: string,
    manifestFile: string, installCommand: string, addCommand: string)
  datatype Lockfile = Lockfile(id: string, slug: string, name: string, purl: Purl, managerId: string, filename: string)
  datatype Workspace = Workspace(managerId: string, manifest: string)
  datatype Package = Package(id: string, slug: string, name: string, purl: Purl, managerId: string, categoryId: string)
  datatype Compatibility = Compatibility(packageId: string, runtimeId: string)
  datatype Builder = Builder(id: string, languageIds: seq<string>)
  datatype Invariant = Invariant(
    id: string, categoryId: string, approvedPackageId: string, bannedPackageId: string, runtimeId: Option<string>,
    severity: string, reason: string, replacementExample: Option<string>)
  datatype Documentation = Documentation(id: string, documentableId: string)
  datatype Chunk = Chunk(id: string, documentationId: string, startOffset: nat, endOffset: nat)

  datatype Artifact = Artifact(
    schemaVersion: string, revisionId: string, language: Language, runtimes: seq<Runtime>, managers: seq<Manager>,
    lockfiles: seq<Lockfile>, workspaces: seq<Workspace>, registries: seq<PackageRegistry>, categories: seq<string>,
    packages: seq<Package>, compatibilities: seq<Compatibility>, builders: seq<Builder>, invariants: seq<Invariant>,
    documentations: seq<Documentation>, chunks: seq<Chunk>)

  datatype IndexLanguage = IndexLanguage(id: string, slug: string, name: string, path: string)
  datatype Index = Index(schemaVersion: string, revisionId: string, languages: seq<IndexLanguage>,
      builders: seq<string>)

  datatype RegistryError = Invalid(reason: string) | Malformed

  const EXPECTED_LANGUAGES: seq<string> :=
    ["c", "cpp", "csharp", "dart", "elixir", "go", "haskell", "java", "javascript", "kotlin", "lua", "objective-c",
     "perl", "php", "python", "r", "ruby", "rust", "scala", "swift", "typescript", "zig", "shell", "powershell", "sql"]

  /** A hash set of the strings. */
  function Members(s: seq<string>): set<string> {
    set x | x in s
  }

  /** A hash set is as large as the list it was made from exactly when the list repeats nothing. */
  lemma {:induction false} DistinctByCount(s: seq<string>)
    ensures |Members(s)| <= |s|
    ensures |Members(s)| == |s| <==> Distinct(s)
  {
    if s != [] {
      hide Distinct;
      var rest := Members(s[1..]);
      DistinctByCount(s[1..]);
      DistinctTail(s);
      assert Members(s) == {s[0]} + rest by { assert s == [s[0]] + s[1..]; }
      assert s[0] in rest <==> s[0] in s[1..];
    }
  }

  // ----- identifiers -----

  function IndexIds(languages: seq<IndexLanguage>): seq<string> { Map(languages, (l: IndexLanguage) => l.id) }
  function RuntimeIds(rs: seq<Runtime>): seq<string> { Map(rs, (r: Runtime) => r.id) }
  function ManagerIds(ms: seq<Manager>): seq<string> { Map(ms, (m: Manager) => m.id) }
  function LockfileIds(ls: seq<Lockfile>): seq<string> { Map(ls, (l: Lockfile) => l.id) }
  function RegistryIds(rs: seq<PackageRegistry>): seq<string> { Map(rs, (r: PackageRegistry) => r.id) }
  function PackageIds(ps: seq<Package>): seq<string> { Map(ps, (p: Package) => p.id) }
  function BuilderIds(bs: seq<Builder>): seq<string> { Map(bs, (b: Builder) => b.id) }
  function InvariantIds(invs: seq<Invariant>): seq<string> { Map(invs, (inv: Invariant) => inv.id) }
  function DocumentationIds(ds: seq<Documentation>): seq<string> { Map(ds, (d: Documentation) => d.id) }
  function ChunkIds(cs: seq<Chunk>): seq<string> { Map(cs, (c: Chunk) => c.id) }

  predicate Stable(id: string, slug: string, name: string, purl: Purl) {
    !Blank(id) && !Blank(slug) && !Blank(name) && !Blank(purl.kind) && !Blank(purl.name) && !Blank(purl.version)
  }

  /** Each of the expected languages, and nothing else, once. */
  ghost predicate ListsExpected(ids: seq<string>) {
    Distinct(ids) && |ids| == 25 && forall id :: id in ids <==> id in EXPECTED_LANGUAGES
  }

  /** Identifiers of one catalogue: none blank, none twice. */
  ghost predicate NamedOnce(ids: seq<string>) {
    Distinct(ids) && forall id | id in ids :: !Blank(id)
  }

  method ValidateExpectedLanguageIds(ids: seq<string>) returns (r: Result<(), RegistryError>)
    ensures r.Ok? <==> ListsExpected(ids)
  {
    hide Distinct, EXPECTED_LANGUAGES;
    TwentyFive();
    if |ids| != |EXPECTED_LANGUAGES| {
      return Err(Invalid("registry must contain exactly 25 languages"));
    }
    var actual, expected := Members(ids), Members(EXPECTED_LANGUAGES);
    DistinctByCount(ids);
    assert forall id :: id in ids <==> id in actual;
    assert forall id :: id in EXPECTED_LANGUAGES <==> id in expected;
    if |actual| != |ids| || actual != expected {
      return Err(Invalid("registry language identities are incomplete or duplicated"));
    }
    return Ok(());
  }

  lemma TwentyFive()
    ensures |EXPECTED_LANGUAGES| == 25
  {
  }

  method ValidateIds(ids: seq<string>) returns (ok: bool)
    ensures ok <==> NamedOnce(ids)
  {
    DistinctByCount(ids);
    ok := (forall id | id in ids :: !Blank(id)) && |Members(ids)| == |ids|;
  }

  /** The seen set of `ensure_unique_ids`. */
  method EnsureUniqueIds(ids: seq<string>) returns (ok: bool)
    ensures ok <==> Distinct(ids)
  {
    var seen: set<string> := {};
    for i := 0 to |ids|
      invariant forall id :: id in seen <==> id in ids[..i]
      invariant Distinct(ids[..i])
    {
      if ids[i] in seen {
        var j :| 0 <= j < i && ids[..i][j] == ids[i];
        return false;
      }
      assert ids[..i + 1] == ids[..i] + [ids[i]];
      seen := seen + {ids[i]};
    }
    assert ids[..|ids|] == ids;
    return true;
  }

  /** A checking loop, which stops at the first element that fails. */
  method All<T>(s: seq<T>, p: T -> bool) returns (ok: bool)
    ensures ok <==> forall x | x in s :: p(x)
  {
    for i := 0 to |s|
      invariant forall x | x in s[..i] :: p(x)
    {
      if !p(s[i]) {
        assert s[i] in s;
        return false;
      }
      assert s[..i + 1] == s[..i] + [s[i]];
    }
    assert s[..|s|] == s;
    return true;
  }

  // ----- the index -----

  /** A relative path below `languages/` to a JSON file, without parent components. */
  predicate CanonicalPath(path: string) {
    "languages/" <= path && |path| >= 5 && path[|path| - 5..] == ".json" && ".." !in Split(path, '/')
  }

  predicate CompleteEntry(l: IndexLanguage) {
    !Blank(l.slug) && !Blank(l.name) && CanonicalPath(l.path)
  }

  ghost predicate ValidIndex(index: Index) {
    && index.schemaVersion == "2.0" && !Blank(index.revisionId)
    && ListsExpected(IndexIds(index.languages)) && Distinct(index.builders) && |index.builders| == 25
    && forall l | l in index.languages :: CompleteEntry(l)
  }

  method ValidateIndex(index: Index) returns (r: Result<(), RegistryError>)
    ensures r.Ok? <==> ValidIndex(index)
  {
    hide ListsExpected, Distinct, EXPECTED_LANGUAGES, IndexIds, CompleteEntry;
    TwentyFive();
    if index.schemaVersion != "2.0" || Blank(index.revisionId) {
      return Err(Invalid("registry index identity is invalid"));
    }
    var expected := ValidateExpectedLanguageIds(IndexIds(index.languages));
    if expected.Err? { return expected; }
    var unique := EnsureUniqueIds(index.builders);
    if !unique { return Err(Invalid("index builders contain duplicate identifiers")); }
    if |index.builders| != |EXPECTED_LANGUAGES| { return Err(Invalid("index must contain exactly 25 builders")); }
    var complete := All(index.languages, (l: IndexLanguage) => CompleteEntry(l));
    if !complete { return Err(Invalid("index language metadata is incomplete")); }
    return Ok(());
  }

  // ----- the artifacts -----

  predicate ValidIdentity(index: Index, entry: IndexLanguage, a: Artifact) {
    && a.schemaVersion == "2.0" && a.revisionId == index.revisionId
    && a.language.id == entry.id && a.language.slug == entry.slug && a.language.name == entry.name
  }

  ghost predicate ValidCatalogues(a: Artifact) {
    && Stable(a.language.id, a.language.slug, a.language.name, a.language.purl)
    && NamedOnce(RuntimeIds(a.runtimes)) && NamedOnce(ManagerIds(a.managers)) && NamedOnce(LockfileIds(a.lockfiles))
    && NamedOnce(RegistryIds(a.registries)) && NamedOnce(a.categories) && NamedOnce(PackageIds(a.packages))
    && NamedOnce(BuilderIds(a.builders)) && NamedOnce(InvariantIds(a.invariants))
    && NamedOnce(DocumentationIds(a.documentations)) && NamedOnce(ChunkIds(a.chunks))
  }

  predicate StableRegistry(r: PackageRegistry) {
    Stable(r.id, r.slug, r.name, r.purl)
  }

  predicate ValidRuntime(a: Artifact, r: Runtime) {
    Stable(r.id, r.slug, r.name, r.purl) && r.languageId == a.language.id && !Blank(r.engineType)
  }

  predicate ValidManager(a: Artifact, m: Manager) {
    && Stable(m.id, m.slug, m.name, m.purl) && m.languageId == a.language.id && !Blank(m.binary)
    && !Blank(m.manifestFile) && !Blank(m.installCommand) && !Blank(m.addCommand)
    && (m.registryId.Some? ==> m.registryId.value in RegistryIds(a.registries))
  }

  predicate ValidLockfile(a: Artifact, l: Lockfile) {
    Stable(l.id, l.slug, l.name, l.purl) && l.managerId in ManagerIds(a.managers) && !Blank(l.filename)
  }

  predicate ValidWorkspace(a: Artifact, w: Workspace) {
    w.managerId in ManagerIds(a.managers) && !Blank(w.manifest)
  }

  predicate ValidPackage(a: Artifact, p: Package) {
    Stable(p.id, p.slug, p.name, p.purl) && p.managerId in ManagerIds(a.managers) && p.categoryId in a.categories
  }

  predicate ValidCompatibility(a: Artifact, c: Compatibility) {
    c.packageId in PackageIds(a.packages) && c.runtimeId in RuntimeIds(a.runtimes)
  }

  predicate ValidBuilder(index: Index, a: Artifact, b: Builder) {
    b.id in index.builders && forall id | id in b.languageIds :: id == a.language.id
  }

  predicate ValidInvariant(a: Artifact, inv: Invariant) {
    && inv.categoryId in a.categories
    && inv.approvedPackageId in PackageIds(a.packages) && inv.bannedPackageId in PackageIds(a.packages)
    && (inv.runtimeId.Some? ==> inv.runtimeId.value in RuntimeIds(a.runtimes))
    && !Blank(inv.severity) && !Blank(inv.reason)
  }

  predicate ValidDocumentation(a: Artifact, d: Documentation) {
    d.documentableId == a.language.id || d.documentableId in PackageIds(a.packages)
  }

  predicate ValidChunk(a: Artifact, c: Chunk) {
    c.documentationId in DocumentationIds(a.documentations) && c.startOffset <= c.endOffset
  }

  ghost predicate ValidTools(a: Artifact) {
    && (forall r | r in a.registries :: StableRegistry(r))
    && (forall r | r in a.runtimes :: ValidRuntime(a, r))
    && (forall m | m in a.managers :: ValidManager(a, m))
    && (a.language.defaultManagerId.Some? ==> a.language.defaultManagerId.value in ManagerIds(a.managers))
    && (forall l | l in a.lockfiles :: ValidLockfile(a, l))
    && (forall w | w in a.workspaces :: ValidWorkspace(a, w))
  }

  ghost predicate ValidContents(index: Index, a: Artifact) {
    && (forall p | p in a.packages :: ValidPackage(a, p))
    && (forall c | c in a.compatibilities :: ValidCompatibility(a, c))
    && (forall b | b in a.builders :: ValidBuilder(index, a, b))
    && (forall inv | inv in a.invariants :: ValidInvariant(a, inv))
    && (forall d | d in a.documentations :: ValidDocumentation(a, d))
    && (forall c | c in a.chunks :: ValidChunk(a, c))
  }

  ghost predicate ValidArtifact(index: Index, entry: IndexLanguage, a: Artifact) {
    ValidIdentity(index, entry, a) && ValidCatalogues(a) && ValidTools(a) && ValidContents(index, a)
  }

  function UsedBuilders(artifacts: seq<Artifact>): set<string> {
    set a, b | a in artifacts && b in a.builders :: b.id
  }

  /** Every artifact fits its index entry, and together they use exactly the index's builders. */
  ghost predicate ValidArtifacts(index: Index, artifacts: seq<Artifact>) {
    && |artifacts| == |index.languages|
    && (forall i | 0 <= i < |artifacts| :: ValidArtifact(index, index.languages[i], artifacts[i]))
    && UsedBuilders(artifacts) == Members(index.builders)
  }

  /** The artifacts are checked in index order; the first failing check is reported. */
  method ValidateArtifacts(index: Index, artifacts: seq<Artifact>) returns (r: Result<(), RegistryError>)
    requires |artifacts| == |index.languages|
    ensures r.Ok? <==> ValidArtifacts(index, artifacts)
  {
    hide ValidArtifact, UsedBuilders, Members, BuilderIds;
    NoBuildersYet(artifacts);
    var builders: set<string> := {};
    for i := 0 to |artifacts|
      invariant forall j | 0 <= j < i :: ValidArtifact(index, index.languages[j], artifacts[j])
      invariant builders == UsedBuilders(artifacts[..i])
    {
      var checked := ValidateArtifact(index, index.languages[i], artifacts[i]);
      if checked.Err? {
        return checked;
      }
      builders := builders + Members(BuilderIds(artifacts[i].builders));
      UsedBuildersGrow(artifacts, i);
    }
    assert artifacts[..|artifacts|] == artifacts;
    if builders != Members(index.builders) {
      return Err(Invalid("index builders and language builders are inconsistent"));
    }
    return Ok(());
  }

  lemma NoBuildersYet(artifacts: seq<Artifact>)
    ensures UsedBuilders(artifacts[..0]) == {}
  {
  }

  lemma UsedBuildersGrow(artifacts: seq<Artifact>, i: nat)
    requires i < |artifacts|
    ensures UsedBuilders(artifacts[..i + 1])
            == UsedBuilders(artifacts[..i]) + Members(BuilderIds(artifacts[i].builders))
  {
    var ids := BuilderIds(artifacts[i].builders);
    assert artifacts[..i + 1] == artifacts[..i] + [artifacts[i]];
    forall id ensures id in Members(ids) <==> exists b :: b in artifacts[i].builders && b.id == id {
      if id in ids {
        var k :| 0 <= k < |ids| && ids[k] == id;
        assert artifacts[i].builders[k] in artifacts[i].builders;
      }
      if b :| b in artifacts[i].builders && b.id == id {
        var k :| 0 <= k < |artifacts[i].builders| && artifacts[i].builders[k] == b;
        assert ids[k] == id;
      }
    }
  }

  method ValidateArtifact(index: Index, entry: IndexLanguage, a: Artifact) returns (r: Result<(), RegistryError>)
    ensures r.Ok? <==> ValidArtifact(index, entry, a)
  {
    hide ValidIdentity, ValidCatalogues, ValidTools, ValidContents;
    if !ValidIdentity(index, entry, a) {
      return Err(Invalid("language artifact identity is inconsistent"));
    }
    var catalogues := ValidateCatalogues(a);
    if !catalogues { return Err(Invalid("catalogue contains duplicate or empty identifiers")); }
    var tools := ValidateTools(a);
    if !tools { return Err(Invalid("tool relationship is unresolved")); }
    var contents := ValidateContents(index, a);
    if !contents { return Err(Invalid("content relationship is unresolved")); }
    return Ok(());
  }

  method ValidateCatalogues(a: Artifact) returns (ok: bool)
    ensures ok <==> ValidCatalogues(a)
  {
    hide NamedOnce, Stable, RuntimeIds, ManagerIds, LockfileIds, RegistryIds, PackageIds, BuilderIds, InvariantIds,
         DocumentationIds, ChunkIds;
    if !Stable(a.language.id, a.language.slug, a.language.name, a.language.purl) { return false; }
    ok := ValidateIds(RuntimeIds(a.runtimes));
    if ok { ok := ValidateIds(ManagerIds(a.managers)); }
    if ok { ok := ValidateIds(LockfileIds(a.lockfiles)); }
    if ok { ok := ValidateIds(RegistryIds(a.registries)); }
    if ok { ok := ValidateIds(a.categories); }
    if ok { ok := ValidateIds(PackageIds(a.packages)); }
    if ok { ok := ValidateIds(BuilderIds(a.builders)); }
    if ok { ok := ValidateIds(InvariantIds(a.invariants)); }
    if ok { ok := ValidateIds(DocumentationIds(a.documentations)); }
    if ok { ok := ValidateIds(ChunkIds(a.chunks)); }
  }

  method ValidateTools(a: Artifact) returns (ok: bool)
    ensures ok <==> ValidTools(a)
  {
    hide StableRegistry, ValidRuntime, ValidManager, ValidLockfile, ValidWorkspace, ManagerIds;
    ok := All(a.registries, (r: PackageRegistry) => StableRegistry(r));
    if ok { ok := All(a.runtimes, (r: Runtime) => ValidRuntime(a, r)); }
    if ok { ok := All(a.managers, (m: Manager) => ValidManager(a, m)); }
    if ok { ok := a.language.defaultManagerId.Some? ==> a.language.defaultManagerId.value in ManagerIds(a.managers); }
    if ok { ok := All(a.lockfiles, (l: Lockfile) => ValidLockfile(a, l)); }
    if ok { ok := All(a.workspaces, (w: Workspace) => ValidWorkspace(a, w)); }
  }

  method ValidateContents(index: Index, a: Artifact) returns (ok: bool)
    ensures ok <==> ValidContents(index, a)
  {
    hide ValidPackage, ValidCompatibility, ValidBuilder, ValidInvariant, ValidDocumentation, ValidChunk;
    ok := All(a.packages, (p: Package) => ValidPackage(a, p));
    if ok { ok := All(a.compatibilities, (c: Compatibility) => ValidCompatibility(a, c)); }
    if ok { ok := All(a.builders, (b: Builder) => ValidBuilder(index, a, b)); }
    if ok { ok := All(a.invariants, (inv: Invariant) => ValidInvariant(a, inv)); }
    if ok { ok := All(a.documentations, (d: Documentation) => ValidDocumentation(a, d)); }
    if ok { ok := All(a.chunks, (c: Chunk) => ValidChunk(a, c)); }
  }

  /** An index and artifacts that pass both validators. */
  ghost predicate Validated(index: Index, artifacts: seq<Artifact>) {
    ValidIndex(index) && ValidArtifacts(index, artifacts)
  }
}
