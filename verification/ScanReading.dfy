/** What a scan's result says of the directory tree: its files, and of each manifest what it is and how it is pinned. */
module ScanReading {
  import opened Wrappers
  import opened Sorting
  import opened Text
  import opened Splitting
  import opened Scanner

  /** From the root the names lead to a regular file, through directories with none of the four pruned names. */
  ghost predicate Reaches(n: Node, names: Path, siblings: seq<Entry>, e: Entry)
    decreases |names|
  {
    && n.Folder? && names != []
    && if |names| == 1 then siblings == n.entries && e in siblings && e.name == names[0] && e.node.File?
       else exists d | d in n.entries ::
              && d.name == names[0] && d.node.Folder?
              && d.name != "node_modules" && d.name != "target" && d.name != "vendor" && d.name != ".git"
              && Reaches(d.node, names[1..], siblings, e)
  }

  lemma {:induction false} ReachesIsLeads(n: Node, names: Path, siblings: seq<Entry>, e: Entry)
    ensures Reaches(n, names, siblings, e) <==> Leads(n, names, siblings, e) && e.node.File?
    decreases |names|
  {
    if n.Folder? && |names| > 1 {
      forall d | d in n.entries
        ensures Reaches(d.node, names[1..], siblings, e) <==> Leads(d.node, names[1..], siblings, e) && e.node.File?
      {
        ReachesIsLeads(d.node, names[1..], siblings, e);
      }
    }
  }

  /** One of the siblings is a file of this name, or a link to a file. */
  predicate FileNamed(siblings: seq<Entry>, name: string) {
    exists e | e in siblings :: e.name == name && (e.node.File? || e.node == Link(true))
  }

  /** A package manifest is of TypeScript if there is a compiler configuration, or the compiler or types are needed. */
  predicate NeedsTypeScript(siblings: seq<Entry>, names: seq<string>) {
    FileNamed(siblings, "tsconfig.json") || "typescript" in names || exists name | name in names :: "@types/" <= name
  }

  /** A manifest's kind and language, for each of the eight file names. */
  predicate Kind(siblings: seq<Entry>, e: Entry, parse: PackageParser, kind: string, language: string) {
    || (e.name == "package.json" && kind == "package-manifest" && e.node.File? && e.node.text.Some?
        && parse(e.node.text.value).Some?
        && language == if NeedsTypeScript(siblings, parse(e.node.text.value).value) then "typescript" else "javascript")
    || (e.name == "Cargo.toml" && kind == "cargo-manifest" && language == "rust")
    || (e.name == "pyproject.toml" && kind == "python-manifest" && language == "python")
    || (e.name == "go.mod" && kind == "go-manifest" && language == "go")
    || (e.name == "composer.json" && kind == "composer-manifest" && language == "php")
    || (e.name == "pnpm-workspace.yaml" && kind == "workspace-manifest" && language == "typescript")
    || (e.name == "astro.config.ts" && kind == "astro-config" && language == "typescript")
    || (e.name == "docusaurus.config.ts" && kind == "docusaurus-config" && language == "typescript")
  }

  /** A lockfile of the manifest's own package managers stands beside it. */
  predicate Pinned(siblings: seq<Entry>, name: string) {
    || (name == "package.json"
        && (FileNamed(siblings, "pnpm-lock.yaml") || FileNamed(siblings, "package-lock.json")
            || FileNamed(siblings, "yarn.lock")))
    || (name == "Cargo.toml" && FileNamed(siblings, "Cargo.lock"))
    || (name == "pyproject.toml" && (FileNamed(siblings, "poetry.lock") || FileNamed(siblings, "uv.lock")))
    || (name == "go.mod" && FileNamed(siblings, "go.sum"))
    || (name == "composer.json" && FileNamed(siblings, "composer.lock"))
  }

  predicate Describes(m: ManifestEvidence, path: string, siblings: seq<Entry>, e: Entry, parse: PackageParser) {
    && m.path == path && Kind(siblings, e, parse, m.kind, m.languageId) && m.runtimeId == "runtime-" + m.languageId
    && m.packageManagerId == (if Pinned(siblings, e.name) then Some("package-manager-" + m.languageId) else None)
    && m.lockfileId == (if Pinned(siblings, e.name) then Some("lockfile-" + m.languageId) else None)
  }

  lemma LocksAre(siblings: seq<Entry>, name: string)
    ensures Pinned(siblings, "package.json") <==> HasLockfile(siblings, "javascript")
    ensures HasLockfile(siblings, "javascript") <==> HasLockfile(siblings, "typescript")
    ensures Pinned(siblings, "Cargo.toml") <==> HasLockfile(siblings, "rust")
    ensures Pinned(siblings, "pyproject.toml") <==> HasLockfile(siblings, "python")
    ensures Pinned(siblings, "go.mod") <==> HasLockfile(siblings, "go")
    ensures Pinned(siblings, "composer.json") <==> HasLockfile(siblings, "php")
  {
    hide HasLockfile, FileNamed;
    NodeLocks(siblings);
    OtherLocks(siblings);
  }

  lemma NodeLocks(siblings: seq<Entry>)
    ensures forall language | language == "javascript" || language == "typescript" ::
              HasLockfile(siblings, language) <==>
                FileNamed(siblings, "pnpm-lock.yaml") || FileNamed(siblings, "package-lock.json")
                || FileNamed(siblings, "yarn.lock")
  {
    hide HasFile;
    SameFiles(siblings);
    var names := Lockfiles("javascript");
    assert names[0] in names && names[1] in names && names[2] in names;
  }

  lemma OtherLocks(siblings: seq<Entry>)
    ensures HasLockfile(siblings, "rust") <==> FileNamed(siblings, "Cargo.lock")
    ensures HasLockfile(siblings, "python") <==> FileNamed(siblings, "poetry.lock") || FileNamed(siblings, "uv.lock")
    ensures HasLockfile(siblings, "go") <==> FileNamed(siblings, "go.sum")
    ensures HasLockfile(siblings, "php") <==> FileNamed(siblings, "composer.lock")
  {
    hide HasFile;
    SameFiles(siblings);
    assert Lockfiles("rust")[0] in Lockfiles("rust") && Lockfiles("go")[0] in Lockfiles("go");
    assert Lockfiles("python")[0] in Lockfiles("python") && Lockfiles("python")[1] in Lockfiles("python");
    assert Lockfiles("php")[0] in Lockfiles("php");
  }

  lemma SameFiles(siblings: seq<Entry>)
    ensures forall name :: HasFile(siblings, name) <==> FileNamed(siblings, name)
  {
  }

  lemma TypesAre(siblings: seq<Entry>, names: seq<string>)
    ensures IsTypeScript(siblings, names) <==> NeedsTypeScript(siblings, names)
  {
    SameFiles(siblings);
    hide HasFile, FileNamed;
  }

  /** Kind and language that the scanner finds. */
  function Found(siblings: seq<Entry>, e: Entry, parse: PackageParser): Option<(string, string)>
    requires e.node.File?
  {
    match ManifestKind(e.name)
    case None => None
    case Some((kind, known, _)) =>
      match if kind == "package-manifest" then PackageLanguage(siblings, e.node.text, parse) else Some(known)
      case None => None
      case Some(language) => Some((kind, language))
  }

  lemma PackageKind(siblings: seq<Entry>, e: Entry, parse: PackageParser, kind: string, language: string)
    requires e.node.File? && e.name == "package.json"
    ensures Kind(siblings, e, parse, kind, language) <==> Found(siblings, e, parse) == Some((kind, language))
  {
    hide IsTypeScript, NeedsTypeScript;
    if e.node.text.Some? && parse(e.node.text.value).Some? { TypesAre(siblings, parse(e.node.text.value).value); }
  }

  lemma OtherKind(siblings: seq<Entry>, e: Entry, parse: PackageParser, kind: string, language: string)
    requires e.node.File? && e.name != "package.json"
    ensures Kind(siblings, e, parse, kind, language) <==> Found(siblings, e, parse) == Some((kind, language))
  {
    hide NeedsTypeScript, PackageLanguage;
  }

  lemma LockIs(siblings: seq<Entry>, e: Entry, parse: PackageParser, kind: string, language: string)
    requires e.node.File? && Found(siblings, e, parse) == Some((kind, language))
    ensures ManifestKind(e.name).value.2 && HasLockfile(siblings, language) <==> Pinned(siblings, e.name)
  {
    hide HasLockfile, Pinned, IsTypeScript;
    LocksAre(siblings, e.name);
    OthersAreUnpinned(siblings, e.name);
  }

  /** The evidence detected in a file is what describes it. */
  lemma DetectDescribes(m: ManifestEvidence, path: string, siblings: seq<Entry>, e: Entry, parse: PackageParser)
    requires e.node.File?
    ensures DetectManifest(siblings, e.name, e.node.text, path, parse) == Some(Some(m)) <==>
              Describes(m, path, siblings, e, parse)
  {
    hide HasLockfile, Pinned, PackageLanguage, Kind, ManifestKind;
    if e.name == "package.json" { PackageKind(siblings, e, parse, m.kind, m.languageId); }
    else { OtherKind(siblings, e, parse, m.kind, m.languageId); }
    if Found(siblings, e, parse) == Some((m.kind, m.languageId)) {
      LockIs(siblings, e, parse, m.kind, m.languageId);
    }
  }

  lemma OthersAreUnpinned(siblings: seq<Entry>, name: string)
    ensures Pinned(siblings, name) ==>
              name in ["package.json", "Cargo.toml", "pyproject.toml", "go.mod", "composer.json"]
  {
  }

  lemma ItemStands(root: Node, items: seq<Item>, item: Item, parse: PackageParser)
    requires root.Folder? && multiset(items) == Items([], root, parse)
    ensures item in items <==> exists siblings, e ::
              Reaches(root, item.path, siblings, e) && e.node.File? && item == ItemOf(item.path, siblings, e, parse)
  {
    hide Leads, Reaches, ItemsUpTo, ItemOf;
    assert item in items <==> item in multiset(items);
    if item in items {
      var names, siblings, e := ListedIsFile([], root, |root.entries|, item, parse);
      assert names == item.path;
      ReachesIsLeads(root, names, siblings, e);
      assert Reaches(root, item.path, siblings, e);
    }
    if siblings, e :|
      Reaches(root, item.path, siblings, e) && e.node.File? && item == ItemOf(item.path, siblings, e, parse)
    {
      ReachesIsLeads(root, item.path, siblings, e);
      FileIsListed([], root, item.path, siblings, e, parse);
      assert [] + item.path == item.path;
    }
  }

  lemma {:induction false} ManifestHas(items: seq<Item>, m: ManifestEvidence)
    ensures m in ManifestsOf(items) <==> exists item | item in items :: item.evidence == Some(m)
  {
    if items != [] {
      var n := |items| - 1;
      ManifestHas(items[..n], m);
      assert items == items[..n] + [items[n]];
    }
  }

  lemma FilesHave(items: seq<Item>, f: string)
    ensures f in FilesOf(items) <==> exists item | item in items :: f == PathText(item.path)
  {
    hide PathText;
    var files := FilesOf(items);
    if f in files {
      var i :| 0 <= i < |files| && files[i] == f;
      assert items[i] in items;
    }
    if item :| item in items && f == PathText(item.path) {
      var i :| 0 <= i < |items| && items[i] == item;
      assert files[i] == f;
    }
  }

  /**
   The result of a successful scan: a text is listed as a file exactly when it is the path of a regular file that is
   reached, and evidence is listed exactly when it describes one; files in byte order, evidence by its path.
   */
  lemma ScanSays(root: Node, r: ScanResult, items: seq<Item>, parse: PackageParser, f: string, m: ManifestEvidence)
    requires root.Folder? && multiset(items) == Items([], root, parse)
    requires r == ScanResult(Sort(ManifestsOf(items), ByManifestPath()), Sort(FilesOf(items), ByText()))
    ensures f in r.files <==> exists names, siblings, e ::
              Reaches(root, names, siblings, e) && names != [] && f == Join(names, "/")
    ensures m in r.manifests <==> exists names, siblings, e ::
              Reaches(root, names, siblings, e) && names != [] && Describes(m, Join(names, "/"), siblings, e, parse)
    ensures forall i, j | 0 <= i < j < |r.files| :: StrLe(r.files[i], r.files[j])
    ensures forall i, j | 0 <= i < j < |r.manifests| :: StrLe(r.manifests[i].path, r.manifests[j].path)
  {
    hide *;
    FilesSay(root, items, parse, f);
    ManifestsSay(root, items, parse, m);
    SameElements(Sort(FilesOf(items), ByText()), FilesOf(items), f);
    SameElements(Sort(ManifestsOf(items), ByManifestPath()), ManifestsOf(items), m);
    TextOrderIsTotal();
    TotalOrderIsPreorder(ByText());
    SortIsSorted(FilesOf(items), ByText());
    ByManifestPathIsPreorder();
    SortIsSorted(ManifestsOf(items), ByManifestPath());
    InOrder(r.files, r.manifests);
  }

  lemma InOrder(files: seq<string>, manifests: seq<ManifestEvidence>)
    requires SortedBy(files, ByText()) && SortedBy(manifests, ByManifestPath())
    ensures forall i, j | 0 <= i < j < |files| :: StrLe(files[i], files[j])
    ensures forall i, j | 0 <= i < j < |manifests| :: StrLe(manifests[i].path, manifests[j].path)
  {
    forall i, j | 0 <= i < j < |files| ensures StrLe(files[i], files[j]) { assert ByText()(files[i], files[j]); }
    forall i, j | 0 <= i < j < |manifests| ensures StrLe(manifests[i].path, manifests[j].path) {
      assert ByManifestPath()(manifests[i], manifests[j]);
    }
  }

  lemma PathTextIs(names: Path)
    requires names != []
    ensures PathText(names) == Join(names, "/")
  {
  }

  lemma ReachedHasName(n: Node, names: Path, siblings: seq<Entry>, e: Entry)
    requires Reaches(n, names, siblings, e)
    ensures names != []
  {
  }

  lemma FilesSay(root: Node, items: seq<Item>, parse: PackageParser, f: string)
    requires root.Folder? && multiset(items) == Items([], root, parse)
    ensures f in FilesOf(items) <==> exists names, siblings, e ::
              Reaches(root, names, siblings, e) && names != [] && f == Join(names, "/")
  {
    hide Reaches, Items, FilesOf, DetectManifest, Join, PathText;
    FilesHave(items, f);
    if f in FilesOf(items) {
      var item :| item in items && f == PathText(item.path);
      ItemStands(root, items, item, parse);
      var siblings, e :| Reaches(root, item.path, siblings, e) && e.node.File?;
      ReachedHasName(root, item.path, siblings, e);
      PathTextIs(item.path);
    }
    if names, siblings, e :| Reaches(root, names, siblings, e) && names != [] && f == Join(names, "/") {
      ReachesIsLeads(root, names, siblings, e);
      var item := ItemOf(names, siblings, e, parse);
      ItemStands(root, items, item, parse);
      PathTextIs(names);
    }
  }

  lemma EvidenceIs(path: Path, siblings: seq<Entry>, e: Entry, parse: PackageParser, m: ManifestEvidence)
    requires e.node.File?
    ensures ItemOf(path, siblings, e, parse).evidence == Some(m) <==> Describes(m, PathText(path), siblings, e, parse)
    ensures ItemOf(path, siblings, e, parse).path == path
  {
    hide DetectManifest, Describes;
    DetectDescribes(m, PathText(path), siblings, e, parse);
  }

  lemma ManifestsSay(root: Node, items: seq<Item>, parse: PackageParser, m: ManifestEvidence)
    requires root.Folder? && multiset(items) == Items([], root, parse)
    ensures m in ManifestsOf(items) <==> exists names, siblings, e ::
              Reaches(root, names, siblings, e) && names != [] && Describes(m, Join(names, "/"), siblings, e, parse)
  {
    hide Reaches, Items, ManifestsOf, ItemOf, Describes, Join, PathText;
    ManifestHas(items, m);
    if m in ManifestsOf(items) {
      var item :| item in items && item.evidence == Some(m);
      ItemStands(root, items, item, parse);
      var siblings, e :|
        Reaches(root, item.path, siblings, e) && e.node.File? && item == ItemOf(item.path, siblings, e, parse);
      ReachedHasName(root, item.path, siblings, e);
      PathTextIs(item.path);
      EvidenceIs(item.path, siblings, e, parse, m);
    }
    if names, siblings, e :|
      Reaches(root, names, siblings, e) && names != [] && Describes(m, Join(names, "/"), siblings, e, parse)
    {
      ReachesIsLeads(root, names, siblings, e);
      var item := ItemOf(names, siblings, e, parse);
      PathTextIs(names);
      EvidenceIs(names, siblings, e, parse, m);
      ItemStands(root, items, item, parse);
    }
  }
}
