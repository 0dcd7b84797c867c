/**
 The project scanner: a stack of directories still to read, from which every regular file outside pruned
 directories is listed and every manifest among them detected.
 */
module Scanner {
  import opened Wrappers
  import opened Sorting
  import opened Text
  import opened Splitting

  /** Names below the root, outermost first. */
  type Path = seq<string>

  datatype Entry = Entry(name: string, node: Node)

  /**
   A directory entry: a regular file and its text when it can be read as text, a directory in the order the
   system lists it, one that cannot be read, a link or other special file, or an entry whose type cannot be read.
   */
  datatype Node = File(text: Option<string>) | Folder(entries: seq<Entry>) | Sealed | Link(toFile: bool) | Broken

  const PRUNED_DIRECTORIES: seq<string> := ["node_modules", "target", "vendor", ".git"]

  predicate IsDirectory(n: Node) {
    n.Folder? || n.Sealed?
  }

  /** A directory that the scan goes into. */
  predicate Kept(e: Entry) {
    IsDirectory(e.node) && e.name !in PRUNED_DIRECTORIES
  }

  // ----- manifests -----

  datatype ManifestEvidence = ManifestEvidence(
    path: string, kind: string, languageId: string, runtimeId: string, packageManagerId: Option<string>,
    lockfileId: Option<string>)

  /** The names in the four dependency sections of a package manifest, or none when it is not JSON. */
  type PackageParser = string -> Option<seq<string>>

  /** `directory.join(name).is_file()`, which follows links. */
  predicate HasFile(siblings: seq<Entry>, name: string) {
    exists e | e in siblings :: e.name == name && (e.node.File? || e.node == Link(true))
  }

  function Lockfiles(languageId: string): seq<string> {
    match languageId
    case "javascript" => ["pnpm-lock.yaml", "package-lock.json", "yarn.lock"]
    case "typescript" => ["pnpm-lock.yaml", "package-lock.json", "yarn.lock"]
    case "rust" => ["Cargo.lock"]
    case "python" => ["poetry.lock", "uv.lock"]
    case "go" => ["go.sum"]
    case "php" => ["composer.lock"]
    case _ => []
  }

  predicate HasLockfile(siblings: seq<Entry>, languageId: string) {
    exists name | name in Lockfiles(languageId) :: HasFile(siblings, name)
  }

  predicate IsTypeScript(siblings: seq<Entry>, names: seq<string>) {
    HasFile(siblings, "tsconfig.json") || exists name | name in names :: name == "typescript" || "@types/" <= name
  }

  function PackageLanguage(siblings: seq<Entry>, text: Option<string>, parse: PackageParser): Option<string> {
    if text.None? then None
    else
      match parse(text.value)
      case None => None
      case Some(names) => Some(if IsTypeScript(siblings, names) then "typescript" else "javascript")
  }

  /** Kind, language, and whether it is a language's main manifest; none for every other file name. */
  function ManifestKind(name: string): Option<(string, string, bool)> {
    match name
    case "package.json" => Some(("package-manifest", "", true))
    case "Cargo.toml" => Some(("cargo-manifest", "rust", true))
    case "pyproject.toml" => Some(("python-manifest", "python", true))
    case "go.mod" => Some(("go-manifest", "go", true))
    case "composer.json" => Some(("composer-manifest", "php", true))
    case "pnpm-workspace.yaml" => Some(("workspace-manifest", "typescript", false))
    case "astro.config.ts" => Some(("astro-config", "typescript", false))
    case "docusaurus.config.ts" => Some(("docusaurus-config", "typescript", false))
    case _ => None
  }

  /** The evidence a file gives, if any; the outer option is none when reading it fails. */
  function DetectManifest(siblings: seq<Entry>, name: string, text: Option<string>, path: string,
      parse: PackageParser): Option<Option<ManifestEvidence>> {
    match ManifestKind(name)
    case None => Some(None)
    case Some((kind, known, primary)) =>
      match if kind == "package-manifest" then PackageLanguage(siblings, text, parse) else Some(known)
      case None => None
      case Some(languageId) =>
        var locked := primary && HasLockfile(siblings, languageId);
        Some(Some(ManifestEvidence(
          path, kind, languageId, "runtime-" + languageId,
          if locked then Some("package-manager-" + languageId) else None, if locked then Some("lockfile-" + languageId)
          else None)))
  }

  function PathText(path: Path): string {
    if path == [] then "" else Join(path, "/")
  }

  // ----- what a scan should find -----

  datatype Item = Item(path: Path, evidence: Option<ManifestEvidence>)

  function ItemOf(path: Path, siblings: seq<Entry>, e: Entry, parse: PackageParser): Item
    requires e.node.File?
  {
    Item(path, match DetectManifest(siblings, e.name, e.node.text, PathText(path), parse) case Some(found) => found
        case None => None)
  }

  /** The regular files below a directory, pruned directories aside. */
  function Items(at: Path, n: Node, parse: PackageParser): multiset<Item>
    decreases n, |if n.Folder? then n.entries else []| + 1
  {
    if n.Folder? then ItemsUpTo(at, n, |n.entries|, parse) else multiset{}
  }

  function ItemsUpTo(at: Path, n: Node, k: nat, parse: PackageParser): multiset<Item>
    requires n.Folder? && k <= |n.entries|
    decreases n, k
  {
    if k == 0 then multiset{}
    else ItemsUpTo(at, n, k - 1, parse) + EntryItems(at, n, k - 1, parse)
  }

  function EntryItems(at: Path, n: Node, i: nat, parse: PackageParser): multiset<Item>
    requires n.Folder? && i < |n.entries|
    decreases n, i
  {
    var e := n.entries[i];
    if Kept(e) then Items(at + [e.name], e.node, parse)
    else if e.node.File? then multiset{ItemOf(at + [e.name], n.entries, e, parse)}
    else multiset{}
  }

  /** The directory itself and every directory below it that has no pruned one above it. */
  function Folders(at: Path, n: Node): multiset<Path>
    decreases n, |if n.Folder? then n.entries else []| + 1
  {
    multiset{at} + if n.Folder? then FoldersUpTo(at, n, |n.entries|) else multiset{}
  }

  function FoldersUpTo(at: Path, n: Node, k: nat): multiset<Path>
    requires n.Folder? && k <= |n.entries|
    decreases n, k
  {
    if k == 0 then multiset{}
    else FoldersUpTo(at, n, k - 1) + EntryFolders(at, n, k - 1)
  }

  function EntryFolders(at: Path, n: Node, i: nat): multiset<Path>
    requires n.Folder? && i < |n.entries|
    decreases n, i
  {
    var e := n.entries[i];
    if Kept(e) then Folders(at + [e.name], e.node) else multiset{}
  }

  /** Nothing that the scan touches fails to be read. */
  ghost predicate Clean(n: Node, parse: PackageParser)
    decreases n, 1
  {
    n.Folder? && forall i | 0 <= i < |n.entries| :: EntryClean(n, i, parse)
  }

  ghost predicate EntryClean(n: Node, i: nat, parse: PackageParser)
    requires n.Folder? && i < |n.entries|
    decreases n, 0
  {
    Sound(n.entries, n.entries[i], parse) && (Kept(n.entries[i]) ==> Clean(n.entries[i].node, parse))
  }

  predicate Sound(siblings: seq<Entry>, e: Entry, parse: PackageParser) {
    !e.node.Broken? && (e.node.File? ==> DetectManifest(siblings, e.name, e.node.text, "", parse).Some?)
  }

  // ----- the scan -----

  datatype Job = Job(at: Path, node: Node)
  datatype ScanResult = ScanResult(manifests: seq<ManifestEvidence>, files: seq<string>)
  datatype ScanError = NotADirectory | Unreadable(path: string) | InvalidManifest(path: string)

  function JobItems(parse: PackageParser): Job -> multiset<Item> {
    (job: Job) => Items(job.at, job.node, parse)
  }

  function JobFolders(): Job -> multiset<Path> {
    (job: Job) => Folders(job.at, job.node)
  }

  ghost predicate AllClean(jobs: seq<Job>, parse: PackageParser) {
    forall job | job in jobs :: Clean(job.node, parse)
  }

  /** Rust's order of paths: name by name. */
  predicate PathLe(a: Path, b: Path) {
    a == [] || (b != [] && if a[0] == b[0] then PathLe(a[1..], b[1..]) else StrLe(a[0], b[0]))
  }

  function ByPath(): (Job, Job) -> bool {
    (a: Job, b: Job) => PathLe(a.at, b.at)
  }

  function ByManifestPath(): (ManifestEvidence, ManifestEvidence) -> bool {
    (a: ManifestEvidence, b: ManifestEvidence) => StrLe(a.path, b.path)
  }

  function TextOfItem(): Item -> string {
    (item: Item) => PathText(item.path)
  }

  function FilesOf(items: seq<Item>): seq<string> {
    Map(items, TextOfItem())
  }

  function ManifestsOf(items: seq<Item>): seq<ManifestEvidence> {
    if items == [] then []
    else
      ManifestsOf(items[..|items| - 1]) +
      match items[|items| - 1].evidence case Some(evidence) => [evidence] case None => []
  }

  function Reversed<T>(s: seq<T>): (r: seq<T>)
    ensures multiset(r) == multiset(s)
  {
    if s == [] then []
    else
      assert s == [s[0]] + s[1..];
      Reversed(s[1..]) + [s[0]]
  }

  lemma DetectIgnoresPath(siblings: seq<Entry>, e: Entry, path: string, parse: PackageParser)
    requires e.node.File?
    ensures DetectManifest(siblings, e.name, e.node.text, path, parse).Some? <==>
            DetectManifest(siblings, e.name, e.node.text, "", parse).Some?
  {
    hide HasLockfile, IsTypeScript;
  }

  ghost predicate CleanUpTo(n: Node, k: nat, parse: PackageParser)
    requires n.Folder? && k <= |n.entries|
  {
    forall i | 0 <= i < k :: EntryClean(n, i, parse)
  }

  /** What was read of a directory's first k entries. */
  ghost predicate ReadUpTo(job: Job, k: nat, items: seq<Item>, children: seq<Job>, parse: PackageParser)
    requires job.node.Folder? && k <= |job.node.entries|
  {
    && multiset(items) + SumOf(children, JobItems(parse)) == ItemsUpTo(job.at, job.node, k, parse)
    && SumOf(children, JobFolders()) == FoldersUpTo(job.at, job.node, k)
    && (CleanUpTo(job.node, k, parse) <==> AllClean(children, parse))
    && (forall child | child in children :: IsDirectory(child.node))
  }

  lemma OneMoreEntry(job: Job, k: nat, parse: PackageParser)
    requires job.node.Folder? && k < |job.node.entries|
    ensures ItemsUpTo(job.at, job.node, k + 1, parse)
            == ItemsUpTo(job.at, job.node, k, parse) + EntryItems(job.at, job.node, k, parse)
    ensures FoldersUpTo(job.at, job.node, k + 1) == FoldersUpTo(job.at, job.node, k) + EntryFolders(job.at, job.node, k)
    ensures CleanUpTo(job.node, k + 1, parse) <==> CleanUpTo(job.node, k, parse) && EntryClean(job.node, k, parse)
  {
    hide EntryItems, EntryFolders, EntryClean;
  }

  lemma SkipStep(job: Job, k: nat, items: seq<Item>, children: seq<Job>, parse: PackageParser)
    requires job.node.Folder? && k < |job.node.entries| && ReadUpTo(job, k, items, children, parse)
    requires var n := job.node.entries[k].node; !n.Broken? && !n.File? && !Kept(job.node.entries[k])
    ensures ReadUpTo(job, k + 1, items, children, parse)
  {
    hide Items, Folders, SumOf, JobItems, JobFolders, Clean, AllClean, ItemsUpTo, FoldersUpTo, CleanUpTo;
    OneMoreEntry(job, k, parse);
  }

  lemma FileStep(job: Job, k: nat, items: seq<Item>, children: seq<Job>, found: Option<ManifestEvidence>,
      parse: PackageParser)
    requires job.node.Folder? && k < |job.node.entries| && ReadUpTo(job, k, items, children, parse)
    requires var e := job.node.entries[k];
             e.node.File? && DetectManifest(job.node.entries, e.name, e.node.text, PathText(job.at + [e.name]), parse)
                 == Some(found)
    ensures ReadUpTo(job, k + 1, items + [Item(job.at + [job.node.entries[k].name], found)], children, parse)
  {
    hide Items, Folders, SumOf, JobItems, JobFolders, Clean, AllClean, DetectManifest, PathText, ItemsUpTo, FoldersUpTo,
         CleanUpTo;
    OneMoreEntry(job, k, parse);
    var e := job.node.entries[k];
    DetectIgnoresPath(job.node.entries, e, PathText(job.at + [e.name]), parse);
  }

  lemma ChildStep(job: Job, k: nat, items: seq<Item>, children: seq<Job>, parse: PackageParser)
    requires job.node.Folder? && k < |job.node.entries| && ReadUpTo(job, k, items, children, parse)
    requires Kept(job.node.entries[k])
    ensures var e := job.node.entries[k];
            ReadUpTo(job, k + 1, items, children + [Job(job.at + [e.name], e.node)], parse)
  {
    hide Items, Folders, SumOf, JobItems, JobFolders, Clean, AllClean, DetectManifest, ItemsUpTo, FoldersUpTo,
         CleanUpTo;
    OneMoreEntry(job, k, parse);
    var e := job.node.entries[k];
    ChildAdded(job, k, children, Job(job.at + [e.name], e.node), parse);
    assert EntryClean(job.node, k, parse) <==> Clean(e.node, parse);
  }

  lemma AllRead(job: Job, items: seq<Item>, children: seq<Job>, parse: PackageParser)
    requires job.node.Folder? && ReadUpTo(job, |job.node.entries|, items, children, parse)
    ensures multiset(items) + SumOf(children, JobItems(parse)) == Items(job.at, job.node, parse)
    ensures multiset{job.at} + SumOf(children, JobFolders()) == Folders(job.at, job.node)
    ensures Clean(job.node, parse) <==> AllClean(children, parse)
    ensures forall child | child in children :: IsDirectory(child.node)
  {
    hide SumOf, JobItems, JobFolders, AllClean;
  }

  lemma OneSpoils(n: Node, k: nat, parse: PackageParser)
    requires n.Folder? && k < |n.entries| && !Sound(n.entries, n.entries[k], parse)
    ensures !Clean(n, parse)
  {
    assert !EntryClean(n, k, parse);
  }

  /** Reads one directory: its files, and the directories to read later. */
  method ReadDirectory(job: Job, parse: PackageParser)
    returns (error: Option<ScanError>, files: seq<string>, manifests: seq<ManifestEvidence>, children: seq<Job>,
        ghost items: seq<Item>)
    requires IsDirectory(job.node)
    ensures error.Some? ==> !Clean(job.node, parse)
    ensures error.None? ==>
      && files == FilesOf(items) && manifests == ManifestsOf(items)
      && multiset(items) + SumOf(children, JobItems(parse)) == Items(job.at, job.node, parse)
      && multiset{job.at} + SumOf(children, JobFolders()) == Folders(job.at, job.node)
      && (Clean(job.node, parse) <==> AllClean(children, parse))
      && (forall child | child in children :: IsDirectory(child.node))
  {
    hide ReadUpTo, Items, Folders, SumOf, JobItems, JobFolders, Clean, AllClean, DetectManifest, PathText, FilesOf,
         ManifestsOf;
    files, manifests, children, items := [], [], [], [];
    NothingRead(job, parse);
    if job.node.Sealed? {
      return Some(Unreadable(PathText(job.at))), files, manifests, children, items;
    }
    var entries := job.node.entries;
    for i := 0 to |entries|
      invariant files == FilesOf(items) && manifests == ManifestsOf(items)
      invariant ReadUpTo(job, i, items, children, parse)
    {
      var e, path := entries[i], job.at + [entries[i].name];
      if e.node.Broken? {
        OneSpoils(job.node, i, parse);
        return Some(Unreadable(PathText(path))), files, manifests, children, items;
      }
      if IsDirectory(e.node) {
        if e.name in PRUNED_DIRECTORIES {
          SkipStep(job, i, items, children, parse);
          continue;
        }
        ChildStep(job, i, items, children, parse);
        children := children + [Job(path, e.node)];
        continue;
      }
      if !e.node.File? {
        SkipStep(job, i, items, children, parse);
        continue;
      }
      var found := DetectManifest(entries, e.name, e.node.text, PathText(path), parse);
      if found.None? {
        DetectIgnoresPath(entries, e, PathText(path), parse);
        OneSpoils(job.node, i, parse);
        return Some(InvalidManifest(PathText(path))), files, manifests, children, items;
      }
      FileStep(job, i, items, children, found.value, parse);
      ItemAdded(items, Item(path, found.value));
      items := items + [Item(path, found.value)];
      files := files + [PathText(path)];
      if found.value.Some? { manifests := manifests + [found.value.value]; }
    }
    AllRead(job, items, children, parse);
    return None, files, manifests, children, items;
  }

  lemma NothingRead(job: Job, parse: PackageParser)
    ensures FilesOf([]) == [] && ManifestsOf([]) == []
    ensures job.node.Folder? ==> ReadUpTo(job, 0, [], [], parse)
    ensures job.node.Sealed? ==> !Clean(job.node, parse)
  {
  }

  lemma ItemAdded(items: seq<Item>, item: Item)
    ensures FilesOf(items + [item]) == FilesOf(items) + [PathText(item.path)]
    ensures ManifestsOf(items + [item]) == ManifestsOf(items) + match item.evidence case Some(evidence) => [evidence]
            case None => []
  {
  }

  lemma ChildAdded(job: Job, i: nat, children: seq<Job>, child: Job, parse: PackageParser)
    requires job.node.Folder? && i < |job.node.entries|
    requires child == Job(job.at + [job.node.entries[i].name], job.node.entries[i].node) && Kept(job.node.entries[i])
    ensures SumOf(children + [child], JobItems(parse))
            == SumOf(children, JobItems(parse)) + Items(child.at, child.node, parse)
    ensures SumOf(children + [child], JobFolders()) == SumOf(children, JobFolders()) + Folders(child.at, child.node)
    ensures AllClean(children + [child], parse) <==> AllClean(children, parse) && Clean(child.node, parse)
  {
    SumAppend(children, [child], JobItems(parse));
    SumAppend(children, [child], JobFolders());
    assert SumOf([child], JobItems(parse)) == JobItems(parse)(child);
    assert SumOf([child], JobFolders()) == JobFolders()(child);
    assert child in children + [child];
  }

  /** Where the scan stands: what it listed, and what the stack still holds, make up the whole tree. */
  ghost predicate Scanned(root: Node, visited: seq<Path>, items: seq<Item>, pending: seq<Job>, parse: PackageParser) {
    && multiset(items) + SumOf(pending, JobItems(parse)) == Items([], root, parse)
    && multiset(visited) + SumOf(pending, JobFolders()) == Folders([], root)
    && (Clean(root, parse) <==> AllClean(pending, parse))
    && (forall job | job in pending :: IsDirectory(job.node))
  }

  lemma StartScan(root: Node, parse: PackageParser)
    requires IsDirectory(root)
    ensures Scanned(root, [], [], [Job([], root)], parse)
  {
    hide Items, Folders, Clean;
    var job := Job([], root);
    assert SumOf([job], JobItems(parse)) == JobItems(parse)(job);
    assert SumOf([job], JobFolders()) == JobFolders()(job);
    assert job in [job];
  }

  lemma SpoiledJob(root: Node, visited: seq<Path>, items: seq<Item>, pending: seq<Job>, job: Job, parse: PackageParser)
    requires Scanned(root, visited, items, pending, parse) && job in pending && !Clean(job.node, parse)
    ensures !Clean(root, parse)
  {
  }

  /** Taking a directory off the stack and pushing its children loses nothing and repeats nothing. */
  lemma ScanStep(root: Node, visited: seq<Path>, items: seq<Item>, below: seq<Job>, job: Job, found: seq<Item>,
      children: seq<Job>, pushed: seq<Job>, parse: PackageParser)
    requires Scanned(root, visited, items, below + [job], parse)
    requires multiset(found) + SumOf(children, JobItems(parse)) == Items(job.at, job.node, parse)
    requires multiset{job.at} + SumOf(children, JobFolders()) == Folders(job.at, job.node)
    requires (Clean(job.node, parse) <==> AllClean(children, parse)) && forall child | child in children ::
             IsDirectory(child.node)
    requires multiset(pushed) == multiset(children)
    ensures Scanned(root, visited + [job.at], items + found, below + pushed, parse)
    ensures |SumOf(below + pushed, JobFolders())| < |SumOf(below + [job], JobFolders())|
  {
    hide Items, Folders, Clean, SumOf, JobItems, JobFolders;
    SumAppend(below, [job], JobItems(parse));
    SumAppend(below, [job], JobFolders());
    SumAppend(below, pushed, JobItems(parse));
    SumAppend(below, pushed, JobFolders());
    SumPermutes(pushed, children, JobItems(parse));
    SumPermutes(pushed, children, JobFolders());
    SumOfOne(job, parse);
    forall child ensures child in pushed <==> child in children { SameElements(pushed, children, child); }
    CleanSplits(below, job, children, pushed, parse);
    assert SumOf(below + [job], JobFolders()) == SumOf(below + pushed, JobFolders()) + multiset{job.at};
  }

  lemma SumOfOne(job: Job, parse: PackageParser)
    ensures SumOf([job], JobItems(parse)) == Items(job.at, job.node, parse)
    ensures SumOf([job], JobFolders()) == Folders(job.at, job.node)
  {
  }

  lemma CleanSplits(below: seq<Job>, job: Job, children: seq<Job>, pushed: seq<Job>, parse: PackageParser)
    requires Clean(job.node, parse) <==> AllClean(children, parse)
    requires forall child :: child in pushed <==> child in children
    ensures AllClean(below + [job], parse) <==> AllClean(below + pushed, parse)
  {
  }

  /**
   The scan succeeds exactly when nothing it touches fails to be read; it then visited each directory with no
   pruned one above it once, and lists exactly their regular files and manifests.
   */
  method Scan(root: Node, parse: PackageParser)
      returns (r: Result<ScanResult, ScanError>, ghost visited: seq<Path>, ghost items: seq<Item>)
    ensures r.Ok? <==> Clean(root, parse)
    ensures r.Ok? ==>
      && multiset(visited) == Folders([], root) && multiset(items) == Items([], root, parse)
      && r.value == ScanResult(Sort(ManifestsOf(items), ByManifestPath()), Sort(FilesOf(items), ByText()))
  {
    hide Items, Folders, SumOf, JobItems, JobFolders, Clean, AllClean, Scanned, FilesOf, ManifestsOf, Sort;
    visited, items := [], [];
    if !IsDirectory(root) {
      CleanIsFolder(root, parse);
      return Err(NotADirectory), visited, items;
    }
    var files, manifests, pending := [], [], [Job([], root)];
    NothingRead(Job([], root), parse);
    StartScan(root, parse);
    while pending != []
      invariant files == FilesOf(items) && manifests == ManifestsOf(items)
      invariant Scanned(root, visited, items, pending, parse)
      decreases |SumOf(pending, JobFolders())|
    {
      var job, below := pending[|pending| - 1], pending[..|pending| - 1];
      assert pending == below + [job] && job in pending;
      PendingAreFolders(root, visited, items, pending, job, parse);
      var error, f, m, children, found := ReadDirectory(job, parse);
      if error.Some? {
        SpoiledJob(root, visited, items, pending, job, parse);
        return Err(error.value), visited, items;
      }
      var pushed := Reversed(Sort(children, ByPath()));
      ScanStep(root, visited, items, below, job, found, children, pushed, parse);
      ListsAppend(items, found);
      visited, items, files, manifests := visited + [job.at], items + found, files + f, manifests + m;
      pending := below + pushed;
    }
    ScanEnds(root, visited, items, parse);
    return Ok(ScanResult(Sort(manifests, ByManifestPath()), Sort(files, ByText()))), visited, items;
  }

  lemma CleanIsFolder(n: Node, parse: PackageParser)
    ensures Clean(n, parse) ==> n.Folder?
  {
  }

  lemma PendingAreFolders(root: Node, visited: seq<Path>, items: seq<Item>, pending: seq<Job>, job: Job,
      parse: PackageParser)
    requires Scanned(root, visited, items, pending, parse) && job in pending
    ensures IsDirectory(job.node)
  {
  }

  lemma ScanEnds(root: Node, visited: seq<Path>, items: seq<Item>, parse: PackageParser)
    requires Scanned(root, visited, items, [], parse)
    ensures Clean(root, parse) && multiset(visited) == Folders([], root) && multiset(items) == Items([], root, parse)
  {
    hide Items, Folders, Clean;
  }

  lemma {:induction false} ListsAppend(a: seq<Item>, b: seq<Item>)
    ensures FilesOf(a + b) == FilesOf(a) + FilesOf(b)
    ensures ManifestsOf(a + b) == ManifestsOf(a) + ManifestsOf(b)
    decreases |b|
  {
    if b == [] {
      assert a + b == a;
    } else {
      var front := b[..|b| - 1];
      ListsAppend(a, front);
      assert (a + b)[..|a + b| - 1] == a + front;
      assert FilesOf(a + b) == FilesOf(a) + FilesOf(b);
    }
  }

  // ----- what the listed items are -----

  /** From the directory `n`, through directories the scan goes into, `names` lead to the entry `e` among `siblings`. */
  ghost predicate Leads(n: Node, names: Path, siblings: seq<Entry>, e: Entry)
    decreases |names|
  {
    && n.Folder? && names != []
    && if |names| == 1 then siblings == n.entries && e in siblings && e.name == names[0]
       else exists d | d in n.entries :: d.name == names[0] && Kept(d) && Leads(d.node, names[1..], siblings, e)
  }

  lemma LeadsOn(n: Node, d: Entry, names: Path, siblings: seq<Entry>, e: Entry)
    requires n.Folder? && d in n.entries && Kept(d) && Leads(d.node, names, siblings, e)
    ensures Leads(n, [d.name] + names, siblings, e)
  {
  }

  /** Every listed item is a regular file that the names of its path lead to. */
  lemma {:induction false} ListedIsFile(at: Path, n: Node, k: nat, item: Item, parse: PackageParser)
    returns (names: Path, siblings: seq<Entry>, e: Entry)
    requires n.Folder? && k <= |n.entries| && item in ItemsUpTo(at, n, k, parse)
    ensures Leads(n, names, siblings, e) && e.node.File? && item.path == at + names
            && item == ItemOf(item.path, siblings, e, parse)
    ensures names != [] && exists i | 0 <= i < k :: n.entries[i].name == names[0]
    decreases n, k, 1
  {
    hide Leads, EntryItems, ItemOf;
    if item in ItemsUpTo(at, n, k - 1, parse) {
      names, siblings, e := ListedIsFile(at, n, k - 1, item, parse);
    } else {
      names, siblings, e := EntryIsFile(at, n, k - 1, item, parse);
    }
  }

  lemma {:induction false} EntryIsFile(at: Path, n: Node, i: nat, item: Item, parse: PackageParser)
    returns (names: Path, siblings: seq<Entry>, e: Entry)
    requires n.Folder? && i < |n.entries| && item in EntryItems(at, n, i, parse)
    ensures Leads(n, names, siblings, e) && e.node.File? && item.path == at + names
            && item == ItemOf(item.path, siblings, e, parse)
    ensures names != [] && n.entries[i].name == names[0]
    decreases n, i, 0
  {
    hide Leads, ItemsUpTo, DetectManifest, PathText;
    var d := n.entries[i];
    if Kept(d) {
      var rest;
      rest, siblings, e := ListedIsFile(at + [d.name], d.node, |d.node.entries|, item, parse);
      names := [d.name] + rest;
      LeadsOn(n, d, rest, siblings, e);
      assert at + names == at + [d.name] + rest;
    } else {
      names, siblings, e := [d.name], n.entries, d;
      LeadsHere(n, d);
    }
  }

  lemma LeadsHere(n: Node, e: Entry)
    requires n.Folder? && e in n.entries
    ensures Leads(n, [e.name], n.entries, e)
  {
  }

  lemma {:induction false} ItemsGrow(at: Path, n: Node, i: nat, k: nat, item: Item, parse: PackageParser)
    requires n.Folder? && i < k <= |n.entries| && item in EntryItems(at, n, i, parse)
    ensures item in ItemsUpTo(at, n, k, parse)
    decreases k
  {
    hide EntryItems;
    if i < k - 1 { ItemsGrow(at, n, i, k - 1, item, parse); }
  }

  /** Every regular file that names lead to is listed. */
  lemma {:induction false} FileIsListed(at: Path, n: Node, names: Path, siblings: seq<Entry>, e: Entry,
      parse: PackageParser)
    requires Leads(n, names, siblings, e) && e.node.File?
    ensures ItemOf(at + names, siblings, e, parse) in Items(at, n, parse)
    decreases |names|
  {
    hide ItemOf, ItemsUpTo;
    if |names| == 1 {
      var i :| 0 <= i < |n.entries| && n.entries[i] == e;
      assert names == [e.name];
      ItemsGrow(at, n, i, |n.entries|, ItemOf(at + names, siblings, e, parse), parse);
    } else {
      var d :| d in n.entries && d.name == names[0] && Kept(d) && Leads(d.node, names[1..], siblings, e);
      var i :| 0 <= i < |n.entries| && n.entries[i] == d;
      FileIsListed(at + [d.name], d.node, names[1..], siblings, e, parse);
      assert at + [d.name] + names[1..] == at + names;
      ItemsGrow(at, n, i, |n.entries|, ItemOf(at + names, siblings, e, parse), parse);
    }
  }

  lemma {:induction false} VisitedIsFolder(at: Path, n: Node, k: nat, path: Path)
      returns (names: Path, siblings: seq<Entry>, e: Entry)
    requires n.Folder? && k <= |n.entries| && path in FoldersUpTo(at, n, k)
    ensures Leads(n, names, siblings, e) && Kept(e) && path == at + names
    ensures names != [] && exists i | 0 <= i < k :: n.entries[i].name == names[0]
    decreases n, k, 1
  {
    hide Leads, EntryFolders, Kept;
    if path in FoldersUpTo(at, n, k - 1) {
      names, siblings, e := VisitedIsFolder(at, n, k - 1, path);
    } else {
      names, siblings, e := EntryIsFolder(at, n, k - 1, path);
    }
  }

  lemma {:induction false} EntryIsFolder(at: Path, n: Node, i: nat, path: Path)
      returns (names: Path, siblings: seq<Entry>, e: Entry)
    requires n.Folder? && i < |n.entries| && path in EntryFolders(at, n, i)
    ensures Leads(n, names, siblings, e) && Kept(e) && path == at + names
    ensures names != [] && n.entries[i].name == names[0]
    decreases n, i, 0
  {
    hide Leads, FoldersUpTo, Kept;
    var d := n.entries[i];
    if path == at + [d.name] {
      names, siblings, e := [d.name], n.entries, d;
      LeadsHere(n, d);
    } else {
      var rest;
      rest, siblings, e := VisitedIsFolder(at + [d.name], d.node, |d.node.entries|, path);
      names := [d.name] + rest;
      LeadsOn(n, d, rest, siblings, e);
      assert at + names == at + [d.name] + rest;
    }
  }

  lemma {:induction false} FoldersGrow(at: Path, n: Node, i: nat, k: nat, path: Path)
    requires n.Folder? && i < k <= |n.entries| && path in EntryFolders(at, n, i)
    ensures path in FoldersUpTo(at, n, k)
    decreases k
  {
    hide EntryFolders;
    if i < k - 1 { FoldersGrow(at, n, i, k - 1, path); }
  }

  lemma {:induction false} FolderIsVisited(at: Path, n: Node, names: Path, siblings: seq<Entry>, e: Entry)
    requires Leads(n, names, siblings, e) && Kept(e)
    ensures at + names in Folders(at, n)
    decreases |names|
  {
    hide FoldersUpTo;
    if |names| == 1 {
      var i :| 0 <= i < |n.entries| && n.entries[i] == e;
      assert names == [e.name];
      FoldersGrow(at, n, i, |n.entries|, at + names);
    } else {
      var d :| d in n.entries && d.name == names[0] && Kept(d) && Leads(d.node, names[1..], siblings, e);
      var i :| 0 <= i < |n.entries| && n.entries[i] == d;
      FolderIsVisited(at + [d.name], d.node, names[1..], siblings, e);
      assert at + [d.name] + names[1..] == at + names;
      FoldersGrow(at, n, i, |n.entries|, at + names);
    }
  }

  // ----- once each -----

  /** What a file system keeps: a directory has each name once, and names are not empty and hold no '/'. */
  ghost predicate WellFormed(n: Node) {
    n.Folder? ==>
      && (forall i, j | 0 <= i < j < |n.entries| :: n.entries[i].name != n.entries[j].name)
      && forall i | 0 <= i < |n.entries| ::
         n.entries[i].name != "" && '/' !in n.entries[i].name && WellFormed(n.entries[i].node)
  }

  lemma SameName(n: Node, d: Entry, e: Entry)
    requires n.Folder? && WellFormed(n) && d in n.entries && e in n.entries && d.name == e.name
    ensures d == e && WellFormed(d.node) && d.name != "" && '/' !in d.name
  {
  }

  /** Names lead to one entry. */
  lemma {:induction false} LeadsOnce(n: Node, names: Path, s1: seq<Entry>, e1: Entry, s2: seq<Entry>, e2: Entry)
    requires WellFormed(n) && Leads(n, names, s1, e1) && Leads(n, names, s2, e2)
    ensures s1 == s2 && e1 == e2
    decreases |names|
  {
    hide WellFormed;
    if |names| == 1 {
      SameName(n, e1, e2);
    } else {
      var d1 :| d1 in n.entries && d1.name == names[0] && Kept(d1) && Leads(d1.node, names[1..], s1, e1);
      var d2 :| d2 in n.entries && d2.name == names[0] && Kept(d2) && Leads(d2.node, names[1..], s2, e2);
      SameName(n, d1, d2);
      LeadsOnce(d1.node, names[1..], s1, e1, s2, e2);
    }
  }

  lemma EarlierName(n: Node, k: nat, name: string)
    requires n.Folder? && WellFormed(n) && k < |n.entries| && exists i | 0 <= i < k :: n.entries[i].name == name
    ensures n.entries[k].name != name
  {
  }

  lemma {:induction false} ItemOnce(at: Path, n: Node, k: nat, item: Item, parse: PackageParser)
    requires n.Folder? && WellFormed(n) && k <= |n.entries|
    ensures ItemsUpTo(at, n, k, parse)[item] <= 1
    decreases n, k
  {
    hide Leads, EntryItems, WellFormed, ItemOf;
    if k > 0 {
      ItemOnce(at, n, k - 1, item, parse);
      EntryItemOnce(at, n, k - 1, item, parse);
      if item in ItemsUpTo(at, n, k - 1, parse) && item in EntryItems(at, n, k - 1, parse) {
        var names, _, _ := ListedIsFile(at, n, k - 1, item, parse);
        var others, _, _ := EntryIsFile(at, n, k - 1, item, parse);
        EarlierName(n, k - 1, names[0]);
        SameFirst(at, names, others);
      }
    }
  }

  lemma {:induction false} EntryItemOnce(at: Path, n: Node, i: nat, item: Item, parse: PackageParser)
    requires n.Folder? && WellFormed(n) && i < |n.entries|
    ensures EntryItems(at, n, i, parse)[item] <= 1
    decreases n, i
  {
    hide ItemsUpTo, ItemOf;
    var e := n.entries[i];
    if Kept(e) && e.node.Folder? { ItemOnce(at + [e.name], e.node, |e.node.entries|, item, parse); }
  }

  lemma SameFirst(at: Path, names: Path, others: Path)
    requires at + names == at + others && names != [] && others != []
    ensures names[0] == others[0]
  {
    assert (at + names)[|at|] == names[0];
  }

  lemma {:induction false} FolderOnce(at: Path, n: Node, k: nat, path: Path)
    requires n.Folder? && WellFormed(n) && k <= |n.entries|
    ensures FoldersUpTo(at, n, k)[path] <= 1
    decreases n, k
  {
    hide Leads, EntryFolders, WellFormed, Kept;
    if k > 0 {
      FolderOnce(at, n, k - 1, path);
      EntryFolderOnce(at, n, k - 1, path);
      if path in FoldersUpTo(at, n, k - 1) && path in EntryFolders(at, n, k - 1) {
        var names, _, _ := VisitedIsFolder(at, n, k - 1, path);
        var others, _, _ := EntryIsFolder(at, n, k - 1, path);
        EarlierName(n, k - 1, names[0]);
        SameFirst(at, names, others);
      }
    }
  }

  lemma {:induction false} EntryFolderOnce(at: Path, n: Node, i: nat, path: Path)
    requires n.Folder? && WellFormed(n) && i < |n.entries|
    ensures EntryFolders(at, n, i)[path] <= 1
    decreases n, i
  {
    hide FoldersUpTo, Kept;
    var e := n.entries[i];
    if Kept(e) && e.node.Folder? {
      FolderOnce(at + [e.name], e.node, |e.node.entries|, path);
      NotBelowItself(at + [e.name], e.node, |e.node.entries|);
    }
  }

  lemma NotBelowItself(at: Path, n: Node, k: nat)
    requires n.Folder? && k <= |n.entries|
    ensures at !in FoldersUpTo(at, n, k)
  {
    hide Leads, FoldersUpTo;
    if at in FoldersUpTo(at, n, k) {
      var names, _, _ := VisitedIsFolder(at, n, k, at);
      LongerIsOther(at, names);
    }
  }

  lemma LongerIsOther(at: Path, names: Path)
    requires names != []
    ensures at != at + names
  {
  }

  /**
   What a successful scan read: a directory is visited exactly when names lead to it and neither it nor a
   directory on the way is pruned, and none is visited twice.
   */
  lemma EachFolderOnce(root: Node, visited: seq<Path>, path: Path)
    requires root.Folder? && WellFormed(root) && multiset(visited) == Folders([], root)
    ensures Distinct(visited)
    ensures path in visited <==> path == [] || exists siblings, e :: Leads(root, path, siblings, e) && Kept(e)
  {
    hide Leads, WellFormed, FoldersUpTo;
    forall i, j | 0 <= i < j < |visited| ensures visited[i] != visited[j] {
      FolderOnce([], root, |root.entries|, visited[i]);
      NotBelowItself([], root, |root.entries|);
      if visited[i] == visited[j] { CountAtTwo(visited, i, j); }
    }
    assert path in visited <==> path in multiset(visited);
    if path in visited && path != [] {
      var names, siblings, e := VisitedIsFolder([], root, |root.entries|, path);
      assert names == path;
    }
    if siblings, e :| Leads(root, path, siblings, e) && Kept(e) {
      FolderIsVisited([], root, path, siblings, e);
      assert [] + path == path;
    }
  }

  /** What it lists: every regular file that names lead to, once, with the manifest detected in it. */
  lemma EachFileOnce(root: Node, items: seq<Item>, item: Item, parse: PackageParser)
    requires root.Folder? && WellFormed(root) && multiset(items) == Items([], root, parse)
    ensures Distinct(items)
    ensures item in items <==>
              exists siblings, e ::
                  Leads(root, item.path, siblings, e) && e.node.File? && item == ItemOf(item.path, siblings, e, parse)
  {
    hide Leads, WellFormed, ItemsUpTo, ItemOf;
    forall i, j | 0 <= i < j < |items| ensures items[i] != items[j] {
      ItemOnce([], root, |root.entries|, items[i], parse);
      if items[i] == items[j] { CountAtTwo(items, i, j); }
    }
    assert item in items <==> item in multiset(items);
    if item in items {
      var names, siblings, e := ListedIsFile([], root, |root.entries|, item, parse);
      assert names == item.path;
    }
    if siblings, e :|
      && Leads(root, item.path, siblings, e) && e.node.File?
      && item == ItemOf(item.path, siblings, e, parse)
    {
      FileIsListed([], root, item.path, siblings, e, parse);
      assert [] + item.path == item.path;
    }
  }

  // ----- the order in which the system lists a directory -----

  function Names(entries: seq<Entry>): set<string> {
    set e | e in entries :: e.name
  }

  /** The same tree, its directories listed in another order. */
  ghost predicate Rearranged(a: Node, b: Node)
    decreases a
  {
    if a.Folder? && b.Folder? then
      && Names(a.entries) == Names(b.entries)
      && forall i, j | 0 <= i < |a.entries| && 0 <= j < |b.entries| && a.entries[i].name == b.entries[j].name ::
           Rearranged(a.entries[i].node, b.entries[j].node)
    else a == b
  }

  lemma {:induction false} RearrangedBack(a: Node, b: Node)
    requires Rearranged(a, b)
    ensures Rearranged(b, a)
  {
    if a.Folder? && b.Folder? {
      forall j, i | 0 <= i < |a.entries| && 0 <= j < |b.entries| && b.entries[j].name == a.entries[i].name
        ensures Rearranged(b.entries[j].node, a.entries[i].node)
      {
        RearrangedBack(a.entries[i].node, b.entries[j].node);
      }
    }
  }

  /** The counterpart of an entry. */
  lemma Counterpart(a: Node, b: Node, d: Entry) returns (e: Entry)
    requires a.Folder? && b.Folder? && Rearranged(a, b) && d in a.entries
    ensures e in b.entries && e.name == d.name && Rearranged(d.node, e.node)
  {
    assert d.name in Names(b.entries);
    e :| e in b.entries && e.name == d.name;
    var i :| 0 <= i < |a.entries| && a.entries[i] == d;
    var j :| 0 <= j < |b.entries| && b.entries[j] == e;
  }

  lemma SameSort(a: Node, b: Node)
    requires Rearranged(a, b)
    ensures a.Folder? <==> b.Folder?
    ensures !a.Folder? ==> a == b
  {
  }

  lemma FilesAlike(a: Node, b: Node, name: string)
    requires a.Folder? && b.Folder? && Rearranged(a, b) && HasFile(a.entries, name)
    ensures HasFile(b.entries, name)
  {
    hide Rearranged;
    var d :| d in a.entries && d.name == name && (d.node.File? || d.node == Link(true));
    var e := Counterpart(a, b, d);
    SameSort(d.node, e.node);
  }

  lemma DetectsAlike(a: Node, b: Node, name: string, text: Option<string>, path: string, parse: PackageParser)
    requires a.Folder? && b.Folder? && Rearranged(a, b)
    ensures DetectManifest(a.entries, name, text, path, parse) == DetectManifest(b.entries, name, text, path, parse)
  {
    hide Rearranged, HasFile, ManifestKind, Lockfiles;
    RearrangedBack(a, b);
    forall file: string ensures HasFile(a.entries, file) <==> HasFile(b.entries, file) {
      if HasFile(a.entries, file) { FilesAlike(a, b, file); }
      if HasFile(b.entries, file) { FilesAlike(b, a, file); }
    }
    forall languageId: string ensures HasLockfile(a.entries, languageId) <==> HasLockfile(b.entries, languageId) {
      assert forall file | file in Lockfiles(languageId) :: HasFile(a.entries, file) <==> HasFile(b.entries, file);
    }
    assert PackageLanguage(a.entries, text, parse) == PackageLanguage(b.entries, text, parse);
    hide HasLockfile, PackageLanguage;
  }

  lemma {:induction false} LeadsAlike(a: Node, b: Node, names: Path, siblings: seq<Entry>, d: Entry)
    returns (others: seq<Entry>, e: Entry)
    requires Rearranged(a, b) && Leads(a, names, siblings, d)
    ensures Leads(b, names, others, e) && e.name == d.name && Rearranged(d.node, e.node)
            && Rearranged(Folder(siblings), Folder(others))
    decreases |names|
  {
    hide Rearranged;
    SameSort(a, b);
    if |names| == 1 {
      e := Counterpart(a, b, d);
      others := b.entries;
      assert a == Folder(siblings) && b == Folder(others);
    } else {
      var next :| next in a.entries && next.name == names[0] && Kept(next) && Leads(next.node, names[1..], siblings, d);
      var other := Counterpart(a, b, next);
      SameSort(next.node, other.node);
      others, e := LeadsAlike(next.node, other.node, names[1..], siblings, d);
      LeadsOn(b, other, names[1..], others, e);
      assert [other.name] + names[1..] == names;
    }
  }

  lemma ListedAlike(a: Node, b: Node, itemsA: seq<Item>, itemsB: seq<Item>, item: Item, parse: PackageParser)
    requires a.Folder? && b.Folder? && WellFormed(a) && WellFormed(b) && Rearranged(a, b) && item in itemsA
    requires multiset(itemsA) == Items([], a, parse) && multiset(itemsB) == Items([], b, parse)
    ensures item in itemsB
  {
    hide Rearranged, Leads, WellFormed, Items, DetectManifest, PathText;
    EachFileOnce(a, itemsA, item, parse);
    EachFileOnce(b, itemsB, item, parse);
    var siblings, d :| Leads(a, item.path, siblings, d) && d.node.File?
        && item == ItemOf(item.path, siblings, d, parse);
    var others, e := LeadsAlike(a, b, item.path, siblings, d);
    SameSort(d.node, e.node);
    DetectsAlike(Folder(siblings), Folder(others), d.name, d.node.text, PathText(item.path), parse);
    assert item == ItemOf(item.path, others, e, parse);
  }

  lemma {:induction false} CleanAlike(a: Node, b: Node, parse: PackageParser)
    requires Rearranged(a, b) && Clean(a, parse)
    ensures Clean(b, parse)
  {
    hide Rearranged, Sound;
    SameSort(a, b);
    RearrangedBack(a, b);
    forall j | 0 <= j < |b.entries| ensures EntryClean(b, j, parse) {
      var d := Counterpart(b, a, b.entries[j]);
      var i :| 0 <= i < |a.entries| && a.entries[i] == d;
      RearrangedBack(b.entries[j].node, d.node);
      SameSort(d.node, b.entries[j].node);
      assert EntryClean(a, i, parse);
      if Kept(d) { CleanAlike(d.node, b.entries[j].node, parse); }
      EntryAlike(a, b, i, j, parse);
    }
  }

  lemma EntryAlike(a: Node, b: Node, i: nat, j: nat, parse: PackageParser)
    requires a.Folder? && b.Folder? && Rearranged(a, b) && i < |a.entries| && j < |b.entries|
    requires a.entries[i].name == b.entries[j].name && Rearranged(a.entries[i].node, b.entries[j].node)
             && EntryClean(a, i, parse)
    requires Kept(a.entries[i]) ==> Clean(b.entries[j].node, parse)
    ensures EntryClean(b, j, parse)
  {
    hide Rearranged, DetectManifest, Clean;
    var d, e := a.entries[i], b.entries[j];
    SameSort(d.node, e.node);
    if e.node.File? { DetectsAlike(a, b, e.name, e.node.text, "", parse); }
  }

  // ----- paths as text -----

  predicate Legal(path: Path) {
    path != [] && forall i | 0 <= i < |path| :: '/' !in path[i]
  }

  lemma PathTextIsInjective(p: Path, q: Path)
    requires Legal(p) && Legal(q) && PathText(p) == PathText(q)
    ensures p == q
  {
    SplitOfJoin(p, '/');
    SplitOfJoin(q, '/');
  }

  lemma {:induction false} LeadsLegally(n: Node, names: Path, siblings: seq<Entry>, e: Entry)
    requires WellFormed(n) && Leads(n, names, siblings, e)
    ensures Legal(names)
    decreases |names|
  {
    hide WellFormed;
    if |names| == 1 {
      SameName(n, e, e);
    } else {
      var d :| d in n.entries && d.name == names[0] && Kept(d) && Leads(d.node, names[1..], siblings, e);
      SameName(n, d, d);
      LeadsLegally(d.node, names[1..], siblings, e);
      forall i | 0 <= i < |names| ensures '/' !in names[i] { if i > 0 { assert names[i] == names[1..][i - 1]; } }
    }
  }

  lemma ItemsAreTold(root: Node, items: seq<Item>, x: Item, y: Item, parse: PackageParser)
    requires root.Folder? && WellFormed(root) && multiset(items) == Items([], root, parse)
    requires x in items && y in items && PathText(x.path) == PathText(y.path)
    ensures x == y
  {
    hide WellFormed, Leads, Items, DetectManifest, PathText;
    EachFileOnce(root, items, x, parse);
    EachFileOnce(root, items, y, parse);
    var s1, e1 :| Leads(root, x.path, s1, e1) && e1.node.File? && x == ItemOf(x.path, s1, e1, parse);
    var s2, e2 :| Leads(root, y.path, s2, e2) && e2.node.File? && y == ItemOf(y.path, s2, e2, parse);
    LeadsLegally(root, x.path, s1, e1);
    LeadsLegally(root, y.path, s2, e2);
    PathTextIsInjective(x.path, y.path);
    LeadsOnce(root, x.path, s1, e1, s2, e2);
  }

  lemma EvidencePath(root: Node, items: seq<Item>, x: Item, parse: PackageParser)
    requires root.Folder? && WellFormed(root) && multiset(items) == Items([], root, parse) && x in items
    ensures x.evidence.Some? ==> x.evidence.value.path == PathText(x.path)
  {
    hide WellFormed, Leads, Items, PathText, HasLockfile, PackageLanguage, ManifestKind;
    EachFileOnce(root, items, x, parse);
  }

  function EvidenceOf(): Item -> multiset<ManifestEvidence> {
    (item: Item) => match item.evidence case Some(evidence) => multiset{evidence} case None => multiset{}
  }

  lemma {:induction false} ManifestsAreSum(items: seq<Item>)
    ensures multiset(ManifestsOf(items)) == SumOf(items, EvidenceOf())
    decreases |items|
  {
    hide SumOf;
    if items == [] {
      NothingSums();
    } else {
      var front, last := items[..|items| - 1], items[|items| - 1];
      ManifestsAreSum(front);
      SumAppend(front, [last], EvidenceOf());
      assert items == front + [last];
      SumOfSingle(last);
    }
  }

  lemma NothingSums()
    ensures SumOf([], EvidenceOf()) == multiset{}
  {
  }

  lemma SumOfSingle(item: Item)
    ensures SumOf([item], EvidenceOf()) == match item.evidence case Some(evidence) => multiset{evidence}
            case None => multiset{}
  {
  }

  lemma {:induction false} ManifestHasItem(items: seq<Item>, m: ManifestEvidence)
    requires m in ManifestsOf(items)
    ensures exists item | item in items :: item.evidence == Some(m)
    decreases |items|
  {
    var front, last := items[..|items| - 1], items[|items| - 1];
    if m in ManifestsOf(front) {
      ManifestHasItem(front, m);
      var item :| item in front && item.evidence == Some(m);
      assert item in items;
    } else {
      assert last in items;
    }
  }

  lemma ManifestsAreUntied(root: Node, items: seq<Item>, parse: PackageParser)
    requires root.Folder? && WellFormed(root) && multiset(items) == Items([], root, parse)
    ensures NoTies(ManifestsOf(items), ByManifestPath())
  {
    hide WellFormed, Items, ManifestsOf, PathText;
    var manifests := ManifestsOf(items);
    forall m, n | m in manifests && n in manifests && StrLe(m.path, n.path) && StrLe(n.path, m.path) ensures m == n {
      StrLeAntisymmetric(m.path, n.path);
      ManifestHasItem(items, m);
      ManifestHasItem(items, n);
      var x :| x in items && x.evidence == Some(m);
      var y :| y in items && y.evidence == Some(n);
      EvidencePath(root, items, x, parse);
      EvidencePath(root, items, y, parse);
      ItemsAreTold(root, items, x, y, parse);
    }
  }

  lemma ByManifestPathIsPreorder()
    ensures TotalPreorder(ByManifestPath())
  {
    forall a: ManifestEvidence, b: ManifestEvidence ensures ByManifestPath()(a, b) || ByManifestPath()(b, a) {
      StrLeTotal(a.path, b.path);
    }
    forall a: ManifestEvidence, b: ManifestEvidence, c: ManifestEvidence | ByManifestPath()(a, b)
        && ByManifestPath()(b, c)
      ensures ByManifestPath()(a, c)
    {
      StrLeTransitive(a.path, b.path, c.path);
    }
  }

  /** Whether a scan succeeds, and with what, does not depend on the order in which directories are listed. */
  lemma ListingOrderIsInvisible(a: Node, b: Node, itemsA: seq<Item>, itemsB: seq<Item>, parse: PackageParser)
    requires a.Folder? && b.Folder? && WellFormed(a) && WellFormed(b) && Rearranged(a, b)
    requires multiset(itemsA) == Items([], a, parse) && multiset(itemsB) == Items([], b, parse)
    ensures Clean(a, parse) <==> Clean(b, parse)
    ensures Sort(FilesOf(itemsA), ByText()) == Sort(FilesOf(itemsB), ByText())
    ensures Sort(ManifestsOf(itemsA), ByManifestPath()) == Sort(ManifestsOf(itemsB), ByManifestPath())
  {
    hide Clean, Rearranged, WellFormed, Items, ManifestsOf, Sort, SumOf, EvidenceOf, NoTies, Distinct, StrLe,
         TotalPreorder;
    RearrangedBack(a, b);
    if Clean(a, parse) { CleanAlike(a, b, parse); }
    if Clean(b, parse) { CleanAlike(b, a, parse); }
    ItemsAlike(a, b, itemsA, itemsB, parse);
    MapPermutes(itemsA, itemsB, TextOfItem());
    TextOrderIsTotal();
    SortOfPermutation(FilesOf(itemsA), FilesOf(itemsB), ByText());
    ManifestsAreSum(itemsA);
    ManifestsAreSum(itemsB);
    SumPermutes(itemsA, itemsB, EvidenceOf());
    ByManifestPathIsPreorder();
    ManifestsAreUntied(a, itemsA, parse);
    SortOfUntied(ManifestsOf(itemsA), ManifestsOf(itemsB), ByManifestPath());
  }

  lemma ItemsAlike(a: Node, b: Node, itemsA: seq<Item>, itemsB: seq<Item>, parse: PackageParser)
    requires a.Folder? && b.Folder? && WellFormed(a) && WellFormed(b) && Rearranged(a, b)
    requires multiset(itemsA) == Items([], a, parse) && multiset(itemsB) == Items([], b, parse)
    ensures multiset(itemsA) == multiset(itemsB)
  {
    hide Rearranged, WellFormed, Items, Leads, ItemOf;
    RearrangedBack(a, b);
    forall item ensures item in itemsA <==> item in itemsB {
      if item in itemsA { ListedAlike(a, b, itemsA, itemsB, item, parse); }
      if item in itemsB { ListedAlike(b, a, itemsB, itemsA, item, parse); }
    }
    EachFileOnce(a, itemsA, Item([], None), parse);
    EachFileOnce(b, itemsB, Item([], None), parse);
    DistinctSameMembers(itemsA, itemsB);
  }
}
