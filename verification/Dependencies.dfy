/**
 The dependencies of a project: what its manifests declare, completed by what their lockfiles pin.
 Parsing a manifest or a lockfile is left uninterpreted.
 */
module Dependencies {
  import opened Wrappers
  import opened Splitting

  /**
   One primary manifest: its declared versions, and the pinned ones if it has a lockfile; none where parsing fails.
   */
  datatype Manifest = Manifest(declared: Option<map<string, string>>, locked: Option<Option<map<string, string>>>)

  predicate Readable(m: Manifest) {
    m.declared.Some? && (m.locked.Some? ==> m.locked.value.Some?)
  }

  function Locked(m: Manifest): map<string, string> {
    match m.locked case Some(Some(pins)) => pins case _ => map[]
  }

  function Declared(m: Manifest): map<string, string> {
    match m.declared case Some(versions) => versions case None => map[]
  }

  /** The version of the last manifest that declares the name. */
  function LastDeclared(manifests: seq<Manifest>, name: string): Option<string> {
    if manifests == [] then None
    else
      var last := manifests[|manifests| - 1];
      if name in Declared(last) then Some(Declared(last)[name]) else LastDeclared(manifests[..|manifests| - 1], name)
  }

  /** The version of the first lockfile that pins the name. */
  function FirstLocked(manifests: seq<Manifest>, name: string): Option<string> {
    if manifests == [] then None
    else if name in Locked(manifests[0]) then Some(Locked(manifests[0])[name])
    else FirstLocked(manifests[1..], name)
  }

  lemma {:induction false} FirstLockedOfMore(manifests: seq<Manifest>, m: Manifest, name: string)
    ensures FirstLocked(manifests + [m], name) ==
              if FirstLocked(manifests, name).Some? then FirstLocked(manifests, name)
              else if name in Locked(m) then Some(Locked(m)[name]) else None
  {
    if manifests != [] {
      assert (manifests + [m])[1..] == manifests[1..] + [m];
      FirstLockedOfMore(manifests[1..], m, name);
    }
  }

  /** A declared version, the last one, wins over every pinned one; of those the first wins. */
  function VersionOf(manifests: seq<Manifest>, name: string): Option<string> {
    if LastDeclared(manifests, name).Some? then LastDeclared(manifests, name) else FirstLocked(manifests, name)
  }

  ghost predicate Extracted(dependencies: map<string, string>, manifests: seq<Manifest>) {
    forall name: string ::
        (if name in dependencies then Some(dependencies[name]) else None) == VersionOf(manifests, name)
  }

  /** Inserts what is not there yet. */
  function OrInsert(dependencies: map<string, string>, pins: map<string, string>): map<string, string> {
    pins + dependencies
  }

  method ExtractDependencies(manifests: seq<Manifest>) returns (r: Option<map<string, string>>)
    ensures r.Some? <==> forall m | m in manifests :: Readable(m)
    ensures r.Some? ==> Extracted(r.value, manifests)
  {
    var dependencies: map<string, string> := map[];
    for i := 0 to |manifests|
      invariant forall j | 0 <= j < i :: Readable(manifests[j])
      invariant Extracted(dependencies, manifests[..i])
    {
      var m := manifests[i];
      if m.declared.None? || (m.locked.Some? && m.locked.value.None?) {
        assert !Readable(m) && m in manifests;
        return None;
      }
      MergeStep(dependencies, manifests[..i], m);
      assert manifests[..i + 1] == manifests[..i] + [m];
      dependencies := dependencies + m.declared.value;
      if m.locked.Some? { dependencies := OrInsert(dependencies, m.locked.value.value); }
    }
    assert manifests[..|manifests|] == manifests;
    return Some(dependencies);
  }

  lemma MergeStep(dependencies: map<string, string>, manifests: seq<Manifest>, m: Manifest)
    requires Extracted(dependencies, manifests)
    ensures Extracted(OrInsert(dependencies + Declared(m), Locked(m)), manifests + [m])
    ensures OrInsert(dependencies + Declared(m), map[]) == dependencies + Declared(m)
  {
    var next := OrInsert(dependencies + Declared(m), Locked(m));
    forall name: string ensures (if name in next then Some(next[name]) else None) == VersionOf(manifests + [m], name) {
      assert (manifests + [m])[..|manifests|] == manifests;
      FirstLockedOfMore(manifests, m, name);
      assert (if name in dependencies then Some(dependencies[name]) else None) == VersionOf(manifests, name);
    }
  }

  // ----- pnpm's package keys -----

  function TrimSlashes(s: string): string {
    if s != "" && s[0] == '/' then TrimSlashes(s[1..]) else s
  }

  /** Where the version begins: at the first '@' that does not begin the name. */
  function Boundary(key: string): nat {
    if key != "" && key[0] == '@' then IndexOf(key[1..], '@') + 1 else IndexOf(key, '@')
  }

  /** Name and version in a key such as `/@scope/name@1.0.0(peer@2.0.0)`. */
  function PackageFromPnpmKey(text: string): Option<(string, string)> {
    var key := TrimSlashes(text);
    var at := Boundary(key);
    if at >= |key| then None
    else
      var name, version := key[..at], Cut(key[at + 1..], '(').0;
      if name == "" || version == "" then None else Some((name, version))
  }

  /** A key printed from a name, a version and the peers it was resolved with gives name and version back. */
  lemma KeyIsRead(name: string, version: string, peers: string, slash: bool)
    requires name != "" && name[0] != '/' && '@' !in name[1..]
    requires version != "" && '(' !in version && (peers != "" ==> peers[0] == '(')
    ensures PackageFromPnpmKey((if slash then "/" else "") + name + "@" + version + peers) == Some((name, version))
  {
    hide IndexOf, Cut, Boundary;
    var text := (if slash then "/" else "") + name + "@" + version + peers;
    var key := name + ['@'] + (version + peers);
    assert slash ==> text[0] == '/' && text[1..] == key;
    assert !slash ==> text == key;
    assert TrimSlashes(key) == key;
    assert TrimSlashes(text) == key;
    BoundaryIs(name, version + peers);
    assert key[|name| + 1..] == version + peers && key[..|name|] == name;
    VersionIsRead(version, peers);
  }

  lemma BoundaryIs(name: string, rest: string)
    requires name != "" && '@' !in name[1..]
    ensures Boundary(name + ['@'] + rest) == |name|
  {
    hide IndexOf;
    var key := name + ['@'] + rest;
    if name[0] == '@' {
      assert key[1..] == name[1..] + ['@'] + rest;
      IndexOfFirst(name[1..], '@', rest);
    } else {
      assert name == [name[0]] + name[1..];
      IndexOfFirst(name, '@', rest);
    }
  }

  lemma VersionIsRead(version: string, peers: string)
    requires '(' !in version && (peers != "" ==> peers[0] == '(')
    ensures Cut(version + peers, '(').0 == version
  {
    if peers != "" {
      assert version + peers == version + ['('] + peers[1..];
      CutAt(version, '(', peers[1..]);
    } else {
      assert version + peers == version;
      CutAt(version, '(', "");
    }
  }
}
