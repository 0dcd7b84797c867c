/**
 Package identities.  The schema package prints a PURL as a candidate's identity; the ingestion service
 rebuilds the identity from the PURL with PHP's functions and compares.
 */
module Purl {
  import opened Wrappers
  import opened Sorting
  import opened Text
  import opened Percent
  import opened Splitting
  import opened Entries

  type Qualifier = Entry<string, string>

  /** Qualifiers are the entries of an object: distinct keys, in insertion order. */
  datatype Purl = Purl(
    kind: string, namespace: Option<string>, name: string, version: string,
    qualifiers: Option<seq<Qualifier>>, subpath: Option<string>)

  /** The schema's `^[a-z0-9][a-z0-9.+-]*$`. */
  predicate ValidKind(kind: string) {
    && kind != "" && KindChar(kind[0]) && kind[0] !in ".+-"
    && forall i | 0 <= i < |kind| :: KindChar(kind[i])
  }

  predicate KindChar(c: char) {
    'a' <= c <= 'z' || '0' <= c <= '9' || c == '.' || c == '+' || c == '-'
  }

  /** What the schema guarantees of a candidate's PURL, as far as identities go. */
  ghost predicate WellFormed(p: Purl) {
    ValidKind(p.kind) && (p.qualifiers.Some? ==> DistinctKeys(p.qualifiers.value))
  }

  // ----- the printers -----

  function EncodeAll(charset: Charset, parts: seq<string>): seq<string> {
    seq(|parts|, i requires 0 <= i < |parts| => Encode(charset, parts[i]))
  }

  /** JavaScript's truthiness of an optional string. */
  function Truthy(s: Option<string>): Option<string> {
    if s == Some("") then None else s
  }

  function NamespaceText(language: Language, namespace: Option<string>): string {
    match namespace
    case None => ""
    case Some(ns) => Join(EncodeAll(Charset(language, false), Split(ns, '/')), "/") + "/"
  }

  function EntryText(e: Qualifier): string {
    Encode(JS, e.key) + "=" + Encode(JS, e.value)
  }

  function EntryTexts(entries: seq<Qualifier>): seq<string> {
    seq(|entries|, i requires 0 <= i < |entries| => EntryText(entries[i]))
  }

  /** `[].join("&")` is the empty string. */
  function JoinAll(parts: seq<string>, sep: string): string {
    if parts == [] then "" else Join(parts, sep)
  }

  function QualifierText(qualifiers: Option<seq<Qualifier>>, le: Collation): string {
    match qualifiers
    case None => ""
    case Some(entries) => "?" + JoinAll(EntryTexts(Sort(entries, ByKey(le))), "&")
  }

  function SubpathText(subpath: Option<string>): string {
    match Truthy(subpath) case None => "" case Some(path) => "#" + Encode(JS, path)
  }

  function CandidateIdentity(p: Purl, le: Collation): string {
    "pkg:" + Lower(p.kind) + "/" + NamespaceText(JavaScript, Truthy(p.namespace)) + Encode(JS, p.name) + "@"
        + Encode(JS, p.version)
    + QualifierText(p.qualifiers, le) + SubpathText(p.subpath)
  }

  /** PHP's truthiness: the string "0" is false too. */
  function PhpTruthy(s: Option<string>): Option<string> {
    if s == Some("") || s == Some("0") then None else s
  }

  function PhpIdentity(p: Purl): string {
    "pkg:" + Lower(p.kind) + "/" + NamespaceText(Php, PhpTruthy(p.namespace)) + Encode(Charset(Php, false),
        p.name) + "@" + Encode(Charset(Php, false), p.version)
  }

  // ----- the parser -----

  function DecodeEntry(s: string): Option<Qualifier> {
    var i := IndexOf(s, '=');
    if i == |s| then None
    else
      match (Decode(s[..i]), Decode(s[i + 1..]))
      case (Some(k), Some(v)) => Some(Entry(k, v))
      case _ => None
  }

  function DecodeEntries(parts: seq<string>): Option<seq<Qualifier>> {
    if parts == [] then Some([])
    else
      match (DecodeEntry(parts[0]), DecodeEntries(parts[1..]))
      case (Some(e), Some(rest)) => Some([e] + rest)
      case _ => None
  }

  function ParseQualifiers(s: string): Option<seq<Qualifier>> {
    if s == "" then Some([]) else DecodeEntries(Split(s, '&'))
  }

  function DecodeOptional(s: Option<string>): Option<Option<string>> {
    match s
    case None => Some(None)
    case Some(code) => (match Decode(code) case Some(text) => Some(Some(text)) case None => None)
  }

  /** The left inverse: subpath, qualifiers and version are cut off the back, the kind off the front. */
  function ParseIdentity(identity: string): Option<Purl> {
    if !("pkg:" <= identity) then None
    else
      var (s1, subpath) := Cut(identity[4..], '#');
      var (s2, qualifiers) := Cut(s1, '?');
      var (path, version) := Cut(s2, '@');
      var (kind, rest) := Cut(path, '/');
      if version.None? || rest.None? then None
      else
        var slash := LastIndexOf(rest.value, '/');
        if !(-1 <= slash < |rest.value|) then None
        else
          var namespace := if slash < 0 then None else Some(rest.value[..slash]);
          var entries := match qualifiers case None => Some(None)
                         case Some(text) => (match ParseQualifiers(text) case Some(es) => Some(Some(es))
                           case None => None);
          match (DecodeOptional(namespace), Decode(rest.value[slash + 1..]), Decode(version.value), entries,
              DecodeOptional(subpath))
          case (Some(ns), Some(name), Some(ver), Some(q), Some(sub)) => Some(Purl(kind, ns, name, ver, q, sub))
          case _ => None
  }

  lemma {:induction false} NoSlashEncodes(language: Language, s: string)
    requires '/' !in s
    ensures Encode(Charset(language, false), s) == Encode(Charset(language, true), s)
  {
    hide Utf8, EncodeBytes;
    if s != "" {
      assert s[0] in s;
      assert '/' !in s[1..];
      NoSlashEncodes(language, s[1..]);
    }
  }

  lemma {:induction false} SplitAt(ns: string)
    requires IndexOf(ns, '/') < |ns|
    ensures var i := IndexOf(ns, '/');
            && Split(ns, '/') == [ns[..i]] + Split(ns[i + 1..], '/')
            && ns == ns[..i] + ("/" + ns[i + 1..]) && '/' !in ns[..i]
  {
    hide IndexOf;
  }

  lemma JoinHead(charset: Charset, head: string, segments: seq<string>)
    requires |segments| >= 1
    ensures Join(EncodeAll(charset, [head] + segments), "/")
            == Encode(charset, head) + "/" + Join(EncodeAll(charset, segments), "/")
  {
    hide Encode;
    assert EncodeAll(charset, [head] + segments) == [Encode(charset, head)] + EncodeAll(charset, segments);
    assert EncodeAll(charset, [head] + segments)[1..] == EncodeAll(charset, segments);
  }

  /** Encoding the segments of a namespace is encoding it with its slashes kept. */
  lemma {:induction false} SegmentsEncode(language: Language, ns: string)
    ensures Join(EncodeAll(Charset(language, false), Split(ns, '/')), "/") == Encode(Charset(language, true), ns)
    decreases |ns|
  {
    hide Encode, IndexOf;
    var i := IndexOf(ns, '/');
    if i == |ns| {
      assert ns[..i] == ns;
      NoSlashEncodes(language, ns);
      assert EncodeAll(Charset(language, false), [ns]) == [Encode(Charset(language, false), ns)];
    } else {
      hide Split;
      var head, tail := ns[..i], ns[i + 1..];
      SplitAt(ns);
      JoinHead(Charset(language, false), head, Split(tail, '/'));
      NoSlashEncodes(language, head);
      SegmentsEncode(language, tail);
      EncodeAppends(Charset(language, true), head, "/" + tail);
      EncodeAppends(Charset(language, true), "/", tail);
      SlashStays(language);
    }
  }

  lemma SlashStays(language: Language)
    ensures Encode(Charset(language, true), "/") == "/"
  {
  }

  // ----- qualifiers -----

  lemma EntryParses(e: Qualifier)
    ensures DecodeEntry(EntryText(e)) == Some(e)
    ensures '&' !in EntryText(e) && EntryText(e) != "" && '#' !in EntryText(e)
  {
    hide Encode, Decode, IndexOf;
    EncodedIsCode(JS, e.key);
    EncodedIsCode(JS, e.value);
    var k, v := Encode(JS, e.key), Encode(JS, e.value);
    IndexOfFirst(k, '=', v);
    assert (k + "=" + v)[..|k|] == k && (k + "=" + v)[|k| + 1..] == v;
    DecodeEncode(JS, e.key);
    DecodeEncode(JS, e.value);
  }

  lemma {:induction false} EntriesParse(entries: seq<Qualifier>)
    ensures DecodeEntries(EntryTexts(entries)) == Some(entries)
  {
    hide EntryText, DecodeEntry;
    if entries != [] {
      EntryParses(entries[0]);
      assert EntryTexts(entries)[1..] == EntryTexts(entries[1..]);
      EntriesParse(entries[1..]);
      assert [entries[0]] + entries[1..] == entries;
    }
  }

  lemma {:induction false} JoinedHasNo(parts: seq<string>, sep: string, c: char)
    requires |parts| >= 1 && c !in sep && forall i | 0 <= i < |parts| :: c !in parts[i]
    ensures c !in Join(parts, sep)
    ensures parts[0] != "" ==> Join(parts, sep) != ""
  {
    if |parts| > 1 { JoinedHasNo(parts[1..], sep, c); }
  }

  lemma QualifiersParse(entries: seq<Qualifier>)
    ensures ParseQualifiers(JoinAll(EntryTexts(entries), "&")) == Some(entries)
    ensures '#' !in JoinAll(EntryTexts(entries), "&")
  {
    hide EntryText, Join, Split, DecodeEntries;
    if entries != [] {
      var texts := EntryTexts(entries);
      forall i | 0 <= i < |texts| ensures '&' !in texts[i] && '#' !in texts[i] && texts[i] != "" {
        EntryParses(entries[i]);
      }
      SplitOfJoin(texts, '&');
      JoinedHasNo(texts, "&", '#');
      EntriesParse(entries);
    }
  }

  // ----- main results -----

  /** The identity's reading of a PURL: sorted qualifiers, and no empty namespace or subpath. */
  function Canonical(p: Purl, le: Collation): Purl {
    Purl(Lower(p.kind), Truthy(p.namespace), p.name, p.version,
         match p.qualifiers case None => None case Some(entries) => Some(Sort(entries, ByKey(le))),
         Truthy(p.subpath))
  }

  lemma KindIsPlain(kind: string)
    requires ValidKind(kind)
    ensures Lower(kind) == kind
    ensures '/' !in kind && '#' !in kind && '?' !in kind && '@' !in kind && '!' !in kind
    ensures forall c | c in kind :: KindChar(c)
  {
  }

  // ----- identities of plain text -----

  /** Letters, digits and these signs: what `encodeURIComponent` leaves alone. */
  predicate Unreserved(s: string) {
    forall c | c in s :: 'a' <= c <= 'z' || 'A' <= c <= 'Z' || '0' <= c <= '9' || c in "-_.!~*'()"
  }

  /** A qualifier as it is written. */
  function Spelled(entries: seq<Qualifier>): seq<string> {
    seq(|entries|, i requires 0 <= i < |entries| => entries[i].key + "=" + entries[i].value)
  }

  lemma PlainPath(language: Language, namespace: string)
    requires forall c | c in namespace ::
               'a' <= c <= 'z' || 'A' <= c <= 'Z' || '0' <= c <= '9' || c in "-_.~/"
                 || (language == JavaScript && c in "!*'()")
    ensures NamespaceText(language, Some(namespace)) == namespace + "/"
  {
    SegmentsEncode(language, namespace);
    KeptInPaths(language);
    EncodeGrows(Charset(language, true), namespace);
  }

  lemma KeptInPaths(language: Language)
    ensures forall c :: Percent.Keeps(Charset(language, true), c) <==>
              'a' <= c <= 'z' || 'A' <= c <= 'Z' || '0' <= c <= '9' || c in "-_.~/"
                || (language == JavaScript && c in "!*'()")
  {
  }

  lemma PlainQualifiers(entries: seq<Qualifier>)
    requires forall i | 0 <= i < |entries| :: Unreserved(entries[i].key) && Unreserved(entries[i].value)
    ensures EntryTexts(entries) == Spelled(entries)
  {
    hide Encode;
    forall i | 0 <= i < |entries| ensures EntryText(entries[i]) == entries[i].key + "=" + entries[i].value {
      PlainExactly(entries[i].key);
      PlainExactly(entries[i].value);
    }
  }

  /** The printed identity of a PURL that needs no encoding, qualifiers in the order in which they are sorted. */
  lemma PlainIdentity(p: Purl, le: Collation, entries: seq<Qualifier>)
    requires ValidKind(p.kind) && Unreserved(p.name) && Unreserved(p.version)
    requires p.namespace.Some? ==> forall c | c in p.namespace.value :: c == '/' || Unreserved([c])
    requires p.subpath.Some? ==> Unreserved(p.subpath.value)
    requires p.qualifiers.Some? ==> multiset(entries) == multiset(p.qualifiers.value)
    requires TotalOrder(le) && WellFormed(p) && forall i, j | 0 <= i < j < |entries| ::
             le(entries[i].key, entries[j].key)
    requires forall i | 0 <= i < |entries| :: Unreserved(entries[i].key) && Unreserved(entries[i].value)
    ensures CandidateIdentity(p, le) ==
              "pkg:" + p.kind + "/"
              + (if p.namespace == None || p.namespace == Some("") then "" else p.namespace.value + "/")
              + p.name + "@" + p.version
              + (if p.qualifiers == None then ""
                 else if entries == [] then "?" else "?" + Join(Spelled(entries), "&"))
              + (if p.subpath == None || p.subpath == Some("") then "" else "#" + p.subpath.value)
  {
    hide Encode, NamespaceText, EntryTexts, Join, Sort, Lower, Split, TotalOrder, ValidKind;
    KindIsPlain(p.kind);
    PlainExactly(p.name);
    PlainExactly(p.version);
    if p.namespace.Some? {
      PlainSigns(p.namespace.value);
      PlainPath(JavaScript, p.namespace.value);
    }
    if p.subpath.Some? { PlainExactly(p.subpath.value); }
    if p.qualifiers.Some? {
      SortedQualifiers(p.qualifiers.value, entries, le);
      PlainQualifiers(entries);
    }
    NoNamespace();
  }

  lemma NoNamespace()
    ensures NamespaceText(JavaScript, None) == "" && NamespaceText(Php, None) == ""
  {
  }

  lemma PlainSigns(s: string)
    requires forall c | c in s :: c == '/' || Unreserved([c])
    ensures forall c | c in s :: 'a' <= c <= 'z' || 'A' <= c <= 'Z' || '0' <= c <= '9' || c in "-_.~/" || c in "!*'()"
  {
    forall c | c in s
      ensures 'a' <= c <= 'z' || 'A' <= c <= 'Z' || '0' <= c <= '9' || c in "-_.~/" || c in "!*'()"
    {
      if c != '/' { assert c in [c]; }
    }
  }

  lemma SortedQualifiers(given: seq<Qualifier>, entries: seq<Qualifier>, le: Collation)
    requires TotalOrder(le) && DistinctKeys(given) && multiset(entries) == multiset(given)
    requires forall i, j | 0 <= i < j < |entries| :: le(entries[i].key, entries[j].key)
    ensures Sort(given, ByKey(le)) == entries
  {
    hide Sort, TotalOrder;
    SortedEntriesAgree(given, entries, le);
    SortOfSorted(entries, ByKey(le));
  }

  /** The service's identity of such a PURL, where the namespace is not `0` and no character is encoded by PHP. */
  lemma PlainPhpIdentity(p: Purl)
    requires ValidKind(p.kind)
    requires forall c | c in p.name || c in p.version ::
               'a' <= c <= 'z' || 'A' <= c <= 'Z' || '0' <= c <= '9' || c in "-_.~"
    requires p.namespace.Some? ==> forall c | c in p.namespace.value ::
               'a' <= c <= 'z' || 'A' <= c <= 'Z' || '0' <= c <= '9' || c in "-_.~/"
    ensures PhpIdentity(p) ==
              "pkg:" + p.kind + "/"
              + (if p.namespace == None || p.namespace == Some("") || p.namespace == Some("0") then ""
                 else p.namespace.value + "/")
              + p.name + "@" + p.version
  {
    hide Encode, NamespaceText, Lower, ValidKind;
    KindIsPlain(p.kind);
    PlainExactly(p.name);
    PlainExactly(p.version);
    if p.namespace.Some? { PlainPath(Php, p.namespace.value); }
    NoNamespace();
  }

  lemma NamespaceIs(language: Language, namespace: Option<string>)
    ensures NamespaceText(language, namespace) ==
              match namespace case None => "" case Some(ns) => Encode(Charset(language, true), ns) + "/"
  {
    hide Encode, Split, Join;
    if namespace.Some? { SegmentsEncode(language, namespace.value); }
  }

  lemma CodeHasNo(charset: Charset, s: string, c: char)
    requires c in "#?@&=" || (c == '/' && !charset.slash)
    ensures c !in Encode(charset, s)
  {
    hide Encode;
    EncodedIsCode(charset, s);
  }

  /** The part of an identity before its version. */
  function PathText(p: Purl): string {
    Lower(p.kind) + "/" + NamespaceText(JavaScript, Truthy(p.namespace)) + Encode(JS, p.name)
  }

  lemma PathCuts(p: Purl)
    requires ValidKind(p.kind)
    ensures var path := PathText(p);
            && '#' !in path && '?' !in path && '@' !in path
            && Cut(path, '/') == (p.kind, Some(NamespaceText(JavaScript, Truthy(p.namespace)) + Encode(JS, p.name)))
  {
    hide Encode, NamespaceText, Cut, Lower;
    KindIsPlain(p.kind);
    var ns, name := NamespaceText(JavaScript, Truthy(p.namespace)), Encode(JS, p.name);
    NamespaceIs(JavaScript, Truthy(p.namespace));
    forall c | c in "#?@" ensures c !in ns && c !in name {
      CodeHasNo(JS, p.name, c);
      if Truthy(p.namespace).Some? { CodeHasNo(Charset(JavaScript, true), Truthy(p.namespace).value, c); }
    }
    assert '#' in "#?@" && '?' in "#?@" && '@' in "#?@";
    assert PathText(p) == p.kind + ['/'] + (ns + name);
    CutAt(p.kind, '/', ns + name);
  }

  lemma NameCuts(p: Purl)
    ensures var rest := NamespaceText(JavaScript, Truthy(p.namespace)) + Encode(JS, p.name);
            var slash := LastIndexOf(rest, '/');
            && -1 <= slash < |rest| && rest[slash + 1..] == Encode(JS, p.name)
            && (if slash < 0 then None else Some(rest[..slash])) ==
                 match Truthy(p.namespace) case None => None
                     case Some(ns) => Some(Encode(Charset(JavaScript, true), ns))
  {
    hide Encode, NamespaceText, LastIndexOf;
    NamespaceIs(JavaScript, Truthy(p.namespace));
    var name := Encode(JS, p.name);
    CodeHasNo(JS, p.name, '/');
    match Truthy(p.namespace) {
      case None =>
        LastIndexAt("", '/', name);
        assert "" + name == name;
        NoSlashNoIndex(name);
      case Some(ns) =>
        var code := Encode(Charset(JavaScript, true), ns);
        LastIndexAt(code, '/', name);
        assert code + "/" + name == code + ['/'] + name;
        assert (code + "/" + name)[..|code|] == code;
    }
  }

  lemma NoSlashNoIndex(s: string)
    requires '/' !in s
    ensures LastIndexOf(s, '/') == -1
  {
  }

  lemma IdentityShape(p: Purl, le: Collation)
    ensures CandidateIdentity(p, le) ==
              "pkg:" + (PathText(p) + "@" + Encode(JS, p.version) + QualifierText(p.qualifiers, le)
                  + SubpathText(p.subpath))
  {
    hide Encode, NamespaceText, QualifierText, SubpathText, Lower;
  }

  /** The identity before its qualifiers. */
  function VersionedText(p: Purl): string {
    PathText(p) + "@" + Encode(JS, p.version)
  }

  /** The qualifiers as they stand between '?' and the end. */
  function PrintedQualifiers(p: Purl, le: Collation): Option<string> {
    match p.qualifiers
    case None => None
    case Some(entries) => Some(JoinAll(EntryTexts(Sort(entries, ByKey(le))), "&"))
  }

  lemma VersionCuts(p: Purl)
    requires ValidKind(p.kind)
    ensures Cut(VersionedText(p), '@') == (PathText(p), Some(Encode(JS, p.version)))
    ensures '#' !in VersionedText(p) && '?' !in VersionedText(p)
  {
    hide Encode, Cut, PathText;
    PathCuts(p);
    var version := Encode(JS, p.version);
    assert '#' in "#?@" && '?' in "#?@";
    CodeHasNo(JS, p.version, '#');
    CodeHasNo(JS, p.version, '?');
    assert VersionedText(p) == PathText(p) + ['@'] + version;
    CutAt(PathText(p), '@', version);
  }

  lemma QualifiersCut(p: Purl, le: Collation)
    requires ValidKind(p.kind)
    ensures Cut(VersionedText(p) + QualifierText(p.qualifiers, le), '?') == (VersionedText(p), PrintedQualifiers(p, le))
    ensures '#' !in VersionedText(p) + QualifierText(p.qualifiers, le)
  {
    hide Cut, VersionedText, JoinAll, EntryTexts, Sort;
    VersionCuts(p);
    var text := VersionedText(p);
    match p.qualifiers {
      case None =>
        CutAt(text, '?', "");
        assert text + "" == text;
      case Some(entries) =>
        var printed := JoinAll(EntryTexts(Sort(entries, ByKey(le))), "&");
        QualifiersParse(Sort(entries, ByKey(le)));
        CutAt(text, '?', printed);
        assert text + ("?" + printed) == text + ['?'] + printed;
    }
  }

  lemma SubpathCuts(text: string, subpath: Option<string>)
    requires '#' !in text
    ensures Cut(text + SubpathText(subpath), '#') ==
              (text, match Truthy(subpath) case None => None case Some(path) => Some(Encode(JS, path)))
  {
    hide Cut, Encode;
    match Truthy(subpath) {
      case None =>
        CutAt(text, '#', "");
        assert text + "" == text;
      case Some(path) =>
        CutAt(text, '#', Encode(JS, path));
        assert text + ("#" + Encode(JS, path)) == text + ['#'] + Encode(JS, path);
    }
  }

  lemma EntriesAreSorted(p: Purl, le: Collation)
    ensures PrintedQualifiers(p, le).Some? ==>
            ParseQualifiers(PrintedQualifiers(p, le).value) == Canonical(p, le).qualifiers != None
    ensures PrintedQualifiers(p, le).None? ==> Canonical(p, le).qualifiers == None
  {
    hide JoinAll, EntryTexts, Sort, ParseQualifiers;
    if p.qualifiers.Some? { QualifiersParse(Sort(p.qualifiers.value, ByKey(le))); }
  }

  lemma PartsDecode(p: Purl)
    ensures Decode(Encode(JS, p.version)) == Some(p.version) && Decode(Encode(JS, p.name)) == Some(p.name)
    ensures DecodeOptional(match Truthy(p.namespace) case None => None
            case Some(ns) => Some(Encode(Charset(JavaScript, true), ns)))
              == Some(Truthy(p.namespace))
    ensures DecodeOptional(match Truthy(p.subpath) case None => None case Some(path) => Some(Encode(JS, path)))
            == Some(Truthy(p.subpath))
  {
    hide Encode, Decode;
    DecodeEncode(JS, p.version);
    DecodeEncode(JS, p.name);
    if Truthy(p.namespace).Some? { DecodeEncode(Charset(JavaScript, true), p.namespace.value); }
    if Truthy(p.subpath).Some? { DecodeEncode(JS, p.subpath.value); }
  }

  /** How the parser puts together what the cuts gave it. */
  lemma ParsesTo(identity: string, s1: string, subpath: Option<string>, s2: string, qualifiers: Option<string>,
      path: string, version: string, rest: string, p: Purl)
    requires "pkg:" <= identity && Cut(identity[4..], '#') == (s1, subpath) && Cut(s1, '?') == (s2, qualifiers)
    requires Cut(s2, '@') == (path, Some(version)) && Cut(path, '/') == (p.kind, Some(rest))
    requires var slash := LastIndexOf(rest, '/');
             && -1 <= slash < |rest| && Decode(rest[slash + 1..]) == Some(p.name)
             && DecodeOptional(if slash < 0 then None else Some(rest[..slash])) == Some(p.namespace)
    requires Decode(version) == Some(p.version) && DecodeOptional(subpath) == Some(p.subpath)
    requires match qualifiers case None => p.qualifiers == None
             case Some(text) => p.qualifiers.Some? && ParseQualifiers(text) == p.qualifiers
    ensures ParseIdentity(identity) == Some(p)
  {
    hide Cut, LastIndexOf, Decode, DecodeOptional, ParseQualifiers;
  }

  /** The identity after "pkg:" falls into its parts again. */
  lemma IdentityCuts(p: Purl, le: Collation)
    requires ValidKind(p.kind)
    ensures "pkg:" <= CandidateIdentity(p, le)
    ensures Cut(CandidateIdentity(p, le)[4..], '#') ==
              (VersionedText(p) + QualifierText(p.qualifiers, le),
                  match Truthy(p.subpath) case None => None case Some(text) => Some(Encode(JS, text)))
    ensures Cut(VersionedText(p) + QualifierText(p.qualifiers, le), '?') == (VersionedText(p), PrintedQualifiers(p, le))
    ensures Cut(VersionedText(p), '@') == (PathText(p), Some(Encode(JS, p.version)))
  {
    hide *;
    VersionCuts(p);
    QualifiersCut(p, le);
    SubpathCuts(VersionedText(p) + QualifierText(p.qualifiers, le), p.subpath);
    IdentityIsVersioned(p, le);
  }

  lemma PathParts(p: Purl)
    requires ValidKind(p.kind)
    ensures Cut(PathText(p), '/')
            == (Lower(p.kind), Some(NamespaceText(JavaScript, Truthy(p.namespace)) + Encode(JS, p.name)))
  {
    hide *;
    PathCuts(p);
    KindIsPlain(p.kind);
  }

  lemma NameParts(p: Purl)
    ensures var rest := NamespaceText(JavaScript, Truthy(p.namespace)) + Encode(JS, p.name);
            var slash := LastIndexOf(rest, '/');
            && -1 <= slash < |rest| && Decode(rest[slash + 1..]) == Some(p.name)
            && DecodeOptional(if slash < 0 then None else Some(rest[..slash])) == Some(Truthy(p.namespace))
  {
    hide *;
    NameCuts(p);
    PartsDecode(p);
  }

  /** The printed string determines what was printed: the parser recovers every part. */
  lemma ParseUndoesPrint(p: Purl, le: Collation)
    requires ValidKind(p.kind)
    ensures ParseIdentity(CandidateIdentity(p, le)) == Some(Canonical(p, le))
  {
    hide *;
    IdentityCuts(p, le);
    PathParts(p);
    NameParts(p);
    EntriesAreSorted(p, le);
    PartsDecode(p);
    CanonicalParts(p, le);
    ParsesTo(CandidateIdentity(p, le),
             VersionedText(p) + QualifierText(p.qualifiers, le), match Truthy(p.subpath) case None => None
             case Some(text) => Some(Encode(JS, text)), VersionedText(p), PrintedQualifiers(p, le), PathText(p),
               Encode(JS, p.version), NamespaceText(JavaScript, Truthy(p.namespace))
               + Encode(JS, p.name), Canonical(p, le));
  }

  lemma CanonicalParts(p: Purl, le: Collation)
    ensures var q := Canonical(p, le);
            q.kind == Lower(p.kind) && q.namespace == Truthy(p.namespace) && q.name == p.name && q.version ==
                p.version && q.subpath == Truthy(p.subpath)
  {
    hide Sort, Lower, Truthy;
  }

  lemma IdentityIsVersioned(p: Purl, le: Collation)
    ensures "pkg:" <= CandidateIdentity(p, le)
    ensures CandidateIdentity(p, le)[4..] == VersionedText(p) + QualifierText(p.qualifiers, le) + SubpathText(p.subpath)
  {
    hide Encode, PathText, CandidateIdentity, QualifierText, SubpathText;
    IdentityShape(p, le);
    assert CandidateIdentity(p, le)
           == "pkg:" + (VersionedText(p) + QualifierText(p.qualifiers, le) + SubpathText(p.subpath));
  }

  /** Same package: equal parts, with qualifiers in any order and an empty namespace or subpath counted as none. */
  ghost predicate SamePackage(p: Purl, q: Purl) {
    && p.kind == q.kind && p.name == q.name && p.version == q.version
    && Truthy(p.namespace) == Truthy(q.namespace) && Truthy(p.subpath) == Truthy(q.subpath)
    && match (p.qualifiers, q.qualifiers)
       case (None, None) => true
       case (Some(a), Some(b)) => multiset(a) == multiset(b)
       case _ => false
  }

  /** Under a collation that orders all keys, two PURLs share an identity exactly when they are one package. */
  lemma IdentityIsThePackage(p: Purl, q: Purl, le: Collation)
    requires TotalOrder(le) && WellFormed(p) && WellFormed(q)
    ensures CandidateIdentity(p, le) == CandidateIdentity(q, le) <==> SamePackage(p, q)
  {
    hide CandidateIdentity, ParseIdentity, Sort, Lower, ValidKind, TotalOrder;
    ParseUndoesPrint(p, le);
    ParseUndoesPrint(q, le);
    KindIsPlain(p.kind);
    KindIsPlain(q.kind);
    if p.qualifiers.Some? && q.qualifiers.Some? {
      SortedEntriesAgree(p.qualifiers.value, q.qualifiers.value, le);
    }
    if Canonical(p, le) == Canonical(q, le) { CanonicalPrints(p, q, le); }
  }

  lemma CanonicalPrints(p: Purl, q: Purl, le: Collation)
    requires Canonical(p, le) == Canonical(q, le)
    ensures CandidateIdentity(p, le) == CandidateIdentity(q, le)
  {
    hide Encode, NamespaceText, EntryTexts, JoinAll, Sort, Lower;
  }

  /** Were two different keys equal for the collation, their insertion order would show in the identity. */
  lemma TiedKeysShowTheirOrder(p: Purl, a: Qualifier, b: Qualifier, le: Collation)
    requires ValidKind(p.kind) && a.key != b.key && le(a.key, b.key) && le(b.key, a.key)
    ensures CandidateIdentity(p.(qualifiers := Some([a, b])), le) != CandidateIdentity(p.(qualifiers := Some([b, a])),
            le)
  {
    hide CandidateIdentity, ParseIdentity, Lower, ValidKind;
    ParseUndoesPrint(p.(qualifiers := Some([a, b])), le);
    ParseUndoesPrint(p.(qualifiers := Some([b, a])), le);
    TwoStay(a, b, le);
    TwoStay(b, a, le);
  }

  lemma TwoStay(a: Qualifier, b: Qualifier, le: Collation)
    requires le(a.key, b.key)
    ensures Sort([a, b], ByKey(le)) == [a, b]
  {
  }

  // ----- the two languages -----

  /** The characters PHP encodes and JavaScript does not are absent. */
  predicate Plain(s: string) {
    forall c | c in s :: !JsOnly(c)
  }

  /** What a candidate's PURL must satisfy for the service to rebuild its identity. */
  predicate Portable(p: Purl) {
    && p.qualifiers == None && Truthy(p.subpath) == None && p.namespace != Some("0")
    && Plain(p.name) && Plain(p.version) && (p.namespace.Some? ==> Plain(p.namespace.value))
  }

  /** What the service compares with: it prints no qualifiers and no subpath. */
  lemma PhpShape(p: Purl)
    ensures PhpIdentity(p) ==
              "pkg:" + Lower(p.kind) + "/"
              + (match PhpTruthy(p.namespace) case None => "" case Some(ns) => Encode(Charset(Php, true), ns) + "/")
              + Encode(Charset(Php, false), p.name) + "@" + Encode(Charset(Php, false), p.version)
  {
    hide Encode, NamespaceText, Lower;
    NamespaceIs(Php, PhpTruthy(p.namespace));
  }

  lemma JsShape(p: Purl, le: Collation)
    ensures CandidateIdentity(p, le) ==
              "pkg:" + Lower(p.kind) + "/"
              + (match Truthy(p.namespace) case None => "" case Some(ns) => Encode(Charset(JavaScript, true), ns) + "/")
              + Encode(JS, p.name) + "@" + Encode(JS, p.version)
                  + (QualifierText(p.qualifiers, le) + SubpathText(p.subpath))
  {
    hide Encode, NamespaceText, Lower, QualifierText, SubpathText;
    NamespaceIs(JavaScript, Truthy(p.namespace));
  }

  lemma PhpHasNo(p: Purl, c: char)
    requires ValidKind(p.kind) && (c == '?' || c == '#' || JsOnly(c))
    ensures c !in PhpIdentity(p)
  {
    hide Encode, PhpIdentity, Lower;
    PhpShape(p);
    KindIsPlain(p.kind);
    EncodedIsCode(Charset(Php, false), p.name);
    EncodedIsCode(Charset(Php, false), p.version);
    if PhpTruthy(p.namespace).Some? { EncodedIsCode(Charset(Php, true), p.namespace.value); }
  }

  lemma JsShows(p: Purl, le: Collation, c: char)
    requires JsOnly(c) && (c in p.name || c in p.version || (p.namespace.Some? && c in p.namespace.value))
    ensures c in CandidateIdentity(p, le)
  {
    hide Encode, CandidateIdentity, Lower, QualifierText, SubpathText;
    JsShape(p, le);
    SpecialShows(JS, p.name, c);
    SpecialShows(JS, p.version, c);
    if p.namespace.Some? { SpecialShows(Charset(JavaScript, true), p.namespace.value, c); }
  }

  lemma ExtrasShow(p: Purl, le: Collation)
    requires p.qualifiers.Some? || Truthy(p.subpath).Some?
    ensures '?' in CandidateIdentity(p, le) || '#' in CandidateIdentity(p, le)
  {
  }

  lemma PortableAgrees(p: Purl, le: Collation)
    requires Portable(p)
    ensures CandidateIdentity(p, le) == PhpIdentity(p)
  {
    hide Encode, CandidateIdentity, PhpIdentity, Lower;
    JsShape(p, le);
    PhpShape(p);
    LanguagesAgree(false, p.name);
    LanguagesAgree(false, p.version);
    if p.namespace.Some? { LanguagesAgree(true, p.namespace.value); }
    assert QualifierText(p.qualifiers, le) + SubpathText(p.subpath) == "";
  }

  /** A namespace that is the digit zero is printed by one language only. */
  lemma ZeroNamespaceDiffers(p: Purl, le: Collation)
    requires p.namespace == Some("0") && Portable(p.(namespace := None))
    ensures |CandidateIdentity(p, le)| == |PhpIdentity(p)| + 2
  {
    hide Encode, CandidateIdentity, PhpIdentity, Lower;
    JsShape(p, le);
    PhpShape(p);
    LanguagesAgree(false, p.name);
    LanguagesAgree(false, p.version);
    ZeroStays();
    assert QualifierText(p.qualifiers, le) + SubpathText(p.subpath) == "";
  }

  lemma ZeroStays()
    ensures Encode(Charset(JavaScript, true), "0") == "0"
  {
  }

  /**
   The service accepts the identity the schema package printed exactly for portable PURLs: without
   qualifiers or subpath, without the characters !*'() and with another namespace than "0".
   */
  lemma LanguagesAgreeOnPortablePurls(p: Purl, le: Collation)
    requires ValidKind(p.kind)
    ensures CandidateIdentity(p, le) == PhpIdentity(p) <==> Portable(p)
  {
    hide Encode, CandidateIdentity, PhpIdentity, Lower, ValidKind;
    if Portable(p) {
      PortableAgrees(p, le);
    } else if p.qualifiers.Some? || Truthy(p.subpath).Some? {
      ExtrasShow(p, le);
      PhpHasNo(p, '?');
      PhpHasNo(p, '#');
    } else if !Plain(p.name) {
      var c :| c in p.name && JsOnly(c);
      JsShows(p, le, c);
      PhpHasNo(p, c);
    } else if !Plain(p.version) {
      var c :| c in p.version && JsOnly(c);
      JsShows(p, le, c);
      PhpHasNo(p, c);
    } else if p.namespace.Some? && !Plain(p.namespace.value) {
      var c :| c in p.namespace.value && JsOnly(c);
      JsShows(p, le, c);
      PhpHasNo(p, c);
    } else {
      ZeroNamespaceDiffers(p, le);
    }
  }

  // ----- normalised PURLs -----

  type Trimmer = string -> string

  function TrimOptional(s: Option<string>, trim: Trimmer): Option<string> {
    match s case None => None case Some(text) => Truthy(Some(trim(text)))
  }

  /** `normalizeCandidatePurl`: what a scraped PURL becomes before its identity is printed. */
  function NormalizeCandidatePurl(p: Purl, le: Collation, trim: Trimmer): Purl {
    Purl(Lower(p.kind), TrimOptional(p.namespace, trim), trim(p.name), trim(p.version),
         match p.qualifiers case None => None case Some(entries) => Some(Sort(entries, ByKey(le))),
         TrimOptional(p.subpath, trim))
  }

  lemma LowerTwice(s: string)
    ensures Lower(Lower(s)) == Lower(s)
  {
  }

  /** The identity of a normalised PURL gives exactly that PURL back. */
  lemma NormalizedIsRecovered(p: Purl, le: Collation, trim: Trimmer)
    requires TotalOrder(le) && ValidKind(Lower(p.kind))
    ensures var q := NormalizeCandidatePurl(p, le, trim); ParseIdentity(CandidateIdentity(q, le)) == Some(q)
  {
    hide *;
    var q := NormalizeCandidatePurl(p, le, trim);
    NormalizedIsCanonical(p, le, trim);
    ParseUndoesPrint(q, le);
  }

  lemma NormalizedIsCanonical(p: Purl, le: Collation, trim: Trimmer)
    requires TotalOrder(le) && ValidKind(Lower(p.kind))
    ensures var q := NormalizeCandidatePurl(p, le, trim); ValidKind(q.kind) && Canonical(q, le) == q
  {
    hide Sort, ByKey, Lower, TotalOrder;
    LowerTwice(p.kind);
    if p.qualifiers.Some? {
      ByKeyIsPreorder<string, string>(le);
      SortIsSorted(p.qualifiers.value, ByKey(le));
      SortOfSorted(Sort(p.qualifiers.value, ByKey(le)), ByKey(le));
    }
  }
}
