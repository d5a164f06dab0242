/**
 * `FhirPackage.Load`: reads one FHIR package (a gzipped tar archive), takes
 * name, version, description, FHIR versions and dependencies from its
 * `package/package.json` manifest and turns every other `.json` entry of the
 * `package` directory into a resource proxy.
 *
 * `Run` is the specification of the entry loop, one `Step` per entry; the
 * class `FhirPackage` and its `Load` method are proved against it.
 */
module FhirPackages {
  import opened Wrappers
  import opened Text
  import opened Paths
  import opened ResourceProxies

  /**
   * A `System.Text.Json` node as the manifest code sees it. `text` is what
   * `ToString()` renders; an array carries the renderings of its elements and
   * an object those of its members (each a `KeyValuePair`).
   */
  datatype JsonNode =
    | JNull
    | JValue(text: string)
    | JArray(text: string, items: seq<string>)
    | JObject(text: string, members: seq<string>)

  type JsonObject = map<string, JsonNode>

  /** `JsonNode.Parse(...).AsObject()`: `None` when the text is not a JSON object. */
  type ManifestParser = Bytes -> Option<JsonObject>

  /** One tar entry: its key (path), whether it is a directory, and its bytes. */
  datatype Entry = Entry(key: string, isDirectory: bool, data: Bytes)

  datatype Archive = Archive(isTar: bool, entries: seq<Entry>)

  /** The exceptions that escape `Load`. */
  datatype LoadError =
    | NotSupported            // the archive is not a tar file
    | NullDirectoryName       // `Path.GetDirectoryName` gave null for a file entry
    | MalformedManifest       // package.json is not a JSON object
    | NotAnArray(key: string) // `AsArray()` on a node that is not an array
    | NotAnObject(key: string)// `AsObject()` on a node that is not an object

  /** The public properties of a `FhirPackage`. */
  datatype Package = Package(
    name: string,
    version: string,
    description: string,
    fhirVersions: seq<string>,
    dependencies: seq<string>,
    resourceProxies: seq<ResourceProxy>)

  /** The property initialisers: empty strings and empty lists. */
  const EmptyPackage := Package("", "", "", [], [], [])

  const PackageDirectory := "package"
  const IndexFile := ".index.json"
  const ManifestFile := "package.json"

  /** The branches of the entry loop. */
  datatype EntryKind = Skipped | Manifest | Definition | Ignored | Faulty

  /** Which branch of the loop body an entry takes. */
  function Classify(e: Entry): EntryKind {
    if e.isDirectory then Skipped
    else match DirectoryName(e.key)
      case None => Faulty
      case Some(dir) =>
        if !EqualsIgnoreCase(dir, PackageDirectory) || EqualsIgnoreCase(FileName(e.key), IndexFile) then Skipped
        else if EqualsIgnoreCase(FileName(e.key), ManifestFile) then Manifest
        else if EqualsIgnoreCase(Extension(e.key), JsonExtension) then Definition
        else Ignored
  }

  /** A file directly inside `package/` (any case) that is not `.index.json`. */
  predicate Eligible(e: Entry) {
    && !e.isDirectory
    && DirectoryName(e.key).Some?
    && EqualsIgnoreCase(DirectoryName(e.key).value, PackageDirectory)
    && !EqualsIgnoreCase(FileName(e.key), IndexFile)
  }

  predicate IsManifestEntry(e: Entry) {
    Eligible(e) && EqualsIgnoreCase(FileName(e.key), ManifestFile)
  }

  predicate IsDefinitionEntry(e: Entry) {
    Eligible(e) && !EqualsIgnoreCase(FileName(e.key), ManifestFile) && EqualsIgnoreCase(Extension(e.key), JsonExtension)
  }

  /** The branch taken agrees with the entry's declarative description. */
  lemma ClassifyMeaning(e: Entry)
    ensures Classify(e) == Faulty <==> !e.isDirectory && DirectoryName(e.key).None?
    ensures Classify(e) == Skipped <==>
              e.isDirectory
              || (DirectoryName(e.key).Some? && !EqualsIgnoreCase(DirectoryName(e.key).value, PackageDirectory))
              || (DirectoryName(e.key).Some? && EqualsIgnoreCase(FileName(e.key), IndexFile))
    ensures Classify(e) == Manifest <==> IsManifestEntry(e)
    ensures Classify(e) == Definition <==> IsDefinitionEntry(e)
  {
  }

  // ---------------------------------------------------------------------
  // The manifest

  /** `obj[key]`: `None` for a missing key and for JSON `null`. */
  function Field(obj: JsonObject, key: string): (n: Option<JsonNode>)
    ensures n.Some? ==> key in obj && n.value == obj[key] && n.value != JNull
    ensures n.None? ==> key !in obj || obj[key] == JNull
  {
    if key in obj && obj[key] != JNull then Some(obj[key]) else None
  }

  /** `obj[key]?.ToString() ?? String.Empty`. */
  function TextField(obj: JsonObject, key: string): string {
    match Field(obj, key)
    case Some(node) => node.text
    case None => ""
  }

  /** `node?.AsArray()` on a present node. */
  function AsArray(key: string, node: JsonNode): Result<seq<string>, LoadError> {
    if node.JArray? then Success(node.items) else Failure(NotAnArray(key))
  }

  /** `obj["fhirVersions"]?.AsArray() ?? obj["fhir-version-list"]?.AsArray()`, an absent list read as empty. */
  function FhirVersionsOf(obj: JsonObject): (r: Result<seq<string>, LoadError>)
    ensures Field(obj, "fhirVersions").Some? ==> r == AsArray("fhirVersions", obj["fhirVersions"])
    ensures Field(obj, "fhirVersions").None? && Field(obj, "fhir-version-list").Some? ==>
              r == AsArray("fhir-version-list", obj["fhir-version-list"])
    ensures Field(obj, "fhirVersions").None? && Field(obj, "fhir-version-list").None? ==> r == Success([])
  {
    match Field(obj, "fhirVersions")
    case Some(node) => AsArray("fhirVersions", node)
    case None =>
      match Field(obj, "fhir-version-list")
      case Some(node) => AsArray("fhir-version-list", node)
      case None => Success([])
  }

  /** `obj["dependencies"]?.AsObject()`: the rendered members, an absent object read as none. */
  function DependencyMembers(obj: JsonObject): (r: Result<seq<string>, LoadError>)
    ensures Field(obj, "dependencies").None? ==> r == Success([])
    ensures r.Success? && Field(obj, "dependencies").Some? ==> obj["dependencies"] == JObject(obj["dependencies"].text, r.value)
    ensures r.Failure? ==> r.error == NotAnObject("dependencies") && !obj["dependencies"].JObject?
  {
    match Field(obj, "dependencies")
    case Some(node) => if node.JObject? then Success(node.members) else Failure(NotAnObject("dependencies"))
    case None => Success([])
  }

  /** `s.Replace(c, "")`. */
  function RemoveChar(s: string, c: char): (r: string)
    ensures c !in r
    ensures forall x :: x != c ==> (x in r <==> x in s)
    decreases |s|
  {
    if |s| == 0 then ""
    else
      var rest := RemoveChar(s[1..], c);
      assert forall x :: x in s <==> x == s[0] || x in s[1..] by { assert s == [s[0]] + s[1..]; }
      (if s[0] == c then "" else [s[0]]) + rest
  }

  /** `s.Replace(c, d)` for single characters. */
  function ReplaceChar(s: string, c: char, d: char): (r: string)
    ensures |r| == |s|
    ensures forall i :: 0 <= i < |s| ==> r[i] == if s[i] == c then d else s[i]
  {
    seq(|s|, i requires 0 <= i < |s| => if s[i] == c then d else s[i])
  }

  /** `dependency.ToString().Replace("\"", "").Replace(":", "|").Replace(" ", "")`. */
  function RewriteDependency(rendered: string): string {
    RemoveChar(ReplaceChar(RemoveChar(rendered, '"'), ':', '|'), ' ')
  }

  /**
   * A rewritten dependency holds no quote, colon or space; it holds a `|`
   * exactly when the rendering held a `|` or a `:`, and every other
   * character of the rendering survives.
   */
  lemma {:induction false} RewriteDependencyMeaning(rendered: string)
    ensures var r := RewriteDependency(rendered);
      && '"' !in r && ':' !in r && ' ' !in r
      && ('|' in r <==> '|' in rendered || ':' in rendered)
      && forall x :: x != '"' && x != ':' && x != ' ' && x != '|' ==> (x in r <==> x in rendered)
  {
    var a := RemoveChar(rendered, '"');
    var b := ReplaceChar(a, ':', '|');
    var r := RemoveChar(b, ' ');
    assert ':' !in b by {
      forall i | 0 <= i < |b| ensures b[i] != ':' { }
    }
    assert forall x :: x != ':' && x != '|' ==> (x in b <==> x in a) by {
      forall x | x != ':' && x != '|' ensures x in b <==> x in a {
        if x in a {
          var i :| 0 <= i < |a| && a[i] == x;
          assert b[i] == x;
        }
      }
    }
    assert '|' in b <==> '|' in a || ':' in a by {
      if '|' in a {
        var i :| 0 <= i < |a| && a[i] == '|';
        assert b[i] == '|';
      } else if ':' in a {
        var i :| 0 <= i < |a| && a[i] == ':';
        assert b[i] == '|';
      }
    }
    assert '"' !in b by {
      forall i | 0 <= i < |b| ensures b[i] != '"' { assert a[i] != '"'; }
    }
  }

  lemma {:induction false} RemoveCharAppend(a: string, b: string, c: char)
    ensures RemoveChar(a + b, c) == RemoveChar(a, c) + RemoveChar(b, c)
    decreases |a|
  {
    if |a| > 0 {
      assert (a + b)[1..] == a[1..] + b;
      RemoveCharAppend(a[1..], b, c);
    } else {
      assert a + b == b;
    }
  }

  lemma RemoveCharAbsent(s: string, c: char)
    requires c !in s
    ensures RemoveChar(s, c) == s
    decreases |s|
  {
    if |s| > 0 {
      assert c !in s[1..];
      RemoveCharAbsent(s[1..], c);
      assert [s[0]] + s[1..] == s;
    }
  }

  /** The rewrite works character by character. */
  lemma RewriteDependencyAppend(a: string, b: string)
    ensures RewriteDependency(a + b) == RewriteDependency(a) + RewriteDependency(b)
  {
    RemoveCharAppend(a, b, '"');
    var a1, b1 := RemoveChar(a, '"'), RemoveChar(b, '"');
    assert ReplaceChar(a1 + b1, ':', '|') == ReplaceChar(a1, ':', '|') + ReplaceChar(b1, ':', '|');
    RemoveCharAppend(ReplaceChar(a1, ':', '|'), ReplaceChar(b1, ':', '|'), ' ');
  }

  /** A piece without quote, colon or space is kept as it is. */
  lemma RewriteDependencyPlain(s: string)
    requires '"' !in s && ':' !in s && ' ' !in s
    ensures RewriteDependency(s) == s
  {
    RemoveCharAbsent(s, '"');
    assert ReplaceChar(s, ':', '|') == s;
    RemoveCharAbsent(s, ' ');
  }

  lemma RewriteDependencyChar(c: char)
    ensures RewriteDependency([c]) ==
      if c == '"' || c == ' ' then "" else if c == ':' then "|" else [c]
  {
    assert [c][1..] == "";
    if c != '"' {
      RemoveCharAbsent([c], '"');
      var d := if c == ':' then '|' else c;
      assert ReplaceChar([c], ':', '|') == [d];
      assert [d][1..] == "";
      if d != ' ' {
        RemoveCharAbsent([d], ' ');
      } else {
        assert RemoveChar([d], ' ') == RemoveChar([d][1..], ' ');
      }
      assert RewriteDependency([c]) == RemoveChar([d], ' ');
    } else {
      assert RemoveChar([c], '"') == RemoveChar([c][1..], '"') == "";
      assert ReplaceChar("", ':', '|') == "";
    }
  }

  /**
   * The JSON text `"name": "constraint"` of one dependency becomes
   * `name|constraint`. This is what a raw JSON pair would rewrite to; the
   * code never renders a dependency this way (see `RewriteOfKeyValuePair`).
   */
  lemma RewriteOfJsonPair(name: string, constraint: string)
    requires '"' !in name && ':' !in name && ' ' !in name
    requires '"' !in constraint && ':' !in constraint && ' ' !in constraint
    ensures RewriteDependency("\"" + name + "\"" + ":" + " " + "\"" + constraint + "\"") == name + "|" + constraint
  {
    var q, colon, sp := "\"", ":", " ";
    RewriteDependencyChar('"');
    RewriteDependencyChar(':');
    RewriteDependencyChar(' ');
    assert RewriteDependency(q) == "" && RewriteDependency(sp) == "" && RewriteDependency(colon) == "|";
    RewriteDependencyPlain(name);
    RewriteDependencyPlain(constraint);
    var s1 := q + name;
    RewriteDependencyAppend(q, name);
    assert RewriteDependency(s1) == name;
    var s2 := s1 + q;
    RewriteDependencyAppend(s1, q);
    assert RewriteDependency(s2) == name;
    var s3 := s2 + colon;
    RewriteDependencyAppend(s2, colon);
    assert RewriteDependency(s3) == name + "|";
    var s4 := s3 + sp;
    RewriteDependencyAppend(s3, sp);
    assert RewriteDependency(s4) == name + "|";
    var s5 := s4 + q;
    RewriteDependencyAppend(s4, q);
    assert RewriteDependency(s5) == name + "|";
    var s6 := s5 + constraint;
    RewriteDependencyAppend(s5, constraint);
    assert RewriteDependency(s6) == name + "|" + constraint;
    var s7 := s6 + q;
    RewriteDependencyAppend(s6, q);
    assert RewriteDependency(s7) == name + "|" + constraint;
  }

  /** The key half `[name, ` of a `KeyValuePair` rendering loses its space. */
  lemma RewriteOfKeyPart(name: string)
    requires '"' !in name && ':' !in name && ' ' !in name
    ensures RewriteDependency("[" + name + "," + " ") == "[" + name + ","
  {
    var open, comma, sp := "[", ",", " ";
    RewriteDependencyChar('[');
    RewriteDependencyChar(',');
    RewriteDependencyChar(' ');
    RewriteDependencyPlain(name);
    var s1 := open + name;
    RewriteDependencyAppend(open, name);
    assert RewriteDependency(s1) == open + name;
    var s2 := s1 + comma;
    RewriteDependencyAppend(s1, comma);
    assert RewriteDependency(s2) == s1 + comma;
    RewriteDependencyAppend(s2, sp);
  }

  /**
   * The `KeyValuePair` rendering `[name, constraint]` only loses its space:
   * the result is `[name,constraint]`, without a `|`.
   */
  lemma RewriteOfKeyValuePair(name: string, constraint: string)
    requires '"' !in name && ':' !in name && ' ' !in name && '|' !in name
    requires '"' !in constraint && ':' !in constraint && ' ' !in constraint && '|' !in constraint
    ensures RewriteDependency("[" + name + "," + " " + constraint + "]") == "[" + name + "," + constraint + "]"
    ensures '|' !in RewriteDependency("[" + name + "," + " " + constraint + "]")
  {
    var key := "[" + name + "," + " ";
    RewriteOfKeyPart(name);
    RewriteDependencyPlain(constraint);
    RewriteDependencyChar(']');
    RewriteDependencyAppend(key, constraint);
    var s4 := key + constraint;
    assert RewriteDependency(s4) == "[" + name + "," + constraint;
    RewriteDependencyAppend(s4, "]");
    NoPipeInKeyValuePair(name, constraint);
  }

  lemma NoPipeInKeyValuePair(name: string, constraint: string)
    requires '|' !in name && '|' !in constraint
    ensures '|' !in "[" + name + "," + constraint + "]"
  {
    var r := "[" + name + "," + constraint + "]";
    forall k | 0 <= k < |r| ensures r[k] != '|' {
      if 1 <= k <= |name| {
        assert r[k] == name[k - 1];
      } else if |name| + 2 <= k < |name| + 2 + |constraint| {
        assert r[k] == constraint[k - |name| - 2];
      }
    }
  }

  /** A rendering without `:` or `|`, such as a `KeyValuePair`'s `[name, constraint]`, gains no `|`. */
  lemma RewriteWithoutColon(rendered: string)
    requires ':' !in rendered && '|' !in rendered
    ensures '|' !in RewriteDependency(rendered)
  {
    RewriteDependencyMeaning(rendered);
  }

  function RewriteAll(members: seq<string>): (r: seq<string>)
    ensures |r| == |members|
    ensures forall i :: 0 <= i < |members| ==> r[i] == RewriteDependency(members[i])
  {
    seq(|members|, i requires 0 <= i < |members| => RewriteDependency(members[i]))
  }

  /** What reading one manifest does to the package built so far. */
  function ApplyManifest(pkg: Package, obj: JsonObject): Result<Package, LoadError> {
    match FhirVersionsOf(obj)
    case Failure(e) => Failure(e)
    case Success(versions) =>
      match DependencyMembers(obj)
      case Failure(e) => Failure(e)
      case Success(members) =>
        Success(pkg.(
          name := TextField(obj, "name"),
          version := TextField(obj, "version"),
          description := TextField(obj, "description"),
          fhirVersions := pkg.fhirVersions + versions,
          dependencies := pkg.dependencies + RewriteAll(members)))
  }

  /**
   * Reading a manifest sets name, version and description from their fields
   * ("" when absent), appends the FHIR versions (primary key first, legacy key
   * only when the primary is absent) and the rewritten dependencies, and keeps
   * the proxies.
   */
  lemma ManifestFields(pkg: Package, obj: JsonObject)
    requires ApplyManifest(pkg, obj).Success?
    ensures var p := ApplyManifest(pkg, obj).value;
      && (p.name == if "name" in obj && obj["name"] != JNull then obj["name"].text else "")
      && (p.version == if "version" in obj && obj["version"] != JNull then obj["version"].text else "")
      && (p.description == if "description" in obj && obj["description"] != JNull then obj["description"].text else "")
      && (p.fhirVersions ==
            if "fhirVersions" in obj && obj["fhirVersions"] != JNull then pkg.fhirVersions + obj["fhirVersions"].items
            else if "fhir-version-list" in obj && obj["fhir-version-list"] != JNull then pkg.fhirVersions + obj["fhir-version-list"].items
            else pkg.fhirVersions)
      && (p.dependencies ==
            if "dependencies" in obj && obj["dependencies"] != JNull then pkg.dependencies + RewriteAll(obj["dependencies"].members)
            else pkg.dependencies)
      && (forall i :: |pkg.dependencies| <= i < |p.dependencies| ==> '"' !in p.dependencies[i] && ':' !in p.dependencies[i] && ' ' !in p.dependencies[i])
      && p.resourceProxies == pkg.resourceProxies
  {
    var members := DependencyMembers(obj).value;
    var p := ApplyManifest(pkg, obj).value;
    assert p.dependencies == pkg.dependencies + RewriteAll(members);
    forall i | |pkg.dependencies| <= i < |p.dependencies|
      ensures '"' !in p.dependencies[i] && ':' !in p.dependencies[i] && ' ' !in p.dependencies[i]
    {
      RewriteDependencyMeaning(members[i - |pkg.dependencies|]);
    }
  }

  // ---------------------------------------------------------------------
  // The entry loop

  /** One pass of the `while (MoveToNextEntry())` body. */
  function Step(pkg: Package, e: Entry, parsers: Parsers, manifestParser: ManifestParser): Result<Package, LoadError> {
    match Classify(e)
    case Skipped => Success(pkg)
    case Ignored => Success(pkg)
    case Faulty => Failure(NullDirectoryName)
    case Manifest =>
      (match manifestParser(e.data)
       case None => Failure(MalformedManifest)
       case Some(obj) => ApplyManifest(pkg, obj))
    case Definition =>
      match Create(e.key, e.data, parsers)
      case Some(p) => Success(pkg.(resourceProxies := pkg.resourceProxies + [p]))
      case None => Success(pkg)
  }

  /** The package after the given entries, in order, starting from the property initialisers. */
  function Run(entries: seq<Entry>, parsers: Parsers, manifestParser: ManifestParser): Result<Package, LoadError>
    decreases |entries|
  {
    if |entries| == 0 then Success(EmptyPackage)
    else
      match Run(entries[..|entries| - 1], parsers, manifestParser)
      case Failure(e) => Failure(e)
      case Success(pkg) => Step(pkg, entries[|entries| - 1], parsers, manifestParser)
  }

  /** `FhirPackage.Load` as a value: a non-tar archive is refused before any entry is read. */
  function Loaded(archive: Archive, parsers: Parsers, manifestParser: ManifestParser): (r: Result<Package, LoadError>)
    ensures !archive.isTar ==> r == Failure(NotSupported)
    ensures archive.isTar ==> r == Run(archive.entries, parsers, manifestParser)
  {
    if !archive.isTar then Failure(NotSupported) else Run(archive.entries, parsers, manifestParser)
  }

  /** An exception ends the loop: once a prefix fails, the whole run fails the same way. */
  lemma {:induction false} RunFailurePersists(entries: seq<Entry>, n: nat, parsers: Parsers, manifestParser: ManifestParser)
    requires n <= |entries|
    requires Run(entries[..n], parsers, manifestParser).Failure?
    ensures Run(entries, parsers, manifestParser) == Run(entries[..n], parsers, manifestParser)
    decreases |entries| - n
  {
    if n < |entries| {
      var front := entries[..|entries| - 1];
      assert front[..n] == entries[..n];
      RunFailurePersists(front, n, parsers, manifestParser);
    } else {
      assert entries[..n] == entries;
    }
  }

  /** The proxy one entry contributes, stated without the loop's branch order. */
  function Contribution(e: Entry, parsers: Parsers): seq<ResourceProxy> {
    if IsDefinitionEntry(e) && Create(e.key, e.data, parsers).Some? then [Create(e.key, e.data, parsers).value] else []
  }

  /** The contributions `f` assigns to the entries, concatenated in order. */
  function Gather(entries: seq<Entry>, f: Entry -> seq<ResourceProxy>): seq<ResourceProxy>
    decreases |entries|
  {
    if |entries| == 0 then [] else f(entries[0]) + Gather(entries[1..], f)
  }

  lemma {:induction false} GatherAppend(entries: seq<Entry>, e: Entry, f: Entry -> seq<ResourceProxy>)
    ensures Gather(entries + [e], f) == Gather(entries, f) + f(e)
    decreases |entries|
  {
    if |entries| == 0 {
      assert [e][1..] == [];
    } else {
      assert (entries + [e])[1..] == entries[1..] + [e];
      GatherAppend(entries[1..], e, f);
    }
  }

  lemma GatherLast(entries: seq<Entry>, f: Entry -> seq<ResourceProxy>)
    requires |entries| > 0
    ensures Gather(entries, f) == Gather(entries[..|entries| - 1], f) + f(entries[|entries| - 1])
  {
    GatherAppend(entries[..|entries| - 1], entries[|entries| - 1], f);
    assert entries[..|entries| - 1] + [entries[|entries| - 1]] == entries;
  }

  function ContributionOf(parsers: Parsers): Entry -> seq<ResourceProxy> {
    e => Contribution(e, parsers)
  }

  /** Reference definition of the harvested proxies: each entry's contribution, in archive order. */
  function Harvest(entries: seq<Entry>, parsers: Parsers): seq<ResourceProxy> {
    Gather(entries, ContributionOf(parsers))
  }

  lemma HarvestAppend(entries: seq<Entry>, e: Entry, parsers: Parsers)
    ensures Harvest(entries + [e], parsers) == Harvest(entries, parsers) + Contribution(e, parsers)
  {
    GatherAppend(entries, e, ContributionOf(parsers));
  }

  /** The harvest of a non-empty sequence ends with the contribution of its last entry. */
  lemma HarvestLast(entries: seq<Entry>, parsers: Parsers)
    requires |entries| > 0
    ensures Harvest(entries, parsers)
            == Harvest(entries[..|entries| - 1], parsers) + Contribution(entries[|entries| - 1], parsers)
  {
    var f := ContributionOf(parsers);
    GatherLast(entries, f);
    assert f(entries[|entries| - 1]) == Contribution(entries[|entries| - 1], parsers);
  }

  /** One step adds the entry's contribution to the proxies. */
  lemma StepProxies(pkg: Package, e: Entry, parsers: Parsers, manifestParser: ManifestParser)
    requires Step(pkg, e, parsers, manifestParser).Success?
    ensures Step(pkg, e, parsers, manifestParser).value.resourceProxies == pkg.resourceProxies + Contribution(e, parsers)
  {
    ClassifyMeaning(e);
  }

  /** The last entry of a successful run adds its contribution to the proxies of the run before it. */
  lemma RunLastProxies(entries: seq<Entry>, parsers: Parsers, manifestParser: ManifestParser)
    requires |entries| > 0 && Run(entries, parsers, manifestParser).Success?
    ensures Run(entries[..|entries| - 1], parsers, manifestParser).Success?
    ensures Run(entries, parsers, manifestParser).value.resourceProxies
            == Run(entries[..|entries| - 1], parsers, manifestParser).value.resourceProxies
               + Contribution(entries[|entries| - 1], parsers)
  {
    var pkg := Run(entries[..|entries| - 1], parsers, manifestParser).value;
    StepProxies(pkg, entries[|entries| - 1], parsers, manifestParser);
  }

  /**
   * The manifest never becomes a proxy; every other eligible `.json` entry
   * contributes exactly its `Create` result when that is not null, in archive order.
   */
  lemma {:induction false} RunHarvestsDefinitions(entries: seq<Entry>, parsers: Parsers, manifestParser: ManifestParser)
    requires Run(entries, parsers, manifestParser).Success?
    ensures Run(entries, parsers, manifestParser).value.resourceProxies == Harvest(entries, parsers)
    decreases |entries|
  {
    if |entries| > 0 {
      RunLastProxies(entries, parsers, manifestParser);
      RunHarvestsDefinitions(entries[..|entries| - 1], parsers, manifestParser);
      HarvestLast(entries, parsers);
    }
  }

  /** The number of eligible `.json` entries other than the manifest. */
  function DefinitionCount(entries: seq<Entry>): nat
    decreases |entries|
  {
    if |entries| == 0 then 0 else (if IsDefinitionEntry(entries[0]) then 1 else 0) + DefinitionCount(entries[1..])
  }

  lemma {:induction false} HarvestBound(entries: seq<Entry>, parsers: Parsers)
    ensures |Harvest(entries, parsers)| <= DefinitionCount(entries)
    decreases |entries|
  {
    if |entries| > 0 {
      HarvestBound(entries[1..], parsers);
    }
  }

  /** A package never holds more proxies than it has eligible non-manifest `.json` entries. */
  lemma ProxyCountBound(archive: Archive, parsers: Parsers, manifestParser: ManifestParser)
    requires Loaded(archive, parsers, manifestParser).Success?
    ensures |Loaded(archive, parsers, manifestParser).value.resourceProxies| <= DefinitionCount(archive.entries)
  {
    RunHarvestsDefinitions(archive.entries, parsers, manifestParser);
    HarvestBound(archive.entries, parsers);
  }

  /** What every loaded package satisfies: its proxies are identified and its dependencies rewritten. */
  predicate WellFormed(pkg: Package) {
    && (forall i :: 0 <= i < |pkg.resourceProxies| ==> Identified(pkg.resourceProxies[i]))
    && (forall i :: 0 <= i < |pkg.dependencies| ==>
          '"' !in pkg.dependencies[i] && ':' !in pkg.dependencies[i] && ' ' !in pkg.dependencies[i])
  }

  /** The manifest branch: the parsed object is applied to the package. */
  lemma StepManifest(pkg: Package, e: Entry, obj: JsonObject, parsers: Parsers, manifestParser: ManifestParser)
    requires Classify(e) == Manifest && manifestParser(e.data) == Some(obj)
    ensures Step(pkg, e, parsers, manifestParser) == ApplyManifest(pkg, obj)
  {
  }

  /** The definition branch: the proxy `Create` returns, if any, is appended. */
  lemma StepDefinition(pkg: Package, e: Entry, parsers: Parsers, manifestParser: ManifestParser)
    requires Classify(e) == Definition
    ensures Create(e.key, e.data, parsers).Some? ==>
              Step(pkg, e, parsers, manifestParser)
              == Success(pkg.(resourceProxies := pkg.resourceProxies + [Create(e.key, e.data, parsers).value]))
    ensures Create(e.key, e.data, parsers).None? ==> Step(pkg, e, parsers, manifestParser) == Success(pkg)
  {
  }

  /** Reading a manifest keeps the package well formed: the new dependencies are rewritten ones. */
  lemma ManifestStepWellFormed(pkg: Package, obj: JsonObject)
    requires WellFormed(pkg) && ApplyManifest(pkg, obj).Success?
    ensures WellFormed(ApplyManifest(pkg, obj).value)
  {
    ManifestFields(pkg, obj);
  }

  /** Appending a proxy from `Create` keeps the package well formed. */
  lemma DefinitionStepWellFormed(pkg: Package, e: Entry, parsers: Parsers, manifestParser: ManifestParser)
    requires WellFormed(pkg) && Classify(e) == Definition
    ensures WellFormed(Step(pkg, e, parsers, manifestParser).value)
  {
    StepDefinition(pkg, e, parsers, manifestParser);
  }

  /** One step keeps the package well formed. */
  lemma StepWellFormed(pkg: Package, e: Entry, parsers: Parsers, manifestParser: ManifestParser)
    requires WellFormed(pkg) && Step(pkg, e, parsers, manifestParser).Success?
    ensures WellFormed(Step(pkg, e, parsers, manifestParser).value)
  {
    match Classify(e) {
      case Manifest =>
        var obj := manifestParser(e.data).value;
        StepManifest(pkg, e, obj, parsers, manifestParser);
        ManifestStepWellFormed(pkg, obj);
      case Definition =>
        DefinitionStepWellFormed(pkg, e, parsers, manifestParser);
      case _ =>
    }
  }

  lemma {:induction false} RunWellFormed(entries: seq<Entry>, parsers: Parsers, manifestParser: ManifestParser)
    requires Run(entries, parsers, manifestParser).Success?
    ensures WellFormed(Run(entries, parsers, manifestParser).value)
    decreases |entries|
  {
    if |entries| > 0 {
      var front := entries[..|entries| - 1];
      var e := entries[|entries| - 1];
      RunWellFormed(front, parsers, manifestParser);
      StepWellFormed(Run(front, parsers, manifestParser).value, e, parsers, manifestParser);
    }
  }

  /** Every proxy of a loaded package has a non-blank url read from its resource. */
  lemma LoadedWellFormed(archive: Archive, parsers: Parsers, manifestParser: ManifestParser)
    requires Loaded(archive, parsers, manifestParser).Success?
    ensures WellFormed(Loaded(archive, parsers, manifestParser).value)
  {
    RunWellFormed(archive.entries, parsers, manifestParser);
  }

  /**
   * Without a manifest the metadata keep their initial values while proxies are
   * still harvested; the only way to fail is then a file entry without a
   * directory name.
   */
  lemma StepWithoutManifest(pkg: Package, e: Entry, parsers: Parsers, manifestParser: ManifestParser)
    requires !IsManifestEntry(e) && (e.isDirectory || DirectoryName(e.key).Some?)
    ensures Step(pkg, e, parsers, manifestParser) == Success(pkg.(resourceProxies := pkg.resourceProxies + Contribution(e, parsers)))
  {
    ClassifyMeaning(e);
    assert pkg.resourceProxies + [] == pkg.resourceProxies;
  }

  lemma {:induction false} RunWithoutManifest(entries: seq<Entry>, parsers: Parsers, manifestParser: ManifestParser)
    requires forall i :: 0 <= i < |entries| ==> !IsManifestEntry(entries[i])
    requires forall i :: 0 <= i < |entries| ==> entries[i].isDirectory || DirectoryName(entries[i].key).Some?
    ensures Run(entries, parsers, manifestParser) == Success(EmptyPackage.(resourceProxies := Harvest(entries, parsers)))
    decreases |entries|
  {
    if |entries| > 0 {
      var front := entries[..|entries| - 1];
      var e := entries[|entries| - 1];
      RunWithoutManifest(front, parsers, manifestParser);
      StepWithoutManifest(Run(front, parsers, manifestParser).value, e, parsers, manifestParser);
      HarvestAppend(front, e, parsers);
      assert front + [e] == entries;
    }
  }

  /** `package/package.json` is the manifest entry. */
  lemma ManifestEntryClassified(data: Bytes)
    ensures Classify(Entry(PackageDirectory + [Separator] + ManifestFile, false, data)) == Manifest
  {
    EntryInDirectory(PackageDirectory, ManifestFile);
    ClassifyInPackage(Entry(PackageDirectory + [Separator] + ManifestFile, false, data));
    assert !EqualsIgnoreCase(ManifestFile, IndexFile) by { assert |ManifestFile| != |IndexFile|; }
    assert EqualsIgnoreCase(ManifestFile, ManifestFile);
  }

  /** An entry directly inside `package/` is classified by its file name and extension alone. */
  lemma ClassifyInPackage(e: Entry)
    requires !e.isDirectory && DirectoryName(e.key) == Some(PackageDirectory)
    ensures Classify(e) ==
      if EqualsIgnoreCase(FileName(e.key), IndexFile) then Skipped
      else if EqualsIgnoreCase(FileName(e.key), ManifestFile) then Manifest
      else if EqualsIgnoreCase(Extension(e.key), JsonExtension) then Definition
      else Ignored
  {
    assert EqualsIgnoreCase(PackageDirectory, PackageDirectory);
  }

  /** A `.json` file directly inside `package/` other than the manifest and the index is a definition. */
  lemma DefinitionEntryClassified(name: string, data: Bytes)
    requires Separator !in name
    requires !EqualsIgnoreCase(name, ManifestFile) && !EqualsIgnoreCase(name, IndexFile)
    requires EqualsIgnoreCase(Paths.Extension(name), JsonExtension)
    ensures Classify(Entry(PackageDirectory + [Separator] + name, false, data)) == Definition
  {
    var key := PackageDirectory + [Separator] + name;
    EntryInDirectory(PackageDirectory, name);
    JsonMemberInPackage(name);
    ClassifyInPackage(Entry(key, false, data));
    assert FileName(key) == name;
    assert EqualsIgnoreCase(Extension(key), JsonExtension);
  }

  /** An entry under `package/` is read as JSON exactly when its file name is. */
  lemma JsonMemberInPackage(name: string)
    requires Separator !in name
    ensures IsJsonMember(PackageDirectory + [Separator] + name) == IsJsonMember(name)
  {
    EntryInDirectory(PackageDirectory, name);
    assert Paths.FileName(name) == name by {
      assert Paths.LastIndexOf(name, Separator) == -1;
    }
    Paths.ExtensionOfFileName(PackageDirectory + [Separator] + name, name);
  }

  /** The demo manifest: name `demo`, version `1.0.0` and one dependency. */
  function DemoManifest(member: string): JsonObject {
    map["name" := JValue("demo"), "version" := JValue("1.0.0"), "dependencies" := JObject("{}", [member])]
  }

  lemma DemoManifestApplied(member: string)
    ensures ApplyManifest(EmptyPackage, DemoManifest(member))
         == Success(Package("demo", "1.0.0", "", [], [RewriteDependency(member)], []))
  {
    var obj := DemoManifest(member);
    assert Field(obj, "fhirVersions") == None;
    assert Field(obj, "fhir-version-list") == None;
    assert Field(obj, "description") == None;
    assert Field(obj, "dependencies") == Some(JObject("{}", [member]));
    assert DependencyMembers(obj) == Success([member]);
    assert RewriteAll([member]) == [RewriteDependency(member)];
    assert TextField(obj, "name") == "demo";
    assert TextField(obj, "version") == "1.0.0";
    assert TextField(obj, "description") == "";
    assert FhirVersionsOf(obj) == Success([]);
    assert EmptyPackage.fhirVersions + [] == [];
    assert EmptyPackage.dependencies + [RewriteDependency(member)] == [RewriteDependency(member)];
  }

  /** Three entries run in order: each step starts from the package the previous one produced. */
  lemma RunOfThree(e0: Entry, e1: Entry, e2: Entry, p0: Package, p1: Package,
                   parsers: Parsers, manifestParser: ManifestParser)
    requires Step(EmptyPackage, e0, parsers, manifestParser) == Success(p0)
    requires Step(p0, e1, parsers, manifestParser) == Success(p1)
    ensures Run([e0, e1, e2], parsers, manifestParser) == Step(p1, e2, parsers, manifestParser)
  {
    assert [e0][..0] == [];
    assert Run([e0], parsers, manifestParser) == Success(p0);
    assert [e0, e1][..1] == [e0];
    assert Run([e0, e1], parsers, manifestParser) == Success(p1);
    assert [e0, e1, e2][..2] == [e0, e1];
  }

  /** Reading a manifest leaves the proxies alone. */
  lemma ManifestKeepsProxies(pkg: Package, obj: JsonObject)
    requires ApplyManifest(pkg, obj).Success?
    ensures ApplyManifest(pkg, obj).value.resourceProxies == pkg.resourceProxies
  {
  }

  /** The entries of `ManifestAndDefinitions`, seen only through their classification and parse results. */
  lemma ManifestThenTwoDefinitions(e0: Entry, e1: Entry, e2: Entry, obj: JsonObject, p0: Package, proxy: ResourceProxy,
                                   parsers: Parsers, manifestParser: ManifestParser)
    requires Classify(e0) == Manifest && manifestParser(e0.data) == Some(obj)
    requires ApplyManifest(EmptyPackage, obj) == Success(p0)
    requires Classify(e1) == Definition && Create(e1.key, e1.data, parsers) == Some(proxy)
    requires Classify(e2) == Definition && Create(e2.key, e2.data, parsers) == None
    ensures Run([e0, e1, e2], parsers, manifestParser) == Success(p0.(resourceProxies := [proxy]))
  {
    var p1 := p0.(resourceProxies := [proxy]);
    StepManifest(EmptyPackage, e0, obj, parsers, manifestParser);
    ManifestKeepsProxies(EmptyPackage, obj);
    FirstDefinition(p0, e1, proxy, parsers, manifestParser);
    StepDefinition(p1, e2, parsers, manifestParser);
    RunOfThree(e0, e1, e2, p0, p1, parsers, manifestParser);
  }

  /** A definition with a url, read into a package holding no proxies yet, becomes its only proxy. */
  lemma FirstDefinition(pkg: Package, e: Entry, proxy: ResourceProxy, parsers: Parsers, manifestParser: ManifestParser)
    requires pkg.resourceProxies == []
    requires Classify(e) == Definition && Create(e.key, e.data, parsers) == Some(proxy)
    ensures Step(pkg, e, parsers, manifestParser) == Success(pkg.(resourceProxies := [proxy]))
  {
    StepDefinition(pkg, e, parsers, manifestParser);
    assert pkg.resourceProxies + [proxy] == [proxy];
  }

  /**
   * An archive holding `package/package.json` and two `.json` definitions, the
   * first parsing to a resource with a url and the second failing to parse:
   * the package carries the manifest's fields and exactly the first proxy.
   */
  lemma ManifestAndDefinitions(manifestBytes: Bytes, obj: JsonObject, good: string, goodBytes: Bytes, res: Resource,
                               bad: string, badBytes: Bytes, parsers: Parsers, manifestParser: ManifestParser)
    requires manifestParser(manifestBytes) == Some(obj) && ApplyManifest(EmptyPackage, obj).Success?
    requires Separator !in good && IsJsonMember(good)
    requires !EqualsIgnoreCase(good, ManifestFile) && !EqualsIgnoreCase(good, IndexFile)
    requires Separator !in bad && IsJsonMember(bad)
    requires !EqualsIgnoreCase(bad, ManifestFile) && !EqualsIgnoreCase(bad, IndexFile)
    requires parsers.json(goodBytes) == Some(res) && !IsNullOrWhiteSpace(FirstValue(res.namedChildren, UrlElement))
    requires parsers.json(badBytes) == None
    ensures Loaded(Archive(true, [
        Entry(PackageDirectory + [Separator] + ManifestFile, false, manifestBytes),
        Entry(PackageDirectory + [Separator] + good, false, goodBytes),
        Entry(PackageDirectory + [Separator] + bad, false, badBytes)]), parsers, manifestParser)
      == Success(ApplyManifest(EmptyPackage, obj).value.(resourceProxies := [NewProxy(res)]))
  {
    var e0 := Entry(PackageDirectory + [Separator] + ManifestFile, false, manifestBytes);
    var e1 := Entry(PackageDirectory + [Separator] + good, false, goodBytes);
    var e2 := Entry(PackageDirectory + [Separator] + bad, false, badBytes);
    ManifestEntryClassified(manifestBytes);
    DefinitionEntryClassified(good, goodBytes);
    JsonMemberInPackage(good);
    DefinitionEntryClassified(bad, badBytes);
    JsonMemberInPackage(bad);
    ManifestThenTwoDefinitions(e0, e1, e2, obj, ApplyManifest(EmptyPackage, obj).value, NewProxy(res), parsers, manifestParser);
  }

  /** A file in a sub-folder such as `package/examples` is skipped. */
  lemma NestedEntrySkipped(sub: string, name: string, data: Bytes)
    requires sub != "" && Separator !in sub && Separator !in name
    ensures Classify(Entry(PackageDirectory + [Separator] + sub + [Separator] + name, false, data)) == Skipped
  {
    EntryInSubdirectory(PackageDirectory, sub, name);
    var dir := PackageDirectory + [Separator] + sub;
    assert |dir| > |PackageDirectory|;
  }

  // ---------------------------------------------------------------------
  // The class

  class FhirPackage {
    var name: string
    var version: string
    var description: string
    var fhirVersions: seq<string>
    var dependencies: seq<string>
    var resourceProxies: seq<ResourceProxy>

    /** The values of the public properties. */
    function Properties(): Package
      reads this
    {
      Package(name, version, description, fhirVersions, dependencies, resourceProxies)
    }

    constructor ()
      ensures Properties() == EmptyPackage
    {
      name, version, description := "", "", "";
      fhirVersions, dependencies, resourceProxies := [], [], [];
    }

    /** `foreach (var fhirVersion in fhirVersions) FhirVersions.Add(fhirVersion.ToString())`. */
    method AppendFhirVersions(items: seq<string>)
      modifies this
      ensures Properties() == old(Properties()).(fhirVersions := old(fhirVersions) + items)
    {
      var j := 0;
      while j < |items|
        invariant 0 <= j <= |items|
        invariant Properties() == old(Properties()).(fhirVersions := old(fhirVersions) + items[..j])
      {
        fhirVersions := fhirVersions + [items[j]];
        assert items[..j + 1] == items[..j] + [items[j]];
        j := j + 1;
      }
      assert items[..j] == items;
    }

    /** `foreach (var dependency in dependencies) Dependencies.Add(<rewritten dependency>)`. */
    method AppendDependencies(members: seq<string>)
      modifies this
      ensures Properties() == old(Properties()).(dependencies := old(dependencies) + RewriteAll(members))
    {
      var k := 0;
      while k < |members|
        invariant 0 <= k <= |members|
        invariant Properties() == old(Properties()).(dependencies := old(dependencies) + RewriteAll(members)[..k])
      {
        dependencies := dependencies + [RewriteDependency(members[k])];
        assert RewriteAll(members)[..k + 1] == RewriteAll(members)[..k] + [RewriteDependency(members[k])];
        k := k + 1;
      }
      assert RewriteAll(members)[..k] == RewriteAll(members);
    }

    /** The body of the manifest branch: sets the metadata and appends versions and rewritten dependencies. */
    method ReadManifest(obj: JsonObject) returns (err: Option<LoadError>)
      modifies this
      ensures err.None? <==> ApplyManifest(old(Properties()), obj).Success?
      ensures err.Some? ==> err.value == ApplyManifest(old(Properties()), obj).error
      ensures err.None? ==> Properties() == ApplyManifest(old(Properties()), obj).value
    {
      ghost var before := Properties();
      name := TextField(obj, "name");
      version := TextField(obj, "version");
      description := TextField(obj, "description");
      var versions := FhirVersionsOf(obj);
      if versions.Failure? {
        assert ApplyManifest(before, obj) == Failure(versions.error);
        return Some(versions.error);
      }
      AppendFhirVersions(versions.value);
      var members := DependencyMembers(obj);
      if members.Failure? {
        assert ApplyManifest(before, obj) == Failure(members.error);
        return Some(members.error);
      }
      AppendDependencies(members.value);
      return None;
    }

    /** `FhirPackage.Load`: the package its entries describe, or the exception that stopped the loop. */
    static method Load(archive: Archive, parsers: Parsers, manifestParser: ManifestParser)
      returns (r: Result<FhirPackage, LoadError>)
      ensures r.Failure? <==> Loaded(archive, parsers, manifestParser).Failure?
      ensures r.Failure? ==> r.error == Loaded(archive, parsers, manifestParser).error
      ensures r.Success? ==> fresh(r.value) && r.value.Properties() == Loaded(archive, parsers, manifestParser).value
    {
      var pkg := new FhirPackage();
      if !archive.isTar {
        return Failure(NotSupported);
      }
      var entries := archive.entries;
      var i := 0;
      while i < |entries|
        invariant 0 <= i <= |entries|
        invariant fresh(pkg)
        invariant Run(entries[..i], parsers, manifestParser) == Success(pkg.Properties())
      {
        var e := entries[i];
        ghost var before := pkg.Properties();
        assert entries[..i + 1][..i] == entries[..i];
        assert entries[..i + 1][i] == e;
        assert Run(entries[..i + 1], parsers, manifestParser) == Step(before, e, parsers, manifestParser);
        match Classify(e) {
          case Skipped =>
          case Ignored =>
          case Faulty =>
            RunFailurePersists(entries, i + 1, parsers, manifestParser);
            return Failure(NullDirectoryName);
          case Manifest =>
            var parsed := manifestParser(e.data);
            if parsed.None? {
              RunFailurePersists(entries, i + 1, parsers, manifestParser);
              return Failure(MalformedManifest);
            }
            var err := pkg.ReadManifest(parsed.value);
            if err.Some? {
              RunFailurePersists(entries, i + 1, parsers, manifestParser);
              return Failure(err.value);
            }
          case Definition =>
            var proxy := Create(e.key, e.data, parsers);
            if proxy.Some? {
              pkg.resourceProxies := pkg.resourceProxies + [proxy.value];
            }
        }
        i := i + 1;
      }
      assert entries[..i] == entries;
      return Success(pkg);
    }
  }
}
