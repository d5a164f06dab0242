/**
 * `LocalResourceResolver`: the dictionary from canonical url (bare, and
 * `url|version`) to resource proxy, filled once from the embedded tar packages
 * in name order and then from the hand-curated `Bundle.zip`, and the four
 * exact-key lookups.
 *
 * The assembly's embedded resources are a value (`Assembly`); the dictionary
 * is the `resources` field of class `LocalResourceResolver`, and every method
 * is proved against the specification functions `Added`, `AddedAll`,
 * `Initialized` and `Resolution`.
 */
module ResourceResolution {
  import opened Wrappers
  import opened Text
  import opened ResourceProxies
  import opened FhirPackages

  /** The assembly's manifest resources: their names, and the archive behind each name that has a stream. */
  datatype Assembly = Assembly(resourceNames: seq<string>, streams: map<string, Archive>)

  const TarPackageSuffix := ".tgz"
  const BundleName := "FhirAuConsole.FhirPackages.Bundle.zip"

  /** The exceptions that escape `InitResources`. */
  datatype InitError =
    | StreamMissing              // `ReaderFactory.Open(null)`: no embedded stream of that name
    | PackageFailed(error: LoadError)

  /** The dictionary after a call of `InitResources`, and the exception that ended it, if any. */
  datatype Outcome = Outcome(resources: map<string, ResourceProxy>, error: Option<InitError>)

  // ---------------------------------------------------------------------
  // Registering proxies

  /** The second key a proxy is registered under. */
  function VersionedKey(p: ResourceProxy): string {
    p.url + "|" + p.version
  }

  /** `k` is one of the two keys of `p`. */
  predicate HasKey(p: ResourceProxy, k: string) {
    k == p.url || k == VersionedKey(p)
  }

  /** `Add(p)`: both keys of `p` now lead to `p`, whether or not they were present; nothing else changes. */
  function Added(m: map<string, ResourceProxy>, p: ResourceProxy): (r: map<string, ResourceProxy>)
    ensures r.Keys == m.Keys + {p.url, VersionedKey(p)}
    ensures r[p.url] == p && r[VersionedKey(p)] == p
    ensures forall k :: k in m && !HasKey(p, k) ==> r[k] == m[k]
  {
    assert |VersionedKey(p)| > |p.url|;
    m[p.url := p][VersionedKey(p) := p]
  }

  /** `foreach (var p in ps) Add(p)`. */
  function AddedAll(m: map<string, ResourceProxy>, ps: seq<ResourceProxy>): map<string, ResourceProxy>
    decreases |ps|
  {
    if |ps| == 0 then m else Added(AddedAll(m, ps[..|ps| - 1]), ps[|ps| - 1])
  }

  lemma {:induction false} AddedAllAppend(m: map<string, ResourceProxy>, a: seq<ResourceProxy>, b: seq<ResourceProxy>)
    ensures AddedAll(m, a + b) == AddedAll(AddedAll(m, a), b)
    decreases |b|
  {
    if |b| == 0 {
      assert a + b == a;
    } else {
      assert (a + b)[..|a + b| - 1] == a + b[..|b| - 1];
      assert (a + b)[|a + b| - 1] == b[|b| - 1];
      AddedAllAppend(m, a, b[..|b| - 1]);
    }
  }

  /** `ps[i]` is the last proxy of `ps` registered under `k`. */
  predicate LastWith(ps: seq<ResourceProxy>, k: string, i: int) {
    0 <= i < |ps| && HasKey(ps[i], k) && forall j :: i < j < |ps| ==> !HasKey(ps[j], k)
  }

  /** Last write wins: a key leads to the last proxy registered under it. */
  lemma {:induction false} LastWriteWins(m: map<string, ResourceProxy>, ps: seq<ResourceProxy>, k: string, i: int)
    requires LastWith(ps, k, i)
    ensures k in AddedAll(m, ps) && AddedAll(m, ps)[k] == ps[i]
    decreases |ps|
  {
    var front := ps[..|ps| - 1];
    if i < |ps| - 1 {
      assert LastWith(front, k, i);
      LastWriteWins(m, front, k, i);
    }
  }

  /** Registering `cs` after `ps`: a key of `cs` leads to the last proxy of `cs` with it. */
  lemma LaterWins(m: map<string, ResourceProxy>, ps: seq<ResourceProxy>, cs: seq<ResourceProxy>, k: string, i: int)
    requires LastWith(cs, k, i)
    ensures k in AddedAll(m, ps + cs) && AddedAll(m, ps + cs)[k] == cs[i]
  {
    forall j | |ps| + i < j < |ps + cs| ensures !HasKey((ps + cs)[j], k) {
      assert (ps + cs)[j] == cs[j - |ps|];
    }
    assert (ps + cs)[|ps| + i] == cs[i];
    LastWriteWins(m, ps + cs, k, |ps| + i);
  }

  /** Registering `cs` after `ps`: a key no proxy of `cs` has leads to the last proxy of `ps` with it. */
  lemma EarlierKept(m: map<string, ResourceProxy>, ps: seq<ResourceProxy>, cs: seq<ResourceProxy>, k: string, i: int)
    requires LastWith(ps, k, i)
    requires forall j :: 0 <= j < |cs| ==> !HasKey(cs[j], k)
    ensures k in AddedAll(m, ps + cs) && AddedAll(m, ps + cs)[k] == ps[i]
  {
    forall j | i < j < |ps + cs| ensures !HasKey((ps + cs)[j], k) {
      if j < |ps| {
        assert (ps + cs)[j] == ps[j];
      } else {
        assert (ps + cs)[j] == cs[j - |ps|];
      }
    }
    assert (ps + cs)[i] == ps[i];
    LastWriteWins(m, ps + cs, k, i);
  }

  /** A key no proxy is registered under keeps its presence and its value. */
  lemma {:induction false} UntouchedKey(m: map<string, ResourceProxy>, ps: seq<ResourceProxy>, k: string)
    requires forall j :: 0 <= j < |ps| ==> !HasKey(ps[j], k)
    ensures k in AddedAll(m, ps) <==> k in m
    ensures k in m ==> AddedAll(m, ps)[k] == m[k]
    decreases |ps|
  {
    if |ps| > 0 {
      UntouchedKey(m, ps[..|ps| - 1], k);
    }
  }

  /** The keys after registering are the old keys and the keys of the registered proxies; none is removed. */
  lemma {:induction false} KeysOfAddedAll(m: map<string, ResourceProxy>, ps: seq<ResourceProxy>, k: string)
    ensures k in AddedAll(m, ps) <==> k in m || exists j :: 0 <= j < |ps| && HasKey(ps[j], k)
    decreases |ps|
  {
    if |ps| > 0 {
      var front := ps[..|ps| - 1];
      KeysOfAddedAll(m, front, k);
      if exists j :: 0 <= j < |ps| && HasKey(ps[j], k) {
        var j :| 0 <= j < |ps| && HasKey(ps[j], k);
        if j < |ps| - 1 {
          assert HasKey(front[j], k);
        }
      }
    }
  }

  /** Every key leads to a proxy registered under it, and every proxy has a non-blank url read from its resource. */
  predicate Consistent(m: map<string, ResourceProxy>) {
    forall k :: k in m ==> HasKey(m[k], k) && Identified(m[k])
  }

  /** Registering identified proxies keeps the dictionary consistent. */
  lemma {:induction false} AddedAllConsistent(m: map<string, ResourceProxy>, ps: seq<ResourceProxy>)
    requires Consistent(m)
    requires forall j :: 0 <= j < |ps| ==> Identified(ps[j])
    ensures Consistent(AddedAll(m, ps))
    decreases |ps|
  {
    if |ps| > 0 {
      AddedAllConsistent(m, ps[..|ps| - 1]);
    }
  }

  // ---------------------------------------------------------------------
  // The embedded tar packages, in name order

  /** The names ending in `.tgz`, in their original order. */
  function TgzNames(names: seq<string>): (r: seq<string>)
    ensures forall n :: n in r <==> n in names && EndsWith(n, TarPackageSuffix)
    ensures forall i :: 0 <= i < |r| ==> EndsWith(r[i], TarPackageSuffix)
    ensures multiset(r) <= multiset(names)
    decreases |names|
  {
    if |names| == 0 then []
    else
      assert names == [names[0]] + names[1..];
      (if EndsWith(names[0], TarPackageSuffix) then [names[0]] else []) + TgzNames(names[1..])
  }

  /** Each `.tgz` name is kept as often as it is listed, and no other name is kept. */
  lemma {:induction false} TgzNamesCounts(names: seq<string>, n: string)
    ensures multiset(TgzNames(names))[n] == if EndsWith(n, TarPackageSuffix) then multiset(names)[n] else 0
    decreases |names|
  {
    if |names| > 0 {
      TgzNamesCounts(names[1..], n);
      var head: seq<string> := if EndsWith(names[0], TarPackageSuffix) then [names[0]] else [];
      assert TgzNames(names) == head + TgzNames(names[1..]);
      assert names == [names[0]] + names[1..];
      assert multiset(names) == multiset{names[0]} + multiset(names[1..]);
      assert multiset(head + TgzNames(names[1..])) == multiset(head) + multiset(TgzNames(names[1..]));
    }
  }

  /** `x` at its place in the sorted `s`. */
  function Insert(x: string, s: seq<string>): (r: seq<string>)
    requires Sorted(s)
    ensures Sorted(r)
    ensures multiset(r) == multiset(s) + multiset{x}
    decreases |s|
  {
    if |s| == 0 then [x]
    else if OrdinalLe(x, s[0]) then
      forall j | 0 < j < |s| ensures OrdinalLe(x, s[j]) {
        OrdinalLeTransitive(x, s[0], s[j]);
      }
      assert s == [s[0]] + s[1..];
      [x] + s
    else
      var rest := Insert(x, s[1..]);
      OrdinalLeTotal(x, s[0]);
      forall y | y in rest ensures OrdinalLe(s[0], y) {
        assert y in multiset(rest);
        if y != x {
          assert y in s[1..];
        }
      }
      assert s == [s[0]] + s[1..];
      [s[0]] + rest
  }

  /** `OrderBy(name => name)`: the names in ascending ordinal order. */
  function SortNames(s: seq<string>): (r: seq<string>)
    ensures Sorted(r)
    ensures multiset(r) == multiset(s)
    decreases |s|
  {
    if |s| == 0 then []
    else
      assert s == [s[0]] + s[1..];
      Insert(s[0], SortNames(s[1..]))
  }

  /** Two sorted sequences with the same elements start with the same element. */
  lemma SortedHeads(a: seq<string>, b: seq<string>)
    requires Sorted(a) && Sorted(b) && multiset(a) == multiset(b) && |a| > 0
    ensures |b| > 0 && a[0] == b[0]
  {
    assert |b| == |multiset(b)| == |a|;
    assert a[0] in multiset(b);
    assert b[0] in multiset(a);
    var j :| 0 <= j < |b| && b[j] == a[0];
    var k :| 0 <= k < |a| && a[k] == b[0];
    assert OrdinalLe(b[0], a[0]) by {
      if j > 0 {
        assert OrdinalLe(b[0], b[j]);
      } else {
        OrdinalLeTotal(b[0], a[0]);
      }
    }
    assert OrdinalLe(a[0], b[0]) by {
      if k > 0 {
        assert OrdinalLe(a[0], a[k]);
      } else {
        OrdinalLeTotal(a[0], b[0]);
      }
    }
    OrdinalLeAntisymmetric(a[0], b[0]);
  }

  /** Removing the same first element leaves the same elements. */
  lemma SameTails(a: seq<string>, b: seq<string>)
    requires |a| > 0 && |b| > 0 && a[0] == b[0] && multiset(a) == multiset(b)
    ensures multiset(a[1..]) == multiset(b[1..])
  {
    assert a == [a[0]] + a[1..] && b == [b[0]] + b[1..];
    assert multiset(a) == multiset{a[0]} + multiset(a[1..]);
    assert multiset(b) == multiset{b[0]} + multiset(b[1..]);
    forall x ensures multiset(a[1..])[x] == multiset(b[1..])[x] {
      assert multiset(a)[x] == multiset{a[0]}[x] + multiset(a[1..])[x];
      assert multiset(b)[x] == multiset{b[0]}[x] + multiset(b[1..])[x];
    }
  }

  /** Two ascending arrangements of the same names are equal: any correct sort yields `SortNames`. */
  lemma {:induction false} SortedUnique(a: seq<string>, b: seq<string>)
    requires Sorted(a) && Sorted(b) && multiset(a) == multiset(b)
    ensures a == b
    decreases |a|
  {
    if |a| > 0 {
      SortedHeads(a, b);
      SameTails(a, b);
      assert Sorted(a[1..]) && Sorted(b[1..]);
      SortedUnique(a[1..], b[1..]);
      assert a == [a[0]] + a[1..] && b == [b[0]] + b[1..];
    } else {
      assert |b| == |multiset(b)| == 0;
    }
  }

  /** The names `GetEmbeddedTarPackages` opens: the `.tgz` names, each as often as listed, in ascending order. */
  function TarPackageNames(names: seq<string>): (r: seq<string>)
    ensures Sorted(r)
    ensures multiset(r) == multiset(TgzNames(names))
    ensures forall n :: n in r <==> n in names && EndsWith(n, TarPackageSuffix)
  {
    var r := SortNames(TgzNames(names));
    assert forall n :: n in r <==> n in multiset(TgzNames(names));
    r
  }

  /** The order of the tar packages is determined: every ascending arrangement of the `.tgz` names is this one. */
  lemma TarPackageOrderDetermined(names: seq<string>, r: seq<string>)
    requires Sorted(r) && multiset(r) == multiset(TgzNames(names))
    ensures r == TarPackageNames(names)
  {
    SortedUnique(r, TarPackageNames(names));
  }

  /** Each embedded `.tgz` package is opened exactly as often as its name is listed. */
  lemma TarPackageNamesCounts(names: seq<string>, n: string)
    ensures multiset(TarPackageNames(names))[n] == if EndsWith(n, TarPackageSuffix) then multiset(names)[n] else 0
  {
    TgzNamesCounts(names, n);
  }

  /** `GetManifestResourceStream(name)`: `None` (C# `null`) when the assembly has no such resource. */
  function Stream(asm: Assembly, name: string): Option<Archive> {
    if name in asm.streams then Some(asm.streams[name]) else None
  }

  /** `GetEmbeddedTarPackages()`: the streams of the tar package names, in that order. */
  function EmbeddedTarPackages(asm: Assembly): seq<Option<Archive>> {
    var names := TarPackageNames(asm.resourceNames);
    seq(|names|, i requires 0 <= i < |names| => Stream(asm, names[i]))
  }

  // ---------------------------------------------------------------------
  // The custom bundle

  /** The non-null results `f` gives for the entries, in order. */
  function Kept(entries: seq<Entry>, f: Entry -> Option<ResourceProxy>): (r: seq<ResourceProxy>)
    ensures |r| <= |entries|
    decreases |entries|
  {
    if |entries| == 0 then []
    else
      match f(entries[|entries| - 1])
      case Some(p) => Kept(entries[..|entries| - 1], f) + [p]
      case None => Kept(entries[..|entries| - 1], f)
  }

  /** One entry keeps its result, or nothing. */
  lemma KeptSingle(e: Entry, f: Entry -> Option<ResourceProxy>)
    ensures Kept([e], f) == if f(e).Some? then [f(e).value] else []
  {
    assert [e][..0] == [];
  }

  /** The kept results follow entry order: keeping distributes over concatenation. */
  lemma {:induction false} KeptAppend(a: seq<Entry>, b: seq<Entry>, f: Entry -> Option<ResourceProxy>)
    ensures Kept(a + b, f) == Kept(a, f) + Kept(b, f)
    decreases |b|
  {
    if |b| == 0 {
      assert a + b == a;
    } else {
      var front := b[..|b| - 1];
      assert (a + b)[..|a + b| - 1] == a + front;
      assert (a + b)[|a + b| - 1] == b[|b| - 1];
      KeptAppend(a, front, f);
    }
  }

  /** A proxy is kept exactly when `f` returned it for some entry. */
  lemma {:induction false} KeptMembers(entries: seq<Entry>, f: Entry -> Option<ResourceProxy>, p: ResourceProxy)
    ensures p in Kept(entries, f) <==> exists i :: 0 <= i < |entries| && f(entries[i]) == Some(p)
    decreases |entries|
  {
    if |entries| > 0 {
      var front := entries[..|entries| - 1];
      KeptMembers(front, f, p);
      if exists i :: 0 <= i < |front| && f(front[i]) == Some(p) {
        var i :| 0 <= i < |front| && f(front[i]) == Some(p);
        assert entries[i] == front[i];
      }
      if exists i :: 0 <= i < |entries| && f(entries[i]) == Some(p) {
        var i :| 0 <= i < |entries| && f(entries[i]) == Some(p);
        if i < |front| {
          assert front[i] == entries[i];
        }
      }
    }
  }

  function CreateOf(parsers: Parsers): Entry -> Option<ResourceProxy> {
    (e: Entry) => Create(e.key, e.data, parsers)
  }

  /** The proxies the `GetCustomResources` loop keeps: each entry's non-null `Create` result, in archive order. */
  function Created(entries: seq<Entry>, parsers: Parsers): seq<ResourceProxy> {
    Kept(entries, CreateOf(parsers))
  }

  /** A proxy is kept exactly when some entry's `Create` returned it. */
  lemma CreatedMembers(entries: seq<Entry>, parsers: Parsers, p: ResourceProxy)
    ensures p in Created(entries, parsers) <==>
              exists i :: 0 <= i < |entries| && Create(entries[i].key, entries[i].data, parsers) == Some(p)
  {
    KeptMembers(entries, CreateOf(parsers), p);
  }

  /** Every kept custom proxy has a non-blank url read from its resource. */
  lemma {:induction false} CreatedIdentified(entries: seq<Entry>, parsers: Parsers)
    ensures forall i :: 0 <= i < |Created(entries, parsers)| ==> Identified(Created(entries, parsers)[i])
    decreases |entries|
  {
    if |entries| > 0 {
      var front := entries[..|entries| - 1];
      var e := entries[|entries| - 1];
      CreatedIdentified(front, parsers);
      var made := Create(e.key, e.data, parsers);
      assert CreateOf(parsers)(e) == made;
      if made.Some? {
        assert Created(entries, parsers) == Created(front, parsers) + [made.value];
        assert Identified(made.value);
      } else {
        assert Created(entries, parsers) == Created(front, parsers);
      }
    }
  }

  /** `GetCustomResources()`: the proxies of `Bundle.zip`, or the exception `ReaderFactory.Open(null)` raises. */
  function CustomResources(asm: Assembly, parsers: Parsers): Result<seq<ResourceProxy>, InitError> {
    match Stream(asm, BundleName)
    case None => Failure(StreamMissing)
    case Some(bundle) => Success(Created(bundle.entries, parsers))
  }

  // ---------------------------------------------------------------------
  // InitResources

  /** One pass of the package loop: load the package, then register its proxies in package order. */
  function MergeOne(m: map<string, ResourceProxy>, stream: Option<Archive>, parsers: Parsers,
                    manifestParser: ManifestParser): Outcome {
    match stream
    case None => Outcome(m, Some(StreamMissing))
    case Some(archive) =>
      match Loaded(archive, parsers, manifestParser)
      case Failure(e) => Outcome(m, Some(PackageFailed(e)))
      case Success(pkg) => Outcome(AddedAll(m, pkg.resourceProxies), None)
  }

  /** The package loop over `streams`; the first exception ends it, keeping what was registered before. */
  function MergePackages(m: map<string, ResourceProxy>, streams: seq<Option<Archive>>, parsers: Parsers,
                         manifestParser: ManifestParser): Outcome
    decreases |streams|
  {
    if |streams| == 0 then Outcome(m, None)
    else
      var o := MergePackages(m, streams[..|streams| - 1], parsers, manifestParser);
      if o.error.Some? then o else MergeOne(o.resources, streams[|streams| - 1], parsers, manifestParser)
  }

  /** Reference definition: the proxies of all packages, concatenated in stream order. */
  function PackageProxies(streams: seq<Option<Archive>>, parsers: Parsers, manifestParser: ManifestParser)
    : Result<seq<ResourceProxy>, InitError>
    decreases |streams|
  {
    if |streams| == 0 then Success([])
    else
      match PackageProxies(streams[..|streams| - 1], parsers, manifestParser)
      case Failure(e) => Failure(e)
      case Success(ps) =>
        match streams[|streams| - 1]
        case None => Failure(StreamMissing)
        case Some(archive) =>
          match Loaded(archive, parsers, manifestParser)
          case Failure(e) => Failure(PackageFailed(e))
          case Success(pkg) => Success(ps + pkg.resourceProxies)
  }

  /** `InitResources()` from the dictionary `m0`: nothing happens when it is not empty. */
  function Initialized(m0: map<string, ResourceProxy>, asm: Assembly, parsers: Parsers,
                       manifestParser: ManifestParser): Outcome {
    if m0 != map[] then Outcome(m0, None)
    else
      var o := MergePackages(map[], EmbeddedTarPackages(asm), parsers, manifestParser);
      if o.error.Some? then o
      else
        match CustomResources(asm, parsers)
        case Failure(e) => Outcome(o.resources, Some(e))
        case Success(custom) => Outcome(AddedAll(o.resources, custom), None)
  }

  /** An exception ends the package loop: once a prefix fails, the whole loop ends the same way. */
  lemma {:induction false} MergeFailurePersists(m: map<string, ResourceProxy>, streams: seq<Option<Archive>>, n: nat,
                                                parsers: Parsers, manifestParser: ManifestParser)
    requires n <= |streams|
    requires MergePackages(m, streams[..n], parsers, manifestParser).error.Some?
    ensures MergePackages(m, streams, parsers, manifestParser) == MergePackages(m, streams[..n], parsers, manifestParser)
    decreases |streams| - n
  {
    if n < |streams| {
      var front := streams[..|streams| - 1];
      assert front[..n] == streams[..n];
      MergeFailurePersists(m, front, n, parsers, manifestParser);
    } else {
      assert streams[..n] == streams;
    }
  }

  /** The package loop registers the concatenated package proxies, and fails exactly when a package does. */
  lemma {:induction false} MergeRegistersPackageProxies(m: map<string, ResourceProxy>, streams: seq<Option<Archive>>,
                                                        parsers: Parsers, manifestParser: ManifestParser)
    ensures MergePackages(m, streams, parsers, manifestParser).error.None?
            <==> PackageProxies(streams, parsers, manifestParser).Success?
    ensures PackageProxies(streams, parsers, manifestParser).Failure? ==>
              MergePackages(m, streams, parsers, manifestParser).error == Some(PackageProxies(streams, parsers, manifestParser).error)
    ensures PackageProxies(streams, parsers, manifestParser).Success? ==>
              MergePackages(m, streams, parsers, manifestParser).resources
              == AddedAll(m, PackageProxies(streams, parsers, manifestParser).value)
    decreases |streams|
  {
    if |streams| > 0 {
      var front := streams[..|streams| - 1];
      MergeRegistersPackageProxies(m, front, parsers, manifestParser);
      var ps := PackageProxies(front, parsers, manifestParser);
      if ps.Success? {
        match streams[|streams| - 1]
        case None =>
        case Some(archive) =>
          match Loaded(archive, parsers, manifestParser)
          case Failure(_) =>
          case Success(pkg) =>
            AddedAllAppend(m, ps.value, pkg.resourceProxies);
      }
    }
  }

  /**
   * A successful population from the empty dictionary registers the package
   * proxies (packages in name order, each in package order) and then the
   * custom proxies: the dictionary is that of the concatenation.
   */
  lemma MergeOrder(asm: Assembly, parsers: Parsers, manifestParser: ManifestParser)
    requires Initialized(map[], asm, parsers, manifestParser).error.None?
    ensures PackageProxies(EmbeddedTarPackages(asm), parsers, manifestParser).Success?
    ensures CustomResources(asm, parsers).Success?
    ensures Initialized(map[], asm, parsers, manifestParser).resources
            == AddedAll(map[], PackageProxies(EmbeddedTarPackages(asm), parsers, manifestParser).value
                               + CustomResources(asm, parsers).value)
  {
    var streams := EmbeddedTarPackages(asm);
    MergeRegistersPackageProxies(map[], streams, parsers, manifestParser);
    AddedAllAppend(map[], PackageProxies(streams, parsers, manifestParser).value, CustomResources(asm, parsers).value);
  }

  /** A custom resource beats every package resource on a colliding key: the key leads to the last custom proxy with it. */
  lemma CustomOverrides(asm: Assembly, parsers: Parsers, manifestParser: ManifestParser, k: string, i: int)
    requires Initialized(map[], asm, parsers, manifestParser).error.None?
    requires CustomResources(asm, parsers).Success? && LastWith(CustomResources(asm, parsers).value, k, i)
    ensures k in Initialized(map[], asm, parsers, manifestParser).resources
    ensures Initialized(map[], asm, parsers, manifestParser).resources[k] == CustomResources(asm, parsers).value[i]
  {
    MergeOrder(asm, parsers, manifestParser);
    var ps := PackageProxies(EmbeddedTarPackages(asm), parsers, manifestParser).value;
    var cs := CustomResources(asm, parsers).value;
    LaterWins(map[], ps, cs, k, i);
  }

  /** A key no custom proxy claims leads to the last package proxy registered under it. */
  lemma PackageResourceKept(asm: Assembly, parsers: Parsers, manifestParser: ManifestParser, k: string, i: int)
    requires Initialized(map[], asm, parsers, manifestParser).error.None?
    requires PackageProxies(EmbeddedTarPackages(asm), parsers, manifestParser).Success?
    requires LastWith(PackageProxies(EmbeddedTarPackages(asm), parsers, manifestParser).value, k, i)
    requires CustomResources(asm, parsers).Success?
    requires forall j :: 0 <= j < |CustomResources(asm, parsers).value| ==> !HasKey(CustomResources(asm, parsers).value[j], k)
    ensures k in Initialized(map[], asm, parsers, manifestParser).resources
    ensures Initialized(map[], asm, parsers, manifestParser).resources[k]
            == PackageProxies(EmbeddedTarPackages(asm), parsers, manifestParser).value[i]
  {
    MergeOrder(asm, parsers, manifestParser);
    var ps := PackageProxies(EmbeddedTarPackages(asm), parsers, manifestParser).value;
    var cs := CustomResources(asm, parsers).value;
    EarlierKept(map[], ps, cs, k, i);
  }

  /** Every proxy a loaded package or the bundle contributes is identified. */
  lemma {:induction false} PackageProxiesIdentified(streams: seq<Option<Archive>>, parsers: Parsers,
                                                    manifestParser: ManifestParser)
    requires PackageProxies(streams, parsers, manifestParser).Success?
    ensures forall j :: 0 <= j < |PackageProxies(streams, parsers, manifestParser).value| ==>
              Identified(PackageProxies(streams, parsers, manifestParser).value[j])
    decreases |streams|
  {
    if |streams| > 0 {
      var front := streams[..|streams| - 1];
      PackageProxiesIdentified(front, parsers, manifestParser);
      var archive := streams[|streams| - 1].value;
      LoadedWellFormed(archive, parsers, manifestParser);
    }
  }

  /** The package loop keeps the dictionary consistent, even when it ends with an exception. */
  lemma {:induction false} MergeConsistent(m: map<string, ResourceProxy>, streams: seq<Option<Archive>>,
                                           parsers: Parsers, manifestParser: ManifestParser)
    requires Consistent(m)
    ensures Consistent(MergePackages(m, streams, parsers, manifestParser).resources)
    decreases |streams|
  {
    if |streams| > 0 {
      var front := streams[..|streams| - 1];
      MergeConsistent(m, front, parsers, manifestParser);
      var o := MergePackages(m, front, parsers, manifestParser);
      if o.error.None? && streams[|streams| - 1].Some? {
        var archive := streams[|streams| - 1].value;
        if Loaded(archive, parsers, manifestParser).Success? {
          LoadedWellFormed(archive, parsers, manifestParser);
          AddedAllConsistent(o.resources, Loaded(archive, parsers, manifestParser).value.resourceProxies);
        }
      }
    }
  }

  /** `InitResources` keeps the dictionary consistent, whether it completes or not. */
  lemma InitializedConsistent(m0: map<string, ResourceProxy>, asm: Assembly, parsers: Parsers,
                              manifestParser: ManifestParser)
    requires Consistent(m0)
    ensures Consistent(Initialized(m0, asm, parsers, manifestParser).resources)
  {
    if m0 == map[] {
      MergeConsistent(map[], EmbeddedTarPackages(asm), parsers, manifestParser);
      var o := MergePackages(map[], EmbeddedTarPackages(asm), parsers, manifestParser);
      if o.error.None? && CustomResources(asm, parsers).Success? {
        CreatedIdentified(Stream(asm, BundleName).value.entries, parsers);
        AddedAllConsistent(o.resources, CustomResources(asm, parsers).value);
      }
    }
  }

  /** `InitResources` never removes a key, and a second call after one that left entries changes nothing. */
  lemma InitializedIdempotent(m0: map<string, ResourceProxy>, asm: Assembly, parsers: Parsers,
                              manifestParser: ManifestParser)
    ensures m0.Keys <= Initialized(m0, asm, parsers, manifestParser).resources.Keys
    ensures var m1 := Initialized(m0, asm, parsers, manifestParser).resources;
            m1 != map[] ==> Initialized(m1, asm, parsers, manifestParser) == Outcome(m1, None)
  {
  }

  /** A call that leaves the dictionary empty started from an empty one, so the next call populates again. */
  lemma EmptyResultRepeats(m0: map<string, ResourceProxy>, asm: Assembly, parsers: Parsers,
                           manifestParser: ManifestParser)
    requires Initialized(m0, asm, parsers, manifestParser).resources == map[]
    ensures m0 == map[]
    ensures Initialized(Initialized(m0, asm, parsers, manifestParser).resources, asm, parsers, manifestParser)
            == Initialized(m0, asm, parsers, manifestParser)
  {
  }

  // ---------------------------------------------------------------------
  // Lookups

  /** `resourcen.TryGetValue(uri, out var p) ? p.Resource : null`. */
  function Lookup(m: map<string, ResourceProxy>, uri: string): (r: Option<Resource>)
    ensures r.Some? <==> uri in m
    ensures r.Some? ==> r.value == m[uri].resource
  {
    if uri in m then Some(m[uri].resource) else None
  }

  /** In a consistent dictionary a lookup returns the resource of a proxy whose url, or url|version, is the uri. */
  lemma LookupSound(m: map<string, ResourceProxy>, uri: string)
    requires Consistent(m) && Lookup(m, uri).Some?
    ensures m[uri].resource == Lookup(m, uri).value && HasKey(m[uri], uri) && Identified(m[uri])
  {
  }

  /** Every `Resolve*` method: populate, then look the uri up; an exception of `InitResources` propagates. */
  function Resolution(m0: map<string, ResourceProxy>, uri: string, asm: Assembly, parsers: Parsers,
                      manifestParser: ManifestParser): Result<Option<Resource>, InitError> {
    var o := Initialized(m0, asm, parsers, manifestParser);
    if o.error.Some? then Failure(o.error.value) else Success(Lookup(o.resources, uri))
  }

  /** After a successful population a uri held by a custom proxy resolves to that proxy's resource. */
  lemma ResolvesCustomResource(asm: Assembly, parsers: Parsers, manifestParser: ManifestParser, uri: string, i: int)
    requires Initialized(map[], asm, parsers, manifestParser).error.None?
    requires CustomResources(asm, parsers).Success? && LastWith(CustomResources(asm, parsers).value, uri, i)
    ensures Resolution(map[], uri, asm, parsers, manifestParser) == Success(Some(CustomResources(asm, parsers).value[i].resource))
  {
    CustomOverrides(asm, parsers, manifestParser, uri, i);
  }

  // ---------------------------------------------------------------------
  // The class

  class LocalResourceResolver {
    const assembly: Assembly
    const parsers: Parsers
    const manifestParser: ManifestParser
    var resources: map<string, ResourceProxy>

    constructor (assembly: Assembly, parsers: Parsers, manifestParser: ManifestParser)
      ensures this.assembly == assembly && this.parsers == parsers && this.manifestParser == manifestParser
      ensures resources == map[]
    {
      this.assembly := assembly;
      this.parsers := parsers;
      this.manifestParser := manifestParser;
      resources := map[];
    }

    /** `AddOrUpdate(url, resource)`: overwrite a present key, add a missing one. */
    method AddOrUpdate(url: string, resource: ResourceProxy)
      modifies this
      ensures resources == old(resources)[url := resource]
    {
      if url in resources {
        resources := resources[url := resource];
      } else {
        resources := resources + map[url := resource];
      }
    }

    /** `Add(resourceProxy)`: register under the bare url, then under `url|version`. */
    method Add(resourceProxy: ResourceProxy)
      modifies this
      ensures resources == Added(old(resources), resourceProxy)
    {
      AddOrUpdate(resourceProxy.url, resourceProxy);
      AddOrUpdate(resourceProxy.url + "|" + resourceProxy.version, resourceProxy);
    }

    /** `foreach (var resource in proxies) Add(resource)`, and `proxies.ForEach(Add)`. */
    method AddAll(proxies: seq<ResourceProxy>)
      modifies this
      ensures resources == AddedAll(old(resources), proxies)
    {
      var j := 0;
      while j < |proxies|
        invariant 0 <= j <= |proxies|
        invariant resources == AddedAll(old(resources), proxies[..j])
      {
        assert proxies[..j + 1][..j] == proxies[..j];
        Add(proxies[j]);
        j := j + 1;
      }
      assert proxies[..j] == proxies;
    }

    /** `GetCustomResources()`: read `Bundle.zip` and keep every non-null `Create` result in archive order. */
    method GetCustomResources() returns (r: Result<seq<ResourceProxy>, InitError>)
      ensures r == CustomResources(assembly, parsers)
    {
      var zipStream := Stream(assembly, BundleName);
      if zipStream.None? {
        return Failure(StreamMissing);
      }
      var entries := zipStream.value.entries;
      var found: seq<ResourceProxy> := [];
      var i := 0;
      while i < |entries|
        invariant 0 <= i <= |entries|
        invariant found == Created(entries[..i], parsers)
      {
        assert entries[..i + 1][..i] == entries[..i];
        var resourceProxy := Create(entries[i].key, entries[i].data, parsers);
        if resourceProxy.Some? {
          found := found + [resourceProxy.value];
        }
        i := i + 1;
      }
      assert entries[..i] == entries;
      return Success(found);
    }

    /** `InitResources()`: populate an empty dictionary; the error is the exception that escapes, if any. */
    method InitResources() returns (err: Option<InitError>)
      modifies this
      ensures Outcome(resources, err) == Initialized(old(resources), assembly, parsers, manifestParser)
    {
      if resources != map[] {
        return None;
      }
      var packageStreams := EmbeddedTarPackages(assembly);
      var i := 0;
      while i < |packageStreams|
        invariant 0 <= i <= |packageStreams|
        invariant MergePackages(map[], packageStreams[..i], parsers, manifestParser) == Outcome(resources, None)
      {
        assert packageStreams[..i + 1][..i] == packageStreams[..i];
        var stream := packageStreams[i];
        if stream.None? {
          MergeFailurePersists(map[], packageStreams, i + 1, parsers, manifestParser);
          return Some(StreamMissing);
        }
        var package := FhirPackage.Load(stream.value, parsers, manifestParser);
        if package.Failure? {
          MergeFailurePersists(map[], packageStreams, i + 1, parsers, manifestParser);
          return Some(PackageFailed(package.error));
        }
        AddAll(package.value.resourceProxies);
        i := i + 1;
      }
      assert packageStreams[..i] == packageStreams;
      var custom := GetCustomResources();
      if custom.Failure? {
        return Some(custom.error);
      }
      AddAll(custom.value);
      return None;
    }

    method ResolveByCanonicalUri(uri: string) returns (r: Result<Option<Resource>, InitError>)
      modifies this
      ensures resources == Initialized(old(resources), assembly, parsers, manifestParser).resources
      ensures r == Resolution(old(resources), uri, assembly, parsers, manifestParser)
    {
      var err := InitResources();
      if err.Some? {
        return Failure(err.value);
      }
      return Success(Lookup(resources, uri));
    }

    method ResolveByUri(uri: string) returns (r: Result<Option<Resource>, InitError>)
      modifies this
      ensures resources == Initialized(old(resources), assembly, parsers, manifestParser).resources
      ensures r == Resolution(old(resources), uri, assembly, parsers, manifestParser)
    {
      var err := InitResources();
      if err.Some? {
        return Failure(err.value);
      }
      return Success(Lookup(resources, uri));
    }

    /** `Task.FromResult` of the same lookup; the task is modelled as its result. */
    method ResolveByUriAsync(uri: string) returns (r: Result<Option<Resource>, InitError>)
      modifies this
      ensures resources == Initialized(old(resources), assembly, parsers, manifestParser).resources
      ensures r == Resolution(old(resources), uri, assembly, parsers, manifestParser)
    {
      var err := InitResources();
      if err.Some? {
        return Failure(err.value);
      }
      return Success(Lookup(resources, uri));
    }

    /** `Task.FromResult` of the same lookup; the task is modelled as its result. */
    method ResolveByCanonicalUriAsync(uri: string) returns (r: Result<Option<Resource>, InitError>)
      modifies this
      ensures resources == Initialized(old(resources), assembly, parsers, manifestParser).resources
      ensures r == Resolution(old(resources), uri, assembly, parsers, manifestParser)
    {
      var err := InitResources();
      if err.Some? {
        return Failure(err.value);
      }
      return Success(Lookup(resources, uri));
    }
  }
}
