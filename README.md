# FhirAuConsole resource resolution, package loading and validation in Dafny

This project models how FhirAuConsole supplies the FHIR validator with conformance resources (StructureDefinitions, ValueSets, CodeSystems, …) and how it reports a validation:

- **`ResourceProxy`** (module `ResourceProxies`) turns one archive member into a parsed resource together with its canonical `url` and `version`. Its `Create` returns nothing for another extension, for a parse failure and for a missing or blank url.
- **`FhirPackage.Load`** (module `FhirPackages`) reads one gzipped tar FHIR package:
  - it refuses any archive that is not tar;
  - it skips directories, entries outside `package/` and `.index.json`;
  - it reads `package/package.json` for name, version, description, FHIR versions and rewritten dependencies;
  - it turns every other `.json` entry into a proxy.

  `Run`/`Step` specify the entry loop. The class `FhirPackage` and its `Load` method are proved against them.
- **`LocalResourceResolver`** (module `ResourceResolution`) holds one dictionary from canonical url, and from `url|version`, to proxy.
  - `InitResources` fills the dictionary once, only while it is empty. It first registers every embedded `.tgz` package in ascending name order. It then registers the hand-curated `Bundle.zip`, whose entries overwrite package entries with the same key.
  - The four `Resolve*` methods populate the dictionary and then look the uri up exactly.
  - The dictionary is a `map` field that the methods reassign. Each method is proved against the functions `Added`, `AddedAll`, `Initialized` and `Resolution`.
- **`FhirValidator.ValidateFhirBundle`** (module `FhirValidation`) covers these steps:
  - the parse-failure message;
  - the choice of the first `KBV_PR_EAU` profile, or the unsupported-version message when there is none;
  - the bundle version after the `|` of that profile, `1.1.0` otherwise;
  - the selection of the issues it reports: none on success, otherwise every issue that is neither a warning nor information, by its details text.

  The XML parser and the HL7 validator are parameters.

The supporting modules model parts of .NET that the core depends on:
- `Text`: ASCII ordinal-ignore-case comparison, `IsNullOrWhiteSpace`, ordinal order, `Split`/`Join`.
- `Paths`: `System.IO.Path.GetDirectoryName`, `GetFileName` and `GetExtension`, with `/` as the separator.
- `Wrappers`: `Option`/`Result`.

Exceptions that the code lets escape are modelled as `Failure` values. These are:
- a non-tar package;
- a file entry without a directory name;
- a manifest that is not a JSON object, or whose version list is not an array or whose dependencies are not an object;
- a missing embedded stream;
- a parsed bundle without `Meta`;
- a reported issue without `Details`.

Two behaviours of the code that the model keeps:
- The resolver keeps one dictionary and no per-bundle-version partitions. The bundle version the validator computes is only a value here (`SelectedBundleVersion`).
- When an exception interrupts `InitResources`, the entries registered so far stay in the dictionary. Any later call then returns at once if at least one entry had been registered (`Initialized`, `InitializedIdempotent`). When nothing had been registered, the next call populates again (`EmptyResultRepeats`).

## Model

| member | source | states |
|---|---|---|
| Text.Split | FhirAuConsole/FHIR/FhirValidator.cs:54 | `Split('\|')` gives at least one piece, no piece holds the separator, and joining the pieces gives back the input |
| Text.SplitJoin | FhirAuConsole/FHIR/FhirValidator.cs:54 | splitting the join of separator-free pieces gives back those pieces |
| Text.SplitAtSeparator | FhirAuConsole/FHIR/FhirValidator.cs:54 | splitting `x + "\|" + y` gives the pieces of `x` followed by the pieces of `y` |
| Text.SplitWithoutSeparator | FhirAuConsole/FHIR/FhirValidator.cs:54 | a text without the separator splits into itself alone |
| Text.OrdinalLeTotal | FhirAuConsole/FHIR/LocalResourceResolver.cs:49 | the order used to sort the package names is total |
| Text.OrdinalLeTransitive | FhirAuConsole/FHIR/LocalResourceResolver.cs:49 | that order is transitive |
| Text.OrdinalLeAntisymmetric | FhirAuConsole/FHIR/LocalResourceResolver.cs:49 | that order is antisymmetric, so the sorted result is unique |
| Paths.LastIndexOf | FhirAuConsole/FHIR/FhirPackage.cs:28-29 | the last position of a character, or -1 when it is absent |
| Paths.FileName | FhirAuConsole/FHIR/FhirPackage.cs:29 | `GetFileName` is the separator-free suffix that follows the last separator |
| Paths.Extension | FhirAuConsole/FHIR/ResourceProxy.cs:23 | `GetExtension` is "" exactly when the file name has no dot or ends with one; otherwise it is the dot-led suffix of the file name with no further dot |
| Paths.ExtensionOfFileName | FhirAuConsole/FHIR/FhirPackage.cs:54 | the extension depends on the file name only |
| Paths.TrimSeparators | FhirAuConsole/FHIR/FhirPackage.cs:28 | trailing separators before the cut are dropped, down to the root |
| Paths.DirectoryName | FhirAuConsole/FHIR/FhirPackage.cs:28 | `GetDirectoryName` is null exactly for "" and "/"; otherwise it is a prefix of the path |
| Paths.DirectoryNameCharacterisation | FhirAuConsole/FHIR/FhirPackage.cs:28 | which prefix: just the root when no separator follows it; otherwise the text before the last separator, cut back over the separators that end it but never into the root |
| Paths.DirectoryNameCut | FhirAuConsole/FHIR/FhirPackage.cs:28 | `GetDirectoryName` cuts the path where the trimming of separators stops, trimming back from the last separator, or from the root when no separator follows it |
| Paths.LastIndexOfSuffix | FhirAuConsole/FHIR/FhirPackage.cs:28 | searching past the root finds the last separator exactly when it lies past the root, and at the same position |
| Paths.EntryInDirectory | FhirAuConsole/FHIR/FhirPackage.cs:28-32 | for `dir/name`, the directory is `dir` and the file name is `name` |
| Paths.EntryInSubdirectory | FhirAuConsole/FHIR/FhirPackage.cs:28 | for `dir/sub/name`, the directory is `dir/sub` |
| ResourceProxies.FirstValue | FhirAuConsole/FHIR/ResourceProxy.cs:17-18 | the value of the first named child with the element name; none when no child has that name |
| ResourceProxies.NewProxy | FhirAuConsole/FHIR/ResourceProxy.cs:14-19 | the proxy keeps the resource; its url is the first `url` child; its version is the rendering of the first `version` child, "" when that renders as null, and "" when there is no `version` child |
| ResourceProxies.Create | FhirAuConsole/FHIR/ResourceProxy.cs:21-53 | nothing for other extensions; any proxy returned is identified and comes from the parser the extension selects; a returned nothing means a parse failure or a blank url; a non-blank url always yields the proxy |
| ResourceProxies.JsonMemberIgnoresXmlParser | FhirAuConsole/FHIR/ResourceProxy.cs:33-38 | a `.json` member's result does not depend on the XML parser |
| ResourceProxies.XmlMemberIgnoresJsonParser | FhirAuConsole/FHIR/ResourceProxy.cs:39-43 | an `.xml` member's result does not depend on the JSON parser |
| FhirPackages.ClassifyMeaning | FhirAuConsole/FHIR/FhirPackage.cs:27-62 | the loop branch is fixed by the entry: fault exactly for a file without a directory name; skip exactly for directories, other directories and `.index.json`; manifest exactly for `package/package.json` in any case; definition exactly for the other `.json` files |
| FhirPackages.Field | FhirAuConsole/FHIR/FhirPackage.cs:38-40 | `obj[key]` is present exactly when the key exists with a non-null value |
| FhirPackages.FhirVersionsOf | FhirAuConsole/FHIR/FhirPackage.cs:42-46 | `fhirVersions` wins; `fhir-version-list` is used only when `fhirVersions` is absent; neither present gives no versions; a non-array fails |
| FhirPackages.DependencyMembers | FhirAuConsole/FHIR/FhirPackage.cs:48-50 | no dependencies gives none; otherwise the object's members; a non-object fails |
| FhirPackages.RemoveChar | FhirAuConsole/FHIR/FhirPackage.cs:51 | `Replace(c, "")` removes every `c` and keeps every other character |
| FhirPackages.ReplaceChar | FhirAuConsole/FHIR/FhirPackage.cs:51 | `Replace(c, d)` changes each `c`, position by position, and nothing else |
| FhirPackages.RewriteDependencyMeaning | FhirAuConsole/FHIR/FhirPackage.cs:51 | a rewritten dependency has no quote, colon or space; it holds `\|` exactly when the rendering held `\|` or `:`; every other character that the rendering held it still holds |
| FhirPackages.RemoveCharAppend | FhirAuConsole/FHIR/FhirPackage.cs:51 | removal distributes over concatenation |
| FhirPackages.RemoveCharAbsent | FhirAuConsole/FHIR/FhirPackage.cs:51 | removing an absent character changes nothing |
| FhirPackages.RewriteDependencyAppend | FhirAuConsole/FHIR/FhirPackage.cs:51 | the rewrite distributes over concatenation |
| FhirPackages.RewriteDependencyPlain | FhirAuConsole/FHIR/FhirPackage.cs:51 | a text without quote, colon or space is kept as it is |
| FhirPackages.RewriteDependencyChar | FhirAuConsole/FHIR/FhirPackage.cs:51 | per character: quote and space vanish, colon becomes `\|`, anything else stays |
| FhirPackages.RewriteOfKeyPart | FhirAuConsole/FHIR/FhirPackage.cs:51 | the `[name, ` head of a `KeyValuePair` rendering becomes `[name,` |
| FhirPackages.RewriteOfKeyValuePair | FhirAuConsole/FHIR/FhirPackage.cs:51 | the `KeyValuePair` rendering `[name, constraint]` becomes `[name,constraint]`, which holds no `\|` |
| FhirPackages.NoPipeInKeyValuePair | FhirAuConsole/FHIR/FhirPackage.cs:51 | `[name,constraint]` holds no `\|` when neither part does |
| FhirPackages.RewriteOfJsonPair | FhirAuConsole/FHIR/FhirPackage.cs:51 | the JSON text `"name": "constraint"` becomes `name\|constraint` |
| FhirPackages.RewriteWithoutColon | FhirAuConsole/FHIR/FhirPackage.cs:51 | a rendering with no colon and no `\|` gains no `\|` |
| FhirPackages.RewriteAll | FhirAuConsole/FHIR/FhirPackage.cs:50-51 | each dependency member is rewritten, in order |
| FhirPackages.ManifestFields | FhirAuConsole/FHIR/FhirPackage.cs:37-51 | the manifest sets name, version and description from their fields ("" when absent); it appends the FHIR versions and the rewritten dependencies; the dependencies are the earlier ones followed by `RewriteAll` of the members, in order, when the field is present and not null, and are unchanged otherwise; it keeps the proxies |
| FhirPackages.ManifestKeepsProxies | FhirAuConsole/FHIR/FhirPackage.cs:32-51 | a manifest leaves the proxies unchanged |
| FhirPackages.DemoManifestApplied | FhirAuConsole/FHIR/FhirPackage.cs:37-51 | a manifest with name, version and one dependency gives exactly those properties |
| FhirPackages.Loaded | FhirAuConsole/FHIR/FhirPackage.cs:20-25 | a non-tar archive fails with NotSupported before any entry is read; a tar archive gives the entry loop's result |
| FhirPackages.RunFailurePersists | FhirAuConsole/FHIR/FhirPackage.cs:25-63 | once an entry raises, the load ends with that error |
| FhirPackages.GatherAppend | FhirAuConsole/FHIR/FhirPackage.cs:25 | contributions distribute over appending one entry |
| FhirPackages.GatherLast | FhirAuConsole/FHIR/FhirPackage.cs:25 | the contributions of a non-empty sequence are those of all but its last entry followed by the last entry's |
| FhirPackages.HarvestLast | FhirAuConsole/FHIR/FhirPackage.cs:54-62 | the harvested proxies of a non-empty entry sequence are those of all but its last entry followed by the last entry's contribution |
| FhirPackages.HarvestAppend | FhirAuConsole/FHIR/FhirPackage.cs:54-62 | the harvested proxies of `entries + [e]` are those of `entries` followed by the contribution of `e` |
| FhirPackages.StepProxies | FhirAuConsole/FHIR/FhirPackage.cs:27-62 | one successful step appends exactly the entry's contribution to the proxies |
| FhirPackages.RunLastProxies | FhirAuConsole/FHIR/FhirPackage.cs:25-62 | a successful run's proxies are those of the run without the last entry, then the last entry's contribution |
| FhirPackages.RunHarvestsDefinitions | FhirAuConsole/FHIR/FhirPackage.cs:54-62 | a successful load holds, in entry order, exactly the proxies `Create` gives for the eligible non-manifest `.json` entries |
| FhirPackages.HarvestBound | FhirAuConsole/FHIR/FhirPackage.cs:54-62 | there are at most as many harvested proxies as definition entries |
| FhirPackages.ProxyCountBound | FhirAuConsole/FHIR/FhirPackage.cs:14 | a package never holds more proxies than it has definition entries |
| FhirPackages.StepManifest | FhirAuConsole/FHIR/FhirPackage.cs:32-51 | a parsed manifest entry applies the manifest |
| FhirPackages.StepDefinition | FhirAuConsole/FHIR/FhirPackage.cs:54-62 | a definition entry appends its proxy, or leaves the package unchanged when `Create` gives nothing |
| FhirPackages.ManifestStepWellFormed | FhirAuConsole/FHIR/FhirPackage.cs:48-51 | reading a manifest keeps the package well formed |
| FhirPackages.DefinitionStepWellFormed | FhirAuConsole/FHIR/FhirPackage.cs:54-62 | adding a definition keeps the package well formed |
| FhirPackages.StepWellFormed | FhirAuConsole/FHIR/FhirPackage.cs:27-62 | every step keeps the package well formed |
| FhirPackages.RunWellFormed | FhirAuConsole/FHIR/FhirPackage.cs:25-63 | the entry loop keeps the package well formed |
| FhirPackages.LoadedWellFormed | FhirAuConsole/FHIR/FhirPackage.cs:16-66 | every proxy of a loaded package is identified, and every dependency is free of quotes, colons and spaces |
| FhirPackages.StepWithoutManifest | FhirAuConsole/FHIR/FhirPackage.cs:27-62 | a non-manifest entry that has a directory name only contributes its proxy |
| FhirPackages.RunWithoutManifest | FhirAuConsole/FHIR/FhirPackage.cs:9-14 | without a manifest the metadata keep their initial values while the proxies are still harvested |
| FhirPackages.ManifestEntryClassified | FhirAuConsole/FHIR/FhirPackage.cs:32 | `package/package.json` takes the manifest branch |
| FhirPackages.ClassifyInPackage | FhirAuConsole/FHIR/FhirPackage.cs:29-54 | a file in `package/` is classified by its file name and extension alone |
| FhirPackages.DefinitionEntryClassified | FhirAuConsole/FHIR/FhirPackage.cs:54 | `package/<name>.json` (any case, not the manifest or the index) takes the definition branch |
| FhirPackages.JsonMemberInPackage | FhirAuConsole/FHIR/FhirPackage.cs:54 | the `package/` prefix does not change whether a member counts as `.json` |
| FhirPackages.NestedEntrySkipped | FhirAuConsole/FHIR/FhirPackage.cs:28-30 | a file in a sub-folder such as `package/examples` is skipped |
| FhirPackages.RunOfThree | FhirAuConsole/FHIR/FhirPackage.cs:25 | three entries are three steps in order |
| FhirPackages.FirstDefinition | FhirAuConsole/FHIR/FhirPackage.cs:54-62 | a definition with a url read into a package with no proxies becomes its only proxy, and nothing else changes |
| FhirPackages.ManifestThenTwoDefinitions | FhirAuConsole/FHIR/FhirPackage.cs:25-62 | a manifest, then a definition with a url, then one without gives the manifest's package with the one proxy |
| FhirPackages.ManifestAndDefinitions | FhirAuConsole/FHIR/FhirPackage.cs:16-66 | loading a tar archive with a manifest, a good `.json` and a `.json` that fails to parse gives the manifest's properties and the single proxy |
| FhirPackages.FhirPackage.constructor | FhirAuConsole/FHIR/FhirPackage.cs:9-14 | all properties start as empty strings and empty lists |
| FhirPackages.FhirPackage.AppendFhirVersions | FhirAuConsole/FHIR/FhirPackage.cs:44-46 | the versions are appended in order and nothing else changes |
| FhirPackages.FhirPackage.AppendDependencies | FhirAuConsole/FHIR/FhirPackage.cs:49-51 | the rewritten dependencies are appended in order and nothing else changes |
| FhirPackages.FhirPackage.ReadManifest | FhirAuConsole/FHIR/FhirPackage.cs:37-51 | the manifest branch fails exactly when `ApplyManifest` does, with the same error; otherwise the new properties are those `ApplyManifest` gives |
| FhirPackages.FhirPackage.Load | FhirAuConsole/FHIR/FhirPackage.cs:16-66 | `Load` fails exactly when `Loaded` does, with the same error; otherwise it returns a fresh package whose properties are those `Loaded` gives |
| ResourceResolution.Added | FhirAuConsole/FHIR/LocalResourceResolver.cs:14-26 | `Add` makes both the bare url and `url\|version` lead to the proxy, overwriting or adding; every other key is unchanged |
| ResourceResolution.AddedAllAppend | FhirAuConsole/FHIR/LocalResourceResolver.cs:34-43 | registering `a + b` is registering `a`, then `b` |
| ResourceResolution.LastWriteWins | FhirAuConsole/FHIR/LocalResourceResolver.cs:16-22 | a key leads to the last proxy registered under it |
| ResourceResolution.LaterWins | FhirAuConsole/FHIR/LocalResourceResolver.cs:40-43 | proxies registered later win on their keys |
| ResourceResolution.EarlierKept | FhirAuConsole/FHIR/LocalResourceResolver.cs:40-43 | keys that later proxies do not claim keep the earlier proxy |
| ResourceResolution.UntouchedKey | FhirAuConsole/FHIR/LocalResourceResolver.cs:16-22 | a key no proxy claims keeps its presence and its value |
| ResourceResolution.KeysOfAddedAll | FhirAuConsole/FHIR/LocalResourceResolver.cs:24-25 | the keys after registering are exactly the old keys plus both keys of each proxy |
| ResourceResolution.AddedAllConsistent | FhirAuConsole/FHIR/LocalResourceResolver.cs:14-26 | registering identified proxies keeps every key leading to a proxy registered under it |
| ResourceResolution.TgzNames | FhirAuConsole/FHIR/LocalResourceResolver.cs:49 | the kept names are exactly the listed ones ending in `.tgz`, never more often than listed; `TgzNamesCounts` gives the exact counts |
| ResourceResolution.TgzNamesCounts | FhirAuConsole/FHIR/LocalResourceResolver.cs:49 | a name ending in `.tgz` occurs as often as it is listed; any other name does not occur |
| ResourceResolution.TarPackageNamesCounts | FhirAuConsole/FHIR/LocalResourceResolver.cs:49 | the sorted package names hold each `.tgz` name exactly as often as it is listed, and no other name |
| ResourceResolution.Insert | FhirAuConsole/FHIR/LocalResourceResolver.cs:49 | insertion keeps the names sorted and adds exactly one name |
| ResourceResolution.SortNames | FhirAuConsole/FHIR/LocalResourceResolver.cs:49 | `OrderBy(name => name)` gives a sorted permutation |
| ResourceResolution.SortedHeads | FhirAuConsole/FHIR/LocalResourceResolver.cs:49 | two sorted permutations of the same names start alike |
| ResourceResolution.SameTails | FhirAuConsole/FHIR/LocalResourceResolver.cs:49 | removing the same first element keeps the two collections equal |
| ResourceResolution.SortedUnique | FhirAuConsole/FHIR/LocalResourceResolver.cs:49 | two sorted permutations of the same names are equal |
| ResourceResolution.TarPackageNames | FhirAuConsole/FHIR/LocalResourceResolver.cs:49 | the package names are the `.tgz` names, sorted, with the same multiplicities |
| ResourceResolution.TarPackageOrderDetermined | FhirAuConsole/FHIR/LocalResourceResolver.cs:49-50 | any ascending arrangement of the `.tgz` names is the order in which the packages are opened |
| ResourceResolution.Kept | FhirAuConsole/FHIR/LocalResourceResolver.cs:58-64 | at most as many proxies as entries are kept |
| ResourceResolution.KeptSingle | FhirAuConsole/FHIR/LocalResourceResolver.cs:58-64 | one entry contributes its proxy when it has one, and nothing otherwise |
| ResourceResolution.KeptAppend | FhirAuConsole/FHIR/LocalResourceResolver.cs:58-64 | the proxies kept from `a + b` are those kept from `a`, in order, followed by those kept from `b` |
| ResourceResolution.KeptMembers | FhirAuConsole/FHIR/LocalResourceResolver.cs:61-63 | a proxy is kept exactly when some entry yields it |
| ResourceResolution.CreatedMembers | FhirAuConsole/FHIR/LocalResourceResolver.cs:58-64 | a custom proxy is in the list exactly when `Create` returns it for some bundle entry |
| ResourceResolution.CreatedIdentified | FhirAuConsole/FHIR/LocalResourceResolver.cs:58-64 | every custom proxy is identified |
| ResourceResolution.MergeFailurePersists | FhirAuConsole/FHIR/LocalResourceResolver.cs:33-39 | once a package raises, `InitResources` ends with that error and with what it had registered until then |
| ResourceResolution.MergeRegistersPackageProxies | FhirAuConsole/FHIR/LocalResourceResolver.cs:33-39 | the package loop fails exactly when some package fails, with that error; otherwise it registers the concatenated package proxies |
| ResourceResolution.MergeOrder | FhirAuConsole/FHIR/LocalResourceResolver.cs:33-43 | a successful population registers the package proxies, then the custom proxies |
| ResourceResolution.CustomOverrides | FhirAuConsole/FHIR/LocalResourceResolver.cs:40-43 | on a colliding key, a `Bundle.zip` proxy overwrites every package proxy |
| ResourceResolution.PackageResourceKept | FhirAuConsole/FHIR/LocalResourceResolver.cs:33-43 | a key no custom proxy claims leads to the last package proxy with it |
| ResourceResolution.PackageProxiesIdentified | FhirAuConsole/FHIR/LocalResourceResolver.cs:36-38 | every package proxy is identified |
| ResourceResolution.MergeConsistent | FhirAuConsole/FHIR/LocalResourceResolver.cs:33-39 | the package loop keeps the dictionary consistent, even when it raises |
| ResourceResolution.InitializedConsistent | FhirAuConsole/FHIR/LocalResourceResolver.cs:12-45 | `InitResources` keeps the dictionary consistent whether it completes or not |
| ResourceResolution.InitializedIdempotent | FhirAuConsole/FHIR/LocalResourceResolver.cs:30-31 | no key is removed, and a call on a non-empty dictionary changes nothing |
| ResourceResolution.EmptyResultRepeats | FhirAuConsole/FHIR/LocalResourceResolver.cs:30-31 | an empty dictionary after a call means it was empty before, and the call repeats the same way |
| ResourceResolution.Lookup | FhirAuConsole/FHIR/LocalResourceResolver.cs:72 | `TryGetValue` finds exactly the present keys and returns the proxy's resource |
| ResourceResolution.LookupSound | FhirAuConsole/FHIR/LocalResourceResolver.cs:69-73 | a found resource is the resource of the proxy stored under the uri; that proxy has a url, and its url or `url\|version` is the uri |
| ResourceResolution.ResolvesCustomResource | FhirAuConsole/FHIR/LocalResourceResolver.cs:69-73 | after a successful population, a custom proxy's key resolves to its resource |
| ResourceResolution.LocalResourceResolver.constructor | FhirAuConsole/FHIR/LocalResourceResolver.cs:9 | the dictionary starts empty |
| ResourceResolution.LocalResourceResolver.AddOrUpdate | FhirAuConsole/FHIR/LocalResourceResolver.cs:16-22 | the key now leads to the resource and nothing else changes |
| ResourceResolution.LocalResourceResolver.Add | FhirAuConsole/FHIR/LocalResourceResolver.cs:14-26 | the new dictionary is `Added` of the old one |
| ResourceResolution.LocalResourceResolver.AddAll | FhirAuConsole/FHIR/LocalResourceResolver.cs:37-38 | the new dictionary is `AddedAll` of the old one, in list order |
| ResourceResolution.LocalResourceResolver.GetCustomResources | FhirAuConsole/FHIR/LocalResourceResolver.cs:53-67 | the result is `CustomResources`: the non-null `Create` results in archive order, or StreamMissing without the bundle |
| ResourceResolution.LocalResourceResolver.InitResources | FhirAuConsole/FHIR/LocalResourceResolver.cs:12-45 | the new dictionary and the escaping error are those `Initialized` gives for the old dictionary |
| ResourceResolution.LocalResourceResolver.ResolveByCanonicalUri | FhirAuConsole/FHIR/LocalResourceResolver.cs:69-73 | populate, then look up; the result is `Resolution` |
| ResourceResolution.LocalResourceResolver.ResolveByUri | FhirAuConsole/FHIR/LocalResourceResolver.cs:75-79 | populate, then look up; the result is `Resolution` |
| ResourceResolution.LocalResourceResolver.ResolveByUriAsync | FhirAuConsole/FHIR/LocalResourceResolver.cs:81-85 | populate, then look up; the result is `Resolution` |
| ResourceResolution.LocalResourceResolver.ResolveByCanonicalUriAsync | FhirAuConsole/FHIR/LocalResourceResolver.cs:87-91 | populate, then look up; the result is `Resolution` |
| FhirValidation.FirstWithPrefix | FhirAuConsole/FHIR/FhirValidator.cs:50 | none exactly when no profile starts with the prefix; otherwise the first profile that does |
| FhirValidation.SplitLength | FhirAuConsole/FHIR/FhirValidator.cs:54 | `Split` yields one piece more than there are separators |
| FhirValidation.TaggedVersion | FhirAuConsole/FHIR/FhirValidator.cs:54-55 | `p\|v` selects version `v` |
| FhirValidation.UntaggedVersion | FhirAuConsole/FHIR/FhirValidator.cs:55 | a profile without `\|` selects `1.1.0` |
| FhirValidation.OverTaggedVersion | FhirAuConsole/FHIR/FhirValidator.cs:55 | a profile with two or more `\|` selects `1.1.0` |
| FhirValidation.VersionCharacterisation | FhirAuConsole/FHIR/FhirValidator.cs:54-55 | the version is the text after the `\|` exactly when there is a single `\|`; otherwise `1.1.0` |
| FhirValidation.Filtered | FhirAuConsole/FHIR/FhirValidator.cs:64-65 | an issue is kept exactly when it is neither information nor a warning (a missing severity is kept) |
| FhirValidation.FilteredAppend | FhirAuConsole/FHIR/FhirValidator.cs:64-65 | the filter keeps the issue order |
| FhirValidation.FilteredQuiet | FhirAuConsole/FHIR/FhirValidator.cs:64-65 | only warnings and information: nothing is reported |
| FhirValidation.Texts | FhirAuConsole/FHIR/FhirValidator.cs:66-67 | the details texts, position by position; fails exactly when some issue has no details |
| FhirValidation.ReportedIssues | FhirAuConsole/FHIR/FhirValidator.cs:62-67 | a failed validation reports each reportable issue by its details text, in order |
| FhirValidation.QuietIssuesDropped | FhirAuConsole/FHIR/FhirValidator.cs:64-65 | adding warnings and information changes nothing in the report |
| FhirValidation.ValidateFhirBundle | FhirAuConsole/FHIR/FhirValidator.cs:39-67 | parse failure gives "Fehler beim Parsen"; no `Meta` fails; no eAU profile gives "Version nicht unterstützt."; otherwise the validator's report |
| FhirValidation.SelectedBundleVersion | FhirAuConsole/FHIR/FhirValidator.cs:50-55 | the version is taken from the first eAU profile |
| FhirValidation.FirstProfileDecides | FhirAuConsole/FHIR/FhirValidator.cs:50-55 | the first eAU profile decides the version, even when a later one is present |

## Left out

- The readers for tar, gzip and zip, the stream reading and the JSON, FHIR-JSON and FHIR-XML parsers are left out. Archives are sequences of entries. The parsers are function parameters that return `None` where they throw.
- The `lock` in `InitResources` (LocalResourceResolver.cs:28) is left out. The model is sequential.
- The `Task` of the two `*Async` resolve methods is left out. Each method returns the task's result.
- `ValidateFhirBundle`'s `GetSettings` is left out, together with the terminology service and the HL7 validator itself, whose outcome is a parameter.
- The `CurrentBundleVersion` assignments (FhirValidator.cs:56-59) are left out. The resolver in this repository has no such property, so the selected version is returned as a value.
- `Program.cs` and the console I/O are not part of this model.
- Text.EqualsIgnoreCase: folds the case of ASCII letters only, not of the full Unicode range that `OrdinalIgnoreCase` covers.
- ResourceResolution.SortNames: `OrderBy(name => name)` uses the current culture; the model sorts ordinally. `TarPackageOrderDetermined` shows that the order is fixed for the ordinal order; its proof uses only that order's totality, transitivity and antisymmetry.
- TgzNames and FirstWithPrefix: the culture-sensitive `EndsWith(".tgz")` and `StartsWith(prefix)` are modelled as ordinal comparisons.
- Paths.DirectoryName: models `/` as the only separator. Windows separators and drive roots are left out. .NET also collapses repeated separators inside the result ("a//b/c" gives "a/b"); the model keeps them. The comparison with "package" (FhirPackage.cs:28-32) gives the same outcome either way, because a result that still holds a separator is never "package".
- ResourceProxies.NewProxy: requires a url child with a value. Only `Create` calls the constructor, after its blank check.
- ResourceProxies.FirstValue: a child whose value object is null, for which `c.Value.ToString()` throws, is not represented. `None` stands for a value that renders as null.
- FhirPackages.DependencyMembers: the text `KeyValuePair.ToString()` renders for a dependency is kept abstract. `RewriteOfJsonPair` covers the JSON-pair form `"name": "constraint"`. `RewriteWithoutColon` covers renderings without a colon. `RewriteOfKeyValuePair` shows that the `[name, constraint]` rendering becomes `[name,constraint]`, with no `|`.
- FhirPackages.FhirVersionsOf: null elements of the version array, on which `ToString()` throws, are not represented.
- ResourceResolution.Lookup: a null uri, which makes `TryGetValue` throw, is not represented because strings here are never null.
