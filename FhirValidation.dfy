/**
 * `FhirValidator.ValidateFhirBundle`, restricted to what it decides itself: the
 * parse-failure message, the choice of the first eAU profile and of its bundle
 * version, the unsupported-profile message, and the selection of the issues
 * that are reported. The XML parser and the HL7 validator are parameters.
 */
module FhirValidation {
  import opened Wrappers
  import opened Text

  /** `OperationOutcome.IssueSeverity`. */
  datatype Severity = Fatal | Error | Warning | Information

  /** `issue.Details`, reduced to its `Text` (`None` for `null`). */
  datatype Details = Details(text: Option<string>)

  /** One `OperationOutcome` issue: a nullable severity and nullable details. */
  datatype Issue = Issue(severity: Option<Severity>, details: Option<Details>)

  /** The validator's result. */
  datatype ValidationOutcome = ValidationOutcome(success: bool, issues: seq<Issue>)

  /** `resource.Meta`, reduced to its profile canonicals. */
  datatype Meta = Meta(profile: seq<string>)

  /** The parsed bundle, seen through its `Meta` (`None` for `null`). */
  datatype ParsedBundle = ParsedBundle(meta: Option<Meta>)

  /** The exceptions `ValidateFhirBundle` lets escape. */
  datatype ValidatorError =
    | MetaMissing        // `geparstesXml.Meta` is null
    | DetailsMissing     // a reported issue has no `Details`

  const ProfilePrefix := "https://fhir.kbv.de/StructureDefinition/KBV_PR_EAU"
  const DefaultBundleVersion := "1.1.0"
  const ParseFailureMessage := "Fehler beim Parsen"
  const UnsupportedVersionMessage := "Version nicht unterstützt."
  const VersionSeparator := '|'

  // ---------------------------------------------------------------------
  // Profile and bundle version

  /** `profiles.FirstOrDefault(p => p.StartsWith(prefix))`. */
  function FirstWithPrefix(profiles: seq<string>, prefix: string): (r: Option<string>)
    ensures r.None? <==> forall i :: 0 <= i < |profiles| ==> !StartsWith(profiles[i], prefix)
    ensures r.Some? ==> exists i :: 0 <= i < |profiles| && profiles[i] == r.value
                          && StartsWith(profiles[i], prefix)
                          && forall j :: 0 <= j < i ==> !StartsWith(profiles[j], prefix)
    decreases |profiles|
  {
    if |profiles| == 0 then None
    else if StartsWith(profiles[0], prefix) then Some(profiles[0])
    else
      var r := FirstWithPrefix(profiles[1..], prefix);
      assert forall i :: 0 < i < |profiles| ==> profiles[i] == profiles[1..][i - 1];
      if r.Some? then
        var i :| 0 <= i < |profiles[1..]| && profiles[1..][i] == r.value && StartsWith(profiles[1..][i], prefix)
                 && forall j :: 0 <= j < i ==> !StartsWith(profiles[1..][j], prefix);
        assert profiles[i + 1] == r.value;
        r
      else r
  }

  /** `split.Length == 2 ? split[1] : "1.1.0"` with `split = profile.Split('|')`. */
  function BundleVersion(profile: string): string {
    var parts := Split(profile, VersionSeparator);
    if |parts| == 2 then parts[1] else DefaultBundleVersion
  }

  /** The number of occurrences of `c` in `s`. */
  function Count(s: string, c: char): nat
    decreases |s|
  {
    if |s| == 0 then 0 else (if s[0] == c then 1 else 0) + Count(s[1..], c)
  }

  /** `Split` yields one piece more than there are separators. */
  lemma {:induction false} SplitLength(s: string, sep: char)
    ensures |Split(s, sep)| == Count(s, sep) + 1
    decreases |s|
  {
    if |s| > 0 {
      SplitLength(s[1..], sep);
    }
  }

  /** A profile `p|v` tags bundle version `v`. */
  lemma TaggedVersion(p: string, v: string)
    requires VersionSeparator !in p && VersionSeparator !in v
    ensures BundleVersion(p + [VersionSeparator] + v) == v
  {
    SplitAtSeparator(p, v, VersionSeparator);
    SplitWithoutSeparator(p, VersionSeparator);
    SplitWithoutSeparator(v, VersionSeparator);
  }

  /** A profile without `|` gets the default bundle version. */
  lemma UntaggedVersion(p: string)
    requires VersionSeparator !in p
    ensures BundleVersion(p) == DefaultBundleVersion
  {
    SplitWithoutSeparator(p, VersionSeparator);
  }

  /** A profile with two or more `|` gets the default bundle version too. */
  lemma OverTaggedVersion(p: string, a: string, b: string)
    ensures BundleVersion(p + [VersionSeparator] + a + [VersionSeparator] + b) == DefaultBundleVersion
  {
    var s := p + [VersionSeparator] + a + [VersionSeparator] + b;
    assert s == p + [VersionSeparator] + (a + [VersionSeparator] + b);
    SplitAtSeparator(p, a + [VersionSeparator] + b, VersionSeparator);
    SplitAtSeparator(a, b, VersionSeparator);
  }

  /**
   * The selected version is the text after the `|` exactly when the profile
   * holds a single `|`; otherwise it is the default.
   */
  lemma VersionCharacterisation(profile: string)
    ensures Count(profile, VersionSeparator) != 1 ==> BundleVersion(profile) == DefaultBundleVersion
    ensures Count(profile, VersionSeparator) == 1 ==>
              exists i :: 0 <= i < |profile| && profile[i] == VersionSeparator
                          && BundleVersion(profile) == profile[i + 1..]
  {
    SplitLength(profile, VersionSeparator);
    var parts := Split(profile, VersionSeparator);
    if |parts| == 2 {
      assert Join(parts, VersionSeparator) == parts[0] + [VersionSeparator] + Join(parts[1..], VersionSeparator);
      assert parts[1..] == [parts[1]];
      var i := |parts[0]|;
      assert profile == parts[0] + [VersionSeparator] + parts[1];
      assert profile[i] == VersionSeparator;
      assert profile[i + 1..] == parts[1];
    }
  }

  // ---------------------------------------------------------------------
  // Reported issues

  /** An issue that is neither `Information` nor `Warning` (a missing severity included). */
  predicate Reportable(i: Issue) {
    i.severity != Some(Information) && i.severity != Some(Warning)
  }

  /** `issues.Where(Reportable)`. */
  function Filtered(issues: seq<Issue>): (r: seq<Issue>)
    ensures forall i :: i in r <==> i in issues && Reportable(i)
    ensures |r| <= |issues|
    decreases |issues|
  {
    if |issues| == 0 then []
    else
      assert issues == [issues[0]] + issues[1..];
      (if Reportable(issues[0]) then [issues[0]] else []) + Filtered(issues[1..])
  }

  /** The filter keeps the original order: it distributes over concatenation. */
  lemma {:induction false} FilteredAppend(a: seq<Issue>, b: seq<Issue>)
    ensures Filtered(a + b) == Filtered(a) + Filtered(b)
    decreases |a|
  {
    if |a| == 0 {
      assert a + b == b;
    } else {
      assert (a + b)[0] == a[0];
      assert (a + b)[1..] == a[1..] + b;
      FilteredAppend(a[1..], b);
    }
  }

  /** `.Select(i => i.Details.Text)`: a missing `Details` raises. */
  function Texts(issues: seq<Issue>): (r: Result<seq<Option<string>>, ValidatorError>)
    ensures r.Failure? <==> exists i :: 0 <= i < |issues| && issues[i].details.None?
    ensures r.Success? ==> |r.value| == |issues|
                           && forall i :: 0 <= i < |issues| ==> r.value[i] == issues[i].details.value.text
    decreases |issues|
  {
    if |issues| == 0 then Success([])
    else
      var rest := Texts(issues[1..]);
      assert forall i :: 0 < i < |issues| ==> issues[i] == issues[1..][i - 1];
      match issues[0].details
      case None => Failure(DetailsMissing)
      case Some(d) =>
        match rest
        case Failure(e) => Failure(e)
        case Success(texts) => Success([d.text] + texts)
  }

  /** What a finished validation returns: nothing on success, else the texts of the reportable issues. */
  function Reported(outcome: ValidationOutcome): Result<seq<Option<string>>, ValidatorError> {
    if outcome.success then Success([]) else Texts(Filtered(outcome.issues))
  }

  /** A failed validation reports exactly the reportable issues, each by its details text, in order. */
  lemma ReportedIssues(outcome: ValidationOutcome)
    requires !outcome.success && Reported(outcome).Success?
    ensures var r := Reported(outcome).value;
      && |r| == |Filtered(outcome.issues)|
      && forall k :: 0 <= k < |r| ==> (Reportable(Filtered(outcome.issues)[k])
                                       && Filtered(outcome.issues)[k] in outcome.issues
                                       && r[k] == Filtered(outcome.issues)[k].details.value.text)
  {
    var f := Filtered(outcome.issues);
    forall k | 0 <= k < |f| ensures Reportable(f[k]) && f[k] in outcome.issues {
      assert f[k] in f;
    }
  }

  /** Only warnings and information: nothing is kept. */
  lemma {:induction false} FilteredQuiet(quiet: seq<Issue>)
    requires forall i :: 0 <= i < |quiet| ==> !Reportable(quiet[i])
    ensures Filtered(quiet) == []
    decreases |quiet|
  {
    if |quiet| > 0 {
      assert forall i :: 0 <= i < |quiet[1..]| ==> quiet[1..][i] == quiet[i + 1];
      FilteredQuiet(quiet[1..]);
    }
  }

  /** Warnings and information never reach the result, whatever else the outcome holds. */
  lemma QuietIssuesDropped(outcome: ValidationOutcome, quiet: seq<Issue>)
    requires forall i :: 0 <= i < |quiet| ==> quiet[i].severity == Some(Warning) || quiet[i].severity == Some(Information)
    ensures Reported(ValidationOutcome(outcome.success, outcome.issues + quiet)) == Reported(outcome)
  {
    FilteredAppend(outcome.issues, quiet);
    FilteredQuiet(quiet);
    assert Filtered(outcome.issues) + [] == Filtered(outcome.issues);
  }

  // ---------------------------------------------------------------------
  // ValidateFhirBundle

  /**
   * `ValidateFhirBundle(input, …)` with the XML parser (`None` when it throws)
   * and the validator as parameters.
   */
  function ValidateFhirBundle(input: string, parseXml: string -> Option<ParsedBundle>,
                              validate: ParsedBundle -> ValidationOutcome): (r: Result<seq<Option<string>>, ValidatorError>)
    ensures parseXml(input).None? ==> r == Success([Some(ParseFailureMessage)])
    ensures parseXml(input).Some? && parseXml(input).value.meta.None? ==> r == Failure(MetaMissing)
    ensures parseXml(input).Some? && parseXml(input).value.meta.Some? ==>
              var profiles := parseXml(input).value.meta.value.profile;
              && ((forall i :: 0 <= i < |profiles| ==> !StartsWith(profiles[i], ProfilePrefix))
                    ==> r == Success([Some(UnsupportedVersionMessage)]))
              && ((exists i :: 0 <= i < |profiles| && StartsWith(profiles[i], ProfilePrefix))
                    ==> r == Reported(validate(parseXml(input).value)))
  {
    match parseXml(input)
    case None => Success([Some(ParseFailureMessage)])
    case Some(bundle) =>
      match bundle.meta
      case None => Failure(MetaMissing)
      case Some(meta) =>
        match FirstWithPrefix(meta.profile, ProfilePrefix)
        case None => Success([Some(UnsupportedVersionMessage)])
        case Some(profile) => Reported(validate(bundle))
  }

  /** The bundle version the validator selects for a parsed bundle, when it gets that far. */
  function SelectedBundleVersion(bundle: ParsedBundle): (v: Option<string>)
    ensures v.Some? ==> bundle.meta.Some?
    ensures v.Some? ==> exists i :: 0 <= i < |bundle.meta.value.profile|
                                  && StartsWith(bundle.meta.value.profile[i], ProfilePrefix)
                                  && v.value == BundleVersion(bundle.meta.value.profile[i])
                                  && forall j :: 0 <= j < i ==> !StartsWith(bundle.meta.value.profile[j], ProfilePrefix)
  {
    match bundle.meta
    case None => None
    case Some(meta) =>
      match FirstWithPrefix(meta.profile, ProfilePrefix)
      case None => None
      case Some(profile) => Some(BundleVersion(profile))
  }

  /** The profile that decides the version: the first eAU profile, even when a later one is also present. */
  lemma FirstProfileDecides(before: seq<string>, profile: string, after: seq<string>)
    requires forall i :: 0 <= i < |before| ==> !StartsWith(before[i], ProfilePrefix)
    requires StartsWith(profile, ProfilePrefix)
    ensures SelectedBundleVersion(ParsedBundle(Some(Meta(before + [profile] + after)))) == Some(BundleVersion(profile))
  {
    var all := before + [profile] + after;
    var r := FirstWithPrefix(all, ProfilePrefix);
    assert all[|before|] == profile;
    assert forall j :: 0 <= j < |before| ==> all[j] == before[j];
  }
}
