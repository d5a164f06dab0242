/**
 * `ResourceProxy`: one parsed conformance resource with the canonical identity
 * (url, version) read from its named children, and `ResourceProxy.Create`,
 * which turns one archive entry into a proxy or into nothing.
 */
module ResourceProxies {
  import opened Wrappers
  import opened Text
  import Paths

  newtype uint8 = x: int | 0 <= x < 256
  type Bytes = seq<uint8>

  /**
   * One element of `Resource.NamedChildren`: its element name and the text of
   * `Value.ToString()`, `None` when that text is `null`.
   */
  datatype NamedChild = NamedChild(elementName: string, value: Option<string>)

  /** A parsed resource, seen only through its named children. */
  datatype Resource = Resource(namedChildren: seq<NamedChild>)

  /** The JSON and XML parsers: `None` when parsing throws. */
  datatype Parsers = Parsers(json: Bytes -> Option<Resource>, xml: Bytes -> Option<Resource>)

  datatype ResourceProxy = ResourceProxy(url: string, version: string, resource: Resource)

  const UrlElement := "url"
  const VersionElement := "version"
  const JsonExtension := ".json"
  const XmlExtension := ".xml"

  /** `i` is the first position whose child is called `name`. */
  predicate IsFirstNamed(children: seq<NamedChild>, name: string, i: int) {
    0 <= i < |children| && children[i].elementName == name
    && forall j :: 0 <= j < i ==> children[j].elementName != name
  }

  /**
   * `NamedChildren.Where(c => c.ElementName.Equals(name)).Select(c => c.Value.ToString()).FirstOrDefault()`:
   * the value of the first child with that name; `None` when there is no such
   * child or its value renders as `null`.
   */
  function FirstValue(children: seq<NamedChild>, name: string): (v: Option<string>)
    ensures (forall i :: 0 <= i < |children| ==> children[i].elementName != name) ==> v == None
    ensures forall i :: IsFirstNamed(children, name, i) ==> v == children[i].value
    decreases |children|
  {
    if |children| == 0 then None
    else if children[0].elementName == name then children[0].value
    else
      var rest := FirstValue(children[1..], name);
      assert forall i :: IsFirstNamed(children, name, i) ==> IsFirstNamed(children[1..], name, i - 1);
      rest
  }

  /** The proxy's url and version are those its constructor reads from the resource, and the url is not blank. */
  predicate Identified(p: ResourceProxy) {
    && FirstValue(p.resource.namedChildren, UrlElement) == Some(p.url)
    && !IsBlank(p.url)
    && p.version == FirstValue(p.resource.namedChildren, VersionElement).GetOr("")
  }

  /**
   * The `ResourceProxy(Resource)` constructor: `Url` is the first `url` child,
   * `Version` the first `version` child or "" when there is none.
   */
  function NewProxy(resource: Resource): (p: ResourceProxy)
    requires FirstValue(resource.namedChildren, UrlElement).Some?
    ensures p.resource == resource
    ensures FirstValue(resource.namedChildren, UrlElement) == Some(p.url)
    ensures forall i :: IsFirstNamed(resource.namedChildren, VersionElement, i)
              ==> p.version == resource.namedChildren[i].value.GetOr("")
    ensures (forall i :: 0 <= i < |resource.namedChildren| ==> resource.namedChildren[i].elementName != VersionElement)
              ==> p.version == ""
  {
    ResourceProxy(
      FirstValue(resource.namedChildren, UrlElement).value,
      FirstValue(resource.namedChildren, VersionElement).GetOr(""),
      resource)
  }

  predicate IsJsonMember(archiveMember: string) {
    EqualsIgnoreCase(Paths.Extension(archiveMember), JsonExtension)
  }

  predicate IsXmlMember(archiveMember: string) {
    EqualsIgnoreCase(Paths.Extension(archiveMember), XmlExtension)
  }

  /** The parser the extension selects (meaningful for `.json` and `.xml` members only). */
  function ParserFor(archiveMember: string, parsers: Parsers): Bytes -> Option<Resource> {
    if IsJsonMember(archiveMember) then parsers.json else parsers.xml
  }

  /**
   * `ResourceProxy.Create`: `None` for an extension other than `.json`/`.xml`,
   * for a parse failure and for a missing or blank url; otherwise the proxy of
   * the parsed resource.
   */
  function Create(archiveMember: string, bytes: Bytes, parsers: Parsers): (r: Option<ResourceProxy>)
    ensures !IsJsonMember(archiveMember) && !IsXmlMember(archiveMember) ==> r == None
    ensures r.Some? ==> Identified(r.value)
    ensures r.Some? ==> ParserFor(archiveMember, parsers)(bytes) == Some(r.value.resource)
    ensures r.None? && (IsJsonMember(archiveMember) || IsXmlMember(archiveMember)) ==>
              match ParserFor(archiveMember, parsers)(bytes)
              case None => true
              case Some(res) => IsNullOrWhiteSpace(FirstValue(res.namedChildren, UrlElement))
    ensures (IsJsonMember(archiveMember) || IsXmlMember(archiveMember)) ==>
              match ParserFor(archiveMember, parsers)(bytes)
              case None => true
              case Some(res) =>
                !IsNullOrWhiteSpace(FirstValue(res.namedChildren, UrlElement)) ==> r == Some(NewProxy(res))
  {
    var isJson := IsJsonMember(archiveMember);
    var isXml := IsXmlMember(archiveMember);
    if !isJson && !isXml then None
    else
      var parsed := if isJson then parsers.json(bytes) else parsers.xml(bytes);
      match parsed
      case None => None
      case Some(resource) =>
        if IsNullOrWhiteSpace(FirstValue(resource.namedChildren, UrlElement)) then None
        else Some(NewProxy(resource))
  }

  /** A `.json` member consults the JSON parser only. */
  lemma JsonMemberIgnoresXmlParser(archiveMember: string, bytes: Bytes, json: Bytes -> Option<Resource>,
                                   xml1: Bytes -> Option<Resource>, xml2: Bytes -> Option<Resource>)
    requires IsJsonMember(archiveMember)
    ensures Create(archiveMember, bytes, Parsers(json, xml1)) == Create(archiveMember, bytes, Parsers(json, xml2))
  {
  }

  /** An `.xml` member consults the XML parser only. */
  lemma XmlMemberIgnoresJsonParser(archiveMember: string, bytes: Bytes, xml: Bytes -> Option<Resource>,
                                   json1: Bytes -> Option<Resource>, json2: Bytes -> Option<Resource>)
    requires IsXmlMember(archiveMember)
    ensures Create(archiveMember, bytes, Parsers(json1, xml)) == Create(archiveMember, bytes, Parsers(json2, xml))
  {
    assert !IsJsonMember(archiveMember);
  }
}
