/** Open-Meteo endpoint names, URL construction and the endpoint registry
    (app/api.py). `ValueError` raised by the source becomes a `Failure`. */
module Api {
  import opened Wrappers

  /** The exception the source raises, with its message. */
  datatype ApiError = ValueError(message: string)

  /** A URL template, already split at its `{endpoint}` placeholders:
      `str.format(endpoint=e)` puts the same `e` into every placeholder. */
  datatype Piece = Lit(text: string) | Placeholder

  /** The number of placeholders in a template. */
  function Placeholders(template: seq<Piece>): nat
  {
    if template == [] then 0
    else (if template[0].Placeholder? then 1 else 0) + Placeholders(template[1..])
  }

  /** The total length of the literal text of a template. */
  function LiteralLength(template: seq<Piece>): nat
  {
    if template == [] then 0
    else (if template[0].Lit? then |template[0].text| else 0) + LiteralLength(template[1..])
  }

  /** The filled template: its literal text plus one copy of the endpoint per
      placeholder. */
  function Format(template: seq<Piece>, endpoint: string): (r: string)
    ensures |r| == LiteralLength(template) + Placeholders(template) * |endpoint|
  {
    if template == [] then ""
    else
      var rest := Format(template[1..], endpoint);
      assert (Placeholders(template[1..]) + 1) * |endpoint|
        == Placeholders(template[1..]) * |endpoint| + |endpoint|;
      (match template[0]
       case Lit(text) => text
       case Placeholder => endpoint)
      + rest
  }

  /** A literal piece is filled with its text, a placeholder with the endpoint. */
  lemma FormatOne(p: Piece, endpoint: string)
    ensures Format([p], endpoint) == if p.Lit? then p.text else endpoint
  {
    assert [p][1..] == [];
  }

  /** Filling a concatenation of templates fills each part. */
  lemma {:induction false} FormatConcat(a: seq<Piece>, b: seq<Piece>, endpoint: string)
    ensures Format(a + b, endpoint) == Format(a, endpoint) + Format(b, endpoint)
    decreases |a|
  {
    if a == [] {
      assert a + b == b;
    } else {
      assert (a + b)[0] == a[0];
      assert (a + b)[1..] == a[1..] + b;
      FormatConcat(a[1..], b, endpoint);
    }
  }

  const UrlHead := "https://"
  const UrlMiddle := "-api.open-meteo.com/v1/"

  /** The supported API families. */
  datatype ApiType = OpenMeteo {

    /** The enum member's name, used in error messages. */
    function Name(): string
    {
      match this
      case OpenMeteo => "OPEN_METEO"
    }

    /** `base_endpoints` of the member. */
    function Endpoints(): (es: seq<string>)
      ensures this == OpenMeteo ==> "archive" in es && "air-quality" in es
      ensures forall i, j :: 0 <= i < j < |es| ==> es[i] != es[j]
    {
      match this
      case OpenMeteo => ["archive", "air-quality"]
    }

    /** `base_url`: https://{endpoint}-api.open-meteo.com/v1/{endpoint} */
    function UrlTemplate(): (t: seq<Piece>)
      ensures Placeholders(t) == 2
      ensures t[0] == Lit(UrlHead) && t[|t| - 1] == Placeholder
    {
      match this
      case OpenMeteo =>
        var t := [Lit(UrlHead), Placeholder, Lit(UrlMiddle), Placeholder];
        assert t[1..][1..][1..][1..] == [];
        assert Placeholders(t[1..][1..][1..]) == 1;
        assert Placeholders(t[1..][1..]) == 1;
        t
    }

    /** `APIType.construct_url`: a listed endpoint gets the template with the
        endpoint in both placeholders; any other name is a ValueError. */
    function ConstructUrl(endpoint: string): (r: Result<string, ApiError>)
      ensures r.Success? <==> endpoint in Endpoints()
      ensures r.Success? ==> r.value == UrlHead + endpoint + UrlMiddle + endpoint
      ensures r.Failure? ==>
        r.error == ValueError("Endpoint " + endpoint + " not available for " + Name())
    {
      if endpoint !in Endpoints() then
        Failure(ValueError("Endpoint " + endpoint + " not available for " + Name()))
      else
        OpenMeteoUrl(endpoint);
        Success(Format(UrlTemplate(), endpoint))
    }
  }

  /** Every member of the enum, in declaration order (what `for api_type in
      APIType` visits). */
  function AllApiTypes(): seq<ApiType>
  {
    [OpenMeteo]
  }

  /** The enumeration misses no member. */
  lemma AllApiTypesComplete(t: ApiType)
    ensures t in AllApiTypes()
  {
    match t
    case OpenMeteo =>
  }

  /** Filling the Open-Meteo template gives the expected URL. */
  lemma OpenMeteoUrl(endpoint: string)
    ensures Format(OpenMeteo.UrlTemplate(), endpoint) == UrlHead + endpoint + UrlMiddle + endpoint
  {
    var head, mid := Lit(UrlHead), Lit(UrlMiddle);
    assert OpenMeteo.UrlTemplate() == [head] + ([Placeholder] + ([mid] + [Placeholder]));
    FormatConcat([head], [Placeholder] + ([mid] + [Placeholder]), endpoint);
    FormatConcat([Placeholder], [mid] + [Placeholder], endpoint);
    FormatConcat([mid], [Placeholder], endpoint);
    FormatOne(head, endpoint);
    FormatOne(Placeholder, endpoint);
    FormatOne(mid, endpoint);
  }

  /** Two endpoint names that fill the Open-Meteo template to the same URL are
      the same name. */
  lemma UrlDeterminesEndpoint(e1: string, e2: string)
    requires UrlHead + e1 + UrlMiddle + e1 == UrlHead + e2 + UrlMiddle + e2
    ensures e1 == e2
  {
    var u1 := UrlHead + e1 + UrlMiddle + e1;
    var u2 := UrlHead + e2 + UrlMiddle + e2;
    assert |u1| == |UrlHead| + 2 * |e1| + |UrlMiddle|;
    assert |u2| == |UrlHead| + 2 * |e2| + |UrlMiddle|;
    assert |e1| == |e2|;
    var n := |UrlHead|;
    assert u1[n..n + |e1|] == e1;
    assert u2[n..n + |e2|] == e2;
  }

  /** `construct_url` is injective: distinct listed endpoints get distinct URLs. */
  lemma ConstructUrlInjective(t: ApiType, e1: string, e2: string)
    requires t.ConstructUrl(e1).Success? && t.ConstructUrl(e2).Success?
    requires e1 != e2
    ensures t.ConstructUrl(e1).value != t.ConstructUrl(e2).value
  {
    if t.ConstructUrl(e1).value == t.ConstructUrl(e2).value {
      UrlDeterminesEndpoint(e1, e2);
    }
  }

  /** One record of the registry (`APIEndpointInfo`). */
  datatype EndpointInfo = EndpointInfo(
    apiType: ApiType,
    endpoint: string,
    fullUrl: string,
    description: Option<string>,
    parameters: Option<map<string, string>>)

  const NoDescription := "No description available"

  /** The description table of `_get_endpoint_description`. */
  function Descriptions(): map<ApiType, map<string, string>>
  {
    map[OpenMeteo := map[
      "forecast" := "Forecast weather data",
      "air-quality" := "Air quality measurements and forecasts",
      "flood" := "Flood monitoring and prediction",
      "geocoding" := "Geographic location and coordinate services",
      "marine" := "Marine and oceanic weather data"]]
  }

  /** `_get_endpoint_description`: the table entry when there is one, the
      default text exactly when there is none. */
  function EndpointDescription(t: ApiType, endpoint: string): (d: string)
    ensures t in Descriptions() && endpoint in Descriptions()[t] ==> d == Descriptions()[t][endpoint]
    ensures d == NoDescription <==> !(t in Descriptions() && endpoint in Descriptions()[t])
  {
    var table := if t in Descriptions() then Descriptions()[t] else map[];
    if endpoint in table then table[endpoint] else NoDescription
  }

  /** The two base endpoints: only air-quality has a description. */
  lemma BaseEndpointDescriptions()
    ensures EndpointDescription(OpenMeteo, "air-quality") == "Air quality measurements and forecasts"
    ensures EndpointDescription(OpenMeteo, "archive") == NoDescription
  {
  }

  /** `info` is the registry record of endpoint `e` of API type `t`. */
  predicate IsRecordOf(t: ApiType, e: string, info: EndpointInfo)
  {
    && info.apiType == t
    && info.endpoint == e
    && t.ConstructUrl(e) == Success(info.fullUrl)
    && info.description == Some(EndpointDescription(t, e))
    && info.parameters == None
  }

  /** `infos` holds one record per endpoint of `t`, in the same order. */
  predicate IsListing(t: ApiType, infos: seq<EndpointInfo>)
  {
    && |infos| == |t.Endpoints()|
    && forall i :: 0 <= i < |infos| ==> IsRecordOf(t, t.Endpoints()[i], infos[i])
  }

  /** `APIEndpointRegistry.get_endpoints`: appends one record per endpoint. */
  method RegistryGetEndpoints(t: ApiType) returns (endpoints: seq<EndpointInfo>)
    ensures IsListing(t, endpoints)
  {
    endpoints := [];
    var names := t.Endpoints();
    for i := 0 to |names|
      invariant |endpoints| == i
      invariant forall j :: 0 <= j < i ==> IsRecordOf(t, names[j], endpoints[j])
    {
      var e := names[i];
      var url := t.ConstructUrl(e);
      endpoints := endpoints + [EndpointInfo(t, e, url.value, Some(EndpointDescription(t, e)), None)];
    }
  }

  /** The full URLs of a registry listing are pairwise distinct. */
  lemma ListingUrlsDistinct(t: ApiType, infos: seq<EndpointInfo>, i: nat, j: nat)
    requires IsListing(t, infos)
    requires i < j < |infos|
    ensures infos[i].fullUrl != infos[j].fullUrl
  {
    ConstructUrlInjective(t, t.Endpoints()[i], t.Endpoints()[j]);
  }

  /** `APIEndpointRegistry.construct_url`: the URL from the first API type that
      lists the endpoint, or a ValueError when none does. */
  method RegistryConstructUrl(endpoint: string) returns (r: Result<string, ApiError>)
    ensures r.Success? <==> exists t: ApiType :: endpoint in t.Endpoints()
    ensures r.Success? ==>
      exists k :: 0 <= k < |AllApiTypes()|
        && endpoint in AllApiTypes()[k].Endpoints()
        && (forall t :: t in AllApiTypes()[..k] ==> endpoint !in t.Endpoints())
        && r == AllApiTypes()[k].ConstructUrl(endpoint)
    ensures r.Failure? ==>
      r.error == ValueError("Endpoint " + endpoint + " does not match any known API type")
  {
    var types := AllApiTypes();
    for k := 0 to |types|
      invariant forall t :: t in types[..k] ==> endpoint !in t.Endpoints()
    {
      if endpoint in types[k].Endpoints() {
        return types[k].ConstructUrl(endpoint);
      }
    }
    forall t: ApiType ensures endpoint !in t.Endpoints() {
      AllApiTypesComplete(t);
    }
    return Failure(ValueError("Endpoint " + endpoint + " does not match any known API type"));
  }
}
