/**
 * The streaming-availability client (`fetch_streaming_availability`): one
 * request for a title, whose loosely shaped reply is probed for the Indian
 * offers and flattened into one line of text.
 */
module Streaming {
  import opened Wrappers
  import opened Json
  import opened Http
  import Text

  const REGION := "in"
  const SUMMARY_PREFIX := "Available in (India): "
  const NOT_A_DICT := "Not found or parsing failed."
  const UNRECOGNISED := "Streaming data structure not recognized."
  const NONE_IN_REGION := "None found in India."
  // The two long texts below are split after their first words only so that the
  // verifier can read their first character without unfolding the whole literal.
  const NOT_FOUND_404 := "Streaming info " + "not found for this title (404)."
  const KEY_INFO :=
    "Streaming info " + "requires separate API subscription/key. "
    + "Configure `secrets.toml` or script with key for "
    + "'streaming-availability.p.rapidapi.com'. This app uses imdb236 for search, "
    + "but needs a different API for where-to-watch data."
  const ID_REQUIRED_TEXT := "IMDb ID required for streaming lookup."
  const CONNECTION_TEXT := "Connection Error (Streaming): "
  const STATUS_TEXT := "Streaming API Error: "
  const BAD_JSON_TEXT := "Data Error (Streaming): Failed to parse response. "
  const UNEXPECTED_TEXT := "Unexpected Error (Streaming): "

  /** Why a lookup produced no text. */
  datatype StreamingError =
    | IdRequired          // empty title id; nothing is sent
    | Connection          // the request raised an `http.client.HTTPException`
    | ApiStatus(status: int)
    | BadJson             // 2xx, but `json.loads` rejects the body
    | Unexpected          // any other exception: an `OSError` from the request, a 2xx body
                          // that is not UTF-8, or an offer that cannot be read
  {
    /** The text shown to the user; the diagnostic tail after each prefix is not modelled. */
    function Message(): (m: string)
      ensures |m| > 0
    {
      match this
      case IdRequired => ID_REQUIRED_TEXT
      case Connection => CONNECTION_TEXT
      case ApiStatus(status) => STATUS_TEXT + Text.IntToDecimal(status)
      case BadJson => BAD_JSON_TEXT
      case Unexpected => UNEXPECTED_TEXT
    }
  }

  /** The `streamingOptions` value: at the top level if there is one, else under an object `result`. */
  function ChosenOptions(body: Json): (r: Option<Json>)
    requires body.JObject?
    ensures HasKey(body, "streamingOptions") ==> r == Some(Get(body, "streamingOptions", JNull))
    ensures !HasKey(body, "streamingOptions") ==>
      (r.Some? <==> HasKey(body, "result") && Get(body, "result", JNull).JObject?
                    && HasKey(Get(body, "result", JNull), "streamingOptions"))
    ensures !HasKey(body, "streamingOptions") && r.Some? ==>
      r.value == Get(Get(body, "result", JNull), "streamingOptions", JNull)
  {
    if HasKey(body, "streamingOptions") then Some(Get(body, "streamingOptions", JNull))
    else
      var result := Get(body, "result", JNull);
      if HasKey(body, "result") && result.JObject? && HasKey(result, "streamingOptions")
      then Some(Get(result, "streamingOptions", JNull))
      else None
  }

  /** What the probes found in a 2xx body. */
  datatype Shape =
    | NotADict                    // the body is not an object
    | Unrecognised                // no usable `streamingOptions` object
    | NoneInRegion                // `streamingOptions.in` is absent or falsy
    | NotAList                    // `streamingOptions.in` is truthy but not a list: iterating a
                                  // number or boolean raises, and a string or object yields
                                  // strings, on which `.get` raises
    | Offers(options: seq<Json>)  // a non-empty list of offers

  function Probe(body: Json): (r: Shape)
    ensures r == NotADict <==> !body.JObject?
    ensures body.JObject? ==>
      (r == Unrecognised <==> var v := ChosenOptions(body); v.None? || !v.value.JObject? || v.value.members == [])
    ensures r.Offers? ==> r.options != []
    ensures body.JObject? && ChosenOptions(body).Some? && Truthy(ChosenOptions(body).value)
            && ChosenOptions(body).value.JObject? ==>
      var country := Get(ChosenOptions(body).value, REGION, JArray([]));
      && (r == NoneInRegion <==> !Truthy(country))
      && (r == NotAList <==> Truthy(country) && !country.JArray?)
      && (r.Offers? <==> Truthy(country) && country.JArray?)
      && (r.Offers? ==> r.options == country.items)
  {
    if !body.JObject? then NotADict
    else match ChosenOptions(body)
      case None => Unrecognised
      case Some(v) =>
        if Truthy(v) && v.JObject? then
          var country := Get(v, REGION, JArray([]));
          if !Truthy(country) then NoneInRegion
          else if country.JArray? then Offers(country.items)
          else NotAList
        else Unrecognised
  }

  /**
   * The display string of one offer, or None when reading it raises (the
   * offer or its `service` is not an object, or the service id is not a
   * string). A subscription shows the capitalised service id alone; any other
   * type, `rent` and `buy` included, appends the type in parentheses.
   */
  function Label(option: Json): (r: Option<string>)
    ensures r.Some? <==>
      && option.JObject?
      && Get(option, "service", JObject([])).JObject?
      && Get(Get(option, "service", JObject([])), "id", JStr("Unknown")).JStr?
  {
    if !option.JObject? then None
    else
      var service := Get(option, "service", JObject([]));
      if !service.JObject? then None
      else
        var name := Get(service, "id", JStr("Unknown"));
        if !name.JStr? then None
        else
          var kind := Get(option, "type", JStr("N/A"));
          if kind == JStr("subscription") then Some(Text.Capitalize(name.s))
          else Some(Text.Capitalize(name.s) + " (" + Str(kind) + ")")
  }

  /** An offer with no `service` and no `type` reads with both defaults. */
  lemma LabelDefaults()
    ensures Label(JObject([])) == Some("Unknown (N/A)")
  {
    var none := JObject([]);
    assert Get(none, "service", none) == none;
    assert Get(none, "id", JStr("Unknown")) == JStr("Unknown");
    assert Get(none, "type", JStr("N/A")) == JStr("N/A");
    assert Text.Lower("nknown") == "nknown";
    assert Text.Capitalize("Unknown") == "Unknown";
    assert "Unknown" + " (" + "N/A" + ")" == "Unknown (N/A)";
  }

  /**
   * What a readable offer reads: the capitalised service id (default
   * `Unknown`) for a subscription, and otherwise the capitalised id followed
   * by the offer type (default `N/A`) in parentheses.
   */
  lemma LabelText(option: Json)
    requires Label(option).Some?
    ensures var service := Get(option, "service", JObject([]));
      var name := Get(service, "id", JStr("Unknown")).s;
      var kind := Get(option, "type", JStr("N/A"));
      Label(option) == Some(if kind == JStr("subscription") then Text.Capitalize(name)
                            else Text.Capitalize(name) + " (" + Str(kind) + ")")
  {
  }

  predicate AllLabelled(options: seq<Json>) {
    forall i :: 0 <= i < |options| ==> Label(options[i]).Some?
  }

  /** The `services` set the loop builds. */
  function LabelSet(options: seq<Json>): set<string>
    requires AllLabelled(options)
  {
    set i | 0 <= i < |options| :: Label(options[i]).value
  }

  /** The set holds the label of every offer and nothing else. */
  lemma LabelSetMembers(options: seq<Json>)
    requires AllLabelled(options)
    ensures forall i :: 0 <= i < |options| ==> Label(options[i]).value in LabelSet(options)
    ensures forall l :: l in LabelSet(options) ==>
      exists i :: 0 <= i < |options| && Label(options[i]).value == l
  {
  }

  lemma LabelSetAppend(options: seq<Json>, option: Json)
    requires AllLabelled(options) && Label(option).Some?
    ensures AllLabelled(options + [option])
    ensures LabelSet(options + [option]) == LabelSet(options) + {Label(option).value}
  {
    var all := options + [option];
    assert forall i :: 0 <= i < |options| ==> all[i] == options[i];
    assert all[|options|] == option;
  }

  /** A non-empty offer list always adds a service, so "None found in US." is never produced. */
  lemma {:induction false} ServicesNonEmpty(options: seq<Json>)
    requires options != [] && AllLabelled(options)
    ensures LabelSet(options) != {}
  {
    assert Label(options[0]).value in LabelSet(options);
  }

  /** The text after the prefix, or None when the parsing raises. */
  ghost function OptionsText(body: Json): (r: Option<string>)
    ensures r.None? <==> Probe(body).NotAList? || (Probe(body).Offers? && !AllLabelled(Probe(body).options))
    ensures !body.JObject? ==> r == Some(NOT_A_DICT)
    ensures Probe(body) == Unrecognised ==> r == Some(UNRECOGNISED)
    ensures Probe(body) == NoneInRegion ==> r == Some(NONE_IN_REGION)
  {
    match Probe(body)
    case NotADict => Some(NOT_A_DICT)
    case Unrecognised => Some(UNRECOGNISED)
    case NoneInRegion => Some(NONE_IN_REGION)
    case NotAList => None
    case Offers(options) =>
      if AllLabelled(options) then Some(Text.Join(Text.SortedOf(LabelSet(options)), ", ")) else None
  }

  /** The pair (info, error) that `fetch_streaming_availability(imdbId)` returns. */
  ghost function Fetch(imdbId: string, keyConfigured: bool, ex: Exchange): (r: (Option<string>, Option<StreamingError>))
    ensures r.0.Some? != r.1.Some?
    ensures r.0.Some? ==> r.0.value == KEY_INFO || r.0.value == NOT_FOUND_404 || SUMMARY_PREFIX <= r.0.value
  {
    if imdbId == "" then (None, Some(IdRequired))
    else if !keyConfigured then (Some(KEY_INFO), None)
    else match ex
      case HttpClientError => (None, Some(Connection))
      case OsError => (None, Some(Unexpected))
      case Reply(status, body) =>
        if IsSuccess(status) then
          match body
          case Undecodable => (None, Some(Unexpected))
          case Malformed => (None, Some(BadJson))
          case Decoded(j) =>
            match OptionsText(j)
            case Some(text) => (Some(SUMMARY_PREFIX + text), None)
            case None => (None, Some(Unexpected))
        else if status == 404 then (Some(NOT_FOUND_404), None)
        else (None, Some(ApiStatus(status)))
  }

  /**
   * A list of offers is summarised as every service label once, in
   * ascending order, joined by ", "; the listing is never empty.
   */
  lemma SummaryIsSortedListing(body: Json, xs: seq<string>)
    requires Probe(body).Offers? && AllLabelled(Probe(body).options)
    requires Text.SortedListing(xs, LabelSet(Probe(body).options))
    ensures OptionsText(body) == Some(Text.Join(xs, ", "))
    ensures xs != []
  {
    var options := Probe(body).options;
    Text.SortedOfIsListing(LabelSet(options));
    Text.ListingUnique(xs, Text.SortedOf(LabelSet(options)), LabelSet(options));
    ServicesNonEmpty(options);
    var l :| l in LabelSet(options);
    assert l in xs;
  }

  /** 404 is an informational outcome; every other non-2xx status is an error. */
  lemma FetchStatuses(imdbId: string, ex: Exchange)
    requires imdbId != "" && ex.Reply? && !IsSuccess(ex.status)
    ensures ex.status == 404 ==> Fetch(imdbId, true, ex) == (Some(NOT_FOUND_404), None)
    ensures ex.status != 404 ==> Fetch(imdbId, true, ex) == (None, Some(ApiStatus(ex.status)))
  {
  }

  /**
   * With an id and a key, which exchanges are errors and which error each
   * one is, and what a 2xx decoded body reads.
   */
  lemma FetchFails(imdbId: string, ex: Exchange)
    requires imdbId != ""
    ensures var r := Fetch(imdbId, true, ex);
      r.1.Some? <==>
        || !ex.Reply?
        || (!IsSuccess(ex.status) && ex.status != 404)
        || (IsSuccess(ex.status) && (!ex.body.Decoded? || OptionsText(ex.body.value).None?))
    ensures ex.HttpClientError? ==> Fetch(imdbId, true, ex).1 == Some(Connection)
    ensures ex.OsError? ==> Fetch(imdbId, true, ex).1 == Some(Unexpected)
    ensures ex.Reply? && IsSuccess(ex.status) ==>
      && (ex.body.Undecodable? ==> Fetch(imdbId, true, ex).1 == Some(Unexpected))
      && (ex.body.Malformed? ==> Fetch(imdbId, true, ex).1 == Some(BadJson))
      && (ex.body.Decoded? && OptionsText(ex.body.value).None? ==> Fetch(imdbId, true, ex).1 == Some(Unexpected))
      && (ex.body.Decoded? && OptionsText(ex.body.value).Some? ==>
            Fetch(imdbId, true, ex).0 == Some(SUMMARY_PREFIX + OptionsText(ex.body.value).value))
  {
  }

  /**
   * With no id or no key nothing is sent, so the network does not matter. The
   * id is checked first: an empty id is an error even when no key is configured.
   */
  lemma FetchNoRequest(imdbId: string, keyConfigured: bool, ex1: Exchange, ex2: Exchange)
    requires imdbId == "" || !keyConfigured
    ensures Fetch(imdbId, keyConfigured, ex1) == Fetch(imdbId, keyConfigured, ex2)
    ensures imdbId == "" ==> Fetch(imdbId, keyConfigured, ex1) == (None, Some(IdRequired))
    ensures imdbId != "" ==> Fetch(imdbId, keyConfigured, ex1) == (Some(KEY_INFO), None)
  {
  }

  /** The `for option in country_options` loop that fills the `services` set. */
  method CollectServices(options: seq<Json>) returns (services: Option<set<string>>)
    ensures services.Some? <==> AllLabelled(options)
    ensures services.Some? ==> services.value == LabelSet(options)
  {
    var acc: set<string> := {};
    for i := 0 to |options|
      invariant AllLabelled(options[..i])
      invariant acc == LabelSet(options[..i])
    {
      var shown := Label(options[i]);
      if shown.None? {
        return None;
      }
      assert options[..i + 1] == options[..i] + [options[i]];
      LabelSetAppend(options[..i], options[i]);
      acc := acc + {shown.value};
    }
    assert options[..|options|] == options;
    services := Some(acc);
  }

  /** The parsing block of the 2xx branch; None stands for an exception it raises. */
  method ParseOptions(body: Json) returns (text: Option<string>)
    ensures text == OptionsText(body)
  {
    match Probe(body)
    case NotADict => text := Some(NOT_A_DICT);
    case Unrecognised => text := Some(UNRECOGNISED);
    case NoneInRegion => text := Some(NONE_IN_REGION);
    case NotAList => text := None;
    case Offers(options) =>
      var services := CollectServices(options);
      if services.None? {
        return None;
      }
      // never empty (ServicesNonEmpty), so the source's "None found in US." fallback is dead
      var listing := Text.SortSet(services.value);
      text := Some(Text.Join(listing, ", "));
  }

  method FetchAvailability(imdbId: string, keyConfigured: bool, ex: Exchange)
    returns (info: Option<string>, error: Option<StreamingError>)
    ensures (info, error) == Fetch(imdbId, keyConfigured, ex)
  {
    if imdbId == "" {
      return None, Some(IdRequired);
    }
    if !keyConfigured {
      return Some(KEY_INFO), None;
    }
    match ex
    case HttpClientError =>
      info, error := None, Some(Connection);
    case OsError =>
      info, error := None, Some(Unexpected);
    case Reply(status, body) =>
      if IsSuccess(status) {
        match body
        case Undecodable =>
          info, error := None, Some(Unexpected);
        case Malformed =>
          info, error := None, Some(BadJson);
        case Decoded(j) =>
          var text := ParseOptions(j);
          if text.Some? {
            info, error := Some(SUMMARY_PREFIX + text.value), None;
          } else {
            info, error := None, Some(Unexpected);
          }
      } else if status == 404 {
        info, error := Some(NOT_FOUND_404), None;
      } else {
        info, error := None, Some(ApiStatus(status));
      }
  }
}
