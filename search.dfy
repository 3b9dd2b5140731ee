/**
 * The search client (`search_imdb_autocomplete`): one request to the
 * autocomplete endpoint, turned into either a list of usable titles or an
 * error, never both.
 */
module Search {
  import opened Wrappers
  import opened Json
  import opened Http
  import Text

  const EMPTY_QUERY_TEXT := "Please enter a search query."
  const NO_KEY_TEXT := "IMDb Search API Key is not configured (check secrets or script)."
  const CONNECTION_TEXT := "Connection Error (Search): "
  const STATUS_TEXT := "API Error: "
  const NOT_A_LIST_TEXT := "API Error: Unexpected response format (expected list)."
  const BAD_JSON_TEXT := "Data Error (Search): Failed to parse response. "
  const UNEXPECTED_TEXT := "Unexpected Error (Search): "

  /** Why a search produced no result list. */
  datatype SearchError =
    | EmptyQuery          // no query typed; nothing is sent
    | KeyNotConfigured    // the search key is still the placeholder; nothing is sent
    | Connection          // the request raised an `http.client.HTTPException`
    | ApiStatus(status: int)
    | UnexpectedFormat    // 2xx, but the body is not a JSON list
    | BadJson             // 2xx, but `json.loads` rejects the body
    | Unexpected          // any other exception: an `OSError` from the request, a body that
                          // is not UTF-8, or a list item that is not an object
  {
    /** The text shown to the user; the diagnostic tail after each prefix is not modelled. */
    function Message(): (m: string)
      ensures |m| > 0
    {
      match this
      case EmptyQuery => EMPTY_QUERY_TEXT
      case KeyNotConfigured => NO_KEY_TEXT
      case Connection => CONNECTION_TEXT
      case ApiStatus(status) => STATUS_TEXT + Text.IntToDecimal(status)
      case UnexpectedFormat => NOT_A_LIST_TEXT
      case BadJson => BAD_JSON_TEXT
      case Unexpected => UNEXPECTED_TEXT
    }
  }

  /** `item.get('id')` is truthy; only defined for objects, since `.get` raises otherwise. */
  predicate HasId(item: Json)
    ensures HasId(item) ==> item.JObject? && HasKey(item, "id")
  {
    item.JObject? && Truthy(Get(item, "id", JNull))
  }

  /** `[item for item in items if item.get('id')]` */
  function WithId(items: seq<Json>): (r: seq<Json>)
    ensures |r| <= |items|
    ensures forall x :: x in r <==> x in items && HasId(x)
  {
    if items == [] then []
    else (if HasId(items[0]) then [items[0]] else []) + WithId(items[1..])
  }

  /** The filter works item by item and keeps the original order. */
  lemma {:induction false} WithIdAppend(a: seq<Json>, b: seq<Json>)
    ensures WithId(a + b) == WithId(a) + WithId(b)
  {
    if a == [] {
      assert a + b == b;
    } else {
      assert (a + b)[0] == a[0];
      assert (a + b)[1..] == a[1..] + b;
      WithIdAppend(a[1..], b);
    }
  }

  /** A list in which every item has an id comes back whole. */
  lemma {:induction false} WithIdKeepsUsable(items: seq<Json>)
    requires forall x :: x in items ==> HasId(x)
    ensures WithId(items) == items
  {
    if items != [] {
      WithIdKeepsUsable(items[1..]);
    }
  }

  /** Every item of a 2xx list body is an object, so `item.get('id')` cannot raise. */
  predicate AllObjects(items: seq<Json>)
    ensures AllObjects(items) <==> forall x :: x in items ==> x.JObject?
  {
    forall i :: 0 <= i < |items| ==> items[i].JObject?
  }

  /**
   * `search_imdb_autocomplete(query)` with the key reduced to "configured or
   * not" and the network reduced to the exchange it would have had.
   * Returns the pair (results, error) as the source does.
   */
  function Autocomplete(query: string, keyConfigured: bool, ex: Exchange): (r: (Option<seq<Json>>, Option<SearchError>))
    ensures r.0.Some? != r.1.Some?
    ensures r.0.Some? ==> forall x :: x in r.0.value ==> HasId(x)
  {
    if query == "" then (None, Some(EmptyQuery))
    else if !keyConfigured then (None, Some(KeyNotConfigured))
    else match ex
      case HttpClientError => (None, Some(Connection))
      case OsError => (None, Some(Unexpected))
      case Reply(status, body) =>
        if !IsSuccess(status) then
          // the error text decodes the body, which raises when it is not UTF-8
          if body.Undecodable? then (None, Some(Unexpected)) else (None, Some(ApiStatus(status)))
        else match body
          case Undecodable => (None, Some(Unexpected))
          case Malformed => (None, Some(BadJson))
          case Decoded(JArray(items)) =>
            if AllObjects(items) then (Some(WithId(items)), None) else (None, Some(Unexpected))
          case Decoded(_) => (None, Some(UnexpectedFormat))
  }

  /**
   * A search yields a list exactly when the query and key are present and the
   * endpoint answered 2xx with a JSON list of objects; the list is then those
   * objects with a truthy id.
   */
  lemma AutocompleteSucceeds(query: string, keyConfigured: bool, ex: Exchange)
    ensures Autocomplete(query, keyConfigured, ex).0.Some? <==>
      && query != ""
      && keyConfigured
      && ex.Reply?
      && IsSuccess(ex.status)
      && ex.body.Decoded? && ex.body.value.JArray?
      && AllObjects(ex.body.value.items)
    ensures Autocomplete(query, keyConfigured, ex).0.Some? ==>
      Autocomplete(query, keyConfigured, ex).0.value == WithId(ex.body.value.items)
  {
  }

  /** With no query or no key the outcome does not depend on the network: no request is made. */
  lemma AutocompleteNoRequest(query: string, keyConfigured: bool, ex1: Exchange, ex2: Exchange)
    requires query == "" || !keyConfigured
    ensures Autocomplete(query, keyConfigured, ex1) == Autocomplete(query, keyConfigured, ex2)
    ensures Autocomplete(query, keyConfigured, ex1).1 == Some(if query == "" then EmptyQuery else KeyNotConfigured)
  {
  }
}
