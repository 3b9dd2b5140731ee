# Movie search and watchlist — a verified model

The app is one Streamlit page. A user searches titles through an
autocomplete API, opens one result, sees where it streams in India
(looked up through a second API), and keeps a watchlist that is written to a
JSON file after every change. This project models the deterministic core of
`streamlit_app.py` in Dafny:

- **Search client** (`Search`): `search_imdb_autocomplete`. The function takes
  the query, whether the key is configured, and the exchange the request would
  have had, and returns the pair `(results, error)`.
- **Streaming client** (`Streaming`): `fetch_streaming_availability`. Probing the
  reply's shape is a pure function (`Probe`, `ChosenOptions`, `Label`). The `for`
  loop that fills the `services` set and the sort are methods. The loop is
  proved to compute the set of offer labels (`LabelSet`), and the sort the
  ascending listing of that set (`SortedOf`). The client as a whole
  (`FetchAvailability`) is proved to return what the specification function
  `Fetch` gives.
- **Watchlist** (`WatchlistStore.Watchlist`): the dictionary kept in the session.
  It is a class with the map, the keys in insertion order (Python dicts keep
  it, and it decides ties in the sorted view) and a ghost log of what each save
  wrote. The class has add, remove and the read-time sort by lower-cased title.
- **Session** (`App.Session`): `st.session_state` as a class with one method per
  user action.

Supporting modules: `Json` holds decoded JSON values, with Python's truthiness,
`in`, `dict.get` and `str()`. `Http` holds the exchange that stands in for the
network. `Text` holds Python's `lower`, `capitalize`, `join`, `str(int)`, string
order and `sorted` on a set.

An exchange is one of three things:
- an `http.client.HTTPException` from the request;
- an `OSError` from the request (name resolution, refused connection, TLS
  failure, timeout);
- a reply with a status and a body.

A body is one of three things: not valid UTF-8, valid UTF-8 that `json.loads`
rejects, or a decoded JSON value.

Each case reaches the `except` clause the source's exception hierarchy sends
it to:
- Only an `HTTPException` gives the "Connection Error" text (lines 83, 170).
- An `OSError` gives "Unexpected Error" (lines 87, 174).
- A 2xx body that is not UTF-8 raises `UnicodeDecodeError` at line 73 or 127,
  which is not a `JSONDecodeError`, so it also gives "Unexpected Error".
- A non-2xx search body that is not UTF-8 gives "Unexpected Error" too,
  because the error text decodes it at line 81.
- The streaming client catches that decode failure itself (lines 165-167) and
  still reports the status.

Other Python exceptions inside the `try` blocks are modelled explicitly:
- `.get` on a list item or offer that is not an object raises.
- A truthy `in` value that is not a list raises. Iterating a number or a
  boolean raises. Iterating a string or an object yields strings, and `.get`
  on those raises.
- `.capitalize()` on a service id that is not a string raises.

For searches these become the `Unexpected` error. For the streaming parser they
become `None`, which `Fetch` turns into the `Unexpected` error.

Three facts about the streaming parser:
- An offer that cannot be read raises inside the `try`, so the lookup ends in
  an error, not in a "none found" text (lines 145-152, 174).
- The region `in` is both requested and read (lines 119, 141).
- A `rent` or `buy` offer takes a branch identical to the branch for any other
  non-subscription type (lines 149-152).

The warning marker in front of a streaming error is the character sequence the
source spells at lines 311 and 317: "âš", a no-break space, "ï¸", then " Error:".
These are the UTF-8 bytes of a warning-sign emoji read as single-byte text. The
model uses those characters, not the emoji.

## Model

| member | source | states |
|---|---|---|
| Json.Truthy | streamlit_app.py:139-142 | a decoded value is falsy exactly when it is `None`, `False`, `0`, `""`, `[]` or `{}` |
| Json.Lookup | streamlit_app.py:134-141 | a key is found exactly when some member has it, and the value is that of its last binding, as `json.loads` builds dicts |
| Json.HasKeyIffBound | streamlit_app.py:134-136 | `key in d` holds exactly when some member of the document has that key |
| Json.Get | streamlit_app.py:141-146 | `d.get(key, default)` gives the default when the key is absent |
| Json.GetLastBinding | streamlit_app.py:141-146 | for a present key, `d.get` gives the value of the key's last member in the document |
| Json.Repr | streamlit_app.py:150-152 | the printed form of any value is non-empty |
| Json.Str | streamlit_app.py:150-152 | interpolating a string inserts it unchanged, and any other value prints as non-empty text |
| Text.Lower | streamlit_app.py:365 | `str.lower()` keeps the length, leaves no upper-case letter, maps each upper-case letter to its lower-case letter and leaves every other character as it is |
| Text.Join | streamlit_app.py:153 | `", ".join` of no items is empty; otherwise the text starts with the first item followed by the separator (when there are two or more) and ends with the last item |
| Text.IntToDecimal | streamlit_app.py:168 | `str(n)` is a minus sign for a negative number followed by decimal digits, and the digits read back as the number's magnitude |
| Text.NatToDecimalRoundTrip | streamlit_app.py:168 | printing a non-negative number in decimal and reading the digits back gives the number |
| Text.Capitalize | streamlit_app.py:148 | `str.capitalize`: same length, first character upper-cased, the rest lower-cased |
| Text.SortSet | streamlit_app.py:153 | `sorted(list(services))` lists every member of the set once, strictly ascending, and equals the reference listing `SortedOf` |
| Text.SortedOfIsListing | streamlit_app.py:153 | the reference listing (least member first) is strictly ascending and holds exactly the set's members |
| Text.ListingUnique | streamlit_app.py:153 | two strictly ascending sequences with the same members are equal, so the summary does not depend on set iteration order |
| Text.LessTransitive | streamlit_app.py:153 | the code-point string order used by `sorted` is transitive |
| Text.LessTotal | streamlit_app.py:153 | any two strings are equal or ordered one way |
| Search.SearchError.Message | streamlit_app.py:51-53 | every search error message is non-empty, so `if error:` sees every error |
| Search.HasId | streamlit_app.py:77 | an item kept by the filter is an object that has an `id` key |
| Search.AllObjects | streamlit_app.py:77 | the comprehension can read every item exactly when every item is an object |
| Search.WithId | streamlit_app.py:77 | the filter keeps exactly the list items whose `id` is truthy and no others, and never grows the list |
| Search.WithIdAppend | streamlit_app.py:75-77 | filtering a concatenation is concatenating the filtered parts: items are judged one by one and keep their order |
| Search.WithIdKeepsUsable | streamlit_app.py:77 | a list whose items all have an id is returned whole |
| Search.Autocomplete | streamlit_app.py:48-93 | exactly one of results and error is returned (never a partial list with an error), and every returned item has a truthy id |
| Search.AutocompleteSucceeds | streamlit_app.py:72-81 | a list is returned exactly when query and key are present and the reply is 2xx with a decoded JSON list of objects; it is then that list filtered by id |
| Search.AutocompleteNoRequest | streamlit_app.py:50-53 | with an empty query or the placeholder key the outcome does not depend on the network and is the matching error |
| Streaming.StreamingError.Message | streamlit_app.py:164-175 | every streaming error message is non-empty |
| Streaming.ChosenOptions | streamlit_app.py:133-137 | top-level `streamingOptions` wins whenever present; otherwise `result.streamingOptions` is used exactly when `result` is an object holding it |
| Streaming.Probe | streamlit_app.py:132-157 | A non-object body is "not found". The structure is unrecognised exactly when the chosen value is missing, not an object, or empty. For a non-empty chosen object, the `in` value decides the rest: falsy gives "None found in India.", a truthy non-list raises, and a truthy list becomes exactly the offers |
| Streaming.Label | streamlit_app.py:145-152 | reading an offer fails (raises) exactly when it is not an object, its `service` is not an object, or the service id is not a string |
| Streaming.LabelText | streamlit_app.py:145-152 | a readable offer reads as the capitalised service id (default `Unknown`) for a subscription, and otherwise as the capitalised id followed by the type (default `N/A`) in parentheses |
| Streaming.LabelSetMembers | streamlit_app.py:143-152 | the `services` set holds the label of every offer and nothing else |
| Streaming.LabelDefaults | streamlit_app.py:145-152 | an offer without `service` and `type` reads "Unknown (N/A)" |
| Streaming.ServicesNonEmpty | streamlit_app.py:153 | a non-empty offer list always yields at least one service, so the "None found in US." fallback is dead |
| Streaming.OptionsText | streamlit_app.py:129-157 | A body that is not an object reads "Not found or parsing failed.". An unrecognised structure reads "Streaming data structure not recognized.". A falsy `in` reads "None found in India.". Parsing raises exactly when the `in` value is a truthy non-list or some offer cannot be read |
| Streaming.SummaryIsSortedListing | streamlit_app.py:143-159 | the offers text is the duplicate-free, ascending list of labels joined by ", ". That listing is never empty, so the "None found in US." fallback is dead. The text itself is empty when the only label is empty (a subscription offer whose service id is "") |
| Streaming.Fetch | streamlit_app.py:96-180 | a lookup returns exactly one of info text and error, and an info text is the key notice, the 404 notice or starts with "Available in (India): " |
| Streaming.FetchFails | streamlit_app.py:108-175 | With an id and a key, the lookup is an error exactly when the request raised, the status is neither 2xx nor 404, or a 2xx body is undecodable, malformed or raises in parsing. Each gives its error kind (HTTP client error: connection; OS error, undecodable body, parse failure: unexpected; malformed JSON: data error). A parsed 2xx body reads "Available in (India): " followed by the offers text |
| Streaming.FetchStatuses | streamlit_app.py:162-168 | 404 gives exactly "Streaming info not found for this title (404)." and no error; every other non-2xx status gives a status error and no text |
| Streaming.FetchNoRequest | streamlit_app.py:98-106 | with an empty id or the placeholder key the outcome does not depend on the network. An empty id gives the id-required error and no text, even without a key, since the id is checked first. With an id but no key it is the configuration notice and no error |
| Streaming.CollectServices | streamlit_app.py:143-152 | the loop yields the set of all offer labels, or stops (raises) exactly when some offer cannot be read |
| Streaming.ParseOptions | streamlit_app.py:129-159 | the parsing block computes the offers text the specification `OptionsText` gives, or raises when it does |
| Streaming.FetchAvailability | streamlit_app.py:96-180 | the client returns the pair the specification `Fetch` gives for every id, key state and exchange |
| WatchlistStore.Without | streamlit_app.py:381 | deleting a key leaves every other key and no other, still distinct; deleting an absent key changes nothing |
| WatchlistStore.WithoutAppend | streamlit_app.py:381 | deletion works key by key, so the keys before and after the deleted one keep their relative order |
| WatchlistStore.WithoutAt | streamlit_app.py:381 | deleting the key at position i of the insertion order leaves exactly the other positions, in order |
| WatchlistStore.SortByTitle | streamlit_app.py:365 | the sorted view shows every dictionary item exactly once (a permutation) |
| WatchlistStore.SortByTitleSorted | streamlit_app.py:365 | the watchlist view is ascending by lower-cased title |
| WatchlistStore.SortByTitleStable | streamlit_app.py:365 | items with equal lower-cased titles keep dictionary order, as Python's stable sort does |
| WatchlistStore.Watchlist.Items | streamlit_app.py:365 | `items()` pairs each key, in insertion order, with its entry |
| WatchlistStore.Watchlist.constructor | streamlit_app.py:185-186 | the session starts from the loaded dictionary with no save issued |
| WatchlistStore.Watchlist.Save | streamlit_app.py:38-44 | a save writes the whole current dictionary |
| WatchlistStore.Watchlist.Add | streamlit_app.py:278-285 | a new id gets exactly one new key bound to the entry, appended to the order, and one save; an id already present leaves everything unchanged with no save |
| WatchlistStore.Watchlist.Remove | streamlit_app.py:380-382 | a present id is deleted alone and saved once; an absent id changes nothing and saves nothing |
| WatchlistStore.Watchlist.SortedItems | streamlit_app.py:365 | Rendering raises (None) exactly when some stored title is not a string, since `.lower()` is applied to every title. Otherwise the list is sorted by lower-cased title, a permutation of the items, and stable |
| App.MovieId | streamlit_app.py:244 | a title without an `id` is keyed "N/A", and a string id is used as it is |
| App.Snapshot | streamlit_app.py:244-246 | the entry's id is the title's id text; a present title, year and type are copied as their last binding in the result, and each missing one takes the source's default (`N/A`, `N/A`, empty type) |
| App.DarkKnightSnapshot | streamlit_app.py:281-283 | the result `{"id":"tt0468569","primaryTitle":"The Dark Knight","startYear":2008}` is stored as that title, 2008, that id and type "" |
| App.UntitledResultStored | streamlit_app.py:278-283 | a result with a usable id and a `null` title passes the add guard and is stored with a non-string title, on which the sorted watchlist view then raises |
| App.NoResultsMessage | streamlit_app.py:227 | the empty-results notice quotes the query verbatim after "No results found for '" |
| App.ShownAsWarning | streamlit_app.py:317 | a stored text is shown as a warning exactly when it starts with the warning marker |
| App.Shown | streamlit_app.py:310-313 | an error is stored as the warning marker, a space and then the error's message, so it is shown as a warning; otherwise the info text is stored as it is |
| App.ShownWarningIffError | streamlit_app.py:310-320 | after a lookup some text is stored, and it is shown as a warning exactly when the lookup failed |
| App.Session.constructor | streamlit_app.py:185-196 | a session starts with the loaded watchlist and every other field None |
| App.Session.NewSearch | streamlit_app.py:213-227 | selection and streaming text are cleared. On error only the error message is set. On success the results are set, and the info message only when they are empty. Afterwards exactly one of results and error is present |
| App.Session.SelectResult | streamlit_app.py:348-350 | opening a result selects it and clears streaming text and error; results and info stay |
| App.Session.BackToResults | streamlit_app.py:292-294 | selection, streaming text and error are cleared; results and info stay |
| App.Session.LoadStreamingInfo | streamlit_app.py:305-313 | the lookup runs only when the id is not `N/A` and nothing is stored. It stores the info text, or the error behind the warning marker. Afterwards some text is stored, so the lookup runs once per selection |
| App.Session.AddSelected | streamlit_app.py:276-288 | an `N/A` id or an id already listed changes nothing. Otherwise the snapshot is added under the id with exactly one save |

## Left out

- Network: connections, headers and URL encoding are left out (streamlit_app.py:59-70, 112-124). Each request is the `Http.Exchange` it would have produced.
- File I/O: reading and writing `watchlist.json` (streamlit_app.py:26-44) is left out. The loaded dictionary is the `Watchlist` constructor's argument, and each save is an entry of the ghost `saved` log. Serialisation, a failed save (`IOError`) and a corrupt file are not modelled.
- Entries loaded from the file are assumed to have the four fields the app writes.
- Secrets: loading keys from `st.secrets` (streamlit_app.py:13-19) is reduced to one "key configured" boolean per API.
- Rendering: layout, buttons, toasts, spinners, images, markdown and `st.rerun` are left out. The add action returns its toast as an `AddOutcome` instead.
- Also left out: vote formatting (streamlit_app.py:269), the unused PIL import, and floating-point JSON numbers. `Json` numbers are integers, so a float `averageRating` or `type` is not representable.
- Search.SearchError.Message: keeps each message's fixed text and the status code. It drops the reason phrase, the body excerpt and the exception text.
- Streaming.StreamingError.Message: same as above.
- Text.Capitalize: maps ASCII letters only. Python's full Unicode case mapping of the first character and the rest is not modelled.
- Text.Lower: maps ASCII letters only. Python's `str.lower` also lower-cases letters such as "É", so the model can order titles like "Élan" and "éclair" differently from the app's watchlist view.
- Json.Repr: a string inside a list- or dict-valued offer `type` is quoted without Python's escaping. A dict with a repeated key shows every binding.
- App.MovieId: an integer id is keyed by its decimal text, which is what the saved file holds; in memory Python keys it by the integer until the next load. A `true` id and a list or object id are not modelled. Python keys `true` in memory by `True` and the saved file writes `"true"`, while the model keys it `"True"`. A list or object id makes the membership test at streamlit_app.py:278 raise (unhashable), while the model stores it under its repr. The search API sends string ids.
- Remove button: the guard and delete at streamlit_app.py:380-382 are exactly `Watchlist.Remove`. No separate session method wraps it.
- The "None found in US." branch (streamlit_app.py:153) is not written out. `ServicesNonEmpty` proves it unreachable.
