/**
 * The per-session state (`st.session_state`) and the user actions that
 * change it: a new search, opening a result, going back to the results,
 * the one-off streaming lookup of the open title, and adding it to the
 * watchlist.
 */
module App {
  import opened Wrappers
  import opened Json
  import opened Http
  import Search
  import Streaming
  import opened WatchlistStore

  /**
   * The marker put in front of a streaming error, character for character as
   * the source spells it: the UTF-8 bytes of a warning-sign emoji read as
   * Latin-1 and Windows-1252 text.
   */
  const WARNING_TAG := "\U{E2}\U{161}\U{A0}\U{EF}\U{B8} Error:"
  const WARNING_PREFIX := WARNING_TAG + " "

  /** `msg.startswith(WARNING_TAG)`: the stored text is shown as a warning, otherwise as info. */
  predicate ShownAsWarning(msg: string)
    ensures ShownAsWarning(msg) <==> |WARNING_TAG| <= |msg| && msg[..|WARNING_TAG|] == WARNING_TAG
  {
    WARNING_TAG <= msg
  }

  const NO_RESULTS_PREFIX := "No results found for '"

  /** The notice for an empty result list: it quotes the query verbatim. */
  function NoResultsMessage(query: string): (m: string)
    ensures |m| == |NO_RESULTS_PREFIX| + |query| + 2
    ensures NO_RESULTS_PREFIX <= m
    ensures m[|NO_RESULTS_PREFIX|..|NO_RESULTS_PREFIX| + |query|] == query
  {
    NO_RESULTS_PREFIX + query + "'."
  }

  /** `movie.get('id', 'N/A')`, as the text used for the watchlist key and the lookup path. */
  function MovieId(movie: Json): (id: string)
    requires movie.JObject?
    ensures !HasKey(movie, "id") ==> id == "N/A"
    ensures Get(movie, "id", JNull).JStr? ==> id == Get(movie, "id", JNull).s
  {
    Str(Get(movie, "id", JStr("N/A")))
  }

  /** The entry written when the open title is added. */
  function Snapshot(movie: Json): (e: Entry)
    requires movie.JObject?
    ensures e.id == MovieId(movie)
    ensures !HasKey(movie, "primaryTitle") ==> e.title == JStr("N/A")
    ensures !HasKey(movie, "startYear") ==> e.year == JStr("N/A")
    ensures !HasKey(movie, "type") ==> e.kind == JStr("")
    ensures HasKey(movie, "primaryTitle") ==> Lookup(movie.members, "primaryTitle") == Some(e.title)
    ensures HasKey(movie, "startYear") ==> Lookup(movie.members, "startYear") == Some(e.year)
    ensures HasKey(movie, "type") ==> Lookup(movie.members, "type") == Some(e.kind)
  {
    Entry(Get(movie, "primaryTitle", JStr("N/A")), Get(movie, "startYear", JStr("N/A")),
          MovieId(movie), Get(movie, "type", JStr("")))
  }

  /**
   * A search result for The Dark Knight (`{"id": "tt0468569", "primaryTitle":
   * "The Dark Knight", "startYear": 2008}`, no `type`) is stored as that title,
   * 2008, that id and an empty type.
   */
  lemma DarkKnightSnapshot()
    ensures var movie := JObject([("id", JStr("tt0468569")), ("primaryTitle", JStr("The Dark Knight")),
                                  ("startYear", JNum(2008))]);
            Snapshot(movie) == Entry(JStr("The Dark Knight"), JNum(2008), "tt0468569", JStr(""))
  {
    var movie := JObject([("id", JStr("tt0468569")), ("primaryTitle", JStr("The Dark Knight")),
                          ("startYear", JNum(2008))]);
    var m := movie.members;
    assert m[..2][..1] == m[..1] && Lookup(m[..1], "id") == Some(JStr("tt0468569"));
    assert Lookup(m, "id") == Lookup(m[..2], "id") == Lookup(m[..1], "id");
    assert Get(movie, "id", JStr("N/A")) == JStr("tt0468569");
    assert Get(movie, "primaryTitle", JStr("N/A")) == JStr("The Dark Knight");
    assert Get(movie, "startYear", JStr("N/A")) == JNum(2008);
    assert Get(movie, "type", JStr("")) == JStr("");
  }

  /** The toast that the add button shows. */
  datatype AddOutcome = NoId | AlreadyListed | Added

  /** What the streaming section stores: the info text, or the error behind the warning sign. */
  function Shown(outcome: (Option<string>, Option<Streaming.StreamingError>)): (r: Option<string>)
    ensures outcome.1.Some? ==> r.Some? && ShownAsWarning(r.value)
    ensures outcome.1.Some? ==> r.Some? && WARNING_PREFIX <= r.value
                                && r.value[|WARNING_PREFIX|..] == outcome.1.value.Message()
    ensures outcome.1.None? ==> r == outcome.0
  {
    if outcome.1.Some? then Some(WARNING_PREFIX + outcome.1.value.Message()) else outcome.0
  }

  /**
   * What a lookup stores is always displayed, and it is displayed as a
   * warning exactly when the lookup failed: no info text starts with the marker.
   */
  lemma ShownWarningIffError(imdbId: string, keyConfigured: bool, ex: Exchange)
    ensures var outcome := Streaming.Fetch(imdbId, keyConfigured, ex);
      Shown(outcome).Some? && (ShownAsWarning(Shown(outcome).value) <==> outcome.1.Some?)
  {
    var outcome := Streaming.Fetch(imdbId, keyConfigured, ex);
    if outcome.1.None? {
      var info := outcome.0.value;
      assert WARNING_TAG[0] == '\U{E2}';
      assert Streaming.NOT_FOUND_404[0] == 'S';
      assert Streaming.KEY_INFO[0] == 'S';
      assert Streaming.SUMMARY_PREFIX <= info ==> info[0] == 'A';
    }
  }

  /**
   * A result whose title is null has a usable id, so the add button stores it,
   * and its title is not a string: from then on the sorted watchlist view
   * raises (`WatchlistStore.Watchlist.SortedItems` is None).
   */
  lemma UntitledResultStored()
    ensures var movie := JObject([("id", JStr("tt0000001")), ("primaryTitle", JNull)]);
      && Search.HasId(movie)
      && MovieId(movie) != "N/A"
      && !Snapshot(movie).title.JStr?
  {
    var movie := JObject([("id", JStr("tt0000001")), ("primaryTitle", JNull)]);
    var m := movie.members;
    assert m[..1] == [("id", JStr("tt0000001"))];
    assert Lookup(m, "id") == Lookup(m[..1], "id") == Some(JStr("tt0000001"));
    assert Get(movie, "primaryTitle", JStr("N/A")) == JNull;
  }

  class Session {
    const watchlist: Watchlist
    var searchResults: Option<seq<Json>>
    var selected: Option<Json>
    var streamingInfo: Option<string>
    var errorMessage: Option<string>
    var infoMessage: Option<string>

    /** Every result and the open title came through the search filter. */
    ghost predicate Valid()
      reads this, watchlist
    {
      && watchlist.Valid()
      && (searchResults.Some? ==> forall x :: x in searchResults.value ==> Search.HasId(x))
      && (selected.Some? ==> Search.HasId(selected.value))
    }

    /** The session's first run: the loaded watchlist and nothing else. */
    constructor (loaded: Watchlist)
      requires loaded.Valid()
      ensures Valid() && watchlist == loaded
      ensures searchResults == None && selected == None && streamingInfo == None
      ensures errorMessage == None && infoMessage == None
    {
      watchlist := loaded;
      searchResults, selected, streamingInfo := None, None, None;
      errorMessage, infoMessage := None, None;
    }

    /** The search button with a non-empty query. */
    method NewSearch(query: string, keyConfigured: bool, ex: Exchange)
      requires Valid() && query != ""
      modifies this
      ensures Valid()
      ensures selected == None && streamingInfo == None
      ensures var outcome := Search.Autocomplete(query, keyConfigured, ex);
        if outcome.1.Some? then
          errorMessage == Some(outcome.1.value.Message()) && searchResults == None && infoMessage == None
        else
          && errorMessage == None && searchResults == outcome.0
          && infoMessage == (if outcome.0.value == [] then Some(NoResultsMessage(query)) else None)
      ensures searchResults.Some? != errorMessage.Some?
    {
      selected, streamingInfo, errorMessage, infoMessage := None, None, None, None;
      searchResults := None;
      var outcome := Search.Autocomplete(query, keyConfigured, ex);
      var results, error := outcome.0, outcome.1;
      if error.Some? {
        errorMessage := Some(error.value.Message());
      } else {
        assert results.Some?;
        searchResults := results;
        if results.None? || results.value == [] {
          infoMessage := Some(NoResultsMessage(query));
        }
      }
    }

    /** The details button of one listed result. */
    method SelectResult(item: Json)
      requires Valid() && searchResults.Some? && item in searchResults.value
      modifies this
      ensures Valid()
      ensures selected == Some(item) && streamingInfo == None && errorMessage == None
      ensures searchResults == old(searchResults) && infoMessage == old(infoMessage)
    {
      selected := Some(item);
      streamingInfo := None;
      errorMessage := None;
    }

    /** The back-to-results button. */
    method BackToResults()
      requires Valid()
      modifies this
      ensures Valid()
      ensures selected == None && streamingInfo == None && errorMessage == None
      ensures searchResults == old(searchResults) && infoMessage == old(infoMessage)
    {
      selected := None;
      streamingInfo := None;
      errorMessage := None;
    }

    /**
     * The streaming section of the details view: looks the open title up
     * only when nothing is stored yet, so a title is looked up once per
     * selection.
     */
    method LoadStreamingInfo(keyConfigured: bool, ex: Exchange)
      requires Valid() && selected.Some?
      modifies this
      ensures Valid()
      ensures selected == old(selected) && searchResults == old(searchResults)
      ensures errorMessage == old(errorMessage) && infoMessage == old(infoMessage)
      ensures var id := MovieId(selected.value);
        streamingInfo == if id == "N/A" || old(streamingInfo).Some? then old(streamingInfo)
                         else Shown(Streaming.Fetch(id, keyConfigured, ex))
      ensures MovieId(selected.value) != "N/A" ==> streamingInfo.Some?
    {
      var id := MovieId(selected.value);
      if id != "N/A" && streamingInfo.None? {
        var info, error := Streaming.FetchAvailability(id, keyConfigured, ex);
        if error.Some? {
          streamingInfo := Some(WARNING_PREFIX + error.value.Message());
        } else {
          streamingInfo := info;
        }
      }
    }

    /** The add-to-watchlist button of the details view. */
    method AddSelected() returns (outcome: AddOutcome)
      requires Valid() && selected.Some?
      modifies watchlist
      ensures Valid()
      ensures var id := MovieId(selected.value);
        && (id == "N/A" ==> outcome == NoId)
        && (id != "N/A" && id in old(watchlist.entries) ==> outcome == AlreadyListed)
        && (id != "N/A" && id !in old(watchlist.entries) ==>
              && outcome == Added
              && watchlist.entries == old(watchlist.entries)[id := Snapshot(selected.value)]
              && watchlist.order == old(watchlist.order) + [id]
              && watchlist.saved == old(watchlist.saved) + [watchlist.Items()])
      ensures outcome != Added ==> unchanged(watchlist)
    {
      var id := MovieId(selected.value);
      if id == "N/A" {
        return NoId;
      }
      var added := watchlist.Add(id, Snapshot(selected.value));
      outcome := if added then Added else AlreadyListed;
    }
  }
}
