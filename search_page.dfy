/**
 * The film search page: the query box, the search results, the loading and
 * error state, and the recent-search history mirrored into local storage.
 */
module SearchPage {
  import opened Common
  import JsonStrings
  import RecentSearches

  /** The local-storage key of the recent-search history. */
  const RecentSearchesKey := "recentSearches"

  /** The message the page shows when a search fails for any reason. */
  const SearchFailedMessage := "Something went wrong. Please try again."

  // ---------------------------------------------------------------------
  // String.prototype.trim

  /** The white space and line terminators that JavaScript's `trim` removes. */
  predicate IsJsWhitespace(c: char) {
    c == '\t' || c == '\n' || c == '\U{B}' || c == '\U{C}' || c == '\r' || c == ' '
    || c == '\U{A0}' || c == '\U{1680}' || ('\U{2000}' <= c <= '\U{200A}')
    || c == '\U{2028}' || c == '\U{2029}' || c == '\U{202F}' || c == '\U{205F}'
    || c == '\U{3000}' || c == '\U{FEFF}'
  }

  predicate IsBlank(s: string) {
    forall i :: 0 <= i < |s| ==> IsJsWhitespace(s[i])
  }

  function TrimStart(s: string): (r: string)
    ensures |r| <= |s| && r == s[|s| - |r|..]
    ensures r != [] ==> !IsJsWhitespace(r[0])
    ensures r == [] <==> IsBlank(s)
  {
    if s != [] && IsJsWhitespace(s[0]) then
      var r := TrimStart(s[1..]);
      assert s[1..][|s| - 1 - |r|..] == s[|s| - |r|..];
      r
    else s
  }

  function TrimEnd(s: string): (r: string)
    ensures |r| <= |s| && r == s[..|r|]
    ensures r != [] ==> !IsJsWhitespace(r[|r| - 1])
    ensures r == [] <==> IsBlank(s)
  {
    if s != [] && IsJsWhitespace(s[|s| - 1]) then
      var r := TrimEnd(s[..|s| - 1]);
      assert s[..|s| - 1][..|r|] == s[..|r|];
      r
    else s
  }

  /** `s.trim()`: the empty string exactly when `s` is all white space. */
  function Trim(s: string): (r: string)
    ensures r == [] <==> IsBlank(s)
    ensures r != [] ==> !IsJsWhitespace(r[0]) && !IsJsWhitespace(r[|r| - 1])
  {
    var t := TrimStart(s);
    assert t != [] ==> !IsBlank(t);
    TrimEnd(t)
  }

  // ---------------------------------------------------------------------
  // The page

  /** A film as `/search` lists it. */
  datatype Film = Film(id: int, title: string, poster: Option<string>, year: string, director: string, genre: string)

  /** What `fetch` and `response.json()` gave the search handler. */
  datatype SearchReply =
    | Rejected                              // `fetch` threw
    | NotOk(status: int)                    // `response.ok` was false
    | MalformedBody                         // `response.json()` threw
    | Answered(movies: Option<seq<Film>>)   // the body's `movies` member, absent or not

  /** How the mount effect ended. */
  datatype RestoreOutcome = NothingStored | Restored | Threw(message: string)

  /** The browser's local storage for the page's origin: one string per key. */
  class LocalStorage {
    var items: map<string, string>

    constructor (items: map<string, string>)
      ensures this.items == items
    {
      this.items := items;
    }

    method GetItem(key: string) returns (value: Option<string>)
      ensures value == if key in items then Some(items[key]) else None
    {
      value := if key in items then Some(items[key]) else None;
    }

    method SetItem(key: string, value: string)
      modifies this
      ensures items == old(items)[key := value]
    {
      items := items[key := value];
    }
  }

  /** The state of the search page component. */
  class FilmSearch {
    const storage: LocalStorage
    var query: string
    var searchResults: seq<Film>
    var loading: bool
    var error: string
    var recentSearches: seq<string>

    /** The initial state, before the mount effect runs. */
    constructor (storage: LocalStorage)
      ensures this.storage == storage
      ensures query == "" && searchResults == [] && !loading && error == "" && recentSearches == []
    {
      this.storage := storage;
      query, searchResults, loading, error, recentSearches := "", [], false, "", [];
    }

    /** Typing in the search box. */
    method SetQuery(q: string)
      modifies this
      ensures query == q
      ensures searchResults == old(searchResults) && loading == old(loading)
      ensures error == old(error) && recentSearches == old(recentSearches)
    {
      query := q;
    }

    /**
     * The mount effect: a stored, non-empty payload replaces the history;
     * a payload that does not parse throws and leaves the state as it was.
     */
    method RestoreRecentSearches() returns (outcome: RestoreOutcome)
      modifies this
      ensures query == old(query) && searchResults == old(searchResults)
      ensures loading == old(loading) && error == old(error)
      ensures RecentSearchesKey !in storage.items || storage.items[RecentSearchesKey] == "" ==>
                outcome == NothingStored && recentSearches == old(recentSearches)
      ensures RecentSearchesKey in storage.items && storage.items[RecentSearchesKey] != "" ==>
                match JsonStrings.Decode(storage.items[RecentSearchesKey])
                case Ok(xs) => outcome == Restored && recentSearches == xs
                case Err(m) => outcome == Threw(m) && recentSearches == old(recentSearches)
    {
      var stored := storage.GetItem(RecentSearchesKey);
      if stored.Some? && stored.value != "" {
        match JsonStrings.Decode(stored.value)
        case Ok(xs) =>
          recentSearches := xs;
          outcome := Restored;
        case Err(m) =>
          outcome := Threw(m);
      } else {
        outcome := NothingStored;
      }
    }

    /**
     * Submitting a search. A blank query does nothing. Otherwise a successful
     * reply shows its films, moves the query to the front of the history and
     * writes the history to local storage; a failed one shows the error
     * message and keeps the results and the history.
     */
    method HandleSearch(reply: SearchReply)
      modifies this, storage
      ensures query == old(query)
      ensures IsBlank(query) ==>
                searchResults == old(searchResults) && loading == old(loading) && error == old(error)
                && recentSearches == old(recentSearches) && storage.items == old(storage.items)
      ensures !IsBlank(query) && reply.Answered? ==>
                !loading && error == ""
                && searchResults == (if reply.movies.Some? then reply.movies.value else [])
                && recentSearches == RecentSearches.Record(old(recentSearches), query)
                && storage.items == old(storage.items)[RecentSearchesKey := JsonStrings.Encode(recentSearches)]
      ensures !IsBlank(query) && !reply.Answered? ==>
                !loading && error == SearchFailedMessage
                && searchResults == old(searchResults) && recentSearches == old(recentSearches)
                && storage.items == old(storage.items)
    {
      if Trim(query) != "" {
        loading := true;
        error := "";
        if reply.Answered? {
          searchResults := if reply.movies.Some? then reply.movies.value else [];
          var updated := RecentSearches.Record(recentSearches, query);
          var payload := JsonStrings.Encode(updated);
          recentSearches := updated;
          storage.SetItem(RecentSearchesKey, payload);
        } else {
          error := SearchFailedMessage;
        }
        loading := false;
      }
    }

    /** Removing one search from the history, and writing the history to local storage. */
    method RemoveSearch(search: string)
      modifies this, storage
      ensures query == old(query) && searchResults == old(searchResults)
      ensures loading == old(loading) && error == old(error)
      ensures recentSearches == RecentSearches.Without(old(recentSearches), search)
      ensures storage.items == old(storage.items)[RecentSearchesKey := JsonStrings.Encode(recentSearches)]
    {
      var updated := RecentSearches.Without(recentSearches, search);
      recentSearches := updated;
      storage.SetItem(RecentSearchesKey, JsonStrings.Encode(updated));
    }
  }

  /** A search made in one visit is the first recent search when the page is opened again. */
  method SearchThenReopen(storage: LocalStorage, q: string, films: seq<Film>) returns (first: string)
    requires !IsBlank(q)
    modifies storage
    ensures first == q
  {
    var page := new FilmSearch(storage);
    page.SetQuery(q);
    page.HandleSearch(Answered(Some(films)));
    JsonStrings.RoundTrip(page.recentSearches);
    var reopened := new FilmSearch(storage);
    var outcome := reopened.RestoreRecentSearches();
    assert outcome == Restored;
    first := reopened.recentSearches[0];
  }
}
