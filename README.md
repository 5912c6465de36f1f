# Letterboxd clone: watchlist, favorites and recent searches

A Dafny model of the parts of the Letterboxd-style movie tracker that keep
state: the search page's recent-search history (move-to-front, at most
five, mirrored into the browser's local storage as JSON), the lists page's
client-side watchlist and favorites, and the Flask API's watchlist and
favorites tables with the routes that change and read them, together with
the formatters that turn TMDB records into the movie records the API sends.

Modules, one per source file or concern:

- `Common` — `Option` and the `{id, title, poster_url}` list entry both sides exchange.
- `JsonStrings` — `JSON.stringify` of an array of strings and the part of `JSON.parse` that reads one back; the round trip is proved.
- `RecentSearches` — the history as a value: record (move to front, keep five) and remove (filter).
- `SearchPage` — the search page component (`FilmSearch`) as a class, with local storage as a class holding a key→string map.
- `ListsPage` — the lists page component (`ListPage`) as a class, the filters it uses, and the key it reads the loaded watchlist from.
- `WatchlistApi` — the watchlist and favorites tables as a `Database` class whose routes append or delete rows; the table lemmas are stated on sequences of rows.
- `MovieFormat` — year, poster, director and genre formatting, the details lookup, `/movie/<id>` and the `/search` loop.

Network replies (browser `fetch`, TMDB), the Flask session and the request
bodies are parameters of the methods. A table is the sequence of its rows in
rowid order; a new row gets the largest rowid plus one, as SQLite assigns it
to an `INTEGER PRIMARY KEY`, and `.first()` is the first matching row in
that order. Request members are `Option<string>`; a member counts as given
when it is present and non-empty (Python truthiness).

The code records the untrimmed query in the history; a stored payload that
does not parse makes the mount effect throw; the client adds without a
duplicate check and removes only after the server confirms, with no
rollback; `/favorites/add` has no duplicate check. The model does the same.

## Model

| member | source | states |
|---|---|---|
| `RecentSearches.Without` | src/app/search/page.tsx:56 | the filtered history holds exactly the searches of the old one that differ from the term, and is never longer |
| `RecentSearches.Take` | src/app/search/page.tsx:44 | `slice(0, n)`: a prefix of length n, or the whole list when shorter |
| `RecentSearches.Record` | src/app/search/page.tsx:44 | the recorded query is first and occurs nowhere else; the history has between one and five entries |
| `RecentSearches.WithoutAppend` | src/app/search/page.tsx:56 | removing a search keeps the order of the others (filtering distributes over concatenation) |
| `RecentSearches.WithoutAbsent` | src/app/search/page.tsx:56 | removing a search that is not in the history leaves it unchanged |
| `RecentSearches.WithoutKeepsNoDuplicates` | src/app/search/page.tsx:56 | removing keeps a duplicate-free history duplicate-free |
| `RecentSearches.WithoutPresentOnce` | src/app/search/page.tsx:56 | in a duplicate-free history, removing a present search shortens it by exactly one |
| `RecentSearches.RecordKeepsNoDuplicates` | src/app/search/page.tsx:44 | recording keeps a duplicate-free history duplicate-free |
| `RecentSearches.RerecordKeepsLength` | src/app/search/page.tsx:44 | searching again for a search already in a duplicate-free history of at most five keeps its length |
| `RecentSearches.RecordMovesToFront` | src/app/search/page.tsx:44 | recording a search present once moves it to the front; the searches before and after it follow in their old order, cut to five |
| `RecentSearches.WithoutSurroundedOnce` | src/app/search/page.tsx:44 | filtering a search out of the middle of a history that holds it once leaves the searches before and after it, in order |
| `RecentSearches.RecordNewEvictsOldest` | src/app/search/page.tsx:44 | a new search goes in front of the old history cut to five; with five kept, the oldest is dropped |
| `RecentSearches.MoveToFrontExample` | src/app/search/page.tsx:44 | searching a, b, c, then a gives a, c, b |
| `RecentSearches.EvictionExample` | src/app/search/page.tsx:44 | six different searches keep the last five, newest first |
| `JsonStrings.EscapeStringParses` | src/app/search/page.tsx:46 | the escaped characters of any string, closed by a quote, parse back to that string and the rest of the input |
| `JsonStrings.EncodeItemsParses` | src/app/search/page.tsx:46 | the encoded elements of any non-empty array, closed by `]`, parse back to that array |
| `JsonStrings.Encode` | src/app/search/page.tsx:46 | `JSON.stringify` of an array of strings is bracketed by `[` and `]`, and the empty array is `[]`; `RoundTrip` proves it reads back |
| `JsonStrings.Decode` | src/app/search/page.tsx:28 | a payload that parses opens, after leading white space, with `[`; `RoundTrip` proves it accepts everything the page writes and `TruncatedPayloadRejected` that it rejects every proper prefix of it |
| `JsonStrings.RoundTrip` | src/app/search/page.tsx:28 | parsing what `JSON.stringify` wrote for an array of strings gives back that array |
| `JsonStrings.TruncatedPayloadRejected` | src/app/search/page.tsx:28 | every proper prefix of what `JSON.stringify` writes for an array of strings, the empty text included, is a parse error |
| `JsonStrings.EscapeStringPrefixRejected` | src/app/search/page.tsx:28 | any prefix of an escaped string body, which has no closing quote, is an unterminated string |
| `JsonStrings.ItemsPrefixRejected` | src/app/search/page.tsx:28 | the array's elements cut anywhere before the closing `]` are an error |
| `SearchPage.Trim` | src/app/search/page.tsx:33 | `trim()` is empty exactly when the query is all JavaScript white space; otherwise it starts and ends with a non-space |
| `SearchPage.LocalStorage.GetItem` | src/app/search/page.tsx:26 | the stored string for the key, or none |
| `SearchPage.LocalStorage.SetItem` | src/app/search/page.tsx:46 | the key now maps to the value and no other key changes |
| `SearchPage.FilmSearch.constructor` | src/app/search/page.tsx:18-23 | empty query, results, error and history; not loading |
| `SearchPage.FilmSearch.SetQuery` | src/app/search/page.tsx:100 | only the query changes |
| `SearchPage.FilmSearch.RestoreRecentSearches` | src/app/search/page.tsx:25-30 | no stored or an empty payload changes nothing; a parsable payload replaces the history; an unparsable one throws and changes nothing |
| `SearchPage.FilmSearch.HandleSearch` | src/app/search/page.tsx:32-53 | a blank query changes nothing; a successful reply shows its films (or none), records the query and stores the new history as JSON; a failed fetch, non-ok status or bad body sets the error message and keeps results, history and storage; loading ends false |
| `SearchPage.FilmSearch.RemoveSearch` | src/app/search/page.tsx:55-59 | the history loses every copy of the search and is stored as JSON; nothing else changes |
| `SearchPage.SearchThenReopen` | src/app/search/page.tsx:25-46 | a search recorded in one visit is the first recent search after the page is opened again on the same storage |
| `ListsPage.WithoutId` | src/app/lists/page.tsx:81 | the remaining entries are exactly those whose id differs, never more than before |
| `ListsPage.WithoutIdCons` | src/app/lists/page.tsx:81 | the filter keeps the head entry exactly when its id differs |
| `ListsPage.WithoutIdAppend` | src/app/lists/page.tsx:81 | removal keeps the remaining entries in their original order |
| `ListsPage.WithoutIdAbsent` | src/app/lists/page.tsx:81 | removing an id no entry carries changes nothing |
| `ListsPage.CountWithoutId` | src/app/lists/page.tsx:81 | after removal no entry carries the id, and every other id keeps its count |
| `ListsPage.CountAppend` | src/app/lists/page.tsx:48 | appending a movie raises the count of its id by one and no other |
| `ListsPage.AddTwiceKeepsBoth` | src/app/lists/page.tsx:48 | two adds of one movie leave two more entries with its id: no client-side de-duplication |
| `ListsPage.WatchlistMemberAsWritten` | src/app/lists/page.tsx:26 | `data.Watchlist` is defined exactly when the body has that key |
| `ListsPage.WatchlistMember` | src/app/lists/page.tsx:26 | the member under the server's key is defined exactly when the body has that key |
| `ListsPage.AsWrittenLoadMissesServerList` | src/app/lists/page.tsx:26 | on every `/lists` reply the page as written reads `undefined` |
| `ListsPage.LoadReadsServerList` | src/app/lists/page.tsx:26 | read under the server's key, the page gets exactly the entries the server sent |
| `ListsPage.ListPage.constructor` | src/app/lists/page.tsx:15-16 | both lists start empty |
| `ListsPage.ListPage.LoadWatchlist` | src/app/lists/page.tsx:18-33 | a reply with `success` replaces the watchlist wholesale; a failed fetch, unparsable text or no `success` leaves it; favorites never change |
| `ListsPage.ListPage.AddToWatchlist` | src/app/lists/page.tsx:35-51 | on `success` the movie is appended after the unchanged old entries and the page navigates to /watchlist; otherwise nothing changes; favorites never change |
| `ListsPage.ListPage.AddToFavorites` | src/app/lists/page.tsx:53-69 | on `success` the movie is appended to favorites and the page navigates; the watchlist never changes |
| `ListsPage.ListPage.RemoveFromWatchlist` | src/app/lists/page.tsx:72-83 | on `success` every entry with the id goes and the rest keep their order; otherwise the watchlist is unchanged |
| `ListsPage.AddSameMovieTwice` | src/app/lists/page.tsx:47-48 | two successful adds of one movie show it twice more |
| `WatchlistApi.FindUser` | src/backend/.venv/api/app.py:206 | the user found has the session's username and is in the table; none found means no user has it |
| `WatchlistApi.MaxId` | src/backend/.venv/api/app.py:38 | the largest rowid of a non-empty table (one of its rowids, and no rowid exceeds it), 0 for an empty one |
| `WatchlistApi.NextId` | src/backend/.venv/api/app.py:38 | the rowid a new row gets, in either table, is the largest rowid plus one (1 in an empty table), so it exceeds every rowid in the table |
| `WatchlistApi.Truthy` | src/backend/.venv/api/app.py:216 | a request member passes `all([...])` exactly when it is neither missing nor the empty string |
| `WatchlistApi.FirstMatch` | src/backend/.venv/api/app.py:219 | the position of the first row with the pair, with no match before it; none exactly when no row has the pair |
| `WatchlistApi.RemoveAt` | src/backend/.venv/api/app.py:374-375 | deleting a row removes exactly that row: one shorter, same rows otherwise as a multiset |
| `WatchlistApi.RowsOf` | src/backend/.venv/api/app.py:348 | the selected rows are exactly the table's rows of that user; a missing `user_id` selects none |
| `WatchlistApi.Project` | src/backend/.venv/api/app.py:349 | each row becomes `{id: movie_id, title, poster_url}`, in order |
| `WatchlistApi.ReplyLists` | src/backend/.venv/api/app.py:351 | the reply carries the entries under `watchlist` and under no other key |
| `WatchlistApi.InsertKeepsUniquePairs` | src/backend/.venv/api/app.py:219-225 | inserting after the duplicate check keeps every `(user_id, movie_id)` pair unique |
| `WatchlistApi.InsertKeepsIdsIncreasing` | src/backend/.venv/api/app.py:223-225 | the new row goes after every row in rowid order |
| `WatchlistApi.RemoveKeepsInvariants` | src/backend/.venv/api/app.py:371-375 | deleting a row keeps pairs unique and the table in rowid order |
| `WatchlistApi.InsertThenRemoveRestores` | src/backend/.venv/api/app.py:371-375 | after inserting a new pair, removing that pair finds the inserted row and restores the original table |
| `WatchlistApi.RowsOfInsert` | src/backend/.venv/api/app.py:348 | after an insert the new row shows up last for its own user and for no other |
| `WatchlistApi.RowsOfRemove` | src/backend/.venv/api/app.py:348 | after a delete the row's user has one row fewer and every other user the same rows |
| `WatchlistApi.Database.constructor` | src/backend/.venv/api/app.py:59-60 | the tables start empty |
| `WatchlistApi.Database.AddToWatchlist` | src/backend/.venv/api/app.py:201-227 | 401 without a session user, 404 for an unknown user, 400 for a missing `user_id`, `movie_id` or `title`, 400 for an existing pair, all without change; otherwise exactly one row with the next rowid is appended and 201 returned; unique pairs and rowid order are kept |
| `WatchlistApi.Database.RemoveFromWatchlist` | src/backend/.venv/api/app.py:354-377 | 401, 404, 400 as for adding and 404 when no row has the pair, all without change; otherwise the first row with the pair is deleted and nothing else; unique pairs and rowid order are kept |
| `WatchlistApi.Database.GetWatchlist` | src/backend/.venv/api/app.py:338-351 | 401 or 404 with no entries; otherwise 200 with the rows of the queried user, in table order, projected to entries |
| `WatchlistApi.Database.AddFavorite` | src/backend/.venv/api/app.py:410-427 | 401 without a session, 400 for a missing `movie_id` or `title`, 500 when the session user is not in the table, all without change; otherwise a row is appended even when the pair exists |
| `WatchlistApi.AddThenRemove` | src/backend/.venv/api/app.py:354-377 | a successful add followed by a remove of the same pair leaves the watchlist table as it was |
| `WatchlistApi.FavoriteTwice` | src/backend/.venv/api/app.py:419-425 | favoriting one movie twice stores two rows for it |
| `MovieFormat.Year` | src/backend/.venv/api/app.py:193 | the first four characters of a non-empty release date (all of a shorter one), else "Unknown" |
| `MovieFormat.Poster` | src/backend/.venv/api/app.py:194 | a URL exactly when the path is non-empty; it starts with the image host prefix and the rest is the path |
| `MovieFormat.FirstDirector` | src/backend/.venv/api/app.py:84 | the position of the first crew member with job "Director", none exactly when there is none |
| `MovieFormat.Director` | src/backend/.venv/api/app.py:84 | the first director's name, or "Unknown" when no crew member is a director |
| `MovieFormat.Genres` | src/backend/.venv/api/app.py:85 | no genres give the empty line |
| `MovieFormat.SplitJoinedGenres` | src/backend/.venv/api/app.py:85 | splitting the genre line on ", " gives back the names, when none holds a comma |
| `MovieFormat.Details` | src/backend/.venv/api/app.py:77-90 | a failed request gives "Unknown" director and genre; otherwise the director is the first director of the crew and the genre line is the names joined by ", " (empty without genres), which `SplitJoinedGenres` splits back |
| `MovieFormat.Format` | src/backend/.venv/api/app.py:190-197 | one `/search` entry keeps the hit's id and title, takes the year from `Year` (the first four characters of a non-empty release date, else "Unknown") and the poster from `Poster` (the image host prefix followed by the path, when the path is non-empty), and the director and genre of the details |
| `MovieFormat.MovieById` | src/backend/.venv/api/app.py:263-286 | 500 exactly when the request fails; otherwise the record's id, title, formatted poster, overview or its default, director and genres |
| `MovieFormat.SearchMovie` | src/backend/.venv/api/app.py:174-199 | 400 for a missing or empty query, 500 for a TMDB status other than 200; otherwise one formatted entry per hit, in order, with that hit's details |

## Findings

| source | as written | input that shows it | evidently intended | confidence | as-written member | corrected member |
|---|---|---|---|---|---|---|
| src/app/lists/page.tsx:26 | the page loads `data.Watchlist` | any successful reply of GET /lists, whose list is under `watchlist` (src/backend/.venv/api/app.py:351) | read the list under `watchlist`, the key the server sends | high; not executed | `ListsPage.AsWrittenLoadMissesServerList` | `ListsPage.LoadReadsServerList` |

`ListPage.LoadWatchlist` takes the list the reply carries under the server's key, that is the corrected read.

## Left out

- All network traffic: the browser's `fetch` calls and TMDB's HTTP requests are replies passed in as parameters (`SearchReply`, `Reply`, `LoadReply`, `DetailsReply`, a lookup function for per-movie details); timeouts and status handling inside `requests` are not modelled.
- Flask sessions and cookies (the session is `Option<string>`), CORS headers, password hashing, registration, login, logout and `/profile`, whose query names a column the Review model does not have.
- The review routes and the popular and new-release routes.
- The first `get_movie_details` (src/backend/.venv/api/app.py:63-75): the second definition replaces it.
- SQLAlchemy and SQLite themselves: the tables are sequences of rows; column length limits and type affinity are not modelled, and request members are strings or absent (numbers and booleans in request bodies are not modelled).
- A TMDB record without a member the code indexes directly (`credits`, `id`, `title`) raises `KeyError`; TMDB records here always have them.
- `MovieFormat.TmdbMovie`: `None` stands for a missing member, and a JSON `null` member is not represented. The code treats `null` differently in two places: `data.get("overview", ...)` returns `None` for `"overview": null`, so `/movie/<id>` sends `null` where the model gives the default text (src/backend/.venv/api/app.py:279); and `data.get("genres", [])` returns `None` for `"genres": null`, so the comprehension raises `TypeError`, which the `RequestException` handler does not catch (src/backend/.venv/api/app.py:85, :88), where the model gives an empty genre line.
- Rendering and navigation other than the target of `router.push` after an add; the home, login, profile and landing pages.
- Concurrency: handlers run one at a time, so the stale-closure effects of async handlers are not modelled, including clicking a recent search (src/app/search/page.tsx:162), which calls `handleSearch` before the new query is in state.
- `JsonStrings.Decode`: only arrays of strings are read; any other JSON value (which `JSON.parse` would accept and the page would put into state) is treated as a parse error, as are `\u` escapes of surrogate halves.
- `SearchPage.LocalStorage.SetItem`: always succeeds; a quota or disabled-storage error thrown by `localStorage.setItem` is not modelled.
- `ListsPage.ListPage.LoadWatchlist`: `LoadReply.Parsed.watchlist` is the server's `watchlist` member, that is the corrected read. As written, the page reads `Watchlist`, so on every successful `/lists` reply it holds `undefined` and `watchlist.map` (src/app/lists/page.tsx:146) throws; the model does not represent `undefined` in the page's state (see Findings).
- The end-to-end agreement of client and server is not modelled: the client's request bodies have no `user_id`, which the watchlist routes require, the remove request uses a URL relative to the page, and `/favorites/add` answers with `status` rather than the `success` the page tests.
