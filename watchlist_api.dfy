/**
 * The Flask routes that keep the watchlist and favorites tables: the
 * guard chain of each route, the rows it inserts or deletes, and the rows
 * `/lists` selects. A table is the sequence of its rows in rowid order,
 * the order SQLite scans them in.
 */
module WatchlistApi {
  import opened Common

  datatype User = User(id: nat, username: string)
  datatype WatchlistRow = WatchlistRow(id: nat, userId: string, movieId: string, title: string, posterUrl: Option<string>)
  datatype FavoriteRow = FavoriteRow(id: nat, userId: nat, movieId: string, title: string)

  /** The members of a JSON request body the routes read; `None` is a missing key or `null`. */
  datatype ListRequest = ListRequest(userId: Option<string>, movieId: Option<string>, title: Option<string>, posterUrl: Option<string>)

  /** A route's status code, its success flag and its message. */
  datatype Reply = Reply(code: nat, success: bool, message: string)

  /** The key under which `/lists` sends the selected entries. */
  const WatchlistReplyKey := "watchlist"

  /** Python truthiness of a request member: present, not `null`, not empty. */
  function Truthy(v: Option<string>): (b: bool)
    ensures b <==> v != None && v != Some("")
  {
    v.Some? && v.value != ""
  }

  // ---------------------------------------------------------------------
  // Users and rowids

  /** `User.query.filter_by(username=name).first()`. */
  function FindUser(users: seq<User>, name: string): (r: Option<User>)
    ensures r.Some? ==> r.value in users && r.value.username == name
    ensures r.None? ==> forall u :: u in users ==> u.username != name
  {
    if users == [] then None
    else if users[0].username == name then Some(users[0])
    else FindUser(users[1..], name)
  }

  function MaxId(ids: seq<nat>): (m: nat)
    ensures forall i :: i in ids ==> i <= m
    ensures ids == [] ==> m == 0
    ensures ids != [] ==> m in ids
  {
    if ids == [] then 0
    else
      var rest := MaxId(ids[1..]);
      assert forall i :: i in ids ==> i == ids[0] || i in ids[1..];
      if ids[0] > rest then ids[0] else rest
  }

  /** The rowid column of each table. */
  function WatchlistRowId(row: WatchlistRow): nat { row.id }
  function FavoriteRowId(row: FavoriteRow): nat { row.id }

  /** The rowid SQLite gives a new row: one more than the largest in the table. */
  function NextId<R>(t: seq<R>, rowid: R -> nat): (id: nat)
    ensures forall k :: 0 <= k < |t| ==> rowid(t[k]) < id
    ensures t == [] ==> id == 1
    ensures t != [] ==> exists k :: 0 <= k < |t| && rowid(t[k]) == id - 1
  {
    var ids := seq(|t|, k requires 0 <= k < |t| => rowid(t[k]));
    assert forall k :: 0 <= k < |t| ==> ids[k] == rowid(t[k]) && ids[k] in ids;
    MaxId(ids) + 1
  }

  // ---------------------------------------------------------------------
  // The watchlist table

  predicate Matches(row: WatchlistRow, userId: string, movieId: string) {
    row.userId == userId && row.movieId == movieId
  }

  /** `Watchlist.query.filter_by(user_id=userId, movie_id=movieId).first()`, as a position. */
  function FirstMatch(t: seq<WatchlistRow>, userId: string, movieId: string): (r: Option<nat>)
    ensures r.Some? ==> r.value < |t| && Matches(t[r.value], userId, movieId)
    ensures r.Some? ==> forall j :: 0 <= j < r.value ==> !Matches(t[j], userId, movieId)
    ensures r.None? <==> forall j :: 0 <= j < |t| ==> !Matches(t[j], userId, movieId)
  {
    if t == [] then None
    else if Matches(t[0], userId, movieId) then Some(0)
    else match FirstMatch(t[1..], userId, movieId)
      case None => None
      case Some(i) => Some(i + 1)
  }

  /** At most one row per `(user_id, movie_id)` pair. */
  predicate UniquePairs(t: seq<WatchlistRow>) {
    forall i, j :: 0 <= i < j < |t| ==> !Matches(t[j], t[i].userId, t[i].movieId)
  }

  predicate IdsIncreasing(t: seq<WatchlistRow>) {
    forall i, j :: 0 <= i < j < |t| ==> t[i].id < t[j].id
  }

  /** The table after `db.session.delete` of the row at position `i`. */
  function RemoveAt(t: seq<WatchlistRow>, i: nat): (r: seq<WatchlistRow>)
    requires i < |t|
    ensures |r| == |t| - 1
    ensures multiset(r) + multiset{t[i]} == multiset(t)
  {
    assert t == t[..i] + [t[i]] + t[i + 1..];
    t[..i] + t[i + 1..]
  }

  /** `Watchlist.query.filter_by(user_id=userId).all()`; a missing `user_id` matches no row. */
  function RowsOf(t: seq<WatchlistRow>, userId: Option<string>): (r: seq<WatchlistRow>)
    ensures forall row {:trigger row in r} :: row in r <==> row in t && userId == Some(row.userId)
  {
    if t == [] then []
    else if userId == Some(t[0].userId) then [t[0]] + RowsOf(t[1..], userId)
    else RowsOf(t[1..], userId)
  }

  /** `{"id": m.movie_id, "title": m.title, "poster_url": m.poster_url}` for each row. */
  function Project(rows: seq<WatchlistRow>): (r: seq<ListEntry>)
    ensures |r| == |rows|
    ensures forall k :: 0 <= k < |rows| ==> r[k] == ListEntry(rows[k].movieId, rows[k].title, rows[k].posterUrl)
  {
    seq(|rows|, k requires 0 <= k < |rows| => ListEntry(rows[k].movieId, rows[k].title, rows[k].posterUrl))
  }

  /** The list-valued members of the `/lists` reply body, by key. */
  function ReplyLists(entries: seq<ListEntry>): (body: map<string, seq<ListEntry>>)
    ensures body.Keys == {WatchlistReplyKey} && body[WatchlistReplyKey] == entries
  {
    map[WatchlistReplyKey := entries]
  }

  // ---------------------------------------------------------------------
  // Properties of the table operations

  /** Inserting a pair that is not there keeps every pair unique. */
  lemma InsertKeepsUniquePairs(t: seq<WatchlistRow>, row: WatchlistRow)
    requires UniquePairs(t) && FirstMatch(t, row.userId, row.movieId).None?
    ensures UniquePairs(t + [row])
  {
    var t' := t + [row];
    forall i, j | 0 <= i < j < |t'| ensures !Matches(t'[j], t'[i].userId, t'[i].movieId) {
      if j == |t| {
        assert !Matches(t[i], row.userId, row.movieId);
      }
    }
  }

  /** A row with the next rowid goes after every row: the table stays in rowid order. */
  lemma InsertKeepsIdsIncreasing(t: seq<WatchlistRow>, row: WatchlistRow)
    requires IdsIncreasing(t) && row.id == NextId(t, WatchlistRowId)
    ensures IdsIncreasing(t + [row])
  {
  }

  lemma RemoveKeepsInvariants(t: seq<WatchlistRow>, i: nat)
    requires i < |t|
    ensures UniquePairs(t) ==> UniquePairs(RemoveAt(t, i))
    ensures IdsIncreasing(t) ==> IdsIncreasing(RemoveAt(t, i))
  {
    var r := RemoveAt(t, i);
    assert forall k :: 0 <= k < |r| ==> r[k] == if k < i then t[k] else t[k + 1];
  }

  /** Adding a pair that was not there and then removing it gives back the table. */
  lemma InsertThenRemoveRestores(t: seq<WatchlistRow>, row: WatchlistRow)
    requires FirstMatch(t, row.userId, row.movieId).None?
    ensures FirstMatch(t + [row], row.userId, row.movieId) == Some(|t|)
    ensures RemoveAt(t + [row], |t|) == t
  {
    var t' := t + [row];
    var r := FirstMatch(t', row.userId, row.movieId);
    assert Matches(t'[|t|], row.userId, row.movieId);
    assert r.value == |t|;
    assert t'[..|t|] == t && t'[|t| + 1..] == [];
  }

  /** `/lists` after an insert: the new row shows up last, and only for its own user. */
  lemma {:induction false} RowsOfInsert(t: seq<WatchlistRow>, row: WatchlistRow, userId: Option<string>)
    ensures RowsOf(t + [row], userId) == RowsOf(t, userId) + (if userId == Some(row.userId) then [row] else [])
  {
    if t == [] {
      assert [] + [row] == [row];
    } else {
      RowsOfInsert(t[1..], row, userId);
      assert (t + [row])[1..] == t[1..] + [row];
    }
  }

  /** `/lists` after a delete: the deleted row's user loses it, everyone else sees the same rows. */
  lemma {:induction false} RowsOfRemove(t: seq<WatchlistRow>, i: nat, userId: Option<string>)
    requires i < |t|
    ensures userId != Some(t[i].userId) ==> RowsOf(RemoveAt(t, i), userId) == RowsOf(t, userId)
    ensures |RowsOf(RemoveAt(t, i), userId)| == |RowsOf(t, userId)| - (if userId == Some(t[i].userId) then 1 else 0)
  {
    var r := RemoveAt(t, i);
    if i == 0 {
      assert r == t[1..];
    } else {
      var r' := RemoveAt(t[1..], i - 1);
      RowsOfRemove(t[1..], i - 1, userId);
      assert r[0] == t[0] && r[1..] == r';
      assert RowsOf(r, userId) == (if userId == Some(t[0].userId) then [t[0]] else []) + RowsOf(r', userId);
    }
  }

  // ---------------------------------------------------------------------
  // The routes

  class Database {
    var users: seq<User>
    var watchlist: seq<WatchlistRow>
    var favorites: seq<FavoriteRow>

    constructor (users: seq<User>)
      ensures this.users == users && watchlist == [] && favorites == []
    {
      this.users := users;
      watchlist, favorites := [], [];
    }

    /**
     * POST /lists/add. Guards in order: a session user, that user in the
     * User table, truthy `user_id`, `movie_id` and `title`, no row for the
     * pair yet; then one row is appended. The row's user is the request's
     * `user_id`, not the session's.
     */
    method AddToWatchlist(session: Option<string>, request: ListRequest) returns (reply: Reply)
      modifies this
      ensures users == old(users) && favorites == old(favorites)
      ensures session.None? ==> reply == Reply(401, false, "Not logged i")
      ensures session.Some? && FindUser(users, session.value).None? ==> reply == Reply(404, false, "User not found")
      ensures session.Some? && FindUser(users, session.value).Some?
              && !(Truthy(request.userId) && Truthy(request.movieId) && Truthy(request.title)) ==>
                reply == Reply(400, false, "Missing required fields")
      ensures session.Some? && FindUser(users, session.value).Some?
              && Truthy(request.userId) && Truthy(request.movieId) && Truthy(request.title) ==>
                var userId, movieId := request.userId.value, request.movieId.value;
                if FirstMatch(old(watchlist), userId, movieId).Some? then
                  reply == Reply(400, false, "Movie already exists in watchlist")
                else
                  reply == Reply(201, true, "Movie added to watchlist")
                  && watchlist == old(watchlist) + [WatchlistRow(NextId(old(watchlist), WatchlistRowId), userId, movieId, request.title.value, request.posterUrl)]
      ensures !reply.success ==> watchlist == old(watchlist)
      ensures UniquePairs(old(watchlist)) ==> UniquePairs(watchlist)
      ensures IdsIncreasing(old(watchlist)) ==> IdsIncreasing(watchlist)
    {
      if session.None? {
        return Reply(401, false, "Not logged i");
      }
      var user := FindUser(users, session.value);
      if user.None? {
        return Reply(404, false, "User not found");
      }
      if !(Truthy(request.userId) && Truthy(request.movieId) && Truthy(request.title)) {
        return Reply(400, false, "Missing required fields");
      }
      var userId, movieId := request.userId.value, request.movieId.value;
      var existing := FirstMatch(watchlist, userId, movieId);
      if existing.Some? {
        return Reply(400, false, "Movie already exists in watchlist");
      }
      var row := WatchlistRow(NextId(watchlist, WatchlistRowId), userId, movieId, request.title.value, request.posterUrl);
      if UniquePairs(watchlist) {
        InsertKeepsUniquePairs(watchlist, row);
      }
      if IdsIncreasing(watchlist) {
        InsertKeepsIdsIncreasing(watchlist, row);
      }
      watchlist := watchlist + [row];
      reply := Reply(201, true, "Movie added to watchlist");
    }

    /**
     * POST /lists/remove. Guards as for adding, without `title`; then the
     * first row for the pair is deleted, or 404 when there is none.
     */
    method RemoveFromWatchlist(session: Option<string>, request: ListRequest) returns (reply: Reply)
      modifies this
      ensures users == old(users) && favorites == old(favorites)
      ensures session.None? ==> reply == Reply(401, false, "Not logged in")
      ensures session.Some? && FindUser(users, session.value).None? ==> reply == Reply(404, false, "User not found")
      ensures session.Some? && FindUser(users, session.value).Some?
              && !(Truthy(request.userId) && Truthy(request.movieId)) ==>
                reply == Reply(400, false, "Missing required fields")
      ensures session.Some? && FindUser(users, session.value).Some?
              && Truthy(request.userId) && Truthy(request.movieId) ==>
                match FirstMatch(old(watchlist), request.userId.value, request.movieId.value)
                case None => reply == Reply(404, false, "Movie not found")
                case Some(i) =>
                  reply == Reply(200, true, "Movie removed from watchlist") && watchlist == RemoveAt(old(watchlist), i)
      ensures !reply.success ==> watchlist == old(watchlist)
      ensures UniquePairs(old(watchlist)) ==> UniquePairs(watchlist)
      ensures IdsIncreasing(old(watchlist)) ==> IdsIncreasing(watchlist)
    {
      if session.None? {
        return Reply(401, false, "Not logged in");
      }
      var user := FindUser(users, session.value);
      if user.None? {
        return Reply(404, false, "User not found");
      }
      if !(Truthy(request.userId) && Truthy(request.movieId)) {
        return Reply(400, false, "Missing required fields");
      }
      var found := FirstMatch(watchlist, request.userId.value, request.movieId.value);
      if found.None? {
        return Reply(404, false, "Movie not found");
      }
      RemoveKeepsInvariants(watchlist, found.value);
      watchlist := RemoveAt(watchlist, found.value);
      reply := Reply(200, true, "Movie removed from watchlist");
    }

    /**
     * GET /lists. The rows are selected by the `user_id` query argument,
     * not by the session user, and projected to `{id, title, poster_url}`.
     */
    method GetWatchlist(session: Option<string>, userIdArg: Option<string>) returns (reply: Reply, entries: seq<ListEntry>)
      ensures session.None? ==> reply == Reply(401, false, "Not logged in") && entries == []
      ensures session.Some? && FindUser(users, session.value).None? ==> reply == Reply(404, false, "User not found") && entries == []
      ensures session.Some? && FindUser(users, session.value).Some? ==>
                reply.code == 200 && reply.success
                && |entries| == |RowsOf(watchlist, userIdArg)|
                && forall k :: 0 <= k < |entries| ==>
                     var row := RowsOf(watchlist, userIdArg)[k];
                     row in watchlist && userIdArg == Some(row.userId)
                     && entries[k] == ListEntry(row.movieId, row.title, row.posterUrl)
    {
      if session.None? {
        return Reply(401, false, "Not logged in"), [];
      }
      var user := FindUser(users, session.value);
      if user.None? {
        return Reply(404, false, "User not found"), [];
      }
      var rows := RowsOf(watchlist, userIdArg);
      assert forall k :: 0 <= k < |rows| ==> rows[k] in rows;
      entries := Project(rows);
      reply := Reply(200, true, "");
    }

    /**
     * POST /favorites/add. Guards: a session user and truthy `movie_id` and
     * `title`; there is no duplicate check. A session user missing from the
     * User table makes `user.id` raise, which Flask answers with 500.
     * `success` stands for the reply's `"status": "success"`.
     */
    method AddFavorite(session: Option<string>, request: ListRequest) returns (reply: Reply)
      modifies this
      ensures users == old(users) && watchlist == old(watchlist)
      ensures session.None? ==> reply == Reply(401, false, "Not logged in")
      ensures session.Some? && !(Truthy(request.movieId) && Truthy(request.title)) ==>
                reply == Reply(400, false, "Missing required fields")
      ensures session.Some? && Truthy(request.movieId) && Truthy(request.title) ==>
                match FindUser(users, session.value)
                case None => reply == Reply(500, false, "Internal Server Error")
                case Some(user) =>
                  reply == Reply(200, true, "Movie added to favorites")
                  && favorites == old(favorites) + [FavoriteRow(NextId(old(favorites), FavoriteRowId), user.id, request.movieId.value, request.title.value)]
      ensures !reply.success ==> favorites == old(favorites)
    {
      if session.None? {
        return Reply(401, false, "Not logged in");
      }
      if !(Truthy(request.movieId) && Truthy(request.title)) {
        return Reply(400, false, "Missing required fields");
      }
      var user := FindUser(users, session.value);
      if user.None? {
        return Reply(500, false, "Internal Server Error");
      }
      var row := FavoriteRow(NextId(favorites, FavoriteRowId), user.value.id, request.movieId.value, request.title.value);
      favorites := favorites + [row];
      reply := Reply(200, true, "Movie added to favorites");
    }
  }

  /** A successful add followed by a remove of the same pair leaves the table as it was. */
  method AddThenRemove(db: Database, session: Option<string>, request: ListRequest) returns (added: Reply, removed: Reply)
    requires session.Some? && FindUser(db.users, session.value).Some?
    requires Truthy(request.userId) && Truthy(request.movieId) && Truthy(request.title)
    requires FirstMatch(db.watchlist, request.userId.value, request.movieId.value).None?
    modifies db
    ensures added.code == 201 && removed.code == 200
    ensures db.watchlist == old(db.watchlist)
  {
    ghost var before := db.watchlist;
    added := db.AddToWatchlist(session, request);
    var row := WatchlistRow(NextId(before, WatchlistRowId), request.userId.value, request.movieId.value, request.title.value, request.posterUrl);
    InsertThenRemoveRestores(before, row);
    removed := db.RemoveFromWatchlist(session, request);
  }

  /** Favoriting the same movie twice stores two rows. */
  method FavoriteTwice(db: Database, session: Option<string>, request: ListRequest)
    requires session.Some? && FindUser(db.users, session.value).Some?
    requires Truthy(request.movieId) && Truthy(request.title)
    modifies db
    ensures |db.favorites| == |old(db.favorites)| + 2
    ensures db.favorites[|db.favorites| - 1].movieId == db.favorites[|db.favorites| - 2].movieId == request.movieId.value
  {
    var first := db.AddFavorite(session, request);
    var second := db.AddFavorite(session, request);
  }
}
