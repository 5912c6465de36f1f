/**
 * The lists page: the client-side watchlist and favorites. Each handler
 * waits for the server and changes its list only when the reply says
 * `success`; nothing is changed ahead of the reply and nothing is rolled
 * back.
 */
module ListsPage {
  import opened Common
  import WatchlistApi

  /** Where the page navigates after a successful add. */
  const AfterAddRoute := "/watchlist"

  /** `list.filter(movie => movie.id !== movieId)`. */
  function WithoutId(list: seq<ListEntry>, movieId: string): (r: seq<ListEntry>)
    ensures |r| <= |list|
    ensures forall e {:trigger e in r} :: e in r <==> e in list && e.id != movieId
  {
    if list == [] then []
    else if list[0].id == movieId then WithoutId(list[1..], movieId)
    else [list[0]] + WithoutId(list[1..], movieId)
  }

  /** How many entries of the list carry the id. */
  function CountId(list: seq<ListEntry>, movieId: string): nat {
    if list == [] then 0
    else (if list[0].id == movieId then 1 else 0) + CountId(list[1..], movieId)
  }

  // ---------------------------------------------------------------------
  // Properties of the list updates

  lemma WithoutIdCons(x: ListEntry, rest: seq<ListEntry>, movieId: string)
    ensures WithoutId([x] + rest, movieId) == (if x.id == movieId then [] else [x]) + WithoutId(rest, movieId)
  {
    assert ([x] + rest)[0] == x && ([x] + rest)[1..] == rest;
  }

  /** Filtering keeps the order of the entries it keeps: it distributes over concatenation. */
  lemma {:induction false} WithoutIdAppend(a: seq<ListEntry>, b: seq<ListEntry>, movieId: string)
    ensures WithoutId(a + b, movieId) == WithoutId(a, movieId) + WithoutId(b, movieId)
  {
    if a == [] {
      assert a + b == b;
    } else {
      var ab := a + b;
      assert ab[0] == a[0] && ab[1..] == a[1..] + b;
      WithoutIdAppend(a[1..], b, movieId);
      var head := if a[0].id == movieId then [] else [a[0]];
      assert WithoutId(ab, movieId) == head + WithoutId(a[1..] + b, movieId);
      assert WithoutId(a, movieId) == head + WithoutId(a[1..], movieId);
    }
  }

  /** Removing an id no entry carries changes nothing. */
  lemma {:induction false} WithoutIdAbsent(list: seq<ListEntry>, movieId: string)
    requires CountId(list, movieId) == 0
    ensures WithoutId(list, movieId) == list
  {
    if list != [] {
      WithoutIdAbsent(list[1..], movieId);
      assert [list[0]] + list[1..] == list;
    }
  }

  /** Removing an id drops every entry with it and no entry with another id. */
  lemma {:induction false} CountWithoutId(list: seq<ListEntry>, movieId: string, other: string)
    ensures CountId(WithoutId(list, movieId), other) == if other == movieId then 0 else CountId(list, other)
  {
    if list != [] {
      CountWithoutId(list[1..], movieId, other);
      if list[0].id != movieId {
        assert ([list[0]] + WithoutId(list[1..], movieId))[1..] == WithoutId(list[1..], movieId);
      }
    }
  }

  lemma {:induction false} CountAppend(list: seq<ListEntry>, e: ListEntry, movieId: string)
    ensures CountId(list + [e], movieId) == CountId(list, movieId) + (if e.id == movieId then 1 else 0)
  {
    if list == [] {
      assert [] + [e] == [e];
    } else {
      CountAppend(list[1..], e, movieId);
      assert (list + [e])[1..] == list[1..] + [e];
    }
  }

  /** The page does not de-duplicate: two successful adds of one movie leave two more entries. */
  lemma AddTwiceKeepsBoth(list: seq<ListEntry>, movie: ListEntry)
    ensures CountId(list + [movie] + [movie], movie.id) == CountId(list, movie.id) + 2
  {
    CountAppend(list, movie, movie.id);
    CountAppend(list + [movie], movie, movie.id);
  }

  // ---------------------------------------------------------------------
  // The reply key of `/lists`

  /** The key the page reads the loaded watchlist from. */
  const WatchlistReadKey := "Watchlist"

  /** `data.Watchlist` as the page is written: `None` is `undefined`. */
  function WatchlistMemberAsWritten(body: map<string, seq<ListEntry>>): (r: Option<seq<ListEntry>>)
    ensures r.Some? <==> WatchlistReadKey in body
  {
    if WatchlistReadKey in body then Some(body[WatchlistReadKey]) else None
  }

  /** The member under the key the server writes. */
  function WatchlistMember(body: map<string, seq<ListEntry>>): (r: Option<seq<ListEntry>>)
    ensures r.Some? <==> WatchlistApi.WatchlistReplyKey in body
  {
    if WatchlistApi.WatchlistReplyKey in body then Some(body[WatchlistApi.WatchlistReplyKey]) else None
  }

  /** As written, no reply of `/lists` has the member the page reads: it loads `undefined`. */
  lemma AsWrittenLoadMissesServerList(entries: seq<ListEntry>)
    ensures WatchlistMemberAsWritten(WatchlistApi.ReplyLists(entries)) == None
  {
    assert WatchlistReadKey != WatchlistApi.WatchlistReplyKey by {
      assert WatchlistReadKey[0] != WatchlistApi.WatchlistReplyKey[0];
    }
  }

  /** Read under the server's key, the loaded watchlist is exactly the entries `/lists` sent. */
  lemma LoadReadsServerList(entries: seq<ListEntry>)
    ensures WatchlistMember(WatchlistApi.ReplyLists(entries)) == Some(entries)
  {
  }

  // ---------------------------------------------------------------------
  // The page

  /** What `fetch` and `response.json()` gave an add or remove handler. */
  datatype Reply = Rejected | MalformedBody | Answered(success: bool)

  /**
   * What the mount effect got: `fetch` or `res.text()` failed, the text was
   * not JSON, or the body's `success` flag and the list it carries under
   * the server's key (`WatchlistMember`, not the `Watchlist` the page reads).
   */
  datatype LoadReply = LoadRejected | NotJson | Parsed(success: bool, watchlist: seq<ListEntry>)

  /** The state of the lists page component. */
  class ListPage {
    var watchlist: seq<ListEntry>
    var favorites: seq<ListEntry>

    constructor ()
      ensures watchlist == [] && favorites == []
    {
      watchlist, favorites := [], [];
    }

    /** The mount effect: a reply with `success` replaces the watchlist wholesale. */
    method LoadWatchlist(reply: LoadReply)
      modifies this
      ensures favorites == old(favorites)
      ensures watchlist == if reply.Parsed? && reply.success then reply.watchlist else old(watchlist)
    {
      if reply.Parsed? && reply.success {
        watchlist := reply.watchlist;
      }
    }

    /** Adding to the watchlist: appended, and the page navigates, once the server says `success`. */
    method AddToWatchlist(movie: ListEntry, reply: Reply) returns (navigateTo: Option<string>)
      modifies this
      ensures favorites == old(favorites)
      ensures reply == Answered(true) ==> watchlist == old(watchlist) + [movie] && navigateTo == Some(AfterAddRoute)
      ensures reply != Answered(true) ==> watchlist == old(watchlist) && navigateTo == None
    {
      navigateTo := None;
      if reply.Answered? && reply.success {
        watchlist := watchlist + [movie];
        navigateTo := Some(AfterAddRoute);
      }
    }

    /** Adding to favorites: the same, on the favorites list only. */
    method AddToFavorites(movie: ListEntry, reply: Reply) returns (navigateTo: Option<string>)
      modifies this
      ensures watchlist == old(watchlist)
      ensures reply == Answered(true) ==> favorites == old(favorites) + [movie] && navigateTo == Some(AfterAddRoute)
      ensures reply != Answered(true) ==> favorites == old(favorites) && navigateTo == None
    {
      navigateTo := None;
      if reply.Answered? && reply.success {
        favorites := favorites + [movie];
        navigateTo := Some(AfterAddRoute);
      }
    }

    /** Removing from the watchlist: every entry with the id goes, once the server says `success`. */
    method RemoveFromWatchlist(movieId: string, reply: Reply)
      modifies this
      ensures favorites == old(favorites)
      ensures watchlist == if reply == Answered(true) then WithoutId(old(watchlist), movieId) else old(watchlist)
    {
      if reply.Answered? && reply.success {
        watchlist := WithoutId(watchlist, movieId);
      }
    }
  }

  /** Two successful adds of the same movie show it twice. */
  method AddSameMovieTwice(page: ListPage, movie: ListEntry)
    modifies page
    ensures CountId(page.watchlist, movie.id) == CountId(old(page.watchlist), movie.id) + 2
  {
    var first := page.AddToWatchlist(movie, Answered(true));
    var second := page.AddToWatchlist(movie, Answered(true));
    AddTwiceKeepsBoth(old(page.watchlist), movie);
  }
}
