/**
 * How the Flask API turns TMDB records into the movie records it sends:
 * the year, the poster URL, the director and the genre line, the
 * per-movie details lookup, `/movie/<id>` and the `/search` loop.
 */
module MovieFormat {
  import opened Common

  /** The image host prefix of every poster URL. */
  const PosterBaseUrl := "https://image.tmdb.org/t/p/w500"

  const Unknown := "Unknown"
  const NoOverview := "No description available."
  const DirectorJob := "Director"
  const GenreSeparator := ", "

  datatype CrewMember = CrewMember(name: string, job: string)

  /** A movie record as TMDB's movie endpoint returns it; `None` is a missing member. */
  datatype TmdbMovie = TmdbMovie(
    id: int, title: string, releaseDate: Option<string>, posterPath: Option<string>,
    overview: Option<string>, crew: seq<CrewMember>, genres: Option<seq<string>>)

  /** What TMDB's movie endpoint gave: a `RequestException`, or the record. */
  datatype DetailsReply = RequestFailed | Found(movie: TmdbMovie)

  /** What TMDB's search endpoint gave: the status code and the `results` member. */
  datatype SearchReply = SearchReply(status: int, results: Option<seq<TmdbMovie>>)

  datatype MovieDetails = MovieDetails(director: string, genre: string)

  /** One entry of the `/search` reply. */
  datatype FormattedMovie = FormattedMovie(id: int, title: string, year: string, poster: Option<string>, director: string, genre: string)

  /** The reply of `/search` or `/movie/<id>`. */
  datatype SearchResponse = SearchError(code: nat, message: string) | Movies(movies: seq<FormattedMovie>)
  datatype MovieResponse =
    | MovieError(code: nat, message: string)
    | MovieInfo(id: int, title: string, poster: Option<string>, overview: string, director: string, genre: string)

  // ---------------------------------------------------------------------
  // Formatters

  /** `release_date[:4]` when the date is present and non-empty, else "Unknown". */
  function Year(releaseDate: Option<string>): (r: string)
    ensures releaseDate.Some? && releaseDate.value != "" ==>
              r <= releaseDate.value && |r| <= 4 && (|r| < 4 ==> r == releaseDate.value)
    ensures !(releaseDate.Some? && releaseDate.value != "") ==> r == Unknown
  {
    if releaseDate.Some? && releaseDate.value != "" then
      var d := releaseDate.value;
      if |d| <= 4 then d else d[..4]
    else Unknown
  }

  /** The poster URL: the image host prefix and the path, when the path is present and non-empty. */
  function Poster(posterPath: Option<string>): (r: Option<string>)
    ensures r.Some? <==> posterPath.Some? && posterPath.value != ""
    ensures r.Some? ==> PosterBaseUrl <= r.value && r.value[|PosterBaseUrl|..] == posterPath.value
  {
    if posterPath.Some? && posterPath.value != "" then Some(PosterBaseUrl + posterPath.value) else None
  }

  /** The position of the first crew member whose job is "Director". */
  function FirstDirector(crew: seq<CrewMember>): (r: Option<nat>)
    ensures r.Some? ==> r.value < |crew| && crew[r.value].job == DirectorJob
    ensures r.Some? ==> forall j :: 0 <= j < r.value ==> crew[j].job != DirectorJob
    ensures r.None? <==> forall j :: 0 <= j < |crew| ==> crew[j].job != DirectorJob
  {
    if crew == [] then None
    else if crew[0].job == DirectorJob then Some(0)
    else match FirstDirector(crew[1..])
      case None => None
      case Some(i) => Some(i + 1)
  }

  /** `next((c["name"] for c in crew if c["job"] == "Director"), "Unknown")`. */
  function Director(crew: seq<CrewMember>): (r: string)
    ensures (forall j :: 0 <= j < |crew| ==> crew[j].job != DirectorJob) ==> r == Unknown
    ensures forall i :: (0 <= i < |crew| && crew[i].job == DirectorJob
                         && forall j :: 0 <= j < i ==> crew[j].job != DirectorJob) ==> r == crew[i].name
  {
    match FirstDirector(crew)
    case None => Unknown
    case Some(i) => crew[i].name
  }

  /** `", ".join(names)`. */
  function Genres(names: seq<string>): (r: string)
    ensures names == [] ==> r == ""
    decreases |names|
  {
    if names == [] then ""
    else if |names| == 1 then names[0]
    else names[0] + GenreSeparator + Genres(names[1..])
  }

  /** Splitting on ", ": the inverse of `Genres` for names without a comma. */
  function SplitGenres(s: string): (r: seq<string>)
    ensures r != []
    decreases |s|
  {
    if |s| == 0 then [""]
    else if |s| >= 2 && s[0] == ',' && s[1] == ' ' then [""] + SplitGenres(s[2..])
    else
      var rest := SplitGenres(s[1..]);
      [[s[0]] + rest[0]] + rest[1..]
  }

  lemma {:induction false} SplitAtFirstSeparator(a: string, b: string)
    requires ',' !in a
    ensures SplitGenres(a + GenreSeparator + b) == [a] + SplitGenres(b)
  {
    var s := a + GenreSeparator + b;
    if a == [] {
      assert s == [',', ' '] + b && s[2..] == b;
    } else {
      SplitAtFirstSeparator(a[1..], b);
      assert s[1..] == a[1..] + GenreSeparator + b;
      assert [a[0]] + a[1..] == a;
    }
  }

  lemma {:induction false} SplitWithoutSeparator(a: string)
    requires ',' !in a
    ensures SplitGenres(a) == [a]
  {
    if a != [] {
      SplitWithoutSeparator(a[1..]);
      assert [a[0]] + a[1..] == a;
    }
  }

  /** The genre line can be split back into the genre names, when no name holds a comma. */
  lemma {:induction false} SplitJoinedGenres(names: seq<string>)
    requires names != []
    requires forall k :: 0 <= k < |names| ==> ',' !in names[k]
    ensures SplitGenres(Genres(names)) == names
    decreases |names|
  {
    if |names| == 1 {
      SplitWithoutSeparator(names[0]);
    } else {
      SplitJoinedGenres(names[1..]);
      SplitAtFirstSeparator(names[0], Genres(names[1..]));
      assert [names[0]] + names[1..] == names;
    }
  }

  // ---------------------------------------------------------------------
  // Routes and lookups

  /** `get_movie_details(movie_id)`: the director and the genre line, or "Unknown" twice when the request fails. */
  function Details(reply: DetailsReply): (r: MovieDetails)
    ensures reply.RequestFailed? ==> r == MovieDetails(Unknown, Unknown)
    ensures reply.Found? && (reply.movie.genres.None? || reply.movie.genres.value == []) ==> r.genre == ""
    ensures reply.Found? ==> r.director == Director(reply.movie.crew)
    ensures reply.Found? ==> r.genre == Genres(if reply.movie.genres.Some? then reply.movie.genres.value else [])
  {
    match reply
    case RequestFailed => MovieDetails(Unknown, Unknown)
    case Found(m) => MovieDetails(Director(m.crew), Genres(if m.genres.Some? then m.genres.value else []))
  }

  /** GET /movie/<id>: the formatted record, or 500 when the request fails. */
  function MovieById(reply: DetailsReply): (r: MovieResponse)
    ensures reply.RequestFailed? <==> r == MovieError(500, "Failed to fetch movie details")
    ensures reply.Found? ==> r.MovieInfo? && r.id == reply.movie.id && r.title == reply.movie.title
    ensures reply.Found? ==> r.poster == Poster(reply.movie.posterPath)
    ensures reply.Found? && reply.movie.overview.None? ==> r.overview == NoOverview
    ensures reply.Found? && reply.movie.overview.Some? ==> r.overview == reply.movie.overview.value
    ensures reply.Found? ==> MovieDetails(r.director, r.genre) == Details(reply)
  {
    match reply
    case RequestFailed => MovieError(500, "Failed to fetch movie details")
    case Found(m) =>
      var details := Details(reply);
      MovieInfo(m.id, m.title, Poster(m.posterPath),
                if m.overview.Some? then m.overview.value else NoOverview,
                details.director, details.genre)
  }

  /** One `/search` entry, from the search hit and its details. */
  function Format(m: TmdbMovie, details: MovieDetails): (r: FormattedMovie)
    ensures r.id == m.id && r.title == m.title
    ensures r.year == Year(m.releaseDate) && r.poster == Poster(m.posterPath)
    ensures r.director == details.director && r.genre == details.genre
  {
    FormattedMovie(m.id, m.title, Year(m.releaseDate), Poster(m.posterPath), details.director, details.genre)
  }

  /**
   * GET /search. A missing or empty query is refused, a TMDB status other
   * than 200 gives 500; otherwise each hit, in order, is formatted with the
   * details TMDB gives for its id.
   */
  method SearchMovie(query: Option<string>, tmdb: SearchReply, lookup: int -> DetailsReply) returns (response: SearchResponse)
    ensures !(query.Some? && query.value != "") ==> response == SearchError(400, "No search query provided")
    ensures query.Some? && query.value != "" && tmdb.status != 200 ==> response == SearchError(500, "Failed to fetch search results")
    ensures query.Some? && query.value != "" && tmdb.status == 200 ==>
              var hits := if tmdb.results.Some? then tmdb.results.value else [];
              response.Movies? && |response.movies| == |hits|
              && forall k :: 0 <= k < |hits| ==> response.movies[k] == Format(hits[k], Details(lookup(hits[k].id)))
  {
    if !(query.Some? && query.value != "") {
      return SearchError(400, "No search query provided");
    }
    if tmdb.status != 200 {
      return SearchError(500, "Failed to fetch search results");
    }
    var hits := if tmdb.results.Some? then tmdb.results.value else [];
    var formatted: seq<FormattedMovie> := [];
    for i := 0 to |hits|
      invariant |formatted| == i
      invariant forall k :: 0 <= k < i ==> formatted[k] == Format(hits[k], Details(lookup(hits[k].id)))
    {
      var details := Details(lookup(hits[i].id));
      formatted := formatted + [Format(hits[i], details)];
    }
    response := Movies(formatted);
  }
}
