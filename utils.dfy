/**
 * `utils/index.js`: the slug helper, the movie normaliser that turns the
 * catalog's movie and credits payloads into a Movie record, the top-five cast
 * join of `getActors`, and `movieExistsInDB`. The catalog requests themselves
 * are not modelled: their payloads are parameters.
 */
module Utils {
  import opened Wrappers
  import opened Text
  import opened Models

  /** The catalog's `/movie/{id}` payload, reduced to the fields the normaliser reads (genres by name). */
  datatype MovieDetails = MovieDetails(
    title: string, genres: seq<string>, releaseDate: string, voteAverage: real, overview: string)

  /** What the two catalog requests of the find-or-create step produced. */
  datatype Catalog =
    | Fetched(details: MovieDetails, cast: seq<string>)  // movie details and the credits' cast names, in catalog order
    | Unavailable(message: string)                       // a request failed; its error message

  function Min(a: nat, b: nat): nat { if a < b then a else b }

  /** `name.toLowerCase().split(" ").join("-")`. */
  function CreateSlug(name: string): (slug: string)
    ensures |slug| == |name|
    ensures forall i :: 0 <= i < |name| ==> slug[i] == if name[i] == ' ' then '-' else Lower(name[i])
    ensures ' ' !in slug
  {
    JoinSplit(LowerStr(name), ' ', '-');
    Join(Split(LowerStr(name), ' '), "-")
  }

  /** Slugging a slug changes nothing. */
  lemma SlugIdempotent(name: string)
    ensures CreateSlug(CreateSlug(name)) == CreateSlug(name)
  {
  }

  /**
   * The accumulator of `names.reduce((acc, x, index) => index !== n - 1 ?
   * acc + x + sep : acc + x, acc)` once `names[i..]` remains to be visited,
   * where `n` is the length of `names`.
   */
  function ReduceJoin(names: seq<string>, sep: string, i: nat, acc: string): (r: string)
    requires i <= |names|
    decreases |names| - i
    ensures acc <= r
  {
    if i == |names| then acc
    else ReduceJoin(names, sep, i + 1, if i != |names| - 1 then acc + names[i] + sep else acc + names[i])
  }

  lemma {:induction false} ReduceJoinFrom(names: seq<string>, sep: string, i: nat)
    requires 0 < i < |names|
    decreases |names| - i
    ensures ReduceJoin(names, sep, i, Join(names[..i], sep) + sep) == Join(names, sep)
  {
    assert names[..i + 1] == names[..i] + [names[i]];
    JoinSnoc(names[..i], names[i], sep);
    if i == |names| - 1 {
      assert names[..i + 1] == names;
    } else {
      ReduceJoinFrom(names, sep, i + 1);
    }
  }

  /** The reduce loop of the normaliser computes exactly `names.join(sep)`. */
  lemma {:induction false} ReduceJoinIsJoin(names: seq<string>, sep: string)
    ensures ReduceJoin(names, sep, 0, "") == Join(names, sep)
  {
    if |names| == 1 {
      assert ReduceJoin(names, sep, 0, "") == ReduceJoin(names, sep, 1, names[0]);
    } else if |names| > 1 {
      assert names[..1] == [names[0]];
      assert "" + names[0] + sep == Join(names[..1], sep) + sep;
      assert ReduceJoin(names, sep, 0, "") == ReduceJoin(names, sep, 1, Join(names[..1], sep) + sep);
      ReduceJoinFrom(names, sep, 1);
    }
  }

  /** `actors.slice(0, 5).join(", ")` in `getActors`. */
  function GetActors(cast: seq<string>): (actors: string)
    ensures cast == [] ==> actors == ""
    ensures cast != [] ==> cast[0] <= actors
  {
    Join(cast[..Min(5, |cast|)], ", ")
  }

  /** With at most five cast members every one of them is named. */
  lemma GetActorsFewerThanFive(cast: seq<string>)
    requires |cast| <= 5
    ensures GetActors(cast) == Join(cast, ", ")
  {
    assert cast[..|cast|] == cast;
  }

  /** Cast members after the fifth never influence the actor string. */
  lemma GetActorsIgnoresTail(cast: seq<string>, more: seq<string>)
    requires |cast| >= 5
    ensures GetActors(cast + more) == GetActors(cast)
  {
    assert (cast + more)[..5] == cast[..5];
  }

  /** `releaseDate.split("-")[0]`: the part of the date before its first `'-'`. */
  function YearText(date: string): (year: string)
    ensures year <= date && '-' !in year
    ensures |year| < |date| ==> date[|year|] == '-'
  {
    Split(date, '-')[0]
  }

  /** The release date starts with a non-empty run of digits up to its first `'-'` (or its end). */
  predicate WellFormedReleaseDate(date: string) {
    YearText(date) != [] && AllDigits(YearText(date))
  }

  predicate WellFormedCatalog(catalog: Catalog) {
    catalog.Fetched? ==> WellFormedReleaseDate(catalog.details.releaseDate)
  }

  /** The body of `fetchMovieAndCastDetails` after its two requests. */
  function NormaliseMovie(tmdbId: int, details: MovieDetails, cast: seq<string>): (d: MovieData)
    requires WellFormedReleaseDate(details.releaseDate)
    ensures d.tmdbId == tmdbId && d.title == details.title
    ensures d.rating == details.voteAverage && d.description == details.overview
    ensures d.genre == Join(details.genres, ", ")
    ensures d.actors == GetActors(cast)
    ensures d.releaseYear == ParseDecimal(YearText(details.releaseDate))
    ensures 0 <= d.releaseYear < Pow10(|YearText(details.releaseDate)|)
  {
    var genre := ReduceJoin(details.genres, ", ", 0, "");
    var releaseYear := ParseDecimal(YearText(details.releaseDate));
    var casts := cast[..Min(5, |cast|)];
    var actors := ReduceJoin(casts, ", ", 0, "");
    ReduceJoinIsJoin(details.genres, ", ");
    ReduceJoinIsJoin(casts, ", ");
    MovieData(details.title, tmdbId, genre, actors, releaseYear, details.voteAverage, details.overview)
  }

  /** `movieExistsInDB(tmdbId)`. */
  function MovieExistsInDB(movies: seq<Movie>, tmdbId: int): (found: bool)
    ensures found <==> exists k :: 0 <= k < |movies| && movies[k].tmdbId == tmdbId
  {
    FindMovieByTmdbId(movies, tmdbId).Some?
  }
}
