/**
 * The persistent tables of the service (one `datatype` per row shape, after
 * the Sequelize model declarations) and the store that holds them. Row ids
 * are assigned by auto-increment and nothing in this core deletes a row, so
 * the row at position k of a table has id k + 1.
 */
module Models {
  import opened Wrappers
  import opened Text
  import opened Validation

  /** The fields of a Movie before the store assigns it an id. */
  datatype MovieData = MovieData(
    title: string, tmdbId: int, genre: string, actors: string,
    releaseYear: int, rating: real, description: string)

  datatype Movie = Movie(
    id: nat, title: string, tmdbId: int, genre: string, actors: string,
    releaseYear: int, rating: real, description: string)

  datatype CuratedList = CuratedList(id: nat, name: string, slug: string, description: string)

  /** A Watchlist or Wishlist row. */
  datatype ListEntry = ListEntry(id: nat, movieId: int)

  datatype CuratedListItem = CuratedListItem(id: nat, curatedListId: int, movieId: int)

  datatype Review = Review(id: nat, movieId: int, rating: real, reviewText: string)

  function WithId(id: nat, d: MovieData): Movie {
    Movie(id, d.title, d.tmdbId, d.genre, d.actors, d.releaseYear, d.rating, d.description)
  }

  /** The index of the first element of `s` at or after `from` that satisfies `p`. */
  function FirstIndex<T>(s: seq<T>, p: T -> bool, from: nat): (r: Option<nat>)
    requires from <= |s|
    decreases |s| - from
    ensures r.Some? ==> from <= r.value < |s| && p(s[r.value])
    ensures r.Some? ==> forall j :: from <= j < r.value ==> !p(s[j])
    ensures r.None? ==> forall j :: from <= j < |s| ==> !p(s[j])
  {
    if from == |s| then None
    else if p(s[from]) then Some(from)
    else FirstIndex(s, p, from + 1)
  }

  /** `Movie.findOne({ where: { tmdbId } })`: the first Movie with that catalog id. */
  function FindMovieByTmdbId(movies: seq<Movie>, tmdbId: int): (r: Option<Movie>)
    ensures r.None? <==> forall k :: 0 <= k < |movies| ==> movies[k].tmdbId != tmdbId
    ensures r.Some? ==> r.value in movies && r.value.tmdbId == tmdbId
  {
    match FirstIndex(movies, (m: Movie) => m.tmdbId == tmdbId, 0)
    case None => None
    case Some(k) => Some(movies[k])
  }

  /** A Movie appended under a catalog id the table did not hold is the one found for that id. */
  lemma FindMovieByTmdbIdSnoc(movies: seq<Movie>, m: Movie)
    requires forall k :: 0 <= k < |movies| ==> movies[k].tmdbId != m.tmdbId
    ensures FindMovieByTmdbId(movies + [m], m.tmdbId) == Some(m)
  {
    var r := FindMovieByTmdbId(movies + [m], m.tmdbId);
    assert (movies + [m])[|movies|].tmdbId == m.tmdbId;
    assert r.Some?;
    var k :| 0 <= k < |movies + [m]| && (movies + [m])[k] == r.value;
    if k < |movies| {
      assert (movies + [m])[k] == movies[k];
    }
  }

  /** `Movie.findOne({ where: { id } })`. */
  function FindMovieById(movies: seq<Movie>, id: int): (r: Option<Movie>)
    ensures r.None? <==> forall k :: 0 <= k < |movies| ==> movies[k].id != id
    ensures r.Some? ==> r.value in movies && r.value.id == id
  {
    match FirstIndex(movies, (m: Movie) => m.id == id, 0)
    case None => None
    case Some(k) => Some(movies[k])
  }

  /** `CuratedList.findOne({ where: { id } })`: the position of that list, if any. */
  function FindCuratedList(lists: seq<CuratedList>, id: int): (r: Option<nat>)
    ensures r.None? <==> forall k :: 0 <= k < |lists| ==> lists[k].id != id
    ensures r.Some? ==> r.value < |lists| && lists[r.value].id == id
  {
    FirstIndex(lists, (l: CuratedList) => l.id == id, 0)
  }

  /** `CuratedListItem.findOne({ where: { movieId } })` succeeds. */
  predicate HasItemForMovie(items: seq<CuratedListItem>, movieId: int) {
    FirstIndex(items, (it: CuratedListItem) => it.movieId == movieId, 0).Some?
  }

  lemma HasItemForMovieIff(items: seq<CuratedListItem>, movieId: int)
    ensures HasItemForMovie(items, movieId) <==> exists k :: 0 <= k < |items| && items[k].movieId == movieId
  {
    var r := FirstIndex(items, (it: CuratedListItem) => it.movieId == movieId, 0);
    if r.Some? {
      assert items[r.value].movieId == movieId;
    }
  }

  /** At most one Movie per catalog id. */
  ghost predicate UniqueTmdb(movies: seq<Movie>) {
    forall i, j :: 0 <= i < j < |movies| ==> movies[i].tmdbId != movies[j].tmdbId
  }

  /** Under auto-increment ids, looking a Movie up by id finds the row at position id - 1. */
  lemma {:induction false} FindMovieByIdAt(movies: seq<Movie>, id: int)
    requires forall k :: 0 <= k < |movies| ==> movies[k].id == k + 1
    ensures FindMovieById(movies, id).Some? <==> 1 <= id <= |movies|
    ensures 1 <= id <= |movies| ==> FindMovieById(movies, id) == Some(movies[id - 1])
  {
    if 1 <= id <= |movies| {
      assert movies[id - 1].id == id;
      var r := FindMovieById(movies, id);
      var k :| 0 <= k < |movies| && movies[k] == r.value;
      assert k == id - 1;
    }
  }

  /** Auto-increment: the row at position k has id k + 1. */
  ghost predicate MovieIdsSequential(movies: seq<Movie>) {
    forall k :: 0 <= k < |movies| ==> movies[k].id == k + 1
  }

  ghost predicate ListIdsSequential(lists: seq<CuratedList>) {
    forall k :: 0 <= k < |lists| ==> lists[k].id == k + 1
  }

  /** Watchlist or wishlist rows: sequential ids, each naming one of `movieCount` stored Movies. */
  ghost predicate EntriesValid(entries: seq<ListEntry>, movieCount: nat) {
    forall k :: 0 <= k < |entries| ==> entries[k].id == k + 1 && 1 <= entries[k].movieId <= movieCount
  }

  ghost predicate ItemsValid(items: seq<CuratedListItem>, listCount: nat, movieCount: nat) {
    forall k :: 0 <= k < |items| ==>
      && items[k].id == k + 1
      && 1 <= items[k].curatedListId <= listCount
      && 1 <= items[k].movieId <= movieCount
  }

  /** A review the review validator lets through: the only way a review is stored. */
  predicate ReviewAccepted(rating: real, reviewText: string) {
    !RatingRejected(Some(rating)) && !ReviewTextRejected(Some(reviewText))
  }

  ghost predicate ReviewsValid(reviews: seq<Review>, movieCount: nat) {
    forall k :: 0 <= k < |reviews| ==>
      && reviews[k].id == k + 1
      && 1 <= reviews[k].movieId <= movieCount
      && ReviewAccepted(reviews[k].rating, reviews[k].reviewText)
  }

  /**
   * Every stored review has a non-integer rating strictly between 0 and 10
   * and a non-empty text of at most 500 UTF-16 code units.
   */
  lemma StoredReviewsAccepted(reviews: seq<Review>, movieCount: nat)
    requires ReviewsValid(reviews, movieCount)
    ensures forall k :: 0 <= k < |reviews| ==>
      && 0.0 < reviews[k].rating < 10.0 && !IsInteger(reviews[k].rating)
      && reviews[k].reviewText != [] && Utf16Length(reviews[k].reviewText) <= 500
  {
  }

  /**
   * The database: one sequence of rows per table. `Valid` is what
   * auto-increment and the foreign-key constraints guarantee.
   */
  class Db {
    var movies: seq<Movie>
    var watchlists: seq<ListEntry>
    var wishlists: seq<ListEntry>
    var curatedLists: seq<CuratedList>
    var curatedListItems: seq<CuratedListItem>
    var reviews: seq<Review>

    ghost predicate Valid()
      reads this
    {
      && MovieIdsSequential(movies)
      && ListIdsSequential(curatedLists)
      && EntriesValid(watchlists, |movies|)
      && EntriesValid(wishlists, |movies|)
      && ItemsValid(curatedListItems, |curatedLists|, |movies|)
      && ReviewsValid(reviews, |movies|)
    }

    constructor ()
      ensures Valid()
      ensures movies == [] && watchlists == [] && wishlists == []
      ensures curatedLists == [] && curatedListItems == [] && reviews == []
    {
      movies, watchlists, wishlists := [], [], [];
      curatedLists, curatedListItems, reviews := [], [], [];
    }

    /** `Movie.create(data)`. */
    method CreateMovie(data: MovieData) returns (movie: Movie)
      requires Valid()
      modifies this`movies
      ensures Valid()
      ensures movie == WithId(|old(movies)| + 1, data)
      ensures movies == old(movies) + [movie]
    {
      movie := WithId(|movies| + 1, data);
      movies := movies + [movie];
    }

    /** `Watchlist.create({ movieId })`; the foreign key must name a stored Movie. */
    method CreateWatchlist(movieId: int)
      requires Valid() && 1 <= movieId <= |movies|
      modifies this`watchlists
      ensures Valid()
      ensures watchlists == old(watchlists) + [ListEntry(|old(watchlists)| + 1, movieId)]
    {
      watchlists := watchlists + [ListEntry(|watchlists| + 1, movieId)];
    }

    /** `Wishlist.create({ movieId })`. */
    method CreateWishlist(movieId: int)
      requires Valid() && 1 <= movieId <= |movies|
      modifies this`wishlists
      ensures Valid()
      ensures wishlists == old(wishlists) + [ListEntry(|old(wishlists)| + 1, movieId)]
    {
      wishlists := wishlists + [ListEntry(|wishlists| + 1, movieId)];
    }

    /** `CuratedList.create({ name, slug, description })`. */
    method CreateCuratedList(name: string, slug: string, description: string)
      requires Valid()
      modifies this`curatedLists
      ensures Valid()
      ensures curatedLists == old(curatedLists) + [CuratedList(|old(curatedLists)| + 1, name, slug, description)]
    {
      curatedLists := curatedLists + [CuratedList(|curatedLists| + 1, name, slug, description)];
    }

    /** `curatedList.set(...)` followed by `save()` on the list at position `k`. */
    method SaveCuratedList(k: nat, list: CuratedList)
      requires Valid() && k < |curatedLists| && list.id == curatedLists[k].id
      modifies this`curatedLists
      ensures Valid()
      ensures curatedLists == old(curatedLists)[k := list]
    {
      curatedLists := curatedLists[k := list];
    }

    /** `CuratedListItem.create({ curatedListId, movieId })`. */
    method CreateCuratedListItem(curatedListId: int, movieId: int)
      requires Valid() && 1 <= curatedListId <= |curatedLists| && 1 <= movieId <= |movies|
      modifies this`curatedListItems
      ensures Valid()
      ensures curatedListItems ==
        old(curatedListItems) + [CuratedListItem(|old(curatedListItems)| + 1, curatedListId, movieId)]
    {
      curatedListItems := curatedListItems + [CuratedListItem(|curatedListItems| + 1, curatedListId, movieId)];
    }

    /** `Review.create({ movieId, rating, reviewText })`. */
    method CreateReview(movieId: int, rating: real, reviewText: string)
      requires Valid() && 1 <= movieId <= |movies| && ReviewAccepted(rating, reviewText)
      modifies this`reviews
      ensures Valid()
      ensures reviews == old(reviews) + [Review(|old(reviews)| + 1, movieId, rating, reviewText)]
    {
      reviews := reviews + [Review(|reviews| + 1, movieId, rating, reviewText)];
    }
  }
}
