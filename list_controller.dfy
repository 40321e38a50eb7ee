/**
 * `controllers/listController.js`: creating and updating curated lists and
 * adding a movie, given by its catalog id, to the watchlist, the wishlist or
 * a curated list. Each handler is a method that updates the store step by
 * step, through the same create calls as the source.
 */
module ListController {
  import opened Wrappers
  import opened Text
  import opened Validation
  import opened Models
  import opened Utils
  import opened Http

  const CuratedListCreated := "Curated list created successfully."
  const CuratedListUpdated := "Curated list updated successfully."
  const CuratedListNotFound := "curatedList not found."
  const AddedToWatchlist := "Movie added to watchlist successfully."
  const AddedToWishlist := "Movie added to wishlist successfully."
  const CuratedListMissing := "curated list doesn't exists."
  const AddedToCuratedList := "Movie added to curated list items successfully."

  /** A movie id from a request body as the validators see it. */
  function BodyId(movieId: Option<int>): JsonValue {
    if movieId.Some? then Num(movieId.value) else Absent
  }

  /** The slug stored by `createCuratedList`: the supplied one, or one derived from the name when missing or empty. */
  function SlugFor(data: CuratedListBody): (slug: string)
    requires data.name.Some?
    ensures !Blank(data.slug) ==> slug == data.slug.value
    ensures Blank(data.slug) ==> |slug| == |data.name.value| && ' ' !in slug
  {
    if Blank(data.slug) then CreateSlug(data.name.value) else data.slug.value
  }

  /**
   * The find-or-create step every save handler runs: the Movie table
   * afterwards and the local id of the Movie with catalog id `tmdbId`, or
   * `None` when the movie is not stored and the catalog could not be read.
   */
  function FindOrCreate(movies: seq<Movie>, tmdbId: int, catalog: Catalog): (r: Option<(seq<Movie>, nat)>)
    requires WellFormedCatalog(catalog)
    ensures r.None? <==> !MovieExistsInDB(movies, tmdbId) && catalog.Unavailable?
    ensures MovieExistsInDB(movies, tmdbId) ==> r.Some? && r.value.0 == movies
    ensures r.Some? && !MovieExistsInDB(movies, tmdbId) ==>
      r.value.0 == movies + [WithId(|movies| + 1, NormaliseMovie(tmdbId, catalog.details, catalog.cast))]
    // the id returned is that of the Movie the table now holds for this catalog id
    ensures r.Some? ==> FindMovieByTmdbId(r.value.0, tmdbId).Some?
    ensures r.Some? ==> FindMovieByTmdbId(r.value.0, tmdbId).value.id == r.value.1
  {
    match FindMovieByTmdbId(movies, tmdbId)
    case Some(m) => Some((movies, m.id))
    case None =>
      if catalog.Unavailable? then None
      else
        var movie := WithId(|movies| + 1, NormaliseMovie(tmdbId, catalog.details, catalog.cast));
        FindMovieByTmdbIdSnoc(movies, movie);
        Some((movies + [movie], movie.id))
  }

  /** Find-or-create never introduces a second Movie for a catalog id. */
  lemma FindOrCreateKeepsUnique(movies: seq<Movie>, tmdbId: int, catalog: Catalog)
    requires WellFormedCatalog(catalog) && UniqueTmdb(movies)
    ensures FindOrCreate(movies, tmdbId, catalog).Some? ==> UniqueTmdb(FindOrCreate(movies, tmdbId, catalog).value.0)
  {
  }

  /**
   * Resolving the same catalog id again, whatever the catalog says this time,
   * changes nothing and returns the same local id.
   */
  lemma FindOrCreateIdempotent(movies: seq<Movie>, tmdbId: int, catalog: Catalog, again: Catalog)
    requires WellFormedCatalog(catalog) && WellFormedCatalog(again)
    requires FindOrCreate(movies, tmdbId, catalog).Some?
    ensures FindOrCreate(FindOrCreate(movies, tmdbId, catalog).value.0, tmdbId, again)
         == FindOrCreate(movies, tmdbId, catalog)
  {
  }

  /** The find-or-create step as the handlers run it (listController.js:83-100, 119-137, 168-183). */
  method ResolveMovie(db: Db, tmdbId: int, catalog: Catalog) returns (id: Option<nat>)
    requires db.Valid() && WellFormedCatalog(catalog)
    modifies db`movies
    ensures db.Valid()
    ensures FindOrCreate(old(db.movies), tmdbId, catalog) == if id.Some? then Some((db.movies, id.value)) else None
    ensures id.None? ==> db.movies == old(db.movies)
    ensures id.Some? ==> 1 <= id.value <= |db.movies|
  {
    var isMovieFound := MovieExistsInDB(db.movies, tmdbId);
    if !isMovieFound {
      if catalog.Unavailable? {
        return None;
      }
      var movieData := NormaliseMovie(tmdbId, catalog.details, catalog.cast);
      var movie := db.CreateMovie(movieData);
      id := Some(movie.id);
    } else {
      var movie := FindMovieByTmdbId(db.movies, tmdbId).value;
      id := Some(movie.id);
    }
  }

  method CreateCuratedList(db: Db, data: CuratedListBody) returns (reply: Reply)
    requires db.Valid()
    modifies db`curatedLists
    ensures db.Valid()
    ensures db.movies == old(db.movies) && db.watchlists == old(db.watchlists)
    ensures db.wishlists == old(db.wishlists) && db.curatedListItems == old(db.curatedListItems)
    ensures db.reviews == old(db.reviews)
    ensures var errors := ValidateCreateCuratedList(data);
      && (errors != [] ==> reply == Reply(400, Errors(errors)) && db.curatedLists == old(db.curatedLists))
      && (errors == [] ==>
            && reply == Reply(201, Message(CuratedListCreated))
            && db.curatedLists == old(db.curatedLists) + [CuratedList(
                 |old(db.curatedLists)| + 1, data.name.value, SlugFor(data), data.description.value)])
  {
    var errors := ValidateCreateCuratedList(data);
    if errors != [] {
      return Reply(400, Errors(errors));
    }
    var slug := data.slug;
    if Blank(data.slug) {
      slug := Some(CreateSlug(data.name.value));
    }
    db.CreateCuratedList(data.name.value, slug.value, data.description.value);
    reply := Reply(201, Message(CuratedListCreated));
  }

  /** `curatedList.set(data)`: every field the request supplies is overwritten, the others are kept. */
  function Patched(list: CuratedList, data: CuratedListBody): (r: CuratedList)
    ensures r.id == list.id
    ensures r.name == (if data.name.Some? then data.name.value else list.name)
    ensures r.slug == (if data.slug.Some? then data.slug.value else list.slug)
    ensures r.description == (if data.description.Some? then data.description.value else list.description)
  {
    CuratedList(
      list.id,
      if data.name.Some? then data.name.value else list.name,
      if data.slug.Some? then data.slug.value else list.slug,
      if data.description.Some? then data.description.value else list.description)
  }

  method UpdateCuratedList(db: Db, id: Option<int>, data: CuratedListBody) returns (reply: Reply)
    requires db.Valid()
    modifies db`curatedLists
    ensures db.Valid()
    ensures db.movies == old(db.movies) && db.watchlists == old(db.watchlists)
    ensures db.wishlists == old(db.wishlists) && db.curatedListItems == old(db.curatedListItems)
    ensures db.reviews == old(db.reviews)
    ensures var errors := ValidateUpdateCuratedList(id, data);
      && (errors != [] ==> reply == Reply(400, Errors(errors)) && db.curatedLists == old(db.curatedLists))
      && (errors == [] && FindCuratedList(old(db.curatedLists), id.value).None? ==>
            reply == Reply(404, Error(CuratedListNotFound)) && db.curatedLists == old(db.curatedLists))
      && (errors == [] && FindCuratedList(old(db.curatedLists), id.value).Some? ==>
            var k := FindCuratedList(old(db.curatedLists), id.value).value;
            && reply == Reply(200, Message(CuratedListUpdated))
            && |db.curatedLists| == |old(db.curatedLists)|
            && (forall j :: 0 <= j < |db.curatedLists| && j != k ==> db.curatedLists[j] == old(db.curatedLists[j]))
            && db.curatedLists[k].id == id.value
            && db.curatedLists[k].name == (if data.name.Some? then data.name.value else old(db.curatedLists[k].name))
            && db.curatedLists[k].slug == (if data.slug.Some? then data.slug.value else old(db.curatedLists[k].slug))
            && db.curatedLists[k].description ==
                 (if data.description.Some? then data.description.value else old(db.curatedLists[k].description)))
  {
    var errors := ValidateUpdateCuratedList(id, data);
    if errors != [] {
      return Reply(400, Errors(errors));
    }
    var found := FindCuratedList(db.curatedLists, id.value);
    if found.None? {
      return Reply(404, Error(CuratedListNotFound));
    }
    var list := db.curatedLists[found.value];
    list := Patched(list, data);
    db.SaveCuratedList(found.value, list);
    reply := Reply(200, Message(CuratedListUpdated));
  }

  /** The part of `saveMovieToWatchList` after validation: find or create the movie, then add a watchlist row for it. */
  method AddToWatchlist(db: Db, tmdbId: int, catalog: Catalog) returns (reply: Reply)
    requires db.Valid() && WellFormedCatalog(catalog)
    modifies db`movies, db`watchlists
    ensures db.Valid()
    ensures var r := FindOrCreate(old(db.movies), tmdbId, catalog);
      && (r.None? ==> reply == Reply(500, Error(catalog.message))
                      && db.movies == old(db.movies) && db.watchlists == old(db.watchlists))
      && (r.Some? ==> reply == Reply(201, Message(AddedToWatchlist)) && db.movies == r.value.0
                      && db.watchlists == old(db.watchlists) + [ListEntry(|old(db.watchlists)| + 1, r.value.1)])
  {
    var id := ResolveMovie(db, tmdbId, catalog);
    if id.None? {
      return Reply(500, Error(catalog.message));
    }
    db.CreateWatchlist(id.value);
    reply := Reply(201, Message(AddedToWatchlist));
  }

  /** `saveMovieToWatchList`; `movieId` is the body's movie id, a catalog id. There is no duplicate check. */
  method SaveMovieToWatchList(db: Db, movieId: Option<int>, catalog: Catalog) returns (reply: Reply)
    requires db.Valid() && WellFormedCatalog(catalog)
    modifies db`movies, db`watchlists
    ensures db.Valid()
    ensures db.wishlists == old(db.wishlists) && db.curatedLists == old(db.curatedLists)
    ensures db.curatedListItems == old(db.curatedListItems) && db.reviews == old(db.reviews)
    ensures !Truthy(BodyId(movieId)) ==>
      reply == Reply(400, Error(MovieIdRequired)) && db.movies == old(db.movies) && db.watchlists == old(db.watchlists)
    ensures Truthy(BodyId(movieId)) ==>
      var r := FindOrCreate(old(db.movies), movieId.value, catalog);
      && (r.None? ==> reply == Reply(500, Error(catalog.message))
                      && db.movies == old(db.movies) && db.watchlists == old(db.watchlists))
      && (r.Some? ==> reply == Reply(201, Message(AddedToWatchlist)) && db.movies == r.value.0
                      && db.watchlists == old(db.watchlists) + [ListEntry(|old(db.watchlists)| + 1, r.value.1)])
  {
    var error := ValidateSaveMovie(BodyId(movieId));
    if error.Some? {
      return Reply(400, Error(error.value));
    }
    reply := AddToWatchlist(db, movieId.value, catalog);
  }

  /** The part of `saveMovieToWishList` after validation: find or create the movie, then add a wishlist row for it. */
  method AddToWishlist(db: Db, tmdbId: int, catalog: Catalog) returns (reply: Reply)
    requires db.Valid() && WellFormedCatalog(catalog)
    modifies db`movies, db`wishlists
    ensures db.Valid()
    ensures var r := FindOrCreate(old(db.movies), tmdbId, catalog);
      && (r.None? ==> reply == Reply(500, Error(catalog.message))
                      && db.movies == old(db.movies) && db.wishlists == old(db.wishlists))
      && (r.Some? ==> reply == Reply(201, Message(AddedToWishlist)) && db.movies == r.value.0
                      && db.wishlists == old(db.wishlists) + [ListEntry(|old(db.wishlists)| + 1, r.value.1)])
  {
    var id := ResolveMovie(db, tmdbId, catalog);
    if id.None? {
      return Reply(500, Error(catalog.message));
    }
    db.CreateWishlist(id.value);
    reply := Reply(201, Message(AddedToWishlist));
  }

  /** `saveMovieToWishList`; `movieId` is the body's movie id, a catalog id. There is no duplicate check. */
  method SaveMovieToWishList(db: Db, movieId: Option<int>, catalog: Catalog) returns (reply: Reply)
    requires db.Valid() && WellFormedCatalog(catalog)
    modifies db`movies, db`wishlists
    ensures db.Valid()
    ensures db.watchlists == old(db.watchlists) && db.curatedLists == old(db.curatedLists)
    ensures db.curatedListItems == old(db.curatedListItems) && db.reviews == old(db.reviews)
    ensures !Truthy(BodyId(movieId)) ==>
      reply == Reply(400, Error(MovieIdRequired)) && db.movies == old(db.movies) && db.wishlists == old(db.wishlists)
    ensures Truthy(BodyId(movieId)) ==>
      var r := FindOrCreate(old(db.movies), movieId.value, catalog);
      && (r.None? ==> reply == Reply(500, Error(catalog.message))
                      && db.movies == old(db.movies) && db.wishlists == old(db.wishlists))
      && (r.Some? ==> reply == Reply(201, Message(AddedToWishlist)) && db.movies == r.value.0
                      && db.wishlists == old(db.wishlists) + [ListEntry(|old(db.wishlists)| + 1, r.value.1)])
  {
    var error := ValidateSaveMovie(BodyId(movieId));
    if error.Some? {
      return Reply(400, Error(error.value));
    }
    reply := AddToWishlist(db, movieId.value, catalog);
  }

  /**
   * The item step of `saveMovieToCuratedList`: look for an item whose
   * `movieId` is the request's CATALOG id and, when there is none, add an
   * item that stores the movie's LOCAL id.
   */
  method AddItemUnlessListed(db: Db, tmdbId: int, curatedListId: int, movieId: int)
    requires db.Valid() && 1 <= curatedListId <= |db.curatedLists| && 1 <= movieId <= |db.movies|
    modifies db`curatedListItems
    ensures db.Valid()
    ensures db.curatedListItems ==
      if HasItemForMovie(old(db.curatedListItems), tmdbId) then old(db.curatedListItems)
      else old(db.curatedListItems) + [CuratedListItem(|old(db.curatedListItems)| + 1, curatedListId, movieId)]
  {
    var doesMovieInCuratedListItems := HasItemForMovie(db.curatedListItems, tmdbId);
    if !doesMovieInCuratedListItems {
      db.CreateCuratedListItem(curatedListId, movieId);
    }
  }

  /**
   * The part of `saveMovieToCuratedList` after the curated list was found:
   * find or create the movie, then add an item unless the item lookup
   * succeeds (`AddItemUnlessListed`).
   */
  method AddMovieToFoundList(db: Db, tmdbId: int, curatedListId: int, catalog: Catalog) returns (reply: Reply)
    requires db.Valid() && WellFormedCatalog(catalog) && 1 <= curatedListId <= |db.curatedLists|
    modifies db`movies, db`curatedListItems
    ensures db.Valid()
    ensures var r := FindOrCreate(old(db.movies), tmdbId, catalog);
      && (r.None? ==> reply == Reply(500, Error(catalog.message))
                      && db.movies == old(db.movies) && db.curatedListItems == old(db.curatedListItems))
      && (r.Some? ==>
            && reply == Reply(201, Message(AddedToCuratedList))
            && db.movies == r.value.0
            && db.curatedListItems ==
                 if HasItemForMovie(old(db.curatedListItems), tmdbId) then old(db.curatedListItems)
                 else old(db.curatedListItems) + [CuratedListItem(|old(db.curatedListItems)| + 1, curatedListId, r.value.1)])
  {
    ghost var items := db.curatedListItems;
    var id := ResolveMovie(db, tmdbId, catalog);
    if id.None? {
      return Reply(500, Error(catalog.message));
    }
    AddItemUnlessListed(db, tmdbId, curatedListId, id.value);
    assert db.curatedListItems ==
      if HasItemForMovie(items, tmdbId) then items
      else items + [CuratedListItem(|items| + 1, curatedListId, id.value)];
    reply := Reply(201, Message(AddedToCuratedList));
  }

  /**
   * `saveMovieToCuratedList`. Whether an item is added depends on
   * `HasItemForMovie` for the catalog id; `HasItemForMovieIff` says what that
   * lookup means.
   */
  method SaveMovieToCuratedList(db: Db, movieId: JsonValue, curatedListId: JsonValue, catalog: Catalog)
    returns (reply: Reply)
    requires db.Valid() && WellFormedCatalog(catalog)
    modifies db`movies, db`curatedListItems
    ensures db.Valid()
    ensures db.watchlists == old(db.watchlists) && db.wishlists == old(db.wishlists)
    ensures db.curatedLists == old(db.curatedLists) && db.reviews == old(db.reviews)
    ensures var error := ValidateSaveMovieToCuratedList(movieId, curatedListId);
      && (error.Some? ==> reply == Reply(400, Error(error.value))
                          && db.movies == old(db.movies) && db.curatedListItems == old(db.curatedListItems))
      && (error.None? && FindCuratedList(db.curatedLists, curatedListId.n).None? ==>
            reply == Reply(404, Error(CuratedListMissing))
            && db.movies == old(db.movies) && db.curatedListItems == old(db.curatedListItems))
      && (error.None? && FindCuratedList(db.curatedLists, curatedListId.n).Some? ==>
            var r := FindOrCreate(old(db.movies), movieId.n, catalog);
            && (r.None? ==> reply == Reply(500, Error(catalog.message))
                            && db.movies == old(db.movies) && db.curatedListItems == old(db.curatedListItems))
            && (r.Some? ==>
                  && reply == Reply(201, Message(AddedToCuratedList))
                  && db.movies == r.value.0
                  && db.curatedListItems ==
                       if HasItemForMovie(old(db.curatedListItems), movieId.n) then old(db.curatedListItems)
                       else old(db.curatedListItems) +
                              [CuratedListItem(|old(db.curatedListItems)| + 1, curatedListId.n, r.value.1)]))
  {
    var error := ValidateSaveMovieToCuratedList(movieId, curatedListId);
    if error.Some? {
      return Reply(400, Error(error.value));
    }
    var isCuratedList := FindCuratedList(db.curatedLists, curatedListId.n);
    if isCuratedList.None? {
      return Reply(404, Error(CuratedListMissing));
    }
    assert db.curatedLists[isCuratedList.value].id == isCuratedList.value + 1;
    reply := AddMovieToFoundList(db, movieId.n, curatedListId.n, catalog);
  }
}
