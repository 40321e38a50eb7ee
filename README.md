# FilmIQ core, modelled in Dafny

FilmIQ is an Express/Sequelize service for curating movies. It searches an external movie catalog (TMDB). It stores the movies a user keeps in a watchlist, a wishlist or named curated lists, and it records reviews. It also answers three queries: filter by genre and actor, sort a list's movies by rating or release year, and list the five best-rated movies.

This project models the service's core:

- the request validators;
- the helpers (slug creation, normalising a catalog movie into a Movie row, the five-actor cast string, the existence check);
- the list handlers;
- the movie handlers.

All of it is stated against a small in-memory model of the database.

Module layout, one module per file:

| module | file | models |
|---|---|---|
| `Wrappers` | wrappers.dfy | `Option` |
| `Text` | text.dfy | the JavaScript string built-ins the code relies on: ASCII `toLowerCase`, `split`, `join`, `parseInt` of digits, `String(n)`, `LIKE '%t%'` containment, and `length` in UTF-16 code units |
| `Validation` | validation.dfy | `validation/index.js` |
| `Models` | models.dfy | the row shapes of `models/*.models.js`, the lookups the handlers issue, and the class `Db` holding one `seq` per table with the ORM `create`/`save` calls as methods |
| `Utils` | utils.dfy | `utils/index.js` |
| `Http` | http.dfy | status-and-body replies |
| `ListController` | list_controller.dfy | `controllers/listController.js`; each handler is a method that changes the `Db` through the same create calls as the source |
| `MovieController` | movie_controller.dfy | `controllers/movieController.js`; the sort is an in-place insertion sort on an `array<Movie>` |
| `Scenarios` | scenarios.dfy | cases from `tests/dataControllers.test.js`, plus consequences the tests do not exercise: saving the same movie twice, tied ratings in the sort, and a review text above U+FFFF |

Main modelling choices:

- **Ids.** Ids are auto-increment and nothing in the core deletes a row, so the row at position k of a table has id k + 1. `Db.Valid` states this. It also states the foreign-key ranges: every watchlist, wishlist, item and review row names a stored Movie, and every item names a stored curated list. Finally it states that every stored review passed the review validator, since reviews are only created after it.
- **Catalog.** The two catalog requests of the find-or-create step become one parameter of type `Catalog`: either the fetched movie details and cast names, or the error message of a failed request.
- **Three behaviours are kept exactly as the code has them:**
  - `wordCount` is `description.split(" ").length`, which is the number of spaces plus one, not a count of words.
  - The curated-list duplicate guard compares item `movieId`s with the request's catalog id, while the item it inserts stores the movie's local id. `SaveMovieToCuratedList` keeps that behaviour, and `Scenarios.CuratedListGuardMissesLocalId` shows its effect: saving the same movie twice yields two items.
  - A missing `genre` or `actor` query parameter makes `toLowerCase` throw, and the handler answers 500.

## Model

| member | source | states |
|---|---|---|
| Text.LowerStr | utils/index.js:14 | `toLowerCase` on ASCII: same length, no upper-case letter left, each upper-case letter replaced by its lower-case partner and every other character kept |
| Text.Utf16Length | validation/index.js:60 | `length` counts UTF-16 code units: one per character for text within U+0000..U+FFFF, two per character for text above it |
| Text.Join | utils/index.js:9 | `join`: the empty list joins to `""`, and a non-empty list's join starts with its first part. `JoinSnoc`, `JoinSplit` and `SplitJoinRoundTrip` pin down the rest. |
| Text.JoinSnoc | utils/index.js:9 | joining one more part adds exactly one separator, before that part, and none at the end |
| Text.CountAppend | controllers/movieController.js:213 | occurrences of a character in a concatenation add up |
| Text.CountJoin | controllers/movieController.js:213 | joining parts free of `c` with `c` puts exactly one `c` between neighbours |
| Text.Split | utils/index.js:14 | `split` on one character yields one more part than separators. No part contains the separator. The first part is the prefix before the first separator, or the whole string when there is none. |
| Text.JoinSplit | utils/index.js:14 | split-then-join with a one-character string replaces every separator by that character and keeps every other character in place |
| Text.SplitJoinRoundTrip | utils/index.js:14 | joining the parts of a split with the same separator gives the original string back |
| Text.SplitCommaJoin | controllers/movieController.js:49 | splitting a `", "`-joined list of comma-free parts on `','` gives one part per element: the first as it was (after any comma-free prefix), each later one with the separator's space in front |
| Text.ParseDecimal | utils/index.js:67 | `parseInt` of a digit string is a natural number below 10 to the power of its length |
| Text.DecimalString | controllers/movieController.js:49 | `String(n)` is a non-empty digit string without a leading zero |
| Text.ParseDecimalString | controllers/movieController.js:49 | `parseInt(String(n)) == n` for every natural n |
| Validation.ValidateSearchMovie | validation/index.js:1-6 | no error exactly when the query is present and non-empty; otherwise the query-required message |
| Validation.ValidateCreateCuratedList | validation/index.js:8-19 | the name message appears iff the name is missing or empty, and the description message iff the description is. Nothing else appears, and when both appear the name message comes first. |
| Validation.ValidateUpdateCuratedList | validation/index.js:21-32 | the id message appears iff the parsed id is NaN or 0, and the empty-body message iff name, description and slug are all missing or empty. When both appear they come in that order. |
| Validation.ValidateSaveMovie | validation/index.js:34-40 | no error exactly when the movie id is truthy |
| Validation.ValidateSaveMovieToCuratedList | validation/index.js:42-51 | no error exactly when both ids are non-zero numbers. A bad movie id is reported before the curated-list id is looked at. |
| Validation.ValidateReviewAndRating | validation/index.js:53-67 | each message appears iff its condition fails, rating first. An accepted rating is a non-integer strictly between 0 and 10. An accepted text is non-empty and at most 500 UTF-16 code units long, so a character above U+FFFF counts twice. |
| Validation.ValidateSortByRatingOrReleaseYear | validation/index.js:69-102 | each of the three messages appears iff its parameter is missing or not allowed. `order` is compared after lower-casing. The messages come in list, sortBy, order order. |
| Models.FindMovieByTmdbId | controllers/listController.js:94-98 | a Movie is found iff some row has the catalog id, and the one found has that id |
| Models.FindMovieByTmdbIdSnoc | controllers/listController.js:87-91 | after a Movie is appended under a catalog id the table lacked, the lookup by that id returns exactly that Movie |
| Models.FindMovieById | controllers/movieController.js:101-105 | a Movie is found iff some row has the id, and the one found has that id |
| Models.FindMovieByIdAt | controllers/movieController.js:173-177 | under auto-increment ids, lookup by id succeeds iff 1 <= id <= row count, and returns row id - 1 |
| Models.FindCuratedList | controllers/listController.js:157-161 | the curated list is found iff one has the id; the position returned holds it |
| Models.StoredReviewsAccepted | controllers/movieController.js:90-118 | under `Db.Valid`, every stored review has a non-integer rating strictly between 0 and 10 and a non-empty text of at most 500 UTF-16 code units |
| Models.HasItemForMovieIff | controllers/listController.js:186-190 | the item lookup succeeds iff some item has the given `movieId` |
| Models.Db.CreateMovie | controllers/listController.js:89 | appends the Movie with the next id, keeping `Valid` |
| Models.Db.CreateWatchlist | controllers/listController.js:102 | appends a watchlist row with the next id, keeping `Valid` |
| Models.Db.CreateWishlist | controllers/listController.js:139 | appends a wishlist row with the next id, keeping `Valid` |
| Models.Db.CreateCuratedList | controllers/listController.js:36 | appends the curated list with the next id, keeping `Valid` |
| Models.Db.SaveCuratedList | controllers/listController.js:64-66 | replaces the list at one position, keeping its id and `Valid` |
| Models.Db.CreateCuratedListItem | controllers/listController.js:194-197 | appends the item with the next id, keeping `Valid` |
| Models.Db.CreateReview | controllers/movieController.js:111 | appends the review with the next id, keeping `Valid` |
| Utils.CreateSlug | utils/index.js:12-15 | the slug has the name's length. Each space becomes `-` and every other character is lower-cased in place, so no space remains. |
| Utils.SlugIdempotent | utils/index.js:12-15 | slugging a slug changes nothing |
| Utils.ReduceJoinFrom | utils/index.js:57-64 | once the first i names are joined, the rest of the reduce completes the join |
| Utils.ReduceJoinIsJoin | utils/index.js:74-82 | the reduce with the `index !== n - 1` test computes exactly `join(", ")`, with no trailing separator |
| Utils.ReduceJoin | utils/index.js:57-64 | the reduce only ever extends its accumulator. `ReduceJoinIsJoin` shows that it computes `join(", ")`. |
| Utils.GetActors | utils/index.js:4-10 | no cast gives `""`, and otherwise the string starts with the first cast member. `GetActorsFewerThanFive` and `GetActorsIgnoresTail` pin down the rest. |
| Utils.GetActorsFewerThanFive | utils/index.js:4-10 | with at most five cast members, all of them are joined |
| Utils.GetActorsIgnoresTail | utils/index.js:70-71 | cast members after the fifth never change the actor string |
| Utils.YearText | utils/index.js:67 | the year text is the prefix of the date before its first `-`, or the whole date |
| Utils.NormaliseMovie | utils/index.js:27-85 | the normalised Movie carries the title, catalog id, rating and overview unchanged. Its genre is the genre names joined by `", "`, its actors are the first five cast names joined, and its year is `parseInt` of the date's year text. |
| Utils.MovieExistsInDB | utils/index.js:17-25 | true iff some Movie has the catalog id |
| ListController.FindOrCreate | controllers/listController.js:83-100 | fails iff the movie is not stored and the catalog is unavailable. A stored movie leaves the table unchanged; otherwise exactly the normalised Movie is appended. The id returned is that of the table's Movie for the catalog id. |
| ListController.FindOrCreateKeepsUnique | controllers/listController.js:83-100 | find-or-create never adds a second Movie for a catalog id |
| ListController.FindOrCreateIdempotent | controllers/listController.js:83-100 | a second find-or-create of the same catalog id changes nothing and returns the same id, whatever the catalog says |
| ListController.ResolveMovie | controllers/listController.js:83-100 | the Movie table and the returned id are exactly those of `FindOrCreate` (no id when it fails), the id names a stored Movie, and `Valid` is kept |
| ListController.SlugFor | controllers/listController.js:31-34 | a supplied non-empty slug is kept. Otherwise the slug of the name is used, which has the name's length and no space. |
| ListController.CreateCuratedList | controllers/listController.js:21-43 | 400 with the validator's errors and no change; otherwise 201 with one list appended, carrying the given slug or, when it is missing or empty, the slug of the name. Other tables are unchanged. |
| ListController.Patched | controllers/listController.js:64 | `set(data)`: the id is kept, each field the body supplies is overwritten, and every other field is kept |
| ListController.UpdateCuratedList | controllers/listController.js:45-73 | 400 with the errors, or 404 when no list has the id, both without change. Otherwise 200, and only that list changes: each field the body supplies is overwritten and the rest are kept. |
| ListController.SaveMovieToWatchList | controllers/listController.js:75-109 | 400 for a falsy id, or 500 with the catalog's message when the movie cannot be fetched, both without change. Otherwise 201, find-or-create's table, and one watchlist row for the local id, with no duplicate check. No other table changes. Because the Movie table is `FindOrCreate`'s, `FindOrCreateKeepsUnique` applies to it. |
| ListController.AddToWatchlist | controllers/listController.js:82-108 | after validation: 500 with the catalog's message and no change when find-or-create fails; otherwise 201, find-or-create's Movie table, and the watchlist with one row appended under the next id for the returned local id |
| ListController.SaveMovieToWishList | controllers/listController.js:111-146 | the same for the wishlist |
| ListController.AddToWishlist | controllers/listController.js:118-145 | the same as `AddToWatchlist`, for the wishlist |
| ListController.SaveMovieToCuratedList | controllers/listController.js:148-207 | 400 on the validator's error, 404 for an unknown list, or 500 when the movie cannot be fetched, each without change. Otherwise 201. The item table is unchanged iff some item's `movieId` equals the catalog id (`HasItemForMovie`, characterised by `Models.HasItemForMovieIff`); otherwise one item is appended for the list and the movie's local id. No other table changes. |
| ListController.AddItemUnlessListed | controllers/listController.js:185-198 | the item table is unchanged when some item's `movieId` equals the catalog id. Otherwise one item is appended for the list and the given local id, under the next id. `Valid` is kept. |
| ListController.AddMovieToFoundList | controllers/listController.js:167-202 | for a curated list already found: 500 and no change when find-or-create fails; otherwise 201 and find-or-create's Movie table, with one item for the list and the local id appended unless an item's `movieId` equals the catalog id |
| MovieController.GenreIdList | controllers/movieController.js:49 | the joined id string is empty iff there are no ids, and otherwise starts with the first id. `GenreIdListRecoversIds` shows that every id can be read back. |
| MovieController.GenreIdListRecoversIds | controllers/movieController.js:49 | the joined genre-id string splits back into one part per id, and each part parses to its id |
| MovieController.SearchMovie | controllers/movieController.js:19-65 | 400 for a blank query and 404 for no results. Otherwise one mapped movie per hit, in order, with its title, id, rating and overview, its ids joined, its first five actors, and the year text of its release date. |
| MovieController.SearchYearAgreesWithNormaliser | controllers/movieController.js:50 | the search's year string parses to the year the normaliser stores for the same date |
| MovieController.AddReviewAndRatingToMovies | controllers/movieController.js:90-118 | 400 with the errors, or 404 for an unknown movie, both without change. Otherwise 201 and one review appended. The appended review's rating is a non-integer strictly between 0 and 10, and its text is non-empty and at most 500 UTF-16 code units long. `Valid` is kept, so by `Models.StoredReviewsAccepted` this holds for every stored review. |
| MovieController.FilterMovies | controllers/movieController.js:125-136 | exactly the Movies whose lower-cased genre and actors contain the lower-cased terms, each with its multiplicity in the table |
| MovieController.SearchByGenreAndActor | controllers/movieController.js:120-147 | 500 when a parameter is missing, and 404 iff no Movie matches. Otherwise 200 with exactly `FilterMovies`' result: the matching Movies, in table order, each with its multiplicity. |
| MovieController.Ties | controllers/movieController.js:182-192 | the Movies whose compared field has a given value, in order: exactly the Movies of the list with that value |
| MovieController.TiesAppend | controllers/movieController.js:182-192 | the tied Movies of a concatenation are those of each half, in order |
| MovieController.TiesOfPair | controllers/movieController.js:182-192 | two Movies with different fields have the same tied Movies in either order |
| MovieController.SwapKeepsTieOrder | controllers/movieController.js:182-192 | exchanging neighbours whose fields differ leaves the order of every group of tied Movies unchanged |
| MovieController.Swap | controllers/movieController.js:182 | exchanges two elements and leaves the rest, and the multiset, unchanged |
| MovieController.SwapLeftKeepsInserting | controllers/movieController.js:182-192 | while the element being inserted has a left neighbour with a greater key, swapping the two keeps the rest of the prefix in order and everything right of the element greater |
| MovieController.InsertingDone | controllers/movieController.js:182-192 | once the inserted element's left neighbour has no greater key, the whole prefix is in key order |
| MovieController.InsertStep | controllers/movieController.js:182-192 | extends the key-sorted prefix by one element, as a permutation that keeps the order of tied Movies |
| MovieController.SortMovies | controllers/movieController.js:182-192 | the array ends up in non-decreasing order of the comparator's key (the field, negated for descending). It is a permutation of its former contents. The sort is stable: Movies with equal fields keep their relative order, as `Array.prototype.sort` guarantees. |
| MovieController.SortedCopy | controllers/movieController.js:182-192 | the sorted result has the input's length and multiset, is ordered by the field in the requested direction, and keeps tied Movies in input order |
| MovieController.Dereference | controllers/movieController.js:171-180 | one Movie per id, in order, each the stored Movie with that id |
| MovieController.SelectedMovieIds | controllers/movieController.js:158-165 | one id per row of the table that the lower-cased `list` selects (watchlist, wishlist, or otherwise the curated-list items): the k-th id is the k-th row's `movieId` |
| MovieController.SelectedIdsResolve | controllers/movieController.js:159-180 | under the foreign-key invariant every row of the table the `list` parameter selects refers to a stored Movie, so every lookup finds one |
| MovieController.SortByRatingOrReleaseYear | controllers/movieController.js:149-198 | 400 with the errors, or 404 for an empty list. Otherwise a permutation of the Movies the selected table's rows refer to, duplicates included, ordered by the field in the requested direction. Movies with equal fields stay in row order. |
| MovieController.WordCount | controllers/movieController.js:213 | the word count is the number of spaces plus one |
| MovieController.WordCountOfWords | controllers/movieController.js:213 | for words without spaces joined by single spaces, the word count is the number of words |
| MovieController.Summarize | controllers/movieController.js:211-219 | title, rating and description are carried over, and the word count is the description's spaces plus one |
| MovieController.PrefixOfSortedIsTop | controllers/movieController.js:202-205 | a prefix of a list sorted by rating, descending, is itself so ordered, is contained in the list, and rates at least as high as everything left out |
| MovieController.SortedPrefixIsTopRated | controllers/movieController.js:202-205 | the first min(5, n) of any by-rating-descending ordering of the Movies are a top-rated selection of them |
| MovieController.TopRatedMovies | controllers/movieController.js:202-205 | min(5, n) stored Movies, by rating descending, with no Movie left out rated higher than any taken |
| MovieController.GetTop5Movies | controllers/movieController.js:200-225 | 404 iff no Movie is stored. Otherwise 1 to 5 summaries of top-rated Movies, by rating descending, each with its description and a word count equal to its spaces plus one. |
| Scenarios.RatingAndTextBothRejected | tests/dataControllers.test.js:355-378 | a rating of 41 with no text gives both messages, rating first |
| Scenarios.YearTextOfInception | tests/dataControllers.test.js:90 | the year text of "2010-07-15" is "2010" |
| Scenarios.YearDigits | utils/index.js:67 | "2010" is a digit run that `parseInt` reads as 2010 |
| Scenarios.ReleaseYearOfInception | utils/index.js:67 | "2010-07-15" is a well-formed date whose stored year is 2010 |
| Scenarios.GenreIdsOfInception | tests/dataControllers.test.js:89-105 | genre ids 28, 878, 12 join to "28, 878, 12" |
| Scenarios.TwoMoviesByRatingAscending | tests/dataControllers.test.js:414-476 | ordering the test's two movies by rating ascending can only put 6.4 before 8.368 |
| Scenarios.TwoMoviesByRatingDescending | controllers/movieController.js:182-192 | ordering the same two movies by rating descending can only put 8.368 before 6.4 |
| Scenarios.TiedMoviesKeepRowOrder | controllers/movieController.js:182-192 | two equally rated Movies come out of a stable reordering in their row order |
| Scenarios.TestDescriptionWordCount | tests/dataControllers.test.js:479-499 | the test description, 15 words joined by single spaces, has word count 15 |
| Scenarios.LongEmojiTextRejected | validation/index.js:60 | a 300-character text of U+1F600 is 600 code units long, and rating 5.5 with that text draws only the text message |
| Scenarios.WatchlistKeepsDuplicates | controllers/listController.js:75-109 | starting from an empty database, saving any fetchable movie twice stores it once and adds two watchlist rows for it |
| Scenarios.CuratedListGuardMissesLocalId | controllers/listController.js:185-198 | when a curated list's only item holds a stored movie's local id 1 and that movie's catalog id is not 1, adding the movie again appends a second, identical item, because the guard looks for the catalog id |

## Left out

- HTTP routing, the Express app and the server start-up (`index.js`, `server.js`) are not part of this model. Each handler takes its parsed request fields as parameters and returns the status and body.
- The catalog requests (`lib/axios.lib.js`) are not modelled. Their payloads are parameters: `Catalog` for a movie's details and credits, the result list and a cast function for a search.
- The `Promise.all` concurrency is left out. So is the race between two simultaneous find-or-create steps, which could store one catalog id twice.
- MovieController.SearchMovie: the catch block of `searchMovie` is not modelled. That block maps catalog 401/404 errors to replies.
- Timestamps (`createdAt`, `updatedAt`) are left out because they need a clock.
- Ratings are exact reals, not IEEE doubles. The sort compares them exactly, and `rating < 0.0` needs no rounding.
- `Text.Contains` models `LIKE` as plain substring containment. A `%` or `_` inside a query term is not treated as a wildcard.
- `Text.LowerStr` lower-cases ASCII letters only. Locale-dependent and non-ASCII case mapping is not modelled.
- Utils.NormaliseMovie requires a release date whose year text is a non-empty digit run. `parseInt` returning NaN for a malformed date is not modelled.
- Request ids are integers (`JsonValue.Num` holds an `int`), so fractional JSON numbers are not modelled.
- The watchlist and wishlist handlers take the body's `movieId` as an optional integer. A string id is not modelled.
- A non-number `rating` in the review body (for example a string) is not modelled.
- MovieController.AddReviewAndRatingToMovies takes `parseInt` of the path parameter as an integer. A path parameter that `parseInt` reads as NaN is not modelled.
- ListController.CreateCuratedList: the request body is passed whole to `create`, so a body with an `id` key or another column would be stored with the client's value. The model's body has only name, slug and description, and every list is appended under the next id.
- ListController.UpdateCuratedList: `set(data)` with body keys other than name, slug and description is not modelled.
- Non-string `reviewText`, `name`, `slug` or `description` values in a request body are not modelled. For an array, for example, `reviewText.length` would count elements, not characters.
- Database failures (a rejected `create` or `save`, the 500 replies of the catch blocks) are not modelled, apart from the failed catalog fetch.
- `findAll` without an `order` returns rows in table order. The model assumes that order, which the database does not promise.
- MovieController.TopRatedMovies: which of several equally rated Movies are taken and their order are left unspecified. The contract says only that none left out rates higher.
- Looking up a Movie that does not exist (a `null` element in the sort handler) cannot happen under `Db.Valid`'s foreign-key invariant, so that case is not modelled.
