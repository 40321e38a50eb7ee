/**
 * `controllers/movieController.js`: the mapping of catalog search results,
 * review creation, the genre-and-actor filter, sorting a list's movies by
 * rating or release year, and the top-five ranking.
 */
module MovieController {
  import opened Wrappers
  import opened Text
  import opened Validation
  import opened Models
  import opened Utils
  import opened Http

  const ReviewCreated := "review created successfully."
  const MovieMissing := "movie doesn't exists."
  /** The message of the TypeError thrown by `undefined.toLowerCase()`. */
  const MissingQueryParam := "Cannot read properties of undefined (reading 'toLowerCase')"

  // ---------------------------------------------------------------- search

  /** One entry of the catalog's `/search/movie` results, reduced to the fields the handler reads. */
  datatype SearchHit = SearchHit(
    originalTitle: string, id: int, voteAverage: real, overview: string,
    genreIds: seq<nat>, releaseDate: string)

  /** A search result as the handler returns it; its release year stays a string. */
  datatype SearchedMovie = SearchedMovie(
    title: string, tmdbId: int, genre: string, actors: string,
    releaseYear: string, rating: real, description: string)

  /** `genre_ids.join(", ")`: each id in decimal. */
  function GenreIdList(ids: seq<nat>): (r: string)
    ensures r == "" <==> ids == []
    ensures ids != [] ==> DecimalString(ids[0]) <= r
  {
    Join(seq(|ids|, k requires 0 <= k < |ids| => DecimalString(ids[k])), ", ")
  }

  /** The genre ids can be read back from the joined string: split on `','`, drop the space, parse. */
  lemma {:induction false} GenreIdListRecoversIds(ids: seq<nat>)
    requires ids != []
    ensures var parts := Split(GenreIdList(ids), ',');
      && |parts| == |ids|
      && AllDigits(parts[0]) && ParseDecimal(parts[0]) == ids[0]
      && forall k :: 1 <= k < |ids| ==>
           parts[k] == " " + DecimalString(ids[k]) && ParseDecimal(parts[k][1..]) == ids[k]
  {
    var texts := seq(|ids|, k requires 0 <= k < |ids| => DecimalString(ids[k]));
    forall k | 0 <= k < |ids|
      ensures ',' !in texts[k] && ParseDecimal(texts[k]) == ids[k]
    {
      ParseDecimalString(ids[k]);
    }
    SplitCommaJoin(texts, "");
    assert "" + Join(texts, ", ") == Join(texts, ", ") && "" + texts[0] == texts[0];
    assert GenreIdList(ids) == Join(texts, ", ");
    var parts := Split(GenreIdList(ids), ',');
    forall k | 1 <= k < |ids|
      ensures parts[k] == " " + DecimalString(ids[k]) && ParseDecimal(parts[k][1..]) == ids[k]
    {
      assert parts[k][1..] == texts[k];
    }
  }

  /** The per-movie mapping of `searchMovie`; `cast` is what `getActors` read for this movie. */
  function ToSearchedMovie(hit: SearchHit, cast: seq<string>): SearchedMovie {
    SearchedMovie(hit.originalTitle, hit.id, GenreIdList(hit.genreIds), GetActors(cast),
                  YearText(hit.releaseDate), hit.voteAverage, hit.overview)
  }

  /**
   * `searchMovie` up to its catch block: `results` is what the catalog returned
   * for the query and `castOf` gives the cast names the credits request returns
   * for a catalog id.
   */
  function SearchMovie(query: Option<string>, results: seq<SearchHit>, castOf: int -> seq<string>)
    : (r: Result<seq<SearchedMovie>>)
    ensures Blank(query) ==> r == Fail(Reply(400, Error(QueryRequired)))
    ensures !Blank(query) && results == [] ==> r == Fail(Reply(404, Error(NoMoviesFound)))
    ensures r.Ok? <==> !Blank(query) && results != []
    ensures r.Ok? ==> |r.value| == |results|
    ensures r.Ok? ==> forall k :: 0 <= k < |results| ==>
      && r.value[k].tmdbId == results[k].id
      && r.value[k].title == results[k].originalTitle
      && r.value[k].rating == results[k].voteAverage
      && r.value[k].description == results[k].overview
    ensures r.Ok? ==> forall k :: 0 <= k < |results| ==>
      && r.value[k].genre == GenreIdList(results[k].genreIds)
      && r.value[k].actors == GetActors(castOf(results[k].id))
      && r.value[k].releaseYear == YearText(results[k].releaseDate)
  {
    match ValidateSearchMovie(query)
    case Some(error) => Fail(Reply(400, Error(error)))
    case None =>
      if |results| == 0 then Fail(Reply(404, Error(NoMoviesFound)))
      else
        var movies := seq(|results|, k requires 0 <= k < |results| => ToSearchedMovie(results[k], castOf(results[k].id)));
        assert forall k :: 0 <= k < |results| ==> movies[k] == ToSearchedMovie(results[k], castOf(results[k].id));
        Ok(movies)
  }

  /** The search's year string parses to the year the normaliser stores for the same release date. */
  lemma SearchYearAgreesWithNormaliser(hit: SearchHit, cast: seq<string>, details: MovieDetails, credits: seq<string>)
    requires details.releaseDate == hit.releaseDate && WellFormedReleaseDate(hit.releaseDate)
    ensures AllDigits(ToSearchedMovie(hit, cast).releaseYear)
    ensures ParseDecimal(ToSearchedMovie(hit, cast).releaseYear) == NormaliseMovie(hit.id, details, credits).releaseYear
  {
  }

  // ---------------------------------------------------------------- reviews

  /** `addReviewAndRatingToMovies`; `movieId` is `parseInt` of the path parameter. */
  method AddReviewAndRatingToMovies(db: Db, movieId: int, rating: Option<real>, reviewText: Option<string>)
    returns (reply: Reply)
    requires db.Valid()
    modifies db`reviews
    ensures db.Valid()
    ensures db.movies == old(db.movies) && db.watchlists == old(db.watchlists) && db.wishlists == old(db.wishlists)
    ensures db.curatedLists == old(db.curatedLists) && db.curatedListItems == old(db.curatedListItems)
    ensures var errors := ValidateReviewAndRating(rating, reviewText);
      && (errors != [] ==> reply == Reply(400, Errors(errors)) && db.reviews == old(db.reviews))
      && (errors == [] && FindMovieById(db.movies, movieId).None? ==>
            reply == Reply(404, Error(MovieMissing)) && db.reviews == old(db.reviews))
      && (errors == [] && FindMovieById(db.movies, movieId).Some? ==>
            && reply == Reply(201, Message(ReviewCreated))
            && db.reviews == old(db.reviews) + [Review(|old(db.reviews)| + 1, movieId, rating.value, reviewText.value)])
    // the appended review has a non-integer rating strictly between 0 and 10 and a non-empty text of at most 500 UTF-16 code units
    ensures |db.reviews| > |old(db.reviews)| ==>
      var review := db.reviews[|db.reviews| - 1];
      && 0.0 < review.rating < 10.0 && !IsInteger(review.rating)
      && review.reviewText != [] && Utf16Length(review.reviewText) <= 500
  {
    var errors := ValidateReviewAndRating(rating, reviewText);
    if errors != [] {
      return Reply(400, Errors(errors));
    }
    var isMovie := FindMovieById(db.movies, movieId);
    if isMovie.None? {
      return Reply(404, Error(MovieMissing));
    }
    FindMovieByIdAt(db.movies, movieId);
    assert ReviewAccepted(rating.value, reviewText.value);
    db.CreateReview(movieId, rating.value, reviewText.value);
    reply := Reply(201, Message(ReviewCreated));
  }

  // ---------------------------------------------------------------- genre and actor search

  /** `LOWER(genre) LIKE '%genre%' AND LOWER(actors) LIKE '%actor%'`, the query terms lower-cased too. */
  predicate MatchesGenreAndActor(m: Movie, genre: string, actor: string) {
    Contains(LowerStr(m.genre), LowerStr(genre)) && Contains(LowerStr(m.actors), LowerStr(actor))
  }

  /** The rows `Movie.findAll` returns for the filter, in table order. */
  function FilterMovies(movies: seq<Movie>, genre: string, actor: string): (r: seq<Movie>)
    ensures forall m :: m in r <==> m in movies && MatchesGenreAndActor(m, genre, actor)
    ensures multiset(r) <= multiset(movies)
    ensures forall m :: MatchesGenreAndActor(m, genre, actor) ==> multiset(r)[m] == multiset(movies)[m]
  {
    if movies == [] then []
    else
      assert movies == [movies[0]] + movies[1..];
      var rest := FilterMovies(movies[1..], genre, actor);
      if MatchesGenreAndActor(movies[0], genre, actor) then [movies[0]] + rest else rest
  }

  /** `searchByGenreAndActor` over the Movie table; a missing query parameter makes `toLowerCase` throw. */
  function SearchByGenreAndActor(movies: seq<Movie>, genre: Option<string>, actor: Option<string>)
    : (r: Result<seq<Movie>>)
    ensures genre.None? || actor.None? ==> r == Fail(Reply(500, Error(MissingQueryParam)))
    ensures genre.Some? && actor.Some? ==>
      (r == Fail(Reply(404, Error(NoMoviesFound))) <==>
         forall k :: 0 <= k < |movies| ==> !MatchesGenreAndActor(movies[k], genre.value, actor.value))
    ensures r.Ok? ==> genre.Some? && actor.Some? && r.value != []
    ensures r.Ok? ==> forall m :: m in r.value <==> m in movies && MatchesGenreAndActor(m, genre.value, actor.value)
    ensures genre.Some? && actor.Some? && r != Fail(Reply(404, Error(NoMoviesFound))) ==>
      r == Ok(FilterMovies(movies, genre.value, actor.value))
  {
    if genre.None? || actor.None? then Fail(Reply(500, Error(MissingQueryParam)))
    else
      var found := FilterMovies(movies, genre.value, actor.value);
      if |found| == 0 then Fail(Reply(404, Error(NoMoviesFound))) else Ok(found)
  }

  // ---------------------------------------------------------------- sorting

  /** The field compared: rating, or release year. */
  function SortValue(m: Movie, byRating: bool): real {
    if byRating then m.rating else m.releaseYear as real
  }

  /** The comparator `(m1, m2) => asc ? v(m1) - v(m2) : v(m2) - v(m1)` as a key compared in ascending order. */
  function SortKey(m: Movie, byRating: bool, ascending: bool): real {
    if ascending then SortValue(m, byRating) else -SortValue(m, byRating)
  }

  /** Non-decreasing in the field when ascending, non-increasing otherwise. */
  ghost predicate OrderedBy(ms: seq<Movie>, byRating: bool, ascending: bool) {
    forall i, j :: 0 <= i < j < |ms| ==>
      if ascending then SortValue(ms[i], byRating) <= SortValue(ms[j], byRating)
      else SortValue(ms[i], byRating) >= SortValue(ms[j], byRating)
  }

  /** The Movies of `s` whose compared field equals `v`, in their order in `s`. */
  function Ties(s: seq<Movie>, byRating: bool, v: real): (r: seq<Movie>)
    ensures |r| <= |s|
    ensures forall m :: m in r <==> m in s && SortValue(m, byRating) == v
  {
    if s == [] then []
    else (if SortValue(s[0], byRating) == v then [s[0]] else []) + Ties(s[1..], byRating, v)
  }

  /** A stable reordering: for every value of the field, the Movies carrying it come in the same order. */
  ghost predicate KeepsTieOrder(r: seq<Movie>, s: seq<Movie>, byRating: bool) {
    forall v :: Ties(r, byRating, v) == Ties(s, byRating, v)
  }

  lemma {:induction false} TiesAppend(s: seq<Movie>, t: seq<Movie>, byRating: bool, v: real)
    ensures Ties(s + t, byRating, v) == Ties(s, byRating, v) + Ties(t, byRating, v)
  {
    if s == [] {
      assert s + t == t;
    } else {
      assert (s + t)[1..] == s[1..] + t;
      TiesAppend(s[1..], t, byRating, v);
    }
  }

  lemma TiesOfPair(x: Movie, y: Movie, byRating: bool, v: real)
    requires SortValue(x, byRating) != SortValue(y, byRating)
    ensures Ties([x, y], byRating, v) == Ties([y, x], byRating, v)
  {
    assert [x, y][1..] == [y] && [y, x][1..] == [x];
    assert [x][1..] == [] && [y][1..] == [];
  }

  /** Exchanging neighbours whose fields differ keeps the order among equal fields. */
  lemma SwapKeepsTieOrder(s: seq<Movie>, j: int, byRating: bool)
    requires 0 < j < |s| && SortValue(s[j - 1], byRating) != SortValue(s[j], byRating)
    ensures KeepsTieOrder(s[j - 1 := s[j]][j := s[j - 1]], s, byRating)
  {
    var x, y := s[j - 1], s[j];
    var pre, post := s[..j - 1], s[j + 1..];
    var t := s[j - 1 := y][j := x];
    assert s == pre + ([x, y] + post);
    assert t == pre + ([y, x] + post);
    forall v
      ensures Ties(t, byRating, v) == Ties(s, byRating, v)
    {
      TiesAppend(pre, [x, y] + post, byRating, v);
      TiesAppend([x, y], post, byRating, v);
      TiesAppend(pre, [y, x] + post, byRating, v);
      TiesAppend([y, x], post, byRating, v);
      TiesOfPair(x, y, byRating, v);
    }
  }

  /** The keys of `s[..hi]` are non-decreasing. */
  ghost predicate KeysSorted(s: seq<Movie>, hi: int, byRating: bool, ascending: bool) {
    forall p, q :: 0 <= p < q < hi <= |s| ==>
      SortKey(s[p], byRating, ascending) <= SortKey(s[q], byRating, ascending)
  }

  /**
   * Halfway through inserting `s[i]`: it has moved left to position `j`, the
   * other keys of `s[..i + 1]` are in order, and everything to its right has
   * a greater key.
   */
  ghost predicate Inserting(s: seq<Movie>, i: int, j: int, byRating: bool, ascending: bool) {
    && 0 <= j <= i < |s|
    && (forall p, q :: 0 <= p < q <= i && p != j && q != j ==>
          SortKey(s[p], byRating, ascending) <= SortKey(s[q], byRating, ascending))
    && (forall q :: j < q <= i ==> SortKey(s[j], byRating, ascending) < SortKey(s[q], byRating, ascending))
  }

  /** Swapping the moving element with a left neighbour of greater key moves it one step. */
  lemma SwapLeftKeepsInserting(s: seq<Movie>, i: int, j: int, byRating: bool, ascending: bool)
    requires Inserting(s, i, j, byRating, ascending) && 0 < j
    requires SortKey(s[j - 1], byRating, ascending) > SortKey(s[j], byRating, ascending)
    ensures Inserting(s[j - 1 := s[j]][j := s[j - 1]], i, j - 1, byRating, ascending)
  {
    var t := s[j - 1 := s[j]][j := s[j - 1]];
    forall p, q | 0 <= p < q <= i && p != j - 1 && q != j - 1
      ensures SortKey(t[p], byRating, ascending) <= SortKey(t[q], byRating, ascending)
    {
      if q == j {
        assert t[p] == s[p] && t[q] == s[j - 1];
      } else if p == j {
        assert t[p] == s[j - 1] && t[q] == s[q];
      } else {
        assert t[p] == s[p] && t[q] == s[q];
      }
    }
  }

  /** Once the moving element's left neighbour has a key no greater than its own, `s[..i + 1]` is sorted. */
  lemma InsertingDone(s: seq<Movie>, i: int, j: int, byRating: bool, ascending: bool)
    requires Inserting(s, i, j, byRating, ascending)
    requires j == 0 || SortKey(s[j - 1], byRating, ascending) <= SortKey(s[j], byRating, ascending)
    ensures KeysSorted(s, i + 1, byRating, ascending)
  {
    forall p, q | 0 <= p < q < i + 1
      ensures SortKey(s[p], byRating, ascending) <= SortKey(s[q], byRating, ascending)
    {
      if q == j && p < j - 1 {
        assert SortKey(s[p], byRating, ascending) <= SortKey(s[j - 1], byRating, ascending);
      }
    }
  }

  method Swap(a: array<Movie>, i: int, j: int)
    requires 0 <= i < a.Length && 0 <= j < a.Length
    modifies a
    ensures a[..] == old(a[..])[i := old(a[j])][j := old(a[i])]
    ensures multiset(a[..]) == multiset(old(a[..]))
  {
    a[i], a[j] := a[j], a[i];
  }

  /** One pass of the insertion sort: `a[i]` moves left until the keys of `a[..i + 1]` are sorted. */
  method InsertStep(a: array<Movie>, i: int, byRating: bool, ascending: bool)
    requires 1 <= i < a.Length && KeysSorted(a[..], i, byRating, ascending)
    modifies a
    ensures KeysSorted(a[..], i + 1, byRating, ascending)
    ensures multiset(a[..]) == multiset(old(a[..]))
    ensures KeepsTieOrder(a[..], old(a[..]), byRating)
  {
    var j := i;
    while j > 0 && SortKey(a[j - 1], byRating, ascending) > SortKey(a[j], byRating, ascending)
      invariant Inserting(a[..], i, j, byRating, ascending)
      invariant multiset(a[..]) == multiset(old(a[..]))
      invariant KeepsTieOrder(a[..], old(a[..]), byRating)
    {
      SwapLeftKeepsInserting(a[..], i, j, byRating, ascending);
      SwapKeepsTieOrder(a[..], j, byRating);
      Swap(a, j - 1, j);
      j := j - 1;
    }
    InsertingDone(a[..], i, j, byRating, ascending);
  }

  /**
   * `movies.sort(comparator)`, in place (an insertion sort), with the
   * comparator of the sort handler given by its key `SortKey`.
   */
  method SortMovies(a: array<Movie>, byRating: bool, ascending: bool)
    modifies a
    ensures forall p, q :: 0 <= p < q < a.Length ==>
      SortKey(a[p], byRating, ascending) <= SortKey(a[q], byRating, ascending)
    ensures multiset(a[..]) == multiset(old(a[..]))
    ensures KeepsTieOrder(a[..], old(a[..]), byRating)
  {
    var i := 1;
    while i < a.Length
      invariant a.Length == 0 || 1 <= i <= a.Length
      invariant KeysSorted(a[..], i, byRating, ascending)
      invariant multiset(a[..]) == multiset(old(a[..]))
      invariant KeepsTieOrder(a[..], old(a[..]), byRating)
    {
      InsertStep(a, i, byRating, ascending);
      i := i + 1;
    }
    assert KeysSorted(a[..], a.Length, byRating, ascending);
  }

  /** The movie ids of the membership table the `list` parameter selects. */
  function SelectedMovieIds(db: Db, list: string): (ids: seq<int>)
    reads db
    ensures LowerStr(list) == "watchlist" ==>
      |ids| == |db.watchlists| && forall k :: 0 <= k < |ids| ==> ids[k] == db.watchlists[k].movieId
    ensures LowerStr(list) == "wishlist" ==>
      |ids| == |db.wishlists| && forall k :: 0 <= k < |ids| ==> ids[k] == db.wishlists[k].movieId
    ensures LowerStr(list) != "watchlist" && LowerStr(list) != "wishlist" ==>
      |ids| == |db.curatedListItems| && forall k :: 0 <= k < |ids| ==> ids[k] == db.curatedListItems[k].movieId
  {
    if LowerStr(list) == "watchlist" then seq(|db.watchlists|, k requires 0 <= k < |db.watchlists| reads db => db.watchlists[k].movieId)
    else if LowerStr(list) == "wishlist" then seq(|db.wishlists|, k requires 0 <= k < |db.wishlists| reads db => db.wishlists[k].movieId)
    else seq(|db.curatedListItems|, k requires 0 <= k < |db.curatedListItems| reads db => db.curatedListItems[k].movieId)
  }

  /** Every id names a stored Movie. */
  ghost predicate AllResolve(movies: seq<Movie>, ids: seq<int>) {
    forall k :: 0 <= k < |ids| ==> FindMovieById(movies, ids[k]).Some?
  }

  /** `Movie.findOne({ where: { id } })` for each id, in order. */
  function Dereference(movies: seq<Movie>, ids: seq<int>): (r: seq<Movie>)
    requires AllResolve(movies, ids)
    ensures |r| == |ids| && forall k :: 0 <= k < |ids| ==> r[k] in movies && r[k].id == ids[k]
  {
    seq(|ids|, k requires 0 <= k < |ids| => FindMovieById(movies, ids[k]).value)
  }

  /** Under the foreign-key invariant every row of the selected table refers to a stored Movie. */
  lemma SelectedIdsResolve(db: Db, list: string)
    requires db.Valid()
    ensures AllResolve(db.movies, SelectedMovieIds(db, list))
  {
    var ids := SelectedMovieIds(db, list);
    forall k | 0 <= k < |ids|
      ensures FindMovieById(db.movies, ids[k]).Some?
    {
      FindMovieByIdAt(db.movies, ids[k]);
    }
  }

  /** The Movies copied into an array, sorted there in place, and read back. */
  method SortedCopy(movies: seq<Movie>, byRating: bool, ascending: bool) returns (sorted: seq<Movie>)
    ensures |sorted| == |movies| && multiset(sorted) == multiset(movies)
    ensures OrderedBy(sorted, byRating, ascending)
    ensures KeepsTieOrder(sorted, movies, byRating)
  {
    var a := new Movie[|movies|](k requires 0 <= k < |movies| => movies[k]);
    assert a[..] == movies;
    SortMovies(a, byRating, ascending);
    sorted := a[..];
  }

  /**
   * `sortByRatingOrReleaseYear`: the Movies the selected table refers to, one
   * per row (duplicates included), ordered by the requested field and direction.
   */
  method SortByRatingOrReleaseYear(db: Db, query: SortQuery) returns (r: Result<seq<Movie>>)
    requires db.Valid()
    ensures var errors := ValidateSortByRatingOrReleaseYear(query);
      && (errors != [] ==> r == Fail(Reply(400, Errors(errors))))
      && (errors == [] && SelectedMovieIds(db, query.list.value) == [] ==> r == Fail(Reply(404, Error(NoMoviesFound))))
      && (errors == [] && SelectedMovieIds(db, query.list.value) != [] ==> r.Ok?)
    ensures r.Ok? ==>
      var ids := SelectedMovieIds(db, query.list.value);
      && AllResolve(db.movies, ids)
      && multiset(r.value) == multiset(Dereference(db.movies, ids))
      && OrderedBy(r.value, query.sortBy.value == "rating", LowerStr(query.order.value) == "asc")
      && KeepsTieOrder(r.value, Dereference(db.movies, ids), query.sortBy.value == "rating")
  {
    var errors := ValidateSortByRatingOrReleaseYear(query);
    if errors != [] {
      return Fail(Reply(400, Errors(errors)));
    }
    var list, sortBy, order := query.list.value, query.sortBy.value, query.order.value;
    var movieList := SelectedMovieIds(db, list);
    if |movieList| == 0 {
      return Fail(Reply(404, Error(NoMoviesFound)));
    }
    SelectedIdsResolve(db, list);
    var movies := Dereference(db.movies, movieList);
    var sorted := SortedCopy(movies, sortBy == "rating", LowerStr(order) == "asc");
    r := Ok(sorted);
  }

  // ---------------------------------------------------------------- top five

  datatype ReviewSummary = ReviewSummary(text: string, wordCount: nat)

  datatype TopMovie = TopMovie(title: string, rating: real, review: ReviewSummary)

  /** `description.split(" ").length`: one more than the number of spaces, whatever lies between them. */
  function WordCount(description: string): (n: nat)
    ensures n == Count(description, ' ') + 1
    ensures n >= 1
  {
    |Split(description, ' ')|
  }
  /** For words separated by single spaces, the word count is the number of words. */
  lemma WordCountOfWords(words: seq<string>)
    requires words != [] && forall k :: 0 <= k < |words| ==> ' ' !in words[k]
    ensures WordCount(Join(words, " ")) == |words|
  {
    CountJoin(words, ' ');
  }


  function Summarize(m: Movie): (top: TopMovie)
    ensures top.title == m.title && top.rating == m.rating && top.review.text == m.description
    ensures top.review.wordCount == Count(m.description, ' ') + 1
  {
    TopMovie(m.title, m.rating, ReviewSummary(m.description, WordCount(m.description)))
  }

  /**
   * `top` is what `Movie.findAll({ order: [["rating", "desc"]], limit: 5 })`
   * may return: min(5, n) of the stored Movies, by rating descending, and no
   * Movie left out rates higher than one taken.
   */
  ghost predicate IsTopRated(top: seq<Movie>, movies: seq<Movie>) {
    && |top| == Min(5, |movies|)
    && multiset(top) <= multiset(movies)
    && OrderedBy(top, true, false)
    && forall m, k :: m in multiset(movies) - multiset(top) && 0 <= k < |top| ==> m.rating <= top[k].rating
  }

  /** A prefix of a list sorted by rating, descending, rates at least as high as everything after it. */
  lemma {:induction false} PrefixOfSortedIsTop(s: seq<Movie>, n: nat)
    requires n <= |s| && OrderedBy(s, true, false)
    ensures multiset(s[..n]) <= multiset(s) && OrderedBy(s[..n], true, false)
    ensures forall m, k :: m in multiset(s) - multiset(s[..n]) && 0 <= k < n ==> m.rating <= s[k].rating
  {
    assert s == s[..n] + s[n..];
    assert multiset(s) == multiset(s[..n]) + multiset(s[n..]);
    forall m, k | m in multiset(s) - multiset(s[..n]) && 0 <= k < n
      ensures m.rating <= s[k].rating
    {
      assert m in multiset(s[n..]);
      var j :| 0 <= j < |s[n..]| && s[n..][j] == m;
      assert s[n + j] == m;
    }
  }

  /** Any ordering of `movies` by rating, descending, gives a top-rated selection by taking its first min(5, n). */
  lemma SortedPrefixIsTopRated(sorted: seq<Movie>, movies: seq<Movie>)
    requires |sorted| == |movies| && multiset(sorted) == multiset(movies)
    requires OrderedBy(sorted, true, false)
    ensures IsTopRated(sorted[..Min(5, |sorted|)], movies)
  {
    var n := Min(5, |sorted|);
    PrefixOfSortedIsTop(sorted, n);
    forall m, k | m in multiset(movies) - multiset(sorted[..n]) && 0 <= k < n
      ensures m.rating <= sorted[..n][k].rating
    {
      assert sorted[..n][k] == sorted[k];
    }
  }

  /** The ordered, limited `Movie.findAll` of `getTop5Movies`. */
  method TopRatedMovies(movies: seq<Movie>) returns (top: seq<Movie>)
    ensures IsTopRated(top, movies)
  {
    var sorted := SortedCopy(movies, true, false);
    SortedPrefixIsTopRated(sorted, movies);
    top := sorted[..Min(5, |sorted|)];
  }

  /** `getTop5Movies`. */
  method GetTop5Movies(db: Db) returns (r: Result<seq<TopMovie>>)
    ensures r.Fail? <==> db.movies == []
    ensures r.Fail? ==> r == Fail(Reply(404, Error(NoMoviesFound)))
    ensures r.Ok? ==> 1 <= |r.value| <= 5
    ensures r.Ok? ==> exists top :: (IsTopRated(top, db.movies) &&
      r.value == seq(|top|, k requires 0 <= k < |top| => Summarize(top[k])))
    ensures r.Ok? ==> forall k :: 0 <= k < |r.value| ==>
      r.value[k].review.wordCount == Count(r.value[k].review.text, ' ') + 1
    ensures r.Ok? ==> forall i, j :: 0 <= i < j < |r.value| ==> r.value[i].rating >= r.value[j].rating
  {
    var movies := TopRatedMovies(db.movies);
    if |movies| == 0 {
      return Fail(Reply(404, Error(NoMoviesFound)));
    }
    r := Ok(seq(|movies|, k requires 0 <= k < |movies| => Summarize(movies[k])));
  }
}
