/**
 * Concrete cases taken from the service's own test suite
 * (`tests/dataControllers.test.js`), stated against the model, and
 * consequences the tests do not exercise: saving the same movie twice, two
 * equally rated movies in the sort, and a review text made of characters
 * above U+FFFF.
 */
module Scenarios {
  import opened Wrappers
  import opened Text
  import opened Validation
  import opened Models
  import opened Utils
  import opened Http
  import opened ListController
  import opened MovieController

  /** A rating of 41 with no review text draws both messages, rating first. */
  lemma RatingAndTextBothRejected()
    ensures ValidateReviewAndRating(Some(41.0), None) == [RatingInvalid, ReviewTextInvalid]
  {
  }

  /** `"2010-07-15".split("-")[0]`. */
  lemma YearTextOfInception()
    ensures YearText("2010-07-15") == "2010"
  {
    SplitAtFirstSeparator("2010", '-', "07-15");
    assert "2010" + ['-'] + "07-15" == "2010-07-15";
  }

  lemma YearDigits()
    ensures AllDigits("2010") && ParseDecimal("2010") == 2010
  {
    assert "2"[..0] == "" && ParseDecimal("2") == 2;
    assert "20"[..1] == "2" && ParseDecimal("20") == 20;
    assert "201"[..2] == "20" && ParseDecimal("201") == 201;
    assert "2010"[..3] == "201";
  }

  /** The year the normaliser stores for that release date. */
  lemma ReleaseYearOfInception()
    ensures WellFormedReleaseDate("2010-07-15")
    ensures ParseDecimal(YearText("2010-07-15")) == 2010
  {
    YearTextOfInception();
    YearDigits();
  }

  /** The genre ids of a search hit, joined. */
  lemma GenreIdsOfInception()
    ensures GenreIdList([28, 878, 12]) == "28, 878, 12"
  {
    var texts := seq(3, k requires 0 <= k < 3 => DecimalString([28, 878, 12][k]));
    assert DecimalString(28) == "28";
    assert DecimalString(878) == "878";
    assert DecimalString(12) == "12";
    assert texts == ["28", "878", "12"];
    assert texts[1..] == ["878", "12"] && texts[1..][1..] == ["12"];
    assert Join(["878", "12"], ", ") == "878, 12";
    assert Join(texts, ", ") == "28" + ", " + "878, 12";
  }

  /**
   * Sorting the two movies of the sort test by rating, ascending: the only
   * ordering the sort handler's contract allows puts 6.4 before 8.368.
   */
  lemma TwoMoviesByRatingAscending(r: seq<Movie>, high: Movie, low: Movie)
    requires high.rating == 8.368 && low.rating == 6.4
    requires multiset(r) == multiset([high, low]) && OrderedBy(r, true, true)
    ensures r == [low, high]
  {
    assert |r| == |multiset(r)| == 2;
    assert SortValue(r[0], true) <= SortValue(r[1], true);
    assert r[0] in multiset(r) && r[1] in multiset(r);
    assert r[1] in multiset(r) - multiset{r[0]};
  }

  /** Sorting the same two movies by rating, descending, can only put 8.368 first. */
  lemma TwoMoviesByRatingDescending(r: seq<Movie>, high: Movie, low: Movie)
    requires high.rating == 8.368 && low.rating == 6.4
    requires multiset(r) == multiset([low, high]) && OrderedBy(r, true, false)
    ensures r == [high, low]
  {
    assert |r| == |multiset(r)| == 2;
    assert SortValue(r[0], true) >= SortValue(r[1], true);
    assert r[0] in multiset(r) && r[1] in multiset(r);
    assert r[1] in multiset(r) - multiset{r[0]};
  }

  /** Two equally rated Movies come out of the sort in the order of their rows. */
  lemma TiedMoviesKeepRowOrder(r: seq<Movie>, first: Movie, second: Movie)
    requires first.rating == second.rating
    requires |r| == 2 && KeepsTieOrder(r, [first, second], true)
    ensures r == [first, second]
  {
    var v := first.rating;
    assert [first, second][1..] == [second] && [second][1..] == [];
    assert Ties([first, second], true, v) == [first, second];
    assert r[1..][1..] == [];
    assert Ties(r, true, v) == [first, second];
  }

  /** The description of the test's movie, fifteen words joined by single spaces, counts 15 words. */
  lemma TestDescriptionWordCount()
    ensures WordCount(Join(["Cobb,", "a", "skilled", "thief", "who", "commits", "corporate", "espionage",
                            "by", "infiltrating", "the", "subconscious", "of", "his", "targets"], " ")) == 15
  {
    var words := ["Cobb,", "a", "skilled", "thief", "who", "commits", "corporate", "espionage",
                  "by", "infiltrating", "the", "subconscious", "of", "his", "targets"];
    WordCountOfWords(words);
  }

  /**
   * A review text of 300 characters from above U+FFFF is 600 UTF-16 code
   * units long, so it is rejected.
   */
  lemma LongEmojiTextRejected()
    ensures ValidateReviewAndRating(Some(5.5), Some(seq(300, _ => '\U{1F600}'))) == [ReviewTextInvalid]
  {
    var text := seq(300, _ => '\U{1F600}');
    assert Utf16Length(text) == 600;
    assert !IsInteger(5.5);
  }

  /**
   * Saving the same movie to the watchlist twice stores the movie once and
   * adds two watchlist rows that both refer to it: there is no duplicate check
   * on watchlists.
   */
  method WatchlistKeepsDuplicates(tmdbId: int, catalog: Catalog) returns (movies: seq<Movie>, watchlists: seq<ListEntry>)
    requires tmdbId != 0 && catalog.Fetched? && WellFormedCatalog(catalog)
    ensures |movies| == 1 && movies[0].tmdbId == tmdbId
    ensures watchlists == [ListEntry(1, 1), ListEntry(2, 1)]
  {
    var db := new Db();
    var created := FindOrCreate([], tmdbId, catalog);
    assert created.Some? && |created.value.0| == 1 && created.value.1 == 1;
    FindOrCreateIdempotent([], tmdbId, catalog, catalog);
    var first := SaveMovieToWatchList(db, Some(tmdbId), catalog);
    assert db.movies == created.value.0 && db.watchlists == [ListEntry(1, 1)];
    assert FindOrCreate(db.movies, tmdbId, catalog) == Some((db.movies, 1));
    var second := SaveMovieToWatchList(db, Some(tmdbId), catalog);
    assert db.watchlists == [ListEntry(1, 1)] + [ListEntry(2, 1)];
    movies, watchlists := db.movies, db.watchlists;
  }

  /**
   * Once a curated list holds the item for the movie with catalog id
   * `tmdbId` (stored under local id 1), adding that movie to the list again
   * appends a second, identical item: the duplicate guard searches the items
   * for the catalog id, not for the local id they hold.
   */
  method CuratedListGuardMissesLocalId(db: Db, tmdbId: int, catalog: Catalog) returns (reply: Reply)
    requires db.Valid() && tmdbId != 1 && WellFormedCatalog(catalog)
    requires |db.movies| == 1 && db.movies[0].tmdbId == tmdbId && |db.curatedLists| == 1
    requires db.curatedListItems == [CuratedListItem(1, 1, 1)]
    modifies db`movies, db`curatedListItems
    ensures reply == Reply(201, Message(AddedToCuratedList))
    ensures db.movies == old(db.movies)
    ensures db.curatedListItems == [CuratedListItem(1, 1, 1), CuratedListItem(2, 1, 1)]
  {
    HasItemForMovieIff(db.curatedListItems, tmdbId);
    reply := AddMovieToFoundList(db, tmdbId, 1, catalog);
  }
}
