/**
 * The request validators of `validation/index.js`. Each returns either
 * `None` (JavaScript `null`) or one message, or the ordered list of messages
 * that the source accumulates by successive `errors.push` calls.
 */
module Validation {
  import opened Wrappers
  import opened Text

  /** A JSON value as it arrives in a request body; numbers in id fields are integers here. */
  datatype JsonValue = Absent | Null | Bool(b: bool) | Num(n: int) | Str(s: string)

  /** JavaScript truthiness: `!v` is false exactly for these values. */
  predicate Truthy(v: JsonValue) {
    match v
    case Absent => false
    case Null => false
    case Bool(b) => b
    case Num(n) => n != 0
    case Str(s) => s != []
  }

  /** `!x || x.length === 0` for an optional string field: missing or empty. */
  predicate Blank(x: Option<string>) {
    x.None? || x.value == []
  }

  /** `Number.isInteger(r)`. */
  predicate IsInteger(r: real) {
    r.Floor as real == r
  }

  /** The body of a create- or update-curated-list request. */
  datatype CuratedListBody = CuratedListBody(name: Option<string>, description: Option<string>, slug: Option<string>)

  /** The query of a sort request. */
  datatype SortQuery = SortQuery(list: Option<string>, sortBy: Option<string>, order: Option<string>)

  const QueryRequired := "query parameter is required."
  const NameRequired := "name is required."
  const DescriptionRequired := "description is required"
  const IdRequired := "id is required."
  const BodyEmpty := "request body is empty."
  const MovieIdRequired := "movieId is required in request body and should be a number."
  const CuratedListIdRequired := "curatedListId is required and should be a number."
  const RatingInvalid := "rating is required must be a float between 0 and 10."
  const ReviewTextInvalid := "reviewText is required and should have maximum 500 characters."
  const ListInvalid := "list query param is required and must be watchlist, wishlist or curatedlist."
  const SortByInvalid := "sortBy query param is required and must be either rating or releaseYear."
  const OrderInvalid := "order query param is required and must be either ASC or DESC."

  function ValidateSearchMovie(query: Option<string>): (error: Option<string>)
    ensures error.None? <==> query.Some? && query.value != []
    ensures error.Some? ==> error.value == QueryRequired
  {
    if Blank(query) then Some(QueryRequired) else None
  }

  function ValidateCreateCuratedList(data: CuratedListBody): (errors: seq<string>)
    ensures NameRequired in errors <==> Blank(data.name)
    ensures DescriptionRequired in errors <==> Blank(data.description)
    ensures forall e :: e in errors ==> e == NameRequired || e == DescriptionRequired
    ensures |errors| <= 2
    ensures |errors| == 2 ==> errors == [NameRequired, DescriptionRequired]
  {
    var errors := [];
    var errors := if Blank(data.name) then errors + [NameRequired] else errors;
    var errors := if Blank(data.description) then errors + [DescriptionRequired] else errors;
    errors
  }

  /** `!id` for the result of `parseInt`, where `None` stands for `NaN`. */
  predicate IdFalsy(id: Option<int>) {
    id.None? || id.value == 0
  }

  function ValidateUpdateCuratedList(id: Option<int>, data: CuratedListBody): (errors: seq<string>)
    ensures IdRequired in errors <==> IdFalsy(id)
    ensures BodyEmpty in errors <==> Blank(data.name) && Blank(data.description) && Blank(data.slug)
    ensures forall e :: e in errors ==> e == IdRequired || e == BodyEmpty
    ensures |errors| <= 2
    ensures |errors| == 2 ==> errors == [IdRequired, BodyEmpty]
  {
    var errors := [];
    var errors := if IdFalsy(id) then errors + [IdRequired] else errors;
    var errors := if Blank(data.name) && Blank(data.description) && Blank(data.slug)
      then errors + [BodyEmpty] else errors;
    errors
  }

  function ValidateSaveMovie(movieId: JsonValue): (error: Option<string>)
    ensures error.None? <==> Truthy(movieId)
    ensures error.Some? ==> error.value == MovieIdRequired
  {
    if !Truthy(movieId) then Some(MovieIdRequired) else None
  }

  /** A truthy value whose `typeof` is `"number"`. */
  predicate IsId(v: JsonValue) {
    Truthy(v) && v.Num?
  }

  function ValidateSaveMovieToCuratedList(movieId: JsonValue, curatedListId: JsonValue): (error: Option<string>)
    ensures error.None? <==> movieId.Num? && movieId.n != 0 && curatedListId.Num? && curatedListId.n != 0
    ensures !IsId(movieId) ==> error == Some(MovieIdRequired)
    ensures IsId(movieId) && !IsId(curatedListId) ==> error == Some(CuratedListIdRequired)
  {
    if !IsId(movieId) then Some(MovieIdRequired)
    else if !IsId(curatedListId) then Some(CuratedListIdRequired)
    else None
  }

  /** `!rating || Number.isInteger(rating) || rating < 0.0 || rating > 10.0`. */
  predicate RatingRejected(rating: Option<real>) {
    rating.None? || rating.value == 0.0 || IsInteger(rating.value) || rating.value < 0.0 || rating.value > 10.0
  }

  /** `!reviewText || reviewText.length > 500`, the length counted in UTF-16 code units. */
  predicate ReviewTextRejected(reviewText: Option<string>) {
    reviewText.None? || reviewText.value == [] || Utf16Length(reviewText.value) > 500
  }

  function ValidateReviewAndRating(rating: Option<real>, reviewText: Option<string>): (errors: seq<string>)
    ensures RatingInvalid in errors <==> RatingRejected(rating)
    ensures ReviewTextInvalid in errors <==> ReviewTextRejected(reviewText)
    ensures forall e :: e in errors ==> e == RatingInvalid || e == ReviewTextInvalid
    ensures |errors| <= 2
    ensures |errors| == 2 ==> errors == [RatingInvalid, ReviewTextInvalid]
    // an accepted rating is a non-integer strictly between 0 and 10
    ensures RatingInvalid !in errors ==>
      rating.Some? && 0.0 < rating.value < 10.0 && !IsInteger(rating.value)
    // an accepted text is non-empty and has at most 500 UTF-16 code units
    ensures ReviewTextInvalid !in errors ==>
      reviewText.Some? && reviewText.value != [] && Utf16Length(reviewText.value) <= 500
  {
    var errors := [];
    var errors := if RatingRejected(rating) then errors + [RatingInvalid] else errors;
    var errors := if ReviewTextRejected(reviewText) then errors + [ReviewTextInvalid] else errors;
    errors
  }

  predicate ListAccepted(list: Option<string>) {
    list.Some? && (list.value == "watchlist" || list.value == "wishlist" || list.value == "curatedlist")
  }

  predicate SortByAccepted(sortBy: Option<string>) {
    sortBy.Some? && (sortBy.value == "rating" || sortBy.value == "releaseYear")
  }

  /** The order is compared after lower-casing, so `"ASC"` and `"Desc"` are accepted. */
  predicate OrderAccepted(order: Option<string>) {
    order.Some? && order.value != [] && (LowerStr(order.value) == "asc" || LowerStr(order.value) == "desc")
  }

  /** Position of a sort-validation message in the order the checks run. */
  function SortCheckRank(message: string): nat {
    if message == ListInvalid then 0 else if message == SortByInvalid then 1 else 2
  }

  function ValidateSortByRatingOrReleaseYear(data: SortQuery): (errors: seq<string>)
    ensures ListInvalid in errors <==> !ListAccepted(data.list)
    ensures SortByInvalid in errors <==> !SortByAccepted(data.sortBy)
    ensures OrderInvalid in errors <==> !OrderAccepted(data.order)
    ensures forall e :: e in errors ==> e == ListInvalid || e == SortByInvalid || e == OrderInvalid
    ensures forall i, j :: 0 <= i < j < |errors| ==> SortCheckRank(errors[i]) < SortCheckRank(errors[j])
  {
    var errors := [];
    var errors := if !ListAccepted(data.list) then errors + [ListInvalid] else errors;
    var errors := if !SortByAccepted(data.sortBy) then errors + [SortByInvalid] else errors;
    var errors := if !OrderAccepted(data.order) then errors + [OrderInvalid] else errors;
    errors
  }
}
