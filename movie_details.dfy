/**
 * The details pane (frontend/src/Components/MovieDetails.jsx): review
 * hydration when an entry is opened, review submission, and the
 * recommendations strip. Its `setMovies` is the browse page's
 * `setLocalMovies`, so the catalog it writes back to is `page.movies`.
 */
module MovieDetails {
  import opened Wrappers
  import opened Text
  import opened Catalog
  import opened ReviewCodec
  import opened UserPage

  /**
   * `prev.map((m) => m.id === id ? { ...m, review: blob } : m)`: every entry
   * carrying `id` gets `blob` as its review, and only that field.
   */
  function WithReviewBlob(ms: seq<Movie>, id: Option<int>, blob: string): (r: seq<Movie>)
    ensures |r| == |ms|
    ensures forall i :: 0 <= i < |ms| && ms[i].id != id ==> r[i] == ms[i]
    ensures forall i :: 0 <= i < |ms| && ms[i].id == id ==> r[i].review == blob && r[i].(review := ms[i].review) == ms[i]
  {
    seq(|ms|, i requires 0 <= i < |ms| => if ms[i].id == id then ms[i].(review := blob) else ms[i])
  }

  /**
   * Writing the serialized list back touches only the entries with that
   * id, only in their review field, and each of them then parses back to
   * exactly that list.
   */
  lemma WritebackParsesBack(ms: seq<Movie>, id: Option<int>, rs: seq<Review>)
    ensures forall i :: 0 <= i < |ms| && ms[i].id != id ==> WithReviewBlob(ms, id, SerializeReviews(rs))[i] == ms[i]
    ensures forall i :: 0 <= i < |ms| && ms[i].id == id ==>
      WithReviewBlob(ms, id, SerializeReviews(rs))[i].(review := ms[i].review) == ms[i] &&
      ParseReviews(WithReviewBlob(ms, id, SerializeReviews(rs))[i].review) == rs
  {
    ParseSerialized(rs);
  }

  /** The first catalog entry carrying `id`, if any. */
  function FindById(ms: seq<Movie>, id: Option<int>): (r: Option<Movie>)
    ensures r.Some? ==> r.value in ms && r.value.id == id
    ensures r.None? <==> forall i :: 0 <= i < |ms| ==> ms[i].id != id
  {
    if ms == [] then None
    else if ms[0].id == id then Some(ms[0])
    else FindById(ms[1..], id)
  }

  /**
   * What `setSelectedMovie(m)` hands the pane when a recommendation card is
   * clicked: a recommendation carries only these six fields, so the rest
   * read as `undefined`, which renders and parses like the empty value.
   */
  function SummaryAsMovie(s: Summary): (r: Movie)
    ensures r.id == Some(s.id) && r.title == s.title && r.genre == s.genre
    ensures r.platform == s.platform && r.status == s.status && r.image == s.image
    ensures ParseReviews(r.review) == []
  {
    Movie(Some(s.id), s.title, "", s.genre, s.platform, s.status, 0, 0, 0, "", s.image)
  }

  /**
   * Opening a recommendation as written, then saving a review for it: the
   * pane starts from no reviews, so the blob written back holds only the
   * new review, and every review the catalog entry already had is gone
   * from the browse page's copy.
   */
  lemma RecommendationSaveDropsReviews(m: Movie, s: Summary, r: Review)
    requires m.id == Some(s.id) && ParseReviews(m.review) != []
    ensures ParseReviews(SummaryAsMovie(s).review) == []
    ensures ParseReviews(SerializeReviews(ParseReviews(SummaryAsMovie(s).review) + [r])) == [r]
    ensures [r] != ParseReviews(m.review) + [r]
  {
    assert ParseReviews(SummaryAsMovie(s).review) + [r] == [r];
    ParseSerialized([r]);
  }

  class DetailsPane {
    var movie: Movie
    var rating: int
    var review: string
    var userReviews: seq<Review>
    var recommendations: seq<Summary>
    var loadingReview: bool
    var loadingRecommendations: bool
    const page: BrowsePage

    /** Mounting the pane for `m`: the initial state followed by the effect for `m`. */
    constructor (page: BrowsePage, m: Movie)
      ensures this.page == page && movie == m
      ensures rating == 0 && review == "" && userReviews == ParseReviews(m.review)
      ensures recommendations == [] && !loadingReview && loadingRecommendations
    {
      this.page := page;
      movie := m;
      rating := 0;
      review := "";
      userReviews := ParseReviews(m.review);
      recommendations := [];
      loadingReview := false;
      loadingRecommendations := true;
    }

    /**
     * The effect that runs when the pane is shown another entry: the inputs
     * reset, the review list is read from the entry's blob (absent, empty
     * and malformed blobs all give no reviews), and the recommendation
     * request for the entry's id starts.
     */
    method Open(m: Movie) returns (requested: Option<int>)
      modifies this
      ensures movie == m && rating == 0 && review == ""
      ensures userReviews == ParseReviews(m.review)
      ensures m.review == "" ==> userReviews == []
      ensures DecodeReviews(m.review).None? ==> userReviews == []
      ensures loadingRecommendations && requested == m.id
      ensures recommendations == old(recommendations) && loadingReview == old(loadingReview)
    {
      movie := m;
      rating := 0;
      review := "";
      userReviews := ParseReviews(m.review);
      loadingRecommendations := true;
      requested := m.id;
    }

    /** The recommendation request ended: with its list, or (None) with a failure that is only logged. */
    method RecommendationsLoaded(data: Option<seq<Summary>>)
      modifies this
      ensures !loadingRecommendations
      ensures recommendations == (if data.Some? then data.value else old(recommendations))
      ensures movie == old(movie) && rating == old(rating) && review == old(review)
      ensures userReviews == old(userReviews) && loadingReview == old(loadingReview)
    {
      if data.Some? {
        recommendations := data.value;
      }
      loadingRecommendations := false;
    }

    /** Clicking a star. */
    method StarClick(star: int)
      modifies this
      ensures rating == star && review == old(review) && userReviews == old(userReviews)
      ensures movie == old(movie) && loadingReview == old(loadingReview)
      ensures recommendations == old(recommendations) && loadingRecommendations == old(loadingRecommendations)
    {
      rating := star;
    }

    /** Typing in the review box. */
    method TextChange(text: string)
      modifies this
      ensures review == text && rating == old(rating) && userReviews == old(userReviews)
      ensures movie == old(movie) && loadingReview == old(loadingReview)
      ensures recommendations == old(recommendations) && loadingRecommendations == old(loadingRecommendations)
    {
      review := text;
    }

    /**
     * The synchronous part of `handleSave`: blank text or a zero rating
     * raises the alert, sends nothing and changes nothing; otherwise the
     * request carries the rating and the text as typed, and the submitting
     * flag goes up.
     */
    method BeginSave() returns (request: Option<Review>, alerted: bool)
      modifies this
      ensures request.None? <==> IsBlank(review) || rating == 0
      ensures alerted <==> request.None?
      ensures request.Some? ==> request.value == Review(rating, review)
      ensures loadingReview == (request.Some? || old(loadingReview))
      ensures movie == old(movie) && rating == old(rating) && review == old(review)
      ensures userReviews == old(userReviews) && recommendations == old(recommendations)
      ensures loadingRecommendations == old(loadingRecommendations)
    {
      if IsBlank(review) || rating == 0 {
        return None, true;
      }
      request, alerted := Some(Review(rating, review)), false;
      loadingReview := true;
    }

    /**
     * The rest of `handleSave`, once the POST for `sent` has ended. On an
     * `ok` response the review list grows by exactly `sent`, the browse
     * page's entries with this entry's id get the new list as their blob
     * (which parses back to that list), and the inputs reset. Otherwise
     * the alert is raised and the list, the inputs and the catalog stay
     * as they were. Either way the submitting flag comes down.
     */
    method FinishSave(sent: Review, response: Outcome) returns (alerted: bool)
      modifies this, page
      ensures !loadingReview
      ensures alerted <==> response != Ok
      ensures response == Ok ==>
        userReviews == old(userReviews) + [sent] &&
        page.movies == WithReviewBlob(old(page.movies), movie.id, SerializeReviews(userReviews)) &&
        rating == 0 && review == ""
      ensures response == Ok ==> forall i :: 0 <= i < |page.movies| && page.movies[i].id == movie.id ==>
        ParseReviews(page.movies[i].review) == userReviews
      ensures response != Ok ==>
        userReviews == old(userReviews) && page.movies == old(page.movies) &&
        rating == old(rating) && review == old(review)
      ensures movie == old(movie) && page.filters == old(page.filters)
      ensures recommendations == old(recommendations) && loadingRecommendations == old(loadingRecommendations)
    {
      alerted := response != Ok;
      if response == Ok {
        var updated := userReviews + [sent];
        userReviews := updated;
        WritebackParsesBack(page.movies, movie.id, updated);
        page.movies := WithReviewBlob(page.movies, movie.id, SerializeReviews(updated));
        rating := 0;
        review := "";
      }
      loadingReview := false;
    }

    /** Clicking a recommendation card as written: the pane shows the six-field recommendation itself. */
    method SelectRecommendation(s: Summary) returns (requested: Option<int>)
      modifies this
      ensures movie == SummaryAsMovie(s) && userReviews == [] && rating == 0 && review == ""
      ensures requested == Some(s.id) && loadingRecommendations
      ensures recommendations == old(recommendations) && loadingReview == old(loadingReview)
    {
      requested := Open(SummaryAsMovie(s));
    }

    /**
     * Clicking a recommendation card as evidently intended: the pane shows
     * the browse page's own entry with that id, so its reviews are shown
     * and a later save appends to them; the six-field recommendation is the
     * fallback when the browse page holds no such entry.
     */
    method SelectRecommendationFromCatalog(s: Summary) returns (requested: Option<int>)
      modifies this
      ensures requested == Some(s.id) && movie.id == Some(s.id) && rating == 0 && review == ""
      ensures FindById(page.movies, Some(s.id)).Some? ==>
        movie == FindById(page.movies, Some(s.id)).value && movie in page.movies &&
        userReviews == ParseReviews(movie.review)
      ensures FindById(page.movies, Some(s.id)).None? ==> movie == SummaryAsMovie(s) && userReviews == []
      ensures loadingRecommendations
      ensures recommendations == old(recommendations) && loadingReview == old(loadingReview)
    {
      var found := FindById(page.movies, Some(s.id));
      if found.Some? {
        requested := Open(found.value);
      } else {
        requested := Open(SummaryAsMovie(s));
      }
    }

    /**
     * Clicking a recommendation card as written, rating it `star`, typing
     * `text` and saving, with the POST answered by `response`: when the save
     * goes through, the browse page's entries with that id end up holding
     * the new review and nothing else.
     */
    method ReviewRecommendation(s: Summary, star: int, text: string, response: Outcome) returns (saved: bool)
      modifies this, page
      ensures saved <==> !IsBlank(text) && star != 0 && response == Ok
      ensures saved ==> forall i :: 0 <= i < |page.movies| && page.movies[i].id == Some(s.id) ==>
        ParseReviews(page.movies[i].review) == [Review(star, text)]
      ensures !saved ==> page.movies == old(page.movies)
    {
      var requested := SelectRecommendation(s);
      StarClick(star);
      TextChange(text);
      var request, alerted := BeginSave();
      saved := false;
      if request.Some? {
        alerted := FinishSave(request.value, response);
        saved := response == Ok;
      }
    }

    /**
     * The same steps with the corrected selection: a successful save leaves
     * the entries with that id holding the reviews the catalog entry
     * already had, followed by the new one.
     */
    method ReviewRecommendationFromCatalog(s: Summary, star: int, text: string, response: Outcome) returns (saved: bool)
      modifies this, page
      ensures saved <==> !IsBlank(text) && star != 0 && response == Ok
      ensures saved ==> forall i :: 0 <= i < |page.movies| && page.movies[i].id == Some(s.id) ==>
        ParseReviews(page.movies[i].review) ==
          (match FindById(old(page.movies), Some(s.id))
           case Some(m) => ParseReviews(m.review)
           case None => []) + [Review(star, text)]
      ensures !saved ==> page.movies == old(page.movies)
    {
      var requested := SelectRecommendationFromCatalog(s);
      StarClick(star);
      TextChange(text);
      var request, alerted := BeginSave();
      saved := false;
      if request.Some? {
        alerted := FinishSave(request.value, response);
        saved := response == Ok;
      }
    }
  }
}
