/**
 * The admin page and the server together: the body the page sends for a
 * draft, and what `add_movie` makes of it.
 */
module RoundTrip {
  import opened Wrappers
  import opened Text
  import opened ReviewCodec
  import opened AdminPage
  import opened Backend

  /** `JSON.stringify(newMovie)`: every member present, the genre as a string. */
  function RequestOf(d: Draft): CreateRequest
  {
    CreateRequest(Some(d.title), Some(d.director), Some(d.platform), Some(d.status), GenreText(d.genre),
                  Some(d.episodesWatched), Some(d.totalEpisodes), Some(d.rating), Some(d.review), Some(d.image))
  }

  /**
   * A draft whose title, director and genre are trimmed and non-empty and
   * whose platform and status are not blank is never refused by the
   * server: the stored row has the draft's title, director and genre, the
   * platform trimmed, the draft's counts, and an initial review exactly
   * when the draft's review text is non-empty (with the draft's rating,
   * which may be 0).
   */
  lemma WellFormedDraftAccepted(d: Draft)
    requires Trim(d.title) == d.title != "" && Trim(d.director) == d.director != "" && Trim(d.genre) == d.genre
    requires !IsBlank(d.platform) && !IsBlank(d.status)
    ensures NewRow(RequestOf(d)).Some?
    ensures var row := NewRow(RequestOf(d)).value;
      row.title == d.title && row.director == d.director && row.genre == d.genre &&
      row.platform == Trim(d.platform) && row.totalEpisodes == d.totalEpisodes &&
      ParseReviews(row.review) == (if d.review != "" then [Review(d.rating, d.review)] else [])
  {
    DraftPassesValidation(d);
    StoredDraftReviews(d);
  }

  lemma DraftPassesValidation(d: Draft)
    requires d.title != "" && d.director != "" && !IsBlank(d.platform) && !IsBlank(d.status)
    requires Trim(d.title) == d.title && Trim(d.director) == d.director
    ensures NewRow(RequestOf(d)).Some?
  {
  }

  lemma StoredDraftReviews(d: Draft)
    requires NewRow(RequestOf(d)).Some?
    ensures ParseReviews(NewRow(RequestOf(d)).value.review) == (if d.review != "" then [Review(d.rating, d.review)] else [])
  {
  }

  /**
   * So a draft the page lets through, with a status from its select, is
   * never refused by the server.
   */
  lemma DraftAcceptedByServer(c: Form)
    requires BuildDraft(c).Some?
    requires !IsBlank(c.status)
    ensures var d := BuildDraft(c).value;
      NewRow(RequestOf(d)).Some? && NewRow(RequestOf(d)).value.platform == Trim(ResolvePlatform(c))
  {
    var d := BuildDraft(c).value;
    DraftFieldsTrimmed(c);
    assert d.status == c.status && d.platform == ResolvePlatform(c);
    WellFormedDraftAccepted(d);
  }
}
