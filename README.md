# MovieMate core in Dafny

MovieMate is a personal catalog of movies and series. A React front end
lets a user browse the catalog, narrow it with genre, platform and status
filters, track episode progress, delete entries, and read and write
reviews. An admin page adds new entries. A Flask server keeps the catalog
in one SQLite table and suggests similar entries.

This project models that core and proves properties of the model:

- **Browse page** (`UserPage.BrowsePage`): a class whose fields are the page's state (`movies`, `filters`). It writes the application-wide catalog `app` (`Catalog.CatalogStore`, the `movies` state of `App.jsx`). The filter predicate and the genre suggestions are pure functions in `Filters`.
- **Details pane** (`MovieDetails.DetailsPane`): review hydration when an entry is opened, and review submission. Submission is split into the synchronous validation (`BeginSave`) and what happens once the POST has ended (`FinishSave`). It writes back to the browse page's own copy of the catalog, because the page passes `setLocalMovies` as the pane's `setMovies`.
- **Admin page** (`AdminPage.AdminPage`): the form state, plus the pure pipeline of platform resolution, validation and draft construction (`ResolvePlatform`, `BuildDraft`, `NumberOr`).
- **Server** (`Backend.MovieTable`): the table as a sequence of records in row-id order, with the handlers that change it (`AddMovie`, `AddReview`, `UpdateMovie`, `DeleteMovie`):
  - new ids follow SQLite's rule for an integer primary key: one past the largest id, or 1 in an empty table;
  - the recommendation handler is the pure function `Backend.Recommend`. It takes the genre similarity as a parameter and uses the stable descending sort of `Ranking`.
- **Review blob** (`ReviewCodec`): the serialized list of `{rating, review}` pairs both sides store in the `review` field. It has an encoder, a decoder, and the fallback every reader uses: an empty or unreadable blob is an empty list.
- **Admin page and server together** (`RoundTrip`): what the server makes of a draft the admin page sends.

Network calls are inputs. A response is an `Outcome` (`Ok`, `NotOk`, `Thrown`) or a reply type of that handler's own. A fetched body is an `Option` (`None` for a failed fetch). `window.confirm` is a boolean parameter, and each `alert` is a result.

Where the system's documented behaviour and the code disagree, the model follows the code:

- deleting is not optimistic: entries leave the page only after an `ok` response;
- a failed delete request that throws raises no alert, it is only logged;
- the admin page does not check `res.ok` (Finding 3);
- a failed episode update is not rolled back;
- `add_review` answers an unknown id with 500, not 404, because the 404 raised by `get_or_404` is caught by the handler's `except Exception`.

## Model

| member | source | states |
|---|---|---|
| Text.Trim | frontend/src/Pages/User.jsx:68 | the result is the slice of the input left between a whitespace-only start and a whitespace-only end, and has no whitespace at either end |
| Text.BlankIffAllSpace | frontend/src/Pages/User.jsx:68 | a string is blank after trimming exactly when every character is whitespace |
| Text.TrimIdempotent | backend/app.py:60-63 | trimming an already trimmed value changes nothing, so the server's `strip` of a trimmed draft field is the identity |
| Text.ToLower | frontend/src/Pages/User.jsx:82 | the result has the input's length, holds no upper-case letter, keeps every other character, and turns each upper-case letter into its lower-case partner 32 code points on |
| Text.Split | frontend/src/Pages/User.jsx:82 | splitting gives at least one piece and no piece contains the separator |
| Text.JoinSplit | frontend/src/Pages/User.jsx:82 | joining the pieces of a split with the same separator gives back the string, so the pieces are exactly the text between separators |
| Text.SplitJoin | backend/app.py:69 | joining separator-free pieces with the separator and splitting again gives back the pieces |
| Text.SplitAround | backend/app.py:69 | a separator between two strings splits the whole into the pieces of the first followed by the pieces of the second |
| Text.SplitJoinEach | backend/app.py:69 | splitting what a join produced gives each piece's own split in turn, so a separator inside a piece cuts it apart too |
| Seqs.KeepIsSubsequence | frontend/src/Pages/User.jsx:81 | `filter` keeps exactly the elements satisfying the predicate, at strictly increasing positions, in order |
| Seqs.Dedup | frontend/src/Pages/User.jsx:160 | `Array.from(new Set(...))` has no duplicates and holds exactly the elements of its input |
| Decimal.ParseIntOf | frontend/src/Pages/Admin.jsx:47-48 | the decimal text of any integer, followed by a non-digit or nothing, parses back to that integer and that rest |
| ReviewCodec.ParseReviews | frontend/src/Components/MovieDetails.jsx:17-26 | an empty blob and an unreadable blob both give no reviews; a non-empty blob that decodes gives exactly its decoded list |
| ReviewCodec.DecodeReviews | frontend/src/Components/MovieDetails.jsx:19 | only text that opens a JSON list decodes to a review list |
| ReviewCodec.SerializeReviews | frontend/src/Components/MovieDetails.jsx:69 | the written blob is list text, never empty, so every reader decodes it rather than taking the empty-blob branch; ParseSerialized is its inverse |
| ReviewCodec.DecodeSerialized | backend/app.py:119-130 | decoding a serialized review list gives back exactly that list |
| ReviewCodec.ParseSerialized | frontend/src/Components/MovieDetails.jsx:64-69 | reading back the written blob, fallback included, gives exactly the list that was written |
| ReviewCodec.MalformedIsEmpty | frontend/src/Components/MovieDetails.jsx:18-23 | any blob that does not open a JSON list, such as `not-valid-data`, reads as no reviews instead of failing |
| Filters.FilterSet.Put | frontend/src/Pages/User.jsx:71 | replacing one dimension's values leaves the other two dimensions as they were |
| Filters.Filter | frontend/src/Pages/User.jsx:81-92 | the shown list is no longer than the catalog and holds only catalog entries that pass the filters |
| Filters.FilterKeepsExactlyMatching | frontend/src/Pages/User.jsx:81-92 | an entry is shown exactly when each non-empty dimension has a value matching it ignoring case (genre against the trimmed comma-separated tags, platform and status by equality); dimensions are ANDed |
| Filters.FilterIsSubsequence | frontend/src/Pages/User.jsx:81 | the filtered list is an order-preserving subsequence of the catalog |
| Filters.EmptyFiltersKeepAll | frontend/src/Pages/User.jsx:84-89 | with all three dimensions empty, the filtered list is the whole catalog |
| Filters.MatchIgnoresFilterCase | frontend/src/Pages/User.jsx:85-89 | lower-casing every filter value changes no entry's verdict |
| Filters.NoTagsMatchNoGenre | frontend/src/Pages/User.jsx:82-85 | an entry whose genre field holds only commas and whitespace passes no non-empty genre filter |
| Filters.GenreScenario | frontend/src/Pages/User.jsx:82-85 | an "Action, Drama" entry passes a "drama" genre filter and fails a "comedy" one |
| Filters.GenreSuggestions | frontend/src/Pages/User.jsx:160 | the suggestions hold no duplicates and hold a string exactly when it is a comma-separated piece of some entry's genre field |
| UserPage.WithoutRemoves | frontend/src/Pages/User.jsx:78 | after removal the value is absent, the remaining values keep their order, and an absent value changes nothing |
| UserPage.Without | frontend/src/Pages/User.jsx:78 | the removed value is absent afterwards and every remaining value was there before |
| UserPage.RemoveByIdRemovesExactly | frontend/src/Pages/User.jsx:57-58 | deleting by id drops exactly the entries with that id and keeps the rest in order; an unknown id changes nothing |
| UserPage.RemoveById | frontend/src/Pages/User.jsx:57-58 | the result is no longer than the catalog and holds only catalog entries whose id differs from the deleted one |
| UserPage.BrowsePage.constructor | frontend/src/Pages/User.jsx:7-9 | the page starts with an empty catalog and no filters |
| UserPage.BrowsePage.Load | frontend/src/Pages/User.jsx:13-20 | a fetched list becomes both the page's and the application's catalog; a failed fetch changes neither |
| UserPage.BrowsePage.AddFilter | frontend/src/Pages/User.jsx:67-75 | a blank or already present value (exact comparison) changes nothing; otherwise it is appended to that dimension only; each dimension stays duplicate-free and blank-free |
| UserPage.BrowsePage.RemoveFilter | frontend/src/Pages/User.jsx:77-79 | that dimension becomes its old values without the removed one, the others stay, and the filter invariant is kept |
| UserPage.BrowsePage.EpisodesChange | frontend/src/Pages/User.jsx:34-49 | both catalogs become the old catalog with only `episodesWatched` of the entry at the given index changed; the PATCH goes to that entry's id whatever its outcome, with no rollback |
| UserPage.VisibleIndexMisapplied | frontend/src/Pages/User.jsx:214-247 | when the first catalog entry is filtered out, the first card's slider changes that hidden entry and the visible list stays exactly as it was |
| UserPage.BrowsePage.EpisodesChangeVisible | frontend/src/Pages/User.jsx:34-38 | the card at visible position k changes the catalog entry that card shows, at its catalog position, and nothing else |
| UserPage.BrowsePage.DeleteMovie | frontend/src/Pages/User.jsx:51-65 | nothing is requested without confirmation; only an `ok` response removes the entries with that id from both catalogs; a non-`ok` response alerts; an exception changes nothing and does not alert |
| MovieDetails.WritebackParsesBack | frontend/src/Components/MovieDetails.jsx:68-70 | the write-back changes only the review field of entries with the open entry's id, and each such field parses back to exactly the written list |
| MovieDetails.WithReviewBlob | frontend/src/Components/MovieDetails.jsx:68-70 | the catalog keeps its length; entries with another id are unchanged; entries with this id get the blob and change in nothing else |
| MovieDetails.DetailsPane.constructor | frontend/src/Components/MovieDetails.jsx:4-41 | mounting gives rating 0, empty text, the entry's parsed reviews, and the recommendation request pending |
| MovieDetails.DetailsPane.Open | frontend/src/Components/MovieDetails.jsx:12-41 | opening an entry resets rating and text, reads its reviews with the empty/malformed fallback, and requests recommendations for its id |
| MovieDetails.DetailsPane.RecommendationsLoaded | frontend/src/Components/MovieDetails.jsx:31-39 | the loading flag comes down; a list replaces the recommendations, a failure keeps them; reviews and inputs are untouched |
| MovieDetails.DetailsPane.StarClick | frontend/src/Components/MovieDetails.jsx:115 | a star sets the rating; the text, the review list, the entry, the recommendations and both loading flags stay |
| MovieDetails.DetailsPane.TextChange | frontend/src/Components/MovieDetails.jsx:126 | typing sets the text; the rating, the review list, the entry, the recommendations and both loading flags stay |
| MovieDetails.DetailsPane.BeginSave | frontend/src/Components/MovieDetails.jsx:44-51 | no request and no state change, only the alert, exactly when the text is blank or the rating is 0; otherwise the request is the rating and the text as typed, and the submitting flag goes up |
| MovieDetails.DetailsPane.FinishSave | frontend/src/Components/MovieDetails.jsx:53-81 | on `ok`: the list becomes old plus the sent review, the browse page's entries with this id get a blob that parses back to it, and the inputs reset; on failure: alert, and list, inputs and catalog unchanged; the flag is down either way |
| MovieDetails.DetailsPane.SelectRecommendation | frontend/src/Components/MovieDetails.jsx:177 | a clicked recommendation opens as its six-field summary, with no reviews and reset inputs; the recommendation request for its id starts (loading flag up), and the recommendations and the submitting flag stay |
| MovieDetails.RecommendationSaveDropsReviews | frontend/src/Components/MovieDetails.jsx:177 | for an entry that has reviews, saving after opening it from a recommendation writes back a blob holding only the new review |
| MovieDetails.SummaryAsMovie | frontend/src/Components/MovieDetails.jsx:177 | the entry opened from a summary carries the summary's id, title, genre, platform, status and image, and no reviews |
| MovieDetails.DetailsPane.ReviewRecommendation | frontend/src/Components/MovieDetails.jsx:44-81 | selecting a recommendation as written, rating, typing and saving: the save goes through exactly when the text is not blank, the rating is not 0 and the response is `ok`; then the browse page's entries with that id parse to the new review alone; otherwise the catalog is unchanged |
| MovieDetails.DetailsPane.SelectRecommendationFromCatalog | frontend/src/Components/MovieDetails.jsx:177 | a clicked recommendation opens the browse page's entry with that id and its reviews, falling back to the summary with no reviews when there is none; the request for the id starts (loading flag up), and the recommendations and the submitting flag stay |
| MovieDetails.FindById | frontend/src/Components/MovieDetails.jsx:177 | the result is an entry of the catalog with that id, and there is none exactly when no entry has it |
| MovieDetails.DetailsPane.ReviewRecommendationFromCatalog | frontend/src/Components/MovieDetails.jsx:44-81 | selecting a recommendation as corrected, rating, typing and saving: the save goes through exactly when the text is not blank, the rating is not 0 and the response is `ok`; then the browse page's entries with that id parse to the catalog entry's earlier reviews followed by the new one; otherwise the catalog is unchanged |
| AdminPage.With | frontend/src/Pages/Admin.jsx:26-28 | a change writes the value into the named field, leaves every other field and the rating as they were |
| AdminPage.PlatformBlankIffCustomBlank | frontend/src/Pages/Admin.jsx:35-36 | with the platform taken from the select, the resolved platform is blank, so the form is refused for it, exactly when "Other" is chosen and the custom text is blank |
| AdminPage.JsNumber | frontend/src/Pages/Admin.jsx:47-48 | empty or all-whitespace text is 0 |
| AdminPage.JsNumberOfInt | frontend/src/Pages/Admin.jsx:47-48 | the decimal text of any integer reads back as that integer |
| AdminPage.JsNumberNaN | frontend/src/Pages/Admin.jsx:47-48 | the text is NaN exactly when, trimmed, it is neither empty nor an optional sign followed by one or more digits |
| AdminPage.JsNumberOfDigits | frontend/src/Pages/Admin.jsx:47-49 | digit text, leading zeros included, reads as its value, with a plus sign as the same value and with a minus sign as its negation; with the fallback, all-zero text ("00", "-0") gives the fallback and any other digit text, bare or after a minus sign, gives its value |
| AdminPage.NumberOrFallback | frontend/src/Pages/Admin.jsx:47-49 | the result is either the fallback or the number the text reads as; empty text and NaN text give the fallback; an integer's text gives that integer, or the fallback for 0; a non-zero fallback never yields 0 |
| AdminPage.BuildDraft | frontend/src/Pages/Admin.jsx:35-52 | no draft exactly when the title, director, genre or resolved platform is blank; otherwise title, director and genre are trimmed, the episode counts fall back to 0 and 10 (so the total is never 0), and the rating passes through |
| AdminPage.DraftFieldsTrimmed | frontend/src/Pages/Admin.jsx:42-44 | a draft's title, director and genre are non-empty and already trimmed, and its platform is not blank |
| AdminPage.ErrorReplyAppendsUnidentified | frontend/src/Pages/Admin.jsx:60-63 | an error response that has no id still appends the draft, leaving an entry without an id |
| AdminPage.CatalogAfterCreate | frontend/src/Pages/Admin.jsx:63 | as written, any parsed response grows the catalog by exactly the draft with the answered id, at the end, earlier entries unchanged; an exception leaves it as it was |
| AdminPage.CheckedCreateKeepsIdentified | frontend/src/Pages/Admin.jsx:60-63 | with the `ok` check, the catalog grows by the draft exactly on `ok` and otherwise stays; every entry keeps an id |
| AdminPage.CatalogAfterCreateChecked | frontend/src/Pages/Admin.jsx:63 | with the `ok` check, only an `ok` response grows the catalog, by exactly the draft at the end; anything else leaves it as it was |
| AdminPage.AdminPage.constructor | frontend/src/Pages/Admin.jsx:4-16 | the form starts at its initial value |
| AdminPage.AdminPage.Load | frontend/src/Pages/Admin.jsx:19-24 | a fetched list becomes the application's catalog; a failed fetch changes nothing |
| AdminPage.AdminPage.HandleChange | frontend/src/Pages/Admin.jsx:26-28 | only the named field changes |
| AdminPage.AdminPage.StarClick | frontend/src/Pages/Admin.jsx:30-32 | only the rating changes |
| AdminPage.AdminPage.AddContent | frontend/src/Pages/Admin.jsx:34-85 | invalid form: alert, nothing sent, nothing changed; any parsed response: exactly one entry (draft plus the answered id) appended at the end, earlier entries unchanged, form reset, title announced; exception: alert, nothing changed |
| AdminPage.AdminPage.AddContentChecked | frontend/src/Pages/Admin.jsx:54-63 | as above, except that a non-`ok` response is a failure that changes nothing |
| Ranking.Insert | backend/app.py:163-166 | insertion adds exactly the one element |
| Ranking.InsertSorted | backend/app.py:163-166 | inserting into a descending list keeps it descending |
| Ranking.SortDesc | backend/app.py:163-166 | sorting is a permutation |
| Ranking.SortDescSorted | backend/app.py:163-166 | the sorted list is descending by (similarity, rating) |
| Backend.NormalizeGenre | backend/app.py:67-71 | an empty genre list is stored as the empty string; a non-empty list is stored so that splitting it on commas gives the comma-split of each stripped item in turn, which for items without commas is exactly the stripped items; a string is kept as sent and a missing genre is empty |
| Backend.NewRow | backend/app.py:58-89 | 400 exactly when the stripped title, director, platform or status is empty; otherwise those four are stored stripped, the genre normalised, counts and rating default to 0, and the blob reads back as the initial review list |
| Backend.Find | backend/app.py:102 | the position found holds the requested id, and there is none exactly when no row has it |
| Backend.NextId | backend/app.py:91-93 | the new id is at least 1 and larger than every id in the table |
| Backend.AppendNewestAscending | backend/app.py:91-93 | inserting under the next id keeps the ids ascending |
| Backend.DeletedNewestIdReused | backend/app.py:102-104 | after deleting the newest row the next id is at most the deleted one, and equal to it when the deleted id directly followed its predecessor |
| Backend.OthersCutOne | backend/app.py:152 | with unique ids, the rows other than the requested one are the table with that one row cut out |
| Backend.OthersThan | backend/app.py:152 | the other rows are no more than the table and are rows of the table whose id differs from the requested one |
| Backend.CutOneFacts | backend/app.py:102-104 | cutting out the row keeps ids ascending, shortens the table by one, and leaves the id unknown |
| Backend.AppendReview | backend/app.py:118-130 | the new blob reads back as the old list (empty when the blob was empty or unreadable) followed by the new review |
| Backend.Recommend | backend/app.py:150-180 | 404 exactly for an unknown id |
| Backend.RecommendShape | backend/app.py:152-167 | no recommendation names the requested id; their number is that of the other rows up to five; there are none exactly when no other row exists |
| Backend.OthersEmptyIff | backend/app.py:152-154 | there are no other rows exactly when every row has the requested id |
| Backend.RecommendRanked | backend/app.py:163-167 | the recommendations are the first five of a descending ranking holding each other row once, and no row left out ranks above one chosen |
| Backend.MovieTable.constructor | backend/app.py:31-32 | the table starts empty |
| Backend.MovieTable.AddMovie | backend/app.py:55-93 | a refused request changes nothing (400); otherwise exactly one row is appended under a fresh id, one past every existing id, which is returned |
| Backend.MovieTable.AddReview | backend/app.py:108-136 | unknown id: 500 and no change; blank stripped text or non-positive rating: 400 and no change; otherwise only that row's blob changes, and it reads back as the old list plus the rating and stripped text |
| Backend.MovieTable.UpdateMovie | backend/app.py:139-146 | unknown id: 404 and no change; otherwise only that row's watched count changes, and only when one was sent |
| Backend.MovieTable.DeleteMovie | backend/app.py:100-105 | unknown id: 404 and no change; otherwise exactly that row leaves the table, the others keep their order, and the id is then unknown |
| RoundTrip.WellFormedDraftAccepted | backend/app.py:58-89 | a trimmed, non-blank draft is stored with its title, director, genre and total, the platform stripped, and an initial review exactly when its text is non-empty (even with rating 0) |
| RoundTrip.DraftAcceptedByServer | frontend/src/Pages/Admin.jsx:36-58 | a draft the admin page lets through, with a status from its select, is never refused with 400 by the server |

## Left out

- Text.Trim: whitespace is the ASCII space and `\t` to `\r`. JavaScript's `trim` and Python's `strip` also remove other Unicode spaces, and Python's `strip` also removes the ASCII separators `\x1c` to `\x1f`, which JavaScript's `trim` and the model keep.
- Text.ToLower: lower-cases ASCII letters only. `toLowerCase` maps every Unicode letter.
- AdminPage.JsNumber: reads only an optional sign followed by digits. Text with a fraction, an exponent, a hex prefix or "Infinity" reads as NaN, so it takes the fallback. JavaScript's `Number("1.5")` is 1.5.
- ReviewCodec: one canonical text stands for both `JSON.stringify` and `json.dumps` output. The two differ in whitespace after `:` and `,`, and `json.dumps` also writes every non-ASCII character as a `\uXXXX` escape, where `JSON.stringify` writes it as it is. Both parsers read either form as the same list; the model writes only the canonical form and decodes only it.
- ReviewCodec: only `"` and `\` are escaped; control characters and `\u` escapes are not.
- ReviewCodec.ParseReviews: any JSON value that is not a list of `{rating, review}` objects with an integer rating and a string text counts as unreadable. In the source, `JSON.parse` hands such a value to `setUserReviews` as it is. On the server, `add_review` fails with 500 when the stored value is not a list (an object, a string, `null`), and appends to it when it is a list of something else.
- Backend.MovieTable.AddReview: for a stored blob that is a JSON list but not a review list, such as `[1]`, the source keeps the old items and appends the new review after them; the model reads that blob as no reviews and stores the new review alone. A stored non-list value, for which the source answers 500, is also read as no reviews.
- Seqs.Dedup: the result holds each distinct element once, but the order (first occurrence, as `new Set` keeps it) is not stated; the same holds for Filters.GenreSuggestions, which is built on it.
- Ratings are integers. The server stores them as floats and the progress bar divides as floats; floating point is not modelled.
- Backend.Recommend: the cosine similarity over `CountVectorizer` genre vectors is a foreign floating-point library. It is an integer-valued function parameter. The empty-vocabulary error that library raises is not modelled.
- Ranking.SortDesc: the sort is stable, as Python's is, but tie order (row-id order among equal keys) is not stated as a proved property; so Backend.RecommendRanked does not fix the order of equally scored recommendations either.
- Backend: requests are typed. Type errors the handlers answer with 500 are not modelled: `int()` of a non-number, a JSON `null` for a string or rating, a failed commit.
- Backend: SQLAlchemy sessions, Flask routing, CORS and `get_movies` are not modelled. The pages' `Load` takes the fetched list as a parameter.
- HTTP and `fetch`: every response is a parameter of the handler that awaits it.
- Async interleaving is not modelled: stale closures in `handleSave`, out-of-order responses, and a second submission while one is pending. Each await is a separate method call.
- `window.confirm` and `alert` are a boolean parameter and results.
- UserPage.BrowsePage.EpisodesChange: the slider's string value is taken already converted by `Number`.
- Rendering is not modelled: the carousel, the styles, the progress bar, the genre text box's own state (`genreInput`) and the pane's close button.
- frontend/src/Components/Header.jsx and the routing in frontend/src/App.jsx hold no logic. App's `movies` state is `Catalog.CatalogStore`.

## Findings

| source | as written | input that shows it | evidently intended | confidence | as-written member | corrected member |
|---|---|---|---|---|---|---|
| frontend/src/Pages/User.jsx:34-36 | the slider passes its card's index in the filtered list (line 247), and the handler updates that index of the full catalog | catalog [A with genre "Comedy", B with genre "Drama"], genre filter "drama", the only card (B) moved to 3: A's count becomes 3, B's card is unchanged, and the PATCH goes to A's id | update the entry the card shows | not executed; high | UserPage.BrowsePage.EpisodesChange, UserPage.VisibleIndexMisapplied | UserPage.BrowsePage.EpisodesChangeVisible |
| frontend/src/Components/MovieDetails.jsx:177 | a clicked recommendation is opened as the six-field summary the server sent, so its `review` is undefined | entry 2 has one stored review and is opened from a recommendation: the pane shows no reviews; saving rating 4 with "Nice" writes back a blob holding only that review | open the catalog's own entry with that id, keeping its reviews | not executed; medium | MovieDetails.DetailsPane.SelectRecommendation, MovieDetails.RecommendationSaveDropsReviews, MovieDetails.DetailsPane.ReviewRecommendation | MovieDetails.DetailsPane.SelectRecommendationFromCatalog, MovieDetails.DetailsPane.ReviewRecommendationFromCatalog |
| frontend/src/Pages/Admin.jsx:60-63 | any response whose body parses appends the draft with `data.id`, resets the form and reports success | the server answers 500 with `{"error": ...}`, for instance on a failed commit: an entry with an undefined id is appended and "Added" is shown | treat a non-`ok` response as a failure, like an exception | not executed; high | AdminPage.AdminPage.AddContent, AdminPage.ErrorReplyAppendsUnidentified | AdminPage.AdminPage.AddContentChecked, AdminPage.CheckedCreateKeepsIdentified |
