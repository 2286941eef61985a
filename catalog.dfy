/**
 * The browser's catalog entities and the application-wide catalog state
 * (`movies` in frontend/src/App.jsx) that the browse and admin pages share.
 */
module Catalog {
  import opened Wrappers

  /**
   * One catalog entry as the browser holds it. `id` is None for
   * JavaScript's `undefined`; `review` is the serialized review blob (or,
   * for an entry the admin page appended, the raw review text it sent).
   */
  datatype Movie = Movie(
    id: Option<int>,
    title: string,
    director: string,
    genre: string,
    platform: string,
    status: string,
    episodesWatched: int,
    totalEpisodes: int,
    rating: int,
    review: string,
    image: string)

  /** One recommendation as the server sends it. */
  datatype Summary = Summary(id: int, title: string, genre: string, platform: string, status: string, image: string)

  /** How a request ended: an `ok` response, a non-`ok` response, or a thrown exception. */
  datatype Outcome = Ok | NotOk | Thrown

  /** The catalog held by the application root and written by both pages through `setMovies`. */
  class CatalogStore {
    var movies: seq<Movie>

    constructor ()
      ensures movies == []
    {
      movies := [];
    }
  }
}
