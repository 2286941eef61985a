/**
 * The browse page (frontend/src/Pages/User.jsx): its own copy of the
 * catalog, its filter state, and the handlers that load, filter, update
 * episode progress and delete. Every `setLocalMovies` writes `movies`;
 * every `setMovies` writes the application-wide `app.movies`.
 */
module UserPage {
  import opened Wrappers
  import opened Text
  import opened Seqs
  import opened Catalog
  import opened Filters

  /** The values of one filter dimension: none twice, none blank. */
  ghost predicate DimensionOk(vs: seq<string>)
  {
    NoDups(vs) && forall k :: 0 <= k < |vs| ==> !IsBlank(vs[k])
  }

  function DiffersFrom(value: string): string -> bool
  {
    v => v != value
  }

  /** `prev[type].filter((v) => v !== value)`. */
  function Without(vs: seq<string>, value: string): (r: seq<string>)
    ensures value !in r
    ensures forall x :: x in r ==> x in vs
  {
    Keep(vs, DiffersFrom(value))
  }

  /**
   * Removing a filter value leaves it absent, keeps every other value in
   * its order, and changes nothing when the value was not there.
   */
  lemma WithoutRemoves(vs: seq<string>, value: string)
    ensures value !in Without(vs, value)
    ensures forall k :: 0 <= k < |KeptIndices(vs, DiffersFrom(value))| ==> KeptIndices(vs, DiffersFrom(value))[k] < |vs|
    ensures forall k :: 0 <= k < |KeptIndices(vs, DiffersFrom(value))| ==>
      Without(vs, value)[k] == vs[KeptIndices(vs, DiffersFrom(value))[k]]
    ensures forall k, l :: 0 <= k < l < |KeptIndices(vs, DiffersFrom(value))| ==>
      KeptIndices(vs, DiffersFrom(value))[k] < KeptIndices(vs, DiffersFrom(value))[l]
    ensures forall i :: 0 <= i < |vs| ==> (i in KeptIndices(vs, DiffersFrom(value)) <==> vs[i] != value)
    ensures value !in vs ==> Without(vs, value) == vs
  {
    KeepIsSubsequence(vs, DiffersFrom(value));
    if value !in vs {
      KeepAll(vs, DiffersFrom(value));
    }
  }

  function IdDiffers(id: Option<int>): Movie -> bool
  {
    (m: Movie) => m.id != id
  }

  /** `prev.filter((m) => m.id !== movieId)`. */
  function RemoveById(ms: seq<Movie>, id: Option<int>): (r: seq<Movie>)
    ensures |r| <= |ms|
    ensures forall m :: m in r ==> m in ms && m.id != id
  {
    Keep(ms, IdDiffers(id))
  }

  /**
   * Deleting by id removes exactly the entries carrying that id and keeps
   * the others in their order; an id no entry carries changes nothing.
   */
  lemma RemoveByIdRemovesExactly(ms: seq<Movie>, id: Option<int>)
    ensures forall m :: m in RemoveById(ms, id) ==> m in ms && m.id != id
    ensures forall i :: 0 <= i < |ms| ==> (i in KeptIndices(ms, IdDiffers(id)) <==> ms[i].id != id)
    ensures forall k :: 0 <= k < |KeptIndices(ms, IdDiffers(id))| ==> KeptIndices(ms, IdDiffers(id))[k] < |ms|
    ensures forall k :: 0 <= k < |KeptIndices(ms, IdDiffers(id))| ==>
      RemoveById(ms, id)[k] == ms[KeptIndices(ms, IdDiffers(id))[k]]
    ensures forall k, l :: 0 <= k < l < |KeptIndices(ms, IdDiffers(id))| ==>
      KeptIndices(ms, IdDiffers(id))[k] < KeptIndices(ms, IdDiffers(id))[l]
    ensures (forall i :: 0 <= i < |ms| ==> ms[i].id != id) ==> RemoveById(ms, id) == ms
  {
    KeepIsSubsequence(ms, IdDiffers(id));
    if forall i :: 0 <= i < |ms| ==> ms[i].id != id {
      KeepAll(ms, IdDiffers(id));
    }
  }

  /**
   * The index mix-up in `handleEpisodesChange`: when the first catalog
   * entry is hidden by the filters, moving the slider of the first visible
   * card changes that hidden entry, and the visible list, the slider's own
   * card included, stays exactly as it was.
   */
  lemma VisibleIndexMisapplied(ms: seq<Movie>, f: FilterSet, value: int)
    requires |Filter(ms, f)| >= 1
    requires !Matches(ms[0], f)
    ensures var after := ms[0 := ms[0].(episodesWatched := value)];
      Filter(ms, f)[0] != ms[0] && Filter(after, f) == Filter(ms, f)
  {
    FilterIsSubsequence(ms, f);
    FilterKeepsExactlyMatching(ms, f);
    assert Filter(ms, f)[0] in Filter(ms, f);
    var after := ms[0 := ms[0].(episodesWatched := value)];
    assert !Matches(after[0], f);
    KeepAgree(ms, after, MatchesOf(f));
  }

  class BrowsePage {
    var movies: seq<Movie>
    var filters: FilterSet
    const app: CatalogStore

    /** Every filter dimension holds distinct, non-blank values. */
    ghost predicate Valid()
      reads this
    {
      DimensionOk(filters.genre) && DimensionOk(filters.platform) && DimensionOk(filters.status)
    }

    constructor (app: CatalogStore)
      ensures this.app == app && movies == [] && filters == NoFilters && Valid()
    {
      this.app := app;
      movies := [];
      filters := NoFilters;
    }

    /** The mount effect: `fetched` is the body of GET /movies, or None when the request failed (only logged). */
    method Load(fetched: Option<seq<Movie>>)
      modifies this, app
      ensures filters == old(filters)
      ensures fetched.Some? ==> movies == fetched.value && app.movies == fetched.value
      ensures fetched.None? ==> movies == old(movies) && app.movies == old(app.movies)
    {
      if fetched.Some? {
        movies := fetched.value;
        app.movies := fetched.value;
      }
    }

    /** `filteredMovies`, recomputed on every render. */
    function FilteredMovies(): seq<Movie>
      reads this
    {
      Filter(movies, filters)
    }

    /**
     * `handleAddFilter`: a blank value, or one already in that dimension
     * (compared exactly), changes nothing; otherwise the value goes at the
     * end of that dimension and the other two stay as they were.
     */
    method AddFilter(d: Dimension, value: string)
      requires Valid()
      modifies this
      ensures Valid() && movies == old(movies)
      ensures IsBlank(value) || value in old(filters.Get(d)) ==> filters == old(filters)
      ensures !IsBlank(value) && value !in old(filters.Get(d)) ==> filters.Get(d) == old(filters.Get(d)) + [value]
      ensures forall e :: e != d ==> filters.Get(e) == old(filters.Get(e))
    {
      if IsBlank(value) {
        return;
      }
      var current := filters.Get(d);
      if value !in current {
        filters := filters.Put(d, current + [value]);
        assert DimensionOk(current + [value]);
        assert forall e :: DimensionOk(filters.Get(e)) ==> DimensionOk(old(filters).Get(e)) || e == d;
        match d {
          case Genre => assert DimensionOk(filters.genre);
          case Platform => assert DimensionOk(filters.platform);
          case Status => assert DimensionOk(filters.status);
        }
      }
    }

    /** `handleRemoveFilter`: drops every occurrence of the value from one dimension. */
    method RemoveFilter(d: Dimension, value: string)
      requires Valid()
      modifies this
      ensures Valid() && movies == old(movies)
      ensures filters.Get(d) == Without(old(filters.Get(d)), value)
      ensures forall e :: e != d ==> filters.Get(e) == old(filters.Get(e))
    {
      var current := filters.Get(d);
      var kept := Without(current, value);
      KeepNoDups(current, DiffersFrom(value));
      assert DimensionOk(kept) by {
        forall k | 0 <= k < |kept| ensures !IsBlank(kept[k]) {
          assert kept[k] in current;
        }
      }
      filters := filters.Put(d, kept);
      match d {
        case Genre => assert DimensionOk(filters.genre);
        case Platform => assert DimensionOk(filters.platform);
        case Status => assert DimensionOk(filters.status);
      }
    }

    /**
     * `handleEpisodesChange(index, value)` as written: `index` is the
     * card's position in the filtered list, but the copy that is changed is
     * the full catalog, at that same position. Both copies of the catalog
     * get the result, and the PATCH goes to that entry's id. `patch` is how
     * the PATCH ended: whatever it is, nothing is rolled back.
     */
    method EpisodesChange(index: nat, value: int, patch: Outcome) returns (patchedId: Option<int>)
      requires index < |FilteredMovies()|
      modifies this, app
      ensures movies == old(movies)[index := old(movies)[index].(episodesWatched := value)]
      ensures app.movies == movies
      ensures patchedId == old(movies)[index].id
      ensures filters == old(filters)
    {
      FilterIsSubsequence(movies, filters);
      var updated := movies[index := movies[index].(episodesWatched := value)];
      movies := updated;
      app.movies := updated;
      patchedId := updated[index].id;
    }

    /**
     * The evidently intended `handleEpisodesChange`: the card at visible
     * position `k` stands for catalog position `FilterIndices(movies,
     * filters)[k]`, and that entry, the one the slider shows, is the one
     * changed.
     */
    method EpisodesChangeVisible(k: nat, value: int, patch: Outcome) returns (position: nat, patchedId: Option<int>)
      requires k < |FilteredMovies()|
      modifies this, app
      ensures position < |old(movies)| && position == FilterIndices(old(movies), old(filters))[k]
      ensures old(movies)[position] == old(FilteredMovies())[k]
      ensures movies == old(movies)[position := old(FilteredMovies())[k].(episodesWatched := value)]
      ensures app.movies == movies
      ensures patchedId == old(FilteredMovies())[k].id
      ensures filters == old(filters)
    {
      FilterIsSubsequence(movies, filters);
      position := FilterIndices(movies, filters)[k];
      var updated := movies[position := movies[position].(episodesWatched := value)];
      movies := updated;
      app.movies := updated;
      patchedId := updated[position].id;
    }

    /**
     * `handleDeleteMovie`: nothing is requested unless the user confirmed;
     * entries leave both copies of the catalog only after an `ok` response;
     * a non-`ok` response raises an alert; an exception is only logged.
     */
    method DeleteMovie(movieId: Option<int>, confirmed: bool, response: Outcome) returns (requested: bool, alerted: bool)
      modifies this, app
      ensures requested == confirmed
      ensures alerted == (confirmed && response == NotOk)
      ensures confirmed && response == Ok ==>
        movies == RemoveById(old(movies), movieId) && app.movies == RemoveById(old(app.movies), movieId)
      ensures !(confirmed && response == Ok) ==> movies == old(movies) && app.movies == old(app.movies)
      ensures filters == old(filters)
    {
      requested, alerted := false, false;
      if !confirmed {
        return;
      }
      requested := true;
      match response {
        case Ok =>
          movies := RemoveById(movies, movieId);
          app.movies := RemoveById(app.movies, movieId);
        case NotOk =>
          alerted := true;
        case Thrown =>
      }
    }
  }
}
