/**
 * The browse page's filter state and the pure computations it renders
 * from: the multi-dimension filter predicate behind `filteredMovies` and
 * the genre suggestion list (frontend/src/Pages/User.jsx).
 */
module Filters {
  import opened Wrappers
  import opened Text
  import opened Seqs
  import opened Catalog

  datatype Dimension = Genre | Platform | Status

  /** The active filter values, one list per dimension, in the order they were added. */
  datatype FilterSet = FilterSet(genre: seq<string>, platform: seq<string>, status: seq<string>) {

    function Get(d: Dimension): seq<string>
    {
      match d
      case Genre => genre
      case Platform => platform
      case Status => status
    }

    /** `{ ...prev, [type]: vs }`: replaces one dimension and keeps the other two. */
    function Put(d: Dimension, vs: seq<string>): (f: FilterSet)
      ensures f.Get(d) == vs
      ensures forall e :: e != d ==> f.Get(e) == Get(e)
    {
      match d
      case Genre => this.(genre := vs)
      case Platform => this.(platform := vs)
      case Status => this.(status := vs)
    }
  }

  const NoFilters := FilterSet([], [], [])

  /** The entry's genre tags as matched: split on commas, each trimmed and lower-cased. */
  function GenreTokens(genre: string): (r: seq<string>)
    ensures |r| == |Split(genre, ',')|
  {
    var parts := Split(genre, ',');
    seq(|parts|, i requires 0 <= i < |parts| => ToLower(Trim(parts[i])))
  }

  predicate GenreMatch(m: Movie, f: FilterSet)
  {
    |f.genre| == 0 || exists g :: g in f.genre && ToLower(g) in GenreTokens(m.genre)
  }

  predicate PlatformMatch(m: Movie, f: FilterSet)
  {
    |f.platform| == 0 || exists p :: p in f.platform && ToLower(m.platform) == ToLower(p)
  }

  predicate StatusMatch(m: Movie, f: FilterSet)
  {
    |f.status| == 0 || exists s :: s in f.status && ToLower(m.status) == ToLower(s)
  }

  /**
   * An entry passes when every non-empty dimension has some value matching
   * it ignoring case: ORed within a dimension, ANDed across dimensions.
   */
  predicate Matches(m: Movie, f: FilterSet)
  {
    GenreMatch(m, f) && PlatformMatch(m, f) && StatusMatch(m, f)
  }

  function MatchesOf(f: FilterSet): Movie -> bool
  {
    m => Matches(m, f)
  }

  /** `filteredMovies`. */
  function Filter(ms: seq<Movie>, f: FilterSet): (r: seq<Movie>)
    ensures |r| <= |ms|
    ensures forall m :: m in r ==> m in ms && Matches(m, f)
  {
    Keep(ms, MatchesOf(f))
  }

  /** The catalog positions of the entries `Filter(ms, f)` shows, in display order. */
  function FilterIndices(ms: seq<Movie>, f: FilterSet): (r: seq<nat>)
    ensures |r| == |Filter(ms, f)|
  {
    KeptIndices(ms, MatchesOf(f))
  }

  /** An entry of the catalog is in the filtered view exactly when it matches the filters. */
  lemma FilterKeepsExactlyMatching(ms: seq<Movie>, f: FilterSet)
    ensures forall i :: 0 <= i < |ms| ==> (i in FilterIndices(ms, f) <==> Matches(ms[i], f))
    ensures forall m :: m in Filter(ms, f) ==> m in ms && Matches(m, f)
  {
    KeepIsSubsequence(ms, MatchesOf(f));
  }

  /** The filtered view is an order-preserving subsequence of the catalog. */
  lemma FilterIsSubsequence(ms: seq<Movie>, f: FilterSet)
    ensures |Filter(ms, f)| <= |ms|
    ensures forall k :: 0 <= k < |Filter(ms, f)| ==>
      FilterIndices(ms, f)[k] < |ms| && Filter(ms, f)[k] == ms[FilterIndices(ms, f)[k]]
    ensures forall k, l :: 0 <= k < l < |Filter(ms, f)| ==> FilterIndices(ms, f)[k] < FilterIndices(ms, f)[l]
  {
    KeepIsSubsequence(ms, MatchesOf(f));
  }

  /** With all three dimensions empty the filtered view is the whole catalog. */
  lemma EmptyFiltersKeepAll(ms: seq<Movie>)
    ensures Filter(ms, NoFilters) == ms
  {
    KeepAll(ms, MatchesOf(NoFilters));
  }

  function LowerAll(vs: seq<string>): (r: seq<string>)
    ensures |r| == |vs|
  {
    seq(|vs|, i requires 0 <= i < |vs| => ToLower(vs[i]))
  }

  /** Every filter value lower-cased. */
  function LowerFilters(f: FilterSet): FilterSet
  {
    FilterSet(LowerAll(f.genre), LowerAll(f.platform), LowerAll(f.status))
  }

  /** The case of a filter value never matters. */
  lemma MatchIgnoresFilterCase(m: Movie, f: FilterSet)
    ensures Matches(m, f) == Matches(m, LowerFilters(f))
  {
    var lf := LowerFilters(f);
    forall vs: seq<string>, w: string | w in vs
      ensures ToLower(w) in LowerAll(vs) && ToLower(ToLower(w)) == ToLower(w)
    {
      var i :| 0 <= i < |vs| && vs[i] == w;
      assert LowerAll(vs)[i] == ToLower(w);
      ToLowerIdempotent(w);
    }
    forall vs: seq<string>, w: string | w in LowerAll(vs)
      ensures exists v :: v in vs && ToLower(v) == w && ToLower(w) == ToLower(v)
    {
      var i :| 0 <= i < |vs| && LowerAll(vs)[i] == w;
      ToLowerIdempotent(vs[i]);
      assert vs[i] in vs;
    }
    assert GenreMatch(m, f) == GenreMatch(m, lf);
    assert PlatformMatch(m, f) == PlatformMatch(m, lf);
    assert StatusMatch(m, f) == StatusMatch(m, lf);
  }

  /** Every character of every piece of a split comes from the split string. */
  lemma {:induction false} SplitPiecesFrom(s: string, sep: char)
    ensures forall k, i :: 0 <= k < |Split(s, sep)| && 0 <= i < |Split(s, sep)[k]| ==> Split(s, sep)[k][i] in s
  {
    if s != [] {
      SplitPiecesFrom(s[1..], sep);
      var rest := Split(s[1..], sep);
      forall k, i | 0 <= k < |Split(s, sep)| && 0 <= i < |Split(s, sep)[k]| ensures Split(s, sep)[k][i] in s {
        var c := Split(s, sep)[k][i];
        if s[0] == sep {
          assert k >= 1 && c == rest[k - 1][i];
        } else if k == 0 {
          assert c == ([s[0]] + rest[0])[i];
          if i >= 1 {
            assert c == rest[0][i - 1];
          }
        } else {
          assert c == rest[k][i];
        }
      }
    }
  }

  /**
   * An entry whose genre field has no tag (only commas and whitespace)
   * matches no genre filter whose values are all non-empty, as the values
   * the filter controls admit are.
   */
  lemma NoTagsMatchNoGenre(m: Movie, f: FilterSet)
    requires f.genre != []
    requires forall k :: 0 <= k < |f.genre| ==> f.genre[k] != ""
    requires forall i :: 0 <= i < |m.genre| ==> IsSpace(m.genre[i]) || m.genre[i] == ','
    ensures !Matches(m, f)
  {
    var parts := Split(m.genre, ',');
    SplitPiecesFrom(m.genre, ',');
    forall k | 0 <= k < |parts| ensures GenreTokens(m.genre)[k] == "" {
      forall i | 0 <= i < |parts[k]| ensures IsSpace(parts[k][i]) {
        assert parts[k][i] in m.genre;
        assert parts[k][i] != ',';
      }
      BlankIffAllSpace(parts[k]);
    }
  }

  lemma ExampleTokens(g: string)
    requires g == "Action, Drama"
    ensures GenreTokens(g) == ["action", "drama"]
  {
    ExampleSplit();
    TokensOfTwo(g, "Action", " Drama");
    ExampleTrimLower();
  }

  lemma TokensOfTwo(g: string, a: string, b: string)
    requires Split(g, ',') == [a, b]
    ensures GenreTokens(g) == [ToLower(Trim(a)), ToLower(Trim(b))]
  {
    var t := GenreTokens(g);
    assert t[0] == ToLower(Trim(a));
    assert t[1] == ToLower(Trim(b));
  }

  lemma ExampleSplit()
    ensures Split("Action, Drama", ',') == ["Action", " Drama"]
  {
    assert Join(["Action", " Drama"], ',') == "Action, Drama";
    SplitJoin(["Action", " Drama"], ',');
  }

  lemma ExampleTrimLower()
    ensures ToLower(Trim("Action")) == "action" && ToLower(Trim(" Drama")) == "drama"
  {
    TrimOfTrimmed("Action");
    TrimDrama();
    LowerAction();
    LowerDrama();
  }

  lemma TrimDrama()
    ensures Trim(" Drama") == "Drama"
  {
    assert " Drama" == [' '] + "Drama";
    assert TrimStart(" Drama") == "Drama";
    TrimOfTrimmed("Drama");
  }

  lemma LowerAction()
    ensures ToLower("Action") == "action"
  {
    assert LowerChar('A') == 'a';
  }

  lemma LowerDrama()
    ensures ToLower("Drama") == "drama"
  {
    assert LowerChar('D') == 'd';
  }

  /** The worked example: an "Action, Drama" entry passes a "drama" genre filter and not a "comedy" one. */
  lemma GenreScenario(m: Movie)
    requires m.genre == "Action, Drama"
    ensures Filter([m], FilterSet(["drama"], [], [])) == [m]
    ensures Filter([m], FilterSet(["comedy"], [], [])) == []
  {
    ExampleTokens(m.genre);
    assert ToLower("drama") == "drama";
    assert ToLower("comedy") == "comedy";
    assert Matches(m, FilterSet(["drama"], [], []));
    assert !Matches(m, FilterSet(["comedy"], [], []));
    assert [m][..0] == [];
  }

  /** Every comma-separated piece of every entry's genre field, untrimmed, in catalog order. */
  function GenrePieces(ms: seq<Movie>): seq<string>
  {
    if ms == [] then [] else GenrePieces(ms[..|ms| - 1]) + Split(ms[|ms| - 1].genre, ',')
  }

  lemma {:induction false} GenrePiecesFrom(ms: seq<Movie>)
    ensures forall t :: t in GenrePieces(ms) <==> exists i :: 0 <= i < |ms| && t in Split(ms[i].genre, ',')
  {
    if ms != [] {
      var pre := ms[..|ms| - 1];
      GenrePiecesFrom(pre);
      forall t ensures t in GenrePieces(ms) <==> exists i :: 0 <= i < |ms| && t in Split(ms[i].genre, ',') {
        if t in GenrePieces(pre) {
          var i :| 0 <= i < |pre| && t in Split(pre[i].genre, ',');
          assert ms[i] == pre[i];
        }
        if i :| 0 <= i < |ms| && t in Split(ms[i].genre, ',') {
          if i < |pre| {
            assert ms[i] == pre[i];
          }
        }
      }
    }
  }

  /**
   * The genre suggestions (line 160): the distinct comma-separated pieces
   * of the entries' genre fields, each once.
   */
  function GenreSuggestions(ms: seq<Movie>): (r: seq<string>)
    ensures NoDups(r)
    ensures forall t :: t in r <==> exists i :: 0 <= i < |ms| && t in Split(ms[i].genre, ',')
  {
    GenrePiecesFrom(ms);
    var pieces := GenrePieces(ms);
    var r := Dedup(pieces);
    assert forall t :: t in r <==> t in pieces by {
      forall t | t in pieces ensures t in r {
        var i :| 0 <= i < |pieces| && pieces[i] == t;
      }
    }
    r
  }
}
