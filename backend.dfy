/**
 * The server (backend/app.py): the `movie` table as a sequence of records
 * in row-id order, the four handlers that change it, and the selection
 * done by the recommendation handler. Row ids follow SQLite's rule for an
 * integer primary key: one more than the largest id in the table, or 1
 * in an empty table.
 */
module Backend {
  import opened Wrappers
  import opened Text
  import opened Seqs
  import opened ReviewCodec
  import opened Catalog
  import opened Ranking

  /** One row of the `movie` table, without its id. */
  datatype Row = Row(
    title: string,
    director: string,
    genre: string,
    platform: string,
    status: string,
    episodesWatched: int,
    totalEpisodes: int,
    rating: int,
    review: string,
    image: string)

  datatype Record = Record(id: int, row: Row)

  /** The `genre` member of a create request: a JSON list, a string, or absent. */
  datatype GenreValue = GenreList(items: seq<string>) | GenreText(text: string) | GenreMissing

  /** The body of POST /movies; None is a missing key. */
  datatype CreateRequest = CreateRequest(
    title: Option<string>,
    director: Option<string>,
    platform: Option<string>,
    status: Option<string>,
    genre: GenreValue,
    episodesWatched: Option<int>,
    totalEpisodes: Option<int>,
    rating: Option<int>,
    review: Option<string>,
    image: Option<string>)

  /** What a handler answers: 201 with the new id, 200, 400, 404 or 500. */
  datatype Reply = Created(id: int) | Done | BadRequest | NotFound | ServerError

  function TrimAll(items: seq<string>): (r: seq<string>)
    ensures |r| == |items| && forall k :: 0 <= k < |r| ==> r[k] == Trim(items[k])
  {
    seq(|items|, k requires 0 <= k < |items| => Trim(items[k]))
  }

  /**
   * The stored genre: a list is trimmed item by item and joined with
   * commas, so that a non-empty list splits back on commas into the split
   * of each trimmed item in turn, and into exactly its trimmed items when
   * none holds a comma, which is how the browse page takes it apart
   * again; an empty list is empty; a string is kept as sent, and a
   * missing genre is empty.
   */
  function NormalizeGenre(g: GenreValue): (r: string)
    ensures g.GenreList? && g.items == [] ==> r == ""
    ensures g.GenreList? && |g.items| >= 1 ==> Split(r, ',') == SplitEach(TrimAll(g.items), ',')
    ensures g.GenreList? && |g.items| >= 1 && (forall k :: 0 <= k < |g.items| ==> ',' !in g.items[k]) ==>
      Split(r, ',') == TrimAll(g.items)
    ensures g.GenreText? ==> r == g.text
    ensures g.GenreMissing? ==> r == ""
  {
    match g
    case GenreList(items) =>
      TrimmedJoinSplits(items);
      Join(TrimAll(items), ',')
    case GenreText(t) => t
    case GenreMissing => ""
  }

  /** Joining trimmed items with commas and splitting again gives each item's pieces, and the items themselves when comma-free. */
  lemma TrimmedJoinSplits(items: seq<string>)
    ensures |items| >= 1 ==> Split(Join(TrimAll(items), ','), ',') == SplitEach(TrimAll(items), ',')
    ensures |items| >= 1 && (forall k :: 0 <= k < |items| ==> ',' !in items[k]) ==>
      Split(Join(TrimAll(items), ','), ',') == TrimAll(items)
  {
    var ts := TrimAll(items);
    if |items| >= 1 {
      SplitJoinEach(ts, ',');
    }
    if |items| >= 1 && forall k :: 0 <= k < |items| ==> ',' !in items[k] {
      forall k | 0 <= k < |ts| ensures ',' !in ts[k] {
        assert ts[k] == Trim(items[k]);
      }
      SplitJoin(ts, ',');
    }
  }

  /** The initial review: present when the review text is non-empty and a rating was sent. */
  function InitialReviews(req: CreateRequest): (r: seq<Review>)
    ensures |r| <= 1
    ensures r != [] <==> req.review.Some? && req.review.value != "" && req.rating.Some?
    ensures r != [] ==> r[0] == Review(req.rating.value, req.review.value)
  {
    if req.review.Some? && req.review.value != "" && req.rating.Some? then
      [Review(req.rating.value, req.review.value)]
    else []
  }

  /**
   * `add_movie`'s validation and row construction: no row (400) when the
   * trimmed title, director, platform or status is empty; otherwise those
   * four are stored trimmed, the counts and rating default to 0, and the
   * stored review blob reads back as the initial review list.
   */
  function NewRow(req: CreateRequest): (r: Option<Row>)
    ensures r.None? <==>
      Trim(req.title.GetOr("")) == "" || Trim(req.director.GetOr("")) == "" ||
      Trim(req.platform.GetOr("")) == "" || Trim(req.status.GetOr("")) == ""
    ensures r.Some? ==>
      r.value.title == Trim(req.title.GetOr("")) && r.value.director == Trim(req.director.GetOr("")) &&
      r.value.platform == Trim(req.platform.GetOr("")) && r.value.status == Trim(req.status.GetOr("")) &&
      r.value.genre == NormalizeGenre(req.genre) &&
      r.value.episodesWatched == req.episodesWatched.GetOr(0) &&
      r.value.totalEpisodes == req.totalEpisodes.GetOr(0) && r.value.rating == req.rating.GetOr(0) &&
      ParseReviews(r.value.review) == InitialReviews(req) && r.value.image == req.image.GetOr("")
  {
    var title := Trim(req.title.GetOr(""));
    var director := Trim(req.director.GetOr(""));
    var platform := Trim(req.platform.GetOr(""));
    var status := Trim(req.status.GetOr(""));
    if title == "" || director == "" || platform == "" || status == "" then None
    else
      ParseSerialized(InitialReviews(req));
      Some(Row(title, director, NormalizeGenre(req.genre), platform, status,
               req.episodesWatched.GetOr(0), req.totalEpisodes.GetOr(0), req.rating.GetOr(0),
               SerializeReviews(InitialReviews(req)), req.image.GetOr("")))
  }

  /** Row ids are at least 1 and strictly increase along the table. */
  predicate IdsAscending(rs: seq<Record>)
  {
    (forall i :: 0 <= i < |rs| ==> rs[i].id >= 1) &&
    (forall i, j :: 0 <= i < j < |rs| ==> rs[i].id < rs[j].id)
  }

  /** `get_or_404`: the position of the record with that id. */
  function Find(rs: seq<Record>, id: int): (r: Option<nat>)
    ensures r.Some? ==> r.value < |rs| && rs[r.value].id == id
    ensures r.None? <==> forall i :: 0 <= i < |rs| ==> rs[i].id != id
  {
    if rs == [] then None
    else if rs[|rs| - 1].id == id then Some(|rs| - 1)
    else Find(rs[..|rs| - 1], id)
  }

  /** The id the next insert gets. */
  function NextId(rs: seq<Record>): (r: int)
    requires IdsAscending(rs)
    ensures r >= 1 && forall i :: 0 <= i < |rs| ==> rs[i].id < r
  {
    if rs == [] then 1 else rs[|rs| - 1].id + 1
  }

  /** A record under the next id goes at the end of the table and keeps its ids ascending. */
  lemma AppendNewestAscending(rs: seq<Record>, rec: Record)
    requires IdsAscending(rs) && rec.id == NextId(rs)
    ensures IdsAscending(rs + [rec])
  {
    var t := rs + [rec];
    assert forall i :: 0 <= i < |t| ==> t[i] == (if i < |rs| then rs[i] else rec);
  }

  /** Replacing a row by one with the same id keeps the ids ascending. */
  lemma ReplaceKeepsAscending(rs: seq<Record>, k: nat, rec: Record)
    requires IdsAscending(rs) && k < |rs| && rec.id == rs[k].id
    ensures IdsAscending(rs[k := rec])
  {
    assert forall i :: 0 <= i < |rs| ==> rs[k := rec][i].id == rs[i].id;
  }

  /**
   * Deleting the newest row lowers the next id to one past the newest id
   * left, at most the deleted id; when the deleted id directly followed
   * the one before it (or was the only row, with id 1), that same id is
   * handed out again.
   */
  lemma DeletedNewestIdReused(rs: seq<Record>)
    requires IdsAscending(rs) && |rs| >= 1
    ensures IdsAscending(rs[..|rs| - 1])
    ensures NextId(rs[..|rs| - 1]) <= rs[|rs| - 1].id
    ensures rs[|rs| - 1].id == (if |rs| == 1 then 1 else rs[|rs| - 2].id + 1) ==>
      NextId(rs[..|rs| - 1]) == rs[|rs| - 1].id
  {
    var rest := rs[..|rs| - 1];
    if rest != [] {
      assert rest[|rest| - 1] == rs[|rs| - 2];
      assert rs[|rs| - 2].id < rs[|rs| - 1].id;
    }
  }

  function IdDiffers(id: int): Record -> bool
  {
    (r: Record) => r.id != id
  }

  /** `Movie.query.filter(Movie.id != id).all()`: every other record, in row-id order. */
  function OthersThan(rs: seq<Record>, id: int): (r: seq<Record>)
    ensures |r| <= |rs|
    ensures forall x :: x in r ==> x in rs && x.id != id
  {
    Keep(rs, IdDiffers(id))
  }

  /** In a table with unique ids, the others than the record at `k` are the table with position `k` cut out. */
  lemma OthersCutOne(rs: seq<Record>, id: int, k: nat)
    requires IdsAscending(rs) && k < |rs| && rs[k].id == id
    ensures OthersThan(rs, id) == rs[..k] + rs[k + 1..]
  {
    assert forall i :: 0 <= i < |rs| && i != k ==> rs[i].id != id;
    KeepCutOne(rs, IdDiffers(id), k);
  }

  /** Cutting out the record with `id` keeps the ids ascending, shortens the table by one and leaves `id` unknown. */
  lemma CutOneFacts(rs: seq<Record>, id: int, k: nat)
    requires IdsAscending(rs) && k < |rs| && rs[k].id == id
    ensures OthersThan(rs, id) == rs[..k] + rs[k + 1..]
    ensures IdsAscending(rs[..k] + rs[k + 1..]) && |rs[..k] + rs[k + 1..]| == |rs| - 1
    ensures Find(rs[..k] + rs[k + 1..], id).None?
  {
    OthersCutOne(rs, id, k);
    CutKeepsAscending(rs, k);
  }

  /** Cutting one record out of a table with ascending ids keeps them ascending and loses that record's id. */
  lemma CutKeepsAscending(rs: seq<Record>, k: nat)
    requires IdsAscending(rs) && k < |rs|
    ensures IdsAscending(rs[..k] + rs[k + 1..]) && |rs[..k] + rs[k + 1..]| == |rs| - 1
    ensures Find(rs[..k] + rs[k + 1..], rs[k].id).None?
  {
    var cut := rs[..k] + rs[k + 1..];
    assert forall i :: 0 <= i < |cut| ==> cut[i] == (if i < k then rs[i] else rs[i + 1]);
  }

  /** Appending a review to a stored blob: the new blob reads back as whatever the old one held, followed by the review. */
  function AppendReview(blob: string, r: Review): (b: string)
    ensures ParseReviews(b) == ParseReviews(blob) + [r]
    ensures blob == "" ==> ParseReviews(b) == [r]
  {
    ParseSerialized(ParseReviews(blob) + [r]);
    SerializeReviews(ParseReviews(blob) + [r])
  }

  function SummaryOf(rec: Record): Summary
  {
    Summary(rec.id, rec.row.title, rec.row.genre, rec.row.platform, rec.row.status, rec.row.image)
  }

  function KeyOf(score: Row -> int): Record -> Key
  {
    (rec: Record) => Key(score(rec.row), rec.row.rating)
  }

  function Min(a: int, b: int): int
  {
    if a <= b then a else b
  }

  /** The result list comprehension: one summary per ranked record, in order. */
  function Summaries(top: seq<Record>): (r: seq<Summary>)
    ensures |r| == |top| && forall k :: 0 <= k < |r| ==> r[k] == SummaryOf(top[k])
  {
    seq(|top|, k requires 0 <= k < |top| => SummaryOf(top[k]))
  }

  /**
   * `recommend_movies` over the table `rs`, where `score` gives each row's
   * genre similarity to the requested one: 404 (None) for an unknown id;
   * otherwise the others than the requested row, sorted by (similarity,
   * rating) from the highest, cut after five, as summaries.
   */
  function Recommend(rs: seq<Record>, id: int, score: Row -> int): (r: Option<seq<Summary>>)
    ensures r.None? <==> Find(rs, id).None?
  {
    if Find(rs, id).None? then None
    else
      var others := OthersThan(rs, id);
      if others == [] then Some([])
      else
        var ranked := SortDesc(others, KeyOf(score));
        Some(Summaries(ranked[..Min(5, |ranked|)]))
  }

  /**
   * No recommendation names the requested id; there are as many as the
   * other rows, up to five; and none at all exactly when the requested
   * row is alone in the table.
   */
  lemma RecommendShape(rs: seq<Record>, id: int, score: Row -> int)
    requires Find(rs, id).Some?
    ensures var r := Recommend(rs, id, score).value;
      |r| == Min(5, |OthersThan(rs, id)|) && |r| <= 5 &&
      (forall k :: 0 <= k < |r| ==> r[k].id != id) &&
      (r == [] <==> forall i :: 0 <= i < |rs| ==> rs[i].id == id)
  {
    var others := OthersThan(rs, id);
    OthersEmptyIff(rs, id);
    if others != [] {
      var ranked := SortDesc(others, KeyOf(score));
      RankedExcludesId(others, id, ranked);
    }
  }

  /** There are no others exactly when every row carries the requested id. */
  lemma OthersEmptyIff(rs: seq<Record>, id: int)
    ensures OthersThan(rs, id) == [] <==> forall i :: 0 <= i < |rs| ==> rs[i].id == id
  {
    KeepIsSubsequence(rs, IdDiffers(id));
    if OthersThan(rs, id) != [] {
      assert OthersThan(rs, id)[0] in OthersThan(rs, id);
    }
  }

  lemma RankedExcludesId(others: seq<Record>, id: int, ranked: seq<Record>)
    requires forall x :: x in others ==> x.id != id
    requires multiset(ranked) == multiset(others)
    ensures forall k :: 0 <= k < |ranked| ==> ranked[k].id != id
  {
    forall k | 0 <= k < |ranked| ensures ranked[k].id != id {
      assert ranked[k] in multiset(others);
    }
  }

  /**
   * The recommendations are the top of a ranking of all the others: the
   * ranking holds each other record exactly once, is sorted by (similarity,
   * rating) from the highest, the recommendations are its first entries,
   * and every other record left out ranks no higher than any recommended.
   */
  lemma RecommendRanked(rs: seq<Record>, id: int, score: Row -> int)
    requires Find(rs, id).Some?
    ensures var ranked := SortDesc(OthersThan(rs, id), KeyOf(score));
      var n := Min(5, |ranked|);
      multiset(ranked) == multiset(OthersThan(rs, id)) &&
      SortedDesc(ranked, KeyOf(score)) &&
      Recommend(rs, id, score) == Some(Summaries(ranked[..n])) &&
      forall i, j :: 0 <= i < n <= j < |ranked| ==> AtLeast(KeyOf(score)(ranked[i]), KeyOf(score)(ranked[j]))
  {
    var others := OthersThan(rs, id);
    SortDescSorted(others, KeyOf(score));
    if others == [] {
      assert SortDesc(others, KeyOf(score)) == [];
      assert Summaries([]) == [];
    }
  }

  class MovieTable {
    var rows: seq<Record>

    ghost predicate Valid()
      reads this
    {
      IdsAscending(rows)
    }

    constructor ()
      ensures rows == [] && Valid()
    {
      rows := [];
    }

    /**
     * `add_movie`: a request the validation refuses changes nothing;
     * otherwise the row is inserted under a fresh id, the next one after
     * every id in the table.
     */
    method AddMovie(req: CreateRequest) returns (reply: Reply)
      requires Valid()
      modifies this
      ensures Valid()
      ensures NewRow(req).None? ==> reply == BadRequest && rows == old(rows)
      ensures NewRow(req).Some? ==>
        reply == Created(NextId(old(rows))) && rows == old(rows) + [Record(reply.id, NewRow(req).value)] &&
        forall i :: 0 <= i < |old(rows)| ==> old(rows)[i].id < reply.id
    {
      var row := NewRow(req);
      if row.None? {
        return BadRequest;
      }
      var id := NextId(rows);
      AppendNewestAscending(rows, Record(id, row.value));
      rows := rows + [Record(id, row.value)];
      reply := Created(id);
    }

    /**
     * `add_review`: an unknown id gives 500, because the 404 that
     * `get_or_404` raises is caught by the handler's `except Exception`
     * and answered as an error; 400 when the trimmed text is
     * empty or the rating (0 when absent) is not positive; otherwise only
     * that row's review blob changes, to one that reads back as its old
     * list followed by the rating and the trimmed text.
     */
    method AddReview(id: int, rating: Option<int>, text: Option<string>) returns (reply: Reply)
      requires Valid()
      modifies this
      ensures Valid()
      ensures Find(old(rows), id).None? ==> reply == ServerError && rows == old(rows)
      ensures Find(old(rows), id).Some? && (Trim(text.GetOr("")) == "" || rating.GetOr(0) <= 0) ==>
        reply == BadRequest && rows == old(rows)
      ensures Find(old(rows), id).Some? && Trim(text.GetOr("")) != "" && rating.GetOr(0) > 0 ==>
        var k := Find(old(rows), id).value;
        var sent := Review(rating.GetOr(0), Trim(text.GetOr("")));
        reply == Done &&
        rows == old(rows)[k := Record(id, old(rows)[k].row.(review := AppendReview(old(rows)[k].row.review, sent)))] &&
        ParseReviews(rows[k].row.review) == ParseReviews(old(rows)[k].row.review) + [sent]
    {
      var found := Find(rows, id);
      if found.None? {
        return ServerError;
      }
      var k := found.value;
      var score := rating.GetOr(0);
      var t := Trim(text.GetOr(""));
      if t == "" || score <= 0 {
        return BadRequest;
      }
      var sent := Review(score, t);
      var rec := Record(id, rows[k].row.(review := AppendReview(rows[k].row.review, sent)));
      ReplaceKeepsAscending(rows, k, rec);
      rows := rows[k := rec];
      reply := Done;
    }

    /** `update_movie`: 404 for an unknown id; otherwise only that row's watched count changes, and only when one was sent. */
    method UpdateMovie(id: int, episodesWatched: Option<int>) returns (reply: Reply)
      requires Valid()
      modifies this
      ensures Valid()
      ensures Find(old(rows), id).None? ==> reply == NotFound && rows == old(rows)
      ensures Find(old(rows), id).Some? ==> reply == Done
      ensures Find(old(rows), id).Some? && episodesWatched.None? ==> rows == old(rows)
      ensures Find(old(rows), id).Some? && episodesWatched.Some? ==>
        var k := Find(old(rows), id).value;
        rows == old(rows)[k := Record(id, old(rows)[k].row.(episodesWatched := episodesWatched.value))]
    {
      var found := Find(rows, id);
      if found.None? {
        return NotFound;
      }
      var k := found.value;
      if episodesWatched.Some? {
        rows := rows[k := Record(id, rows[k].row.(episodesWatched := episodesWatched.value))];
      }
      reply := Done;
    }

    /** `delete_movie`: 404 for an unknown id; otherwise exactly that row leaves the table. */
    method DeleteMovie(id: int) returns (reply: Reply)
      requires Valid()
      modifies this
      ensures Valid()
      ensures Find(old(rows), id).None? ==> reply == NotFound && rows == old(rows)
      ensures Find(old(rows), id).Some? ==>
        reply == Done && rows == OthersThan(old(rows), id) && |rows| == |old(rows)| - 1 &&
        Find(rows, id).None?
    {
      var found := Find(rows, id);
      if found.None? {
        return NotFound;
      }
      var k := found.value;
      CutOneFacts(rows, id, k);
      rows := rows[..k] + rows[k + 1..];
      reply := Done;
    }
  }
}
