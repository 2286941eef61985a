/**
 * The admin page (frontend/src/Pages/Admin.jsx): a form whose fields are
 * updated one at a time, and `handleAddContent`, which resolves the
 * platform, validates, builds the draft sent to the server and appends it
 * to the application-wide catalog.
 */
module AdminPage {
  import opened Wrappers
  import opened Text
  import opened Decimal
  import opened Catalog

  /** The form state `content`; the two episode fields hold the text of number inputs. */
  datatype Form = Form(
    title: string,
    director: string,
    genre: string,
    platform: string,
    customPlatform: string,
    status: string,
    episodesWatched: string,
    totalEpisodes: string,
    rating: int,
    review: string,
    image: string)

  /** The form's initial value, which it is also reset to after an add. */
  const InitialForm := Form("", "", "", "Netflix", "", "Watching", "", "", 0, "", "")

  /** The inputs that write through `handleChange`, by their `name` attribute. */
  datatype Field = Title | Director | GenreField | Image | PlatformField | CustomPlatform
                 | StatusField | EpisodesWatched | TotalEpisodes | ReviewText

  /** `{ ...content, [name]: value }`. */
  function With(c: Form, f: Field, v: string): (r: Form)
    ensures FieldValue(r, f) == v
    ensures forall g :: g != f ==> FieldValue(r, g) == FieldValue(c, g)
    ensures r.rating == c.rating
  {
    match f
    case Title => c.(title := v)
    case Director => c.(director := v)
    case GenreField => c.(genre := v)
    case Image => c.(image := v)
    case PlatformField => c.(platform := v)
    case CustomPlatform => c.(customPlatform := v)
    case StatusField => c.(status := v)
    case EpisodesWatched => c.(episodesWatched := v)
    case TotalEpisodes => c.(totalEpisodes := v)
    case ReviewText => c.(review := v)
  }

  /** The text field that `f` names. */
  function FieldValue(c: Form, f: Field): string
  {
    match f
    case Title => c.title
    case Director => c.director
    case GenreField => c.genre
    case Image => c.image
    case PlatformField => c.platform
    case CustomPlatform => c.customPlatform
    case StatusField => c.status
    case EpisodesWatched => c.episodesWatched
    case TotalEpisodes => c.totalEpisodes
    case ReviewText => c.review
  }

  /** The platform the draft carries: the custom text exactly when "Other" is selected. */
  function ResolvePlatform(c: Form): (p: string)
    ensures c.platform == "Other" ==> p == c.customPlatform
    ensures c.platform != "Other" ==> p == c.platform
  {
    if c.platform == "Other" then c.customPlatform else c.platform
  }

  /** The choices of the platform select. */
  const PlatformOptions: seq<string> := ["Netflix", "Prime", "Disney+", "Other"]

  /**
   * With the platform taken from the select, the resolved platform is
   * blank, and the form refused for it, exactly when "Other" is chosen and
   * the custom text is blank.
   */
  lemma PlatformBlankIffCustomBlank(c: Form)
    requires c.platform in PlatformOptions
    ensures IsBlank(ResolvePlatform(c)) <==> c.platform == "Other" && IsBlank(c.customPlatform)
  {
    if c.platform == "Netflix" {
      TrimOfTrimmed("Netflix");
    } else if c.platform == "Prime" {
      TrimOfTrimmed("Prime");
    } else if c.platform == "Disney+" {
      TrimOfTrimmed("Disney+");
    }
  }

  /**
   * JavaScript's `Number` on the text of a number input, for integers:
   * surrounding white space is ignored, the empty text is 0, an optional
   * sign followed by digits is that integer, and anything else is NaN
   * (None).
   */
  function JsNumber(s: string): (r: Option<int>)
    ensures Trim(s) == "" ==> r == Some(0)
  {
    IntegerNumber(Trim(s))
  }

  /** `Number` on text already trimmed: a sign, if any, then nothing but digits. */
  function IntegerNumber(t: string): Option<int>
  {
    if t == "" then Some(0)
    else if t[0] == '+' || t[0] == '-' then
      match ParseNat(t[1..])
      case Some((n, rest)) => if rest == "" then Some(if t[0] == '-' then -1 * n else n) else None
      case None => None
    else
      match ParseNat(t)
      case Some((n, rest)) => if rest == "" then Some(n as int) else None
      case None => None
  }

  /** The decimal text of an integer reads back as that integer. */
  lemma JsNumberOfInt(i: int)
    ensures JsNumber(IntToString(i)) == Some(i)
  {
    var s := IntToString(i);
    TrimOfTrimmed(s);
    ParseIntOf(i, "");
    assert s + "" == s;
  }

  /**
   * Digits as a number input may hold them, leading zeros included, read
   * as their value, and with a sign in front as the signed value; so
   * `Number("007")` is 7, and `"00"` and `"-0"` take the fallback.
   */
  lemma JsNumberOfDigits(ds: string, d: int)
    requires |ds| >= 1 && AllDigits(ds)
    ensures JsNumber(ds) == Some(DigitsToNat(ds) as int)
    ensures JsNumber("+" + ds) == Some(DigitsToNat(ds) as int)
    ensures JsNumber("-" + ds) == Some(-1 * DigitsToNat(ds))
    ensures NumberOr(ds, d) == (if DigitsToNat(ds) == 0 then d else DigitsToNat(ds) as int)
    ensures NumberOr("-" + ds, d) == (if DigitsToNat(ds) == 0 then d else -(DigitsToNat(ds) as int))
  {
    UnsignedDigits(ds);
    PlusDigits(ds);
    MinusDigits(ds);
  }

  /** Digits alone. */
  lemma UnsignedDigits(ds: string)
    requires |ds| >= 1 && AllDigits(ds)
    ensures JsNumber(ds) == Some(DigitsToNat(ds) as int)
  {
    assert IntegerNumber(ds) == Some(DigitsToNat(ds) as int) by {
      ParseNatOfDigits(ds);
      assert ds[0] != '+' && ds[0] != '-';
    }
    assert Trim(ds) == ds by {
      assert IsDigit(ds[0]) && IsDigit(ds[|ds| - 1]);
      TrimOfTrimmed(ds);
    }
  }

  /** A sign followed by digits is read as it stands, with no white space to trim. */
  lemma SignedTrim(c: char, ds: string)
    requires c == '+' || c == '-'
    requires |ds| >= 1 && AllDigits(ds)
    ensures JsNumber([c] + ds) == IntegerNumber([c] + ds)
  {
    var t := [c] + ds;
    assert t[|t| - 1] == ds[|ds| - 1];
    assert IsDigit(ds[|ds| - 1]);
    TrimOfTrimmed(t);
  }

  /** A sign in front of a whole run of digits reads as its value, negated after a minus. */
  lemma SignedNumber(t: string, ds: string, n: nat)
    requires t != [] && (t[0] == '+' || t[0] == '-') && t[1..] == ds
    requires ParseNat(ds) == Some((n, ""))
    ensures IntegerNumber(t) == Some(if t[0] == '-' then -1 * n else n)
  {
  }

  /** Digits after a plus sign. */
  lemma PlusDigits(ds: string)
    requires |ds| >= 1 && AllDigits(ds)
    ensures JsNumber("+" + ds) == Some(DigitsToNat(ds) as int)
  {
    var t, n := "+" + ds, DigitsToNat(ds);
    ParseNatOfDigits(ds);
    assert t[0] == '+' && t[1..] == ds;
    SignedNumber(t, ds, n);
    SignedTrim('+', ds);
  }

  /** Digits after a minus sign. */
  lemma MinusDigits(ds: string)
    requires |ds| >= 1 && AllDigits(ds)
    ensures JsNumber("-" + ds) == Some(-1 * DigitsToNat(ds))
  {
    var n := DigitsToNat(ds);
    assert ParseNat(ds) == Some((n, "")) by {
      ParseNatOfDigits(ds);
    }
    MinusValue(ds, n);
  }

  /** A minus sign in front of digits that `ParseNat` reads whole. */
  lemma MinusValue(ds: string, n: nat)
    requires |ds| >= 1 && AllDigits(ds) && ParseNat(ds) == Some((n, ""))
    ensures JsNumber("-" + ds) == Some(-1 * n)
  {
    var t := "-" + ds;
    assert t[0] == '-' && t[1..] == ds;
    SignedNumber(t, ds, n);
    SignedTrim('-', ds);
  }

  /** Integer notation: digits, with an optional sign in front. */
  predicate IntegerText(t: string)
  {
    || (|t| >= 1 && AllDigits(t))
    || (|t| >= 2 && (t[0] == '+' || t[0] == '-') && AllDigits(t[1..]))
  }

  /** The text is NaN exactly when, trimmed, it is neither empty nor integer notation. */
  lemma JsNumberNaN(s: string)
    ensures JsNumber(s).None? <==> Trim(s) != "" && !IntegerText(Trim(s))
  {
    var t := Trim(s);
    if t != "" {
      if t[0] == '+' || t[0] == '-' {
        ParseNatWhole(t[1..]);
      } else {
        ParseNatWhole(t);
      }
    }
  }

  /** `Number(s) || d`: `d` when the text is NaN or zero, otherwise its value. */
  function NumberOr(s: string, d: int): (r: int)
    ensures JsNumber(s).None? || JsNumber(s) == Some(0) ==> r == d
    ensures JsNumber(s).Some? && JsNumber(s).value != 0 ==> r == JsNumber(s).value
  {
    match JsNumber(s)
    case None => d
    case Some(n) => if n == 0 then d else n
  }

  /** The fallback applies to empty text and to zero, and a non-zero fallback is never replaced by zero. */
  lemma NumberOrFallback(i: int, d: int, s: string)
    ensures NumberOr("", d) == d
    ensures NumberOr(IntToString(i), d) == (if i == 0 then d else i)
    ensures d != 0 ==> NumberOr(s, d) != 0
    ensures NumberOr(s, d) == d || JsNumber(s) == Some(NumberOr(s, d))
    ensures Trim(s) != "" && !IntegerText(Trim(s)) ==> NumberOr(s, d) == d
  {
    JsNumberOfInt(i);
    JsNumberNaN(s);
  }

  /** The body of the POST /movies request the page sends. */
  datatype Draft = Draft(
    title: string,
    director: string,
    genre: string,
    platform: string,
    status: string,
    episodesWatched: int,
    totalEpisodes: int,
    rating: int,
    review: string,
    image: string)

  /**
   * Validation and draft construction: no draft when the title, director,
   * genre or resolved platform is blank; otherwise the first three are
   * trimmed, the platform and status are taken as they are, the episode
   * counts fall back to 0 and 10, and the rating falls back to 0.
   */
  function BuildDraft(c: Form): (r: Option<Draft>)
    ensures r.None? <==> IsBlank(c.title) || IsBlank(c.director) || IsBlank(c.genre) || IsBlank(ResolvePlatform(c))
    ensures r.Some? ==>
      r.value.title == Trim(c.title) && r.value.director == Trim(c.director) && r.value.genre == Trim(c.genre) &&
      r.value.platform == ResolvePlatform(c) && r.value.status == c.status &&
      r.value.episodesWatched == NumberOr(c.episodesWatched, 0) &&
      r.value.totalEpisodes == NumberOr(c.totalEpisodes, 10) && r.value.totalEpisodes != 0 &&
      r.value.rating == c.rating && r.value.review == c.review && r.value.image == c.image
  {
    var platform := ResolvePlatform(c);
    if IsBlank(c.title) || IsBlank(c.director) || IsBlank(c.genre) || IsBlank(platform) then None
    else
      NumberOrFallback(0, 10, c.totalEpisodes);
      Some(Draft(Trim(c.title), Trim(c.director), Trim(c.genre), platform, c.status,
                 NumberOr(c.episodesWatched, 0), NumberOr(c.totalEpisodes, 10), c.rating, c.review, c.image))
  }

  /** A draft's fields are trimmed where trimming applies, and non-blank where validation demands it. */
  lemma DraftFieldsTrimmed(c: Form)
    requires BuildDraft(c).Some?
    ensures var d := BuildDraft(c).value;
      Trim(d.title) == d.title && Trim(d.director) == d.director && Trim(d.genre) == d.genre &&
      d.title != "" && d.director != "" && d.genre != "" && !IsBlank(d.platform)
  {
    TrimIdempotent(c.title);
    TrimIdempotent(c.director);
    TrimIdempotent(c.genre);
  }

  /** `{ ...newMovie, id: data.id }`: the entry as the catalog gets it. */
  function DraftMovie(d: Draft, id: Option<int>): Movie
  {
    Movie(id, d.title, d.director, d.genre, d.platform, d.status, d.episodesWatched, d.totalEpisodes,
          d.rating, d.review, d.image)
  }

  /**
   * How the POST ended: a response whose body parsed as JSON, with its
   * `ok` flag and its `id` field (absent in an error body), or an
   * exception (network failure, or a body that is not JSON).
   */
  datatype CreateReply = Replied(ok: bool, id: Option<int>) | Failed

  /** The alert the page raises. */
  datatype AdminAlert = FillFields | Added(title: string) | AddFailed

  /** What the catalog becomes after the reply, as written: any parsed response appends. */
  function CatalogAfterCreate(ms: seq<Movie>, d: Draft, reply: CreateReply): (r: seq<Movie>)
    ensures reply.Replied? ==> |r| == |ms| + 1 && r[..|ms|] == ms && r[|ms|] == DraftMovie(d, reply.id)
    ensures !(reply.Replied?) ==> r == ms
  {
    if reply.Replied? then ms + [DraftMovie(d, reply.id)] else ms
  }

  /** What the catalog becomes after the reply, as evidently intended: only an `ok` response appends. */
  function CatalogAfterCreateChecked(ms: seq<Movie>, d: Draft, reply: CreateReply): (r: seq<Movie>)
    ensures reply.Replied? && reply.ok ==> |r| == |ms| + 1 && r[..|ms|] == ms && r[|ms|] == DraftMovie(d, reply.id)
    ensures !(reply.Replied? && reply.ok) ==> r == ms
  {
    if reply.Replied? && reply.ok then ms + [DraftMovie(d, reply.id)] else ms
  }

  /** Every entry carries an id the server assigned. */
  predicate AllIdentified(ms: seq<Movie>)
  {
    forall i :: 0 <= i < |ms| ==> ms[i].id.Some?
  }

  /**
   * As written, an error response (a 500 with an `error` body and no `id`)
   * still appends the draft, and the catalog then holds an entry with no id.
   */
  lemma ErrorReplyAppendsUnidentified(ms: seq<Movie>, d: Draft)
    requires AllIdentified(ms)
    ensures CatalogAfterCreate(ms, d, Replied(false, None)) == ms + [DraftMovie(d, None)]
    ensures !AllIdentified(CatalogAfterCreate(ms, d, Replied(false, None)))
  {
    var after := CatalogAfterCreate(ms, d, Replied(false, None));
    assert after[|ms|].id == None;
  }

  /**
   * With the `ok` check, the catalog grows by the draft exactly when the
   * server accepted it and otherwise stays as it was, so as long as `ok`
   * responses carry an id, every entry keeps one.
   */
  lemma CheckedCreateKeepsIdentified(ms: seq<Movie>, d: Draft, reply: CreateReply)
    requires AllIdentified(ms)
    requires reply.Replied? && reply.ok ==> reply.id.Some?
    ensures AllIdentified(CatalogAfterCreateChecked(ms, d, reply))
    ensures reply.Replied? && reply.ok ==> CatalogAfterCreateChecked(ms, d, reply) == ms + [DraftMovie(d, reply.id)]
    ensures !(reply.Replied? && reply.ok) ==> CatalogAfterCreateChecked(ms, d, reply) == ms
  {
    var after := CatalogAfterCreateChecked(ms, d, reply);
    forall i | 0 <= i < |after| ensures after[i].id.Some? {
      if i < |ms| {
        assert after[i] == ms[i];
      }
    }
  }

  class AdminPage {
    var content: Form
    const app: CatalogStore

    constructor (app: CatalogStore)
      ensures this.app == app && content == InitialForm
    {
      this.app := app;
      content := InitialForm;
    }

    /** The mount effect: `fetched` is the body of GET /movies, or None when the request failed (only logged). */
    method Load(fetched: Option<seq<Movie>>)
      modifies app
      ensures app.movies == (if fetched.Some? then fetched.value else old(app.movies))
    {
      if fetched.Some? {
        app.movies := fetched.value;
      }
    }

    /** `handleChange`: the named input's field takes the new text. */
    method HandleChange(f: Field, v: string)
      modifies this
      ensures content == With(old(content), f, v)
      ensures FieldValue(content, f) == v && content.rating == old(content.rating)
      ensures forall g :: g != f ==> FieldValue(content, g) == FieldValue(old(content), g)
    {
      content := With(content, f, v);
    }

    /** `handleStarClick`: the rating and nothing else. */
    method StarClick(star: int)
      modifies this
      ensures content == old(content).(rating := star)
    {
      content := content.(rating := star);
    }

    /**
     * `handleAddContent` as written. An invalid form raises the "fill all
     * fields" alert and sends nothing. Otherwise the draft is sent; any
     * response whose body parses appends the draft with the body's id
     * (there is no `ok` check), resets the form and reports it added; an
     * exception reports the failure and changes nothing.
     */
    method AddContent(reply: CreateReply) returns (request: Option<Draft>, alert: AdminAlert)
      modifies this, app
      ensures request == BuildDraft(old(content))
      ensures request.None? ==> alert == FillFields && content == old(content) && app.movies == old(app.movies)
      ensures request.Some? ==> app.movies == CatalogAfterCreate(old(app.movies), request.value, reply)
      ensures request.Some? && reply.Replied? ==>
        |app.movies| == |old(app.movies)| + 1 && app.movies[..|old(app.movies)|] == old(app.movies) &&
        app.movies[|old(app.movies)|] == DraftMovie(request.value, reply.id) &&
        content == InitialForm && alert == Added(request.value.title)
      ensures request.Some? && reply.Failed? ==> alert == AddFailed && content == old(content) && app.movies == old(app.movies)
    {
      request := BuildDraft(content);
      if request.None? {
        return request, FillFields;
      }
      var d := request.value;
      match reply {
        case Replied(_, id) =>
          app.movies := app.movies + [DraftMovie(d, id)];
          content := InitialForm;
          alert := Added(d.title);
        case Failed =>
          alert := AddFailed;
      }
    }

    /** `handleAddContent` as evidently intended: a non-`ok` response is a failure like an exception. */
    method AddContentChecked(reply: CreateReply) returns (request: Option<Draft>, alert: AdminAlert)
      modifies this, app
      ensures request == BuildDraft(old(content))
      ensures request.None? ==> alert == FillFields && content == old(content) && app.movies == old(app.movies)
      ensures request.Some? ==> app.movies == CatalogAfterCreateChecked(old(app.movies), request.value, reply)
      ensures request.Some? && reply.Replied? && reply.ok ==> content == InitialForm && alert == Added(request.value.title)
      ensures request.Some? && !(reply.Replied? && reply.ok) ==> alert == AddFailed && content == old(content) && app.movies == old(app.movies)
    {
      request := BuildDraft(content);
      if request.None? {
        return request, FillFields;
      }
      var d := request.value;
      if reply.Replied? && reply.ok {
        app.movies := app.movies + [DraftMovie(d, reply.id)];
        content := InitialForm;
        alert := Added(d.title);
      } else {
        alert := AddFailed;
      }
    }
  }
}
