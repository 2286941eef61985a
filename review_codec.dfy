/**
 * The review blob stored in a movie's `review` column and field: a
 * serialized list of rating/text pairs, written as
 * `[{"rating":5,"review":"text"},...]`, with `"` and `\` in the text
 * escaped by a backslash. Both the browser and the server read it with the
 * same fallback: an empty or unreadable blob is an empty list.
 */
module ReviewCodec {
  import opened Wrappers
  import opened Decimal

  /** One review: a rating and its text. */
  datatype Review = Review(rating: int, text: string)

  function Escape(t: string): string
  {
    if t == [] then []
    else (if t[0] == '"' || t[0] == '\\' then ['\\', t[0]] else [t[0]]) + Escape(t[1..])
  }

  /** A string literal: quotes around the escaped text. */
  function Quote(t: string): string
  {
    "\"" + Escape(t) + "\""
  }

  const RatingKey := "{\"rating\":"
  const TextKey := ",\"review\":"

  function EncodeReview(r: Review): string
  {
    RatingKey + IntToString(r.rating) + TextKey + Quote(r.text) + "}"
  }

  function EncodeItems(rs: seq<Review>): string
  {
    if |rs| == 0 then ""
    else if |rs| == 1 then EncodeReview(rs[0])
    else EncodeReview(rs[0]) + "," + EncodeItems(rs[1..])
  }

  /** `JSON.stringify(reviews)` / `json.dumps(reviews)`. */
  function SerializeReviews(rs: seq<Review>): (r: string)
    ensures |r| >= 2 && r[0] == '[' && r[|r| - 1] == ']'
  {
    "[" + EncodeItems(rs) + "]"
  }

  /** Removes the literal prefix `p` from `s`, if `s` starts with it. */
  function StripPrefix(p: string, s: string): (r: Option<string>)
    ensures r.Some? ==> |r.value| == |s| - |p|
  {
    if |p| <= |s| && s[..|p|] == p then Some(s[|p|..]) else None
  }

  /** Reads the rest of a string literal after its opening quote, returning the text and what follows the closing quote. */
  function ParseStringBody(s: string): (r: Option<(string, string)>)
    ensures r.Some? ==> |r.value.1| < |s|
  {
    if s == [] then None
    else if s[0] == '"' then Some(([], s[1..]))
    else if s[0] == '\\' then
      if |s| < 2 then None
      else
        match ParseStringBody(s[2..])
        case None => None
        case Some((t, rest)) => Some(([s[1]] + t, rest))
    else
      match ParseStringBody(s[1..])
      case None => None
      case Some((t, rest)) => Some(([s[0]] + t, rest))
  }

  function ParseString(s: string): (r: Option<(string, string)>)
    ensures r.Some? ==> |r.value.1| < |s|
  {
    if s != [] && s[0] == '"' then ParseStringBody(s[1..]) else None
  }

  /** Reads one encoded review at the front of `s` and returns what follows it. */
  function DecodeReview(s: string): (r: Option<(Review, string)>)
    ensures r.Some? ==> |r.value.1| < |s|
  {
    match StripPrefix(RatingKey, s)
    case None => None
    case Some(s1) => DecodeRating(s1)
  }

  function DecodeRating(s: string): (r: Option<(Review, string)>)
    ensures r.Some? ==> |r.value.1| < |s|
  {
    match ParseInt(s)
    case None => None
    case Some((rating, rest)) => DecodeTextKey(rating, rest)
  }

  function DecodeTextKey(rating: int, s: string): (r: Option<(Review, string)>)
    ensures r.Some? ==> |r.value.1| < |s|
  {
    match StripPrefix(TextKey, s)
    case None => None
    case Some(rest) => DecodeText(rating, rest)
  }

  function DecodeText(rating: int, s: string): (r: Option<(Review, string)>)
    ensures r.Some? ==> |r.value.1| < |s|
  {
    match ParseString(s)
    case None => None
    case Some((text, rest)) => DecodeClose(Review(rating, text), rest)
  }

  function DecodeClose(r: Review, s: string): (res: Option<(Review, string)>)
    ensures res.Some? ==> |res.value.1| < |s|
  {
    match StripPrefix("}", s)
    case None => None
    case Some(rest) => Some((r, rest))
  }

  /** Reads one or more comma-separated reviews followed by the closing `]` that ends the input. */
  function DecodeItems(s: string): Option<seq<Review>>
    decreases |s|
  {
    match DecodeReview(s)
    case None => None
    case Some((r, rest)) =>
      if rest == "]" then Some([r])
      else if rest != [] && rest[0] == ',' then
        match DecodeItems(rest[1..])
        case None => None
        case Some(rs) => Some([r] + rs)
      else None
  }

  /** `JSON.parse(raw)` / `json.loads(raw)` for a review list; None when `raw` is not one. */
  function DecodeReviews(raw: string): (r: Option<seq<Review>>)
    ensures r.Some? ==> raw != [] && raw[0] == '['
  {
    if raw == "[]" then Some([])
    else
      match StripPrefix("[", raw)
      case None => None
      case Some(t) => DecodeItems(t)
  }

  /**
   * What both sides make of a stored blob: the empty blob and an
   * unreadable one both give the empty list, anything else its decoding.
   */
  function ParseReviews(raw: string): (r: seq<Review>)
    ensures raw == "" ==> r == []
    ensures DecodeReviews(raw).None? ==> r == []
    ensures r == [] || DecodeReviews(raw) == Some(r)
    ensures raw != "" && DecodeReviews(raw).Some? ==> r == DecodeReviews(raw).value
  {
    if raw == "" then []
    else
      match DecodeReviews(raw)
      case Some(rs) => rs
      case None => []
  }

  lemma {:induction false} ParseStringBodyOf(t: string, rest: string)
    ensures ParseStringBody(Escape(t) + "\"" + rest) == Some((t, rest))
  {
    var s := Escape(t) + "\"" + rest;
    if t == [] {
      assert s == "\"" + rest;
    } else {
      var tail := Escape(t[1..]) + "\"" + rest;
      ParseStringBodyOf(t[1..], rest);
      if t[0] == '"' || t[0] == '\\' {
        assert s == ['\\', t[0]] + tail;
        assert s[2..] == tail;
      } else {
        assert s == [t[0]] + tail;
        assert s[1..] == tail;
      }
      assert [t[0]] + t[1..] == t;
    }
  }

  lemma StripPrefixOf(p: string, rest: string)
    ensures StripPrefix(p, p + rest) == Some(rest)
  {
    assert (p + rest)[..|p|] == p;
    assert (p + rest)[|p|..] == rest;
  }

  /** An encoded review reads back as itself, whatever follows it. */
  lemma DecodeReviewOf(r: Review, rest: string)
    ensures DecodeReview(EncodeReview(r) + rest) == Some((r, rest))
  {
    var s4 := "}" + rest;
    var s3 := Quote(r.text) + s4;
    var s2 := TextKey + s3;
    var s1 := IntToString(r.rating) + s2;
    assert EncodeReview(r) + rest == RatingKey + s1;
    DecodeReviewStep(s1);
    DecodeRatingStep(r.rating, s3);
    DecodeTextKeyStep(r.rating, s3);
    DecodeTextOf(r, s4);
    DecodeCloseStep(r, rest);
  }

  lemma DecodeReviewStep(s1: string)
    ensures DecodeReview(RatingKey + s1) == DecodeRating(s1)
  {
    StripPrefixOf(RatingKey, s1);
  }

  lemma DecodeRatingStep(rating: int, s3: string)
    ensures DecodeRating(IntToString(rating) + (TextKey + s3)) == DecodeTextKey(rating, TextKey + s3)
  {
    assert (TextKey + s3)[0] == ',';
    ParseIntOf(rating, TextKey + s3);
  }

  lemma DecodeTextKeyStep(rating: int, s3: string)
    ensures DecodeTextKey(rating, TextKey + s3) == DecodeText(rating, s3)
  {
    StripPrefixOf(TextKey, s3);
  }

  lemma DecodeCloseStep(r: Review, rest: string)
    ensures DecodeClose(r, "}" + rest) == Some((r, rest))
  {
    StripPrefixOf("}", rest);
  }

  lemma DecodeTextOf(r: Review, s4: string)
    ensures DecodeText(r.rating, Quote(r.text) + s4) == DecodeClose(r, s4)
  {
    var s3 := Quote(r.text) + s4;
    assert s3 == ['"'] + (Escape(r.text) + "\"" + s4);
    assert s3[1..] == Escape(r.text) + "\"" + s4;
    ParseStringBodyOf(r.text, s4);
    assert ParseString(s3) == Some((r.text, s4));
  }

  lemma {:induction false} DecodeItemsOf(rs: seq<Review>)
    requires |rs| >= 1
    ensures DecodeItems(EncodeItems(rs) + "]") == Some(rs)
  {
    if |rs| == 1 {
      assert EncodeItems(rs) == EncodeReview(rs[0]);
      DecodeItemsSingle(rs[0]);
      assert rs == [rs[0]];
    } else {
      var tail := EncodeItems(rs[1..]) + "]";
      DecodeItemsOf(rs[1..]);
      EncodeItemsCons(rs);
      DecodeItemsCons(rs[0], tail, rs[1..]);
      assert [rs[0]] + rs[1..] == rs;
    }
  }

  lemma DecodeItemsSingle(r: Review)
    ensures DecodeItems(EncodeReview(r) + "]") == Some([r])
  {
    DecodeReviewOf(r, "]");
  }

  lemma EncodeItemsCons(rs: seq<Review>)
    requires |rs| >= 2
    ensures EncodeItems(rs) + "]" == EncodeReview(rs[0]) + ("," + (EncodeItems(rs[1..]) + "]"))
  {
    Regroup(EncodeReview(rs[0]), ",", EncodeItems(rs[1..]), "]");
  }

  lemma Regroup(a: string, b: string, c: string, d: string)
    ensures (a + b + c) + d == a + (b + (c + d))
  {
  }

  lemma DecodeItemsCons(r: Review, tail: string, rs: seq<Review>)
    requires DecodeItems(tail) == Some(rs)
    ensures DecodeItems(EncodeReview(r) + ("," + tail)) == Some([r] + rs)
  {
    DecodeReviewOf(r, "," + tail);
    assert ("," + tail)[1..] == tail;
    assert "," + tail != "]";
  }

  /** Reading a serialized review list gives back exactly that list. */
  lemma DecodeSerialized(rs: seq<Review>)
    ensures DecodeReviews(SerializeReviews(rs)) == Some(rs)
  {
    if |rs| >= 1 {
      var body := EncodeItems(rs) + "]";
      assert SerializeReviews(rs) == "[" + body;
      assert EncodeReview(rs[0]) <= EncodeItems(rs);
      assert SerializeReviews(rs) != "[]";
      StripPrefixOf("[", body);
      DecodeItemsOf(rs);
    }
  }

  /** Serialize-then-parse is the identity: a written blob shows exactly the list it was written from. */
  lemma ParseSerialized(rs: seq<Review>)
    ensures ParseReviews(SerializeReviews(rs)) == rs
  {
    DecodeSerialized(rs);
  }

  /** A blob that does not open a list, such as the text `not-valid-data`, reads as no reviews. */
  lemma MalformedIsEmpty(raw: string)
    requires raw == [] || raw[0] != '['
    ensures ParseReviews(raw) == []
  {
  }
}
