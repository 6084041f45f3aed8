/** The text-image endpoint's text handling: the request checks that answer
    400, the font size chosen by text length, and the markup tokenizer that
    splits a text into plain runs, `*italic*` runs and `**turquoise**`
    runs. */
module TextMarkup {
  import opened Wrappers
  import opened Strings
  import opened Tables

  // ---------------------------------------------------------------------
  // Request checks

  /** A parsed JSON request body. Numbers are integers here. */
  datatype Json =
    | JNull
    | JBool(b: bool)
    | JNumber(n: int)
    | JString(s: string)
    | JArray(items: seq<Json>)
    | JObject(fields: map<string, Json>)

  /** JavaScript truthiness of a JSON value. */
  predicate JsonTruthy(v: Json) {
    match v
    case JNull => false
    case JBool(b) => b
    case JNumber(n) => n != 0
    case JString(s) => s != []
    case _ => true
  }

  /** A 400 answer, or the text to render. */
  datatype TextRequest = BadRequest(error: string, code: string) | RenderText(text: string)

  /** The checks before rendering. `None` is a body that is not JSON
      (`request.json()` rejects and the handler substitutes `null`). */
  function CheckTextRequest(body: Option<Json>): (r: TextRequest)
    ensures r.BadRequest? && r.code == "INVALID_JSON" <==> body.None? || !JsonTruthy(body.value)
    ensures r.RenderText? <==>
      body.Some? && body.value.JObject? && "text" in body.value.fields
      && body.value.fields["text"].JString? && body.value.fields["text"].s != []
    ensures r.RenderText? ==> r.text == body.value.fields["text"].s
    ensures r.BadRequest? ==> r.code == "INVALID_JSON" || r.code == "MISSING_TEXT"
  {
    if body.None? || !JsonTruthy(body.value) then
      BadRequest("Invalid JSON in request body", "INVALID_JSON")
    else
      var v := body.value;
      // destructuring a primitive or an array finds no `text` property
      if v.JObject? && "text" in v.fields && v.fields["text"].JString? && v.fields["text"].s != [] then
        RenderText(v.fields["text"].s)
      else
        BadRequest("Text is required", "MISSING_TEXT")
  }

  // ---------------------------------------------------------------------
  // Font size

  /** `getTextFontSize`, as a number of pixels. */
  function FontSizePx(length: nat): nat {
    if length <= 10 then 120
    else if length <= 20 then 100
    else if length <= 40 then 80
    else if length <= 80 then 60
    else 48
  }

  /** The CSS value, "120px" and so on. */
  function FontSize(text: string): (css: string)
    ensures |css| >= 3 && css[|css| - 2..] == "px"
  {
    NatToString(FontSizePx(|text|)) + "px"
  }

  /** Longer text never gets a larger font, and every size is one of the
      five steps between 48 and 120 pixels. */
  lemma FontSizeNonIncreasing(a: string, b: string)
    requires |a| <= |b|
    ensures FontSizePx(|b|) <= FontSizePx(|a|)
    ensures 48 <= FontSizePx(|a|) <= 120
  {
  }

  /** The number in the CSS value is the size. */
  lemma FontSizeReadsBack(text: string)
    ensures DecimalValue(FontSize(text)[..|FontSize(text)| - 2]) == FontSizePx(|text|)
  {
    var digits := NatToString(FontSizePx(|text|));
    assert FontSize(text)[..|FontSize(text)| - 2] == digits;
    NatToStringRoundTrip(FontSizePx(|text|));
  }

  // ---------------------------------------------------------------------
  // The markup regular expression `(\*\*[^*]+\*\*|\*[^*]+\*)`

  datatype Kind = Plain | Italic | Turquoise

  /** A `span` of the output: its kind fixes its colour and font style. */
  datatype Segment = Segment(kind: Kind, text: string)

  /** A markup match: its kind and its length, markers included. */
  datatype Markup = Markup(kind: Kind, len: nat)

  predicate NoStar(s: string) {
    forall q :: 0 <= q < |s| ==> s[q] != '*'
  }

  /** No `*` in text[a..b]. */
  predicate NoStarBetween(text: string, a: nat, b: nat)
    requires a <= b <= |text|
  {
    forall q :: a <= q < b ==> text[q] != '*'
  }

  /** A markup of kind k and length len starts at position i: `**x**` or
      `*x*` with x non-empty and free of `*`. */
  predicate MarkupAt(text: string, i: nat, len: nat, k: Kind) {
    && i + len <= |text|
    && match k
      case Turquoise =>
        && len >= 5
        && text[i] == '*' && text[i + 1] == '*'
        && text[i + len - 2] == '*' && text[i + len - 1] == '*'
        && NoStarBetween(text, i + 2, i + len - 2)
      case Italic =>
        && len >= 3
        && text[i] == '*' && text[i + len - 1] == '*'
        && NoStarBetween(text, i + 1, i + len - 1)
      case Plain => false
  }

  /** The first `*` at or after k, or the end of the text. */
  function NextStar(text: string, k: nat): (j: nat)
    requires k <= |text|
    ensures k <= j <= |text|
    ensures j < |text| ==> text[j] == '*'
    ensures NoStarBetween(text, k, j)
    decreases |text| - k
  {
    if k == |text| || text[k] == '*' then k else NextStar(text, k + 1)
  }

  /** The match of the regular expression at position i: the first
      alternative `**x**` is tried before `*x*`, and `[^*]+` runs up to the
      next `*`. */
  function MatchAt(text: string, i: nat): Option<Markup>
    requires i <= |text|
  {
    if i + 1 < |text| && text[i] == '*' then
      if text[i + 1] == '*' then
        if i + 2 < |text| && text[i + 2] != '*' then
          var j := NextStar(text, i + 2);
          if j + 1 < |text| && text[j + 1] == '*' then Some(Markup(Turquoise, j + 2 - i)) else None
        else None
      else
        var j := NextStar(text, i + 1);
        if j < |text| then Some(Markup(Italic, j + 1 - i)) else None
    else None
  }

  /** A markup's closing marker is the first `*` after its opening one. */
  lemma MarkupCloses(text: string, i: nat, len: nat, k: Kind)
    requires MarkupAt(text, i, len, k)
    ensures k == Turquoise ==> NextStar(text, i + 2) == i + len - 2
    ensures k == Italic ==> NextStar(text, i + 1) == i + len - 1
  {
  }

  /** A match at i is a whole markup of its kind; conversely every markup
      that starts at i is found, and a turquoise one wins over an italic
      one. */
  lemma MatchAtSpec(text: string, i: nat)
    requires i <= |text|
    ensures MatchAt(text, i).Some? ==>
      var m := MatchAt(text, i).value;
      MarkupAt(text, i, m.len, m.kind)
    ensures forall len :: MarkupAt(text, i, len, Turquoise) ==> MatchAt(text, i) == Some(Markup(Turquoise, len))
    ensures forall len :: MarkupAt(text, i, len, Italic) ==>
      MatchAt(text, i) == Some(Markup(Italic, len)) || (MatchAt(text, i).Some? && MatchAt(text, i).value.kind == Turquoise)
  {
    forall len | MarkupAt(text, i, len, Turquoise) ensures MatchAt(text, i) == Some(Markup(Turquoise, len)) {
      MarkupCloses(text, i, len, Turquoise);
    }
    forall len | MarkupAt(text, i, len, Italic)
      ensures MatchAt(text, i) == Some(Markup(Italic, len)) || (MatchAt(text, i).Some? && MatchAt(text, i).value.kind == Turquoise)
    {
      MarkupCloses(text, i, len, Italic);
    }
  }

  /** Room for a match of kind m.kind at p: both markers and a non-empty
      inside. */
  predicate Fits(text: string, p: nat, m: Markup) {
    && p + m.len <= |text|
    && m.kind != Plain
    && m.len >= 3
    && (m.kind == Turquoise ==> m.len >= 5)
  }

  /** `markupRegex.exec(text)` with `lastIndex` at `from`: a match at or
      after `from` (the leftmost one, by NextMatchLeftmost; a markup, by
      NextMatchIsMarkup). */
  /** A match found at position `at`. */
  datatype Found = Found(at: nat, markup: Markup)

  function NextMatch(text: string, from: nat): (r: Option<Found>)
    requires from <= |text|
    ensures r.Some? ==> from <= r.value.at && Fits(text, r.value.at, r.value.markup)
    decreases |text| - from
  {
    match MatchAt(text, from)
    case Some(m) => MatchAtSpec(text, from); Some(Found(from, m))
    case None => if from == |text| then None else NextMatch(text, from + 1)
  }

  /** The match NextMatch finds is the regular expression's match at its
      position, and no match starts between `from` and it. */
  lemma {:induction false} NextMatchLeftmost(text: string, from: nat)
    requires from <= |text|
    ensures NextMatch(text, from).Some? ==>
      var f := NextMatch(text, from).value;
      MatchAt(text, f.at) == Some(f.markup) && forall q :: from <= q < f.at ==> MatchAt(text, q).None?
    ensures NextMatch(text, from).None? ==> forall q :: from <= q <= |text| ==> MatchAt(text, q).None?
    decreases |text| - from
  {
    if MatchAt(text, from).None? && from < |text| {
      NextMatchLeftmost(text, from + 1);
    }
  }

  /** What NextMatch finds is a whole markup of its kind. */
  lemma NextMatchIsMarkup(text: string, from: nat)
    requires from <= |text|
    ensures NextMatch(text, from).Some? ==>
      var f := NextMatch(text, from).value;
      MarkupAt(text, f.at, f.markup.len, f.markup.kind)
  {
    NextMatchLeftmost(text, from);
    if NextMatch(text, from).Some? {
      MatchAtSpec(text, NextMatch(text, from).value.at);
    }
  }

  /** The segment a match produces: `markup.slice(2, -2)` or
      `markup.slice(1, -1)`. */
  function MarkupSegment(text: string, p: nat, m: Markup): Segment
    requires Fits(text, p, m)
  {
    if m.kind == Turquoise then Segment(Turquoise, text[p + 2..p + m.len - 2])
    else Segment(Italic, text[p + 1..p + m.len - 1])
  }

  /** The plain span for the text between the last match and the next one,
      pushed only when that text is not empty. */
  function PlainBefore(text: string, from: nat, p: nat): seq<Segment>
    requires from <= p <= |text|
  {
    if p > from then [Segment(Plain, text[from..p])] else []
  }

  /** `parseTextWithMarkup` from position `from` on, as a value. */
  function Segments(text: string, from: nat): seq<Segment>
    requires from <= |text|
    decreases |text| - from
  {
    match NextMatch(text, from)
    case None => if from < |text| then [Segment(Plain, text[from..])] else []
    case Some(Found(p, m)) => PlainBefore(text, from, p) + [MarkupSegment(text, p, m)] + Segments(text, p + m.len)
  }

  /** The segments from `from` on, when the next match is m at p. */
  lemma SegmentsAtMatch(text: string, from: nat, p: nat, m: Markup, after: nat)
    requires from <= |text| && NextMatch(text, from) == Some(Found(p, m)) && after == p + m.len
    ensures Segments(text, from) == PlainBefore(text, from, p) + [MarkupSegment(text, p, m)] + Segments(text, after)
  {
  }

  /** The segments from `from` on, when no match is left. */
  lemma SegmentsAtEnd(text: string, from: nat)
    requires from <= |text| && NextMatch(text, from).None?
    ensures Segments(text, from) == if from < |text| then [Segment(Plain, text[from..])] else []
  {
  }

  /** `s.slice(a, -b)` in JavaScript: empty when the two ends cross. */
  function SliceInside(s: string, a: nat, b: nat): string {
    if a + b <= |s| then s[a..|s| - b] else []
  }

  /** The span the loop pushes for a matched string, chosen by its
      markers: turquoise for `**…**`, italic for `*…*`, nothing
      otherwise. */
  function Classify(markup: string): Option<Segment> {
    var n := |markup|;
    if n >= 2 && markup[0] == '*' && markup[1] == '*' && markup[n - 2] == '*' && markup[n - 1] == '*' then
      Some(Segment(Turquoise, SliceInside(markup, 2, 2)))
    else if n >= 1 && markup[0] == '*' && markup[n - 1] == '*' then
      Some(Segment(Italic, SliceInside(markup, 1, 1)))
    else None
  }

  /** On a match, the markers pick out the match's own kind and inside. */
  lemma ClassifyMatch(text: string, p: nat, m: Markup, e: nat)
    requires Fits(text, p, m) && MarkupAt(text, p, m.len, m.kind) && e == p + m.len
    ensures Classify(text[p..e]) == Some(MarkupSegment(text, p, m))
  {
    var s := text[p..e];
    if m.kind == Italic {
      assert s[1] == text[p + 1] != '*';
      SliceOfSlice(text, p, e, 1, m.len - 1);
    } else {
      SliceOfSlice(text, p, e, 2, m.len - 2);
    }
  }

  /** A segment written back with its markers. */
  function Marked(s: Segment): string {
    match s.kind
    case Plain => s.text
    case Italic => "*" + s.text + "*"
    case Turquoise => "**" + s.text + "**"
  }

  function Render(segments: seq<Segment>): string {
    if segments == [] then [] else Marked(segments[0]) + Render(segments[1..])
  }

  lemma {:induction false} RenderAppend(a: seq<Segment>, b: seq<Segment>)
    ensures Render(a + b) == Render(a) + Render(b)
  {
    if a == [] {
      assert a + b == b;
    } else {
      assert (a + b)[1..] == a[1..] + b;
      RenderAppend(a[1..], b);
    }
  }

  lemma SliceSplit(s: string, a: nat, b: nat, c: nat)
    requires a <= b <= c <= |s|
    ensures s[a..c] == s[a..b] + s[b..c]
  {
  }

  lemma SuffixSplit(s: string, a: nat, b: nat)
    requires a <= b <= |s|
    ensures s[a..] == s[a..b] + s[b..]
  {
  }

  /** Every segment has text; a marked one holds no `*`. */
  predicate WellFormed(s: Segment) {
    s.text != [] && (s.kind != Plain ==> NoStar(s.text))
  }

  /** text[p..e] is its inside between a marker at each end. */
  lemma Wrap(text: string, p: nat, e: nat, w: nat, marker: string)
    requires |marker| == w && p + 2 * w <= e <= |text|
    requires text[p..p + w] == marker && text[e - w..e] == marker
    ensures marker + text[p + w..e - w] + marker == text[p..e]
  {
    SliceSplit(text, p, p + w, e);
    SliceSplit(text, p + w, e - w, e);
  }

  lemma DoubleStar(text: string, i: nat)
    requires i + 2 <= |text| && text[i] == '*' && text[i + 1] == '*'
    ensures text[i..i + 2] == "**"
  {
  }

  lemma SingleStar(text: string, i: nat)
    requires i + 1 <= |text| && text[i] == '*'
    ensures text[i..i + 1] == "*"
  {
  }

  /** A match written back is the markup it was read from. */
  lemma MarkedMatch(text: string, p: nat, m: Markup, e: nat)
    requires Fits(text, p, m) && MarkupAt(text, p, m.len, m.kind) && e == p + m.len
    ensures Marked(MarkupSegment(text, p, m)) == text[p..e]
  {
    if m.kind == Turquoise {
      DoubleStar(text, p);
      DoubleStar(text, e - 2);
      Wrap(text, p, e, 2, "**");
    } else {
      SingleStar(text, p);
      SingleStar(text, e - 1);
      Wrap(text, p, e, 1, "*");
    }
  }

  /** The inside of a match is non-empty and free of `*`. */
  lemma MatchWellFormed(text: string, p: nat, m: Markup)
    requires Fits(text, p, m) && MarkupAt(text, p, m.len, m.kind)
    ensures WellFormed(MarkupSegment(text, p, m))
  {
    var w := if m.kind == Turquoise then 2 else 1;
    var inner := MarkupSegment(text, p, m).text;
    assert inner == text[p + w..p + m.len - w];
    assert forall q :: 0 <= q < |inner| ==> inner[q] == text[p + w + q];
  }

  lemma SliceOfSlice(text: string, a: nat, b: nat, i: nat, j: nat)
    requires a <= b <= |text| && i <= j <= b - a
    ensures text[a..b][i..j] == text[a + i..a + j]
  {
    assert forall q :: 0 <= q < j - i ==> text[a..b][i..j][q] == text[a + i + q];
  }

  lemma RenderOne(s: Segment)
    ensures Render([s]) == Marked(s)
  {
    assert [s][1..] == [];
  }

  lemma RenderThree(a: seq<Segment>, s: Segment, b: seq<Segment>)
    ensures Render(a + [s] + b) == Render(a) + Marked(s) + Render(b)
  {
    RenderAppend(a + [s], b);
    RenderAppend(a, [s]);
    RenderOne(s);
  }

  lemma RenderPlainBefore(text: string, from: nat, p: nat)
    requires from <= p <= |text|
    ensures Render(PlainBefore(text, from, p)) == text[from..p]
  {
    if p > from {
      assert [Segment(Plain, text[from..p])][1..] == [];
    }
  }

  lemma TextThree(text: string, from: nat, p: nat, e: nat)
    requires from <= p <= e <= |text|
    ensures text[from..] == text[from..p] + text[p..e] + text[e..]
  {
    SuffixSplit(text, from, p);
    SuffixSplit(text, p, e);
  }

  /** One step of the round trip: the plain text before a match, the match
      and the segments after it write back to the text from `from` on. */
  lemma RoundTripStep(text: string, from: nat, p: nat, m: Markup, e: nat, rest: seq<Segment>)
    requires from <= p && Fits(text, p, m) && MarkupAt(text, p, m.len, m.kind) && e == p + m.len
    requires Render(rest) == text[e..]
    ensures Render(PlainBefore(text, from, p) + [MarkupSegment(text, p, m)] + rest) == text[from..]
  {
    RenderThree(PlainBefore(text, from, p), MarkupSegment(text, p, m), rest);
    RenderPlainBefore(text, from, p);
    MarkedMatch(text, p, m, e);
    TextThree(text, from, p, e);
  }

  /** The text after the last match is one plain span. */
  lemma PlainTail(text: string, from: nat)
    requires from <= |text|
    ensures Render(if from < |text| then [Segment(Plain, text[from..])] else []) == text[from..]
  {
    if from < |text| {
      assert Render([Segment(Plain, text[from..])]) == Marked(Segment(Plain, text[from..])) + Render([]);
    }
  }

  /** The segments cover the text from `from` on, left to right, with no
      gap and no overlap: writing them back with their markers gives the
      text. */
  lemma {:induction false} SegmentsRoundTrip(text: string, from: nat)
    requires from <= |text|
    ensures Render(Segments(text, from)) == text[from..]
    decreases |text| - from
  {
    match NextMatch(text, from)
    case None =>
      SegmentsAtEnd(text, from);
      PlainTail(text, from);
    case Some(Found(p, m)) =>
      var next := p + m.len;
      SegmentsAtMatch(text, from, p, m, next);
      SegmentsRoundTrip(text, next);
      NextMatchIsMarkup(text, from);
      RoundTripStep(text, from, p, m, next, Segments(text, next));
  }

  /** Every segment has text, marked ones hold no `*`, and no plain segment
      is followed by another. */
  predicate AllWellFormed(segments: seq<Segment>) {
    && (forall k :: 0 <= k < |segments| ==> WellFormed(segments[k]))
    && (forall k :: 0 <= k < |segments| - 1 && segments[k].kind == Plain ==> segments[k + 1].kind != Plain)
  }

  lemma WellFormedStep(text: string, from: nat, p: nat, m: Markup, rest: seq<Segment>)
    requires from <= p && Fits(text, p, m) && MarkupAt(text, p, m.len, m.kind)
    requires AllWellFormed(rest)
    ensures AllWellFormed(PlainBefore(text, from, p) + [MarkupSegment(text, p, m)] + rest)
  {
    MatchWellFormed(text, p, m);
    var before := PlainBefore(text, from, p);
    var seg := MarkupSegment(text, p, m);
    var all := before + [seg] + rest;
    forall k | 0 <= k < |all| ensures WellFormed(all[k]) {
      if k > |before| {
        assert all[k] == rest[k - |before| - 1];
      }
    }
    forall k | 0 <= k < |all| - 1 && all[k].kind == Plain ensures all[k + 1].kind != Plain {
      if k > |before| {
        assert all[k] == rest[k - |before| - 1];
        assert all[k + 1] == rest[k - |before|];
      }
    }
  }

  /** Plain segments are never empty, marked ones have a non-empty inside
      free of `*`, and no two plain segments are adjacent. */
  lemma {:induction false} SegmentsWellFormed(text: string, from: nat)
    requires from <= |text|
    ensures AllWellFormed(Segments(text, from))
    decreases |text| - from
  {
    match NextMatch(text, from)
    case None =>
      SegmentsAtEnd(text, from);
    case Some(Found(p, m)) =>
      var next := p + m.len;
      SegmentsAtMatch(text, from, p, m, next);
      SegmentsWellFormed(text, next);
      NextMatchIsMarkup(text, from);
      WellFormedStep(text, from, p, m, Segments(text, next));
  }

  /** A text without `*` is one plain segment, or none when it is empty. */
  lemma PlainText(text: string)
    requires NoStar(text)
    ensures Segments(text, 0) == if text == [] then [] else [Segment(Plain, text)]
  {
    NextMatchIsMarkup(text, 0);
    assert text[0..] == text;
  }

  /** `**x**` alone is one turquoise segment whose text is x, for any
      non-empty x without `*`. */
  lemma WholeTurquoise(x: string)
    requires x != [] && NoStar(x)
    ensures Segments("**" + x + "**", 0) == [Segment(Turquoise, x)]
  {
    var text := "**" + x + "**";
    var n := |text|;
    assert forall q :: 2 <= q < n - 2 ==> text[q] == x[q - 2];
    assert MarkupAt(text, 0, n, Turquoise);
    MatchAtSpec(text, 0);
    assert NextMatch(text, 0) == Some(Found(0, Markup(Turquoise, n)));
    assert text[2..n - 2] == x;
    SegmentsAtMatch(text, 0, 0, Markup(Turquoise, n), n);
    SegmentsAtEnd(text, n);
  }

  /** `*x*` alone is one italic segment whose text is x, for any non-empty
      x without `*`. */
  lemma WholeItalic(x: string)
    requires x != [] && NoStar(x)
    ensures Segments("*" + x + "*", 0) == [Segment(Italic, x)]
  {
    var text := "*" + x + "*";
    var n := |text|;
    assert forall q :: 1 <= q < n - 1 ==> text[q] == x[q - 1];
    assert MarkupAt(text, 0, n, Italic);
    assert MatchAt(text, 0) == Some(Markup(Italic, n)) by {
      MarkupCloses(text, 0, n, Italic);
      assert text[1] != '*';
    }
    assert NextMatch(text, 0) == Some(Found(0, Markup(Italic, n)));
    assert text[1..n - 1] == x;
    SegmentsAtMatch(text, 0, 0, Markup(Italic, n), n);
    SegmentsAtEnd(text, n);
  }

  /** `parseTextWithMarkup`: the `while` loop over `markupRegex.exec`. */
  method ParseTextWithMarkup(text: string) returns (result: seq<Segment>)
    ensures result == Segments(text, 0)
  {
    result := [];
    var currentIndex := 0;
    var next := NextMatch(text, 0);
    while next.Some?
      invariant currentIndex <= |text|
      invariant next == NextMatch(text, currentIndex)
      invariant result + Segments(text, currentIndex) == Segments(text, 0)
      decreases |text| - currentIndex
    {
      var index, m := next.value.at, next.value.markup;
      var after := index + m.len;
      var markup := text[index..after];
      ghost var done := result;
      ghost var before := PlainBefore(text, currentIndex, index);
      ghost var seg := MarkupSegment(text, index, m);
      ghost var rest := Segments(text, after);
      SegmentsAtMatch(text, currentIndex, index, m, after);
      if index > currentIndex {
        result := result + [Segment(Plain, text[currentIndex..index])];
      }
      assert result == done + before;
      NextMatchIsMarkup(text, currentIndex);
      ClassifyMatch(text, index, m, after);
      var span := Classify(markup);
      if span.Some? {
        result := result + [span.value];
      }
      AppendAssoc(done, before, [seg]);
      AppendAssoc(done, before + [seg], rest);
      currentIndex := after;
      next := NextMatch(text, currentIndex);
    }
    SegmentsAtEnd(text, currentIndex);
    if currentIndex < |text| {
      result := result + [Segment(Plain, text[currentIndex..])];
    }
  }

  /** The colour and font style of each kind of span. */
  function SpanStyle(k: Kind): (string, string) {
    match k
    case Turquoise => ("#40E0D0", "normal")
    case Italic => ("#ffffff", "italic")
    case Plain => ("#ffffff", "normal")
  }
}
