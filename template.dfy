/** The HTML page rendered into a quote image: the four text fields are
    HTML-escaped, the two headline font sizes follow the text lengths, and
    the author line appears only for a non-empty author. The fixed CSS and
    markup around the slots is abbreviated to the parts that depend on the
    data. */
module QuoteTemplate {
  import opened Wrappers
  import opened Strings
  import opened Sanitization

  // ---------------------------------------------------------------------
  // Font sizes

  /** The core-value headline: 44px, or 40px above 20 characters. */
  function CoreFontPx(length: nat): nat {
    if length > 20 then 40 else 44
  }

  /** The quote: 84px up to 60 characters, 76px up to 100, 68px above. */
  function QuoteFontPx(length: nat): nat {
    if length > 100 then 68 else if length > 60 then 76 else 84
  }

  /** A pixel size as a CSS value. */
  function Css(px: nat): (css: string)
    ensures |css| >= 3 && css[|css| - 2..] == "px"
  {
    NatToString(px) + "px"
  }

  function CoreFontSize(coreValue: string): string {
    Css(CoreFontPx(|coreValue|))
  }

  function QuoteFontSize(quote: string): string {
    Css(QuoteFontPx(|quote|))
  }

  /** The sizes are exactly the five configured steps. */
  lemma FontSizeSteps()
    ensures Css(CoreFontPx(0)) == "44px" && Css(CoreFontPx(21)) == "40px"
    ensures Css(QuoteFontPx(0)) == "84px" && Css(QuoteFontPx(61)) == "76px"
    ensures Css(QuoteFontPx(101)) == "68px"
  {
    TwoDigits(44);
    TwoDigits(40);
    TwoDigits(84);
    TwoDigits(76);
    TwoDigits(68);
  }

  lemma TwoDigits(n: nat)
    requires 10 <= n < 100
    ensures NatToString(n) == [DigitChar(n / 10), DigitChar(n % 10)]
  {
  }

  /** Longer text never gets a larger font, and each size stays within
      its configured range. */
  lemma FontSizeNonIncreasing(a: string, b: string)
    requires |a| <= |b|
    ensures CoreFontPx(|b|) <= CoreFontPx(|a|) && 40 <= CoreFontPx(|a|) <= 44
    ensures QuoteFontPx(|b|) <= QuoteFontPx(|a|) && 68 <= QuoteFontPx(|a|) <= 84
  {
  }

  /** The number written in the CSS value is the pixel size. */
  lemma CssReadsBack(px: nat)
    ensures DecimalValue(Css(px)[..|Css(px)| - 2]) == px
  {
    assert Css(px)[..|Css(px)| - 2] == NatToString(px);
    NatToStringRoundTrip(px);
  }

  // ---------------------------------------------------------------------
  // Escaped fields

  datatype SafeFields = SafeFields(coreValue: string, supportingValue: string, quote: string, author: string)

  /** `safeData`: every field escaped; a missing or empty author becomes the
      empty string. */
  function SafeFieldsOf(data: SanitizedQuoteData): (s: SafeFields)
    ensures NoMarkupChars(s.coreValue) && NoMarkupChars(s.supportingValue)
    ensures NoMarkupChars(s.quote) && NoMarkupChars(s.author)
    ensures s.author == [] <==> data.author.None? || data.author.value == []
  {
    EscapeSafe(data.coreValue);
    EscapeSafe(data.supportingValue);
    EscapeSafe(data.quote);
    var author := if data.author.Some? && data.author.value != [] then data.author.value else [];
    EscapeSafe(author);
    EscapeEmptyIff(author);
    SafeFields(EscapeHtml(data.coreValue), EscapeHtml(data.supportingValue),
      EscapeHtml(data.quote), EscapeHtml(author))
  }

  // ---------------------------------------------------------------------
  // The page

  const DocStart := "<!DOCTYPE html>"
  const DocEnd := "</html>"
  const Handle := "@miraclemind.live"

  /** The head with the two font sizes, and the opening of the body. */
  function HeadRest(coreFont: string, quoteFont: string): string {
    "<html><head><meta charset=\"UTF-8\"><style>.core-value{font-size:" + coreFont
      + ";}.quote{font-size:" + quoteFont + ";}</style></head><body><div class=\"container\">"
  }

  const CoreOpen := "<div class=\"core-value\">Core Value: "
  const SupportingOpen := "<div class=\"supporting-value\">Supporting Value: "
  const QuoteOpen := "<div class=\"quote\">\""
  const AuthorOpen := "<div class=\"author\">— "

  function CoreLine(v: string): string { CoreOpen + v + "</div>" }
  function SupportingLine(v: string): string { SupportingOpen + v + "</div>" }
  function QuoteLine(v: string): string { QuoteOpen + v + "\"</div>" }

  /** The author line, left out when there is no author. */
  function AuthorLine(v: string): (line: string)
    ensures line == [] <==> v == []
  {
    if v != [] then AuthorOpen + v + "</div>" else []
  }

  /** The footer with the brand handle, and the end of the document. */
  function Footer(): string {
    FooterBody() + DocEnd
  }

  function FooterBody(): string {
    "<div class=\"footer\"><span class=\"footer-text\">" + Handle + "</span></div></div></body>"
  }

  /** The four slot lines. */
  function Slots(s: SafeFields): string {
    CoreLine(s.coreValue) + SupportingLine(s.supportingValue) + QuoteLine(s.quote) + AuthorLine(s.author)
  }

  function Page(coreFont: string, quoteFont: string, s: SafeFields): string {
    DocStart + (HeadRest(coreFont, quoteFont) + (Slots(s) + Footer()))
  }

  /** The template literal: the page between a line break with indentation
      and a line break with indentation. */
  function Document(coreFont: string, quoteFont: string, s: SafeFields): string {
    LeadingPad + Page(coreFont, quoteFont, s) + TrailingPad
  }

  const LeadingPad := "\n    "
  const TrailingPad := "\n  "

  /** `generateQuoteTemplate`. */
  function GenerateQuoteTemplate(data: SanitizedQuoteData): string {
    Trim(Document(CoreFontSize(data.coreValue), QuoteFontSize(data.quote), SafeFieldsOf(data)))
  }

  // ---------------------------------------------------------------------
  // The trim removes exactly the padding

  lemma {:induction false} TrimStartPadded(w: string, x: string)
    requires AllSpace(w) && x != [] && !IsSpace(x[0])
    ensures TrimStart(w + x) == x
  {
    if w == [] {
      assert w + x == x;
    } else {
      assert (w + x)[0] == w[0];
      assert (w + x)[1..] == w[1..] + x;
      TrimStartPadded(w[1..], x);
    }
  }

  lemma {:induction false} TrimEndPadded(x: string, w: string)
    requires AllSpace(w) && x != [] && !IsSpace(x[|x| - 1])
    ensures TrimEnd(x + w) == x
  {
    if w == [] {
      assert x + w == x;
    } else {
      var xw := x + w;
      assert xw[|xw| - 1] == w[|w| - 1];
      assert xw[..|xw| - 1] == x + w[..|w| - 1];
      TrimEndPadded(x, w[..|w| - 1]);
    }
  }

  /** Trimming padded text gives the text back when it neither starts nor
      ends with white space. */
  lemma TrimPadded(a: string, x: string, b: string)
    requires AllSpace(a) && AllSpace(b) && x != [] && !IsSpace(x[0]) && !IsSpace(x[|x| - 1])
    ensures Trim(a + x + b) == x
  {
    assert a + x + b == a + (x + b);
    assert (x + b)[0] == x[0];
    TrimStartPadded(a, x + b);
    TrimEndPadded(x, b);
  }

  lemma PrefixAppend(p: string, a: string)
    ensures StartsWith(p + a, p)
  {
    assert (p + a)[..|p|] == p;
  }

  lemma SuffixAppend(a: string, p: string)
    ensures EndsWith(a + p, p)
  {
    assert (a + p)[|a + p| - |p|..] == p;
  }

  lemma SuffixExtend(a: string, q: string, p: string)
    requires EndsWith(q, p)
    ensures EndsWith(a + q, p)
  {
    assert (a + q)[|a + q| - |p|..] == q[|q| - |p|..];
  }

  lemma StartsWithFirst(s: string, p: string)
    requires StartsWith(s, p) && p != []
    ensures s[0] == p[0]
  {
    assert s[..|p|][0] == s[0];
  }

  lemma EndsWithLast(s: string, p: string)
    requires EndsWith(s, p) && p != []
    ensures s[|s| - 1] == p[|p| - 1]
  {
    assert s[|s| - |p|..][|p| - 1] == s[|s| - 1];
  }

  lemma PaddingIsSpace()
    ensures AllSpace(LeadingPad) && AllSpace(TrailingPad)
    ensures !IsSpace(DocStart[0]) && !IsSpace(DocEnd[|DocEnd| - 1])
  {
  }

  lemma PageEnds(coreFont: string, quoteFont: string, s: SafeFields)
    ensures StartsWith(Page(coreFont, quoteFont, s), DocStart)
    ensures EndsWith(Page(coreFont, quoteFont, s), DocEnd)
  {
    var rest, slots, foot := HeadRest(coreFont, quoteFont), Slots(s), Footer();
    PrefixAppend(DocStart, rest + (slots + foot));
    SuffixAppend(FooterBody(), DocEnd);
    SuffixExtend(slots, foot, DocEnd);
    SuffixExtend(rest, slots + foot, DocEnd);
    SuffixExtend(DocStart, rest + (slots + foot), DocEnd);
  }

  /** The generated template is the page itself, from its doctype to its
      closing html tag. */
  lemma TemplateIsPage(data: SanitizedQuoteData)
    ensures GenerateQuoteTemplate(data)
      == Page(CoreFontSize(data.coreValue), QuoteFontSize(data.quote), SafeFieldsOf(data))
    ensures StartsWith(GenerateQuoteTemplate(data), DocStart)
    ensures EndsWith(GenerateQuoteTemplate(data), DocEnd)
  {
    var page := Page(CoreFontSize(data.coreValue), QuoteFontSize(data.quote), SafeFieldsOf(data));
    PageEnds(CoreFontSize(data.coreValue), QuoteFontSize(data.quote), SafeFieldsOf(data));
    StartsWithFirst(page, DocStart);
    EndsWithLast(page, DocEnd);
    PaddingIsSpace();
    TrimPadded(LeadingPad, page, TrailingPad);
  }

  // ---------------------------------------------------------------------
  // Each slot reads back as the original text

  /** The text of a slot: everything before the first character that
      could close it. */
  function TextUntilMarkup(s: string): (r: string)
    ensures |r| <= |s| && r == s[..|r|] && NoMarkupChars(r)
  {
    if s == [] || IsMarkupChar(s[0]) then [] else [s[0]] + TextUntilMarkup(s[1..])
  }

  lemma {:induction false} TextUntilMarkupAppend(v: string, t: string)
    requires NoMarkupChars(v) && t != [] && IsMarkupChar(t[0])
    ensures TextUntilMarkup(v + t) == v
  {
    if v == [] {
      assert v + t == t;
    } else {
      assert (v + t)[0] == v[0];
      assert (v + t)[1..] == v[1..] + t;
      TextUntilMarkupAppend(v[1..], t);
    }
  }

  /** Reading the slot that follows `open` in a line and unescaping it. */
  function ReadSlot(line: string, open: string): string {
    if |open| <= |line| then Unescape(TextUntilMarkup(line[|open|..])) else []
  }

  lemma SlotReadsBack(open: string, text: string, close: string)
    requires close != [] && IsMarkupChar(close[0])
    ensures ReadSlot(open + EscapeHtml(text) + close, open) == text
  {
    var v := EscapeHtml(text);
    EscapeSafe(text);
    assert (open + v + close)[|open|..] == v + close;
    TextUntilMarkupAppend(v, close);
    UnescapeEscape(text);
  }

  /** No field can break out of its element: reading each slot of its line
      back and unescaping it gives the sanitized field exactly, and the
      author line exists exactly when there is an author. */
  lemma FieldsReadBack(data: SanitizedQuoteData)
    ensures var s := SafeFieldsOf(data);
      && ReadSlot(CoreLine(s.coreValue), CoreOpen) == data.coreValue
      && ReadSlot(SupportingLine(s.supportingValue), SupportingOpen) == data.supportingValue
      && ReadSlot(QuoteLine(s.quote), QuoteOpen) == data.quote
      && (AuthorLine(s.author) != [] <==> data.author.Some? && data.author.value != [])
      && (data.author.Some? && data.author.value != [] ==>
            ReadSlot(AuthorLine(s.author), AuthorOpen) == data.author.value)
  {
    SlotReadsBack(CoreOpen, data.coreValue, "</div>");
    SlotReadsBack(SupportingOpen, data.supportingValue, "</div>");
    SlotReadsBack(QuoteOpen, data.quote, "\"</div>");
    if data.author.Some? && data.author.value != [] {
      SlotReadsBack(AuthorOpen, data.author.value, "</div>");
    }
  }
}
