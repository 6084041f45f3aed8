/** Sanitising user text before it is stored or rendered: the per-character
    HTML entity escape, the clean-up that follows DOMPurify, and the
    sanitised form of a quote submission. */
module Sanitization {
  import opened Wrappers
  import opened Strings
  import opened Tables

  // ---------------------------------------------------------------------
  // escapeHtml

  /** The seven characters `escapeHtml` replaces. */
  predicate IsHtmlSpecial(c: char) {
    c == '&' || c == '<' || c == '>' || c == '"' || c == '\'' || c == '`' || c == '='
  }

  /** The entity table: a special character's entity, any other character
      itself. */
  function EscapeChar(c: char): (r: string)
    ensures |r| >= 1
    ensures IsHtmlSpecial(c) ==> r[0] == '&' && r[|r| - 1] == ';'
    ensures !IsHtmlSpecial(c) ==> r == [c]
  {
    match c
    case '&' => "&amp;"
    case '<' => "&lt;"
    case '>' => "&gt;"
    case '"' => "&quot;"
    case '\'' => "&#x27;"
    case '`' => "&#x60;"
    case '=' => "&#x3D;"
    case _ => [c]
  }

  /** `escapeHtml`: every character replaced by its entry in the table. */
  function EscapeHtml(s: string): string {
    if s == [] then [] else EscapeChar(s[0]) + EscapeHtml(s[1..])
  }

  /** Escaping works character by character, so it distributes over
      concatenation. */
  lemma {:induction false} EscapeAppend(a: string, b: string)
    ensures EscapeHtml(a + b) == EscapeHtml(a) + EscapeHtml(b)
  {
    if a == [] {
      assert a + b == b;
    } else {
      assert (a + b)[1..] == a[1..] + b;
      EscapeAppend(a[1..], b);
    }
  }

  /** Text with none of the seven characters comes back unchanged. */
  lemma {:induction false} EscapeIdentity(s: string)
    requires forall i :: 0 <= i < |s| ==> !IsHtmlSpecial(s[i])
    ensures EscapeHtml(s) == s
  {
    if s != [] {
      EscapeIdentity(s[1..]);
    }
  }

  /** Characters that could end a tag, an attribute value or a template
      literal. */
  predicate IsMarkupChar(c: char) {
    c == '<' || c == '>' || c == '"' || c == '\'' || c == '`' || c == '='
  }

  predicate NoMarkupChars(s: string) {
    forall i :: 0 <= i < |s| ==> !IsMarkupChar(s[i])
  }

  lemma EscapeCharSafe(c: char)
    ensures NoMarkupChars(EscapeChar(c))
  {
  }

  /** The escaped text holds none of `< > " ' \` =`: they only occur
      inside entities, which are spelled with `&`, `#`, letters, digits
      and `;`. */
  lemma {:induction false} EscapeSafe(s: string)
    ensures NoMarkupChars(EscapeHtml(s))
  {
    if s != [] {
      EscapeSafe(s[1..]);
      EscapeCharSafe(s[0]);
      var h, t := EscapeChar(s[0]), EscapeHtml(s[1..]);
      assert forall i :: |h| <= i < |h + t| ==> (h + t)[i] == t[i - |h|];
    }
  }

  /** The escape of a text is empty exactly when the text is. */
  lemma EscapeEmptyIff(s: string)
    ensures EscapeHtml(s) == [] <==> s == []
  {
  }

  // The decoder that undoes escapeHtml

  lemma NotStartsWith(s: string, prefix: string, k: nat)
    requires k < |prefix| && k < |s| && s[k] != prefix[k]
    ensures !StartsWith(s, prefix)
  {
  }

  /** The entity at the front of s, as the character it stands for and its
      length. */
  function EntityAt(s: string): (r: Option<(char, nat)>)
    ensures r.Some? ==> 0 < r.value.1 <= |s|
  {
    if StartsWith(s, "&amp;") then Some(('&', 5))
    else if StartsWith(s, "&lt;") then Some(('<', 4))
    else if StartsWith(s, "&gt;") then Some(('>', 4))
    else if StartsWith(s, "&quot;") then Some(('"', 6))
    else if StartsWith(s, "&#x27;") then Some(('\'', 6))
    else if StartsWith(s, "&#x60;") then Some(('`', 6))
    else if StartsWith(s, "&#x3D;") then Some(('=', 6))
    else None
  }

  /** Decoding the seven entities; every other character is copied. */
  function Unescape(s: string): string
    decreases |s|
  {
    if s == [] then []
    else match EntityAt(s)
      case Some((c, n)) => [c] + Unescape(s[n..])
      case None => [s[0]] + Unescape(s[1..])
  }

  /** The decoder reads an escaped character back from the front of any
      text. */
  lemma EntityAtEscape(c: char, t: string)
    ensures EntityAt(EscapeChar(c) + t) ==
      if IsHtmlSpecial(c) then Some((c, |EscapeChar(c)|)) else None
  {
    var s := EscapeChar(c) + t;
    assert s[..|EscapeChar(c)|] == EscapeChar(c);
    if !IsHtmlSpecial(c) {
      NotStartsWith(s, "&amp;", 0);
      NotStartsWith(s, "&lt;", 0);
      NotStartsWith(s, "&gt;", 0);
      NotStartsWith(s, "&quot;", 0);
      NotStartsWith(s, "&#x27;", 0);
      NotStartsWith(s, "&#x60;", 0);
      NotStartsWith(s, "&#x3D;", 0);
    } else if c == '<' {
      NotStartsWith(s, "&amp;", 1);
    } else if c == '>' {
      NotStartsWith(s, "&amp;", 1);
      NotStartsWith(s, "&lt;", 1);
    } else if c == '"' {
      NotStartsWith(s, "&amp;", 1);
      NotStartsWith(s, "&lt;", 1);
      NotStartsWith(s, "&gt;", 1);
    } else if c == '\'' {
      NotStartsWith(s, "&amp;", 1);
      NotStartsWith(s, "&lt;", 1);
      NotStartsWith(s, "&gt;", 1);
      NotStartsWith(s, "&quot;", 1);
    } else if c == '`' {
      NotStartsWith(s, "&amp;", 1);
      NotStartsWith(s, "&lt;", 1);
      NotStartsWith(s, "&gt;", 1);
      NotStartsWith(s, "&quot;", 1);
      NotStartsWith(s, "&#x27;", 3);
    } else if c == '=' {
      NotStartsWith(s, "&amp;", 1);
      NotStartsWith(s, "&lt;", 1);
      NotStartsWith(s, "&gt;", 1);
      NotStartsWith(s, "&quot;", 1);
      NotStartsWith(s, "&#x27;", 3);
      NotStartsWith(s, "&#x60;", 3);
    }
  }

  /** Escaping loses nothing: decoding the escaped text gives the text
      back. */
  lemma {:induction false} UnescapeEscape(s: string)
    ensures Unescape(EscapeHtml(s)) == s
  {
    if s != [] {
      var h, t := EscapeChar(s[0]), EscapeHtml(s[1..]);
      UnescapeEscape(s[1..]);
      EntityAtEscape(s[0], t);
      assert (h + t)[|h|..] == t;
      if !IsHtmlSpecial(s[0]) {
        assert (h + t)[1..] == t;
      }
      assert s == [s[0]] + s[1..];
    }
  }

  // ---------------------------------------------------------------------
  // sanitizeText

  /** The characters `/[`$\{\}\\]/g` removes. */
  predicate IsTemplateChar(c: char) {
    c == '`' || c == '$' || c == '{' || c == '}' || c == '\\'
  }

  predicate NotTemplateChar(c: char) {
    !IsTemplateChar(c)
  }

  predicate NotAngleBracket(c: char) {
    c != '<' && c != '>'
  }

  /** A character the clean-up keeps. */
  predicate Kept(c: char) {
    NotTemplateChar(c) && NotAngleBracket(c)
  }

  /** The replace chain after DOMPurify: drop template-literal characters,
      drop angle brackets, trim. */
  function AfterPurify(cleaned: string): string {
    Trim(Filter(Filter(cleaned, NotTemplateChar), NotAngleBracket))
  }

  /** Every character of the trim is a character of the text. */
  lemma TrimKeeps(s: string, p: char -> bool)
    requires forall i :: 0 <= i < |s| ==> p(s[i])
    ensures forall i :: 0 <= i < |Trim(s)| ==> p(Trim(s)[i])
  {
    TrimIsSlice(s);
    var k :| 0 <= k <= |s| - |Trim(s)| && Trim(s) == s[k..k + |Trim(s)|];
    assert forall i :: 0 <= i < |Trim(s)| ==> Trim(s)[i] == s[k + i];
  }

  /** The clean-up leaves none of `` ` $ { } \ < > `` and no white space at
      either end. */
  lemma AfterPurifySafe(cleaned: string)
    ensures forall i :: 0 <= i < |AfterPurify(cleaned)| ==> Kept(AfterPurify(cleaned)[i])
    ensures IsTrimmed(AfterPurify(cleaned))
  {
    var a := Filter(cleaned, NotTemplateChar);
    var b := Filter(a, NotAngleBracket);
    FilterMembers(cleaned, NotTemplateChar);
    FilterMembers(a, NotAngleBracket);
    assert forall i :: 0 <= i < |b| ==> Kept(b[i]);
    TrimKeeps(b, Kept);
  }

  /** The clean-up keeps text that is already clean. */
  lemma AfterPurifyKeepsClean(cleaned: string)
    requires forall i :: 0 <= i < |cleaned| ==> Kept(cleaned[i])
    requires IsTrimmed(cleaned)
    ensures AfterPurify(cleaned) == cleaned
  {
    FilterKeepsAll(cleaned, NotTemplateChar);
    FilterKeepsAll(cleaned, NotAngleBracket);
    TrimOfTrimmed(cleaned);
  }

  /** Cleaning twice is cleaning once. */
  lemma AfterPurifyIdempotent(cleaned: string)
    ensures AfterPurify(AfterPurify(cleaned)) == AfterPurify(cleaned)
  {
    AfterPurifySafe(cleaned);
    AfterPurifyKeepsClean(AfterPurify(cleaned));
  }

  /** `sanitizeText`. DOMPurify with no allowed tags is the parameter
      `purify`. */
  function SanitizeText(text: string, purify: string -> string): string {
    AfterPurify(purify(text))
  }

  // ---------------------------------------------------------------------
  // sanitizeQuoteData

  /** A submitted quote: `author` and `style` may be absent. */
  datatype QuoteInput = QuoteInput(
    coreValue: string, supportingValue: string, quote: string,
    author: Option<string>, style: Option<string>)

  /** The sanitised submission. `author` stays optional; the style is
      always set. */
  datatype SanitizedQuoteData = SanitizedQuoteData(
    coreValue: string, supportingValue: string, quote: string,
    author: Option<string>, style: string)

  const DefaultStyle := "style1"

  /** `sanitizeQuoteData`. An empty or absent author is dropped; a missing
      or empty style becomes "style1". */
  function SanitizeQuoteData(data: QuoteInput, purify: string -> string): SanitizedQuoteData {
    SanitizedQuoteData(
      SanitizeText(data.coreValue, purify),
      SanitizeText(data.supportingValue, purify),
      SanitizeText(data.quote, purify),
      if data.author.Some? && data.author.value != [] then Some(SanitizeText(data.author.value, purify)) else None,
      if data.style.Some? && data.style.value != [] then data.style.value else DefaultStyle)
  }

  /** Every text field of the result is its input sanitized, hence clean
      and trimmed; an author is kept exactly when a non-empty one was
      given, and a given non-empty style is kept, any other becomes the
      default. */
  lemma SanitizeQuoteDataSpec(data: QuoteInput, purify: string -> string)
    ensures var r := SanitizeQuoteData(data, purify);
      && (forall i :: 0 <= i < |r.quote| ==> Kept(r.quote[i]))
      && (forall i :: 0 <= i < |r.coreValue| ==> Kept(r.coreValue[i]))
      && (forall i :: 0 <= i < |r.supportingValue| ==> Kept(r.supportingValue[i]))
      && IsTrimmed(r.quote) && IsTrimmed(r.coreValue) && IsTrimmed(r.supportingValue)
      && (r.author.Some? <==> data.author.Some? && data.author.value != [])
      && (r.author.Some? ==>
            (IsTrimmed(r.author.value) && forall i :: 0 <= i < |r.author.value| ==> Kept(r.author.value[i])))
      && r.quote == SanitizeText(data.quote, purify)
      && r.coreValue == SanitizeText(data.coreValue, purify)
      && r.supportingValue == SanitizeText(data.supportingValue, purify)
      && (r.author.Some? ==> r.author.value == SanitizeText(data.author.value, purify))
      && r.style == (if data.style.Some? && data.style.value != [] then data.style.value else DefaultStyle)
      && r.style != []
  {
    AfterPurifySafe(purify(data.quote));
    AfterPurifySafe(purify(data.coreValue));
    AfterPurifySafe(purify(data.supportingValue));
    if data.author.Some? {
      AfterPurifySafe(purify(data.author.value));
    }
  }
}
