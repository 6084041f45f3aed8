/** The text side of the Notion CSV importer: splitting one CSV line into
    fields, reading the four "roll" columns of a row, splitting the quotes
    column at sentence boundaries, splitting the authors column by position,
    pairing quotes with authors, normalising values, describing values and
    categorising quotes. */
module DataParser {
  import opened Wrappers
  import opened Strings
  import opened Tables

  /** One data row of the export, after its columns were read. */
  datatype ParsedRow = ParsedRow(
    coreValue: string,
    supportingValues: seq<string>,
    quotes: seq<string>,
    authors: seq<string>)

  datatype QuoteAuthorPair = QuoteAuthorPair(quote: string, author: Option<string>)

  // ---------------------------------------------------------------------
  // CSV line splitting

  /** Reference definition of the CSV line splitter: the fields of the rest
      `s` of a line, when the scan is inside a quoted section or not and has
      already collected `current` for the field it is in. A `""` inside a
      quoted section stands for one `"`; any other `"` switches quoting on or
      off and is dropped; a comma outside quotes ends a field. */
  function CsvFields(s: string, inQuotes: bool, current: string): (fields: seq<string>)
    ensures |fields| >= 1
    decreases |s|
  {
    if s == [] then [current]
    else if s[0] == '"' then
      if inQuotes && |s| > 1 && s[1] == '"' then CsvFields(s[2..], inQuotes, current + ['"'])
      else CsvFields(s[1..], !inQuotes, current)
    else if s[0] == ',' && !inQuotes then [current] + CsvFields(s[1..], inQuotes, [])
    else CsvFields(s[1..], inQuotes, current + [s[0]])
  }

  /** The fields of a whole line. */
  function CsvLine(line: string): seq<string> {
    CsvFields(line, false, [])
  }

  /** `parseCSVLine`. */
  method ParseCSVLine(line: string) returns (result: seq<string>)
    ensures result == CsvLine(line)
  {
    result := [];
    var current := "";
    var inQuotes := false;
    var i := 0;
    while i < |line|
      invariant 0 <= i <= |line|
      invariant result + CsvFields(line[i..], inQuotes, current) == CsvLine(line)
    {
      var c := line[i];
      assert line[i..][0] == c && line[i..][1..] == line[i + 1..];
      if c == '"' {
        if inQuotes && i + 1 < |line| && line[i + 1] == '"' {
          assert line[i..][2..] == line[i + 2..];
          current := current + ['"'];
          i := i + 2;
          continue;
        } else {
          inQuotes := !inQuotes;
        }
      } else if c == ',' && !inQuotes {
        result := result + [current];
        current := "";
        i := i + 1;
        continue;
      } else {
        current := current + [c];
      }
      i := i + 1;
    }
    result := result + [current];
  }

  /** The commas of `s` that the scan meets outside quoted sections. */
  function OutsideCommas(s: string, inQuotes: bool): nat
    decreases |s|
  {
    if s == [] then 0
    else if s[0] == '"' then
      if inQuotes && |s| > 1 && s[1] == '"' then OutsideCommas(s[2..], inQuotes)
      else OutsideCommas(s[1..], !inQuotes)
    else (if s[0] == ',' && !inQuotes then 1 else 0) + OutsideCommas(s[1..], inQuotes)
  }

  /** There is exactly one more field than there are commas outside quotes. */
  lemma {:induction false} FieldCount(s: string, inQuotes: bool, current: string)
    ensures |CsvFields(s, inQuotes, current)| == OutsideCommas(s, inQuotes) + 1
    decreases |s|
  {
    if s == [] {
    } else if s[0] == '"' {
      if inQuotes && |s| > 1 && s[1] == '"' {
        FieldCount(s[2..], inQuotes, current + ['"']);
      } else {
        FieldCount(s[1..], !inQuotes, current);
      }
    } else if s[0] == ',' && !inQuotes {
      FieldCount(s[1..], inQuotes, []);
    } else {
      FieldCount(s[1..], inQuotes, current + [s[0]]);
    }
  }

  /** A line without `"` splits like `line.split(',')`. */
  lemma {:induction false} UnquotedLineIsSplit(s: string, current: string)
    requires '"' !in s
    ensures CsvFields(s, false, current) == [current + SplitOn(s, ',')[0]] + SplitOn(s, ',')[1..]
    decreases |s|
  {
    if s != [] {
      var rest := SplitOn(s[1..], ',');
      if s[0] == ',' {
        UnquotedLineIsSplit(s[1..], []);
        assert current + [] == current;
        assert [] + rest[0] == rest[0];
        assert [rest[0]] + rest[1..] == rest;
      } else {
        UnquotedLineIsSplit(s[1..], current + [s[0]]);
        assert current + [s[0]] + rest[0] == current + ([s[0]] + rest[0]);
      }
    } else {
      assert current + [] == current;
    }
  }

  lemma UnquotedLine(line: string)
    requires '"' !in line
    ensures CsvLine(line) == SplitOn(line, ',')
  {
    UnquotedLineIsSplit(line, []);
    var parts := SplitOn(line, ',');
    assert [] + parts[0] == parts[0];
    assert [parts[0]] + parts[1..] == parts;
  }

  /** A field written the CSV way: every `"` doubled, the whole in quotes. */
  function CsvEscape(x: string): (e: string)
    ensures |e| >= |x|
  {
    if x == [] then [] else (if x[0] == '"' then "\"\"" else [x[0]]) + CsvEscape(x[1..])
  }

  function CsvQuote(x: string): string {
    "\"" + CsvEscape(x) + "\""
  }

  lemma {:induction false} EscapedText(x: string, t: string, current: string)
    ensures CsvFields(CsvEscape(x) + t, true, current) == CsvFields(t, true, current + x)
    decreases |x|
  {
    if x == [] {
      assert CsvEscape(x) + t == t;
      assert current + x == current;
    } else {
      var h := if x[0] == '"' then "\"\"" else [x[0]];
      assert CsvEscape(x) + t == h + (CsvEscape(x[1..]) + t);
      EscapedHead(x, CsvEscape(x[1..]) + t, current);
      EscapedText(x[1..], t, current + [x[0]]);
      assert current + [x[0]] + x[1..] == current + x;
    }
  }

  /** Inside quotes, the escaped first character of x adds that character
      to the field. */
  lemma EscapedHead(x: string, u: string, current: string)
    requires x != []
    ensures CsvFields((if x[0] == '"' then "\"\"" else [x[0]]) + u, true, current) == CsvFields(u, true, current + [x[0]])
  {
    var s := (if x[0] == '"' then "\"\"" else [x[0]]) + u;
    if x[0] == '"' {
      assert s[2..] == u;
    } else {
      assert s[1..] == u;
    }
  }

  /** Writing fields the CSV way and joining them with commas gives a line
      that parses back into exactly those fields: commas inside quotes stay
      in the field and a doubled `""` comes back as one `"`. */
  lemma {:induction false} QuotedFieldsRoundTrip(fields: seq<string>)
    requires fields != []
    ensures CsvLine(Join(Quoted(fields), ',')) == fields
  {
    QuotedFieldsFrom(fields);
  }

  function Quoted(fields: seq<string>): (q: seq<string>)
    ensures |q| == |fields|
  {
    if fields == [] then [] else [CsvQuote(fields[0])] + Quoted(fields[1..])
  }

  lemma {:induction false} QuotedFieldsFrom(fields: seq<string>)
    requires fields != []
    ensures CsvFields(Join(Quoted(fields), ','), false, []) == fields
    decreases |fields|
  {
    var f := fields[0];
    var rest: string := if |fields| == 1 then [] else [','] + Join(Quoted(fields[1..]), ',');
    assert Join(Quoted(fields), ',') == "\"" + (CsvEscape(f) + ("\"" + rest));
    var s := Join(Quoted(fields), ',');
    assert s[1..] == CsvEscape(f) + ("\"" + rest);
    EscapedText(f, "\"" + rest, []);
    assert [] + f == f;
    if |fields| == 1 {
      assert ("\"" + rest)[1..] == [];
    } else {
      var t := "\"" + rest;
      assert t[1] == ',';
      assert t[1..] == rest;
      assert rest[1..] == Join(Quoted(fields[1..]), ',');
      QuotedFieldsFrom(fields[1..]);
      assert [f] + fields[1..] == fields;
    }
  }

  /** No two adjacent `"` characters. */
  predicate NoDoubledQuote(s: string) {
    forall i :: 0 <= i < |s| - 1 ==> !(s[i] == '"' && s[i + 1] == '"')
  }

  /** A lone `"` only switches quoting: when no `""` occurs in the line, no
      field contains a `"`. */
  lemma {:induction false} LoneQuotesNotCopied(s: string, inQuotes: bool, current: string)
    requires NoDoubledQuote(s) && '"' !in current
    ensures forall i :: 0 <= i < |CsvFields(s, inQuotes, current)| ==> '"' !in CsvFields(s, inQuotes, current)[i]
    decreases |s|
  {
    if s != [] {
      assert NoDoubledQuote(s[1..]) by {
        forall i | 0 <= i < |s[1..]| - 1 ensures !(s[1..][i] == '"' && s[1..][i + 1] == '"') {
          assert s[1..][i] == s[i + 1] && s[1..][i + 1] == s[i + 2];
        }
      }
      if s[0] == '"' {
        assert !(|s| > 1 && s[1] == '"');
        LoneQuotesNotCopied(s[1..], !inQuotes, current);
      } else if s[0] == ',' && !inQuotes {
        LoneQuotesNotCopied(s[1..], inQuotes, []);
      } else {
        LoneQuotesNotCopied(s[1..], inQuotes, current + [s[0]]);
      }
    }
  }

  // ---------------------------------------------------------------------
  // Normalising values

  predicate IsQuoteMark(c: char) {
    c == '"' || c == '\''
  }

  /** `replace(/^["']+/, '')`. */
  function StripLeadingQuotes(s: string): string {
    if s != [] && IsQuoteMark(s[0]) then StripLeadingQuotes(s[1..]) else s
  }

  /** `replace(/["']+$/, '')`. */
  function StripTrailingQuotes(s: string): string {
    if s != [] && IsQuoteMark(s[|s| - 1]) then StripTrailingQuotes(s[..|s| - 1]) else s
  }

  /** The leading run of quote marks is removed and nothing else. */
  lemma {:induction false} StripLeadingQuotesShape(s: string)
    ensures |StripLeadingQuotes(s)| <= |s| && StripLeadingQuotes(s) == s[|s| - |StripLeadingQuotes(s)|..]
    ensures StripLeadingQuotes(s) == [] || !IsQuoteMark(StripLeadingQuotes(s)[0])
    ensures forall i :: 0 <= i < |s| - |StripLeadingQuotes(s)| ==> IsQuoteMark(s[i])
  {
    if s != [] && IsQuoteMark(s[0]) {
      StripLeadingQuotesShape(s[1..]);
      var r := StripLeadingQuotes(s[1..]);
      assert s[1..][|s| - 1 - |r|..] == s[|s| - |r|..];
      forall i | 0 < i < |s| - |r| ensures IsQuoteMark(s[i]) {
        assert s[i] == s[1..][i - 1];
      }
    }
  }

  /** The trailing run of quote marks is removed and nothing else. */
  lemma {:induction false} StripTrailingQuotesShape(s: string)
    ensures |StripTrailingQuotes(s)| <= |s| && StripTrailingQuotes(s) == s[..|StripTrailingQuotes(s)|]
    ensures StripTrailingQuotes(s) == [] || !IsQuoteMark(StripTrailingQuotes(s)[|StripTrailingQuotes(s)| - 1])
    ensures forall i :: |StripTrailingQuotes(s)| <= i < |s| ==> IsQuoteMark(s[i])
  {
    if s != [] && IsQuoteMark(s[|s| - 1]) {
      StripTrailingQuotesShape(s[..|s| - 1]);
      var r := StripTrailingQuotes(s[..|s| - 1]);
      assert s[..|s| - 1][..|r|] == s[..|r|];
      forall i | |r| <= i < |s| - 1 ensures IsQuoteMark(s[i]) {
        assert s[i] == s[..|s| - 1][i];
      }
    }
  }

  /** Every white-space character is a plain space and no two are adjacent. */
  predicate SingleSpaced(s: string) {
    && (forall i :: 0 <= i < |s| && IsSpace(s[i]) ==> s[i] == ' ')
    && (forall i :: 0 <= i < |s| - 1 ==> !(IsSpace(s[i]) && IsSpace(s[i + 1])))
  }

  /** `replace(/\s+/g, ' ')`: each run of white space becomes one space. */
  function CollapseSpaces(s: string): string
    decreases |s|
  {
    if s == [] then []
    else if IsSpace(s[0]) then
      TrimStartSlice(s[1..]);
      [' '] + CollapseSpaces(TrimStart(s[1..]))
    else [s[0]] + CollapseSpaces(s[1..])
  }

  /** The result is single-spaced, no longer than the input, empty only for
      empty input, and starts with white space exactly when the input does. */
  lemma {:induction false} CollapseSpacesShape(s: string)
    ensures SingleSpaced(CollapseSpaces(s))
    ensures |CollapseSpaces(s)| <= |s|
    ensures CollapseSpaces(s) == [] <==> s == []
    ensures CollapseSpaces(s) != [] ==> (IsSpace(CollapseSpaces(s)[0]) <==> IsSpace(s[0]))
    decreases |s|
  {
    if s != [] {
      TrimStartSlice(s[1..]);
      var t := if IsSpace(s[0]) then TrimStart(s[1..]) else s[1..];
      var h := if IsSpace(s[0]) then ' ' else s[0];
      CollapseSpacesShape(t);
      var c := CollapseSpaces(t);
      var r := CollapseSpaces(s);
      assert r == [h] + c;
      assert IsSpace(s[0]) ==> (c == [] || !IsSpace(c[0]));
      SingleSpacedCons(h, c);
    }
  }

  lemma SingleSpacedCons(h: char, c: string)
    requires SingleSpaced(c)
    requires IsSpace(h) ==> h == ' ' && (c == [] || !IsSpace(c[0]))
    ensures SingleSpaced([h] + c)
  {
    var r := [h] + c;
    forall i | 0 <= i < |r| - 1 ensures !(IsSpace(r[i]) && IsSpace(r[i + 1])) {
      if i > 0 {
        assert r[i] == c[i - 1] && r[i + 1] == c[i];
      }
    }
    forall i | 0 <= i < |r| && IsSpace(r[i]) ensures r[i] == ' ' {
      if i > 0 {
        assert r[i] == c[i - 1];
      }
    }
  }

  /** A slice of a single-spaced string is single-spaced. */
  lemma SliceSingleSpaced(s: string, k: nat, n: nat)
    requires SingleSpaced(s) && k + n <= |s|
    ensures SingleSpaced(s[k..k + n])
  {
    var t := s[k..k + n];
    assert forall i :: 0 <= i < |t| ==> t[i] == s[k + i];
  }

  /** `cleanValue`: trims, strips the quote marks at either end and turns
      every run of white space into one space. The two replacements of
      quote characters that follow in the source map each character to
      itself and are left out. */
  function CleanValue(value: string): string {
    Trim(CollapseSpaces(StripTrailingQuotes(StripLeadingQuotes(Trim(value)))))
  }

  /** A cleaned value has no white space at its ends, only plain single
      spaces inside, and is no longer than the input. */
  lemma CleanValueShape(value: string)
    ensures IsTrimmed(CleanValue(value))
    ensures SingleSpaced(CleanValue(value))
    ensures |CleanValue(value)| <= |value|
  {
    var t := Trim(value);
    TrimShortens(value);
    var a := StripLeadingQuotes(t);
    StripLeadingQuotesShape(t);
    var b := StripTrailingQuotes(a);
    StripTrailingQuotesShape(a);
    var c := CollapseSpaces(b);
    CollapseSpacesShape(b);
    TrimKeepsSingleSpaced(c);
    TrimShortens(c);
  }

  lemma TrimKeepsSingleSpaced(s: string)
    requires SingleSpaced(s)
    ensures SingleSpaced(Trim(s))
  {
    var a := TrimStart(s);
    TrimStartSlice(s);
    var k := |s| - |a|;
    assert s[k..k + |a|] == s[k..] == a;
    SliceSingleSpaced(s, k, |a|);
    var r := TrimEnd(a);
    TrimEndSlice(a);
    assert a[0..|r|] == a[..|r|] == r;
    SliceSingleSpaced(a, 0, |r|);
  }

  /** A value that is already trimmed, single-spaced and free of quote marks
      at its ends is left unchanged. */
  lemma CleanValueKeepsCleanText(s: string)
    requires IsTrimmed(s) && SingleSpaced(s)
    requires s == [] || (!IsQuoteMark(s[0]) && !IsQuoteMark(s[|s| - 1]))
    ensures CleanValue(s) == s
  {
    TrimOfTrimmed(s);
    CollapseSingleSpaced(s);
  }

  lemma {:induction false} CollapseSingleSpaced(s: string)
    requires SingleSpaced(s)
    ensures CollapseSpaces(s) == s
    decreases |s|
  {
    if s != [] {
      assert SingleSpaced(s[1..]) by {
        SliceSingleSpaced(s, 1, |s| - 1);
        assert s[1..|s|] == s[1..];
      }
      if IsSpace(s[0]) {
        assert s[1..] == [] || !IsSpace(s[1..][0]);
        TrimStartOfTrimmed(s[1..]);
        CollapseSingleSpaced(s[1..]);
        assert s == [' '] + s[1..];
      } else {
        CollapseSingleSpaced(s[1..]);
        assert s == [s[0]] + s[1..];
      }
    }
  }

  // ---------------------------------------------------------------------
  // The quotes column

  predicate EndsSentence(t: string) {
    t != [] && (t[|t| - 1] == '.' || t[|t| - 1] == '!' || t[|t| - 1] == '?')
  }

  /** Reference definition of the quote splitter: the pieces of the rest `s`
      of the column when `current` is already collected. A comma splits only
      when the text collected so far, trimmed, ends in `.`, `!` or `?`; that
      comma is dropped. */
  function QuoteFragments(s: string, current: string): (frags: seq<string>)
    ensures |frags| >= 1
    decreases |s|
  {
    if s == [] then [current]
    else if s[0] == ',' && EndsSentence(Trim(current)) then [current] + QuoteFragments(s[1..], [])
    else QuoteFragments(s[1..], current + [s[0]])
  }

  /** What one piece contributes: its trim, cleaned, when the trim is
      longer than 20 characters. */
  function Kept(piece: string): (r: seq<string>)
    ensures |r| <= 1
  {
    var t := Trim(piece);
    if |t| > 20 then [CleanValue(t)] else []
  }

  /** The pieces that are kept, in order. */
  function SubstantialQuotes(frags: seq<string>): (r: seq<string>)
    ensures |r| <= |frags|
  {
    if frags == [] then [] else Kept(frags[0]) + SubstantialQuotes(frags[1..])
  }

  /** What `parseQuotes` returns. */
  function QuoteList(raw: string): seq<string> {
    if IsBlank(raw) then [] else SubstantialQuotes(QuoteFragments(raw, []))
  }

  /** `parseQuotes`. */
  method ParseQuotes(raw: string) returns (quotes: seq<string>)
    ensures quotes == QuoteList(raw)
  {
    if Trim(raw) == [] {
      return [];
    }
    quotes := [];
    var current := "";
    var i := 0;
    while i < |raw|
      invariant 0 <= i <= |raw|
      invariant quotes + SubstantialQuotes(QuoteFragments(raw[i..], current)) == QuoteList(raw)
    {
      QuoteStep(raw[i..], current);
      assert raw[i..][0] == raw[i] && raw[i..][1..] == raw[i + 1..];
      if raw[i] == ',' && EndsSentence(Trim(current)) {
        ghost var rest := SubstantialQuotes(QuoteFragments(raw[i + 1..], []));
        AppendAssoc(quotes, Kept(current), rest);
        var trimmed := Trim(current);
        if |trimmed| > 20 {
          quotes := quotes + [CleanValue(trimmed)];
        } else {
          assert quotes + [] == quotes;
        }
        current := "";
      } else {
        current := current + [raw[i]];
      }
      i := i + 1;
    }
    assert raw[i..] == [];
    QuoteStep(raw[i..], current);
    var finalQuote := Trim(current);
    if |finalQuote| > 20 {
      quotes := quotes + [CleanValue(finalQuote)];
    } else {
      assert quotes + [] == quotes;
    }
  }

  /** One step of the splitter, in terms of what it contributes to the list. */
  lemma QuoteStep(s: string, current: string)
    ensures s == [] ==> SubstantialQuotes(QuoteFragments(s, current)) == Kept(current)
    ensures s != [] && s[0] == ',' && EndsSentence(Trim(current)) ==>
      SubstantialQuotes(QuoteFragments(s, current)) == Kept(current) + SubstantialQuotes(QuoteFragments(s[1..], []))
    ensures s != [] && !(s[0] == ',' && EndsSentence(Trim(current))) ==>
      SubstantialQuotes(QuoteFragments(s, current)) == SubstantialQuotes(QuoteFragments(s[1..], current + [s[0]]))
  {
    if s == [] {
      assert SubstantialQuotes([current]) == Kept(current) + SubstantialQuotes([]);
      assert Kept(current) + [] == Kept(current);
    } else if s[0] == ',' && EndsSentence(Trim(current)) {
      var rest := QuoteFragments(s[1..], []);
      assert ([current] + rest)[1..] == rest;
    }
  }

  /** The splitter loses nothing but the boundary commas: joining the pieces
      with commas gives back the collected text and the column. */
  lemma {:induction false} FragmentsJoin(s: string, current: string)
    ensures Join(QuoteFragments(s, current), ',') == current + s
    decreases |s|
  {
    if s == [] {
      assert current + s == current;
    } else if s[0] == ',' && EndsSentence(Trim(current)) {
      var rest := QuoteFragments(s[1..], []);
      FragmentsJoin(s[1..], []);
      assert ([current] + rest)[1..] == rest;
      assert [] + s[1..] == s[1..];
      assert current + [','] + s[1..] == current + s;
    } else {
      FragmentsJoin(s[1..], current + [s[0]]);
      assert current + [s[0]] + s[1..] == current + s;
    }
  }

  /** Every piece but the last was cut at a sentence end. */
  lemma {:induction false} FragmentsEndSentences(s: string, current: string)
    ensures forall i :: 0 <= i < |QuoteFragments(s, current)| - 1 ==> EndsSentence(Trim(QuoteFragments(s, current)[i]))
    decreases |s|
  {
    if s == [] {
    } else if s[0] == ',' && EndsSentence(Trim(current)) {
      FragmentsEndSentences(s[1..], []);
      var rest := QuoteFragments(s[1..], []);
      var f := QuoteFragments(s, current);
      assert f == [current] + rest;
      forall i | 0 <= i < |f| - 1 ensures EndsSentence(Trim(f[i])) {
        if i > 0 {
          assert f[i] == rest[i - 1];
        }
      }
    } else {
      FragmentsEndSentences(s[1..], current + [s[0]]);
      assert QuoteFragments(s, current) == QuoteFragments(s[1..], current + [s[0]]);
    }
  }

  /** No comma in a piece comes after a sentence end: no boundary is missed. */
  predicate NoMissedBoundary(f: string) {
    forall j :: 0 <= j < |f| && f[j] == ',' ==> !EndsSentence(Trim(f[..j]))
  }

  lemma {:induction false} FragmentsSplitEveryBoundary(s: string, current: string)
    requires NoMissedBoundary(current)
    ensures forall i :: 0 <= i < |QuoteFragments(s, current)| ==> NoMissedBoundary(QuoteFragments(s, current)[i])
    decreases |s|
  {
    if s == [] {
    } else if s[0] == ',' && EndsSentence(Trim(current)) {
      FragmentsSplitEveryBoundary(s[1..], []);
      var rest := QuoteFragments(s[1..], []);
      var f := QuoteFragments(s, current);
      assert f == [current] + rest;
      forall i | 0 <= i < |f| ensures NoMissedBoundary(f[i]) {
        if i > 0 {
          assert f[i] == rest[i - 1];
        }
      }
    } else {
      var next := current + [s[0]];
      assert NoMissedBoundary(next) by {
        forall j | 0 <= j < |next| && next[j] == ','
          ensures !EndsSentence(Trim(next[..j]))
        {
          if j < |current| {
            assert next[..j] == current[..j];
          } else {
            assert next[..j] == current;
          }
        }
      }
      FragmentsSplitEveryBoundary(s[1..], next);
      assert QuoteFragments(s, current) == QuoteFragments(s[1..], next);
    }
  }

  // ---------------------------------------------------------------------
  // The authors column and pairing

  /** `parseAuthors`: blank gives no authors; otherwise one trimmed entry per
      comma-separated piece, empty ones kept so that positions line up. */
  function AuthorList(raw: string): seq<string> {
    if IsBlank(raw) then []
    else
      var parts := SplitOn(raw, ',');
      seq(|parts|, i requires 0 <= i < |parts| => Trim(parts[i]))
  }

  /** Blank gives no authors; otherwise one trimmed entry per piece, so the
      entries line up with the pieces. */
  lemma AuthorListPositions(raw: string)
    ensures IsBlank(raw) ==> AuthorList(raw) == []
    ensures !IsBlank(raw) ==> |AuthorList(raw)| == Count(raw, ',') + 1
    ensures !IsBlank(raw) ==> forall i :: 0 <= i < |AuthorList(raw)| ==> AuthorList(raw)[i] == Trim(SplitOn(raw, ',')[i])
  {
  }

  /** The author of quote `index`, as the source tests it. */
  function AuthorAt(authors: seq<string>, index: nat): Option<string> {
    if index < |authors| then
      var a := authors[index];
      if a != [] && !IsBlank(a) && a != " " then Some(a) else None
    else None
  }

  /** `pairQuotesWithAuthors`. */
  function PairQuotesWithAuthors(quotes: seq<string>, authors: seq<string>): seq<QuoteAuthorPair> {
    seq(|quotes|, i requires 0 <= i < |quotes| => QuoteAuthorPair(quotes[i], AuthorAt(authors, i)))
  }

  /** Quote i goes with author i when that entry exists and is not blank,
      and with no author otherwise. */
  lemma PairingIsPositional(quotes: seq<string>, authors: seq<string>)
    ensures |PairQuotesWithAuthors(quotes, authors)| == |quotes|
    ensures forall i :: 0 <= i < |quotes| ==> PairQuotesWithAuthors(quotes, authors)[i].quote == quotes[i]
    ensures forall i :: 0 <= i < |quotes| ==>
      PairQuotesWithAuthors(quotes, authors)[i].author == (if i < |authors| && !IsBlank(authors[i]) then Some(authors[i]) else None)
  {
    assert IsBlank([]) && IsBlank(" ");
  }

  /** The supporting values column: comma-separated, cleaned, empties dropped. */
  function SupportingValueList(raw: string): seq<string> {
    var parts := SplitOn(raw, ',');
    Filter(seq(|parts|, i requires 0 <= i < |parts| => CleanValue(parts[i])), (v: string) => v != [])
  }

  /** Every supporting value read is non-empty and trimmed. */
  lemma SupportingValuesClean(raw: string)
    ensures forall i :: 0 <= i < |SupportingValueList(raw)| ==>
      SupportingValueList(raw)[i] != [] && IsTrimmed(SupportingValueList(raw)[i])
  {
    var parts := SplitOn(raw, ',');
    var cleaned := seq(|parts|, i requires 0 <= i < |parts| => CleanValue(parts[i]));
    var r := Filter(cleaned, (v: string) => v != []);
    FilterMembers(cleaned, (v: string) => v != []);
    forall i | 0 <= i < |r| ensures r[i] != [] && IsTrimmed(r[i]) {
      var j :| 0 <= j < |cleaned| && cleaned[j] == r[i];
      CleanValueShape(parts[j]);
    }
  }

  // ---------------------------------------------------------------------
  // Rows

  /** Reference definition of `parseCSVRowImproved`: a line with fewer than
      eight fields is no row; otherwise only columns 2, 4, 6 and 7 are read. */
  function ParseRow(line: string): Option<ParsedRow> {
    var parts := CsvLine(line);
    if |parts| < 8 then None
    else Some(RowFromRolls(parts[2], parts[4], parts[6], parts[7]))
  }

  function RowFromRolls(coreValueRaw: string, supportingValuesRaw: string, quotesRaw: string, authorsRaw: string): ParsedRow {
    ParsedRow(CleanValue(coreValueRaw), SupportingValueList(supportingValuesRaw), QuoteList(quotesRaw), AuthorList(authorsRaw))
  }

  /** A line gives a row exactly when it has at least eight fields. */
  lemma RowNeedsEightFields(line: string)
    ensures ParseRow(line).None? <==> |CsvLine(line)| < 8
  {
  }

  /** Two lines that agree on columns 2, 4, 6 and 7 give the same row. */
  lemma RowReadsOnlyRollColumns(a: string, b: string)
    requires |CsvLine(a)| >= 8 && |CsvLine(b)| >= 8
    requires CsvLine(a)[2] == CsvLine(b)[2] && CsvLine(a)[4] == CsvLine(b)[4]
    requires CsvLine(a)[6] == CsvLine(b)[6] && CsvLine(a)[7] == CsvLine(b)[7]
    ensures ParseRow(a) == ParseRow(b)
  {
  }

  /** `parseCSVRowImproved`. */
  method ParseCSVRowImproved(line: string) returns (row: Option<ParsedRow>)
    ensures row == ParseRow(line)
  {
    var parts := ParseCSVLine(line);
    if |parts| < 8 {
      return None;
    }
    var coreValue := CleanValue(parts[2]);
    var supportingValues := SupportingValueList(parts[4]);
    var quotes := ParseQuotes(parts[6]);
    var authors := AuthorList(parts[7]);
    ghost var expected := RowFromRolls(parts[2], parts[4], parts[6], parts[7]);
    assert coreValue == expected.coreValue && supportingValues == expected.supportingValues;
    assert quotes == expected.quotes && authors == expected.authors;
    row := Some(ParsedRow(coreValue, supportingValues, quotes, authors));
  }

  // ---------------------------------------------------------------------
  // Descriptions and categories

  /** The fixed descriptions of the five known values. */
  const Descriptions: map<string, string> := map[
    "Balance" := "Finding harmony and equilibrium in all aspects of life",
    "Contribution" := "Making a positive impact and serving others meaningfully",
    "Freedom" := "Liberation from limitations and the power to choose your path",
    "Growth" := "Continuous learning, development, and personal evolution",
    "Authenticity" := "Being true to your genuine self and living with integrity"
  ]

  const KnownValues: set<string> := {"Balance", "Contribution", "Freedom", "Growth", "Authenticity"}

  /** `getValueDescription`: the fixed text of a known value, otherwise a
      sentence built from the lower-cased value. */
  function ValueDescription(value: string): string {
    if value in Descriptions then Descriptions[value]
    else "Embodying the principle of " + ToLower(value)
  }

  /** Every value gets a non-empty description, exactly the five known
      values have a fixed one, and any other value gets the generic sentence. */
  lemma ValueDescriptionShape(value: string)
    ensures ValueDescription(value) != []
    ensures value in KnownValues <==> value in Descriptions
    ensures value in KnownValues ==> value in Descriptions && ValueDescription(value) == Descriptions[value]
    ensures value !in KnownValues ==> ValueDescription(value) == "Embodying the principle of " + ToLower(value)
  {
    assert Descriptions.Keys == KnownValues;
  }

  /** `categorizeQuote`, as the source writes it: an if-chain on keywords of
      the lower-cased text. */
  function CategorizeQuote(text: string): string {
    var lower := ToLower(text);
    if Contains(lower, "love") || Contains(lower, "heart") || Contains(lower, "compassion") then "Love & Compassion"
    else if Contains(lower, "fear") || Contains(lower, "courage") || Contains(lower, "strength") then "Courage & Strength"
    else if Contains(lower, "wisdom") || Contains(lower, "knowledge") || Contains(lower, "learn") then "Wisdom & Insight"
    else if Contains(lower, "grow") || Contains(lower, "change") || Contains(lower, "transform") then "Growth & Transformation"
    else if Contains(lower, "peace") || Contains(lower, "calm") || Contains(lower, "present") then "Peace & Presence"
    else "General Wisdom"
  }

  datatype CategoryRule = CategoryRule(name: string, keywords: seq<string>)

  /** The categories in priority order. */
  const CategoryRules: seq<CategoryRule> := [
    CategoryRule("Love & Compassion", ["love", "heart", "compassion"]),
    CategoryRule("Courage & Strength", ["fear", "courage", "strength"]),
    CategoryRule("Wisdom & Insight", ["wisdom", "knowledge", "learn"]),
    CategoryRule("Growth & Transformation", ["grow", "change", "transform"]),
    CategoryRule("Peace & Presence", ["peace", "calm", "present"])
  ]

  /** Independent definition: the first rule with a keyword in the text. */
  function FirstMatchingCategory(rules: seq<CategoryRule>, lower: string): (name: string)
    ensures name == "General Wisdom" || exists k :: 0 <= k < |rules| && name == rules[k].name
  {
    if rules == [] then "General Wisdom"
    else if ContainsAny(lower, rules[0].keywords) then rules[0].name
    else FirstMatchingCategory(rules[1..], lower)
  }

  /** The if-chain is the priority-ordered rule list with the
      "General Wisdom" default. */
  lemma CategorizeIsFirstMatch(text: string)
    ensures CategorizeQuote(text) == FirstMatchingCategory(CategoryRules, ToLower(text))
  {
    var lower := ToLower(text);
    var r := CategoryRules;
    AnyOfThree(lower, "love", "heart", "compassion");
    AnyOfThree(lower, "fear", "courage", "strength");
    AnyOfThree(lower, "wisdom", "knowledge", "learn");
    AnyOfThree(lower, "grow", "change", "transform");
    AnyOfThree(lower, "peace", "calm", "present");
    var r1 := r[1..];
    var r2 := r1[1..];
    var r3 := r2[1..];
    var r4 := r3[1..];
    assert r4[1..] == [];
    assert FirstMatchingCategory(r4, lower) == if ContainsAny(lower, r4[0].keywords) then r4[0].name else "General Wisdom";
    assert FirstMatchingCategory(r3, lower) == if ContainsAny(lower, r3[0].keywords) then r3[0].name else FirstMatchingCategory(r4, lower);
    assert FirstMatchingCategory(r2, lower) == if ContainsAny(lower, r2[0].keywords) then r2[0].name else FirstMatchingCategory(r3, lower);
    assert FirstMatchingCategory(r1, lower) == if ContainsAny(lower, r1[0].keywords) then r1[0].name else FirstMatchingCategory(r2, lower);
  }

  lemma AnyOfThree(hay: string, a: string, b: string, c: string)
    ensures ContainsAny(hay, [a, b, c]) <==> Contains(hay, a) || Contains(hay, b) || Contains(hay, c)
  {
    var t := [a, b, c];
    assert t[0] == a && t[1] == b && t[2] == c;
  }
}
