/** `parseNotionCSV`: from the text of a Notion export to a whole store.
    The data rows are read, the distinct core values, supporting values and
    author names are collected in first-seen order, one record is made for
    each, quotes are made once per cleaned text, and the two junction
    tables are filled from the rows, each pair at most once. Ids come from
    `mint`: the k-th id the import asks for is `mint(k)`. */
module NotionImport {
  import opened Wrappers
  import opened Strings
  import opened Tables
  import opened RelationalTypes
  import opened DataParser

  // ---------------------------------------------------------------------
  // Lines to rows

  /** The lines after the header line. */
  function DataLines(lines: seq<string>): seq<string> {
    if lines == [] then [] else lines[1..]
  }

  /** The row one line gives: none for a blank line or a short one. */
  function RowOf(line: string): seq<ParsedRow> {
    var t := Trim(line);
    if t == [] then []
    else match ParseRow(t)
      case Some(row) => [row]
      case None => []
  }

  function RowsOf(lines: seq<string>): seq<ParsedRow> {
    if lines == [] then [] else RowOf(lines[0]) + RowsOf(lines[1..])
  }

  /** The rows of the whole export. */
  function ImportedRows(csvContent: string): seq<ParsedRow> {
    RowsOf(DataLines(SplitOn(csvContent, '\n')))
  }

  lemma {:induction false} RowsOfAppend(a: seq<string>, b: seq<string>)
    ensures RowsOf(a + b) == RowsOf(a) + RowsOf(b)
  {
    if a == [] {
      assert a + b == b;
    } else {
      assert (a + b)[0] == a[0] && (a + b)[1..] == a[1..] + b;
      RowsOfAppend(a[1..], b);
      AppendAssoc(RowOf(a[0]), RowsOf(a[1..]), RowsOf(b));
    }
  }

  /** A blank line contributes nothing, wherever it is. */
  lemma BlankLineSkipped(before: seq<string>, line: string, after: seq<string>)
    requires IsBlank(line)
    ensures RowsOf(before + [line] + after) == RowsOf(before) + RowsOf(after)
  {
    RowsOfAppend(before + [line], after);
    RowsOfAppend(before, [line]);
    assert RowsOf([line]) == RowOf(line) + RowsOf([]);
    assert RowsOf(before) + [] == RowsOf(before);
  }

  /** Some line, trimmed, parses to this row. */
  predicate FromSomeLine(row: ParsedRow, lines: seq<string>) {
    exists i :: 0 <= i < |lines| && ParseRow(Trim(lines[i])) == Some(row)
  }

  /** A line gives at most one row, and only the one it parses to. */
  lemma RowOfShape(line: string)
    ensures |RowOf(line)| <= 1
    ensures |RowOf(line)| == 1 ==> ParseRow(Trim(line)) == Some(RowOf(line)[0])
  {
  }

  /** Every row comes from one line, trimmed, with at least eight fields. */
  lemma {:induction false} RowsComeFromLines(lines: seq<string>)
    ensures forall k :: 0 <= k < |RowsOf(lines)| ==> FromSomeLine(RowsOf(lines)[k], lines)
  {
    if lines != [] {
      RowsComeFromLines(lines[1..]);
      RowOfShape(lines[0]);
      var head := RowOf(lines[0]);
      var rest := RowsOf(lines[1..]);
      var all := RowsOf(lines);
      assert all == head + rest;
      forall k | 0 <= k < |all|
        ensures FromSomeLine(all[k], lines)
      {
        if k < |head| {
          assert all[k] == head[0];
          assert ParseRow(Trim(lines[0])) == Some(all[k]);
        } else {
          assert all[k] == rest[k - |head|];
          assert FromSomeLine(rest[k - |head|], lines[1..]);
          var i :| 0 <= i < |lines[1..]| && ParseRow(Trim(lines[1..][i])) == Some(rest[k - |head|]);
          assert lines[1..][i] == lines[i + 1];
        }
      }
    }
  }

  /** The header line is never read. */
  lemma HeaderIgnored(header1: string, header2: string, body: seq<string>)
    ensures RowsOf(DataLines([header1] + body)) == RowsOf(DataLines([header2] + body))
  {
    assert ([header1] + body)[1..] == body;
    assert ([header2] + body)[1..] == body;
  }

  lemma RowsOfStep(lines: seq<string>, i: nat)
    requires i < |lines|
    ensures RowsOf(lines[i..]) == RowOf(lines[i]) + RowsOf(lines[i + 1..])
  {
    assert lines[i..][0] == lines[i] && lines[i..][1..] == lines[i + 1..];
  }

  /** The loop over the lines of the export. */
  method CollectRows(lines: seq<string>) returns (rows: seq<ParsedRow>)
    ensures rows == RowsOf(DataLines(lines))
  {
    rows := [];
    if lines == [] {
      return;
    }
    var i := 1;
    while i < |lines|
      invariant 1 <= i <= |lines|
      invariant rows + RowsOf(lines[i..]) == RowsOf(DataLines(lines))
    {
      RowsOfStep(lines, i);
      AppendAssoc(rows, RowOf(lines[i]), RowsOf(lines[i + 1..]));
      var line := Trim(lines[i]);
      if line == [] {
        assert RowOf(lines[i]) == [] && rows + [] == rows;
        i := i + 1;
        continue;
      }
      var row := ParseCSVRowImproved(line);
      if row.Some? {
        assert RowOf(lines[i]) == [row.value];
        rows := rows + [row.value];
      } else {
        assert RowOf(lines[i]) == [] && rows + [] == rows;
      }
      i := i + 1;
    }
    assert lines[i..] == [];
  }

  // ---------------------------------------------------------------------
  // Collecting the distinct names

  function CoreNames(rows: seq<ParsedRow>): seq<string> {
    if rows == [] then [] else [rows[0].coreValue] + CoreNames(rows[1..])
  }

  function SupportNames(rows: seq<ParsedRow>): seq<string> {
    if rows == [] then [] else rows[0].supportingValues + SupportNames(rows[1..])
  }

  /** The quote/author pairs of all rows, in row order. */
  function PairsOf(rows: seq<ParsedRow>): seq<QuoteAuthorPair> {
    if rows == [] then [] else PairQuotesWithAuthors(rows[0].quotes, rows[0].authors) + PairsOf(rows[1..])
  }

  predicate HasAuthor(p: QuoteAuthorPair) {
    p.author.Some? && !IsBlank(p.author.value)
  }

  /** The author names the pairs carry, in order. */
  function PairAuthorNames(pairs: seq<QuoteAuthorPair>): seq<string> {
    if pairs == [] then []
    else (if HasAuthor(pairs[0]) then [pairs[0].author.value] else []) + PairAuthorNames(pairs[1..])
  }

  lemma AddAllCons<T>(u: seq<T>, x: T, rest: seq<T>)
    ensures AddAll(u, [x] + rest) == AddAll(SetAdd(u, x), rest)
  {
    assert ([x] + rest)[0] == x && ([x] + rest)[1..] == rest;
  }


  /** `xs.forEach(x => u.add(x))`. */
  method AddEach(u: seq<string>, xs: seq<string>) returns (r: seq<string>)
    ensures r == AddAll(u, xs)
  {
    r := u;
    var j := 0;
    while j < |xs|
      invariant 0 <= j <= |xs|
      invariant AddAll(r, xs[j..]) == AddAll(u, xs)
    {
      assert xs[j..][0] == xs[j] && xs[j..][1..] == xs[j + 1..];
      r := SetAdd(r, xs[j]);
      j := j + 1;
    }
    assert xs[j..] == [];
  }

  /** `pairs.forEach(...)` inside a row: every pair is kept, and the author
      of a pair whose author is not blank joins the author Set. */
  method CollectPairs(pairs: seq<QuoteAuthorPair>, authorSet: seq<string>, rowPairs: seq<QuoteAuthorPair>)
    returns (pairs': seq<QuoteAuthorPair>, authorSet': seq<string>)
    ensures pairs' == pairs + rowPairs
    ensures authorSet' == AddAll(authorSet, PairAuthorNames(rowPairs))
  {
    pairs', authorSet' := pairs, authorSet;
    var k := 0;
    while k < |rowPairs|
      invariant 0 <= k <= |rowPairs|
      invariant pairs' == pairs + rowPairs[..k]
      invariant AddAll(authorSet', PairAuthorNames(rowPairs[k..])) == AddAll(authorSet, PairAuthorNames(rowPairs))
    {
      var pair := rowPairs[k];
      ghost var rest := PairAuthorNames(rowPairs[k + 1..]);
      assert rowPairs[k..][0] == pair && rowPairs[k..][1..] == rowPairs[k + 1..];
      assert rowPairs[..k + 1] == rowPairs[..k] + [pair];
      AppendAssoc(pairs, rowPairs[..k], [pair]);
      pairs' := pairs' + [pair];
      if pair.author.Some? && Trim(pair.author.value) != [] {
        AddAllCons(authorSet', pair.author.value, rest);
        authorSet' := SetAdd(authorSet', pair.author.value);
      } else {
        assert [] + rest == rest;
      }
      k := k + 1;
    }
    assert rowPairs[..k] == rowPairs && rowPairs[k..] == [];
  }

  /** The `forEach` over the rows that fills the three Sets and the list of
      pairs. */
  method CollectNames(rows: seq<ParsedRow>)
    returns (coreValueSet: seq<string>, supportingValueSet: seq<string>, authorSet: seq<string>, pairs: seq<QuoteAuthorPair>)
    ensures coreValueSet == AddAll([], CoreNames(rows))
    ensures supportingValueSet == AddAll([], SupportNames(rows))
    ensures authorSet == AddAll([], PairAuthorNames(PairsOf(rows)))
    ensures pairs == PairsOf(rows)
  {
    coreValueSet, supportingValueSet, authorSet, pairs := [], [], [], [];
    var i := 0;
    while i < |rows|
      invariant 0 <= i <= |rows|
      invariant AddAll(coreValueSet, CoreNames(rows[i..])) == AddAll([], CoreNames(rows))
      invariant AddAll(supportingValueSet, SupportNames(rows[i..])) == AddAll([], SupportNames(rows))
      invariant pairs + PairsOf(rows[i..]) == PairsOf(rows)
      invariant AddAll(authorSet, PairAuthorNames(PairsOf(rows[i..]))) == AddAll([], PairAuthorNames(PairsOf(rows)))
    {
      var row := rows[i];
      var rowPairs := PairQuotesWithAuthors(row.quotes, row.authors);
      CollectStep(rows, i, coreValueSet, supportingValueSet, authorSet, pairs);
      coreValueSet := SetAdd(coreValueSet, row.coreValue);
      supportingValueSet := AddEach(supportingValueSet, row.supportingValues);
      pairs, authorSet := CollectPairs(pairs, authorSet, rowPairs);
      i := i + 1;
    }
    assert rows[i..] == [];
    assert pairs + [] == pairs;
  }

  /** What one row adds to each of the four collections. */
  lemma CollectStep(rows: seq<ParsedRow>, i: nat, coreValueSet: seq<string>, supportingValueSet: seq<string>,
                    authorSet: seq<string>, pairs: seq<QuoteAuthorPair>)
    requires i < |rows|
    ensures AddAll(coreValueSet, CoreNames(rows[i..]))
      == AddAll(SetAdd(coreValueSet, rows[i].coreValue), CoreNames(rows[i + 1..]))
    ensures AddAll(supportingValueSet, SupportNames(rows[i..]))
      == AddAll(AddAll(supportingValueSet, rows[i].supportingValues), SupportNames(rows[i + 1..]))
    ensures pairs + PairsOf(rows[i..])
      == (pairs + PairQuotesWithAuthors(rows[i].quotes, rows[i].authors)) + PairsOf(rows[i + 1..])
    ensures AddAll(authorSet, PairAuthorNames(PairsOf(rows[i..])))
      == AddAll(AddAll(authorSet, PairAuthorNames(PairQuotesWithAuthors(rows[i].quotes, rows[i].authors))),
                PairAuthorNames(PairsOf(rows[i + 1..])))
  {
    var row := rows[i];
    var later := rows[i + 1..];
    var rowPairs := PairQuotesWithAuthors(row.quotes, row.authors);
    assert rows[i..][0] == row && rows[i..][1..] == later;
    assert CoreNames(rows[i..]) == [row.coreValue] + CoreNames(later);
    AddAllCons(coreValueSet, row.coreValue, CoreNames(later));
    assert SupportNames(rows[i..]) == row.supportingValues + SupportNames(later);
    AddAllAppend(supportingValueSet, row.supportingValues, SupportNames(later));
    assert PairsOf(rows[i..]) == rowPairs + PairsOf(later);
    AppendAssoc(pairs, rowPairs, PairsOf(later));
    PairAuthorNamesAppend(rowPairs, PairsOf(later));
    AddAllAppend(authorSet, PairAuthorNames(rowPairs), PairAuthorNames(PairsOf(later)));
  }

  lemma {:induction false} PairAuthorNamesAppend(a: seq<QuoteAuthorPair>, b: seq<QuoteAuthorPair>)
    ensures PairAuthorNames(a + b) == PairAuthorNames(a) + PairAuthorNames(b)
  {
    if a == [] {
      assert a + b == b;
    } else {
      var head := if HasAuthor(a[0]) then [a[0].author.value] else [];
      assert (a + b)[0] == a[0] && (a + b)[1..] == a[1..] + b;
      assert PairAuthorNames(a + b) == head + PairAuthorNames(a[1..] + b);
      PairAuthorNamesAppend(a[1..], b);
      AppendAssoc(head, PairAuthorNames(a[1..]), PairAuthorNames(b));
    }
  }

  // ---------------------------------------------------------------------
  // Entity records

  /** One active value record per name, ids `mint(base)`, `mint(base + 1)`,
      ..., with the cleaned name and its description. */
  /** The record `parseNotionCSV` makes for one collected value name. */
  function NewValue(name: string, id: Id, now: Timestamp): ValueRecord {
    ValueRecord(id, CleanValue(name), Some(ValueDescription(name)), true, now, now)
  }

  lemma NewValueCongruent(a: string, b: string, i: Id, j: Id, now: Timestamp)
    requires a == b && i == j
    ensures NewValue(a, i, now) == NewValue(b, j, now)
  {
  }

  function ValueRecords(names: seq<string>, mint: nat -> Id, base: nat, now: Timestamp): (r: seq<ValueRecord>)
    ensures |r| == |names|
  {
    if names == [] then []
    else
      [NewValue(names[0], mint(base), now)] + ValueRecords(names[1..], mint, base + 1, now)
  }

  lemma AuthorCongruent(a: string, b: string, i: Id, j: Id, now: Timestamp)
    requires a == b && i == j
    ensures Author(i, CleanValue(a), true, now, now) == Author(j, CleanValue(b), true, now, now)
  {
  }

  function AuthorRecords(names: seq<string>, mint: nat -> Id, base: nat, now: Timestamp): (r: seq<Author>)
    ensures |r| == |names|
  {
    if names == [] then []
    else [Author(mint(base), CleanValue(names[0]), true, now, now)] + AuthorRecords(names[1..], mint, base + 1, now)
  }

  /** The k-th record is made from the k-th name, with the k-th id. */
  lemma {:induction false} ValueRecordsAt(names: seq<string>, mint: nat -> Id, base: nat, now: Timestamp, k: nat)
    requires k < |names|
    ensures ValueRecords(names, mint, base, now)[k]
      == NewValue(names[k], mint(base + k), now)
    decreases k
  {
    var rest := ValueRecords(names[1..], mint, base + 1, now);
    assert ValueRecords(names, mint, base, now) == [NewValue(names[0], mint(base), now)] + rest;
    if k > 0 {
      ValueRecordsAt(names[1..], mint, base + 1, now, k - 1);
      NewValueCongruent(names[1..][k - 1], names[k], mint(base + 1 + (k - 1)), mint(base + k), now);
    }
  }

  lemma {:induction false} AuthorRecordsAt(names: seq<string>, mint: nat -> Id, base: nat, now: Timestamp, k: nat)
    requires k < |names|
    ensures AuthorRecords(names, mint, base, now)[k] == Author(mint(base + k), CleanValue(names[k]), true, now, now)
    decreases k
  {
    var rest := AuthorRecords(names[1..], mint, base + 1, now);
    assert AuthorRecords(names, mint, base, now) == [Author(mint(base), CleanValue(names[0]), true, now, now)] + rest;
    if k > 0 {
      AuthorRecordsAt(names[1..], mint, base + 1, now, k - 1);
      AuthorCongruent(names[1..][k - 1], names[k], mint(base + 1 + (k - 1)), mint(base + k), now);
    }
  }

  // ---------------------------------------------------------------------
  // Quotes

  /** `authors.find(a => a.name === cleanValue(pair.author))?.id || null`,
      asked only when the pair has a non-empty author: the id of the first
      author with the cleaned name, unless that id is empty. */
  function AuthorIdFor(pair: QuoteAuthorPair, authors: seq<Author>): (r: Option<Id>)
    ensures r.Some? ==> r.value != [] && exists k :: 0 <= k < |authors| && authors[k].id == r.value
    ensures (pair.author.None? || pair.author.value == []) ==> r.None?
    ensures pair.author.Some? && pair.author.value != [] ==>
      ((forall k :: 0 <= k < |authors| ==> authors[k].name != CleanValue(pair.author.value)) ==> r.None?)
    ensures pair.author.Some? && pair.author.value != [] ==>
      forall k ::
        (0 <= k < |authors| && authors[k].name == CleanValue(pair.author.value)
         && forall j :: 0 <= j < k ==> authors[j].name != CleanValue(pair.author.value))
        ==> r == (if authors[k].id != [] then Some(authors[k].id) else None)
  {
    if pair.author.Some? && pair.author.value != [] then
      var name := CleanValue(pair.author.value);
      assert forall a: Author :: ((x: Author) => x.name == name)(a) <==> a.name == name;
      match Find(authors, (a: Author) => a.name == name)
      case Some(a) => if a.id != [] then Some(a.id) else None
      case None => None
    else None
  }

  function TextsOf(quotes: seq<Quote>): (r: seq<string>)
    ensures |r| == |quotes|
    ensures forall k :: 0 <= k < |quotes| ==> r[k] == quotes[k].text
  {
    seq(|quotes|, k requires 0 <= k < |quotes| => quotes[k].text)
  }

  function NewQuote(pair: QuoteAuthorPair, authors: seq<Author>, id: Id, now: Timestamp): Quote {
    var text := CleanValue(pair.quote);
    Quote(id, text, AuthorIdFor(pair, authors), None, Some(CategorizeQuote(text)), None, true, now, now)
  }

  /** Reference definition of the quote loop: `acc` are the quotes made so
      far; a pair whose cleaned text is already among them is skipped. */
  function QuotesFrom(pairs: seq<QuoteAuthorPair>, authors: seq<Author>, acc: seq<Quote>,
                      mint: nat -> Id, base: nat, now: Timestamp): (r: seq<Quote>)
    ensures |acc| <= |r| && r[..|acc|] == acc
    decreases |pairs|
  {
    if pairs == [] then acc
    else if CleanValue(pairs[0].quote) in TextsOf(acc) then QuotesFrom(pairs[1..], authors, acc, mint, base, now)
    else
      var r := QuotesFrom(pairs[1..], authors, acc + [NewQuote(pairs[0], authors, mint(base + |acc|), now)], mint, base, now);
      assert r[..|acc|] == (acc + [NewQuote(pairs[0], authors, mint(base + |acc|), now)])[..|acc|];
      r
  }

  /** Quotes are de-duplicated by cleaned text. */
  lemma {:induction false} QuotesDistinct(pairs: seq<QuoteAuthorPair>, authors: seq<Author>, acc: seq<Quote>,
                                          mint: nat -> Id, base: nat, now: Timestamp)
    requires Distinct(TextsOf(acc))
    ensures Distinct(TextsOf(QuotesFrom(pairs, authors, acc, mint, base, now)))
    decreases |pairs|
  {
    if pairs != [] {
      if CleanValue(pairs[0].quote) in TextsOf(acc) {
        QuotesDistinct(pairs[1..], authors, acc, mint, base, now);
      } else {
        var acc' := acc + [NewQuote(pairs[0], authors, mint(base + |acc|), now)];
        assert TextsOf(acc') == TextsOf(acc) + [CleanValue(pairs[0].quote)];
        QuotesDistinct(pairs[1..], authors, acc', mint, base, now);
      }
    }
  }

  /** The text is the cleaned quote of one of the pairs. */
  predicate TextOfSomePair(t: string, pairs: seq<QuoteAuthorPair>) {
    exists j :: 0 <= j < |pairs| && t == CleanValue(pairs[j].quote)
  }

  /** Every pair's cleaned text has a quote: no quote is lost. */
  lemma {:induction false} QuotesCoverPairs(pairs: seq<QuoteAuthorPair>, authors: seq<Author>, acc: seq<Quote>,
                                            mint: nat -> Id, base: nat, now: Timestamp)
    ensures forall j :: 0 <= j < |pairs| ==>
      CleanValue(pairs[j].quote) in TextsOf(QuotesFrom(pairs, authors, acc, mint, base, now))
    decreases |pairs|
  {
    if pairs != [] {
      var r := QuotesFrom(pairs, authors, acc, mint, base, now);
      var rest := pairs[1..];
      var t0 := CleanValue(pairs[0].quote);
      var acc' := if t0 in TextsOf(acc) then acc else acc + [NewQuote(pairs[0], authors, mint(base + |acc|), now)];
      assert r == QuotesFrom(rest, authors, acc', mint, base, now);
      QuotesCoverPairs(rest, authors, acc', mint, base, now);
      assert t0 in TextsOf(r) by {
        var i :| 0 <= i < |acc'| && TextsOf(acc')[i] == t0;
        assert r[..|acc'|] == acc';
        assert r[i] == acc'[i];
      }
      forall j | 0 < j < |pairs| ensures CleanValue(pairs[j].quote) in TextsOf(r) {
        assert pairs[j] == rest[j - 1];
      }
    }
  }

  /** Every quote past `acc` has the text of one of the pairs: no quote is
      invented. */
  lemma {:induction false} QuotesFromPairs(pairs: seq<QuoteAuthorPair>, authors: seq<Author>, acc: seq<Quote>,
                                           mint: nat -> Id, base: nat, now: Timestamp)
    ensures forall k :: |acc| <= k < |QuotesFrom(pairs, authors, acc, mint, base, now)| ==>
      TextOfSomePair(TextsOf(QuotesFrom(pairs, authors, acc, mint, base, now))[k], pairs)
    decreases |pairs|
  {
    if pairs != [] {
      var r := QuotesFrom(pairs, authors, acc, mint, base, now);
      var rest := pairs[1..];
      var t0 := CleanValue(pairs[0].quote);
      var acc' := if t0 in TextsOf(acc) then acc else acc + [NewQuote(pairs[0], authors, mint(base + |acc|), now)];
      assert r == QuotesFrom(rest, authors, acc', mint, base, now);
      QuotesFromPairs(rest, authors, acc', mint, base, now);
      forall k | |acc| <= k < |r|
        ensures TextOfSomePair(TextsOf(r)[k], pairs)
      {
        if k < |acc'| {
          assert r[..|acc'|] == acc';
          assert TextsOf(r)[k] == acc'[k].text == t0;
        } else {
          var j :| 0 <= j < |rest| && TextsOf(r)[k] == CleanValue(rest[j].quote);
          assert pairs[j + 1] == rest[j];
        }
      }
    }
  }

  /** The quotes after one more pair. */
  function AfterPair(pair: QuoteAuthorPair, authors: seq<Author>, quotes: seq<Quote>,
                     mint: nat -> Id, base: nat, now: Timestamp): seq<Quote> {
    if CleanValue(pair.quote) in TextsOf(quotes) then quotes
    else quotes + [NewQuote(pair, authors, mint(base + |quotes|), now)]
  }

  lemma QuotesFromStep(pairs: seq<QuoteAuthorPair>, j: nat, authors: seq<Author>, quotes: seq<Quote>,
                       mint: nat -> Id, base: nat, now: Timestamp)
    requires j < |pairs|
    ensures QuotesFrom(pairs[j..], authors, quotes, mint, base, now)
      == QuotesFrom(pairs[j + 1..], authors, AfterPair(pairs[j], authors, quotes, mint, base, now), mint, base, now)
  {
    assert pairs[j..][0] == pairs[j] && pairs[j..][1..] == pairs[j + 1..];
  }

  lemma TextsOfSnoc(quotes: seq<Quote>, q: Quote)
    ensures TextsOf(quotes + [q]) == TextsOf(quotes) + [q.text]
  {
    assert forall k :: 0 <= k < |quotes| ==> (quotes + [q])[k] == quotes[k];
  }

  /** The loop of `parseNotionCSV` that creates the quotes, with the set of
      texts seen so far. */
  method BuildQuotes(pairs: seq<QuoteAuthorPair>, authors: seq<Author>, mint: nat -> Id, base: nat, now: Timestamp)
    returns (quotes: seq<Quote>)
    ensures quotes == QuotesFrom(pairs, authors, [], mint, base, now)
  {
    quotes := [];
    var uniqueQuotes: set<string> := {};
    var j := 0;
    while j < |pairs|
      invariant 0 <= j <= |pairs|
      invariant forall t :: t in uniqueQuotes <==> t in TextsOf(quotes)
      invariant QuotesFrom(pairs[j..], authors, quotes, mint, base, now) == QuotesFrom(pairs, authors, [], mint, base, now)
    {
      QuotesFromStep(pairs, j, authors, quotes, mint, base, now);
      var pair := pairs[j];
      var cleanQuote := CleanValue(pair.quote);
      if cleanQuote !in uniqueQuotes {
        uniqueQuotes := uniqueQuotes + {cleanQuote};
        var authorId := AuthorIdFor(pair, authors);
        var q := Quote(mint(base + |quotes|), cleanQuote, authorId, None, Some(CategorizeQuote(cleanQuote)), None, true, now, now);
        assert q == NewQuote(pair, authors, mint(base + |quotes|), now);
        TextsOfSnoc(quotes, q);
        quotes := quotes + [q];
      }
      j := j + 1;
    }
    assert pairs[j..] == [];
  }

  // ---------------------------------------------------------------------
  // Junction tables

  function CoreFor(row: ParsedRow, coreValues: seq<CoreValue>): Option<CoreValue> {
    var name := CleanValue(row.coreValue);
    Find(coreValues, (cv: CoreValue) => cv.value == name)
  }

  function SupportFor(name: string, supportingValues: seq<SupportingValue>): Option<SupportingValue> {
    var clean := CleanValue(name);
    Find(supportingValues, (sv: SupportingValue) => sv.value == clean)
  }

  function QuoteFor(text: string, quotes: seq<Quote>): Option<Quote> {
    var clean := CleanValue(text);
    Find(quotes, (q: Quote) => q.text == clean)
  }

  /** The (core value id, supporting value id) pairs a row asks for, in order. */
  function SupportLinksOf(cvId: Id, names: seq<string>, supportingValues: seq<SupportingValue>): seq<(Id, Id)> {
    if names == [] then []
    else
      (match SupportFor(names[0], supportingValues)
       case Some(sv) => [(cvId, sv.id)]
       case None => []) + SupportLinksOf(cvId, names[1..], supportingValues)
  }

  function SupportLinks(rows: seq<ParsedRow>, coreValues: seq<CoreValue>, supportingValues: seq<SupportingValue>): seq<(Id, Id)> {
    if rows == [] then []
    else
      (match CoreFor(rows[0], coreValues)
       case Some(cv) => SupportLinksOf(cv.id, rows[0].supportingValues, supportingValues)
       case None => []) + SupportLinks(rows[1..], coreValues, supportingValues)
  }

  function QuoteLinksOf(cvId: Id, texts: seq<string>, quotes: seq<Quote>): seq<(Id, Id)> {
    if texts == [] then []
    else
      (match QuoteFor(texts[0], quotes)
       case Some(q) => [(cvId, q.id)]
       case None => []) + QuoteLinksOf(cvId, texts[1..], quotes)
  }

  function QuoteLinks(rows: seq<ParsedRow>, coreValues: seq<CoreValue>, quotes: seq<Quote>): seq<(Id, Id)> {
    if rows == [] then []
    else
      (match CoreFor(rows[0], coreValues)
       case Some(cv) => QuoteLinksOf(cv.id, rows[0].quotes, quotes)
       case None => []) + QuoteLinks(rows[1..], coreValues, quotes)
  }

  function SupportPairs(rels: seq<CoreValueSupportingValue>): (r: seq<(Id, Id)>)
    ensures |r| == |rels|
    ensures forall k :: 0 <= k < |rels| ==> r[k] == (rels[k].coreValueId, rels[k].supportingValueId)
  {
    seq(|rels|, k requires 0 <= k < |rels| => (rels[k].coreValueId, rels[k].supportingValueId))
  }

  function QuotePairs(rels: seq<CoreValueQuote>): (r: seq<(Id, Id)>)
    ensures |r| == |rels|
    ensures forall k :: 0 <= k < |rels| ==> r[k] == (rels[k].coreValueId, rels[k].quoteId)
  {
    seq(|rels|, k requires 0 <= k < |rels| => (rels[k].coreValueId, rels[k].quoteId))
  }

  /** The `exists` check on the first junction table. */
  function HasSupportLink(rels: seq<CoreValueSupportingValue>, cvId: Id, svId: Id): (b: bool)
    ensures b <==> (cvId, svId) in SupportPairs(rels)
  {
    var b := Any(rels, (rel: CoreValueSupportingValue) => rel.coreValueId == cvId && rel.supportingValueId == svId);
    assert (cvId, svId) in SupportPairs(rels) ==> b by {
      if (cvId, svId) in SupportPairs(rels) {
        var k :| 0 <= k < |rels| && SupportPairs(rels)[k] == (cvId, svId);
        assert rels[k].coreValueId == cvId && rels[k].supportingValueId == svId;
      }
    }
    b
  }

  function HasQuoteLink(rels: seq<CoreValueQuote>, cvId: Id, quoteId: Id): (b: bool)
    ensures b <==> (cvId, quoteId) in QuotePairs(rels)
  {
    var b := Any(rels, (rel: CoreValueQuote) => rel.coreValueId == cvId && rel.quoteId == quoteId);
    assert (cvId, quoteId) in QuotePairs(rels) ==> b by {
      if (cvId, quoteId) in QuotePairs(rels) {
        var k :| 0 <= k < |rels| && QuotePairs(rels)[k] == (cvId, quoteId);
        assert rels[k].coreValueId == cvId && rels[k].quoteId == quoteId;
      }
    }
    b
  }

  /** What one supporting value name does to the pairs already present. */
  function AfterSupportName(pairs: seq<(Id, Id)>, cvId: Id, name: string, supportingValues: seq<SupportingValue>): seq<(Id, Id)> {
    match SupportFor(name, supportingValues)
    case Some(sv) => SetAdd(pairs, (cvId, sv.id))
    case None => pairs
  }

  lemma SupportLinksStep(pairs: seq<(Id, Id)>, cvId: Id, names: seq<string>, j: nat, supportingValues: seq<SupportingValue>)
    requires j < |names|
    ensures AddAll(pairs, SupportLinksOf(cvId, names[j..], supportingValues))
      == AddAll(AfterSupportName(pairs, cvId, names[j], supportingValues), SupportLinksOf(cvId, names[j + 1..], supportingValues))
  {
    assert names[j..][0] == names[j] && names[j..][1..] == names[j + 1..];
    var rest := SupportLinksOf(cvId, names[j + 1..], supportingValues);
    match SupportFor(names[j], supportingValues)
    case Some(sv) =>
      assert SupportLinksOf(cvId, names[j..], supportingValues) == [(cvId, sv.id)] + rest;
      AddAllCons(pairs, (cvId, sv.id), rest);
    case None =>
      assert SupportLinksOf(cvId, names[j..], supportingValues) == [] + rest;
      assert [] + rest == rest;
  }

  /** What one quote text does to the pairs already present. */
  function AfterQuoteText(pairs: seq<(Id, Id)>, cvId: Id, text: string, quotes: seq<Quote>): seq<(Id, Id)> {
    match QuoteFor(text, quotes)
    case Some(q) => SetAdd(pairs, (cvId, q.id))
    case None => pairs
  }

  lemma QuoteLinksStep(pairs: seq<(Id, Id)>, cvId: Id, texts: seq<string>, j: nat, quotes: seq<Quote>)
    requires j < |texts|
    ensures AddAll(pairs, QuoteLinksOf(cvId, texts[j..], quotes))
      == AddAll(AfterQuoteText(pairs, cvId, texts[j], quotes), QuoteLinksOf(cvId, texts[j + 1..], quotes))
  {
    assert texts[j..][0] == texts[j] && texts[j..][1..] == texts[j + 1..];
    var rest := QuoteLinksOf(cvId, texts[j + 1..], quotes);
    match QuoteFor(texts[j], quotes)
    case Some(q) =>
      assert QuoteLinksOf(cvId, texts[j..], quotes) == [(cvId, q.id)] + rest;
      AddAllCons(pairs, (cvId, q.id), rest);
    case None =>
      assert QuoteLinksOf(cvId, texts[j..], quotes) == [] + rest;
      assert [] + rest == rest;
  }

  /** The `exists` check and the push for one supporting value. */
  method AddSupportLink(cvsv: seq<CoreValueSupportingValue>, cvId: Id, svId: Id, mint: nat -> Id, next: nat, now: Timestamp)
    returns (cvsv': seq<CoreValueSupportingValue>, next': nat)
    requires forall k :: 0 <= k < |cvsv| ==> cvsv[k].createdAt == now
    ensures SupportPairs(cvsv') == SetAdd(SupportPairs(cvsv), (cvId, svId))
    ensures forall k :: 0 <= k < |cvsv'| ==> cvsv'[k].createdAt == now
    ensures next' == next + |cvsv'| - |cvsv|
  {
    cvsv', next' := cvsv, next;
    var linked := HasSupportLink(cvsv, cvId, svId);
    if !linked {
      var rel := CoreValueSupportingValue(mint(next), cvId, svId, now);
      assert SupportPairs(cvsv + [rel]) == SupportPairs(cvsv) + [(cvId, svId)];
      cvsv', next' := cvsv + [rel], next + 1;
    }
  }

  /** The `exists` check and the push for one quote. */
  method AddQuoteLink(cvq: seq<CoreValueQuote>, cvId: Id, quoteId: Id, mint: nat -> Id, next: nat, now: Timestamp)
    returns (cvq': seq<CoreValueQuote>, next': nat)
    requires forall k :: 0 <= k < |cvq| ==> cvq[k].createdAt == now
    ensures QuotePairs(cvq') == SetAdd(QuotePairs(cvq), (cvId, quoteId))
    ensures forall k :: 0 <= k < |cvq'| ==> cvq'[k].createdAt == now
    ensures next' == next + |cvq'| - |cvq|
  {
    cvq', next' := cvq, next;
    var linked := HasQuoteLink(cvq, cvId, quoteId);
    if !linked {
      var rel := CoreValueQuote(mint(next), cvId, quoteId, now);
      assert QuotePairs(cvq + [rel]) == QuotePairs(cvq) + [(cvId, quoteId)];
      cvq', next' := cvq + [rel], next + 1;
    }
  }

  /** `row.supportingValues.forEach(...)` for a row whose core value has id
      `cvId`: each pair found and not yet present is appended, with the next
      id. */
  method LinkSupport(cvsv: seq<CoreValueSupportingValue>, cvId: Id, names: seq<string>,
                     supportingValues: seq<SupportingValue>, mint: nat -> Id, next: nat, now: Timestamp)
    returns (cvsv': seq<CoreValueSupportingValue>, next': nat)
    requires forall k :: 0 <= k < |cvsv| ==> cvsv[k].createdAt == now
    ensures SupportPairs(cvsv') == AddAll(SupportPairs(cvsv), SupportLinksOf(cvId, names, supportingValues))
    ensures forall k :: 0 <= k < |cvsv'| ==> cvsv'[k].createdAt == now
    ensures next' == next + |cvsv'| - |cvsv|
  {
    cvsv', next' := cvsv, next;
    var j := 0;
    while j < |names|
      invariant 0 <= j <= |names|
      invariant AddAll(SupportPairs(cvsv'), SupportLinksOf(cvId, names[j..], supportingValues))
        == AddAll(SupportPairs(cvsv), SupportLinksOf(cvId, names, supportingValues))
      invariant forall k :: 0 <= k < |cvsv'| ==> cvsv'[k].createdAt == now
      invariant next' == next + |cvsv'| - |cvsv|
    {
      SupportLinksStep(SupportPairs(cvsv'), cvId, names, j, supportingValues);
      var supportingValue := SupportFor(names[j], supportingValues);
      if supportingValue.Some? {
        cvsv', next' := AddSupportLink(cvsv', cvId, supportingValue.value.id, mint, next', now);
      }
      j := j + 1;
    }
    assert names[j..] == [];
  }

  /** `row.quotes.forEach(...)` for a row whose core value has id `cvId`. */
  method LinkQuotes(cvq: seq<CoreValueQuote>, cvId: Id, texts: seq<string>,
                    quotes: seq<Quote>, mint: nat -> Id, next: nat, now: Timestamp)
    returns (cvq': seq<CoreValueQuote>, next': nat)
    requires forall k :: 0 <= k < |cvq| ==> cvq[k].createdAt == now
    ensures QuotePairs(cvq') == AddAll(QuotePairs(cvq), QuoteLinksOf(cvId, texts, quotes))
    ensures forall k :: 0 <= k < |cvq'| ==> cvq'[k].createdAt == now
    ensures next' == next + |cvq'| - |cvq|
  {
    cvq', next' := cvq, next;
    var j := 0;
    while j < |texts|
      invariant 0 <= j <= |texts|
      invariant AddAll(QuotePairs(cvq'), QuoteLinksOf(cvId, texts[j..], quotes))
        == AddAll(QuotePairs(cvq), QuoteLinksOf(cvId, texts, quotes))
      invariant forall k :: 0 <= k < |cvq'| ==> cvq'[k].createdAt == now
      invariant next' == next + |cvq'| - |cvq|
    {
      QuoteLinksStep(QuotePairs(cvq'), cvId, texts, j, quotes);
      var quote := QuoteFor(texts[j], quotes);
      if quote.Some? {
        cvq', next' := AddQuoteLink(cvq', cvId, quote.value.id, mint, next', now);
      }
      j := j + 1;
    }
    assert texts[j..] == [];
  }

  /** What one row does to the pairs of each junction table. */
  function AfterRowSupport(pairs: seq<(Id, Id)>, row: ParsedRow, coreValues: seq<CoreValue>,
                           supportingValues: seq<SupportingValue>): seq<(Id, Id)> {
    match CoreFor(row, coreValues)
    case Some(cv) => AddAll(pairs, SupportLinksOf(cv.id, row.supportingValues, supportingValues))
    case None => pairs
  }

  function AfterRowQuotes(pairs: seq<(Id, Id)>, row: ParsedRow, coreValues: seq<CoreValue>, quotes: seq<Quote>): seq<(Id, Id)> {
    match CoreFor(row, coreValues)
    case Some(cv) => AddAll(pairs, QuoteLinksOf(cv.id, row.quotes, quotes))
    case None => pairs
  }

  lemma SupportRowStep(pairs: seq<(Id, Id)>, rows: seq<ParsedRow>, i: nat, coreValues: seq<CoreValue>,
                       supportingValues: seq<SupportingValue>)
    requires i < |rows|
    ensures AddAll(pairs, SupportLinks(rows[i..], coreValues, supportingValues))
      == AddAll(AfterRowSupport(pairs, rows[i], coreValues, supportingValues), SupportLinks(rows[i + 1..], coreValues, supportingValues))
  {
    assert rows[i..][0] == rows[i] && rows[i..][1..] == rows[i + 1..];
    var rest := SupportLinks(rows[i + 1..], coreValues, supportingValues);
    match CoreFor(rows[i], coreValues)
    case Some(cv) =>
      var head := SupportLinksOf(cv.id, rows[i].supportingValues, supportingValues);
      assert SupportLinks(rows[i..], coreValues, supportingValues) == head + rest;
      AddAllAppend(pairs, head, rest);
    case None =>
      assert SupportLinks(rows[i..], coreValues, supportingValues) == [] + rest;
      assert [] + rest == rest;
  }

  lemma QuoteRowStep(pairs: seq<(Id, Id)>, rows: seq<ParsedRow>, i: nat, coreValues: seq<CoreValue>, quotes: seq<Quote>)
    requires i < |rows|
    ensures AddAll(pairs, QuoteLinks(rows[i..], coreValues, quotes))
      == AddAll(AfterRowQuotes(pairs, rows[i], coreValues, quotes), QuoteLinks(rows[i + 1..], coreValues, quotes))
  {
    assert rows[i..][0] == rows[i] && rows[i..][1..] == rows[i + 1..];
    var rest := QuoteLinks(rows[i + 1..], coreValues, quotes);
    match CoreFor(rows[i], coreValues)
    case Some(cv) =>
      var head := QuoteLinksOf(cv.id, rows[i].quotes, quotes);
      assert QuoteLinks(rows[i..], coreValues, quotes) == head + rest;
      AddAllAppend(pairs, head, rest);
    case None =>
      assert QuoteLinks(rows[i..], coreValues, quotes) == [] + rest;
      assert [] + rest == rest;
  }

  /** The second `forEach` over the rows. The pairs of each junction table
      are exactly the distinct pairs the rows ask for, in first-asked order. */
  method LinkRows(rows: seq<ParsedRow>, coreValues: seq<CoreValue>, supportingValues: seq<SupportingValue>,
                  quotes: seq<Quote>, mint: nat -> Id, base: nat, now: Timestamp)
    returns (cvsv: seq<CoreValueSupportingValue>, cvq: seq<CoreValueQuote>, next: nat)
    ensures SupportPairs(cvsv) == AddAll([], SupportLinks(rows, coreValues, supportingValues))
    ensures QuotePairs(cvq) == AddAll([], QuoteLinks(rows, coreValues, quotes))
    ensures forall k :: 0 <= k < |cvsv| ==> cvsv[k].createdAt == now
    ensures forall k :: 0 <= k < |cvq| ==> cvq[k].createdAt == now
    ensures next == base + |cvsv| + |cvq|
  {
    cvsv, cvq, next := [], [], base;
    var i := 0;
    while i < |rows|
      invariant 0 <= i <= |rows|
      invariant AddAll(SupportPairs(cvsv), SupportLinks(rows[i..], coreValues, supportingValues))
        == AddAll([], SupportLinks(rows, coreValues, supportingValues))
      invariant AddAll(QuotePairs(cvq), QuoteLinks(rows[i..], coreValues, quotes))
        == AddAll([], QuoteLinks(rows, coreValues, quotes))
      invariant forall k :: 0 <= k < |cvsv| ==> cvsv[k].createdAt == now
      invariant forall k :: 0 <= k < |cvq| ==> cvq[k].createdAt == now
      invariant next == base + |cvsv| + |cvq|
    {
      var row := rows[i];
      SupportRowStep(SupportPairs(cvsv), rows, i, coreValues, supportingValues);
      QuoteRowStep(QuotePairs(cvq), rows, i, coreValues, quotes);
      var coreValue := CoreFor(row, coreValues);
      if coreValue.Some? {
        var cv := coreValue.value;
        cvsv, next := LinkSupport(cvsv, cv.id, row.supportingValues, supportingValues, mint, next, now);
        cvq, next := LinkQuotes(cvq, cv.id, row.quotes, quotes, mint, next, now);
      }
      i := i + 1;
    }
    assert rows[i..] == [];
  }

  /** Some value record has this id. */
  predicate HasValueId(values: seq<ValueRecord>, id: Id) {
    exists a :: 0 <= a < |values| && values[a].id == id
  }

  /** Some quote has this id. */
  predicate HasQuoteId(quotes: seq<Quote>, id: Id) {
    exists b :: 0 <= b < |quotes| && quotes[b].id == id
  }

  /** Every pair a row asks for names a core value and a supporting value
      that exist. */
  lemma {:induction false} SupportLinksResolve(rows: seq<ParsedRow>, coreValues: seq<CoreValue>, supportingValues: seq<SupportingValue>)
    ensures forall k :: 0 <= k < |SupportLinks(rows, coreValues, supportingValues)| ==>
      HasValueId(coreValues, SupportLinks(rows, coreValues, supportingValues)[k].0)
      && HasValueId(supportingValues, SupportLinks(rows, coreValues, supportingValues)[k].1)
  {
    if rows != [] {
      var all := SupportLinks(rows, coreValues, supportingValues);
      var tail := SupportLinks(rows[1..], coreValues, supportingValues);
      SupportLinksResolve(rows[1..], coreValues, supportingValues);
      match CoreFor(rows[0], coreValues)
      case Some(cv) =>
        var head := SupportLinksOf(cv.id, rows[0].supportingValues, supportingValues);
        SupportLinksOfResolve(cv.id, rows[0].supportingValues, supportingValues);
        var a :| 0 <= a < |coreValues| && coreValues[a] == cv;
        assert HasValueId(coreValues, cv.id);
        assert all == head + tail;
        forall k | 0 <= k < |all|
          ensures HasValueId(coreValues, all[k].0) && HasValueId(supportingValues, all[k].1)
        {
          if k >= |head| {
            assert all[k] == tail[k - |head|];
          }
        }
      case None =>
        assert all == [] + tail;
    }
  }

  lemma {:induction false} SupportLinksOfResolve(cvId: Id, names: seq<string>, supportingValues: seq<SupportingValue>)
    ensures forall k :: 0 <= k < |SupportLinksOf(cvId, names, supportingValues)| ==>
      SupportLinksOf(cvId, names, supportingValues)[k].0 == cvId
      && HasValueId(supportingValues, SupportLinksOf(cvId, names, supportingValues)[k].1)
  {
    if names != [] {
      var all := SupportLinksOf(cvId, names, supportingValues);
      var tail := SupportLinksOf(cvId, names[1..], supportingValues);
      SupportLinksOfResolve(cvId, names[1..], supportingValues);
      match SupportFor(names[0], supportingValues)
      case Some(sv) =>
        var b :| 0 <= b < |supportingValues| && supportingValues[b] == sv;
        assert all == [(cvId, sv.id)] + tail;
        assert HasValueId(supportingValues, sv.id);
        forall k | 0 < k < |all|
          ensures all[k].0 == cvId && HasValueId(supportingValues, all[k].1)
        {
          assert all[k] == tail[k - 1];
        }
      case None =>
        assert all == [] + tail;
    }
  }

  lemma {:induction false} QuoteLinksResolve(rows: seq<ParsedRow>, coreValues: seq<CoreValue>, quotes: seq<Quote>)
    ensures forall k :: 0 <= k < |QuoteLinks(rows, coreValues, quotes)| ==>
      HasValueId(coreValues, QuoteLinks(rows, coreValues, quotes)[k].0)
      && HasQuoteId(quotes, QuoteLinks(rows, coreValues, quotes)[k].1)
  {
    if rows != [] {
      var all := QuoteLinks(rows, coreValues, quotes);
      var tail := QuoteLinks(rows[1..], coreValues, quotes);
      QuoteLinksResolve(rows[1..], coreValues, quotes);
      match CoreFor(rows[0], coreValues)
      case Some(cv) =>
        var head := QuoteLinksOf(cv.id, rows[0].quotes, quotes);
        QuoteLinksOfResolve(cv.id, rows[0].quotes, quotes);
        var a :| 0 <= a < |coreValues| && coreValues[a] == cv;
        assert HasValueId(coreValues, cv.id);
        assert all == head + tail;
        forall k | 0 <= k < |all|
          ensures HasValueId(coreValues, all[k].0) && HasQuoteId(quotes, all[k].1)
        {
          if k >= |head| {
            assert all[k] == tail[k - |head|];
          }
        }
      case None =>
        assert all == [] + tail;
    }
  }

  lemma {:induction false} QuoteLinksOfResolve(cvId: Id, texts: seq<string>, quotes: seq<Quote>)
    ensures forall k :: 0 <= k < |QuoteLinksOf(cvId, texts, quotes)| ==>
      QuoteLinksOf(cvId, texts, quotes)[k].0 == cvId
      && HasQuoteId(quotes, QuoteLinksOf(cvId, texts, quotes)[k].1)
  {
    if texts != [] {
      var all := QuoteLinksOf(cvId, texts, quotes);
      var tail := QuoteLinksOf(cvId, texts[1..], quotes);
      QuoteLinksOfResolve(cvId, texts[1..], quotes);
      match QuoteFor(texts[0], quotes)
      case Some(q) =>
        var b :| 0 <= b < |quotes| && quotes[b] == q;
        assert all == [(cvId, q.id)] + tail;
        assert HasQuoteId(quotes, q.id);
        forall k | 0 < k < |all|
          ensures all[k].0 == cvId && HasQuoteId(quotes, all[k].1)
        {
          assert all[k] == tail[k - 1];
        }
      case None =>
        assert all == [] + tail;
    }
  }

  // ---------------------------------------------------------------------
  // The whole import

  /** Ids are minted in one sequence: the core values first, then the
      supporting values, then the authors, then the quotes. These are the
      positions at which the authors and the quotes start. */
  function AuthorBase(coreValues: seq<CoreValue>, supportingValues: seq<SupportingValue>): (n: nat)
    ensures n >= |coreValues|
  {
    |coreValues| + |supportingValues|
  }

  function QuoteBase(coreValues: seq<CoreValue>, supportingValues: seq<SupportingValue>, authors: seq<Author>): (n: nat)
    ensures n >= AuthorBase(coreValues, supportingValues)
  {
    |coreValues| + |supportingValues| + |authors|
  }

  /** `db` is the import of `csvContent`: names collected in first-seen
      order, one record per name with the ids `mint(0)`, `mint(1)`, ...,
      quotes made once per cleaned text, each junction table holding the
      distinct pairs the rows ask for in first-asked order, no quote posts,
      and every record dated `now`. */
  predicate ImportedFrom(db: DatabaseSchema, rows: seq<ParsedRow>, mint: nat -> Id, now: Timestamp) {
    && db.coreValues == ValueRecords(AddAll([], CoreNames(rows)), mint, 0, now)
    && db.supportingValues == ValueRecords(AddAll([], SupportNames(rows)), mint, |db.coreValues|, now)
    && db.authors == AuthorRecords(AddAll([], PairAuthorNames(PairsOf(rows))), mint, AuthorBase(db.coreValues, db.supportingValues), now)
    && db.quotes == QuotesFrom(PairsOf(rows), db.authors, [], mint, QuoteBase(db.coreValues, db.supportingValues, db.authors), now)
    && SupportPairs(db.coreValueSupportingValues) == AddAll([], SupportLinks(rows, db.coreValues, db.supportingValues))
    && QuotePairs(db.coreValueQuotes) == AddAll([], QuoteLinks(rows, db.coreValues, db.quotes))
    && (forall k :: 0 <= k < |db.coreValueSupportingValues| ==> db.coreValueSupportingValues[k].createdAt == now)
    && (forall k :: 0 <= k < |db.coreValueQuotes| ==> db.coreValueQuotes[k].createdAt == now)
    && db.quotePosts == []
  }

  /** An imported store is consistent: quote texts are unique, no junction
      pair is repeated, and every junction row names records that exist. */
  lemma ImportConsistent(db: DatabaseSchema, rows: seq<ParsedRow>, mint: nat -> Id, now: Timestamp)
    requires ImportedFrom(db, rows, mint, now)
    ensures Distinct(TextsOf(db.quotes))
    ensures Distinct(SupportPairs(db.coreValueSupportingValues)) && Distinct(QuotePairs(db.coreValueQuotes))
    ensures forall k :: 0 <= k < |db.coreValueSupportingValues| ==>
      HasValueId(db.coreValues, db.coreValueSupportingValues[k].coreValueId)
      && HasValueId(db.supportingValues, db.coreValueSupportingValues[k].supportingValueId)
    ensures forall k :: 0 <= k < |db.coreValueQuotes| ==>
      HasValueId(db.coreValues, db.coreValueQuotes[k].coreValueId)
      && HasQuoteId(db.quotes, db.coreValueQuotes[k].quoteId)
  {
    TablesConsistent(db, rows, mint, QuoteBase(db.coreValues, db.supportingValues, db.authors), now);
  }

  /** The consistency of the tables, from the facts about them it needs. */
  lemma TablesConsistent(db: DatabaseSchema, rows: seq<ParsedRow>, mint: nat -> Id, quoteBase: nat, now: Timestamp)
    requires db.quotes == QuotesFrom(PairsOf(rows), db.authors, [], mint, quoteBase, now)
    requires SupportPairs(db.coreValueSupportingValues) == AddAll([], SupportLinks(rows, db.coreValues, db.supportingValues))
    requires QuotePairs(db.coreValueQuotes) == AddAll([], QuoteLinks(rows, db.coreValues, db.quotes))
    ensures Distinct(TextsOf(db.quotes))
    ensures Distinct(SupportPairs(db.coreValueSupportingValues)) && Distinct(QuotePairs(db.coreValueQuotes))
    ensures forall k :: 0 <= k < |db.coreValueSupportingValues| ==>
      HasValueId(db.coreValues, db.coreValueSupportingValues[k].coreValueId)
      && HasValueId(db.supportingValues, db.coreValueSupportingValues[k].supportingValueId)
    ensures forall k :: 0 <= k < |db.coreValueQuotes| ==>
      HasValueId(db.coreValues, db.coreValueQuotes[k].coreValueId)
      && HasQuoteId(db.quotes, db.coreValueQuotes[k].quoteId)
  {
    QuotesDistinct(PairsOf(rows), db.authors, [], mint, quoteBase, now);
    var supportLinks := SupportLinks(rows, db.coreValues, db.supportingValues);
    var quoteLinks := QuoteLinks(rows, db.coreValues, db.quotes);
    AddAllDistinct([], supportLinks);
    AddAllDistinct([], quoteLinks);
    LinksResolved(db.coreValueSupportingValues, db.coreValues, db.supportingValues, supportLinks, rows);
    QuoteLinksResolved(db.coreValueQuotes, db.coreValues, db.quotes, quoteLinks, rows);
  }

  lemma LinksResolved(cvsv: seq<CoreValueSupportingValue>, coreValues: seq<CoreValue>, supportingValues: seq<SupportingValue>,
                      links: seq<(Id, Id)>, rows: seq<ParsedRow>)
    requires links == SupportLinks(rows, coreValues, supportingValues)
    requires SupportPairs(cvsv) == AddAll([], links)
    ensures forall k :: 0 <= k < |cvsv| ==>
      HasValueId(coreValues, cvsv[k].coreValueId) && HasValueId(supportingValues, cvsv[k].supportingValueId)
  {
    AddAllMembers([], links);
    SupportLinksResolve(rows, coreValues, supportingValues);
    forall k | 0 <= k < |cvsv|
      ensures HasValueId(coreValues, cvsv[k].coreValueId) && HasValueId(supportingValues, cvsv[k].supportingValueId)
    {
      assert SupportPairs(cvsv)[k] in links;
      var m :| 0 <= m < |links| && links[m] == SupportPairs(cvsv)[k];
    }
  }

  lemma QuoteLinksResolved(cvq: seq<CoreValueQuote>, coreValues: seq<CoreValue>, quotes: seq<Quote>,
                           links: seq<(Id, Id)>, rows: seq<ParsedRow>)
    requires links == QuoteLinks(rows, coreValues, quotes)
    requires QuotePairs(cvq) == AddAll([], links)
    ensures forall k :: 0 <= k < |cvq| ==>
      HasValueId(coreValues, cvq[k].coreValueId) && HasQuoteId(quotes, cvq[k].quoteId)
  {
    AddAllMembers([], links);
    QuoteLinksResolve(rows, coreValues, quotes);
    forall k | 0 <= k < |cvq|
      ensures HasValueId(coreValues, cvq[k].coreValueId) && HasQuoteId(quotes, cvq[k].quoteId)
    {
      assert QuotePairs(cvq)[k] in links;
      var m :| 0 <= m < |links| && links[m] == QuotePairs(cvq)[k];
    }
  }

  /** The tables built step by step make up an import of the rows. */
  lemma ImportedFromIntro(db: DatabaseSchema, rows: seq<ParsedRow>, mint: nat -> Id, now: Timestamp,
                          coreNames: seq<string>, supportNames: seq<string>, authorNames: seq<string>,
                          pairs: seq<QuoteAuthorPair>, coreValues: seq<CoreValue>, supportingValues: seq<SupportingValue>,
                          authors: seq<Author>, quotes: seq<Quote>,
                          cvsv: seq<CoreValueSupportingValue>, cvq: seq<CoreValueQuote>)
    requires coreNames == AddAll([], CoreNames(rows))
    requires supportNames == AddAll([], SupportNames(rows))
    requires authorNames == AddAll([], PairAuthorNames(PairsOf(rows)))
    requires pairs == PairsOf(rows)
    requires coreValues == ValueRecords(coreNames, mint, 0, now)
    requires supportingValues == ValueRecords(supportNames, mint, |coreValues|, now)
    requires authors == AuthorRecords(authorNames, mint, AuthorBase(coreValues, supportingValues), now)
    requires quotes == QuotesFrom(pairs, authors, [], mint, QuoteBase(coreValues, supportingValues, authors), now)
    requires SupportPairs(cvsv) == AddAll([], SupportLinks(rows, coreValues, supportingValues))
    requires QuotePairs(cvq) == AddAll([], QuoteLinks(rows, coreValues, quotes))
    requires forall k :: 0 <= k < |cvsv| ==> cvsv[k].createdAt == now
    requires forall k :: 0 <= k < |cvq| ==> cvq[k].createdAt == now
    requires db == DatabaseSchema(coreValues, supportingValues, authors, quotes, cvsv, cvq, [])
    ensures ImportedFrom(db, rows, mint, now)
  {
  }

  /** Everything `parseNotionCSV` does after reading the rows. */
  method BuildTables(rows: seq<ParsedRow>, mint: nat -> Id, now: Timestamp) returns (db: DatabaseSchema)
    ensures ImportedFrom(db, rows, mint, now)
  {
    var coreValueSet, supportingValueSet, authorSet, pairs := CollectNames(rows);
    var coreValues := ValueRecords(coreValueSet, mint, 0, now);
    var supportingValues := ValueRecords(supportingValueSet, mint, |coreValues|, now);
    var authors := AuthorRecords(authorSet, mint, AuthorBase(coreValues, supportingValues), now);
    var quoteBase := QuoteBase(coreValues, supportingValues, authors);
    var quotes := BuildQuotes(pairs, authors, mint, quoteBase, now);
    var cvsv, cvq, _ := LinkRows(rows, coreValues, supportingValues, quotes, mint, quoteBase + |quotes|, now);
    db := DatabaseSchema(coreValues, supportingValues, authors, quotes, cvsv, cvq, []);
    ImportedFromIntro(db, rows, mint, now, coreValueSet, supportingValueSet, authorSet, pairs,
                      coreValues, supportingValues, authors, quotes, cvsv, cvq);
  }

  /** `parseNotionCSV`. */
  method ParseNotionCSV(csvContent: string, mint: nat -> Id, now: Timestamp) returns (db: DatabaseSchema)
    ensures ImportedFrom(db, ImportedRows(csvContent), mint, now)
    ensures Distinct(TextsOf(db.quotes))
    ensures Distinct(SupportPairs(db.coreValueSupportingValues)) && Distinct(QuotePairs(db.coreValueQuotes))
    ensures forall k :: 0 <= k < |db.coreValueSupportingValues| ==>
      HasValueId(db.coreValues, db.coreValueSupportingValues[k].coreValueId)
      && HasValueId(db.supportingValues, db.coreValueSupportingValues[k].supportingValueId)
    ensures forall k :: 0 <= k < |db.coreValueQuotes| ==>
      HasValueId(db.coreValues, db.coreValueQuotes[k].coreValueId)
      && HasQuoteId(db.quotes, db.coreValueQuotes[k].quoteId)
  {
    var lines := SplitOn(csvContent, '\n');
    var rows := CollectRows(lines);
    db := BuildTables(rows, mint, now);
    ImportConsistent(db, rows, mint, now);
  }
}
