/** The quote-quality report built from imported data. Each quote is
    checked against eight rules; a quote with any issue needs review, and
    the report lists one recommendation line per quote that needs review.
    The report groups quotes by core value name in a JavaScript `Map`,
    held here as its keys in insertion order and a Dafny map. */
module QualityAnalyzer {
  import opened Wrappers
  import opened Strings
  import opened Tables
  import opened RelationalTypes

  datatype Rating = Good | NeedsReview | Archive

  /** The issues a quote can have, in the order the rules run. */
  datatype Issue =
    | TooLong | TooShort | ReligiousReference | TooAcademic | IncompleteSentence
    | SystemReference | MissingAuthor | Unrelated(coreValue: string)

  function Message(issue: Issue): string {
    match issue
    case TooLong => "Too long for social media"
    case TooShort => "Too short, lacks substance"
    case ReligiousReference => "Contains specific religious references"
    case TooAcademic => "May be too academic/complex"
    case IncompleteSentence => "Incomplete sentence"
    case SystemReference => "Contains specific book/system references"
    case MissingAuthor => "Missing author attribution"
    case Unrelated(v) => "May not relate clearly to " + v
  }

  // ---------------------------------------------------------------------
  // The rules

  const ReligiousTerms: seq<string> := ["God", "Divine", "Christ", "Jesus", "Bible", "Scripture", "Prayer"]
  const ComplexWords: seq<string> := ["manifestations", "relinquishment", "episodic", "ontological"]
  const SystemNames: seq<string> := ["Gene Keys", "Course in Miracles", "Notion"]

  const KeywordMap: map<string, seq<string>> := map[
    "Balance" := ["balance", "harmony", "equilibrium", "peace", "flow", "stability", "center"],
    "Growth" := ["grow", "develop", "learn", "evolve", "progress", "expand", "journey", "change"],
    "Freedom" := ["free", "choice", "liberty", "independence", "courage", "path", "decide"],
    "Contribution" := ["give", "serve", "help", "love", "connect", "community", "share", "impact"],
    "Authenticity" := ["true", "authentic", "genuine", "self", "honest", "real", "essence", "nature"]]

  /** `getCoreValueKeywords`: the keywords of one of the five known core
      values, and none for any other name. */
  function Keywords(coreValue: string): (terms: seq<string>)
    ensures coreValue !in KeywordMap ==> terms == []
    ensures coreValue in KeywordMap ==> terms == KeywordMap[coreValue]
  {
    if coreValue in KeywordMap then KeywordMap[coreValue] else []
  }

  lemma KnownCoreValues(coreValue: string)
    ensures Keywords(coreValue) != [] <==>
      coreValue in {"Balance", "Growth", "Freedom", "Contribution", "Authenticity"}
  {
  }

  /** Some term occurs in the text, both lower-cased. */
  predicate MentionsAny(text: string, terms: seq<string>) {
    exists i :: 0 <= i < |terms| && Contains(ToLower(text), ToLower(terms[i]))
  }

  lemma NoTermsNoMention(text: string)
    ensures !MentionsAny(text, [])
  {
  }

  /** After trimming, the text ends with `.`, `?` or `!`. */
  predicate EndsSentence(text: string) {
    EndsWith(Trim(text), ".") || EndsWith(Trim(text), "?") || EndsWith(Trim(text), "!")
  }

  /** Which of the eight rules fire, in rule order. */
  datatype Checks = Checks(
    tooLong: bool, tooShort: bool, religious: bool, academic: bool,
    incomplete: bool, systemReference: bool, missingAuthor: bool, unrelated: bool)

  /** The rule conditions: length bounds, case-sensitive religious and
      system terms, case-insensitive academic words and keywords, the
      sentence ending after trimming, and a blank author. */
  function ChecksOf(text: string, author: string, coreValue: string): Checks {
    Checks(
      |text| > 200,
      |text| < 20,
      ContainsAny(text, ReligiousTerms),
      MentionsAny(text, ComplexWords),
      !EndsSentence(text),
      ContainsAny(text, SystemNames),
      IsBlank(author),
      !MentionsAny(text, Keywords(coreValue)) && |text| > 50)
  }

  /** `issues.push(issue)` when the rule fires. */
  function AddIf(issues: seq<Issue>, fires: bool, issue: Issue): seq<Issue> {
    if fires then issues + [issue] else issues
  }

  /** The issues of the length and wording rules. */
  function WordingIssues(c: Checks): seq<Issue> {
    AddIf(AddIf(AddIf(AddIf([], c.tooLong, TooLong), c.tooShort, TooShort),
      c.religious, ReligiousReference), c.academic, TooAcademic)
  }

  /** The issues of the form and attribution rules, after those in s. */
  function AttributionIssues(s: seq<Issue>, c: Checks, coreValue: string): seq<Issue> {
    AddIf(AddIf(AddIf(AddIf(s, c.incomplete, IncompleteSentence),
      c.systemReference, SystemReference), c.missingAuthor, MissingAuthor),
      c.unrelated, Unrelated(coreValue))
  }

  /** All issues for the rules that fire, in rule order. */
  function IssuesOf(c: Checks, coreValue: string): seq<Issue> {
    AttributionIssues(WordingIssues(c), c, coreValue)
  }

  function Issues(text: string, author: string, coreValue: string): seq<Issue> {
    IssuesOf(ChecksOf(text, author, coreValue), coreValue)
  }

  datatype Assessment = Assessment(rating: Rating, issues: seq<Issue>)

  /** The result of `assessQuoteQuality`: good exactly when there is no
      issue, otherwise needs review, and never archive. */
  function Assess(text: string, author: string, coreValue: string): (a: Assessment)
    ensures a.rating == Good <==> a.issues == []
    ensures a.rating != Archive
  {
    var issues := Issues(text, author, coreValue);
    Assessment(if issues == [] then Good else NeedsReview, issues)
  }

  /** `assessQuoteQuality`: runs the rules one after the other, adding an
      issue and marking the quote for review whenever one fires. The
      conditions of the rules are those of ChecksOf. */
  method AssessQuoteQuality(text: string, author: string, coreValue: string)
    returns (rating: Rating, issues: seq<Issue>)
    ensures Assessment(rating, issues) == Assess(text, author, coreValue)
  {
    var c := ChecksOf(text, author, coreValue);
    issues := [];
    rating := Good;
    issues, rating := Flag(issues, rating, c.tooLong, TooLong);
    issues, rating := Flag(issues, rating, c.tooShort, TooShort);
    issues, rating := Flag(issues, rating, c.religious, ReligiousReference);
    issues, rating := Flag(issues, rating, c.academic, TooAcademic);
    issues, rating := Flag(issues, rating, c.incomplete, IncompleteSentence);
    issues, rating := Flag(issues, rating, c.systemReference, SystemReference);
    issues, rating := Flag(issues, rating, c.missingAuthor, MissingAuthor);
    issues, rating := Flag(issues, rating, c.unrelated, Unrelated(coreValue));
  }

  /** One rule: when it fires, push its issue and mark the quote for
      review. A rating that tells whether any issue was pushed keeps doing
      so. */
  method Flag(issues: seq<Issue>, rating: Rating, fires: bool, issue: Issue)
    returns (issues': seq<Issue>, rating': Rating)
    requires rating == if issues == [] then Good else NeedsReview
    ensures issues' == AddIf(issues, fires, issue)
    ensures rating' == if issues' == [] then Good else NeedsReview
  {
    issues', rating' := issues, rating;
    if fires {
      issues' := issues' + [issue];
      rating' := NeedsReview;
    }
  }

  lemma WordingSpec(c: Checks)
    ensures var issues := WordingIssues(c);
      && (TooLong in issues <==> c.tooLong)
      && (TooShort in issues <==> c.tooShort)
      && (ReligiousReference in issues <==> c.religious)
      && (TooAcademic in issues <==> c.academic)
      && IncompleteSentence !in issues && SystemReference !in issues && MissingAuthor !in issues
      && forall v :: Unrelated(v) !in issues
  {
  }

  lemma AttributionSpec(s: seq<Issue>, c: Checks, coreValue: string)
    ensures var issues := AttributionIssues(s, c, coreValue);
      && (TooLong in issues <==> TooLong in s)
      && (TooShort in issues <==> TooShort in s)
      && (ReligiousReference in issues <==> ReligiousReference in s)
      && (TooAcademic in issues <==> TooAcademic in s)
      && (IncompleteSentence in issues <==> IncompleteSentence in s || c.incomplete)
      && (SystemReference in issues <==> SystemReference in s || c.systemReference)
      && (MissingAuthor in issues <==> MissingAuthor in s || c.missingAuthor)
      && (forall v :: Unrelated(v) in issues <==> Unrelated(v) in s || (c.unrelated && v == coreValue))
  {
  }

  /** An issue is in the list exactly when its rule fires. */
  lemma IssuesOfSpec(c: Checks, coreValue: string)
    ensures var issues := IssuesOf(c, coreValue);
      && (TooLong in issues <==> c.tooLong)
      && (TooShort in issues <==> c.tooShort)
      && (ReligiousReference in issues <==> c.religious)
      && (TooAcademic in issues <==> c.academic)
      && (IncompleteSentence in issues <==> c.incomplete)
      && (SystemReference in issues <==> c.systemReference)
      && (MissingAuthor in issues <==> c.missingAuthor)
      && (forall v :: Unrelated(v) in issues <==> c.unrelated && v == coreValue)
  {
    WordingSpec(c);
    AttributionSpec(WordingIssues(c), c, coreValue);
  }

  /** Each issue is reported exactly when its rule fires; a text is never
      both too long and too short. */
  lemma IssuesSpec(text: string, author: string, coreValue: string)
    ensures var issues := Issues(text, author, coreValue);
      && (TooLong in issues <==> |text| > 200)
      && (TooShort in issues <==> |text| < 20)
      && !(TooLong in issues && TooShort in issues)
      && (ReligiousReference in issues <==> ContainsAny(text, ReligiousTerms))
      && (TooAcademic in issues <==> MentionsAny(text, ComplexWords))
      && (IncompleteSentence in issues <==> !EndsSentence(text))
      && (SystemReference in issues <==> ContainsAny(text, SystemNames))
      && (MissingAuthor in issues <==> IsBlank(author))
      && (Unrelated(coreValue) in issues <==> !MentionsAny(text, Keywords(coreValue)) && |text| > 50)
      && (forall v :: Unrelated(v) in issues ==> v == coreValue)
  {
    IssuesOfSpec(ChecksOf(text, author, coreValue), coreValue);
  }

  /** An empty or all-white-space author is always reported. */
  lemma BlankAuthorReported(text: string, coreValue: string)
    ensures MissingAuthor in Issues(text, "", coreValue)
    ensures Assess(text, "", coreValue).rating == NeedsReview
  {
    assert IsBlank("");
    IssuesSpec(text, "", coreValue);
  }

  /** A core value without keywords flags every text longer than 50
      characters as unrelated; a text of at most 50 never is. */
  lemma UnknownCoreValueUnrelated(text: string, author: string, coreValue: string)
    requires coreValue !in KeywordMap
    ensures Unrelated(coreValue) in Issues(text, author, coreValue) <==> |text| > 50
  {
    IssuesSpec(text, author, coreValue);
    NoTermsNoMention(text);
  }

  // ---------------------------------------------------------------------
  // Grouping the parsed data by core value

  datatype QuoteReport = QuoteReport(text: string, author: string, quality: Rating, issues: seq<Issue>)

  datatype CoreValueReport = CoreValueReport(value: string, supportingValues: seq<string>, quotes: seq<QuoteReport>)

  datatype Recommendations = Recommendations(archive: seq<string>, needsReview: seq<string>, duplicates: seq<string>)

  datatype QualityReport = QualityReport(coreValues: seq<CoreValueReport>, recommendations: Recommendations)

  /** Ids of the supporting values linked to a core value, in link order. */
  function SupportingIdsOf(rels: seq<CoreValueSupportingValue>, cvId: Id): (ids: seq<Id>)
    ensures forall x :: x in ids <==> exists i :: 0 <= i < |rels| && rels[i].coreValueId == cvId && rels[i].supportingValueId == x
  {
    if rels == [] then []
    else
      var rest := SupportingIdsOf(rels[1..], cvId);
      assert forall i :: 1 <= i < |rels| ==> rels[i] == rels[1..][i - 1];
      (if rels[0].coreValueId == cvId then [rels[0].supportingValueId] else []) + rest
  }

  /** Ids of the quotes linked to a core value, in link order. */
  function QuoteIdsOf(rels: seq<CoreValueQuote>, cvId: Id): (ids: seq<Id>)
    ensures forall x :: x in ids <==> exists i :: 0 <= i < |rels| && rels[i].coreValueId == cvId && rels[i].quoteId == x
  {
    if rels == [] then []
    else
      var rest := QuoteIdsOf(rels[1..], cvId);
      assert forall i :: 1 <= i < |rels| ==> rels[i] == rels[1..][i - 1];
      (if rels[0].coreValueId == cvId then [rels[0].quoteId] else []) + rest
  }

  /** `ids.includes(sv.id)`. */
  function ValueListed(ids: seq<Id>): SupportingValue -> bool { (sv: SupportingValue) => sv.id in ids }

  /** `quoteIds.includes(q.id)`. */
  function QuoteListed(ids: seq<Id>): Quote -> bool { (q: Quote) => q.id in ids }

  /** Names of the supporting values whose id is listed, in table order:
      the k-th name is that of the k-th listed record of the order-keeping
      filter. */
  function SupportingNames(svs: seq<SupportingValue>, ids: seq<Id>): (names: seq<string>)
    ensures forall x :: x in names <==> exists i :: 0 <= i < |svs| && svs[i].id in ids && svs[i].value == x
    ensures |names| == |Filter(svs, ValueListed(ids))|
    ensures forall k :: 0 <= k < |names| ==> names[k] == Filter(svs, ValueListed(ids))[k].value
  {
    if svs == [] then []
    else
      var rest := SupportingNames(svs[1..], ids);
      assert forall i :: 1 <= i < |svs| ==> svs[i] == svs[1..][i - 1];
      if svs[0].id in ids then
        assert Filter(svs, ValueListed(ids)) == [svs[0]] + Filter(svs[1..], ValueListed(ids));
        [svs[0].value] + rest
      else
        assert Filter(svs, ValueListed(ids)) == Filter(svs[1..], ValueListed(ids));
        rest
  }

  /** The author's name: empty when the quote has no author id (or an empty
      one), when no author has that id, or when the name is empty. */
  function AuthorName(authors: seq<Author>, quote: Quote): (name: string)
    ensures (quote.authorId.None? || quote.authorId.value == []) ==> name == []
    ensures quote.authorId.Some? && quote.authorId.value != [] ==>
      ((forall k :: 0 <= k < |authors| ==> authors[k].id != quote.authorId.value) ==> name == [])
    ensures quote.authorId.Some? && quote.authorId.value != [] ==>
      forall k ::
        (0 <= k < |authors| && authors[k].id == quote.authorId.value
         && forall j :: 0 <= j < k ==> authors[j].id != quote.authorId.value)
        ==> name == authors[k].name
  {
    if quote.authorId.Some? && quote.authorId.value != [] then
      assert forall a: Author :: ((x: Author) => x.id == quote.authorId.value)(a) <==> a.id == quote.authorId.value;
      match Find(authors, (a: Author) => a.id == quote.authorId.value)
      case Some(a) => a.name
      case None => []
    else []
  }

  /** A report as the assessment produces it: good exactly when it has no
      issue, and never archive. */
  predicate Assessed(q: QuoteReport) {
    q.quality != Archive && (q.quality == Good <==> q.issues == [])
  }

  /** The report on one quote: its text, its author's name, and the
      assessment of the two against the core value. */
  function QuoteReportOf(authors: seq<Author>, quote: Quote, coreValue: string): (r: QuoteReport)
    ensures Assessed(r) && r.text == quote.text
    ensures r.author == AuthorName(authors, quote)
    ensures r.issues == Issues(r.text, r.author, coreValue)
  {
    var author := AuthorName(authors, quote);
    var a := Assess(quote.text, author, coreValue);
    QuoteReport(quote.text, author, a.rating, a.issues)
  }

  /** Reports on the quotes whose id is listed, in table order. */
  function QuoteReports(quotes: seq<Quote>, ids: seq<Id>, authors: seq<Author>, coreValue: string): (r: seq<QuoteReport>)
    ensures |r| <= |quotes|
    ensures forall k :: 0 <= k < |r| ==> Assessed(r[k])
  {
    if quotes == [] then []
    else
      var rest := QuoteReports(quotes[1..], ids, authors, coreValue);
      (if quotes[0].id in ids then [QuoteReportOf(authors, quotes[0], coreValue)] else []) + rest
  }

  /** One report on each of the given quotes, in order. */
  function ReportsOn(quotes: seq<Quote>, authors: seq<Author>, coreValue: string): (r: seq<QuoteReport>)
    ensures |r| == |quotes|
    ensures forall k :: 0 <= k < |quotes| ==> r[k] == QuoteReportOf(authors, quotes[k], coreValue)
  {
    if quotes == [] then [] else [QuoteReportOf(authors, quotes[0], coreValue)] + ReportsOn(quotes[1..], authors, coreValue)
  }

  /** The reports are those on the listed quotes of the order-keeping
      filter: report k is on the k-th listed quote. */
  lemma {:induction false} QuoteReportsExact(quotes: seq<Quote>, ids: seq<Id>, authors: seq<Author>, coreValue: string)
    ensures QuoteReports(quotes, ids, authors, coreValue) == ReportsOn(Filter(quotes, QuoteListed(ids)), authors, coreValue)
  {
    if quotes != [] {
      QuoteReportsExact(quotes[1..], ids, authors, coreValue);
      var later := Filter(quotes[1..], QuoteListed(ids));
      if quotes[0].id in ids {
        assert Filter(quotes, QuoteListed(ids)) == [quotes[0]] + later;
        assert ([quotes[0]] + later)[1..] == later;
      } else {
        assert Filter(quotes, QuoteListed(ids)) == later;
      }
    }
  }

  /** Texts of the quotes whose id is listed, in table order: the k-th text
      is that of the k-th listed record of the order-keeping filter. */
  function LinkedTexts(quotes: seq<Quote>, ids: seq<Id>): (texts: seq<string>)
    ensures forall t :: t in texts <==> exists i :: 0 <= i < |quotes| && quotes[i].id in ids && quotes[i].text == t
    ensures |texts| == |Filter(quotes, QuoteListed(ids))|
    ensures forall k :: 0 <= k < |texts| ==> texts[k] == Filter(quotes, QuoteListed(ids))[k].text
  {
    if quotes == [] then []
    else
      var rest := LinkedTexts(quotes[1..], ids);
      assert forall i :: 1 <= i < |quotes| ==> quotes[i] == quotes[1..][i - 1];
      if quotes[0].id in ids then
        assert Filter(quotes, QuoteListed(ids)) == [quotes[0]] + Filter(quotes[1..], QuoteListed(ids));
        [quotes[0].text] + rest
      else
        assert Filter(quotes, QuoteListed(ids)) == Filter(quotes[1..], QuoteListed(ids));
        rest
  }

  function ReportTexts(reports: seq<QuoteReport>): (texts: seq<string>)
    ensures |texts| == |reports|
  {
    if reports == [] then [] else [reports[0].text] + ReportTexts(reports[1..])
  }

  /** The reports are on exactly the linked quotes, in table order. */
  lemma {:induction false} QuoteReportsTexts(quotes: seq<Quote>, ids: seq<Id>, authors: seq<Author>, coreValue: string)
    ensures ReportTexts(QuoteReports(quotes, ids, authors, coreValue)) == LinkedTexts(quotes, ids)
  {
    if quotes != [] {
      QuoteReportsTexts(quotes[1..], ids, authors, coreValue);
      var rest := QuoteReports(quotes[1..], ids, authors, coreValue);
      if quotes[0].id in ids {
        var r := QuoteReports(quotes, ids, authors, coreValue);
        assert r[1..] == rest;
      } else {
        assert QuoteReports(quotes, ids, authors, coreValue) == rest;
      }
    }
  }

  /** The report on one core value. */
  function ReportFor(data: DatabaseSchema, cv: CoreValue): (r: CoreValueReport)
    ensures r.value == cv.value
    ensures forall k :: 0 <= k < |r.quotes| ==> Assessed(r.quotes[k])
  {
    var svIds := SupportingIdsOf(data.coreValueSupportingValues, cv.id);
    var qIds := QuoteIdsOf(data.coreValueQuotes, cv.id);
    CoreValueReport(cv.value, SupportingNames(data.supportingValues, svIds),
      QuoteReports(data.quotes, qIds, data.authors, cv.value))
  }

  /** The report on one core value holds the names of its linked supporting
      values, and one report per linked quote in table order, each with the
      quote's text, its author's name and the eight rules' issues. */
  lemma ReportForSpec(data: DatabaseSchema, cv: CoreValue)
    ensures ReportFor(data, cv).supportingValues
      == SupportingNames(data.supportingValues, SupportingIdsOf(data.coreValueSupportingValues, cv.id))
    ensures ReportTexts(ReportFor(data, cv).quotes) == LinkedTexts(data.quotes, QuoteIdsOf(data.coreValueQuotes, cv.id))
    ensures
      var r := ReportFor(data, cv);
      var linked := Filter(data.quotes, QuoteListed(QuoteIdsOf(data.coreValueQuotes, cv.id)));
      && |r.quotes| == |linked|
      && forall k :: 0 <= k < |r.quotes| ==>
           && r.quotes[k].text == linked[k].text
           && r.quotes[k].author == AuthorName(data.authors, linked[k])
           && r.quotes[k].issues == Issues(r.quotes[k].text, r.quotes[k].author, cv.value)
  {
    var qIds := QuoteIdsOf(data.coreValueQuotes, cv.id);
    QuoteReportsTexts(data.quotes, qIds, data.authors, cv.value);
    QuoteReportsExact(data.quotes, qIds, data.authors, cv.value);
  }

  /** The map's keys in insertion order: each core value name once, at its
      first occurrence. */
  function GroupKeys(cvs: seq<CoreValue>): seq<string> {
    if cvs == [] then [] else SetAdd(GroupKeys(cvs[..|cvs| - 1]), cvs[|cvs| - 1].value)
  }

  /** The map's entries: a later core value with the same name overwrites
      an earlier one. */
  function GroupMap(data: DatabaseSchema, cvs: seq<CoreValue>): map<string, CoreValueReport> {
    if cvs == [] then map[]
    else GroupMap(data, cvs[..|cvs| - 1])[cvs[|cvs| - 1].value := ReportFor(data, cvs[|cvs| - 1])]
  }

  /** `Array.from(map.values())`. */
  function ValuesInOrder(keys: seq<string>, m: map<string, CoreValueReport>): (r: seq<CoreValueReport>)
    requires forall k :: k in keys ==> k in m
    ensures |r| == |keys| && forall i :: 0 <= i < |keys| ==> r[i] == m[keys[i]]
  {
    if keys == [] then [] else [m[keys[0]]] + ValuesInOrder(keys[1..], m)
  }

  /** The keys are distinct and are exactly the names that occur. */
  lemma {:induction false} GroupKeysSpec(cvs: seq<CoreValue>)
    ensures Distinct(GroupKeys(cvs))
    ensures forall k :: k in GroupKeys(cvs) <==> exists i :: 0 <= i < |cvs| && cvs[i].value == k
  {
    if cvs != [] {
      var init := cvs[..|cvs| - 1];
      GroupKeysSpec(init);
      SetAddShape(GroupKeys(init), cvs[|cvs| - 1].value);
      assert forall i :: 0 <= i < |init| ==> init[i] == cvs[i];
    }
  }

  /** The map holds exactly the names that occur. */
  lemma {:induction false} GroupMapDomain(data: DatabaseSchema, cvs: seq<CoreValue>)
    ensures forall k :: k in GroupMap(data, cvs) <==> exists i :: 0 <= i < |cvs| && cvs[i].value == k
  {
    if cvs != [] {
      var init := cvs[..|cvs| - 1];
      GroupMapDomain(data, init);
      assert forall i :: 0 <= i < |init| ==> init[i] == cvs[i];
    }
  }

  /** Each name maps to the report on the last core value with that name. */
  lemma {:induction false} GroupMapLast(data: DatabaseSchema, cvs: seq<CoreValue>, i: nat)
    requires i < |cvs| && forall j :: i < j < |cvs| ==> cvs[j].value != cvs[i].value
    ensures cvs[i].value in GroupMap(data, cvs)
    ensures GroupMap(data, cvs)[cvs[i].value] == ReportFor(data, cvs[i])
  {
    var n := |cvs| - 1;
    if i < n {
      var init := cvs[..n];
      assert init[i] == cvs[i];
      forall j | i < j < |init| ensures init[j].value != init[i].value {
        assert init[j] == cvs[j];
      }
      GroupMapLast(data, init, i);
    }
  }

  /** Every entry of the map is a report on a core value of that name, with
      every quote assessed. */
  lemma {:induction false} GroupMapEntries(data: DatabaseSchema, cvs: seq<CoreValue>)
    ensures forall k :: k in GroupMap(data, cvs) ==> GroupMap(data, cvs)[k].value == k
    ensures forall k :: k in GroupMap(data, cvs) ==>
      forall j :: 0 <= j < |GroupMap(data, cvs)[k].quotes| ==> Assessed(GroupMap(data, cvs)[k].quotes[j])
  {
    if cvs != [] {
      GroupMapEntries(data, cvs[..|cvs| - 1]);
    }
  }

  lemma GroupDomain(data: DatabaseSchema, cvs: seq<CoreValue>)
    ensures forall k :: k in GroupKeys(cvs) ==> k in GroupMap(data, cvs)
  {
    GroupKeysSpec(cvs);
    GroupMapDomain(data, cvs);
  }

  // ---------------------------------------------------------------------
  // Recommendations

  function JoinMessages(issues: seq<Issue>): string {
    if issues == [] then []
    else if |issues| == 1 then Message(issues[0])
    else JoinMessages(issues[..|issues| - 1]) + ", " + Message(issues[|issues| - 1])
  }

  /** One recommendation line: the quoted text, a dash and the issues. */
  function Entry(q: QuoteReport): string {
    "\"" + q.text + "\" - " + JoinMessages(q.issues)
  }

  /** All quote reports of all core values, in order. */
  function AllQuotes(cvs: seq<CoreValueReport>): seq<QuoteReport> {
    if cvs == [] then [] else AllQuotes(cvs[..|cvs| - 1]) + cvs[|cvs| - 1].quotes
  }

  /** The lines for the quotes with the given rating, in order. */
  function Entries(quotes: seq<QuoteReport>, rating: Rating): seq<string> {
    if quotes == [] then []
    else (if quotes[0].quality == rating then [Entry(quotes[0])] else []) + Entries(quotes[1..], rating)
  }

  function Rated(rating: Rating): QuoteReport -> bool {
    (q: QuoteReport) => q.quality == rating
  }

  function RecommendationsOf(cvs: seq<CoreValueReport>): Recommendations {
    var all := AllQuotes(cvs);
    Recommendations(Entries(all, Archive), Entries(all, NeedsReview), [])
  }

  lemma {:induction false} EntriesSnoc(quotes: seq<QuoteReport>, q: QuoteReport, rating: Rating)
    ensures Entries(quotes + [q], rating)
      == Entries(quotes, rating) + (if q.quality == rating then [Entry(q)] else [])
  {
    var last := if q.quality == rating then [Entry(q)] else [];
    if quotes == [] {
      assert quotes + [q] == [q];
      assert [q][1..] == [];
    } else {
      var t := quotes + [q];
      var head := if quotes[0].quality == rating then [Entry(quotes[0])] else [];
      assert t[0] == quotes[0];
      assert t[1..] == quotes[1..] + [q];
      EntriesSnoc(quotes[1..], q, rating);
      AppendAssoc(head, Entries(quotes[1..], rating), last);
    }
  }

  /** Every quote with the rating contributes exactly one line, and no other
      quote contributes any. */
  lemma {:induction false} EntriesCount(quotes: seq<QuoteReport>, rating: Rating)
    ensures |Entries(quotes, rating)| == CountWhere(quotes, Rated(rating))
    ensures forall q :: q in quotes && q.quality == rating ==> Entry(q) in Entries(quotes, rating)
  {
    if quotes != [] {
      EntriesCount(quotes[1..], rating);
      assert forall q :: q in quotes ==> q == quotes[0] || q in quotes[1..];
    }
  }

  /** With no archived quote the archive list is empty. */
  lemma {:induction false} NoArchiveEntries(quotes: seq<QuoteReport>)
    requires forall k :: 0 <= k < |quotes| ==> Assessed(quotes[k])
    ensures Entries(quotes, Archive) == []
  {
    if quotes != [] {
      NoArchiveEntries(quotes[1..]);
    }
  }

  lemma EntriesStep(done: seq<QuoteReport>, quotes: seq<QuoteReport>, j: nat, rating: Rating)
    requires j < |quotes|
    ensures Entries(done + quotes[..j + 1], rating)
      == Entries(done + quotes[..j], rating) + (if quotes[j].quality == rating then [Entry(quotes[j])] else [])
  {
    assert done + quotes[..j + 1] == (done + quotes[..j]) + [quotes[j]];
    EntriesSnoc(done + quotes[..j], quotes[j], rating);
  }

  lemma AllQuotesStep(cvs: seq<CoreValueReport>, i: nat)
    requires i < |cvs|
    ensures AllQuotes(cvs[..i + 1]) == AllQuotes(cvs[..i]) + cvs[i].quotes[..|cvs[i].quotes|]
  {
    assert cvs[..i + 1][..i] == cvs[..i];
    assert cvs[i].quotes[..|cvs[i].quotes|] == cvs[i].quotes;
  }

  /** The recommendation loops of `analyzeDataQuality`: one line per quote
      that needs review (or is archived), and no duplicates list. */
  method BuildRecommendations(cvs: seq<CoreValueReport>) returns (r: Recommendations)
    ensures r == RecommendationsOf(cvs)
  {
    var archive: seq<string> := [];
    var needsReview: seq<string> := [];
    var i := 0;
    while i < |cvs|
      invariant i <= |cvs|
      invariant archive == Entries(AllQuotes(cvs[..i]), Archive)
      invariant needsReview == Entries(AllQuotes(cvs[..i]), NeedsReview)
    {
      ghost var done := AllQuotes(cvs[..i]);
      var quotes := cvs[i].quotes;
      var j := 0;
      assert done + quotes[..j] == done;
      while j < |quotes|
        invariant j <= |quotes|
        invariant archive == Entries(done + quotes[..j], Archive)
        invariant needsReview == Entries(done + quotes[..j], NeedsReview)
      {
        var q := quotes[j];
        EntriesStep(done, quotes, j, Archive);
        EntriesStep(done, quotes, j, NeedsReview);
        if q.quality == Archive {
          archive := archive + [Entry(q)];
        } else if q.quality == NeedsReview {
          needsReview := needsReview + [Entry(q)];
        }
        j := j + 1;
      }
      AllQuotesStep(cvs, i);
      i := i + 1;
    }
    assert cvs[..i] == cvs;
    r := Recommendations(archive, needsReview, []);
  }

  // ---------------------------------------------------------------------
  // The whole report

  /** The core value reports in the map's key order. */
  function Groups(data: DatabaseSchema): seq<CoreValueReport> {
    GroupDomain(data, data.coreValues);
    ValuesInOrder(GroupKeys(data.coreValues), GroupMap(data, data.coreValues))
  }

  function ReportOf(data: DatabaseSchema): QualityReport {
    var groups := Groups(data);
    QualityReport(groups, RecommendationsOf(groups))
  }

  lemma {:induction false} AllQuotesAssessed(groups: seq<CoreValueReport>)
    requires forall n :: 0 <= n < |groups| ==> forall k :: 0 <= k < |groups[n].quotes| ==> Assessed(groups[n].quotes[k])
    ensures forall k :: 0 <= k < |AllQuotes(groups)| ==> Assessed(AllQuotes(groups)[k])
  {
    if groups != [] {
      var init := groups[..|groups| - 1];
      assert forall n :: 0 <= n < |init| ==> init[n] == groups[n];
      AllQuotesAssessed(init);
      var a, b := AllQuotes(init), groups[|groups| - 1].quotes;
      assert forall k :: |a| <= k < |a + b| ==> (a + b)[k] == b[k - |a|];
    }
  }

  /** One report per core value name, in first-occurrence order, each on
      the last core value of that name, all of whose quotes are assessed. */
  lemma GroupsSpec(data: DatabaseSchema)
    ensures var groups, keys := Groups(data), GroupKeys(data.coreValues);
      && |groups| == |keys|
      && (forall n :: 0 <= n < |groups| ==> groups[n].value == keys[n])
      && (forall n :: 0 <= n < |groups| ==> forall k :: 0 <= k < |groups[n].quotes| ==> Assessed(groups[n].quotes[k]))
  {
    var cvs := data.coreValues;
    GroupDomain(data, cvs);
    GroupMapEntries(data, cvs);
  }

  /** The archive and duplicates lists stay empty, and the review list has
      one line per quote that needs review. */
  lemma ReportShape(data: DatabaseSchema)
    ensures var report := ReportOf(data);
      && report.recommendations.archive == []
      && report.recommendations.duplicates == []
      && |report.recommendations.needsReview|
           == CountWhere(AllQuotes(report.coreValues), Rated(NeedsReview))
  {
    var groups := Groups(data);
    GroupsSpec(data);
    AllQuotesAssessed(groups);
    NoArchiveEntries(AllQuotes(groups));
    EntriesCount(AllQuotes(groups), NeedsReview);
  }

  lemma GroupStep(data: DatabaseSchema, cvs: seq<CoreValue>, i: nat)
    requires i < |cvs|
    ensures GroupKeys(cvs[..i + 1]) == SetAdd(GroupKeys(cvs[..i]), cvs[i].value)
    ensures GroupMap(data, cvs[..i + 1]) == GroupMap(data, cvs[..i])[cvs[i].value := ReportFor(data, cvs[i])]
  {
    assert cvs[..i + 1][..i] == cvs[..i];
  }

  /** `analyzeDataQuality` on already-parsed data: fills the map core value
      by core value, then builds the recommendations. */
  method AnalyzeDataQuality(data: DatabaseSchema) returns (report: QualityReport)
    ensures report == ReportOf(data)
  {
    var cvs := data.coreValues;
    var keys: seq<string> := [];
    var m: map<string, CoreValueReport> := map[];
    var i := 0;
    while i < |cvs|
      invariant i <= |cvs|
      invariant keys == GroupKeys(cvs[..i]) && m == GroupMap(data, cvs[..i])
    {
      GroupStep(data, cvs, i);
      keys := SetAdd(keys, cvs[i].value);
      m := m[cvs[i].value := ReportFor(data, cvs[i])];
      i := i + 1;
    }
    assert cvs[..i] == cvs;
    GroupDomain(data, cvs);
    var groups := ValuesInOrder(keys, m);
    var recommendations := BuildRecommendations(groups);
    report := QualityReport(groups, recommendations);
  }
}
