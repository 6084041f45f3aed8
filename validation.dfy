/** The quote submission schema and the collection of field errors
    (`src/lib/validation.ts`), with the length limits of
    `src/config/design.ts`.

    The schema is a zod object; the model follows zod's behaviour: the
    checks of a string run in the order they are declared, so the length
    limits apply to the text as submitted and the trim happens after them;
    a union returns the issues of its first option that got as far as the
    checks; a missing value fails a required string with "Required". */
module Validation {
  import opened Wrappers
  import opened Strings
  import Sanitization

  /** A property of the submitted object as the schema sees it: absent, a
      string, or a value of another JSON type (named as zod names it). */
  datatype Field = Missing | Text(s: string) | NonText(received: string)

  datatype Submission = Submission(
    coreValue: Field, supportingValue: Field, quote: Field, author: Field, style: Field)

  /** The parsed body: an object, or another JSON value. */
  datatype Body = Object(fields: Submission) | NotObject(received: string)

  /** A zod issue path element: an object key or an array index. */
  datatype PathElem = Key(name: string) | Index(n: nat)

  datatype ZodIssue = ZodIssue(path: seq<PathElem>, message: string)

  // ---------------------------------------------------------------------
  // Limits and messages

  const CoreValueMin: nat := 1
  const CoreValueMax: nat := 50
  const SupportingValueMin: nat := 1
  const SupportingValueMax: nat := 60
  const QuoteMin: nat := 10
  const QuoteMax: nat := 200
  const AuthorMax: nat := 30

  /** The only style the schema accepts, and the default for a missing one. */
  const AllowedStyles: seq<string> := ["style1"]

  /** A bounded required string: its limits and the message of each. */
  datatype Bounds = Bounds(min: nat, max: nat, tooShort: string, tooLong: string)

  const CoreValueBounds := Bounds(CoreValueMin, CoreValueMax,
    "Core value is required",
    "Core value must be " + NatToString(CoreValueMax) + " characters or less")

  const SupportingValueBounds := Bounds(SupportingValueMin, SupportingValueMax,
    "Supporting value is required",
    "Supporting value must be " + NatToString(SupportingValueMax) + " characters or less")

  const QuoteBounds := Bounds(QuoteMin, QuoteMax,
    "Quote must be at least " + NatToString(QuoteMin) + " characters",
    "Quote must be " + NatToString(QuoteMax) + " characters or less")

  const AuthorTooLong := "Author must be " + NatToString(AuthorMax) + " characters or less"

  const InvalidStyle := "Invalid style selected"

  function TypeMessage(received: string): string {
    "Expected string, received " + received
  }

  // ---------------------------------------------------------------------
  // The schema, field by field

  /** The message of the issue a bounded string field raises, if any. The
      minimum is checked before the maximum; with min <= max at most one of
      the two can fail. */
  function BoundedCheck(f: Field, b: Bounds): Option<string> {
    match f
    case Missing => Some("Required")
    case NonText(received) => Some(TypeMessage(received))
    case Text(s) =>
      if |s| < b.min then Some(b.tooShort)
      else if |s| > b.max then Some(b.tooLong)
      else None
  }

  /** `author`: an optional string of at most 30 characters, or ''. A
      string that is too long fails the first option of the union after its
      type check, so its length issue is the one reported; a value of
      another type fails both options. */
  function AuthorCheck(f: Field): Option<string> {
    match f
    case Missing => None
    case NonText(_) => Some("Invalid input")
    case Text(s) => if |s| > AuthorMax then Some(AuthorTooLong) else None
  }

  /** `style`: a string, "style1" when missing, and then one of the allowed
      styles. */
  function StyleCheck(f: Field): Option<string> {
    match f
    case Missing => None
    case NonText(received) => Some(TypeMessage(received))
    case Text(s) => if s in AllowedStyles then None else Some(InvalidStyle)
  }

  /** Append the issue a field raised, if it raised one. */
  function Push(issues: seq<ZodIssue>, key: string, check: Option<string>): seq<ZodIssue> {
    if check.Some? then issues + [ZodIssue([Key(key)], check.value)] else issues
  }

  /** The issues of an object, in the order its keys are declared. */
  function SubmissionIssues(sub: Submission): seq<ZodIssue> {
    var core := Push([], "coreValue", BoundedCheck(sub.coreValue, CoreValueBounds));
    var supporting := Push(core, "supportingValue", BoundedCheck(sub.supportingValue, SupportingValueBounds));
    var quote := Push(supporting, "quote", BoundedCheck(sub.quote, QuoteBounds));
    var author := Push(quote, "author", AuthorCheck(sub.author));
    Push(author, "style", StyleCheck(sub.style))
  }

  /** The validated data: trimmed strings, the author only when given, and
      the style always set. */
  function Parsed(sub: Submission): Sanitization.QuoteInput
    requires sub.coreValue.Text? && sub.supportingValue.Text? && sub.quote.Text?
    requires !sub.author.NonText? && !sub.style.NonText?
  {
    Sanitization.QuoteInput(
      Trim(sub.coreValue.s), Trim(sub.supportingValue.s), Trim(sub.quote.s),
      if sub.author.Missing? then None else Some(Trim(sub.author.s)),
      Some(if sub.style.Missing? then AllowedStyles[0] else sub.style.s))
  }

  /** `validateQuoteData`: `quoteSchema.safeParse(data)`. */
  function ValidateQuoteData(body: Body): Result<Sanitization.QuoteInput, seq<ZodIssue>> {
    match body
    case NotObject(received) => Err([ZodIssue([], "Expected object, received " + received)])
    case Object(sub) =>
      var issues := SubmissionIssues(sub);
      if issues == [] then Ok(Parsed(sub)) else Err(issues)
  }

  // ---------------------------------------------------------------------
  // The schema as a predicate

  predicate Within(f: Field, min: nat, max: nat) {
    f.Text? && min <= |f.s| <= max
  }

  /** What the schema accepts, stated with the limits alone. */
  predicate Acceptable(body: Body) {
    && body.Object?
    && Within(body.fields.coreValue, CoreValueMin, CoreValueMax)
    && Within(body.fields.supportingValue, SupportingValueMin, SupportingValueMax)
    && Within(body.fields.quote, QuoteMin, QuoteMax)
    && (body.fields.author.Missing? || Within(body.fields.author, 0, AuthorMax))
    && (body.fields.style.Missing? || body.fields.style == Text("style1"))
  }

  /** A body validates exactly when it meets every limit; the validated
      strings are the submitted ones trimmed, the author is absent only
      when it was not submitted, and the style is always "style1". */
  lemma ValidateSpec(body: Body)
    ensures ValidateQuoteData(body).Ok? <==> Acceptable(body)
    ensures ValidateQuoteData(body).Ok? ==>
      var v := ValidateQuoteData(body).value;
      && v.coreValue == Trim(body.fields.coreValue.s)
      && v.supportingValue == Trim(body.fields.supportingValue.s)
      && v.quote == Trim(body.fields.quote.s)
      && (v.author.None? <==> body.fields.author.Missing?)
      && (v.author.Some? ==> v.author.value == Trim(body.fields.author.s) && |v.author.value| <= AuthorMax)
      && v.style == Some("style1")
  {
    if body.Object? && ValidateQuoteData(body).Ok? {
      var v := ValidateQuoteData(body).value;
      if v.author.Some? {
        TrimIsSlice(body.fields.author.s);
      }
    }
  }

  /** The length limits apply before the trim: a value of white space alone
      meets the minimum and validates to the empty string. */
  lemma BlankValuesAccepted()
    ensures var body := Object(Submission(Text(" "), Text(" "), Text("          "), Missing, Missing));
      && ValidateQuoteData(body).Ok?
      && ValidateQuoteData(body).value.coreValue == []
      && ValidateQuoteData(body).value.quote == []
  {
    var sub := Submission(Text(" "), Text(" "), Text("          "), Missing, Missing);
    assert SubmissionIssues(sub) == [];
    assert AllSpace(" ") && AllSpace("          ");
    TrimEmptyIffAllSpace(" ");
    TrimEmptyIffAllSpace("          ");
  }

  // ---------------------------------------------------------------------
  // getFieldErrors

  /** `issue.path[0] as string` used as an object key: an index becomes its
      decimal text and a missing first element the key "undefined". */
  function FieldOf(issue: ZodIssue): string {
    if issue.path == [] then "undefined"
    else match issue.path[0]
      case Key(name) => name
      case Index(n) => NatToString(n)
  }

  /** One step of the loop: the message is stored unless the field already
      holds a truthy, that is non-empty, message. */
  function Record(errors: map<string, string>, issue: ZodIssue): map<string, string> {
    var field := FieldOf(issue);
    if field !in errors || errors[field] == "" then errors[field := issue.message] else errors
  }

  /** The field errors after the first |issues| steps. */
  function FieldErrors(issues: seq<ZodIssue>): map<string, string> {
    if issues == [] then map[]
    else Record(FieldErrors(issues[..|issues| - 1]), issues[|issues| - 1])
  }

  /** `getFieldErrors`. */
  method GetFieldErrors(issues: seq<ZodIssue>) returns (fieldErrors: map<string, string>)
    ensures fieldErrors == FieldErrors(issues)
  {
    fieldErrors := map[];
    var k := 0;
    while k < |issues|
      invariant k <= |issues|
      invariant fieldErrors == FieldErrors(issues[..k])
    {
      var issue := issues[k];
      var field := FieldOf(issue);
      if field !in fieldErrors || fieldErrors[field] == "" {
        fieldErrors := fieldErrors[field := issue.message];
      }
      assert issues[..k + 1][..k] == issues[..k];
      k := k + 1;
    }
    assert issues[..k] == issues;
  }

  /** Exactly the fields that some issue names get an entry. */
  lemma {:induction false} FieldErrorsKeys(issues: seq<ZodIssue>)
    ensures forall f :: f in FieldErrors(issues) <==> exists i :: 0 <= i < |issues| && FieldOf(issues[i]) == f
  {
    if issues != [] {
      var n := |issues| - 1;
      var init := issues[..n];
      FieldErrorsKeys(init);
      assert forall i :: 0 <= i < n ==> init[i] == issues[i];
    }
  }

  /** A field whose issues all have empty messages ends with the empty
      message. */
  lemma {:induction false} FieldErrorsBlank(issues: seq<ZodIssue>, f: string)
    requires forall i :: 0 <= i < |issues| && FieldOf(issues[i]) == f ==> issues[i].message == ""
    ensures f in FieldErrors(issues) ==> FieldErrors(issues)[f] == ""
  {
    if issues != [] {
      var n := |issues| - 1;
      var init := issues[..n];
      assert forall i :: 0 <= i < n ==> init[i] == issues[i];
      FieldErrorsBlank(init, f);
    }
  }

  /** The first non-empty message on a field is the one kept: later issues
      on that field do not replace it. */
  lemma {:induction false} FieldErrorsFirst(issues: seq<ZodIssue>, i: nat)
    requires i < |issues| && issues[i].message != ""
    requires forall j :: 0 <= j < i && FieldOf(issues[j]) == FieldOf(issues[i]) ==> issues[j].message == ""
    ensures FieldOf(issues[i]) in FieldErrors(issues)
    ensures FieldErrors(issues)[FieldOf(issues[i])] == issues[i].message
  {
    var n := |issues| - 1;
    var init := issues[..n];
    assert forall j :: 0 <= j < n ==> init[j] == issues[j];
    if i == n {
      FieldErrorsBlank(init, FieldOf(issues[i]));
    } else {
      assert init[i] == issues[i];
      FieldErrorsFirst(init, i);
    }
  }

  /** With non-empty messages, as every message of the schema is, each
      field holds the message of its first issue. */
  lemma FirstIssueWins(issues: seq<ZodIssue>, i: nat)
    requires forall j :: 0 <= j < |issues| ==> issues[j].message != ""
    requires i < |issues|
    requires forall j :: 0 <= j < i ==> FieldOf(issues[j]) != FieldOf(issues[i])
    ensures FieldOf(issues[i]) in FieldErrors(issues)
    ensures FieldErrors(issues)[FieldOf(issues[i])] == issues[i].message
  {
    FieldErrorsFirst(issues, i);
  }

  // ---------------------------------------------------------------------
  // Field errors of the schema

  /** The entry a field's check adds to the errors. */
  function Enter(errors: map<string, string>, key: string, check: Option<string>): map<string, string> {
    if check.Some? then errors[key := check.value] else errors
  }

  /** A field no earlier issue named is entered as its check says. */
  lemma PushErrors(issues: seq<ZodIssue>, key: string, check: Option<string>)
    requires key !in FieldErrors(issues)
    ensures FieldErrors(Push(issues, key, check)) == Enter(FieldErrors(issues), key, check)
  {
    if check.Some? {
      var p := Push(issues, key, check);
      assert p[..|p| - 1] == issues;
    }
  }

  lemma FieldNamesDistinct()
    ensures "coreValue" != "supportingValue" && "coreValue" != "quote" && "coreValue" != "author"
    ensures "coreValue" != "style" && "supportingValue" != "quote" && "supportingValue" != "author"
    ensures "supportingValue" != "style" && "quote" != "author" && "quote" != "style" && "author" != "style"
  {
    assert "quote"[0] != "style"[0];
  }

  /** The five fields' entries, one per field whose check failed. */
  function ExpectedErrors(sub: Submission): map<string, string> {
    var core := Enter(map[], "coreValue", BoundedCheck(sub.coreValue, CoreValueBounds));
    var supporting := Enter(core, "supportingValue", BoundedCheck(sub.supportingValue, SupportingValueBounds));
    var quote := Enter(supporting, "quote", BoundedCheck(sub.quote, QuoteBounds));
    var author := Enter(quote, "author", AuthorCheck(sub.author));
    Enter(author, "style", StyleCheck(sub.style))
  }

  lemma PushStep(issues: seq<ZodIssue>, key: string, check: Option<string>, keys: set<string>)
    requires FieldErrors(issues).Keys <= keys && key !in keys
    ensures FieldErrors(Push(issues, key, check)) == Enter(FieldErrors(issues), key, check)
    ensures FieldErrors(Push(issues, key, check)).Keys <= keys + {key}
  {
    PushErrors(issues, key, check);
  }

  lemma SubmissionErrorsExpected(sub: Submission)
    ensures FieldErrors(SubmissionIssues(sub)) == ExpectedErrors(sub)
  {
    FieldNamesDistinct();
    var c1 := BoundedCheck(sub.coreValue, CoreValueBounds);
    var c2 := BoundedCheck(sub.supportingValue, SupportingValueBounds);
    var c3 := BoundedCheck(sub.quote, QuoteBounds);
    var c4 := AuthorCheck(sub.author);
    var c5 := StyleCheck(sub.style);
    var core := Push([], "coreValue", c1);
    var supporting := Push(core, "supportingValue", c2);
    var quote := Push(supporting, "quote", c3);
    var author := Push(quote, "author", c4);
    PushStep([], "coreValue", c1, {});
    PushStep(core, "supportingValue", c2, {"coreValue"});
    PushStep(supporting, "quote", c3, {"coreValue", "supportingValue"});
    PushStep(quote, "author", c4, {"coreValue", "supportingValue", "quote"});
    PushStep(author, "style", c5, {"coreValue", "supportingValue", "quote", "author"});
  }

  /** Each field's rule passes exactly when the field meets its limit, and
      only the five declared keys have a rule. */
  lemma ChecksSpec(sub: Submission)
    ensures CheckOf(sub, "coreValue").None? <==> Within(sub.coreValue, CoreValueMin, CoreValueMax)
    ensures CheckOf(sub, "supportingValue").None? <==> Within(sub.supportingValue, SupportingValueMin, SupportingValueMax)
    ensures CheckOf(sub, "quote").None? <==> Within(sub.quote, QuoteMin, QuoteMax)
    ensures CheckOf(sub, "author").None? <==> sub.author.Missing? || Within(sub.author, 0, AuthorMax)
    ensures CheckOf(sub, "style").None? <==> sub.style.Missing? || sub.style == Text("style1")
    ensures forall key :: key !in {"coreValue", "supportingValue", "quote", "author", "style"} ==> CheckOf(sub, key).None?
  {
    FieldNamesDistinct();
  }

  /** The rule of each field of the schema, by key. */
  function CheckOf(sub: Submission, key: string): Option<string> {
    if key == "coreValue" then BoundedCheck(sub.coreValue, CoreValueBounds)
    else if key == "supportingValue" then BoundedCheck(sub.supportingValue, SupportingValueBounds)
    else if key == "quote" then BoundedCheck(sub.quote, QuoteBounds)
    else if key == "author" then AuthorCheck(sub.author)
    else if key == "style" then StyleCheck(sub.style)
    else None
  }

  /** The field errors of an object hold one entry per field whose rule
      fails, with that rule's message, and no other entry. */
  lemma SubmissionErrors(sub: Submission)
    ensures var errors := FieldErrors(SubmissionIssues(sub));
      forall key :: (key in errors <==> CheckOf(sub, key).Some?) && (key in errors ==> Some(errors[key]) == CheckOf(sub, key))
  {
    SubmissionErrorsExpected(sub);
    ExpectedErrorsSpec(sub);
  }

  lemma ExpectedErrorsSpec(sub: Submission)
    ensures forall key ::
      && (key in ExpectedErrors(sub) <==> CheckOf(sub, key).Some?)
      && (key in ExpectedErrors(sub) ==> Some(ExpectedErrors(sub)[key]) == CheckOf(sub, key))
  {
    FieldNamesDistinct();
  }

  /** Any style but "style1" is rejected with its own message. */
  lemma OnlyDefaultStyle(sub: Submission, style: string)
    requires sub.style == Text(style) && style != "style1"
    ensures ValidateQuoteData(Object(sub)).Err?
    ensures FieldErrors(ValidateQuoteData(Object(sub)).error)["style"] == InvalidStyle
  {
    var issues := SubmissionIssues(sub);
    assert CheckOf(sub, "style") == Some(InvalidStyle) by {
      FieldNamesDistinct();
      assert style !in AllowedStyles;
    }
    SubmissionErrors(sub);
    assert "style" in FieldErrors(issues);
    assert issues != [];
  }

  /** A body that is not an object gives a single entry, under "undefined". */
  lemma NotObjectErrors(received: string)
    ensures ValidateQuoteData(NotObject(received)).Err?
    ensures FieldErrors(ValidateQuoteData(NotObject(received)).error)
      == map["undefined" := "Expected object, received " + received]
  {
  }
}
