/** The records of the relational store and of the importer that fills it:
    seven tables, the enriched views the getters return, and the inputs of
    the create and update operations. Dates are timestamps supplied by the
    caller; ids are opaque strings supplied by the caller. */
module RelationalTypes {
  import opened Wrappers

  type Id = string

  /** Milliseconds since the epoch, as `new Date()` would hold them. */
  type Timestamp = int

  /** A core value and a supporting value have the same fields. */
  datatype ValueRecord = ValueRecord(
    id: Id,
    value: string,
    description: Option<string>,
    isActive: bool,
    createdAt: Timestamp,
    updatedAt: Timestamp)

  type CoreValue = ValueRecord
  type SupportingValue = ValueRecord

  datatype Author = Author(id: Id, name: string, isActive: bool, createdAt: Timestamp, updatedAt: Timestamp)

  datatype Quote = Quote(
    id: Id,
    text: string,
    authorId: Option<Id>,
    source: Option<string>,
    category: Option<string>,
    tags: Option<seq<string>>,
    isActive: bool,
    createdAt: Timestamp,
    updatedAt: Timestamp)

  /** Junction row: a core value is linked to a supporting value. */
  datatype CoreValueSupportingValue = CoreValueSupportingValue(
    id: Id, coreValueId: Id, supportingValueId: Id, createdAt: Timestamp)

  /** Junction row: a core value is linked to a quote. */
  datatype CoreValueQuote = CoreValueQuote(id: Id, coreValueId: Id, quoteId: Id, createdAt: Timestamp)

  datatype QuotePost = QuotePost(
    id: Id,
    coreValueId: Id,
    supportingValueId: Id,
    quoteId: Id,
    isPublished: bool,
    publishedAt: Option<Timestamp>,
    scheduledFor: Option<Timestamp>,
    metaPostId: Option<string>,
    imageUrl: Option<string>,
    createdAt: Timestamp,
    updatedAt: Timestamp)

  /** `QuoteWithAuthor`: a quote with its author record, if one was found. */
  datatype QuoteWithAuthor = QuoteWithAuthor(quote: Quote, author: Option<Author>)

  datatype CoreValueWithRelations = CoreValueWithRelations(
    coreValue: CoreValue, supportingValues: seq<SupportingValue>, quotes: seq<QuoteWithAuthor>)

  datatype QuotePostWithData = QuotePostWithData(
    post: QuotePost, coreValue: CoreValue, supportingValue: SupportingValue, quote: QuoteWithAuthor)

  /** The whole store. */
  datatype DatabaseSchema = DatabaseSchema(
    coreValues: seq<CoreValue>,
    supportingValues: seq<SupportingValue>,
    authors: seq<Author>,
    quotes: seq<Quote>,
    coreValueSupportingValues: seq<CoreValueSupportingValue>,
    coreValueQuotes: seq<CoreValueQuote>,
    quotePosts: seq<QuotePost>)

  /** `CreateCoreValueInput` and `CreateSupportingValueInput`. */
  datatype ValueInput = ValueInput(value: string, description: Option<string>, isActive: bool)

  datatype AuthorInput = AuthorInput(name: string, isActive: bool)

  datatype QuoteInput = QuoteInput(
    text: string,
    authorId: Option<Id>,
    source: Option<string>,
    category: Option<string>,
    tags: Option<seq<string>>,
    isActive: bool)

  datatype QuotePostInput = QuotePostInput(
    coreValueId: Id,
    supportingValueId: Id,
    quoteId: Id,
    isPublished: bool,
    publishedAt: Option<Timestamp>,
    scheduledFor: Option<Timestamp>,
    metaPostId: Option<string>,
    imageUrl: Option<string>)

  /** `Partial<CreateCoreValueInput>`: None is a key the caller left out. */
  datatype ValuePatch = ValuePatch(value: Option<string>, description: Option<string>, isActive: Option<bool>)

  /** `Partial<CreateQuoteInput>`. */
  datatype QuotePatch = QuotePatch(
    text: Option<string>,
    authorId: Option<Id>,
    source: Option<string>,
    category: Option<string>,
    tags: Option<seq<string>>,
    isActive: Option<bool>)

  /** `{...record, ...patch, updatedAt: now}`. */
  function MergeValue(r: ValueRecord, p: ValuePatch, now: Timestamp): (m: ValueRecord)
    ensures m.id == r.id && m.createdAt == r.createdAt && m.updatedAt == now
    ensures m.value == (if p.value.Some? then p.value.value else r.value)
    ensures m.description == (if p.description.Some? then p.description else r.description)
    ensures m.isActive == (if p.isActive.Some? then p.isActive.value else r.isActive)
  {
    r.(value := p.value.GetOr(r.value),
       description := if p.description.Some? then p.description else r.description,
       isActive := p.isActive.GetOr(r.isActive),
       updatedAt := now)
  }

  /** `{...quote, ...patch, updatedAt: now}`. */
  function MergeQuote(q: Quote, p: QuotePatch, now: Timestamp): (m: Quote)
    ensures m.id == q.id && m.createdAt == q.createdAt && m.updatedAt == now
    ensures m.text == (if p.text.Some? then p.text.value else q.text)
    ensures m.authorId == (if p.authorId.Some? then p.authorId else q.authorId)
    ensures m.source == (if p.source.Some? then p.source else q.source)
    ensures m.category == (if p.category.Some? then p.category else q.category)
    ensures m.tags == (if p.tags.Some? then p.tags else q.tags)
    ensures m.isActive == (if p.isActive.Some? then p.isActive.value else q.isActive)
  {
    q.(text := p.text.GetOr(q.text),
       authorId := if p.authorId.Some? then p.authorId else q.authorId,
       source := if p.source.Some? then p.source else q.source,
       category := if p.category.Some? then p.category else q.category,
       tags := if p.tags.Some? then p.tags else q.tags,
       isActive := p.isActive.GetOr(q.isActive),
       updatedAt := now)
  }
}
