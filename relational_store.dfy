/** The in-memory relational store: seven tables, the getters that read
    them and the operations that change them in place. Loading and saving
    the JSON file around each operation is not modelled; the store is the
    state of one object. Fresh ids and the current date are parameters:
    `id` for an operation that makes one record, and `mint(k)` for the k-th
    id an operation asks for when it makes several. */
module RelationalStore {
  import opened Wrappers
  import opened Tables
  import opened RelationalTypes
  import opened NotionImport

  // ---------------------------------------------------------------------
  // The tests the getters and mutators pass to find, filter and findIndex

  function ValueActive(v: ValueRecord): bool { v.isActive }
  function AuthorActive(a: Author): bool { a.isActive }
  function QuoteActive(q: Quote): bool { q.isActive }

  function ValueIdIs(id: Id): ValueRecord -> bool { (v: ValueRecord) => v.id == id }
  function ActiveValueIdIs(id: Id): ValueRecord -> bool { (v: ValueRecord) => v.id == id && v.isActive }
  function AuthorIdIs(id: Id): Author -> bool { (a: Author) => a.id == id }
  function ActiveAuthorIdIs(id: Id): Author -> bool { (a: Author) => a.id == id && a.isActive }
  function QuoteIdIs(id: Id): Quote -> bool { (q: Quote) => q.id == id }
  function PostIdIs(id: Id): QuotePost -> bool { (p: QuotePost) => p.id == id }

  /** `rel => rel.coreValueId !== id` and its relatives. */
  function SupportRowNotCore(id: Id): CoreValueSupportingValue -> bool {
    (r: CoreValueSupportingValue) => r.coreValueId != id
  }
  function SupportRowNotSupport(id: Id): CoreValueSupportingValue -> bool {
    (r: CoreValueSupportingValue) => r.supportingValueId != id
  }
  function SupportRowOfSupport(id: Id): CoreValueSupportingValue -> bool {
    (r: CoreValueSupportingValue) => r.supportingValueId == id
  }
  function QuoteRowNotCore(id: Id): CoreValueQuote -> bool { (r: CoreValueQuote) => r.coreValueId != id }
  function QuoteRowNotQuote(id: Id): CoreValueQuote -> bool { (r: CoreValueQuote) => r.quoteId != id }
  function QuoteRowOfQuote(id: Id): CoreValueQuote -> bool { (r: CoreValueQuote) => r.quoteId == id }
  function PostNotQuote(id: Id): QuotePost -> bool { (p: QuotePost) => p.quoteId != id }

  /** `db.coreValueSupportingValues.find(...)` for one exact pair. */
  function SupportRowIs(cvId: Id, svId: Id): CoreValueSupportingValue -> bool {
    (r: CoreValueSupportingValue) => r.coreValueId == cvId && r.supportingValueId == svId
  }

  // ---------------------------------------------------------------------
  // Getters

  /** `getCoreValues` and `getSupportingValues`: the active records, in
      stored order. */
  function ActiveValues(values: seq<ValueRecord>): (r: seq<ValueRecord>)
    ensures forall v :: v in r <==> v in values && v.isActive
    ensures |r| == CountWhere(values, ValueActive)
    ensures Subsequence(r, values)
  {
    FilterMembers(values, ValueActive);
    FilterLength(values, ValueActive);
    FilterSubsequence(values, ValueActive);
    Filter(values, ValueActive)
  }

  /** `getAuthors`: the active authors, in stored order. */
  function ActiveAuthors(authors: seq<Author>): (r: seq<Author>)
    ensures forall a :: a in r <==> a in authors && a.isActive
    ensures |r| == CountWhere(authors, AuthorActive)
    ensures Subsequence(r, authors)
  {
    FilterMembers(authors, AuthorActive);
    FilterLength(authors, AuthorActive);
    FilterSubsequence(authors, AuthorActive);
    Filter(authors, AuthorActive)
  }

  /** `{...quote, author: quote.authorId ? authors.find(...) : undefined}`:
      an absent or empty author id finds no author; otherwise the author is
      the first active one with that id. */
  function WithAuthor(q: Quote, authors: seq<Author>): (r: QuoteWithAuthor)
    ensures r.quote == q
    ensures r.author.Some? ==>
      && q.authorId.Some? && r.author.value in authors
      && r.author.value.id == q.authorId.value && r.author.value.isActive
    ensures (q.authorId.None? || q.authorId.value == []) ==> r.author.None?
    ensures q.authorId.Some? && q.authorId.value != [] ==>
      (r.author.None? <==> forall i :: 0 <= i < |authors| ==> !(authors[i].id == q.authorId.value && authors[i].isActive))
    ensures q.authorId.Some? && r.author.Some? ==>
      exists i :: 0 <= i < |authors| && authors[i] == r.author.value
        && forall j :: 0 <= j < i ==> !(authors[j].id == q.authorId.value && authors[j].isActive)
  {
    if q.authorId.Some? && q.authorId.value != [] then
      assert forall a :: ActiveAuthorIdIs(q.authorId.value)(a) <==> a.id == q.authorId.value && a.isActive;
      QuoteWithAuthor(q, Find(authors, ActiveAuthorIdIs(q.authorId.value)))
    else
      QuoteWithAuthor(q, None)
  }

  function WithAuthors(quotes: seq<Quote>, authors: seq<Author>): (r: seq<QuoteWithAuthor>)
    ensures |r| == |quotes|
    ensures forall k :: 0 <= k < |quotes| ==> r[k] == WithAuthor(quotes[k], authors)
  {
    if quotes == [] then [] else [WithAuthor(quotes[0], authors)] + WithAuthors(quotes[1..], authors)
  }

  /** The quotes inside a list of quotes with their authors, in order. */
  function QuotesOf(xs: seq<QuoteWithAuthor>): (r: seq<Quote>)
    ensures |r| == |xs|
    ensures forall k :: 0 <= k < |xs| ==> r[k] == xs[k].quote
  {
    if xs == [] then [] else [xs[0].quote] + QuotesOf(xs[1..])
  }

  /** `getQuotes`: the active quotes, in stored order, each with its author. */
  function ActiveQuotes(db: DatabaseSchema): (r: seq<QuoteWithAuthor>)
    ensures forall x :: x in r <==> x.quote in db.quotes && x.quote.isActive && x == WithAuthor(x.quote, db.authors)
    ensures |r| == CountWhere(db.quotes, QuoteActive)
    ensures Subsequence(QuotesOf(r), db.quotes)
  {
    var active := Filter(db.quotes, QuoteActive);
    FilterMembers(db.quotes, QuoteActive);
    FilterLength(db.quotes, QuoteActive);
    FilterSubsequence(db.quotes, QuoteActive);
    assert QuotesOf(WithAuthors(active, db.authors)) == active;
    WithAuthors(active, db.authors)
  }

  /** The supporting value ids linked to a core value, in row order. */
  function SupportIdsOf(rels: seq<CoreValueSupportingValue>, cvId: Id): (r: seq<Id>)
    ensures forall id :: id in r <==> exists k :: 0 <= k < |rels| && rels[k].coreValueId == cvId && rels[k].supportingValueId == id
  {
    if rels == [] then []
    else
      var rest := SupportIdsOf(rels[1..], cvId);
      assert forall k :: 0 <= k < |rels| - 1 ==> rels[1..][k] == rels[k + 1];
      (if rels[0].coreValueId == cvId then [rels[0].supportingValueId] else []) + rest
  }

  /** The quote ids linked to a core value, in row order. */
  function QuoteIdsOf(rels: seq<CoreValueQuote>, cvId: Id): (r: seq<Id>)
    ensures forall id :: id in r <==> exists k :: 0 <= k < |rels| && rels[k].coreValueId == cvId && rels[k].quoteId == id
  {
    if rels == [] then []
    else
      var rest := QuoteIdsOf(rels[1..], cvId);
      assert forall k :: 0 <= k < |rels| - 1 ==> rels[1..][k] == rels[k + 1];
      (if rels[0].coreValueId == cvId then [rels[0].quoteId] else []) + rest
  }

  function ActiveValueIn(ids: seq<Id>): ValueRecord -> bool { (v: ValueRecord) => v.id in ids && v.isActive }
  function ActiveQuoteIn(ids: seq<Id>): Quote -> bool { (q: Quote) => q.id in ids && q.isActive }

  /** Some row of the first junction table links these two ids. */
  predicate SupportLinked(rels: seq<CoreValueSupportingValue>, cvId: Id, svId: Id) {
    exists k :: 0 <= k < |rels| && rels[k].coreValueId == cvId && rels[k].supportingValueId == svId
  }

  /** Some row of the second junction table links these two ids. */
  predicate QuoteLinked(rels: seq<CoreValueQuote>, cvId: Id, qId: Id) {
    exists k :: 0 <= k < |rels| && rels[k].coreValueId == cvId && rels[k].quoteId == qId
  }

  /** `getSupportingValuesForCore`: the active supporting values some row
      links to the core value, in stored order. */
  function SupportingValuesForCore(db: DatabaseSchema, cvId: Id): (r: seq<SupportingValue>)
    ensures forall sv :: sv in r <==>
      sv in db.supportingValues && sv.isActive && SupportLinked(db.coreValueSupportingValues, cvId, sv.id)
    ensures |r| == CountWhere(db.supportingValues, ActiveValueIn(SupportIdsOf(db.coreValueSupportingValues, cvId)))
    ensures Subsequence(r, db.supportingValues)
  {
    var ids := SupportIdsOf(db.coreValueSupportingValues, cvId);
    FilterMembers(db.supportingValues, ActiveValueIn(ids));
    FilterLength(db.supportingValues, ActiveValueIn(ids));
    FilterSubsequence(db.supportingValues, ActiveValueIn(ids));
    Filter(db.supportingValues, ActiveValueIn(ids))
  }

  /** `getQuotesForCore`: the active quotes some row links to the core
      value, in stored order, each with its author. */
  function QuotesForCore(db: DatabaseSchema, cvId: Id): (r: seq<QuoteWithAuthor>)
    ensures forall x :: x in r <==>
      x.quote in db.quotes && x.quote.isActive && QuoteLinked(db.coreValueQuotes, cvId, x.quote.id)
      && x == WithAuthor(x.quote, db.authors)
    ensures |r| == CountWhere(db.quotes, ActiveQuoteIn(QuoteIdsOf(db.coreValueQuotes, cvId)))
    ensures Subsequence(QuotesOf(r), db.quotes)
  {
    var ids := QuoteIdsOf(db.coreValueQuotes, cvId);
    var linked := Filter(db.quotes, ActiveQuoteIn(ids));
    FilterMembers(db.quotes, ActiveQuoteIn(ids));
    FilterLength(db.quotes, ActiveQuoteIn(ids));
    FilterSubsequence(db.quotes, ActiveQuoteIn(ids));
    assert QuotesOf(WithAuthors(linked, db.authors)) == linked;
    WithAuthors(linked, db.authors)
  }

  /** `getCoreValueWithRelations`: None unless an active core value has the
      id; otherwise the first such record with its linked supporting values
      and quotes. */
  function CoreValueWithRelationsOf(db: DatabaseSchema, id: Id): (r: Option<CoreValueWithRelations>)
    ensures r.None? <==> forall k :: 0 <= k < |db.coreValues| ==> !(db.coreValues[k].id == id && db.coreValues[k].isActive)
    ensures r.Some? ==> r.value.coreValue in db.coreValues && r.value.coreValue.id == id && r.value.coreValue.isActive
    ensures r.Some? ==> (
      exists i :: 0 <= i < |db.coreValues| && db.coreValues[i] == r.value.coreValue
        && forall j :: 0 <= j < i ==> !(db.coreValues[j].id == id && db.coreValues[j].isActive))
    ensures r.Some? ==> r.value.supportingValues == SupportingValuesForCore(db, id) && r.value.quotes == QuotesForCore(db, id)
  {
    assert forall v :: ActiveValueIdIs(id)(v) <==> v.id == id && v.isActive;
    match Find(db.coreValues, ActiveValueIdIs(id))
    case None => None
    case Some(cv) => Some(CoreValueWithRelations(cv, SupportingValuesForCore(db, id), QuotesForCore(db, id)))
  }

  // ---------------------------------------------------------------------
  // Records made by the create operations

  /** `{id, ...input, createdAt: now, updatedAt: now}`. */
  function NewValueRecord(input: ValueInput, id: Id, now: Timestamp): (r: ValueRecord)
    ensures r.id == id && r.value == input.value && r.description == input.description
    ensures r.isActive == input.isActive && r.createdAt == now && r.updatedAt == now
  {
    ValueRecord(id, input.value, input.description, input.isActive, now, now)
  }

  function NewAuthorRecord(input: AuthorInput, id: Id, now: Timestamp): (r: Author)
    ensures r.id == id && r.name == input.name && r.isActive == input.isActive
    ensures r.createdAt == now && r.updatedAt == now
  {
    Author(id, input.name, input.isActive, now, now)
  }

  function NewQuoteRecord(input: QuoteInput, id: Id, now: Timestamp): (r: Quote)
    ensures r.id == id && r.text == input.text && r.authorId == input.authorId && r.isActive == input.isActive
    ensures r.source == input.source && r.category == input.category && r.tags == input.tags
    ensures r.createdAt == now && r.updatedAt == now
  {
    Quote(id, input.text, input.authorId, input.source, input.category, input.tags, input.isActive, now, now)
  }

  function NewPostRecord(input: QuotePostInput, id: Id, now: Timestamp): (r: QuotePost)
    ensures r.id == id && r.coreValueId == input.coreValueId && r.supportingValueId == input.supportingValueId
    ensures r.quoteId == input.quoteId && r.isPublished == input.isPublished
    ensures r.publishedAt == input.publishedAt && r.scheduledFor == input.scheduledFor
    ensures r.metaPostId == input.metaPostId && r.imageUrl == input.imageUrl
    ensures r.createdAt == now && r.updatedAt == now
  {
    QuotePost(id, input.coreValueId, input.supportingValueId, input.quoteId, input.isPublished,
              input.publishedAt, input.scheduledFor, input.metaPostId, input.imageUrl, now, now)
  }

  /** `coreValueIds || (coreValueId ? [coreValueId] : [])`: a given list,
      even an empty one, wins; otherwise a non-empty single id. */
  function LinkTargets(coreValueId: Option<Id>, coreValueIds: Option<seq<Id>>): (r: seq<Id>)
    ensures coreValueIds.Some? ==> r == coreValueIds.value
    ensures coreValueIds.None? && coreValueId.Some? && coreValueId.value != [] ==> r == [coreValueId.value]
    ensures coreValueIds.None? && (coreValueId.None? || coreValueId.value == []) ==> r == []
  {
    if coreValueIds.Some? then coreValueIds.value
    else if coreValueId.Some? && coreValueId.value != [] then [coreValueId.value]
    else []
  }

  // ---------------------------------------------------------------------
  // Archive: the matching record becomes inactive

  function ValueIndex(values: seq<ValueRecord>, id: Id): (i: int)
    ensures -1 <= i < |values|
    ensures i == -1 <==> !HasValueId(values, id)
    ensures i >= 0 ==> values[i].id == id && forall k :: 0 <= k < i ==> values[k].id != id
  {
    FindIndex(values, ValueIdIs(id))
  }

  function QuoteIndex(quotes: seq<Quote>, id: Id): (i: int)
    ensures -1 <= i < |quotes|
    ensures i == -1 <==> !HasQuoteId(quotes, id)
    ensures i >= 0 ==> quotes[i].id == id && forall k :: 0 <= k < i ==> quotes[k].id != id
  {
    FindIndex(quotes, QuoteIdIs(id))
  }

  /** `values[index] = {...values[index], isActive: false, updatedAt: now}`
      at the first record with the id, if there is one. */
  function ArchivedValues(values: seq<ValueRecord>, id: Id, now: Timestamp): seq<ValueRecord> {
    var i := ValueIndex(values, id);
    if i == -1 then values else values[i := values[i].(isActive := false, updatedAt := now)]
  }

  function ArchivedQuotes(quotes: seq<Quote>, id: Id, now: Timestamp): seq<Quote> {
    var i := QuoteIndex(quotes, id);
    if i == -1 then quotes else quotes[i := quotes[i].(isActive := false, updatedAt := now)]
  }

  /** Archiving deactivates only the first record with the id: every other
      record keeps its active flag, and ids and lengths do not change. */
  lemma ArchiveOnlyTarget(values: seq<ValueRecord>, id: Id, now: Timestamp)
    ensures |ArchivedValues(values, id, now)| == |values|
    ensures forall k :: 0 <= k < |values| ==>
      && ArchivedValues(values, id, now)[k].id == values[k].id
      && ArchivedValues(values, id, now)[k].isActive == (values[k].isActive && k != ValueIndex(values, id))
  {
  }

  /** Archiving twice leaves the same active flags as archiving once. */
  lemma ArchiveTwice(values: seq<ValueRecord>, id: Id, t1: Timestamp, t2: Timestamp)
    ensures |ArchivedValues(ArchivedValues(values, id, t1), id, t2)| == |values|
    ensures forall k :: 0 <= k < |values| ==>
      ArchivedValues(ArchivedValues(values, id, t1), id, t2)[k].isActive == ArchivedValues(values, id, t1)[k].isActive
  {
    var once := ArchivedValues(values, id, t1);
    ArchiveOnlyTarget(values, id, t1);
    ArchiveOnlyTarget(once, id, t2);
    assert ValueIndex(once, id) == ValueIndex(values, id);
  }

  lemma ArchiveQuoteTwice(quotes: seq<Quote>, id: Id, t1: Timestamp, t2: Timestamp)
    ensures |ArchivedQuotes(ArchivedQuotes(quotes, id, t1), id, t2)| == |quotes|
    ensures forall k :: 0 <= k < |quotes| ==>
      && ArchivedQuotes(quotes, id, t1)[k].isActive == (quotes[k].isActive && k != QuoteIndex(quotes, id))
      && ArchivedQuotes(ArchivedQuotes(quotes, id, t1), id, t2)[k].isActive == ArchivedQuotes(quotes, id, t1)[k].isActive
  {
    var once := ArchivedQuotes(quotes, id, t1);
    var i := QuoteIndex(quotes, id);
    if i >= 0 {
      assert once[i].id == id;
      assert forall k :: 0 <= k < i ==> once[k].id == quotes[k].id;
      assert HasQuoteId(once, id);
    }
    assert QuoteIndex(once, id) == i;
  }

  // ---------------------------------------------------------------------
  // Delete: the record goes, and so do the rows that reference it

  /** `deleteCoreValue` on a core value that exists. */
  function DeletedCoreValue(db: DatabaseSchema, id: Id): DatabaseSchema
    requires HasValueId(db.coreValues, id)
  {
    db.(coreValues := RemoveAt(db.coreValues, ValueIndex(db.coreValues, id)),
        coreValueSupportingValues := Filter(db.coreValueSupportingValues, SupportRowNotCore(id)),
        coreValueQuotes := Filter(db.coreValueQuotes, QuoteRowNotCore(id)))
  }

  /** `deleteSupportingValue` on a supporting value that exists. */
  function DeletedSupportingValue(db: DatabaseSchema, id: Id): DatabaseSchema
    requires HasValueId(db.supportingValues, id)
  {
    db.(supportingValues := RemoveAt(db.supportingValues, ValueIndex(db.supportingValues, id)),
        coreValueSupportingValues := Filter(db.coreValueSupportingValues, SupportRowNotSupport(id)))
  }

  /** `deleteQuote` on a quote that exists. */
  function DeletedQuote(db: DatabaseSchema, id: Id): DatabaseSchema
    requires HasQuoteId(db.quotes, id)
  {
    db.(quotes := RemoveAt(db.quotes, QuoteIndex(db.quotes, id)),
        coreValueQuotes := Filter(db.coreValueQuotes, QuoteRowNotQuote(id)),
        quotePosts := Filter(db.quotePosts, PostNotQuote(id)))
  }

  /** Deleting a core value removes its record and every junction row that
      names it, keeps every other junction row, and leaves the quote posts,
      even those that name it, as they were. */
  lemma DeleteCoreValueCascades(db: DatabaseSchema, id: Id)
    requires HasValueId(db.coreValues, id)
    ensures |DeletedCoreValue(db, id).coreValues| == |db.coreValues| - 1
    ensures forall r :: r in DeletedCoreValue(db, id).coreValueSupportingValues <==>
      r in db.coreValueSupportingValues && r.coreValueId != id
    ensures forall r :: r in DeletedCoreValue(db, id).coreValueQuotes <==> r in db.coreValueQuotes && r.coreValueId != id
    ensures DeletedCoreValue(db, id).quotePosts == db.quotePosts
  {
    FilterMembers(db.coreValueSupportingValues, SupportRowNotCore(id));
    FilterMembers(db.coreValueQuotes, QuoteRowNotCore(id));
  }

  lemma DeleteSupportingValueCascades(db: DatabaseSchema, id: Id)
    requires HasValueId(db.supportingValues, id)
    ensures |DeletedSupportingValue(db, id).supportingValues| == |db.supportingValues| - 1
    ensures forall r :: r in DeletedSupportingValue(db, id).coreValueSupportingValues <==>
      r in db.coreValueSupportingValues && r.supportingValueId != id
    ensures DeletedSupportingValue(db, id).coreValueQuotes == db.coreValueQuotes
    ensures DeletedSupportingValue(db, id).quotePosts == db.quotePosts
  {
    FilterMembers(db.coreValueSupportingValues, SupportRowNotSupport(id));
  }

  /** Deleting a quote also drops its junction rows and the posts that use it. */
  lemma DeleteQuoteCascades(db: DatabaseSchema, id: Id)
    requires HasQuoteId(db.quotes, id)
    ensures |DeletedQuote(db, id).quotes| == |db.quotes| - 1
    ensures forall r :: r in DeletedQuote(db, id).coreValueQuotes <==> r in db.coreValueQuotes && r.quoteId != id
    ensures forall p :: p in DeletedQuote(db, id).quotePosts <==> p in db.quotePosts && p.quoteId != id
    ensures DeletedQuote(db, id).coreValueSupportingValues == db.coreValueSupportingValues
  {
    FilterMembers(db.coreValueQuotes, QuoteRowNotQuote(id));
    FilterMembers(db.quotePosts, PostNotQuote(id));
  }

  // ---------------------------------------------------------------------
  // Junction rows

  /** `createCoreValueSupportingValueRelation`: the existing row for the
      pair if there is one, else a new row appended to the table. */
  function LinkedSupport(rels: seq<CoreValueSupportingValue>, cvId: Id, svId: Id, id: Id, now: Timestamp)
    : (seq<CoreValueSupportingValue>, CoreValueSupportingValue)
  {
    match Find(rels, SupportRowIs(cvId, svId))
    case Some(row) => (rels, row)
    case None =>
      var row := CoreValueSupportingValue(id, cvId, svId, now);
      (rels + [row], row)
  }

  /** Linking a pair that is already linked returns the row that links it
      and leaves the table as it was; otherwise exactly one row is added. */
  lemma LinkSupportShape(rels: seq<CoreValueSupportingValue>, cvId: Id, svId: Id, id: Id, now: Timestamp)
    ensures var (rels', row) := LinkedSupport(rels, cvId, svId, id, now);
      && row.coreValueId == cvId && row.supportingValueId == svId
      && row in rels'
      && (SupportLinked(rels, cvId, svId) ==> rels' == rels)
      && (!SupportLinked(rels, cvId, svId) ==> rels' == rels + [CoreValueSupportingValue(id, cvId, svId, now)])
  {
    if SupportLinked(rels, cvId, svId) {
      var k :| 0 <= k < |rels| && rels[k].coreValueId == cvId && rels[k].supportingValueId == svId;
      assert SupportRowIs(cvId, svId)(rels[k]);
    }
  }

  /** The relation insert is idempotent: a second insert of the same pair
      returns the same row and changes nothing. */
  lemma LinkSupportIdempotent(rels: seq<CoreValueSupportingValue>, cvId: Id, svId: Id,
                              id1: Id, id2: Id, t1: Timestamp, t2: Timestamp)
    ensures var (once, row1) := LinkedSupport(rels, cvId, svId, id1, t1);
      LinkedSupport(once, cvId, svId, id2, t2) == (once, row1)
  {
    var (once, row1) := LinkedSupport(rels, cvId, svId, id1, t1);
    LinkSupportShape(rels, cvId, svId, id1, t1);
    if Find(rels, SupportRowIs(cvId, svId)).None? {
      assert once == rels + [row1];
      assert forall k :: 0 <= k < |rels| ==> once[k] == rels[k];
      assert SupportRowIs(cvId, svId)(once[|rels|]);
      assert FindIndex(once, SupportRowIs(cvId, svId)) == |rels|;
    }
  }

  /** The rows that link each id of `cvIds`, in order, to one supporting
      value, with the ids `mint(base)`, `mint(base + 1)`, ... */
  function SupportRows(cvIds: seq<Id>, svId: Id, mint: nat -> Id, base: nat, now: Timestamp)
    : (r: seq<CoreValueSupportingValue>)
    ensures |r| == |cvIds|
  {
    if cvIds == [] then []
    else
      SupportRows(cvIds[..|cvIds| - 1], svId, mint, base, now)
      + [CoreValueSupportingValue(mint(base + (|cvIds| - 1)), cvIds[|cvIds| - 1], svId, now)]
  }

  function QuoteRows(cvIds: seq<Id>, qId: Id, mint: nat -> Id, base: nat, now: Timestamp): (r: seq<CoreValueQuote>)
    ensures |r| == |cvIds|
  {
    if cvIds == [] then []
    else
      QuoteRows(cvIds[..|cvIds| - 1], qId, mint, base, now)
      + [CoreValueQuote(mint(base + (|cvIds| - 1)), cvIds[|cvIds| - 1], qId, now)]
  }

  /** One more iteration of the `for` loop that pushes the rows. */
  lemma SupportRowsStep(cvIds: seq<Id>, k: nat, svId: Id, mint: nat -> Id, base: nat, now: Timestamp)
    requires k < |cvIds|
    ensures SupportRows(cvIds[..k + 1], svId, mint, base, now)
      == SupportRows(cvIds[..k], svId, mint, base, now) + [CoreValueSupportingValue(mint(base + k), cvIds[k], svId, now)]
  {
    var xs := cvIds[..k + 1];
    assert xs[..|xs| - 1] == cvIds[..k];
    assert |xs| - 1 == k;
  }

  lemma QuoteRowsStep(cvIds: seq<Id>, k: nat, qId: Id, mint: nat -> Id, base: nat, now: Timestamp)
    requires k < |cvIds|
    ensures QuoteRows(cvIds[..k + 1], qId, mint, base, now)
      == QuoteRows(cvIds[..k], qId, mint, base, now) + [CoreValueQuote(mint(base + k), cvIds[k], qId, now)]
  {
    var xs := cvIds[..k + 1];
    assert xs[..|xs| - 1] == cvIds[..k];
    assert |xs| - 1 == k;
  }

  /** The k-th new row links the k-th listed core value. */
  lemma {:induction false} SupportRowsAt(cvIds: seq<Id>, svId: Id, mint: nat -> Id, base: nat, now: Timestamp, k: nat)
    requires k < |cvIds|
    ensures SupportRows(cvIds, svId, mint, base, now)[k] == CoreValueSupportingValue(mint(base + k), cvIds[k], svId, now)
    decreases |cvIds|
  {
    var init := cvIds[..|cvIds| - 1];
    if k < |cvIds| - 1 {
      SupportRowsAt(init, svId, mint, base, now, k);
      assert init[k] == cvIds[k];
    }
  }

  lemma {:induction false} QuoteRowsAt(cvIds: seq<Id>, qId: Id, mint: nat -> Id, base: nat, now: Timestamp, k: nat)
    requires k < |cvIds|
    ensures QuoteRows(cvIds, qId, mint, base, now)[k] == CoreValueQuote(mint(base + k), cvIds[k], qId, now)
    decreases |cvIds|
  {
    var init := cvIds[..|cvIds| - 1];
    if k < |cvIds| - 1 {
      QuoteRowsAt(init, qId, mint, base, now, k);
      assert init[k] == cvIds[k];
    }
  }

  /** The new rows all name the one supporting value. */
  lemma {:induction false} SupportRowsOwn(cvIds: seq<Id>, svId: Id, mint: nat -> Id, base: nat, now: Timestamp)
    ensures forall k :: 0 <= k < |cvIds| ==> SupportRows(cvIds, svId, mint, base, now)[k].supportingValueId == svId
  {
    forall k | 0 <= k < |cvIds| ensures SupportRows(cvIds, svId, mint, base, now)[k].supportingValueId == svId {
      SupportRowsAt(cvIds, svId, mint, base, now, k);
    }
  }

  lemma {:induction false} QuoteRowsOwn(cvIds: seq<Id>, qId: Id, mint: nat -> Id, base: nat, now: Timestamp)
    ensures forall k :: 0 <= k < |cvIds| ==> QuoteRows(cvIds, qId, mint, base, now)[k].quoteId == qId
  {
    forall k | 0 <= k < |cvIds| ensures QuoteRows(cvIds, qId, mint, base, now)[k].quoteId == qId {
      QuoteRowsAt(cvIds, qId, mint, base, now, k);
    }
  }

  /** `updateSupportingValue` with `coreValueIds`: the rows of that
      supporting value are dropped and one row per listed id is pushed. */
  function RelinkedSupport(rels: seq<CoreValueSupportingValue>, svId: Id, cvIds: seq<Id>, mint: nat -> Id, now: Timestamp)
    : seq<CoreValueSupportingValue>
  {
    Filter(rels, SupportRowNotSupport(svId)) + SupportRows(cvIds, svId, mint, 0, now)
  }

  function RelinkedQuote(rels: seq<CoreValueQuote>, qId: Id, cvIds: seq<Id>, mint: nat -> Id, now: Timestamp)
    : seq<CoreValueQuote>
  {
    Filter(rels, QuoteRowNotQuote(qId)) + QuoteRows(cvIds, qId, mint, 0, now)
  }

  /** After relinking, the rows of the supporting value are exactly the new
      ones, in list order, and the rows of every other supporting value are
      the old ones, in their old order. */
  lemma RelinkSupportExact(rels: seq<CoreValueSupportingValue>, svId: Id, cvIds: seq<Id>, mint: nat -> Id, now: Timestamp)
    ensures Filter(RelinkedSupport(rels, svId, cvIds, mint, now), SupportRowOfSupport(svId))
      == SupportRows(cvIds, svId, mint, 0, now)
    ensures Filter(RelinkedSupport(rels, svId, cvIds, mint, now), SupportRowNotSupport(svId))
      == Filter(rels, SupportRowNotSupport(svId))
  {
    var kept := Filter(rels, SupportRowNotSupport(svId));
    var added := SupportRows(cvIds, svId, mint, 0, now);
    FilterAppend(kept, added, SupportRowOfSupport(svId));
    FilterAppend(kept, added, SupportRowNotSupport(svId));
    FilterMembers(rels, SupportRowNotSupport(svId));
    SupportRowsOwn(cvIds, svId, mint, 0, now);
    FilterNone(kept, SupportRowOfSupport(svId));
    FilterKeepsAll(added, SupportRowOfSupport(svId));
    FilterNone(added, SupportRowNotSupport(svId));
    FilterIdempotent(rels, SupportRowNotSupport(svId));
  }

  lemma RelinkQuoteExact(rels: seq<CoreValueQuote>, qId: Id, cvIds: seq<Id>, mint: nat -> Id, now: Timestamp)
    ensures Filter(RelinkedQuote(rels, qId, cvIds, mint, now), QuoteRowOfQuote(qId)) == QuoteRows(cvIds, qId, mint, 0, now)
    ensures Filter(RelinkedQuote(rels, qId, cvIds, mint, now), QuoteRowNotQuote(qId)) == Filter(rels, QuoteRowNotQuote(qId))
  {
    var kept := Filter(rels, QuoteRowNotQuote(qId));
    var added := QuoteRows(cvIds, qId, mint, 0, now);
    FilterAppend(kept, added, QuoteRowOfQuote(qId));
    FilterAppend(kept, added, QuoteRowNotQuote(qId));
    FilterMembers(rels, QuoteRowNotQuote(qId));
    QuoteRowsOwn(cvIds, qId, mint, 0, now);
    FilterNone(kept, QuoteRowOfQuote(qId));
    FilterKeepsAll(added, QuoteRowOfQuote(qId));
    FilterNone(added, QuoteRowNotQuote(qId));
    FilterIdempotent(rels, QuoteRowNotQuote(qId));
  }

  // ---------------------------------------------------------------------
  // Quote posts

  /** `find` by id gives the first record with the id. */
  lemma FirstValueWithId(values: seq<ValueRecord>, id: Id)
    ensures Find(values, ValueIdIs(id)).Some? <==> HasValueId(values, id)
    ensures Find(values, ValueIdIs(id)).Some? ==> (
      exists i :: 0 <= i < |values| && values[i] == Find(values, ValueIdIs(id)).value
        && values[i].id == id && forall j :: 0 <= j < i ==> values[j].id != id)
  {
    assert forall v :: ValueIdIs(id)(v) <==> v.id == id;
  }

  lemma FirstQuoteWithId(quotes: seq<Quote>, id: Id)
    ensures Find(quotes, QuoteIdIs(id)).Some? <==> HasQuoteId(quotes, id)
    ensures Find(quotes, QuoteIdIs(id)).Some? ==> (
      exists i :: 0 <= i < |quotes| && quotes[i] == Find(quotes, QuoteIdIs(id)).value
        && quotes[i].id == id && forall j :: 0 <= j < i ==> quotes[j].id != id)
  {
    assert forall q :: QuoteIdIs(id)(q) <==> q.id == id;
  }

  lemma FirstAuthorWithId(authors: seq<Author>, authorId: Option<Id>)
    ensures authorId.Some? ==>
      (Find(authors, AuthorIdIs(authorId.value)).None? <==> forall i :: 0 <= i < |authors| ==> authors[i].id != authorId.value)
    ensures authorId.Some? && Find(authors, AuthorIdIs(authorId.value)).Some? ==> (
      exists i :: 0 <= i < |authors| && authors[i] == Find(authors, AuthorIdIs(authorId.value)).value
        && authors[i].id == authorId.value && forall j :: 0 <= j < i ==> authors[j].id != authorId.value)
  {
    if authorId.Some? {
      assert forall a :: AuthorIdIs(authorId.value)(a) <==> a.id == authorId.value;
    }
  }

  /** One post of `getQuotePosts`: None when its core value, supporting
      value or quote is missing; otherwise the post with the first records
      with those ids and the quote's author (found by id alone, active or
      not). */
  function EnrichedPost(db: DatabaseSchema, qp: QuotePost): (r: Option<QuotePostWithData>)
    ensures r.Some? <==>
      HasValueId(db.coreValues, qp.coreValueId) && HasValueId(db.supportingValues, qp.supportingValueId)
      && HasQuoteId(db.quotes, qp.quoteId)
    ensures r.Some? ==>
      && r.value.post == qp
      && r.value.coreValue in db.coreValues && r.value.coreValue.id == qp.coreValueId
      && r.value.supportingValue in db.supportingValues && r.value.supportingValue.id == qp.supportingValueId
      && r.value.quote.quote in db.quotes && r.value.quote.quote.id == qp.quoteId
    ensures r.Some? ==>
      var q := r.value.quote.quote;
      r.value.quote.author.None? <==>
        q.authorId.None? || q.authorId.value == [] || forall i :: 0 <= i < |db.authors| ==> db.authors[i].id != q.authorId.value
    ensures r.Some? && r.value.quote.author.Some? ==>
      var q := r.value.quote.quote;
      && q.authorId.Some?
      && (exists i :: 0 <= i < |db.authors| && db.authors[i] == r.value.quote.author.value
            && db.authors[i].id == q.authorId.value && forall j :: 0 <= j < i ==> db.authors[j].id != q.authorId.value)
    ensures r.Some? ==> (
      exists i :: 0 <= i < |db.coreValues| && db.coreValues[i] == r.value.coreValue
        && forall j :: 0 <= j < i ==> db.coreValues[j].id != qp.coreValueId)
    ensures r.Some? ==> (
      exists i :: 0 <= i < |db.supportingValues| && db.supportingValues[i] == r.value.supportingValue
        && forall j :: 0 <= j < i ==> db.supportingValues[j].id != qp.supportingValueId)
    ensures r.Some? ==> (
      exists i :: 0 <= i < |db.quotes| && db.quotes[i] == r.value.quote.quote
        && forall j :: 0 <= j < i ==> db.quotes[j].id != qp.quoteId)
  {
    var coreValue := Find(db.coreValues, ValueIdIs(qp.coreValueId));
    FirstValueWithId(db.coreValues, qp.coreValueId);
    var supportingValue := Find(db.supportingValues, ValueIdIs(qp.supportingValueId));
    FirstValueWithId(db.supportingValues, qp.supportingValueId);
    var quote := Find(db.quotes, QuoteIdIs(qp.quoteId));
    FirstQuoteWithId(db.quotes, qp.quoteId);
    if coreValue.None? || supportingValue.None? || quote.None? then None
    else
      var q := quote.value;
      FirstAuthorWithId(db.authors, q.authorId);
      var author := if q.authorId.Some? && q.authorId.value != [] then Find(db.authors, AuthorIdIs(q.authorId.value)) else None;
      Some(QuotePostWithData(qp, coreValue.value, supportingValue.value, QuoteWithAuthor(q, author)))
  }

  /** The entries `getQuotePosts` gives for `posts` are exactly those of
      the posts whose references all resolve. */
  predicate EntriesOf(db: DatabaseSchema, posts: seq<QuotePost>, r: seq<QuotePostWithData>) {
    && (forall e :: e in r ==> e.post in posts && Some(e) == EnrichedPost(db, e.post))
    && (forall i :: 0 <= i < |posts| && EnrichedPost(db, posts[i]).Some? ==> EnrichedPost(db, posts[i]).value in r)
  }

  /** One more post keeps `EntriesOf`: its entry, if any, is appended. */
  lemma EntriesOfSnoc(db: DatabaseSchema, posts: seq<QuotePost>, p: QuotePost, r: seq<QuotePostWithData>)
    requires EntriesOf(db, posts, r)
    ensures EntriesOf(db, posts + [p], r + (if EnrichedPost(db, p).Some? then [EnrichedPost(db, p).value] else []))
  {
    var posts' := posts + [p];
    var e := EnrichedPost(db, p);
    var r' := r + (if e.Some? then [e.value] else []);
    forall x | x in r'
      ensures x.post in posts' && Some(x) == EnrichedPost(db, x.post)
    {
      if x !in r {
        assert x == e.value;
      }
    }
    forall i | 0 <= i < |posts'| && EnrichedPost(db, posts'[i]).Some?
      ensures EnrichedPost(db, posts'[i]).value in r'
    {
      if i < |posts| {
        assert posts'[i] == posts[i];
      }
    }
  }

  /** `getQuotePosts` over the posts in order, skipping the invalid ones:
      every entry comes from a post whose references all exist, and every
      such post gives an entry. */
  function EnrichedPosts(db: DatabaseSchema, posts: seq<QuotePost>): (r: seq<QuotePostWithData>)
    ensures |r| <= |posts|
    ensures forall e :: e in r ==> e.post in posts && Some(e) == EnrichedPost(db, e.post)
    ensures forall i :: 0 <= i < |posts| && EnrichedPost(db, posts[i]).Some? ==> EnrichedPost(db, posts[i]).value in r
    decreases |posts|
  {
    if posts == [] then []
    else
      var init := posts[..|posts| - 1];
      var p := posts[|posts| - 1];
      var rest := EnrichedPosts(db, init);
      EntriesOfSnoc(db, init, p, rest);
      assert init + [p] == posts;
      rest + (if EnrichedPost(db, p).Some? then [EnrichedPost(db, p).value] else [])
  }

  /** One loop step of `getQuotePosts`: the next post's entry, if any, is
      appended. */
  lemma EnrichedPostsStep(db: DatabaseSchema, posts: seq<QuotePost>, i: nat)
    requires i < |posts|
    ensures EnrichedPosts(db, posts[..i + 1])
      == EnrichedPosts(db, posts[..i]) + (if EnrichedPost(db, posts[i]).Some? then [EnrichedPost(db, posts[i]).value] else [])
  {
    assert posts[..i + 1][..i] == posts[..i];
  }

  // ---------------------------------------------------------------------
  // Random post data

  datatype RandomPostData = RandomPostData(coreValue: CoreValue, supportingValue: SupportingValue, quote: QuoteWithAuthor)

  /** `getRandomQuotePostData`, with `Math.floor(Math.random() * n)` given
      as `pick % n` for three caller-chosen numbers. */
  function RandomPost(db: DatabaseSchema, pickCore: nat, pickSupport: nat, pickQuote: nat): (r: Option<RandomPostData>)
    ensures r.Some? ==>
      && r.value.coreValue in db.coreValues && r.value.coreValue.isActive
      && r.value.supportingValue in db.supportingValues && r.value.supportingValue.isActive
      && SupportLinked(db.coreValueSupportingValues, r.value.coreValue.id, r.value.supportingValue.id)
      && r.value.quote.quote in db.quotes && r.value.quote.quote.isActive
      && QuoteLinked(db.coreValueQuotes, r.value.coreValue.id, r.value.quote.quote.id)
      && r.value.quote == WithAuthor(r.value.quote.quote, db.authors)
    ensures ActiveValues(db.coreValues) == [] ==> r.None?
    ensures ActiveValues(db.coreValues) != [] ==>
      var cv := ActiveValues(db.coreValues)[pickCore % |ActiveValues(db.coreValues)|];
      r.None? <==> SupportingValuesForCore(db, cv.id) == [] || QuotesForCore(db, cv.id) == []
    ensures ActiveValues(db.coreValues) != [] ==>
      var cv := ActiveValues(db.coreValues)[pickCore % |ActiveValues(db.coreValues)|];
      var supports := SupportingValuesForCore(db, cv.id);
      var quotes := QuotesForCore(db, cv.id);
      supports != [] && quotes != [] ==>
        r == Some(RandomPostData(cv, supports[pickSupport % |supports|], quotes[pickQuote % |quotes|]))
  {
    var active := ActiveValues(db.coreValues);
    if active == [] then None
    else
      var cv := active[pickCore % |active|];
      var supports := SupportingValuesForCore(db, cv.id);
      var ids := QuoteIdsOf(db.coreValueQuotes, cv.id);
      var quotes := Filter(db.quotes, ActiveQuoteIn(ids));
      assert |QuotesForCore(db, cv.id)| == |quotes|;
      if supports == [] || quotes == [] then None
      else
        var q := quotes[pickQuote % |quotes|];
        FilterMembers(db.quotes, ActiveQuoteIn(ids));
        Some(RandomPostData(cv, supports[pickSupport % |supports|], WithAuthor(q, db.authors)))
  }

  // ---------------------------------------------------------------------
  // Seeding

  /** The sample data `seedDatabase` falls back to when the CSV file cannot
      be read, with the ids `mint(0)` to `mint(13)` in the order the source
      asks for them. */
  function SampleData(mint: nat -> Id, now: Timestamp): DatabaseSchema {
    DatabaseSchema(
      SampleCoreValues(mint, now), SampleSupportingValues(mint, now), SampleAuthors(mint, now), SampleQuotes(mint, now),
      [CoreValueSupportingValue(mint(10), mint(0), mint(3), now),
       CoreValueSupportingValue(mint(11), mint(1), mint(4), now)],
      [CoreValueQuote(mint(12), mint(0), mint(8), now),
       CoreValueQuote(mint(13), mint(2), mint(9), now)],
      [])
  }

  function SampleCoreValues(mint: nat -> Id, now: Timestamp): seq<CoreValue> {
    [ValueRecord(mint(0), "Growth", Some("Personal development and learning"), true, now, now),
     ValueRecord(mint(1), "Balance", Some("Finding harmony in life"), true, now, now),
     ValueRecord(mint(2), "Authenticity", Some("Being true to yourself"), true, now, now)]
  }

  function SampleSupportingValues(mint: nat -> Id, now: Timestamp): seq<SupportingValue> {
    [ValueRecord(mint(3), "Curiosity", Some("Eagerness to learn and explore"), true, now, now),
     ValueRecord(mint(4), "Patience", Some("Ability to wait and persevere"), true, now, now),
     ValueRecord(mint(5), "Courage", Some("Strength to face challenges"), true, now, now)]
  }

  function SampleAuthors(mint: nat -> Id, now: Timestamp): seq<Author> {
    [Author(mint(6), "Ralph Waldo Emerson", true, now, now),
     Author(mint(7), "Maya Angelou", true, now, now)]
  }

  function SampleQuotes(mint: nat -> Id, now: Timestamp): seq<Quote> {
    [Quote(mint(8), "The only person you are destined to become is the person you decide to be.",
           Some(mint(6)), None, None, None, true, now, now),
     Quote(mint(9), "If you don't like something, change it. If you can't change it, change your attitude.",
           Some(mint(7)), None, None, None, true, now, now)]
  }

  /** The guard of `seedDatabase`. */
  predicate HasData(db: DatabaseSchema) {
    |db.coreValues| > 0 || |db.supportingValues| > 0 || |db.quotes| > 0
  }

  // ---------------------------------------------------------------------
  // The store

  /** The cached database that every operation loads, changes in place and
      saves. */
  class Store {
    var coreValues: seq<CoreValue>
    var supportingValues: seq<SupportingValue>
    var authors: seq<Author>
    var quotes: seq<Quote>
    var coreValueSupportingValues: seq<CoreValueSupportingValue>
    var coreValueQuotes: seq<CoreValueQuote>
    var quotePosts: seq<QuotePost>

    /** The tables as one value. */
    function Snapshot(): DatabaseSchema
      reads this
    {
      DatabaseSchema(coreValues, supportingValues, authors, quotes, coreValueSupportingValues, coreValueQuotes, quotePosts)
    }

    /** The store as loaded from a file; an absent file gives empty tables. */
    constructor (db: DatabaseSchema)
      ensures Snapshot() == db
    {
      coreValues, supportingValues, authors, quotes := db.coreValues, db.supportingValues, db.authors, db.quotes;
      coreValueSupportingValues, coreValueQuotes, quotePosts := db.coreValueSupportingValues, db.coreValueQuotes, db.quotePosts;
    }

    // Core values

    /** `createCoreValue`. */
    method CreateCoreValue(input: ValueInput, id: Id, now: Timestamp) returns (r: CoreValue)
      modifies this
      ensures r == NewValueRecord(input, id, now)
      ensures Snapshot() == old(Snapshot()).(coreValues := old(coreValues) + [r])
    {
      r := NewValueRecord(input, id, now);
      coreValues := coreValues + [r];
    }

    /** `updateCoreValue`: null for an unknown id, and nothing changes;
        otherwise the patch is merged over the first record with the id,
        in place. */
    method UpdateCoreValue(id: Id, patch: ValuePatch, now: Timestamp) returns (r: Option<CoreValue>)
      modifies this
      ensures r.None? <==> !HasValueId(old(coreValues), id)
      ensures r.None? ==> Snapshot() == old(Snapshot())
      ensures r.Some? ==>
        var i := ValueIndex(old(coreValues), id);
        && r.value == MergeValue(old(coreValues)[i], patch, now)
        && Snapshot() == old(Snapshot()).(coreValues := old(coreValues)[i := r.value])
    {
      var index := ValueIndex(coreValues, id);
      if index == -1 {
        return None;
      }
      coreValues := coreValues[index := MergeValue(coreValues[index], patch, now)];
      r := Some(coreValues[index]);
    }

    /** `archiveCoreValue`: false for an unknown id. */
    method ArchiveCoreValue(id: Id, now: Timestamp) returns (ok: bool)
      modifies this
      ensures ok <==> HasValueId(old(coreValues), id)
      ensures Snapshot() == old(Snapshot()).(coreValues := ArchivedValues(old(coreValues), id, now))
    {
      var index := ValueIndex(coreValues, id);
      if index == -1 {
        return false;
      }
      coreValues := coreValues[index := coreValues[index].(isActive := false, updatedAt := now)];
      ok := true;
    }

    /** `deleteCoreValue`: false for an unknown id; otherwise the record
        and its junction rows go. */
    method DeleteCoreValue(id: Id) returns (ok: bool)
      modifies this
      ensures ok <==> HasValueId(old(coreValues), id)
      ensures ok ==> Snapshot() == DeletedCoreValue(old(Snapshot()), id)
      ensures !ok ==> Snapshot() == old(Snapshot())
    {
      var index := ValueIndex(coreValues, id);
      if index == -1 {
        return false;
      }
      coreValues := RemoveAt(coreValues, index);
      coreValueSupportingValues := Filter(coreValueSupportingValues, SupportRowNotCore(id));
      coreValueQuotes := Filter(coreValueQuotes, QuoteRowNotCore(id));
      ok := true;
    }

    // Supporting values

    /** `createSupportingValue`: the record takes `mint(0)` and the k-th
        row linking it takes `mint(k + 1)`. */
    method CreateSupportingValue(input: ValueInput, coreValueId: Option<Id>, coreValueIds: Option<seq<Id>>,
                                 mint: nat -> Id, now: Timestamp) returns (r: SupportingValue)
      modifies this
      ensures r == NewValueRecord(input, mint(0), now)
      ensures Snapshot() == old(Snapshot()).(
        supportingValues := old(supportingValues) + [r],
        coreValueSupportingValues := old(coreValueSupportingValues)
          + SupportRows(LinkTargets(coreValueId, coreValueIds), r.id, mint, 1, now))
    {
      r := NewValueRecord(input, mint(0), now);
      supportingValues := supportingValues + [r];
      var targets := LinkTargets(coreValueId, coreValueIds);
      ghost var before := Snapshot();
      var k := 0;
      while k < |targets|
        invariant k <= |targets|
        invariant Snapshot() == before.(coreValueSupportingValues := before.coreValueSupportingValues
          + SupportRows(targets[..k], r.id, mint, 1, now))
      {
        SupportRowsStep(targets, k, r.id, mint, 1, now);
        AppendAssoc(before.coreValueSupportingValues, SupportRows(targets[..k], r.id, mint, 1, now),
                    [CoreValueSupportingValue(mint(1 + k), targets[k], r.id, now)]);
        coreValueSupportingValues := coreValueSupportingValues + [CoreValueSupportingValue(mint(1 + k), targets[k], r.id, now)];
        k := k + 1;
      }
      assert targets[..k] == targets;
    }

    /** `updateSupportingValue`: as `updateCoreValue`, and with
        `coreValueIds` given the record's rows are replaced by one row per
        listed id, the k-th taking `mint(k)`. */
    method UpdateSupportingValue(id: Id, patch: ValuePatch, coreValueIds: Option<seq<Id>>, mint: nat -> Id, now: Timestamp)
      returns (r: Option<SupportingValue>)
      modifies this
      ensures r.None? <==> !HasValueId(old(supportingValues), id)
      ensures r.None? ==> Snapshot() == old(Snapshot())
      ensures r.Some? ==>
        var i := ValueIndex(old(supportingValues), id);
        && r.value == MergeValue(old(supportingValues)[i], patch, now)
        && Snapshot() == old(Snapshot()).(
          supportingValues := old(supportingValues)[i := r.value],
          coreValueSupportingValues :=
            if coreValueIds.Some? then RelinkedSupport(old(coreValueSupportingValues), id, coreValueIds.value, mint, now)
            else old(coreValueSupportingValues))
    {
      var index := ValueIndex(supportingValues, id);
      if index == -1 {
        return None;
      }
      supportingValues := supportingValues[index := MergeValue(supportingValues[index], patch, now)];
      if coreValueIds.Some? {
        RelinkSupport(id, coreValueIds.value, mint, now);
      }
      r := Some(supportingValues[index]);
    }

    /** Drops the rows of supporting value `id` and pushes one row per
        listed core value, the k-th taking `mint(k)`. */
    method RelinkSupport(id: Id, targets: seq<Id>, mint: nat -> Id, now: Timestamp)
      modifies this
      ensures Snapshot() == old(Snapshot()).(
        coreValueSupportingValues := RelinkedSupport(old(coreValueSupportingValues), id, targets, mint, now))
    {
      coreValueSupportingValues := Filter(coreValueSupportingValues, SupportRowNotSupport(id));
      ghost var before := Snapshot();
      var k := 0;
      while k < |targets|
        invariant k <= |targets|
        invariant Snapshot() == before.(coreValueSupportingValues := before.coreValueSupportingValues
          + SupportRows(targets[..k], id, mint, 0, now))
      {
        SupportRowsStep(targets, k, id, mint, 0, now);
        AppendAssoc(before.coreValueSupportingValues, SupportRows(targets[..k], id, mint, 0, now),
                    [CoreValueSupportingValue(mint(0 + k), targets[k], id, now)]);
        coreValueSupportingValues := coreValueSupportingValues + [CoreValueSupportingValue(mint(0 + k), targets[k], id, now)];
        k := k + 1;
      }
      assert targets[..k] == targets;
    }

    method ArchiveSupportingValue(id: Id, now: Timestamp) returns (ok: bool)
      modifies this
      ensures ok <==> HasValueId(old(supportingValues), id)
      ensures Snapshot() == old(Snapshot()).(supportingValues := ArchivedValues(old(supportingValues), id, now))
    {
      var index := ValueIndex(supportingValues, id);
      if index == -1 {
        return false;
      }
      supportingValues := supportingValues[index := supportingValues[index].(isActive := false, updatedAt := now)];
      ok := true;
    }

    method DeleteSupportingValue(id: Id) returns (ok: bool)
      modifies this
      ensures ok <==> HasValueId(old(supportingValues), id)
      ensures ok ==> Snapshot() == DeletedSupportingValue(old(Snapshot()), id)
      ensures !ok ==> Snapshot() == old(Snapshot())
    {
      var index := ValueIndex(supportingValues, id);
      if index == -1 {
        return false;
      }
      supportingValues := RemoveAt(supportingValues, index);
      coreValueSupportingValues := Filter(coreValueSupportingValues, SupportRowNotSupport(id));
      ok := true;
    }

    /** `createCoreValueSupportingValueRelation`. */
    method CreateCoreValueSupportingValueRelation(cvId: Id, svId: Id, id: Id, now: Timestamp)
      returns (row: CoreValueSupportingValue)
      modifies this
      ensures (coreValueSupportingValues, row) == LinkedSupport(old(coreValueSupportingValues), cvId, svId, id, now)
      ensures Snapshot() == old(Snapshot()).(coreValueSupportingValues := coreValueSupportingValues)
    {
      var existing := Find(coreValueSupportingValues, SupportRowIs(cvId, svId));
      if existing.Some? {
        return existing.value;
      }
      row := CoreValueSupportingValue(id, cvId, svId, now);
      coreValueSupportingValues := coreValueSupportingValues + [row];
    }

    // Authors

    method CreateAuthor(input: AuthorInput, id: Id, now: Timestamp) returns (r: Author)
      modifies this
      ensures r == NewAuthorRecord(input, id, now)
      ensures Snapshot() == old(Snapshot()).(authors := old(authors) + [r])
    {
      r := NewAuthorRecord(input, id, now);
      authors := authors + [r];
    }

    // Quotes

    /** `createQuote`: the quote takes `mint(0)`, the k-th row `mint(k + 1)`. */
    method CreateQuote(input: QuoteInput, coreValueId: Option<Id>, coreValueIds: Option<seq<Id>>,
                       mint: nat -> Id, now: Timestamp) returns (r: Quote)
      modifies this
      ensures r == NewQuoteRecord(input, mint(0), now)
      ensures Snapshot() == old(Snapshot()).(
        quotes := old(quotes) + [r],
        coreValueQuotes := old(coreValueQuotes) + QuoteRows(LinkTargets(coreValueId, coreValueIds), r.id, mint, 1, now))
    {
      r := NewQuoteRecord(input, mint(0), now);
      quotes := quotes + [r];
      var targets := LinkTargets(coreValueId, coreValueIds);
      ghost var before := Snapshot();
      var k := 0;
      while k < |targets|
        invariant k <= |targets|
        invariant Snapshot() == before.(coreValueQuotes := before.coreValueQuotes + QuoteRows(targets[..k], r.id, mint, 1, now))
      {
        QuoteRowsStep(targets, k, r.id, mint, 1, now);
        AppendAssoc(before.coreValueQuotes, QuoteRows(targets[..k], r.id, mint, 1, now),
                    [CoreValueQuote(mint(1 + k), targets[k], r.id, now)]);
        coreValueQuotes := coreValueQuotes + [CoreValueQuote(mint(1 + k), targets[k], r.id, now)];
        k := k + 1;
      }
      assert targets[..k] == targets;
    }

    /** `updateQuote`. */
    method UpdateQuote(id: Id, patch: QuotePatch, coreValueIds: Option<seq<Id>>, mint: nat -> Id, now: Timestamp)
      returns (r: Option<Quote>)
      modifies this
      ensures r.None? <==> !HasQuoteId(old(quotes), id)
      ensures r.None? ==> Snapshot() == old(Snapshot())
      ensures r.Some? ==>
        var i := QuoteIndex(old(quotes), id);
        && r.value == MergeQuote(old(quotes)[i], patch, now)
        && Snapshot() == old(Snapshot()).(
          quotes := old(quotes)[i := r.value],
          coreValueQuotes :=
            if coreValueIds.Some? then RelinkedQuote(old(coreValueQuotes), id, coreValueIds.value, mint, now)
            else old(coreValueQuotes))
    {
      var index := QuoteIndex(quotes, id);
      if index == -1 {
        return None;
      }
      quotes := quotes[index := MergeQuote(quotes[index], patch, now)];
      if coreValueIds.Some? {
        RelinkQuote(id, coreValueIds.value, mint, now);
      }
      r := Some(quotes[index]);
    }

    /** Drops the rows of quote `id` and pushes one row per listed core
        value, the k-th taking `mint(k)`. */
    method RelinkQuote(id: Id, targets: seq<Id>, mint: nat -> Id, now: Timestamp)
      modifies this
      ensures Snapshot() == old(Snapshot()).(coreValueQuotes := RelinkedQuote(old(coreValueQuotes), id, targets, mint, now))
    {
      coreValueQuotes := Filter(coreValueQuotes, QuoteRowNotQuote(id));
      ghost var before := Snapshot();
      var k := 0;
      while k < |targets|
        invariant k <= |targets|
        invariant Snapshot() == before.(coreValueQuotes := before.coreValueQuotes + QuoteRows(targets[..k], id, mint, 0, now))
      {
        QuoteRowsStep(targets, k, id, mint, 0, now);
        AppendAssoc(before.coreValueQuotes, QuoteRows(targets[..k], id, mint, 0, now),
                    [CoreValueQuote(mint(0 + k), targets[k], id, now)]);
        coreValueQuotes := coreValueQuotes + [CoreValueQuote(mint(0 + k), targets[k], id, now)];
        k := k + 1;
      }
      assert targets[..k] == targets;
    }

    method ArchiveQuote(id: Id, now: Timestamp) returns (ok: bool)
      modifies this
      ensures ok <==> HasQuoteId(old(quotes), id)
      ensures Snapshot() == old(Snapshot()).(quotes := ArchivedQuotes(old(quotes), id, now))
    {
      var index := QuoteIndex(quotes, id);
      if index == -1 {
        return false;
      }
      quotes := quotes[index := quotes[index].(isActive := false, updatedAt := now)];
      ok := true;
    }

    /** `deleteQuote`: also drops its junction rows and its posts. */
    method DeleteQuote(id: Id) returns (ok: bool)
      modifies this
      ensures ok <==> HasQuoteId(old(quotes), id)
      ensures ok ==> Snapshot() == DeletedQuote(old(Snapshot()), id)
      ensures !ok ==> Snapshot() == old(Snapshot())
    {
      var index := QuoteIndex(quotes, id);
      if index == -1 {
        return false;
      }
      quotes := RemoveAt(quotes, index);
      coreValueQuotes := Filter(coreValueQuotes, QuoteRowNotQuote(id));
      quotePosts := Filter(quotePosts, PostNotQuote(id));
      ok := true;
    }

    // Quote posts

    /** `getQuotePosts`: the loop over the posts that skips the invalid ones. */
    method GetQuotePosts() returns (valid: seq<QuotePostWithData>)
      ensures valid == EnrichedPosts(Snapshot(), quotePosts)
    {
      valid := [];
      var i := 0;
      while i < |quotePosts|
        invariant i <= |quotePosts|
        invariant valid == EnrichedPosts(Snapshot(), quotePosts[..i])
      {
        var qp := quotePosts[i];
        EnrichedPostsStep(Snapshot(), quotePosts, i);
        var coreValue := Find(coreValues, ValueIdIs(qp.coreValueId));
        var supportingValue := Find(supportingValues, ValueIdIs(qp.supportingValueId));
        var quote := Find(quotes, QuoteIdIs(qp.quoteId));
        if coreValue.Some? && supportingValue.Some? && quote.Some? {
          var q := quote.value;
          var author := if q.authorId.Some? && q.authorId.value != [] then Find(authors, AuthorIdIs(q.authorId.value)) else None;
          valid := valid + [QuotePostWithData(qp, coreValue.value, supportingValue.value, QuoteWithAuthor(q, author))];
        }
        i := i + 1;
      }
      assert quotePosts[..i] == quotePosts;
    }

    method CreateQuotePost(input: QuotePostInput, id: Id, now: Timestamp) returns (r: QuotePost)
      modifies this
      ensures r == NewPostRecord(input, id, now)
      ensures Snapshot() == old(Snapshot()).(quotePosts := old(quotePosts) + [r])
    {
      r := NewPostRecord(input, id, now);
      quotePosts := quotePosts + [r];
    }

    // Seeding

    /** `seedDatabase`: a store that holds any core value, supporting value
        or quote is left alone; otherwise it becomes the import of the CSV
        file, or the sample data when the file cannot be read (`None`). */
    method SeedDatabase(csvContent: Option<string>, mint: nat -> Id, now: Timestamp)
      modifies this
      ensures HasData(old(Snapshot())) ==> Snapshot() == old(Snapshot())
      ensures !HasData(old(Snapshot())) && csvContent.Some? ==>
        ImportedFrom(Snapshot(), ImportedRows(csvContent.value), mint, now)
      ensures !HasData(old(Snapshot())) && csvContent.None? ==> Snapshot() == SampleData(mint, now)
    {
      if HasData(Snapshot()) {
        return;
      }
      if csvContent.Some? {
        SeedFromNotionCSV(csvContent.value, mint, now);
      } else {
        SeedSampleData(mint, now);
      }
    }

    /** The fallback branch of `seedDatabase`. */
    method SeedSampleData(mint: nat -> Id, now: Timestamp)
      modifies this
      ensures Snapshot() == SampleData(mint, now)
    {
      Load(SampleData(mint, now));
    }

    /** `seedFromNotionCSV`: the tables become the import of the file. */
    method SeedFromNotionCSV(csvContent: string, mint: nat -> Id, now: Timestamp)
      modifies this
      ensures ImportedFrom(Snapshot(), ImportedRows(csvContent), mint, now)
    {
      var db := ParseNotionCSV(csvContent, mint, now);
      Load(db);
    }

    /** Replaces every table, as assigning `cachedDb` does. */
    method Load(db: DatabaseSchema)
      modifies this
      ensures Snapshot() == db
    {
      coreValues, supportingValues, authors, quotes := db.coreValues, db.supportingValues, db.authors, db.quotes;
      coreValueSupportingValues, coreValueQuotes, quotePosts := db.coreValueSupportingValues, db.coreValueQuotes, db.quotePosts;
    }
  }
}
