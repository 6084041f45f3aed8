/** The older four-table store: core values, supporting values and quotes
    are soft-deleted in place, a quote names its author as free text, and
    reading the posts fails as a whole on the first post whose references
    do not resolve. Core values, supporting values and quote posts have the
    same fields as in the relational store and share its records. */
module LegacyStore {
  import opened Wrappers
  import opened Tables
  import opened RelationalTypes
  import opened RelationalStore
  import opened NotionImport

  /** A quote of the older store: the author is a name, not a reference. */
  datatype LegacyQuote = LegacyQuote(
    id: Id,
    text: string,
    author: Option<string>,
    source: Option<string>,
    category: Option<string>,
    tags: Option<seq<string>>,
    isActive: bool,
    createdAt: Timestamp,
    updatedAt: Timestamp)

  datatype LegacyQuoteInput = LegacyQuoteInput(
    text: string,
    author: Option<string>,
    source: Option<string>,
    category: Option<string>,
    tags: Option<seq<string>>,
    isActive: bool)

  /** `Partial<CreateQuoteInput>`: None is a key the caller left out. */
  datatype LegacyQuotePatch = LegacyQuotePatch(
    text: Option<string>,
    author: Option<string>,
    source: Option<string>,
    category: Option<string>,
    tags: Option<seq<string>>,
    isActive: Option<bool>)

  /** `Partial<CreateQuotePostInput>`. */
  datatype PostPatch = PostPatch(
    coreValueId: Option<Id>,
    supportingValueId: Option<Id>,
    quoteId: Option<Id>,
    isPublished: Option<bool>,
    publishedAt: Option<Timestamp>,
    scheduledFor: Option<Timestamp>,
    metaPostId: Option<string>,
    imageUrl: Option<string>)

  /** A post with the three records it names. */
  datatype LegacyPostWithData = LegacyPostWithData(
    post: QuotePost, coreValue: CoreValue, supportingValue: SupportingValue, quote: LegacyQuote)

  datatype LegacyDb = LegacyDb(
    coreValues: seq<CoreValue>,
    supportingValues: seq<SupportingValue>,
    quotes: seq<LegacyQuote>,
    quotePosts: seq<QuotePost>)

  function LegacyQuoteIdIs(id: Id): LegacyQuote -> bool { (q: LegacyQuote) => q.id == id }

  /** `qp => !qp.isPublished` on an enriched post. */
  function Unpublished(e: LegacyPostWithData): bool { !e.post.isPublished }

  function LegacyQuoteActive(q: LegacyQuote): bool { q.isActive }

  /** `getQuotes`: the active quotes, in stored order. Core and supporting
      values are read by `ActiveValues`. */
  function ActiveLegacyQuotes(quotes: seq<LegacyQuote>): (r: seq<LegacyQuote>)
    ensures forall q :: q in r <==> q in quotes && q.isActive
    ensures |r| == CountWhere(quotes, LegacyQuoteActive)
    ensures Subsequence(r, quotes)
  {
    FilterMembers(quotes, LegacyQuoteActive);
    FilterLength(quotes, LegacyQuoteActive);
    FilterSubsequence(quotes, LegacyQuoteActive);
    Filter(quotes, LegacyQuoteActive)
  }

  predicate HasLegacyQuoteId(quotes: seq<LegacyQuote>, id: Id) {
    exists b :: 0 <= b < |quotes| && quotes[b].id == id
  }

  predicate HasPostId(posts: seq<QuotePost>, id: Id) {
    exists c :: 0 <= c < |posts| && posts[c].id == id
  }

  function LegacyQuoteIndex(quotes: seq<LegacyQuote>, id: Id): (i: int)
    ensures -1 <= i < |quotes|
    ensures i == -1 <==> !HasLegacyQuoteId(quotes, id)
    ensures i >= 0 ==> quotes[i].id == id && forall k :: 0 <= k < i ==> quotes[k].id != id
  {
    FindIndex(quotes, LegacyQuoteIdIs(id))
  }

  function PostIndex(posts: seq<QuotePost>, id: Id): (i: int)
    ensures -1 <= i < |posts|
    ensures i == -1 <==> !HasPostId(posts, id)
    ensures i >= 0 ==> posts[i].id == id && forall k :: 0 <= k < i ==> posts[k].id != id
  {
    FindIndex(posts, PostIdIs(id))
  }

  // ---------------------------------------------------------------------
  // Records

  function NewLegacyQuote(input: LegacyQuoteInput, id: Id, now: Timestamp): (q: LegacyQuote)
    ensures q.id == id && q.text == input.text && q.author == input.author
    ensures q.source == input.source && q.category == input.category && q.tags == input.tags
    ensures q.isActive == input.isActive && q.createdAt == now && q.updatedAt == now
  {
    LegacyQuote(id, input.text, input.author, input.source, input.category, input.tags, input.isActive, now, now)
  }

  /** `{...quote, ...input, updatedAt: now}`. */
  function MergeLegacyQuote(q: LegacyQuote, p: LegacyQuotePatch, now: Timestamp): (m: LegacyQuote)
    ensures m.id == q.id && m.createdAt == q.createdAt && m.updatedAt == now
    ensures m.text == (if p.text.Some? then p.text.value else q.text)
    ensures m.author == (if p.author.Some? then p.author else q.author)
    ensures m.source == (if p.source.Some? then p.source else q.source)
    ensures m.category == (if p.category.Some? then p.category else q.category)
    ensures m.tags == (if p.tags.Some? then p.tags else q.tags)
    ensures m.isActive == (if p.isActive.Some? then p.isActive.value else q.isActive)
  {
    q.(text := p.text.GetOr(q.text),
       author := if p.author.Some? then p.author else q.author,
       source := if p.source.Some? then p.source else q.source,
       category := if p.category.Some? then p.category else q.category,
       tags := if p.tags.Some? then p.tags else q.tags,
       isActive := p.isActive.GetOr(q.isActive),
       updatedAt := now)
  }

  /** `{...post, ...input, updatedAt: now}`. */
  function MergePost(qp: QuotePost, p: PostPatch, now: Timestamp): (m: QuotePost)
    ensures m.id == qp.id && m.createdAt == qp.createdAt && m.updatedAt == now
    ensures m.coreValueId == p.coreValueId.GetOr(qp.coreValueId)
    ensures m.supportingValueId == p.supportingValueId.GetOr(qp.supportingValueId)
    ensures m.quoteId == p.quoteId.GetOr(qp.quoteId)
    ensures m.isPublished == p.isPublished.GetOr(qp.isPublished)
    ensures m.publishedAt == (if p.publishedAt.Some? then p.publishedAt else qp.publishedAt)
    ensures m.scheduledFor == (if p.scheduledFor.Some? then p.scheduledFor else qp.scheduledFor)
    ensures m.metaPostId == (if p.metaPostId.Some? then p.metaPostId else qp.metaPostId)
    ensures m.imageUrl == (if p.imageUrl.Some? then p.imageUrl else qp.imageUrl)
  {
    qp.(coreValueId := p.coreValueId.GetOr(qp.coreValueId),
        supportingValueId := p.supportingValueId.GetOr(qp.supportingValueId),
        quoteId := p.quoteId.GetOr(qp.quoteId),
        isPublished := p.isPublished.GetOr(qp.isPublished),
        publishedAt := if p.publishedAt.Some? then p.publishedAt else qp.publishedAt,
        scheduledFor := if p.scheduledFor.Some? then p.scheduledFor else qp.scheduledFor,
        metaPostId := if p.metaPostId.Some? then p.metaPostId else qp.metaPostId,
        imageUrl := if p.imageUrl.Some? then p.imageUrl else qp.imageUrl,
        updatedAt := now)
  }

  // ---------------------------------------------------------------------
  // Soft delete and post removal

  /** `quotes[index].isActive = false; quotes[index].updatedAt = now` at the
      first quote with the id, if there is one. Core and supporting values
      are soft-deleted by `ArchivedValues`. */
  function SoftDeletedQuotes(quotes: seq<LegacyQuote>, id: Id, now: Timestamp): seq<LegacyQuote> {
    var i := LegacyQuoteIndex(quotes, id);
    if i == -1 then quotes else quotes[i := quotes[i].(isActive := false, updatedAt := now)]
  }

  /** A soft delete keeps the length and every record but the target one,
      and of the target it changes only the active flag and the date. */
  lemma SoftDeleteQuoteOnlyTarget(quotes: seq<LegacyQuote>, id: Id, now: Timestamp)
    ensures |SoftDeletedQuotes(quotes, id, now)| == |quotes|
    ensures forall k :: 0 <= k < |quotes| && k != LegacyQuoteIndex(quotes, id) ==> SoftDeletedQuotes(quotes, id, now)[k] == quotes[k]
    ensures HasLegacyQuoteId(quotes, id) ==>
      var i := LegacyQuoteIndex(quotes, id);
      SoftDeletedQuotes(quotes, id, now)[i] == quotes[i].(isActive := false, updatedAt := now)
  {
  }

  /** The same for core and supporting values: every record but the target
      is left exactly as it was. */
  lemma SoftDeleteValueOnlyTarget(values: seq<ValueRecord>, id: Id, now: Timestamp)
    ensures |ArchivedValues(values, id, now)| == |values|
    ensures forall k :: 0 <= k < |values| && k != ValueIndex(values, id) ==> ArchivedValues(values, id, now)[k] == values[k]
    ensures HasValueId(values, id) ==>
      var i := ValueIndex(values, id);
      ArchivedValues(values, id, now)[i] == values[i].(isActive := false, updatedAt := now)
  {
  }

  /** A soft-deleted quote drops out of `getQuotes`, and no quote appears
      there that was not listed before. */
  lemma SoftDeleteHidesQuote(quotes: seq<LegacyQuote>, id: Id, now: Timestamp)
    ensures forall q :: q in ActiveLegacyQuotes(SoftDeletedQuotes(quotes, id, now)) ==> q in ActiveLegacyQuotes(quotes)
    ensures HasLegacyQuoteId(quotes, id) ==>
      SoftDeletedQuotes(quotes, id, now)[LegacyQuoteIndex(quotes, id)] !in ActiveLegacyQuotes(SoftDeletedQuotes(quotes, id, now))
  {
    SoftDeleteQuoteOnlyTarget(quotes, id, now);
    var after := SoftDeletedQuotes(quotes, id, now);
    forall q | q in ActiveLegacyQuotes(after)
      ensures q in ActiveLegacyQuotes(quotes)
    {
      var k :| 0 <= k < |after| && after[k] == q;
      assert k != LegacyQuoteIndex(quotes, id);
      assert quotes[k] == q;
    }
  }

  /** `quotePosts.splice(index, 1)` at the first post with the id. */
  function RemovedPost(posts: seq<QuotePost>, id: Id): seq<QuotePost> {
    var i := PostIndex(posts, id);
    if i == -1 then posts else RemoveAt(posts, i)
  }

  /** Removal drops exactly the first post with the id and keeps the order
      of the others. */
  lemma RemovedPostExact(posts: seq<QuotePost>, id: Id)
    ensures HasPostId(posts, id) ==>
      var i := PostIndex(posts, id);
      RemovedPost(posts, id) == posts[..i] + posts[i + 1..]
    ensures !HasPostId(posts, id) ==> RemovedPost(posts, id) == posts
    ensures |RemovedPost(posts, id)| == if HasPostId(posts, id) then |posts| - 1 else |posts|
  {
  }

  // ---------------------------------------------------------------------
  // Reading the posts

  /** `find` by id gives the first quote with the id. */
  lemma FirstLegacyQuoteWithId(quotes: seq<LegacyQuote>, id: Id)
    ensures Find(quotes, LegacyQuoteIdIs(id)).Some? ==> (
      exists i :: 0 <= i < |quotes| && quotes[i] == Find(quotes, LegacyQuoteIdIs(id)).value
        && quotes[i].id == id && forall j :: 0 <= j < i ==> quotes[j].id != id)
  {
    assert forall q :: LegacyQuoteIdIs(id)(q) <==> q.id == id;
  }

  /** The enriched post, when all three references resolve, with the first
      records with those ids (by id alone: soft-deleted records still
      resolve). */
  function LegacyEnriched(db: LegacyDb, qp: QuotePost): (r: Option<LegacyPostWithData>)
    ensures r.Some? <==>
      && Any(db.coreValues, ValueIdIs(qp.coreValueId))
      && Any(db.supportingValues, ValueIdIs(qp.supportingValueId))
      && Any(db.quotes, LegacyQuoteIdIs(qp.quoteId))
    ensures r.Some? ==>
      && r.value.post == qp
      && r.value.coreValue.id == qp.coreValueId && r.value.coreValue in db.coreValues
      && r.value.supportingValue.id == qp.supportingValueId && r.value.supportingValue in db.supportingValues
      && r.value.quote.id == qp.quoteId && r.value.quote in db.quotes
    ensures r.Some? ==> (
      exists i :: 0 <= i < |db.coreValues| && db.coreValues[i] == r.value.coreValue
        && forall j :: 0 <= j < i ==> db.coreValues[j].id != qp.coreValueId)
    ensures r.Some? ==> (
      exists i :: 0 <= i < |db.supportingValues| && db.supportingValues[i] == r.value.supportingValue
        && forall j :: 0 <= j < i ==> db.supportingValues[j].id != qp.supportingValueId)
    ensures r.Some? ==> (
      exists i :: 0 <= i < |db.quotes| && db.quotes[i] == r.value.quote
        && forall j :: 0 <= j < i ==> db.quotes[j].id != qp.quoteId)
  {
    var coreValue := Find(db.coreValues, ValueIdIs(qp.coreValueId));
    FirstValueWithId(db.coreValues, qp.coreValueId);
    var supportingValue := Find(db.supportingValues, ValueIdIs(qp.supportingValueId));
    FirstValueWithId(db.supportingValues, qp.supportingValueId);
    var quote := Find(db.quotes, LegacyQuoteIdIs(qp.quoteId));
    FirstLegacyQuoteWithId(db.quotes, qp.quoteId);
    if coreValue.Some? && supportingValue.Some? && quote.Some? then
      Some(LegacyPostWithData(qp, coreValue.value, supportingValue.value, quote.value))
    else None
  }

  function EnrichIn(db: LegacyDb): QuotePost -> Option<LegacyPostWithData> {
    (qp: QuotePost) => LegacyEnriched(db, qp)
  }

  /** `getQuotePosts`: the map over the posts, which throws at the first
      post that does not resolve; the error names that post. */
  function StrictPosts(db: LegacyDb, posts: seq<QuotePost>): Result<seq<LegacyPostWithData>, Id> {
    match MapAll(posts, EnrichIn(db))
    case Ok(all) => Ok(all)
    case Err(qp) => Err(qp.id)
  }

  /** The read succeeds exactly when every post resolves, and then holds one
      enriched entry per post, in order; otherwise it fails with the id of
      the first post that does not resolve. */
  lemma StrictPostsExact(db: LegacyDb, posts: seq<QuotePost>)
    ensures StrictPosts(db, posts).Ok? <==> forall i :: 0 <= i < |posts| ==> LegacyEnriched(db, posts[i]).Some?
    ensures StrictPosts(db, posts).Ok? ==>
      && |StrictPosts(db, posts).value| == |posts|
      && forall i :: 0 <= i < |posts| ==> LegacyEnriched(db, posts[i]) == Some(StrictPosts(db, posts).value[i])
    ensures StrictPosts(db, posts).Err? ==>
      exists i :: FirstNone(posts, EnrichIn(db), i) && StrictPosts(db, posts).error == posts[i].id
  {
    MapAllExact(posts, EnrichIn(db));
  }

  /** `getRandomQuotePost`: the read's error, or null when no post is
      unpublished, or the unpublished post the pick selects (the source
      picks at random; `pick` stands for that choice). */
  function RandomUnpublished(db: LegacyDb, pick: nat): Result<Option<LegacyPostWithData>, Id> {
    match StrictPosts(db, db.quotePosts)
    case Err(e) => Err(e)
    case Ok(all) => Ok(PickUnpublished(all, pick))
  }

  /** The choice among the entries of a read that succeeded. */
  function PickUnpublished(all: seq<LegacyPostWithData>, pick: nat): Option<LegacyPostWithData> {
    var unpublished := Filter(all, Unpublished);
    if unpublished == [] then None else Some(unpublished[pick % |unpublished|])
  }

  /** Over the entries of a read that succeeded: no entry is unpublished
      exactly when every post is published, and the picked unpublished
      entry is that of an unpublished post. */
  lemma UnpublishedPick(db: LegacyDb, posts: seq<QuotePost>, all: seq<LegacyPostWithData>, pick: nat)
    requires |all| == |posts|
    requires forall i :: 0 <= i < |posts| ==> LegacyEnriched(db, posts[i]) == Some(all[i])
    ensures Filter(all, Unpublished) == [] <==> forall i :: 0 <= i < |posts| ==> posts[i].isPublished
    ensures Filter(all, Unpublished) != [] ==>
      var e := Filter(all, Unpublished)[pick % |Filter(all, Unpublished)|];
      !e.post.isPublished && e.post in posts && LegacyEnriched(db, e.post) == Some(e)
  {
    assert forall i :: 0 <= i < |posts| ==> all[i].post == posts[i];
    var unpublished := Filter(all, Unpublished);
    FilterMembers(all, Unpublished);
    if unpublished == [] {
      forall i | 0 <= i < |posts| ensures posts[i].isPublished {
        assert all[i] in all;
      }
    } else {
      var k0 :| 0 <= k0 < |all| && all[k0] == unpublished[0];
      assert !posts[k0].isPublished;
      var e := unpublished[pick % |unpublished|];
      assert e in all;
      var k :| 0 <= k < |all| && all[k] == e;
      assert e.post == posts[k];
    }
  }

  /** The random pick fails exactly when the read does; it is null exactly
      when every post is published; and a post it returns is an unpublished
      post of the store, enriched. */
  lemma RandomUnpublishedSpec(db: LegacyDb, pick: nat)
    ensures RandomUnpublished(db, pick).Err? <==> StrictPosts(db, db.quotePosts).Err?
    ensures RandomUnpublished(db, pick).Err? ==> RandomUnpublished(db, pick).error == StrictPosts(db, db.quotePosts).error
    ensures RandomUnpublished(db, pick).Ok? ==>
      (RandomUnpublished(db, pick).value.None? <==> forall i :: 0 <= i < |db.quotePosts| ==> db.quotePosts[i].isPublished)
    ensures RandomUnpublished(db, pick).Ok? && RandomUnpublished(db, pick).value.Some? ==>
      var e := RandomUnpublished(db, pick).value.value;
      && !e.post.isPublished
      && e.post in db.quotePosts
      && LegacyEnriched(db, e.post) == Some(e)
  {
    StrictPostsExact(db, db.quotePosts);
    if StrictPosts(db, db.quotePosts).Ok? {
      UnpublishedPick(db, db.quotePosts, StrictPosts(db, db.quotePosts).value, pick);
    }
  }

  /** Pick k selects the k-th unpublished entry. */
  lemma PickUnpublishedAt(all: seq<LegacyPostWithData>, k: nat)
    requires k < |Filter(all, Unpublished)|
    ensures PickUnpublished(all, k) == Some(Filter(all, Unpublished)[k])
  {
    assert k % |Filter(all, Unpublished)| == k;
  }

  /** Every unpublished post can be the random pick: when the read
      succeeds, some pick returns that post. */
  lemma RandomUnpublishedReaches(db: LegacyDb, i: nat)
    requires i < |db.quotePosts|
    ensures StrictPosts(db, db.quotePosts).Ok? && !db.quotePosts[i].isPublished ==>
      exists pick: nat ::
        && RandomUnpublished(db, pick).Ok? && RandomUnpublished(db, pick).value.Some?
        && RandomUnpublished(db, pick).value.value.post == db.quotePosts[i]
  {
    StrictPostsExact(db, db.quotePosts);
    if StrictPosts(db, db.quotePosts).Ok? && !db.quotePosts[i].isPublished {
      var all := StrictPosts(db, db.quotePosts).value;
      var unpublished := Filter(all, Unpublished);
      assert all[i].post == db.quotePosts[i];
      FilterMembers(all, Unpublished);
      assert all[i] in unpublished by {
        assert all[i] in all;
      }
      var k :| 0 <= k < |unpublished| && unpublished[k] == all[i];
      PickUnpublishedAt(all, k);
      assert RandomUnpublished(db, k).value.value.post == db.quotePosts[i];
    }
  }

  // ---------------------------------------------------------------------
  // Seeding

  /** The guard of `seedDatabase`. */
  predicate HasLegacyData(db: LegacyDb) {
    |db.coreValues| > 0 || |db.supportingValues| > 0 || |db.quotes| > 0
  }

  /** The sample records, with ids `mint(0)` to `mint(8)` in the order the
      source asks for them. */
  function LegacySampleCoreValues(mint: nat -> Id, now: Timestamp): seq<CoreValue> {
    [ValueRecord(mint(0), "Growth", Some("Personal development and learning"), true, now, now),
     ValueRecord(mint(1), "Balance", Some("Finding harmony in life"), true, now, now),
     ValueRecord(mint(2), "Mindfulness", Some("Being present and aware"), true, now, now)]
  }

  function LegacySampleSupportingValues(mint: nat -> Id, now: Timestamp): seq<SupportingValue> {
    [ValueRecord(mint(3), "Curiosity", Some("Eagerness to learn and explore"), true, now, now),
     ValueRecord(mint(4), "Depth", Some("Going beyond surface level"), true, now, now),
     ValueRecord(mint(5), "Presence", Some("Being fully engaged in the moment"), true, now, now)]
  }

  function LegacySampleQuotes(mint: nat -> Id, now: Timestamp): seq<LegacyQuote> {
    [LegacyQuote(mint(6), "The only way to do great work is to love what you do.", Some("Steve Jobs"),
                 None, Some("motivation"), Some(["work", "passion"]), true, now, now),
     LegacyQuote(mint(7), "Life is what happens to you while you're busy making other plans.", Some("John Lennon"),
                 None, Some("life"), Some(["planning", "mindfulness"]), true, now, now),
     LegacyQuote(mint(8), "The curious mind never stops learning, never stops growing.", Some("Albert Einstein"),
                 None, Some("learning"), Some(["curiosity", "growth"]), true, now, now)]
  }

  /** The tables after seeding an empty store: the posts are kept. */
  function LegacySeeded(db: LegacyDb, mint: nat -> Id, now: Timestamp): LegacyDb {
    db.(coreValues := LegacySampleCoreValues(mint, now),
        supportingValues := LegacySampleSupportingValues(mint, now),
        quotes := LegacySampleQuotes(mint, now))
  }

  /** The cached database of the older store. */
  class Store {
    var coreValues: seq<CoreValue>
    var supportingValues: seq<SupportingValue>
    var quotes: seq<LegacyQuote>
    var quotePosts: seq<QuotePost>

    function Snapshot(): LegacyDb
      reads this
    {
      LegacyDb(coreValues, supportingValues, quotes, quotePosts)
    }

    constructor (db: LegacyDb)
      ensures Snapshot() == db
    {
      coreValues, supportingValues, quotes, quotePosts := db.coreValues, db.supportingValues, db.quotes, db.quotePosts;
    }

    // Core values

    method CreateCoreValue(input: ValueInput, id: Id, now: Timestamp) returns (r: CoreValue)
      modifies this
      ensures r == NewValueRecord(input, id, now)
      ensures Snapshot() == old(Snapshot()).(coreValues := old(coreValues) + [r])
    {
      r := NewValueRecord(input, id, now);
      coreValues := coreValues + [r];
    }

    method UpdateCoreValue(id: Id, patch: ValuePatch, now: Timestamp) returns (r: Option<CoreValue>)
      modifies this
      ensures r.None? <==> !HasValueId(old(coreValues), id)
      ensures r.None? ==> Snapshot() == old(Snapshot())
      ensures r.Some? ==>
        var i := ValueIndex(old(coreValues), id);
        && r.value == MergeValue(old(coreValues)[i], patch, now)
        && Snapshot() == old(Snapshot()).(coreValues := old(coreValues)[i := r.value])
    {
      var index := ValueIndex(coreValues, id);
      if index == -1 {
        return None;
      }
      coreValues := coreValues[index := MergeValue(coreValues[index], patch, now)];
      r := Some(coreValues[index]);
    }

    /** `deleteCoreValue`: a soft delete. */
    method DeleteCoreValue(id: Id, now: Timestamp) returns (ok: bool)
      modifies this
      ensures ok <==> HasValueId(old(coreValues), id)
      ensures Snapshot() == old(Snapshot()).(coreValues := ArchivedValues(old(coreValues), id, now))
    {
      var index := ValueIndex(coreValues, id);
      if index == -1 {
        return false;
      }
      coreValues := coreValues[index := coreValues[index].(isActive := false, updatedAt := now)];
      ok := true;
    }

    // Supporting values

    method CreateSupportingValue(input: ValueInput, id: Id, now: Timestamp) returns (r: SupportingValue)
      modifies this
      ensures r == NewValueRecord(input, id, now)
      ensures Snapshot() == old(Snapshot()).(supportingValues := old(supportingValues) + [r])
    {
      r := NewValueRecord(input, id, now);
      supportingValues := supportingValues + [r];
    }

    method UpdateSupportingValue(id: Id, patch: ValuePatch, now: Timestamp) returns (r: Option<SupportingValue>)
      modifies this
      ensures r.None? <==> !HasValueId(old(supportingValues), id)
      ensures r.None? ==> Snapshot() == old(Snapshot())
      ensures r.Some? ==>
        var i := ValueIndex(old(supportingValues), id);
        && r.value == MergeValue(old(supportingValues)[i], patch, now)
        && Snapshot() == old(Snapshot()).(supportingValues := old(supportingValues)[i := r.value])
    {
      var index := ValueIndex(supportingValues, id);
      if index == -1 {
        return None;
      }
      supportingValues := supportingValues[index := MergeValue(supportingValues[index], patch, now)];
      r := Some(supportingValues[index]);
    }

    method DeleteSupportingValue(id: Id, now: Timestamp) returns (ok: bool)
      modifies this
      ensures ok <==> HasValueId(old(supportingValues), id)
      ensures Snapshot() == old(Snapshot()).(supportingValues := ArchivedValues(old(supportingValues), id, now))
    {
      var index := ValueIndex(supportingValues, id);
      if index == -1 {
        return false;
      }
      supportingValues := supportingValues[index := supportingValues[index].(isActive := false, updatedAt := now)];
      ok := true;
    }

    // Quotes

    method CreateQuote(input: LegacyQuoteInput, id: Id, now: Timestamp) returns (r: LegacyQuote)
      modifies this
      ensures r == NewLegacyQuote(input, id, now)
      ensures Snapshot() == old(Snapshot()).(quotes := old(quotes) + [r])
    {
      r := NewLegacyQuote(input, id, now);
      quotes := quotes + [r];
    }

    method UpdateQuote(id: Id, patch: LegacyQuotePatch, now: Timestamp) returns (r: Option<LegacyQuote>)
      modifies this
      ensures r.None? <==> !HasLegacyQuoteId(old(quotes), id)
      ensures r.None? ==> Snapshot() == old(Snapshot())
      ensures r.Some? ==>
        var i := LegacyQuoteIndex(old(quotes), id);
        && r.value == MergeLegacyQuote(old(quotes)[i], patch, now)
        && Snapshot() == old(Snapshot()).(quotes := old(quotes)[i := r.value])
    {
      var index := LegacyQuoteIndex(quotes, id);
      if index == -1 {
        return None;
      }
      quotes := quotes[index := MergeLegacyQuote(quotes[index], patch, now)];
      r := Some(quotes[index]);
    }

    method DeleteQuote(id: Id, now: Timestamp) returns (ok: bool)
      modifies this
      ensures ok <==> HasLegacyQuoteId(old(quotes), id)
      ensures Snapshot() == old(Snapshot()).(quotes := SoftDeletedQuotes(old(quotes), id, now))
    {
      var index := LegacyQuoteIndex(quotes, id);
      if index == -1 {
        return false;
      }
      quotes := quotes[index := quotes[index].(isActive := false, updatedAt := now)];
      ok := true;
    }

    // Quote posts

    /** `getQuotePosts`. */
    method GetQuotePosts() returns (r: Result<seq<LegacyPostWithData>, Id>)
      ensures r == StrictPosts(Snapshot(), quotePosts)
    {
      var acc: seq<LegacyPostWithData> := [];
      var i := 0;
      while i < |quotePosts|
        invariant i <= |quotePosts|
        invariant MapAll(quotePosts[..i], EnrichIn(Snapshot())) == Ok(acc)
      {
        assert quotePosts[..i + 1][..i] == quotePosts[..i];
        var e := LegacyEnriched(Snapshot(), quotePosts[i]);
        if e.None? {
          MapAllErrSticky(quotePosts, EnrichIn(Snapshot()), i + 1);
          return Err(quotePosts[i].id);
        }
        acc := acc + [e.value];
        i := i + 1;
      }
      assert quotePosts[..i] == quotePosts;
      r := Ok(acc);
    }

    method CreateQuotePost(input: QuotePostInput, id: Id, now: Timestamp) returns (r: QuotePost)
      modifies this
      ensures r == NewPostRecord(input, id, now)
      ensures Snapshot() == old(Snapshot()).(quotePosts := old(quotePosts) + [r])
    {
      r := NewPostRecord(input, id, now);
      quotePosts := quotePosts + [r];
    }

    method UpdateQuotePost(id: Id, patch: PostPatch, now: Timestamp) returns (r: Option<QuotePost>)
      modifies this
      ensures r.None? <==> !HasPostId(old(quotePosts), id)
      ensures r.None? ==> Snapshot() == old(Snapshot())
      ensures r.Some? ==>
        var i := PostIndex(old(quotePosts), id);
        && r.value == MergePost(old(quotePosts)[i], patch, now)
        && Snapshot() == old(Snapshot()).(quotePosts := old(quotePosts)[i := r.value])
    {
      var index := PostIndex(quotePosts, id);
      if index == -1 {
        return None;
      }
      quotePosts := quotePosts[index := MergePost(quotePosts[index], patch, now)];
      r := Some(quotePosts[index]);
    }

    /** `deleteQuotePost`: a hard delete. */
    method DeleteQuotePost(id: Id) returns (ok: bool)
      modifies this
      ensures ok <==> HasPostId(old(quotePosts), id)
      ensures Snapshot() == old(Snapshot()).(quotePosts := RemovedPost(old(quotePosts), id))
    {
      var index := PostIndex(quotePosts, id);
      if index == -1 {
        return false;
      }
      quotePosts := RemoveAt(quotePosts, index);
      ok := true;
    }

    /** `getRandomQuotePost`. */
    method GetRandomQuotePost(pick: nat) returns (r: Result<Option<LegacyPostWithData>, Id>)
      ensures r == RandomUnpublished(Snapshot(), pick)
    {
      var all := GetQuotePosts();
      if all.Err? {
        return Err(all.error);
      }
      var unpublished := Filter(all.value, Unpublished);
      if unpublished == [] {
        return Ok(None);
      }
      r := Ok(Some(unpublished[pick % |unpublished|]));
    }

    // Seeding

    /** `seedDatabase`: a store holding any core value, supporting value or
        quote is left alone; otherwise the three tables get the sample
        records and the posts are kept. */
    method SeedDatabase(mint: nat -> Id, now: Timestamp)
      modifies this
      ensures HasLegacyData(old(Snapshot())) ==> Snapshot() == old(Snapshot())
      ensures !HasLegacyData(old(Snapshot())) ==> Snapshot() == LegacySeeded(old(Snapshot()), mint, now)
    {
      if HasLegacyData(Snapshot()) {
        return;
      }
      SeedSampleData(mint, now);
    }

    /** The seeding branch of `seedDatabase`. */
    method SeedSampleData(mint: nat -> Id, now: Timestamp)
      modifies this
      ensures Snapshot() == LegacySeeded(old(Snapshot()), mint, now)
    {
      Load(LegacySeeded(Snapshot(), mint, now));
    }

    /** Replaces every table, as assigning `cachedDb` does. */
    method Load(db: LegacyDb)
      modifies this
      ensures Snapshot() == db
    {
      coreValues, supportingValues, quotes, quotePosts := db.coreValues, db.supportingValues, db.quotes, db.quotePosts;
    }
  }
}
