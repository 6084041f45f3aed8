# Daily-value quote engine: a verified model

This project models the core of a quote-image automation service. The service imports a Notion export of core values, supporting values, quotes and authors into a JSON-backed relational store. It checks quote quality, validates and sanitises quote submissions, renders them into an HTML template, tokenises lightly marked-up text for a text-image endpoint, and rate-limits clients.

The model is written in Dafny, one module per component:

| file | module | component |
|---|---|---|
| `wrappers.dfy` | `Wrappers` | `Option` and `Result` |
| `strings.dfy` | `Strings` | JavaScript `trim`, `split(',')`, `join`, `includes`, ASCII `toLowerCase`, decimal numerals |
| `tables.dfy` | `Tables` | `find`, `findIndex`, `filter`, `some`, insertion-ordered sets, fail-fast `map` |
| `data_parser.dfy` | `DataParser` | CSV line splitter, row reader, quote splitter, author list, pairing, `cleanValue`, descriptions, categories |
| `notion_import.dfy` | `NotionImport` | `parseNotionCSV`: rows to a whole store |
| `relational_types.dfy` | `RelationalTypes` | the seven tables' records, inputs and patches |
| `relational_store.dfy` | `RelationalStore` | the relational store as a class with one `seq` field per table |
| `legacy_store.dfy` | `LegacyStore` | the older four-table store with soft deletes |
| `rate_limit.dfy` | `RateLimit` | the fixed-window limiter as a class over a `map` |
| `text_markup.dfy` | `TextMarkup` | the text-image endpoint's 400 checks, font size and markup tokenizer |
| `sanitization.dfy` | `Sanitization` | `escapeHtml` with a decoder, the post-DOMPurify clean-up, `sanitizeQuoteData` |
| `template.dfy` | `QuoteTemplate` | the quote page: font sizes, escaped slots, optional author line |
| `quality.dfy` | `QualityAnalyzer` | the eight quality rules and the report |
| `validation.dfy` | `Validation` | the quote schema as a predicate, and `getFieldErrors` |
| `style_presets.dfy` | `StylePresets` | the preset list and its three lookups |

Code that changes state step by step is modelled imperatively.
- The stores and the limiter are classes whose methods change their fields.
- Index-driven loops are methods with `while` loops and invariants: `parseCSVLine`, `parseQuotes`, the loops of `parseNotionCSV`, `parseTextWithMarkup`, `assessQuoteQuality`, the recommendation loops and `getFieldErrors`.
- Each method is proved equal to a reference function, and the properties are proved about that function.

Some inputs are parameters of the model:
- `nanoid()` becomes `mint: nat -> Id`, where the k-th id an operation asks for is `mint(k)`, or a single `id`.
- `new Date()` and `Date.now()` become a timestamp.
- `Math.random()` becomes a caller-chosen `pick`.
- DOMPurify becomes a function parameter `purify`.
- A CSV file that cannot be read becomes `csvContent: Option<string>`.

Zod's behaviour is modelled as zod version 3 documents it:
- the checks of a string run in declaration order, so the length limits apply to the untrimmed text;
- a union reports the issues of its first option that reached its checks;
- a missing required string gives "Required".

One consequence, proved as `Validation.BlankValuesAccepted`: a core value of one space meets the minimum of one and validates to the empty string.

## Model

| member | source | states |
|---|---|---|
| DataParser.ParseCSVLine | src/lib/data-parser.ts:257-289 | the loop returns exactly the fields of the reference splitter `CsvLine` |
| DataParser.FieldCount | src/lib/data-parser.ts:276-287 | the number of fields is one more than the number of commas met outside quotes |
| DataParser.UnquotedLine | src/lib/data-parser.ts:257-289 | a line without `"` splits exactly like `split(',')` |
| DataParser.QuotedFieldsRoundTrip | src/lib/data-parser.ts:267-287 | fields written the CSV way (quotes doubled, each field quoted) and joined by commas parse back to exactly those fields, commas and `"` included |
| DataParser.EscapedText | src/lib/data-parser.ts:267-275 | inside quotes, a CSV-escaped text adds exactly that text to the current field (each `""` gives one `"`) |
| DataParser.LoneQuotesNotCopied | src/lib/data-parser.ts:267-275 | when no `""` occurs, no field contains a `"`: a lone quote only toggles quoting |
| DataParser.ParseCSVRowImproved | src/lib/data-parser.ts:169-191 | the method returns the reference row `ParseRow` |
| DataParser.RowNeedsEightFields | src/lib/data-parser.ts:173-178 | a line gives no row exactly when it has fewer than eight fields |
| DataParser.RowReadsOnlyRollColumns | src/lib/data-parser.ts:173-178 | two lines that agree on columns 2, 4, 6 and 7 give the same row |
| DataParser.ParseQuotes | src/lib/data-parser.ts:193-224 | the loop returns the kept fragments of the reference splitter, in order |
| DataParser.QuoteStep | src/lib/data-parser.ts:199-221 | end of input keeps the current piece; a comma after a sentence end closes the piece; any other character extends it |
| DataParser.FragmentsJoin | src/lib/data-parser.ts:199-221 | joining the pieces with commas gives back the whole column: only boundary commas are dropped |
| DataParser.FragmentsEndSentences | src/lib/data-parser.ts:203-210 | every piece but the last ends, after trimming, in `.`, `!` or `?` |
| DataParser.FragmentsSplitEveryBoundary | src/lib/data-parser.ts:203-210 | no piece holds a comma that follows a sentence end: no boundary is missed |
| DataParser.Kept | src/lib/data-parser.ts:212-221 | a piece contributes at most one quote (its trim, cleaned, when longer than 20) |
| DataParser.AuthorListPositions | src/lib/data-parser.ts:226-232 | blank input gives no authors; otherwise there are commas + 1 entries and entry i is the trimmed i-th piece |
| DataParser.PairingIsPositional | src/lib/data-parser.ts:234-255 | one pair per quote; pair i carries quote i, and carries author i exactly when that entry exists and is not blank |
| DataParser.SupportingValuesClean | src/lib/data-parser.ts:169-191 | every supporting value read from a row is non-empty and trimmed |
| DataParser.CleanValueShape | src/lib/data-parser.ts:291-301 | a cleaned value is trimmed, single-spaced and no longer than its input |
| DataParser.CleanValueKeepsCleanText | src/lib/data-parser.ts:291-301 | a trimmed, single-spaced value without quote marks at its ends is left unchanged |
| DataParser.CollapseSpacesShape | src/lib/data-parser.ts:295-297 | the whitespace collapse is single-spaced, no longer than its input, empty only for empty input, and starts with space exactly when the input does |
| DataParser.StripLeadingQuotesShape | src/lib/data-parser.ts:294-295 | exactly the leading run of `"`/`'` is removed |
| DataParser.StripTrailingQuotesShape | src/lib/data-parser.ts:295-296 | exactly the trailing run of `"`/`'` is removed |
| DataParser.ValueDescriptionShape | src/lib/data-parser.ts:303-314 | every value gets a non-empty description; the five known values have their fixed text and any other value gets "Embodying the principle of " + the lower-cased value |
| DataParser.CategorizeIsFirstMatch | src/lib/data-parser.ts:316-331 | the if-chain equals the first rule, in priority order, one of whose keywords occurs in the lower-cased text, with "General Wisdom" as the default |
| DataParser.FirstMatchingCategory | src/lib/data-parser.ts:316-331 | the category is one of the rules' names or "General Wisdom" |
| NotionImport.CollectRows | src/lib/data-parser.ts:30-38 | the loop returns the rows of the lines after the header |
| NotionImport.HeaderIgnored | src/lib/data-parser.ts:30 | the first line never influences the rows |
| NotionImport.BlankLineSkipped | src/lib/data-parser.ts:31-32 | a blank line contributes no row wherever it stands |
| NotionImport.RowsComeFromLines | src/lib/data-parser.ts:30-38 | every row is the parse of one trimmed line |
| NotionImport.RowOfShape | src/lib/data-parser.ts:31-37 | a line gives at most one row, and only the row it parses to |
| NotionImport.CollectNames | src/lib/data-parser.ts:50-62 | the three Sets hold the distinct core values, supporting values and non-blank authors in first-seen order, and the pairs are all pairs of all rows |
| NotionImport.CollectPairs | src/lib/data-parser.ts:56-61 | every pair is kept, and only pairs with a non-blank author add to the author Set |
| NotionImport.AddEach | src/lib/data-parser.ts:52 | adding each name keeps the insertion-ordered set semantics |
| NotionImport.ValueRecordsAt | src/lib/data-parser.ts:65-81 | record k is made from name k with id `mint(base + k)`, the cleaned name and its description |
| NotionImport.AuthorRecordsAt | src/lib/data-parser.ts:83-89 | author k has id `mint(base + k)` and the cleaned name k |
| NotionImport.AuthorIdFor | src/lib/data-parser.ts:99-104 | none when the pair has no author or an empty one, or when no author has its cleaned name; otherwise the id of the first author with that name, or none when that id is empty; a given id is non-empty and some author has it |
| NotionImport.BuildQuotes | src/lib/data-parser.ts:92-111 | the loop returns the reference quote list `QuotesFrom` |
| NotionImport.QuotesDistinct | src/lib/data-parser.ts:93-98 | quotes are de-duplicated by cleaned text |
| NotionImport.QuotesCoverPairs | src/lib/data-parser.ts:95-111 | every pair's cleaned text has a quote |
| NotionImport.QuotesFromPairs | src/lib/data-parser.ts:95-111 | every quote made has the cleaned text of some pair |
| NotionImport.AddSupportLink | src/lib/data-parser.ts:125-135 | the `exists` check appends the pair only when absent |
| NotionImport.AddQuoteLink | src/lib/data-parser.ts:143-153 | the same for a quote pair |
| NotionImport.LinkSupport | src/lib/data-parser.ts:122-137 | a row's supporting-value pairs are added with set semantics |
| NotionImport.LinkQuotes | src/lib/data-parser.ts:140-155 | a row's quote pairs are added with set semantics |
| NotionImport.LinkRows | src/lib/data-parser.ts:117-156 | each junction table holds exactly the distinct pairs the rows ask for, in first-asked order |
| NotionImport.SupportLinksResolve | src/lib/data-parser.ts:118-124 | every supporting-value pair asked for names an existing core value and supporting value |
| NotionImport.QuoteLinksResolve | src/lib/data-parser.ts:118-142 | every quote pair asked for names an existing core value and quote |
| NotionImport.HasSupportLink | src/lib/data-parser.ts:125-127 | the `some` check holds exactly when the pair is present |
| NotionImport.HasQuoteLink | src/lib/data-parser.ts:143-145 | the same for quote pairs |
| NotionImport.BuildTables | src/lib/data-parser.ts:40-166 | the tables built are an import (`ImportedFrom`) of the rows, with empty quote posts |
| NotionImport.ParseNotionCSV | src/lib/data-parser.ts:24-167 | the result is an import of the export's rows; quote texts are distinct, no junction pair repeats and every junction row names existing records |
| NotionImport.ImportConsistent | src/lib/data-parser.ts:93-165 | any import has distinct quote texts, distinct junction pairs and resolved junction rows |
| RelationalTypes.MergeValue | src/lib/database-relational.ts:143-158 | `{...record, ...input, updatedAt}`: id and createdAt kept, each supplied field replaced, the others kept |
| RelationalTypes.MergeQuote | src/lib/database-relational.ts:428-447 | `{...quote, ...patch, updatedAt}`: id and createdAt kept; text, authorId, source, category, tags and isActive each replaced when supplied and kept otherwise |
| RelationalStore.NewValueRecord | src/lib/database-relational.ts:128-141 | a new record carries the input fields, the fresh id, and createdAt == updatedAt == now |
| RelationalStore.NewAuthorRecord | src/lib/database-relational.ts:355-369 | a new author carries the input, the fresh id and the date twice |
| RelationalStore.NewQuoteRecord | src/lib/database-relational.ts:395-409 | a new quote carries every input field (text, authorId, source, category, tags, isActive), the fresh id, and createdAt == updatedAt == now |
| RelationalStore.NewPostRecord | src/lib/database-relational.ts:540-553 | a new post carries every input field (its three references, isPublished, publishedAt, scheduledFor, metaPostId, imageUrl), the fresh id, and the date twice |
| RelationalStore.Store.constructor | src/lib/database-relational.ts:27 | the store starts as the given tables |
| RelationalStore.Store.Load | src/lib/database-relational.ts:37-80 | loading replaces the whole state by the given tables |
| RelationalStore.ActiveValues | src/lib/database-relational.ts:89-92 | exactly the active records, in stored order (a subsequence of the table as long as the number of active records; also `getSupportingValues`, 201-204) |
| RelationalStore.ActiveAuthors | src/lib/database-relational.ts:350-353 | exactly the active authors, in stored order (a subsequence of the table as long as the number of active authors) |
| RelationalStore.ActiveQuotes | src/lib/database-relational.ts:371-379 | exactly the active quotes, each with its author lookup, in stored order (the quotes form a subsequence of the table as long as the number of active quotes) |
| RelationalStore.WithAuthor | src/lib/database-relational.ts:374-378 | an absent or empty author id finds no author; otherwise an author is found exactly when an active author has the id, and it is the first such author in the table |
| RelationalStore.SupportingValuesForCore | src/lib/database-relational.ts:206-215 | exactly the active supporting values some junction row links to the core value, in stored order (a subsequence of the table as long as the number of such records) |
| RelationalStore.QuotesForCore | src/lib/database-relational.ts:381-393 | exactly the active quotes some junction row links to the core value, each with its author lookup, in stored order (the quotes form a subsequence of the table as long as the number of such quotes) |
| RelationalStore.CoreValueWithRelationsOf | src/lib/database-relational.ts:94-126 | null exactly when no active core value has the id; otherwise the first active record with the id (no earlier one qualifies) with its linked supporting values and quotes |
| RelationalStore.Store.CreateCoreValue | src/lib/database-relational.ts:128-141 | one record with the fresh id and createdAt == updatedAt is appended; every other table is unchanged |
| RelationalStore.Store.UpdateCoreValue | src/lib/database-relational.ts:143-158 | null and no change for an unknown id; otherwise the merged record replaces the first one with the id, at its index, and nothing else changes |
| RelationalStore.Store.ArchiveCoreValue | src/lib/database-relational.ts:160-175 | returns whether the id exists; only the first record with the id is deactivated |
| RelationalStore.ArchiveOnlyTarget | src/lib/database-relational.ts:160-175 | archiving keeps length and ids, and deactivates only the target index |
| RelationalStore.ArchiveTwice | src/lib/database-relational.ts:160-175 | archiving twice leaves the same active flags as archiving once |
| RelationalStore.ArchiveQuoteTwice | src/lib/database-relational.ts:469-485 | the same two facts for quotes |
| RelationalStore.Store.DeleteCoreValue | src/lib/database-relational.ts:177-198 | false and no change for an unknown id; otherwise the cascade `DeletedCoreValue` |
| RelationalStore.DeleteCoreValueCascades | src/lib/database-relational.ts:177-198 | the record goes; both junction tables lose exactly the rows naming it; quote posts stay |
| RelationalStore.Store.CreateSupportingValue | src/lib/database-relational.ts:217-248 | the record is appended and one junction row per target core value is pushed, in order |
| RelationalStore.LinkTargets | src/lib/database-relational.ts:232-234 | a given id list wins, even empty; otherwise a non-empty single id; otherwise none |
| RelationalStore.SupportRowsAt | src/lib/database-relational.ts:235-245 | the k-th pushed row links the k-th listed core value with id `mint(base + k)` |
| RelationalStore.Store.UpdateSupportingValue | src/lib/database-relational.ts:250-287 | null and no change for an unknown id; otherwise the merge at its index, and with `coreValueIds` given its junction rows are replaced; without it they are unchanged |
| RelationalStore.Store.RelinkSupport | src/lib/database-relational.ts:267-283 | the table becomes `RelinkedSupport` of the old one |
| RelationalStore.RelinkSupportExact | src/lib/database-relational.ts:267-283 | after relinking, the record's rows are exactly one per listed id in list order, and other records' rows are the old ones in their old order |
| RelationalStore.Store.ArchiveSupportingValue | src/lib/database-relational.ts:289-304 | returns whether the id exists; only the first record with the id is deactivated |
| RelationalStore.Store.DeleteSupportingValue | src/lib/database-relational.ts:306-322 | false and no change for an unknown id; otherwise `DeletedSupportingValue` |
| RelationalStore.DeleteSupportingValueCascades | src/lib/database-relational.ts:306-322 | the record goes, its supporting-value rows go, the quote links and posts stay |
| RelationalStore.Store.CreateCoreValueSupportingValueRelation | src/lib/database-relational.ts:324-346 | the table and row are those of `LinkedSupport` and no other table changes |
| RelationalStore.LinkSupportShape | src/lib/database-relational.ts:329-346 | an existing pair returns its row and leaves the table; otherwise exactly one row is appended |
| RelationalStore.LinkSupportIdempotent | src/lib/database-relational.ts:329-346 | a second insert of the same pair returns the same row and changes nothing |
| RelationalStore.Store.CreateAuthor | src/lib/database-relational.ts:355-369 | one author with the fresh id is appended; nothing else changes |
| RelationalStore.Store.CreateQuote | src/lib/database-relational.ts:395-426 | the quote is appended and one junction row per target core value is pushed |
| RelationalStore.QuoteRowsAt | src/lib/database-relational.ts:411-422 | the k-th pushed quote row links the k-th listed core value |
| RelationalStore.Store.UpdateQuote | src/lib/database-relational.ts:428-467 | null and no change for an unknown id; otherwise the merge at its index, with the quote's junction rows replaced when `coreValueIds` is given |
| RelationalStore.Store.RelinkQuote | src/lib/database-relational.ts:449-463 | the table becomes `RelinkedQuote` of the old one |
| RelationalStore.RelinkQuoteExact | src/lib/database-relational.ts:449-463 | the quote's rows become one per listed id in order; other quotes' rows are untouched |
| RelationalStore.Store.ArchiveQuote | src/lib/database-relational.ts:469-485 | returns whether the id exists; only the first quote with the id is deactivated |
| RelationalStore.Store.DeleteQuote | src/lib/database-relational.ts:487-506 | false and no change for an unknown id; otherwise `DeletedQuote` |
| RelationalStore.DeleteQuoteCascades | src/lib/database-relational.ts:487-506 | the quote, its junction rows and the posts using it go; the supporting-value links stay |
| RelationalStore.Store.GetQuotePosts | src/lib/database-relational.ts:509-538 | the loop returns `EnrichedPosts` of the posts |
| RelationalStore.EnrichedPost | src/lib/database-relational.ts:513-534 | a post is enriched exactly when its core value, supporting value and quote exist, and then with the first records with those ids; the attached author is the first author with the quote's id, active or not, and exists exactly when the id is non-empty and some author has it |
| RelationalStore.EnrichedPosts | src/lib/database-relational.ts:512-537 | every entry comes from a post whose references exist, with its enrichment, and every such post gives an entry |
| RelationalStore.Store.CreateQuotePost | src/lib/database-relational.ts:540-553 | one post with the fresh id is appended |
| RelationalStore.RandomPost | src/lib/database-relational.ts:555-621 | none without active core values; otherwise, with cv the active core value the first pick selects, none exactly when cv has no linked active supporting value or quote, and else exactly cv, the supporting value and the quote (with its active author) that the other two picks select from those lists; a result is active and linked to cv |
| RelationalStore.Store.SeedDatabase | src/lib/database-relational.ts:637-705 | a store holding any core value, supporting value or quote is unchanged; otherwise it becomes the CSV import, or the sample data when the file cannot be read |
| RelationalStore.Store.SeedFromNotionCSV | src/lib/database-relational.ts:623-635 | the tables become the import of the CSV text |
| RelationalStore.Store.SeedSampleData | src/lib/database-relational.ts:647-703 | the tables become the sample data, with ids in the order the source asks for them |
| LegacyStore.Store.CreateCoreValue | src/lib/database.ts:69-82 | one record appended; nothing else changes (the same for `CreateSupportingValue`, 120-133, `CreateQuote`, 171-184, `CreateQuotePost`, 238-251) |
| LegacyStore.Store.CreateSupportingValue | src/lib/database.ts:120-133 | one record appended; nothing else changes |
| LegacyStore.Store.CreateQuote | src/lib/database.ts:171-184 | one quote appended; nothing else changes |
| LegacyStore.Store.CreateQuotePost | src/lib/database.ts:238-251 | one post appended; nothing else changes |
| LegacyStore.NewLegacyQuote | src/lib/database.ts:171-184 | a new quote carries every input field (text, author, source, category, tags, isActive), the fresh id, and createdAt == updatedAt == now |
| LegacyStore.Store.constructor | src/lib/database.ts:24 | the store starts as the given tables |
| LegacyStore.Store.Load | src/lib/database.ts:34-55 | loading replaces the whole state by the given tables |
| LegacyStore.Store.UpdateCoreValue | src/lib/database.ts:84-99 | null and no change for an unknown id; otherwise the merge at the record's index |
| LegacyStore.Store.UpdateSupportingValue | src/lib/database.ts:135-150 | the same for supporting values |
| LegacyStore.Store.UpdateQuote | src/lib/database.ts:186-201 | the same for quotes |
| LegacyStore.MergeLegacyQuote | src/lib/database.ts:192-196 | id and createdAt kept; text, author, source, category, tags and isActive each replaced when supplied and kept otherwise |
| LegacyStore.Store.UpdateQuotePost | src/lib/database.ts:253-268 | null and no change for an unknown id; otherwise the merged post at its index |
| LegacyStore.MergePost | src/lib/database.ts:259-263 | id and createdAt kept; the three references, isPublished, publishedAt, scheduledFor, metaPostId and imageUrl each replaced when supplied and kept otherwise |
| LegacyStore.Store.DeleteCoreValue | src/lib/database.ts:101-112 | returns whether the id exists; the table becomes the soft delete `ArchivedValues` |
| LegacyStore.Store.DeleteSupportingValue | src/lib/database.ts:152-163 | the same for supporting values |
| LegacyStore.SoftDeleteValueOnlyTarget | src/lib/database.ts:101-112 | a soft delete keeps the length and every other record; the target only loses its active flag and gets the new date |
| LegacyStore.Store.DeleteQuote | src/lib/database.ts:203-214 | returns whether the id exists; the table becomes `SoftDeletedQuotes` |
| LegacyStore.SoftDeleteQuoteOnlyTarget | src/lib/database.ts:203-214 | the same facts for quotes |
| LegacyStore.ActiveLegacyQuotes | src/lib/database.ts:166-169 | exactly the active quotes |
| LegacyStore.SoftDeleteHidesQuote | src/lib/database.ts:166-214 | a soft-deleted quote drops out of the active list, and no quote appears there that was not listed before |
| LegacyStore.Store.DeleteQuotePost | src/lib/database.ts:270-279 | returns whether the id exists; the posts become `RemovedPost` |
| LegacyStore.RemovedPostExact | src/lib/database.ts:270-279 | exactly the first post with the id is removed and the order of the others is kept; an absent id changes nothing |
| LegacyStore.Store.GetQuotePosts | src/lib/database.ts:217-236 | the result is `StrictPosts` of the posts |
| LegacyStore.LegacyEnriched | src/lib/database.ts:220-235 | a post resolves exactly when its three references exist, and then with the first records with those ids |
| LegacyStore.StrictPostsExact | src/lib/database.ts:220-235 | the read succeeds exactly when every post resolves, then with one entry per post in order; otherwise it fails on the first dangling post |
| LegacyStore.Store.GetRandomQuotePost | src/lib/database.ts:282-290 | the result is `RandomUnpublished` of the store |
| LegacyStore.RandomUnpublishedSpec | src/lib/database.ts:282-290 | it fails exactly when the read fails; it is null exactly when every post is published; a result is an unpublished post of the store, enriched |
| LegacyStore.RandomUnpublishedReaches | src/lib/database.ts:284-289 | when the read succeeds, every unpublished post is the result for some pick |
| LegacyStore.Store.SeedDatabase | src/lib/database.ts:292-354 | a store holding any core value, supporting value or quote is unchanged (296-298); otherwise the three tables get the sample records |
| LegacyStore.Store.SeedSampleData | src/lib/database.ts:300-353 | the three tables become the sample records and the posts are kept |
| RateLimit.ClientIp | src/lib/rate-limit.ts:17-31 | the trimmed first comma-separated piece of a non-empty `x-forwarded-for`; else a non-empty `x-real-ip`; else "localhost" |
| RateLimit.RateLimiter.constructor | src/lib/rate-limit.ts:9 | the limiter starts with an empty store |
| RateLimit.RateLimiter.Sweep | src/lib/rate-limit.ts:41-46 | the store becomes `Swept` of the old one |
| RateLimit.SweptExact | src/lib/rate-limit.ts:41-46 | the sweep keeps exactly the entries with `resetTime >= now`, unchanged, and keeps counts valid |
| RateLimit.RateLimiter.CheckRateLimit | src/lib/rate-limit.ts:33-83 | the new store and the answer are `Check` of the old store |
| RateLimit.CheckFirstRequest | src/lib/rate-limit.ts:50-63 | a client without a live entry is allowed with remaining 9, and its entry becomes count 1 with reset `now + 15 min` |
| RateLimit.CheckRefused | src/lib/rate-limit.ts:65-72 | a live entry at the limit is refused with remaining 0, its reset time and the message, and the store is only swept |
| RateLimit.CheckCounted | src/lib/rate-limit.ts:74-82 | otherwise the count goes up by exactly one in the same window and remaining is 10 minus the new count |
| RateLimit.CheckOthersSwept | src/lib/rate-limit.ts:33-83 | a check changes no other client's entry beyond the sweep |
| RateLimit.CheckKeepsValid | src/lib/rate-limit.ts:11-82 | counts stay in 1..10, remaining lies in 0..9, and a request is refused exactly when its live entry is at the limit |
| RateLimit.ReplayWithinWindow | src/lib/rate-limit.ts:50-82 | within one window a client with count c gets at most 10 - c more requests admitted and the window does not move |
| RateLimit.FirstWindowBound | src/lib/rate-limit.ts:50-82 | from a first request to the end of its window at most 10 requests are admitted |
| RateLimit.HeadersRoundTrip | src/lib/rate-limit.ts:85-90 | the limit and remaining headers are decimal numerals that read back as 10 and the remaining count |
| TextMarkup.CheckTextRequest | src/app/api/generate-text-image/route.ts:9-25 | INVALID_JSON exactly for an unparsable or falsy body; rendering exactly for a non-empty string `text`, which is rendered; otherwise MISSING_TEXT |
| TextMarkup.FontSize | src/app/api/generate-text-image/route.ts:28-35 | the size is a CSS pixel value |
| TextMarkup.FontSizeNonIncreasing | src/app/api/generate-text-image/route.ts:28-35 | a longer text never gets a larger size, and every size lies in 48..120 px |
| TextMarkup.FontSizeReadsBack | src/app/api/generate-text-image/route.ts:28-35 | the number in the CSS value is the pixel size of the threshold table |
| TextMarkup.MatchAtSpec | src/app/api/generate-text-image/route.ts:46 | a regex match at a position is a whole `**x**` or `*x*` with x non-empty and free of `*`; every such markup is found, and `**` wins |
| TextMarkup.NextMatchLeftmost | src/app/api/generate-text-image/route.ts:46-49 | `exec` finds the leftmost match after `lastIndex`, and none exists when it finds none |
| TextMarkup.ParseTextWithMarkup | src/app/api/generate-text-image/route.ts:40-87 | the loop returns `Segments` of the text |
| TextMarkup.ClassifyMatch | src/app/api/generate-text-image/route.ts:59-72 | on a match, the marker tests pick the match's own kind and inner text |
| TextMarkup.SegmentsRoundTrip | src/app/api/generate-text-image/route.ts:46-86 | writing the segments back with their markers gives the input: they cover it left to right with no gap or overlap |
| TextMarkup.SegmentsWellFormed | src/app/api/generate-text-image/route.ts:51-78 | plain segments are never empty, marked ones have a non-empty inside free of `*`, and no two plain segments are adjacent |
| TextMarkup.PlainText | src/app/api/generate-text-image/route.ts:78-82 | a text without `*` is one plain segment, or none when empty |
| TextMarkup.WholeTurquoise | src/app/api/generate-text-image/route.ts:60-65 | `**x**` alone is one turquoise segment with text x |
| TextMarkup.WholeItalic | src/app/api/generate-text-image/route.ts:66-72 | `*x*` alone is one italic segment with text x |
| Sanitization.EscapeChar | src/lib/sanitization.ts:43-51 | the seven special characters map to an entity `&...;`; every other character maps to itself |
| Sanitization.EscapeAppend | src/lib/sanitization.ts:53 | escaping distributes over concatenation |
| Sanitization.EscapeIdentity | src/lib/sanitization.ts:53 | the escape is the identity on text without the seven characters |
| Sanitization.EscapeSafe | src/lib/sanitization.ts:42-53 | the escaped text contains none of `< > " ' \` =` |
| Sanitization.EscapeEmptyIff | src/lib/sanitization.ts:42-53 | the escape is empty exactly when the text is |
| Sanitization.UnescapeEscape | src/lib/sanitization.ts:42-53 | decoding the escaped text gives the text back: the escape loses nothing |
| Sanitization.AfterPurifySafe | src/lib/sanitization.ts:36-39 | the clean-up leaves none of `` ` $ { } \ < > `` and no white space at either end |
| Sanitization.AfterPurifyKeepsClean | src/lib/sanitization.ts:36-39 | clean, trimmed text is left unchanged |
| Sanitization.AfterPurifyIdempotent | src/lib/sanitization.ts:36-39 | cleaning twice is cleaning once |
| Sanitization.SanitizeQuoteDataSpec | src/lib/sanitization.ts:11-25 | every text field is its input sanitized, hence clean and trimmed; the author is kept, sanitized, exactly when given non-empty; a given non-empty style is kept, otherwise the style is "style1" |
| QuoteTemplate.FontSizeSteps | src/lib/template.ts:16-23 | the sizes at the thresholds are 44/40 px and 84/76/68 px, as in src/config/design.ts:29-42 |
| QuoteTemplate.FontSizeNonIncreasing | src/lib/template.ts:16-23 | longer text never gets a larger font; core sizes lie in 40..44 and quote sizes in 68..84 |
| QuoteTemplate.CssReadsBack | src/lib/template.ts:16-23 | the number in the CSS value is the pixel size |
| QuoteTemplate.SafeFieldsOf | src/lib/template.ts:8-13 | every field is escaped and holds no markup characters; the author is empty exactly when absent or empty |
| QuoteTemplate.AuthorLine | src/lib/template.ts:180 | the author line is empty exactly when the escaped author is |
| QuoteTemplate.TemplateIsPage | src/lib/template.ts:25-199 | the trimmed template is the page from its doctype to its closing html tag |
| QuoteTemplate.FieldsReadBack | src/lib/template.ts:174-180 | reading each slot back and unescaping it gives the field exactly; the author line exists exactly when there is an author |
| QuoteTemplate.TrimPadded | src/lib/template.ts:199 | the trim removes exactly the padding around the page |
| QualityAnalyzer.Keywords | src/lib/data-quality-analyzer.ts:159-169 | the keywords of a known core value, and none for any other name |
| QualityAnalyzer.KnownCoreValues | src/lib/data-quality-analyzer.ts:159-169 | a name has keywords exactly when it is one of the five known core values |
| QualityAnalyzer.AssessQuoteQuality | src/lib/data-quality-analyzer.ts:92-157 | the method's rating and issues are `Assess` of its inputs |
| QualityAnalyzer.Flag | src/lib/data-quality-analyzer.ts:100-154 | one rule pushes its issue when it fires, and the rating keeps telling whether any issue was pushed |
| QualityAnalyzer.Assess | src/lib/data-quality-analyzer.ts:96-156 | good exactly when there is no issue, never archive |
| QualityAnalyzer.IssuesSpec | src/lib/data-quality-analyzer.ts:100-154 | each issue is reported exactly when its rule fires (length > 200, < 20, terms, sentence end, system names, blank author, unrelated); too long and too short exclude each other |
| QualityAnalyzer.IssuesOfSpec | src/lib/data-quality-analyzer.ts:100-154 | an issue is in the list exactly when its rule's condition holds |
| QualityAnalyzer.WordingSpec | src/lib/data-quality-analyzer.ts:99-125 | the wording rules report exactly the length, religious and academic issues that hold, and nothing else |
| QualityAnalyzer.AttributionSpec | src/lib/data-quality-analyzer.ts:127-154 | the attribution rules keep the earlier issues and add exactly the sentence, system, author and unrelated issues that hold |
| QualityAnalyzer.BlankAuthorReported | src/lib/data-quality-analyzer.ts:140-143 | a blank author is always reported and the quote needs review |
| QualityAnalyzer.UnknownCoreValueUnrelated | src/lib/data-quality-analyzer.ts:146-168 | for a core value without keywords, a text is unrelated exactly when longer than 50 |
| QualityAnalyzer.QuoteReportsTexts | src/lib/data-quality-analyzer.ts:49-67 | the reports cover exactly the linked quotes, in table order |
| QualityAnalyzer.SupportingNames | src/lib/data-quality-analyzer.ts:41-47 | the names are exactly those of the linked supporting values, in table order: the k-th name is that of the k-th listed record |
| QualityAnalyzer.LinkedTexts | src/lib/data-quality-analyzer.ts:49-54 | the texts are exactly those of the quotes some junction row links, in table order: the k-th text is that of the k-th listed quote |
| QualityAnalyzer.ReportFor | src/lib/data-quality-analyzer.ts:40-73 | the report on a core value carries its name, and every quote in it is assessed |
| QualityAnalyzer.ReportForSpec | src/lib/data-quality-analyzer.ts:40-73 | the supporting values are the names of those linked to the core value; there is one quote report per linked quote, in table order, with that quote's text, its author's name, and exactly the eight rules' issues on the text, author and core value |
| QualityAnalyzer.QuoteReportsExact | src/lib/data-quality-analyzer.ts:53-67 | the reports are the per-quote reports on the linked quotes, in table order |
| QualityAnalyzer.QuoteReportOf | src/lib/data-quality-analyzer.ts:55-66 | a report carries the quote's text and its author's name, its issues are the eight rules on those and the core value, and its rating matches them |
| QualityAnalyzer.AuthorName | src/lib/data-quality-analyzer.ts:56-57 | empty when the quote has no author id, an empty one, or one no author has; otherwise the name of the first author with the id |
| QualityAnalyzer.GroupKeysSpec | src/lib/data-quality-analyzer.ts:38-76 | the map's keys are distinct and exactly the core value names that occur |
| QualityAnalyzer.GroupMapLast | src/lib/data-quality-analyzer.ts:69-73 | each name maps to the report on the last core value with that name |
| QualityAnalyzer.GroupMapDomain | src/lib/data-quality-analyzer.ts:38-74 | the map has an entry exactly for each name that occurs |
| QualityAnalyzer.GroupMapEntries | src/lib/data-quality-analyzer.ts:69-73 | each entry reports on a core value of its own name, with every quote assessed |
| QualityAnalyzer.ValuesInOrder | src/lib/data-quality-analyzer.ts:76 | `Array.from(map.values())` lists one report per key, in insertion order |
| QualityAnalyzer.GroupsSpec | src/lib/data-quality-analyzer.ts:37-76 | one report per name in first-occurrence order, all quotes assessed |
| QualityAnalyzer.BuildRecommendations | src/lib/data-quality-analyzer.ts:78-87 | the loops return the reference recommendations |
| QualityAnalyzer.EntriesCount | src/lib/data-quality-analyzer.ts:79-87 | each quote with the rating contributes exactly one line, and no other quote contributes any |
| QualityAnalyzer.NoArchiveEntries | src/lib/data-quality-analyzer.ts:83-87 | no assessed quote is ever rated archive, so the archive list stays empty |
| QualityAnalyzer.ReportShape | src/lib/data-quality-analyzer.ts:28-87 | the archive and duplicates lists stay empty; the review list has one line per quote that needs review |
| QualityAnalyzer.AnalyzeDataQuality | src/lib/data-quality-analyzer.ts:26-90 | the method's report is `ReportOf` of the parsed data |
| Validation.ValidateSpec | src/lib/validation.ts:4-33 | a body validates exactly when it meets every limit; the result holds the trimmed strings, the author only when submitted, and style "style1" |
| Validation.ChecksSpec | src/lib/validation.ts:5-26 | each field's rule passes exactly when its length is within 1..50, 1..60, 10..200 or at most 30 (or the author is absent), and the style is absent or "style1" |
| Validation.OnlyDefaultStyle | src/lib/validation.ts:22-26 | any style but "style1" is rejected with "Invalid style selected" |
| Validation.BlankValuesAccepted | src/lib/validation.ts:5-16 | the limits apply before the trim: blank values meeting the minimum validate to "" |
| Validation.NotObjectErrors | src/lib/validation.ts:31-45 | a non-object body gives one entry, under "undefined" |
| Validation.GetFieldErrors | src/lib/validation.ts:35-45 | the loop returns `FieldErrors` of the issues |
| Validation.FieldErrorsKeys | src/lib/validation.ts:39-41 | the keys are exactly the fields the issues' first path elements name |
| Validation.FieldErrorsFirst | src/lib/validation.ts:38-43 | the first non-empty message on a field is the one kept |
| Validation.FirstIssueWins | src/lib/validation.ts:38-43 | with non-empty messages, each field holds the message of its first issue |
| Validation.FieldErrorsBlank | src/lib/validation.ts:40 | a field whose issues all have empty messages ends with the empty message |
| Validation.SubmissionErrors | src/lib/validation.ts:4-45 | the field errors of an object have one entry per failing field, with that field's message, and no other entry |
| Validation.ExpectedErrorsSpec | src/lib/validation.ts:4-27 | a field has an entry exactly when its rule fails, and the entry is that rule's message |
| StylePresets.PresetById | src/config/style-presets.ts:221-223 | none exactly when no preset has the id; otherwise the first preset with it |
| StylePresets.Active | src/config/style-presets.ts:225-227 | exactly the presets that are not archived, as a subsequence of the list |
| StylePresets.Archived | src/config/style-presets.ts:229-230 | exactly the archived presets, as a subsequence of the list |
| StylePresets.ActiveArchivedPartition | src/config/style-presets.ts:225-230 | the two lists are disjoint and their lengths add up to the list's |
| StylePresets.ShippedPresets | src/config/style-presets.ts:74-230 | on the shipped list, "daily-anchor-1" is the archived preset and "daily-anchor-2" the only active one |

## Left out

- Loading and saving the JSON file, `ensureDataDirectory`, date revival and the `cachedDb` cache (src/lib/database-relational.ts:29-86, src/lib/database.ts:26-61): file I/O. Each store is the in-memory state of one object, and `Load` stands for replacing it.
- Reading the CSV file in `seedFromNotionCSV`, `seedDatabase` and `analyzeDataQuality`: file I/O. The file's text, or its absence, is a parameter. A CSV that parses but then fails in `saveDatabase` is not modelled.
- `generateCleanedData` (src/lib/data-quality-analyzer.ts:171-198): console output only.
- `nanoid()`, `new Date()`, `Date.now()` and `Math.random()`: nondeterministic. They are parameters, and `toISOString` is not modelled.
- DOMPurify: a library. It is the parameter `purify` of `SanitizeText`.
- The `ImageResponse` rendering, the 500 path and the unused `style` field of the text-image endpoint: rendering and error formatting.
- Numbers in JSON bodies are integers in `TextMarkup.Json`, because floating point plays no part in the checks.
- A patch key that is present but `undefined` is modelled as absent.
- The CSS and markup around the template's slots are abbreviated to the parts that depend on the data. `QuoteTemplate.TemplateIsPage` states the page shape for that abbreviated page.
- `toLowerCase` is modelled on ASCII letters only. Lengths count characters, not UTF-16 code units.
- `cleanValue`'s two smart-quote replacements read as replacing ASCII quotes by themselves, so they are the identity and are not modelled. No idempotence is claimed for `cleanValue`.
- The nested `styles` record of each preset: no lookup reads it.
- Zod internals: the received-type text of a type error is a parameter.
- Keys that name `Object.prototype` members, such as "constructor", are truthy lookups in plain JavaScript objects. This affects `getFieldErrors`, `getCoreValueKeywords` and `getValueDescription`, whose `descriptions[value] ||` would return the inherited member. The model treats such keys as absent. So `DataParser.ValueDescriptionShape` gives the generic sentence for them, and `Validation.FieldErrorsKeys` and `QualityAnalyzer.Keywords` treat them as unknown.
- Validation.BoundedCheck: yields at most one issue per field, the first failing limit. This is exact because every minimum is below its maximum.
- Aliasing between returned records and the stored ones: the model works on values, so a caller mutating a returned object is not modelled.
- Supabase, Postgres, the migration scripts, the browser pool, the API route handlers and all UI: outside the modelled core.
