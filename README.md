# yap-genius core, modelled in Dafny

This project models the core of yap-genius, a chat application with retrieval-augmented answers.
It covers:

- **The vector store `Vec0SDK`** (`app/lib/vec0/index.ts`).
  - It is a class over one sqlite-vec connection.
  - Its state is a catalogue of tables, each table's rows in rowid order, an open flag, and a metrics log capped at 1000 entries.
  - Its operations are `createTable`, `upsert`, `search`, `batchUpsert`, `getMetrics`, `clearMetrics`, `close` and `recordMetric`.
  - The SQL text and the bound parameters are pure functions. The project proves that placeholders and values always agree.
  - The storage engine is an `Engine` value. It holds the decisions the SDK cannot see: whether DDL, a write or a query is accepted, and the distance function.
  - The rejections the SQL itself forces are modelled explicitly: a closed connection, a missing table, a partition on an unpartitioned table, and a vector of the wrong width.
- **The retrieval helpers of `app/models/rag.server.ts`.**
  - Query rewriting with its fallback, and query-variation parsing.
  - `searchSimilar` and `searchWithRAGFusion`. The fusion merge is imperative: two nested loops over `scores` and `contents` maps, then a stable sort by descending score and `slice(0, limit)`. It is proved equal to a Reciprocal Rank Fusion specification.
  - `answerWithContext`, `storeEmbedding` and `cleanup`.
  - Replies of the language model and of the embedding service are parameters.
- **`getGroupedReactions`.** The reduce into a `Map` keyed by emoji (`app/models/reaction.server.ts`).
- **The route validators:**
  - the new-channel `action` checks (`app/routes/app.c.new.tsx`);
  - the sign-up `action` check chain and the password-strength hint (`app/routes/join.tsx`).
- **The seed TSV parser** (`prisma/seed/messages.ts`).
- **The membership group-by loop** of `scripts/query.ts`.
- **The display helpers:**
  - the file preview's icon and size unit;
  - the three initials helpers and the display-name fallbacks;
  - the system-message text.

Module layout: one module per source file.

- `Vec0Types`, `Vec0Sql`, `Vec0Metrics`, `Vec0Search` and `Vec0` cover `index.ts` and `types.ts`.
- `RagFusion` and `Rag` cover `rag.server.ts`.
- `Reactions`, `ChannelNew`, `JoinRoute`, `SeedMessages`, `QueryScript`, `FilePreview`, `Settings`, `UserProfilePopover`, `Avatar` and `SystemMessage` each cover one file.
- Shared modules:
  - `Wrappers` (Option, Result);
  - `Strings`: JavaScript `split`, `join`, `trim`, ASCII `toUpperCase`;
  - `Seqs`: first-seen order, `slice(0, n)`;
  - `Sorting`: a stable sort by a real key, standing in for `Array.prototype.sort`.

Imperative source code is modelled imperatively:

- The store is a class whose methods carry `modifies` clauses.
- These are methods with loops and invariants:
  - the `batchUpsert` loop;
  - the fusion merge;
  - the reactions reduce;
  - the `channelMap` loop;
  - the `formatFileSize` loop;
  - the fan-out of the fusion search;
  - the field-by-field `errors` record of the new-channel action.

Each method is proved against a specification function. The properties the source promises are then proved about that function.

Where the code and the rest of the repository disagree, the model follows `index.ts`:

- Auxiliary columns are declared but never implemented:
  - `types.ts` declares `auxiliaryColumns` on the schema and `auxiliaryData` on upsert options and search results;
  - the tests in `index.test.ts` (lines 227-372) and `rag.server.ts` (lines 44-46 and 82) expect that data to round-trip;
  - `index.ts` never builds those columns (lines 31-35), never binds that data (lines 69-71) and never selects it (line 127).
- As a consequence, `searchSimilar` never has content, and `answerWithContext` always sends an empty context block (`Rag.ContextAlwaysEmpty`).
- `index.ts` does not check the vector width. Only sqlite-vec's refusal of the statement does; it surfaces as the thrown error, modelled as `DimensionMismatch`.
- Table names are spliced into the SQL unquoted, and SQLite matches unquoted identifiers without regard to the case of ASCII letters. The store's catalogue is therefore keyed by `Vec0Types.TableKey`, the ASCII-lower-cased name. The tables of an opened database are given under their keys too, and every operation keeps that invariant.

## Model

| member | source | states |
|---|---|---|
| Vec0.Vec0SDK.constructor | app/lib/vec0/index.ts:17-24 | opening a database gives an open connection over its existing tables, each catalogued under its lower-cased name, and an empty metrics log |
| Vec0.Vec0SDK.RecordMetric | app/lib/vec0/index.ts:250-260 | the log becomes the old log plus the entry, trimmed to the newest 1000, and stays within the bound |
| Vec0Metrics.Trimmed | app/lib/vec0/index.ts:257-259 | the trimmed log has min(length, 1000) entries and is a suffix of the log |
| Vec0Metrics.TrimmedTrimmed | app/lib/vec0/index.ts:250-260 | trimming after every append equals trimming once: the log is always the newest entries, oldest evicted first |
| Vec0Metrics.TrimmedKeepsNewest | app/lib/vec0/index.ts:257-259 | a log within the bound is untouched, and the newest entry is always kept last |
| Vec0Types.MetricFor | app/lib/vec0/index.ts:46-59 | an entry's success flag is set exactly when no error was thrown, and the entry carries that error, the table and the operation |
| Vec0.Vec0SDK.CreateTable | app/lib/vec0/index.ts:27-62 | fails exactly as `CreateFailure` says; a name new up to ASCII case gets an empty table of the given width and partitioning; an existing name or a failure leaves tables and rows unchanged (`IF NOT EXISTS`); one `createTable` entry is logged either way |
| Vec0.Vec0SDK.AddTable | app/lib/vec0/index.ts:45 | a successful CREATE adds exactly one empty table and keeps the store well formed |
| Vec0Sql.ColumnListShape | app/lib/vec0/index.ts:31-35 | the column list starts with `id`, ends with `embedding FLOAT[d]`, holds `partition` exactly when `partitionBy` is set, and never depends on the auxiliary columns |
| Vec0.Vec0SDK.Upsert | app/lib/vec0/index.ts:65-108 | fails exactly as `WriteFailure` says for the row with the truthy partition; on success the table's rows become the old rows with that id replaced; one `upsert` entry is logged either way; tables unchanged |
| Vec0.Vec0SDK.WriteRow | app/lib/vec0/index.ts:90 | an accepted INSERT OR REPLACE changes only that table, and the store stays well formed |
| Vec0.CreateFailure | app/lib/vec0/index.ts:27-62 | a closed connection fails; an existing name (ignoring ASCII case) never fails (`IF NOT EXISTS`); a new one fails exactly when the engine refuses the DDL, and only with `SchemaRejected` |
| Vec0.WriteFailure | app/lib/vec0/index.ts:65-108 | a closed connection fails first, then a missing table with its name; a write does not throw exactly when the table exists (ignoring ASCII case), the vector has its width, a partition comes only on a partitioned table and the engine accepts it |
| Vec0.QueryFailure | app/lib/vec0/index.ts:111-176 | a closed connection fails first, then a missing table with its name; a search does not throw exactly when the table exists (ignoring ASCII case), a filter comes only on a partitioned table, the vector has its width and the engine accepts it |
| Vec0.NameCaseIgnored | app/lib/vec0/index.ts:38-129 | a name and its upper-cased spelling name the same table: `createTable`, writes and searches behave alike for both |
| Vec0Types.TableKey | app/lib/vec0/index.ts:38-39 | the catalogue key has the name's length and no upper-case ASCII letter |
| Vec0Types.TableKeyCanonical | app/lib/vec0/index.ts:38-39 | a catalogue key is its own key, so a table added under its key stays reachable |
| Vec0.StoredTableFound | app/lib/vec0/index.ts:65-156 | on an open well-formed store, a stored table is never reported missing, under its own name or its upper-cased spelling |
| Vec0Sql.Truthy | app/lib/vec0/index.ts:76-85 | the partition is written exactly when it is present and non-empty |
| Vec0Sql.UpsertArity | app/lib/vec0/index.ts:78-85 | the INSERT names 2 columns and binds 2 values without a partition, 3 with one; placeholders, columns and values agree, and the third value is the partition |
| Vec0Sql.UpsertStatementArity | app/lib/vec0/index.ts:76-90 | the whole INSERT with the table name spliced in holds one `?` per bound value, besides any `?` in the name itself |
| Vec0.ReplacedSpec | app/lib/vec0/index.ts:78-82 | after an upsert exactly one row has the id and it is the new row; every other id keeps its row and its count |
| Vec0.WithoutDistinct | app/lib/vec0/index.ts:79 | deleting the replaced row keeps ids distinct |
| Vec0.ReplacedWellFormed | app/lib/vec0/index.ts:78-90 | replacing a fitting row keeps a table's ids distinct and its rows fitting its schema |
| Vec0.Vec0SDK.Search | app/lib/vec0/index.ts:111-176 | fails exactly as `QueryFailure` says; otherwise the result is a nearest-neighbour answer (`IsKnnAnswer`) over the table's rows under the effective filter and limit; one `search` entry is logged; rows and tables unchanged |
| Vec0Sql.EffectiveLimit | app/lib/vec0/index.ts:119 | an absent or zero limit means 10; any other limit is used as given |
| Vec0Sql.EffectiveFilter | app/lib/vec0/index.ts:125 | an absent or empty partition means no filter; a value or any list (even empty) filters |
| Vec0Sql.SearchArity | app/lib/vec0/index.ts:125-154 | the query has one placeholder per bound value: 2 unfiltered, 3 for one partition, 2 + n for a list of n; the vector comes first, the limit last, the partitions between |
| Vec0Sql.SearchStatementArity | app/lib/vec0/index.ts:125-156 | the whole SELECT with the table name spliced in holds one `?` per bound value, besides any `?` in the name itself |
| Vec0Sql.PlaceholdersCount | app/lib/vec0/index.ts:139 | `map(() => '?').join(',')` over n values holds n placeholders |
| Vec0Search.Candidates | app/lib/vec0/index.ts:125-154 | the candidates are exactly the table's rows that pass the partition condition: only rows with that partition, or with a partition in the list |
| Vec0Search.CandidatesDistinct | app/lib/vec0/index.ts:125-156 | filtering keeps ids distinct |
| Vec0Search.RowCount | app/lib/vec0/index.ts:131 | `LIMIT n` returns min(n, available) rows for n ≥ 0 and never more than are available |
| Vec0Search.Knn | app/lib/vec0/index.ts:156 | the answer takes limit-many rows of the ranked candidates and pairs each with its distance |
| Vec0Search.KnnOrdered | app/lib/vec0/index.ts:130 | results come in non-decreasing distance with distinct ids |
| Vec0Search.KnnFromRows | app/lib/vec0/index.ts:127-129 | every result is a matching row of the table with its distance |
| Vec0Search.KnnNearest | app/lib/vec0/index.ts:130-131 | no matching row left out is nearer than a returned one |
| Vec0Search.KnnIsAnswer | app/lib/vec0/index.ts:126-156 | the ranked prefix satisfies the whole nearest-neighbour specification |
| Vec0Search.ExactMatchFirst | app/lib/vec0/index.ts:130 | with non-negative distances and an exact match present, any correct answer puts a distance-zero row first |
| Vec0.Vec0SDK.UpsertEach | app/lib/vec0/index.ts:196-211 | the transaction body leaves the counters `BatchOutcome`, the table `BatchRows` and one `upsert` entry per item in the log |
| Vec0.Vec0SDK.UpsertStep | app/lib/vec0/index.ts:197-209 | one turn upserts the item, counts a success or records the failure with its id, and keeps the loop's progress invariant |
| Vec0.UpsertEntries | app/lib/vec0/index.ts:199 | the loop logs exactly one entry per item |
| Vec0.BatchAccounting | app/lib/vec0/index.ts:188-210 | `successful + failed` is the item count, `errors.length == failed`, and the errors are the failing items' ids and errors in item order |
| Vec0.BatchLookup | app/lib/vec0/index.ts:197-201 | after a batch an id holds the row of its last accepted item, or its old row when no item for it was accepted |
| Vec0.BatchWellFormed | app/lib/vec0/index.ts:196-211 | the rows after a batch stay well formed |
| Vec0.Vec0SDK.BatchUpsert | app/lib/vec0/index.ts:179-233 | on a closed connection it fails and logs one failed entry; otherwise it returns the counters, keeps the accepted upserts in order unless the commit fails, and logs the per-item entries then one `batchUpsert` entry |
| Vec0.Vec0SDK.GetMetrics | app/lib/vec0/index.ts:236-238 | returns the log's current contents |
| Vec0.Vec0SDK.ClearMetrics | app/lib/vec0/index.ts:241-243 | empties the log and changes nothing else |
| Vec0.Vec0SDK.Close | app/lib/vec0/index.ts:246-248 | only the open flag changes, to closed; `CreateFailure`, `WriteFailure` and `QueryFailure` then give a closed-connection error for every later statement |
| RagFusion.Rrf | app/models/rag.server.ts:106-107 | the weight `1/(k + rank)` is positive |
| RagFusion.KeptIds | app/models/rag.server.ts:104 | hits without an id are skipped |
| RagFusion.Tally | app/models/rag.server.ts:117 | the score entries are the recorded ids in insertion order, each with its accumulated score |
| RagFusion.Fused | app/models/rag.server.ts:117-124 | the fused list has min(limit, number of distinct ids) entries for limit ≥ 0 |
| RagFusion.ScoreIsRrf | app/models/rag.server.ts:102-111 | the accumulated score of an id is the sum of `1/(k + r)` over every list position r holding it, skipped positions still counting towards r |
| RagFusion.ScoreOfConcat | app/models/rag.server.ts:102-111 | the score over two runs of hits is the sum of their scores |
| RagFusion.PositionsScore | app/models/rag.server.ts:103-111 | the positions of one list score as that list's RRF contribution |
| RagFusion.TallyDistinct | app/models/rag.server.ts:99-117 | the map's entries have distinct ids |
| RagFusion.FusedFromSorted | app/models/rag.server.ts:117-124 | the fused hits are a prefix of the sorted entries, taken in order |
| RagFusion.FusedEntries | app/models/rag.server.ts:99-124 | fused ids are distinct and non-empty and each was met; each carries its RRF score and the content of its last hit |
| RagFusion.FusedOrdered | app/models/rag.server.ts:117-118 | the fused list is ordered by non-increasing score |
| RagFusion.FusedKeepsTop | app/models/rag.server.ts:116-119 | the cut keeps the top `limit`: an id met but left out scores no higher than any fused one |
| RagFusion.FusedTiesFirstSeen | app/models/rag.server.ts:99-118 | equal scores keep the order in which their ids were first met (stable sort over insertion order) |
| RagFusion.AddScore | app/models/rag.server.ts:108-111 | `scores.set(id, (scores.get(id) \|\| 0) + w)` adds w to that id only |
| RagFusion.ScoreMapMeaning | app/models/rag.server.ts:99-111 | the `scores` map holds exactly the recorded ids, each with its accumulated score |
| RagFusion.ContentMapMeaning | app/models/rag.server.ts:100-112 | the `contents` map holds exactly the recorded ids, each with the content of its last hit or `''` |
| RagFusion.OrderStep | app/models/rag.server.ts:108 | a new non-empty id is appended to the map's key order; otherwise the order is unchanged |
| RagFusion.MergeStep | app/models/rag.server.ts:103-113 | one hit leaves the maps untouched when its id is empty, else appends a new key, adds its weight and overwrites its content |
| RagFusion.MergeList | app/models/rag.server.ts:103-113 | the inner `forEach` leaves the maps tracking the list's positions appended to what was merged before |
| RagFusion.MapsMeaning | app/models/rag.server.ts:99-113 | every id in the key order has its score and content in the maps |
| RagFusion.ScoredEntriesTally | app/models/rag.server.ts:117 | `Array.from(scores.entries())` of the merged map is the tally |
| RagFusion.ResultsFused | app/models/rag.server.ts:119-124 | looking the ranked ids up in `contents` gives the fused ranking |
| RagFusion.RankResults | app/models/rag.server.ts:117-124 | the sort, cut and mapping over the merged maps give `Fused` |
| RagFusion.FuseResults | app/models/rag.server.ts:98-126 | the whole merge loop and ranking compute the Reciprocal Rank Fusion specification `Fused` |
| RagFusion.TwoListsExample | app/models/rag.server.ts:99-124 | with k = 60, lists `[a, b]` and `[b, a]` give both ids `1/60 + 1/61` and the tie keeps `a` ahead of `b` |
| Rag.ToSimilar | app/models/rag.server.ts:80-84 | each hit keeps its result's id and distance, in order, and never has content |
| Rag.GenerateSearchQuery | app/models/rag.server.ts:51-71 | without a non-empty history the question itself; otherwise the trimmed reply when it is not blank, else the question |
| Rag.GenerateQueryVariations | app/models/rag.server.ts:130-141 | the query comes first; a missing reply gives only the query |
| Rag.VariationsCount | app/models/rag.server.ts:139-140 | a reply with n commas gives n + 2 variations including the query |
| Rag.VariationsPieces | app/models/rag.server.ts:139 | each later variation is the trimmed comma-separated piece and holds no comma |
| Rag.NonEmptyContents | app/models/rag.server.ts:159 | `filter(Boolean)` keeps only non-empty contents, each some item's content, and every present non-empty content is kept |
| Rag.NonEmptyContentsConcat | app/models/rag.server.ts:159 | the filter keeps item order |
| Rag.NonEmptyContentsOne | app/models/rag.server.ts:159 | a single item is kept exactly when its content is present and non-empty |
| Rag.ContextText | app/models/rag.server.ts:159 | the context block is empty exactly when no content is kept, and a single kept content is the block itself |
| Rag.QueryVectorIgnoresPadding | app/models/rag.server.ts:29-35 | the embedding is of the trimmed text, so surrounding whitespace never changes the query vector |
| Rag.ContextEmptyWithoutContent | app/models/rag.server.ts:159 | with no present non-empty content the context block is empty |
| Rag.ContextAlwaysEmpty | app/models/rag.server.ts:78-159 | because search never returns content, both strategies build an empty context |
| Rag.Initialize | app/models/rag.server.ts:19-26 | startup runs `createTable` for `messages_vec`: it fails exactly as `CreateFailure` says; a new name gets an empty 1536-wide unpartitioned table; a failure or an existing table leaves tables and rows unchanged; the store stays open and one `createTable` entry is logged |
| Rag.SimilarHitsAnswer | app/models/rag.server.ts:74-85 | the hits of a table with distinct ids are a mapped nearest-neighbour answer |
| Rag.SearchSimilar | app/models/rag.server.ts:74-85 | embeds the trimmed rewritten query, fails exactly as the store's search does, and otherwise returns the mapped nearest rows; one search entry is logged |
| Rag.SearchVariation | app/models/rag.server.ts:95 | the fusion search searches each variation as it is, with limit k; nothing but the log changes, and it gains that search's one entry |
| Rag.Queries | app/models/rag.server.ts:94-96 | one query vector per variation, in order, each the embedding of the trimmed variation |
| Rag.FirstFailureMeaning | app/models/rag.server.ts:94-96 | the fan-out fails exactly when some search would, with the error of the first such query |
| Rag.SearchEntries | app/lib/vec0/index.ts:158-174 | one `search` entry per query vector, in order, each recording whether that search throws |
| Rag.SearchEntriesSnoc | app/models/rag.server.ts:94-96 | one more search appends exactly its own entry |
| Rag.SearchStep | app/models/rag.server.ts:94-96 | one search of the fan-out extends the first failure or the hit lists, and appends its entry to the log |
| Rag.SearchEach | app/models/rag.server.ts:94-96 | every variation is searched with limit k; the outcome is the first failure, else one hit list per variation in order; rows unchanged; the log gains one `search` entry per variation, in variation order |
| Rag.SearchWithRagFusion | app/models/rag.server.ts:88-127 | fails exactly when a variation's search fails; otherwise returns RRF fusion of the per-variation hit lists with limit `limit`; the log gains one `search` entry per variation |
| Rag.AnswerWithContext | app/models/rag.server.ts:144-183 | `simple` fails exactly when its limit-10 search fails and `fusion` exactly when one of its k = 60 searches fails, with that error and an empty context; otherwise `fusion` fuses with limit 10; the context joins the non-empty contents with blank lines; the answer is the reply or `''`; the log gains exactly one `search` entry for `simple` and one per variation for `fusion` |
| Rag.StoreEmbedding | app/models/rag.server.ts:38-48 | empty content fails before anything changes; otherwise the trimmed content's embedding is upserted under the id without partition and the id is returned, or the store's error; the connection stays open and one `upsert` entry is logged |
| Rag.Cleanup | app/models/rag.server.ts:186-188 | closes the store |
| Reactions.GroupedReactions | app/models/reaction.server.ts:76-89 | the reduce over a map keyed by emoji, listed in insertion order, computes `Grouped` |
| Reactions.ReduceStep | app/models/reaction.server.ts:81-85 | one reaction appends its user to its emoji's group, creating the group when new, and keeps the reduce invariant |
| Reactions.GroupedShape | app/models/reaction.server.ts:80-88 | one group per distinct emoji, in order of first appearance; each emoji comes from a reaction; every reaction's emoji has a group; count equals the number of users and is positive |
| Reactions.CountsTotal | app/models/reaction.server.ts:81-84 | the counts add up to the number of reactions |
| Reactions.ReactionInGroup | app/models/reaction.server.ts:81-84 | each reaction's user is listed in the group of its emoji |
| Reactions.UsersSound | app/models/reaction.server.ts:81-82 | only users of reactions with that emoji are listed in its group |
| Reactions.UsersConcat | app/models/reaction.server.ts:65-82 | users keep reaction (creation) order |
| Reactions.GroupSnoc | app/models/reaction.server.ts:81-84 | one more reaction adds its user to its emoji's group only |
| ChannelNew.Validate | app/routes/app.c.new.tsx:28-44 | 400 exactly when the name is unacceptable or the description too long; each error field is set exactly when its rule fails, with its fixed text; otherwise the name, description and `private`/`public` type are handed on |
| ChannelNew.ReservedNamesRefused | app/routes/app.c.new.tsx:34-36 | `new`, `join` and `favorite` pass the pattern and length rules and are still refused |
| ChannelNew.EmptyDescriptionAccepted | app/routes/app.c.new.tsx:38-40 | a missing or empty description never errors |
| JoinRoute.JoinAction | app/routes/join.tsx:31-73 | `createUser` is reached exactly when the email is valid, the password is text of length at least 8, the confirmation matches and no user has the email; it gets those values; every other outcome is a 400 |
| JoinRoute.FirstFailing | app/routes/join.tsx:31-71 | reports a failing check of the list, and none exactly when all pass |
| JoinRoute.JoinFollowsChecks | app/routes/join.tsx:31-73 | the `if` chain is the checks run in order: it rejects with the error of the first failing check and creates the user only when all pass |
| JoinRoute.FirstFailingInOrder | app/routes/join.tsx:31-71 | the first failing check is found in the order email, presence, length, match, existing user |
| JoinRoute.ErrorFor | app/routes/join.tsx:31-71 | each check's error sets exactly one field |
| JoinRoute.OneFieldPerError | app/routes/join.tsx:31-71 | every rejection names exactly one of the three fields |
| JoinRoute.PasswordMessages | app/routes/join.tsx:38-50 | with a valid email, a missing, non-text or empty password is "required" and a length of 1 to 7 is "too short" |
| JoinRoute.PasswordStrength | app/routes/join.tsx:144 | weak exactly below 8 characters, strong exactly at 12 or more |
| JoinRoute.StrengthMonotone | app/routes/join.tsx:144 | a longer password never gets a weaker hint |
| JoinRoute.AcceptedNotWeak | app/routes/join.tsx:45-144 | every accepted password is at least moderate |
| SeedMessages.NonBlank | prisma/seed/messages.ts:20 | keeps only lines of the input that are not blank after trimming |
| SeedMessages.ParseLine | prisma/seed/messages.ts:22 | no field holds a tab |
| SeedMessages.ReadMessages | prisma/seed/messages.ts:17-23 | the rows are the parses of the non-blank lines after the first, one each and in order |
| SeedMessages.NonBlankConcat | prisma/seed/messages.ts:20 | the filter keeps line order |
| SeedMessages.NonBlankOne | prisma/seed/messages.ts:20 | a single line is kept exactly when it is not blank |
| SeedMessages.HeaderIgnored | prisma/seed/messages.ts:19 | the first line is dropped whatever it holds, even when blank |
| SeedMessages.HeaderOnly | prisma/seed/messages.ts:17-19 | a file of only a header has no rows |
| SeedMessages.FieldsClean | prisma/seed/messages.ts:18-22 | no field holds a newline or a tab |
| SeedMessages.RowsFromLines | prisma/seed/messages.ts:18-23 | every row is the parse of a non-blank line after the header |
| SeedMessages.ThreePieces | prisma/seed/messages.ts:22 | the fields are the first three tab-separated pieces; extra pieces are ignored |
| SeedMessages.OnePiece | prisma/seed/messages.ts:22 | a line without tabs leaves sender and content undefined |
| QueryScript.GroupChannels | scripts/query.ts:41-57 | the loop over the rows leaves `channelMap` whose entries, in iteration order, are `Report(rows)` |
| QueryScript.GroupStep | scripts/query.ts:44-56 | one row creates its channel from its name and type when new, appends its member when the email is truthy, and keeps the loop invariant |
| QueryScript.ReportShape | scripts/query.ts:44-62 | one entry per distinct channel id, in order of first appearance; every row's channel is listed, also one without members |
| QueryScript.NameFromFirstRow | scripts/query.ts:45-49 | a channel's name and type are those of the first row for it |
| QueryScript.MembersMeaning | scripts/query.ts:51-56 | a channel's members are exactly its rows with a truthy email |
| QueryScript.MembersConcat | scripts/query.ts:51-56 | members keep row order |
| QueryScript.MemberListed | scripts/query.ts:51-56 | every row's member is listed under its channel |
| FilePreview.GetFileIcon | app/components/ui/file-preview.tsx:14-25 | an `image/` prefix gives the photo icon; exactly `application/pdf` gives the description icon; exactly a `text/` prefix gives the text icon; everything else the generic icon |
| FilePreview.PrefixesDisjoint | app/components/ui/file-preview.tsx:15-23 | the three tests exclude one another |
| FilePreview.FormatFileSize | app/components/ui/file-preview.tsx:27-38 | the unit index stays below 4; the size is `bytes / 1024^i`, below 1024 unless the unit is GB, at least 1 once divided; below 1024 bytes the unit is `B` and the size undivided |
| FilePreview.UnitThresholds | app/components/ui/file-preview.tsx:32-35 | the unit is the largest one the byte count reaches, stopping at GB |
| Initials.Heads | app/routes/app.settings.tsx:38-40 | one character per non-empty part |
| Initials.HeadsFromParts | app/routes/app.settings.tsx:38-40 | every character is the first character of some non-empty part |
| Initials.HeadsConcat | app/routes/app.settings.tsx:38-40 | the heads keep part order |
| Settings.GetInitials | app/routes/app.settings.tsx:36-43 | min(2, number of non-empty parts) characters, none lower-case, and a prefix of the upper-cased first characters of the parts |
| Settings.TwoWords | app/routes/app.settings.tsx:36-43 | two words give their two upper-cased first letters |
| Settings.ExtraSpacesIgnored | app/routes/app.settings.tsx:39-40 | empty parts, from repeated or surrounding spaces, contribute nothing |
| Settings.DisplayName | app/routes/app.settings.tsx:52 | the display name when it is non-empty, otherwise the email |
| Settings.Normalised | app/routes/app.settings.tsx:26-29 | an absent or empty field is stored as `null`; any other value as given |
| Settings.UpdateFor | app/routes/app.settings.tsx:26-29 | both submitted fields are normalised |
| Settings.NormalisedStable | app/routes/app.settings.tsx:26-52 | normalising twice changes nothing, and a stored name is shown instead of the email |
| UserProfilePopover.GetInitials | app/components/layout/user-profile-popover.tsx:18-25 | min(2, number of non-empty parts) characters, none lower-case, and a prefix of the upper-cased first characters of the parts |
| UserProfilePopover.AgreesWithSettings | app/components/layout/user-profile-popover.tsx:18-25 | agrees with the settings page's `getInitials` on every input |
| UserProfilePopover.DisplayName | app/components/layout/user-profile-popover.tsx:44 | the display name when it is non-empty, otherwise the email |
| UserProfilePopover.UserInitials | app/components/layout/user-profile-popover.tsx:44-45 | at most two characters: the initials of a non-empty display name, else taken from the email |
| Avatar.AvatarInitials | app/components/shared/Avatar.tsx:12-14 | with a name, exactly the upper-cased first characters of its non-empty parts (no cut to two); without one, the upper-cased first character of the email; with neither, the `TypeError` of `undefined[0]`, as `None` |
| Avatar.TruncationIsTheOnlyDifference | app/components/shared/Avatar.tsx:12-13 | with a name, the settings page's initials are the avatar's cut to two |
| Avatar.ThreeWords | app/components/shared/Avatar.tsx:13 | three words give three letters where `getInitials` keeps two |
| SystemMessage.UserName | app/components/chat/SystemMessage.tsx:17 | the display name when it is non-empty, otherwise the email |
| SystemMessage.TypeOf | app/components/chat/SystemMessage.tsx:18-28 | each of the four `case` labels gives its own type and only that label does; exactly the strings outside the four labels give `Other`, carrying the string |
| SystemMessage.GetMessage | app/components/chat/SystemMessage.tsx:16-30 | empty exactly for an unknown type; otherwise it starts with the user name and a space |
| SystemMessage.MessageTail | app/components/chat/SystemMessage.tsx:19-26 | after the name comes the fixed text of the type; a rename adds the new value in double quotes |
| SystemMessage.RenameQuotesValue | app/components/chat/SystemMessage.tsx:23-24 | a rename ends with the new value between double quotes |
| Sorting.SortBySorted | app/models/rag.server.ts:118 | the sort orders by its key |
| Sorting.SortByStable | app/models/rag.server.ts:118 | the sort is stable: elements with equal keys keep their order |
| Sorting.SortBy | app/models/rag.server.ts:118 | the sort is a permutation |
| Strings.JoinSplit | prisma/seed/messages.ts:18 | joining the pieces of a split with the separator gives the string back |
| Strings.SplitCount | prisma/seed/messages.ts:18 | a split gives one more piece than there are separators |
| Strings.TrimProperties | prisma/seed/messages.ts:20 | a trimmed string is empty exactly when the line is blank, and has no whitespace at either end |
| Strings.TrimIdempotent | app/models/rag.server.ts:32 | trimming an already trimmed string changes nothing |
| Strings.ToLower | app/lib/vec0/index.ts:38-39 | the lower-cased name has the same length, maps each character by ASCII lower-casing, and holds no upper-case ASCII letter |
| Strings.ToLowerFolds | app/lib/vec0/index.ts:38-39 | lower-casing is idempotent and forgets an earlier upper-casing |
| Seqs.FirstSeenOrder | app/models/reaction.server.ts:88 | first-seen order lists values by the position where each first appears |

## Left out

- Float32 encoding of vectors (`Buffer.from(new Float32Array(...))`) and the distance computation: vectors are sequences of exact reals and the distance is the engine's function.
- sqlite-vec's own reasons to reject DDL, writes and queries beyond those listed above. They are the `Engine` predicates, since the engine is not part of this model.
- better-sqlite3 transactions: `commitSucceeds` says whether the commit succeeds. A failed commit restores the rows.
- `Vec0SDK.Close`: modelled only as "every later statement fails with a closed connection". Whether better-sqlite3 throws on a second `close` is not modelled.
- The `readonly` connection option: a read-only database is an engine that refuses writes.
- Auxiliary columns and `auxiliaryData`: `index.ts` does not implement them. The `auxiliaryColumns` schema field is accepted and ignored, as in the code.
- Numeric ids (`string | number`) are modelled as strings.
- Durations, timestamps and `console.log` are left out of metric entries and operations. Error messages are the `StoreError` values.
- Vec0.Vec0SDK.Search: the returned order among rows at equal distance is row order. That is one valid choice, and `IsKnnAnswer` allows any.
- RagFusion.FuseResults: requires `k > 0`. With `k = 0` the first weight would be `1/0 = Infinity`, which exact reals cannot express. Every caller passes 60.
- The OpenAI calls (embedding, chat completion) are parameters: the embedding function and the reply strings. The prompt wording is free text for a language model.
- Rag.SearchEach: `Promise.all` runs the searches concurrently. They are modelled in variation order: the outcome is the first failure in that order, and the log gains one entry per variation in that order. Another interleaving of the entries, which the embedding calls' timing could produce, is not modelled.
- Rag.AnswerWithContext: the reply of the answering call is a parameter, and the prompt itself is not built.
- The module-level `DATABASE_URL` check and the opening of the store are not modelled; a `Vec0SDK` is given.
- Strings are sequences of characters; JavaScript's UTF-16 code units and `toUpperCase` are modelled on ASCII `a`–`z` only.
- `formatFileSize`'s `toFixed(1)` rendering is left out; the method returns the exact size and the unit index.
- ChannelNew.Validate: the `createChannel` call, the redirect and the 500 path after it are left out. The call does not match the signature of `createChannel` in `channel.server.ts`.
- JoinRoute.JoinAction: `validateEmail` and `getUserByEmail` are parameters, since `~/utils` and `user.server.ts` are not part of this model. `safeRedirect`, `createUser` and the session are left out.
- The settings action's `updateUser` call and its error response are left out; `UpdateFor` gives the fields it is called with.
- `readFileSync` of `messages.tsv`: the file's text is the input of `ReadMessages`.
- The raw SQL of `scripts/query.ts` and its printing loop: the rows are the input, and the result is the map's entries in iteration order.
- The React rendering around the display helpers.
- Lengths are counted in characters, that is Unicode scalar values. JavaScript's `.length` counts UTF-16 code units, so a character outside the Basic Multilingual Plane counts once here and twice there. This affects the 512-character limit of ChannelNew.Validate and the 8- and 12-character thresholds of JoinRoute.JoinAction and JoinRoute.PasswordStrength.
- ChannelNew.ChannelForm and Settings.Normalised: `formData.get` may also return a `File`. The fields are modelled as `Option<string>`, so what a `File` value would do is not modelled (the sign-up action's `typeof` check is modelled).
- Vec0Types.Engine: `acceptsQuery` sees the table's schema, the vector and the limit, not the partition filter. An engine refusal that depends on the filter values, other than `NoPartitionColumn`, cannot be expressed.
- Vec0Types.Engine: `acceptsWrite` sees the table's schema and the row, not the rows already stored. An engine that refuses to replace an existing id cannot be expressed.
- RagFusion.Fused: weights and sums are exact reals. JavaScript adds doubles in list order, so two ids whose exact sums tie may differ after rounding, and the reverse. Where that happens the order among near-equal scores, and with it the tie order of `FusedTiesFirstSeen`, can differ from the source's.
- Table names ignore case only for ASCII letters; SQLite's case folding of other characters is not modelled.
