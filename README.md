# FAQ bot backend: write-path bookkeeping, index cache and CLI, in Dafny

The FAQ bot answers questions through retrieval-augmented generation. Its FAQs
live in an SQLite `faqs` table. Its answers are grounded in a FAISS similarity
index that can only be rebuilt as a whole. This project models the bookkeeping
that keeps the two in step, and proves properties of that model:

- **Pending-changes log** (`PendingChanges`, backend/core/pending_changes.py).
  This is a JSON file keyed by FAQ id, with one entry per FAQ: the kind of
  change, the status the FAQ should get back, and a timestamp. Every operation
  loads the whole file, changes it and saves it. The class
  `PendingChangesManager` keeps the file as a `Disk` field. The field is
  absent, unreadable, or a sequence of entries in the dictionary's insertion
  order.
- **Staging protocol** (`Faq` and `FaqStaging`, backend/core/faq.py).
  - Creating or editing a FAQ always stores status `"pending"` and records the
    intended status in the log. Deleting records the prior status.
  - After a rebuild, `restore_faq_statuses_after_rebuild` replays the log
    oldest-first, counts the statuses it would write back and empties the
    log. Its writes go through `execute_query`, which never commits, so the
    table keeps its "pending" rows (see Findings).
  - The table is a sequence of `Row`s in ascending id order, matching
    `ORDER BY id`. `nextId` plays the part of AUTOINCREMENT. The tags column
    holds its JSON text, whose encoder and decoder are in `TagsJson`.
  - The validators, the SQL fragments `_update`, `_build_where_clause` and
    `_apply_pagination` build, and the `get_faqs` page are modelled as well.
- **Vector store** (`VectorStore`, backend/core/vector_store.py). The class
  holds the documents, their passage texts, the index, the metric, the
  readiness flag and the four cache files. Embedding plus k-NN search is an
  oracle `Knn` passed to each search, and the embedding model is an `Encoder`
  value. The module models:
  - the cache acceptance rules;
  - the forced rebuild followed by status restore;
  - the two-query context of `search_similar_faqs`;
  - the ranked results of `search_similar`.
- **Claude client helpers** (`ClaudeClient`, backend/core/claude_client.py):
  the conversation context, the system prompt, the credentials check,
  readiness, and the conversion of a message dictionary.
- **Request models** (`Models`, backend/models.py): the status validators and
  the field defaults of `FAQCreateRequest` and `FAQUpdateRequest`.
- **Management CLI** (`ManageFaqs`, backend/cli/manage_faqs.py):
  - the `argv` scanning loops of `main`;
  - the checks of the add, update and delete handlers;
  - the CSV sync, which normalises rows, matches each row against the search
    results, then creates, updates or skips it and counts the outcome.

Support modules, each named after what it models:

| module | models |
|---|---|
| `Wrappers` | `Option`, `Result`, and the exceptions the code raises |
| `Text` | Python's `strip`, `lower`, `split`, `join`, `int()`, `str()` and string `<` |
| `TagsJson` and `TagsJsonFacts` | `json.dumps` and `json.loads` on a list of strings |
| `SqlLike` | SQLite's `LIKE` |

Clock readings are parameters: `sqlNow` for `CURRENT_TIMESTAMP`, and
`isoNow`/`now` for `datetime.now().isoformat()`. Whether a file can be written
or removed is a field of the object that owns the file.

Deviations from the original's data layout:

- **The table is a sequence of rows in id order, not a map.** This makes
  `ORDER BY id` and the page slices direct.
- **The log keeps the dictionary's insertion order.** Python's `str(faq_id)`
  keys become `int` keys.

## Model

| member | source | states |
|---|---|---|
| Models.ValidateStatus | backend/models.py:54-59 | A create status is accepted iff it is public, private or pending. It is then returned unchanged; otherwise the fixed ValueError is raised. |
| Models.ValidateOptionalStatus | backend/models.py:69-74 | An update status is accepted iff it is absent or one of public/private/pending, and is returned unchanged. |
| Models.NewCreateRequest | backend/models.py:47-59 | Building a `FAQCreateRequest` succeeds iff the status, defaulting to public, is valid. Every given field is kept. |
| Models.CreateDefaults | backend/models.py:50-52 | An omitted status, category and tags read as "public", "other" and the empty list. |
| Models.NewUpdateRequest | backend/models.py:62-74 | Building a `FAQUpdateRequest` succeeds iff its status is absent or valid. Every field, absent or not, is carried over unchanged. |
| PendingChanges.ParseChangeType | backend/core/pending_changes.py:14-19 | `ChangeType(s)` yields the member whose value is `s`, for exactly the three values. Anything else is a ValueError. |
| PendingChanges.ToDict | backend/core/pending_changes.py:37-44 | The dictionary of a change always has its id, kind and timestamp. |
| PendingChanges.FromDict | backend/core/pending_changes.py:46-54 | Reading a dictionary succeeds iff it has an id and a known kind, and a missing key is a KeyError. A missing or empty timestamp becomes the current time. |
| PendingChanges.FromToDict | backend/core/pending_changes.py:25-54 | `from_dict(to_dict(c))` gives back `c` for every change with a timestamp. |
| PendingChanges.PrecedesTrans | backend/core/pending_changes.py:130 | The timestamp order the sorts use is transitive in both directions. |
| PendingChanges.PrecedesAsym | backend/core/pending_changes.py:175 | The order is asymmetric: no two changes precede each other. |
| PendingChanges.InsertPermutes | backend/core/pending_changes.py:130 | Inserting a change into a sorted list adds exactly that change. |
| PendingChanges.InsertSorted | backend/core/pending_changes.py:175 | Inserting a change keeps a sorted list sorted. |
| PendingChanges.SortByTimestamp | backend/core/pending_changes.py:130 | The sort's result is ordered by timestamp, newest or oldest first, and is a permutation of its input. |
| PendingChanges.LookupFound | backend/core/pending_changes.py:98 | An id has an entry iff it is among the log's keys. |
| PendingChanges.LookupWithout | backend/core/pending_changes.py:78-82 | After dropping the entry for `k`, `k` has none and every other id keeps its entry. |
| PendingChanges.LookupAppend | backend/core/pending_changes.py:86 | A key assigned into the dictionary is found with its value unless the key was already present. |
| PendingChanges.LookupPut | backend/core/pending_changes.py:78-86 | After the upsert, `k` maps to the new entry and every other id keeps its old entry. |
| PendingChanges.WithoutKeys | backend/core/pending_changes.py:78-82 | The comprehension keeps only old entries, none for the dropped id, and keeps keys distinct. |
| PendingChanges.PutDistinct | backend/core/pending_changes.py:85-86 | The upsert keeps at most one entry per id. |
| PendingChanges.ChangesAt | backend/core/pending_changes.py:117-127 | When every entry parses, the listing has one change per entry, each read from the entry at its position. |
| PendingChanges.TallyStep | backend/core/pending_changes.py:121-127 | Each change adds one to the counter of its kind and leaves the others. |
| PendingChanges.TallyTotal | backend/core/pending_changes.py:115-127 | The created, updated and deleted counts add up to the number of changes. |
| PendingChanges.PathJoin | backend/core/pending_changes.py:62 | The joined path starts with the directory and ends with the file name. |
| PendingChanges.PendingChangesManager.constructor | backend/core/pending_changes.py:60-65 | The directory is the one given, or the configured one when none or an empty one is given. The file starts as it is on disk. |
| PendingChanges.PendingChangesManager.Load | backend/core/pending_changes.py:182-193 | A missing or corrupt file loads as the empty log, and keys are distinct. |
| PendingChanges.PendingChangesManager.Save | backend/core/pending_changes.py:195-201 | A writable file then holds exactly the entries. Otherwise the fixed CacheError is raised and the file is untouched. |
| PendingChanges.PendingChangesManager.AddPendingChange | backend/core/pending_changes.py:67-91 | On a writable file, the log becomes the old log upserted at `faqId` with a change of that kind, status and time. A failure is the CacheError and leaves the file untouched. |
| PendingChanges.PendingChangesManager.RemovePendingChange | backend/core/pending_changes.py:93-106 | The result is true iff the id was present, and the log is then the old log without it. An absent id returns false and saves nothing. A failed save is the CacheError. |
| PendingChanges.PendingChangesManager.GetPendingChanges | backend/core/pending_changes.py:108-141 | The call succeeds iff every entry parses. The changes are a newest-first permutation of the log's changes. The stats are their per-kind tally. `total_count` is the number of entries; `has_pending` holds iff it is positive. |
| PendingChanges.PendingChangesManager.GetPendingFaqIds | backend/core/pending_changes.py:143-149 | The result is exactly the set of ids with an entry. |
| PendingChanges.PendingChangesManager.ClearAllPendingChanges | backend/core/pending_changes.py:151-163 | The cleared count is the prior number of entries and the log ends empty. A failed save leaves the file untouched. |
| PendingChanges.PendingChangesManager.GetChangesForRebuild | backend/core/pending_changes.py:165-180 | The result is the log's changes in oldest-first order, as a permutation. An entry that does not parse is the CacheError. |
| PendingChanges.PendingChangesManager.GetFilePath | backend/core/pending_changes.py:203-205 | The path is under the cache directory and ends with `pending_changes.json`. |
| Faq.ValidateQuestion | backend/core/faq.py:478-486 | Accepted iff not blank and at most 500 characters. A blank question gives "Question cannot be empty". |
| Faq.ValidateAnswer | backend/core/faq.py:488-496 | Accepted iff not blank and at most 2000 characters. A blank answer gives "Answer cannot be empty". |
| Faq.ValidateStatus | backend/core/faq.py:498-502 | Accepted iff public, private or pending; otherwise the fixed message is raised. |
| Faq.ValidateEachTag | backend/core/faq.py:512-516 | The tag loop passes iff every tag is non-blank and at most 50 characters. |
| Faq.ValidateTags | backend/core/faq.py:504-516 | Tags are accepted iff there are at most 10 and each passes. More than 10 gives "Cannot have more than 10 tags". |
| Faq.CreateCheck | backend/core/faq.py:63-66 | `create_faq` passes its checks iff the question, answer, status and tags are all valid. |
| Faq.UpdateCheck | backend/core/faq.py:100-118 | `update_faq` passes its checks iff each given field is valid, and the category is never checked. |
| Faq.SearchRequest | backend/core/faq.py:154-162 | A search is accepted iff the query is not blank and `1 <= limit <= 50`. It then searches the stripped query; each rejection carries its own message. |
| Faq.PageRequest | backend/core/faq.py:41-44 | A page is accepted iff `1 <= limit <= 500` and `offset >= 0`, and the limit is checked first. |
| Faq.CreatedRowTags | backend/core/faq.py:279-280 | Reading a created row back through `_row_to_faq` gives exactly the requested tags. |
| Faq.Find | backend/core/faq.py:233-240 | A row found by id is in the table and has that id. |
| Faq.Replace | backend/core/faq.py:322-323 | An UPDATE keeps the table's length and ids. |
| Faq.Delete | backend/core/faq.py:334-335 | After DELETE, every remaining row was there before and none has the id. |
| Faq.FindReplace | backend/core/faq.py:322-325 | After an UPDATE of an existing id, that id reads back as the new row and every other id is unchanged. |
| Faq.FindDelete | backend/core/faq.py:327-340 | After DELETE, the id is gone and every other id reads as before. |
| Faq.FindAppend | backend/core/faq.py:286-291 | An inserted row with a fresh id is found by that id, and the other ids read as before. |
| Faq.DeleteAscending | backend/core/faq.py:261 | Deleting keeps the table in id order. |
| Faq.DeleteShrinks | backend/core/faq.py:334-338 | Deleting an existing id removes at least one row. |
| Faq.UpdatedRowPending | backend/core/faq.py:120-121 | `update_faq` adds the pending status to the given fields' updates, and the statement refreshes `updated_at`. |
| Faq.SetClausesMatchParams | backend/core/faq.py:310-316 | There is one parameter per SET clause, and each clause has exactly one placeholder. |
| Faq.BuildUpdate | backend/core/faq.py:307-323 | With no recognised field nothing is run. Otherwise the statement is the recognised clauses plus `updated_at = CURRENT_TIMESTAMP`, and the parameters end with the id. |
| Faq.ApplyUpdatesAppend | backend/core/faq.py:310-316 | Applying two lists of updates in turn is the same as applying their concatenation. |
| Faq.ApplyGivenFields | backend/core/faq.py:100-118 | The given fields overwrite question, answer (both stripped), category and tags. The id, status and timestamps are untouched. |
| Faq.UpdateStagesRow | backend/core/faq.py:97-124 | After `update_faq` the row is "pending" with a new `updated_at`, and each given field is replaced. The tags read back as the requested ones. |
| Faq.BuildWhereClause | backend/core/faq.py:533-549 | The clause is empty when no filter is given, else " WHERE " joined by " AND ". The parameters are those of the given filters, and the tag parameter is `%"tag"%` with the tag as given. |
| Faq.NoFiltersNoClause | backend/core/faq.py:548 | No filters give no conditions and no parameters. |
| Faq.ConditionsParams | backend/core/faq.py:538-546 | There is one parameter per condition. A tag filter contributes the tag condition last, and its parameter is `%"` + tag + `"%`. |
| Faq.Select | backend/core/faq.py:251-261 | Every row the WHERE clause selects is a table row matching every given filter, the tag by the pattern as written. |
| Faq.SelectComplete | backend/core/faq.py:251-261 | Every table row matching the filters, the tag by the pattern as written, is selected. |
| Faq.Page | backend/core/faq.py:555-558 | LIMIT/OFFSET take the slice of at most `limit` rows that starts at `offset`, element by element. |
| Faq.HasMoreIff | backend/core/faq.py:50 | `offset + len(faqs) < total` holds iff `offset + limit < total`. |
| Faq.ApplyPagination | backend/core/faq.py:551-559 | The query is only extended, and with no limit it is unchanged. |
| Faq.PaginationReadsBack | backend/core/faq.py:555-558 | The paginated query's words are the query's, then LIMIT and the limit, then OFFSET and the offset only when it is positive. Each number reads back as given. |
| Faq.TagFilterFinds | backend/core/faq.py:540-543 | The corrected pattern, which quotes the tag as `json.dumps` does, matches the stored tags text of every FAQ carrying that tag. |
| Faq.TagFilterAsWrittenMisses | backend/core/faq.py:543 | The pattern as written never matches when the tag has a character outside ASCII, whatever the stored tags. |
| Faq.TagFilterAsWrittenExample | backend/core/faq.py:543 | A FAQ tagged "環境" is missed by the pattern as written and found by the corrected one. |
| Faq.TagFilterSelectsNone | backend/core/faq.py:251-261 | On a table whose tags columns were written by `_serialize_tags`, a tag filter on a tag with a character outside ASCII selects no row at all. |
| Faq.PlainTagPattern | backend/core/faq.py:542-543 | For a tag of printable ASCII other than the quote and the backslash, the pattern as written is the corrected one. |
| Faq.PlainTagFilterFinds | backend/core/faq.py:540-543 | For such a tag, the pattern as written matches the stored tags text of every FAQ carrying it. |
| FaqStaging.SetStatusShape | backend/core/faq.py:225-229 | The status-only UPDATE keeps the table's length and ids. |
| FaqStaging.SetStatusFind | backend/core/faq.py:225-229 | The status-only UPDATE the code intends changes only the status and `updated_at` of the row with that id. It does nothing when the id is gone. |
| FaqStaging.ReplayFind | backend/core/faq.py:202-210 | After the replay the code intends, each row whose id has a restorable change holds the last such status. Every other row is untouched and the id order is kept. |
| FaqStaging.RestoredCountBound | backend/core/faq.py:200-210 | The restored count is at most the number of changes, and it is zero iff no change is restorable. |
| FaqStaging.RestoredCountPerm | backend/core/faq.py:199-210 | The restored count is the same for every order of the same changes. |
| FaqStaging.RestoreLosesStatus | backend/core/faq.py:207-210 | A pending row whose CREATED entry records "public" is counted as restored, and the intended replay would make it public. |
| FaqStaging.EditForgetsStatus | backend/core/faq.py:97-135 | An edit without a status of a freshly created FAQ logs the stored "pending" under its id in place of the CREATED entry. That entry reads back as logged, and the restore has no status to write for it. |
| FaqStaging.EditKeepsIntendedStatus | backend/core/faq.py:97-135 | When the edit logs the status the pending entry already records, the same edit keeps the FAQ's requested status, and the restore writes it back. |
| FaqStaging.ReplayStep | backend/core/faq.py:202-210 | Each loop step skips a deletion or an empty/pending status; otherwise the intended replay writes the status and the count grows by one. |
| FaqStaging.Listing | backend/core/faq.py:46-59 | The total is the number of matching rows. The page has exactly as many FAQs as the LIMIT/OFFSET slice of those rows, at most `limit`, and each is the matching row at its offset. `has_more` holds iff `offset + limit < total`. |
| FaqStaging.FaqManager.constructor | backend/core/faq.py:18-22 | The manager starts on a table in id order whose ids are below the next id. |
| FaqStaging.FaqManager.GetFaqById | backend/core/faq.py:24-29 | The call succeeds iff a row has the id, and returns that row. Otherwise it gives NotFoundError "FAQ not found with ID: n". |
| FaqStaging.FaqManager.CreateFaq | backend/core/faq.py:61-87 | Invalid input changes nothing. Valid input appends the pending row with the next id and logs CREATED with the requested status; the log is upserted at the new id. |
| FaqStaging.FaqManager.Insert | backend/core/faq.py:286-293 | The INSERT appends the row with the next id and advances the id, keeping the table in id order. |
| FaqStaging.FaqManager.InsertAndLog | backend/core/faq.py:72-85 | The row is appended, then CREATED is logged; a failed log write is the CacheError and the row stays. |
| FaqStaging.FaqManager.UpdateFaq | backend/core/faq.py:89-135 | A missing id is NotFound and invalid fields are their ValidationError, both with nothing stored or logged. Otherwise the row becomes the staged update. UPDATED is logged with the requested status, or the old one when none is given. |
| FaqStaging.FaqManager.StoreAndLog | backend/core/faq.py:124-135 | The updated row replaces the old one, then UPDATED is logged; the result is the new and the old FAQ. |
| FaqStaging.FaqManager.DeleteFaq | backend/core/faq.py:137-152 | A missing id is NotFound with nothing changed. Otherwise the row is removed and DELETED is logged with its prior status, and the deleted FAQ is returned. |
| FaqStaging.FaqManager.UpdateStatusOnly | backend/core/faq.py:225-229 | The UPDATE runs through `execute_query`, whose connection is closed without a commit (backend/core/database.py:20-34, 47-52), so the table is left as it was. |
| FaqStaging.FaqManager.RestoreFaqStatuses | backend/core/faq.py:196-223 | The changes are replayed oldest-first as a permutation of the log's parsed changes, and the table is unchanged because no write is committed. The result counts the restorable changes of the log, the cleared count is the number of entries, and the log ends empty. A log that cannot be read or cleared is a DatabaseError ("Failed to restore FAQ statuses: ..."). |
| FaqStaging.FaqManager.ReplayChanges | backend/core/faq.py:202-210 | The loop leaves the table as it was and counts `RestoredCount(changes)`, the number of restorable changes. |
| FaqStaging.FaqManager.GetFaqs | backend/core/faq.py:31-59 | The call succeeds iff the page parameters are valid, and then returns the `Listing` of the filtered table. An error carries the page check's message. |
| FaqStaging.FaqManager.LoadFaqsForRag | backend/core/faq.py:448-469 | One document per row, in id order, each with the row's fields and parsed tags. |
| FaqStaging.FindIffPresent | backend/core/faq.py:233-240 | A lookup finds the id iff some row has it. |
| FaqStaging.AppendFits | backend/core/faq.py:286-293 | A row with the next id keeps the table in id order with every id below the advanced counter. |
| FaqStaging.DeleteIdsBelow | backend/core/faq.py:334-335 | DELETE keeps every id below the counter, so ids are never reused. |
| VectorStore.PassagesSpec | backend/core/vector_store.py:156-162 | There is one passage per document, and each is "passage: Q: {question}\nA: {answer}" of the document at its position. |
| VectorStore.PassageHolds | backend/core/vector_store.py:160 | A passage contains its FAQ's question and its answer. |
| VectorStore.RemoveAllRemoves | backend/core/vector_store.py:286-292 | Each file the loop visits is absent afterwards. |
| VectorStore.RemoveAllKeys | backend/core/vector_store.py:284-293 | Removing each of the four cache files leaves no cache file. |
| VectorStore.Loaded | backend/core/vector_store.py:343-393 | The cache is used iff all four files exist, the metadata and documents and index read, the model name matches and the dimension is recorded. A missing file or a different model changes nothing. On success the cached metric is adopted when non-empty, the documents and index come from the cache, and the texts are rebuilt from the documents. |
| VectorStore.FromService | backend/core/vector_store.py:135-154 | A successful build leaves an index whose texts are the passages of its documents, and the metric set. A failure is the library's exception. |
| VectorStore.CacheHitIgnoresDocuments | backend/core/vector_store.py:139-141 | When the cache is accepted and the build is not forced, the FAQ table is not read: the result is the same whatever the documents. |
| VectorStore.ForcedBuildIndexesDocuments | backend/core/vector_store.py:164-200 | A forced build indexes exactly the given documents whatever the cache, with the index kind the metric names. It saves them when the directory is writable and leaves the cache as it was when not. |
| VectorStore.SaveLoadRoundTrip | backend/core/vector_store.py:308-389 | A load accepts what a successful build saved, and changes nothing. |
| VectorStore.ClearedCacheMisses | backend/core/vector_store.py:281-306 | After the files are removed, a load fails and changes nothing. |
| VectorStore.PyAt | backend/core/vector_store.py:92 | Python indexing succeeds iff `-len <= i < len`, with negative indices counted from the end. Otherwise it is IndexError. |
| VectorStore.TextsAtSpec | backend/core/vector_store.py:91-96 | Looking up texts succeeds iff every hit can index the texts, and then gives the text of each hit in order. |
| VectorStore.PaddingRepeatsLast | backend/core/vector_store.py:91-96 | FAISS's -1 padding picks the last text, so a short index repeats it in the context. |
| VectorStore.ContextHoldsAllHits | backend/core/vector_store.py:91-97 | Every text retrieved by either query appears in the assembled context. |
| VectorStore.ContextFails | backend/core/vector_store.py:91-97 | The context fails, with IndexError, exactly when a hit of either query cannot index the texts. |
| VectorStore.RankedHitsCount | backend/core/vector_store.py:237-245 | With the corrected guard there is one result per hit that names a document. |
| VectorStore.RankedHitsSpec | backend/core/vector_store.py:237-245 | Each corrected result carries the document and score of the hit its rank names. Ranks increase along the results and never exceed the number of hits. |
| VectorStore.RankedHitsAllInRange | backend/core/vector_store.py:238-243 | When every hit names a document, the i-th result is the i-th hit with rank i+1. |
| VectorStore.AsWrittenAgreesOnNonNegative | backend/core/vector_store.py:239 | Without negative hits, the guard as written and the corrected guard give the same results. |
| VectorStore.PaddingDuplicatesAsWritten | backend/core/vector_store.py:239 | As written, a -1 padding hit returns the last document a second time; the corrected guard drops it. |
| VectorStore.AsWrittenErrorSticks | backend/core/vector_store.py:238-243 | Once a hit raises IndexError, the rest of the hits do not change the outcome. |
| VectorStore.VectorStore.constructor | backend/core/vector_store.py:20-31 | Each omitted or empty setting takes its configured default. The store starts with no index, no documents and not ready. |
| VectorStore.VectorStore.CachePath | backend/core/vector_store.py:208-215 | Each cache path lies under the cache directory and ends with its file's name. |
| VectorStore.VectorStore.FormatFaqTexts | backend/core/vector_store.py:156-162 | The loop returns the passages of the documents. |
| VectorStore.VectorStore.ClearCache | backend/core/vector_store.py:281-306 | The files are removed when removal succeeds. The index, documents and texts are reset and readiness is untouched. The report is the fixed success message. |
| VectorStore.VectorStore.InvalidateCache | backend/core/vector_store.py:128-133 | Invalidation clears as `_clear_cache` does and never raises. |
| VectorStore.VectorStore.SaveToCache | backend/core/vector_store.py:308-341 | When writable, the four files hold the documents, embeddings, index and metadata. Otherwise nothing changes and the result is false. |
| VectorStore.VectorStore.LoadFromCache | backend/core/vector_store.py:343-393 | The store's state and result are exactly `Loaded` of the old state. |
| VectorStore.VectorStore.BuildIndex | backend/core/vector_store.py:164-200 | A model that fails to load changes nothing. Otherwise the documents and texts are assigned before encoding, so a failed encoding leaves them without a new index. The index kind follows the metric, and a failed save is swallowed while the build still succeeds. |
| VectorStore.VectorStore.BuildIndexFromService | backend/core/vector_store.py:135-154 | The state and outcome are `FromService` over the documents `load_faqs_for_rag` gives. |
| VectorStore.VectorStore.Initialize | backend/core/vector_store.py:36-56 | The store is ready afterwards iff the cache or a build produced an index, and the result says so. |
| VectorStore.VectorStore.RebuildCache | backend/core/vector_store.py:101-126 | The store clears, then builds forced from the FAQ table. A failed build is a "Failed to rebuild cache: " CacheError, with no restore and the table and log untouched. A failed restore after a successful build is the same CacheError around the restore's DatabaseError (an entry that does not parse, or a log that cannot be cleared), with the log untouched. On success the table is unchanged, every log entry parsed, and the report has `faq_count` equal to the number of documents and of FAQs, `restored_count` equal to the number of restorable changes in the log, and `cleared_pending_count` equal to the log's size. The log is then empty. |
| VectorStore.VectorStore.RestoreAfterBuild | backend/core/vector_store.py:112-126 | After the build, the report is made iff every log entry parses and the log can be cleared, with the restored and cleared counts. Each restore failure is its own "Failed to rebuild cache: Failed to restore FAQ statuses: ..." CacheError, with the log untouched. |
| VectorStore.VectorStore.SearchSimilarFaqs | backend/core/vector_store.py:62-99 | A store that is not ready gives CacheError "RAG system not initialized". Otherwise the result is the Japanese-prefixed query's texts, then the plain query's, with no bounds check and no de-duplication. |
| VectorStore.VectorStore.SearchSimilar | backend/core/vector_store.py:217-245 | With no index or no documents it raises CacheError "Vector index not built. Call build_index() first." Otherwise the results are the ranked hits of the k-NN answer under the guard as written: every hit below `len(documents)` is kept, read with Python indexing, and a hit below `-len(documents)` is IndexError. |
| ClaudeClient.UserMessagesSpec | backend/core/claude_client.py:104-106 | No message from "susten-ai" remains, and every other message does. |
| ClaudeClient.UserMessagesAppend | backend/core/claude_client.py:104-106 | Filtering keeps the original order: it distributes over concatenation. |
| ClaudeClient.PyDrop | backend/core/claude_client.py:110 | Python's `s[start:]`, for negative and out-of-range starts too. |
| ClaudeClient.RecentKeepsLast | backend/core/claude_client.py:109-113 | A positive bound keeps exactly the last `max_messages` user messages, or all of them when there are fewer. |
| ClaudeClient.RecentZeroKeepsAll | backend/core/claude_client.py:109-113 | A bound of 0 keeps every message, since `[-0:]` is the whole list. |
| ClaudeClient.RecentNegativeDropsFirst | backend/core/claude_client.py:109-113 | A negative bound drops that many messages from the front. |
| ClaudeClient.ContextHoldsRecent | backend/core/claude_client.py:116-118 | Every recent user message appears in the context as its "User:" line. |
| ClaudeClient.ContextOnlyUsers | backend/core/claude_client.py:104-118 | Nothing from the assistant reaches the context, and a history without user messages gives "". |
| ClaudeClient.ContextExample | backend/core/claude_client.py:104-118 | An assistant reply between two user messages is dropped from the joined lines. |
| ClaudeClient.SystemPromptHolds | backend/core/claude_client.py:120-131 | The system prompt contains the question, the conversation context and the retrieved context, and it names the SUSTEN AI assistant. |
| ClaudeClient.DictToMessageRoundTrip | backend/core/claude_client.py:280-291 | A dictionary with every key reads back as the message it came from. |
| ClaudeClient.DictToMessageDefaults | backend/core/claude_client.py:284-290 | `{}` gives id "", content "", sender `{}`, the current time and `isCurrentUser` false. |
| ClaudeClient.DictToMessageFails | backend/core/claude_client.py:287-289 | Conversion fails, with ValueError, exactly when the timestamp is not ISO format. |
| ClaudeClient.Client.constructor | backend/core/claude_client.py:36-52 | The client starts not initialized and not ready, with the configured settings. |
| ClaudeClient.Client.ValidateCredentials | backend/core/claude_client.py:77-88 | The check passes, with "", iff both keys are non-empty and the Bedrock client exists. Missing keys are reported before a missing client, each with its own message. |
| ClaudeClient.Client.Initialize | backend/core/claude_client.py:54-71 | The client is initialized iff the credentials check passes, and it is ready exactly then. |
| ManageFaqs.ParseListOptions | backend/cli/manage_faqs.py:740-756 | The `list` loop ends with the options `ListScan` reads from position 2. |
| ManageFaqs.ListScanSound | backend/cli/manage_faqs.py:740-756 | Every filter `list` ends with is the token after its flag, and the limit is a token of digits. |
| ManageFaqs.ListScanNothing | backend/cli/manage_faqs.py:740-756 | A command line without flags or numbers leaves every option unset. |
| ManageFaqs.ListFlagTakesNextToken | backend/cli/manage_faqs.py:745-747 | A flag takes the next token as its value even when that token is itself a flag. |
| ManageFaqs.TagsArgumentJoin | backend/cli/manage_faqs.py:786 | The pieces of `--tags V` joined by commas give back `V` unstripped, and a non-empty `V` gives at least one piece. |
| ManageFaqs.ParseEditOptions | backend/cli/manage_faqs.py:777-829 | The `add` and `update` loops end with the fields `EditScan` reads. |
| ManageFaqs.EditScanSound | backend/cli/manage_faqs.py:777-829 | Every field is the token after its flag, and `add` never takes a question or answer from a flag. |
| ManageFaqs.IdCommand | backend/cli/manage_faqs.py:794-841 | A missing id prints "Please provide FAQ ID" and an id `int()` rejects prints "FAQ ID must be a number". Otherwise `update` or `delete` runs with the parsed id. |
| ManageFaqs.Dispatch | backend/cli/manage_faqs.py:721-866 | No command shows help. The command name is compared in lower case, and each command checks its positional arguments before reading options. An unknown name is reported. |
| ManageFaqs.IdMustBeNumber | backend/cli/manage_faqs.py:798-802 | An id without a digit stops `update` and `delete` with the usage message. |
| ManageFaqs.IdRoundTrip | backend/cli/manage_faqs.py:799 | The id `str(n)` of a FAQ is read back as `n` by `update` and `delete`. |
| ManageFaqs.AddRequestBuilds | backend/cli/manage_faqs.py:197-211 | A status the CLI accepts always builds a valid `FAQCreateRequest`. |
| ManageFaqs.AddFaq | backend/cli/manage_faqs.py:189-230 | A status other than public/private is refused with nothing stored. A failed validation changes nothing. Once validation passes the pending row is stored under the next id. The reply is a success iff the log is also writable, and CREATED is then logged with the requested status. An unwritable log fails the reply but keeps the row. |
| ManageFaqs.UpdateRequestOf | backend/cli/manage_faqs.py:251-263 | The request is empty iff no option was given, and the question and answer are stripped. |
| ManageFaqs.UpdateFaq | backend/cli/manage_faqs.py:233-308 | The status is checked first, then the FAQ must exist, then at least one field must be given. Each of these failures, and a failed validation, changes nothing. Otherwise the staged row replaces the old one. On a writable log UPDATED is logged with the given status, or the stored one when none is given. An unwritable log fails the reply but keeps the new row. |
| ManageFaqs.DeleteFaq | backend/cli/manage_faqs.py:311-345 | A missing FAQ is NotFound. An unconfirmed deletion is cancelled with nothing changed. A confirmed one removes the row. On a writable log DELETED is logged with the prior status. An unwritable log fails the reply but the row stays removed. |
| ManageFaqs.ListFaqs | backend/cli/manage_faqs.py:54-73 | Only truthy options are passed on, so a limit of 0 falls back to 50. The listing fails iff the limit exceeds 500. |
| ManageFaqs.ListWithoutOptions | backend/cli/manage_faqs.py:54-73 | With no options, `list` shows the first page of 50 over every FAQ. |
| ManageFaqs.CellOr | backend/cli/manage_faqs.py:572-573 | A missing or blank cell takes the default, so status and category are never empty. |
| ManageFaqs.NonEmptyOnlySpec | backend/cli/manage_faqs.py:576 | Exactly the non-empty pieces survive. |
| ManageFaqs.CsvTagsSpec | backend/cli/manage_faqs.py:574-579 | Every tag is a non-empty stripped comma piece of the cell, and every such piece is a tag. |
| ManageFaqs.EntryOf | backend/cli/manage_faqs.py:566-589 | A row is kept iff its stripped question and answer are non-empty. Missing status, category and tags default to "public", "other" and []. |
| ManageFaqs.EntryTagsNonEmpty | backend/cli/manage_faqs.py:574-579 | No tag of a normalised row is empty. |
| ManageFaqs.PresentSpec | backend/cli/manage_faqs.py:570-589 | Exactly the rows kept are collected. |
| ManageFaqs.EntriesSpec | backend/cli/manage_faqs.py:566-589 | The collected entries are exactly the normalised rows that were kept. |
| ManageFaqs.NormalizeRows | backend/cli/manage_faqs.py:566-589 | The row loop collects `Entries(rows)`, in file order. |
| ManageFaqs.FirstIndex | backend/cli/manage_faqs.py:614-617 | The first position holding the key, and no earlier one. None iff the key is absent. |
| ManageFaqs.FirstMatch | backend/cli/manage_faqs.py:614-617 | The first candidate whose stripped, lower-cased question equals the row's. None iff no candidate matches. |
| ManageFaqs.FindFirst | backend/cli/manage_faqs.py:614-617 | The loop with `break` returns `FirstIndex`. |
| ManageFaqs.FirstIndexAt | backend/cli/manage_faqs.py:614-617 | A key first found at `i` is the one the loop breaks on. |
| ManageFaqs.FindExisting | backend/cli/manage_faqs.py:610-617 | `existing_faq` is the candidate at the first match, or none. |
| ManageFaqs.Decide | backend/cli/manage_faqs.py:619-666 | No match means create. A match is updated iff the stripped answer, status, category or tag set differs, and skipped otherwise. |
| ManageFaqs.SkipIdentical | backend/cli/manage_faqs.py:621-655 | A stored FAQ differing only in surrounding space, question case or tag order is skipped. |
| ManageFaqs.CreateFromRow | backend/cli/manage_faqs.py:656-667 | A row is created iff its request builds and the manager accepts it. A request that does not build (an invalid status) or fails `create_faq`'s checks is the row's error with nothing stored. A log that cannot be written is an error with the row inserted. |
| ManageFaqs.UpdateFromRow | backend/cli/manage_faqs.py:628-640 | The matched FAQ is revised iff the row's request builds, the FAQ exists, the fields pass and the log is writable. It then becomes the staged update with every field of the row. A bad status, a FAQ that is gone (NotFound) or fields that fail the checks are the row's error with nothing changed; a log that cannot be written is an error with the FAQ rewritten. |
| ManageFaqs.SyncRow | backend/cli/manage_faqs.py:602-690 | A rejected search is the row's error, with nothing changed. Otherwise the decision on the search results fixes the outcome and the new table exactly: a create and an update each either change nothing and err (the request, NotFound or the checks), or write the row and succeed, or write the row and err when the log cannot be written. A skip changes nothing. |
| ManageFaqs.StepsSnoc | backend/cli/manage_faqs.py:601-690 | A run of steps followed by one more step is a run of steps over one more entry. |
| ManageFaqs.CreatedEffect | backend/core/faq.py:61-87 | What `create_faq` leaves and returns fixes the sync row's outcome and table. |
| ManageFaqs.EffectKeepsTable | backend/cli/manage_faqs.py:619-690 | On a writable log, an errored row leaves the table as it was. On a log that cannot be written, no row is created or updated. |
| ManageFaqs.SyncErrorKeepsTable | backend/cli/manage_faqs.py:602-690 | The same holds for a whole sync step, the search included. |
| ManageFaqs.UnchangedRun | backend/cli/manage_faqs.py:599-690 | A run on a writable log whose every outcome is a skip or an error ends on the table it started from. |
| ManageFaqs.SyncEntries | backend/cli/manage_faqs.py:599-690 | The loop gives one outcome per entry and the counters are their tally. The trace of tables runs from the table before to the table after, and outcome i is the step `SyncRow` states for entry i on the table the earlier entries left. |
| ManageFaqs.SyncNext | backend/cli/manage_faqs.py:601-690 | Syncing the next entry extends the run of steps by its outcome and the table it leaves. |
| ManageFaqs.TallySnoc | backend/cli/manage_faqs.py:640-688 | One more outcome bumps the counter of its kind in the tally. |
| ManageFaqs.TallyTotal | backend/cli/manage_faqs.py:599-690 | Each processed row increments exactly one of the four counters. |
| ManageFaqs.NothingCounted | backend/cli/manage_faqs.py:640-688 | A tally with no creation and no update comes from skips and errors only. |
| ManageFaqs.SyncFromCsv | backend/cli/manage_faqs.py:538-718 | A missing file, missing columns or no valid row stop the sync with nothing changed. Otherwise there is one outcome per valid entry and the counters are their tally. Outcome i is the exact step for entry i on the table the earlier entries left, from the table before the sync to the table after it. On a writable log, a sync that counts no creation and no update leaves the table as it was. |
| Text.StripIsTrimmedInfix | backend/core/faq.py:73-74 | `strip()` returns the middle of the string, with only whitespace (Python's Unicode whitespace set) cut on both sides. |
| Text.StripEnds | backend/core/faq.py:73-74 | A stripped string is empty or neither starts nor ends with whitespace. |
| Text.BlankIffAllSpace | backend/core/faq.py:480 | `not s.strip()` holds iff every character is whitespace. |
| Text.Lower | backend/cli/manage_faqs.py:731 | `lower()` maps each ASCII capital to its lower case and keeps every other character and the length. |
| Text.SplitJoin | backend/cli/manage_faqs.py:786 | `",".join(s.split(","))` is `s`, and no piece contains the separator. |
| Text.NatToStringValue | backend/core/faq.py:556-558 | `str(n)` is a run of digits whose value is `n`. |
| Text.ParseIntOfDigits | backend/cli/manage_faqs.py:799 | `int()` of a run of ASCII digits is its decimal value. |
| Text.ParseIntOfIntToString | backend/cli/manage_faqs.py:799 | `int(str(n)) == n` for every non-negative `n`. |
| Text.ParseIntNeedsDigit | backend/cli/manage_faqs.py:799-802 | `int()` rejects a string without any digit. |
| Text.StrLtTrans | backend/core/pending_changes.py:130 | String `<` on timestamps is transitive. |
| Text.StrLtTotal | backend/core/pending_changes.py:175 | String `<` is total on distinct strings. |
| TagsJsonFacts.ParseSerialize | backend/core/faq.py:520-531 | `_parse_tags(_serialize_tags(tags)) == tags` for every list of strings. |
| TagsJsonFacts.EdgeCases | backend/core/faq.py:520-531 | `_serialize_tags([])` is "[]", `_parse_tags("")` is [], and text that does not start with `[` after leading whitespace reads as []. |
| TagsJsonFacts.SerializeAscii | backend/core/faq.py:531 | `json.dumps` output is printable ASCII: other characters become `\u` escapes. |
| TagsJsonFacts.StringBodyRoundTrip | backend/core/faq.py:520-531 | Decoding an escaped string body gives back the string and the text after its closing quote. |
| TagsJsonFacts.ElementsRoundTrip | backend/core/faq.py:520-531 | Decoding the joined quoted tags gives back the tags. |
| TagsJsonFacts.EscapeCharRoundTrip | backend/core/faq.py:531 | Every character's escape decodes back to that character, astral ones through surrogate pairs too. |
| TagsJsonFacts.RawCharRoundTrip | backend/core/faq.py:531 | Printable ASCII other than the quote and the backslash is written as itself. |
| TagsJsonFacts.ShortEscapeRoundTrip | backend/core/faq.py:531 | The quote, backslash and control characters with a short escape get two characters that decode back. |
| TagsJsonFacts.UnitEscapeRoundTrip | backend/core/faq.py:531 | Any other character of the basic plane becomes `\uXXXX` and decodes back. |
| TagsJsonFacts.PairEscapeRoundTrip | backend/core/faq.py:531 | A character beyond the basic plane decodes back from its surrogate pair. |
| TagsJsonFacts.SurrogateArithmetic | backend/core/faq.py:531 | The high and low surrogates of a code point lie in their ranges and recombine to it. |
| TagsJsonFacts.Hex4RoundTrip | backend/core/faq.py:531 | Four hex digits read back as the code unit written. |
| SqlLike.LikeSelf | backend/core/faq.py:542-543 | A pattern matches its own text. |
| SqlLike.LikeInfix | backend/core/faq.py:542-543 | `%q%` matches any text containing `q`. |
| SqlLike.LikeNeedsChar | backend/core/faq.py:542-543 | A literal pattern character must meet an equal character, up to ASCII case, in the text. |
| SqlLike.NonAsciiNeverMatchesAscii | backend/core/faq.py:542-543 | A pattern with a character outside ASCII never matches pure ASCII text. |

## Left out

- Whole parts of the source:
  - backend/core/database.py is modelled only as far as `execute_query` leaves a write uncommitted. SQLite is the `Row` sequence and its statements are functions on it.
  - The HTTP routes, dependency wiring and configuration loading are left out.
  - Rich console rendering, the panels and the progress bar are left out.
- I/O as parameters and state:
  - File contents are `Disk`/`CacheFiles` values and failing writes or removals are booleans.
  - `datetime.now()` and `CURRENT_TIMESTAMP` are parameters.
  - CSV text parsing is not modelled. A CSV file is its header and its row dictionaries, each holding every header column (`Rectangular`).
  - The `FileNotFoundError` and outer `except Exception` of `sync_from_csv` are left out.
  - `get_faq_manager` failing at start-up is left out.
- Foreign libraries as oracles:
  - Embedding and FAISS search are the `Knn` oracle. `normalize_L2`, scores and real dimensions are not modelled.
  - The pickle, npy and index file formats and `get_cache_info` are not modelled.
  - `datetime.fromisoformat` is the predicate `isIso`.
  - Lazy loading of the embedder is folded into the `Encoder`'s load error.
  - A save that fails half-way writes no file in the model. The real code can leave some files written.
  - `_build_index` over an empty FAQ table reads `embeddings.shape[1]` of an empty encoding, which raises in the real code. The model builds an empty index there, and so does not capture that an empty table can fail to build.
- `search_faqs` results: the LIKE scoring of `_search`, `get_statistics`, `get_all_tags` and `get_all_categories` are left out. The CLI's `search`, `stats`, `tags` and `categories` commands are dispatched but not run. The sync takes the search results from a `Searcher` oracle.
- `ask_with_context_stream` (Bedrock streaming, boto3, asyncio, SSE framing) is left out. So is `Message`'s `datetime` type: timestamps are strings.
- Unicode:
  - `str.isdigit` is modelled on ASCII digits. `str.strip` cuts Python's Unicode whitespace set, the characters `str.isspace` accepts.
  - `int()` is modelled without underscores or other Unicode digits.
  - SQLite `LIKE` folds ASCII case only, which is what SQLite does.
- Text.Lower: folds ASCII capitals only. Python's `lower()` also folds other letters, such as the fullwidth "Ａ". So the sync's question match (backend/cli/manage_faqs.py:614-617) is modelled as case-blind for ASCII only, and two questions differing in a non-ASCII capital count as different here.
- TagsJsonFacts.EdgeCases: `_parse_tags` returns whatever `json.loads` gives, so valid JSON that is not an array ("5", "{}") comes back as that value. The model reads such text as []. The tags column is only ever written by `_serialize_tags`, which always writes an array.
- `TagsJson.ParseStringBody` accepts raw control characters inside a string, which `json.loads` refuses by default. `_serialize_tags` never writes them, so no stored column differs.
- Text.ParseIntOfIntToString: stated for non-negative numbers only. The negative case is true but is not proved here.
- ManageFaqs.IdRoundTrip: stated for non-negative ids only, for the same reason. AUTOINCREMENT never hands out a negative id.
- Exception messages:
  - A log failure is modelled by the fixed prefix of its CacheError ("Failed to add pending change", ...), without the formatted text of the cause.
  - The "Failed to rebuild index" branch of `rebuild_cache` cannot be reached, because `_build_index` raises or returns true. It is modelled as the library's exception passing through.
- Ordering:
  - The sorts are stated as sorted and a permutation. Python's stable order among equal timestamps is not stated.
  - The log keeps the dictionary's insertion order, which the upsert and the listings use.
- Concurrency between writers is left out. The source has no locking.

## Findings

| source | as written | input that shows it | evidently intended | confidence | as-written member | corrected member |
|---|---|---|---|---|---|---|
| backend/core/vector_store.py:239 | `if idx < len(self.documents)` admits FAISS's -1 padding, which Python reads as the last document | an index holding one document, searched with `top_k` 2: hits `[0, -1]` give that document twice, ranks 1 and 2 | only hits `0 <= idx < len(documents)` become results | not executed | VectorStore.PaddingDuplicatesAsWritten | VectorStore.RankedHitsSpec |
| backend/core/faq.py:543 | the tag filter pattern is `'%"' + tag + '"%'`, but `json.dumps` stored each non-ASCII character as a `\u` escape | a FAQ tagged "環境" is stored as `["\u74b0\u5883"]`; filtering on "環境" selects nothing | the pattern quotes the tag as `json.dumps` does, and so finds every FAQ carrying it | not executed | Faq.TagFilterSelectsNone | Faq.TagFilterFinds |
| backend/core/faq.py:229 | `_update_status_only` writes through `execute_query`, whose connection (backend/core/database.py:20-34) is closed without a commit, so the restore's UPDATEs are rolled back | create a FAQ with status "public", rebuild: the restore reports one restored status, clears the log, and the row stays "pending" | the status write is committed, so the row becomes "public" | not executed | FaqStaging.FaqManager.RestoreFaqStatuses | FaqStaging.ReplayFind |
| backend/core/faq.py:98 | an edit without a status logs `old_faq.status`, which for a FAQ still staged is "pending", and the upsert replaces the entry that held the intended status | create a FAQ with status "public", then edit only its answer before a rebuild: the log holds UPDATED with "pending", and the restore skips the FAQ | the edit keeps the intended status already in the log | not executed | FaqStaging.EditForgetsStatus | FaqStaging.EditKeepsIntendedStatus |

The operations follow the code as written. The corrected definitions stand beside them, with the intended properties proved about them:

- `VectorStore.VectorStore.SearchSimilar` returns `VectorStore.RankedHitsAsWritten`. The corrected `VectorStore.RankedHits` drops negative hits, and `VectorStore.AsWrittenAgreesOnNonNegative` shows the two agree when no hit is negative.
- `Faq.BuildWhereClause`, `Faq.Matches` and `FaqStaging.Listing` bind `Faq.TagPatternAsWritten`. The corrected `Faq.TagPattern` quotes the tag as `json.dumps` does, and `Faq.PlainTagPattern` shows the two agree on plain ASCII tags.
- `FaqStaging.FaqManager.UpdateStatusOnly` leaves the table as it was. The intended write is `FaqStaging.SetStatus`, and `FaqStaging.Replay` is the intended replay over it.
- `FaqStaging.FaqManager.UpdateFaq` logs the stored status when none is given, as written. `FaqStaging.IntendedStatus` is the status the edit should log.

The same quoting appears in the tag score of `_search` (backend/core/faq.py:366), which is not modelled.

In such an index, `search_similar_faqs` also repeats the last passage in the context (`VectorStore.PaddingRepeatsLast`). That is the same -1 padding read through an index that has no guard at all.
