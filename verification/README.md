# Kotatsu sync merge engine in Dafny

This project models the synchronisation core of the Kotatsu sync server,
`internal/api/sync.go`, with the records of `internal/model/models.go`. A
reading client pulls its history or its favourites. A writing client pushes a
package of history items, or of categories and favourites. The push is merged
row by row into per-user tables under last-write-wins rules, inside one
transaction. That transaction is retried on MySQL deadlocks and lock-wait
timeouts. The server then answers with the merged state and the new sync
timestamp.

Files and modules:

- `model.dfy` (`Model`) holds the records: manga, tag, category, favourite,
  history, the sync fields of a user, and the two packages. Go's `int64` and
  `int` become the newtype `Int64`. Nullable columns become `Option`.
- `merge.dfy` (`Merge`) holds every table the engine touches as one value,
  `Tables`. It defines each SQL upsert of the source as a function on that
  value:
  - the three win predicates (history, category, favourite);
  - the placeholder rows;
  - the loops of both push handlers;
  - the MySQL `IF(...)` column-by-column update, written out;
  - what each read returns.
- `merge_props.dfy` (`MergeProps`) proves these per-row properties:
  - the merge rules;
  - inserts;
  - idempotence;
  - sticky tombstones and tie-breaks;
  - agreement of the SQLite and MySQL statements;
  - the manga overwrite with additive tag links;
  - the placeholders.
- `replay.dfy` (`Replay`) proves that a whole push is idempotent. It takes each
  loop apart into one fold per table, shows that every fold absorbs a second
  run, and puts the folds back together.
- `push_props.dfy` (`PushProps`) proves what a whole push does:
  - it never deletes a row or replaces one by an older row;
  - it touches no other user's rows or timestamps;
  - every pushed item ends up stored, or beaten by a stored row that is not older;
  - the pushing user's timestamp is set;
  - the store stays well formed.
- `tx_retry.dfy` (`Retry`) models the policy of `withTxRetry` over a script of
  attempt outcomes: at most one attempt off MySQL and three on it, and retry
  only on errors 1213 and 1205.
- `sorting.dfy` (`Sorting`) is the in-place sort that PostFavourites applies to
  both request arrays.
- `store.dfy` (`Sync`) is the imperative side:
  - a `Store` class whose map fields are the tables;
  - one method per upsert, each proved to perform exactly its `Merge` function;
  - the two transaction bodies with their loops;
  - `WithTxRetry`, which rolls back by restoring a snapshot;
  - the four handlers;
  - the read loops of `fetchTags`, `fetchManga`, `fetchHistory` and
    `fetchFavouritesAndCategories`.

Only the favourites path creates placeholder manga. `PostHistory`
(sync.go:109-122) writes a history row without checking that its manga
exists; `PushProps.HistoryPushCreatesNoManga` states that behaviour.

## Model

| member | source | states |
|---|---|---|
| Retry.RetryFromCharacterized | internal/api/sync.go:43-64 | From any attempt, the loop goes on exactly while the attempt fails retryably and attempts remain. It returns the outcome of the attempt where it stopped. |
| Retry.TxRetryCharacterized | internal/api/sync.go:36-67 | The whole run makes 1 to maxAttempts attempts (1, or 3 on MySQL). Every attempt before the last failed retryably. An early stop is at a non-retryable outcome. The result is nil exactly when the last attempt committed, and otherwise the error of the last attempt. |
| Retry.NoRetryOffMySQL | internal/api/sync.go:37-61 | Off MySQL there is exactly one attempt, and its outcome is returned whatever the error. |
| Retry.SucceedsIffCommitAfterRetryables | internal/api/sync.go:43-61 | withTxRetry returns nil iff some attempt within the bound commits and every earlier attempt failed with a retryable MySQL error in its body or commit. |
| Retry.RetriesOnlyOnDeadlockOrLockWait | internal/api/sync.go:27-61 | A second attempt happens only on MySQL, and only after the first failed in its body or commit with error 1213 or 1205. |
| Retry.IsMySQLRetryableTxError | internal/api/sync.go:27-34 | True exactly for the MySQL errors 1213 (deadlock) and 1205 (lock wait timeout). Any other error, and any non-MySQL error, is not retryable. |
| Retry.RetryFrom | internal/api/sync.go:43-64 | From attempt `attempt` on, the loop stops somewhere between that attempt and maxAttempts. It returns nil exactly when the attempt it stopped at committed. |
| Retry.TxRetry | internal/api/sync.go:36-67 | withTxRetry makes 1 to maxAttempts attempts, exactly one off MySQL. It returns nil exactly when the attempt it stopped at committed. |
| Merge.HistoryWins | internal/api/sync.go:365 | An incoming history row with a newer or equal `updated_at` wins. An older one loses. |
| Merge.CategoryWins | internal/api/sync.go:389-390 | A later `created_at` wins and an earlier one loses. On equal `created_at` it wins exactly when its coalesced `deleted_at` is `>=` the stored one. |
| Merge.FavouriteWins | internal/api/sync.go:414 | A later `created_at` wins and an earlier one loses. On equal `created_at` it wins exactly when its `deleted_at` is strictly larger. |
| Merge.PlaceholderManga | internal/api/sync.go:322 | The placeholder manga carries the requested id and no tags, so it is already a manga-table row. |
| Merge.PlaceholderCategory | internal/api/sync.go:342 | The placeholder belongs to the requested category id and user. Every category with a positive `created_at` beats it, and none with a negative one does. |
| Merge.UpsertHistory | internal/api/sync.go:359-381 | Only the history table changes. It gains the key (user, manga) and no other. The row stored there is at least as new as the sent one. |
| Merge.UpsertCategory | internal/api/sync.go:383-405 | Only the categories table changes. It gains the key (category, user) and no other. The row stored there is at least as new as the sent one under CategoryWins. |
| Merge.UpsertFavourite | internal/api/sync.go:407-427 | Only the favourites table changes. It gains the key (manga, category, user) and no other. The sent favourite does not beat the row stored there. |
| Merge.UpsertTag | internal/api/sync.go:348-357 | Only the tag table changes. It gains the tag id, which holds exactly the sent tag. |
| Merge.LinkTags | internal/api/sync.go:293-304 | The tag loop changes only the tag table and the links. They keep every tag id and every link they held; tag rows themselves may be overwritten. |
| Merge.UpsertManga | internal/api/sync.go:274-306 | The manga table is the old one with the sent manga (without tags) under its id. Besides it, only the tag table and the links change, and both only grow. |
| Merge.EnsureMangaExists | internal/api/sync.go:310-326 | An existing manga leaves the store unchanged. Otherwise only the manga table changes, and it gains exactly the requested id. |
| Merge.EnsureCategoryExists | internal/api/sync.go:330-346 | An existing category leaves the store unchanged. Otherwise only the categories table changes, and it gains exactly the requested (category, user) key. |
| Merge.HistoryItem | internal/api/sync.go:110-119 | One history item adds exactly its key to the history table. It leaves categories, favourites and users alone. Without a manga object it leaves the manga, tags and links alone too. |
| Merge.MergeHistory | internal/api/sync.go:110-119 | The history loop only adds history keys, and leaves categories, favourites and users alone. |
| Merge.MergeCategories | internal/api/sync.go:202-206 | The category loop changes only the categories table, and only adds keys. |
| Merge.FavouriteItem | internal/api/sync.go:208-235 | One favourite adds exactly its favourite key and its (category, user) key. A bare non-zero manga id ends up in the manga table. History and users are untouched. |
| Merge.MergeFavourites | internal/api/sync.go:208-235 | The favourite loop only adds favourite and category keys, and leaves history and users alone. |
| Merge.ApplyPush | internal/api/sync.go:109-239 | A history push leaves categories and favourites alone. A favourites push leaves history alone. Neither adds or removes a user row. |
| Merge.MySQLHistoryUpdate | internal/api/sync.go:366-377 | The MySQL IF chain keeps the key columns. It either keeps the stored row or assigns every progress column from the sent row, never a mixture. |
| Merge.MySQLCategoryUpdate | internal/api/sync.go:391-401 | The MySQL IF chain keeps the key columns. It either keeps the stored row or assigns every column from the sent row, never a mixture. |
| Merge.MySQLFavouriteUpdate | internal/api/sync.go:415-423 | The MySQL IF chain keeps `manga_id` and `user_id`, and keeps `category_id` whenever the sent row carries the stored one, as a key match does. It either keeps the stored row or assigns every assigned column, `category_id` included, from the sent row, never a mixture. |
| MergeProps.HistoryLastWriteWins | internal/api/sync.go:359-381 | When a row is stored, an incoming row with `updated_at >=` the stored one replaces all progress columns together. An older one leaves the whole store unchanged. |
| MergeProps.HistoryInsert | internal/api/sync.go:360-362 | With no row under (user, manga), the sent row is inserted under the caller's user id. |
| MergeProps.HistoryUpsertIdempotent | internal/api/sync.go:359-381 | Upserting the same history row twice gives the same store as upserting it once. |
| MergeProps.OlderDeviceDoesNotRewindHistory | internal/api/sync.go:365 | After a newer row from one device, an older row for the same manga from another device leaves the store as the newer row left it. |
| MergeProps.CategoryLastWriteWins | internal/api/sync.go:383-405 | A category with a later `created_at`, or an equal one and a coalesced `deleted_at` that is `>=`, replaces every column. An older one, or a tie with a smaller coalesced `deleted_at`, leaves the store unchanged. |
| MergeProps.CategoryInsert | internal/api/sync.go:384-386 | A category not yet stored for the user is inserted as sent. |
| MergeProps.CategoryUpsertIdempotent | internal/api/sync.go:383-405 | Upserting the same category twice equals upserting it once. |
| MergeProps.CategoryNullDeletedIsZero | internal/api/sync.go:389-390 | A NULL `deleted_at` compares exactly like 0, on the incoming side and on the stored side. |
| MergeProps.CategoryTombstoneWinsEitherOrder | internal/api/sync.go:389-390 | Take two versions of a category with equal `created_at`, one deleted later. The later-deleted one ends up stored whichever arrives first. |
| MergeProps.FavouriteLastWriteWins | internal/api/sync.go:407-427 | A favourite with a later `created_at`, or an equal one and a strictly larger `deleted_at`, replaces every column. Otherwise the store is unchanged. |
| MergeProps.FavouriteTombstoneSticky | internal/api/sync.go:414 | A stored deleted favourite is not revived by a live row with the same `created_at`. |
| MergeProps.FavouriteInsert | internal/api/sync.go:408-410 | A favourite not yet stored under (manga, category, user) is inserted as sent. |
| MergeProps.FavouriteUpsertIdempotent | internal/api/sync.go:407-427 | Upserting the same favourite twice equals upserting it once. |
| MergeProps.EqualTimestampsTieBreak | internal/api/sync.go:389-414 | On equal timestamps, an incoming category overwrites the stored one (`>=`), but an incoming favourite does not (strict `>`). |
| MergeProps.WinRulesOnRepeat | internal/api/sync.go:365-414 | A history row or category sent again exactly as stored wins, so it rewrites itself. A favourite sent again does not win. |
| MergeProps.WinRulesTotal | internal/api/sync.go:365-414 | Of two history rows, and of two categories, one always wins over the other. Two favourites equal in both timestamps beat each other neither way. |
| MergeProps.FavouriteTombstoneWinsEitherOrder | internal/api/sync.go:414 | Take two versions of a favourite with equal `created_at`, one deleted later. The later-deleted one ends up stored in either order. |
| MergeProps.HistoryDialectsAgree | internal/api/sync.go:366-377 | The MySQL update, eight IFs assigned left to right with `updated_at` last, gives exactly the row the SQLite `WHERE` upsert gives. |
| MergeProps.CategoryDialectsAgree | internal/api/sync.go:391-401 | The MySQL IF chain, with `deleted_at` assigned before `created_at`, gives exactly the SQLite result. |
| MergeProps.FavouriteDialectsAgree | internal/api/sync.go:415-423 | The MySQL IF chain, with `deleted_at` assigned before `created_at`, gives exactly the SQLite result. |
| MergeProps.LinkTagsLinks | internal/api/sync.go:293-304 | The tag loop changes only the tag table and the link set. The links become the old links plus one (manga, tag) pair per sent tag. |
| MergeProps.UpsertMangaTouchesOnlyCatalogue | internal/api/sync.go:274-306 | upsertManga changes only the manga table, the tag table and the link set. |
| MergeProps.LinkTagsStoresTags | internal/api/sync.go:293-296 | Every sent tag id ends up holding the last tag sent with that id. Tags not sent are untouched. |
| MergeProps.UpsertMangaSpec | internal/api/sync.go:274-306 | The manga row is overwritten unconditionally, without its tags. Existing tag links are kept, and one link is added per sent tag. Each sent tag id holds the last tag sent with it. Every other tag id keeps its row, or its absence. No per-user table changes. |
| MergeProps.EnsureMangaExistsSpec | internal/api/sync.go:310-326 | Afterwards the manga exists. An existing manga leaves the store unchanged. Otherwise exactly one placeholder row is added: empty strings, rating -1, nsfw false. |
| MergeProps.EnsureCategoryExistsSpec | internal/api/sync.go:330-346 | Afterwards the (category, user) row exists. An existing one leaves the store unchanged. Otherwise exactly one "Unknown"/"NEWEST" placeholder is added: track and show-in-library true, timestamps 0. |
| MergeProps.PlaceholderCategoryIsSuperseded | internal/api/sync.go:338-390 | A real category with a positive `created_at` overwrites the placeholder. |
| PushProps.PushExtends | internal/api/sync.go:109-239 | A push deletes no row and replaces no stored row by an older one. Every other user's history, categories, favourites and user row stay exactly as they were. |
| PushProps.MergeHistoryExtends | internal/api/sync.go:110-119 | The history loop only extends the store, on behalf of the pushing user. |
| PushProps.MergeCategoriesExtends | internal/api/sync.go:202-206 | The category loop only extends the store, on behalf of the pushing user. |
| PushProps.MergeFavouritesExtends | internal/api/sync.go:208-235 | The favourite loop, placeholders included, only extends the store, on behalf of the pushing user. |
| PushProps.PushSetsOwnSyncTimestamp | internal/api/sync.go:109-239 | The push sets the pushing user's timestamp for its resource to `now`, when the user row exists. No other user field or user row changes. |
| PushProps.PushTimestampRead | internal/api/sync.go:264-272 | After a push, getTimestamp returns `now` for the pushed resource and the old value for the other resource. |
| PushProps.PushLeavesOtherUsersReads | internal/api/sync.go:429-498 | For any other user, the push leaves the per-user part of what the GET endpoints read unchanged: the history, category and favourite key sets, their rows, and both timestamps. The shared manga and tag rows those reads join in can change, and this lemma does not cover them. |
| PushProps.OtherUsersUnchangedReads | internal/api/sync.go:429-498 | When a change leaves another user's rows alone, that user's history, category and favourite key sets and rows read the same. |
| PushProps.MergeHistoryCovers | internal/api/sync.go:110-119 | After the history loop, every pushed row is stored or beaten by a stored row that is not older. |
| PushProps.MergeCategoriesCovers | internal/api/sync.go:202-206 | After the category loop, every pushed category is stored or beaten by one that is not older. |
| PushProps.MergeFavouritesCovers | internal/api/sync.go:208-235 | After the favourite loop, every pushed favourite is stored or beaten by one that is not older. Its category exists, and so does its manga when only a non-zero id was sent. |
| PushProps.HistoryPushCoversEveryItem | internal/api/sync.go:109-122 | After a history push, every item is covered. |
| PushProps.FavouritesPushCoversEveryItem | internal/api/sync.go:201-239 | After a favourites push, every category and every favourite is covered, with its placeholders in place. |
| PushProps.HistoryPushCreatesNoManga | internal/api/sync.go:109-122 | A history push whose items carry no manga object leaves the manga table unchanged: no placeholder is created on this path. |
| PushProps.PushWellFormed | internal/api/sync.go:109-239 | A push keeps the store well formed. Every row carries its key, tag links point at existing manga and tags, and every favourite's category exists. |
| Replay.Present | internal/api/sync.go:326-346 | INSERT-if-missing keeps a stored value, and otherwise takes the later one. |
| Replay.HistoryFoldAt | internal/api/sync.go:110-119 | After a run of history upserts, each key holds the row HistoryWins picks between its stored row and what the same items leave in an empty table. |
| Replay.HistoryFoldIdempotent | internal/api/sync.go:110-119 | Upserting the same history items a second time changes nothing, even when keys repeat within the items. |
| Replay.CategoryFoldAt | internal/api/sync.go:202-206 | After the category loop, each key holds the row CategoryWins picks between its stored row and what the same categories leave in an empty table. |
| Replay.CategoryFoldIdempotent | internal/api/sync.go:202-206 | Running the category loop a second time changes nothing. |
| Replay.EnsureCategoryFoldAt | internal/api/sync.go:226-230 | The placeholder categories never touch a stored category. A missing one gets what the same favourites leave in an empty table. |
| Replay.EnsureCategoryFoldIdempotent | internal/api/sync.go:226-230 | Creating the same placeholder categories a second time changes nothing. |
| Replay.CategoriesAbsorbPlaceholders | internal/api/sync.go:202-230 | Re-running the category loop over the first run's placeholders changes nothing. Every category the loop touches existed before the placeholders were added. |
| Replay.FavouriteFoldAt | internal/api/sync.go:232-235 | After the favourite upserts, each key holds the row FavouriteWins picks between its stored row and what the same favourites leave in an empty table. |
| Replay.FavouriteFoldIdempotent | internal/api/sync.go:232-235 | Upserting the same favourites a second time changes nothing. |
| Replay.LastFull | internal/api/sync.go:274-306 | The last manga sent in full under an id is one of the writes and carries that id. When there is none, no full write carries that id. |
| Replay.MangaFoldAt | internal/api/sync.go:208-223 | Each manga row ends up as the last manga sent in full under its id. Failing that, it is the stored row. Failing that, it is a placeholder when a bare id asked for one, and otherwise missing. |
| Replay.MangaFoldIdempotent | internal/api/sync.go:208-223 | Repeating the same manga writes changes nothing. |
| Replay.LinkTagsTagTable | internal/api/sync.go:293-304 | The tag loop overwrites the tag table with the sent tags, the last one per id standing. |
| Replay.UpsertMangaParts | internal/api/sync.go:274-306 | upsertManga writes the manga row, the sent tags over the tag table and the sent links into the link set, and nothing else. |
| Replay.HistoryItemParts | internal/api/sync.go:110-119 | One history item writes its history row and its manga write, and nothing else. |
| Replay.MergeHistoryParts | internal/api/sync.go:110-119 | The history loop writes the history fold, the manga fold, and the tags and links of the manga it was sent, and nothing else. |
| Replay.MergeCategoriesParts | internal/api/sync.go:202-206 | The category loop changes only the categories table, which becomes the category fold. |
| Replay.FavouriteMangaParts | internal/api/sync.go:212-223 | The manga branch of one favourite is its manga write. |
| Replay.CategoryThenFavouriteParts | internal/api/sync.go:226-233 | ensureCategoryExists followed by upsertFavourite writes the placeholder category and the favourite row, and nothing else. |
| Replay.FavouriteItemParts | internal/api/sync.go:208-235 | One favourite writes its favourite row, its placeholder category and its manga write, and nothing else. |
| Replay.MergeFavouritesParts | internal/api/sync.go:208-235 | The favourite loop writes the favourite fold, the placeholder categories, the manga fold, and the tags and links of the manga it was sent, and nothing else. |
| Replay.HistoryPushIdempotent | internal/api/sync.go:105-122 | A history push replayed with a second clock reading leaves the store as a single push at that reading would. Only the sync timestamp moves. |
| Replay.MergeFavouritesAbsorbs | internal/api/sync.go:208-235 | A replayed favourite loop leaves its own result unchanged, whatever the users table holds by then. |
| Replay.MergeCategoriesAbsorbs | internal/api/sync.go:202-235 | A replayed category loop leaves the result of the first run's category and favourite loops unchanged. |
| Replay.FavouritesPushIdempotent | internal/api/sync.go:188-239 | A favourites push replayed with a second clock reading leaves the store as a single push at that reading would. Only the sync timestamp moves. |
| Replay.PushIdempotent | internal/api/sync.go:105-239 | A client that replays a push, for instance after losing the response, reads the clock again. The replay leaves the store exactly as one push at the later time would: every row is as the first push left it, and only the pushing user's sync timestamp moves to the new reading. |
| Sorting.CategoryKeyOrdersById | internal/api/sync.go:191-193 | Sorted by the category key iff sorted by id. |
| Sorting.FavouriteKeyOrdersByMangaThenCategory | internal/api/sync.go:194-199 | Sorted by the favourite key iff sorted by manga id, then category id. |
| Sorting.SortByKey | internal/api/sync.go:190-199 | Afterwards the array is sorted by the key and is a permutation of its old contents. |
| Sync.FetchTags | internal/api/sync.go:519-539 | Returns exactly the stored tags linked to the manga, each once, in some order. |
| Sync.FetchManga | internal/api/sync.go:500-517 | Returns no manga for an unknown id. Otherwise returns the stored row with exactly its linked tags. |
| Sync.FetchHistory | internal/api/sync.go:429-453 | Returns one entry per history row of the user, each the stored row with its user id and its manga as fetchManga reads it. |
| Sync.FetchCategories | internal/api/sync.go:456-471 | Returns one entry per category of the user, each the stored row. |
| Sync.FetchFavourites | internal/api/sync.go:473-495 | Returns one entry per favourite of the user, each the stored row with its manga. |
| Sync.FetchFavouritesAndCategories | internal/api/sync.go:455-498 | Returns the user's categories and favourites, as the two reads above. |
| Sync.Store.Restore | internal/api/sync.go:58 | The rollback puts every table back as it was when the attempt began. |
| Sync.Store.UpsertTag | internal/api/sync.go:348-357 | Performs `Merge.UpsertTag`: the tag is overwritten unconditionally. |
| Sync.Store.UpsertManga | internal/api/sync.go:274-306 | Performs `Merge.UpsertManga` in place. The tag loop keeps the invariant that the store equals the fold over the tags processed so far. |
| Sync.Store.EnsureMangaExists | internal/api/sync.go:310-326 | Performs `Merge.EnsureMangaExists` in place. |
| Sync.Store.EnsureCategoryExists | internal/api/sync.go:330-346 | Performs `Merge.EnsureCategoryExists` in place. |
| Sync.Store.UpsertHistory | internal/api/sync.go:359-381 | Performs `Merge.UpsertHistory` in place. |
| Sync.Store.UpsertCategory | internal/api/sync.go:383-405 | Performs `Merge.UpsertCategory` in place. |
| Sync.Store.UpsertFavourite | internal/api/sync.go:407-427 | Performs `Merge.UpsertFavourite` in place. |
| Sync.Store.HistoryTxBody | internal/api/sync.go:109-122 | The history transaction body leaves the store equal to `ApplyPush` of the history push. |
| Sync.Store.FavouriteTxItem | internal/api/sync.go:208-235 | One iteration of the favourite loop performs `Merge.FavouriteItem` in place. |
| Sync.Store.CategoriesTx | internal/api/sync.go:202-206 | The category loop performs `Merge.MergeCategories` in place. |
| Sync.Store.FavouritesTx | internal/api/sync.go:208-235 | The favourite loop performs `Merge.MergeFavourites` in place. |
| Sync.Store.FavouritesTxBody | internal/api/sync.go:201-239 | The favourites transaction body leaves the store equal to `ApplyPush` of the favourites push. All categories are written before any favourite. |
| Sync.Store.RunPush | internal/api/sync.go:109-239 | Runs the body of either push, giving `ApplyPush`. |
| Sync.Store.WithTxRetry | internal/api/sync.go:36-67 | Returns exactly the run `TxRetry` specifies. On success the store holds the push applied once. On failure the store is unchanged. Well-formedness is kept. |
| Sync.Store.GetHistoryTimestamp | internal/api/sync.go:264-272 | Returns the user's history timestamp, or nothing when the user row is missing. |
| Sync.Store.GetFavouritesTimestamp | internal/api/sync.go:264-272 | Returns the user's favourites timestamp, or nothing when the user row is missing. |
| Sync.Store.GetHistory | internal/api/sync.go:69-92 | Returns the user's history list and the stored history timestamp. |
| Sync.Store.GetFavourites | internal/api/sync.go:148-170 | Returns the user's categories, favourites and stored favourites timestamp. |
| Sync.Store.PostHistory | internal/api/sync.go:94-146 | The run is the one withTxRetry specifies. A package is returned iff the transaction committed. The store then holds the push, and otherwise is unchanged. The package holds the user's merged history and `now`. |
| Sync.Store.PostFavourites | internal/api/sync.go:172-260 | Both request arrays end sorted, as permutations of what was sent. The sorted push is merged with withTxRetry. A package is returned iff it committed, holding the merged categories and favourites and `now`. |

## Left out

- HTTP handling is not modelled: routing, the user id from the auth context, the 401/400/500 answers, JSON decoding and encoding, and logging. A handler's error answer is modelled as no package.
- The SQL text and the dialect detection (`isMySQL`) are not modelled. The dialect is a parameter. Both dialects' statements are modelled, and the MySQL `IF` chains are proved to write the same rows as SQLite's `WHERE` form.
- The clock (`time.Now`) and the retry back-off (`time.Sleep`) are not modelled. `now` is a parameter.
- Real transactions, isolation and concurrent requests are not modelled. An attempt's outcome (BEGIN fails, body fails, COMMIT fails, commits) comes from a script. A failed attempt runs the body and then restores the snapshot taken at BEGIN.
- Individual statement errors inside the body are not modelled, including a failed placeholder insert. They appear only as the scripted BodyFails outcome, so every upsert is total.
- Sync.Store.GetHistoryTimestamp: a failed scan in getTimestamp is not modelled separately from a missing user row. Both give nothing.
- Sync.Store.PostHistory: a read error after commit (a 500 although the write is durable) is not modelled. The reads are total.
- Sync.Store.PostFavourites: the same holds for the read after commit.
- Foreign-key enforcement by the database schema is not modelled, and neither is the schema itself. Those are not part of this model. Well-formedness covers keys, tag links and favourite categories only.
- Floating-point columns (rating, scroll, percent) are carried as `real` and never computed on.
- Go's `int` is taken as 64 bits wide (the newtype `Int64`).
- Sorting.SortByKey: `sort.Slice` is not stable, so the model fixes only sortedness and the permutation, not the relative order of equal keys, just as Go leaves it open. The merged state can depend on that order when two sent items share a key. The strict `>` keeps the first of two equal favourites, while the `>=` keeps the last of two equal categories. The contracts about a push hold for any order the sort leaves.
- Row order of the fetches is not fixed by the queries (no ORDER BY). The fetch contracts state the contents and that each row appears once, not an order.
- MergeProps.PlaceholderCategoryIsSuperseded: stated only for `created_at > 0`. A real category with `created_at` 0 and a coalesced `deleted_at >= 0` also wins, and one with a negative `created_at` does not.
- The other user fields (password hash, nickname, reset token) are not touched by the sync engine and are not part of the user record here.
