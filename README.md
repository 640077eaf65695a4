# Shopify catalog synchronisation: a Dafny model

`productGetter` copies the product catalog of a Shopify store into the
MySQL table `shopifyapi`. The run has three steps:

1. It fetches every product with the cursor-paginated GraphQL query (`fetchAllProducts`).
2. It deletes the stored rows whose SKU is no longer among the remote first-variant SKUs.
3. For every product it builds a twelve-column row. It is meant to update the stored row when one of ten columns differs, and it inserts the row when its SKU is absent. As written, it updates every stored row (see "## Findings").

The model has these modules:

- `Results`: `Option` and `Result`.
- `OrderedSets`: a JavaScript `Set` as an insertion-ordered sequence, and the order-preserving filter.
- `RemoteCatalog`: the shapes the API returns. The API itself is a function from cursor to page or error.
- `Pagination`: the fetch loop as a method, proved against the recursive `FetchFrom`/`Cursors`.
- `Normalizer`: the row a product yields, `Normalize`, and the loop methods `CollectOptions`/`NormalizeProduct`.
- `CatalogStore`: the table as a value: a SKU order, which the model chooses to be insertion order, plus the rows keyed by SKU. It also holds the statements over it, and the class `Store`, the connection whose methods issue them.
- `Reconciler`: the run as specification functions (`RemoteSkus`, `Pruned`, `SyncFrom`, `Reconcile`, `Run`) and as methods over a `Store`. Each method is proved equal to its function.
- `SyncProperties`: what a run guarantees. This covers the loop as the sequence of records it syncs, and the row each SKU ends with. It also covers the SKU set after a successful run, idempotence and the failure cases.
- `AsWritten`: the change check as the source writes it (see "## Findings").

The database statements run one after another, each on the table the one
before left. The source starts the UPDATE and INSERT callbacks without
awaiting them. The model takes the order the source evidently intends:

1. the change check and UPDATE;
2. the fresh existence count;
3. the INSERT.

The source's UPDATE callback may complete after the second count. Reordering the two changes nothing here, because an UPDATE never changes which SKUs are stored.

The model follows the evidently intended change check. It compares the incoming record with the row stored under its SKU. The source instead compares against the result row of a `COUNT(*)` query. That defect is modelled separately in `AsWritten` and listed under Findings.

A second run over the same catalog leaves the table as the first left it
and ends the same way. It is proved to write nothing when the products' first-variant SKUs are distinct.
Products that share a SKU and differ in one of the ten columns can make it write, even with the intended check. `SyncProperties.SharedSkuRun` shows two UPDATEs for two such products. All products sharing a SKU sync into one row. That row ends with the last product's ten columns, over the `sku` and `url` of the row stored before or, for a new SKU, of the first product (`SyncProperties.SettleSpec`).

A product without variants makes `products.map(...)` at line 121 throw. That happens before any statement is issued, so the run fails with the table untouched. A product without images makes line 145 throw inside the loop. That run fails at that product, after the writes for the products before it.

## Model

| member | source | states |
|---|---|---|
| OrderedSets.Add | productGetter.js:158-164 | `Set.prototype.add`: the members afterwards are the old ones plus the value, still without duplicates; the size grows by one exactly when the value is new |
| OrderedSets.FromSeq | productGetter.js:150-170 | a Set built by adding values one by one has no duplicates, holds exactly the values added, and is no longer than the input |
| OrderedSets.FromSeqOrder | productGetter.js:150-171 | `[...set]` lists the members in the order of their first addition |
| OrderedSets.Except | productGetter.js:128 | the filter keeps exactly the elements not in the second list, keeps duplicate-freedom, and never lengthens the list |
| OrderedSets.ExceptOrder | productGetter.js:128 | the filter keeps the survivors in their original order |
| OrderedSets.ExceptNothing | productGetter.js:128 | filtering against an empty remote list keeps every stored SKU, in order |
| OrderedSets.ExceptCovered | productGetter.js:128 | when every element is in the second list, the filter leaves nothing |
| Pagination.PrependLaws | productGetter.js:107 | `products.concat(...)` is associative and has the empty list as unit, on results that may be errors |
| Pagination.FetchAllProducts | productGetter.js:93-114 | the while loop returns exactly what the recursive definition does: all edges concatenated page after page, or the error of the first failing query. It also sends exactly the recursively defined sequence of cursors |
| Pagination.CursorsChain | productGetter.js:94-111 | exactly `n` requests are sent. The first uses the `null` cursor; each later one uses the previous page's `endCursor`. Every page but the last reports a next page, and the last answer reports none or is an error |
| Pagination.StopsUnique | productGetter.js:98-111 | the number of requests is determined by the API's answers |
| Pagination.ServedCatalog | productGetter.js:94-113 | when the API serves pages 1..n along the cursor chain, with pages 1..n-1 reporting a next page and page n none, the loop terminates after n requests. It returns all pages' edges in page order |
| Normalizer.ImageUrlsSpec | productGetter.js:142 | the image list is the `originalSrc` of every image edge, in order |
| Normalizer.Normalize | productGetter.js:141-173 | a product yields a row exactly when it has an image and a variant. It fails with MissingImage exactly when the image list is empty (line 145 throws), and otherwise with MissingVariant (line 146) |
| Normalizer.AddMatchingFromSeq | productGetter.js:155-169 | adding a variant's matching option values one by one to a set is building the set of all values so far |
| Normalizer.OptionSetIsFromSeq | productGetter.js:150-170 | the set the nested forEach builds is the distinct-values set of all option values with that name, variant by variant |
| Normalizer.CollectOptions | productGetter.js:150-170 | the nested loops over variants and their selected options leave in `sizes`, `colors` and `materials` the Set for `'Size'`, `'Color'` and `'Material'` |
| Normalizer.NormalizeProduct | productGetter.js:141-173 | the imperative normalisation returns the same row or error as `Normalize` |
| Normalizer.MatchingMembership | productGetter.js:155-167 | a value is collected from one variant's options iff an option has exactly that name and value |
| Normalizer.OptionValuesMembership | productGetter.js:154-170 | a value is collected iff some variant has an option with exactly that name and value |
| Normalizer.OptionSet | productGetter.js:150-173 | each of the size, color and material sets holds exactly the values of options named precisely `'Size'`, `'Color'` or `'Material'`, with no duplicates and in first-appearance order |
| Normalizer.OtherNamesIgnored | productGetter.js:166-167 | an option with any other name contributes nothing |
| Normalizer.NormalizeFields | productGetter.js:141-148 | the image list is every `originalSrc` in order and `url` is its first entry. Price, quantity and SKU are the first variant's; title, description, category and status are copied |
| Normalizer.FirstVariantOnly | productGetter.js:145-148 | replacing every variant after the first changes neither price, quantity, SKU nor the image fields |
| Normalizer.AggregationExample | productGetter.js:150-173 | two variants with Size M / Color Red and Size M / Material Cotton / Fit Slim give sizes `["M"]`, colors `["Red"]`, materials `["Cotton"]` |
| CatalogStore.OccurrencesNoDup | productGetter.js:174 | in a table with unique SKUs, `COUNT(*) ... WHERE sku = ?` is 1 for a stored SKU and 0 otherwise |
| CatalogStore.UnchangedIffUpdateIsIdle | productGetter.js:182-208 | the check finds no change exactly when rewriting the ten columns with the incoming values would leave the row as it is. So `sku` and `url` are neither compared nor rewritten |
| CatalogStore.UpdatedTwice | productGetter.js:194-208 | a second UPDATE overrides the first. `sku` and `url` keep their stored values, and after an UPDATE the check finds no change against the same record |
| CatalogStore.DeleteWhereSpec | productGetter.js:130-131 | `DELETE ... WHERE sku IN (?)` removes exactly the rows whose SKU is listed, keeps the others as they were, and keeps the table well formed |
| CatalogStore.UpdateWhereSpec | productGetter.js:194-208 | the UPDATE rewrites the ten columns of the row with that SKU, if any. It keeps `url`, every other row and the row order |
| CatalogStore.InsertSpec | productGetter.js:230-233 | the INSERT adds one row, with all twelve columns of the record, after the existing rows, which are kept |
| CatalogStore.Store.SelectSkus | productGetter.js:122-127 | `SELECT sku` returns every stored SKU once, in table order |
| CatalogStore.Store.CountSku | productGetter.js:218-225 | the fresh count is at most 1, and positive exactly when the SKU is stored |
| CatalogStore.Store.FindRow | productGetter.js:180-181 | the row that the change check compares is the one stored under the SKU, if there is one |
| CatalogStore.Store.DeleteIn | productGetter.js:129-138 | the connection's table becomes the DELETE's result and stays well formed |
| CatalogStore.Store.UpdateRow | productGetter.js:194-214 | the connection's table becomes the UPDATE's result and stays well formed |
| CatalogStore.Store.InsertRow | productGetter.js:230-239 | the connection's table becomes the INSERT's result and stays well formed |
| CatalogStore.Store.constructor | productGetter.js:77-83 | a connection to a well-formed table holds that table |
| Reconciler.FirstFailing | productGetter.js:121 | the index where `map` throws: every product before it has a variant, and the product there has none |
| Reconciler.RemoteSkus | productGetter.js:121 | the SKU list exists exactly when every product has a variant, and then holds each product's first-variant SKU in order. Otherwise the run fails at the first product without variants |
| Reconciler.SyncRecord | productGetter.js:174-239 | one loop body on the connection: update if stored and changed, then insert if the fresh count is 0. The new table and the writes are those of `ApplyRecord` and `RecordWrites` |
| Reconciler.SyncProduct | productGetter.js:140-239 | one iteration keeps the loop's invariant: what the rest of the loop leaves, after the writes so far, is what the whole loop leaves; a product that cannot be normalised stops it |
| Reconciler.SyncProducts | productGetter.js:140-240 | the `for` loop leaves the table, writes and stopping error of `SyncFrom` from index 0 |
| Reconciler.DeleteStale | productGetter.js:122-138 | the SELECT, filter and DELETE leave the pruned table and issue the DELETE only when `deletedSkus` is non-empty |
| Reconciler.ReconcileProducts | productGetter.js:121-242 | the run after the fetch produces the table, writes and result of `Reconcile` |
| Reconciler.ProductGetter | productGetter.js:116-252 | the whole run produces the table, writes and result of `Run` on what the fetch loop returns. A failed fetch leaves the table untouched |
| SyncProperties.Skus | productGetter.js:121 | the SKU list of the synced records has one entry per record, in order |
| SyncProperties.LoopIsRecords | productGetter.js:140-240 | the loop's table and writes are those of syncing, one by one, the records up to the first product that cannot be normalised |
| SyncProperties.RowsSpec | productGetter.js:140-240 | the synced records are the normalised products from the start, and the loop stops exactly at the first failure |
| SyncProperties.LoopStops | productGetter.js:140-240 | the loop fails exactly when some product cannot be normalised. It then reports the first one's index and error |
| SyncProperties.ApplyRecordSpec | productGetter.js:174-239 | one iteration stores the record's SKU: the ten columns are rewritten over a stored row, or the whole record is inserted after the others. Every other row is kept and the table stays well formed |
| SyncProperties.QuietIffIdle | productGetter.js:180-239 | an iteration issues no write exactly when it leaves the table as it is, and issues at most one write |
| SyncProperties.ApplyAllSpec | productGetter.js:140-240 | the loop keeps the table well formed and leaves under each SKU the row its records settle on |
| SyncProperties.ApplyAllOrder | productGetter.js:140-240 | the loop keeps stored SKUs in their places; new SKUs come after them |
| SyncProperties.SettleSpec | productGetter.js:193-239 | a SKU no record carries keeps its row. Otherwise it ends with the ten columns of its last record, over the row stored before or over the first record's `sku` and `url` |
| SyncProperties.SettleIdempotent | productGetter.js:193-239 | syncing the same records under one SKU twice is syncing them once |
| SyncProperties.ApplyAllStoredOrder | productGetter.js:218-228 | records whose SKUs are all stored insert nothing and keep the table order |
| SyncProperties.ApplyAllKeys | productGetter.js:218-239 | after the loop the stored SKUs are the earlier ones plus every record's SKU |
| SyncProperties.ApplyAllIdempotent | productGetter.js:140-240 | running the loop over the same records twice leaves the table as once does |
| SyncProperties.NoWritesWhenSettled | productGetter.js:182-228 | records that all find their row stored and unchanged cause no write and no change |
| SyncProperties.SettledAfterLoop | productGetter.js:140-240 | after the loop over records with distinct SKUs, each record finds its row stored and unchanged |
| SyncProperties.DeletedSkusSpec | productGetter.js:121-138 | `deletedSkus` holds exactly the stored SKUs that are not remote first-variant SKUs, once each, in table order. The DELETE is not issued exactly when there is none |
| SyncProperties.PrunedSpec | productGetter.js:128-138 | after the DELETE the table holds exactly the stored rows whose SKU is remote, unchanged, and is well formed |
| SyncProperties.NormalizedFacts | productGetter.js:141-148 | each product normalises iff it has an image and a variant. Its error says which is missing, and its record's SKU is the first variant's |
| SyncProperties.RecordsAre | productGetter.js:140-240 | when no product fails, the synced records are the normalised products, index for index |
| SyncProperties.RecordSkus | productGetter.js:121 | when no product fails, the synced records' SKUs are the remote first-variant SKUs, in order |
| SyncProperties.SuccessfulRun | productGetter.js:121-240 | a successful run syncs every product's record, after the DELETE |
| SyncProperties.EndState | productGetter.js:128-240 | after a successful run the table is well formed and its SKU set equals the set of remote first-variant SKUs |
| SyncProperties.RowAfterRun | productGetter.js:193-239 | with distinct SKUs, each product's row after the run is its record over the stored row (keeping `url`), or the record itself when the SKU was new |
| SyncProperties.Idempotent | productGetter.js:121-242 | a second run over the same catalog leaves the table as the first left it and ends with the same result, whether the first run succeeded or stopped at a product without variants or images. When the first-variant SKUs are distinct it issues no write at all |
| SyncProperties.SecondRunPrunesNothing | productGetter.js:121-140 | after a first run that got past the SKU extraction, every stored SKU is remote, so the second run issues no DELETE and prunes nothing |
| SyncProperties.SecondRunTable | productGetter.js:140-240 | the second run's loop leaves the table as the first run left it |
| SyncProperties.SecondRunResult | productGetter.js:140-242 | the second run stops at the same product as the first, or succeeds as the first did |
| SyncProperties.SecondRunQuiet | productGetter.js:182-239 | with distinct first-variant SKUs, the second run finds every row stored and unchanged and writes nothing |
| SyncProperties.RecordSkusPrefix | productGetter.js:121 | the synced records' SKUs are a prefix of the remote first-variant SKU list; they are all remote, and distinct when the remote SKUs are |
| SyncProperties.RecordSkuAt | productGetter.js:121-148 | each synced record's SKU is the remote SKU at its index |
| SyncProperties.SharedSkuLoop | productGetter.js:140-239 | two records with one SKU and different titles, synced into an empty table, give an INSERT then an UPDATE. A second pass over them leaves the table as it is but issues two UPDATEs |
| SyncProperties.TwoProducts | productGetter.js:121-148 | two products with one first-variant SKU and different titles normalise to two records with that SKU and different titles, and give the SKU list with that SKU twice |
| SyncProperties.SharedSkuRun | productGetter.js:116-242 | a catalog of two products sharing a first-variant SKU, with different titles, makes the second run issue two UPDATEs although it leaves the table as it is |
| SyncProperties.FailedRun | productGetter.js:121-242 | a failed run stops either at the first product without variants, before any write and with the table untouched, or at the first product without images, after syncing the products before it |
| SyncProperties.FailedLoop | productGetter.js:140-240 | a failing loop stops at the first product without images, after syncing those before it |
| SyncProperties.LoopFails | productGetter.js:140-240 | a failing loop stops at the first record that cannot be built, after syncing those before it |
| SyncProperties.EmptyCatalog | productGetter.js:121-242 | with no remote product the run deletes every stored row in one DELETE, issues nothing else, and succeeds |
| SyncProperties.PruneAll | productGetter.js:128-138 | with no remote SKU the DELETE lists every stored SKU and empties the table |
| SyncProperties.DeleteEverything | productGetter.js:130-131 | deleting every stored SKU empties the table |
| Pagination.FetchFrom | productGetter.js:93-114 | no contract; the result of the loop from a cursor, whose properties are proved in Pagination.FetchAllProducts and Pagination.ServedCatalog |
| Pagination.Cursors | productGetter.js:98-111 | no contract; the cursors the loop sends, whose properties are proved in Pagination.CursorsChain and Pagination.FetchAllProducts |
| Normalizer.ImageUrls | productGetter.js:142 | no contract; its properties are proved in Normalizer.ImageUrlsSpec |
| Normalizer.Matching | productGetter.js:155-167 | no contract; the matching values of one variant's options, whose properties are proved in Normalizer.MatchingMembership and Normalizer.OtherNamesIgnored |
| Normalizer.AddMatching | productGetter.js:155-169 | no contract; its properties are proved in Normalizer.AddMatchingFromSeq |
| Normalizer.OptionSetOf | productGetter.js:150-170 | no contract; its properties are proved in Normalizer.OptionSetIsFromSeq, Normalizer.OptionSet and Normalizer.CollectOptions |
| CatalogStore.Occurrences | productGetter.js:174 | no contract; `COUNT(*) ... WHERE sku = ?`, whose properties are proved in CatalogStore.OccurrencesNoDup and CatalogStore.Store.CountSku |
| CatalogStore.HasChanged | productGetter.js:182-191 | no contract; the intended ten-field change check, whose properties are proved in CatalogStore.UnchangedIffUpdateIsIdle and SyncProperties.QuietIffIdle |
| CatalogStore.Updated | productGetter.js:194-208 | no contract; the row after the UPDATE's ten assignments, whose properties are proved in CatalogStore.UpdatedTwice and CatalogStore.UnchangedIffUpdateIsIdle |
| CatalogStore.DeleteWhere | productGetter.js:130-131 | no contract; its properties are proved in CatalogStore.DeleteWhereSpec |
| CatalogStore.UpdateWhere | productGetter.js:194-208 | no contract; its properties are proved in CatalogStore.UpdateWhereSpec |
| CatalogStore.Insert | productGetter.js:230-233 | no contract; its properties are proved in CatalogStore.InsertSpec |
| Reconciler.ApplyRecord | productGetter.js:174-239 | no contract; the table after one loop body, whose properties are proved in SyncProperties.ApplyRecordSpec and SyncProperties.QuietIffIdle |
| Reconciler.RecordWrites | productGetter.js:174-239 | no contract; the writes of one loop body, whose properties are proved in SyncProperties.QuietIffIdle |
| Reconciler.DeletedSkus | productGetter.js:128 | no contract; its properties are proved in SyncProperties.DeletedSkusSpec |
| Reconciler.Pruned | productGetter.js:129-138 | no contract; its properties are proved in SyncProperties.PrunedSpec and SyncProperties.PruneAll |
| Reconciler.Deletes | productGetter.js:129-138 | no contract; its properties are proved in SyncProperties.DeletedSkusSpec and SyncProperties.PruneAll |
| Reconciler.Normalized | productGetter.js:140-173 | no contract; its properties are proved in SyncProperties.NormalizedFacts |
| Reconciler.SyncFrom | productGetter.js:140-240 | no contract; the product loop, whose properties are proved in SyncProperties.LoopIsRecords, SyncProperties.LoopStops and Reconciler.SyncProducts |
| Reconciler.Reconcile | productGetter.js:121-242 | no contract; the run after the fetch, whose properties are proved in SyncProperties.EndState, SyncProperties.Idempotent and SyncProperties.FailedRun |
| Reconciler.Run | productGetter.js:116-252 | no contract; the whole run, whose relation to the imperative run is proved in Reconciler.ProductGetter |
| AsWritten.CountRow | productGetter.js:174-175 | no contract; the single row of the COUNT(*) result, used in AsWritten.AlwaysChanged |
| AsWritten.HasChangedAsWritten | productGetter.js:180-191 | no contract; the change check as written, proved always true on the COUNT row in AsWritten.AlwaysChanged |
| AsWritten.ApplyRecordAsWritten | productGetter.js:174-239 | no contract; the loop body as written, proved to leave the same table as the intended one in AsWritten.SameTable |
| AsWritten.RecordWritesAsWritten | productGetter.js:174-239 | no contract; the writes as written, characterised in AsWritten.UpdateForEveryRecord and AsWritten.StoredRowStillUpdated |
| AsWritten.AlwaysChanged | productGetter.js:174-191 | read against the COUNT(*) row, the check finds a change for every record, whatever the table holds |
| AsWritten.UpdateForEveryRecord | productGetter.js:174-239 | as written, every record issues an UPDATE, and a new SKU also gets the INSERT |
| AsWritten.SameTable | productGetter.js:174-239 | as written, the table after each iteration is the same as with the intended check; only the writes differ |
| AsWritten.StoredRowStillUpdated | productGetter.js:174-215 | a record that is already stored unchanged issues no write under the intended check, but as written it still issues an UPDATE |

## Left out

- The Express endpoint `GET /api/products` and the port listener (productGetter.js:9-26) are HTTP plumbing, outside the synchronisation.
- The MySQL connection setup and connect callback (productGetter.js:77-91) and the SQL text are not modelled. The table is a value, and each statement is a function on it.
- The `node-cron` schedule and the session built from environment variables (productGetter.js:254-269) are outside triggers and configuration.
- The GraphQL query text and the Shopify client (productGetter.js:28-75, 99-104, 117) are replaced by the API function from cursor to page or error. The fields the query selects are the fields of the `RemoteCatalog` shapes. Variant metafields are fetched but never read.
- The rewrapping of a `GraphqlQueryError` with `JSON.stringify(error.response)` (productGetter.js:243-251) is not modelled. A failed fetch is the error result `FetchFailed` carrying the client's error, and the run aborts with it.
- Concurrency: the unawaited DELETE, UPDATE and INSERT callbacks are not modelled, and neither are their error logging or `console.*` output. Statements run in program order, so the model does not capture interleavings or a DELETE that has not finished when the loop starts.
- Database errors are not modelled. Every statement succeeds. A rejected `SELECT sku` or second COUNT, which throws in the source, is not represented.
- `JSON.stringify` is not modelled. The image list and the three option sets are kept as `seq<string>`. Comparing two serialised texts is comparing the lists, since the serialisation is injective.
- `price` stays text. `inventoryQuantity` is an unbounded integer.
- Column types and collation are not modelled. A stored value reads back as the value written, so the intended check compares like with like, and SKUs compare exactly.
- Row order is a choice of the model, not a promise of the program. `SELECT sku` (productGetter.js:123) has no `ORDER BY`, so SQL returns the rows in no specified order. The model keeps insertion order: a new SKU is appended, and a DELETE keeps the survivors in place. The statements about order rely on that choice: "after the existing rows" and "in table order" in CatalogStore.InsertSpec, SyncProperties.ApplyAllOrder, SyncProperties.ApplyAllStoredOrder, CatalogStore.Store.SelectSkus and SyncProperties.DeletedSkusSpec. No property about which SKUs or rows are stored depends on it.
- A missing or `null` SKU on a first variant is not modelled. SKUs are strings.
- CatalogStore.Store.InsertRow: requires that the SKU be absent. The one caller runs the fresh count first, so the duplicate-row insert that the table would otherwise accept is never reached.
- Pagination.FetchAllProducts: the loop's termination relies on the API's answers (the `Stops` precondition, with the request count `n` as a ghost parameter). An API that reports a next page forever is not covered; the source would loop forever on it.

## Findings

| source | as written | input that shows it | evidently intended | confidence | as-written member | corrected member |
|---|---|---|---|---|---|---|
| productGetter.js:174-193 | The change check reads `title`, `description` and the other columns from `results[0]` of `SELECT COUNT(*) AS count`. That row has only `count`, so every column is `undefined` and every `!==` is true. Also `results.length > 0` always holds. So an UPDATE is issued for every product on every run | a table whose only row is `r`, filed under `r.sku`, and a product that normalises to `r` itself | compare the record with the stored row, so an unchanged product issues no UPDATE, and a second run over the same catalog writes nothing when its first-variant SKUs are distinct | not executed | AsWritten.StoredRowStillUpdated | SyncProperties.QuietIffIdle |

The corrected definition is `CatalogStore.HasChanged`, which compares against the stored row, together with the writes it decides, `Reconciler.RecordWrites`. The rest of the model uses it, and `SyncProperties.Idempotent` proves that a second run issues no write when the products' first-variant SKUs are distinct.
