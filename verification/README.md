# Paccafe warehouse pipeline, modelled in Dafny

This project models the warehouse leg of the Paccafe ETL pipeline:

- `extract_staging` reads each staging table incrementally. It reads the rows whose `created_at` is later than the table's watermark. The watermark is the latest successful warehouse load recorded in `etl_log`, or the sentinel `1111-01-01` when there is none.
- Six transforms turn staging frames into the warehouse dimensions (`dim_customers`, `dim_employees`, `dim_store_branch`, `dim_products`) and facts (`fct_order`, `fct_inventory`).
- `load_warehouse` upserts each frame, keyed by its natural key, into a warehouse table.
- The helpers do the bookkeeping:
  - `etl_log` appends one log row;
  - `read_etl_log` reads the `MAX(etl_date)` query;
  - `handle_error` parks a failed frame as a CSV object in a MinIO bucket.
- `warehouse_pipeline` chains everything.

The model works as follows:

- **Frames.** A pandas DataFrame is a `Frames.Frame`: a sequence of column labels and a sequence of rows of cells (`Null`, text, integer, timestamp).
- **Frame operations.** Each pandas operation the transforms use (`rename`, `drop_duplicates`, `dropna`, `isin`, a left `merge`, `apply`, `set_index`) is a pure function with its own contract. Every one of them except `rename` raises a `KeyError` on a missing column, as pandas does; `rename` ignores labels the frame lacks.
- **Stores.** The log database, the staging and warehouse databases and the object store are a single object, `Helper.Stores`. Its fields are:
  - the `etl_log` rows;
  - the buckets;
  - the parked objects;
  - the warehouse tables;
  - a flag per store saying whether it answers.

  Stage functions that write to these stores are methods on `Stores`, or methods that take it as a parameter.
- **Transforms.** Each transform's `try` block is a pure function `Transform`. It returns `Built(frame)`, or `Broke(error, frame)`: the exception, together with the frame `data` held when the exception was raised. The shared `except`/`finally` bookkeeping is the method `TransformStage.Finish`.

Properties the model proves:

- Every stage writes exactly one `etl_log` row when the log database answers, and none when it does not.
- A failed frame is parked under a dated object name, and that name can be parsed back to the failure time.
- The two deduplicating dimensions keep the first row of each natural key and are idempotent.
- `dim_employees` and `dim_products` do not deduplicate, so repeated keys reach the output.
- The price cleaning removes every dash.
- Both fact transforms fail on every input: the rename moves the join column away before the merge names it.
- The pipeline hands each transform the frame the source passes it: products gets the untransformed `store_branch` frame, and `fct_inventory` the untransformed products frame. Each load writes its own transform's result under its own key.
- The extraction watermark never advances: the staging table names never ILIKE-match the warehouse table names that loads log.
- As written, `warehouse_pipeline` always ends in an exception, and it never loads anything (see Findings).

## Model

| member | source | states |
|---|---|---|
| Timestamps.StampRoundTrip | src/utils/helper.py:73 | the `%Y-%m-%d %H:%M:%S` rendering of a valid time parses back to that time |
| Timestamps.StampInjective | src/utils/helper.py:73 | two distinct valid times never render to the same stamp |
| Timestamps.DigitsRoundTrip | src/utils/helper.py:73 | a zero-padded field of width w reads back as the number it was rendered from |
| Timestamps.Later | src/utils/helper.py:42-50 | the later of two times is one of them and not before either (the step of MAX) |
| Timestamps.BeforeTransitive | src/utils/helper.py:42-50 | the order MAX(etl_date) compares by is transitive |
| Helper.GetDbConnection | src/utils/helper.py:14-22 | an engine exists exactly for 'source', 'staging', 'warehouse' and 'log', bound to that database; any other name yields None |
| Helper.Event | src/warehouse/extract/extract.py:33-51 | a log row has status "success" without an error message and "failed" with one, and carries the step, component, table and time given |
| Helper.ILikeWithoutPercent | src/utils/helper.py:47 | a pattern without '%' ILIKE-matches exactly the texts of its length that agree case-insensitively at every non-'_' position |
| Helper.LatestDate | src/utils/helper.py:42-50 | MAX(etl_date) over the matching rows: NULL exactly when no row matches, otherwise the date of a matching row that no matching row exceeds |
| Helper.UnmatchedEventKeepsLatest | src/utils/helper.py:42-50 | appending a log row outside the filter leaves the maximum unchanged |
| Helper.ReadEtlLog | src/utils/helper.py:33-60 | with the log database reachable, the one-row MAX answer; without it, an empty frame |
| Helper.ObjectNameSpec | src/utils/helper.py:92 | the dead-letter name starts with `step_component_table_`, ends in `.csv`, and its 19-character stamp parses back to the failure time |
| Helper.Stores.EtlLog | src/utils/helper.py:25-31 | appends exactly the event when the log database answers; otherwise changes nothing and never raises |
| Helper.Stores.HandleError | src/utils/helper.py:72-101 | the object store down raises a connection error and changes nothing; otherwise the bucket exists afterwards; a frame is appended as one object named `ObjectName` in that bucket; a None frame raises after the bucket is made; every parked object stays in an existing bucket |
| Frames.IndexOf | src/warehouse/transform/transform_dim_customers.py:22 | the first position of a label, None exactly when the label is absent |
| Frames.Column | src/warehouse/transform/transform_dim_customers.py:22 | a missing label is a KeyError naming it; otherwise the label's position |
| Frames.Columns | src/warehouse/transform/transform_dim_employees.py:25 | succeeds exactly when every label is present; otherwise a KeyError naming a missing one |
| Frames.RelabelAll | src/warehouse/transform/transform_dim_customers.py:11-19 | each label is mapped through the rename map, unmapped labels kept, length unchanged |
| Frames.Rename | src/warehouse/transform/transform_dim_customers.py:11-19 | `rename(columns=…)` keeps every row and relabels each column position through the map |
| Frames.RenamedAway | src/warehouse/transform/transform_fct_order.py:11-20 | a label the map moves away, and that no entry maps to, is absent after the rename |
| Frames.RenamedTo | src/warehouse/transform/transform_dim_customers.py:11-19 | a present label's image is present after the rename |
| Frames.RenamedLabels | src/warehouse/transform/transform_dim_customers.py:11-19 | a label is present after the rename exactly when some input label maps to it |
| Frames.RenameAgrees | src/warehouse/transform/transform_dim_customers.py:11-19 | two maps that agree on every label rename identically (identity entries change nothing) |
| Frames.RenameLookup | src/warehouse/transform/transform_dim_employees.py:14-22 | when exactly one label is renamed to d, looking up d after the rename reads the cell that label read before |
| Frames.RenameKeeps | src/warehouse/transform/transform_dim_employees.py:14-25 | a label the map neither moves nor produces is present after the rename exactly when it was before |
| Frames.Where | src/warehouse/extract/extract.py:29 | keeps exactly the rows satisfying the condition, each as often as the input holds it, in their order |
| Frames.WhereNotIn | src/warehouse/transform/transform_dim_employees.py:11 | `data[~data[c].isin(values)]`: KeyError exactly when c is absent; otherwise exactly the rows whose cell is not among the values, in order |
| Frames.DropNa | src/warehouse/transform/transform_dim_employees.py:25 | `dropna(subset=…)`: KeyError naming a missing label; otherwise exactly the rows with no null in the subset, in order |
| Frames.WhereNotInCounts | src/warehouse/transform/transform_dim_employees.py:11 | each row that passes the `isin` filter survives as often as the input holds it; the others not at all |
| Frames.DropNaCounts | src/warehouse/transform/transform_dim_employees.py:25 | each complete row survives `dropna` as often as the input holds it; the others not at all |
| Frames.Positions | src/warehouse/transform/transform_dim_products.py:32 | the ascending positions of exactly the rows a filter keeps |
| Frames.WherePositions | src/warehouse/transform/transform_dim_products.py:32 | a filter keeps, in order, exactly the rows at those positions |
| Frames.DropNaPositions | src/warehouse/transform/transform_dim_products.py:32 | `dropna` keeps, in order and unaltered, exactly the rows at the complete positions |
| Frames.PositionsAgree | src/warehouse/transform/transform_dim_products.py:28-32 | row lists whose tests agree row by row keep the same positions |
| Frames.Keys | src/warehouse/transform/transform_dim_customers.py:22 | the set of values a column takes over the rows |
| Frames.Dedupe | src/warehouse/transform/transform_dim_customers.py:22 | an ordered subsequence of the rows with the same key set and no key twice |
| Frames.FirstWithKey | src/warehouse/transform/transform_dim_customers.py:22 | a row carrying the key |
| Frames.FirstWithKeyIndex | src/warehouse/transform/transform_dim_customers.py:22 | that row sits at a position no earlier row shares its key with |
| Frames.DedupeKeepsFirst | src/warehouse/transform/transform_dim_customers.py:22 | each kept row is the first input row with its key |
| Frames.DedupeFirstPositions | src/warehouse/transform/transform_fct_order.py:30 | each kept row is an input row with no earlier row of its key |
| Frames.DedupeUnique | src/warehouse/transform/transform_dim_customers.py:22 | rows with distinct keys are kept unchanged |
| Frames.FirstWithKeyUnique | src/warehouse/load/load.py:12 | with keys unique, each row is the first row with its key |
| Frames.KeysAgree | src/warehouse/transform/transform_fct_order.py:27-30 | row sequences that agree on the key column have the same key set |
| Frames.SubseqElements | src/warehouse/transform/transform_dim_employees.py:11 | an ordered subsequence holds only rows of the original |
| Frames.SubseqLength | src/warehouse/transform/transform_dim_employees.py:25 | an ordered subsequence is no longer than the original |
| Frames.SubseqTransitive | src/warehouse/transform/transform_dim_employees.py:11-25 | a subsequence of a subsequence is a subsequence (a filter followed by a dropna) |
| Frames.DropDuplicates | src/warehouse/transform/transform_dim_customers.py:22 | KeyError exactly when the key column is absent; columns unchanged |
| Frames.DropDuplicatesSpec | src/warehouse/transform/transform_dim_customers.py:22 | `drop_duplicates(subset=[c])` keeps the first row of each key, in order: the output has unique keys, every key of the input, and only input rows |
| Frames.DropDuplicatesIdempotent | src/warehouse/transform/transform_dim_customers.py:22 | deduplicating twice equals deduplicating once |
| Frames.Project | src/warehouse/transform/transform_dim_products.py:25 | a projected row holds the chosen cells in the chosen order |
| Frames.Select | src/warehouse/transform/transform_dim_products.py:25 | `df[[…]]`: succeeds exactly when every label is present, else a KeyError naming a missing one; columns are the selection, rows one per input row, each selected cell the input row's cell under that label |
| Frames.DropAt | src/warehouse/transform/transform_dim_products.py:25 | removing one position shortens the sequence by one |
| Frames.Nulls | src/warehouse/transform/transform_dim_products.py:25 | a row of n nulls (the padding of an unmatched left row) |
| Frames.JoinRow | src/warehouse/transform/transform_dim_products.py:25 | one left row yields one output row per matching right row, or one padded row; each begins with the left row |
| Frames.LeftMerge | src/warehouse/transform/transform_dim_products.py:25 | `merge(on=c, how='left')`: KeyError exactly when c is missing on either side; columns are the left's followed by the right's minus c; rows follow the left, each extended by its matches |
| Frames.MergeKeepsLeft | src/warehouse/transform/transform_dim_products.py:25 | every left row begins some output row, every output row begins with a left row, and there are at least as many output rows as left rows |
| Frames.LeftMergeRow | src/warehouse/transform/transform_dim_products.py:25 | every output row is a left row padded with nulls when no right row shares its key, or a left row followed by a right row sharing its key, key cell dropped |
| Frames.UnmatchedRowPadded | src/warehouse/transform/transform_dim_products.py:25 | a left row without a match gets nulls in every right column |
| Frames.MatchedRowJoined | src/warehouse/transform/transform_dim_products.py:25 | a left row with matches yields those right rows, each carrying its key |
| Frames.SetAt | src/warehouse/transform/transform_dim_products.py:28 | overwriting one cell keeps the row length and puts the value there |
| Frames.SetAtElsewhere | src/warehouse/transform/transform_dim_products.py:28 | overwriting one cell leaves every other position alone |
| Frames.Apply | src/warehouse/transform/transform_dim_products.py:28-29 | `df[c] = df[c].apply(g)`: KeyError exactly when c is absent; columns and row count unchanged |
| Frames.ApplyCells | src/warehouse/transform/transform_dim_products.py:28-29 | in each full-width row the c cell becomes g of the old one and every other column is unchanged |
| Frames.ConvertRows | src/warehouse/transform/transform_fct_order.py:27 | a whole-column conversion succeeds row for row, or fails because some cell does not convert |
| Frames.Convert | src/warehouse/transform/transform_fct_order.py:27 | a missing column is a KeyError; a success keeps the columns |
| Frames.ConvertCells | src/warehouse/transform/transform_fct_order.py:27 | when every cell converts, the column is replaced cell by cell and every other column is unchanged |
| Frames.SetIndex | src/warehouse/load/load.py:12 | `set_index(c)`: KeyError exactly when c is absent; otherwise one row per input row, its index the row's c cell, every other label reading the cell it read before |
| Frames.FrontCells | src/warehouse/load/load.py:12 | moving one column in front leaves every other label resolving to the same cell |
| Extract.Watermark | src/warehouse/extract/extract.py:22-25 | an empty answer or a NULL maximum gives '1111-01-01', and any other answer gives its maximum |
| Extract.WatermarkSpec | src/warehouse/extract/extract.py:13-25 | the watermark is the sentinel when the log database is down or no successful warehouse load of the table is logged; otherwise it is the date of one such load and no such load is later |
| Extract.OnlySuccessfulLoadsAdvance | src/warehouse/extract/extract.py:14-18 | a log row that is not a successful warehouse load of the table leaves its watermark unchanged |
| Extract.NewRows | src/warehouse/extract/extract.py:29-32 | `created_at > wm`: an error exactly when the column is missing; otherwise exactly the rows stamped strictly after the watermark, each as often as the table holds it, in order, same columns |
| Extract.WatermarkRowExcluded | src/warehouse/extract/extract.py:29 | a row stamped exactly at the watermark is not extracted again |
| Extract.ExtractStaging | src/warehouse/extract/extract.py:5-55 | returns the query's frame, or None on any failure; logs exactly one extraction event with the matching status; never touches the buckets, the parked objects or the warehouse |
| TransformStage.TransformEvent | src/warehouse/transform/transform_dim_customers.py:24-43 | the `finally` row: component "transformation", the table, "success" exactly when the try block returned, else "failed" with the error |
| TransformStage.Outcome | src/warehouse/transform/transform_dim_customers.py:33-46 | a built frame is returned; a failure returns None when the frame is parked; otherwise handle_error's exception reaches the caller |
| TransformStage.ReturnedFrameIsBuilt | src/warehouse/transform/transform_dim_customers.py:33 | a frame the caller receives is always the try block's result |
| TransformStage.MergeFrom | src/warehouse/transform/transform_fct_order.py:23 | `left.merge(right[keys], on=…)`: None raises, a key column missing from the right is a KeyError naming it, the join column missing from the left is a KeyError on it, and success is the left merge of the selection |
| TransformStage.ToEpoch | src/warehouse/transform/transform_fct_order.py:27 | a timestamp becomes its epoch seconds; NaT raises; success is always an integer |
| TransformStage.EpochConverted | src/warehouse/transform/transform_fct_order.py:27 | on a frame whose dates are all timestamps the conversion succeeds; each row's date becomes epoch seconds; every other cell and the key set are kept |
| TransformStage.EpochRowsFromInput | src/warehouse/transform/transform_fct_order.py:26-30 | every row the fact tail keeps is a converted input row that no earlier input row shares a key with |
| TransformStage.KeptRowsConverted | src/warehouse/transform/transform_fct_inventory.py:23-27 | rows picked first-of-key from the converted rows are conversions of first-of-key input rows |
| TransformStage.EpochThenDedupeSpec | src/warehouse/transform/transform_fct_order.py:26-30 | the date-then-dedupe tail succeeds on timestamp dates; it keeps the columns, one row per key and every key, each row being the first input row of its key with its date in epoch seconds |
| TransformStage.Finish | src/warehouse/transform/transform_dim_customers.py:34-49 | the `except`/`finally` blocks: a success changes only the log; a failure adds the bucket and parks the frame via handle_error; one transformation event is logged either way |
| DimCustomers.RenamesMoveOnlyTheKey | src/warehouse/transform/transform_dim_customers.py:11-19 | the rename moves only `customer_id` to `nk_customer_id` |
| DimCustomers.Transform | src/warehouse/transform/transform_dim_customers.py:9-22 | None raises with nothing to park; a frame is always either built or parked |
| DimCustomers.KeyAfterRename | src/warehouse/transform/transform_dim_customers.py:11-22 | the key column exists after the rename exactly when the input had `customer_id` or `nk_customer_id`, and `customer_id` never survives |
| DimCustomers.TransformSpec | src/warehouse/transform/transform_dim_customers.py:9-22 | succeeds exactly when a customer key is present; output is the renamed columns and the first row of each key, in order, every key kept; otherwise KeyError with the renamed frame parked |
| DimCustomers.TransformIdempotent | src/warehouse/transform/transform_dim_customers.py:9-22 | transforming the output again yields the same result |
| DimCustomers.TransformDimCustomers | src/warehouse/transform/transform_dim_customers.py:5-49 | returns the outcome of the try block; logs one event; on failure the frame is parked in 'error-paccafe' |
| DimStoreBranch.RenamesMoveOnlyTheKey | src/warehouse/transform/transform_dim_store_branch.py:10-14 | the rename moves only `store_id` to `nk_store_id` |
| DimStoreBranch.Transform | src/warehouse/transform/transform_dim_store_branch.py:9-17 | None raises with nothing to park; a frame is always either built or parked |
| DimStoreBranch.KeyAfterRename | src/warehouse/transform/transform_dim_store_branch.py:10-17 | the key column exists after the rename exactly when the input had `store_id` or `nk_store_id` |
| DimStoreBranch.TransformSpec | src/warehouse/transform/transform_dim_store_branch.py:9-17 | succeeds exactly when a store key is present; output is the first row of each key, in order, every key kept; otherwise KeyError with the renamed frame parked |
| DimStoreBranch.TransformIdempotent | src/warehouse/transform/transform_dim_store_branch.py:9-17 | transforming the output again yields the same result |
| DimStoreBranch.TransformDimStoreBranch | src/warehouse/transform/transform_dim_store_branch.py:5-42 | returns the outcome of the try block; logs one event; on failure the frame is parked in 'error-dellstore' |
| DimEmployees.RenamesMoveOnlyTheKey | src/warehouse/transform/transform_dim_employees.py:14-22 | the rename moves only `employee_id` to `nk_employee_id` |
| DimEmployees.Transform | src/warehouse/transform/transform_dim_employees.py:9-25 | None raises with nothing to park |
| DimEmployees.FrameNeverLost | src/warehouse/transform/transform_dim_employees.py:9-25 | given a frame, the try block either builds one or parks one |
| DimEmployees.RequiredSurviveRename | src/warehouse/transform/transform_dim_employees.py:14-25 | `role`, `first_name` and `last_name` are present after the rename exactly when they were before it |
| DimEmployees.RenamedLookups | src/warehouse/transform/transform_dim_employees.py:14-25 | after the rename, `role` and both names read the cells they read before, and `nk_employee_id` reads the old `employee_id` cell |
| DimEmployees.TransformSpec | src/warehouse/transform/transform_dim_employees.py:9-25 | succeeds exactly when role and both names are present; the output is exactly the input rows whose role is not 'today'/'third'/'me' and whose three required cells are not null, each as often as the input holds it, in order; otherwise a KeyError with the input or the filtered frame parked |
| DimEmployees.DuplicateIdsKept | src/warehouse/transform/transform_dim_employees.py:9-25 | two distinct valid rows sharing an employee id both reach the output: nothing deduplicates |
| DimEmployees.TransformDimEmployees | src/warehouse/transform/transform_dim_employees.py:5-52 | returns the outcome of the try block; logs one event; on failure the frame is parked in 'error-dellstore' |
| DimProducts.RenamesMoveTwoLabels | src/warehouse/transform/transform_dim_products.py:13-22 | the rename moves `product_id` and `store_branch` and nothing else |
| DimProducts.SpaceRun | src/warehouse/transform/transform_dim_products.py:28 | the length of the leading `\s*` run: all whitespace, and not followed by whitespace |
| DimProducts.StripDashes | src/warehouse/transform/transform_dim_products.py:28-29 | `re.sub(r'\s*-', '', s)` leaves no dash and never lengthens the text |
| DimProducts.NoDashUnchanged | src/warehouse/transform/transform_dim_products.py:28-29 | text without a dash is left exactly as it is |
| DimProducts.StripIdempotent | src/warehouse/transform/transform_dim_products.py:28-29 | cleaning a cleaned price changes nothing |
| DimProducts.SolidSkipsBlanks | src/warehouse/transform/transform_dim_products.py:28-29 | a leading run of whitespace and dashes carries no solid character |
| DimProducts.StripKeepsSolid | src/warehouse/transform/transform_dim_products.py:28-29 | only whitespace and dashes are removed: every other character survives, in order |
| DimProducts.StripLeadingMinus | src/warehouse/transform/transform_dim_products.py:28 | "-12.50" becomes "12.50" |
| DimProducts.StripSpaceBeforeMinus | src/warehouse/transform/transform_dim_products.py:28 | " -12.50" becomes "12.50" |
| DimProducts.StripKeepsSpaceAfterMinus | src/warehouse/transform/transform_dim_products.py:28 | "- 12.50" becomes " 12.50": whitespace after a dash stays |
| DimProducts.NatText | src/warehouse/transform/transform_dim_products.py:28 | `str(n)` of a natural number is a non-empty run of digits |
| DimProducts.CleanPrice | src/warehouse/transform/transform_dim_products.py:28-29 | the cleaned price is always text without a dash |
| DimProducts.CleanPriceValues | src/warehouse/transform/transform_dim_products.py:28-29 | an integer price becomes the text of its absolute value; a missing price becomes the text "None" |
| DimProducts.Clean | src/warehouse/transform/transform_dim_products.py:28-32 | the price rewrites and the dropna build a frame or park one |
| DimProducts.Transform | src/warehouse/transform/transform_dim_products.py:11-32 | None raises with nothing to park; a frame is always either built or parked |
| DimProducts.StoreKeysRequired | src/warehouse/transform/transform_dim_products.py:25 | a store frame without `store_name` or `sk_store_branch` makes the transform fail with a KeyError naming it and the renamed frame parked |
| DimProducts.JoinSucceeds | src/warehouse/transform/transform_dim_products.py:25 | with both store keys present and `store_name` among the product labels the join succeeds, and its columns are the product labels followed by `sk_store_branch` |
| DimProducts.StoreJoinKeepsEveryProduct | src/warehouse/transform/transform_dim_products.py:25 | the store join loses no product: each renamed product row begins a joined row, and each joined row begins with a product row |
| DimProducts.StoreJoinFromBranches | src/warehouse/transform/transform_dim_products.py:25 | each joined row is a product row followed by one cell: the `sk_store_branch` of a store_branch row with the product's store name, or null when no store row has it |
| DimProducts.StoreCell | src/warehouse/transform/transform_dim_products.py:25 | one joined row: the product row and the store key the join appended, as the store_branch frame gives it |
| DimProducts.StoreCellNone | src/warehouse/transform/transform_dim_products.py:25 | a product whose store name no store row carries gets a null store key |
| DimProducts.StoreCellFound | src/warehouse/transform/transform_dim_products.py:25 | a product whose store name a store row carries gets that row's `sk_store_branch` |
| DimProducts.NoStoreNamed | src/warehouse/transform/transform_dim_products.py:25 | a name no selected store row carries is carried by no store_branch row |
| DimProducts.PickedRow | src/warehouse/transform/transform_dim_products.py:25 | the selected store row holds that store_branch row's `store_name` and `sk_store_branch` cells |
| DimProducts.RepriceRows | src/warehouse/transform/transform_dim_products.py:28-29 | the two price rewrites keep columns and row count and, in every row, replace each price by `CleanPrice` of the old cell and keep every other cell |
| DimProducts.RepricedKeeps | src/warehouse/transform/transform_dim_products.py:28-29 | a repriced row reads as before under every label other than the two prices |
| DimProducts.RepriceKeepsKeyed | src/warehouse/transform/transform_dim_products.py:28-32 | repricing leaves the product key alone, so the same rows are keyed |
| DimProducts.CleanSteps | src/warehouse/transform/transform_dim_products.py:28-32 | a built `Clean` is the two price rewrites followed by the dropna on the product key |
| DimProducts.CleanOutcome | src/warehouse/transform/transform_dim_products.py:28-32 | the cleaning builds a frame exactly when both prices and the product key are columns, keeping the columns; otherwise a KeyError naming a missing one |
| DimProducts.CleanSpec | src/warehouse/transform/transform_dim_products.py:27-32 | after cleaning, the output rows are exactly the joined rows with a product key, in order, each with both prices replaced by `CleanPrice` of the old cell and every other cell kept |
| DimProducts.CleanRowsClean | src/warehouse/transform/transform_dim_products.py:27-32 | every output row has a product key, and in a full-width row both prices are dash-free text |
| DimProducts.KeyedRowKept | src/warehouse/transform/transform_dim_products.py:27-32 | every joined row with a product key reaches the output, repriced |
| DimProducts.SharedProductKeySurvives | src/warehouse/transform/transform_dim_products.py:11-32 | two keyed rows sharing a product key but differing elsewhere both reach the output: nothing deduplicates |
| DimProducts.TransformOutcome | src/warehouse/transform/transform_dim_products.py:11-32 | the try block builds a frame exactly when the store frame has both keys and the renamed products have the labels it reads; the output's columns are the product labels then `sk_store_branch`; otherwise a KeyError naming a missing label |
| DimProducts.ProductRowFrom | src/warehouse/transform/transform_dim_products.py:11-32 | a joined, repriced row of a keyed product row keeps its non-price cells, cleans both prices and carries the store key the store_branch frame gives its store name |
| DimProducts.TransformRowsFromProducts | src/warehouse/transform/transform_dim_products.py:11-32 | every output row comes from one keyed input product row in that way |
| DimProducts.TransformKeepsKeyedProducts | src/warehouse/transform/transform_dim_products.py:11-32 | every input product row with a product key reaches the output in that way |
| DimProducts.TransformSpec | src/warehouse/transform/transform_dim_products.py:11-32 | on full-width product rows whose frame has no `sk_store_branch` label of its own: every output row is a keyed product row with both prices cleaned, other cells kept and the store key of a store with its name (null when none has it), and every keyed product row yields such an output row |
| DimProducts.TransformDimProducts | src/warehouse/transform/transform_dim_products.py:6-59 | returns the outcome of the try block; logs one event; on failure the frame is parked in 'error-dellstore' |
| FctOrder.RenamesMoveThreeLabels | src/warehouse/transform/transform_fct_order.py:11-20 | the rename moves `order_id`, `employee_id` and `customer_id` and nothing else |
| FctOrder.Transform | src/warehouse/transform/transform_fct_order.py:9-30 | None raises with nothing to park |
| FctOrder.JoinColumnsRenamedAway | src/warehouse/transform/transform_fct_order.py:11-24 | after the rename neither `customer_id` nor `employee_id` is a column |
| FctOrder.AlwaysFails | src/warehouse/transform/transform_fct_order.py:9-30 | the try block raises for every input. A frame is parked renamed. The error is: a KeyError on `customer_id` when the customers frame has both key columns; a KeyError naming a missing key column otherwise; NoneInput for None customers |
| FctOrder.TransformFctOrder | src/warehouse/transform/transform_fct_order.py:5-56 | one "failed" event is logged; the bucket is made; a given frame is parked renamed and the caller gets None when the object store is up |
| FctInventory.RenamesMoveTwoLabels | src/warehouse/transform/transform_fct_inventory.py:11-18 | the rename moves `tracking_id` and `product_id` and nothing else |
| FctInventory.Transform | src/warehouse/transform/transform_fct_inventory.py:9-27 | None raises with nothing to park |
| FctInventory.AlwaysFails | src/warehouse/transform/transform_fct_inventory.py:9-27 | the try block raises for every input: a KeyError on `product_id`, a missing key column, or NoneInput; a frame is parked renamed |
| FctInventory.TransformFctInventory | src/warehouse/transform/transform_fct_inventory.py:5-53 | one "failed" event is logged; the bucket is made; a given frame is parked renamed and the caller gets None when the object store is up |
| Load.RecordOf | src/warehouse/load/load.py:12-19 | the stored record of a row holds exactly the non-index columns, with the row's cells |
| Load.BatchOf | src/warehouse/load/load.py:12-19 | the batch has exactly the key values of the frame |
| Load.Prepare | src/warehouse/load/load.py:7-19 | None fails with nothing to park; a missing index column is a KeyError with the frame parked as it was; the batch loads exactly when the warehouse answers and the keys are non-null and unique; any later refusal parks the indexed frame |
| Load.LoadedRowsInBatch | src/warehouse/load/load.py:12-19 | every row of a loaded frame is in the batch under its key, as its record |
| Load.Upsert | src/warehouse/load/load.py:15-19 | `if_row_exists="update"`: keys are the union; loaded columns take the batch's values; other columns of existing keys, and keys outside the batch, are kept |
| Load.UpsertIdempotent | src/warehouse/load/load.py:15-19 | loading the same batch twice equals loading it once |
| Load.LoadEvent | src/warehouse/load/load.py:22-43 | component "load", the table, "success" exactly when the batch loaded, else "failed" with the error |
| Load.LoadWarehouse | src/warehouse/load/load.py:6-53 | a success upserts into the target table and touches nothing else; a refusal leaves the warehouse alone, makes the bucket and parks the frame in 'error-paccafe'; one event either way; nothing propagates |
| Load.LoadLands | src/warehouse/load/load.py:12-19 | after a load every row's columns are in the table under its key; keys the frame lacks keep their records |
| WarehousePipeline.AfterLog | src/warehouse_pipeline.py:10-34 | the log after a series of stage calls is the old log followed by their events in call order, when the log database answers, and unchanged when it does not |
| WarehousePipeline.AfterBuckets | src/warehouse_pipeline.py:10-34 | the buckets after a series of stage calls are the old ones plus the bucket each failing call's handle_error makes |
| WarehousePipeline.AfterParks | src/warehouse_pipeline.py:10-34 | the parked objects after a series of stage calls are the old ones followed by each failing call's object, in call order |
| WarehousePipeline.AfterParts | src/warehouse_pipeline.py:10-34 | the three together: the whole trail a series of stage calls leaves |
| WarehousePipeline.AfterAppend | src/warehouse_pipeline.py:10-34 | calling two series of stages one after the other leaves the trail of calling them as one series |
| WarehousePipeline.NoLoadKeepsWatermark | src/warehouse_pipeline.py:12-18 | log rows of components other than load never move a watermark, so every extraction of a run reads the watermark the run started with |
| WarehousePipeline.ExtractEffects | src/warehouse_pipeline.py:12-18 | the k-th extraction logs extract_staging's event for the k-th staging table and its query result, and parks nothing |
| WarehousePipeline.ExtractStep | src/warehouse_pipeline.py:12-18 | the k-th extract_staging call returns the answer to the k-th staging query (None on an error) and logs its extraction event; buckets and parked objects unchanged |
| WarehousePipeline.ExtractAll | src/warehouse_pipeline.py:12-18 | the seven frames are exactly the answers to the seven staging queries on the log as it was, in the order customers … inventory_tracking; the log gains their seven extraction events in that order; nothing is parked |
| WarehousePipeline.ExtractableYieldsFrames | src/warehouse/extract/extract.py:29-32 | with every staging table readable and carrying `created_at`, all seven extractions yield a frame, whatever the log holds |
| WarehousePipeline.StageEffects | src/warehouse_pipeline.py:20-26 | each transform call logs its transformation event, and a failing one makes its bucket and parks its frame under the dated object name |
| WarehousePipeline.DimStages | src/warehouse_pipeline.py:21-24 | customers, employees and store_branch get their own extracted frame; products gets the products frame and the untransformed store_branch frame |
| WarehousePipeline.FactStages | src/warehouse_pipeline.py:25-26 | fct_order gets the orders frame with the untransformed customers and employees frames; fct_inventory the inventory frame with the untransformed products frame |
| WarehousePipeline.AllStages | src/warehouse_pipeline.py:20-26 | the six transforms of the corrected run are the four dimension calls followed by the two fact calls |
| WarehousePipeline.FirstThrow | src/warehouse_pipeline.py:20-26 | the first transform call that raises; every call before it returns |
| WarehousePipeline.FirstThrowIs | src/warehouse_pipeline.py:20-26 | the only index at which a call raises after calls that all return is the first raise |
| WarehousePipeline.FirstThrowAppend | src/warehouse_pipeline.py:20-26 | the dimension calls decide the first raise unless none of them raises |
| WarehousePipeline.Outputs | src/warehouse_pipeline.py:20-26 | when no call raises, what each call returns |
| WarehousePipeline.Started | src/warehouse_pipeline.py:20-26 | before the first transform nothing has run |
| WarehousePipeline.Advance | src/warehouse_pipeline.py:20-26 | one more transform after transforms that all returned: the trail takes its effect, and if it raises it is the first to |
| WarehousePipeline.Concluded | src/warehouse_pipeline.py:20-26 | a chain of transforms that stopped or ran through is settled: the error of the first raise, or every call's value; the trail holds the effects of the calls that ran |
| WarehousePipeline.StageTrail | src/warehouse/transform/transform_dim_customers.py:34-49 | what a transform call does to the stores is its stage effect: its event logged and, on failure, its bucket made and its frame parked |
| WarehousePipeline.CustomersAt | src/warehouse_pipeline.py:21 | transform_dim_customers on the extracted customers frame: the call's outcome is the transform's; the stores take its effect; with a frame and the object store up it returns |
| WarehousePipeline.EmployeesAt | src/warehouse_pipeline.py:22 | transform_dim_employees on the extracted employees frame: the call's outcome is the transform's; the stores take its effect; with a frame and the object store up it returns |
| WarehousePipeline.StoreBranchAt | src/warehouse_pipeline.py:23 | transform_dim_store_branch on the extracted store_branch frame: the call's outcome is the transform's; the stores take its effect; with a frame and the object store up it returns |
| WarehousePipeline.ProductsAt | src/warehouse_pipeline.py:24 | transform_dim_products on the products frame and the store frame it is handed: the call's outcome is the transform's; the stores take its effect; with a frame and the object store up it returns |
| WarehousePipeline.OrdersAt | src/warehouse_pipeline.py:25 | transform_fct_order with three arguments: the call's outcome is the transform's; the stores take its effect; with a frame and the object store up it returns None, its frame parked |
| WarehousePipeline.InventoryAt | src/warehouse_pipeline.py:26 | transform_fct_inventory on the inventory frame and the products frame it is handed: the call's outcome is the transform's; the stores take its effect; with a frame and the object store up it returns None, its frame parked |
| WarehousePipeline.RunDims | src/warehouse_pipeline.py:21-24 | the four dimension calls, each fed the frame `DimStages` says, stop at the first exception with the trail ending on its effect, or all return; with all four frames and the object store up none raises |
| WarehousePipeline.TransformDims | src/warehouse_pipeline.py:21-24 | the dimension calls as written: the first exception's error or the four results, and the trail of exactly the calls that ran |
| WarehousePipeline.TransformAllThreeArgs | src/warehouse_pipeline.py:21-26 | the six calls in order, each fed the frame `DimStages`/`FactStages` says: the crash is the first raise's error, otherwise the results are exactly each call's value; the trail holds the effects of the calls that ran; with every input and the object store up nothing raises and both fact results are None |
| WarehousePipeline.ProductsNeedStoreKey | src/warehouse_pipeline.py:23-24 | products is handed the untransformed store_branch frame; when that frame lacks `sk_store_branch` the stage fails with a KeyError on it and parks the renamed products frame |
| WarehousePipeline.Jobs | src/warehouse_pipeline.py:29-34 | the k-th result goes to the k-th warehouse table under its key: dim_customers/nk_customer_id, … fct_inventory/nk_tracking_id |
| WarehousePipeline.LoadEffects | src/warehouse_pipeline.py:29-34 | each load logs its load event, and a refused one makes the bucket and parks its frame |
| WarehousePipeline.LoadStep | src/warehouse_pipeline.py:29-34 | one load_warehouse call: the stores take its load effect, and the warehouse becomes the upsert of its batch into the named table when the frame passes its checks, unchanged otherwise |
| WarehousePipeline.LoadsSnoc | src/warehouse_pipeline.py:29-34 | the warehouse after k+1 loads is the (k+1)-th load applied to the warehouse after k |
| WarehousePipeline.LoadStepAt | src/warehouse_pipeline.py:29-34 | the k-th load after the first k: trail and warehouse are as the first k+1 loads leave them |
| WarehousePipeline.LoadPair | src/warehouse_pipeline.py:29-34 | two loads in a row: trail and warehouse are as the first k+2 loads leave them |
| WarehousePipeline.LoadAll | src/warehouse_pipeline.py:28-34 | the six load_warehouse calls, in order, each result to its own table under its own key: the trail gains their six effects and the warehouse is as the six loads leave it; nothing raises |
| WarehousePipeline.ApplyElsewhere | src/warehouse_pipeline.py:29-34 | a load touches only its own table |
| WarehousePipeline.Untouched | src/warehouse_pipeline.py:29-34 | a table no load names keeps what it held |
| WarehousePipeline.LoadedOnce | src/warehouse_pipeline.py:29-34 | with distinct target tables, each table ends as its own load alone leaves it |
| WarehousePipeline.TableLoaded | src/warehouse_pipeline.py:29-34 | each of the six warehouse tables ends as its own transform's result alone leaves it |
| WarehousePipeline.RowsLand | src/warehouse_pipeline.py:29-34 | a result that passes its checks lands in its own table: every row under its key cell, every other column as transformed |
| WarehousePipeline.FactsNotLoaded | src/warehouse_pipeline.py:33-34 | loads of None write nothing, so two None fact results leave both fact tables as they were |
| WarehousePipeline.TrailKeepsLoadNames | src/warehouse_pipeline.py:29-34 | logging events whose loads name warehouse tables keeps every logged load on a warehouse table |
| WarehousePipeline.RunNamesWarehouseTables | src/warehouse_pipeline.py:10-34 | every load event a run can log names one of the six warehouse tables |
| WarehousePipeline.WatermarkNeverAdvances | src/warehouse_pipeline.py:12-34 | while every logged successful warehouse load names a warehouse table (true of an empty log and kept by every run), every staging table's watermark stays '1111-01-01' |
| WarehousePipeline.NoStagingNameMatches | src/warehouse/extract/extract.py:14-18 | no staging table name, read as an ILIKE pattern, matches a warehouse table name |
| WarehousePipeline.Chained | src/warehouse_pipeline.py:10-34 | two series of calls one after the other are one series; a log whose loads name warehouse tables keeps that through them |
| WarehousePipeline.WrittenEnd | src/warehouse_pipeline.py:20-25 | as written, the run ends with the first dimension error, or else with the TypeError of the fct_order call |
| WarehousePipeline.Stopped | src/warehouse_pipeline.py:20-34 | a corrected run whose transforms raised stops with the first error, right after that call, with no table written |
| WarehousePipeline.Completed | src/warehouse_pipeline.py:28-34 | a corrected run whose transforms all returned finishes after the six loads of the six results |
| WarehousePipeline.LoadResults | src/warehouse_pipeline.py:26-34 | after the transforms the corrected run stops with the first raise's error, or loads the six results in order; with both fact results None the fact tables stay as they were |
| WarehousePipeline.TransformAndLoad | src/warehouse_pipeline.py:20-34 | after the extractions the corrected run is exactly what `CorrectedRun` says of its six stages; with every input and the object store up it finishes and keeps the fact tables |
| WarehousePipeline.WarehousePipeline | src/warehouse_pipeline.py:10-34 | as written: the seven extractions as `ExtractAll` says, then the four dimension calls fed as `DimStages` says until one raises; the run ends with that error or the TypeError at the fct_order call, with the trail of exactly those calls; the warehouse is never written; with readable staging and the object store up it is the TypeError |
| WarehousePipeline.WarehousePipelineThreeArgs | src/warehouse_pipeline.py:10-34 | with the call corrected: the extractions, then the six transforms fed as `DimStages`/`FactStages` say; a raise ends the run with its error and no table written; otherwise the six results are loaded, each to its own table under its own key, and the trail holds every event and parked object in call order; with readable staging and the object store up it finishes and the fact tables are never written |

## Left out

- CSV serialisation, the upload length and content type in `handle_error`: a parked object records the frame itself, not its bytes.
- The listing loop and the `print` calls of `handle_error`, and every other `print`: console output only.
- Environment variables, engine URLs, `read_sql` and the `.sql` file it reads: `log.sql` is not part of this model, so the `MAX(etl_date)` query is modelled from the comment at src/utils/helper.py:42-50. That comment filters on `process`, while `extract_staging` passes a `component` key; the model filters on the component. How the query's parameters bind is not modelled.
- The clock: each call receives the time `now` as a parameter. A call reads the clock once, where the source reads it separately at each `datetime.now()`.
- Whether a store answers is fixed for the whole run (`Stores` flags). A store that fails halfway through an operation is not modelled.
- Column dtypes, SQL row order and pandas index values: frames are ordered rows of untyped cells, and duplicate column labels resolve to the first one.
- NaN and None are both `Null`; `str(NaN)` is rendered as "None".
- `\s` in the price regular expression is ASCII whitespace only.
- TransformStage.ToEpoch: `pd.to_datetime(...).astype(int) / 10**9` yields a float; the model gives whole seconds and does not model float division. Integer cells and text in formats other than `YYYY-MM-DD HH:MM:SS` are treated as conversion errors.
- Load.Prepare: pangres internals such as table creation, adding columns and the order of its checks are not modelled. A null or repeated key is a refusal, and the unused `source` parameter is ignored.
- The spreadsheet extraction and the staging pipeline are not part of this model.
- DimProducts.Transform: products are not deduplicated. The code at src/warehouse/transform/transform_dim_products.py:11-32 has no `drop_duplicates`, so the model follows the code and proves that repeated product keys survive.
- Frames.LeftMerge: pandas renames a non-key label present on both sides to `label_x`/`label_y`; the model keeps both copies under the same label, and lookup finds the left one. The merge in src/warehouse/transform/transform_dim_products.py:25 selects only `store_name` and `sk_store_branch` from the right, so no shared label other than the key arises there unless the products frame already has `sk_store_branch`, which `DimProducts.TransformSpec` excludes.
- Helper.Stores.HandleError: `put_object` overwrites an object of the same name, while the model appends every parked object to `deadLetters`. Names differ by step, component, table and second, so within one run no two parked objects share a name.
- In-place column assignment (`data['c'] = ...`) is modelled as a function returning a new frame: pandas aliasing is not captured.

## Findings

| source | as written | input that shows it | evidently intended | confidence | as-written member | corrected member |
|---|---|---|---|---|---|---|
| src/warehouse_pipeline.py:25 | `transform_fct_order(df_orders, df_customers, df_employees, df_order_details)` passes four arguments to a function of three parameters (src/warehouse/transform/transform_fct_order.py:5), so the call raises TypeError and no load at lines 29-34 ever runs | any run in which every staging table is readable and the object store answers | pass `df_orders, df_customers, df_employees` only | high; not executed | WarehousePipeline.WarehousePipeline | WarehousePipeline.WarehousePipelineThreeArgs |
