# Ledger persistence and query layer, in Dafny

This project models the persistence and query core of a personal ledger
application. The application keeps income and expenditure records and
spending categories in SQLite. It runs schema migrations, answers filtered
and paginated queries, computes grouped totals and imports CSV backups
with strict duplicate detection.

The two SQL tables are maps from primary key to row. The migration ledger
(`meta_migrations`) is a sequence of applied script names. A statement and
its commit or rollback becomes one map update that happens entirely or not
at all. The stateful pieces are classes whose methods update their fields:
the connection wrapper, the data manager, the migration store and the
services. The pure pieces are functions with lemmas: validation, the
duplicate predicate, the stable sort and the aggregates.

Modules, one per source file, plus three small support modules:

- `Optional` (`optional.dfy`): `Option` and Python's truthiness of an optional string.
- `Text` (`text.dfy`): the code-point order on strings that both Python `str` and SQLite's `BINARY` collation use, `strip()` and an ASCII `lower()`.
- `Sorting` (`sorting.dfy`): a stable insertion sort by a string key, the model of Python's `sorted` and of `ORDER BY`.
- `Models` (`account_record.py`): the record and `validate`.
- `SqliteConnection` (`sqlite_driver.py`): the connected / not connected driver.
- `Repository` (`data_manager.py`): category and record CRUD and `query_records`.
- `Migrations` (`migrations.py`): script listing, pending computation, backup condition and the ordered apply loop.
- `Queries` (`query_service.py`), `Statistics` (`statistics_service.py`), `Import` (`backup_importer.py`), `Coordination` (`coordinator.py`).

A query result is specified, not computed. SQLite does not order rows with
equal dates, so `IsQueryResult` says the result is a page (OFFSET, then
LIMIT) of SOME date-ordered listing of exactly the matching rows. Each
service's result is stated against that predicate: "there is a result of
the default query, and the totals are the grouped sums of its rows".

## Model

| member | source | states |
|---|---|---|
| Optional.OrEmpty | src/data/backup_importer.py:83-87 | Python's truthiness-based `x or ""` gives the string whenever one is present, a falsy `Some("")` included, and "" for None |
| Optional.NoneIfEmpty | src/data/backup_importer.py:130-131 | Python's truthiness-based `s or None` is None exactly for "", and otherwise the string itself |
| Text.LexLeReflexive | src/data/data_manager.py:136-141 | the date comparison `date >= ?` / `date <= ?` is reflexive, so the bounds are inclusive |
| Text.LexLeTotal | src/data/data_manager.py:145 | any two dates are comparable, so `ORDER BY date` orders every pair |
| Text.LexLeAntisymmetric | src/data/data_manager.py:136-141 | two dates each at most the other are equal |
| Text.LexLeTransitive | src/data/data_manager.py:145 | the date order is transitive |
| Text.Strip | src/data/backup_importer.py:123-124 | `strip()` yields the slice of the input left when only whitespace is cut from either end, and the result has no whitespace at either end |
| Text.StripUnique | src/data/backup_importer.py:123-124 | those two properties determine the result: any whitespace-free-ended piece cut out of surrounding whitespace is the stripped string |
| Text.LowerAscii | src/data/migrations.py:18 | `lower()` keeps the length and lowers each character |
| Sorting.SortBy | src/services/query_service.py:16 | the result is a permutation of the input, ordered by the key (non-increasing when descending), and stable: entries with equal keys keep their input order |
| Sorting.SortBySorted | src/services/query_service.py:16 | sorting an already ordered sequence returns it unchanged |
| Models.ValidateExactly | src/models/account_record.py:14-26 | `validate` holds exactly when the type is "INCOME" or "EXPENDITURE", the amount is numeric and strictly positive, and the date is non-empty |
| Models.ValidAmountPositive | src/models/account_record.py:18-23 | a valid record has a numeric amount greater than zero; zero, negatives and non-numbers are refused |
| Models.ValidateIgnoresOtherFields | src/models/account_record.py:14-26 | changing `id`, `category_id`, `remark` or `created_at` never changes the verdict |
| SqliteConnection.Driver.constructor | src/data/sqlite_driver.py:10-12 | a new driver has no connection and no statements |
| SqliteConnection.Driver.Connect | src/data/sqlite_driver.py:14-21 | afterwards the driver is connected; on an open driver nothing changes; otherwise a fresh connection with no open transaction |
| SqliteConnection.Driver.Close | src/data/sqlite_driver.py:23-26 | afterwards not connected, the open transaction dropped, committed statements kept; a no-op when already closed |
| SqliteConnection.Driver.Execute | src/data/sqlite_driver.py:28-33 | not connected: "DB not connected" and nothing changes; connected: the statement joins the open transaction and its cursor is returned |
| SqliteConnection.Driver.ExecuteMany | src/data/sqlite_driver.py:35-40 | as `Execute`, for one statement with a sequence of parameter tuples |
| SqliteConnection.Driver.ExecuteScript | src/data/sqlite_driver.py:42-47 | not connected: the error and no change; connected: the open transaction is committed, then the script, leaving nothing pending |
| SqliteConnection.Driver.Commit | src/data/sqlite_driver.py:49-51 | the open transaction becomes committed; with no connection nothing is pending and nothing changes |
| SqliteConnection.Driver.Rollback | src/data/sqlite_driver.py:53-55 | the open transaction is discarded and committed work is kept |
| Repository.Page | src/data/data_manager.py:145-146 | `LIMIT ? OFFSET ?`: skips `offset` rows, keeps at most `limit`, in order; the exact resulting length |
| Repository.SelectOrdered | src/data/data_manager.py:145-148 | the engine's SELECT: exactly the selected rows, each once, ordered by the key |
| Repository.Reassign | src/data/data_manager.py:77 | `UPDATE records SET category_id = ? WHERE category_id = ?`: same keys; the referencing records get the new reference; others untouched; no reference to the old id is left |
| Repository.ReassignKeepsTablesValid | src/data/data_manager.py:76-85 | rewriting references keeps every record under its own id and valid |
| Repository.DataManager.constructor | src/data/data_manager.py:18-24 | opens a store whose tables hold the given rows; requires both tables keyed by id and every stored record valid, which the write paths keep, so a store file written some other way is excluded |
| Repository.DataManager.ListCategories | src/data/data_manager.py:30-33 | every stored category exactly once, ordered by name ascending |
| Repository.DataManager.GetCategory | src/data/data_manager.py:35-40 | None exactly when the id is absent, otherwise the stored row with that id |
| Repository.DataManager.AddCategory | src/data/data_manager.py:42-52 | succeeds exactly when the id is unused, then inserts; a used id gives the integrity message and changes nothing |
| Repository.DataManager.UpdateCategory | src/data/data_manager.py:54-64 | always succeeds; replaces the row with that id, or changes nothing when there is none |
| Repository.DataManager.DeleteCategory | src/data/data_manager.py:66-89 | MOVE_TO_OTHER without a truthy target fails with "migrate_to required for MOVE_TO_OTHER" and changes nothing; otherwise the references are repointed (MOVE_TO_OTHER) or cleared (any other strategy), other records untouched, and the category removed |
| Repository.DataManager.SaveRecord | src/data/data_manager.py:92-107 | succeeds exactly when the record is valid and its id unused; "validation failed" or the integrity message otherwise, with nothing stored; on success the record is inserted with `created_at` defaulted to `now` when falsy |
| Repository.DataManager.UpdateRecord | src/data/data_manager.py:109-121 | succeeds exactly when the record is valid; then only type, amount, date, category and remark of the matching row change, `created_at` kept; no matching row is still a success |
| Repository.DataManager.DeleteRecord | src/data/data_manager.py:123-130 | always succeeds and removes the matching id, if any, and nothing else |
| Repository.DataManager.QueryRecords | src/data/data_manager.py:132-152 | the result is a query result: a page of a date-ordered listing of exactly the matching records |
| Repository.QueryResultSound | src/data/data_manager.py:134-144 | every returned record is a stored row that satisfies every truthy filter |
| Repository.QueryResultOrdered | src/data/data_manager.py:145 | dates are non-increasing for `date DESC`, non-decreasing for `date ASC` |
| Repository.QueryResultSize | src/data/data_manager.py:145-146 | the result length is fixed by the number of matches, the offset and the limit |
| Repository.QueryResultComplete | src/data/data_manager.py:145-146 | with offset 0 and a limit covering all matches, every matching record is returned |
| Repository.QueryResultDistinct | src/data/data_manager.py:147-152 | no record id is returned twice |
| Repository.SingleDateRange | src/data/data_manager.py:136-141 | both bounds are inclusive: the range from `d` to `d` selects exactly the records dated `d` |
| Repository.SavedRecordQueried | src/data/data_manager.py:92-152 | a record `save_record` accepts is returned, with its creation time filled in, by a query from its own date to its own date whose limit covers the matches; when no other stored record has that date it is the whole result |
| Repository.FalsyFiltersIgnored | src/data/data_manager.py:136-144 | a None or empty filter argument excludes nothing |
| Migrations.LastDot | src/data/migrations.py:18 | the position of the last dot in a name, or -1 when there is none |
| Migrations.SqlSuffixExactly | src/data/migrations.py:18 | a name's suffix lowers to ".sql" exactly when the name is at least five characters long and its last four lower to ".sql" |
| Migrations.SqlEntries | src/data/migrations.py:18 | exactly the entries that are files with a ".sql" suffix |
| Migrations.ListSqlFiles | src/data/migrations.py:15-20 | a missing directory gives []; otherwise exactly its `.sql` files, each as often as listed, sorted by file name |
| Migrations.Names | src/data/migrations.py:92 | the names of the listed files, position by position |
| Migrations.Pending | src/data/migrations.py:92 | a name is pending exactly when it is listed and not in the ledger |
| Migrations.PendingSorted | src/data/migrations.py:89-92 | filtering a sorted listing keeps it sorted: pending scripts run in file-name order |
| Migrations.SortedNames | src/data/migrations.py:19-20 | the names of a listing sorted by name are sorted |
| Migrations.NothingPending | src/data/migrations.py:94-95 | when every listed name is applied, nothing is pending |
| Migrations.RerunFindsNothing | src/data/migrations.py:89-95 | once the pending names join the ledger, a second pending computation is empty |
| Migrations.FirstFailure | src/data/migrations.py:106-109 | the position of the first script that fails; every earlier one succeeds |
| Migrations.PendingIn | src/data/migrations.py:89-92 | a name is pending exactly when some listed `.sql` file has it and the ledger does not |
| Migrations.Store.constructor | src/data/migrations.py:74 | the store starts with the given file-existence flag and ledger, and no backups |
| Migrations.RunPending | src/data/migrations.py:105-117 | the scripts before the first failure are appended to the ledger in order; success returns the pending names, a failure names the failing script; after success every pending name is applied |
| Migrations.ApplyMigrations | src/data/migrations.py:47-119 | no directory and no fallback: the not-found error and nothing changes; otherwise the file exists afterwards, one backup named `<stem>_pre_migration_<ts>.db` is taken exactly when the file existed and something was pending, the ledger grows by the pending names up to the first failure, and after success nothing is pending |
| Migrations.RerunAfterSuccess | src/data/migrations.py:89-95 | re-running over the same listing after a successful run finds nothing pending |
| Migrations.DistinctAppend | src/data/migrations.py:110-113 | appending a name absent from the ledger keeps the ledger free of repeats |
| Migrations.SqlEntriesUnique | src/data/migrations.py:18 | filtering a listing with unique names keeps names unique |
| Migrations.UniqueNamesPermuted | src/data/migrations.py:20 | sorting a listing with unique names keeps names unique |
| Migrations.ListedNamesDistinct | src/data/migrations.py:15-20 | the sorted `.sql` names of a listing with unique names hold no repeats |
| Migrations.PendingDistinct | src/data/migrations.py:92 | the pending list of a repeat-free listing is repeat-free, so every ledger insert meets a fresh primary key |
| Queries.QueryService.constructor | src/services/query_service.py:6-7 | the service wraps the given data manager |
| Queries.QueryService.QueryByDate | src/services/query_service.py:9-10 | a query result for the two date bounds, no category, limit 100, offset 0, date DESC |
| Queries.QueryService.QueryByCategory | src/services/query_service.py:12-13 | a query result for the category alone, limit 100, offset 0, date DESC |
| Queries.SortRecords | src/services/query_service.py:15-16 | same length and same records, ordered by date (non-increasing by default), stable |
| Queries.SortRecordsIdempotent | src/services/query_service.py:15-16 | an already ordered list is returned unchanged, so sorting twice equals sorting once |
| Queries.SortQueryResult | src/services/query_service.py:15-16 | sorting a default query's result in the default direction changes nothing |
| Statistics.SumForSnoc | src/services/statistics_service.py:15-17 | one more row adds its amount to its own group's sum and nothing to the others |
| Statistics.TotalSnoc | src/services/statistics_service.py:15-17 | one more row adds its amount to the total |
| Statistics.AccumulateKeys | src/services/statistics_service.py:15-17 | after the loop, the keys are the initial ones plus the key of every row read |
| Statistics.AccumulateValues | src/services/statistics_service.py:15-17 | after the loop, each key holds its initial value plus the amounts of its rows |
| Statistics.SumValuesRemove | src/services/statistics_service.py:24-25 | a map's values sum to one entry plus the rest |
| Statistics.SumValuesAdd | src/services/statistics_service.py:17 | adding an amount to one entry adds it to the sum of all values |
| Statistics.AccumulateSum | src/services/statistics_service.py:15-17 | the accumulated map's values sum to the initial sum plus the total of the rows |
| Statistics.SumByKey | src/services/statistics_service.py:15-17 | the aggregation loop: each row's amount added to its key's entry, 0 when absent, equals the accumulated map |
| Statistics.AccumulateStep | src/services/statistics_service.py:16-17 | one loop iteration adds the next row's amount to its key's entry |
| Statistics.LeapDay | src/services/statistics_service.py:32 | for every four-digit year from 1000 on, `YYYY-02-29` is an accepted date exactly when the year is a Gregorian leap year |
| Statistics.Bucket | src/services/statistics_service.py:32-38 | the `strftime` key formats: "day" gives a calendar date `YYYY-MM-DD`, "month" gives `YYYY-MM` with a month from 01 to 12, any other period the four year digits, each the head of the stored date |
| Statistics.BucketsNest | src/services/statistics_service.py:33-38 | the month key is the first seven characters of the day key, and the year key the first four of the month key |
| Statistics.StatisticsService.constructor | src/services/statistics_service.py:8-9 | the service wraps the given data manager |
| Statistics.StatisticsService.TotalByType | src/services/statistics_service.py:11-18 | some default query result's rows, grouped and summed by type, starting from INCOME and EXPENDITURE at 0 |
| Statistics.StatisticsService.ByCategory | src/services/statistics_service.py:20-25 | some default query result's rows, grouped and summed by category id (None included) |
| Statistics.StatisticsService.Timeseries | src/services/statistics_service.py:27-40 | some default query result's rows, grouped and summed by date bucket |
| Statistics.StoredDatesRead | src/services/statistics_service.py:32 | when every stored date is canonical, every date the query returns is |
| Statistics.TypeTotalsMeaning | src/services/statistics_service.py:14-17 | INCOME and EXPENDITURE are always keys; any other key appears exactly when some row has that type; each value is the sum of that type's amounts |
| Statistics.TypeTotalsOfValidRows | src/services/statistics_service.py:14-17 | over valid rows the keys are exactly INCOME and EXPENDITURE |
| Statistics.CategoryTotalsMeaning | src/services/statistics_service.py:22-25 | one key per category id occurring among the rows, valued at their sum; no rows gives {} |
| Statistics.BucketTotalsMeaning | src/services/statistics_service.py:30-39 | one key per bucket occurring among the rows, valued at the sum of its amounts |
| Statistics.TotalsAddUp | src/services/statistics_service.py:11-40 | the values of each of the three maps sum to the total amount of the rows read |
| Statistics.DefaultQueryBounded | src/services/statistics_service.py:13 | the rows aggregated are at most 100 and come newest first |
| Import.StrictDuplicateExactly | src/data/backup_importer.py:72-89 | a duplicate exactly when the dates are non-empty and equal, both amounts numeric and within the tolerance, and category, remark and type equal with None read as "" |
| Import.StrictDuplicateIgnoresIds | src/data/backup_importer.py:72-89 | ids and creation times play no part |
| Import.StrictDuplicateSymmetric | src/data/backup_importer.py:72-89 | swapping the two records never changes the verdict |
| Import.ValidRecordDuplicatesItself | src/data/backup_importer.py:72-89 | with a non-negative tolerance every valid record duplicates itself |
| Import.Cell | src/data/backup_importer.py:121-124 | the text a field reads as has no whitespace at either end and, when not "", is its source header's cell with surrounding whitespace cut |
| Import.GetField | src/data/backup_importer.py:121-124 | raises `'NoneType' object has no attribute 'strip'` exactly when the mapped header is present with a None cell; otherwise the stripped cell of the mapped header (of the field's own name when unmapped), "" when the header or the cell is missing |
| Import.FirstOf | src/data/backup_importer.py:127-131 | `get_field(a) or get_field(b)`: raises exactly when `a` raises, or `a` reads as "" and `b` raises; otherwise `a`'s text, or `b`'s when `a`'s is "" |
| Import.ReadFields | src/data/backup_importer.py:126-131 | raises exactly when reading the id, or one of the five fields with its fallback, raises; otherwise each field is its own cell or, when that is "", its fallback's cell, and category and remark are None exactly when they read as "" |
| Import.ParseDate | src/data/backup_importer.py:36-38 | an empty date string never parses |
| Import.CheckFields | src/data/backup_importer.py:133-148 | a candidate is a valid record with no creation time, carrying the row's own id or else the generated one |
| Import.Prepare | src/data/backup_importer.py:125-148 | a row that passes the checks yields a valid record with no creation time |
| Import.Classify | src/data/backup_importer.py:133-158 | a row is skipped as a duplicate exactly when it passes the checks and some known record is a strict duplicate of it; every other row keeps the verdict of the checks; a candidate to save is valid and has no known duplicate |
| Import.CheckOrder | src/data/backup_importer.py:133-148 | the checks come in order: an exception, then invalid_date, then invalid_amount, then validation_failed, and otherwise the parsed record |
| Import.CheckFieldsIdOnly | src/data/backup_importer.py:126 | the generated id affects the record's id and nothing else |
| Import.StepAddsOneOutcome | src/data/backup_importer.py:125-172 | each row adds exactly one outcome: one import (and one known record), one skip, or one error entry for that row |
| Import.RunCountsRows | src/data/backup_importer.py:119-171 | over a run, outcomes grow by exactly the number of rows |
| Import.DuplicateNotSaved | src/data/backup_importer.py:151-158 | a duplicate row adds one skip to the report and saves nothing |
| Import.ApplyAddsOneOutcome | src/data/backup_importer.py:133-168 | whatever the verdict, applying it adds exactly one outcome |
| Import.ApplyOnlyAdds | src/data/backup_importer.py:160-168 | applying a verdict whose candidate is valid keeps every stored record and the table valid |
| Import.StepOnlyAdds | src/data/backup_importer.py:160-168 | a row never changes or removes a stored record, and the table stays valid |
| Import.RunOnlyAdds | src/data/backup_importer.py:119-171 | over a run, every record stored before is still stored unchanged |
| Import.ImportedJoinsKnown | src/data/backup_importer.py:166-168 | an imported row's record joins the known set |
| Import.StepExtendsKnown | src/data/backup_importer.py:166-167 | a row only ever appends to the known records |
| Import.KnownGrows | src/data/backup_importer.py:119-171 | the known records after a prefix of the rows are a prefix of those after any longer prefix |
| Import.ImportStaysKnown | src/data/backup_importer.py:166-168 | the record of an imported row stays known for the rest of the run |
| Import.KnownRowIsDuplicate | src/data/backup_importer.py:150-158 | once a row's record is among the known records, the same row under any row number is classified as a duplicate |
| Import.KnownRowSkipped | src/data/backup_importer.py:150-158 | a row whose record is known adds one skip and changes nothing else |
| Import.RepeatedRowSkipped | src/data/backup_importer.py:150-168 | when the row at position a is imported, an identical row at any later position b of the same run is skipped: one more skip, no record saved |
| Import.FindDuplicate | src/data/backup_importer.py:151-155 | true exactly when some known record is a strict duplicate |
| Import.ClassifyRow | src/data/backup_importer.py:133-158 | computes the row's verdict |
| Import.ImportRow | src/data/backup_importer.py:125-172 | one row's effect on the report, the known set and the record table is one step of the run |
| Import.ApplyVerdict | src/data/backup_importer.py:150-168 | skipping, reporting or saving as the verdict says changes the report, the known records and the record table exactly as one step of the run applies that verdict |
| Import.ImportCsvStrict | src/data/backup_importer.py:92-174 | starting from all stored records (one query of limit 1000000), the report and the new table are those of the run over the rows, and the outcomes number the rows |
| Coordination.Coordinator.constructor | src/core/coordinator.py:16-17 | the coordinator wraps the given data manager |
| Coordination.Coordinator.GetCategories | src/core/coordinator.py:19-21 | every category once, ordered by name |
| Coordination.Coordinator.CreateRecord | src/core/coordinator.py:23-36 | a truthy unknown category gives "分类不存在: <id>" and saves nothing; otherwise success exactly when the save succeeds, with "" on success and "保存失败: " plus the save message on failure; a saved record's truthy category exists |
| Coordination.Coordinator.ListRecentRecords | src/core/coordinator.py:38-42 | a query result with no filters, the given limit, offset 0 and date DESC |

## Left out

- The Qt user interface and application wiring: presentation only.
- SQL text and the SQLite engine: tables are maps, and a statement and its commit or rollback is one atomic map update. `DataManager` is therefore not routed through `SqliteConnection.Driver`; the driver is modelled on its own as a record of statements issued and committed.
- The raw `order_by` fragment: only "date DESC" and "date ASC" are modelled.
- The schema: the migration scripts are not shown, so only primary-key uniqueness is modelled. No foreign key from `records.category_id` to `categories` is enforced; `PRAGMA foreign_keys = ON` has no modelled effect.
- Floating point: amounts are `real`, and rounding is ignored. Of the non-finite values, NaN and +inf pass `validate` (every comparison with NaN is false, and +inf is positive) while -inf is refused by `a <= 0`; none of them exists in the model.
- Database errors other than a duplicate primary key: `save_record`, `update_record`, `delete_record`, `update_category` and `delete_category` catch them and return `(False, str(e))`; the model has no such failures, which also leaves the importer's "db_error: ..." reason reachable only through a duplicate id.
- Python exceptions raised from inside the engine (disk full, locked database).
- Repository.DataManager.QueryRecords: limit and offset are natural numbers; SQLite's treatment of negative values is not modelled.
- `DataManager.__init__`'s own call to `apply_migrations` and `DataManager.backup`: file-system work.
- Repository.DataManager.constructor: requires an opened store's tables to be keyed by id with every record valid; the source's write paths keep this, but a database file filled by other means is not covered.
- `DataManager.close` closes the driver connection, after which every statement fails with "DB not connected" (`SqliteConnection.Driver.Close` and `Execute` model that); since the data manager's tables are not routed through the driver, its closed state is not modelled.
- Migrations.ApplyMigrations: the fallback-directory search is an input (`fallback`); directory listing, script reading, the backup copy and `mkdir` are modelled only by their effect on the `Store` fields.
- Migrations.ApplyMigrations: requires the names in a listing to be unique, which every real directory satisfies.
- Migrations.ApplyMigrations: the script text is not executed. Which scripts fail is an input (`failing`), and a failing script's partial effect is not modelled.
- Migrations.RunPending: the `applied_at` timestamp of each ledger row is not kept.
- The backup timestamp, `utcnow()` in `save_record` and the importer's uuid ids are parameters (`timestamp`, `now`, and `Env.now` and `Env.generateId`, both indexed by row number).
- Text.LowerAscii: only ASCII letters are lowered; Python's `str.lower` also lowers other scripts, which no ".sql" comparison depends on.
- Statistics.StatisticsService.Timeseries: requires every stored date to be a calendar date `YYYY-MM-DD` of a year from 1000 on, optionally followed by one separator character and `HH:MM` or `HH:MM:SS` in range, and takes the bucket as a prefix of it. The precondition is stronger than `fromisoformat`: dates it also accepts (fractional seconds, UTC offsets, the compact forms of newer Python versions) and years before 1000 (whose `%Y` padding is platform-dependent) are excluded, and the `ValueError` it raises on other dates is not modelled.
- Import.ImportCsvStrict: CSV reading, the `FileNotFoundError` for a missing file and `parse_csv_preview` are left out; the rows are an input sequence.
- Import.ImportCsvStrict: the fallback to an empty known set when `query_records` raises is not modelled, since the model's query cannot fail.
- Import.ParseDate: `_parse_date`'s datetime parsing is a parameter (`Env.parseDate`); only its empty-string case is fixed.
- Import.CheckFields: `float()` is a parameter (`Env.parseAmount`).
- Import.IsStrictDuplicate: records whose type is None cannot arise, since the type is a string; the `or ""` on the type is therefore the identity.
- The fuzzing targets and the tests: they drive the code and hold no logic.
