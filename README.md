# PII-masking ETL core, modelled in Dafny

This project models the deterministic core of a small batch ETL job that takes
user, subscription and message records from a REST API, removes or
pseudonymises the personally identifiable fields, and loads the result into a
MySQL warehouse. The warehouse becomes an in-memory map from table name to a
table (its columns, its rows in insertion order and, for the `sensitive_*` lookup
tables, an AUTO_INCREMENT counter). The model covers three parts of the job:

- **`MySqlDbConnector`** (`database.dfy`, `sql.dfy`). It covers:
  - the SQL text builders (`_generate_insert_statement`, `_generate_constraint_statement`, the SELECT of `fetch_records`, the `create_view` statement);
  - the table semantics of `fetch_records`, `insert_record` (insert unless a row already matches on every column except `last_updated_at`) and `get_or_create_mask_id` (fetch, insert when absent, fetch again).

  Each operation is a pure function over the tables. The class `MySqlDb` performs the connector's steps in order and is proved equal to those functions.
- **`transform.py`**:
  - the PII sanitiser (`transform.dfy`), with the mask-id lookups, the email rule and the sharing of the `profile` dict with the caller's record;
  - the subscription flattener (`subscriptions.dfy`);
  - the view-name rule of `create_monitoring_views` (`views.dfy`).
- **`load.py`** (`load.dfy`):
  - the batch loop `_insert_data`, which stamps, stringifies, inserts and counts;
  - the PII guard and the user mapping;
  - the subscription and message mappings.

Python dicts are association lists (`Json.Record`), so insertion order is kept, as it is visible in the SQL text. `d.get`, `d[k] = v` and dict comprehensions are `Get`, `Set` and `Without`. Exceptions are the `Err`/`Failed`/`MaskFailed` cases of the result types. `datetime.now()` becomes a parameter: `now(i)` is the stamp read for record `i`.

Where the written design and the code differ, the model follows the code:

- The sanitiser copies a truthy `zipCode` into a new key `zipcode`. It does not remove `zipCode`, so the raw value stays in the output (`TransformProofs.SanitizedFrom` keeps every key that is not dropped).
- The email becomes the text between the first and the second `@` (`email.split('@')[1]`), not everything after the first `@`.
- The guard of `insert_user_data` inspects only the top-level keys `city`, `zipcode` and `profession`. The row takes `profession_id` from `profile.profession`, so an unmasked profession passes the guard and is loaded (`Load.GuardMissesNestedProfession`).
- A lookup table has exactly one row per raw value only for the values inserted through `get_or_create_mask_id`. The ids are stable (`Database.MaskStable`) and distinct (`Database.MaskDistinct`).

## Model

| member | source | states |
|---|---|---|
| Text.IndexOf | transform.py:49 | where `split('@')` cuts: the position found holds the character and no earlier position does (or the string has none) |
| Text.SplitJoin | connectors.py:123-124 | `sep.join` is undone by `split(sep)` when no piece runs into the separator: the pieces come back, in order |
| Text.SplitWhole | connectors.py:123-124 | a separator-free piece is not cut at all |
| Text.SplitAfterPiece | connectors.py:123-124 | a separator-free piece followed by the separator is cut off exactly there |
| Text.FirstAbsentSepFree | connectors.py:124 | a piece without the separator's first character cannot run into the separator |
| Text.SecondField | transform.py:49 | `s.split(c)[1]` contains no `c` and is the text right after the first `c`, ending at the second `c` or at the end |
| Text.LastField | transform.py:90 | `s.split(c)[-1]` contains no `c` and is no longer than `s` |
| Text.LastFieldSuffix | transform.py:90 | the last field is the suffix of the path after its last `/` (all of it when there is none) |
| Text.LastFieldAfter | transform.py:90 | a path ending in `/` followed by a slash-free name has that name as its last field |
| Text.ReplaceAllAbsent | transform.py:90 | `replace` leaves a string without the pattern's first character unchanged |
| Text.ReplaceAllSuffix | transform.py:90 | `name + ".sql"` loses exactly its trailing pattern when the name has no `.` |
| Text.ReplaceAllKeep | transform.py:90 | a prefix free of the pattern's first character passes through `replace` unchanged |
| Text.ReplaceAllFirst | transform.py:90 | the first occurrence of the pattern after such a prefix is deleted, and replacement continues after it |
| Text.ReplaceAllDeletes | transform.py:90 | replacing with the empty string only deletes characters: no new character appears |
| Text.NatToString | connectors.py:146 | `str(n)` of a natural number is a non-empty string of decimal digits without a leading zero |
| Text.NatToStringValue | connectors.py:146 | the decimal value of `str(n)` is `n` |
| Text.IntToString | connectors.py:146 | `str(i)` is non-empty, ends in a digit, and is made of digits and a minus sign that appears first and exactly for negative `i` |
| Text.IntToStringValue | connectors.py:146 | `str(i)` reads back as `i`: an optional minus sign, then the decimal value |
| Json.Get | transform.py:31-34 | `d.get(k)` is None when the key is absent and otherwise a value stored under `k` |
| Json.Set | transform.py:39 | `d[k] = v` keeps the key order and appends `k` only when it is new |
| Json.GetSet | transform.py:39 | after `d[k] = v`, `d.get(k)` is `v` |
| Json.GetSetOther | transform.py:39 | `d[k] = v` leaves every other key's value alone |
| Json.HasKeySet | transform.py:39 | after `d[k] = v` the dict has `k` and every key it had before |
| Json.SetEffect | transform.py:39 | `d.get(x)` after `d[k] = v` is `v` for `x == k` and the old value otherwise |
| Json.SetIfEffect | transform.py:36-47 | a conditional assignment has the effect of `d[k] = v` when it runs and none otherwise |
| Json.Without | transform.py:29-30 | the comprehension keeps only pairs of the dict whose key is not dropped |
| Json.GetWithout | transform.py:29-30 | after dropping keys, a dropped key reads None and every other key keeps its value |
| Json.WithoutNone | connectors.py:369-370 | dropping keys the dict does not have leaves it unchanged |
| Json.GetDistinct | load.py:64-75 | in a dict with distinct keys, `get` of an entry's key returns that entry's value |
| Json.GetDict | transform.py:34 | `d.get(k, {})` used as a dict fails exactly when `k` is present with a non-dict value; otherwise it is that dict, or `{}` when `k` is absent |
| Sql.StrValues | connectors.py:124 | the values the join receives, one per entry and in order |
| Sql.InsertStatementDecodes | connectors.py:123-128 | the INSERT exists exactly when every value is a `str`; when no column name contains `, ` and no value a `"`, its column list and value list split back into the record's keys and values, in order, so there are as many values as columns |
| Sql.CommaSepFree | connectors.py:123 | a name without `, ` cannot run into the `, ` after it |
| Sql.AndSepFree | connectors.py:150 | a condition without ` AND ` that does not end in `D` cannot run into the ` AND ` after it |
| Sql.PyStrEnd | connectors.py:146 | `str(v)` of a non-`str` value is non-empty and ends in a quote, a digit, `e`, `]` or `}` |
| Sql.ConditionEnd | connectors.py:144-146 | every condition is non-empty and ends in such a character, so never in `D` |
| Sql.Conditions | connectors.py:142-147 | one condition per constraint, in the constraint dict's order |
| Sql.ConstraintStatement | connectors.py:141-150 | the appending loop produces `WHERE ` followed by the conditions joined by ` AND ` |
| Sql.WhereClauseDecodes | connectors.py:141-150 | the clause starts with `WHERE ` and, when no condition contains ` AND `, splits back into one condition per constraint, in order |
| Sql.SelectQueryDecodes | connectors.py:200-208 | the SELECT names the requested columns in order (or `*` when none are given; names without `, ` split back) and carries a WHERE clause exactly when there are constraints |
| Sql.CreateViewStatement | connectors.py:391 | the statement is `CREATE OR REPLACE VIEW  ` (two spaces), the name, ` AS (`, the query and `);`, at fixed positions |
| Database.FirstMatch | connectors.py:242 | `result[0]` is the first row that satisfies every constraint; no earlier row does |
| Database.Select | connectors.py:206-211 | the rows returned are exactly the table's rows that satisfy every equality, and the first of them is the first match |
| Database.SelectAppend | connectors.py:378-381 | appending a row adds it to a selection exactly when it matches |
| Database.FirstMatchStable | connectors.py:242 | appending rows does not change which row matches first once one does |
| Database.Project | connectors.py:211-212 | each fetched tuple holds the requested columns of its row, in the requested order |
| Database.Fetch | connectors.py:183-215 | the fetch fails exactly when the table, a requested column or a constrained column is missing; otherwise it returns the named columns (all when none are named) of exactly the matching rows, in table order |
| Database.AppendedValid | connectors.py:318-337 | appending a row with a fresh AUTO_INCREMENT id keeps the table's invariants (columns present, integer ids, distinct) |
| Database.ExecuteValid | connectors.py:381 | running an INSERT keeps the invariants and only appends rows |
| Database.Insert | connectors.py:353-382 | a skipped insert had `fail_if_exists` set and a row matching on every column except `last_updated_at`; an insert that ran with the check found no such row; only a non-empty all-`str` record into known columns is inserted, appending exactly that row (the empty record's `INSERT INTO t () VALUES ("")` fails); a skip or a failure changes nothing |
| Database.GetOrCreate | connectors.py:217-244 | a non-root user gets None and nothing changes; otherwise at most one row is added, only to the named table, and any id returned is the id of the first row holding the value (when an id is returned is stated by `GetOrCreateFound` and `GetOrCreateNew`) |
| Database.InsertAndLookUp | connectors.py:236-242 | insert-then-refetch adds at most one row and any id it returns is the id of the first matching row |
| Database.GetOrCreateFound | connectors.py:232-244 | as root, a value that already has a row gets that row's id and no table changes, when no value carries a quote or backslash into the WHERE clause |
| Database.GetOrCreateNew | connectors.py:232-244 | as root, a non-empty record of `str` values without a quote or backslash and without a row in an AUTO_INCREMENT table gets exactly one new row, appended, and the returned id is that row's id, the counter's old value |
| Database.InsertAndLookUpNew | connectors.py:236-242 | for such a record, the insert runs and the refetch returns the new row's id |
| Database.LookUpNew | connectors.py:237-242 | after that insert, the refetch finds the new row alone, whose id is the counter's old value |
| Database.InsertNew | connectors.py:353-382 | with no matching row, a non-empty, known all-`str` record without an `id` and without a quote or backslash is inserted, appending exactly its row |
| Database.FetchOne | connectors.py:238-242 | a fetch of `id` whose constraints select one row returns that row's id alone |
| Database.FetchFirstId | connectors.py:232-242 | the id read from the fetched rows is the id of the first matching row |
| Database.MaskStable | connectors.py:232-244 | once a value has an id, every later lookup, after any inserts, returns the same id and adds no row |
| Database.MaskIdempotent | connectors.py:232-244 | a second lookup of a value returns the same id and changes no table |
| Database.MaskDistinct | connectors.py:318-337 | distinct raw values in one AUTO_INCREMENT mask table get distinct ids, whatever inserts happen between the lookups |
| Database.AutoIdsDistinct | connectors.py:318-320 | two rows of an AUTO_INCREMENT table have different ids |
| Database.NewRowMatches | connectors.py:369-381 | the row inserted for a record matches that record on every column except `last_updated_at`, so the duplicate check finds it |
| Database.InsertTwiceKeepsOne | connectors.py:367-377 | inserting a record again, with only `last_updated_at` changed, is skipped and leaves exactly one matching row |
| Database.Schema | connectors.py:289-337 | the six created tables satisfy the table invariants |
| Database.MySqlDb.constructor | connectors.py:286-337 | a fresh warehouse holds the created, empty tables and no views |
| Database.MySqlDb.FetchRecords | connectors.py:183-215 | builds the SELECT text and returns the fetch result |
| Database.MySqlDb.InsertRecord | connectors.py:353-382 | the duplicate check, statement build and execution, with the new tables and the outcome those of `Insert`, so the empty record fails and changes nothing |
| Database.MySqlDb.GetOrCreateMaskId | connectors.py:217-244 | fetch, insert when absent, fetch again, with the new tables and the outcome those of `GetOrCreate`, so `GetOrCreateFound` and `GetOrCreateNew` say when it returns an id |
| Database.MySqlDb.CreateView | connectors.py:384-392 | issues the CREATE OR REPLACE VIEW statement; the view now holds the query, and the tables are unchanged |
| MonitoringViews.ViewNameNoSlash | transform.py:90 | a view name never contains `/` |
| MonitoringViews.ViewNameOfFile | transform.py:90 | the file `<dir>/<name>.sql` defines the view `<name>` |
| MonitoringViews.ViewNameOfBase | transform.py:90 | only the last path component counts towards the name |
| MonitoringViews.LastFieldReplace | transform.py:90 | the first `.sql` in the last component is deleted and the rest is processed in turn |
| MonitoringViews.ViewNameEveryOccurrence | transform.py:90 | every `.sql` in the name is removed, not only a trailing one |
| MonitoringViews.Definitions | transform.py:89-91 | one (view name, query) pair per file, in listing order |
| MonitoringViews.ViewsAfterNamed | transform.py:89-92 | every listed file defines its view |
| MonitoringViews.ViewsAfterLastWins | transform.py:89-92 | when two files give the same view name, the later one's query wins |
| MonitoringViews.ViewsAfterOthers | transform.py:89-92 | views that no file names keep their queries |
| MonitoringViews.ViewsAfterStep | transform.py:92 | processing one more file replaces or adds exactly the view that file names |
| MonitoringViews.CreateMonitoringViews | transform.py:87-92 | one CREATE OR REPLACE VIEW per file, in order, defining the views of `Definitions`; no table changes |
| Subscriptions.ItemsOf | transform.py:71-72 | iterating succeeds exactly for a list, a dict or a string: a list gives its elements, a dict its keys in order, a string its characters in order, each as a one-character string |
| Subscriptions.DictOf | transform.py:71 | `dict(item)` of a dict is a copy of it |
| Subscriptions.Tagged | transform.py:71-72 | the comprehension yields one entry per item |
| Subscriptions.TaggedEntries | transform.py:71-72 | entry `k` is item `k` as a dict, with `user_id` set to the parent's id |
| Subscriptions.TaggedEntry | transform.py:71 | the tag sets `user_id` (overriding any value the item had) and keeps every other key |
| Subscriptions.EntriesTagged | transform.py:67-72 | a user contributes as many entries as their list holds, each with `user_id` set to the user's `id` |
| Subscriptions.EntriesKeepFields | transform.py:71 | an entry keeps every field of its dict item except `user_id` |
| Subscriptions.PerUser | transform.py:67-72 | part `k` holds the entries of user `k` |
| Subscriptions.ConcatAppend | transform.py:73 | `extend` over more parts appends their entries after those already gathered |
| Subscriptions.PerUserAppend | transform.py:67 | the parts of two concatenated user lists are the two lists' parts, in order |
| Subscriptions.AllEntriesAppend | transform.py:66-75 | flattening a concatenation of user lists puts the second list's entries after the first's |
| Subscriptions.AllEntriesSingle | transform.py:67-73 | a one-user list flattens to that user's entries |
| Subscriptions.GetSubscriptionData | transform.py:66-75 | the loop returns the users' entries concatenated in user order, or the first exception |
| Subscriptions.AllEntriesCount | transform.py:66-75 | the output length is the sum of the users' list lengths |
| Subscriptions.NoSubscriptionNoEntries | transform.py:69-70 | a user with an absent or empty `subscription` contributes nothing, wherever they stand |
| Transform.EmailRule | transform.py:48-52 | a string address containing `@` becomes the text between the first and second `@`, any other string or falsy value becomes None (also when the key is absent), and whatever else succeeds gives the same |
| Transform.Mask | transform.py:37-38 | a lookup keeps the table invariants and only appends rows |
| Transform.MaskIdOfStable | connectors.py:236-242 | once a value has an id in a table, later inserts leave that id unchanged |
| Transform.MaskGivesMaskId | transform.py:37-39 | a successful lookup returns the id the table keeps for the value afterwards |
| Transform.MaskIf | transform.py:36-39 | a falsy value runs no lookup and leaves the tables alone |
| Transform.MaskAll | transform.py:36-47 | the three lookups keep the invariants and only append rows |
| Transform.SanitizeUser | transform.py:29-53 | one user's step keeps the invariants and only appends rows |
| Transform.SanitizeAll | transform.py:27-55 | one sanitised record per input user when no exception is raised, and the caller's list keeps its length |
| Transform.MaskOne | transform.py:36-47 | one lookup on the connector, when the raw value is truthy |
| Transform.SanitizeOne | transform.py:29-53 | the loop body on the connector produces the step of `SanitizeUser` |
| Transform.SanitizeAllErrStep | transform.py:28 | after an exception, a further user only joins the caller's list |
| Transform.SanitizeAllStopped | transform.py:28-53 | after an exception, the rest of the list is left as it was |
| Transform.SanitizeSensitiveDataUsers | transform.py:11-55 | the loop produces the run of `SanitizeAll`: results, caller records and tables |
| TransformProofs.PromisedStable | transform.py:36-47 | one record's promises survive later inserts |
| TransformProofs.MaskedInStable | transform.py:36-47 | the ids a record holds stay the ones the tables keep after later inserts |
| TransformProofs.MaskIfResult | transform.py:36-39 | a lookup that ran returns the id the table keeps for the raw value |
| TransformProofs.AssignedAt | transform.py:39-52 | the four assignments, key by key: value and presence of every key afterwards |
| TransformProofs.RebuiltDropped | transform.py:25-30 | no output has `firstName`, `lastName` or `address` |
| TransformProofs.RebuiltKept | transform.py:29-30 | every other key is carried over, and keys the sanitiser does not write keep their values |
| TransformProofs.RebuiltAssigned | transform.py:39-52 | `city`, `zipcode`, `profile` and `email` hold the ids, the new profile and the email domain |
| TransformProofs.RebuiltSanitized | transform.py:25-52 | the rebuilt record meets all key-level promises of the sanitiser |
| TransformProofs.MaskAllSome | transform.py:36-47 | a lookup ran, and an id was recorded, exactly for each truthy raw value |
| TransformProofs.MaskAllSpec | transform.py:36-47 | each id recorded is the id its table keeps for the raw value after all three lookups |
| TransformProofs.DroppedKeeps | transform.py:29-34 | the lookups read the user's own city, zipCode, email and `profile.profession` |
| TransformProofs.SanitizeUserSanitized | transform.py:25-52 | one sanitised record drops the identifiers, carries the other keys, leaves falsy fields alone and holds the email domain |
| TransformProofs.SanitizeUserMasked | transform.py:34-47 | each masked field holds its table's id, and the caller's record shares the rewritten `profile` |
| TransformProofs.SanitizeUserSpec | transform.py:29-53 | both of the above for one step |
| TransformProofs.SanitizeAllOkStep | transform.py:28-53 | after a successful prefix, a further user's step is appended |
| TransformProofs.SanitizeAllAt | transform.py:27-55 | record `k` of a successful run keeps its promises against the final tables |
| TransformProofs.SanitizeAllLast | transform.py:27-55 | the last record of a successful run keeps its promises |
| TransformProofs.SanitizeAllEarlier | transform.py:27-55 | earlier records keep their promises as later users add rows |
| TransformProofs.SanitizeAllSpec | transform.py:27-55 | every record of a successful run, in input order, keeps its promises against the final tables |
| TransformProofs.SchemaMaskReady | connectors.py:318-337 | the three `sensitive_*` tables as created are AUTO_INCREMENT and have their value column |
| TransformProofs.MaskSucceeds | transform.py:36-47 | a lookup of a `str` without a quote or backslash in such a table never raises: a value with a row gets that row's id and changes nothing, a value without one gets exactly one new row and its id |
| TransformProofs.MaskAllSucceeds | transform.py:36-47 | the three lookups succeed when each value looked up is a `str` without a quote or backslash |
| TransformProofs.MaskAllOk | transform.py:36-47 | the three lookups together succeed when each one does |
| TransformProofs.MaskIfSucceeds | transform.py:36-47 | one optional lookup of a `str` value without a quote or backslash in a ready table succeeds and leaves the three tables ready |
| TransformProofs.SanitizeUserSucceeds | transform.py:29-53 | on such tables, a user whose `profile` is absent or a dict whose city, zipCode and profession are each falsy or a `str` without a quote or backslash, and whose email is falsy or a `str`, is sanitised without an exception |
| TransformProofs.SanitizeAllSucceeds | transform.py:27-55 | a list of such users is sanitised to the end |
| TransformProofs.MaskIdOfDistinct | connectors.py:318-337 | in an AUTO_INCREMENT table, ids are integers and equal exactly for equal raw values |
| TransformProofs.PseudonymCity | transform.py:36-39 | masked cities are integer ids, equal exactly when the raw cities are |
| TransformProofs.PseudonymZipcode | transform.py:40-43 | the same for zipcodes |
| TransformProofs.PseudonymProfession | transform.py:44-47 | the same for professions inside `profile` |
| TransformProofs.SanitizeAllPseudonyms | transform.py:27-55 | over a successful run, two users share a masked city exactly when they share the raw city |
| Load.Stringified | load.py:30 | the same keys in the same order, every value `str(v)` (None becomes "None") |
| Load.InsertBatch | load.py:27-38 | one outcome per record processed; the tables keep their invariants and only gain rows |
| Load.CountsNext | load.py:31-38 | one more insert adds one to exactly one of the two counters |
| Load.CountsAddUp | load.py:23-42 | `successful_inserts + failed_inserts == len(data)`, and the records actually inserted never exceed the successes |
| Load.NoFailures | load.py:36-42 | no failure is counted exactly when no insert raised |
| Load.SelectKept | connectors.py:375-377 | a matching row still matches after more rows are appended |
| Load.InsertLeavesRow | connectors.py:367-382 | an insert that did not raise leaves a matching row, new or already there |
| Load.BatchPersists | load.py:27-38 | after the first k + 1 + extra records of the batch, record k, unless it failed, has a matching row, whether inserted or skipped as a duplicate; later records never remove it |
| Load.BatchPersistsLast | load.py:31-35 | the record just processed, unless it failed, has its row |
| Load.PreparedDistinct | load.py:28-30 | stamping and stringifying keep the dict's keys distinct |
| Load.SetDistinct | load.py:29 | `d[k] = v` keeps the keys distinct |
| Load.BatchRows | load.py:27-38 | the table grows by exactly the number of inserts, and no other table changes |
| Load.BatchLastRows | load.py:31-35 | processing one more record grows the table by one exactly when that record is inserted, and changes no other table |
| Load.InsertFits | connectors.py:367-382 | inserting a non-empty stringified record whose columns the table has and whose values carry no quote or backslash never raises |
| Load.PreparedFits | load.py:28-30 | the stamp only adds `last_updated_at`, which the tables have, and a stamped record is never empty |
| Load.BatchSucceeds | load.py:23-42 | a batch whose records name only columns of the table, are non-empty unless stamped and carry no quote or backslash into the SQL reports no failure, so `_insert_data` returns True |
| Load.BatchLastSucceeds | load.py:31-35 | the last such record does not fail |
| Load.CleanSplicesAll | load.py:27-30 | quote-free SQL text for every stamped, stringified record is the record-by-record condition the batch lemmas take |
| Load.InsertNext | load.py:28-38 | one loop pass: stamp, stringify, insert, and count a success or a failure |
| Load.InsertData | load.py:8-42 | `_insert_data` leaves the tables of the batch and counts each outcome; the counts add up to `len(data)`, and it returns True exactly when nothing failed |
| Load.CheckIfPiiDataPresent | load.py:52-57 | True exactly when each of `city`, `zipcode` and `profession` is falsy or an int |
| Load.GuardIgnoresProfile | load.py:53-55 | whatever `profile` holds does not change the guard's verdict |
| Load.UserRow | load.py:64-75 | the mapping raises exactly when `profile` is present but not a dict; otherwise column `k` is named and sourced as `UserSources` (top-level keys) and `ProfileSources` (keys of the profile dict) list them, in order |
| Load.UserRowColumns | load.py:64-75 | the row's keys are the twelve `users_raw` columns, in table order |
| Load.UserTableColumns | connectors.py:289-296 | those columns plus `last_updated_at` are the columns `users_raw` is created with |
| Load.UserRowDistinct | load.py:64-75 | the row has distinct keys |
| Load.UserColumnNamesDistinct | load.py:64-75 | the twelve column names are pairwise distinct |
| Load.UserRowMasked | load.py:67-69 | `city_id` and `zipcode_id` take the top-level `city` and `zipcode` |
| Load.UserRowNoProfile | load.py:72-75 | without a profile, `gender`, `is_smoking`, `profession_id` and `income` hold None |
| Load.UserRowProfession | load.py:74 | `profession_id` comes from `profile.profession` |
| Load.GuardMissesNestedProfession | load.py:53-74 | a raw profession inside `profile` passes the guard and reaches `profession_id` |
| Load.Kept | load.py:60-63 | the guard keeps at most every user |
| Load.KeptExactly | load.py:60-63 | a user is kept exactly when it passes the guard |
| Load.UserRowsOfKept | load.py:59-76 | the rows are the kept users' rows in order, and mapping fails exactly when a kept user's mapping does |
| Load.UserRowsStopped | load.py:59-76 | after a mapping exception, later users do not matter |
| Load.GuardDropsSilently | load.py:61-63 | a rejected user leaves no row and no failure count |
| Load.MapUsers | load.py:59-76 | the guard-and-map loop builds the rows of `UserRows` |
| Load.InsertUserData | load.py:44-77 | a mapping exception propagates before any insert; otherwise the kept users' rows are loaded and the result says whether none failed |
| Load.UserLoadSucceeds | load.py:59-77 | on `users_raw` as created, loading users whose rows carry no quote or backslash into the SQL never counts a failure |
| Load.UserRowsFit | load.py:59-77 | every row built for a kept user names only columns of `users_raw` |
| Load.UserRowFits | load.py:64-75 | the twelve keys of one user's row are columns of `users_raw` |
| Load.UserRowsClean | load.py:59-77 | quote-free SQL text for every kept user's stamped row is the condition the batch lemmas take on the rows `insert_user_data` passes on |
| Load.Mapped | load.py:89-95 | one column per listed pair, in order, each holding `record.get(key)` |
| Load.MappedIgnores | load.py:107-115 | fields the mapping does not list never reach the row |
| Load.SubscriptionRowColumns | load.py:89-95 | a subscription row holds the `subscriptions_raw` columns in table order, `last_updated_at` aside |
| Load.MessageRowColumns | load.py:109-113 | a message row holds each `messages_raw` column, `last_updated_at` aside |
| Load.MessageTextIgnored | load.py:107-115 | the message text never reaches the warehouse |
| Load.MapAll | load.py:87-96 | the loop yields one row per record, in order |
| Load.MappedAll | load.py:87-96 | one row per record, in order |
| Load.InsertSubscriptionData | load.py:80-97 | maps each subscription and loads the rows; the result says whether none failed |
| Load.InsertMessageData | load.py:99-115 | maps each message and loads the rows; the result says whether none failed |
| Load.SubscriptionTableColumns | connectors.py:301-308 | `subscriptions_raw` is created with every column a subscription row names |
| Load.MessageTableColumns | connectors.py:310-316 | `messages_raw` is created with every column a message row names |
| Load.MappedLoadSucceeds | load.py:87-97 | a mapping onto columns the table has never produces a failed insert when the mapped rows carry no quote or backslash |
| Load.MappedAllFit | load.py:87-96 | every mapped row fits such a table |
| Load.MappedFits | load.py:89-95 | one mapped row fits such a table |
| Load.SubscriptionLoadSucceeds | load.py:87-97 | on `subscriptions_raw` as created, loading subscriptions whose rows carry no quote or backslash never counts a failure |
| Load.MessageLoadSucceeds | load.py:107-115 | on `messages_raw` as created, loading messages whose rows carry no quote or backslash never counts a failure |

## Left out

- HTTP: `SparkApiConnector` (`_fetch_data`, `fetch_user_data`, `fetch_messages_data`, `_check_api_reponse`) is network I/O and JSON decoding. The records arrive as `Json.Value`s. The unbound `response` in the `except` branch of `_fetch_data` (connectors.py:435) is not modelled.
- Connection management (`_initialise_db_connection`, `_close_db_connection`, `check_db_availability`, `_run_query`) is a retry loop with sleeps and `exit(1)` around the MySQL driver. The in-memory tables replace it.
- `initialise_db_and_create_tables`: the DDL, GRANT and DROP statements are not modelled. `Database.Schema` is the set of tables as created. The model does not capture that the drops run before the non-root check (connectors.py:259-283), so a non-root caller with `drop_if_exists` drops tables and only then is refused.
- MySQL semantics beyond equality on stored values: collation (case and trailing-space insensitive comparison), `VARCHAR` length limits, type coercion in WHERE comparisons, and `NULL` never being equal in a WHERE clause. Stored values are compared by exact equality.
- Database.Fetch, Database.Insert, Database.GetOrCreate: values are spliced into the SQL text verbatim, as in the source: into the WHERE clause (connectors.py:142-146) and into the VALUES list (connectors.py:123-127). The model applies a record to the tables directly instead of parsing the statement. A `'`, `"` or `\` inside a value therefore never fails here, while MySQL rejects such a statement or reads an escape (`''`, `\'`) as another value. So the success lemmas require every spliced value to be free of them (`Sql.UnquotedValues`, `Load.CleanSplices`, `TransformProofs.Lookable`): Database.GetOrCreateFound, Database.GetOrCreateNew, Database.InsertAndLookUpNew, Database.InsertNew, Load.InsertFits, Load.BatchSucceeds, Load.BatchLastSucceeds, Load.UserLoadSucceeds, Load.MappedLoadSucceeds, Load.SubscriptionLoadSucceeds, Load.MessageLoadSucceeds, TransformProofs.MaskSucceeds, TransformProofs.MaskIfSucceeds, TransformProofs.MaskAllSucceeds, TransformProofs.SanitizeUserSucceeds and TransformProofs.SanitizeAllSucceeds say nothing about a value that holds one.
- `Database.Execute` rejects a record that names the `id` of an AUTO_INCREMENT table, which MySQL would accept. No caller in the job names it.
- Floating-point values: `Json.Value` has no float case, so amounts and incomes are ints or strings.
- `datetime.now()` becomes the parameter `now`. The loader's `database` parameter is ignored: there is one warehouse.
- `glob` and file reading in `create_monitoring_views`: the files arrive as (path, contents) pairs in listing order.
- `etl.py` orchestration is not part of this model. It calls `sanitize_sensitive_data_users` without the required `root_password` argument.
- `print` logging everywhere.
- `users_data.copy()` is shallow, so the sanitiser's write to `profile` reaches the caller's record. The model returns the caller's records after the call as a list (`Transform.SanitizeSensitiveDataUsers`). It does not model aliasing beyond that dict.
- Load.InsertData: does not return the caller's dicts with `last_updated_at` written into them in place (load.py:29). Every loader passes freshly built dicts, so no caller can observe that write.
- Json.Repr: Python's `repr` switches to double quotes for a string containing `'` and escapes backslashes and control characters. The model always uses single quotes and copies the text verbatim. Only the WHERE text of non-`str` values and the stringified lists and dicts of `_insert_data` are affected.
- Subscriptions.PairOf: `dict()` accepts any hashable key, but `Json.Record` keys are strings, so a pair with a non-`str` first element is treated as an error.
- Database.MySqlDb.CreateView: never fails. MySQL rejects an invalid view query or name, but the model does not parse SQL, so any query is stored under the name.
- Sql.InsertStatementDecodes, Sql.WhereClauseDecodes, Sql.SelectQueryDecodes: the text decodes back only when no piece contains its separator. A `"` inside a value makes the INSERT malformed SQL anyway, because the source does not escape it.
- Transform.SanitizeUser, Transform.MaskAll, Transform.Mask: their own contracts state only that the tables keep their invariants and only gain rows. What a step produces is stated by the lemmas in `TransformProofs`.
