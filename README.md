# Weave sync server: the record store and the request handler

This project models the core of the Weave sync server (PHP) in Dafny:

- the per-user store of Weave Basic Objects (WBOs), `WeaveStorageMysql`;
- the select-then-delete emulation of `WeaveStorageSqlite::delete_objects`;
- the request handler `server/index.php`.

The handler parses the credentials and the path, checks the guards and
authenticates. It then serves GET, PUT, POST and DELETE against the store, and
streams listings through `WBOJsonOutput`. The project proves properties of the
model.

Modules, one per concern:

| file | module | what it holds |
|---|---|---|
| `wrappers.dfy` | `Wrappers` | `Option` |
| `php.dfy` | `Php` | PHP semantics the core relies on |
| `records.dfy` | `Records` | the WBO, the `wbo` row, and the update merge |
| `query.dfy` | `Query` | the shared filter, its ordering, limit and offset |
| `namespace.dfy` | `Namespace` | the collection namespace |
| `mysql_storage.dfy` | `MysqlStorage` | the tables as a `Database` object, and `WeaveStorageMysql` as a class over it |
| `sqlite_storage.dfy` | `SqliteStorage` | the SQLite store's `delete_objects` |
| `handler.dfy` | `Handler` | `index.php` as a method over a request, an environment of foreign calls, the database and the clock |

`php.dfy` covers truthiness, `strtolower`, `explode`, array assignment and `intval`.

### Modelling conventions

- **Tables and fields.** The `wbo` table is a map from the key
  `(username, collectionid, id)` to a row. The `collections` table is a
  sequence of mappings in insertion order. A lookup returns the first matching
  row, as `fetchColumn` does. A WBO field exists exactly when it is `Some`.
- **Timestamps** are integers counting hundredths of a second. Rounding to two
  decimals is therefore the identity, and the current time is a parameter
  `now`.
- **SQL ordering.** SQL leaves unspecified the order of rows that tie on the
  sort key, so a listing is specified relationally (`Query.IsListing`). A
  listing is the window of *some* enumeration of the selected rows that
  respects the ORDER BY. `Query.Select` computes one such listing.
- **Calls the core makes but does not define** are fields of
  `Handler.Environment`. These are base64 decoding, authentication, the user
  alert, the `wbo` class's JSON extraction, validation and encoding,
  `json_decode` of a batch, and the float parse of a timestamp header. A
  failure to open the store is also a field of the environment.
- **Database errors.** A statement the database rejects, which the source turns
  into the exception "Database unavailable" (503), is a `false` result.

### Where the model follows questionable code

The model does what the code does:

- **MySQL `delete_objects`.** Its interface accepts an offset
  (`server/sync/1.0/weave_storage.php:105`), and the MySQL code appends
  `OFFSET m` to the DELETE after a limit
  (`server/sync/1.0/weave_storage.php:740-746`). MySQL rejects a DELETE with an
  offset, so the model returns `false` for every such combination.
- **Limit and offset values.** `limit` and `offset` are whatever `intval` makes
  of a truthy value, which may be negative. A negative value makes MySQL reject
  the statement. SQLite reads a negative limit as no bound and a negative
  offset as zero.
- **`store_object`'s argument.** The handler passes the single `$wbo` to
  `store_object(&$wbos)`, which iterates a list
  (`server/index.php:236`, `server/index.php:311`). The model passes a
  one-element list, which is evidently what is meant.

## Model

| member | source | states |
|---|---|---|
| `Php.ToLower` | server/index.php:119-120 | lowercasing keeps the length, leaves no upper-case letter, and changes no other character |
| `Php.ToLowerIdempotent` | server/index.php:136 | lowercasing the already lowercased auth user again changes nothing |
| `Php.Explode` | server/index.php:116 | `explode` gives one more piece than there are separators, and no piece contains the separator |
| `Php.ImplodeExplode` | server/index.php:96 | joining the pieces of `explode` with the separator gives back the original string |
| `Php.ExplodeSplit` | server/index.php:116 | a prefix without the separator, followed by the separator, is the first piece, and the rest splits on its own |
| `Php.ArraySet` | server/index.php:296 | `$a[$k] = $v` adds `k` to the keys. An existing key is replaced in its place; a new key is appended. Distinct keys stay distinct |
| `Php.ArraySetGet` | server/index.php:320 | after `$a[$k] = $v`, reading `k` gives `v`, and every other key reads as before |
| `Php.IntValOfDecimal` | server/sync/1.0/weave_storage.php:742 | `intval` of the decimal text of any integer, negative ones included, is that integer |
| `Records.PayloadSize` | server/sync/1.0/weave_storage.php:529-531 | `payload_size` is present exactly when the payload is, and is then its length in bytes |
| `Records.WithTimestamp` | server/sync/1.0/weave_storage.php:595-607 | a record that writes `modified` but has none gets one. Every other field is unchanged; a record with a timestamp, or one that does not write `modified`, is unchanged |
| `Records.ContentUpdateTimestamps` | server/sync/1.0/weave_storage.php:596-605 | an update carrying parentid or payload always leaves the row with a timestamp. That is the record's own timestamp when it had one |
| `Records.MergeFields` | server/sync/1.0/weave_storage.php:567-593 | update overwrites exactly the present parentid, predecessorid, sortindex and payload (payload_size follows the payload) and keeps every absent one |
| `Records.WeightOnlyKeepsModified` | server/sync/1.0/weave_storage.php:595-596 | a sortindex-only change leaves `modified`, and every field but sortindex, untouched |
| `Records.ContentUpdateSetsModified` | server/sync/1.0/weave_storage.php:596-606 | with parentid or payload present, the row's `modified` becomes the record's |
| `Records.MergeFullIsStore` | server/sync/1.0/weave_storage.php:536-539 | an update carrying every field is the wholesale replacement `store_object` performs |
| `Query.Window` | server/sync/1.0/weave_storage.php:869-876 | without a truthy limit, the whole ordered result. With one, `min(limit, rows after the offset)` rows, where the offset counts only inside a limit |
| `Query.BeforeIsStrictOrder` | server/sync/1.0/weave_storage.php:856-867 | each ORDER BY (`index`, `newest`, `oldest`, or none) is a strict order: irreflexive and transitive |
| `Query.Select` | server/sync/1.0/weave_storage.php:795-887 | evaluating the select on valid limits returns a listing of the filter: a window of an ordered enumeration of exactly the selected rows |
| `Query.ListingProperties` | server/sync/1.0/weave_storage.php:795-876 | every listing holds distinct selected ids, in an order the ORDER BY allows. Its length is the count the limit and offset leave |
| `Query.ListingWithoutLimit` | server/sync/1.0/weave_storage.php:869-876 | without a truthy limit, a listing holds every selected row exactly once |
| `Query.SingleIdListing` | server/sync/1.0/weave_storage.php:801-805 | asking for one truthy id lists that record when it exists, and nothing otherwise |
| `Query.ListingIsTopRows` | server/sync/1.0/weave_storage.php:856-876 | with a limit and no offset, no selected row left out comes strictly before one listed |
| `Query.MaxModified` | server/sync/1.0/weave_storage.php:385 | `max(modified)` is NULL exactly when no row has a timestamp. Otherwise it is one row's timestamp, and no row's is larger |
| `Query.IndexBindingCounterexample` | server/sync/1.0/weave_storage.php:832-842 | as written, `index_above=3` without a parentid rejects a row with sortindex 5, which the intended filter selects |
| `Query.IndexBoundsSelectRange` | server/sync/1.0/weave_storage.php:832-842 | with the intended binding, the index bounds select exactly the rows whose sortindex lies strictly between them |
| `Namespace.WellKnownNamesIsInverse` | server/sync/1.0/weave_storage.php:163-172 | the initial id-to-name cache is the exact inverse of the ten fixed names, over ids 1 to 10 |
| `Namespace.FindId` | server/sync/1.0/weave_storage.php:255-268 | the fetched id is the id from a row with that user and name, and nothing is fetched when there is no such row |
| `Namespace.MaxId` | server/sync/1.0/weave_storage.php:283-294 | `max(collectionid)` is NULL exactly when the user has no row. Otherwise it is one of the user's ids, and no id of theirs is larger |
| `Namespace.NextId` | server/sync/1.0/weave_storage.php:294-297 | the allocated id exceeds every id of the user. It is 101 for a user without mappings, and otherwise the maximum plus one |
| `Namespace.UserNames` | server/sync/1.0/weave_storage.php:353-369 | the loaded cache holds exactly the user's ids, each with a name some row gives it |
| `Namespace.FirstAllocationIs101` | server/sync/1.0/weave_storage.php:294-297 | a user's first custom collection gets id 101 |
| `Namespace.FindIdAppend` | server/sync/1.0/weave_storage.php:268-271 | inserting a mapping never changes an id already found. It can only answer a name that had none |
| `Namespace.NextIdAboveFloor` | server/sync/1.0/weave_storage.php:295-297 | in a table of custom ids, the next id is above 100 too |
| `Namespace.AllocationKeepsWellFormed` | server/sync/1.0/weave_storage.php:294-307 | the allocator keeps custom ids above 100, ids unique per user, and names unique per user |
| `Namespace.AllocationResolves` | server/sync/1.0/weave_storage.php:268-307 | allocating for an unresolved name returns a fresh id above 100, which the name now resolves to. Every other (user, name) resolves as before, and the table stays well-formed |
| `Namespace.ResolutionIsStable` | server/sync/1.0/weave_storage.php:268-272 | once a name resolves, later insertions leave its id unchanged |
| `Namespace.UserNamesInjective` | server/sync/1.0/weave_storage.php:349-369 | the loaded names are distinct, their ids are custom, and none of them is a well-known name |
| `MysqlStorage.ScopeOf` | server/sync/1.0/weave_storage.php:385 | the rows `where username = ? and collection = ?`, by record id |
| `MysqlStorage.CollectionsOf` | server/sync/1.0/weave_storage.php:444 | the groups of `group by collection` are exactly the collection ids in which the user has a row |
| `MysqlStorage.Without` | server/sync/1.0/weave_storage.php:665-669 | a delete removes exactly the named records of one user's collection and keeps every other row as it was |
| `MysqlStorage.Upsert` | server/sync/1.0/weave_storage.php:517-539 | the multi-row upsert writes every key of the batch, the last entry for a key winning, and keeps every other row |
| `MysqlStorage.Entries` | server/sync/1.0/weave_storage.php:524-531 | one entry per record: its resolved key and the wholesale row |
| `MysqlStorage.CacheSurvivesAllocation` | server/sync/1.0/weave_storage.php:294-307 | allocating a collection id keeps every cached id-to-name pair valid |
| `MysqlStorage.CacheSurvivesLoad` | server/sync/1.0/weave_storage.php:366-369 | loading the user's mappings into a valid cache keeps it valid |
| `MysqlStorage.LoadKeepsCached` | server/sync/1.0/weave_storage.php:366-369 | loading never drops or renames an id the cache already holds |
| `MysqlStorage.NamedAggregatesSound` | server/sync/1.0/weave_storage.php:467-472 | with distinct names, each named group appears under its name with its own aggregate, and every key names some group |
| `MysqlStorage.CacheInjective` | server/sync/1.0/weave_storage.php:368 | no two ids of a valid cache carry the same name, so keying the list by name loses no collection |
| `MysqlStorage.Groups` | server/sync/1.0/weave_storage.php:444 | `group by collection` yields each of the user's collection ids exactly once |
| `MysqlStorage.WeaveStorageMysql.constructor` | server/sync/1.0/weave_storage.php:169-172 | the store serves the given user, and its name cache starts as the flip of the fixed table |
| `MysqlStorage.WeaveStorageMysql.BeginTransaction` | server/sync/1.0/weave_storage.php:223-235 | records one Begin and changes no table |
| `MysqlStorage.WeaveStorageMysql.CommitTransaction` | server/sync/1.0/weave_storage.php:237-241 | records one Commit and changes no table |
| `MysqlStorage.WeaveStorageMysql.GetCollectionId` | server/sync/1.0/weave_storage.php:243-276 | 0 for a falsy name. A well-known name gets its fixed id without consulting the table. Otherwise a stored non-zero id is returned unchanged, or exactly one new mapping `NextId` is inserted. Afterwards the name resolves to the result |
| `MysqlStorage.WeaveStorageMysql.StoreCollectionId` | server/sync/1.0/weave_storage.php:278-317 | inserts exactly one mapping, with id max+1 and a floor of 100, and changes nothing else |
| `MysqlStorage.WeaveStorageMysql.LoadUserCollections` | server/sync/1.0/weave_storage.php:349-373 | the cache becomes the old cache overwritten by every (id, name) row of the user, later rows winning, and stays valid |
| `MysqlStorage.WeaveStorageMysql.GetMaxTimestamp` | server/sync/1.0/weave_storage.php:376-401 | 0 for a falsy name. Otherwise it is the latest `modified` of the user's rows in that collection, NULL without one; only the collection's resolution may change the tables |
| `MysqlStorage.WeaveStorageMysql.StoreObject` | server/sync/1.0/weave_storage.php:514-552 | succeeds exactly for a non-empty batch whose records all have ids. Every record's row is then replaced wholesale under its resolved key, and all other rows are unchanged; only the batch's names are resolved |
| `MysqlStorage.WeaveStorageMysql.ResolveCollections` | server/sync/1.0/weave_storage.php:524-532 | resolves each record's collection in order. Only those names are allocated, and each returned id is the one its name now resolves to |
| `MysqlStorage.WeaveStorageMysql.UpdateObject` | server/sync/1.0/weave_storage.php:554-634 | returns 0, touching nothing, exactly when id or collection is falsy or no field is present. Otherwise it returns 1 after timestamping the record when needed. The existing row under the key takes the merge, and no other row changes |
| `MysqlStorage.WeaveStorageMysql.DeleteObject` | server/sync/1.0/weave_storage.php:636-657 | removes exactly the row with this key, if any |
| `MysqlStorage.WeaveStorageMysql.RetrieveObjects` | server/sync/1.0/weave_storage.php:788-904 | valid exactly when the window is valid. It then returns a listing of the filter with each listed record's row, and changes no row |
| `MysqlStorage.WeaveStorageMysql.DeleteObjects` | server/sync/1.0/weave_storage.php:659-760 | valid exactly when the window is valid and no offset rides on a limit. It then removes exactly the rows of a listing of the same filter; otherwise it removes nothing |
| `MysqlStorage.WeaveStorageMysql.RemoveRows` | server/sync/1.0/weave_storage.php:749-758 | the DELETE statement removes exactly the listed records of one collection |
| `MysqlStorage.WeaveStorageMysql.DeleteUser` | server/sync/1.0/weave_storage.php:936-953 | removes every row of the user, keeps every other row, and keeps the collections table |
| `MysqlStorage.WeaveStorageMysql.NameGroups` | server/sync/1.0/weave_storage.php:457-473 | reloads the user's mappings at most once, and only if some id was not cached. Ids still unknown are dropped; every named group is listed under its name with its aggregate |
| `MysqlStorage.WeaveStorageMysql.GetCollectionListWithTimestamps` | server/sync/1.0/weave_storage.php:440-475 | each named collection of the user maps to its latest `modified`. Every key is such a name, a collection the table names is never dropped, and the mappings are not reloaded when every group is already cached |
| `MysqlStorage.WeaveStorageMysql.GetCollectionListWithCounts` | server/sync/1.0/weave_storage.php:477-512 | each named collection of the user maps to its number of rows. Every key is such a name, a collection the table names is never dropped, and the mappings are not reloaded when every group is already cached |
| `SqliteStorage.ScopeIn` | server/sync/1.0/weave_storage.php:1416-1417 | the rows `where collection = ?` of the user's file, by record id |
| `SqliteStorage.RemoveIds` | server/sync/1.0/weave_storage.php:1284-1285 | `delete ... where collection = ? and id in (...)` removes exactly those records and keeps every other row |
| `SqliteStorage.SqliteWindow` | server/sync/1.0/weave_storage.php:1502-1509 | SQLite's reading of the window: a negative limit is no bound, a negative offset is zero, and every other filter is kept |
| `SqliteStorage.SqliteWindowMeaning` | server/sync/1.0/weave_storage.php:1502-1509 | a valid window is used as given. A negative limit lists every selected row past the offset, and any listing is distinct, selected and ordered |
| `SqliteStorage.DirectDeleteIsRetrieve` | server/sync/1.0/weave_storage.php:1287-1370 | without a limit, offset or sort, every listing `retrieve_objects` may return holds exactly the rows the direct DELETE removes |
| `SqliteStorage.WeaveStorageSqlite.RetrieveIds` | server/sync/1.0/weave_storage.php:1408-1537 | lists ids under SQLite's window, as a listing of the filter |
| `SqliteStorage.WeaveStorageSqlite.DeleteObjects` | server/sync/1.0/weave_storage.php:1266-1383 | with a truthy limit, offset or sort, it deletes exactly the ids `retrieve_objects` lists, so `delete` removes what `retrieve` lists. An empty list deletes nothing; otherwise every selected row is deleted |
| `SqliteStorage.PredecessorBindingCounterexample` | server/sync/1.0/weave_storage.php:1319-1323 | as written, deleting by predecessorid alone removes nothing, although `retrieve_objects` with the same filter lists the row |
| `SqliteStorage.UpdateGatingCounterexample` | server/sync/1.0/weave_storage.php:1183-1193 | as written, a predecessorid-only update does nothing, and a parentid update without a predecessorid clears the stored one. The intended merge sets it and keeps it respectively |
| `SqliteStorage.UpdateAsWrittenAgreesWithMerge` | server/sync/1.0/weave_storage.php:1170-1227 | when predecessorid is present exactly with parentid, the SQLite update is the intended merge |
| `Handler.StatusLineNamesCode` | server/index.php:48-53 | exactly codes 400, 401, 404, 412 and 503 have a status line, and each line starts with its code and a space |
| `Handler.ReportProblem` | server/index.php:46-61 | the response carries the code and the message, and keeps the headers already sent. It adds the status line, plus the Basic challenge exactly for 401 |
| `Handler.BasicHeaderSuppliesCredentials` | server/index.php:72-101 | a header "Basic t" whose decoding is "u:p" supplies exactly the user u and the password p |
| `Handler.MalformedBasicLeavesCredentialsUnset` | server/index.php:95-101 | a decoded text with no ':' or with several leaves user and password null |
| `Handler.SplitPathFull` | server/index.php:108-119 | "/u/c/i", with or without more segments, names user `lower(u)`, collection c and id i |
| `Handler.SplitPathCollection` | server/index.php:115-116 | "/u/c" names an empty id |
| `Handler.SplitPathUser` | server/index.php:115-116 | "/u" names only the user, and "/" and "" name nobody |
| `Handler.AdmissionConditions` | server/index.php:122-146 | a request passes exactly when the path names a user equal to the lowercased auth user, a collection is named unless the method is GET, and authentication accepts. An empty user gives 400 "3" |
| `Handler.ConflictOnlyReadsTheCollection` | server/index.php:220-221 | the precondition depends only on the rows and on the id the collection resolves to |
| `Handler.UnmodifiedPasses` | server/index.php:220-222 | a collection with no timestamp later than the header passes the precondition |
| `Handler.QueryFiltersSelect` | server/index.php:186-192 | with the intended argument positions, a row is selected exactly when it meets each given parentid, newer and older parameter |
| `Handler.ArgumentShiftCounterexample` | server/index.php:186-192 | as written, `?newer=5` filters on predecessorid "5" and drops a row newer than 5, which the intended call lists |
| `Handler.StepOf` | server/index.php:291-304 | a fragment that extracts and validates becomes a write carrying the path's collection and the batch time. The write is a store exactly when a payload is present |
| `Handler.Steps` | server/index.php:291 | the batch is attempted element by element, in order |
| `Handler.BatchAccounting` | server/index.php:277-329 | successes plus failures count every element. Failure keys are distinct, and each key holds its last failure's message |
| `Handler.SuccessIdsAreSucceeding` | server/index.php:277-323 | `$success_ids` lists exactly the ids of the steps that succeed, each once, in batch order |
| `Handler.ApplyStep` | server/index.php:304-316 | a write that does not resolve the collection leaves the rows alone, and no write touches another key |
| `Handler.QuietStepsKeepRows` | server/index.php:291-329 | a batch none of whose writes reaches the store leaves the rows as they were |
| `Handler.BatchKeepsOtherRows` | server/index.php:291-329 | rows of other users and collections are untouched by a batch |
| `Handler.ApplyFragment` | server/index.php:306-323 | a fragment's write fails exactly when it is rejected or is a store without an id. The rows become the step applied, and only the path's collection is allocated |
| `Handler.RunBatch` | server/index.php:291-329 | every element is attempted in order with the same time, and a failure does not stop the loop. `success` and `failed` are exactly the batch's successes and failures, and the rows are all steps applied |
| `Handler.BatchElement` | server/index.php:293-328 | one pass of the loop extends `success` or assigns `failed` for element i, and applies its write |
| `Handler.JoinCommaSplits` | server/index.php:403-418 | items without commas can be read back from the listing text |
| `Handler.ItemsOf` | server/index.php:408-415 | each fetched row becomes its full JSON when `full` is truthy, and its id's JSON otherwise |
| `Handler.WBOJsonOutput.constructor` | server/index.php:393-399 | a fresh writer has not written anything and its comma flag is clear |
| `Handler.WBOJsonOutput.Output` | server/index.php:401-420 | writes "[", the items separated by single commas, then "]". A used writer's flag adds a leading comma; returns 1 |
| `Handler.ListingStep` | server/index.php:407 | writing a comma before every item except a fresh writer's first keeps putting exactly one comma between items |
| `Handler.WriteListing` | server/index.php:182-189 | a fresh writer produces "[a,b,...]", and "[]" for no rows |
| `Handler.CheckUnmodified` | server/index.php:220-222 | reports a conflict exactly when the header is present and the collection's latest timestamp is later. It writes no row |
| `Handler.GetRecord` | server/index.php:164-179 | the record under the path's key, or 404 "record not found" when there is none |
| `Handler.GetListing` | server/index.php:180-198 | a listing of the query's filters written out by a fresh writer, or 503 for an invalid window |
| `Handler.HandleGet` | server/index.php:149-199 | GET changes no row. It serves the collection list, one record or a listing, and reports a store that fails to open |
| `Handler.PutRecord` | server/index.php:224-228 | the path's id is used only when the body has no truthy id. The collection and time are the path's and now; all else is the body's |
| `Handler.PutStep` | server/index.php:234-238 | a record with a payload is stored, one without is updated |
| `Handler.HandlePut` | server/index.php:200-250 | 400 "6", 412 "4" and 400 "8" exits come before any record is written (the 412 and 400 "8" paths may allocate the collection id). Otherwise the store or update is applied and the response is the assigned timestamp, or 503 for a store without an id |
| `Handler.PostBatch` | server/index.php:272-332 | a conflict ends with 412 "4" before any write. Otherwise one Begin and one Commit surround the whole batch; the response has the shared timestamp, the successes and the failures |
| `Handler.HandlePost` | server/index.php:251-333 | an undecodable or empty body gives 400 "6" and touches nothing. Otherwise it behaves as `PostBatch` |
| `Handler.HandleDelete` | server/index.php:334-380 | after the precondition, an id deletes that record, and no id deletes a listing of the query's filters. Either way the response is the timestamp, or 503 for an invalid window or for a truthy limit together with an offset |
| `Handler.Handle` | server/index.php:64-385 | a refused request gets the admission's response and touches no table, and an unknown method gets 400 "1". No response but 200 changes a row; only POST uses a transaction; GET changes no row |

## Left out

- PDO connections, the engine factories and `heartbeat`. The store is handed its `Database` object.
- SQL text. A statement is modelled by what it selects or changes.
- Exceptions other than those the contracts name. A statement the database rejects returns `false`. An exception from opening the store is `Environment.storageFailure`. An exception from authentication is `AuthOutcome.Thrown`. `begin_transaction` and `update_object` never fail here.
- Transactions are recorded as Begin and Commit events only. The source has no rollback path. Concurrent requests and racing id allocation are concurrency, which the model does not cover.
- `microtime` and float `round` are replaced by the parameter `now` and integer hundredths.
- Timestamps keep their hundredths, as the handler's `round(..., 2)` at `server/index.php:332` and `server/index.php:349` implies. The schema comment at `server/sync/1.0/weave_storage.php:144` declares `modified` as `bigint(20)`, under which a stored timestamp would lose its hundredths; the model does not follow that commented column type.
- The float parse of the `X-If-Unmodified-Since` header and of `newer` and `older` is the environment function `centis`.
- `get_collection_name` and `get_collection_list` are left out as broken: the first reads an undefined variable and the second misuses a constant. A GET of the root answers the opaque `Body.CollectionList`.
- `retrieve_object` is left out because the handler does not call it.
- `get_storage_total` is left out: it is SQL decimal arithmetic, and nothing in the handler uses it.
- `get_user_quota` returns the configured constant, `Records.WEAVE_QUOTA` (5000). It has no behaviour worth a contract, and the handler does not call it.
- `create_user` is left out: it does nothing on the MySQL side.
- The other `WeaveStorageSqlite` operations, and the SQLite file creation and removal, are left out. They are file-system work and the same statements already modelled for MySQL.
- The `wbo` class (`weave_basic_object.php`) is not part of this model. Its `extract_json`, `validate`, `get_error` and `json` are environment functions. `payload_size` is the payload's byte length. The payload size limit lives in `wbo::validate`, so it is part of the environment's `validate`.
- `server/weave_authentication.php` and `server/user/1/weave_user.php` are not part of this model. Authentication and the user alert are environment values.
- `header`, `echo` and `exit` become the `Response` value. The body's exact JSON encoding is not modelled.
- `Handler.Guard` compares the user names as strings. PHP's `!=` compares two numeric strings as numbers, so for PHP "10" equals "1e1"; the model does not capture this.
- `Handler.HandlePost` treats any non-array `json_decode` result as falsy. A truthy scalar body, which PHP's `foreach` would refuse with a warning, is not modelled.
- The column types in the schema comment are not modelled. `collectionid smallint(6)` (`server/sync/1.0/weave_storage.php:131`) caps ids at 32767, so a `Namespace.NextId` past that would fail the insert; here ids are unbounded. `name varchar(32)` (line 132) may truncate or reject a long name; here names have any length. `userid` and `username` are `int(11)` (lines 130 and 138) but are bound to string user names; here they are strings. The `name` column's default collation is case-insensitive, so `name = :collection` (line 255) would find a stored "Foo" for "foo"; `Namespace.FindId` compares names exactly and would allocate a second id.
- PHP arrays with numeric keys are not modelled. `$failed_ids` is keyed by strings; a record id such as "5" would become an integer key in PHP, which changes only the JSON encoding.
- `intval` overflow on very long digit strings is not modelled. Integers are unbounded.
- `MysqlStorage.WeaveStorageMysql.StoreObject` assumes that an id-less record violates `id NOT NULL`, as it does in MySQL's strict mode. In non-strict MySQL, "" would be stored instead.

## Findings

| source | as written | input that shows it | evidently intended | confidence | as-written member | corrected member |
|---|---|---|---|---|---|---|
| server/sync/1.0/weave_storage.php:832-842 | `index_above` and `index_below` bind `$parentid` instead of their own value. The same happens at lines 703-713, 1325-1335 and 1465-1475 | `index_above=3`, no parentid, a row with sortindex 5 | compare sortindex with the bound's own value | not executed | `Query.IndexBindingCounterexample` | `Query.IndexBoundsSelectRange` |
| server/sync/1.0/weave_storage.php:1319-1323 | the direct SQLite DELETE compares `predecessorid` with `$parentid` | `predecessorid=p`, no parentid, a row with predecessorid p | bind `$predecessorid`, as `retrieve_objects` does | not executed | `SqliteStorage.PredecessorBindingCounterexample` | `SqliteStorage.DirectDeleteIsRetrieve` |
| server/sync/1.0/weave_storage.php:1189-1193 | SQLite `update_object` writes `predecessorid` when `parentid` exists | a record with only a predecessorid; or one with a parentid and no predecessorid, over a row whose predecessorid is "x" | write `predecessorid` when it exists, as the MySQL store does | not executed | `SqliteStorage.UpdateGatingCounterexample` | `Records.MergeFields` |
| server/index.php:186-192 | the query values are passed one position early. `newer` lands in `predecessorid`, `older` in `newer`, and so on; the DELETE call at lines 366-372 does the same | `?newer=5` and a row with a timestamp above 5 | pass each value in its own position | not executed | `Handler.ArgumentShiftCounterexample` | `Handler.QueryFiltersSelect` |
