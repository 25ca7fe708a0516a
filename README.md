# waterline-oracle-adapter, modelled in Dafny

A model of the deterministic core of the Oracle adapter for Waterline/Sails. The model covers:

- **lib/connector.js: the SQL text translator.** `buildQuery` drives the squel builder. The
  date transform turns a `Date` into a `TO_DATE('yyyy-mm-dd hh:mi:ss', 'yyyy-mm-dd hh24:mi:ss')`
  literal. The WHERE string is `(1=1) and k ='v' …`. The quote fix-up removes the quotes the
  builder puts around that literal. `_createOracleSpecificQuery` is the rownum wrapper that
  stands in for LIMIT/OFFSET.
- **lib/connector.js: the unit of work.** The module-level pool slot and the buildup and
  teardown script lists form a class. `getConnection`, `releaseConnection` and `simpleExecute`
  are event traces over an abstract connection. Driver and script outcomes are inputs.
  `execute` defaults `rows`, `setIdOnReturnedObjects` normalises rows in place on an array,
  and `run` wraps rows into model instances.
- **lib/utils.js: the older translator, which lib/adapter.js still calls.** It has no
  `limit == 1` special case and no date transform. It builds a WHERE string and then drops it.
  It reads `options.where` even when `options` is null.
- **lib/adapter.js: the connection and collection registry.** This covers `registerConnection`,
  `teardown`, and the routing of `find`/`create`/`update`/`destroy` to the first registered
  connection.
- **sails-oracle-master/index.js: the older Sails adapter.** This covers primary-key resolution
  and the first-write-wins `dbs` registry of `registerCollection`, the groupBy check of `find`,
  the `updateCount` check of `update`, `marshalConfig`, and the connect, alter-session, logic,
  close sequence of `spawnConnection`.

JavaScript values are the `JsValue` datatype (`js_values.dfy`): undefined, null, booleans,
integers, strings and Dates. Truthiness, string conversion and `parseInt` are written out for
these; fractional numbers, NaN and object or array values are left out (see below). An object is its list of entries in `Object.keys` order. A
thrown exception is an `Error` value in a `Result`, with the message the runtime would give
(for example `Cannot read properties of null (reading 'where')`).

The squel library is foreign code. What it prints for a statement is the `Renderer` parameter,
and the model records what the code asks of the builder: the statement kind, the table, the SET
entries in order and the WHERE conditions. Everything the code writes itself is modelled down to
the character: the WHERE string, the pagination wrapper, the TO_DATE literal and the quote
fix-up.

Files:

- `js_values.dfy`: values, objects, `parseInt`.
- `text_ops.dfy`: `split(p).join(r)` as `ReplaceAll`.
- `sql_builder.dfy`: operation codes and builder state.
- `oracle_sql.dfy`: ISO text, TO_DATE literal, fix-up, filter semantics.
- `connector_query.dfy` and `utils.dfy`: the two translators.
- `connector.dfy`: the unit of work.
- `adapter.dfy`: the Waterline adapter.
- `sails_oracle.dfy`: the Sails adapter.

Points of the code worth knowing, all kept in the model:

- `terminatePool` never clears the pool slot (lib/connector.js:34-47).
- Neither a buildup failure (lib/connector.js:99-100) nor a query failure (lib/connector.js:195-198) releases the connection.
- `createPool` overwrites the slot without a duplicate check (lib/connector.js:24).
- `buildQuery` in lib/connector.js transforms dates for UPDATE as well as INSERT (lib/connector.js:287).

## Model

| member | source | states |
|---|---|---|
| JsValues.Put | lib/connector.js:170 | after `o[k] = v`, `k` reads `v`, every other key reads as before, and the key order is kept, with `k` appended when it is new |
| JsValues.PutNewKey | lib/connector.js:170 | assigning a key an object does not have appends exactly that entry |
| JsValues.Truthy | lib/connector.js:273 | JavaScript truthiness as `if (x)` and `||` test it: undefined, null, false, 0 and the empty string are falsy, everything else (every Date included) is truthy |
| JsValues.ToStr | lib/connector.js:297 | string conversion as `"..." + v` performs it, with integers printed in decimal |
| JsValues.ParseIntText | sails-oracle-master/index.js:283 | `parseInt` of a text: leading JavaScript white space and line terminators skipped, an optional sign, then the longest digit run; no digit gives NaN (None) |
| JsValues.ParseIntSkipsFormFeed | sails-oracle-master/index.js:283 | `parseInt` skips a leading form feed like a space: `"\f0"` parses to 0, so `update` refuses that count |
| JsValues.ParseIntOfIntToString | sails-oracle-master/index.js:283 | `parseInt` of a printed integer gives that integer back (round trip of number printing and parsing) |
| TextOps.ReplaceAll | lib/connector.js:302 | `s.split(p).join(r)`: every non-overlapping occurrence of `p`, scanning left to right, replaced by `r`; characterised by `ReplaceAllConcat` and `ReplaceAllAbsent` |
| TextOps.ReplaceAllConcat | lib/connector.js:302 | `split(p).join(r)` over `a + b` is the two replacements joined, when no occurrence of `p` straddles the boundary |
| TextOps.ReplaceAllAbsent | lib/connector.js:302 | a text with no occurrence of the pattern is left unchanged |
| SqlBuilder.Begin | lib/connector.js:268-285 | the `switch` leaves the query undefined exactly when the operation code is not 1 to 4 |
| OracleSql.DateLiteral | lib/connector.js:264 | the text cut out of `toISOString()` for the TO_DATE call; characterised by `DateLiteralMatchesMask` |
| OracleSql.Fixup | lib/connector.js:302 | the two passes of `split(...).join(...)` that remove the quotes around a TO_DATE call; characterised by `FixupUnquotesDateLiteral` |
| OracleSql.DateLiteralMatchesMask | lib/connector.js:264 | for a four-digit year, the text put in the TO_DATE literal is `yyyy-mm-dd hh:mi:ss`, the layout of the mask it carries |
| OracleSql.CallWithDateMask | lib/connector.js:264 | the literal is `TO_DATE('` + text + `', 'yyyy-mm-dd hh24:mi:ss')` |
| OracleSql.IsoStringChars | lib/connector.js:264 | the ISO string has at least 24 characters and no quote, so cutting at 10, 11 and 19 is defined |
| OracleSql.FixupUnquotesDateLiteral | lib/connector.js:302 | the fix-up turns a quoted TO_DATE literal back into the bare call, wherever it sits, and treats the text on either side independently |
| OracleSql.EqualityFiltersAdmit | lib/connector.js:320-324 | read as one text comparison per key (which holds for quote-free keys and non-empty values compared with character columns, see `EqualityTextQuotes`), the where equalities admit a row exactly when every key's column holds the value's text |
| OracleSql.EqualityTextQuotes | lib/connector.js:322 | an equality's text holds two quotes plus every quote of the key and of the value, so it is a single `column = 'literal'` comparison exactly when both are quote-free; the code escapes nothing |
| SqlBuilder.SetField | lib/connector.js:289 | squel's `set` on a statement: INSERT and UPDATE record the entry (a key set again keeps its place and takes the new value), SELECT and DELETE have no `set` and throw `query.set is not a function` |
| SqlBuilder.AddWhere | lib/connector.js:299 | squel's `where`: SELECT, UPDATE and DELETE take the condition, INSERT has no `where`, and the undefined query throws on reading it |
| ConnectorQuery.SetEntry | lib/connector.js:289 | one `query.set(k, transform(v))` call: reading `set` of an undefined query throws first, then the argument is evaluated (and may throw the RangeError), then a missing `set` throws; characterised by `SetEntryOnSetter`, `SetFieldsWithoutSetter` and `SetFieldsWithoutBuilder` |
| ConnectorQuery.TransformNonSupportedType | lib/connector.js:258-266 | fails exactly on an Invalid Date, with the RangeError of `toISOString`; a non-Date passes unchanged; the result is never a Date |
| ConnectorQuery.TransformedDateText | lib/connector.js:264 | a valid Date becomes `TO_DATE('` + ISO[0..10) + ` ` + ISO[11..19) + `', 'yyyy-mm-dd hh24:mi:ss')` |
| ConnectorQuery.TransformedEntries | lib/connector.js:287-291 | one entry per entity key, same key, same position, transformed value |
| ConnectorQuery.SetFieldsOnSetter | lib/connector.js:287-291 | on a fresh INSERT or UPDATE builder, the `set` calls record exactly the entity's keys in key order, each with its transformed value |
| ConnectorQuery.SetFieldsKeepsError | lib/connector.js:288-290 | once a `set` call has thrown, the later keys make no difference |
| ConnectorQuery.SetFieldsKeepsSetter | lib/connector.js:287-291 | setting fields on an INSERT or UPDATE builder yields a builder of one of those two kinds |
| ConnectorQuery.SetEntryOnSetter | lib/connector.js:289 | on an INSERT or UPDATE builder one `set` call fails exactly on an Invalid Date |
| ConnectorQuery.SetFieldsFailsOnInvalidDate | lib/connector.js:287-291 | the `set` calls on an INSERT or UPDATE builder fail exactly when some value is an Invalid Date, with the RangeError |
| ConnectorQuery.SetFieldsWithoutSetter | lib/connector.js:268-291 | on a SELECT or DELETE builder the first key fails: with the RangeError if its value is an Invalid Date (the argument is evaluated first), else with `query.set is not a function` |
| ConnectorQuery.SetFieldsWithoutBuilder | lib/connector.js:287-291 | on the undefined query the first key fails reading `set` |
| ConnectorQuery.WhereText | lib/connector.js:293-298 | the WHERE string of `buildQuery`: `(1=1) ` then one `and k ='v' ` per key; characterised by `WhereTextSnoc`, `WhereTextSplit` and `BuildWhere` |
| ConnectorQuery.WhereTextSnoc | lib/connector.js:296-298 | each where key appends `and <k> ='<v>' ` to the WHERE string |
| ConnectorQuery.WhereTextSplit | lib/connector.js:294-298 | the WHERE string of a where object split in two is the first part's string followed by the second part's terms |
| ConnectorQuery.BuildWhere | lib/connector.js:294-298 | the loop that accumulates `where` yields `(1=1) ` followed by one term per key in key order |
| ConnectorQuery.PageWindow | lib/connector.js:316-327 | for quote-free where keys and non-empty quote-free values compared with character columns, the wrapper admits a row exactly when its row number is above a truthy offset, below a truthy limit other than 1, and it matches every where equality |
| ConnectorQuery.PageTextWhereStep | lib/connector.js:321-323 | each where key appends ` and <k> ='<v>' ` to the wrapper |
| ConnectorQuery.PageBounds | lib/connector.js:317-319 | the prefix, then ` and a.pseudo_column > <offset> ` iff the offset is truthy, then ` and a.pseudo_column < <limit> ` iff the limit is truthy and not 1 |
| ConnectorQuery.AppendWhere | lib/connector.js:320-324 | the `forEach` appends one equality per where key, in key order, to the text so far |
| ConnectorQuery.PageQuery | lib/connector.js:316-327 | the text of `_createOracleSpecificQuery`: the numbered derived table followed by the text of its conditions; characterised by `PageBounds`, `PageTextWhereStep` and `PageWindow` |
| ConnectorQuery.CreateOracleSpecificQuery | lib/connector.js:316-327 | the string built step by step is the wrapper whose conditions `PageWindow` characterises |
| ConnectorQuery.SetAll | lib/connector.js:288-290 | the `forEach` of `set` calls, one key at a time, is the left-to-right `set` sequence and stops at the first failure |
| ConnectorQuery.BuildStatement | lib/connector.js:268-300 | the builder `buildQuery` ends with, or the error thrown on the way: the `switch`, the `set` calls, then the `where` call |
| ConnectorQuery.QueryText | lib/connector.js:246-303 | `buildQuery`: the paginated FIND returns the wrapper; otherwise the builder is printed and the fix-up applied; characterised case by case by the lemmas below |
| ConnectorQuery.BuildQuery | lib/connector.js:246-303 | the step-by-step translator gives the same result or error as the model of the query it builds |
| ConnectorQuery.PaginatedQuery | lib/connector.js:272-274 | a FIND with a truthy limit or skip gives the wrapper text alone, whatever the entity and the printer |
| ConnectorQuery.UnpaginatedIgnoresLimitAndSkip | lib/connector.js:268-302 | for any operation but FIND, limit and skip make no difference |
| ConnectorQuery.InsertAndUpdateQuery | lib/connector.js:268-302 | INSERT and UPDATE print a builder holding the transformed entity in key order; UPDATE also carries the WHERE string; an INSERT given a where fails with `query.where is not a function` |
| ConnectorQuery.InvalidDateQuery | lib/connector.js:258-291 | an Invalid Date in an INSERT or UPDATE entity makes the call fail with the RangeError |
| ConnectorQuery.DeleteQuery | lib/connector.js:279-302 | DELETE ignores the entity and prints a DELETE carrying the WHERE string if a where is given |
| ConnectorQuery.FindQuery | lib/connector.js:275-302 | an unpaginated FIND prints a SELECT with the WHERE string when the entity is absent or empty, and otherwise fails on the first key |
| ConnectorQuery.UnknownOperationQuery | lib/connector.js:268-302 | an operation code outside 1 to 4 never yields text: it fails on `set`, `where` or `toString` of undefined, whichever comes first |
| LegacyUtils.PageWindow | lib/utils.js:92-103 | for quote-free where keys and non-empty quote-free values compared with character columns, this wrapper admits a row exactly when its row number is above a truthy offset and below every truthy limit (a limit of 1 admits nothing), and it matches every where equality |
| LegacyUtils.PageQueryAgreesWithConnector | lib/utils.js:95 | the two wrappers print the same text exactly when the limit is not 1 |
| LegacyUtils.PageBounds | lib/utils.js:93-95 | the prefix, then the lower bound iff the offset is truthy, then the upper bound iff the limit is truthy |
| LegacyUtils.PageQuery | lib/utils.js:92-103 | the text of the older `_createOracleSpecificQuery`; characterised by `LegacyUtils.PageBounds` and `LegacyUtils.PageWindow` |
| LegacyUtils.CreateOracleSpecificQuery | lib/utils.js:92-103 | the string built step by step is the wrapper that `LegacyUtils.PageWindow` characterises |
| LegacyUtils.SetFieldsKeepsKind | lib/utils.js:65-69 | on an INSERT or UPDATE builder every `set` call succeeds and the builder keeps its kind and table |
| LegacyUtils.SetFieldsOnSetter | lib/utils.js:65-69 | on a fresh INSERT or UPDATE builder the entity's entries are recorded as given, with no date transform, in key order |
| LegacyUtils.SetFieldsWithoutSetter | lib/utils.js:65-69 | on a SELECT or DELETE builder the first key fails with `query.set is not a function` |
| LegacyUtils.SetFieldsWithoutBuilder | lib/utils.js:65-69 | on the undefined query the first key fails reading `set` |
| LegacyUtils.SetFieldsStopsAtError | lib/utils.js:66-68 | once a `set` call has thrown, the later keys make no difference |
| LegacyUtils.SetAll | lib/utils.js:66-68 | the `forEach` of `set` calls equals the left-to-right `set` sequence |
| LegacyUtils.QueryText | lib/utils.js:43-79 | the older `buildQuery`: the paginated FIND returns its wrapper; otherwise the entity is set, `options.where` is read, and the builder is printed with no condition; characterised by the lemmas below |
| LegacyUtils.BuildQuery | lib/utils.js:43-79 | the step-by-step translator gives the same result or error as the model of its query; its dead WHERE loop builds `DroppedWhereText` of the where object, which then goes unused |
| LegacyUtils.DroppedWhereTextIgnoresValues | lib/utils.js:71-76 | the WHERE string the loop builds depends on the where keys alone: each term reads `where[key]` from the string being built, so no where value reaches it |
| LegacyUtils.PaginatedQuery | lib/utils.js:51-52 | a FIND with a truthy limit or skip gives this wrapper's text alone |
| LegacyUtils.UnpaginatedIgnoresWhere | lib/utils.js:71-78 | off the paginated path the where object makes no difference to the result |
| LegacyUtils.NullOptionsQuery | lib/utils.js:71 | with null options the call always fails; for INSERT and UPDATE, and with no entity, it fails reading `where` of null |
| LegacyUtils.InsertAndUpdateQuery | lib/utils.js:46-78 | INSERT and UPDATE with options print the entity exactly as given and no condition |
| LegacyUtils.FindAndDeleteQuery | lib/utils.js:46-78 | an unpaginated FIND or a DELETE prints its builder with no condition when the entity is absent or empty, and otherwise fails on the first key |
| LegacyUtils.UnknownOperationQuery | lib/utils.js:46-78 | an operation code outside 1 to 4 never yields text |
| Connector.RunSeries | lib/connector.js:91-104 | `async.eachSeries` over the scripts, given each one's outcome; characterised by `RunSeriesStopsAtFirstFailure` |
| Connector.RunSeriesStopsAtFirstFailure | lib/connector.js:91-104 | the series runs every statement up to and including the first failing one, and ends with that error; with no failure it runs them all |
| Connector.RunSeriesKeepsFailure | lib/connector.js:91-104 | once the series has failed, later statements make no difference |
| Connector.EachSeries | lib/connector.js:91-104 | the loop runs the statements in order and stops at the first error, as the series model does |
| Connector.Acquire | lib/connector.js:85-107 | `getConnection` as a function of the pool, the driver's answer and the script outcomes; characterised by `AcquireInOrder` |
| Connector.AcquireInOrder | lib/connector.js:85-107 | acquisition never releases; it resolves iff there is a pool, the pool gives a connection and every buildup statement succeeds, in which case all ran in order; otherwise, on a buildup failure, it rejects with the first error after running the statements up to it |
| Connector.Teardown | lib/connector.js:133-153 | `releaseConnection` as a function of the script outcomes and the release outcome; characterised by `TeardownReleasesOnce` |
| Connector.TeardownReleasesOnce | lib/connector.js:133-153 | release runs the teardown statements in order up to the first failure, then releases exactly once, last; the log holds exactly the first teardown error, if any, followed by the release error, if any |
| Connector.Execute | lib/connector.js:117-128 | an error is passed on; a result without rows gets an empty list and is otherwise unchanged |
| Connector.ExecuteIdempotent | lib/connector.js:124 | defaulting the rows twice is defaulting them once |
| Connector.SetIdRow | lib/connector.js:170 | the per-row step of `setIdOnReturnedObjects`; characterised by `SetIdRowFields` and `SetIdRowIdempotent` |
| Connector.SetIdRowFields | lib/connector.js:170 | `id` takes the value of `ID` exactly when `ID` is truthy and `id` is not; every other field is unchanged; `id` is appended when it was missing |
| Connector.SetIdRowIdempotent | lib/connector.js:170 | normalising a row twice is normalising it once |
| Connector.SetIdRows | lib/connector.js:167-174 | the rows keep their number and order, each normalised |
| Connector.SetIdRowsIdempotent | lib/connector.js:167-174 | normalising a result set twice is normalising it once |
| Connector.SetIdOnReturnedObjects | lib/connector.js:167-174 | the in-place pass leaves the array holding the normalised rows, same count and order |
| Connector.Run | lib/connector.js:217-235 | an error reaches the callback; a result without rows gives a bare callback; otherwise there is one instance per row, in order |
| Connector.RunAfterExecute | lib/connector.js:217-227 | after `execute` and normalisation, `run` always delivers one instance per row (none for a missing rows field) |
| Connector.Connector.constructor | lib/connector.js:4-6 | at load time there is no pool and both script lists are empty |
| Connector.Connector.CreatePool | lib/connector.js:16-29 | a created pool replaces whatever the slot held; an error is passed on and leaves the slot |
| Connector.Connector.TerminatePool | lib/connector.js:34-47 | the driver is asked to terminate iff the slot holds a pool; its error is passed on; the slot is not cleared |
| Connector.Connector.AddBuildupSql | lib/connector.js:59-67 | exactly one statement is appended to the buildup list, with falsy binds and options defaulted to `{}`; everything else is unchanged |
| Connector.Connector.AddTeardownSql | lib/connector.js:72-80 | exactly one statement is appended to the teardown list, defaulted the same way; everything else is unchanged |
| Connector.Connector.GetConnection | lib/connector.js:85-107 | the outcome and the trace are those `AcquireInOrder` characterises, over the current pool and buildup list |
| Connector.Connector.ReleaseConnection | lib/connector.js:133-153 | the trace and the log are those `TeardownReleasesOnce` characterises, over the current teardown list |
| Connector.Connector.SimpleExecute | lib/connector.js:182-208 | options are sent with `isAutoCommit` true; an acquisition or query failure rejects and does not release; a success resolves with the defaulted and normalised result and then releases; the connection is released once on success and never on failure |
| WaterlineAdapter.Lookup | lib/adapter.js:17 | `connections[identity]`: the configuration stored under that identity, absent exactly when the identity is not registered |
| WaterlineAdapter.Without | lib/adapter.js:36 | `delete connections[key]`; characterised by `WithoutRemovesOnly`, `WithoutAbsent` and `WithoutKeepsDistinct` |
| WaterlineAdapter.WithoutRemovesOnly | lib/adapter.js:36 | `delete connections[key]` removes that identity and no other; the remaining identities keep their order |
| WaterlineAdapter.WithoutAbsent | lib/adapter.js:35-36 | deleting an identity that is not registered changes nothing |
| WaterlineAdapter.WithoutKeepsDistinct | lib/adapter.js:36 | deleting keeps the identities distinct |
| WaterlineAdapter.Assign | lib/adapter.js:19-21 | the `_collections[key] = collections[key]` writes in key order; characterised by `AssignEffect` and `AssignDistinct` |
| WaterlineAdapter.AssignEffect | lib/adapter.js:19-21 | after the writes, a written name holds the value written last under it, and every other name keeps its old value |
| WaterlineAdapter.AssignDistinct | lib/adapter.js:19-21 | with distinct names, each given collection is stored under its own name |
| WaterlineAdapter.Dispatch | lib/adapter.js:48-59 | the `execute` call of every CRUD entry point: a translation error is thrown, otherwise the first connection, the text and the collection's definition are handed on |
| WaterlineAdapter.Adapter.constructor | lib/adapter.js:8-9 | at load time both objects are empty |
| WaterlineAdapter.Adapter.Model | lib/adapter.js:49 | `_collections[collection]`, read over own entries: the stored definition, or nothing when the collection was never written; the CRUD entry points hand it to `execute` |
| WaterlineAdapter.Adapter.RegisterConnection | lib/adapter.js:15-25 | a falsy identity or one already registered is refused and changes nothing; otherwise every given collection is written and the connection is appended under its identity; the first connection stays first |
| WaterlineAdapter.Adapter.Teardown | lib/adapter.js:26-38 | with no identity (including the one-callback form) all connections go; an unknown identity changes nothing; a known one is removed alone; collections are untouched |
| WaterlineAdapter.Adapter.Find | lib/adapter.js:48-50 | FIND with a null entity, on the first connection, whatever connection is named |
| WaterlineAdapter.Adapter.Create | lib/adapter.js:51-53 | INSERT with null options on the first connection, which always fails reading `where` of null |
| WaterlineAdapter.Adapter.Update | lib/adapter.js:54-56 | UPDATE with the values as entity and the options, on the first connection |
| WaterlineAdapter.Adapter.Destroy | lib/adapter.js:57-59 | DELETE with the values as entity and the options, on the first connection |
| WaterlineAdapter.FindAfterTwoRegistrations | lib/adapter.js:15-49 | on an empty adapter, registering `a` and then `b` succeeds for `a`, refuses `b` exactly when it has `a`'s identity, and leaves the identities in registration order; a `find` that names `b` still goes to `a` |
| WaterlineAdapter.UpdateHasNoCondition | lib/adapter.js:54-56 | an update through the adapter sends an UPDATE with the values as given and no condition |
| SailsOracle.ResolvePrimaryKey | sails-oracle-master/index.js:73-84 | the primary-key loop of `registerCollection`; characterised by `PrimaryKeyDefault`, `PrimaryKeyIsLastFlagged` and `PrimaryKeyFailsOnUnreadable` |
| SailsOracle.PrimaryKeyDefault | sails-oracle-master/index.js:73-86 | with readable attributes the resolution succeeds, with `id` when no attribute has a truthy own `primaryKey` |
| SailsOracle.PrimaryKeyIsLastFlagged | sails-oracle-master/index.js:76-84 | with readable attributes the primary key is the last attribute with a truthy own `primaryKey` |
| SailsOracle.PrimaryKeyFailsOnUnreadable | sails-oracle-master/index.js:77 | an undefined or null attribute makes the resolution throw, at the first such attribute |
| SailsOracle.PrimaryKeyFailsAfter | sails-oracle-master/index.js:76-77 | once the loop reaches an undefined or null attribute, the resolution has failed with it |
| SailsOracle.AggregateCheck | sails-oracle-master/index.js:227-231 | `find` fails with `Cannot groupBy without a calculation` exactly when `groupBy` is truthy and none of `sum`, `average`, `min`, `max` is |
| SailsOracle.AfterUpdate | sails-oracle-master/index.js:280-288 | a driver error is passed on; success re-runs `find` with the same options |
| SailsOracle.UpdateCountAccepted | sails-oracle-master/index.js:283-285 | a numeric count is accepted exactly when positive; an undefined count is refused; null (parsing to NaN) is accepted |
| SailsOracle.MarshalConfig | sails-oracle-master/index.js:497-503 | `marshalConfig`; characterised by `MarshalConfigKeeps` |
| SailsOracle.MarshalConfigKeeps | sails-oracle-master/index.js:497-503 | the settings hold exactly `tns`, `user`, `password`, in that order, each with the config's value |
| SailsOracle.SpawnConnection | sails-oracle-master/index.js:426-471 | the driver gets the marshalled config; a connect error calls back with it and never runs the logic (closing a connection that came with the error); otherwise ALTER SESSION, whatever its outcome, then the logic, then exactly one close, with the logic's error (and 1) or result forwarded |
| SailsOracle.Registry.constructor | sails-oracle-master/index.js:17 | at load time `dbs` is empty |
| SailsOracle.Registry.RegisterCollection | sails-oracle-master/index.js:66-94 | the primary key is resolved first (a throw leaves `dbs`); an identity already stored succeeds and keeps the stored definition; an undefined or null identity fails on `toString`; otherwise the definition is stored with its primary key |
| SailsOracle.FirstRegistrationWins | sails-oracle-master/index.js:66-94 | two `registerCollection` calls under the same identity: the first is stored (unless one already was), the second succeeds whenever its primary key resolves, and `dbs` ends holding the first, nothing else changed |

## Left out

- What squel prints for an INSERT, SELECT, UPDATE or DELETE is the `Renderer` parameter, because it is foreign library code. Only what the translators write themselves is modelled character by character.
- The drivers (`oracledb`, `strong-oracle`, `oracle`) are not modelled; their answers are inputs. This covers pool creation and termination, `getConnection`, `execute` and `release`.
- lib/utils.js `execute` (lines 13-32) is not part of this model, because it is driver I/O only. The adapter model stops at the arguments it would receive.
- Promises, `process.nextTick` and the callback scheduling of `async.eachSeries` are flattened into sequential traces. Their timing is not modelled, including that `simpleExecute` resolves before it releases.
- `console.error` logging is modelled only as the list of errors `releaseConnection` logs.
- A Date is taken as decomposed UTC fields. The epoch and time-zone arithmetic behind `toISOString` is not modelled, and years outside 0 to 9999 are printed but not characterised.
- `parseInt` is modelled for decimal text: leading white space, a sign, a digit run. Hexadecimal prefixes are not modelled.
- Objects keep their insertion order. The JavaScript rule that lists integer-like keys first is not modelled.
- `getPool` is not modelled, because it only returns the slot.
- `execute` treats a null `rows` like a missing one; a truthy non-array `rows` is not modelled.
- LegacyUtils.StringProperty models `where[key]` on the WHERE string only for canonical indices and `length`. Other `String.prototype` members are not modelled, and the value is dropped anyway.
- sails-oracle-master/index.js parts that depend on files that are not part of this model (`lib/sql.js`, `lib/query`, `utils.prepareValue`, `Query.cast`) are not modelled: the query texts of `find` and `update`, value preparation and row casting. Neither are `handleDisconnect` (dead code), `stream`, `describe`, `define` and `drop`.
- SailsOracle.RegisterCollection: the stored definition is the given collection with its primary key beside it. Cloning is not modelled, because the clone is shallow and nothing mutates it afterwards.
- SailsOracle.SpawnConnection: the outcome of ALTER SESSION is not an input, because the code ignores it.
- The script statements' `sql` is taken as text. A non-string `sql` is not modelled.
- SqlBuilder.SetField takes squel's `set` on an INSERT or UPDATE builder to accept every value. squel's own check of field values is not modelled: it rejects values of a type it has no handler for, such as a raw Date or undefined, and throws its own error instead.
- LegacyUtils.SetFieldsKeepsKind inherits that: the older translator hands Dates to `set` untransformed, so for an entity holding a Date or undefined value squel's check throws, and the call does not succeed as the lemma states.
- LegacyUtils.SetFieldsOnSetter inherits that: an entity holding a Date or undefined value is rejected by squel's check, not recorded as given.
- LegacyUtils.NullOptionsQuery inherits that: for an INSERT or UPDATE entity holding a Date or undefined value, squel's error comes before the `where` of null is read.
- LegacyUtils.InsertAndUpdateQuery inherits that: an entity holding a Date or undefined value makes squel's `set` throw, so no statement is printed.
- WaterlineAdapter.Adapter.Create inherits that: with a Date or undefined value among the values, the call fails with squel's error rather than `WhereOfNull`.
- WaterlineAdapter.UpdateHasNoCondition inherits that: with a Date or undefined value among the values, squel's `set` throws and no UPDATE is sent.
- Connector.Run takes building a model instance, and the callback itself, as unable to throw. In lib/connector.js:232-234 the `.catch` would also catch such a throw and call the callback a second time with the error.
- OracleSql.EqualityFiltersAdmit reads each where equality as one comparison of a column with one literal. That reading holds only when the key and the value's text are quote-free: the code splices both into the SQL unescaped, so a value such as `x' or '1'='1` closes the literal early and rewrites the condition (SQL injection). `OracleSql.EqualityTextQuotes` states when the reading holds.
- OracleSql.EqualityFiltersAdmit also treats Oracle's `=` as plain text equality, which holds for non-empty values compared with character (VARCHAR2) columns. Typed comparison is not modelled: Oracle converts the literal to the column's type, so `age ='05'` matches a NUMBER column holding 5; DATE columns compare through the session's date format; CHAR columns compare blank-padded; and `''` is NULL, so `k =''` admits no row at all.
- ConnectorQuery.PageWindow inherits that reading: with a quote in a where key or value the wrapper can admit rows outside its window, which it does not describe. It also inherits the typed-comparison limit below.
- LegacyUtils.PageWindow inherits the same reading and the same typed-comparison limit, for the same reasons.
- Numbers are integers only (`Num(n: int)`). Fractional numbers (a `limit` of 2.5, a where value of 9.99), NaN (falsy), the infinities and the exponent form that JavaScript prints from 1e21 up are not modelled, because the adapter's logic never depends on them beyond string conversion.
- Object and array values are not modelled as field or where values. The code converts them with `String()`, so Waterline's IN criterion `{id: [1, 2]}` prints `id ='1,2'` and a comparison criterion `{age: {'>': 5}}` prints `age ='[object Object]'`: such criteria silently become string equalities, and the model cannot express those inputs.
- WaterlineAdapter.Lookup sees own entries only. `connections[identity]` in lib/adapter.js reads through the prototype chain, so an identity that names an `Object.prototype` member, such as `constructor`, is refused as already registered, and `__proto__` never becomes an own key, which changes the routing by `Object.keys`. The model assumes identities that name no such member.
- WaterlineAdapter.Adapter.Model sees own entries only, as does `Assign`. `_collections[collection]` in lib/adapter.js:49-58 reads through the prototype chain, so a collection named `constructor` or `toString` hands `execute` an `Object.prototype` member where the model gives none. A write `_collections['__proto__'] = …` at lib/adapter.js:20 replaces the prototype instead of adding an entry, where the model's `Assign` stores an entry. The model assumes collection names that name no `Object.prototype` member.
- SailsOracle.Registry.RegisterCollection has the same limit: `dbs[key]` reads through the prototype chain, so a collection with identity `constructor` is skipped silently in the source but stored in the model.
