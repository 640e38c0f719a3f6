# fastapi-template: a Dafny model of its core

This project models the parts of the FastAPI service template that carry checkable
logic, and proves properties of that model:

- the sample event poller: its polling loop with exponential backoff, per-message
  error isolation and the running flag;
- the soft-delete CRUD service over `sample_table`: the visibility filter, the
  created-descending ordering with `OFFSET`/`LIMIT` paging, the count, the
  case-insensitive search, and the in-place create, update and delete;
- the `/sample` route handlers: `None`-filtering of update bodies, the 400/404/422
  replies, the delete message and the list envelope;
- the entity record, with its columns and defaults, and the request and response schemas;
- the settings validators, the environment-profile helpers, the job-store URL rewrite,
  the nested-key TOML getter, the error-response builders and the request-id middleware;
- the application `lifespan` start-up/shut-down sequence, the CORS origin parsing, and
  the lazily created database engine with its session commit/rollback/close protocol.

There is one module per source file: `EventPoller`, `Settings`, `EnvUtils`, `Entities`,
`Schemas`, `SampleService`, `SampleRoutes`, `App`, `DbContext`, `ConfigureScheduler`,
`TomlUtils`, `GlobalHandler` and `RequestLogger`. Three support modules sit beside them:
`Text` holds the Python string builtins the source calls (`lower`, `strip`, `split`,
`replace`, `startswith`), plus a `Join` that is used only to state round trips. `SqlLike` holds PostgreSQL `LIKE`/`ILIKE`, as section
9.7.1 of the PostgreSQL manual describes them. `Wrappers` and `Values` hold `Option`,
`Result` and JSON-like values.

Code that changes state step by step is modelled as classes and methods:
`SampleEventPoller`, `SampleTable`, `Context`, `Host`, and the request/response
objects of the middleware. Each method is proved against a pure function of the
old state: `Run`, `CreateRow`/`UpdateRow`/`DeleteRow`, `SessionRun`, `LifespanRun`,
`SetHeader`. The properties are then proved about those functions. Everything
declarative is modelled as functions and lemmas.

Clocks, uuid generation, the environment and the outcome of I/O are parameters:

- `now` is the instant `utcnow()` returns;
- `id` is the `uuid4()` value;
- `appProfile` is the `APP_PROFILE` variable;
- the poller's script gives what each fetch returns;
- fault flags say which awaited call raises.

## Model

| member | source | states |
|---|---|---|
| Settings.ValidateDatabaseUrl | src/utils/settings.py:29-36 | accepted exactly when the URL starts with one of the three PostgreSQL schemes, and then returned unchanged; an empty URL and any other URL are rejected with their own messages |
| Settings.ValidateBackoff | src/utils/settings.py:38-44 | rejected exactly when the initial value is present, non-zero and larger than the maximum; equal values are accepted; an absent initial value skips the check |
| Settings.Errors | src/utils/settings.py:8-26 | no field error exactly when port is in 1..65535, workers >= 1, the URL is valid, both backoffs are >= 1 and max >= initial |
| Settings.ErrorMessages | src/utils/settings.py:9-44 | each broken rule is reported on its field: a broken bound with pydantic's "Input should be greater/less than or equal to" text, a failed validator with "Value error, " followed by its own message |
| Settings.Load | src/utils/settings.py:7-44 | the settings are accepted unchanged exactly when valid, and accepted settings have 1 <= initial <= max backoff |
| Settings.Defaults | src/utils/settings.py:13-17 | default schema "public", job-store schema "public_job_store", CORS origins "*" |
| EnvUtils.IsLocalEnvironment | src/utils/env_utils.py:12-15 | true exactly when the lower-cased profile is "local"; an unset profile is local |
| EnvUtils.GetEnvFilePath | src/utils/env_utils.py:17-21 | ".env." followed by the profile as given, not lower-cased |
| EnvUtils.LocalIffLowerPath | src/utils/env_utils.py:13-21 | the environment is local exactly when the lower-cased file path is ".env.local" |
| EnvUtils.ProfileExamples | src/utils/env_utils.py:14-20 | "LOCAL" is local but names ".env.LOCAL"; unset names ".env.local"; "prod" is not local |
| EventPoller.NextBackoff | src/events/pollers/sample_event_poller.py:48 | the delay after a failed fetch is twice the delay, capped at the maximum |
| EventPoller.Dispatch | src/events/pollers/sample_event_poller.py:33-38 | every message of a batch is handed to the processor in order; a raising one is recorded as failed and the rest still run |
| EventPoller.Run | src/events/pollers/sample_event_poller.py:25-48 | the loop ends by re-raising at the first cancellation, by seeing the cleared flag at the first stop, or not at all |
| EventPoller.SleepsWithinBounds | src/events/pollers/sample_event_poller.py:20-48 | with 1 <= initial <= delay <= max, every sleep lasts between initial and max |
| EventPoller.LoadedSettingsBoundSleeps | src/utils/settings.py:38-44 | a poller built from accepted settings only sleeps between the initial and the maximum backoff |
| EventPoller.RunAppend | src/events/pollers/sample_event_poller.py:25-48 | running fetches then further events is the first trace followed by the rest, started with the delay the fetches left |
| EventPoller.BackoffClosedForm | src/events/pollers/sample_event_poller.py:28-48 | after any fetches the delay is initial * 2^k capped at max, where k counts the failed fetches since the last successful one, including an empty one |
| EventPoller.DelayInEffect | src/events/pollers/sample_event_poller.py:25-48 | the iteration after any run of fetches meets the closed-form delay |
| EventPoller.EveryFetchedMessageHandled | src/events/pollers/sample_event_poller.py:33-40 | every fetched message reaches the processor exactly once, in order, up to the first cancellation or stop |
| EventPoller.Example | src/events/pollers/sample_event_poller.py:25-48 | with initial 1 and max 30, the two errors sleep 1 and 2 s and the following empty batch sleeps 4 s and resets the delay; a batch whose middle message fails processes all three, recording the middle one as failed, and does not sleep; the last error sleeps 1 s; the stop ends the run |
| EventPoller.SampleEventPoller.constructor | src/events/pollers/sample_event_poller.py:10-16 | the bounds come from the settings and the flag starts cleared |
| EventPoller.SampleEventPoller.Stop | src/events/pollers/sample_event_poller.py:60-62 | only clears the running flag |
| EventPoller.SampleEventPoller.PollMessages | src/events/pollers/sample_event_poller.py:18-51 | the trace and exit are those of `Run` started at the initial backoff; the flag is cleared on cancellation and on stop, and stays set only when the script runs out with the loop still going |
| Entities.NewSampleEntity | src/entities/sample_entity.py:18-29 | a new record has the given id and column values, `created_on` and `modified_on` from their own two `utcnow()` default factories, is active and not deleted |
| Entities.NewEntityDefaults | src/entities/base/base_entity_mixin.py:12-31 | a default record is visible, its optional uuid and text are None and `big_int` is 1 |
| Entities.FieldOf | src/entities/sample_entity.py:18-29 | a name has a value exactly when it is one of the twelve columns |
| Entities.SetField | src/services/sample_service.py:172 | assigning a column sets that column to the value and leaves every other column unchanged |
| Entities.FieldsDetermineEntity | src/entities/sample_entity.py:18-29 | records with equal column values are equal |
| Entities.UuidString | src/routes/sample/sample_routes.py:63 | `str(uuid)` is 36 characters with dashes at 8, 13, 18 and 23 and a lower-case hexadecimal digit at every other position |
| Entities.UuidStringRoundTrip | src/routes/sample/sample_routes.py:63 | reading the 32 digits of `str(uuid)` back as a number gives the uuid, so distinct uuids have distinct string forms |
| Entities.UnhexHex | src/routes/sample/sample_routes.py:63 | a number below 16^width written as width hexadecimal digits reads back as itself |
| Schemas.CreateDefaults | src/routes/sample/schemas.py:8-21 | optional uuid, text and JSON default to None and `big_int` to 1; a body with only the required fields is valid exactly when `string_field` has 1..255 characters |
| Schemas.DumpUpdate | src/routes/sample/schemas.py:24-33 | the dump has eight distinct writable column names, none of them id, is_deleted or a timestamp, each with a value of the column's type or None |
| Schemas.DumpRoundTrip | src/routes/sample/schemas.py:24-33 | each field of the body is dumped under its own column name: reading the dump back by name gives the body |
| Schemas.EmptyUpdateDump | src/routes/sample/schemas.py:26-33 | every update field defaults to None, and the empty body is valid |
| Schemas.ResponseRoundTrip | src/routes/sample/schemas.py:36-44 | the response carries every column of the record, and each record has exactly one response |
| SqlLike.LikeLiteralPrefix | src/services/sample_service.py:240 | a wildcard-free pattern prefix must match the text character by character |
| SqlLike.LikePercent | src/services/sample_service.py:240 | `%` matches every string |
| SqlLike.LikeLeadingPercent | src/services/sample_service.py:240 | a leading `%` tries the rest of the pattern at every suffix |
| SqlLike.LikeContains | src/services/sample_service.py:240 | for a term without wildcards, `LIKE '%term%'` holds exactly when the term occurs in the text |
| SqlLike.ILikeContains | src/services/sample_service.py:240 | for a term without wildcards, `ILIKE '%term%'` holds exactly when the lower-cased term occurs in the lower-cased text |
| SampleService.GetById | src/services/sample_service.py:44-72 | a row comes back exactly when it exists, is not deleted and is active, and it is that row |
| SampleService.Filter | src/services/sample_service.py:96-100 | the filtered table holds exactly the visible rows, or every row when inactive ones are included |
| SampleService.Ordered | src/services/sample_service.py:102 | the rows of the table, each once, sorted by created_on descending with ties by id |
| SampleService.Page | src/services/sample_service.py:102 | `OFFSET skip LIMIT limit`: the rows from position skip on, at most limit of them |
| SampleService.PagesTile | src/services/sample_service.py:102 | consecutive pages tile the listing |
| SampleService.GetAllWindow | src/services/sample_service.py:74-111 | at most limit rows, sorted, taken from the table, of length fixed by count, skip and limit; only visible rows unless inactive ones are included |
| SampleService.GetAllComplete | src/services/sample_service.py:113-140 | with skip 0 and limit = count, the listing holds exactly the rows count counts |
| SampleService.Matching | src/services/sample_service.py:239-243 | the rows searched are the visible rows whose string_field is `ILIKE '%term%'` |
| SampleService.SearchContains | src/services/sample_service.py:219-254 | a wildcard-free search returns, sorted and paged, visible rows containing the term ignoring case; an unpaged search returns every such row |
| SampleService.CreateRowSpec | src/services/sample_service.py:20-42 | a create succeeds exactly for a new id and a record PostgreSQL can store (`big_int` within BIGINT, no NUL character in the text columns, no `\u0000` in any jsonb string or key); it stores the record, makes it visible and grows the count by one; a failed create changes nothing |
| SampleService.CountInsert | src/services/sample_service.py:113-140 | a new row adds one to `count` exactly when the count includes it |
| SampleService.CountHide | src/services/sample_service.py:113-140 | removing or hiding one visible row, and nothing else, drops the visible count by one |
| SampleService.Assign | src/services/sample_service.py:170-172 | one setattr never changes id or created_on |
| SampleService.Stage | src/services/sample_service.py:170-172 | the setattr loop never changes id or created_on |
| SampleService.StageFields | src/services/sample_service.py:169-172 | names that are not writable keep their values; each writable name ends with its last value in the dictionary |
| SampleService.StageFlags | src/services/sample_service.py:170-175 | the flush fails exactly when a writable name got a value its column cannot hold; the row is dirty exactly when a writable name was assigned |
| SampleService.StagedColumns | src/services/sample_service.py:169-175 | after a clean setattr loop and the flush stamp, every column other than modified_on holds the last value the items gave it when it is writable and given, and its old value otherwise |
| SampleService.UpdateRowSpec | src/services/sample_service.py:142-181 | a missing or invisible id gives None and no change; for a visible row the update fails exactly when a value does not fit its column (InvalidValue naming it) or the stamped row cannot be stored (DataException), and a failure changes nothing; a success stores and returns the staged row, in which each writable column given in the items holds its last value and every other column other than modified_on keeps its value, with id, key and created_on kept and modified_on stamped when anything was assigned |
| SampleService.DeleteRowSpec | src/services/sample_service.py:183-217 | returns true exactly for a visible row; afterwards get_by_id finds nothing and the count drops by one; a soft delete keeps the row with both flags flipped, a hard delete removes it; other rows are untouched; false changes nothing |
| SampleService.SampleTable.Create | src/services/sample_service.py:20-42 | the result and the new rows are those of `CreateRow` on the old rows, and the table stays consistent |
| SampleService.SampleTable.Update | src/services/sample_service.py:142-181 | the setattr loop over the items gives the result and the rows of `UpdateRow` on the old rows |
| SampleService.SampleTable.Delete | src/services/sample_service.py:183-217 | the result and the new rows are those of `DeleteRow` on the old rows |
| SampleRoutes.ToEntity | src/routes/sample/sample_routes.py:40 | the record built from a create body carries every body field, the generated id and the two `utcnow()` readings as `created_on` and `modified_on`, and is visible |
| SampleRoutes.CreateSpec | src/routes/sample/sample_routes.py:27-42 | an invalid body is 422 with no change; a valid create raises, with no change, exactly when the id is taken (unique violation) or `big_int` exceeds BIGINT, a text column holds a NUL character or a jsonb value holds `\u0000` in a string or key (data exception); otherwise it is 201 with the new record, which is stored and visible |
| SampleRoutes.GetSpec | src/routes/sample/sample_routes.py:51-66 | 404 with the not-found detail exactly when get_by_id finds nothing; otherwise 200 with a response that reads back as that row |
| SampleRoutes.ListSpec | src/routes/sample/sample_routes.py:75-96 | 422 exactly for skip < 0 or limit outside 1..1000; otherwise 200 with the envelope: the get_all page, total = count under the same include_inactive, skip and limit echoed |
| SampleRoutes.SearchSpec | src/routes/sample/sample_routes.py:105-119 | 422 exactly for an empty term or bad paging; otherwise 200 with the service's page of matching rows, at most limit of them |
| SampleRoutes.DropNone | src/routes/sample/sample_routes.py:137 | keeps exactly the entries whose value is not None, never more entries than the dump, and is empty exactly when every value is None |
| SampleRoutes.DropNoneDistinct | src/routes/sample/sample_routes.py:137 | dropping the None entries keeps the names distinct |
| SampleRoutes.LastForDropNone | src/routes/sample/sample_routes.py:137 | in the filtered dump a name holds its dumped value when that is not None, and is absent otherwise |
| SampleRoutes.UpdateDataFields | src/routes/sample/sample_routes.py:137 | the update data names only writable columns other than is_deleted and modified_on, each with a non-None value of its type |
| SampleRoutes.UpdateDataEmpty | src/routes/sample/sample_routes.py:137-143 | the update data is empty exactly for a body with no field given |
| SampleRoutes.DataGiven | src/routes/sample/sample_routes.py:137 | the update data gives each of the eight fields the body's value under its own column name exactly when the body gives it |
| SampleRoutes.UpdateStaged | src/services/sample_service.py:169-175 | the setattr loop over the update data of a non-empty body stages cleanly and, with the flush stamp, yields the row with each given field replaced and modified_on stamped |
| SampleRoutes.UpdateFound | src/routes/sample/sample_routes.py:139-153 | for a visible row and non-empty clean update data, the reply is 200 with the stamped row and the table stores it, or the update raises a data exception and changes nothing |
| SampleRoutes.UpdateSpec | src/routes/sample/sample_routes.py:128-153 | an invalid body is 422 and an empty body 400, with no change; otherwise 404 with no change exactly when the row is missing or invisible; for a visible row the reply is 200 with the row whose given fields are the body's values, the rest kept and modified_on stamped, and that row is stored, unless PostgreSQL refuses it, in which case the update raises a data exception and changes nothing |
| SampleRoutes.PatchSampleEntity | src/routes/sample/sample_routes.py:162-169 | PATCH replies and writes exactly as PUT |
| SampleRoutes.DeleteSpec | src/routes/sample/sample_routes.py:178-202 | 404 exactly when the row is missing or invisible, with no change; a visible row gets 200 with success, the message of the delete mode and the id echoed, and is no longer visible; the table then holds the soft-deleted row (both flags flipped, modified_on stamped) by default, or no longer holds it after a hard delete, with every other row kept |
| SampleRoutes.UpdateKeepsRowValid | src/routes/sample/sample_routes.py:122-153 | an update through the route keeps the row within the response schema's constraints |
| SampleRoutes.UpdateItemsKeepRowsValid | src/routes/sample/sample_routes.py:137-153 | an update with well-typed items keeps every row within the response schema |
| SampleRoutes.CreateKeepsRowsValid | src/routes/sample/sample_routes.py:27-42 | a create keeps every row within the response schema |
| SampleRoutes.RoutesKeepRowsValid | src/routes/sample/sample_routes.py:22-158 | create, update and delete keep every row within the response schema, so response validation cannot fail |
| DbContext.PoolBounds | src/db/context.py:17-35 | the engine uses the settings URL, no echo, pool 10 plus overflow 20, pre-ping and LIFO; the session maker has expire_on_commit, autoflush and autocommit off |
| DbContext.Engine.Dispose | src/db/context.py:61 | disposing raises exactly when it fails, and closes the pool only on success |
| DbContext.SessionRun | src/db/context.py:42-55 | open, yield, then commit after a body that completes; roll back and re-raise on an exception from the body or the commit; cancellation skips both; close comes last and once on every path |
| DbContext.Context.Initialize | src/db/context.py:15-35 | builds a fresh engine and session maker only when there is no engine; otherwise a no-op |
| DbContext.Context.GetEngine | src/db/context.py:37-40 | returns the existing engine, or a freshly built one; never None |
| DbContext.Context.DisposeEngine | src/db/context.py:57-63 | disposes the engine and clears both fields; no-op without an engine; a failing dispose leaves both fields |
| DbContext.Context.GetSessionAsync | src/db/context.py:42-55 | an existing engine and session maker are kept, otherwise a fresh engine for the URL and the default session maker are built; then the session follows `SessionRun` step for step |
| DbContext.DisposeThenReinitialise | src/db/context.py:37-63 | after a dispose, the next get_engine builds a fresh engine |
| ConfigureScheduler.GetScheduler | src/jobs/configure_scheduler.py:8-36 | one job store on the rewritten URL and the job-store schema; jobs coalesce, max one instance, 60 s misfire grace |
| ConfigureScheduler.FirstReplaceIsIdentity | src/jobs/configure_scheduler.py:11-14 | replacing the psycopg scheme by itself changes nothing |
| ConfigureScheduler.UrlWithoutAsyncpgUnchanged | src/jobs/configure_scheduler.py:11-17 | a URL in which the asyncpg scheme does not occur passes through unchanged |
| ConfigureScheduler.NoAsyncpgAtStart | src/jobs/configure_scheduler.py:14-17 | the asyncpg scheme does not start at the start of a plain or psycopg URL |
| ConfigureScheduler.NoAsyncpgInside | src/jobs/configure_scheduler.py:14-17 | nor at any later position inside those schemes |
| ConfigureScheduler.KeepsScheme | src/jobs/configure_scheduler.py:11-17 | a plain or psycopg scheme is kept, and only the rest of the URL has its asyncpg occurrences rewritten |
| ConfigureScheduler.SyncUrlOfValidUrl | src/jobs/configure_scheduler.py:11-17 | every accepted database URL becomes a plain or psycopg URL, and an asyncpg URL becomes a psycopg one |
| TomlUtils.Get | src/utils/toml_utils.py:11-25 | the loop returns the value at the key path, or the default as soon as a key is missing or a value is not a table; no keys give the whole config |
| TomlUtils.LookupAppend | src/utils/toml_utils.py:19-25 | looking up prefix + suffix is looking up suffix from the prefix's result |
| TomlUtils.LookupMissingExtends | src/utils/toml_utils.py:20-24 | once a path is missing, every longer path is missing |
| App.ParseCorsOrigins | src/app.py:71-75 | "*" becomes ["*"]; any other value becomes its comma-separated pieces, each stripped |
| App.CorsOriginsShape | src/app.py:74-75 | one origin per comma plus one, none containing a comma or starting or ending with whitespace |
| App.CorsOriginsRoundTrip | src/app.py:74-75 | for a value without whitespace, joining the origins with commas gives back the value |
| App.CorsOriginsExample | src/app.py:74-75 | "a, b,,c " gives four origins: the stripped pieces "a", " b" and "c ", with the empty third piece kept as "" |
| App.LifespanOrder | src/app.py:18-55 | each lifespan step happens at most once, in source order |
| App.LifespanStartup | src/app.py:23-34 | the poller is spawned; the scheduler is started only if not running; serving starts only after both succeed |
| App.LifespanShutdown | src/app.py:36-53 | shut-down runs after a failed start-up too; the poller is cancelled only if its task exists and is not done; the scheduler is shut down only if running; the engine is disposed unless the scheduler shut-down raised |
| App.LifespanRaised | src/app.py:36-53 | a shut-down exception replaces an earlier one; the run ends cleanly exactly when nothing raised |
| App.Host.Lifespan | src/app.py:18-55 | steps, exception and scheduler state are those of `LifespanRun`; a successful disposal disposes the engine and clears the session maker; a failing disposal, or one without an engine, leaves engine and session maker as they were, and so does a run that never reaches the disposal |
| GlobalHandler.GlobalExceptionHandler | src/exceptions/global_handler.py:8-28 | status 500, "Internal server error" and the request id; the detail is the exception text only in the local environment |
| GlobalHandler.NoDetailLeak | src/exceptions/global_handler.py:16-17 | outside the local environment the response does not depend on the exception |
| GlobalHandler.UnsetProfileShowsDetail | src/exceptions/global_handler.py:17 | with the profile unset the detail is shown |
| GlobalHandler.HttpExceptionHandler | src/exceptions/global_handler.py:31-45 | the exception's status, its detail as message, no detail key, the request id |
| RequestLogger.HeaderGetSpec | src/middlewares/request_logger_middleware.py:13-14 | a header is found exactly when some entry has its name ignoring case, and the value is the first such entry's |
| RequestLogger.HeaderGetLower | src/middlewares/request_logger_middleware.py:13-14 | the lookup ignores the case of the name |
| RequestLogger.SelectId | src/middlewares/request_logger_middleware.py:13-14 | the header's value when present, otherwise the generated id |
| RequestLogger.SetHeaderSpec | src/middlewares/request_logger_middleware.py:31-32 | setting a header reads back the new value, keeps every other entry in order, and keeps names lower-cased |
| RequestLogger.RequestResponseLogger | src/middlewares/request_logger_middleware.py:10-34 | both ids are selected, stored on the request before the downstream call, and echoed as headers on the downstream's own response |
| RequestLogger.EchoSpec | src/middlewares/request_logger_middleware.py:31-34 | the echoed headers carry the two ids and every other response header is unchanged |
| Text.Lower | src/utils/env_utils.py:14 | same length, each character ASCII-lower-cased |
| Text.Strip | src/app.py:75 | the result neither starts nor ends with whitespace |
| Text.StripSlice | src/app.py:75 | the result is the slice after the leading whitespace, with only whitespace around it |
| Text.JoinSplit | src/app.py:75 | joining the pieces of a split gives back the string |
| Text.SplitJoin | src/app.py:75 | splitting a join of separator-free pieces gives back the pieces |
| Text.SplitCount | src/app.py:75 | a split has one more piece than the string has separators |
| Text.ReplaceSelf | src/jobs/configure_scheduler.py:11-14 | replacing a pattern by itself is the identity |
| Text.ReplaceAbsent | src/jobs/configure_scheduler.py:14-17 | a string without the pattern is unchanged |
| Text.ReplaceKeepsPrefix | src/jobs/configure_scheduler.py:14-17 | a prefix in which the pattern starts nowhere is kept |

## Left out

- Concurrency and timing are not modelled: `asyncio.to_thread`, real sleeps, task scheduling and cancellation delivery. Cancellation and `stop()` are events of the poller's script. A cancellation reaches the poller only at the fetch, and a stop only before the loop test. Sleeps are recorded as integer durations.
- EventPoller.SampleEventPoller.PollMessages: when the script runs out, the loop is still running (exit `Exhausted`, flag set). The source loop never ends there, so no flag-clearing is claimed for that case.
- EventPoller: the event processor and `__receive__` are reduced to a per-message "raises" flag and the scripted fetch results. `src/events/processor/*.py` only defines an interface and a log-only implementation.
- APScheduler's behaviour is not modelled: cron parsing, coalescing, misfire handling and the job store. `src/jobs/base_job.py`, `src/jobs/sample_job.py` and `src/jobs/__init__.py` are not part of this model. `GetScheduler` models only the configuration handed over.
- SQL and ORM mechanics are replaced by a map from id to row: sessions, flush/refresh, connection pooling and transactions. Each service write is one unit of work on that map.
- SampleService.Ordered: SQL leaves the order of rows with equal `created_on` unspecified. The model breaks such ties by id, ascending.
- SampleService.SearchContains: the case-insensitive substring property is stated only for terms without `%`, `_` or `\`. Those characters keep their `ILIKE` meaning, which `SqlLike.Like` models.
- `Text.Lower`, `SqlLike.ILike`: case folding covers ASCII letters only. Python's `str.lower()` and PostgreSQL's locale-dependent folding also fold other letters. `Text.IsSpace` likewise covers a fixed set of whitespace characters.
- SampleService.UpdateRow: `setattr` of a name that is an attribute other than a column (a method, say) is not modelled. Only columns count as attributes. The route only ever passes column names.
- SampleService.UpdateRow: the `update_data` dictionary is an ordered list of pairs whose last entry for a name wins. Values of the wrong type are rejected at flush as `InvalidValue` instead of by the database driver's own error. Values of the right type that PostgreSQL refuses (SQLSTATE class 22) are one `DataException`, which does not name the column.
- SampleService.CreateRowSpec: of PostgreSQL's data exceptions only an out-of-range `big_int` and NUL characters are modelled. Other causes, such as jsonb numeric limits or a value longer than a column allows when written outside the schemas, are not.
- SampleService: a negative `skip` or `limit` cannot be passed to the service functions, which take `nat`; the routes reject those with 422 first. The service's own `limit` default of 100 is kept.
- `src/db/listeners.py`: the `before_update` hook is modelled inside `Flush` as "a dirty row gets `modified_on := now`", with the clock passed in.
- FastAPI/pydantic validation is modelled as predicates plus the 422 `Unprocessable` reply. The model does not cover the validation machinery, type coercion, response serialisation (ORJSON) or the error bodies pydantic builds.
- Response-model validation of rows that were written outside these routes is not modelled. `RoutesKeepRowsValid` shows that rows written through the routes always pass it.
- RequestLogger.RequestResponseLogger: an exception that escapes `call_next` is not modelled, so neither is the lost header echo. The request's `url`, `method` and client, and all timing and logging, are left out.
- DbContext: a cancellation of the session body is assumed to be a `CancelledError`, which `except Exception` does not catch. A close that itself raises is not modelled.
- App.Host.Lifespan: a failing `create_task` is modelled as `spawnFails`. Awaiting a cancelled poller is assumed to end in `CancelledError`, which is absorbed. A poller that ends with another exception is not modelled.
- App.LifespanShutdown: `scheduler.shutdown` (src/app.py:47-48) is not guarded, so an exception there skips `DbContext.dispose_engine` (src/app.py:52). The model follows the code.
- App: the scheduler is the shared module-level object, reduced to its `running` flag. `scheduler.shutdown` leaves the flag set when it raises.
- TOML file reading (`_load_toml`), `.env` loading (`load_env`), and `os.getenv` are I/O. They are parameters here: the parsed document and the profile value.
- Logging calls, `src/utils/logging_utils.py`, `src/utils/bootstrap.py`, `src/events/register_event_pollers.py`, `main.py` and the health and hello-world routes are not part of this model; they are wiring, logging or process start-up.
- Settings: the conversion of environment strings to typed values is pydantic's. `Load` starts from values that already have the field types. `host` and `sample_job_frequency` are required strings with no further check. `extra="allow"` fields are not modelled.
- Values: fractional numbers (JSON and TOML floats) and TOML dates and times are not modelled; `Value` has no constructor for them.
- SampleRoutes.DropNone: only membership of the kept entries is stated, not that they keep the dump's order; with distinct names the last value of each name does not depend on the order.
- Settings.Errors: each error is its field alias and its message text: pydantic's text for the `ge`/`le` bounds, and "Value error, " followed by the validator's own message. The order of the errors follows the fields. The rest of pydantic's error objects (location tuples, error types, input values, `ctx`) is not modelled.
