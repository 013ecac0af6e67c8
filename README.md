# postgres_to_es: retry decorators and the ETL cycle, in Dafny

This project models the two parts of `postgres_to_es` that carry its logic, and proves what they promise.

- **The retry decorators** of `postgres_to_es/db/backoff.py`. `backoff` calls a function until a call returns. Between failures it sleeps `start·factor^attempt` while the previous delay is below the border, and the border itself afterwards. `pg_backoff` walks its delay down by `factor` while it is above the border, then up by `factor` while it is below the start, and repeats. Both are `while` loops in module `Backoff` (file `backoff.dfy`). The wrapped function is a sequence of call outcomes that ends in a success. `time.sleep` and the error log are logs the methods return, and each log is proved equal to a specification function.
- **The `ETL` class** of `postgres_to_es/services/db_classes.py`:
  - `get_columns` memoises column lists;
  - `get_data` reads the watermark and yields batches of the film_work query;
  - `transform` turns a row into a document;
  - `load_data` builds and sends one bulk request;
  - `etl` runs a cycle and stores `last_modified`.

  The class and its loops are in module `DbClasses` (file `db_classes.dfy`). The specification functions and the lemmas about them are in module `EtlSpec` (file `etl_spec.dfy`).
  - Postgres is a value that says what each query answers, including which query or fetch raises.
  - Elasticsearch is a class holding the log of bulk requests.
  - The state store is a class holding a key/value map.
  - `json.dumps` is an opaque function `ser`.

The model follows the code as written:
- `transform` returns inside its person loop, so a film without persons gives None, and any other film gives a document built from its first person only (`TransformOf`, `TransformFirstPersonOnly`).
- `get_data` passes `BATCH_SIZE` as the query's LIMIT, so a cycle sees at most one batch (`BatchesShape`).
- `load_data` runs for every non-empty batch. `last_modified` starts from the key-less `get_state()` value and is written whenever it is not None (`BatchWatermark`).

Other behaviour of the code that the model keeps:
- `transform` fills in no defaults: rating, title and description are copied as they are, None included (`TransformFields`).
- Only a film's first person reaches its document (`TransformFirstPersonOnly`).
- `last_modified` is written after every non-empty batch whenever it is not None, whether or not it advanced past the watermark that was read (`BatchWatermark`).
- Each film's genres and persons come from their own queries, one pair per row.

## Model

| member | source | states |
|---|---|---|
| Backoff.Backoff | postgres_to_es/db/backoff.py:27-46 | It ends either when a call returns, with that call's value, after exactly FirstOk(calls) failures (attempt, sleeps and log all count them), or when a sleep is negative and `time.sleep` raises, right after that failure. Sleep i is ExpDelay(i + 1), and the error log is ExpLog. With non-negative parameters it ends only when a call returns. |
| Backoff.ExpSleepsAt | postgres_to_es/db/backoff.py:39-43 | The sleep after failure i is the delay formula applied after i + 1 failures. |
| Backoff.ExpLogAt | postgres_to_es/db/backoff.py:36-38 | Failure i is logged with attempt number i and that call's own error. |
| Backoff.ExpClosedForm | postgres_to_es/db/backoff.py:30-40 | While every earlier exponential delay stayed below the border, the sleep after failure k is start·factor^k, so the first sleep is start. |
| Backoff.ExpCapped | postgres_to_es/db/backoff.py:39-42 | Once a delay has reached the border, every later delay equals the border exactly. |
| Backoff.ExpDelayNonNegative | postgres_to_es/db/backoff.py:43 | With non-negative parameters no delay is negative, so `time.sleep` cannot raise. |
| Backoff.ExpDefaults | postgres_to_es/db/backoff.py:9 | With the defaults (0.1, 2, 10) the first sleep is 0.1 and the seventh is 6.4. The eighth is 12.8, which overshoots the border. Every later one is 10. |
| Backoff.PgBackoff | postgres_to_es/db/backoff.py:65-96 | It spins without ever calling exactly when start <= border. Otherwise it ends only on the first returning call, with its value, or on a negative sleep; the sleeps and the log are those of the ramp RampAt. |
| Backoff.RampDescend | postgres_to_es/db/backoff.py:71-81 | The descending loop steps the delay down by the factor before each call and logs attempt + 1. It leaves with delay <= border and the ramp trace intact, or with the wrapper's exit. |
| Backoff.RampFall | postgres_to_es/db/backoff.py:72-81 | One failed call in the descending loop moves the ramp one step down by the factor, logs attempt + 1 with that call's error, and sleeps for the new delay. A negative delay ends the wrapper with the error raised by `time.sleep`. |
| Backoff.RampAscend | postgres_to_es/db/backoff.py:82-94 | The ascending loop steps the delay up by the factor before each call and logs attempt. It leaves with delay >= start after at least one call, or with the wrapper's exit. |
| Backoff.RampSleepsAt | postgres_to_es/db/backoff.py:80 | Sleep i of `pg_backoff` is the ramp's delay after i + 1 steps. |
| Backoff.RampLogAt | postgres_to_es/db/backoff.py:76-79 | Failure i is logged with i + 1 when the descending loop made the call, and with i when the ascending loop did. |
| Backoff.RampStalls | postgres_to_es/db/backoff.py:69-71 | When start <= border the ramp never leaves its first state, so the function is never called. |
| Backoff.RampMovesByFactor | postgres_to_es/db/backoff.py:71-72 | When start > border, consecutive delays differ by exactly +factor or -factor. |
| Backoff.RampBounds | postgres_to_es/db/backoff.py:83-84 | For factor > 0 every delay lies strictly between border - factor and start + factor. |
| Backoff.RampDefaultsDown | postgres_to_es/db/backoff.py:71-72 | With the defaults (25, 5, 1) the first five calls are made at delays 20, 15, 10, 5, 0 by the descending loop. |
| Backoff.RampDefaultsUp | postgres_to_es/db/backoff.py:83-84 | With the defaults the next five calls are made at delays 5, 10, 15, 20, 25 by the ascending loop. |
| Backoff.RampDefaultDelays | postgres_to_es/db/backoff.py:49 | With the defaults the delays of calls 1..10 go 25 - 5k on the way down and 5(k - 5) on the way up. |
| Backoff.RampDefaults | postgres_to_es/db/backoff.py:69-94 | With the defaults the first ten sleeps are 20, 15, 10, 5, 0, 5, 10, 15, 20, 25. |
| Backoff.RampDefaultsTurn | postgres_to_es/db/backoff.py:82-83 | With the defaults the state after eleven calls equals the state after one. |
| Backoff.RampDefaultsPeriodic | postgres_to_es/db/backoff.py:70 | With the defaults the ramp repeats with period 10 from the first call on. |
| DbClasses.StateStore.Get | postgres_to_es/services/db_classes.py:59-60 | `get_state(key)` gives the stored value, or None when the key was never set. |
| DbClasses.StateStore.Set | postgres_to_es/services/db_classes.py:193 | `set_state` stores the one key and changes no other. |
| DbClasses.SearchIndex.Bulk | postgres_to_es/services/db_classes.py:150-153 | `es.bulk` adds exactly one request, with that index and body, to the log. |
| DbClasses.ClassifyPersons | postgres_to_es/services/db_classes.py:107-114 | The person loop produces exactly RolesOf(persons): each list is the persons of that role, in order. |
| DbClasses.FetchBatches | postgres_to_es/services/db_classes.py:72-75 | The fetchmany loop collects exactly the non-empty answers before the first empty one, or before the fetch that raises. |
| DbClasses.ETL.constructor | postgres_to_es/services/db_classes.py:22-35 | The connections, index name and state are stored, and the column cache starts empty. |
| DbClasses.ETL.GetColumns | postgres_to_es/services/db_classes.py:37-55 | A cached table is answered from the cache with the cache unchanged. A successful lookup is stored and returned. A failed lookup returns [] with the cache unchanged. |
| DbClasses.ETL.GetData | postgres_to_es/services/db_classes.py:57-75 | The batches yielded are Batches(pg, watermark), where the watermark is the stored `last_modified`, or `datetime.min` when there is none. |
| DbClasses.ETL.Transform | postgres_to_es/services/db_classes.py:77-128 | The result is TransformOf(pg, row), and the column cache is left as one film_work lookup leaves it. |
| DbClasses.ETL.LoadData | postgres_to_es/services/db_classes.py:130-163 | Exactly LoadRequests(index, ser, docs) is sent: nothing when no document is truthy, else one request. |
| DbClasses.ETL.TransformRows | postgres_to_es/services/db_classes.py:179-188 | The row loop collects Produced(pg, rows). `last_modified` ends as LastModified(pg, rows, key-less value). |
| DbClasses.ETL.ProcessBatch | postgres_to_es/services/db_classes.py:179-195 | One batch sends LoadRequests of its produced documents. The state becomes CommitBatch, which stores `last_modified` unless it is None. |
| DbClasses.ETL.RunBatches | postgres_to_es/services/db_classes.py:174-195 | Over a list of batches, empty ones are skipped. The state becomes CommitAll, the requests Requests, and the cache is touched only if some row was seen. |
| DbClasses.ETL.Etl | postgres_to_es/services/db_classes.py:165-196 | One cycle over the batches of GetData ends with CommitAll, Requests and the cache relation. |
| EtlSpec.OrderedPairwise | postgres_to_es/services/db_classes.py:66 | Rows ordered by `modified` as neighbours are ordered as any pair. |
| EtlSpec.Newer | postgres_to_es/services/db_classes.py:65 | A row is kept iff it is in the table and its `modified` is after the watermark. |
| EtlSpec.Insert | postgres_to_es/services/db_classes.py:66 | Inserting into an ordered list keeps it ordered, adds exactly that row and keeps the rest. |
| EtlSpec.SortByModified | postgres_to_es/services/db_classes.py:66 | `ORDER BY modified` gives an ordered permutation of its input. |
| EtlSpec.SortKeepsTies | postgres_to_es/services/db_classes.py:66 | Two rows with the same `modified` come out of the model's ordering in table order. |
| EtlSpec.Selected | postgres_to_es/services/db_classes.py:63-71 | The result set has at most BATCH_SIZE rows and is ordered by `modified`. |
| EtlSpec.SelectedRows | postgres_to_es/services/db_classes.py:63-71 | Every row of the result set is a table row modified after the watermark. When at most BATCH_SIZE qualify, it holds all of them. |
| EtlSpec.SelectedLimit | postgres_to_es/services/db_classes.py:66-67 | When more than BATCH_SIZE rows qualify, the LIMIT keeps exactly BATCH_SIZE of them: the first in `modified` order, none later than any row it drops. |
| EtlSpec.ChunksShape | postgres_to_es/services/db_classes.py:72-73 | Every fetchmany answer holds between 1 and BATCH_SIZE rows, and the answers in order are the result set. |
| EtlSpec.Fetched | postgres_to_es/services/db_classes.py:74-75 | What the loop collects is a prefix of the answers: all of them without an exception, none when the query raises. |
| EtlSpec.FetchedAfter | postgres_to_es/services/db_classes.py:72-75 | The loop ends with the first n answers when fetch n + 1 raises, or when it comes back empty. |
| EtlSpec.BatchesAtMostOne | postgres_to_es/services/db_classes.py:67-70 | Because of the LIMIT, the batches are none or the whole result set as one batch. Without an exception a non-empty result set always comes as one batch. |
| EtlSpec.BatchesShape | postgres_to_es/services/db_classes.py:57-75 | `get_data` yields at most one batch. Each batch is non-empty, holds at most 100 rows and is ordered, and its rows are modified after the watermark. Together they are a prefix of the result set, all of it when nothing raises. |
| EtlSpec.Names | postgres_to_es/services/db_classes.py:122-124 | A names list has the length of its role list, and entry i is the name of person i. |
| EtlSpec.RoleRefsMembers | postgres_to_es/services/db_classes.py:108-114 | An entry is in a role's list iff some person with that role, id and name is in the input. |
| EtlSpec.RolesPartition | postgres_to_es/services/db_classes.py:109-114 | The three lists together hold one entry per person with a known role: no person lands twice, and the others are dropped. |
| EtlSpec.TransformFields | postgres_to_es/services/db_classes.py:116-127 | A document comes exactly when the film has a person. Its id, rating, title and description are copied unchanged, with no defaults, and genres are the film's. Each names list projects its role list, and at most one person appears. |
| EtlSpec.TransformFirstPersonOnly | postgres_to_es/services/db_classes.py:107-116 | Two films whose person lists start with the same person, and whose genres agree, transform alike: later persons never matter. |
| EtlSpec.BulkPairs | postgres_to_es/services/db_classes.py:137-147 | The bulk list has twice as many entries as truthy documents. Entry 2i is the index action with `_id` = the id of truthy document i, and entry 2i + 1 is that document. |
| EtlSpec.Serialized | postgres_to_es/services/db_classes.py:152 | Entry i of the serialised list is `json.dumps` of bulk entry i. |
| EtlSpec.JoinThenNewline | postgres_to_es/services/db_classes.py:152 | Joining with "\n" and adding "\n" terminates every line with "\n". |
| EtlSpec.LoadSends | postgres_to_es/services/db_classes.py:148-163 | `load_data` sends a request iff some document is truthy. Its body is every serialised entry, each newline-terminated. |
| EtlSpec.ProducedPresent | postgres_to_es/services/db_classes.py:182-185 | A batch hands `load_data` one truthy document per producing row. The list is empty iff no row produces. |
| EtlSpec.LastModifiedSource | postgres_to_es/services/db_classes.py:180-188 | `last_modified` is the key-less state value when no row produced, else the `modified` of a producing row. |
| EtlSpec.LastModifiedIsLatest | postgres_to_es/services/db_classes.py:182-188 | On rows ordered by `modified`, `last_modified` is no earlier than any producing row. |
| EtlSpec.CacheAfter | postgres_to_es/services/db_classes.py:39-51 | A lookup never drops or changes a cached entry. |
| EtlSpec.CacheAfterIdempotent | postgres_to_es/services/db_classes.py:39-40 | A second lookup of the same table changes nothing. |
| EtlSpec.BatchWatermark | postgres_to_es/services/db_classes.py:179-195 | After a batch where some row produced, the stored `last_modified` is later than the watermark and no earlier than any producing row. When none produced, only the key-less value is written, and only if it is not None. |
| EtlSpec.CycleWatermark | postgres_to_es/services/db_classes.py:174-195 | A whole cycle: no rows means no write. Otherwise BatchWatermark's statement holds for the cycle's rows. |

## Left out

- Logging is not modelled beyond the attempt number and error each failure logs in the retry decorators. The bulk reply's `errors` check and every `logging` call in `ETL` only write log lines.
- Floating point: delays of `backoff` are Dafny `real`, so `0.1 * 2**k` is exact and rounding is not modelled. `pg_backoff` works on `int`, as its defaults do.
- Backoff.Backoff: the source compares `delay < border` on floats; the model compares exact reals. With the defaults both give the same sequence.
- Backoff.PgBackoff: when start <= border the source spins forever. The model returns `Spins` at once instead of looping, since a non-terminating loop cannot be a method here.
- Exceptions other than the ones the source catches are not modelled: a `KeyboardInterrupt` inside a retry, or an error from `time.sleep` other than a negative delay.
- The SQL and cursor details of `ETL` are replaced by the `Postgres` value. This covers:
  - the literal `'table_name'` comparison at db_classes.py:45, which makes the real column query return no rows;
  - the non-tuple parameter of the genres query at db_classes.py:93;
  - the `pfm` alias at db_classes.py:100;
  - `row.get(...)` on a row tuple at db_classes.py:188;
  - the single cursor shared by all queries.
  
  The model gives each query the answer it was meant to give, and takes `modified` from a row field.
- `dict(zip(columns, row))` at db_classes.py:84 is not modelled. Rows are records with named fields, and the column list is fetched only for its effect on the cache.
- `columns.index('modified')` at db_classes.py:187 raising ValueError is not modelled, for the same reason.
- Exceptions from the genres and persons queries in `transform` are not modelled; they would escape `etl`.
- Exceptions from `load_data`'s `es.bulk` call and its reply are not modelled: the source catches and only logs them, and the request log records the call.
- The `State` class: postgres_to_es/services/state.py is not part of this model. The store is a key/value map, and its key-less `get_state()` is a fixed value `keyless`.
- EtlSpec.Watermark: falsy non-None stored values (an empty string, 0) are not distinguished from None. The model's stored value is None or a timestamp.
- EtlSpec.SortByModified: Postgres leaves the order of rows with equal `modified` open; the model fixes one order, which keeps tied rows in table order.
- The `SET search_path` statement in the constructor, connection handling, and UUID-to-string conversion (a UUID is already its string here) are not modelled.
- postgres_to_es/main.py, postgres_to_es/db/connect_to_dbs.py, the query modules and postgres_to_es/db/data_classes.py are not part of this model: they are bootstrap, configuration, SQL text and declarations.
