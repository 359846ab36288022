# COVID-Visualization ingestion and storage, modelled in Dafny

This project models the data path of COVID-Visualization. One process downloads the CDC
case-count CSV on a timer, keeps five columns and upserts every row into the MongoDB
database `corona`. Each state has its own collection, keyed by `date`. The dashboard reads
a state's collection through a single-slot cache that expires after ten seconds.

The modules follow the two core files:

- `outcomes.dfy` (`Outcomes`): `Option`, `Result`, the exception kinds the pipeline can raise,
  and the status of one ingestion cycle.
- `documents.dfy` (`Documents`): cell values, records as maps from column to value, and
  `str.lower()` on ASCII letters.
- `store.dfy` (`Store`): the database `corona` as a value. A collection is the sequence of its
  documents; each document carries the server's `_id`. This module holds the meaning of
  `replace_one(filter={'date': d}, replacement=r, upsert=True)`: replace the first document
  with that date, keeping its `_id`, or append `r` under a fresh `_id`. It also holds the
  specification function `Upsert` of `upsert_data` and everything proved about it.
- `database.dfy` (`Database`):
  - the class `CoronaDb`, whose `UpsertData` loop writes the collections in place;
  - `Work`, which is `_work`;
  - the specification `ReadThrough` of `fetch_all_data_as_df`;
  - the class `ResultCache`, which holds the one slot of `_fetch_all_data_as_df_cache`.
- `data_acquire.dfy` (`DataAcquire`): the retry loop of `download_csv`, the projection of
  `filter_csv`, the three stages of `update_once`, and `main_loop`. The loop is a `Scheduler`
  class with an explicit clock, driven for a finite number of runs of `_worker`.

The libraries are replaced by state and inputs:

- The network is a function from attempt number to `Response(text)`, `HttpError` or
  `OtherError`.
- `read_csv` and `to_datetime` are the two fields of a `Pandas` value. Either can fail.
- Time is an explicit `now` or clock parameter.

Four facts about the code matter for what is proved:

- `filter_csv` does not lower-case `state`. The lower-casing happens only when
  `upsert_data` routes a record.
- `download_csv` catches only `HTTPError`. Any other exception leaves it at once. It does not
  stop after a success, and it returns the text of the last attempt that succeeded.
- The next run of `_worker` is scheduled `timeout` seconds after the previous run returned,
  not `timeout` seconds after it was due.
- When every download attempt fails, `download_csv` returns None. `filter_csv(None)` then
  raises, so that cycle writes nothing.

## Model

| member | source | states |
|---|---|---|
| `Documents.Lower` | database.py:21 | `state.lower()`: same length, no upper-case letter remains, other characters unchanged, and an already lower-case name is returned unchanged |
| `Store.FetchAllData` | database.py:32-37 | the documents of exactly the collection named `state`; an unknown collection reads as empty |
| `Store.FetchIsCaseSensitive` | database.py:32-35 | when collections only have lower-case names, asking for a name with an upper-case letter returns nothing |
| `Store.KeyOf` | database.py:21-23 | a record is routable exactly when `state` is present and is text and `date` is present; it then goes to collection `state.lower()` under filter `date` |
| `Store.Locate` | database.py:22-23 | the filter `{'date': d}` selects the first document with that date, or none when no document has it |
| `Store.ReplaceOne` | database.py:22-25 | `replace_one(filter={'date': d}, replacement=rec, upsert=True)` on collection `name`: replaces the body of the first document with date `d`, keeping its `_id`, or appends `rec` under a fresh `_id`; what it reports and changes is proved in `ReplaceOneSpec`, `ReplaceOneLookup` and `ReplaceOneUnique` |
| `Store.ReplaceOneSpec` | database.py:22-26 | `matched_count > 0` exactly when the key already had a document; an insert uses one fresh `_id` and adds one document; other collections are untouched |
| `Store.ReplaceOneLookup` | database.py:22-25 | after `replace_one`, the record's key reads back the record, and every other key reads as before |
| `Store.ReplaceOneUnique` | database.py:22-25 | `replace_one` never creates a second document with the same date in a collection |
| `Store.Upsert` | database.py:19-30 | `upsert_data` over the records in order, one `Step` each; what it leaves behind is proved in the `Upsert…` lemmas below |
| `Store.Step` | database.py:20-27 | one loop iteration: a routable record is written and counted exactly when its key already had a document, including one inserted earlier in the batch; an unroutable record ends the loop; nothing happens after a failure |
| `Store.UpsertCounts` | database.py:19-30 | `update_count` is at most the number of rows, and a completed batch uses one fresh `_id` per record that did not match |
| `Store.UpsertOkIffRoutable` | database.py:20-21 | the loop completes exactly when every record has a text `state` and a `date` |
| `Store.UpsertStopsAtFailure` | database.py:20-25 | once a record raises, the records after it are never processed |
| `Store.UpsertUnroutedStep` | database.py:20-25 | an unroutable record ends the batch; the records before it stay written |
| `Store.UpsertLastWriter` | database.py:20-25 | after a completed batch, each key the batch writes holds the LAST record of the batch with that key |
| `Store.UpsertFrame` | database.py:20-25 | keys the batch does not write read as before, with the same documents at their date; collections it does not route to are unchanged, and so is their presence |
| `Store.UpsertKeepsUnique` | database.py:22-25 | if no collection had two documents with one date before the batch, none has afterwards, even when the batch fails midway |
| `Store.UpsertKeepsLowerNames` | database.py:21 | collections are only ever created under lower-case names |
| `Store.UpsertPresence` | database.py:20-25 | after a completed batch, a key has a document exactly when it had one before or the batch wrote it |
| `Store.UpsertInsertCount` | database.py:26-30 | the logged `insert = rows - update` equals the number of distinct keys of the batch that had no document before |
| `Store.UpsertCollectionSize` | database.py:20-30 | each collection grows by exactly the number of new keys routed to it |
| `Store.ReadAfterUpsert` | database.py:20-37 | reading a collection that was empty before a completed batch gives one document per distinct date routed to it |
| `Store.Replay` | database.py:20-27 | a batch whose keys all exist already matches every record, inserts nothing, and only replaces bodies at the first document of each key |
| `Store.UpsertIdempotent` | database.py:20-27 | applying a completed batch a second time leaves the store exactly as it was and reports `update = rows`, `insert = 0` |
| `Store.UpsertRetryIdempotent` | database.py:20-27 | re-applying a batch leaves the store as the first application left it and ends the same way, also when the batch raised midway: the written prefix is rewritten with what it already holds and the same record raises again |
| `Database.CoronaDb.UpsertData` | database.py:14-30 | the loop leaves the collections as `Upsert` says, reports whether it completed, and logs `rows`, `update` and `insert` only when it completed |
| `Database.UpsertLogCounts` | database.py:26-30 | the logged `update` and `insert` both lie in `[0, rows]`, and `insert` counts the new keys |
| `Database.Work` | database.py:49-55 | None exactly when the collection is empty; otherwise all its documents, in order, without `_id` |
| `Database.ResultCache.FetchAllDataAsDf` | database.py:43-64 | returns and stores what `ReadThrough` says; the store is read exactly when the call is not a hit |
| `Database.Live` | database.py:39-40 | the slot holds an entry younger than `RESULT_CACHE_EXPIRATION` (10 s) at time `now` |
| `Database.ReadThrough` | database.py:57-64 | after every call the slot holds exactly the value returned; that value is either a fresh store read or, on a live hit with `allow_cached`, the slot's value |
| `Database.HitIgnoresPartition` | database.py:57-59 | a hit returns the slot's value whatever the store holds and whatever `state` was asked for |
| `Database.MissReadsStore` | database.py:57-64 | without `allow_cached`, or with an absent or expired entry, the store is read and its result, None included, replaces the slot with the current time |
| `Database.RepeatWithinExpiration` | database.py:39-64 | a cached read less than 10 s after a store read returns that read's result, even when other data was written in between |
| `Database.EmptyResultIsCached` | database.py:49-64 | an empty collection's None is cached like any other result |
| `Database.RepeatAfterExpiration` | database.py:39-64 | 10 s or more after a store read, a cached read goes back to the store |
| `DataAcquire.Attempts` | data_acquire.py:22 | `range(retries)` runs `retries` iterations, and none when `retries <= 0` |
| `DataAcquire.LastResponse` | data_acquire.py:21-26 | the last attempt before `n` that passed `raise_for_status`, or none |
| `DataAcquire.FirstOther` | data_acquire.py:23-28 | the first attempt before `n` that raised something other than `HTTPError`, or none |
| `DataAcquire.Download` | data_acquire.py:21-31 | the result is an exception exactly when some attempt raised a non-HTTP error; it is None exactly when every attempt raised `HTTPError`; otherwise it is the text of a successful attempt |
| `DataAcquire.DownloadCsv` | data_acquire.py:18-31 | the result is the last successful text, None, or the escaping exception; without a non-HTTP error exactly `max(retries, 0)` requests are made, otherwise the loop stops right after the first one; the error is logged exactly when the result is None |
| `DataAcquire.DownloadAfterTransientErrors` | data_acquire.py:22-27 | HTTP errors followed by successes within the attempt budget yield the successful text |
| `DataAcquire.DownloadKeepsLastSuccess` | data_acquire.py:22-26 | a success is kept even when every later attempt fails with an HTTP error |
| `DataAcquire.DownloadPersistentOutage` | data_acquire.py:21-31 | when every attempt fails with an HTTP error the result is None, not an exception |
| `DataAcquire.DownloadWithoutAttempts` | data_acquire.py:18-31 | with `retries <= 0` nothing is requested and the result is None |
| `DataAcquire.Project` | data_acquire.py:36-38 | one output row has exactly the columns `pnew_case`, `new_case`, `tot_cases`, `state`, `date`: the four kept cells unchanged, `date` the converted value, and no `created_at` |
| `DataAcquire.ConvertDates` | data_acquire.py:37-38 | `date` is `to_datetime(created_at)` on every row, `created_at` is gone, and conversion fails exactly when one cell does not convert |
| `DataAcquire.FilterCsv` | data_acquire.py:33-39 | None text fails, and every failure is a parse error |
| `DataAcquire.FilterCsvProjects` | data_acquire.py:36-38 | a successful filter keeps every row in order, with exactly the columns `pnew_case`, `new_case`, `tot_cases`, `state`, `date`; the four kept cells are unchanged |
| `DataAcquire.FilterRejects` | data_acquire.py:36-37 | a frame missing a used column, or with an unconvertible `created_at`, fails |
| `DataAcquire.FilterThenRoute` | data_acquire.py:33-39 | `state` is not normalised by the filter; each output row routes to `state.lower()` exactly when that cell is text |
| `DataAcquire.Cycle` | data_acquire.py:42-45 | a cycle that fails in download or filter leaves the store unchanged; a None download fails as a parse error; the store changes only when download and filter both succeeded |
| `DataAcquire.UpdateOnce` | data_acquire.py:42-45 | download, then filter, then upsert on the database handle, with the result `Cycle` gives |
| `DataAcquire.Loop` | data_acquire.py:47-58 | every tick produces one status: no failed cycle ends the loop |
| `DataAcquire.LoopAppend` | data_acquire.py:50-55 | two stretches of runs, one after the other, behave as one stretch |
| `DataAcquire.FailedCycleIsSkipped` | data_acquire.py:50-55 | a cycle that failed before the upsert changes nothing, so later cycles see what they would have seen without it |
| `DataAcquire.LoopKeepsUnique` | data_acquire.py:50-55 | over any number of cycles, no collection ever holds two documents with the same date |
| `DataAcquire.Scheduler.Enter` | data_acquire.py:55-57 | `scheduler.enter(delay, ...)` queues an event due `delay` after the current time |
| `DataAcquire.Scheduler.Next` | data_acquire.py:58 | `scheduler.run` takes the pending event and sleeps until it is due, or not at all if it is overdue |
| `DataAcquire.Worker` | data_acquire.py:50-55 | a run does one cycle, swallows its failure, and queues exactly one next run `timeout` after it returns |
| `DataAcquire.MainLoop` | data_acquire.py:47-58 | the first run starts at once, each later run starts `max(timeout, 0)` after the previous one ended, and the store and statuses are those of `Loop` |

## Left out

- Network I/O: the URL, `requests.get`, its 30 s timeout and `raise_for_status` are not modelled. Each attempt's outcome is an input.
- CSV parsing and `pandas.to_datetime` are library calls. They are parameters (`Pandas.readCsv`, `Pandas.toDatetime`) that may fail. `read_csv` with `usecols` is modelled as parsing plus a check that the five columns exist.
- `DataFrame.to_dict('records')` and `DataFrame.from_records` are not modelled. A frame is its sequence of records.
- The MongoDB client is not modelled: connections, server errors, write concerns and the wire protocol. A failing server call is not modelled, and `StoreError` arises only from a record that cannot be routed.
- `_id` generation: the server's ObjectId is a counter `nextId`, which is fresh for every insert.
- `Documents.Lower`: only ASCII letters are folded, whereas Python's `str.lower()` folds all of Unicode.
- Logging and `utils.setup_logger` are not modelled. The logged counts and the logged error are ghost outputs.
- `expiringdict` internals: the slot expires when its age reaches 10 s. The library's exact boundary and its clock reads are not modelled, and each call uses a single `now`.
- `sched` and `time.sleep`: the scheduler is a queue of due times with a clock, never holding more than one event. Priorities and blocking are not modelled, and neither is the infinite `scheduler.run`. `MainLoop` covers a finite number of runs, and each run's duration is an input.
- The `__main__` blocks of both files are not modelled.
- The default `timeout=DOWNLOAD_PERIOD` (10 s) of `main_loop` is not a constant of the model: `MainLoop` takes `timeout` as a parameter, so the default is the case `timeout == 10.0`.
- `app.py` is not part of this model. It calls `fetch_all_data_as_df` with a lower-cased state and without `allow_cached`, so in that program the cache is always bypassed.
- Concurrency between the dashboard and the ingestion process is not modelled.
