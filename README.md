# Rucio judge-evaluator and database session layer, modelled in Dafny

This project models two parts of Rucio.

The first is the judge-evaluator daemon (`lib/rucio/daemons/judge/evaluator.py`).
Each worker thread polls the `updated_dids` queue. It takes its share of the
rows: the rows whose name hashes to its worker number, oldest first, at most
1000. It calls `re_evaluate_did` at most once per (scope, name, action) of the
batch, deletes the rows that are done and commits. The model also covers
`stop`, and `run`, which starts one inline iteration or one thread per worker.

The second is the database session layer (`lib/rucio/db/session.py`):

- the connection-error classifier;
- the MySQL checkout ping;
- the bounded retry wrapper `wrap_db_error`;
- the lazily created global engine and scoped session;
- the three decorators `read_session`, `transactional_session` and
  `in_transaction` that run a unit of work in a session.

Layout:

- `errors.dfy` (module `Errors`): the exception classes. The SQLAlchemy class
  hierarchy is a parameter, `Hierarchy`. `SqlAlchemy` is the real one, in which
  `OperationalError` is a `DatabaseError`.
- `session.dfy` (module `Session`): `session.py`.
- `evaluator.dfy` (module `Evaluator`): `evaluator.py`.

Calls into code outside the model are oracles: `f(n)` is the outcome of the
n-th call. These are the wrapped function, `engine.connect` and
`re_evaluate_did`. The database's hash of a name (`ORA_HASH`, MySQL and
PostgreSQL `md5`) is an uninterpreted `hash: string -> nat`. The stop flag is
a `StopSchedule`: the check at which it is first seen set.

Two consequences of the code as written are proved as lemmas rather than
corrected.

1. `wrap_db_error` catches `DatabaseError` before `OperationalError`. In
   SQLAlchemy `OperationalError` is a subclass of `DatabaseError`, so every
   connection failure becomes a `RucioException` on the first call and the
   retry loop never runs (`SqlAlchemyNeverRetries`). The retry loop's own
   properties are proved for a hierarchy in which the loop is reachable.
2. On MySQL and PostgreSQL the partition filter reduces the hash modulo
   `total_workers`. Worker numbers run from 0 to `total_workers`, so the worker
   numbered `total_workers` never receives a row (`LastWorkerIdleOnModDialects`).
   On Oracle the filter `ORA_HASH(name, total_workers) = worker_number`
   excludes none of the `total_workers + 1` buckets: a name whose hash is w,
   for any w in [0, total_workers], goes to worker w (`EveryOracleBucketUsed`).
   Whether the hash actually reaches every bucket is not modelled.

## Model

| member | source | states |
|---|---|---|
| Session.Find | lib/rucio/db/session.py:135 | `str.find` returns -1 exactly when `sub` does not occur in `s`; otherwise `sub` occurs at the index returned and at no smaller index |
| Session.AnyCodeFoundMeaning | lib/rucio/db/session.py:134-137 | the loop over the codes, with its early return, returns true exactly when one of the codes occurs in the message |
| Session.IsDbConnectionError | lib/rucio/db/session.py:122-137 | the classifier itself, the loop over the nine codes; it carries no contract of its own (see `IsDbConnectionErrorMeaning`) |
| Session.IsDbConnectionErrorMeaning | lib/rucio/db/session.py:122-137 | a message is a connection error exactly when one of the nine MySQL/Oracle codes occurs in it |
| Session.CodeAnywhereIsConnectionError | lib/rucio/db/session.py:124-136 | a code surrounded by any text is still classified as a connection error |
| Session.MysqlPingListener | lib/rucio/db/session.py:44-64 | a live connection has no effect; a DisconnectionError is raised exactly for a driver OperationalError whose code is 2006, 2013, 2014, 2045 or 2055, with the "gone away" prefix before the driver text; every other failure propagates unchanged |
| Session.RetryFrom | lib/rucio/db/session.py:153-163 | the retry loop from call `k` with `remaining` attempts left makes between 1 and `remaining + 1` calls, and its result is the outcome of its last call |
| Session.WrapDbErrorRun | lib/rucio/db/session.py:140-165 | the wrapped function is called at least once and at most 11 times (one call plus at most ten retries) |
| Session.RetryFromStops | lib/rucio/db/session.py:153-163 | the retry loop makes between 1 and `remaining + 1` calls. Every call before the last is an OperationalError classified as a connection error. The last call is not, unless the counter ran out. The loop ends with the last call's outcome |
| Session.WrapCallsBounded | lib/rucio/db/session.py:140-165 | the wrapped function is called between 1 and 11 times. It is called more than once only after a retryable first failure that the `DatabaseError` clause did not catch |
| Session.SqlAlchemyNeverRetries | lib/rucio/db/session.py:143-149 | with SQLAlchemy's hierarchy there is exactly one call, and an OperationalError comes out as a RucioException with the same message |
| Session.FirstCallDecides | lib/rucio/db/session.py:143-165 | when the first outcome is not a retryable failure it is the only call. A return is passed through, a `DatabaseError` becomes a RucioException with its message, and every other exception propagates unchanged |
| Session.RetriedOutcome | lib/rucio/db/session.py:147-163 | after a retryable first failure there are 2 to 11 calls. The result is the outcome of the first call that is not a retryable failure, or of the eleventh call |
| Session.TwoFailuresThenSuccess | lib/rucio/db/session.py:151-158 | two connection failures followed by a success make three calls, and the wrapper returns the success |
| Session.RetriesExhausted | lib/rucio/db/session.py:151-161 | eleven connection failures make eleven calls, and the eleventh error propagates |
| Session.RetryLoop | lib/rucio/db/session.py:151-163 | the imperative retry loop's result and call count equal `RetryFrom` from the second call with nine attempts left; it sleeps once before every call |
| Session.WrapDbError | lib/rucio/db/session.py:140-167 | the imperative wrapper's result and call count equal `WrapDbErrorRun`; it sleeps once before every retry |
| Session.ReadSessionRun | lib/rucio/db/session.py:195-229 | never commits; rolls back exactly when the unit of work raises; removes the session once, as the last call. A TimeoutError or `DatabaseError` becomes a DatabaseException with its message; any other exception propagates; a return is passed through |
| Session.TransactionalSessionRun | lib/rucio/db/session.py:232-267 | commits exactly on a return and rolls back exactly on an exception. No call is made twice, and the session is removed last. Errors are translated as in `read_session` |
| Session.InTransactionRun | lib/rucio/db/session.py:270-303 | begins a subtransaction first exactly when `nested`; commits exactly on a return and rolls back exactly on an exception; closes last and never removes. Only a TimeoutError is translated into a DatabaseException |
| Session.Database.GetEngine | lib/rucio/db/session.py:67-93 | creates the engine only when none exists, stores it before connecting through the retry wrapper, and keeps it even when connecting fails; an existing engine is returned without connecting |
| Session.Database.InitSession | lib/rucio/db/session.py:186-192 | creates the scoped session over the engine only when none exists |
| Session.Database.GetSession | lib/rucio/db/session.py:170-183 | the first successful call creates one session and every later call returns that same session. A failed connect leaves no session but keeps the engine, so the next call succeeds without connecting |
| Session.Database.ReadSession | lib/rucio/db/session.py:195-229 | with a session passed in, returns the unit's outcome and touches no state; otherwise obtains the global session and drives it as `ReadSessionRun` says. When no session exists yet but the engine does, obtaining the session cannot fail; when there is no engine either, the retried first connection decides: success creates a fresh session, failure raises that connection error and leaves no session |
| Session.Database.TransactionalSession | lib/rucio/db/session.py:232-267 | as `ReadSession`, with the calls and result of `TransactionalSessionRun` |
| Session.Database.InTransaction | lib/rucio/db/session.py:270-303 | as `ReadSession`, with the calls and result of `InTransactionRun` |
| Session.ReadOn | lib/rucio/db/session.py:206-224 | the calls recorded on the session and the result are those of `ReadSessionRun` |
| Session.TransactOn | lib/rucio/db/session.py:241-262 | the calls recorded on the session and the result are those of `TransactionalSessionRun` |
| Session.InTransactionOn | lib/rucio/db/session.py:280-297 | the calls recorded on the session and the result are those of `InTransactionRun` |
| Session.FinishTransaction | lib/rucio/db/session.py:285-297 | records a commit on a return or a rollback on an exception, then a close; the result is translated as `in_transaction` says |
| Evaluator.WorkerNumberInRange | lib/rucio/daemons/judge/evaluator.py:56-59 | a thread of a process numbered within the deployment gets a worker number in [0, total_workers] |
| Evaluator.WorkerNumberInjective | lib/rucio/daemons/judge/evaluator.py:58 | distinct (process, thread) pairs get distinct worker numbers |
| Evaluator.InPartition | lib/rucio/daemons/judge/evaluator.py:56-64 | when `total_workers` is not positive (a single worker) or the dialect is one the three branches do not name, no filter is added and every row passes; which worker a name goes to otherwise is stated by `Residue` |
| Evaluator.Residue | lib/rucio/daemons/judge/evaluator.py:56-64 | for each filtering dialect, a name passes the filter of exactly one worker number. That number lies in [0, total_workers] on Oracle and in [0, total_workers - 1] on MySQL and PostgreSQL |
| Evaluator.LastWorkerIdleOnModDialects | lib/rucio/daemons/judge/evaluator.py:61-64 | on MySQL and PostgreSQL the worker numbered total_workers receives no row |
| Evaluator.EveryOracleBucketUsed | lib/rucio/daemons/judge/evaluator.py:57-60 | on Oracle a name whose hash is w, for any w in [0, total_workers], goes to worker w |
| Evaluator.Owned | lib/rucio/daemons/judge/evaluator.py:52-64 | the filtered query returns exactly the queue rows that pass the worker's partition filter |
| Evaluator.OwnedKeepsOrder | lib/rucio/daemons/judge/evaluator.py:52-54 | filtering keeps the `created_at` order |
| Evaluator.Fetch | lib/rucio/daemons/judge/evaluator.py:67 | at most 1000 rows; a prefix of the owned rows, and all of them when fewer than 1000 are returned; every row is in the queue and passes the filter |
| Evaluator.FetchInCreationOrder | lib/rucio/daemons/judge/evaluator.py:52-67 | a batch fetched from a queue in `created_at` order is in that order |
| Evaluator.SingleWorkerUnfiltered | lib/rucio/daemons/judge/evaluator.py:56 | with a single worker no filter is applied: the batch is the oldest 1000 rows of the whole queue |
| Evaluator.OwnedAll | lib/rucio/daemons/judge/evaluator.py:56 | with a single worker the filtered query returns the whole queue |
| Evaluator.Key | lib/rucio/daemons/judge/evaluator.py:79 | the dedup key `scope:name`; it carries no contract of its own (see `KeyColon` and `KeyInjective`) |
| Evaluator.KeyColon | lib/rucio/daemons/judge/evaluator.py:79 | in a key whose scope has no colon, the first colon sits right after the scope |
| Evaluator.KeyInjective | lib/rucio/daemons/judge/evaluator.py:79-85 | when scopes contain no colon, equal dedup keys mean equal scope and name |
| Evaluator.KeyCollidesWithColonInScope | lib/rucio/daemons/judge/evaluator.py:79 | a colon in a scope lets two different DIDs share a dedup key |
| Evaluator.Classify | lib/rucio/daemons/judge/evaluator.py:87-96 | a row is deleted exactly when its evaluation returned or raised DataIdentifierNotFound, kept exactly when it raised DatabaseException or a `DatabaseError`, and otherwise the batch is abandoned; with SQLAlchemy's hierarchy an OperationalError is kept |
| Evaluator.ProcessBatch | lib/rucio/daemons/judge/evaluator.py:75-96 | the batch loop meets `BatchOutcome`. It stops at the stop flag, or after the first row whose evaluation raises an unexpected exception, and then is not committed. It evaluates exactly the rows that are not duplicates, in order. It deletes exactly the duplicates and the rows whose evaluation returned or raised DataIdentifierNotFound |
| Evaluator.DuplicateStep | lib/rucio/daemons/judge/evaluator.py:79-82 | a row whose (key, action) is already in `done_dids` is deleted without evaluation, and the loop invariant is kept |
| Evaluator.FreshStep | lib/rucio/daemons/judge/evaluator.py:83-96 | any other row is added to `done_dids`, evaluated, and deleted, kept or made to abandon the batch according to how the evaluation ended; the loop invariant is kept |
| Evaluator.BatchInvOutcome | lib/rucio/daemons/judge/evaluator.py:76-78 | where the loop exits (stop flag, end of batch, or abandonment) its invariant gives the batch contract |
| Evaluator.EvaluatedAtMostOncePerPair | lib/rucio/daemons/judge/evaluator.py:75-89 | `re_evaluate_did` is called at most once per (scope:name, action) within a batch |
| Evaluator.IncreasingDetermined | lib/rucio/daemons/judge/evaluator.py:76-89 | two increasing sequences with the same elements are equal, so the evaluation order is determined by which rows are evaluated |
| Evaluator.BatchOutcomeUnique | lib/rucio/daemons/judge/evaluator.py:75-96 | the batch contract determines the result completely |
| Evaluator.DuplicateScenario | lib/rucio/daemons/judge/evaluator.py:75-91 | rows (A,X,attach), (A,X,attach), (B,Y,detach) with successful evaluations give evaluations of rows 0 and 2, deletion of all three rows, and a commit |
| Evaluator.StopMidBatch | lib/rucio/daemons/judge/evaluator.py:76-78 | a stop seen before row 2 of 5 leaves rows 2 to 4 unevaluated and undeleted, and the batch still commits |
| Evaluator.HandlingOfEvaluatedRow | lib/rucio/daemons/judge/evaluator.py:87-96 | a row whose evaluation raises DatabaseException or a `DatabaseError` is kept and the batch goes on; a successful row or one raising DataIdentifierNotFound is deleted |
| Evaluator.PollOnce | lib/rucio/daemons/judge/evaluator.py:51-100 | one pass of the loop body: with no rows and not `once` it sleeps; otherwise it handles the batch, and the queue loses the deleted rows only when the batch committed |
| Evaluator.RemoveRows | lib/rucio/daemons/judge/evaluator.py:91-99 | the rows left after the commit are exactly the queue rows whose id was not deleted |
| Evaluator.ReEvaluator | lib/rucio/daemons/judge/evaluator.py:39-106 | every poll follows `PollStep` on the queue left by the previous poll. Polling stops exactly when the stop flag is seen at the head of the loop, or after one poll with `once` (within a bound on the number of polls) |
| Evaluator.EmptyQueueSleeps | lib/rucio/daemons/judge/evaluator.py:70-72 | on an empty queue, and not `once`, a poll sleeps and changes nothing |
| Evaluator.CommittedPollEffect | lib/rucio/daemons/judge/evaluator.py:91-100 | after a committed poll on a queue with unique ids, a deleted row is gone and a fetched row that was not deleted is still there |
| Evaluator.FetchUniqueIds | lib/rucio/daemons/judge/evaluator.py:67 | a batch fetched from a queue with unique ids has unique ids |
| Evaluator.OwnedUniqueIds | lib/rucio/daemons/judge/evaluator.py:52-64 | filtering a queue with unique ids gives unique ids |
| Evaluator.DeletedIdsExact | lib/rucio/daemons/judge/evaluator.py:81-93 | with unique ids, a fetched row's id is deleted exactly when its batch index is |
| Evaluator.RemoveRowsKeepsOrder | lib/rucio/daemons/judge/evaluator.py:52-54 | deleting rows keeps the rest of the table in `created_at` order |
| Evaluator.RemoveRowsKeepsUniqueIds | lib/rucio/daemons/judge/evaluator.py:91-99 | deleting rows keeps the ids of the rest unique |
| Evaluator.PollKeepsQueueShape | lib/rucio/daemons/judge/evaluator.py:52-100 | a poll on a table in `created_at` order with unique ids leaves it so, and its batch is in `created_at` order with unique ids |
| Evaluator.RunKeepsQueueShape | lib/rucio/daemons/judge/evaluator.py:39-106 | over a whole run started on such a table, every poll sees a table in `created_at` order with unique ids |
| Evaluator.RunOnceUnfiltered | lib/rucio/daemons/judge/evaluator.py:129-131 | the one-shot path runs `re_evaluator` with its defaults: a single worker, so every row passes the filter |
| Evaluator.Run | lib/rucio/daemons/judge/evaluator.py:122-139 | with `once`, one inline iteration as a single worker; otherwise one thread per thread number 0 to `threads_per_process - 1`, each with the process's arguments; when `threads_per_process` is not positive no thread starts and `threads[0]` raises IndexError (`RaisesIndexError`) |
| Evaluator.RunThreadsPartitionWorkers | lib/rucio/daemons/judge/evaluator.py:132-135 | the threads started by a process get `threads_per_process` distinct worker numbers, all in [0, total_workers] |
| Evaluator.GracefulStop.Stop | lib/rucio/daemons/judge/evaluator.py:114-119 | `stop` sets the flag |

## Left out

- Threads and `_LOCK`: `get_session` is modelled single-threaded, and concurrent workers on a shared queue are not modelled. Each worker's queue is its own sequence with no other producer or consumer.
- Engine configuration (`config_get` of the pool parameters, the `sqlite` connect listener, `BASE`'s schema): configuration reading is I/O. The engine is an opaque object, and the checkout listener's registration is not modelled.
- `get_dump_engine` and its `dump` printer: it only prints DDL and is outside the modelled core.
- Logging, `print`, `record_gauge`, `record_counter` and the gauge loop at evaluator.py:126: these are output only. `time.sleep` is a counted step (`sleeps`) or the `Slept` poll.
- `re_evaluate_did` and its own `transactional_session` on the thread's scoped session: `rucio/core/rule.py` is not part of this model. So are the pending deletions an abandoned batch leaves in that session; the model treats an abandoned batch as deleting nothing.
- Evaluator.ProcessBatch, Evaluator.PollOnce, Evaluator.CommittedPollEffect: the model assumes that the commit, rollback and remove `re_evaluate_did`'s `transactional_session` performs on the shared scoped session leave the loop's pending deletions and fetched rows untouched. In the source they do not. An evaluation that raises rolls that session back, which discards the pending `did.delete(flush=False)` of earlier rows of the batch; with (A,X,attach) returning and then (B,Y,detach) raising DatabaseException, row 0 stays in the queue, whereas the model deletes it on commit. An evaluation that returns commits and removes that session, which was made with `expire_on_commit=True`, so the fetched rows are expired and detached and reading the next row's scope can raise, abandoning the batch. Neither effect is modelled.
- A failure of `get_session`, of the query, or of the final flush/commit inside `re_evaluator` is not an input of the model. Only exceptions from `re_evaluate_did` abandon a batch.
- The database hash functions and MySQL's conversion of an `md5` string to a number: `hash` is uninterpreted.
- Evaluator.ReEvaluator: runs at most `maxPolls` polls, because the daemon loop has no bound of its own. The contract says the loop stops early exactly when the flag is seen or `once` holds.
- Session.MysqlPingListener: the "gone away" message carries the driver exception's text as a string, not Python's `str(ex)` rendering.
- Session.Database.ReadSession, Session.Database.TransactionalSession, Session.Database.InTransaction: the unit of work is given by its outcome, so the calls it makes on the session itself are not recorded.
- Session.ReadSessionRun: the session's own `rollback` and `remove` are assumed not to raise.
- Session.TransactionalSessionRun: the session's own `commit`, `rollback` and `remove` are assumed not to raise. In the source a failing `commit` in the `else` clause is not caught: nothing is rolled back, `remove` still runs and the error propagates untranslated. The model does not have that path.
- Session.InTransactionRun: `begin`, `commit`, `rollback` and `close` are assumed not to raise. In the source `begin(subtransactions=True)` runs before the `try`, so a failing `begin` skips `close`, and a failing `commit` propagates untranslated after `close`. The model does not have these paths.
- Session.ReadSessionRun, Session.TransactionalSessionRun: the DatabaseException raised for a TimeoutError or `DatabaseError` carries `str(e)`. For a `DBAPIError` that text also holds the failed statement and its parameters, but the model carries only the message `e.args[0]`, as `wrap_db_error` uses it.
- The queue is the `updated_dids` table in the order of its `created_at` index, with unique ids; `order_by(created_at)` is then the queue order. `RunKeepsQueueShape` shows every poll keeps that shape; a run started on a table not in that order is not given a sorted view.
