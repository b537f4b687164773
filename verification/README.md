# Routine load task model

A Dafny model of `RoutineLoadTaskInfo`, the per-task lifecycle object of
routine (streaming) load in the Doris frontend. A task has four parts:

- an identity: a UUID, the owning job, the cluster and the creation time;
- lifecycle fields: execute start time, backend ids, last scheduled time, timeout, transaction id and status;
- the begin-transaction handshake with the global transaction manager;
- the timeout verdict the scheduler polls.

The task also has a nine-column display row and an `equals` that looks only at the id.

The Java class is mutable. Here a task is an immutable `Task` value, and each setter returns the updated task.
The following become parameters:

- the wall clock (`now`, `created`);
- the job lookup (the job `getJob(jobId)` returns, as its id and `dbId`);
- the local host address;
- the transaction manager (a function from request to reply);
- the two formatters (`printId`, `timeToString`);
- the source-specific properties text.

Files:

- `optional.dfy` (`Optional`): the `Option` type used by the decoders and the request id.
- `java_lang.dfy` (`JavaLang`): Java `long` as a bounded integer type.
  It has 64-bit wrap-around subtraction and division that truncates toward zero.
  It renders `String.valueOf(long)` as decimal text and has a decoder proved to invert it.
- `uuid.dfy` (`Uuids`): `java.util.UUID` and its canonical 8-4-4-4-12 lowercase hex text.
  A decoder is proved to invert that text, so the text determines the UUID.
- `transaction_status.dfy` (`TransactionStatuses`): the transaction statuses, their `name()` and its inverse.
- `routine_load_task_info.dfy` (`RoutineLoadTaskInfo`): the task, its constructors, setters, `IsRunning`, `IsTimeout`, the begin-transaction request and `BeginTxn`, `TaskShowInfo` and `Equals`.
- `task_properties.dfy` (`TaskProperties`): lemmas that relate the operations.
- `scenarios.dfy` (`TaskScenarios`): concrete lifecycles.

Three facts about the code that are easy to misremember:

- Elapsed time equal to `timeoutMs` is not a timeout: `isTimeout` tests `now - executeStartTimeMs > timeoutMs` strictly (`TaskProperties.TimeoutIsStrict`).
- A start time of 0 does not count as running: `isRunning` is `executeStartTimeMs > 0`, so such a task never times out (`TaskScenarios.StartAtZeroIsNotRunning`). The boundary scenario therefore starts at time 1.
- Neither `executeStartTimeMs` nor `txnId` is write-once: the setter is unconditional, and a second successful `beginTxn` overwrites `txnId` (`TaskProperties.SecondBeginOverwritesTxnId`).

## Model

| member | source | states |
|---|---|---|
| RoutineLoadTaskInfo.Create | fe/src/main/java/org/apache/doris/load/routineload/RoutineLoadTaskInfo.java:53-80 | A new task keeps the id, job, cluster, timeout and creation time it was given. Its transaction id, backend ids, start time and last scheduled time are -1, its status is UNKNOWN, and it is not running. |
| RoutineLoadTaskInfo.CreateReplacement | fe/src/main/java/org/apache/doris/load/routineload/RoutineLoadTaskInfo.java:82-85 | Same as the four-argument constructor, except that the previous backend id is the one supplied. |
| RoutineLoadTaskInfo.SetExecuteStartTimeMs | fe/src/main/java/org/apache/doris/load/routineload/RoutineLoadTaskInfo.java:99-101 | Sets the execute start time unconditionally. Every other field is unchanged. |
| RoutineLoadTaskInfo.SetBeId | fe/src/main/java/org/apache/doris/load/routineload/RoutineLoadTaskInfo.java:107-109 | Sets the backend id. Every other field is unchanged. |
| RoutineLoadTaskInfo.SetLastScheduledTime | fe/src/main/java/org/apache/doris/load/routineload/RoutineLoadTaskInfo.java:127-129 | Sets the last scheduled time. Every other field is unchanged. |
| RoutineLoadTaskInfo.SetTxnStatus | fe/src/main/java/org/apache/doris/load/routineload/RoutineLoadTaskInfo.java:135-137 | Sets the transaction status. Every other field is unchanged. |
| RoutineLoadTaskInfo.IsRunning | fe/src/main/java/org/apache/doris/load/routineload/RoutineLoadTaskInfo.java:119-121 | A task is running exactly when its execute start time is positive, so the unset value -1 and 0 do not count (`TaskProperties.StartTimeDecidesRunning` states it after the setter). |
| RoutineLoadTaskInfo.IsTimeout | fe/src/main/java/org/apache/doris/load/routineload/RoutineLoadTaskInfo.java:143-155 | A timed-out task is running and its transaction is neither COMMITTED nor VISIBLE. |
| RoutineLoadTaskInfo.TimeoutSeconds | fe/src/main/java/org/apache/doris/load/routineload/RoutineLoadTaskInfo.java:169 | The timeout in seconds is the millisecond timeout truncated toward zero. The remainder is less than a second and has the sign of the dividend. |
| RoutineLoadTaskInfo.TxnRequest | fe/src/main/java/org/apache/doris/load/routineload/RoutineLoadTaskInfo.java:166-169 | The request carries the job's database, the printed task id as label, no request id, "FE: " plus the host as coordinator, the routine-load-task source type, the returned job's id and the timeout in seconds. |
| RoutineLoadTaskInfo.BeginTxn | fe/src/main/java/org/apache/doris/load/routineload/RoutineLoadTaskInfo.java:162-182 | Returns true exactly when the manager grants a transaction, and then only `txnId` changes, to the granted id. A duplicated request, an analysis failure or a begin failure returns false with the task unchanged. A used label is thrown, with its message, exactly when the manager reports it, and the task is unchanged. |
| RoutineLoadTaskInfo.TaskShowInfo | fe/src/main/java/org/apache/doris/load/routineload/RoutineLoadTaskInfo.java:184-196 | The row has exactly nine entries in the source's order. The decimal entries decode back to txnId, jobId, timeout in seconds and beId, and the status entry reads back as the status. |
| RoutineLoadTaskInfo.Equals | fe/src/main/java/org/apache/doris/load/routineload/RoutineLoadTaskInfo.java:200-208 | Comparing the ids' texts holds exactly when the other object is a routine load task with the same id. |
| TaskProperties.StartTimeDecidesRunning | fe/src/main/java/org/apache/doris/load/routineload/RoutineLoadTaskInfo.java:119-121 | After the start time is set, the task runs exactly when that time is positive. |
| TaskProperties.NotRunningNeverTimesOut | fe/src/main/java/org/apache/doris/load/routineload/RoutineLoadTaskInfo.java:149-154 | A task that is not running is not timed out for any clock reading. |
| TaskProperties.FinishedNeverTimesOut | fe/src/main/java/org/apache/doris/load/routineload/RoutineLoadTaskInfo.java:143-147 | A COMMITTED or VISIBLE task is not timed out for any clock reading. |
| TaskProperties.FreshTaskIsIdle | fe/src/main/java/org/apache/doris/load/routineload/RoutineLoadTaskInfo.java:54-85 | A task from either constructor, which has not started, is not timed out at any clock reading. |
| TaskProperties.IsTimeoutCharacterized | fe/src/main/java/org/apache/doris/load/routineload/RoutineLoadTaskInfo.java:143-155 | For a non-negative clock: timed out if and only if unfinished, started (start time > 0), and elapsed time strictly greater than the timeout. |
| TaskProperties.TimeoutIsStrict | fe/src/main/java/org/apache/doris/load/routineload/RoutineLoadTaskInfo.java:149 | Elapsed time equal to the timeout is not a timeout. One millisecond more is. |
| TaskProperties.TimeoutIsMonotonic | fe/src/main/java/org/apache/doris/load/routineload/RoutineLoadTaskInfo.java:143-155 | For non-negative clock readings: if the state is unchanged, a task timed out at some time is still timed out at every later time. |
| TaskProperties.BookkeepingKeepsTimeout | fe/src/main/java/org/apache/doris/load/routineload/RoutineLoadTaskInfo.java:143-155 | Reassigning the backend or updating the last scheduled time does not change the timeout verdict. |
| TaskProperties.FinishingCancelsTimeout | fe/src/main/java/org/apache/doris/load/routineload/RoutineLoadTaskInfo.java:135-147 | After a COMMITTED or VISIBLE status is reported, the task is not timed out. |
| TaskProperties.LastStatusWins | fe/src/main/java/org/apache/doris/load/routineload/RoutineLoadTaskInfo.java:135-137 | Two status writes leave only the second. |
| TaskProperties.TimeoutSecondsTruncates | fe/src/main/java/org/apache/doris/load/routineload/RoutineLoadTaskInfo.java:169 | Examples of the truncation: the default timeout of -1 ms becomes 0 s, not -1 s; -1999 ms becomes -1 s; 5000 ms and 5999 ms both become 5 s. |
| TaskProperties.WholeSecondsConvertExactly | fe/src/main/java/org/apache/doris/load/routineload/RoutineLoadTaskInfo.java:169 | A timeout of k whole seconds (k * 1000 ms within a long, of either sign) becomes exactly k seconds. |
| TaskProperties.RetryAfterRecoverableFailure | fe/src/main/java/org/apache/doris/load/routineload/RoutineLoadTaskInfo.java:170-180 | A begin that returns false leaves the task unchanged, so a retry sends the same label, and a granted retry returns true and stores the new transaction id. |
| TaskProperties.FailedBeginKeepsTxnUnset | fe/src/main/java/org/apache/doris/load/routineload/RoutineLoadTaskInfo.java:162-182 | If a fresh task's begin is not granted, its transaction id stays -1. |
| TaskProperties.SecondBeginOverwritesTxnId | fe/src/main/java/org/apache/doris/load/routineload/RoutineLoadTaskInfo.java:166-169 | Nothing stops a second granted begin from replacing an existing transaction id. |
| TaskProperties.BeginTxnKeepsTimeoutAndIdentity | fe/src/main/java/org/apache/doris/load/routineload/RoutineLoadTaskInfo.java:162-182 | Whatever the manager answers, beginning the transaction changes neither the timeout verdict nor equality with the former task. |
| TaskProperties.EqualsIsEquivalence | fe/src/main/java/org/apache/doris/load/routineload/RoutineLoadTaskInfo.java:200-208 | Task equality is reflexive, symmetric and transitive. |
| TaskProperties.MutatorsKeepEquality | fe/src/main/java/org/apache/doris/load/routineload/RoutineLoadTaskInfo.java:204 | Every setter leaves the task equal to its former self. |
| TaskProperties.NotEqualToOtherObjects | fe/src/main/java/org/apache/doris/load/routineload/RoutineLoadTaskInfo.java:205-207 | A task never equals an object that is not a routine load task. |
| TaskProperties.ShowInfoIgnoresBookkeeping | fe/src/main/java/org/apache/doris/load/routineload/RoutineLoadTaskInfo.java:184-196 | The row does not depend on the cluster, the previous backend or the last scheduled time. |
| TaskProperties.ShowInfoDistinguishesTxnIds | fe/src/main/java/org/apache/doris/load/routineload/RoutineLoadTaskInfo.java:187 | Different transaction ids produce different second columns. |
| JavaLang.Sub | fe/src/main/java/org/apache/doris/load/routineload/RoutineLoadTaskInfo.java:149 | The elapsed-time subtraction is Java's `long` subtraction: the result agrees with the exact difference modulo 2^64, and equals it when it fits in a long. |
| JavaLang.TruncDiv | fe/src/main/java/org/apache/doris/load/routineload/RoutineLoadTaskInfo.java:192 | Java division: the remainder is smaller than the divisor in magnitude and has the sign of the dividend. |
| JavaLang.LongToString | fe/src/main/java/org/apache/doris/load/routineload/RoutineLoadTaskInfo.java:187-193 | `String.valueOf(long)`: a non-empty text that is all digits exactly for a non-negative value and starts with a minus sign exactly for a negative one. |
| JavaLang.LongRoundTrip | fe/src/main/java/org/apache/doris/load/routineload/RoutineLoadTaskInfo.java:187-193 | The decimal text of every long decodes back to that long. |
| JavaLang.LongToStringInjective | fe/src/main/java/org/apache/doris/load/routineload/RoutineLoadTaskInfo.java:187 | Different longs render as different text. |
| Uuids.ToString | fe/src/main/java/org/apache/doris/load/routineload/RoutineLoadTaskInfo.java:204 | The id text is 36 characters with hyphens at positions 8, 13, 18 and 23. Without the hyphens it is the 16 hex digits of the high half followed by the 16 of the low half. |
| Uuids.FromStringToString | fe/src/main/java/org/apache/doris/load/routineload/RoutineLoadTaskInfo.java:204 | The canonical text of every UUID decodes back to that UUID. |
| Uuids.ToStringInjective | fe/src/main/java/org/apache/doris/load/routineload/RoutineLoadTaskInfo.java:204 | Two UUIDs have the same text if and only if they are equal. |
| TransactionStatuses.Name | fe/src/main/java/org/apache/doris/load/routineload/RoutineLoadTaskInfo.java:188 | `txnStatus.name()` is a non-empty text that `ValueOf` reads back as the same status. |
| TaskScenarios.NeverStartedTaskDoesNotTimeOut | fe/src/main/java/org/apache/doris/load/routineload/RoutineLoadTaskInfo.java:149-154 | A task with a 5000 ms timeout that never started is not timed out at 1,000,000 ms. |
| TaskScenarios.StartAtZeroIsNotRunning | fe/src/main/java/org/apache/doris/load/routineload/RoutineLoadTaskInfo.java:119-121 | A start time of 0 does not make a task running, so it cannot time out. |
| TaskScenarios.TimeoutBoundaryScenario | fe/src/main/java/org/apache/doris/load/routineload/RoutineLoadTaskInfo.java:149 | For a task started at 1 with a 1000 ms timeout: not timed out at 1000 or 1001, timed out at 1002. |
| TaskScenarios.VisibleAfterDeadlineScenario | fe/src/main/java/org/apache/doris/load/routineload/RoutineLoadTaskInfo.java:143-147 | A task timed out at 1500 is no longer timed out at 2000 once VISIBLE is reported. |
| TaskScenarios.NegativeClockWraps | fe/src/main/java/org/apache/doris/load/routineload/RoutineLoadTaskInfo.java:149 | A task started at 1 with a 5 ms timeout is timed out at the smallest long, because the elapsed time wraps, but not at 0. |
| TaskScenarios.LabelAlreadyUsedScenario | fe/src/main/java/org/apache/doris/load/routineload/RoutineLoadTaskInfo.java:174-176 | A used label is thrown and the transaction id stays -1. |
| TaskScenarios.TransientFailureThenRetryScenario | fe/src/main/java/org/apache/doris/load/routineload/RoutineLoadTaskInfo.java:177-181 | A begin failure returns false with the task unchanged. A granted retry then stores id 42. |

## Left out

- Getters (`getId`, `getJobId`, `getTxnId`, ...): these are the datatype's field selectors.
- The `routineLoadManager` field and the job lookup `getJob(jobId)`: the job it returns is a parameter (`RoutineLoadJob`, its id and database id). The model does not relate that job's id to the task's `jobId`; the request carries the returned job's id, as RoutineLoadTaskInfo.java:168 does. A missing job would raise a NullPointerException in the source, and that is not modelled.
- `Catalog.getCurrentGlobalTransactionMgr()`: a function parameter that maps the request to the manager's reply stands in for it.
- `System.currentTimeMillis()`: an explicit clock reading instead.
- `FrontendOptions.getLocalHostAddress()`: the host is a parameter.
- Logging (`LOG.warn`, `LOG.debug`): not modelled.
- `DebugUtil.printId` and `TimeUtils.longToTimeString`: these are opaque function parameters. Their formatting code is not part of this model.
- The abstract `createRoutineLoadTask`: the Thrift payload is source-specific, and the subclasses are not part of this model.
- The abstract `getTaskDataSourceProperties`: its text is a string parameter of `TaskShowInfo`.
- Concurrency between the scheduler and the transaction status feed: the class has no synchronisation to model.
- `hashCode`: not overridden in the source, so no hash property is claimed.
- TransactionStatus.java is not part of this model. Its constants are taken as UNKNOWN, PREPARE, COMMITTED, VISIBLE and ABORTED, and `name()` returns the constant's identifier.
- TaskProperties.IsTimeoutCharacterized: stated only for non-negative clock readings. For a negative `now` the 64-bit subtraction can wrap. `RoutineLoadTaskInfo.IsTimeout` itself models the wrap through `JavaLang.Sub`.
- TaskProperties.TimeoutIsMonotonic: stated only for non-negative clock readings. From a negative reading the wrapped subtraction can report a timeout that a later, non-negative reading does not (`TaskScenarios.NegativeClockWraps`).
- Java null references: the id, the cluster name and the transaction status are never null here, so `Equals` and `TaskShowInfo` are total. In the source a null id makes `equals` throw a NullPointerException at `this.id.toString()` (RoutineLoadTaskInfo.java:204), and a null status, which `setTxnStatus(null)` can store, makes `getTaskShowInfo` throw at `txnStatus.name()` (RoutineLoadTaskInfo.java:188). Neither throw is modelled.
- JavaLang.TruncDiv: stated for positive divisors only, because the source divides only by 1000.
- JavaLang.DecodeLong: this is the inverse of `LongToString`, not a model of `Long.parseLong`. For example, it does not accept a leading `+`.
- Uuids.FromString: this is the inverse of the canonical text, not a model of the more lenient `UUID.fromString`.
