/** Properties of the task model that relate several operations: the timeout
    verdict against the lifecycle, the begin-transaction retry protocol, and
    identity-based equality across mutations. */
module TaskProperties {
  import opened JavaLang
  import opened Uuids
  import opened TransactionStatuses
  import opened RoutineLoadTaskInfo

  // ----- running and timeout -----

  lemma StartTimeDecidesRunning(t: Task, executeStartTimeMs: Long)
    ensures IsRunning(SetExecuteStartTimeMs(t, executeStartTimeMs)) <==> executeStartTimeMs > 0
  {
  }

  /** A task that has not started never times out, whatever the clock says. */
  lemma NotRunningNeverTimesOut(t: Task, now: Long)
    requires !IsRunning(t)
    ensures !IsTimeout(t, now)
  {
  }

  /** A task whose transaction is COMMITTED or VISIBLE never times out,
      however long ago it started. */
  lemma FinishedNeverTimesOut(t: Task, now: Long)
    requires IsFinished(t.txnStatus)
    ensures !IsTimeout(t, now)
  {
  }

  /** A freshly constructed task, with or without a previous backend, is not
      timed out at any time, because it has not started. */
  lemma FreshTaskIsIdle(id: Uuid, jobId: Long, clusterName: string, timeoutMs: Long,
                        previousBeId: Long, created: Long, now: Long)
    ensures !IsTimeout(Create(id, jobId, clusterName, timeoutMs, created), now)
    ensures !IsTimeout(CreateReplacement(id, jobId, clusterName, timeoutMs, previousBeId, created), now)
  {
  }

  /** With a non-negative clock reading the 64-bit subtraction cannot wrap,
      and the verdict is exactly: unfinished, running, and elapsed time
      strictly above the timeout. */
  lemma IsTimeoutCharacterized(t: Task, now: Long)
    requires now >= 0
    ensures IsTimeout(t, now) <==>
      && !IsFinished(t.txnStatus)
      && t.executeStartTimeMs > 0
      && now - t.executeStartTimeMs > t.timeoutMs
  {
  }

  /** Elapsed time equal to the timeout is not yet a timeout; one
      millisecond more is. */
  lemma TimeoutIsStrict(t: Task, now: Long)
    requires IsRunning(t) && !IsFinished(t.txnStatus)
    ensures now - t.executeStartTimeMs == t.timeoutMs ==> !IsTimeout(t, now)
    ensures now - t.executeStartTimeMs == t.timeoutMs + 1 ==> IsTimeout(t, now)
  {
  }

  /** Once timed out, a task stays timed out as the clock advances, as long
      as its state does not change. */
  lemma TimeoutIsMonotonic(t: Task, now: Long, later: Long)
    requires 0 <= now <= later
    requires IsTimeout(t, now)
    ensures IsTimeout(t, later)
  {
  }

  /** Scheduler bookkeeping (backend assignment, last scheduled time) does
      not affect the timeout verdict. */
  lemma BookkeepingKeepsTimeout(t: Task, beId: Long, lastScheduledTime: Long, now: Long)
    ensures IsTimeout(SetBeId(t, beId), now) == IsTimeout(t, now)
    ensures IsTimeout(SetLastScheduledTime(t, lastScheduledTime), now) == IsTimeout(t, now)
  {
  }

  /** A finished-transaction status report cancels a timeout. */
  lemma FinishingCancelsTimeout(t: Task, status: TransactionStatus, now: Long)
    requires IsFinished(status)
    ensures !IsTimeout(SetTxnStatus(t, status), now)
  {
  }

  /** The status feed's writes do not accumulate: the last one wins. */
  lemma LastStatusWins(t: Task, first: TransactionStatus, second: TransactionStatus)
    ensures SetTxnStatus(SetTxnStatus(t, first), second) == SetTxnStatus(t, second)
  {
  }

  // ----- beginning the transaction -----

  /** Java truncates the default timeout of -1 ms to 0 s, where Euclidean
      division would give -1; a whole number of seconds is exact. */
  lemma TimeoutSecondsTruncates()
    ensures TimeoutSeconds(-1) == 0
    ensures TimeoutSeconds(-1999) == -1
    ensures TimeoutSeconds(5000) == 5
    ensures TimeoutSeconds(5999) == 5
  {
  }

  /** A timeout of a whole number of seconds, of either sign, converts
      exactly. */
  lemma WholeSecondsConvertExactly(k: int)
    requires MinLong <= k * 1000 <= MaxLong
    ensures TimeoutSeconds(k * 1000) == k
  {
  }

  /** After a recoverable failure (duplicated request, analysis or begin
      failure) the task is unchanged, so a retry sends a request with the same
      label; when that retry succeeds its transaction id is stored. */
  lemma RetryAfterRecoverableFailure(t: Task, job: RoutineLoadJob, localHost: string, printId: Uuid -> string,
                                     first: BeginTxnRequest -> BeginTxnReply,
                                     retry: BeginTxnRequest -> BeginTxnReply)
    requires var r := BeginTxn(t, job, localHost, printId, first); r.Returned? && !r.begun
    requires retry(TxnRequest(t, job, localHost, printId)).Began?
    ensures var failed := BeginTxn(t, job, localHost, printId, first);
      && failed.task == t
      && TxnRequest(failed.task, job, localHost, printId).txnLabel == printId(t.id)
      && var again := BeginTxn(failed.task, job, localHost, printId, retry);
      && again == Returned(true, again.task)
      && again.task.txnId == retry(TxnRequest(t, job, localHost, printId)).txnId
  {
  }

  /** A fresh task whose first begin fails keeps the unset transaction id. */
  lemma FailedBeginKeepsTxnUnset(id: Uuid, jobId: Long, clusterName: string, timeoutMs: Long, created: Long,
                                 job: RoutineLoadJob, localHost: string, printId: Uuid -> string,
                                 manager: BeginTxnRequest -> BeginTxnReply)
    requires !manager(TxnRequest(Create(id, jobId, clusterName, timeoutMs, created), job, localHost, printId)).Began?
    ensures BeginTxn(Create(id, jobId, clusterName, timeoutMs, created), job, localHost, printId, manager).task.txnId == Unset
  {
  }

  /** `beginTxn` does not guard against a second call: a task that already
      holds a transaction id takes the new one when the manager grants it. */
  lemma SecondBeginOverwritesTxnId(t: Task, job: RoutineLoadJob, localHost: string, printId: Uuid -> string,
                                   manager: BeginTxnRequest -> BeginTxnReply, newTxnId: Long)
    requires t.txnId != Unset && newTxnId != t.txnId
    requires manager(TxnRequest(t, job, localHost, printId)) == Began(newTxnId)
    ensures BeginTxn(t, job, localHost, printId, manager) == Returned(true, t.(txnId := newTxnId))
  {
  }

  /** Beginning the transaction changes neither the timeout verdict nor the
      task's identity. */
  lemma BeginTxnKeepsTimeoutAndIdentity(t: Task, job: RoutineLoadJob, localHost: string, printId: Uuid -> string,
                                        manager: BeginTxnRequest -> BeginTxnReply, now: Long)
    ensures var r := BeginTxn(t, job, localHost, printId, manager);
      IsTimeout(r.task, now) == IsTimeout(t, now) && Equals(r.task, TaskInfo(t))
  {
  }

  // ----- equality -----

  lemma EqualsIsEquivalence(a: Task, b: Task, c: Task)
    ensures Equals(a, TaskInfo(a))
    ensures Equals(a, TaskInfo(b)) ==> Equals(b, TaskInfo(a))
    ensures Equals(a, TaskInfo(b)) && Equals(b, TaskInfo(c)) ==> Equals(a, TaskInfo(c))
  {
  }

  /** Every mutator keeps a task equal to its former self, so two tasks with
      the same id compare equal whatever their mutable state. */
  lemma MutatorsKeepEquality(t: Task, start: Long, beId: Long, scheduled: Long, status: TransactionStatus)
    ensures Equals(SetExecuteStartTimeMs(t, start), TaskInfo(t))
    ensures Equals(SetBeId(t, beId), TaskInfo(t))
    ensures Equals(SetLastScheduledTime(t, scheduled), TaskInfo(t))
    ensures Equals(SetTxnStatus(t, status), TaskInfo(t))
  {
  }

  /** A task is never equal to an object that is not a routine load task. */
  lemma NotEqualToOtherObjects(t: Task)
    ensures !Equals(t, OtherObject)
  {
  }

  // ----- display row -----

  /** The display row shows neither the cluster, the previous backend nor
      the last scheduled time. */
  lemma ShowInfoIgnoresBookkeeping(t: Task, printId: Uuid -> string, timeToString: Long -> string,
                                   sourceProperties: string, clusterName: string, previousBeId: Long,
                                   scheduled: Long)
    ensures TaskShowInfo(SetLastScheduledTime(t, scheduled).(previousBeId := previousBeId, clusterName := clusterName),
                         printId, timeToString, sourceProperties)
         == TaskShowInfo(t, printId, timeToString, sourceProperties)
  {
  }

  /** Two rows for tasks with different transaction ids differ in the second
      column. */
  lemma ShowInfoDistinguishesTxnIds(t: Task, u: Task, printId: Uuid -> string, timeToString: Long -> string,
                                    props: string)
    requires t.txnId != u.txnId
    ensures TaskShowInfo(t, printId, timeToString, props)[1] != TaskShowInfo(u, printId, timeToString, props)[1]
  {
  }
}
