/** One routine (streaming) load task: its identity, its lifecycle fields, the
    begin-transaction handshake with the transaction manager, the timeout
    verdict, the display row and identity-based equality.

    The Java class is mutable; here a task is an immutable value and every
    setter returns the updated task. The wall clock, the job registry, the
    local host address, the transaction manager and the id/time formatters
    are parameters. */
module RoutineLoadTaskInfo {
  import opened Optional
  import opened JavaLang
  import opened Uuids
  import opened TransactionStatuses

  /** The value every id and time field holds before it is assigned. */
  const Unset: Long := -1

  datatype Task = Task(
    id: Uuid,
    txnId: Long,
    jobId: Long,
    clusterName: string,
    createTimeMs: Long,
    executeStartTimeMs: Long,
    previousBeId: Long,   // backend that ran the task this one replaces
    beId: Long,           // backend this task is assigned to
    lastScheduledTime: Long,
    timeoutMs: Long,
    txnStatus: TransactionStatus)

  /** The fields a setter or `beginTxn` may write. */
  datatype Field = TxnIdField | ExecuteStartTimeField | BeIdField | LastScheduledTimeField | TxnStatusField

  /** `r` agrees with `t` on every field except possibly `f`; in particular
      the identity, job, cluster, creation time, previous backend and timeout
      of a task never change after construction. */
  predicate OnlyChanged(t: Task, r: Task, f: Field) {
    && r.id == t.id
    && r.jobId == t.jobId
    && r.clusterName == t.clusterName
    && r.createTimeMs == t.createTimeMs
    && r.previousBeId == t.previousBeId
    && r.timeoutMs == t.timeoutMs
    && (f == TxnIdField || r.txnId == t.txnId)
    && (f == ExecuteStartTimeField || r.executeStartTimeMs == t.executeStartTimeMs)
    && (f == BeIdField || r.beId == t.beId)
    && (f == LastScheduledTimeField || r.lastScheduledTime == t.lastScheduledTime)
    && (f == TxnStatusField || r.txnStatus == t.txnStatus)
  }

  // ----- construction -----

  /** The four-argument constructor; `now` is the clock reading taken as
      the creation time. */
  function Create(id: Uuid, jobId: Long, clusterName: string, timeoutMs: Long, now: Long): (t: Task)
    ensures t.id == id && t.jobId == jobId && t.clusterName == clusterName
    ensures t.timeoutMs == timeoutMs && t.createTimeMs == now
    ensures t.txnId == Unset && t.txnStatus == Unknown
    ensures t.executeStartTimeMs == Unset && !IsRunning(t)
    ensures t.previousBeId == Unset && t.beId == Unset && t.lastScheduledTime == Unset
  {
    Task(id, Unset, jobId, clusterName, now, Unset, Unset, Unset, Unset, timeoutMs, Unknown)
  }

  /** The five-argument constructor: as `Create`, but for a task replacing
      one that ran on backend `previousBeId`. */
  function CreateReplacement(id: Uuid, jobId: Long, clusterName: string, timeoutMs: Long,
                             previousBeId: Long, now: Long): (t: Task)
    ensures t.previousBeId == previousBeId
    ensures t.id == id && t.jobId == jobId && t.clusterName == clusterName
    ensures t.timeoutMs == timeoutMs && t.createTimeMs == now
    ensures t.txnId == Unset && t.txnStatus == Unknown
    ensures t.executeStartTimeMs == Unset && !IsRunning(t)
    ensures t.beId == Unset && t.lastScheduledTime == Unset
  {
    Create(id, jobId, clusterName, timeoutMs, now).(previousBeId := previousBeId)
  }

  // ----- setters -----

  function SetExecuteStartTimeMs(t: Task, executeStartTimeMs: Long): (r: Task)
    ensures r.executeStartTimeMs == executeStartTimeMs
    ensures OnlyChanged(t, r, ExecuteStartTimeField)
  {
    t.(executeStartTimeMs := executeStartTimeMs)
  }

  function SetBeId(t: Task, beId: Long): (r: Task)
    ensures r.beId == beId
    ensures OnlyChanged(t, r, BeIdField)
  {
    t.(beId := beId)
  }

  function SetLastScheduledTime(t: Task, lastScheduledTime: Long): (r: Task)
    ensures r.lastScheduledTime == lastScheduledTime
    ensures OnlyChanged(t, r, LastScheduledTimeField)
  {
    t.(lastScheduledTime := lastScheduledTime)
  }

  function SetTxnStatus(t: Task, txnStatus: TransactionStatus): (r: Task)
    ensures r.txnStatus == txnStatus
    ensures OnlyChanged(t, r, TxnStatusField)
  {
    t.(txnStatus := txnStatus)
  }

  // ----- running and timeout -----

  /** A task runs once an execute start time has been recorded. */
  predicate IsRunning(t: Task) {
    t.executeStartTimeMs > 0
  }

  /** `isTimeout()` with the clock reading `now` as a parameter. A task whose
      transaction has finished is never timed out; otherwise it is timed out
      when it runs and the elapsed time, computed in 64-bit arithmetic,
      strictly exceeds the timeout. */
  predicate IsTimeout(t: Task, now: Long)
    ensures IsTimeout(t, now) ==> IsRunning(t) && !IsFinished(t.txnStatus)
  {
    if IsFinished(t.txnStatus) then false
    else IsRunning(t) && Sub(now, t.executeStartTimeMs) > t.timeoutMs
  }

  // ----- beginning the transaction -----

  /** Which kind of load a transaction is begun for. */
  datatype LoadJobSourceType = RoutineLoadTaskSource

  /** The arguments `beginTxn` passes to the transaction manager. */
  datatype BeginTxnRequest = BeginTxnRequest(
    dbId: Long,
    txnLabel: string,
    requestId: Option<Uuid>,   // a Thrift unique id in the source; always None, as beginTxn passes null
    coordinator: string,
    sourceType: LoadJobSourceType,
    listenerId: Long,
    timeoutSecond: Long)

  /** The transaction manager's answer: a transaction id, or one of the four
      exceptions `beginTransaction` declares. */
  datatype BeginTxnReply =
    | Began(txnId: Long)
    | DuplicatedRequest(message: string)
    | LabelAlreadyUsed(message: string)
    | AnalysisFailure(message: string)
    | BeginTransactionFailure(message: string)

  /** What `beginTxn` does: return a boolean, or throw
      `LabelAlreadyUsedException`. Either way `task` is the task's state
      afterwards. */
  datatype BeginTxnResult =
    | Returned(begun: bool, task: Task)
    | ThrewLabelAlreadyUsed(message: string, task: Task)

  /** A timeout in milliseconds as whole seconds, truncated as Java's
      `timeoutMs / 1000` does. */
  function TimeoutSeconds(timeoutMs: Long): (s: Long)
    ensures timeoutMs >= 0 ==> 0 <= timeoutMs - s * 1000 < 1000
    ensures timeoutMs < 0 ==> -1000 < timeoutMs - s * 1000 <= 0
  {
    TruncDiv(timeoutMs, 1000)
  }

  /** What `beginTxn` reads of the job the routine load manager returns
      for the task's `jobId`: the job's own id and its database. */
  datatype RoutineLoadJob = RoutineLoadJob(id: Long, dbId: Long)

  /** The request `beginTxn` sends: the job's database, the printed task id
      as label, no request id, this frontend as coordinator, the job's id as
      listener and the timeout in seconds. `printId` renders a UUID. */
  function TxnRequest(t: Task, job: RoutineLoadJob, localHost: string, printId: Uuid -> string): (q: BeginTxnRequest)
    ensures q.dbId == job.dbId && q.txnLabel == printId(t.id) && q.requestId == None
    ensures q.coordinator == "FE: " + localHost && q.sourceType == RoutineLoadTaskSource
    ensures q.listenerId == job.id && q.timeoutSecond == TimeoutSeconds(t.timeoutMs)
  {
    BeginTxnRequest(job.dbId, printId(t.id), None, "FE: " + localHost, RoutineLoadTaskSource,
                    job.id, TimeoutSeconds(t.timeoutMs))
  }

  /** `beginTxn()`. `manager` is the transaction manager's answer to a
      request. A transaction id is stored and `true` returned; a duplicated
      request, an analysis failure or a begin failure returns `false`; a used
      label is thrown on. Nothing but `txnId` is ever written, and only on
      success. */
  function BeginTxn(t: Task, job: RoutineLoadJob, localHost: string, printId: Uuid -> string,
                    manager: BeginTxnRequest -> BeginTxnReply): (r: BeginTxnResult)
    ensures var reply := manager(TxnRequest(t, job, localHost, printId));
      && (r.Returned? && r.begun <==> reply.Began?)
      && (r.ThrewLabelAlreadyUsed? <==> reply.LabelAlreadyUsed?)
      && (reply.Began? ==> r.task.txnId == reply.txnId && OnlyChanged(t, r.task, TxnIdField))
      && (!reply.Began? ==> r.task == t)
      && (reply.LabelAlreadyUsed? ==> r.message == reply.message)
  {
    match manager(TxnRequest(t, job, localHost, printId))
    case Began(txnId) => Returned(true, t.(txnId := txnId))
    case DuplicatedRequest(_) => Returned(false, t)
    case LabelAlreadyUsed(message) => ThrewLabelAlreadyUsed(message, t)
    case AnalysisFailure(_) => Returned(false, t)
    case BeginTransactionFailure(_) => Returned(false, t)
  }

  // ----- display row -----

  /** `getTaskShowInfo()`. `printId` and `timeToString` stand for the id and
      time formatters, `sourceProperties` for the source-specific description
      the concrete task kind supplies. */
  function TaskShowInfo(t: Task, printId: Uuid -> string, timeToString: Long -> string,
                        sourceProperties: string): (row: seq<string>)
    ensures |row| == 9
    ensures row[0] == printId(t.id)
    ensures DecodeLong(row[1]) == Some(t.txnId)
    ensures ValueOf(row[2]) == Some(t.txnStatus)
    ensures DecodeLong(row[3]) == Some(t.jobId)
    ensures row[4] == timeToString(t.createTimeMs)
    ensures row[5] == timeToString(t.executeStartTimeMs)
    ensures DecodeLong(row[6]) == Some(TimeoutSeconds(t.timeoutMs))
    ensures DecodeLong(row[7]) == Some(t.beId)
    ensures row[8] == sourceProperties
  {
    var timeoutSecond := TimeoutSeconds(t.timeoutMs);
    LongRoundTrip(t.txnId);
    LongRoundTrip(t.jobId);
    LongRoundTrip(timeoutSecond);
    LongRoundTrip(t.beId);
    var txnId, jobId, timeout, beId :=
      LongToString(t.txnId), LongToString(t.jobId), LongToString(timeoutSecond), LongToString(t.beId);
    var status := Name(t.txnStatus);
    var row := [ printId(t.id), txnId, status, jobId,
      timeToString(t.createTimeMs), timeToString(t.executeStartTimeMs),
      timeout, beId, sourceProperties ];
    assert row[1] == txnId && row[2] == status && row[3] == jobId && row[6] == timeout && row[7] == beId;
    row
  }

  // ----- equality -----

  /** The argument of `equals(Object)`: another routine load task, or any
      other object (including null). */
  datatype Object = TaskInfo(task: Task) | OtherObject

  /** `equals(Object)`: the texts of the two ids are compared, which makes
      two tasks equal exactly when their ids are. */
  function Equals(t: Task, obj: Object): (r: bool)
    ensures r <==> obj.TaskInfo? && obj.task.id == t.id
  {
    match obj
    case TaskInfo(u) =>
      ToStringInjective(t.id, u.id);
      Uuids.ToString(t.id) == Uuids.ToString(u.id)
    case OtherObject => false
  }
}
