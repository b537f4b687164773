/** Concrete lifecycles of one task, worked through the model. */
module TaskScenarios {
  import opened JavaLang
  import opened Uuids
  import opened TransactionStatuses
  import opened RoutineLoadTaskInfo

  const SampleId: Uuid := Uuid(0x0123_4567_89ab_cdef, 0xfedc_ba98_7654_3210)

  const SampleJob: RoutineLoadJob := RoutineLoadJob(7, 3)

  function SampleTask(timeoutMs: Long): Task {
    Create(SampleId, 7, "default_cluster", timeoutMs, 0)
  }

  /** A task that never starts is not timed out long after its timeout. */
  lemma NeverStartedTaskDoesNotTimeOut()
    ensures !IsTimeout(SampleTask(5000), 1_000_000)
  {
  }

  /** A start time of 0 is the unset sentinel's side of the `> 0` test: the
      task does not count as running and cannot time out. */
  lemma StartAtZeroIsNotRunning()
    ensures !IsRunning(SetExecuteStartTimeMs(SampleTask(1000), 0))
    ensures !IsTimeout(SetExecuteStartTimeMs(SampleTask(1000), 0), 1_000_000)
  {
  }

  /** Started at 1 with a 1000 ms timeout: 1000 ms elapsed is still in time,
      1001 ms elapsed is a timeout. */
  lemma TimeoutBoundaryScenario()
    ensures var t := SetExecuteStartTimeMs(SampleTask(1000), 1);
      !IsTimeout(t, 1000) && !IsTimeout(t, 1001) && IsTimeout(t, 1002)
  {
  }

  /** A VISIBLE report after the deadline cancels the timeout. */
  lemma VisibleAfterDeadlineScenario()
    ensures var t := SetExecuteStartTimeMs(SampleTask(1000), 1);
      IsTimeout(t, 1500) && !IsTimeout(SetTxnStatus(t, Visible), 2000)
  {
  }

  /** A negative clock reading makes the 64-bit elapsed time wrap to a huge
      positive value, so the verdict there says nothing about later readings. */
  lemma NegativeClockWraps()
    ensures var t := SetExecuteStartTimeMs(SampleTask(5), 1);
      IsTimeout(t, MinLong) && !IsTimeout(t, 0)
  {
  }

  /** A used label is thrown on and leaves the transaction id unset. */
  lemma LabelAlreadyUsedScenario()
    ensures var r := BeginTxn(SampleTask(1000), SampleJob, "127.0.0.1", Uuids.ToString,
                              _ => LabelAlreadyUsed("label used"));
      r.ThrewLabelAlreadyUsed? && r.task.txnId == Unset
  {
  }

  /** A begin failure returns false; a retry that the manager grants stores
      the id. */
  lemma TransientFailureThenRetryScenario()
    ensures var first := BeginTxn(SampleTask(1000), SampleJob, "127.0.0.1", Uuids.ToString,
                                  _ => BeginTransactionFailure("too many txns"));
      && first == Returned(false, SampleTask(1000))
      && BeginTxn(first.task, SampleJob, "127.0.0.1", Uuids.ToString, _ => Began(42)).task.txnId == 42
  {
  }
}
