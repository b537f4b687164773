/** The status of the transaction a task is bound to, as the transaction
    manager reports it, and the enum constant names `name()` returns for it. */
module TransactionStatuses {
  import opened Optional

  datatype TransactionStatus = Unknown | Prepare | Committed | Visible | Aborted

  /** A transaction that has reached COMMITTED or VISIBLE has durably
      finished: its data will become (or already is) visible. */
  predicate IsFinished(s: TransactionStatus) {
    s == Committed || s == Visible
  }

  /** `TransactionStatus.name()`: the enum constant's identifier. */
  function Name(s: TransactionStatus): (n: string)
    ensures |n| > 0
    ensures ValueOf(n) == Some(s)
  {
    match s
    case Unknown => "UNKNOWN"
    case Prepare => "PREPARE"
    case Committed => "COMMITTED"
    case Visible => "VISIBLE"
    case Aborted => "ABORTED"
  }

  /** `TransactionStatus.valueOf`, with `None` for a name that is no constant. */
  function ValueOf(n: string): Option<TransactionStatus>
  {
    if n == "UNKNOWN" then Some(Unknown)
    else if n == "PREPARE" then Some(Prepare)
    else if n == "COMMITTED" then Some(Committed)
    else if n == "VISIBLE" then Some(Visible)
    else if n == "ABORTED" then Some(Aborted)
    else None
  }
}
