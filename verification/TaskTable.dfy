/** The shared file `task-state.json` as a value: task records, and the edit that one
    orchestrator command makes to one record. */
module TaskTable {

  import opened Options

  type TaskId = string

  datatype Status = Open | Ready | InProgress | Done | Blocked | Other(name: string)

  /** One JSON object of the file.  Every key is optional; `rest` holds the keys that the
      two commands neither test nor write (title, effort, ...). */
  datatype Task = Task(
    status: Option<Status>,
    stream: Option<string>,
    priority: Option<string>,
    blockedBy: Option<seq<TaskId>>,
    claimedBy: Option<string>,
    claimedAt: Option<nat>,
    completedAt: Option<nat>,
    notes: Option<string>,
    rest: map<string, string>)
  {
    /** `not task` holds of the empty object as well as of a missing one. */
    predicate Falsy() {
      this == Task(None, None, None, None, None, None, None, None, map[])
    }

    predicate Available() {
      status == Some(Open) || status == Some(Ready)
    }

    predicate IsDone() {
      status == Some(Done)
    }

    /** `blocked_by`, read with the default `[]`. */
    function Dependencies(): seq<TaskId> {
      if blockedBy.Some? then blockedBy.value else []
    }
  }

  type Table = map<TaskId, Task>

  /** A command line after parsing.  `selected` says that `claim` was started with
      `--stream`, so that the scheduler chose the task. */
  datatype Call =
    | Claim(task: TaskId, orch: string, dryRun: bool, selected: bool)
    | Finalize(task: TaskId, orch: string, done: bool, message: Option<string>, maxRetries: int)
  {
    function Attempts(): int {
      if Claim? then 3 else maxRetries
    }
  }

  /** What the command writes into the record it addresses. */
  function Edited(call: Call, stamp: nat, t: Task): Task {
    match call
    case Claim(_, orch, _, _) =>
      t.(status := Some(InProgress), claimedBy := Some(orch), claimedAt := Some(stamp))
    case Finalize(_, _, done, message, _) =>
      t.(status := Some(if done then Done else Blocked),
         completedAt := if done then Some(stamp) else t.completedAt,
         notes := if message.Some? then message else t.notes)
  }

  /** The record before and after a command, key by key. */
  predicate Wrote(call: Call, stamp: nat, before: Task, after: Task) {
    && after.stream == before.stream && after.priority == before.priority
    && after.blockedBy == before.blockedBy && after.rest == before.rest
    && match call
       case Claim(_, orch, _, _) =>
         && after.status == Some(InProgress)
         && after.claimedBy == Some(orch) && after.claimedAt == Some(stamp)
         && after.completedAt == before.completedAt && after.notes == before.notes
       case Finalize(_, _, done, message, _) =>
         && after.claimedBy == before.claimedBy && after.claimedAt == before.claimedAt
         && (done ==> after.status == Some(Done) && after.completedAt == Some(stamp))
         && (!done ==> after.status == Some(Blocked) && after.completedAt == before.completedAt)
         && (message.Some? ==> after.notes == message)
         && (message.None? ==> after.notes == before.notes)
  }

  function Apply(call: Call, stamp: nat, table: Table): Table {
    if call.task in table then table[call.task := Edited(call, stamp, table[call.task])] else table
  }

  /** The guard of a command that goes on to write: the record exists, a claim finds it
      still available, and the call is no dry run. */
  predicate Enabled(call: Call, table: Table) {
    && call.task in table
    && !table[call.task].Falsy()
    && (call.Claim? ==> table[call.task].Available() && !call.dryRun)
  }

  /** `is_unblocked`: a dependency that is missing from the table does not count as done. */
  predicate IsUnblocked(task: TaskId, table: Table)
    requires task in table
  {
    forall d <- table[task].Dependencies() :: d in table && table[d].IsDone()
  }
}
