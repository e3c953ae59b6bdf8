/** The two commands as they are written: a retry loop over a clone whose branch, index and
    working file are updated in place, while other clones push to the shared remote.  Each
    call is proved to follow the state machine of `Protocol` step by step, and what it
    returns is tied to what the remote has gained. */
module Workstation {
  import opened Options
  import opened TaskTable
  import opened Protocol
  import opened ProtocolSafety

  datatype Move = Others(news: seq<Commit>) | Own(chance: Chance)

  /** The state machine seen from one clone: its own steps, and pushes of others between. */
  function Follow(id: nat, cl: Clone, log: seq<Commit>, moves: seq<Move>): (Clone, seq<Commit>)
    decreases |moves|
  {
    if moves == [] then (cl, log)
    else
      var (cl', log') := Follow(id, cl, log, moves[..|moves| - 1]);
      match moves[|moves| - 1]
      case Others(news) => (cl', log' + news)
      case Own(chance) => Advance(id, cl', log', chance)
  }

  /** What is known between two statements of a running command: the statements so far are
      a run of the state machine, the invariant holds, and nothing of this clone has been
      published since the call began. */
  ghost predicate OnTrack(id: nat, start: Clone, log0: seq<Commit>, trace: seq<Move>, cl: Clone, log: seq<Commit>) {
    && log != [] && CloneInv(id, cl, log)
    && Follow(id, start, log0, trace) == (cl, log)
    && log0 <= log
    && forall k :: |log0| <= k < |log| ==> log[k].author != id
  }

  /** The push was accepted: the branch has gained whatever others pushed, then exactly one
      commit of this clone, an atomic edit of the table the others left; and all layers of
      the clone agree with it. */
  ghost predicate HasWon(id: nat, start: Clone, log0: seq<Commit>, trace: seq<Move>, cl: Clone, log: seq<Commit>) {
    && log0 < log && CloneInv(id, cl, log)
    && Follow(id, start, log0, trace) == (cl, log)
    && var n := |log| - 1;
    && cl.control.Returned?
    && log[n].author == id && log[n].call == cl.control.call
    && Lawful(log[n], Tree(log[..n]))
    && (forall k :: |log0| <= k < n ==> log[k].author != id)
    && cl.head == log && cl.index == cl.work == Tree(log)
  }

  class Remote {
    var log: seq<Commit>

    constructor (log: seq<Commit>)
      ensures this.log == log
    {
      this.log := log;
    }

    /** Whatever other clones manage to push at this moment. */
    method OthersPush(me: nat) returns (news: seq<Commit>)
      modifies this
      ensures log == old(log) + news && forall c <- news :: c.author != me
    {
      news := *;
      if exists c <- news :: c.author == me {
        news := [];
      }
      log := log + news;
    }
  }

  class Station {
    const id: nat
    const remote: Remote
    var head: seq<Commit>
    var index: Table
    var work: Table
    var made: nat
    var seen: nat
    ghost var since: nat
    ghost var slept: nat
    ghost var unreached: nat

    constructor (id: nat, remote: Remote)
      requires remote.log != [] && forall c <- remote.log :: c.author != id
      ensures this.id == id && this.remote == remote && Valid(Idle)
    {
      this.id, this.remote := id, remote;
      head, index, work := remote.log, Tree(remote.log), Tree(remote.log);
      made, seen, since, slept, unreached := 0, 0, 0, 0, 0;
    }

    ghost function Snapshot(control: Control): Clone
      reads this
    {
      Clone(head, index, work, control, made, since, seen, slept, unreached)
    }

    ghost predicate Valid(control: Control)
      reads this, remote
    {
      remote.log != [] && CloneInv(id, Snapshot(control), remote.log)
    }

    // ---- git -------------------------------------------------------------------------------

    method GitPull() returns (ok: bool, ghost chance: Chance)
      modifies this`head, this`index, this`work
      ensures ok == (chance.netUp && old(Snapshot(Idle).Clean()) && old(head) <= remote.log)
      ensures ok ==> head == remote.log && index == Tree(remote.log) && work == Tree(remote.log)
      ensures !ok ==> head == old(head) && index == old(index) && work == old(work)
    {
      var up: bool := *;
      chance := Chance(up, true, 0);
      var tip: Table := if head == [] then map[] else head[|head| - 1].tree;
      ok := up && index == tip && work == index && head <= remote.log;
      if ok {
        head := remote.log;
        index := if head == [] then map[] else head[|head| - 1].tree;
        work := index;
      }
    }

    method GitAdd()
      modifies this`index
      ensures index == work
    {
      index := work;
    }

    method GitCommit(call: Call, stamp: nat) returns (ok: bool, ghost chance: Chance)
      modifies this`head, this`made
      ensures ok == (chance.hooksPass && index != Tree(old(head)))
      ensures ok ==> head == old(head) + [Commit(index, id, old(made), call, stamp, seen)] && made == old(made) + 1
      ensures !ok ==> head == old(head) && made == old(made)
    {
      var pass: bool := *;
      chance := Chance(true, pass, 0);
      var tip: Table := if head == [] then map[] else head[|head| - 1].tree;
      ok := pass && index != tip;
      if ok {
        head := head + [Commit(index, id, made, call, stamp, seen)];
        made := made + 1;
      }
    }

    method GitPush() returns (ok: bool, ghost chance: Chance)
      modifies remote
      ensures ok == (chance.netUp && old(remote.log) <= head)
      ensures remote.log == if ok then head else old(remote.log)
    {
      var up: bool := *;
      chance := Chance(up, true, 0);
      ok := up && remote.log <= head;
      if ok { remote.log := head; }
    }

    method GitResetLast()
      modifies this`head, this`index
      ensures head == (if old(head) == [] then [] else old(head)[..|old(head)| - 1])
      ensures index == Tree(head)
    {
      head := if head == [] then [] else head[..|head| - 1];
      index := if head == [] then map[] else head[|head| - 1].tree;
    }

    method GitCheckoutFile()
      modifies this`work
      ensures work == index
    {
      work := index;
    }

    // ---- Bookkeeping of the proof -------------------------------------------------------------

    /** The statements of a running command so far, seen from this clone. */
    ghost predicate Tracks(start: Clone, log0: seq<Commit>, trace: seq<Move>, control: Control)
      reads this, remote
    {
      OnTrack(id, start, log0, trace, Snapshot(control), remote.log)
    }

    /** The accepted push, seen from this clone. */
    ghost predicate Published(start: Clone, log0: seq<Commit>, trace: seq<Move>, call: Call)
      reads this, remote
    {
      HasWon(id, start, log0, trace, Snapshot(Returned(call, Won)), remote.log)
    }

    /** What a finished command has done: it followed the state machine from where the call
        began, and it published one edit if it reports a win and nothing otherwise. */
    twostate predicate Finished(call: Call, ok: bool, trace: seq<Move>, outcome: Outcome)
      reads this, remote
    {
      var start := Enter(old(Snapshot(Idle)), call, |old(remote.log)|);
      && ok == outcome.Success()
      && (if outcome.Won? then Published(start, old(remote.log), trace, call)
          else Tracks(start, old(remote.log), trace, Returned(call, outcome)))
    }

    /** What the record shows when a command has come to this end. */
    ghost predicate Explained(call: Call, outcome: Outcome)
      reads this, remote
    {
      var empty := call.task !in work || work[call.task] == Task(None, None, None, None, None, None, None, None, map[]);
      match outcome
      case Missing => empty
      case Unavailable => call.Claim? && !empty && work[call.task].status !in {Some(Open), Some(Ready)}
      case DryRun => call.Claim? && call.dryRun && !empty && work[call.task].status in {Some(Open), Some(Ready)}
      case Won => Written(call)
      case _ => true
    }

    /** The last commit on the remote has written the record, and nothing else: a claim on an open
        or ready one.  The clone's three layers agree with it. */
    ghost predicate Written(call: Call)
      reads this, remote
    {
      && remote.log != []
      && var n := |remote.log| - 1;
      && var before := Tree(remote.log[..n]);
      && call.task in before && call.task in work
      && (call.Claim? ==> !call.dryRun && before[call.task].status in {Some(Open), Some(Ready)})
      && work == index == Tree(remote.log) == before[call.task := work[call.task]]
      && Wrote(call, remote.log[n].stamp, before[call.task], work[call.task])
      && head == remote.log && remote.log[n].author == id && remote.log[n].call == call
    }

    /** After a win the record is as the call wrote it, on the remote and in all three layers. */
    lemma WinnerSeesItself(start: Clone, log0: seq<Commit>, trace: seq<Move>, call: Call)
      requires Published(start, log0, trace, call)
      ensures Written(call)
    {
      assert Tree(remote.log) == remote.log[|remote.log| - 1].tree;
    }

    // ---- One statement at a time ----------------------------------------------------------------

    /** A local statement has been executed; it was a step of the state machine. */
    ghost method Record(before: Clone, chance: Chance, start: Clone, log0: seq<Commit>, trace: seq<Move>)
      returns (trace': seq<Move>)
      requires remote.log != [] && CloneInv(id, before, remote.log)
      requires Follow(id, start, log0, trace) == (before, remote.log)
      requires before.control.Running? && !before.control.phase.AtPush?
      requires var after := Advance(id, before, remote.log, chance).0; Snapshot(after.control) == after
      requires log0 <= remote.log && forall k :: |log0| <= k < |remote.log| ==> remote.log[k].author != id
      ensures Tracks(start, log0, trace', Advance(id, before, remote.log, chance).0.control)
    {
      trace' := trace + [Own(chance)];
      FollowAppend(id, start, log0, trace, Own(chance));
      AdvanceKeeps(id, before, remote.log, chance);
    }

    method Interfere(ghost start: Clone, ghost log0: seq<Commit>, ghost trace: seq<Move>, ghost control: Control)
      returns (ghost trace': seq<Move>)
      requires Tracks(start, log0, trace, control)
      modifies remote
      ensures Tracks(start, log0, trace', control)
    {
      ghost var log := remote.log;
      var news := remote.OthersPush(id);
      trace' := trace + [Others(news)];
      FollowAppend(id, start, log0, trace, Others(news));
      ProtocolSafety.OthersPush(id, Snapshot(control), log, remote.log);
    }

    method EnterStep(call: Call) returns (ghost trace: seq<Move>)
      requires Valid(Idle)
      modifies this`since, this`seen, this`slept, this`unreached
      ensures Tracks(Enter(old(Snapshot(Idle)), call, |remote.log|), remote.log, trace,
        if 1 <= call.Attempts() then Running(call, 1, 0, AtPull) else Returned(call, Exhausted))
    {
      seen := |head|;
      since, slept, unreached, trace := |remote.log|, 0, 0, [];
    }

    method PullStep(ghost start: Clone, ghost log0: seq<Commit>, ghost trace0: seq<Move>,
                    ghost call: Call, ghost attempt: nat, ghost stamp: nat)
      returns (ok: bool, ghost trace: seq<Move>)
      requires Tracks(start, log0, trace0, Running(call, attempt, stamp, AtPull))
      modifies this, remote
      ensures Tracks(start, log0, trace,
        if ok then Running(call, attempt, stamp, AtEdit) else Returned(call, PullFailed))
    {
      trace := Interfere(start, log0, trace0, Running(call, attempt, stamp, AtPull));
      ghost var before := Snapshot(Running(call, attempt, stamp, AtPull));
      ghost var chance;
      ok, chance := GitPull();
      trace := Record(before, chance, start, log0, trace);
    }

    /** The call ends at the check of the record, or as a dry run; nothing is written. */
    ghost method StopStep(start: Clone, log0: seq<Commit>, trace0: seq<Move>,
                          call: Call, attempt: nat, stamp: nat, outcome: Outcome)
      returns (trace: seq<Move>)
      requires Tracks(start, log0, trace0, Running(call, attempt, stamp, AtEdit))
      requires Edit(Snapshot(Running(call, attempt, stamp, AtEdit)), Chance(true, true, 0)).control ==
        Returned(call, outcome)
      ensures Tracks(start, log0, trace, Returned(call, outcome))
    {
      trace := Record(Snapshot(Running(call, attempt, stamp, AtEdit)), Chance(true, true, 0), start, log0, trace0);
    }

    method WriteStep(tasks: Table, ghost start: Clone, ghost log0: seq<Commit>, ghost trace0: seq<Move>,
                     ghost call: Call, ghost attempt: nat, ghost stamp: nat, now: nat)
      returns (ghost trace: seq<Move>)
      requires Tracks(start, log0, trace0, Running(call, attempt, stamp, AtEdit))
      requires Enabled(call, work) && tasks == Apply(call, now, work)
      modifies this`work
      ensures Tracks(start, log0, trace, Running(call, attempt, now, AtStage))
    {
      ghost var before := Snapshot(Running(call, attempt, stamp, AtEdit));
      work := tasks;
      trace := Record(before, Chance(true, true, now), start, log0, trace0);
    }

    method StageStep(ghost start: Clone, ghost log0: seq<Commit>, ghost trace0: seq<Move>,
                     call: Call, ghost attempt: nat, stamp: nat)
      returns (ok: bool, ghost trace: seq<Move>)
      requires Tracks(start, log0, trace0, Running(call, attempt, stamp, AtStage))
      modifies this`head, this`index, this`made
      ensures Tracks(start, log0, trace,
        if ok then Running(call, attempt, stamp, AtPush) else Running(call, attempt, stamp, AtRestore))
    {
      ghost var before := Snapshot(Running(call, attempt, stamp, AtStage));
      GitAdd();
      trace := Record(before, Chance(true, true, 0), start, log0, trace0);
      before := Snapshot(Running(call, attempt, stamp, AtCommit));
      ghost var chance;
      ok, chance := GitCommit(call, stamp);
      trace := Record(before, chance, start, log0, trace);
    }

    method RestoreStep(ghost start: Clone, ghost log0: seq<Commit>, ghost trace0: seq<Move>,
                       ghost call: Call, ghost attempt: nat, ghost stamp: nat)
      returns (ghost trace: seq<Move>)
      requires Tracks(start, log0, trace0, Running(call, attempt, stamp, AtRestore))
      modifies this`work
      ensures Tracks(start, log0, trace, Returned(call, CommitFailed))
    {
      ghost var before := Snapshot(Running(call, attempt, stamp, AtRestore));
      GitCheckoutFile();
      trace := Record(before, Chance(true, true, 0), start, log0, trace0);
    }

    method PushStep(ghost start: Clone, ghost log0: seq<Commit>, ghost trace0: seq<Move>,
                    ghost call: Call, ghost attempt: nat, ghost stamp: nat)
      returns (ok: bool, ghost trace: seq<Move>)
      requires Tracks(start, log0, trace0, Running(call, attempt, stamp, AtPush))
      modifies remote, this`unreached
      ensures !ok ==> Tracks(start, log0, trace, Running(call, attempt, stamp, AtReset))
      ensures ok ==> Published(start, log0, trace, call)
    {
      ghost var before, log := Snapshot(Running(call, attempt, stamp, AtPush)), remote.log;
      ghost var chance;
      ok, chance := GitPush();
      if !ok && !chance.netUp { unreached := unreached + 1; }
      trace := trace0 + [Own(chance)];
      PushOutcome(id, start, log0, trace0, before, log, chance);
      hide OnTrack, HasWon;
    }

    method ResetStep(ghost start: Clone, ghost log0: seq<Commit>, ghost trace0: seq<Move>,
                     ghost call: Call, ghost attempt: nat, ghost stamp: nat)
      returns (ghost trace: seq<Move>)
      requires Tracks(start, log0, trace0, Running(call, attempt, stamp, AtReset))
      modifies this`head, this`index
      ensures Tracks(start, log0, trace, Running(call, attempt, stamp, AtDiscard))
    {
      ghost var before := Snapshot(Running(call, attempt, stamp, AtReset));
      GitResetLast();
      trace := Record(before, Chance(true, true, 0), start, log0, trace0);
    }

    method DiscardStep(ghost start: Clone, ghost log0: seq<Commit>, ghost trace0: seq<Move>,
                       call: Call, attempt: nat, ghost stamp: nat)
      returns (ghost trace: seq<Move>)
      requires Tracks(start, log0, trace0, Running(call, attempt, stamp, AtDiscard))
      modifies this`work, this`slept
      ensures Tracks(start, log0, trace,
        if attempt < call.Attempts() then Running(call, attempt + 1, stamp, AtPull) else Returned(call, Exhausted))
    {
      ghost var before := Snapshot(Running(call, attempt, stamp, AtDiscard));
      GitCheckoutFile();
      if attempt < call.Attempts() {
        slept := slept + Pow2(attempt);
      }
      trace := Record(before, Chance(true, true, 0), start, log0, trace0);
    }

    /** How an attempt ends: the command returns, or (`None`) the loop goes on. */
    ghost predicate Attempted(start: Clone, log0: seq<Commit>, trace: seq<Move>, call: Call, attempt: nat,
                              stamp: nat, result: Option<Outcome>)
      reads this, remote
    {
      match result
      case Some(Won) => Published(start, log0, trace, call)
      case Some(outcome) => Tracks(start, log0, trace, Returned(call, outcome))
      case None => Tracks(start, log0, trace,
        if attempt < call.Attempts() then Running(call, attempt + 1, stamp, AtPull) else Returned(call, Exhausted))
    }

    /** The end of the loop body, the same in both commands: commit and push what has been
        written, or put everything back. */
    method Publish(ghost start: Clone, ghost log0: seq<Commit>, ghost trace0: seq<Move>,
                   call: Call, attempt: nat, stamp: nat)
      returns (result: Option<Outcome>, ghost trace: seq<Move>)
      requires Tracks(start, log0, trace0, Running(call, attempt, stamp, AtStage))
      modifies this, remote
      ensures result == None || result == Some(Won) || result == Some(CommitFailed)
      ensures Attempted(start, log0, trace, call, attempt, stamp, result)
      ensures result == Some(Won) ==> Written(call)
    {
      var ok;
      ok, trace := StageStep(start, log0, trace0, call, attempt, stamp);
      if !ok {
        trace := RestoreStep(start, log0, trace, call, attempt, stamp);
        return Some(CommitFailed), trace;
      }
      trace := Interfere(start, log0, trace, Running(call, attempt, stamp, AtPush));
      ok, trace := PushStep(start, log0, trace, call, attempt, stamp);
      if ok {
        WinnerSeesItself(start, log0, trace, call);
        return Some(Won), trace;
      }
      trace := ResetStep(start, log0, trace, call, attempt, stamp);
      trace := DiscardStep(start, log0, trace, call, attempt, stamp);
      return None, trace;
    }

    // ---- The commands ----------------------------------------------------------------------

    method Claim(task: TaskId, orchestrator: string, dryRun: bool, selected: bool)
      returns (ok: bool, ghost trace: seq<Move>, ghost outcome: Outcome)
      requires Valid(Idle)
      modifies this, remote
      ensures Finished(TaskTable.Claim(task, orchestrator, dryRun, selected), ok, trace, outcome)
      ensures ok <==> outcome == if dryRun then DryRun else Won
      ensures Explained(TaskTable.Claim(task, orchestrator, dryRun, selected), outcome)
    {
      var call := TaskTable.Claim(task, orchestrator, dryRun, selected);
      ghost var log0, start, stamp := remote.log, Enter(Snapshot(Idle), call, |remote.log|), 0;
      trace := EnterStep(call);
      var maxRetries := 3;
      for attempt := 1 to maxRetries + 1
        invariant Tracks(start, log0, trace,
          if attempt <= 3 then Running(call, attempt, stamp, AtPull) else Returned(call, Exhausted))
      {
        var result;
        result, trace, stamp := ClaimAttempt(call, attempt, start, log0, trace, stamp);
        if result.Some? {
          return result.value.Success(), trace, result.value;
        }
      }
      return false, trace, Exhausted;
    }

    /** The body of the loop of `claim`. */
    method ClaimAttempt(call: Call, attempt: nat, ghost start: Clone, ghost log0: seq<Commit>,
                        ghost trace0: seq<Move>, ghost stamp0: nat)
      returns (result: Option<Outcome>, ghost trace: seq<Move>, ghost stamp: nat)
      requires call.Claim?
      requires Tracks(start, log0, trace0, Running(call, attempt, stamp0, AtPull))
      modifies this, remote
      ensures Attempted(start, log0, trace, call, attempt, stamp, result)
      ensures result.Some? ==> !result.value.Exhausted?
      ensures result.Some? && result.value.Success() ==> result.value == if call.dryRun then DryRun else Won
      ensures result.Some? ==> Explained(call, result.value)
    {
      var task := call.task;
      stamp := stamp0;
      var pulled;
      pulled, trace := PullStep(start, log0, trace0, call, attempt, stamp);
      if !pulled {
        return Some(PullFailed), trace, stamp;
      }
      var tasks := work;
      if task !in tasks || tasks[task].Falsy() {
        trace := StopStep(start, log0, trace, call, attempt, stamp, Missing);
        return Some(Missing), trace, stamp;
      }
      if !tasks[task].Available() {
        trace := StopStep(start, log0, trace, call, attempt, stamp, Unavailable);
        return Some(Unavailable), trace, stamp;
      }
      var now: nat := *;
      tasks := tasks[task := tasks[task].(
        status := Some(InProgress), claimedBy := Some(call.orch), claimedAt := Some(now))];
      if call.dryRun {
        trace := StopStep(start, log0, trace, call, attempt, stamp, DryRun);
        return Some(DryRun), trace, stamp;
      }
      trace := WriteStep(tasks, start, log0, trace, call, attempt, stamp, now);
      stamp := now;
      result, trace := Publish(start, log0, trace, call, attempt, now);
    }

    method Finalize(task: TaskId, orchestrator: string, done: bool, message: Option<string>, maxRetries: int)
      returns (ok: bool, ghost trace: seq<Move>, ghost outcome: Outcome)
      requires Valid(Idle)
      modifies this, remote
      ensures Finished(TaskTable.Finalize(task, orchestrator, done, message, maxRetries), ok, trace, outcome)
      ensures ok <==> outcome.Won?
      ensures Explained(TaskTable.Finalize(task, orchestrator, done, message, maxRetries), outcome)
    {
      var call := TaskTable.Finalize(task, orchestrator, done, message, maxRetries);
      ghost var log0, start, stamp := remote.log, Enter(Snapshot(Idle), call, |remote.log|), 0;
      trace := EnterStep(call);
      var attempt := 1;
      while attempt <= maxRetries
        invariant 1 <= attempt
        invariant Tracks(start, log0, trace,
          if attempt <= maxRetries then Running(call, attempt, stamp, AtPull) else Returned(call, Exhausted))
        decreases maxRetries - attempt
      {
        var result;
        result, trace, stamp := FinalizeAttempt(call, attempt, start, log0, trace, stamp);
        if result.Some? {
          return result.value.Won?, trace, result.value;
        }
        attempt := attempt + 1;
      }
      return false, trace, Exhausted;
    }

    /** The body of the loop of `finalize`; the owner of the task is not consulted. */
    method FinalizeAttempt(call: Call, attempt: nat, ghost start: Clone, ghost log0: seq<Commit>,
                           ghost trace0: seq<Move>, ghost stamp0: nat)
      returns (result: Option<Outcome>, ghost trace: seq<Move>, ghost stamp: nat)
      requires call.Finalize?
      requires Tracks(start, log0, trace0, Running(call, attempt, stamp0, AtPull))
      modifies this, remote
      ensures Attempted(start, log0, trace, call, attempt, stamp, result)
      ensures result != Some(Exhausted) && result != Some(DryRun)
      ensures result.Some? ==> Explained(call, result.value)
    {
      var task := call.task;
      stamp := stamp0;
      var pulled;
      pulled, trace := PullStep(start, log0, trace0, call, attempt, stamp);
      if !pulled {
        return Some(PullFailed), trace, stamp;
      }
      var tasks := work;
      if task !in tasks || tasks[task].Falsy() {
        trace := StopStep(start, log0, trace, call, attempt, stamp, Missing);
        return Some(Missing), trace, stamp;
      }
      var now: nat := *;
      var record := tasks[task].(status := Some(if call.done then Done else Blocked));
      if call.done { record := record.(completedAt := Some(now)); }
      if call.message.Some? { record := record.(notes := call.message); }
      trace := WriteStep(tasks[task := record], start, log0, trace, call, attempt, stamp, now);
      stamp := now;
      result, trace := Publish(start, log0, trace, call, attempt, now);
    }
  }

  /** An accepted push wins, any other leaves the remote alone. */
  lemma PushOutcome(id: nat, start: Clone, log0: seq<Commit>, trace: seq<Move>, cl: Clone, log: seq<Commit>,
                    chance: Chance)
    requires OnTrack(id, start, log0, trace, cl, log) && cl.control.Running? && cl.control.phase.AtPush?
    ensures var (cl', log') := Push(cl, log, chance);
      if chance.netUp && log <= cl.head then HasWon(id, start, log0, trace + [Own(chance)], cl', log')
      else OnTrack(id, start, log0, trace + [Own(chance)], cl', log')
  {
    PushKeeps(id, cl, log, chance);
    FollowAppend(id, start, log0, trace, Own(chance));
    hide CloneInv, Follow, Lawful;
    if chance.netUp && log <= cl.head {
      AcceptedPush(id, cl, log);
      assert forall k :: 0 <= k < |log| ==> cl.head[k] == log[k];
    }
  }

  /** What is accepted is one lawful commit on top of what was there. */
  lemma AcceptedPush(id: nat, cl: Clone, log: seq<Commit>)
    requires log != [] && CloneInv(id, cl, log) && cl.control.Running? && cl.control.phase.AtPush? && log <= cl.head
    ensures |cl.head| == |log| + 1 && log == cl.head[..|log|]
    ensures cl.head[|log|].author == id && cl.head[|log|].call == cl.control.call
    ensures Lawful(cl.head[|log|], Tree(log)) && cl.index == cl.work == Tree(cl.head)
  {
    PushKeeps(id, cl, log, Chance(true, true, 0));
  }

  lemma FollowAppend(id: nat, cl: Clone, log: seq<Commit>, moves: seq<Move>, move: Move)
    ensures var (cl', log') := Follow(id, cl, log, moves);
      Follow(id, cl, log, moves + [move]) ==
        match move
        case Others(news) => (cl', log' + news)
        case Own(chance) => Advance(id, cl', log', chance)
  {
    assert (moves + [move])[..|moves|] == moves;
  }
}
