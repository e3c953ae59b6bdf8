/** Retries, rollback and progress: what an attempt leaves behind, why a rejected push means
    that somebody else got through, and how long a command waits. */
module ProtocolProgress {
  import opened Options
  import opened TaskTable
  import opened Protocol
  import opened ProtocolSafety
  import Scheduler

  // ---- Rollback ----------------------------------------------------------------------------

  /** The steps of one attempt after its pull, with the remote as each of them finds it: up to
      the commit, and from the push on. */
  function Committing(id: nat, cl: Clone, atEdit: Chance, atCommit: Chance, remote: seq<Commit>): Clone {
    var edited := Advance(id, cl, remote, atEdit).0;
    var staged := Advance(id, edited, remote, atEdit).0;
    Advance(id, staged, remote, atCommit).0
  }

  function Publishing(id: nat, cl: Clone, atPush: Chance, remote: seq<Commit>): Clone {
    var pushed := Advance(id, cl, remote, atPush).0;
    var reset := Advance(id, pushed, remote, atPush).0;
    Advance(id, reset, remote, atPush).0
  }

  function Attempt(id: nat, cl: Clone, atEdit: Chance, atCommit: Chance, remote: seq<Commit>): Clone {
    Publishing(id, Committing(id, cl, atEdit, atCommit, remote), atCommit, remote)
  }

  /** A rejected attempt undoes itself: branch, index and working file are again the pulled
      base, and only the bookkeeping has moved on. */
  lemma RejectedAttemptRollsBack(id: nat, cl: Clone, atEdit: Chance, atCommit: Chance, remote: seq<Commit>)
    requires cl.control.Running? && cl.control.phase.AtEdit? && cl.head != [] && cl.Clean()
    requires Enabled(cl.control.call, Tree(cl.head))
    requires atCommit.hooksPass && Apply(cl.control.call, atEdit.now, cl.work) != cl.work
    requires (cl.head < remote && remote[|cl.head|].author != id) || (cl.head == remote && !atCommit.netUp)
    ensures var after := Attempt(id, cl, atEdit, atCommit, remote);
      && after.head == cl.head && after.index == cl.index && after.work == cl.work
      && after.made == cl.made + 1 && after.since == cl.since && after.seen == cl.seen
      && after.unreached == cl.unreached + (if atCommit.netUp then 0 else 1)
      && (if cl.control.attempt < cl.control.call.Attempts() then
            && after.control == Running(cl.control.call, cl.control.attempt + 1, atEdit.now, AtPull)
            && after.slept == cl.slept + Pow2(cl.control.attempt)
          else
            after.control == Returned(cl.control.call, Exhausted) && after.slept == cl.slept)
  {
    var own := Commit(Apply(cl.control.call, atEdit.now, cl.work), id, cl.made, cl.control.call, atEdit.now, cl.seen);
    CommittingCommits(id, cl, atEdit, atCommit, remote);
    assert cl.head < remote ==> remote[|cl.head|] != own && (cl.head + [own])[|cl.head|] == own;
    var committed := Committing(id, cl, atEdit, atCommit, remote);
    hide Committing;
    FailedPushRollsBack(id, committed, cl.head, atCommit, remote);
  }

  /** The attempt up to its commit. */
  lemma CommittingCommits(id: nat, cl: Clone, atEdit: Chance, atCommit: Chance, remote: seq<Commit>)
    requires cl.control.Running? && cl.control.phase.AtEdit? && cl.head != [] && cl.Clean()
    requires Enabled(cl.control.call, Tree(cl.head))
    requires atCommit.hooksPass && Apply(cl.control.call, atEdit.now, cl.work) != cl.work
    ensures var after := Apply(cl.control.call, atEdit.now, cl.work);
      Committing(id, cl, atEdit, atCommit, remote) == cl.(
        head := cl.head + [Commit(after, id, cl.made, cl.control.call, atEdit.now, cl.seen)],
        index := after, work := after,
        made := cl.made + 1, control := Running(cl.control.call, cl.control.attempt, atEdit.now, AtPush))
  {
  }

  lemma FailedPushRollsBack(id: nat, cl: Clone, base: seq<Commit>, atPush: Chance, remote: seq<Commit>)
    requires cl.control.Running? && cl.control.phase.AtPush? && |cl.head| == |base| + 1 && cl.head[..|base|] == base
    requires !atPush.netUp || !(remote <= cl.head)
    ensures var after := Publishing(id, cl, atPush, remote);
      && after.head == base && after.index == after.work == Tree(base)
      && after.made == cl.made && after.since == cl.since && after.seen == cl.seen
      && after.unreached == cl.unreached + (if atPush.netUp then 0 else 1)
      && (if cl.control.attempt < cl.control.call.Attempts() then
            && after.control == Running(cl.control.call, cl.control.attempt + 1, cl.control.stamp, AtPull)
            && after.slept == cl.slept + Pow2(cl.control.attempt)
          else
            after.control == Returned(cl.control.call, Exhausted) && after.slept == cl.slept)
  {
  }

  /** After a failed commit, `checkout --` restores the staged copy, not the committed one:
      the edit survives in index and working file ... */
  lemma FailedCommitKeepsEdit(id: nat, cl: Clone, remote: seq<Commit>, atCommit: Chance, atRestore: Chance)
    requires cl.control.Running? && cl.control.phase.AtCommit? && CloneInv(id, cl, remote)
    requires !atCommit.hooksPass || cl.index == Tree(cl.head)
    ensures var failed := Advance(id, Advance(id, cl, remote, atCommit).0, remote, atRestore).0;
      && failed.control == Returned(cl.control.call, CommitFailed)
      && failed.head == cl.head
      && failed.index == failed.work == Apply(cl.control.call, cl.control.stamp, Tree(cl.head))
      && (failed.Clean() <==> Apply(cl.control.call, cl.control.stamp, Tree(cl.head)) == Tree(cl.head))
  {
  }

  predicate Stuck(cl: Clone) {
    !cl.Clean() && (cl.control.Running? ==> cl.control.phase.AtPull?)
  }

  /** ... and from then on the clone is stuck: in every continuation its three layers stay as
      they are, every command it starts fails at the pull, and nothing of it reaches the
      remote any more. */
  lemma {:induction false} DirtyCloneIsHarmless(w: World, events: seq<Event>, id: nat)
    requires Inv(w) && id < |w.clones| && Stuck(w.clones[id])
    ensures id < |Run(w, events).clones|
    ensures var before, after := w.clones[id], Run(w, events).clones[id];
      && Stuck(after)
      && after.head == before.head && after.index == before.index && after.work == before.work
    ensures forall c <- Gained(w, events) :: c.author != id
    decreases |events|
  {
    Simulation(w, events);
    if events != [] {
      var w1 := Step(w, events[0]);
      StepKeeps(w, events[0]);
      if events[0].clone < |w.clones| {
        if events[0].clone == id && events[0].Begin? && !w.clones[id].control.Running? {
          StartTouchesNothing(w.clones[id], events[0].command, |w.remote|);
        }
      }
      DirtyCloneIsHarmless(w1, events[1..], id);
      Simulation(w1, events[1..]);
      var r := Run(w, events).remote;
      forall c <- Gained(w, events) ensures c.author != id {
        if c !in Gained(w1, events[1..]) {
          var k :| |w.remote| <= k < |r| && r[k] == c;
          assert k < |w1.remote|;
        }
      }
    }
  }

  lemma StartTouchesNothing(cl: Clone, command: Command, since: nat)
    requires !cl.control.Running?
    ensures var cl' := Start(cl, command, since);
      && cl'.head == cl.head && cl'.index == cl.index && cl'.work == cl.work && cl'.made == cl.made
      && (cl'.control.Running? ==> cl'.control.phase.AtPull? && cl'.control.attempt == 1)
  {
  }

  // ---- How a command begins, and what it finds after its pull ---------------------------------

  /** A stream without an offer and a missing or empty record end the command before its first
      pull; the status of a record named on the command line is not looked at. */
  lemma BeginsExactly(cl: Clone, command: Command, since: nat)
    requires cl.control.Idle?
    ensures var begun := Start(cl, command, since).control;
      match command
      case ClaimStream(stream, orch, dryRun) =>
        && (begun == Idle <==> Scheduler.FindOpenTask(stream, cl.work).None?)
        && (begun.Running? ==>
              begun == Running(Claim(Scheduler.FindOpenTask(stream, cl.work).value, orch, dryRun, true), 1, 0, AtPull))
      case ClaimTask(task, orch, dryRun) =>
        && (begun == Idle <==>
              task !in cl.work || cl.work[task] == Task(None, None, None, None, None, None, None, None, map[]))
        && (begun != Idle ==> begun == Running(Claim(task, orch, dryRun, false), 1, 0, AtPull))
      case FinalizeTask(task, orch, done, message, maxRetries) =>
        begun == if maxRetries >= 1 then Running(Finalize(task, orch, done, message, maxRetries), 1, 0, AtPull)
                 else Returned(Finalize(task, orch, done, message, maxRetries), Exhausted)
  {
  }

  /** What the pulled record decides: a missing or empty one ends the command, a claim of one that
      is neither open nor ready ends as unavailable, a dry run ends there; anything else writes
      the record of the task, and nothing else. */
  lemma ChecksExactly(id: nat, cl: Clone, remote: seq<Commit>, chance: Chance)
    requires cl.control.Running? && cl.control.phase.AtEdit?
    ensures var call, after := cl.control.call, Advance(id, cl, remote, chance).0;
      var empty := call.task !in cl.work
        || cl.work[call.task] == Task(None, None, None, None, None, None, None, None, map[]);
      && (after.control == Returned(call, Missing) <==> empty)
      && (after.control == Returned(call, Unavailable) <==>
            call.Claim? && !empty && cl.work[call.task].status !in {Some(Open), Some(Ready)})
      && (after.control == Returned(call, DryRun) <==>
            call.Claim? && call.dryRun && !empty && cl.work[call.task].status in {Some(Open), Some(Ready)})
      && (after.control.Returned? ==> after.work == cl.work)
      && (after.control.Running? ==>
            && !empty && (call.Claim? ==> !call.dryRun && cl.work[call.task].status in {Some(Open), Some(Ready)})
            && after.work == cl.work[call.task := after.work[call.task]]
            && Wrote(call, chance.now, cl.work[call.task], after.work[call.task]))
      && after.head == cl.head && after.index == cl.index
  {
  }

  // ---- Rejections and waiting --------------------------------------------------------------

  /** The part of the remote that arrived since the running (or last) command began, holding
      no commit of the clone itself while that command has not succeeded. */
  predicate ForeignSince(id: nat, cl: Clone, remote: seq<Commit>) {
    && cl.since <= |remote|
    && ((cl.control.Returned? && cl.control.outcome.Won?) ||
        forall k :: cl.since <= k < |remote| ==> remote[k].author != id)
  }

  /** How many pushes of others, or own pushes that found no server, are certain: one for every
      attempt that is over, and one more between the pull and the failure of the current one. */
  predicate Counted(cl: Clone, remote: seq<Commit>) {
    match cl.control
    case Running(call, attempt, _, phase) =>
      && attempt >= 1
      && cl.slept + 2 == Pow2(attempt)
      && cl.since + attempt - 1 <= |remote| + cl.unreached
      && (phase.AtEdit? || phase.AtStage? || phase.AtCommit? || phase.AtRestore? ==>
            cl.since + attempt - 1 <= |cl.head| + cl.unreached)
      && (phase.AtPush? || phase.AtReset? ==> cl.since + attempt <= |cl.head| + cl.unreached)
      && (phase.AtReset? || phase.AtDiscard? ==> cl.since + attempt <= |remote| + cl.unreached)
    case Returned(call, Exhausted) =>
      && cl.since + Positive(call.Attempts()) <= |remote| + cl.unreached
      && cl.slept == TotalSleep(call.Attempts())
    case _ => true
  }

  function Positive(n: int): nat {
    if n < 0 then 0 else n
  }

  /** The waits between n attempts: 2 + 4 + ... + 2^(n - 1). */
  function TotalSleep(n: int): nat {
    if n <= 1 then 0 else Pow2(n - 1) + TotalSleep(n - 1)
  }

  lemma {:induction false} TotalSleepClosed(n: nat)
    requires n >= 1
    ensures TotalSleep(n) + 2 == Pow2(n)
  {
    if n > 1 { TotalSleepClosed(n - 1); }
  }

  predicate Tracked(id: nat, cl: Clone, remote: seq<Commit>) {
    ForeignSince(id, cl, remote) && Counted(cl, remote)
  }

  lemma AdvanceKeepsCounted(id: nat, cl: Clone, remote: seq<Commit>, chance: Chance)
    requires remote != [] && CloneInv(id, cl, remote) && Counted(cl, remote)
    requires cl.control.Running? && !cl.control.phase.AtPush?
    ensures Counted(Advance(id, cl, remote, chance).0, remote)
  {
    hide Lawful, Fresh, Enabled, Apply;
    match cl.control.phase
    case AtPull =>
    case AtEdit =>
    case AtStage =>
    case AtCommit =>
    case AtRestore =>
    case AtReset =>
    case AtDiscard => TotalSleepClosed(cl.control.attempt);
  }

  lemma PushKeepsTracked(id: nat, cl: Clone, remote: seq<Commit>, chance: Chance)
    requires remote != [] && CloneInv(id, cl, remote) && Tracked(id, cl, remote)
    requires cl.control.Running? && cl.control.phase.AtPush?
    ensures var (cl', remote') := Push(cl, remote, chance); Tracked(id, cl', remote')
  {
    PushKeeps(id, cl, remote, chance);
    assert Parent(cl) <= remote && (chance.netUp && !(remote <= cl.head) ==> |Parent(cl)| < |remote|);
  }

  lemma AdvanceKeepsTracked(id: nat, cl: Clone, remote: seq<Commit>, chance: Chance)
    requires remote != [] && CloneInv(id, cl, remote) && Tracked(id, cl, remote)
    ensures var (cl', remote') := Advance(id, cl, remote, chance); Tracked(id, cl', remote')
  {
    if cl.control.Running? {
      if cl.control.phase.AtPush? {
        PushKeepsTracked(id, cl, remote, chance);
      } else {
        AdvanceKeepsCounted(id, cl, remote, chance);
        var (cl', remote') := Advance(id, cl, remote, chance);
        assert cl'.since == cl.since && remote' == remote;
      }
    }
  }

  predicate AllTracked(w: World) {
    forall id :: 0 <= id < |w.clones| ==> Tracked(id, w.clones[id], w.remote)
  }

  lemma OthersKeepTracked(w: World, e: Event, id: nat)
    requires Inv(w) && id < |w.clones| && id != e.clone && Tracked(id, w.clones[id], w.remote)
    ensures Tracked(id, w.clones[id], Step(w, e).remote)
  {
    StepKeeps(w, e);
  }

  lemma StepKeepsTracked(w: World, e: Event)
    requires Inv(w) && AllTracked(w)
    ensures AllTracked(Step(w, e))
  {
    if e.clone < |w.clones| {
      var cl, w' := w.clones[e.clone], Step(w, e);
      assert CloneInv(e.clone, cl, w.remote) && Tracked(e.clone, cl, w.remote);
      if e.Tick? { AdvanceKeepsTracked(e.clone, cl, w.remote, e.chance); }
      forall id | 0 <= id < |w'.clones| ensures Tracked(id, w'.clones[id], w'.remote) {
        if id != e.clone { OthersKeepTracked(w, e, id); }
      }
    }
  }

  lemma {:induction false} RunKeepsTracked(w: World, events: seq<Event>)
    requires Inv(w) && AllTracked(w)
    ensures Inv(Run(w, events)) && AllTracked(Run(w, events))
    decreases |events|
  {
    if events != [] {
      StepKeeps(w, events[0]);
      StepKeepsTracked(w, events[0]);
      RunKeepsTracked(Step(w, events[0]), events[1..]);
    }
  }

  /** Lock-freedom by counting: in every reachable state, a command that gave up after n
      attempts has met n times either a push of another clone that landed while it ran, or a
      server it could not reach, and has waited 2^n - 2 seconds in all. */
  lemma ExhaustedMeansOthersWon(w: World, events: seq<Event>, id: nat)
    requires Initial(w) && forall c <- w.clones :: c.since == 0
    requires id < |Run(w, events).clones|
    requires var c := Run(w, events).clones[id].control; c.Returned? && c.outcome.Exhausted?
    ensures var w' := Run(w, events); var cl := w'.clones[id]; var n := cl.control.call.Attempts();
      && cl.since <= |w'.remote|
      && |w'.remote[cl.since..]| + cl.unreached >= Positive(n)
      && (forall c <- w'.remote[cl.since..] :: c.author != id)
      && (n >= 1 ==> cl.slept + 2 == Pow2(n))
      && (cl.control.call.Claim? ==> n == 3 && cl.slept == 2 + 4)
      && (cl.control.call.Finalize? ==> n == cl.control.call.maxRetries)
  {
    InitialInv(w);
    forall i | 0 <= i < |w.clones| ensures Tracked(i, w.clones[i], w.remote) {
      assert w.clones[i] in w.clones;
    }
    RunKeepsTracked(w, events);
    var w' := Run(w, events);
    var cl := w'.clones[id];
    assert Tracked(id, cl, w'.remote);
    if cl.control.call.Attempts() >= 1 { TotalSleepClosed(cl.control.call.Attempts()); }
    assert Pow2(3) == 2 * Pow2(2) == 4 * Pow2(1) == 8;
  }

  /** A push that reaches the server is rejected exactly if the remote has moved since this
      clone's pull. */
  lemma RejectedOnlyAfterForeignPush(id: nat, cl: Clone, remote: seq<Commit>, chance: Chance)
    requires remote != [] && CloneInv(id, cl, remote)
    requires cl.control.Running? && cl.control.phase.AtPush?
    ensures Push(cl, remote, chance).0.control.Running? <==> Parent(cl) < remote || !chance.netUp
    ensures Push(cl, remote, chance).1 == if Parent(cl) < remote || !chance.netUp then remote else cl.head
  {
    PushKeeps(id, cl, remote, chance);
  }
}
