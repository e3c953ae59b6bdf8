/** The git-push protocol of `claim.py` and `complete.py` as a state machine: one shared
    remote branch and any number of clones, each running one command at a time.  Every step
    of a command is one git invocation or one access to the working file, so that the steps
    of different clones may interleave arbitrarily. */
module Protocol {
  import opened Options
  import opened TaskTable
  import Scheduler

  /** A commit of the task file.  Author and serial number stand for the commit's hash: two
      commits with the same content are still different commits.  `seen` records how long the
      author's branch was when the command began, which is when a claim selects its task. */
  datatype Commit = Commit(tree: Table, author: nat, serial: nat, call: Call, stamp: nat, seen: nat)

  datatype Phase = AtPull | AtEdit | AtStage | AtCommit | AtRestore | AtPush | AtReset | AtDiscard

  datatype Outcome =
    | Won | DryRun | PullFailed | Missing | Unavailable | CommitFailed | Exhausted
  {
    /** The boolean that `claim` and `finalize` return. */
    predicate Success() { Won? || DryRun? }
  }

  datatype Control =
    | Idle
    | Running(call: Call, attempt: nat, stamp: nat, phase: Phase)
    | Returned(call: Call, outcome: Outcome)

  /** A clone: local branch, index and working file are three separate layers.  `made` counts
      its commits.  Of the current command are recorded the lengths of the remote (`since`) and
      of the own branch (`seen`) when it began, the seconds it has waited (`slept`) and how many
      of its pushes found no server (`unreached`). */
  datatype Clone = Clone(
    head: seq<Commit>, index: Table, work: Table, control: Control, made: nat,
    since: nat, seen: nat, slept: nat, unreached: nat)
  {
    /** What `git pull --rebase` insists on. */
    predicate Clean() {
      index == Tree(head) && work == index
    }
  }

  /** The task file at the tip of a branch. */
  function Tree(branch: seq<Commit>): Table {
    if branch == [] then map[] else branch[|branch| - 1].tree
  }

  datatype World = World(remote: seq<Commit>, clones: seq<Clone>)

  /** What the environment decides at a step: whether the server answers, whether the commit
      hooks pass, and what the clock shows. */
  datatype Chance = Chance(netUp: bool, hooksPass: bool, now: nat)

  datatype Command =
    | ClaimStream(stream: string, orch: string, dryRun: bool)
    | ClaimTask(task: TaskId, orch: string, dryRun: bool)
    | FinalizeTask(task: TaskId, orch: string, done: bool, message: Option<string>, maxRetries: int)

  datatype Event = Begin(clone: nat, command: Command) | Tick(clone: nat, chance: Chance)

  function Pow2(n: nat): nat {
    if n == 0 then 1 else 2 * Pow2(n - 1)
  }

  /** Enters the retry loop, whose body runs only if the range of attempts is not empty. */
  function Enter(cl: Clone, call: Call, since: nat): Clone {
    cl.(since := since, seen := |cl.head|, slept := 0, unreached := 0,
        control := if call.Attempts() < 1 then Returned(call, Exhausted) else Running(call, 1, 0, AtPull))
  }

  /** `main`: a claim looks at the local file, without a pull, before it calls `claim`. */
  function Start(cl: Clone, command: Command, since: nat): Clone {
    match command
    case ClaimStream(stream, orch, dryRun) =>
      (match Scheduler.FindOpenTask(stream, cl.work)
       case None => cl
       case Some(id) => Enter(cl, Claim(id, orch, dryRun, true), since))
    case ClaimTask(task, orch, dryRun) =>
      if task !in cl.work || cl.work[task].Falsy() then cl
      else Enter(cl, Claim(task, orch, dryRun, false), since)
    case FinalizeTask(task, orch, done, message, maxRetries) =>
      Enter(cl, Finalize(task, orch, done, message, maxRetries), since)
  }

  function Pull(cl: Clone, remote: seq<Commit>, chance: Chance): Clone
    requires cl.control.Running?
  {
    if !chance.netUp || !cl.Clean() || !(cl.head <= remote) then
      cl.(control := Returned(cl.control.call, PullFailed))
    else
      cl.(head := remote, index := Tree(remote), work := Tree(remote),
          control := cl.control.(phase := AtEdit))
  }

  function Edit(cl: Clone, chance: Chance): Clone
    requires cl.control.Running?
  {
    var call := cl.control.call;
    if call.task !in cl.work || cl.work[call.task].Falsy() then
      cl.(control := Returned(call, Missing))
    else if call.Claim? && !cl.work[call.task].Available() then
      cl.(control := Returned(call, Unavailable))
    else if call.Claim? && call.dryRun then
      cl.(control := Returned(call, DryRun))
    else
      cl.(work := Apply(call, chance.now, cl.work),
          control := cl.control.(stamp := chance.now, phase := AtStage))
  }

  /** `git commit` also fails when there is nothing to commit. */
  function CommitIndex(id: nat, cl: Clone, chance: Chance): Clone
    requires cl.control.Running?
  {
    if !chance.hooksPass || cl.index == Tree(cl.head) then
      cl.(control := cl.control.(phase := AtRestore))
    else
      cl.(head := cl.head + [Commit(cl.index, id, cl.made, cl.control.call, cl.control.stamp, cl.seen)],
          made := cl.made + 1,
          control := cl.control.(phase := AtPush))
  }

  /** A push is accepted only as a fast-forward of the remote branch.  The command does not tell
      a rejected push from one that found no server. */
  function Push(cl: Clone, remote: seq<Commit>, chance: Chance): (r: (Clone, seq<Commit>))
    requires cl.control.Running?
  {
    if chance.netUp && remote <= cl.head then
      (cl.(control := Returned(cl.control.call, Won)), cl.head)
    else
      (cl.(unreached := cl.unreached + if chance.netUp then 0 else 1, control := cl.control.(phase := AtReset)), remote)
  }

  /** `git reset HEAD~1`: branch and index move back, the working file stays. */
  function Reset(cl: Clone): Clone
    requires cl.control.Running?
  {
    var back := if cl.head == [] then [] else cl.head[..|cl.head| - 1];
    cl.(head := back, index := Tree(back), control := cl.control.(phase := AtDiscard))
  }

  /** `git checkout --` copies the index into the working file; then the next attempt. */
  function Discard(cl: Clone): Clone
    requires cl.control.Running?
  {
    var call, attempt := cl.control.call, cl.control.attempt;
    var restored := cl.(work := cl.index);
    if attempt < call.Attempts() then
      restored.(slept := cl.slept + Pow2(attempt), control := Running(call, attempt + 1, cl.control.stamp, AtPull))
    else
      restored.(control := Returned(call, Exhausted))
  }

  /** One step of the command that clone `id` is running. */
  function Advance(id: nat, cl: Clone, remote: seq<Commit>, chance: Chance): (r: (Clone, seq<Commit>)) {
    match cl.control
    case Running(call, attempt, stamp, phase) =>
      (match phase
       case AtPull => (Pull(cl, remote, chance), remote)
       case AtEdit => (Edit(cl, chance), remote)
       case AtStage => (cl.(index := cl.work, control := cl.control.(phase := AtCommit)), remote)
       case AtCommit => (CommitIndex(id, cl, chance), remote)
       case AtRestore => (cl.(work := cl.index, control := Returned(call, CommitFailed)), remote)
       case AtPush => Push(cl, remote, chance)
       case AtReset => (Reset(cl), remote)
       case AtDiscard => (Discard(cl), remote))
    case _ => (cl, remote)
  }

  function Step(w: World, e: Event): World {
    if e.clone >= |w.clones| then w
    else
      var cl := w.clones[e.clone];
      match e
      case Begin(id, command) =>
        if cl.control.Running? then w
        else w.(clones := w.clones[id := Start(cl, command, |w.remote|)])
      case Tick(id, chance) =>
        var (moved, remote) := Advance(id, cl, w.remote, chance);
        World(remote, w.clones[id := moved])
  }

  function Run(w: World, events: seq<Event>): World
    decreases |events|
  {
    if events == [] then w else Run(Step(w, events[0]), events[1..])
  }

  /** Fresh clones of the remote, each taken at some earlier moment. */
  predicate Initial(w: World) {
    && w.remote != []
    && (forall commit <- w.remote :: commit.author >= |w.clones|)
    && forall c <- w.clones ::
      c.head != [] && c.head <= w.remote && c.Clean() && c.control.Idle? && c.made == 0
  }
}
