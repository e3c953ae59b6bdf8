/** Safety of the git-push protocol over every interleaving: the remote branch behaves like
    one atomic table, each task is claimed at most once, and tasks chosen by the scheduler
    are claimed after their dependencies. */
module ProtocolSafety {
  import opened Options
  import opened TaskTable
  import opened Protocol

  // ---- Invariant -------------------------------------------------------------------------

  /** `commit` is one atomic, enabled edit of the table `before`. */
  predicate Lawful(commit: Commit, before: Table) {
    Enabled(commit.call, before) && commit.tree == Apply(commit.call, commit.stamp, before)
  }

  predicate Behind(cl: Clone, remote: seq<Commit>) {
    cl.head != [] && cl.head <= remote
  }

  function Parent(cl: Clone): seq<Commit>
    requires cl.head != []
  {
    cl.head[..|cl.head| - 1]
  }

  /** One unpublished commit of `call` sits on top of a prefix of the remote. */
  predicate Ahead(id: nat, cl: Clone, remote: seq<Commit>, call: Call) {
    && |cl.head| >= 2
    && Parent(cl) <= remote
    && var tip := cl.head[|cl.head| - 1];
    && tip.author == id && tip.serial + 1 == cl.made && tip.call == call && tip.seen == cl.seen
    && Lawful(tip, Tree(Parent(cl)))
    && cl.index == cl.work == tip.tree
  }

  predicate Phased(id: nat, cl: Clone, remote: seq<Commit>) {
    match cl.control
    case Running(call, attempt, stamp, phase) =>
      && 1 <= attempt <= call.Attempts()
      && (match phase
          case AtPull => Behind(cl, remote)
          case AtEdit => Behind(cl, remote) && cl.Clean()
          case AtStage =>
            && Behind(cl, remote) && Enabled(call, Tree(cl.head))
            && cl.index == Tree(cl.head) && cl.work == Apply(call, stamp, cl.index)
          case AtCommit => Staged(cl, remote, call, stamp)
          case AtRestore => Staged(cl, remote, call, stamp)
          case AtPush => Ahead(id, cl, remote, call)
          case AtReset => Ahead(id, cl, remote, call)
          case AtDiscard => Behind(cl, remote) && cl.index == Tree(cl.head))
    case _ => Behind(cl, remote)
  }

  predicate Staged(cl: Clone, remote: seq<Commit>, call: Call, stamp: nat) {
    && Behind(cl, remote) && Enabled(call, Tree(cl.head))
    && cl.work == cl.index == Apply(call, stamp, Tree(cl.head))
  }

  predicate Unpublished(cl: Clone) {
    cl.control.Running? && (cl.control.phase.AtPush? || cl.control.phase.AtReset?)
  }

  /** Serial numbers on the remote are used up; the unpublished commit's is not among them. */
  predicate Fresh(id: nat, cl: Clone, remote: seq<Commit>) {
    forall c <- remote :: c.author == id ==> c.serial + (if Unpublished(cl) then 1 else 0) < cl.made
  }

  predicate CloneInv(id: nat, cl: Clone, remote: seq<Commit>) {
    Phased(id, cl, remote) && Fresh(id, cl, remote)
  }

  predicate Inv(w: World) {
    && w.remote != []
    && forall id :: 0 <= id < |w.clones| ==> CloneInv(id, w.clones[id], w.remote)
  }

  lemma InitialInv(w: World)
    requires Initial(w)
    ensures Inv(w)
  {
    forall id | 0 <= id < |w.clones| ensures CloneInv(id, w.clones[id], w.remote) {
      assert w.clones[id] in w.clones;
    }
  }

  // ---- One step --------------------------------------------------------------------------

  /** What the atomic table sees of a step by clone `id`: nothing, or one atomic edit. */
  predicate Effect(id: nat, before: Control, after: Control, remote: seq<Commit>, remote': seq<Commit>) {
    || remote' == remote
    || (&& |remote'| == |remote| + 1 && remote <= remote'
        && var commit := remote'[|remote|];
        && commit.author == id && Lawful(commit, Tree(remote))
        && before.Running? && before.phase.AtPush? && before.call == commit.call
        && after == Returned(commit.call, Won))
  }

  lemma PushKeeps(id: nat, cl: Clone, remote: seq<Commit>, chance: Chance)
    requires remote != [] && CloneInv(id, cl, remote)
    requires cl.control.Running? && cl.control.phase.AtPush?
    ensures var (cl', remote') := Push(cl, remote, chance);
      && CloneInv(id, cl', remote')
      && Effect(id, cl.control, cl'.control, remote, remote')
      && (cl'.control == Returned(cl.control.call, Won) <==> remote' != remote)
      && (remote' != remote <==> chance.netUp && remote == Parent(cl))
  {
    var tip := cl.head[|cl.head| - 1];
    assert cl.head == Parent(cl) + [tip];
    assert Parent(cl) <= cl.head;
    assert tip in cl.head && tip !in remote;
    if remote <= cl.head {
      assert remote == Parent(cl);
    }
  }

  lemma CommitKeeps(id: nat, cl: Clone, remote: seq<Commit>, chance: Chance)
    requires remote != [] && CloneInv(id, cl, remote)
    requires cl.control.Running? && cl.control.phase.AtCommit?
    ensures CloneInv(id, CommitIndex(id, cl, chance), remote)
  {
    var commit := Commit(cl.index, id, cl.made, cl.control.call, cl.control.stamp, cl.seen);
    assert Parent(cl.(head := cl.head + [commit])) == cl.head;
  }

  lemma ResetKeeps(id: nat, cl: Clone, remote: seq<Commit>)
    requires remote != [] && CloneInv(id, cl, remote)
    requires cl.control.Running? && cl.control.phase.AtReset?
    ensures CloneInv(id, Reset(cl), remote)
  {
    assert Parent(cl) <= remote;
  }

  lemma AdvanceKeeps(id: nat, cl: Clone, remote: seq<Commit>, chance: Chance)
    requires remote != [] && CloneInv(id, cl, remote)
    ensures var (cl', remote') := Advance(id, cl, remote, chance);
      && CloneInv(id, cl', remote')
      && Effect(id, cl.control, cl'.control, remote, remote')
  {
    if cl.control.Running? {
      match cl.control.phase
      case AtPush => PushKeeps(id, cl, remote, chance);
      case AtCommit => CommitKeeps(id, cl, remote, chance);
      case AtReset => ResetKeeps(id, cl, remote);
      case _ =>
    }
  }

  lemma StartKeeps(id: nat, cl: Clone, remote: seq<Commit>, command: Command)
    requires !cl.control.Running? && CloneInv(id, cl, remote)
    ensures CloneInv(id, Start(cl, command, |remote|), remote)
  {
  }

  lemma OthersPush(id: nat, cl: Clone, remote: seq<Commit>, remote': seq<Commit>)
    requires CloneInv(id, cl, remote)
    requires remote <= remote' && forall k :: |remote| <= k < |remote'| ==> remote'[k].author != id
    ensures CloneInv(id, cl, remote')
  {
    forall c <- remote' | c.author == id ensures c in remote {
      var k :| 0 <= k < |remote'| && remote'[k] == c;
      assert remote'[k] == remote[k];
    }
  }

  lemma StepKeeps(w: World, e: Event)
    requires Inv(w)
    ensures Inv(Step(w, e))
    ensures e.clone < |w.clones| ==>
      Effect(e.clone, w.clones[e.clone].control, Step(w, e).clones[e.clone].control, w.remote, Step(w, e).remote)
    ensures e.clone >= |w.clones| ==> Step(w, e) == w
    ensures |Step(w, e).clones| == |w.clones|
  {
    if e.clone < |w.clones| {
      var cl := w.clones[e.clone];
      if e.Begin? {
        if !cl.control.Running? { StartKeeps(e.clone, cl, w.remote, e.command); }
      } else {
        AdvanceKeeps(e.clone, cl, w.remote, e.chance);
        var w' := Step(w, e);
        forall id | 0 <= id < |w'.clones| ensures CloneInv(id, w'.clones[id], w'.remote) {
          if id != e.clone { OthersPush(id, w.clones[id], w.remote, w'.remote); }
        }
      }
    }
  }

  // ---- Whole runs ------------------------------------------------------------------------

  /** The commits are executable one after another on an atomic table. */
  predicate Legal(table: Table, commits: seq<Commit>)
    decreases |commits|
  {
    commits == [] || (Lawful(commits[0], table) && Legal(commits[0].tree, commits[1..]))
  }

  /** Some step of the run is the accepted push of `commit`: until then it was not on the
      remote, and from then on the author's command reports success. */
  ghost predicate PushedBy(w: World, events: seq<Event>, commit: Commit)
    decreases |events|
  {
    events != [] &&
    (Lands(w, events[0], commit) || PushedBy(Step(w, events[0]), events[1..], commit))
  }

  predicate Lands(w: World, e: Event, commit: Commit) {
    && e.Tick? && e.clone == commit.author && e.clone < |w.clones|
    && var w' := Step(w, e);
    && w'.remote == w.remote + [commit]
    && w.clones[e.clone].control.Running?
    && w.clones[e.clone].control.call == commit.call
    && w'.clones[e.clone].control == Returned(commit.call, Won)
  }

  /** The simulation: along every interleaving the remote only grows, the commits it gains
      are a legal sequence of atomic edits of the table it had, and each of them landed in
      one step of its author's command, which then returned success. */
  lemma {:induction false} Simulation(w: World, events: seq<Event>)
    requires Inv(w)
    ensures Inv(Run(w, events)) && w.remote <= Run(w, events).remote
    ensures Legal(Tree(w.remote), Run(w, events).remote[|w.remote|..])
    ensures forall c <- Run(w, events).remote[|w.remote|..] :: PushedBy(w, events, c)
    decreases |events|
  {
    hide Inv, Lawful, Advance, Start;
    if events != [] {
      var w1, w2 := Step(w, events[0]), Run(w, events);
      StepKeeps(w, events[0]);
      Simulation(w1, events[1..]);
      var gained, tail := w2.remote[|w.remote|..], w2.remote[|w1.remote|..];
      if w1.remote != w.remote {
        var commit := w1.remote[|w.remote|];
        assert w1.remote == w.remote + [commit];
        assert Tree(w1.remote) == commit.tree;
        assert gained == [commit] + tail;
        assert gained[1..] == tail;
        assert Lands(w, events[0], commit);
      }
    }
  }

  /** The commits that a run adds to the remote. */
  function Gained(w: World, events: seq<Event>): seq<Commit>
    requires Inv(w)
  {
    Simulation(w, events);
    Run(w, events).remote[|w.remote|..]
  }

  // ---- Reading off the history --------------------------------------------------------------

  /** The table before commit `k` of a history that began with `table`. */
  function TableBefore(table: Table, commits: seq<Commit>, k: nat): Table
    requires k <= |commits|
  {
    if k == 0 then table else commits[k - 1].tree
  }

  lemma {:induction false} LegalAt(table: Table, commits: seq<Commit>, k: nat)
    requires Legal(table, commits) && k < |commits|
    ensures Lawful(commits[k], TableBefore(table, commits, k))
    decreases k
  {
    if k > 0 { LegalAt(commits[0].tree, commits[1..], k - 1); }
  }

  /** No lost update: a commit changes the record its command addresses and no other. */
  lemma NoLostUpdate(table: Table, commits: seq<Commit>, k: nat)
    requires Legal(table, commits) && k < |commits|
    ensures var before := TableBefore(table, commits, k);
      && commits[k].call.task in before
      && commits[k].tree.Keys == before.Keys
      && (forall id <- before :: id != commits[k].call.task ==> commits[k].tree[id] == before[id])
      && Wrote(commits[k].call, commits[k].stamp, before[commits[k].call.task], commits[k].tree[commits[k].call.task])
      && (commits[k].call.Claim? ==> before[commits[k].call.task].status in {Some(Open), Some(Ready)})
  {
    LegalAt(table, commits, k);
  }

  /** Once a task has left `open`/`ready`, no command brings it back. */
  lemma {:induction false} TakenForGood(table: Table, commits: seq<Commit>, i: nat, j: nat, id: TaskId)
    requires Legal(table, commits) && i <= j <= |commits|
    requires id in TableBefore(table, commits, i)
    requires TableBefore(table, commits, i)[id].status !in {Some(Open), Some(Ready)}
    ensures id in TableBefore(table, commits, j)
    ensures TableBefore(table, commits, j)[id].status !in {Some(Open), Some(Ready)}
    decreases j
  {
    if i < j {
      TakenForGood(table, commits, i, j - 1, id);
      NoLostUpdate(table, commits, j - 1);
    }
  }

  /** Mutual exclusion over whole runs: two different commits on the remote never claim the
      same task, and the record keeps the name of the one orchestrator that did. */
  lemma ClaimedAtMostOnce(w: World, events: seq<Event>, i: nat, j: nat)
    requires Inv(w)
    requires var gained := Gained(w, events);
      i < |gained| && j < |gained| && gained[i].call.Claim? && gained[j].call.Claim?
      && gained[i].call.task == gained[j].call.task
    ensures i == j
  {
    Simulation(w, events);
    var table, gained := Tree(w.remote), Gained(w, events);
    var lo, hi := if i < j then i else j, if i < j then j else i;
    if lo < hi {
      NoLostUpdate(table, gained, lo);
      TakenForGood(table, gained, lo + 1, hi, gained[lo].call.task);
      LegalAt(table, gained, hi);
    }
  }

  lemma {:induction false} ClaimantStays(table: Table, commits: seq<Commit>, i: nat, j: nat)
    requires Legal(table, commits) && i < j <= |commits| && commits[i].call.Claim?
    ensures var id := commits[i].call.task;
      id in TableBefore(table, commits, j) &&
      TableBefore(table, commits, j)[id].claimedBy == Some(commits[i].call.orch)
    decreases j
  {
    NoLostUpdate(table, commits, j - 1);
    if i < j - 1 {
      ClaimantStays(table, commits, i, j - 1);
      TakenForGood(table, commits, i + 1, j - 1, commits[i].call.task) by { NoLostUpdate(table, commits, i); }
      LegalAt(table, commits, j - 1);
    }
  }

  /** A claim that returns success is the claim the shared table remembers, at that moment
      and for the rest of the run. */
  lemma WinnerIsRecorded(w: World, e: Event, later: seq<Event>)
    requires Inv(w) && e.Tick? && e.clone < |w.clones|
    requires w.clones[e.clone].control.Running? && w.clones[e.clone].control.call.Claim?
    requires Step(w, e).clones[e.clone].control == Returned(w.clones[e.clone].control.call, Won)
    ensures var call, table := w.clones[e.clone].control.call, Tree(Run(Step(w, e), later).remote);
      && call.task in Tree(w.remote) && Tree(w.remote)[call.task].status in {Some(Open), Some(Ready)}
      && call.task in table && table[call.task].claimedBy == Some(call.orch)
  {
    StepKeeps(w, e);
    var call := w.clones[e.clone].control.call;
    var w1 := Step(w, e);
    WonOnlyByPush(w, e);
    var commit := w1.remote[|w.remote|];
    Simulation(w, [e] + later);
    assert ([e] + later)[0] == e && ([e] + later)[1..] == later;
    var gained := Gained(w, [e] + later);
    Simulation(w1, later);
    assert gained[0] == commit;
    ClaimantStays(Tree(w.remote), gained, 0, |gained|);
    LegalAt(Tree(w.remote), gained, 0);
    assert Tree(Run(w1, later).remote) == TableBefore(Tree(w.remote), gained, |gained|);
  }

  lemma WonOnlyByPush(w: World, e: Event)
    requires Inv(w) && e.Tick? && e.clone < |w.clones| && w.clones[e.clone].control.Running?
    requires Step(w, e).clones[e.clone].control == Returned(w.clones[e.clone].control.call, Won)
    ensures w.clones[e.clone].control.phase.AtPush? && Step(w, e).remote != w.remote
  {
    if w.clones[e.clone].control.phase.AtPush? { PushKeeps(e.clone, w.clones[e.clone], w.remote, e.chance); }
  }
}
