/** Dependencies under stale selection.  `claim --stream` picks a task from the local file
    before it pulls, and after the pull only the status is looked at again.  What this
    guarantees about `blocked_by` at the moment the claim lands, and what it does not. */
module ProtocolOrder {
  import opened Options
  import opened TaskTable
  import opened Protocol
  import opened ProtocolSafety
  import Scheduler

  predicate Satisfied(id: TaskId, table: Table) {
    id in table && IsUnblocked(id, table)
  }

  /** `find_open_task` returns the task on this table, for some stream. */
  ghost predicate Offered(id: TaskId, table: Table) {
    exists stream: string :: Scheduler.FindOpenTask(stream, table) == Some(id)
  }

  lemma OfferedSatisfied(id: TaskId, table: Table)
    requires Offered(id, table)
    ensures Satisfied(id, table)
  {
    var stream: string :| Scheduler.FindOpenTask(stream, table) == Some(id);
    assert Scheduler.IsCandidate(stream, table, id);
  }

  /** The last of the first `seen` commits of the branch is one on which the task is offered. */
  ghost predicate SelectedOn(id: TaskId, branch: seq<Commit>, seen: nat) {
    1 <= seen <= |branch| && Offered(id, branch[seen - 1].tree)
  }

  /** A running scheduled claim was selected on the commit at which its branch then ended, unless
      the clone is dirty and so will not get past its pull. */
  ghost predicate Chosen(cl: Clone) {
    cl.control.Running? && cl.control.call.Claim? && cl.control.call.selected ==>
      match cl.control.phase
      case AtPull => cl.Clean() ==> SelectedOn(cl.control.call.task, cl.head, cl.seen)
      case AtPush => cl.head != [] && SelectedOn(cl.control.call.task, Parent(cl), cl.seen)
      case AtReset => cl.head != [] && SelectedOn(cl.control.call.task, Parent(cl), cl.seen)
      case _ => SelectedOn(cl.control.call.task, cl.head, cl.seen)
  }

  lemma SelectedOnLonger(id: TaskId, branch: seq<Commit>, longer: seq<Commit>, seen: nat)
    requires SelectedOn(id, branch, seen) && branch <= longer
    ensures SelectedOn(id, longer, seen)
  {
    assert longer[seen - 1] == branch[seen - 1];
  }

  /** What a step does to the branch of a running claim. */
  lemma AdvanceBranch(id: nat, cl: Clone, remote: seq<Commit>, chance: Chance)
    requires remote != [] && CloneInv(id, cl, remote) && cl.control.Running?
    ensures var cl' := Advance(id, cl, remote, chance).0;
      && cl'.seen == cl.seen && cl'.head != []
      && (cl'.control.Running? ==> cl'.control.call == cl.control.call)
      && match cl.control.phase
         case AtPull => cl'.control.Running? ==> cl.Clean() && cl.head <= cl'.head && cl'.control.phase.AtEdit?
         case AtCommit =>
           && cl'.control.Running?
           && (cl'.control.phase.AtRestore? || (cl'.control.phase.AtPush? && Parent(cl') == cl.head))
           && (cl'.control.phase.AtRestore? ==> cl'.head == cl.head)
         case AtPush => cl'.control.Running? ==> cl'.head == cl.head && cl'.control.phase.AtReset?
         case AtReset => cl'.head == Parent(cl) && cl'.control.Running? && cl'.control.phase.AtDiscard?
         case _ =>
           && cl'.head == cl.head
           && (cl'.control.Running? ==> !cl'.control.phase.AtPush? && !cl'.control.phase.AtReset?)
  {
    hide Apply, Enabled, Lawful, Fresh;
    if cl.control.phase.AtCommit? {
      var commit := Commit(cl.index, id, cl.made, cl.control.call, cl.control.stamp, cl.seen);
      assert (cl.head + [commit])[..|cl.head|] == cl.head;
    }
  }

  lemma AdvanceKeepsChosen(id: nat, cl: Clone, remote: seq<Commit>, chance: Chance)
    requires remote != [] && CloneInv(id, cl, remote) && Chosen(cl)
    ensures Chosen(Advance(id, cl, remote, chance).0)
  {
    if cl.control.Running? && cl.control.call.Claim? && cl.control.call.selected {
      var cl' := Advance(id, cl, remote, chance).0;
      AdvanceBranch(id, cl, remote, chance);
      hide Advance, CloneInv, SelectedOn;
      if cl.control.phase.AtPull? && cl'.control.Running? {
        SelectedOnLonger(cl.control.call.task, cl.head, cl'.head, cl.seen);
      }
    }
  }

  lemma StartChooses(cl: Clone, command: Command, since: nat)
    requires !cl.control.Running? && cl.head != []
    ensures Chosen(Start(cl, command, since))
  {
    if command.ClaimStream? && cl.Clean() {
      assert cl.work == cl.head[|cl.head| - 1].tree;
      match Scheduler.FindOpenTask(command.stream, cl.work)
      case None =>
      case Some(id) => assert Offered(id, cl.work);
    }
  }

  lemma StepKeepsChosen(w: World, e: Event)
    requires Inv(w) && forall id :: 0 <= id < |w.clones| ==> Chosen(w.clones[id])
    ensures forall id :: 0 <= id < |w.clones| ==> Chosen(Step(w, e).clones[id])
  {
    if e.clone < |w.clones| {
      var cl := w.clones[e.clone];
      assert CloneInv(e.clone, cl, w.remote);
      if e.Begin? {
        if !cl.control.Running? { StartChooses(cl, e.command, |w.remote|); }
      } else {
        AdvanceKeepsChosen(e.clone, cl, w.remote, e.chance);
      }
    }
  }

  /** The commit that a step puts on the remote, if it is a scheduled claim. */
  lemma LandsSelected(w: World, e: Event)
    requires Inv(w) && forall id :: 0 <= id < |w.clones| ==> Chosen(w.clones[id])
    requires |Step(w, e).remote| > |w.remote|
    ensures |Step(w, e).remote| == |w.remote| + 1 && w.remote <= Step(w, e).remote
    ensures var c := Step(w, e).remote[|w.remote|];
      c.call.Claim? && c.call.selected ==> SelectedOn(c.call.task, w.remote, c.seen)
  {
    StepKeeps(w, e);
    var cl := w.clones[e.clone];
    assert CloneInv(e.clone, cl, w.remote) && Chosen(cl);
    PushKeeps(e.clone, cl, w.remote, e.chance);
  }

  /** Every scheduled claim on the remote was selected on an earlier commit of the same history,
      the one at which the author's branch ended when the command began: there the scheduler
      offers the task. */
  lemma {:induction false} SelectedOnHistory(w: World, events: seq<Event>, k: nat)
    requires Inv(w) && forall id :: 0 <= id < |w.clones| ==> Chosen(w.clones[id])
    requires |w.remote| <= k < |Run(w, events).remote|
    requires var call := Run(w, events).remote[k].call; call.Claim? && call.selected
    ensures var c := Run(w, events).remote[k]; SelectedOn(c.call.task, Run(w, events).remote[..k], c.seen)
    decreases |events|
  {
    if events != [] {
      var w1, w2 := Step(w, events[0]), Run(w, events);
      StepKeeps(w, events[0]);
      StepKeepsChosen(w, events[0]);
      Simulation(w1, events[1..]);
      if k < |w1.remote| {
        LandsSelected(w, events[0]);
        assert w2.remote[k] == w1.remote[k] && w2.remote[..k] == w.remote;
      } else {
        SelectedOnHistory(w1, events[1..], k);
      }
    }
  }

  // ---- From the selection to the landing ----------------------------------------------------

  predicate Verdict(c: Commit, d: TaskId) {
    c.call.Finalize? && c.call.task == d
  }

  /** Whether the verdicts on `d` among the commits leave it done, if it was done before. */
  predicate LeftDone(commits: seq<Commit>, d: TaskId) {
    if commits == [] then true
    else
      var c := commits[|commits| - 1];
      if Verdict(c, d) then c.call.done else LeftDone(commits[..|commits| - 1], d)
  }

  lemma {:induction false} DependenciesFixed(table: Table, commits: seq<Commit>, k: nat)
    requires Legal(table, commits) && k <= |commits|
    ensures TableBefore(table, commits, k).Keys == table.Keys
    ensures forall id <- table ::
      TableBefore(table, commits, k)[id].Dependencies() == table[id].Dependencies()
    decreases k
  {
    if k > 0 {
      DependenciesFixed(table, commits, k - 1);
      NoLostUpdate(table, commits, k - 1);
    }
  }

  /** A done task is still done exactly when the last verdict on it, if any, was `done`. */
  lemma {:induction false} LastVerdictDecides(table: Table, commits: seq<Commit>, k: nat, d: TaskId)
    requires Legal(table, commits) && k <= |commits|
    requires d in table && table[d].IsDone()
    ensures d in TableBefore(table, commits, k)
    ensures TableBefore(table, commits, k)[d].IsDone() <==> LeftDone(commits[..k], d)
    ensures !TableBefore(table, commits, k)[d].Available()
    decreases k
  {
    TakenForGood(table, commits, 0, k, d);
    if k > 0 {
      LastVerdictDecides(table, commits, k - 1, d);
      NoLostUpdate(table, commits, k - 1);
      LegalAt(table, commits, k - 1);
      assert commits[..k][..k - 1] == commits[..k - 1];
    }
  }

  /** A shared history all of which was written by the two commands. */
  predicate Chronicle(remote: seq<Commit>) {
    remote != [] && Legal(remote[0].tree, remote[1..])
  }

  lemma {:induction false} LegalSuffix(table: Table, commits: seq<Commit>, i: nat)
    requires Legal(table, commits) && i <= |commits|
    ensures Legal(TableBefore(table, commits, i), commits[i..])
    decreases i
  {
    if i > 0 {
      LegalSuffix(commits[0].tree, commits[1..], i - 1);
      assert commits[1..][i - 1..] == commits[i..];
      if i > 1 { assert commits[1..][i - 2] == commits[i - 1]; }
    } else {
      assert commits[0..] == commits;
    }
  }

  lemma {:induction false} LegalConcat(table: Table, a: seq<Commit>, b: seq<Commit>)
    requires Legal(table, a) && Legal(TableBefore(table, a, |a|), b)
    ensures Legal(table, a + b)
    decreases |a|
  {
    if a == [] {
      assert a + b == b;
    } else {
      if |a| > 1 { assert a[1..][|a| - 2] == a[|a| - 1]; }
      LegalConcat(a[0].tree, a[1..], b);
      assert (a + b)[1..] == a[1..] + b;
    }
  }

  lemma ChronicleGrows(w: World, events: seq<Event>)
    requires Inv(w) && Chronicle(w.remote)
    ensures Chronicle(Run(w, events).remote)
  {
    hide Inv, Run, Lawful, PushedBy;
    Simulation(w, events);
    var r, r' := w.remote, Run(w, events).remote;
    assert r[1..] == [] || Tree(r[1..]) == Tree(r);
    assert r' == r + r'[|r|..];
    assert r'[1..] == r[1..] + r'[|r|..];
    LegalConcat(r[0].tree, r[1..], r'[|r|..]);
  }

  /** A chronicle read from one of its commits. */
  lemma ChronicleFrom(h: seq<Commit>, b: nat, k: nat)
    requires Chronicle(h) && b < k <= |h|
    ensures Legal(h[b].tree, h[b + 1..])
    ensures TableBefore(h[b].tree, h[b + 1..], k - 1 - b) == h[k - 1].tree
  {
    LegalSuffix(h[0].tree, h[1..], b);
    assert h[1..][b..] == h[b + 1..];
    if b > 0 { assert h[1..][b - 1] == h[b]; }
  }

  /** From any commit `b` on which the dependencies are done: they are done at commit `k` exactly if
      the last verdict on each of them since `b` is `done`. */
  lemma DoneSince(h: seq<Commit>, b: nat, k: nat, id: TaskId)
    requires Chronicle(h) && b < k <= |h| && Satisfied(id, h[b].tree)
    ensures id in h[k - 1].tree
    ensures IsUnblocked(id, h[k - 1].tree) <==>
      forall d <- h[b].tree[id].Dependencies() :: LeftDone(h[b + 1..k], d)
  {
    hide Chronicle, Legal, TableBefore, LeftDone, Lawful;
    ChronicleFrom(h, b, k);
    var commits, n := h[b + 1..], k - 1 - b;
    assert commits[..n] == h[b + 1..k];
    DependenciesFixed(h[b].tree, commits, n);
    forall d <- h[b].tree[id].Dependencies()
      ensures d in h[k - 1].tree && (h[k - 1].tree[d].IsDone() <==> LeftDone(h[b + 1..k], d))
    {
      LastVerdictDecides(h[b].tree, commits, n, d);
    }
  }

  /** Exactly when a scheduled claim lands with all dependencies done: on the commit its selection
      read the scheduler offered the task, and for every dependency the last verdict since then
      is `done`. */
  lemma DoneAtLanding(w: World, events: seq<Event>, k: nat)
    requires Inv(w) && Chronicle(w.remote)
    requires forall id :: 0 <= id < |w.clones| ==> Chosen(w.clones[id])
    requires |w.remote| <= k < |Run(w, events).remote|
    requires var call := Run(w, events).remote[k].call; call.Claim? && call.selected
    ensures var h := Run(w, events).remote; var id, seen := h[k].call.task, h[k].seen;
      && 1 <= seen <= k && Offered(id, h[seen - 1].tree) && Satisfied(id, h[seen - 1].tree)
      && id in h[k - 1].tree
      && (IsUnblocked(id, h[k - 1].tree) <==>
          forall d <- h[seen - 1].tree[id].Dependencies() :: LeftDone(h[seen..k], d))
  {
    hide Inv, Run, IsUnblocked, LeftDone, Offered;
    SelectedOnHistory(w, events, k);
    ChronicleGrows(w, events);
    var h := Run(w, events).remote;
    assert h[..k][h[k].seen - 1] == h[h[k].seen - 1];
    OfferedSatisfied(h[k].call.task, h[h[k].seen - 1].tree);
    DoneSince(h, h[k].seen - 1, k, h[k].call.task);
  }

  /** No command turns a done task into a blocked one. */
  predicate NothingReopened(h: seq<Commit>) {
    forall k :: 1 <= k < |h| ==> !Reopens(h[k - 1].tree, h[k])
  }

  predicate Reopens(before: Table, c: Commit) {
    && c.call.Finalize? && !c.call.done
    && c.call.task in before && before[c.call.task].IsDone()
  }

  lemma {:induction false} StaysSatisfied(h: seq<Commit>, i: nat, j: nat, id: TaskId)
    requires Chronicle(h) && NothingReopened(h) && i <= j < |h| && Satisfied(id, h[i].tree)
    ensures Satisfied(id, h[j].tree)
    decreases j
  {
    if i < j {
      StaysSatisfied(h, i, j - 1, id);
      NoLostUpdate(h[0].tree, h[1..], j - 1);
      LegalAt(h[0].tree, h[1..], j - 1);
      if j > 1 { assert h[1..][j - 2] == h[j - 1]; }
      assert h[1..][j - 1] == h[j] && !Reopens(h[j - 1].tree, h[j]);
    }
  }

  /** Topological order: if nothing done is ever turned into blocked, every scheduled claim
      lands on a table in which all its dependencies are done, however old the file was from
      which it was selected. */
  lemma DependenciesFirst(w: World, events: seq<Event>, k: nat)
    requires Initial(w) && Chronicle(w.remote) && NothingReopened(Run(w, events).remote)
    requires |w.remote| <= k < |Run(w, events).remote|
    requires var call := Run(w, events).remote[k].call; call.Claim? && call.selected
    ensures k > 0 && Satisfied(Run(w, events).remote[k].call.task, Run(w, events).remote[k - 1].tree)
  {
    InitialInv(w);
    forall id | 0 <= id < |w.clones| ensures Chosen(w.clones[id]) {
      assert w.clones[id] in w.clones;
    }
    SelectedOnHistory(w, events, k);
    ChronicleGrows(w, events);
    var h := Run(w, events).remote;
    var b := h[k].seen - 1;
    assert h[..k][b] == h[b];
    OfferedSatisfied(h[k].call.task, h[b].tree);
    StaysSatisfied(h, b, k - 1, h[k].call.task);
  }

  // ---- The condition is needed -------------------------------------------------------------

  lemma {:induction false} RunAppend(w: World, events: seq<Event>, e: Event)
    ensures Run(w, events + [e]) == Step(Run(w, events), e)
    decreases |events|
  {
    if events == [] {
      assert (events + [e])[1..] == [];
    } else {
      RunAppend(Step(w, events[0]), events[1..], e);
      assert (events + [e])[1..] == events[1..] + [e];
    }
  }

  lemma {:induction false} InvAlong(w: World, events: seq<Event>, more: seq<Event>)
    requires Inv(Run(w, events))
    ensures Inv(Run(w, events + more))
    decreases |more|
  {
    if more == [] {
      assert events + more == events;
    } else {
      StepKeeps(Run(w, events), more[0]);
      RunAppend(w, events, more[0]);
      InvAlong(w, events + [more[0]], more[1..]);
      assert events + more == events + [more[0]] + more[1..];
    }
  }

  const CALM := Chance(true, true, 0)

  function Put(w: World, id: nat, cl: Clone): World
    requires id < |w.clones|
  {
    w.(clones := w.clones[id := cl])
  }

  lemma TickOnce(w: World, events: seq<Event>, w1: World, id: nat, cl: Clone)
    requires id < |w1.clones| && Run(w, events) == Put(w1, id, cl)
    requires Advance(id, cl, w1.remote, CALM).1 == w1.remote
    ensures Run(w, events + [Tick(id, CALM)]) == Put(w1, id, Advance(id, cl, w1.remote, CALM).0)
  {
    RunAppend(w, events, Tick(id, CALM));
    assert Put(w1, id, cl).clones[id := Advance(id, cl, w1.remote, CALM).0]
        == w1.clones[id := Advance(id, cl, w1.remote, CALM).0];
  }

  /** The clone's side of an undisturbed attempt, up to the push. */
  lemma AttemptReachesPush(id: nat, c0: Clone, remote: seq<Commit>) returns (c1: Clone, c2: Clone, c3: Clone, c4: Clone)
    requires remote != [] && c0.head <= remote && c0.Clean()
    requires c0.control.Running? && c0.control.phase.AtPull?
    requires Enabled(c0.control.call, Tree(remote)) && Apply(c0.control.call, 0, Tree(remote)) != Tree(remote)
    ensures Advance(id, c0, remote, CALM) == (c1, remote) && Advance(id, c1, remote, CALM) == (c2, remote)
    ensures Advance(id, c2, remote, CALM) == (c3, remote) && Advance(id, c3, remote, CALM) == (c4, remote)
    ensures c4.control.Running? && c4.control.phase.AtPush?
    ensures var commit := Commit(Apply(c0.control.call, 0, Tree(remote)), id, c0.made, c0.control.call, 0, c0.seen);
      c4.head == remote + [commit]
  {
    c1 := Advance(id, c0, remote, CALM).0;
    c2 := Advance(id, c1, remote, CALM).0;
    c3 := Advance(id, c2, remote, CALM).0;
    c4 := Advance(id, c3, remote, CALM).0;
  }

  /** The five steps of an attempt that nobody disturbs. */
  lemma UndisturbedAttempt(w: World, events: seq<Event>, id: nat) returns (events': seq<Event>)
    requires id < |Run(w, events).clones|
    requires var w1 := Run(w, events);
      (Inv(w1)
      && w1.clones[id].control.Running? && w1.clones[id].control.phase.AtPull? && w1.clones[id].Clean()
      && Enabled(w1.clones[id].control.call, Tree(w1.remote))
      && Apply(w1.clones[id].control.call, 0, Tree(w1.remote)) != Tree(w1.remote))
    ensures var w1, w2 := Run(w, events), Run(w, events'); var call := w1.clones[id].control.call;
      (Inv(w2) && |w2.clones| == |w1.clones|
      && (forall o :: 0 <= o < |w1.clones| && o != id ==> w2.clones[o] == w1.clones[o])
      && |w2.remote| == |w1.remote| + 1 && w1.remote <= w2.remote
      && w2.remote[|w1.remote|].call == call
      && Tree(w2.remote) == Apply(call, 0, Tree(w1.remote)))
  {
    var e, w1 := Tick(id, CALM), Run(w, events);
    var c0 := w1.clones[id];
    assert c0.head <= w1.remote && w1.remote != [] by { assert CloneInv(id, c0, w1.remote); }
    hide Inv, Run, IsUnblocked;
    var c1, c2, c3, c4 := AttemptReachesPush(id, c0, w1.remote);
    assert w1 == Put(w1, id, c0);
    TickOnce(w, events, w1, id, c0);
    TickOnce(w, events + [e], w1, id, c1);
    TickOnce(w, events + [e] + [e], w1, id, c2);
    TickOnce(w, events + [e] + [e] + [e], w1, id, c3);
    var committed := events + [e] + [e] + [e] + [e];
    events' := committed + [e];
    RunAppend(w, committed, e);
    InvAlong(w, events, [e, e, e, e, e]);
    assert events' == events + [e, e, e, e, e];
  }

  const BARE := Task(None, None, None, None, None, None, None, None, map[])
  const DONE_FIRST := BARE.(status := Some(Done), stream := Some("S"))
  const WAITS_FOR_FIRST := BARE.(status := Some(Open), stream := Some("S"), blockedBy := Some(["A"]))
  const TWO_TASKS: Table := map["A" := DONE_FIRST, "B" := WAITS_FOR_FIRST]

  lemma OffersB()
    ensures Scheduler.FindOpenTask("S", TWO_TASKS) == Some("B")
  {
    assert "B" in TWO_TASKS && TWO_TASKS["B"].Dependencies() == ["A"];
    assert Scheduler.IsCandidate("S", TWO_TASKS, "B");
    assert !Scheduler.IsCandidate("S", TWO_TASKS, "A");
  }

  const BLOCK_FIRST := Finalize("A", "y", false, None, 3)
  const CLAIM_SECOND := Claim("B", "x", false, true)

  /** Two fresh clones of a history with one commit. */
  function TwoClones(): World {
    var origin := Commit(TWO_TASKS, 2, 0, Finalize("A", "", true, None, 3), 0, 1);
    var idle := Clone([origin], TWO_TASKS, TWO_TASKS, Idle, 0, 0, 0, 0, 0);
    World([origin], [idle, idle])
  }

  /** One clone has selected `B`, the other is about to block `A`. */
  lemma BothBegun() returns (events: seq<Event>)
    ensures var w, w1 := TwoClones(), Run(TwoClones(), events);
      && Inv(w1) && w1.remote == w.remote && |w1.clones| == 2
      && w1.clones[0] == w.clones[0].(since := 1, seen := 1, control := Running(CLAIM_SECOND, 1, 0, AtPull))
      && w1.clones[1] == w.clones[1].(since := 1, seen := 1, control := Running(BLOCK_FIRST, 1, 0, AtPull))
  {
    var w := TwoClones();
    InitialInv(w);
    OffersB();
    var begin, block := Begin(0, ClaimStream("S", "x", false)), Begin(1, FinalizeTask("A", "y", false, None, 3));
    RunAppend(w, [], begin);
    StepKeeps(w, begin);
    assert [] + [begin] == [begin];
    RunAppend(w, [begin], block);
    StepKeeps(Run(w, [begin]), block);
    events := [begin] + [block];
  }

  lemma BlockedTable()
    ensures Enabled(BLOCK_FIRST, TWO_TASKS)
    ensures var between := Apply(BLOCK_FIRST, 0, TWO_TASKS);
      && between != TWO_TASKS && between["B"] == WAITS_FOR_FIRST && between.Keys == TWO_TASKS.Keys
      && Enabled(CLAIM_SECOND, between) && Apply(CLAIM_SECOND, 0, between) != between
      && Satisfied("B", TWO_TASKS) && !Satisfied("B", between)
  {
    var between := Apply(BLOCK_FIRST, 0, TWO_TASKS);
    assert between["A"].status == Some(Blocked);
    assert Apply(CLAIM_SECOND, 0, between)["B"].status == Some(InProgress);
    assert TWO_TASKS["B"].Dependencies() == ["A"] && "A" in between["B"].Dependencies();
  }

  /** Without the condition the order can be broken: one clone selects `B` while its
      dependency `A` is done, another marks `A` blocked, and the claim of `B` still lands. */
  lemma ReopenedDependency() returns (w: World, events: seq<Event>)
    ensures Initial(w) && Chronicle(w.remote) && |w.remote| == 1
    ensures var h := Run(w, events).remote;
      && |h| == 3 && h[2].call == Claim("B", "x", false, true)
      && Satisfied("B", h[0].tree) && !Satisfied("B", h[1].tree)
  {
    w := TwoClones();
    BlockedTable();
    events := BothBegun();
    hide Run, Inv, Apply, Enabled, Satisfied;
    events := UndisturbedAttempt(w, events, 1);
    events := UndisturbedAttempt(w, events, 0);
  }
}
