/** The tasks that `complete.py` announces as unblocked by a completion. */
module Followups {
  import opened Options
  import opened TaskTable

  /** `_print_unblocked_followups`, on the table as just written. */
  function Announced(completed: TaskId, table: Table): set<TaskId> {
    set id | id in table && completed in table[id].Dependencies() && table[id].Available() && IsUnblocked(id, table)
  }

  /** The waiting tasks that could not be claimed before and can be now. */
  function NewlyUnblocked(before: Table, after: Table): set<TaskId> {
    set id | id in before && id in after && after[id].Available() && IsUnblocked(id, after) && !IsUnblocked(id, before)
  }

  lemma OnlyTheTaskChanges(call: Call, now: nat, before: Table)
    requires call.Finalize? && call.done && Enabled(call, before)
    ensures var after := Apply(call, now, before);
      && after.Keys == before.Keys && after[call.task].IsDone()
      && (forall id <- before :: after[id].Dependencies() == before[id].Dependencies())
      && (forall id <- before :: id != call.task ==> after[id] == before[id])
  {
  }

  /** In terms of the file's keys: announced are the open or ready tasks that wait for the completed
      one and for nothing that is missing or not done; newly unblocked those that before had
      something missing or not done to wait for. */
  lemma AnnouncedMeans(call: Call, now: nat, before: Table, id: TaskId)
    requires call.Finalize? && call.done && Enabled(call, before)
    ensures var after := Apply(call, now, before);
      && (id in Announced(call.task, after) <==>
           && id in after && after[id].status in {Some(Open), Some(Ready)}
           && after[id].blockedBy.Some? && call.task in after[id].blockedBy.value
           && forall d <- after[id].blockedBy.value :: d in after && after[d].status == Some(Done))
      && (id in NewlyUnblocked(before, after) <==>
           && id in before && id in after && after[id].status in {Some(Open), Some(Ready)}
           && before[id].blockedBy.Some? && after[id].blockedBy.Some?
           && (forall d <- after[id].blockedBy.value :: d in after && after[d].status == Some(Done))
           && exists d <- before[id].blockedBy.value :: d !in before || before[d].status != Some(Done))
  {
  }

  /** Nothing newly unblocked is left out.  The announcement is exactly that if and only if the task
      was not done before, or no claimable task depended on it then. */
  lemma AnnouncedExactly(call: Call, now: nat, before: Table)
    requires call.Finalize? && call.done && Enabled(call, before)
    ensures var after := Apply(call, now, before);
      && NewlyUnblocked(before, after) <= Announced(call.task, after)
      && (Announced(call.task, after) == NewlyUnblocked(before, after) <==>
           !before[call.task].IsDone() || Announced(call.task, before) == {})
  {
    var after := Apply(call, now, before);
    OnlyTheTaskChanges(call, now, before);
    forall id | id in NewlyUnblocked(before, after)
      ensures id in Announced(call.task, after) && !before[call.task].IsDone()
    {
      var d :| d in before[id].Dependencies() && !(d in before && before[d].IsDone());
      assert d in after && after[d].IsDone();
    }
    if before[call.task].IsDone() {
      assert NewlyUnblocked(before, after) == {};
      DoneAgain(call, now, before);
    }
  }

  /** Completing a done task again announces what was claimable before. */
  lemma DoneAgain(call: Call, now: nat, before: Table)
    requires call.Finalize? && call.done && Enabled(call, before) && before[call.task].IsDone()
    ensures Announced(call.task, Apply(call, now, before)) == Announced(call.task, before)
  {
    var after := Apply(call, now, before);
    OnlyTheTaskChanges(call, now, before);
    forall id <- before ensures IsUnblocked(id, after) <==> IsUnblocked(id, before) {
      assert forall d <- before :: after[d].IsDone() <==> before[d].IsDone();
    }
  }

  const WAITING := Task(Some(Open), None, None, Some(["A"]), None, None, None, None, map[])
  const FINISHED := Task(Some(Done), None, None, None, None, None, None, None, map[])

  /** A done task completed once more: its dependent is announced, though it was claimable all
      along. */
  lemma AnnouncedWithoutNews() returns (call: Call, before: Table)
    ensures call.Finalize? && call.done && Enabled(call, before)
    ensures var after := Apply(call, 0, before);
      "B" in Announced(call.task, after) && NewlyUnblocked(before, after) == {}
  {
    call, before := Finalize("A", "x", true, None, 3), map["A" := FINISHED, "B" := WAITING];
    AnnouncedExactly(call, 0, before);
    DoneAgain(call, 0, before);
    assert before["B"].Dependencies() == ["A"];
    assert "B" in Announced("A", before);
  }
}
