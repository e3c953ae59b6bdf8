/** The four briefing contexts and their trimming loops, each proved against the one trim
    specification. */
module BriefingContexts {
  import opened BudgetTrim

  /** Loop state: `dropped` entries are gone and at no earlier point did the context fit. */
  ghost predicate Trimming(weigh: Sections -> nat, all: Sections, now: Sections, budget: int, dropped: nat) {
    && dropped <= Total(all)
    && now == Cut(all, dropped)
    && forall j: nat :: j < dropped ==> weigh(Cut(all, j)) > budget
  }

  /** The sections of lower priority than `i` have no entries left. */
  ghost predicate EmptyBelow(now: Sections, i: nat) {
    i <= |now| && forall j :: 0 <= j < i ==> now[j] == []
  }

  /** Trimming with the sections below `i` finished: they are empty, or the context fits. */
  ghost predicate TrimmedBelow(weigh: Sections -> nat, all: Sections, now: Sections, budget: int, dropped: nat,
                               i: nat)
  {
    Trimming(weigh, all, now, budget, dropped) && (weigh(now) <= budget || EmptyBelow(now, i))
  }

  lemma TrimStart(weigh: Sections -> nat, all: Sections, budget: int)
    ensures TrimmedBelow(weigh, all, all, budget, 0, 0)
  {
    CutNothing(all);
  }

  /** While over budget, a `pop` on the lowest non-empty section keeps the loop state. */
  lemma TrimStep(weigh: Sections -> nat, all: Sections, now: Sections, budget: int, dropped: nat, i: nat)
    requires TrimmedBelow(weigh, all, now, budget, dropped, i) && weigh(now) > budget
    requires i < |now| && now[i] != []
    ensures TrimmedBelow(weigh, all, now[i := Shorter(now[i])], budget, dropped + 1, i)
  {
    Pop(all, dropped, i);
  }

  lemma NextSection(weigh: Sections -> nat, all: Sections, now: Sections, budget: int, dropped: nat, i: nat)
    requires TrimmedBelow(weigh, all, now, budget, dropped, i) && i < |now| && (weigh(now) <= budget || now[i] == [])
    ensures TrimmedBelow(weigh, all, now, budget, dropped, i + 1)
  {
  }

  /** When the context fits, or no section has an entry left, trimming is over. */
  lemma TrimEnd(weigh: Sections -> nat, all: Sections, now: Sections, budget: int, dropped: nat, i: nat)
    requires TrimmedBelow(weigh, all, now, budget, dropped, i) && (weigh(now) <= budget || i == |now|)
    ensures FirstFit(weigh, all, budget, dropped) && now == Cut(all, dropped)
  {
    CutDropsExactly(all, dropped);
    EmptyTotal(now);
  }

  /** A trimmed context is within budget, or has nothing trimmable left; what was dropped was
      needed: one entry fewer dropped and it would not have fitted. */
  lemma TrimmedContext(weigh: Sections -> nat, all: Sections, budget: int, dropped: nat)
    requires FirstFit(weigh, all, budget, dropped)
    ensures weigh(Cut(all, dropped)) > budget ==> forall i :: 0 <= i < |all| ==> Cut(all, dropped)[i] == []
    ensures dropped > 0 ==> weigh(Cut(all, dropped - 1)) > budget
    ensures forall i :: 0 <= i < |all| ==> Cut(all, dropped)[i] <= all[i]
    ensures forall i, j :: 0 <= j < i < |all| && Cut(all, dropped)[i] != all[i] ==> Cut(all, dropped)[j] == []
  {
    CutDropsExactly(all, dropped);
    EmptyTotal(Cut(all, dropped));
    forall i | 0 <= i < |all|
      ensures Cut(all, dropped)[i] <= all[i]
      ensures Cut(all, dropped)[i] != all[i] ==> forall j :: 0 <= j < i ==> Cut(all, dropped)[j] == []
    {
      CutByPriority(all, dropped, i);
    }
  }

  /** The same of the sections as they are, with nothing dropped from a context that fits. */
  lemma Settled(weigh: Sections -> nat, all: Sections, now: Sections, budget: int, dropped: nat)
    requires FirstFit(weigh, all, budget, dropped) && now == Cut(all, dropped)
    ensures |now| == |all| && (weigh(all) <= budget ==> now == all)
    ensures weigh(now) > budget ==> forall i :: 0 <= i < |all| ==> now[i] == []
    ensures forall i :: 0 <= i < |all| ==> now[i] <= all[i]
    ensures forall i, j :: 0 <= j < i < |all| && now[i] != all[i] ==> now[j] == []
  {
    TrimmedContext(weigh, all, budget, dropped);
    CutNothing(all);
  }

  /** `list.pop()`. */
  function Shorter(entries: seq<string>): (s: seq<string>)
    requires entries != []
    ensures |s| == |entries| - 1
  {
    entries[..|entries| - 1]
  }

  function Prefixed(prefix: string, entries: seq<string>): seq<string> {
    seq(|entries|, k requires 0 <= k < |entries| => prefix + entries[k])
  }

  /** A heading and its lines, nothing if there are none. */
  function Headed(heading: string, entries: seq<string>): seq<string> {
    if entries == [] then [] else [heading] + Prefixed("  - ", entries)
  }

  /** Morning briefing: documents, then patterns, then decisions may go; the date and the
      calendar stay. */
  class MorningContext {
    var date: string
    var calendarEvents: seq<string>
    var recentDocuments: seq<string>
    var patterns: seq<string>
    var pendingDecisions: seq<string>
    var tokenCount: nat
    var truncated: bool

    static function Text(date: string, events: seq<string>, documents: seq<string>, decisions: seq<string>,
                         patterns: seq<string>): string
    {
      Join([date] + events + documents + decisions + patterns, " ")
    }

    ghost function Trimmable(): Sections
      reads `recentDocuments, `patterns, `pendingDecisions
    {
      [recentDocuments, patterns, pendingDecisions]
    }

    static function WeighWith(count: string -> nat, date: string, events: seq<string>, s: Sections): nat
    {
      if |s| == 3 then count(Text(date, events, s[0], s[2], s[1])) else 0
    }

    /** The count, as a function of the trimmable sections. */
    static ghost function Weigh(count: string -> nat, date: string, events: seq<string>): Sections -> nat {
      s => WeighWith(count, date, events, s)
    }

    function CountTokens(count: string -> nat): (n: nat)
      reads `date, `calendarEvents, `recentDocuments, `pendingDecisions, `patterns
      ensures n == Weigh(count, date, calendarEvents)(Trimmable())
    {
      count(Text(date, calendarEvents, recentDocuments, pendingDecisions, patterns))
    }

    method PopRecentDocuments(count: string -> nat, budget: int, ghost all: Sections, ghost dropped0: nat)
      returns (ghost dropped: nat)
      requires TrimmedBelow(Weigh(count, date, calendarEvents), all, Trimmable(), budget, dropped0, 0)
      modifies `recentDocuments, `truncated
      ensures TrimmedBelow(Weigh(count, date, calendarEvents), all, Trimmable(), budget, dropped, 1)
      ensures dropped >= dropped0 && (truncated <==> old(truncated) || dropped > dropped0)
    {
      hide Text, WeighWith, Weigh, CountTokens, TrimmedBelow, FirstFit, Cut, Total, Shorter;
      ghost var weigh := Weigh(count, date, calendarEvents);
      dropped := dropped0;
      while recentDocuments != [] && CountTokens(count) > budget
        invariant TrimmedBelow(weigh, all, Trimmable(), budget, dropped, 0)
        invariant dropped >= dropped0 && (truncated <==> old(truncated) || dropped > dropped0)
        decreases |recentDocuments|
      {
        ghost var before := Trimmable();
        TrimStep(weigh, all, before, budget, dropped, 0);
        recentDocuments := Shorter(recentDocuments);
        assert Trimmable() == before[0 := Shorter(before[0])];
        truncated, dropped := true, dropped + 1;
      }
      NextSection(weigh, all, Trimmable(), budget, dropped, 0);
    }

    method PopPatterns(count: string -> nat, budget: int, ghost all: Sections, ghost dropped0: nat)
      returns (ghost dropped: nat)
      requires TrimmedBelow(Weigh(count, date, calendarEvents), all, Trimmable(), budget, dropped0, 1)
      modifies `patterns, `truncated
      ensures TrimmedBelow(Weigh(count, date, calendarEvents), all, Trimmable(), budget, dropped, 2)
      ensures dropped >= dropped0 && (truncated <==> old(truncated) || dropped > dropped0)
    {
      hide Text, WeighWith, Weigh, CountTokens, TrimmedBelow, FirstFit, Cut, Total, Shorter;
      ghost var weigh := Weigh(count, date, calendarEvents);
      dropped := dropped0;
      while patterns != [] && CountTokens(count) > budget
        invariant TrimmedBelow(weigh, all, Trimmable(), budget, dropped, 1)
        invariant dropped >= dropped0 && (truncated <==> old(truncated) || dropped > dropped0)
        decreases |patterns|
      {
        ghost var before := Trimmable();
        TrimStep(weigh, all, before, budget, dropped, 1);
        patterns := Shorter(patterns);
        assert Trimmable() == before[1 := Shorter(before[1])];
        truncated, dropped := true, dropped + 1;
      }
      NextSection(weigh, all, Trimmable(), budget, dropped, 1);
    }

    method PopPendingDecisions(count: string -> nat, budget: int, ghost all: Sections, ghost dropped0: nat)
      returns (ghost dropped: nat)
      requires TrimmedBelow(Weigh(count, date, calendarEvents), all, Trimmable(), budget, dropped0, 2)
      modifies `pendingDecisions, `truncated
      ensures TrimmedBelow(Weigh(count, date, calendarEvents), all, Trimmable(), budget, dropped, 3)
      ensures dropped >= dropped0 && (truncated <==> old(truncated) || dropped > dropped0)
    {
      hide Text, WeighWith, Weigh, CountTokens, TrimmedBelow, FirstFit, Cut, Total, Shorter;
      ghost var weigh := Weigh(count, date, calendarEvents);
      dropped := dropped0;
      while pendingDecisions != [] && CountTokens(count) > budget
        invariant TrimmedBelow(weigh, all, Trimmable(), budget, dropped, 2)
        invariant dropped >= dropped0 && (truncated <==> old(truncated) || dropped > dropped0)
        decreases |pendingDecisions|
      {
        ghost var before := Trimmable();
        TrimStep(weigh, all, before, budget, dropped, 2);
        pendingDecisions := Shorter(pendingDecisions);
        assert Trimmable() == before[2 := Shorter(before[2])];
        truncated, dropped := true, dropped + 1;
      }
      NextSection(weigh, all, Trimmable(), budget, dropped, 2);
    }

    method EnforceTokenBudget(count: string -> nat, budget: int) returns (ghost dropped: nat)
      modifies `recentDocuments, `patterns, `pendingDecisions, `tokenCount, `truncated
      ensures FirstFit(Weigh(count, date, calendarEvents), old(Trimmable()), budget, dropped)
      ensures Trimmable() == Cut(old(Trimmable()), dropped)
      ensures tokenCount == CountTokens(count)
      ensures truncated <==> old(truncated) || dropped > 0
      ensures old(CountTokens(count)) <= budget ==> Trimmable() == old(Trimmable())
      ensures recentDocuments <= old(recentDocuments) && patterns <= old(patterns)
      ensures pendingDecisions <= old(pendingDecisions)
      ensures patterns != old(patterns) ==> recentDocuments == []
      ensures pendingDecisions != old(pendingDecisions) ==> recentDocuments == [] && patterns == []
      ensures CountTokens(count) > budget ==> recentDocuments == [] && patterns == [] && pendingDecisions == []
    {
      hide Text, WeighWith, Weigh, CountTokens, TrimmedBelow, FirstFit, Cut, Total, Shorter;
      ghost var all, weigh := Trimmable(), Weigh(count, date, calendarEvents);
      dropped := 0;
      TrimStart(weigh, all, budget);
      tokenCount := CountTokens(count);
      if tokenCount <= budget {
        TrimEnd(weigh, all, Trimmable(), budget, dropped, 0);
        Settled(weigh, all, Trimmable(), budget, dropped);
        assert Trimmable()[0] == recentDocuments && Trimmable()[1] == patterns && Trimmable()[2] == pendingDecisions;
        assert all[0] == old(recentDocuments) && all[1] == old(patterns) && all[2] == old(pendingDecisions);
        return;
      }
      dropped := PopRecentDocuments(count, budget, all, dropped);
      dropped := PopPatterns(count, budget, all, dropped);
      dropped := PopPendingDecisions(count, budget, all, dropped);
      TrimEnd(weigh, all, Trimmable(), budget, dropped, 3);
      Settled(weigh, all, Trimmable(), budget, dropped);
      assert Trimmable()[0] == recentDocuments && Trimmable()[1] == patterns && Trimmable()[2] == pendingDecisions;
      assert all[0] == old(recentDocuments) && all[1] == old(patterns) && all[2] == old(pendingDecisions);
      tokenCount := CountTokens(count);
    }
  }

  /** Project briefing: documents, open items, participants, then the timeline may go; the name
      and the decisions stay. */
  class ProjectContext {
    var projectName: string
    var decisions: seq<string>
    var recentDocuments: seq<string>
    var openItems: seq<string>
    var participants: seq<string>
    var timeline: seq<string>
    var tokenCount: nat
    var truncated: bool

    static function Text(name: string, decisions: seq<string>, timeline: seq<string>, participants: seq<string>,
                         items: seq<string>, documents: seq<string>): string
    {
      Join(["Projekt: " + name] + Prefixed("Entscheidung: ", decisions) + Prefixed("Timeline: ", timeline)
           + Prefixed("Beteiligt: ", participants) + Prefixed("Offen: ", items) + Prefixed("Dokument: ", documents),
             " ")
    }

    ghost function Trimmable(): Sections
      reads `recentDocuments, `openItems, `participants, `timeline
    {
      [recentDocuments, openItems, participants, timeline]
    }

    static function WeighWith(count: string -> nat, name: string, decisions: seq<string>, s: Sections): nat
    {
      if |s| == 4 then count(Text(name, decisions, s[3], s[2], s[1], s[0])) else 0
    }

    /** The count, as a function of the trimmable sections. */
    static ghost function Weigh(count: string -> nat, name: string, decisions: seq<string>): Sections -> nat {
      s => WeighWith(count, name, decisions, s)
    }

    function CountTokens(count: string -> nat): (n: nat)
      reads `projectName, `decisions, `timeline, `participants, `openItems, `recentDocuments
      ensures n == Weigh(count, projectName, decisions)(Trimmable())
    {
      count(Text(projectName, decisions, timeline, participants, openItems, recentDocuments))
    }

    method PopRecentDocuments(count: string -> nat, budget: int, total0: nat, ghost all: Sections, ghost dropped0: nat)
      returns (total: nat, ghost dropped: nat)
      requires TrimmedBelow(Weigh(count, projectName, decisions), all, Trimmable(), budget, dropped0, 0)
        && total0 == CountTokens(count)
      modifies `recentDocuments
      ensures TrimmedBelow(Weigh(count, projectName, decisions), all, Trimmable(), budget, dropped, 1)
        && total == CountTokens(count)
    {
      hide Text, WeighWith, Weigh, CountTokens, TrimmedBelow, FirstFit, Cut, Total, Shorter;
      ghost var weigh := Weigh(count, projectName, decisions);
      total, dropped := total0, dropped0;
      while total > budget && recentDocuments != []
        invariant TrimmedBelow(weigh, all, Trimmable(), budget, dropped, 0) && total == CountTokens(count)
        decreases |recentDocuments|
      {
        ghost var before := Trimmable();
        TrimStep(weigh, all, before, budget, dropped, 0);
        recentDocuments := Shorter(recentDocuments);
        assert Trimmable() == before[0 := Shorter(before[0])];
        total, dropped := CountTokens(count), dropped + 1;
      }
      NextSection(weigh, all, Trimmable(), budget, dropped, 0);
    }

    method PopOpenItems(count: string -> nat, budget: int, total0: nat, ghost all: Sections, ghost dropped0: nat)
      returns (total: nat, ghost dropped: nat)
      requires TrimmedBelow(Weigh(count, projectName, decisions), all, Trimmable(), budget, dropped0, 1)
        && total0 == CountTokens(count)
      modifies `openItems
      ensures TrimmedBelow(Weigh(count, projectName, decisions), all, Trimmable(), budget, dropped, 2)
        && total == CountTokens(count)
    {
      hide Text, WeighWith, Weigh, CountTokens, TrimmedBelow, FirstFit, Cut, Total, Shorter;
      ghost var weigh := Weigh(count, projectName, decisions);
      total, dropped := total0, dropped0;
      while total > budget && openItems != []
        invariant TrimmedBelow(weigh, all, Trimmable(), budget, dropped, 1) && total == CountTokens(count)
        decreases |openItems|
      {
        ghost var before := Trimmable();
        TrimStep(weigh, all, before, budget, dropped, 1);
        openItems := Shorter(openItems);
        assert Trimmable() == before[1 := Shorter(before[1])];
        total, dropped := CountTokens(count), dropped + 1;
      }
      NextSection(weigh, all, Trimmable(), budget, dropped, 1);
    }

    method PopParticipants(count: string -> nat, budget: int, total0: nat, ghost all: Sections, ghost dropped0: nat)
      returns (total: nat, ghost dropped: nat)
      requires TrimmedBelow(Weigh(count, projectName, decisions), all, Trimmable(), budget, dropped0, 2)
        && total0 == CountTokens(count)
      modifies `participants
      ensures TrimmedBelow(Weigh(count, projectName, decisions), all, Trimmable(), budget, dropped, 3)
        && total == CountTokens(count)
    {
      hide Text, WeighWith, Weigh, CountTokens, TrimmedBelow, FirstFit, Cut, Total, Shorter;
      ghost var weigh := Weigh(count, projectName, decisions);
      total, dropped := total0, dropped0;
      while total > budget && participants != []
        invariant TrimmedBelow(weigh, all, Trimmable(), budget, dropped, 2) && total == CountTokens(count)
        decreases |participants|
      {
        ghost var before := Trimmable();
        TrimStep(weigh, all, before, budget, dropped, 2);
        participants := Shorter(participants);
        assert Trimmable() == before[2 := Shorter(before[2])];
        total, dropped := CountTokens(count), dropped + 1;
      }
      NextSection(weigh, all, Trimmable(), budget, dropped, 2);
    }

    method PopTimeline(count: string -> nat, budget: int, total0: nat, ghost all: Sections, ghost dropped0: nat)
      returns (total: nat, ghost dropped: nat)
      requires TrimmedBelow(Weigh(count, projectName, decisions), all, Trimmable(), budget, dropped0, 3)
        && total0 == CountTokens(count)
      modifies `timeline
      ensures TrimmedBelow(Weigh(count, projectName, decisions), all, Trimmable(), budget, dropped, 4)
        && total == CountTokens(count)
    {
      hide Text, WeighWith, Weigh, CountTokens, TrimmedBelow, FirstFit, Cut, Total, Shorter;
      ghost var weigh := Weigh(count, projectName, decisions);
      total, dropped := total0, dropped0;
      while total > budget && timeline != []
        invariant TrimmedBelow(weigh, all, Trimmable(), budget, dropped, 3) && total == CountTokens(count)
        decreases |timeline|
      {
        ghost var before := Trimmable();
        TrimStep(weigh, all, before, budget, dropped, 3);
        timeline := Shorter(timeline);
        assert Trimmable() == before[3 := Shorter(before[3])];
        total, dropped := CountTokens(count), dropped + 1;
      }
      NextSection(weigh, all, Trimmable(), budget, dropped, 3);
    }

    /** The only one that keeps a running total, and that calls a context over budget truncated
        even when nothing could be dropped. */
    method EnforceTokenBudget(count: string -> nat, budget: int) returns (ghost dropped: nat)
      modifies `recentDocuments, `openItems, `participants, `timeline, `tokenCount, `truncated
      ensures FirstFit(Weigh(count, projectName, decisions), old(Trimmable()), budget, dropped)
      ensures Trimmable() == Cut(old(Trimmable()), dropped)
      ensures tokenCount == CountTokens(count)
      ensures truncated <==> old(truncated) || old(CountTokens(count)) > budget
      ensures old(CountTokens(count)) <= budget ==> Trimmable() == old(Trimmable())
      ensures recentDocuments <= old(recentDocuments) && openItems <= old(openItems)
      ensures participants <= old(participants) && timeline <= old(timeline)
      ensures openItems != old(openItems) ==> recentDocuments == []
      ensures participants != old(participants) ==> recentDocuments == [] && openItems == []
      ensures timeline != old(timeline) ==> recentDocuments == [] && openItems == [] && participants == []
      ensures CountTokens(count) > budget ==>
        recentDocuments == [] && openItems == [] && participants == [] && timeline == []
    {
      hide Text, WeighWith, Weigh, CountTokens, TrimmedBelow, FirstFit, Cut, Total, Shorter;
      ghost var all, weigh := Trimmable(), Weigh(count, projectName, decisions);
      dropped := 0;
      TrimStart(weigh, all, budget);
      var total := CountTokens(count);
      if total <= budget {
        TrimEnd(weigh, all, Trimmable(), budget, dropped, 0);
        Settled(weigh, all, Trimmable(), budget, dropped);
        assert Trimmable()[0] == recentDocuments && Trimmable()[1] == openItems;
        assert Trimmable()[2] == participants && Trimmable()[3] == timeline;
        assert all[0] == old(recentDocuments) && all[1] == old(openItems);
        assert all[2] == old(participants) && all[3] == old(timeline);
        tokenCount := total;
        return;
      }
      total, dropped := PopRecentDocuments(count, budget, total, all, dropped);
      total, dropped := PopOpenItems(count, budget, total, all, dropped);
      total, dropped := PopParticipants(count, budget, total, all, dropped);
      total, dropped := PopTimeline(count, budget, total, all, dropped);
      TrimEnd(weigh, all, Trimmable(), budget, dropped, 4);
      Settled(weigh, all, Trimmable(), budget, dropped);
      assert Trimmable()[0] == recentDocuments && Trimmable()[1] == openItems;
      assert Trimmable()[2] == participants && Trimmable()[3] == timeline;
      assert all[0] == old(recentDocuments) && all[1] == old(openItems);
      assert all[2] == old(participants) && all[3] == old(timeline);
      tokenCount, truncated := total, true;
    }
  }

  /** Weekly briefing: documents, then project progress may go; topics, decisions and open items
      stay. */
  class WeeklyContext {
    var week: string
    var documentCount: string
    var topTopics: seq<string>
    var decisions: seq<string>
    var openItems: seq<string>
    var recentDocuments: seq<string>
    var projectProgress: seq<string>
    var tokenCount: nat
    var truncated: bool

    /** A section without entries has no heading either. */
    static function Serialise(week: string, number: string, topics: seq<string>, decisions: seq<string>,
                              progress: seq<string>, items: seq<string>, documents: seq<string>): string
    {
      Join(["Woche: " + week, "Dokumente gesamt: " + number] + Headed("Top-Themen:", topics)
           + Headed("Entscheidungen:", decisions) + Headed("Projekt-Fortschritt:", progress)
           + Headed("Offene Punkte:", items) + Headed("Dokumente:", documents), "\n")
    }

    ghost function Trimmable(): Sections
      reads `recentDocuments, `projectProgress
    {
      [recentDocuments, projectProgress]
    }

    static function WeighWith(count: string -> nat, week: string, number: string, topics: seq<string>,
                                    decisions: seq<string>, items: seq<string>, s: Sections): nat
    {
      if |s| == 2 then count(Serialise(week, number, topics, decisions, s[1], items, s[0])) else 0
    }

    /** The count, as a function of the trimmable sections. */
    static ghost function Weigh(count: string -> nat, week: string, number: string, topics: seq<string>,
                                decisions: seq<string>, items: seq<string>): Sections -> nat
    {
      s => WeighWith(count, week, number, topics, decisions, items, s)
    }

    function CountTokens(count: string -> nat): (n: nat)
      reads `week, `documentCount, `topTopics, `decisions, `projectProgress, `openItems, `recentDocuments
      ensures n == Weigh(count, week, documentCount, topTopics, decisions, openItems)(Trimmable())
    {
      count(Serialise(week, documentCount, topTopics, decisions, projectProgress, openItems, recentDocuments))
    }

    method PopRecentDocuments(count: string -> nat, budget: int, ghost all: Sections, ghost dropped0: nat)
      returns (ghost dropped: nat)
      requires TrimmedBelow(Weigh(count, week, documentCount, topTopics, decisions, openItems), all, Trimmable(),
        budget, dropped0, 0)
      modifies `recentDocuments, `truncated
      ensures TrimmedBelow(Weigh(count, week, documentCount, topTopics, decisions, openItems), all, Trimmable(),
        budget, dropped, 1)
      ensures dropped >= dropped0 && (truncated <==> old(truncated) || dropped > dropped0)
    {
      hide Serialise, WeighWith, Weigh, CountTokens, TrimmedBelow, FirstFit, Cut, Total, Shorter;
      ghost var weigh := Weigh(count, week, documentCount, topTopics, decisions, openItems);
      dropped := dropped0;
      while recentDocuments != [] && CountTokens(count) > budget
        invariant TrimmedBelow(weigh, all, Trimmable(), budget, dropped, 0)
        invariant dropped >= dropped0 && (truncated <==> old(truncated) || dropped > dropped0)
        decreases |recentDocuments|
      {
        ghost var before := Trimmable();
        TrimStep(weigh, all, before, budget, dropped, 0);
        recentDocuments := Shorter(recentDocuments);
        assert Trimmable() == before[0 := Shorter(before[0])];
        truncated, dropped := true, dropped + 1;
      }
      NextSection(weigh, all, Trimmable(), budget, dropped, 0);
    }

    method PopProjectProgress(count: string -> nat, budget: int, ghost all: Sections, ghost dropped0: nat)
      returns (ghost dropped: nat)
      requires TrimmedBelow(Weigh(count, week, documentCount, topTopics, decisions, openItems), all, Trimmable(),
        budget, dropped0, 1)
      modifies `projectProgress, `truncated
      ensures TrimmedBelow(Weigh(count, week, documentCount, topTopics, decisions, openItems), all, Trimmable(),
        budget, dropped, 2)
      ensures dropped >= dropped0 && (truncated <==> old(truncated) || dropped > dropped0)
    {
      hide Serialise, WeighWith, Weigh, CountTokens, TrimmedBelow, FirstFit, Cut, Total, Shorter;
      ghost var weigh := Weigh(count, week, documentCount, topTopics, decisions, openItems);
      dropped := dropped0;
      while projectProgress != [] && CountTokens(count) > budget
        invariant TrimmedBelow(weigh, all, Trimmable(), budget, dropped, 1)
        invariant dropped >= dropped0 && (truncated <==> old(truncated) || dropped > dropped0)
        decreases |projectProgress|
      {
        ghost var before := Trimmable();
        TrimStep(weigh, all, before, budget, dropped, 1);
        projectProgress := Shorter(projectProgress);
        assert Trimmable() == before[1 := Shorter(before[1])];
        truncated, dropped := true, dropped + 1;
      }
      NextSection(weigh, all, Trimmable(), budget, dropped, 1);
    }

    method EnforceTokenBudget(count: string -> nat, budget: int) returns (ghost dropped: nat)
      modifies `recentDocuments, `projectProgress, `tokenCount, `truncated
      ensures FirstFit(Weigh(count, week, documentCount, topTopics, decisions, openItems), old(Trimmable()), budget,
        dropped)
      ensures Trimmable() == Cut(old(Trimmable()), dropped)
      ensures tokenCount == CountTokens(count)
      ensures truncated <==> old(truncated) || dropped > 0
      ensures old(CountTokens(count)) <= budget ==> Trimmable() == old(Trimmable())
      ensures recentDocuments <= old(recentDocuments) && projectProgress <= old(projectProgress)
      ensures projectProgress != old(projectProgress) ==> recentDocuments == []
      ensures CountTokens(count) > budget ==> recentDocuments == [] && projectProgress == []
    {
      hide Serialise, WeighWith, Weigh, CountTokens, TrimmedBelow, FirstFit, Cut, Total, Shorter;
      ghost var all, weigh := Trimmable(), Weigh(count, week, documentCount, topTopics, decisions, openItems);
      dropped := 0;
      TrimStart(weigh, all, budget);
      tokenCount := CountTokens(count);
      if tokenCount <= budget {
        TrimEnd(weigh, all, Trimmable(), budget, dropped, 0);
        Settled(weigh, all, Trimmable(), budget, dropped);
        assert Trimmable()[0] == recentDocuments && Trimmable()[1] == projectProgress;
        assert all[0] == old(recentDocuments) && all[1] == old(projectProgress);
        return;
      }
      dropped := PopRecentDocuments(count, budget, all, dropped);
      dropped := PopProjectProgress(count, budget, all, dropped);
      TrimEnd(weigh, all, Trimmable(), budget, dropped, 2);
      Settled(weigh, all, Trimmable(), budget, dropped);
      assert Trimmable()[0] == recentDocuments && Trimmable()[1] == projectProgress;
      assert all[0] == old(recentDocuments) && all[1] == old(projectProgress);
      tokenCount := CountTokens(count);
    }
  }

  /** Meeting preparation: documents, then open items may go; the meeting and its participants
      stay. */
  class MeetingContext {
    var title: string
    var time: string
    var location: string
    var participants: seq<string>
    var relevantDocuments: seq<string>
    var openItems: seq<string>
    var tokenCount: nat
    var truncated: bool

    static function Text(title: string, time: string, location: string, participants: seq<string>,
                         documents: seq<string>, items: seq<string>): string
    {
      Join([title, time, location] + participants + documents + items, " ")
    }

    ghost function Trimmable(): Sections
      reads `relevantDocuments, `openItems
    {
      [relevantDocuments, openItems]
    }

    static function WeighWith(count: string -> nat, title: string, time: string, location: string,
                                    participants: seq<string>, s: Sections): nat
    {
      if |s| == 2 then count(Text(title, time, location, participants, s[0], s[1])) else 0
    }

    /** The count, as a function of the trimmable sections. */
    static ghost function Weigh(count: string -> nat, title: string, time: string, location: string,
                                participants: seq<string>): Sections -> nat
    {
      s => WeighWith(count, title, time, location, participants, s)
    }

    function CountTokens(count: string -> nat): (n: nat)
      reads `title, `time, `location, `participants, `relevantDocuments, `openItems
      ensures n == Weigh(count, title, time, location, participants)(Trimmable())
    {
      count(Text(title, time, location, participants, relevantDocuments, openItems))
    }

    method PopRelevantDocuments(count: string -> nat, budget: int, ghost all: Sections, ghost dropped0: nat)
      returns (ghost dropped: nat)
      requires TrimmedBelow(Weigh(count, title, time, location, participants), all, Trimmable(), budget, dropped0, 0)
      modifies `relevantDocuments, `truncated
      ensures TrimmedBelow(Weigh(count, title, time, location, participants), all, Trimmable(), budget, dropped, 1)
      ensures dropped >= dropped0 && (truncated <==> old(truncated) || dropped > dropped0)
    {
      hide Text, WeighWith, Weigh, CountTokens, TrimmedBelow, FirstFit, Cut, Total, Shorter;
      ghost var weigh := Weigh(count, title, time, location, participants);
      dropped := dropped0;
      while relevantDocuments != [] && CountTokens(count) > budget
        invariant TrimmedBelow(weigh, all, Trimmable(), budget, dropped, 0)
        invariant dropped >= dropped0 && (truncated <==> old(truncated) || dropped > dropped0)
        decreases |relevantDocuments|
      {
        ghost var before := Trimmable();
        TrimStep(weigh, all, before, budget, dropped, 0);
        relevantDocuments := Shorter(relevantDocuments);
        assert Trimmable() == before[0 := Shorter(before[0])];
        truncated, dropped := true, dropped + 1;
      }
      NextSection(weigh, all, Trimmable(), budget, dropped, 0);
    }

    method PopOpenItems(count: string -> nat, budget: int, ghost all: Sections, ghost dropped0: nat)
      returns (ghost dropped: nat)
      requires TrimmedBelow(Weigh(count, title, time, location, participants), all, Trimmable(), budget, dropped0, 1)
      modifies `openItems, `truncated
      ensures TrimmedBelow(Weigh(count, title, time, location, participants), all, Trimmable(), budget, dropped, 2)
      ensures dropped >= dropped0 && (truncated <==> old(truncated) || dropped > dropped0)
    {
      hide Text, WeighWith, Weigh, CountTokens, TrimmedBelow, FirstFit, Cut, Total, Shorter;
      ghost var weigh := Weigh(count, title, time, location, participants);
      dropped := dropped0;
      while openItems != [] && CountTokens(count) > budget
        invariant TrimmedBelow(weigh, all, Trimmable(), budget, dropped, 1)
        invariant dropped >= dropped0 && (truncated <==> old(truncated) || dropped > dropped0)
        decreases |openItems|
      {
        ghost var before := Trimmable();
        TrimStep(weigh, all, before, budget, dropped, 1);
        openItems := Shorter(openItems);
        assert Trimmable() == before[1 := Shorter(before[1])];
        truncated, dropped := true, dropped + 1;
      }
      NextSection(weigh, all, Trimmable(), budget, dropped, 1);
    }

    method EnforceTokenBudget(count: string -> nat, budget: int) returns (ghost dropped: nat)
      modifies `relevantDocuments, `openItems, `tokenCount, `truncated
      ensures FirstFit(Weigh(count, title, time, location, participants), old(Trimmable()), budget, dropped)
      ensures Trimmable() == Cut(old(Trimmable()), dropped)
      ensures tokenCount == CountTokens(count)
      ensures truncated <==> old(truncated) || dropped > 0
      ensures old(CountTokens(count)) <= budget ==> Trimmable() == old(Trimmable())
      ensures relevantDocuments <= old(relevantDocuments) && openItems <= old(openItems)
      ensures openItems != old(openItems) ==> relevantDocuments == []
      ensures CountTokens(count) > budget ==> relevantDocuments == [] && openItems == []
    {
      hide Text, WeighWith, Weigh, CountTokens, TrimmedBelow, FirstFit, Cut, Total, Shorter;
      ghost var all, weigh := Trimmable(), Weigh(count, title, time, location, participants);
      dropped := 0;
      TrimStart(weigh, all, budget);
      tokenCount := CountTokens(count);
      if tokenCount <= budget {
        TrimEnd(weigh, all, Trimmable(), budget, dropped, 0);
        Settled(weigh, all, Trimmable(), budget, dropped);
        assert Trimmable()[0] == relevantDocuments && Trimmable()[1] == openItems;
        assert all[0] == old(relevantDocuments) && all[1] == old(openItems);
        return;
      }
      dropped := PopRelevantDocuments(count, budget, all, dropped);
      dropped := PopOpenItems(count, budget, all, dropped);
      TrimEnd(weigh, all, Trimmable(), budget, dropped, 2);
      Settled(weigh, all, Trimmable(), budget, dropped);
      assert Trimmable()[0] == relevantDocuments && Trimmable()[1] == openItems;
      assert all[0] == old(relevantDocuments) && all[1] == old(openItems);
      tokenCount := CountTokens(count);
    }
  }

  // ---- What the specification says of every context ------------------------------------------------

  /** Marking a context truncated for being over budget, and for having lost entries, differ
      exactly when it is over budget with nothing to drop. */
  lemma TruncatedWithoutLoss(weigh: Sections -> nat, all: Sections, budget: int, dropped: nat)
    requires FirstFit(weigh, all, budget, dropped)
    ensures dropped > 0 <==> weigh(all) > budget && Total(all) > 0
  {
    CutNothing(all);
  }

  /** A project context over budget with nothing to drop is marked truncated all the same. */
  method TruncatedWithNothingDropped() returns (context: ProjectContext, ghost dropped: nat)
    ensures fresh(context) && context.truncated && dropped == 0
  {
    context := new ProjectContext;
    context.recentDocuments, context.openItems, context.participants, context.timeline := [], [], [], [];
    context.truncated := false;
    EmptyTotal(context.Trimmable());
    assert Total(context.Trimmable()) == 0;
    dropped := context.EnforceTokenBudget(_ => 1, 0);
  }

  // ---- What is measured -------------------------------------------------------------------------------

  lemma {:induction false} LedPrefixed(separator: string, prefix: string, entries: seq<string>)
    ensures Led(separator, Prefixed(prefix, entries)) == Led(separator + prefix, entries)
    decreases |entries|
  {
    if entries != [] {
      var front, last := entries[..|entries| - 1], entries[|entries| - 1];
      LedPrefixed(separator, prefix, front);
      assert Prefixed(prefix, entries)[..|front|] == Prefixed(prefix, front);
      assert Led(separator + prefix, front) + separator + (prefix + last)
          == Led(separator + prefix, front) + (separator + prefix) + last;
    }
  }

  /** A section's heading and entries, each on a line of its own. */
  function Block(heading: string, entries: seq<string>): string {
    if entries == [] then "" else "\n" + heading + Led("\n  - ", entries)
  }

  lemma LedHeaded(heading: string, entries: seq<string>)
    ensures Led("\n", Headed(heading, entries)) == Block(heading, entries)
  {
    if entries != [] {
      LedConcat("\n", [heading], Prefixed("  - ", entries));
      assert [heading][..0] == [];
      assert Led("\n", [heading]) == "\n" + heading;
      LedPrefixed("\n", "  - ", entries);
      assert "\n" + "  - " == "\n  - ";
    }
  }

  /** The morning text: the date and every event, document, decision and pattern, in this order, each
      behind a blank. */
  lemma MorningText(date: string, events: seq<string>, documents: seq<string>, decisions: seq<string>,
                    patterns: seq<string>)
    ensures MorningContext.Text(date, events, documents, decisions, patterns)
         == date + Led(" ", events) + Led(" ", documents) + Led(" ", decisions) + Led(" ", patterns)
  {
    assert Join([date], " ") == date;
    hide Led, Join;
    JoinMore([date], events, " ");
    JoinMore([date] + events, documents, " ");
    JoinMore([date] + events + documents, decisions, " ");
    JoinMore([date] + events + documents + decisions, patterns, " ");
  }

  /** A section of the project text. */
  lemma ProjectSection(parts: seq<string>, prefix: string, entries: seq<string>)
    requires parts != []
    ensures Join(parts + Prefixed(prefix, entries), " ") == Join(parts, " ") + Led(" " + prefix, entries)
  {
    JoinMore(parts, Prefixed(prefix, entries), " ");
    LedPrefixed(" ", prefix, entries);
  }

  /** The project text: the name and the sections, each entry behind a blank and its section's word. */
  lemma ProjectText(name: string, decisions: seq<string>, timeline: seq<string>, participants: seq<string>,
                    items: seq<string>, documents: seq<string>)
    ensures ProjectContext.Text(name, decisions, timeline, participants, items, documents)
         == "Projekt: " + name + Led(" Entscheidung: ", decisions) + Led(" Timeline: ", timeline)
            + Led(" Beteiligt: ", participants) + Led(" Offen: ", items) + Led(" Dokument: ", documents)
  {
    var p0 := ["Projekt: " + name];
    assert Join(p0, " ") == "Projekt: " + name;
    hide Led, Join, Prefixed;
    var p1 := p0 + Prefixed("Entscheidung: ", decisions);
    var p2 := p1 + Prefixed("Timeline: ", timeline);
    var p3 := p2 + Prefixed("Beteiligt: ", participants);
    var p4 := p3 + Prefixed("Offen: ", items);
    ProjectSection(p0, "Entscheidung: ", decisions);
    ProjectSection(p1, "Timeline: ", timeline);
    ProjectSection(p2, "Beteiligt: ", participants);
    ProjectSection(p3, "Offen: ", items);
    ProjectSection(p4, "Dokument: ", documents);
    ProjectWords();
  }

  lemma ProjectWords()
    ensures " " + "Entscheidung: " == " Entscheidung: " && " " + "Timeline: " == " Timeline: "
    ensures " " + "Beteiligt: " == " Beteiligt: " && " " + "Offen: " == " Offen: "
    ensures " " + "Dokument: " == " Dokument: "
  {
  }

  /** A section of the weekly text. */
  lemma WeeklySection(parts: seq<string>, heading: string, entries: seq<string>)
    requires parts != []
    ensures Join(parts + Headed(heading, entries), "\n") == Join(parts, "\n") + Block(heading, entries)
  {
    JoinMore(parts, Headed(heading, entries), "\n");
    LedHeaded(heading, entries);
  }

  /** The weekly text: a section without entries leaves no heading either. */
  lemma WeeklyText(week: string, number: string, topics: seq<string>, decisions: seq<string>, progress: seq<string>,
                   items: seq<string>, documents: seq<string>)
    ensures WeeklyContext.Serialise(week, number, topics, decisions, progress, items, documents)
         == "Woche: " + week + ("\nDokumente gesamt: " + number) + Block("Top-Themen:", topics)
            + Block("Entscheidungen:", decisions) + Block("Projekt-Fortschritt:", progress)
            + Block("Offene Punkte:", items) + Block("Dokumente:", documents)
  {
    var p0 := ["Woche: " + week, "Dokumente gesamt: " + number];
    assert Join(p0, "\n") == "Woche: " + week + ("\nDokumente gesamt: " + number) by {
      assert Join(p0[1..], "\n") == "Dokumente gesamt: " + number;
      assert "\n" + ("Dokumente gesamt: " + number) == "\nDokumente gesamt: " + number;
    }
    hide Led, Join, Headed, Block;
    var p1 := p0 + Headed("Top-Themen:", topics);
    var p2 := p1 + Headed("Entscheidungen:", decisions);
    var p3 := p2 + Headed("Projekt-Fortschritt:", progress);
    var p4 := p3 + Headed("Offene Punkte:", items);
    WeeklySection(p0, "Top-Themen:", topics);
    WeeklySection(p1, "Entscheidungen:", decisions);
    WeeklySection(p2, "Projekt-Fortschritt:", progress);
    WeeklySection(p3, "Offene Punkte:", items);
    WeeklySection(p4, "Dokumente:", documents);
  }

  /** The meeting text. */
  lemma MeetingText(title: string, time: string, location: string, participants: seq<string>,
                    documents: seq<string>, items: seq<string>)
    ensures MeetingContext.Text(title, time, location, participants, documents, items)
         == title + (" " + time) + (" " + location)
            + Led(" ", participants) + Led(" ", documents) + Led(" ", items)
  {
    var p0 := [title] + [time] + [location];
    assert p0 == [title, time, location];
    assert Join([title], " ") == title;
    assert Led(" ", [time]) == " " + time by { assert [time][..0] == []; }
    assert Led(" ", [location]) == " " + location by { assert [location][..0] == []; }
    hide Led, Join;
    JoinMore([title], [time], " ");
    JoinMore([title] + [time], [location], " ");
    JoinMore(p0, participants, " ");
    JoinMore(p0 + participants, documents, " ");
    JoinMore(p0 + participants + documents, items, " ");
  }

  // ---- Every entry is in it ----------------------------------------------------------------------------

  lemma PartHeld(parts: seq<string>, separator: string, part: string)
    requires part in parts
    ensures Occurs(Join(parts, separator), part)
  {
    var k :| 0 <= k < |parts| && parts[k] == part;
    JoinHolds(parts, separator, k);
  }

  lemma MorningHolds(date: string, events: seq<string>, documents: seq<string>, decisions: seq<string>,
                     patterns: seq<string>, entry: string)
    requires entry == date || entry in events || entry in documents || entry in decisions || entry in patterns
    ensures Occurs(MorningContext.Text(date, events, documents, decisions, patterns), entry)
  {
    hide Join, Occurs;
    PartHeld([date] + events + documents + decisions + patterns, " ", entry);
  }

  lemma MeetingHolds(title: string, time: string, location: string, participants: seq<string>,
                     documents: seq<string>, items: seq<string>, entry: string)
    requires entry in {title, time, location} || entry in participants || entry in documents || entry in items
    ensures Occurs(MeetingContext.Text(title, time, location, participants, documents, items), entry)
  {
    hide Join, Occurs;
    PartHeld([title, time, location] + participants + documents + items, " ", entry);
  }

  lemma InPrefixed(prefix: string, entries: seq<string>, entry: string)
    ensures entry in entries ==> prefix + entry in Prefixed(prefix, entries)
  {
    if entry in entries {
      var k :| 0 <= k < |entries| && entries[k] == entry;
      assert Prefixed(prefix, entries)[k] == prefix + entry;
    }
  }

  lemma ProjectHolds(name: string, decisions: seq<string>, timeline: seq<string>, participants: seq<string>,
                     items: seq<string>, documents: seq<string>, entry: string)
    ensures var text := ProjectContext.Text(name, decisions, timeline, participants, items, documents);
      && (entry in decisions ==> Occurs(text, "Entscheidung: " + entry))
      && (entry in timeline ==> Occurs(text, "Timeline: " + entry))
      && (entry in participants ==> Occurs(text, "Beteiligt: " + entry))
      && (entry in items ==> Occurs(text, "Offen: " + entry))
      && (entry in documents ==> Occurs(text, "Dokument: " + entry))
  {
    hide Join, Occurs, Prefixed;
    var parts := ["Projekt: " + name] + Prefixed("Entscheidung: ", decisions) + Prefixed("Timeline: ", timeline)
      + Prefixed("Beteiligt: ", participants) + Prefixed("Offen: ", items) + Prefixed("Dokument: ", documents);
    InPrefixed("Entscheidung: ", decisions, entry);
    InPrefixed("Timeline: ", timeline, entry);
    InPrefixed("Beteiligt: ", participants, entry);
    InPrefixed("Offen: ", items, entry);
    InPrefixed("Dokument: ", documents, entry);
    forall part | part in parts ensures Occurs(Join(parts, " "), part) {
      PartHeld(parts, " ", part);
    }
  }

  lemma WeeklyHolds(week: string, number: string, topics: seq<string>, decisions: seq<string>, progress: seq<string>,
                    items: seq<string>, documents: seq<string>, entry: string)
    requires entry in topics || entry in decisions || entry in progress || entry in items || entry in documents
    ensures Occurs(WeeklyContext.Serialise(week, number, topics, decisions, progress, items, documents),
                   "  - " + entry)
  {
    hide Join, Occurs, Prefixed;
    InPrefixed("  - ", topics, entry);
    InPrefixed("  - ", decisions, entry);
    InPrefixed("  - ", progress, entry);
    InPrefixed("  - ", items, entry);
    InPrefixed("  - ", documents, entry);
    PartHeld(["Woche: " + week, "Dokumente gesamt: " + number] + Headed("Top-Themen:", topics)
             + Headed("Entscheidungen:", decisions) + Headed("Projekt-Fortschritt:", progress)
             + Headed("Offene Punkte:", items) + Headed("Dokumente:", documents), "\n", "  - " + entry);
  }

  // ---- Its length ------------------------------------------------------------------------------------

  lemma SpacedLength(entries: seq<string>)
    ensures |Led(" ", entries)| == Lengths(entries) + |entries|
  {
    LedLength(" ", entries);
  }

  lemma SumOfLengths(a: string, b: string, c: string, d: string, e: string, f: string)
    ensures |a + b + c + d + e + f| == |a| + |b| + |c| + |d| + |e| + |f|
  {
  }

  /** Measured in characters: the fields, the entries and what leads each entry.  An entry dropped
      takes off exactly itself and what leads it. */
  lemma MorningLength(date: string, events: seq<string>, s: Sections)
    requires |s| == 3
    ensures MorningContext.Weigh((t: string) => |t|, date, events)(s)
         == |date| + Lengths(events) + |events|
            + Lengths(s[0]) + |s[0]| + Lengths(s[1]) + |s[1]| + Lengths(s[2]) + |s[2]|
  {
    hide Led, Lengths, MorningContext.Text;
    MorningText(date, events, s[0], s[2], s[1]);
    SpacedLength(events);
    SpacedLength(s[0]);
    SpacedLength(s[1]);
    SpacedLength(s[2]);
    SumOfLengths(date, Led(" ", events), Led(" ", s[0]), Led(" ", s[2]), Led(" ", s[1]), "");
    assert date + Led(" ", events) + Led(" ", s[0]) + Led(" ", s[2]) + Led(" ", s[1]) + ""
        == MorningContext.Text(date, events, s[0], s[2], s[1]);
  }

  lemma ProjectLength(name: string, decisions: seq<string>, s: Sections)
    requires |s| == 4
    ensures ProjectContext.Weigh((t: string) => |t|, name, decisions)(s)
         == |"Projekt: "| + |name| + Lengths(decisions) + |" Entscheidung: "| * |decisions|
            + Lengths(s[0]) + |" Dokument: "| * |s[0]| + Lengths(s[1]) + |" Offen: "| * |s[1]|
            + Lengths(s[2]) + |" Beteiligt: "| * |s[2]| + Lengths(s[3]) + |" Timeline: "| * |s[3]|
  {
    hide Led, Lengths, ProjectContext.Text;
    ProjectText(name, decisions, s[3], s[2], s[1], s[0]);
    LedLength(" Entscheidung: ", decisions);
    LedLength(" Dokument: ", s[0]);
    LedLength(" Offen: ", s[1]);
    LedLength(" Beteiligt: ", s[2]);
    LedLength(" Timeline: ", s[3]);
  }

  lemma MeetingLength(title: string, time: string, location: string, participants: seq<string>, s: Sections)
    requires |s| == 2
    ensures MeetingContext.Weigh((t: string) => |t|, title, time, location, participants)(s)
         == |title| + 1 + |time| + 1 + |location| + Lengths(participants) + |participants|
            + Lengths(s[0]) + |s[0]| + Lengths(s[1]) + |s[1]|
  {
    hide Led, Lengths, MeetingContext.Text;
    MeetingText(title, time, location, participants, s[0], s[1]);
    SpacedLength(participants);
    SpacedLength(s[0]);
    SpacedLength(s[1]);
    SumOfLengths(title, " " + time, " " + location, Led(" ", participants), Led(" ", s[0]), Led(" ", s[1]));
  }

  /** With the line of the heading, if there are entries. */
  function BlockLength(heading: string, entries: seq<string>): nat {
    if entries == [] then 0 else 1 + |heading| + Lengths(entries) + |"\n  - "| * |entries|
  }

  lemma BlockMeasured(heading: string, entries: seq<string>)
    ensures |Block(heading, entries)| == BlockLength(heading, entries)
  {
    LedLength("\n  - ", entries);
  }

  lemma WeeklyLength(week: string, number: string, topics: seq<string>, decisions: seq<string>, items: seq<string>,
                     s: Sections)
    requires |s| == 2
    ensures WeeklyContext.Weigh((t: string) => |t|, week, number, topics, decisions, items)(s)
         == |"Woche: " + week| + |"\nDokumente gesamt: " + number|
            + BlockLength("Top-Themen:", topics) + BlockLength("Entscheidungen:", decisions)
            + BlockLength("Projekt-Fortschritt:", s[1]) + BlockLength("Offene Punkte:", items)
            + BlockLength("Dokumente:", s[0])
  {
    hide Block, BlockLength, WeeklyContext.Serialise;
    WeeklyText(week, number, topics, decisions, s[1], items, s[0]);
    BlockMeasured("Top-Themen:", topics);
    BlockMeasured("Entscheidungen:", decisions);
    BlockMeasured("Projekt-Fortschritt:", s[1]);
    BlockMeasured("Offene Punkte:", items);
    BlockMeasured("Dokumente:", s[0]);
    SumOfLengths("Woche: " + week + ("\nDokumente gesamt: " + number), Block("Top-Themen:", topics),
                 Block("Entscheidungen:", decisions), Block("Projekt-Fortschritt:", s[1]),
                 Block("Offene Punkte:", items), Block("Dokumente:", s[0]));
  }

  /** Dropping the last entry of a section takes off the entry and one blank. */
  lemma MorningDrop(date: string, events: seq<string>, s: Sections, i: nat)
    requires |s| == 3 && i < 3 && s[i] != []
    ensures var weigh, fewer := MorningContext.Weigh((t: string) => |t|, date, events), s[i := Shorter(s[i])];
      weigh(fewer) == weigh(s) - |s[i][|s[i]| - 1]| - 1
  {
    MorningLength(date, events, s);
    MorningLength(date, events, s[i := Shorter(s[i])]);
    hide MorningContext.Weigh, MorningContext.WeighWith;
    assert Lengths(s[i]) == Lengths(Shorter(s[i])) + |s[i][|s[i]| - 1]|;
    hide Lengths;
  }

  /** In the project text it takes off the entry, its section's word and the blank before it. */
  lemma ProjectDrop(name: string, decisions: seq<string>, s: Sections, i: nat)
    requires |s| == 4 && i < 4 && s[i] != []
    ensures var weigh, fewer := ProjectContext.Weigh((t: string) => |t|, name, decisions), s[i := Shorter(s[i])];
      var lead := [" Dokument: ", " Offen: ", " Beteiligt: ", " Timeline: "][i];
      weigh(fewer) == weigh(s) - |s[i][|s[i]| - 1]| - |lead|
  {
    hide ProjectContext.Weigh, ProjectContext.WeighWith, Lengths, Shorter;
    ProjectLength(name, decisions, s);
    ProjectLength(name, decisions, s[i := Shorter(s[i])]);
    if i == 0 {
      TermDrop(" Dokument: ", s[i]);
    } else if i == 1 {
      TermDrop(" Offen: ", s[i]);
    } else if i == 2 {
      TermDrop(" Beteiligt: ", s[i]);
    } else {
      TermDrop(" Timeline: ", s[i]);
    }
  }

  lemma TermDrop(lead: string, entries: seq<string>)
    requires entries != []
    ensures Lengths(Shorter(entries)) + |lead| * |Shorter(entries)|
         == Lengths(entries) + |lead| * |entries| - |entries[|entries| - 1]| - |lead|
  {
    assert |lead| * (|Shorter(entries)| + 1) == |lead| * |Shorter(entries)| + |lead|;
  }

  lemma MeetingDrop(title: string, time: string, location: string, participants: seq<string>, s: Sections, i: nat)
    requires |s| == 2 && i < 2 && s[i] != []
    ensures var weigh := MeetingContext.Weigh((t: string) => |t|, title, time, location, participants);
      weigh(s[i := Shorter(s[i])]) == weigh(s) - |s[i][|s[i]| - 1]| - 1
  {
    MeetingLength(title, time, location, participants, s);
    MeetingLength(title, time, location, participants, s[i := Shorter(s[i])]);
    hide MeetingContext.Weigh, MeetingContext.WeighWith;
    assert Lengths(s[i]) == Lengths(Shorter(s[i])) + |s[i][|s[i]| - 1]|;
    hide Lengths;
  }

  /** In the weekly text it takes off the entry's line, and with the last entry the heading's. */
  lemma WeeklyDrop(week: string, number: string, topics: seq<string>, decisions: seq<string>, items: seq<string>,
                   s: Sections, i: nat)
    requires |s| == 2 && i < 2 && s[i] != []
    ensures var weigh := WeeklyContext.Weigh((t: string) => |t|, week, number, topics, decisions, items);
      var heading := ["Dokumente:", "Projekt-Fortschritt:"][i];
      weigh(s[i := Shorter(s[i])])
        == weigh(s) - |s[i][|s[i]| - 1]| - |"\n  - "| - (if |s[i]| == 1 then 1 + |heading| else 0)
  {
    WeeklyLength(week, number, topics, decisions, items, s);
    WeeklyLength(week, number, topics, decisions, items, s[i := Shorter(s[i])]);
    hide WeeklyContext.Weigh, WeeklyContext.WeighWith;
    BlockDrop("Dokumente:", s[i]);
    BlockDrop("Projekt-Fortschritt:", s[i]);
    hide BlockLength, Shorter;
  }

  lemma BlockDrop(heading: string, entries: seq<string>)
    requires entries != []
    ensures BlockLength(heading, Shorter(entries))
         == BlockLength(heading, entries) - |entries[|entries| - 1]| - |"\n  - "|
            - (if |entries| == 1 then 1 + |heading| else 0)
  {
    assert Lengths(entries) == Lengths(Shorter(entries)) + |entries[|entries| - 1]|;
    if |entries| == 1 {
      assert Shorter(entries) == [];
    }
    hide Lengths;
  }
}
