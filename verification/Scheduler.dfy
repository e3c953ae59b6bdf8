/** `find_open_task`: which task a stream offers next, and why repeated claiming and
    finishing drains every acyclic table. */
module Scheduler {
  import opened Options
  import opened TaskTable
  import TextOrder

  function Rank(priority: Option<string>): nat {
    match priority
    case Some("P0") => 0
    case Some("P1") => 1
    case Some("P2") => 2
    case _ => 3
  }

  predicate Before(table: Table, a: TaskId, b: TaskId)
    requires a in table && b in table
  {
    || Rank(table[a].priority) < Rank(table[b].priority)
    || (Rank(table[a].priority) == Rank(table[b].priority) && TextOrder.Less(a, b))
  }

  predicate IsCandidate(stream: string, table: Table, id: TaskId) {
    && id in table
    && table[id].stream == Some(stream)
    && table[id].Available()
    && IsUnblocked(id, table)
  }

  function Candidates(stream: string, table: Table): set<TaskId> {
    set id <- table.Keys | IsCandidate(stream, table, id)
  }

  predicate IsFirst(table: Table, s: set<TaskId>, id: TaskId)
    requires s <= table.Keys
  {
    id in s && forall other <- s :: other == id || Before(table, id, other)
  }

  /** The sorted list has a head, and only one: `Before` is a strict total order. */
  lemma {:induction false} FirstExists(table: Table, s: set<TaskId>) returns (id: TaskId)
    requires s <= table.Keys && s != {}
    ensures IsFirst(table, s, id)
  {
    var x :| x in s;
    var rest := s - {x};
    if rest == {} {
      assert s == {x};
      id := x;
    } else {
      var y := FirstExists(table, rest);
      TextOrder.Trichotomy(x, y);
      assert x != y;
      if Before(table, x, y) {
        id := x;
        forall other <- s ensures other == x || Before(table, x, other) {
          if other != x && other != y {
            assert other in rest;
            BeforeTransitive(table, x, y, other);
          }
        }
      } else {
        id := y;
        assert Before(table, y, x);
        forall other <- s ensures other == y || Before(table, y, other) {
          if other != x {
            assert other in rest;
          }
        }
      }
    }
  }

  lemma BeforeTransitive(table: Table, a: TaskId, b: TaskId, c: TaskId)
    requires a in table && b in table && c in table
    requires Before(table, a, b) && Before(table, b, c)
    ensures Before(table, a, c)
  {
    if TextOrder.Less(a, b) && TextOrder.Less(b, c) {
      TextOrder.Transitive(a, b, c);
    }
  }

  lemma FirstUnique(table: Table, s: set<TaskId>, a: TaskId, b: TaskId)
    requires s <= table.Keys && IsFirst(table, s, a) && IsFirst(table, s, b)
    ensures a == b
  {
    TextOrder.Trichotomy(a, b);
  }

  function FindOpenTask(stream: string, table: Table): (r: Option<TaskId>)
    ensures r.None? <==> forall id <- table :: !IsCandidate(stream, table, id)
    ensures r.Some? ==> IsFirst(table, Candidates(stream, table), r.value)
  {
    var s := Candidates(stream, table);
    if s == {} then
      assert forall id <- table :: IsCandidate(stream, table, id) ==> id in s;
      None
    else
      assert exists id <- s :: IsFirst(table, s, id) by { var id := FirstExists(table, s); }
      assert forall a <- s, b <- s :: IsFirst(table, s, a) && IsFirst(table, s, b) ==> a == b by {
        forall a <- s, b <- s | IsFirst(table, s, a) && IsFirst(table, s, b) ensures a == b {
          FirstUnique(table, s, a, b);
        }
      }
      var id :| id in s && IsFirst(table, s, id);
      Some(id)
  }

  /** In terms of the file's keys: nothing is offered exactly if every task is in another stream, or
      is neither open nor ready, or waits for a task that is missing or not done; what is offered
      is no such task. */
  lemma OfferedExactly(stream: string, table: Table)
    ensures FindOpenTask(stream, table).None? <==>
      forall id <- table ::
        || table[id].stream != Some(stream)
        || table[id].status !in {Some(Open), Some(Ready)}
        || (table[id].blockedBy.Some? &&
            exists d <- table[id].blockedBy.value :: d !in table || table[d].status != Some(Done))
    ensures FindOpenTask(stream, table).Some? ==>
      var id := FindOpenTask(stream, table).value;
      && id in table && table[id].stream == Some(stream) && table[id].status in {Some(Open), Some(Ready)}
      && (table[id].blockedBy.Some? ==>
            forall d <- table[id].blockedBy.value :: d in table && table[d].status == Some(Done))
  {
    forall id <- table
      ensures IsCandidate(stream, table, id) <==>
        && table[id].stream == Some(stream) && table[id].status in {Some(Open), Some(Ready)}
        && (table[id].blockedBy.Some? ==>
              forall d <- table[id].blockedBy.value :: d in table && table[d].status == Some(Done))
    {
    }
  }

  /** Priority decides first, the id second: no task of a higher priority than the chosen one
      could have been claimed, and of the same priority none with a smaller id.  A missing or
      unknown priority counts as `P3`. */
  lemma PriorityThenId(stream: string, table: Table, other: TaskId)
    requires FindOpenTask(stream, table).Some? && IsCandidate(stream, table, other)
    ensures var chosen := FindOpenTask(stream, table).value;
      && (table[other].priority == Some("P0") ==> table[chosen].priority == Some("P0"))
      && (table[other].priority == Some("P1") ==> table[chosen].priority in {Some("P0"), Some("P1")})
      && (table[other].priority == Some("P2") ==> table[chosen].priority in {Some("P0"), Some("P1"), Some("P2")})
      && (table[other].priority == table[chosen].priority && other != chosen ==> TextOrder.Less(chosen, other))
      && (other != chosen
          && table[other].priority !in {Some("P0"), Some("P1"), Some("P2")}
          && table[chosen].priority !in {Some("P0"), Some("P1"), Some("P2")}
          ==> TextOrder.Less(chosen, other))
  {
    assert other in Candidates(stream, table);
    TextOrder.Trichotomy(FindOpenTask(stream, table).value, other);
  }

  // ---- Draining ------------------------------------------------------------------------

  function Unfinished(table: Table): set<TaskId> {
    set id <- table.Keys | !table[id].IsDone()
  }

  /** No command is under way: every record is open, ready or done, and an unfinished one
      belongs to a stream. */
  predicate Quiet(table: Table) {
    forall id <- table :: table[id].IsDone() || (table[id].Available() && table[id].stream.Some?)
  }

  /** One claim and the matching `done`, on a task that a stream offers. */
  ghost predicate Round(before: Table, after: Table) {
    exists stream: string, orch: string, at: nat, later: nat, message: Option<string> ::
      RoundOf(before, after, stream, orch, at, later, message)
  }

  predicate RoundOf(before: Table, after: Table, stream: string, orch: string, at: nat, later: nat,
                    message: Option<string>)
  {
    match FindOpenTask(stream, before)
    case None => false
    case Some(id) =>
      var claimed := Apply(Claim(id, orch, false, true), at, before);
      after == Apply(Finalize(id, orch, true, message, 3), later, claimed)
  }

  ghost predicate Rounds(tables: seq<Table>) {
    && tables != []
    && (|tables| == 1 || (Round(tables[0], tables[1]) && Rounds(tables[1..])))
  }

  function Last(tables: seq<Table>): Table
    requires tables != []
  {
    tables[|tables| - 1]
  }

  /** Every dependency of an unfinished task is in the table. */
  predicate Closed(table: Table) {
    forall id <- Unfinished(table) :: forall d <- table[id].Dependencies() :: d in table
  }

  /** Unfinished tasks, each depending on the next. */
  predicate Path(table: Table, p: seq<TaskId>) {
    && (forall i :: 0 <= i < |p| ==> p[i] in Unfinished(table))
    && (forall i :: 0 <= i < |p| - 1 ==> p[i + 1] in table[p[i]].Dependencies())
  }

  /** No path comes back to where it began. */
  ghost predicate Acyclic(table: Table) {
    forall p: seq<TaskId> :: Path(table, p) && |p| >= 2 ==> p[0] != p[|p| - 1]
  }

  /** A height for every unfinished task that is above the heights of its dependencies, all of
      which are present. */
  ghost predicate Heights(table: Table, h: map<TaskId, nat>) {
    forall id <- Unfinished(table) ::
      && id in h
      && forall d <- table[id].Dependencies() ::
        d in table && (table[d].IsDone() || (d in h && h[d] < h[id]))
  }

  // Heights exist exactly on closed, acyclic tables.

  lemma {:induction false} PathsDescend(table: Table, h: map<TaskId, nat>, p: seq<TaskId>)
    requires Heights(table, h) && Path(table, p) && |p| >= 2
    ensures h[p[|p| - 1]] < h[p[0]]
    decreases |p|
  {
    var front := p[..|p| - 1];
    if |front| >= 2 { PathsDescend(table, h, front); }
    assert p[|p| - 2 + 1] in table[p[|p| - 2]].Dependencies();
  }

  /** A path in an acyclic table meets no task twice. */
  lemma PathsAreSimple(table: Table, p: seq<TaskId>, i: nat, j: nat)
    requires Acyclic(table) && Path(table, p) && i < j < |p|
    ensures p[i] != p[j]
  {
    var part := p[i..j + 1];
    assert Path(table, part);
    assert part[0] == p[i] && part[|part| - 1] == p[j];
  }

  lemma {:induction false} DistinctFit(p: seq<TaskId>, r: set<TaskId>)
    requires forall i, j :: 0 <= i < j < |p| ==> p[i] != p[j]
    requires forall i :: 0 <= i < |p| ==> p[i] in r
    ensures |p| <= |r|
    decreases |p|
  {
    if p != [] {
      var last := p[|p| - 1];
      DistinctFit(p[..|p| - 1], r - {last});
    }
  }

  /** Following unfinished dependencies inside a set ends at a task without any. */
  lemma {:induction false} Descend(table: Table, r: set<TaskId>, p: seq<TaskId>) returns (id: TaskId)
    requires Acyclic(table) && r <= Unfinished(table) && p != [] && Path(table, p)
    requires |p| <= |r| && forall i :: 0 <= i < |p| ==> p[i] in r
    ensures id in r && forall d <- table[id].Dependencies() :: d !in r
    decreases |r| - |p|
  {
    id := p[|p| - 1];
    if d :| d in table[id].Dependencies() && d in r {
      var longer := p + [d];
      assert Path(table, longer);
      forall i, j | 0 <= i < j < |longer| ensures longer[i] != longer[j] {
        PathsAreSimple(table, longer, i, j);
      }
      DistinctFit(longer, r);
      id := Descend(table, r, longer);
    }
  }

  /** Heights for a set of unfinished tasks that holds their unfinished dependencies too. */
  ghost predicate HeightsOn(table: Table, s: set<TaskId>, h: map<TaskId, nat>) {
    && h.Keys == s <= Unfinished(table)
    && (forall id <- s :: h[id] < |s|)
    && forall id <- s :: forall d <- table[id].Dependencies() :: d in Unfinished(table) ==> d in s && h[d] < h[id]
  }

  lemma Within(table: Table, s: set<TaskId>, h: map<TaskId, nat>)
    requires HeightsOn(table, s, h)
    ensures s <= Unfinished(table)
  {
  }

  lemma Fits(id: TaskId, r: set<TaskId>)
    requires id in r
    ensures 1 <= |r|
  {
  }

  /** A task whose unfinished dependencies have heights gets the next one. */
  lemma OneMore(table: Table, s: set<TaskId>, lower: map<TaskId, nat>, id: TaskId)
    requires HeightsOn(table, s, lower) && id in Unfinished(table) && id !in s
    requires forall d <- table[id].Dependencies() :: d in Unfinished(table) ==> d in s
    ensures HeightsOn(table, s + {id}, lower[id := |s|])
  {
    var more, h := s + {id}, lower[id := |s|];
    assert |more| == |s| + 1;
    forall other <- more, d | d in table[other].Dependencies() && d in Unfinished(table)
      ensures d in more && h[d] < h[other]
    {
      assert d in s;
    }
  }

  /** Removing tasks without unfinished dependencies one after the other numbers them all. */
  lemma {:induction false} Number(table: Table, s: set<TaskId>, lower: map<TaskId, nat>) returns (h: map<TaskId, nat>)
    requires Acyclic(table) && HeightsOn(table, s, lower)
    ensures HeightsOn(table, Unfinished(table), h)
    decreases Unfinished(table) - s
  {
    hide Acyclic, HeightsOn;
    assert s <= Unfinished(table) by { Within(table, s, lower); }
    var r := Unfinished(table) - s;
    if r == {} {
      forall id <- Unfinished(table) ensures id in s { assert id !in r; }
      assert s == Unfinished(table);
      h := lower;
    } else {
      var some :| some in r;
      Fits(some, r);
      var id := Descend(table, r, [some]);
      OneMore(table, s, lower, id);
      h := Number(table, s + {id}, lower[id := |s|]);
    }
  }

  /** A height for every unfinished task exists exactly if every dependency of one is present and
      no path along unfinished tasks closes. */
  lemma HeightsExactly(table: Table)
    ensures (exists h: map<TaskId, nat> :: Heights(table, h)) <==> Closed(table) && Acyclic(table)
  {
    if h: map<TaskId, nat> :| Heights(table, h) {
      forall p: seq<TaskId> | Path(table, p) && |p| >= 2 ensures p[0] != p[|p| - 1] {
        PathsDescend(table, h, p);
      }
    }
    if Closed(table) && Acyclic(table) {
      var h := Number(table, {}, map[]);
      assert Heights(table, h);
    }
  }

  // ---- Rounds --------------------------------------------------------------------------------------------

  /** A round finishes exactly one task, the one offered, and leaves the others alone. */
  lemma RoundFinishesOne(before: Table, after: Table) returns (id: TaskId)
    requires Round(before, after)
    ensures id in Unfinished(before) && Unfinished(after) == Unfinished(before) - {id}
    ensures IsUnblocked(id, before)
    ensures after.Keys == before.Keys && forall o <- before :: o != id ==> after[o] == before[o]
    ensures after[id].IsDone()
    ensures forall o <- before :: after[o].Dependencies() == before[o].Dependencies()
    ensures Quiet(before) ==> Quiet(after)
  {
    var stream, orch, at, later, message :|
      RoundOf(before, after, stream, orch, at, later, message);
    id := FindOpenTask(stream, before).value;
    assert IsCandidate(stream, before, id);
  }

  lemma {:induction false} LowestIsOffered(table: Table, h: map<TaskId, nat>, id: TaskId)
    returns (stream: string)
    requires Quiet(table) && Heights(table, h) && id in Unfinished(table)
    ensures Offers(stream, table)
    decreases h[id]
  {
    if IsUnblocked(id, table) {
      stream := table[id].stream.value;
      assert IsCandidate(stream, table, id);
    } else {
      var d :| d in table[id].Dependencies() && !(d in table && table[d].IsDone());
      stream := LowestIsOffered(table, h, d);
    }
  }

  /** The scheduler never deadlocks on an acyclic table without missing dependencies. */
  lemma SomeStreamOffers(table: Table) returns (stream: string)
    requires Quiet(table) && Closed(table) && Acyclic(table) && Unfinished(table) != {}
    ensures Offers(stream, table)
  {
    HeightsExactly(table);
    var h: map<TaskId, nat> :| Heights(table, h);
    var id :| id in Unfinished(table);
    stream := LowestIsOffered(table, h, id);
  }

  /** Rounds are counted by the tasks they finish; nothing is reopened on the way. */
  lemma {:induction false} RoundsCount(tables: seq<Table>)
    requires Rounds(tables)
    ensures |Unfinished(tables[0])| == |Unfinished(Last(tables))| + |tables| - 1
    ensures Unfinished(Last(tables)) <= Unfinished(tables[0])
    ensures Quiet(tables[0]) ==> Quiet(Last(tables))
    ensures Last(tables).Keys == tables[0].Keys
    ensures forall id <- tables[0] :: Last(tables)[id].Dependencies() == tables[0][id].Dependencies()
    ensures forall id <- tables[0] :: tables[0][id].IsDone() ==> Last(tables)[id].IsDone()
    decreases |tables|
  {
    if |tables| > 1 {
      var id := RoundFinishesOne(tables[0], tables[1]);
      RoundsCount(tables[1..]);
    }
  }

  predicate Offers(stream: string, table: Table) {
    FindOpenTask(stream, table).Some?
  }

  ghost predicate NoOffer(table: Table) {
    forall stream: string :: !Offers(stream, table)
  }

  /** A sequence of rounds that no stream can continue. */
  ghost predicate Maximal(tables: seq<Table>) {
    Rounds(tables) && NoOffer(Last(tables))
  }

  /** Draining: whatever streams are served in whatever order, a quiet, closed, acyclic table ends
      with everything done after exactly as many rounds as it had unfinished tasks. */
  lemma DrainsAcyclic(tables: seq<Table>)
    requires Maximal(tables) && Quiet(tables[0]) && Closed(tables[0]) && Acyclic(tables[0])
    ensures Unfinished(Last(tables)) == {}
    ensures |tables| - 1 == |Unfinished(tables[0])|
  {
    RoundsCount(tables);
    HeightsExactly(tables[0]);
    var h: map<TaskId, nat> :| Heights(tables[0], h);
    var last := Last(tables);
    assert Heights(last, h);
    if Unfinished(last) != {} {
      var id :| id in Unfinished(last);
      var stream := LowestIsOffered(last, h, id);
    }
  }

  lemma RoundIsPossible(table: Table, h: map<TaskId, nat>) returns (after: Table)
    requires Quiet(table) && Heights(table, h) && Unfinished(table) != {}
    ensures Round(table, after)
  {
    var some :| some in Unfinished(table);
    var stream := LowestIsOffered(table, h, some);
    var id := FindOpenTask(stream, table).value;
    after := Apply(Finalize(id, "", true, None, 3), 0, Apply(Claim(id, "", false, true), 0, table));
    assert RoundOf(table, after, stream, "", 0, 0, None);
  }

  lemma RoundKeepsHeights(before: Table, after: Table, h: map<TaskId, nat>)
    requires Round(before, after) && Quiet(before) && Heights(before, h)
    ensures Quiet(after) && Heights(after, h) && |Unfinished(after)| < |Unfinished(before)|
  {
    var id := RoundFinishesOne(before, after);
    assert id in Unfinished(before);
  }

  lemma {:induction false} DrainByHeights(table: Table, h: map<TaskId, nat>) returns (tables: seq<Table>)
    requires Quiet(table) && Heights(table, h)
    ensures Rounds(tables) && tables[0] == table && Unfinished(Last(tables)) == {}
    decreases |Unfinished(table)|
  {
    hide Heights, Round, Quiet, Unfinished;
    if Unfinished(table) == {} {
      tables := [table];
    } else {
      var after := RoundIsPossible(table, h);
      RoundKeepsHeights(table, after, h);
      var rest := DrainByHeights(after, h);
      tables := [table] + rest;
      assert tables[1..] == rest;
    }
  }

  /** ... and such a sequence can be carried out. */
  lemma DrainExists(table: Table) returns (tables: seq<Table>)
    requires Quiet(table) && Closed(table) && Acyclic(table)
    ensures Rounds(tables) && tables[0] == table && Unfinished(Last(tables)) == {}
  {
    HeightsExactly(table);
    var h: map<TaskId, nat> :| Heights(table, h);
    tables := DrainByHeights(table, h);
  }

  lemma LiftHeights(before: Table, after: Table, lower: map<TaskId, nat>) returns (h: map<TaskId, nat>)
    requires Round(before, after) && Heights(after, lower)
    ensures Heights(before, h)
  {
    var first := RoundFinishesOne(before, after);
    h := (map id <- lower :: lower[id] + 1)[first := 0];
    forall id <- Unfinished(before)
      ensures id in h && forall d <- before[id].Dependencies() ::
        d in before && (before[d].IsDone() || (d in h && h[d] < h[id]))
    {
      assert id == first || id in Unfinished(after);
    }
  }

  /** The converse: the order in which a drain finishes the tasks gives heights. */
  lemma {:induction false} DrainedHasHeights(tables: seq<Table>) returns (h: map<TaskId, nat>)
    requires Rounds(tables) && Unfinished(Last(tables)) == {}
    ensures Heights(tables[0], h)
    decreases |tables|
  {
    if |tables| == 1 {
      h := map[];
    } else {
      var lower := DrainedHasHeights(tables[1..]);
      h := LiftHeights(tables[0], tables[1], lower);
    }
  }

  ghost predicate Drains(table: Table) {
    exists tables: seq<Table> :: Rounds(tables) && tables[0] == table && Unfinished(Last(tables)) == {}
  }

  /** A quiet table can be worked off exactly when its unfinished tasks depend on no missing task
      and along no closed path. */
  lemma DrainsIffAcyclic(table: Table)
    requires Quiet(table)
    ensures Drains(table) <==> Closed(table) && Acyclic(table)
  {
    if Closed(table) && Acyclic(table) {
      var tables := DrainExists(table);
    }
    if Drains(table) {
      var tables :| Rounds(tables) && tables[0] == table && Unfinished(Last(tables)) == {};
      var h := DrainedHasHeights(tables);
      HeightsExactly(table);
    }
  }
}
