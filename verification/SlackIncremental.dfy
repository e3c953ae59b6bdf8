/** Many small syncs equal one big sync, and exactly when. */
module SlackIncremental {
  import opened Timestamps
  import opened Options
  import opened SlackSync

  // ---- One channel -------------------------------------------------------------------------------

  function DocOf(w: Workspace, channel: string, m: Message): Document {
    if m.HasThread() then ThreadDoc(channel, m, Replies(w.Listing(channel, m.ts), m.ts))
    else SingleDoc(channel, m)
  }

  /** The documents of the kept messages of `h` with a stamp above `lo` and at most `hi`
      (no upper bound if `hi` is absent). */
  function Due(w: Workspace, channel: string, h: seq<Message>, lo: string, hi: Option<string>): multiset<Document> {
    if h == [] then multiset{}
    else
      var m, front := h[|h| - 1], Due(w, channel, h[..|h| - 1], lo, hi);
      if m.Kept() && Value(m.ts) > Value(lo) && (hi.Some? ==> Value(m.ts) <= Value(hi.value))
      then front + multiset{DocOf(w, channel, m)} else front
  }

  predicate Stamped(h: seq<Message>) {
    && (forall m <- h :: IsStamp(m.ts))
    && forall i, j :: 0 <= i < j < |h| ==> h[i].ts != h[j].ts
  }

  function Collected(w: Workspace, channel: string, s: Scan): multiset<Document> {
    multiset(ThreadDocs(w, channel, s.parents)) + multiset(SingleDocs(channel, s.singles))
  }

  lemma {:induction false} PutNew(d: seq<(string, Message)>, key: string, m: Message)
    requires forall p <- d :: p.0 != key
    ensures Put(d, key, m) == d + [(key, m)]
  {
    if d != [] { PutNew(d[1..], key, m); }
  }

  function KeptDocs(w: Workspace, channel: string, listing: seq<Message>): multiset<Document> {
    if listing == [] then multiset{}
    else
      var m := listing[|listing| - 1];
      KeptDocs(w, channel, listing[..|listing| - 1])
        + (if m.Kept() then multiset{DocOf(w, channel, m)} else multiset{})
  }

  lemma SeeCollects(w: Workspace, channel: string, s: Scan, m: Message)
    requires forall p <- s.parents :: p.0 != m.ts
    ensures Collected(w, channel, See(s, m)) ==
      Collected(w, channel, s) + (if m.Kept() then multiset{DocOf(w, channel, m)} else multiset{})
    ensures forall p <- See(s, m).parents :: p in s.parents || p.0 == m.ts
  {
    if m.Kept() && m.HasThread() {
      PutNew(s.parents, m.ts, m);
      assert (s.parents + [(m.ts, m)])[..|s.parents|] == s.parents;
    } else if m.Kept() {
      assert (s.singles + [m])[..|s.singles|] == s.singles;
    }
  }

  /** Keeping thread parents in a table loses nothing, because stamps are unique. */
  lemma {:induction false} ScanCollects(w: Workspace, channel: string, listing: seq<Message>, oldest: string)
    requires forall i, j :: 0 <= i < j < |listing| ==> listing[i].ts != listing[j].ts
    ensures var s := ScanAll(Scan([], [], oldest), listing);
      && Collected(w, channel, s) == KeptDocs(w, channel, listing)
      && forall p <- s.parents :: exists m <- listing :: p.0 == m.ts
  {
    if listing != [] {
      var front, m := listing[..|listing| - 1], listing[|listing| - 1];
      ScanCollects(w, channel, front, oldest);
      var s := ScanAll(Scan([], [], oldest), front);
      forall p <- s.parents ensures p.0 != m.ts {
        var k :| 0 <= k < |front| && p.0 == front[k].ts;
        assert listing[k] == front[k];
      }
      SeeCollects(w, channel, s, m);
      forall p <- See(s, m).parents ensures exists x <- listing :: p.0 == x.ts {
        if p in s.parents {
          var x :| x in front && p.0 == x.ts;
          assert x in listing;
        } else {
          assert m in listing;
        }
      }
    }
  }

  lemma {:induction false} KeptDocsCons(w: Workspace, channel: string, m: Message, rest: seq<Message>)
    ensures KeptDocs(w, channel, [m] + rest) ==
      (if m.Kept() then multiset{DocOf(w, channel, m)} else multiset{}) + KeptDocs(w, channel, rest)
    decreases |rest|
  {
    if rest == [] {
      assert [m] + rest == [m];
      assert [m][..0] == [];
    } else {
      assert ([m] + rest)[..|rest|] == [m] + rest[..|rest| - 1];
      KeptDocsCons(w, channel, m, rest[..|rest| - 1]);
    }
  }

  lemma {:induction false} NewerHolds(w: Workspace, channel: string, h: seq<Message>, lo: string)
    ensures KeptDocs(w, channel, Newer(h, lo)) == Due(w, channel, h, lo, None)
  {
    if h != [] {
      NewerHolds(w, channel, h[..|h| - 1], lo);
      KeptDocsCons(w, channel, h[|h| - 1], Newer(h[..|h| - 1], lo));
    }
  }

  lemma {:induction false} NewerMembers(h: seq<Message>, lo: string)
    ensures forall m :: m in Newer(h, lo) <==> m in h && Value(m.ts) > Value(lo)
  {
    if h != [] {
      NewerMembers(h[..|h| - 1], lo);
      assert h == h[..|h| - 1] + [h[|h| - 1]];
    }
  }

  lemma {:induction false} NewerDistinct(h: seq<Message>, lo: string)
    requires Stamped(h)
    ensures forall i, j :: 0 <= i < j < |Newer(h, lo)| ==> Newer(h, lo)[i].ts != Newer(h, lo)[j].ts
  {
    if h != [] {
      var front, m := h[..|h| - 1], h[|h| - 1];
      NewerDistinct(front, lo);
      NewerMembers(front, lo);
      forall x <- Newer(front, lo) ensures x.ts != m.ts {
        var k :| 0 <= k < |front| && front[k] == x;
        assert h[k].ts != h[|h| - 1].ts;
      }
    }
  }

  function LatestOf(oldest: string, listing: seq<Message>): string {
    ScanAll(Scan([], [], oldest), listing).latest
  }

  /** Where the cursor of a channel stands after a sync: at a mark, not below the old one, not
      below any kept message it was given ... */
  lemma {:induction false} LatestIsMark(listing: seq<Message>, oldest: string)
    requires IsMark(oldest) && forall m <- listing :: IsStamp(m.ts)
    ensures IsMark(LatestOf(oldest, listing)) && Value(LatestOf(oldest, listing)) >= Value(oldest)
    ensures forall m <- listing :: m.Kept() ==> Value(m.ts) <= Value(LatestOf(oldest, listing))
  {
    if listing != [] {
      var front, m := listing[..|listing| - 1], listing[|listing| - 1];
      LatestIsMark(front, oldest);
      assert m in listing;
      MarkOrder(LatestOf(oldest, front), m.ts);
      assert listing == front + [m];
    }
  }

  /** ... and no further than the last of them. */
  lemma {:induction false} LatestHasSource(listing: seq<Message>, oldest: string)
    ensures LatestOf(oldest, listing) == oldest ||
      exists m <- listing :: m.Kept() && m.ts == LatestOf(oldest, listing)
  {
    if listing != [] {
      var front, m := listing[..|listing| - 1], listing[|listing| - 1];
      LatestHasSource(front, oldest);
      assert m in listing;
      if LatestOf(oldest, front) != oldest {
        var x :| x in front && x.Kept() && x.ts == LatestOf(oldest, front);
        assert x in listing;
      }
    }
  }

  lemma {:induction false} DueAppend(w: Workspace, channel: string, a: seq<Message>, b: seq<Message>, lo: string,
                                     hi: Option<string>)
    ensures Due(w, channel, a + b, lo, hi) == Due(w, channel, a, lo, hi) + Due(w, channel, b, lo, hi)
    decreases |b|
  {
    if b == [] {
      assert a + b == a;
    } else {
      assert (a + b)[..|a + b| - 1] == a + b[..|b| - 1];
      DueAppend(w, channel, a, b[..|b| - 1], lo, hi);
    }
  }

  lemma {:induction false} DueSplit(w: Workspace, channel: string, h: seq<Message>, lo: string, mid: string)
    requires Value(lo) <= Value(mid)
    ensures Due(w, channel, h, lo, None) == Due(w, channel, h, mid, None) + Due(w, channel, h, lo, Some(mid))
  {
    if h != [] { DueSplit(w, channel, h[..|h| - 1], lo, mid); }
  }

  lemma {:induction false} DueEmpty(w: Workspace, channel: string, h: seq<Message>, lo: string, hi: Option<string>)
    ensures Due(w, channel, h, lo, hi) == multiset{} <==>
      forall m <- h :: m.Kept() && Value(m.ts) > Value(lo) ==> hi.Some? && Value(m.ts) > Value(hi.value)
  {
    if h != [] {
      DueEmpty(w, channel, h[..|h| - 1], lo, hi);
      assert h == h[..|h| - 1] + [h[|h| - 1]];
      if h[|h| - 1].Kept() && Value(h[|h| - 1].ts) > Value(lo) &&
         (hi.Some? ==> Value(h[|h| - 1].ts) <= Value(hi.value)) {
        assert DocOf(w, channel, h[|h| - 1]) in Due(w, channel, h, lo, hi);
      }
    }
  }

  lemma {:induction false} DueSameThreads(w: Workspace, w': Workspace, channel: string, h: seq<Message>, lo: string,
                                          hi: Option<string>)
    requires forall m <- h :: w.Listing(channel, m.ts) == w'.Listing(channel, m.ts)
    ensures Due(w, channel, h, lo, hi) == Due(w', channel, h, lo, hi)
  {
    if h != [] { DueSameThreads(w, w', channel, h[..|h| - 1], lo, hi); }
  }

  /** What one sync of a channel delivers, in terms of the history alone. */
  lemma ChannelDelivers(w: Workspace, channel: string, oldest: string)
    requires IsMark(oldest) && Stamped(w.Arrived(channel))
    ensures multiset(ChannelDocs(w, channel, oldest)) == Due(w, channel, w.Arrived(channel), oldest, None)
    ensures var latest := ScanChannel(w, channel, oldest).latest;
      && IsMark(latest) && Value(latest) >= Value(oldest)
      && Due(w, channel, w.Arrived(channel), latest, None) == multiset{}
      && (latest == oldest || exists m <- w.Arrived(channel) :: m.Kept() && m.ts == latest)
  {
    var h := w.Arrived(channel);
    NewerHolds(w, channel, h, oldest);
    NewerMembers(h, oldest);
    NewerDistinct(h, oldest);
    ScanCollects(w, channel, Newer(h, oldest), oldest);
    LatestIsMark(Newer(h, oldest), oldest);
    LatestHasSource(Newer(h, oldest), oldest);
    DueEmpty(w, channel, h, ScanChannel(w, channel, oldest).latest, None);
  }

  /** A later state of a workspace: messages are only added, and those already there gain no
      replies. */
  predicate Extends(w: Workspace, w': Workspace, channel: string) {
    && w.Arrived(channel) <= w'.Arrived(channel)
    && forall m <- w.Arrived(channel) :: w.Listing(channel, m.ts) == w'.Listing(channel, m.ts)
  }

  /** Messages that arrived between the two states with a stamp that the cursor has already
      passed. */
  function Late(w: Workspace, w': Workspace, channel: string, oldest: string): multiset<Document> {
    var h, h' := w.Arrived(channel), w'.Arrived(channel);
    Due(w', channel, if |h| <= |h'| then h'[|h|..] else [], oldest, Some(ScanChannel(w, channel, oldest).latest))
  }

  /** The step: syncing now and later from the new cursor, plus the late messages, is the
      later sync from the old cursor. */
  lemma ChannelSplit(w: Workspace, w': Workspace, channel: string, oldest: string)
    requires IsMark(oldest) && Stamped(w'.Arrived(channel)) && Extends(w, w', channel)
    ensures var latest := ScanChannel(w, channel, oldest).latest;
      && Stamped(w.Arrived(channel)) && IsMark(latest)
      && multiset(ChannelDocs(w', channel, oldest)) ==
           multiset(ChannelDocs(w, channel, oldest)) + multiset(ChannelDocs(w', channel, latest))
             + Late(w, w', channel, oldest)
  {
    hide Due, ChannelDocs, ScanChannel;
    var h, h' := w.Arrived(channel), w'.Arrived(channel);
    assert forall m <- h :: m in h';
    var latest := ScanChannel(w, channel, oldest).latest;
    ChannelDelivers(w, channel, oldest);
    ChannelDelivers(w', channel, oldest);
    ChannelDelivers(w', channel, latest);
    HistorySplit(w', channel, h, h'[|h|..], oldest, latest);
    assert h' == h + h'[|h|..];
    DueSameThreads(w, w', channel, h, oldest, None);
    DueSameThreads(w, w', channel, h, latest, None);
  }

  lemma HistorySplit(w: Workspace, channel: string, h: seq<Message>, extra: seq<Message>, lo: string, mid: string)
    requires Value(lo) <= Value(mid)
    ensures Due(w, channel, h + extra, lo, None) + Due(w, channel, h, mid, None) ==
      Due(w, channel, h, lo, None) + Due(w, channel, h + extra, mid, None) + Due(w, channel, extra, lo, Some(mid))
  {
    DueAppend(w, channel, h, extra, lo, None);
    DueAppend(w, channel, h, extra, mid, None);
    DueSplit(w, channel, extra, lo, mid);
  }

  // ---- Whole workspaces and whole histories ------------------------------------------------------

  /** Snapshots of a growing workspace, one for each call. */
  predicate Growing(ws: seq<Workspace>, channels: seq<string>) {
    && (forall i, j, c | 0 <= i <= j < |ws| && c in channels :: Extends(ws[i], ws[j], c))
    && (forall i, c | 0 <= i < |ws| && c in channels :: Stamped(ws[i].Arrived(c)))
  }

  predicate Marked(cursors: map<string, string>, backfill: Option<string>, channels: seq<string>) {
    forall c <- channels :: IsMark(StartOf(cursors, backfill, c))
  }

  /** Successive calls, each starting from the cursor the previous one returned. */
  function Incremental(ws: seq<Workspace>, cursors: map<string, string>, backfill: Option<string>,
                       channels: seq<string>): seq<Document>
  {
    if ws == [] then []
    else
      SyncDocs(ws[0], cursors, backfill, channels)
        + Incremental(ws[1..], NextCursors(ws[0], cursors, backfill, channels), None, channels)
  }

  function LateAt(w: Workspace, w': Workspace, cursors: map<string, string>, backfill: Option<string>,
                  channels: seq<string>): multiset<Document>
  {
    if channels == [] then multiset{}
    else
      var c := channels[|channels| - 1];
      LateAt(w, w', cursors, backfill, channels[..|channels| - 1]) + Late(w, w', c, StartOf(cursors, backfill, c))
  }

  /** All messages that were late for some call. */
  function Missed(ws: seq<Workspace>, cursors: map<string, string>, backfill: Option<string>,
                  channels: seq<string>): multiset<Document>
  {
    if ws == [] then multiset{}
    else
      LateAt(ws[0], ws[|ws| - 1], cursors, backfill, channels)
        + Missed(ws[1..], NextCursors(ws[0], cursors, backfill, channels), None, channels)
  }

  lemma {:induction false} NextCursorAt(w: Workspace, cursors: map<string, string>, backfill: Option<string>,
                                        channels: seq<string>, c: string)
    requires c in channels
    ensures c in NextCursors(w, cursors, backfill, channels)
    ensures NextCursors(w, cursors, backfill, channels)[c] == ScanChannel(w, c, StartOf(cursors, backfill, c)).latest
  {
    var last, front := channels[|channels| - 1], channels[..|channels| - 1];
    if c != last {
      assert channels == front + [last];
      NextCursorAt(w, cursors, backfill, front, c);
    }
  }

  /** The cursor of a channel never moves back, and it stays a mark. */
  lemma CursorAdvances(w: Workspace, cursors: map<string, string>, backfill: Option<string>, channels: seq<string>,
                       c: string)
    requires c in channels && IsMark(StartOf(cursors, backfill, c)) && Stamped(w.Arrived(c))
    ensures var next := StartOf(NextCursors(w, cursors, backfill, channels), None, c);
      && next == ScanChannel(w, c, StartOf(cursors, backfill, c)).latest
      && IsMark(next) && Value(next) >= Value(StartOf(cursors, backfill, c))
  {
    NextCursorAt(w, cursors, backfill, channels, c);
    ChannelDelivers(w, c, StartOf(cursors, backfill, c));
  }

  lemma AllCursorsAdvance(w: Workspace, cursors: map<string, string>, backfill: Option<string>, channels: seq<string>)
    requires Marked(cursors, backfill, channels) && forall c <- channels :: Stamped(w.Arrived(c))
    ensures Marked(NextCursors(w, cursors, backfill, channels), None, channels)
  {
    forall c <- channels ensures IsMark(StartOf(NextCursors(w, cursors, backfill, channels), None, c)) {
      CursorAdvances(w, cursors, backfill, channels, c);
    }
  }

  predicate Splits(w: Workspace, w': Workspace, c: string, oldest: string, latest: string) {
    multiset(ChannelDocs(w', c, oldest)) ==
      multiset(ChannelDocs(w, c, oldest)) + multiset(ChannelDocs(w', c, latest)) + Late(w, w', c, oldest)
  }

  /** One call and everything after it, channel by channel. */
  lemma {:induction false} SumOfSplits(w: Workspace, w': Workspace, cursors: map<string, string>,
                                       backfill: Option<string>, next: map<string, string>, channels: seq<string>)
    requires forall c <- channels :: Splits(w, w', c, StartOf(cursors, backfill, c), StartOf(next, None, c))
    ensures multiset(SyncDocs(w', cursors, backfill, channels)) ==
      multiset(SyncDocs(w, cursors, backfill, channels)) + multiset(SyncDocs(w', next, None, channels))
        + LateAt(w, w', cursors, backfill, channels)
  {
    if channels != [] {
      var c, front := channels[|channels| - 1], channels[..|channels| - 1];
      assert channels == front + [c];
      SumOfSplits(w, w', cursors, backfill, next, front);
      var oldest, latest := StartOf(cursors, backfill, c), StartOf(next, None, c);
      assert Splits(w, w', c, oldest, latest);
      AddSplits(SyncDocs(w', cursors, backfill, front), ChannelDocs(w', c, oldest),
                SyncDocs(w, cursors, backfill, front), ChannelDocs(w, c, oldest),
                SyncDocs(w', next, None, front), ChannelDocs(w', c, latest),
                LateAt(w, w', cursors, backfill, front), Late(w, w', c, oldest));
    }
  }

  lemma AddSplits(all: seq<Document>, all': seq<Document>, now: seq<Document>, now': seq<Document>,
                  later: seq<Document>, later': seq<Document>, late: multiset<Document>, late': multiset<Document>)
    requires multiset(all) == multiset(now) + multiset(later) + late
    requires multiset(all') == multiset(now') + multiset(later') + late'
    ensures multiset(all + all') == multiset(now + now') + multiset(later + later') + (late + late')
  {
  }

  lemma SyncSplit(w: Workspace, w': Workspace, cursors: map<string, string>, backfill: Option<string>,
                  channels: seq<string>)
    requires Growing([w, w'], channels) && Marked(cursors, backfill, channels)
    ensures var next := NextCursors(w, cursors, backfill, channels);
      multiset(SyncDocs(w', cursors, backfill, channels)) ==
        multiset(SyncDocs(w, cursors, backfill, channels)) + multiset(SyncDocs(w', next, None, channels))
          + LateAt(w, w', cursors, backfill, channels)
  {
    var next := NextCursors(w, cursors, backfill, channels);
    forall c <- channels ensures Splits(w, w', c, StartOf(cursors, backfill, c), StartOf(next, None, c)) {
      assert Extends([w, w'][0], [w, w'][1], c) && Stamped([w, w'][0].Arrived(c)) && Stamped([w, w'][1].Arrived(c));
      CursorAdvances(w, cursors, backfill, channels, c);
      ChannelSplit(w, w', c, StartOf(cursors, backfill, c));
    }
    SumOfSplits(w, w', cursors, backfill, next, channels);
  }

  lemma GrowingEnds(ws: seq<Workspace>, channels: seq<string>)
    requires ws != [] && Growing(ws, channels)
    ensures Growing([ws[0], ws[|ws| - 1]], channels) && Growing(ws[1..], channels)
    ensures forall c <- channels :: Stamped(ws[0].Arrived(c))
  {
  }

  /** Conservation: what successive calls deliver, together with the messages that were late
      for one of them, is exactly what a single call at the end delivers from the first
      cursor. */
  lemma {:induction false} NothingElseIsLost(ws: seq<Workspace>, cursors: map<string, string>, backfill: Option<string>,
                                             channels: seq<string>)
    requires ws != [] && Growing(ws, channels) && Marked(cursors, backfill, channels)
    ensures multiset(Incremental(ws, cursors, backfill, channels)) + Missed(ws, cursors, backfill, channels) ==
      multiset(SyncDocs(ws[|ws| - 1], cursors, backfill, channels))
    decreases |ws|
  {
    if |ws| == 1 {
      OnlyCall(ws[0], cursors, backfill, channels);
      assert ws == [ws[0]];
    } else {
      var tail, last := ws[1..], ws[|ws| - 1];
      assert tail[|tail| - 1] == last;
      GrowingEnds(ws, channels);
      AllCursorsAdvance(ws[0], cursors, backfill, channels);
      SyncSplit(ws[0], last, cursors, backfill, channels);
      NothingElseIsLost(tail, NextCursors(ws[0], cursors, backfill, channels), None, channels);
      FirstAndRest(ws, cursors, backfill, channels);
    }
  }

  lemma OnlyCall(w: Workspace, cursors: map<string, string>, backfill: Option<string>, channels: seq<string>)
    ensures multiset(Incremental([w], cursors, backfill, channels)) + Missed([w], cursors, backfill, channels) ==
      multiset(SyncDocs(w, cursors, backfill, channels))
  {
    NothingNew(w, cursors, backfill, channels);
    assert [w][1..] == [];
    assert Incremental([w], cursors, backfill, channels) == SyncDocs(w, cursors, backfill, channels);
  }

  lemma FirstAndRest(ws: seq<Workspace>, cursors: map<string, string>, backfill: Option<string>, channels: seq<string>)
    requires |ws| > 1
    requires var next, last := NextCursors(ws[0], cursors, backfill, channels), ws[|ws| - 1];
      && multiset(SyncDocs(last, cursors, backfill, channels)) ==
           multiset(SyncDocs(ws[0], cursors, backfill, channels)) + multiset(SyncDocs(last, next, None, channels))
             + LateAt(ws[0], last, cursors, backfill, channels)
      && multiset(Incremental(ws[1..], next, None, channels)) + Missed(ws[1..], next, None, channels) ==
           multiset(SyncDocs(last, next, None, channels))
    ensures multiset(Incremental(ws, cursors, backfill, channels)) + Missed(ws, cursors, backfill, channels) ==
      multiset(SyncDocs(ws[|ws| - 1], cursors, backfill, channels))
  {
    var next, last := NextCursors(ws[0], cursors, backfill, channels), ws[|ws| - 1];
    CallsRegrouped(SyncDocs(last, cursors, backfill, channels), SyncDocs(ws[0], cursors, backfill, channels),
                   Incremental(ws[1..], next, None, channels), SyncDocs(last, next, None, channels),
                   LateAt(ws[0], last, cursors, backfill, channels), Missed(ws[1..], next, None, channels));
  }

  lemma CallsRegrouped(all: seq<Document>, now: seq<Document>, steps: seq<Document>, later: seq<Document>,
                       late: multiset<Document>, missed: multiset<Document>)
    requires multiset(all) == multiset(now) + multiset(later) + late
    requires multiset(steps) + missed == multiset(later)
    ensures multiset(now + steps) + (late + missed) == multiset(all)
  {
  }

  lemma {:induction false} NothingNew(w: Workspace, cursors: map<string, string>, backfill: Option<string>,
                                      channels: seq<string>)
    ensures LateAt(w, w, cursors, backfill, channels) == multiset{}
  {
    if channels != [] {
      var c := channels[|channels| - 1];
      assert w.Arrived(c)[|w.Arrived(c)|..] == [];
      NothingNew(w, cursors, backfill, channels[..|channels| - 1]);
    }
  }

  // ---- When nothing is late -------------------------------------------------------------------------

  /** Of the kept messages that arrive between the two states, those with a stamp above the start
      have a stamp above every kept message that was there before. */
  predicate InOrder(w: Workspace, w': Workspace, c: string, start: string) {
    var h, h' := w.Arrived(c), w'.Arrived(c);
    forall i, j | 0 <= i < |h| && |h| <= j < |h'| ::
      h[i].Kept() && h'[j].Kept() && Value(h'[j].ts) > Value(start) ==> Value(h[i].ts) < Value(h'[j].ts)
  }

  /** The messages from position `n` on, as far as they are kept and above the start, are above the
      mark. */
  predicate TailAbove(h: seq<Message>, n: nat, start: string, mark: string) {
    forall j :: n <= j < |h| && h[j].Kept() && Value(h[j].ts) > Value(start) ==> Value(h[j].ts) > Value(mark)
  }

  lemma TailForm(h: seq<Message>, n: nat, start: string, mark: string)
    requires n <= |h|
    ensures TailAbove(h, n, start, mark) <==>
      forall m <- h[n..] :: m.Kept() && Value(m.ts) > Value(start) ==> Value(m.ts) > Value(mark)
  {
    hide Value;
    if TailAbove(h, n, start, mark) {
      forall m <- h[n..] | m.Kept() && Value(m.ts) > Value(start) ensures Value(m.ts) > Value(mark) {
        var k :| 0 <= k < |h[n..]| && h[n..][k] == m;
        assert h[n + k] == m;
      }
    } else {
      var j :| n <= j < |h| && h[j].Kept() && Value(h[j].ts) > Value(start) && Value(h[j].ts) <= Value(mark);
      assert h[n..][j - n] == h[j];
    }
  }

  /** Being above the largest of the earlier stamps, as far as that lies above the start, is being
      above each of them. */
  lemma LatestDecides(h: seq<Message>, h': seq<Message>, start: string, latest: string)
    requires h <= h' && Value(latest) >= Value(start)
    requires forall i :: 0 <= i < |h| && h[i].Kept() ==> Value(h[i].ts) <= Value(latest)
    requires latest == start || exists i :: 0 <= i < |h| && h[i].Kept() && h[i].ts == latest
    ensures TailAbove(h', |h|, start, latest) <==>
      forall i, j | 0 <= i < |h| && |h| <= j < |h'| ::
        h[i].Kept() && h'[j].Kept() && Value(h'[j].ts) > Value(start) ==> Value(h[i].ts) < Value(h'[j].ts)
  {
    hide Value;
  }

  lemma LateExactly(w: Workspace, w': Workspace, c: string, start: string)
    requires Extends(w, w', c) && IsMark(start) && Stamped(w.Arrived(c))
    ensures Late(w, w', c, start) == multiset{} <==> InOrder(w, w', c, start)
  {
    var h, h', latest := w.Arrived(c), w'.Arrived(c), ScanChannel(w, c, start).latest;
    ChannelDelivers(w, c, start);
    DueEmpty(w, c, h, latest, None);
    DueEmpty(w', c, h'[|h|..], start, Some(latest));
    TailForm(h', |h|, start, latest);
    assert forall i :: 0 <= i < |h| && h[i].Kept() ==> h[i] in h && Value(h[i].ts) <= Value(latest);
    assert latest == start || exists i :: 0 <= i < |h| && h[i].Kept() && h[i].ts == latest;
    LatestDecides(h, h', start, latest);
    hide Due, ScanChannel, Value;
  }

  lemma {:induction false} NoneLateExactly(w: Workspace, w': Workspace, cursors: map<string, string>,
                                           backfill: Option<string>, channels: seq<string>)
    requires forall c <- channels :: Extends(w, w', c) && IsMark(StartOf(cursors, backfill, c)) && Stamped(w.Arrived(c))
    ensures LateAt(w, w', cursors, backfill, channels) == multiset{} <==>
      forall c <- channels :: InOrder(w, w', c, StartOf(cursors, backfill, c))
  {
    if channels != [] {
      var c, front := channels[|channels| - 1], channels[..|channels| - 1];
      assert channels == front + [c];
      NoneLateExactly(w, w', cursors, backfill, front);
      LateExactly(w, w', c, StartOf(cursors, backfill, c));
      BothEmpty(LateAt(w, w', cursors, backfill, front), Late(w, w', c, StartOf(cursors, backfill, c)));
    }
  }

  lemma BothEmpty<T>(a: multiset<T>, b: multiset<T>)
    ensures a + b == multiset{} <==> a == multiset{} && b == multiset{}
  {
    assert |a + b| == |a| + |b|;
  }

  /** At every call and in every channel: no message arrives later with a stamp above the first
      start and not above a message that was there. */
  predicate AllInOrder(ws: seq<Workspace>, cursors: map<string, string>, backfill: Option<string>,
                       channels: seq<string>)
  {
    forall i, c | 0 <= i < |ws| && c in channels :: InOrder(ws[i], ws[|ws| - 1], c, StartOf(cursors, backfill, c))
  }

  /** Later order can be judged from the first start or from the first cursor alike: what lies
      between the two is late for the first call already. */
  lemma SameOrderLater(w: Workspace, now: Workspace, last: Workspace, c: string, start: string)
    requires Extends(w, now, c) && Extends(now, last, c) && Extends(w, last, c)
    requires IsMark(start) && Stamped(w.Arrived(c)) && InOrder(w, last, c, start)
    ensures InOrder(now, last, c, start) <==> InOrder(now, last, c, ScanChannel(w, c, start).latest)
  {
    ChannelDelivers(w, c, start);
    hide ScanChannel, Due;
    var latest := ScanChannel(w, c, start).latest;
    var h, mid, h' := w.Arrived(c), now.Arrived(c), last.Arrived(c);
    if latest != start {
      var m :| m in h && m.Kept() && m.ts == latest;
      var k :| 0 <= k < |h| && h[k] == m;
      assert forall j :: |mid| <= j < |h'| && h'[j].Kept() && Value(h'[j].ts) > Value(start) ==>
        Value(latest) < Value(h'[j].ts);
    }
  }

  lemma {:induction false} MissedExactly(ws: seq<Workspace>, cursors: map<string, string>, backfill: Option<string>,
                                         channels: seq<string>)
    requires ws != [] && Growing(ws, channels) && Marked(cursors, backfill, channels)
    ensures Missed(ws, cursors, backfill, channels) == multiset{} <==> AllInOrder(ws, cursors, backfill, channels)
    decreases |ws|
  {
    var first, last, next := ws[0], ws[|ws| - 1], NextCursors(ws[0], cursors, backfill, channels);
    GrowingEnds(ws, channels);
    NoneLateExactly(first, last, cursors, backfill, channels);
    BothEmpty(LateAt(first, last, cursors, backfill, channels), Missed(ws[1..], next, None, channels));
    AllCursorsAdvance(first, cursors, backfill, channels);
    if |ws| > 1 {
      assert ws[1..][|ws| - 2] == last;
      MissedExactly(ws[1..], next, None, channels);
      LaterInOrder(ws, cursors, backfill, channels);
    } else {
      NothingNew(first, cursors, backfill, channels);
    }
  }

  lemma SameOrderAt(ws: seq<Workspace>, cursors: map<string, string>, backfill: Option<string>, channels: seq<string>,
                    i: nat, c: string)
    requires 1 <= i < |ws| && c in channels && Growing(ws, channels) && Marked(cursors, backfill, channels)
    requires InOrder(ws[0], ws[|ws| - 1], c, StartOf(cursors, backfill, c))
    ensures InOrder(ws[i], ws[|ws| - 1], c, StartOf(cursors, backfill, c)) <==>
      InOrder(ws[i], ws[|ws| - 1], c, StartOf(NextCursors(ws[0], cursors, backfill, channels), None, c))
  {
    CursorAdvances(ws[0], cursors, backfill, channels, c);
    SameOrderLater(ws[0], ws[i], ws[|ws| - 1], c, StartOf(cursors, backfill, c));
  }

  lemma LaterInOrder(ws: seq<Workspace>, cursors: map<string, string>, backfill: Option<string>, channels: seq<string>)
    requires |ws| > 1 && Growing(ws, channels) && Marked(cursors, backfill, channels)
    ensures AllInOrder(ws, cursors, backfill, channels) <==>
      && (forall c <- channels :: InOrder(ws[0], ws[|ws| - 1], c, StartOf(cursors, backfill, c)))
      && AllInOrder(ws[1..], NextCursors(ws[0], cursors, backfill, channels), None, channels)
  {
    hide InOrder, StartOf, NextCursors, Growing, Marked;
    var last, next := ws[|ws| - 1], NextCursors(ws[0], cursors, backfill, channels);
    assert ws[1..][|ws| - 2] == last;
    if forall c <- channels :: InOrder(ws[0], last, c, StartOf(cursors, backfill, c)) {
      forall i, c | 1 <= i < |ws| && c in channels
        ensures InOrder(ws[i], last, c, StartOf(cursors, backfill, c)) <==>
          InOrder(ws[1..][i - 1], last, c, StartOf(next, None, c))
      {
        SameOrderAt(ws, cursors, backfill, channels, i, c);
      }
      if AllInOrder(ws[1..], next, None, channels) {
        forall i, c | 1 <= i < |ws| && c in channels ensures InOrder(ws[i], last, c, StartOf(cursors, backfill, c)) {
          assert InOrder(ws[1..][i - 1], last, c, StartOf(next, None, c));
        }
      }
      if AllInOrder(ws, cursors, backfill, channels) {
        forall i, c | 0 <= i < |ws[1..]| && c in channels ensures InOrder(ws[1..][i], last, c, StartOf(next, None, c)) {
          assert InOrder(ws[i + 1], last, c, StartOf(cursors, backfill, c));
        }
      }
    }
  }

  /** Incremental equals full exactly when, at every call, no message arrives later with a stamp
      above the first start and not above a message that was there. */
  lemma IncrementalEqualsFull(ws: seq<Workspace>, cursors: map<string, string>, backfill: Option<string>,
                              channels: seq<string>)
    requires ws != [] && Growing(ws, channels) && Marked(cursors, backfill, channels)
    ensures multiset(Incremental(ws, cursors, backfill, channels)) ==
        multiset(SyncDocs(ws[|ws| - 1], cursors, backfill, channels))
      <==> AllInOrder(ws, cursors, backfill, channels)
  {
    NothingElseIsLost(ws, cursors, backfill, channels);
    MissedExactly(ws, cursors, backfill, channels);
    var i, m := multiset(Incremental(ws, cursors, backfill, channels)), Missed(ws, cursors, backfill, channels);
    if i + m == i {
      assert |i + m| == |i| + |m|;
    }
  }

  /** The channel's history grows in stamp order. */
  predicate Ascending(h: seq<Message>) {
    forall i, j | 0 <= i < j < |h| :: Value(h[i].ts) < Value(h[j].ts)
  }

  lemma AscendingInOrder(w: Workspace, w': Workspace, c: string, start: string)
    requires Extends(w, w', c) && Ascending(w'.Arrived(c))
    ensures InOrder(w, w', c, start)
  {
    hide Value;
    assert forall i :: 0 <= i < |w.Arrived(c)| ==> w.Arrived(c)[i] == w'.Arrived(c)[i];
  }

  /** For histories that grow in stamp order, any split into successive calls delivers what one
      call would have delivered. */
  lemma AnySplitDeliversAll(ws: seq<Workspace>, cursors: map<string, string>, backfill: Option<string>,
                            channels: seq<string>)
    requires ws != [] && Growing(ws, channels) && Marked(cursors, backfill, channels)
    requires forall c <- channels :: Ascending(ws[|ws| - 1].Arrived(c))
    ensures multiset(Incremental(ws, cursors, backfill, channels)) ==
      multiset(SyncDocs(ws[|ws| - 1], cursors, backfill, channels))
  {
    IncrementalEqualsFull(ws, cursors, backfill, channels);
    forall i, c | 0 <= i < |ws| && c in channels
      ensures InOrder(ws[i], ws[|ws| - 1], c, StartOf(cursors, backfill, c))
    {
      AscendingInOrder(ws[i], ws[|ws| - 1], c, StartOf(cursors, backfill, c));
    }
    hide Incremental, SyncDocs, InOrder, Growing, Ascending, StartOf;
  }

  // One message that arrives late.

  const ZEROS := "0000000000.00000"

  lemma {:induction false} LeadingZeros(p: string, d: char)
    requires IsDigit(d) && forall k :: 0 <= k < |p| ==> p[k] == '0' || p[k] == '.'
    ensures Value(p + [d]) == DigitValue(d)
  {
    if p != [] {
      assert (p + [d])[1..] == p[1..] + [d];
      LeadingZeros(p[1..], d);
    } else {
      assert [d][1..] == [];
      assert Value([d]) == Times(DigitValue(d), 1) == DigitValue(d) by { TimesOne(DigitValue(d)); }
    }
  }

  lemma {:induction false} TimesOne(n: nat)
    ensures Times(n, 1) == n
  {
    if n > 0 { TimesOne(n - 1); }
  }

  lemma SmallStamp(d: char)
    requires '1' <= d <= '9'
    ensures IsStamp(ZEROS + [d]) && Value(ZEROS + [d]) == d as int - '0' as int
  {
    LeadingZeros(ZEROS, d);
    var s := ZEROS + [d];
    assert |ZEROS| == 16 && forall k :: 0 <= k < 16 ==> s[k] == ZEROS[k];
  }

  /** A message whose stamp the cursor has passed when it arrives is never delivered. */
  lemma LateIsLost() returns (ws: seq<Workspace>)
    ensures ws != [] && Growing(ws, ["c"]) && Marked(map[], None, ["c"])
    ensures multiset(Incremental(ws, map[], None, ["c"])) != multiset(SyncDocs(ws[|ws| - 1], map[], None, ["c"]))
  {
    SmallStamp('1');
    SmallStamp('2');
    var early, late := Message(ZEROS + ['2'], "", 0, ""), Message(ZEROS + ['1'], "", 0, "");
    assert Value("0") == 0;
    hide Value, IsStamp;
    ws := [Workspace(map["c" := [early]], map[]), Workspace(map["c" := [early, late]], map[])];
    TwoStates(ws, early, late);
    IncrementalEqualsFull(ws, map[], None, ["c"]);
  }

  lemma TwoStates(ws: seq<Workspace>, early: Message, late: Message)
    requires ws == [Workspace(map["c" := [early]], map[]), Workspace(map["c" := [early, late]], map[])]
    requires IsStamp(early.ts) && IsStamp(late.ts) && 0 == Value("0") < Value(late.ts) < Value(early.ts)
    requires early.Kept() && late.Kept()
    ensures Growing(ws, ["c"]) && Marked(map[], None, ["c"]) && !AllInOrder(ws, map[], None, ["c"])
  {
    hide Value, IsStamp;
    assert ws[0].Arrived("c")[0] == early && ws[1].Arrived("c")[1] == late;
    assert StartOf(map[], None, "c") == "0";
    assert !InOrder(ws[0], ws[1], "c", "0");
    assert "c" in ["c"];
  }

  // ---- Each message once ---------------------------------------------------------------------------

  function StampOf(d: Document): string {
    if d.ThreadDoc? then d.parent.ts else d.message.ts
  }

  lemma {:induction false} DueOnce(w: Workspace, channel: string, h: seq<Message>, lo: string, hi: Option<string>,
                                   d: Document)
    requires Stamped(h)
    ensures Due(w, channel, h, lo, hi)[d] <= 1
    ensures d in Due(w, channel, h, lo, hi) ==> d.channel == channel && exists m <- h :: m.ts == StampOf(d)
  {
    if h != [] {
      var front, m := h[..|h| - 1], h[|h| - 1];
      assert m in h;
      DueOnce(w, channel, front, lo, hi, d);
      if d in Due(w, channel, front, lo, hi) {
        var k :| 0 <= k < |front| && front[k].ts == StampOf(d);
        assert h[k].ts != h[|h| - 1].ts && h[k] in h;
      }
    }
  }

  lemma {:induction false} SyncDeliversOnce(w: Workspace, cursors: map<string, string>, backfill: Option<string>,
                                            channels: seq<string>, d: Document)
    requires forall i, j :: 0 <= i < j < |channels| ==> channels[i] != channels[j]
    requires forall c <- channels :: Stamped(w.Arrived(c)) && IsMark(StartOf(cursors, backfill, c))
    ensures multiset(SyncDocs(w, cursors, backfill, channels))[d] <= 1
    ensures d in multiset(SyncDocs(w, cursors, backfill, channels)) ==> d.channel in channels
  {
    if channels != [] {
      var c, front := channels[|channels| - 1], channels[..|channels| - 1];
      assert channels == front + [c];
      SyncDeliversOnce(w, cursors, backfill, front, d);
      ChannelDelivers(w, c, StartOf(cursors, backfill, c));
      DueOnce(w, c, w.Arrived(c), StartOf(cursors, backfill, c), None, d);
      if d in multiset(SyncDocs(w, cursors, backfill, front)) {
        assert d.channel != c;
      }
    }
  }

  /** With distinct channels and stamps, no document is delivered twice, however the history is
      split into successive calls. */
  lemma DeliveredOnce(ws: seq<Workspace>, cursors: map<string, string>, backfill: Option<string>,
                      channels: seq<string>, d: Document)
    requires ws != [] && Growing(ws, channels) && Marked(cursors, backfill, channels)
    requires forall i, j :: 0 <= i < j < |channels| ==> channels[i] != channels[j]
    ensures multiset(Incremental(ws, cursors, backfill, channels))[d] <= 1
  {
    var last := ws[|ws| - 1];
    NothingElseIsLost(ws, cursors, backfill, channels);
    forall c <- channels ensures Stamped(last.Arrived(c)) && IsMark(StartOf(cursors, backfill, c)) {
      assert Extends(ws[|ws| - 1], last, c);
    }
    SyncDeliversOnce(last, cursors, backfill, channels, d);
  }
}
