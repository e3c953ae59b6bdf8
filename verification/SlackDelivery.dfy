/** What a sync delivers, in terms of the messages' own keys: which of them, as which kind of
    document, in which order. */
module SlackDelivery {
  import opened Options
  import opened Sequences
  import opened SlackIncremental
  import opened SlackSync
  import opened Timestamps

  function Values(parents: seq<(string, Message)>): seq<Message> {
    seq(|parents|, k requires 0 <= k < |parents| => parents[k].1)
  }

  function Backwards(s: seq<Message>): seq<Message> {
    if s == [] then [] else Backwards(s[1..]) + [s[0]]
  }

  /** Read backwards, the server's answer is what has arrived after the start, in order of arrival. */
  lemma {:induction false} NewerBackwards(h: seq<Message>, oldest: string)
    ensures Picks(Backwards(Newer(h, oldest)), h, (m: Message) => Value(m.ts) > Value(oldest))
  {
    hide Picks;
    var later := (m: Message) => Value(m.ts) > Value(oldest);
    if h == [] {
      PicksNothing(later);
    } else {
      var front, last := h[..|h| - 1], h[|h| - 1];
      NewerBackwards(front, oldest);
      PicksNext(Backwards(Newer(front, oldest)), front, later, last);
      assert h == front + [last];
      if later(last) {
        assert Newer(h, oldest)[1..] == Newer(front, oldest);
      }
    }
  }

  predicate KeyedByStamp(parents: seq<(string, Message)>) {
    forall k :: 0 <= k < |parents| ==> parents[k].0 == parents[k].1.ts
  }

  predicate StampsFrom(parents: seq<(string, Message)>, listing: seq<Message>) {
    forall p <- parents :: exists m <- listing :: p.0 == m.ts
  }

  predicate DistinctStamps(listing: seq<Message>) {
    forall i, j :: 0 <= i < j < |listing| ==> listing[i].ts != listing[j].ts
  }

  ghost predicate SortedOut(s: Scan, listing: seq<Message>) {
    && KeyedByStamp(s.parents)
    && Picks(Values(s.parents), listing,
             (m: Message) => (m.subtype == "" || m.subtype == "thread_broadcast") && m.replyCount > 0)
    && Picks(s.singles, listing,
             (m: Message) => (m.subtype == "" || m.subtype == "thread_broadcast") && m.replyCount <= 0)
  }

  lemma SeeSorts(s: Scan, listing: seq<Message>, m: Message)
    requires SortedOut(s, listing) && forall p <- s.parents :: p.0 != m.ts
    ensures SortedOut(See(s, m), listing + [m])
  {
    hide Picks;
    var isThread := (m: Message) => (m.subtype == "" || m.subtype == "thread_broadcast") && m.replyCount > 0;
    var isSingle := (m: Message) => (m.subtype == "" || m.subtype == "thread_broadcast") && m.replyCount <= 0;
    PicksNext(Values(s.parents), listing, isThread, m);
    PicksNext(s.singles, listing, isSingle, m);
    if isThread(m) {
      PutNew(s.parents, m.ts, m);
      assert Values(s.parents + [(m.ts, m)]) == Values(s.parents) + [m];
    }
  }

  /** The scan sorts the messages it is given into threads and single ones, in order; all others
      are skipped. */
  lemma {:induction false} ScanSorts(oldest: string, listing: seq<Message>)
    requires DistinctStamps(listing)
    ensures SortedOut(ScanAll(Scan([], [], oldest), listing), listing)
  {
    if listing == [] {
      PicksNothing((m: Message) => (m.subtype == "" || m.subtype == "thread_broadcast") && m.replyCount > 0);
      PicksNothing((m: Message) => (m.subtype == "" || m.subtype == "thread_broadcast") && m.replyCount <= 0);
      hide Picks;
      assert Values([]) == [];
    } else {
      hide Picks;
      var front, last := listing[..|listing| - 1], listing[|listing| - 1];
      ScanSorts(oldest, front);
      var s := ScanAll(Scan([], [], oldest), front);
      ParentsFrom(oldest, front);
      forall p <- s.parents ensures p.0 != last.ts {
        var m :| m in front && p.0 == m.ts;
        var k :| 0 <= k < |front| && front[k] == m;
        assert listing[k] == m;
      }
      SeeSorts(s, front, last);
      assert listing == front + [last];
    }
  }

  lemma {:induction false} ParentsFrom(oldest: string, listing: seq<Message>)
    requires DistinctStamps(listing)
    ensures StampsFrom(ScanAll(Scan([], [], oldest), listing).parents, listing)
  {
    ScanCollects(Workspace(map[], map[]), "", listing, oldest);
  }

  lemma {:induction false} ThreadDocsAt(w: Workspace, channel: string, parents: seq<(string, Message)>, k: nat)
    requires k < |parents|
    ensures |ThreadDocs(w, channel, parents)| == |parents|
    ensures ThreadDocs(w, channel, parents)[k]
         == ThreadDoc(channel, parents[k].1, Replies(w.Listing(channel, parents[k].0), parents[k].0))
  {
    var front := parents[..|parents| - 1];
    if k < |front| {
      ThreadDocsAt(w, channel, front, k);
    } else if front != [] {
      ThreadDocsAt(w, channel, front, 0);
    }
  }

  lemma {:induction false} SingleDocsAt(channel: string, singles: seq<Message>, k: nat)
    requires k < |singles|
    ensures |SingleDocs(channel, singles)| == |singles|
    ensures SingleDocs(channel, singles)[k] == SingleDoc(channel, singles[k])
  {
    var front := singles[..|singles| - 1];
    if k < |front| {
      SingleDocsAt(channel, front, k);
    } else if front != [] {
      SingleDocsAt(channel, front, 0);
    }
  }

  /** The table of threads keeps a stamp's place and takes the later message. */
  lemma {:induction false} PutMeans(d: seq<(string, Message)>, key: string, m: Message, k: nat)
    requires k < |d| && d[k].0 == key && forall j :: 0 <= j < k ==> d[j].0 != key
    ensures Put(d, key, m) == d[k := (key, m)]
  {
    if k > 0 {
      PutMeans(d[1..], key, m, k - 1);
      assert d[k := (key, m)] == [d[0]] + d[1..][k - 1 := (key, m)];
    }
  }

  /** A thread with everything its listing holds but itself. */
  ghost predicate IsThreadDoc(w: Workspace, channel: string, m: Message, d: Document) {
    && d.ThreadDoc? && d.channel == channel && d.parent == m
    && Picks(d.replies, w.Listing(channel, m.ts), (r: Message) => r.ts != m.ts)
  }

  lemma ThreadsResolved(w: Workspace, channel: string, parents: seq<(string, Message)>)
    requires KeyedByStamp(parents)
    ensures var docs, threads := ThreadDocs(w, channel, parents), Values(parents);
      |docs| == |threads| && forall k :: 0 <= k < |threads| ==> IsThreadDoc(w, channel, threads[k], docs[k])
  {
    hide Picks;
    if parents != [] { ThreadDocsAt(w, channel, parents, 0); }
    forall k | 0 <= k < |parents|
      ensures IsThreadDoc(w, channel, Values(parents)[k], ThreadDocs(w, channel, parents)[k])
    {
      ThreadDocsAt(w, channel, parents, k);
      RepliesInOrder(w.Listing(channel, parents[k].0), parents[k].0);
    }
  }

  lemma SinglesListed(channel: string, singles: seq<Message>)
    ensures |SingleDocs(channel, singles)| == |singles|
    ensures forall k :: 0 <= k < |singles| ==> SingleDocs(channel, singles)[k] == SingleDoc(channel, singles[k])
  {
    if singles != [] { SingleDocsAt(channel, singles, 0); }
    forall k | 0 <= k < |singles| ensures SingleDocs(channel, singles)[k] == SingleDoc(channel, singles[k]) {
      SingleDocsAt(channel, singles, k);
    }
  }

  /** A channel's documents: of the messages with a stamp above the start, newest first, those
      without a subtype and the broadcast replies; first each with replies, as a thread, then each
      without, as it is. */
  lemma ChannelExactly(w: Workspace, channel: string, oldest: string)
    returns (newest: seq<Message>, threads: seq<Message>, singles: seq<Message>)
    requires Stamped(w.Arrived(channel))
    ensures Picks(Backwards(newest), w.Arrived(channel), (m: Message) => Value(m.ts) > Value(oldest))
    ensures Picks(threads, newest,
                  (m: Message) => (m.subtype == "" || m.subtype == "thread_broadcast") && m.replyCount > 0)
    ensures Picks(singles, newest,
                  (m: Message) => (m.subtype == "" || m.subtype == "thread_broadcast") && m.replyCount <= 0)
    ensures var docs := ChannelDocs(w, channel, oldest);
      && |docs| == |threads| + |singles|
      && (forall k :: 0 <= k < |threads| ==> IsThreadDoc(w, channel, threads[k], docs[k]))
      && (forall k :: 0 <= k < |singles| ==> docs[|threads| + k] == SingleDoc(channel, singles[k]))
  {
    hide Picks, IsThreadDoc, ThreadDocs, SingleDocs, Newer, ScanAll;
    newest := Newer(w.Arrived(channel), oldest);
    NewerBackwards(w.Arrived(channel), oldest);
    NewerDistinct(w.Arrived(channel), oldest);
    ScanSorts(oldest, newest);
    var s := ScanChannel(w, channel, oldest);
    threads, singles := Values(s.parents), s.singles;
    ThreadsResolved(w, channel, s.parents);
    SinglesListed(channel, s.singles);
  }

  // ---- All channels --------------------------------------------------------------------------------------

  /** Where a channel's sync starts: at its cursor, else at the backfill boundary of a first sync,
      else at the beginning; empty strings count as missing. */
  predicate StartsAt(cursors: map<string, string>, backfill: Option<string>, c: string, start: string) {
    && (c in cursors && cursors[c] != "" ==> start == cursors[c])
    && (c !in cursors || cursors[c] == "" ==>
          && (backfill.Some? && backfill.value != "" ==> start == backfill.value)
          && (backfill == None || backfill == Some("") ==> start == "0"))
  }

  lemma {:induction false} SyncAppend(w: Workspace, cursors: map<string, string>, backfill: Option<string>,
                                      a: seq<string>, b: seq<string>)
    ensures SyncDocs(w, cursors, backfill, a + b)
         == SyncDocs(w, cursors, backfill, a) + SyncDocs(w, cursors, backfill, b)
    decreases |b|
  {
    hide ChannelDocs, StartOf;
    if b == [] {
      assert a + b == a;
    } else {
      var front := b[..|b| - 1];
      assert (a + b)[..|a + b| - 1] == a + front;
      SyncAppend(w, cursors, backfill, a, front);
      Regroup(SyncDocs(w, cursors, backfill, a), SyncDocs(w, cursors, backfill, front),
              ChannelDocs(w, b[|b| - 1], StartOf(cursors, backfill, b[|b| - 1])));
    }
  }

  /** The channels' documents come one channel after the other, each from where its sync starts. */
  lemma ChannelAfterChannel(w: Workspace, cursors: map<string, string>, backfill: Option<string>,
                            a: seq<string>, c: string, b: seq<string>, start: string)
    requires StartsAt(cursors, backfill, c, start)
    ensures SyncDocs(w, cursors, backfill, a + [c] + b)
         == SyncDocs(w, cursors, backfill, a) + ChannelDocs(w, c, start) + SyncDocs(w, cursors, backfill, b)
  {
    assert start == StartOf(cursors, backfill, c);
    hide ChannelDocs, StartOf;
    SyncAppend(w, cursors, backfill, a + [c], b);
    SyncAppend(w, cursors, backfill, a, [c]);
    assert SyncDocs(w, cursors, backfill, [c]) == ChannelDocs(w, c, start) by {
      assert [c][..0] == [];
      assert SyncDocs(w, cursors, backfill, []) == [];
    }
  }

  /** A channel's next cursor: the largest stamp among the start and the messages not skipped.  The
      cursors of other channels stay. */
  lemma CursorExactly(w: Workspace, cursors: map<string, string>, backfill: Option<string>, channels: seq<string>,
                      c: string, start: string)
    requires StartsAt(cursors, backfill, c, start) && IsMark(start) && Stamped(w.Arrived(c))
    ensures var next := NextCursors(w, cursors, backfill, channels);
      if c in channels then
        && c in next && Value(start) <= Value(next[c])
        && (next[c] == start || exists m <- w.Arrived(c) ::
              m.ts == next[c] && (m.subtype == "" || m.subtype == "thread_broadcast"))
        && forall m <- w.Arrived(c) ::
             m.subtype == "" || m.subtype == "thread_broadcast" ==> Value(m.ts) <= Value(next[c])
      else if c in cursors then c in next && next[c] == cursors[c]
      else c !in next
  {
    hide ChannelDocs, ScanChannel, Due;
    if c in channels {
      NextCursorAt(w, cursors, backfill, channels, c);
      ChannelDelivers(w, c, start);
      DueEmpty(w, c, w.Arrived(c), ScanChannel(w, c, start).latest, None);
    } else {
      OthersStay(w, cursors, backfill, channels, c);
    }
  }

  lemma {:induction false} OthersStay(w: Workspace, cursors: map<string, string>, backfill: Option<string>,
                                      channels: seq<string>, c: string)
    requires c !in channels
    ensures var next := NextCursors(w, cursors, backfill, channels);
      (c in next <==> c in cursors) && (c in cursors ==> next[c] == cursors[c])
    decreases |channels|
  {
    if channels != [] { OthersStay(w, cursors, backfill, channels[..|channels| - 1], c); }
  }
}
