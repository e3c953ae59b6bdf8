/** Incremental Slack sync: per-channel cursors, paged history, threads resolved after the
    pages.  Many small syncs against a growing workspace against one big sync. */
module SlackSync {
  import opened Options
  import TextOrder
  import opened Sequences
  import opened Timestamps

  /** `subtype` is empty when the key is absent; `body` stands for text, user and reactions. */
  datatype Message = Message(ts: string, subtype: string, replyCount: int, body: string) {
    /** Joins, leaves and bot messages are skipped, broadcast thread replies are not. */
    predicate Kept() {
      subtype == "" || subtype == "thread_broadcast"
    }

    predicate HasThread() {
      replyCount > 0
    }
  }

  datatype Document =
    | ThreadDoc(channel: string, parent: Message, replies: seq<Message>)
    | SingleDoc(channel: string, message: Message)

  /** A cursor string: one the connector wrote, or one that does not decode. */
  datatype Cursor = Encoded(channels: map<string, string>) | Unreadable

  function Decode(c: Cursor): map<string, string> {
    if c.Encoded? then c.channels else map[]
  }

  /** The Slack side: messages of a channel in order of arrival, and the replies of a thread,
      the parent being the first element of that listing. */
  datatype Workspace = Workspace(
    history: map<string, seq<Message>>,
    threads: map<(string, string), seq<Message>>)
  {
    function Arrived(channel: string): seq<Message> {
      if channel in history then history[channel] else []
    }

    function Listing(channel: string, ts: string): seq<Message> {
      if (channel, ts) in threads then threads[(channel, ts)] else []
    }
  }

  // ---- What the server answers ---------------------------------------------------------------

  /** `conversations.history`, newest first, `oldest` exclusive and compared as a number. */
  function Newer(h: seq<Message>, oldest: string): seq<Message> {
    if h == [] then []
    else
      var rest := Newer(h[..|h| - 1], oldest);
      if Value(h[|h| - 1].ts) > Value(oldest) then [h[|h| - 1]] + rest else rest
  }

  function Flatten<T>(pages: seq<seq<T>>): seq<T> {
    if pages == [] then [] else pages[0] + Flatten(pages[1..])
  }

  /** An answer cut into pages: at least one, together the whole listing. */
  predicate IsPaging(pages: seq<seq<Message>>, listing: seq<Message>) {
    pages != [] && Flatten(pages) == listing
  }

  lemma {:induction false} FlattenAppend<T>(pages: seq<seq<T>>, page: seq<T>)
    ensures Flatten(pages + [page]) == Flatten(pages) + page
  {
    if pages == [] {
      assert (pages + [page])[1..] == [];
    } else {
      assert (pages + [page])[1..] == pages[1..] + [page];
      FlattenAppend(pages[1..], page);
    }
  }

  /** The server as the connector meets it: any paging of any listing. */
  class Server {
    const workspace: Workspace

    constructor (workspace: Workspace)
      ensures this.workspace == workspace
    {
      this.workspace := workspace;
    }

    method Pages(listing: seq<Message>) returns (pages: seq<seq<Message>>)
      ensures IsPaging(pages, listing)
    {
      pages := [];
      var rest := listing;
      while rest != []
        invariant Flatten(pages) + rest == listing
        decreases |rest|
      {
        var n: nat :| 0 < n <= |rest|;
        FlattenAppend(pages, rest[..n]);
        pages, rest := pages + [rest[..n]], rest[n..];
      }
      if pages == [] {
        pages := [[]];
      }
    }
  }

  // ---- What a sync computes --------------------------------------------------------------------

  /** Python's `dict` assignment on an insertion-ordered table. */
  function Put(d: seq<(string, Message)>, key: string, m: Message): seq<(string, Message)> {
    if d == [] then [(key, m)]
    else if d[0].0 == key then [(key, m)] + d[1..]
    else [d[0]] + Put(d[1..], key, m)
  }

  datatype Scan = Scan(parents: seq<(string, Message)>, singles: seq<Message>, latest: string)

  function See(s: Scan, m: Message): Scan {
    if !m.Kept() then s
    else
      var latest := if TextOrder.Less(s.latest, m.ts) then m.ts else s.latest;
      if m.HasThread() then s.(parents := Put(s.parents, m.ts, m), latest := latest)
      else s.(singles := s.singles + [m], latest := latest)
  }

  function ScanAll(s: Scan, listing: seq<Message>): Scan {
    if listing == [] then s else See(ScanAll(s, listing[..|listing| - 1]), listing[|listing| - 1])
  }

  function Replies(listing: seq<Message>, ts: string): seq<Message> {
    if listing == [] then []
    else
      var front := Replies(listing[..|listing| - 1], ts);
      if listing[|listing| - 1].ts == ts then front else front + [listing[|listing| - 1]]
  }

  function ThreadDocs(w: Workspace, channel: string, parents: seq<(string, Message)>): seq<Document> {
    if parents == [] then []
    else
      var (ts, parent) := parents[|parents| - 1];
      ThreadDocs(w, channel, parents[..|parents| - 1])
        + [ThreadDoc(channel, parent, Replies(w.Listing(channel, ts), ts))]
  }

  function SingleDocs(channel: string, singles: seq<Message>): seq<Document> {
    if singles == [] then []
    else SingleDocs(channel, singles[..|singles| - 1]) + [SingleDoc(channel, singles[|singles| - 1])]
  }

  /** `channel_cursors.get(id) or backfill_oldest or "0"`: empty strings count as missing. */
  function StartOf(cursors: map<string, string>, backfill: Option<string>, channel: string): string {
    if channel in cursors && cursors[channel] != "" then cursors[channel]
    else if backfill.Some? && backfill.value != "" then backfill.value
    else "0"
  }

  function ScanChannel(w: Workspace, channel: string, oldest: string): Scan {
    ScanAll(Scan([], [], oldest), Newer(w.Arrived(channel), oldest))
  }

  function ChannelDocs(w: Workspace, channel: string, oldest: string): seq<Document> {
    var s := ScanChannel(w, channel, oldest);
    ThreadDocs(w, channel, s.parents) + SingleDocs(channel, s.singles)
  }

  function SyncDocs(w: Workspace, cursors: map<string, string>, backfill: Option<string>,
                    channels: seq<string>): seq<Document>
  {
    if channels == [] then []
    else
      var c := channels[|channels| - 1];
      SyncDocs(w, cursors, backfill, channels[..|channels| - 1])
        + ChannelDocs(w, c, StartOf(cursors, backfill, c))
  }

  function NextCursors(w: Workspace, cursors: map<string, string>, backfill: Option<string>,
                       channels: seq<string>): map<string, string>
  {
    if channels == [] then cursors
    else
      var c := channels[|channels| - 1];
      NextCursors(w, cursors, backfill, channels[..|channels| - 1])
        [c := ScanChannel(w, c, StartOf(cursors, backfill, c)).latest]
  }

  // ---- The connector -----------------------------------------------------------------------------

  lemma {:induction false} ScanAppend(s: Scan, a: seq<Message>, b: seq<Message>)
    ensures ScanAll(s, a + b) == ScanAll(ScanAll(s, a), b)
    decreases |b|
  {
    if b == [] {
      assert a + b == a;
    } else {
      assert (a + b)[..|a + b| - 1] == a + b[..|b| - 1];
      ScanAppend(s, a, b[..|b| - 1]);
    }
  }

  lemma {:induction false} RepliesAppend(a: seq<Message>, b: seq<Message>, ts: string)
    ensures Replies(a + b, ts) == Replies(a, ts) + Replies(b, ts)
    decreases |b|
  {
    if b == [] {
      assert a + b == a;
    } else {
      assert (a + b)[..|a + b| - 1] == a + b[..|b| - 1];
      RepliesAppend(a, b[..|b| - 1], ts);
    }
  }

  lemma FlattenPrefix<T>(pages: seq<seq<T>>, i: nat)
    requires i < |pages|
    ensures Flatten(pages[..i + 1]) == Flatten(pages[..i]) + pages[i]
  {
    FlattenAppend(pages[..i], pages[i]);
    assert pages[..i + 1] == pages[..i] + [pages[i]];
  }

  /** The replies are the listing's messages other than the thread's own, in the listing's order
      ... */
  lemma {:induction false} RepliesInOrder(listing: seq<Message>, ts: string)
    ensures Picks(Replies(listing, ts), listing, (m: Message) => m.ts != ts)
  {
    hide Picks;
    var other := (m: Message) => m.ts != ts;
    if listing == [] {
      PicksNothing(other);
    } else {
      var front, last := listing[..|listing| - 1], listing[|listing| - 1];
      RepliesInOrder(front, ts);
      PicksNext(Replies(front, ts), front, other, last);
      assert listing == front + [last];
    }
  }

  /** ... and each as often as there. */
  lemma {:induction false} RepliesCounted(listing: seq<Message>, ts: string, m: Message)
    ensures multiset(Replies(listing, ts))[m] == if m.ts == ts then 0 else multiset(listing)[m]
  {
    if listing != [] {
      RepliesCounted(listing[..|listing| - 1], ts, m);
      assert listing == listing[..|listing| - 1] + [listing[|listing| - 1]];
    }
  }

  /** A listing that begins with the parent, and holds it nowhere else, loses exactly that. */
  lemma {:induction false} RepliesAfterParent(listing: seq<Message>, ts: string)
    requires listing != [] && listing[0].ts == ts && forall k :: 1 <= k < |listing| ==> listing[k].ts != ts
    ensures Replies(listing, ts) == listing[1..]
    decreases |listing|
  {
    if |listing| > 1 {
      RepliesAfterParent(listing[..|listing| - 1], ts);
      assert listing[1..] == listing[..|listing| - 1][1..] + [listing[|listing| - 1]];
    } else {
      assert listing[..0] == [];
    }
  }

  /** `_fetch_thread_replies`: all pages of the listing without the parent. */
  method FetchThreadReplies(server: Server, channel: string, ts: string) returns (replies: seq<Message>)
    ensures replies == Replies(server.workspace.Listing(channel, ts), ts)
    ensures var listing := server.workspace.Listing(channel, ts);
      && Picks(replies, listing, (m: Message) => m.ts != ts)
      && forall m: Message :: multiset(replies)[m] == if m.ts == ts then 0 else multiset(listing)[m]
  {
    hide Picks;
    replies := [];
    var pages := server.Pages(server.workspace.Listing(channel, ts));
    var page := 0;
    while true
      invariant 0 <= page < |pages|
      invariant replies == Replies(Flatten(pages[..page]), ts)
      decreases |pages| - page
    {
      var messages := pages[page];
      ghost var before := replies;
      for k := 0 to |messages|
        invariant replies == before + Replies(messages[..k], ts)
      {
        assert messages[..k + 1][..k] == messages[..k];
        if messages[k].ts != ts {
          replies := replies + [messages[k]];
        }
      }
      assert messages[..|messages|] == messages;
      RepliesAppend(Flatten(pages[..page]), messages, ts);
      FlattenPrefix(pages, page);
      if page + 1 == |pages| {
        assert pages[..page + 1] == pages;
        break;
      }
      page := page + 1;
    }
    hide Replies;
    RepliesInOrder(server.workspace.Listing(channel, ts), ts);
    forall m: Message { RepliesCounted(server.workspace.Listing(channel, ts), ts, m); }
  }

  /** The page loop of one channel. */
  method ScanHistory(server: Server, channel: string, oldest: string) returns (s: Scan)
    ensures s == ScanChannel(server.workspace, channel, oldest)
  {
    var parents, singles, latest := [], [], oldest;
    var listing := Newer(server.workspace.Arrived(channel), oldest);
    var pages := server.Pages(listing);
    ghost var none := Scan([], [], oldest);
    var page := 0;
    while true
      invariant 0 <= page < |pages|
      invariant Scan(parents, singles, latest) == ScanAll(none, Flatten(pages[..page]))
      decreases |pages| - page
    {
      var messages := pages[page];
      ghost var before := Scan(parents, singles, latest);
      for k := 0 to |messages|
        invariant Scan(parents, singles, latest) == ScanAll(before, messages[..k])
      {
        assert messages[..k + 1][..k] == messages[..k];
        var m := messages[k];
        if m.subtype != "" && m.subtype != "thread_broadcast" { continue; }
        if TextOrder.Less(latest, m.ts) { latest := m.ts; }
        if m.replyCount > 0 {
          parents := Put(parents, m.ts, m);
        } else {
          singles := singles + [m];
        }
      }
      assert messages[..|messages|] == messages;
      ScanAppend(none, Flatten(pages[..page]), messages);
      FlattenPrefix(pages, page);
      if page + 1 == |pages| {
        assert pages[..page + 1] == pages;
        break;
      }
      page := page + 1;
    }
    s := Scan(parents, singles, latest);
  }

  /** One turn of the channel loop: the pages, then the threads, then the single messages. */
  method FetchChannel(server: Server, channel: string, oldest: string)
    returns (documents: seq<Document>, latest: string)
    ensures documents == ChannelDocs(server.workspace, channel, oldest)
    ensures latest == ScanChannel(server.workspace, channel, oldest).latest
  {
    var s := ScanHistory(server, channel, oldest);
    documents, latest := [], s.latest;
    for k := 0 to |s.parents|
      invariant documents == ThreadDocs(server.workspace, channel, s.parents[..k])
    {
      assert s.parents[..k + 1][..k] == s.parents[..k];
      var replies := FetchThreadReplies(server, channel, s.parents[k].0);
      documents := documents + [ThreadDoc(channel, s.parents[k].1, replies)];
    }
    assert s.parents[..|s.parents|] == s.parents;
    ghost var threaded := documents;
    for k := 0 to |s.singles|
      invariant documents == threaded + SingleDocs(channel, s.singles[..k])
    {
      assert s.singles[..k + 1][..k] == s.singles[..k];
      documents := documents + [SingleDoc(channel, s.singles[k])];
    }
    assert s.singles[..|s.singles|] == s.singles;
  }

  /** `fetch_since`, for runs in which the server answers every request. */
  method FetchSince(server: Server, channels: seq<string>, cursor: Option<Cursor>, boundary: string)
    returns (documents: seq<Document>, newCursor: Option<Cursor>)
    ensures channels == [] ==> documents == [] && newCursor == cursor
    ensures channels != [] ==>
      match cursor
      case None =>
        && documents == SyncDocs(server.workspace, map[], Some(boundary), channels)
        && newCursor == Some(Encoded(NextCursors(server.workspace, map[], Some(boundary), channels)))
      case Some(Unreadable) =>
        && documents == SyncDocs(server.workspace, map[], None, channels)
        && newCursor == Some(Encoded(NextCursors(server.workspace, map[], None, channels)))
      case Some(Encoded(known)) =>
        && documents == SyncDocs(server.workspace, known, None, channels)
        && newCursor == Some(Encoded(NextCursors(server.workspace, known, None, channels)))
  {
    if channels == [] { return [], cursor; }
    var known := if cursor.Some? then Decode(cursor.value) else map[];
    var backfill := if cursor.Some? then None else Some(boundary);
    documents := [];
    var cursors := known;
    for i := 0 to |channels|
      invariant documents == SyncDocs(server.workspace, known, backfill, channels[..i])
      invariant cursors == NextCursors(server.workspace, known, backfill, channels[..i])
    {
      assert channels[..i + 1][..i] == channels[..i];
      var channel := channels[i];
      var more, latest := FetchChannel(server, channel, StartOf(known, backfill, channel));
      documents := documents + more;
      cursors := cursors[channel := latest];
    }
    assert channels[..|channels|] == channels;
    newCursor := Some(Encoded(cursors));
  }
}
