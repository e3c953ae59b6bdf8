/** Google Calendar paging: the compound cursor and the chain it forms over the pages of one
    sync. */
module CalendarCursor {
  import opened Options
  import opened Sequences

  /** The cursor codec.  JSON text is not opened; what is used of it is that encoding loses
      nothing and that the empty string is no JSON. */
  datatype Codec = Codec(encode: (Option<string>, string) -> string,
    decode: string -> (Option<string>, Option<string>)) {
    ghost predicate Lawful() {
      && (forall s, p :: decode(encode(s, p)) == (s, Some(p)))
      && decode("") == (Some(""), None)
    }

    /** A token as the service issues it decodes to itself, without a page. */
    predicate IsPlain(token: Option<string>) {
      token.None? || decode(token.value) == (token, None)
    }
  }

  datatype Request = Request(sync: Option<string>, page: Option<string>)

  /** Python's truth of an optional string: the empty one counts as absent. */
  function Present(s: Option<string>): Option<string> {
    if s == Some("") then None else s
  }

  function RequestFor(codec: Codec, cursor: Option<string>): Request {
    if cursor.None? then Request(None, None)
    else
      var (sync, page) := codec.decode(cursor.value);
      Request(Present(sync), Present(page))
  }

  datatype Event = Event(id: string, body: string)

  /** `nextPage` is empty on the last page. */
  datatype Response = Page(items: seq<Event>, nextPage: string, nextSync: Option<string>) | Gone | RateLimited | Failed

  datatype Outcome =
    | Synced(documents: seq<string>, errors: seq<string>, cursor: Option<string>, hasMore: bool)
    | RateLimitError
    | ConnectorError

  function EventId(e: Event): string {
    e.id
  }

  /** The cursor a response leaves behind: the whole incoming cursor wrapped with the next page,
      the next sync token, or nothing. */
  function NextCursor(codec: Codec, cursor: Option<string>, response: Response): Option<string> {
    match response
    case Page(_, nextPage, nextSync) => if nextPage != "" then Some(codec.encode(cursor, nextPage)) else nextSync
    case _ => None
  }

  lemma {:induction false} RefusedHave(items: seq<Event>, normalize: Event -> Option<string>)
    ensures forall x <- Refused(items, normalize, EventId) :: exists e <- items :: normalize(e) == None && e.id == x
  {
    if items != [] {
      var front, last := items[..|items| - 1], items[|items| - 1];
      RefusedHave(front, normalize);
      assert items == front + [last];
    }
  }

  /** Without a cursor the request has no token; a token as the service issues it goes along as sync
      token, without a page. */
  lemma RequestExactly(codec: Codec, token: string)
    requires codec.Lawful() && codec.IsPlain(Some(token))
    ensures RequestFor(codec, None) == Request(None, None)
    ensures RequestFor(codec, Some(token)) == Request(if token == "" then None else Some(token), None)
  {
  }

  method FetchSince(codec: Codec, cursor: Option<string>, ask: Request -> Response, normalize: Event -> Option<string>)
    returns (out: Outcome)
    ensures var response := ask(RequestFor(codec, cursor));
      match response {
        case Page(items, nextPage, nextSync) =>
          && out.Synced?
          && Documented(items, normalize, out.documents) && Reported(items, normalize, EventId, out.errors)
          && (forall x <- out.errors :: exists e <- items :: normalize(e) == None && e.id == x)
          && out.cursor == (if nextPage == "" then nextSync else Some(codec.encode(cursor, nextPage)))
          && out.documents == Normalized(items, normalize) && out.errors == Refused(items, normalize, EventId)
          && |out.documents| + |out.errors| == |items|
          && out.cursor == NextCursor(codec, cursor, response) && (out.hasMore <==> nextPage != "")
        case Gone => out == Synced([], [], None, true)
        case RateLimited => out == RateLimitError
        case Failed => out == ConnectorError
      }
  {
    var syncParam: Option<string>, pageParam: Option<string> := None, None;
    if cursor.Some? {
      var (sync, page) := codec.decode(cursor.value);
      if page.Some? && page.value != "" {
        pageParam := page;
        if sync.Some? && sync.value != "" { syncParam := sync; }
      } else if sync.Some? && sync.value != "" {
        syncParam := sync;
      }
    }
    var response := ask(Request(syncParam, pageParam));
    match response {
      case RateLimited => return RateLimitError;
      case Gone => return Synced([], [], None, true);
      case Failed => return ConnectorError;
      case Page(items, nextPage, nextSync) =>
        var documents: seq<string>, errors: seq<string> := [], [];
        for i := 0 to |items|
          invariant documents == Normalized(items[..i], normalize)
          invariant errors == Refused(items[..i], normalize, EventId)
          invariant |documents| + |errors| == i
        {
          assert items[..i + 1][..i] == items[..i];
          match normalize(items[i]) {
            case Some(document) => documents := documents + [document];
            case None => errors := errors + [items[i].id];
          }
        }
        assert items[..|items|] == items;
        EachAccounted(items, normalize, EventId);
        RefusedHave(items, normalize);
        hide Documented, Reported, Normalized, Refused;
        if nextPage != "" {
          return Synced(documents, errors, Some(codec.encode(cursor, nextPage)), true);
        }
        return Synced(documents, errors, nextSync, false);
    }
  }

  // ---- The chain over the non-final pages of one sync ---------------------------------------------

  ghost predicate PageTokens(pages: seq<string>) {
    forall k :: 0 <= k < |pages| ==> pages[k] != ""
  }

  /** The cursor after the given non-final pages. */
  function Chain(codec: Codec, start: Option<string>, pages: seq<string>): Option<string> {
    if pages == [] then start
    else Some(codec.encode(Chain(codec, start, pages[..|pages| - 1]), pages[|pages| - 1]))
  }

  /** The chain is what the code's cursors are. */
  lemma ChainSteps(codec: Codec, start: Option<string>, pages: seq<string>, items: seq<Event>, next: string,
                   sync: Option<string>)
    requires next != ""
    ensures NextCursor(codec, Chain(codec, start, pages), Page(items, next, sync))
      == Chain(codec, start, pages + [next])
  {
    assert (pages + [next])[..|pages|] == pages;
  }

  /** Decoding as often as pages were read gives back the page tokens and the start. */
  function Unwrap(codec: Codec, cursor: Option<string>, k: nat): (Option<string>, seq<string>)
    decreases k
  {
    if k == 0 || cursor.None? then (cursor, [])
    else
      var (inner, page) := codec.decode(cursor.value);
      if page.None? then (cursor, [])
      else
        var (start, pages) := Unwrap(codec, inner, k - 1);
        (start, pages + [page.value])
  }

  lemma UnwrapStep(codec: Codec, inner: Option<string>, page: string, k: nat)
    requires codec.decode(codec.encode(inner, page)) == (inner, Some(page))
    ensures Unwrap(codec, Some(codec.encode(inner, page)), k + 1)
         == (Unwrap(codec, inner, k).0, Unwrap(codec, inner, k).1 + [page])
  {
  }

  lemma {:induction false} ChainUnwraps(codec: Codec, start: Option<string>, pages: seq<string>)
    requires codec.Lawful()
    ensures Unwrap(codec, Chain(codec, start, pages), |pages|) == (start, pages)
    decreases |pages|
  {
    if pages != [] {
      var front, last := pages[..|pages| - 1], pages[|pages| - 1];
      ChainUnwraps(codec, start, front);
      UnwrapStep(codec, Chain(codec, start, front), last, |front|);
      assert front + [last] == pages;
    }
  }

  /** After a page the next request asks for that page, with the cursor before it as sync token. */
  lemma RequestOnPage(codec: Codec, start: Option<string>, pages: seq<string>)
    requires codec.Lawful() && PageTokens(pages) && pages != []
    ensures RequestFor(codec, Chain(codec, start, pages))
         == Request(Present(Chain(codec, start, pages[..|pages| - 1])), Some(pages[|pages| - 1]))
  {
    var front, last := pages[..|pages| - 1], pages[|pages| - 1];
    assert codec.decode(codec.encode(Chain(codec, start, front), last)) == (Chain(codec, start, front), Some(last));
  }

  /** The original sync token is sent on every page only up to the second request: on the third
      and later ones it is not, whatever the token. */
  lemma OriginalTokenExactly(codec: Codec, start: Option<string>, pages: seq<string>)
    requires codec.Lawful() && PageTokens(pages) && codec.IsPlain(start)
    ensures RequestFor(codec, Chain(codec, start, pages)).sync == Present(start) <==> |pages| <= 1
  {
    if pages != [] {
      RequestOnPage(codec, start, pages);
      var front := pages[..|pages| - 1];
      if front != [] {
        var before, last := Chain(codec, start, front[..|front| - 1]), front[|front| - 1];
        assert codec.decode(codec.encode(before, last)) == (before, Some(last));
      }
    }
  }

  // ---- The variant that re-encodes the decoded token ---------------------------------------------

  /** The sync token inside a cursor. */
  function SyncOf(codec: Codec, cursor: Option<string>): Option<string> {
    if cursor.None? then None else codec.decode(cursor.value).0
  }

  function RepairedCursor(codec: Codec, cursor: Option<string>, response: Response): Option<string> {
    match response
    case Page(_, nextPage, nextSync) =>
      if nextPage != "" then Some(codec.encode(SyncOf(codec, cursor), nextPage)) else nextSync
    case _ => None
  }

  function RepairedChain(codec: Codec, start: Option<string>, pages: seq<string>): Option<string> {
    if pages == [] then start
    else Some(codec.encode(SyncOf(codec, RepairedChain(codec, start, pages[..|pages| - 1])), pages[|pages| - 1]))
  }

  lemma {:induction false} RepairedSync(codec: Codec, start: Option<string>, pages: seq<string>)
    requires codec.Lawful() && codec.IsPlain(start)
    ensures SyncOf(codec, RepairedChain(codec, start, pages)) == start
    decreases |pages|
  {
    if pages != [] {
      var front, last := pages[..|pages| - 1], pages[|pages| - 1];
      RepairedSync(codec, start, front);
      assert codec.decode(codec.encode(start, last)) == (start, Some(last));
    }
  }

  /** There every request carries the original sync token. */
  lemma RepairedKeepsToken(codec: Codec, start: Option<string>, pages: seq<string>)
    requires codec.Lawful() && PageTokens(pages) && codec.IsPlain(start)
    ensures RequestFor(codec, RepairedChain(codec, start, pages))
         == Request(Present(start), if pages == [] then None else Some(pages[|pages| - 1]))
  {
    if pages != [] {
      var front, last := pages[..|pages| - 1], pages[|pages| - 1];
      RepairedSync(codec, start, front);
      assert codec.decode(codec.encode(start, last)) == (start, Some(last));
    }
  }

  // ---- A full sync against a service that accepts only tokens it issued -----------------------

  /** A full listing of `|tokens| + 1` pages.  A full sync has no sync token yet, so a request
      that carries one is answered with 410, and so is an unknown page token. */
  datatype Listing = Listing(tokens: seq<string>, final: Option<string>) {
    ghost predicate Valid() {
      && PageTokens(tokens)
      && forall i, j :: 0 <= i < j < |tokens| ==> tokens[i] != tokens[j]
    }

    /** The page behind the first `k` tokens. */
    function PageAt(k: nat): Response
      requires k <= |tokens|
    {
      Page([], if k < |tokens| then tokens[k] else "", final)
    }

    ghost function Ask(r: Request): Response {
      if r.sync.Some? then Gone
      else if r.page.None? then PageAt(0)
      else if exists k :: 0 <= k < |tokens| && tokens[k] == r.page.value then
        var k :| 0 <= k < |tokens| && tokens[k] == r.page.value;
        PageAt(k + 1)
      else Gone
    }

    /** The cursor after `n` calls, each with the cursor of the one before. */
    ghost function CursorAfter(codec: Codec, n: nat): Option<string> {
      if n == 0 then None
      else
        var c := CursorAfter(codec, n - 1);
        NextCursor(codec, c, Ask(RequestFor(codec, c)))
    }

    ghost function RepairedAfter(codec: Codec, n: nat): Option<string> {
      if n == 0 then None
      else
        var c := RepairedAfter(codec, n - 1);
        RepairedCursor(codec, c, Ask(RequestFor(codec, c)))
    }

    /** The call with this cursor gets the last page. */
    ghost predicate Completes(codec: Codec, cursor: Option<string>) {
      var r := Ask(RequestFor(codec, cursor));
      r.Page? && r.nextPage == ""
    }

    lemma AskPage(k: nat)
      requires Valid() && k < |tokens|
      ensures Ask(Request(None, Some(tokens[k]))) == PageAt(k + 1)
    {
      var r := Request(None, Some(tokens[k]));
      var j :| 0 <= j < |tokens| && tokens[j] == r.page.value && Ask(r) == PageAt(j + 1);
      assert j == k;
    }

    /** With three or more pages the calls go round: first page, second page, 410. */
    lemma {:induction false} GoesRound(codec: Codec, n: nat)
      requires codec.Lawful() && Valid() && |tokens| >= 2
      ensures CursorAfter(codec, n) == Chain(codec, None, tokens[..n % 3])
    {
      if n > 0 {
        GoesRound(codec, n - 1);
        Round(codec, (n - 1) % 3);
        NextResidue(n);
      } else {
        assert tokens[..0] == [];
      }
    }

    lemma NextResidue(n: nat)
      requires n > 0
      ensures n % 3 == if (n - 1) % 3 == 2 then 0 else (n - 1) % 3 + 1
    {
    }

    lemma Round(codec: Codec, k: nat)
      requires codec.Lawful() && Valid() && |tokens| >= 2 && k < 3
      ensures var c := Chain(codec, None, tokens[..k]);
        && !Completes(codec, c)
        && NextCursor(codec, c, Ask(RequestFor(codec, c))) == Chain(codec, None, tokens[..if k == 2 then 0 else k + 1])
    {
      var pages := tokens[..k];
      if k > 0 {
        RequestOnPage(codec, None, pages);
        assert pages[..k - 1] == tokens[..k - 1] && pages[k - 1] == tokens[k - 1];
      }
      if k == 2 {
        assert tokens[..1][..0] == [];
        assert codec.decode(codec.encode(None, tokens[0])) == (None, Some(tokens[0]));
        assert tokens[..0] == [];
      } else {
        if k == 1 { AskPage(0); assert tokens[..1][..0] == tokens[..0] == []; }
        ChainSteps(codec, None, pages, [], tokens[k], final);
        assert tokens[..k + 1] == pages + [tokens[k]];
      }
    }

    /** A full sync ever completes exactly if the listing has at most two pages. */
    lemma CompletesExactly(codec: Codec)
      requires codec.Lawful() && Valid()
      ensures (exists n: nat :: Completes(codec, CursorAfter(codec, n))) <==> |tokens| <= 1
    {
      if |tokens| >= 2 {
        forall n: nat ensures !Completes(codec, CursorAfter(codec, n)) {
          GoesRound(codec, n);
          Round(codec, n % 3);
        }
      } else if |tokens| == 1 {
        AskPage(0);
        assert codec.decode(codec.encode(None, tokens[0])) == (None, Some(tokens[0]));
        assert CursorAfter(codec, 1) == Some(codec.encode(CursorAfter(codec, 0), tokens[0]));
        assert Completes(codec, CursorAfter(codec, 1));
      } else {
        assert Completes(codec, CursorAfter(codec, 0));
      }
    }

    lemma {:induction false} RepairedFollows(codec: Codec, n: nat)
      requires codec.Lawful() && Valid() && n <= |tokens|
      ensures RepairedAfter(codec, n) == RepairedChain(codec, None, tokens[..n])
      ensures Ask(RequestFor(codec, RepairedAfter(codec, n))) == PageAt(n)
    {
      if n > 0 {
        RepairedFollows(codec, n - 1);
        assert tokens[..n][..n - 1] == tokens[..n - 1];
      }
      RepairedKeepsToken(codec, None, tokens[..n]);
      if n > 0 { AskPage(n - 1); }
    }

    /** The variant completes every listing, with as many calls as it has pages. */
    lemma RepairedCompletes(codec: Codec)
      requires codec.Lawful() && Valid()
      ensures Completes(codec, RepairedAfter(codec, |tokens|))
      ensures forall n: nat :: n < |tokens| ==> !Completes(codec, RepairedAfter(codec, n))
    {
      RepairedFollows(codec, |tokens|);
      forall n: nat | n < |tokens| ensures !Completes(codec, RepairedAfter(codec, n)) {
        RepairedFollows(codec, n);
      }
    }
  }

  /** A full sync of three pages whose calls never reach the last one, while the variant's third
      call does. */
  lemma ThreePagesNeverComplete(codec: Codec) returns (listing: Listing)
    requires codec.Lawful()
    ensures listing.Valid() && |listing.tokens| == 2
    ensures forall n: nat :: !listing.Completes(codec, listing.CursorAfter(codec, n))
    ensures listing.Completes(codec, listing.RepairedAfter(codec, 2))
  {
    listing := Listing(["p", "q"], None);
    listing.CompletesExactly(codec);
    listing.RepairedCompletes(codec);
  }
}
