/** The watermark of the Notion sync: which pages a search that is read page by page delivers. */
module NotionSync {
  import opened Options
  import opened Sequences
  import opened TextOrder

  /** A hit of the search; `edited` is its `last_edited_time`, empty if missing. */
  datatype Hit = Hit(id: string, edited: string)

  /** A decoded cursor; the empty string stands for an absent part. */
  datatype Cursor = Cursor(watermark: string, start: string)

  /** The search request: a filter on later edits, and where to go on. */
  datatype Query = Query(edited: string, start: string)

  datatype Answer = Answer(hits: seq<Hit>, hasMore: bool, next: string) | RateLimited | Failed

  datatype Outcome =
    | Synced(documents: seq<string>, errors: seq<string>, cursor: Cursor, hasMore: bool)
    | RateLimitError
    | ConnectorError

  function Later(latest: string, h: Hit): string {
    if h.edited != "" && (latest == "" || Less(latest, h.edited)) then h.edited else latest
  }

  /** The watermark after the hits, whether they could be normalized or not. */
  function Latest(latest: string, hits: seq<Hit>): string {
    if hits == [] then latest else Later(Latest(latest, hits[..|hits| - 1]), hits[|hits| - 1])
  }

  /** The latest of the watermark before and the edit times given; without any it stays. */
  ghost predicate LatestEdit(before: string, hits: seq<Hit>, latest: string) {
    && (latest == before || exists h <- hits :: h.edited == latest && latest != "")
    && (before != "" ==> latest != "" && !Less(latest, before))
    && forall h <- hits :: h.edited != "" ==> latest != "" && !Less(latest, h.edited)
  }

  lemma {:induction false} LatestExactly(before: string, hits: seq<Hit>)
    ensures LatestEdit(before, hits, Latest(before, hits))
  {
    if hits == [] {
      Trichotomy(before, before);
    } else {
      var front, last := hits[..|hits| - 1], hits[|hits| - 1];
      LatestExactly(before, front);
      hide LatestEdit;
      LaterExactly(before, front, Latest(before, front), last);
      assert hits == front + [last];
    }
  }

  lemma LaterExactly(before: string, front: seq<Hit>, latest: string, last: Hit)
    requires LatestEdit(before, front, latest)
    ensures LatestEdit(before, front + [last], Later(latest, last))
  {
    var next := Later(latest, last);
    Trichotomy(next, next);
    Trichotomy(latest, last.edited);
    assert last in front + [last];
    if latest != next {
      if before != "" { NotBefore(latest, next, before); }
      forall h <- front | h.edited != "" ensures !Less(next, h.edited) {
        NotBefore(latest, next, h.edited);
      }
    } else if latest != before {
      var h :| h in front && h.edited == latest && latest != "";
      assert h in front + [last];
    }
  }

  /** What is not before a text is not before any smaller one. */
  lemma NotBefore(a: string, b: string, t: string)
    requires (a == "" || Less(a, b)) && t != "" && a != "" && !Less(a, t)
    ensures !Less(b, t)
  {
    if Less(b, t) { Transitive(a, b, t); }
  }

  lemma {:induction false} RefusedHave(hits: seq<Hit>, normalize: Hit -> Option<string>)
    ensures forall x <- Refused(hits, normalize, HitId) :: exists h <- hits :: normalize(h) == None && h.id == x
  {
    if hits != [] {
      var front, last := hits[..|hits| - 1], hits[|hits| - 1];
      RefusedHave(front, normalize);
      assert hits == front + [last];
    }
  }

  function HitId(h: Hit): string {
    h.id
  }

  /** What `fetch_since` returns as cursor: the new watermark goes into it even between the
      pages of one search. */
  function NextCursor(cursor: Cursor, a: Answer): Cursor
    requires a.Answer?
  {
    Cursor(Latest(cursor.watermark, a.hits), if a.hasMore then a.next else "")
  }

  method FetchSince(cursor: Cursor, ask: Query -> Answer, normalize: Hit -> Option<string>) returns (out: Outcome)
    ensures match ask(Query(cursor.watermark, cursor.start)) {
      case Answer(hits, hasMore, next) =>
        && out.Synced?
        && Documented(hits, normalize, out.documents) && Reported(hits, normalize, HitId, out.errors)
        && (forall x <- out.errors :: exists h <- hits :: normalize(h) == None && h.id == x)
        && out.cursor.start == (if hasMore then next else "")
        && LatestEdit(cursor.watermark, hits, out.cursor.watermark)
        && out.documents == Normalized(hits, normalize) && out.errors == Refused(hits, normalize, HitId)
        && |out.documents| + |out.errors| == |hits|
        && out.cursor == NextCursor(cursor, Answer(hits, hasMore, next)) && out.hasMore == hasMore
      case RateLimited => out == RateLimitError
      case Failed => out == ConnectorError
    }
  {
    match ask(Query(cursor.watermark, cursor.start)) {
      case RateLimited => return RateLimitError;
      case Failed => return ConnectorError;
      case Answer(hits, hasMore, next) =>
        var documents: seq<string>, errors: seq<string>, latest := [], [], cursor.watermark;
        for i := 0 to |hits|
          invariant documents == Normalized(hits[..i], normalize) && errors == Refused(hits[..i], normalize, HitId)
          invariant |documents| + |errors| == i
          invariant latest == Latest(cursor.watermark, hits[..i])
        {
          assert hits[..i + 1][..i] == hits[..i];
          match normalize(hits[i]) {
            case Some(document) => documents := documents + [document];
            case None => errors := errors + [hits[i].id];
          }
          if hits[i].edited != "" && (latest == "" || Less(latest, hits[i].edited)) {
            latest := hits[i].edited;
          }
        }
        assert hits[..|hits|] == hits;
        EachAccounted(hits, normalize, HitId);
        RefusedHave(hits, normalize);
        LatestExactly(cursor.watermark, hits);
        hide Documented, Reported, Normalized, Refused, LatestEdit, Latest;
        return Synced(documents, errors, Cursor(latest, if hasMore && next != "" then next else ""), hasMore);
    }
  }

  // ---- A search read in pages ---------------------------------------------------------------------------

  /** The hits of a search, in the order asked for: ascending by edit time. */
  ghost predicate Listing(hits: seq<Hit>) {
    && (forall i :: 0 <= i < |hits| ==> hits[i].id != "" && hits[i].edited != "")
    && (forall i, j :: 0 <= i < j < |hits| ==> hits[i].id != hits[j].id)
    && (forall i, j :: 0 <= i < j < |hits| ==> !Less(hits[j].edited, hits[i].edited))
  }

  predicate Passes(h: Hit, watermark: string) {
    watermark == "" || Less(watermark, h.edited)
  }

  function Due(hits: seq<Hit>, watermark: string): seq<Hit> {
    if hits == [] then [] else (if Passes(hits[0], watermark) then [hits[0]] else []) + Due(hits[1..], watermark)
  }

  /** Behind the hit with this id; from the beginning for the empty id. */
  function Position(hits: seq<Hit>, id: string): (p: nat)
    ensures p <= |hits|
  {
    if id == "" || hits == [] then 0 else if hits[0].id == id then 1 else 1 + Position(hits[1..], id)
  }

  /** The service: the hits behind the start that pass the filter, at most `size` of them. */
  function Serve(hits: seq<Hit>, q: Query, size: nat): Answer
    requires size > 0
  {
    var rest := Due(hits[Position(hits, q.start)..], q.edited);
    if |rest| <= size then Answer(rest, false, "") else Answer(rest[..size], true, rest[size - 1].id)
  }

  /** Everything delivered until a call reports no more; when the page sizes are used up, one
      last page takes what is left. */
  function Calls(hits: seq<Hit>, cursor: Cursor, sizes: seq<nat>, repaired: bool): seq<Hit>
    requires forall k :: 0 <= k < |sizes| ==> sizes[k] > 0
    decreases |sizes|
  {
    if sizes == [] then Due(hits[Position(hits, cursor.start)..], cursor.watermark)
    else
      var a := Serve(hits, Query(cursor.watermark, cursor.start), sizes[0]);
      var next := NextCursor(cursor, a);
      if !a.hasMore then a.hits
      else a.hits + Calls(hits, if repaired then next.(watermark := cursor.watermark) else next, sizes[1..], repaired)
  }

  /** No two hits on the two sides of a page border have the same edit time. */
  predicate TieFree(rest: seq<Hit>, sizes: seq<nat>)
    requires forall k :: 0 <= k < |sizes| ==> sizes[k] > 0
    decreases |sizes|
  {
    sizes == [] || |rest| <= sizes[0]
    || (Less(rest[sizes[0] - 1].edited, rest[sizes[0]].edited) && TieFree(rest[sizes[0]..], sizes[1..]))
  }

  lemma {:induction false} DueAt(hits: seq<Hit>, watermark: string, j: nat) returns (k: nat)
    requires j < |Due(hits, watermark)|
    ensures k < |hits| && hits[k] == Due(hits, watermark)[j] && Passes(hits[k], watermark)
    ensures Due(hits[k + 1..], watermark) == Due(hits, watermark)[j + 1..]
    decreases |hits|
  {
    var rest := Due(hits[1..], watermark);
    if !Passes(hits[0], watermark) {
      assert Due(hits, watermark) == rest;
      k := DueAt(hits[1..], watermark, j);
      k := k + 1;
      assert hits[k + 1..] == hits[1..][k..];
    } else if j == 0 {
      k := 0;
      assert Due(hits, watermark)[1..] == rest;
    } else {
      assert Due(hits, watermark)[j + 1..] == rest[j..];
      k := DueAt(hits[1..], watermark, j - 1);
      k := k + 1;
      assert hits[k + 1..] == hits[1..][k..];
    }
  }

  lemma {:induction false} PositionOf(hits: seq<Hit>, k: nat)
    requires Listing(hits) && k < |hits|
    ensures Position(hits, hits[k].id) == k + 1
    decreases k
  {
    if k > 0 {
      assert hits[1..][k - 1] == hits[k];
      PositionOf(hits[1..], k - 1);
    }
  }

  lemma ListingSuffix(hits: seq<Hit>, p: nat)
    requires Listing(hits) && p <= |hits|
    ensures Listing(hits[p..])
  {
  }

  /** A due hit and where the listing goes on behind it. */
  lemma DueBehind(hits: seq<Hit>, p: nat, watermark: string, j: nat) returns (k: nat)
    requires Listing(hits) && p <= |hits| && j < |Due(hits[p..], watermark)|
    ensures k <= |hits| && Position(hits, Due(hits[p..], watermark)[j].id) == k
    ensures Due(hits[k..], watermark) == Due(hits[p..], watermark)[j + 1..]
  {
    var n := DueAt(hits[p..], watermark, j);
    hide Due, Passes;
    assert hits[p..][n] == hits[p + n];
    PositionOf(hits, p + n);
    k := p + n + 1;
    assert hits[p..][n + 1..] == hits[k..];
  }

  /** Going on behind a delivered hit, with the same filter, leaves the hits after it. */
  lemma GoesOn(hits: seq<Hit>, c: Cursor, n: nat) returns (behind: nat)
    requires Listing(hits)
    requires var rest := Due(hits[Position(hits, c.start)..], c.watermark); 0 < n <= |rest|
    ensures var rest := Due(hits[Position(hits, c.start)..], c.watermark);
      && behind == Position(hits, rest[n - 1].id)
      && Due(hits[behind..], c.watermark) == rest[n..]
  {
    hide Due, Position, Listing;
    behind := DueBehind(hits, Position(hits, c.start), c.watermark, n - 1);
  }

  /** With the filter kept for the whole search, its pages together are the search's result. */
  lemma {:induction false} RepairedDeliversAll(hits: seq<Hit>, c: Cursor, sizes: seq<nat>)
    requires Listing(hits) && forall k :: 0 <= k < |sizes| ==> sizes[k] > 0
    ensures Calls(hits, c, sizes, true) == Due(hits[Position(hits, c.start)..], c.watermark)
    decreases |sizes|
  {
    if sizes != [] {
      var rest, n := Due(hits[Position(hits, c.start)..], c.watermark), sizes[0];
      if |rest| > n {
        var behind := GoesOn(hits, c, n);
        RepairedDeliversAll(hits, Cursor(c.watermark, rest[n - 1].id), sizes[1..]);
        assert rest == rest[..n] + rest[n..];
      }
    }
  }

  lemma {:induction false} DueMember(hits: seq<Hit>, watermark: string, h: Hit)
    ensures h in Due(hits, watermark) <==> h in hits && Passes(h, watermark)
  {
    if hits != [] {
      DueMember(hits[1..], watermark, h);
      assert h in hits <==> h == hits[0] || h in hits[1..];
    }
  }

  lemma ListingCons(hits: seq<Hit>, rest: seq<Hit>)
    requires Listing(hits) && hits != [] && Listing(rest) && forall i :: 0 <= i < |rest| ==> rest[i] in hits[1..]
    ensures Listing([hits[0]] + rest)
  {
    var all := [hits[0]] + rest;
    forall i | 0 <= i < |rest|
      ensures rest[i].id != hits[0].id && !Less(rest[i].edited, hits[0].edited)
    {
      var k :| 0 <= k < |hits[1..]| && hits[1..][k] == rest[i];
      assert hits[k + 1] == rest[i];
    }
    assert forall i :: 1 <= i < |all| ==> all[i] == rest[i - 1];
  }

  lemma {:induction false} DueListing(hits: seq<Hit>, watermark: string)
    requires Listing(hits)
    ensures Listing(Due(hits, watermark))
    ensures forall i :: 0 <= i < |Due(hits, watermark)| ==> Passes(Due(hits, watermark)[i], watermark)
  {
    if hits != [] {
      var rest := Due(hits[1..], watermark);
      ListingSuffix(hits, 1);
      DueListing(hits[1..], watermark);
      forall i | 0 <= i < |rest| ensures rest[i] in hits[1..] {
        DueMember(hits[1..], watermark, rest[i]);
      }
      ListingCons(hits, rest);
      assert Due(hits, watermark) == if Passes(hits[0], watermark) then [hits[0]] + rest else rest;
      hide Listing;
    }
  }

  /** On ascending hits the watermark moves to the last one. */
  lemma {:induction false} LatestIsLast(watermark: string, page: seq<Hit>)
    requires Listing(page) && page != []
    requires forall i :: 0 <= i < |page| ==> Passes(page[i], watermark)
    ensures Latest(watermark, page) == page[|page| - 1].edited
    decreases |page|
  {
    var last := |page| - 1;
    if last > 0 {
      var front := page[..last];
      assert page[last - 1] == front[last - 1];
      LatestIsLast(watermark, front);
      Trichotomy(front[last - 1].edited, page[last].edited);
      assert !Less(page[last].edited, page[last - 1].edited);
    } else {
      assert page[..0] == [];
    }
  }

  /** A later filter sees of the filtered hits what it sees of all. */
  lemma {:induction false} DueTwice(hits: seq<Hit>, w: string, later: string)
    requires later != "" && (w == "" || Less(w, later))
    ensures Due(Due(hits, w), later) == Due(hits, later)
  {
    if hits != [] {
      DueTwice(hits[1..], w, later);
      var h := hits[0];
      if Passes(h, later) && w != "" { Transitive(w, later, h.edited); }
      if Passes(h, w) {
        assert Due(hits, w)[1..] == Due(hits[1..], w);
      } else {
        assert Due(hits, w) == Due(hits[1..], w);
      }
    }
  }

  lemma {:induction false} DueShorter(hits: seq<Hit>, w: string)
    ensures |Due(hits, w)| <= |hits|
    ensures (forall i :: 0 <= i < |hits| ==> Passes(hits[i], w)) ==> Due(hits, w) == hits
    ensures hits != [] && !Passes(hits[0], w) ==> |Due(hits, w)| < |hits|
  {
    if hits != [] {
      DueShorter(hits[1..], w);
      if forall i :: 0 <= i < |hits| ==> Passes(hits[i], w) {
        assert forall i :: 0 <= i < |hits[1..]| ==> Passes(hits[1..][i], w);
      }
    }
  }

  /** What the second page of a search is taken from: the remaining hits, filtered again. */
  lemma RestIsFiltered(hits: seq<Hit>, c: Cursor, n: nat)
    requires Listing(hits) && n > 0
    requires |Due(hits[Position(hits, c.start)..], c.watermark)| > n
    ensures var rest := Due(hits[Position(hits, c.start)..], c.watermark);
      var next := NextCursor(c, Serve(hits, Query(c.watermark, c.start), n));
      && next == Cursor(rest[n - 1].edited, rest[n - 1].id)
      && Due(hits[Position(hits, next.start)..], next.watermark) == Due(rest[n..], rest[n - 1].edited)
  {
    var p := Position(hits, c.start);
    var rest := Due(hits[p..], c.watermark);
    ListingSuffix(hits, p);
    DueListing(hits[p..], c.watermark);
    LatestIsLast(c.watermark, rest[..n]);
    var behind := GoesOn(hits, c, n);
    assert Passes(rest[n - 1], c.watermark);
    DueTwice(hits[behind..], c.watermark, rest[n - 1].edited);
  }

  lemma {:induction false} CallsNoMore(hits: seq<Hit>, c: Cursor, sizes: seq<nat>)
    requires Listing(hits) && forall k :: 0 <= k < |sizes| ==> sizes[k] > 0
    ensures |Calls(hits, c, sizes, false)| <= |Due(hits[Position(hits, c.start)..], c.watermark)|
    decreases |sizes|
  {
    if sizes != [] {
      var rest, n := Due(hits[Position(hits, c.start)..], c.watermark), sizes[0];
      if |rest| > n {
        RestIsFiltered(hits, c, n);
        CallsNoMore(hits, NextCursor(c, Serve(hits, Query(c.watermark, c.start), n)), sizes[1..]);
        DueShorter(rest[n..], rest[n - 1].edited);
      }
    }
  }

  /** Across a border without a tie the new filter loses nothing; with a tie it does. */
  lemma BorderExactly(rest: seq<Hit>, n: nat)
    requires Listing(rest) && 0 < n < |rest|
    ensures Less(rest[n - 1].edited, rest[n].edited) ==> Due(rest[n..], rest[n - 1].edited) == rest[n..]
    ensures !Less(rest[n - 1].edited, rest[n].edited) ==> |Due(rest[n..], rest[n - 1].edited)| < |rest| - n
  {
    var w := rest[n - 1].edited;
    DueShorter(rest[n..], w);
    if Less(w, rest[n].edited) {
      forall i | 0 <= i < |rest[n..]| ensures Passes(rest[n..][i], w) {
        Trichotomy(rest[n].edited, rest[n + i].edited);
        if Less(rest[n].edited, rest[n + i].edited) { Transitive(w, rest[n].edited, rest[n + i].edited); }
      }
    } else {
      assert !Passes(rest[n..][0], w);
    }
  }

  /** One border: the first page and what the later calls deliver make up the result exactly if
      there is no tie at the border and none later. */
  lemma BorderAndLater(rest: seq<Hit>, n: nat, tail: seq<Hit>, sizes: seq<nat>)
    requires Listing(rest) && 0 < n < |rest| && forall k :: 0 <= k < |sizes| ==> sizes[k] > 0
    requires var after := Due(rest[n..], rest[n - 1].edited);
      |tail| <= |after| && (tail == after <==> TieFree(after, sizes))
    ensures rest[..n] + tail == rest <==> Less(rest[n - 1].edited, rest[n].edited) && TieFree(rest[n..], sizes)
  {
    hide Due, TieFree, Less;
    BorderExactly(rest, n);
    assert rest == rest[..n] + rest[n..];
    if rest[..n] + tail == rest {
      assert tail == (rest[..n] + tail)[n..] == rest[n..];
    }
  }

  lemma CallsFirst(hits: seq<Hit>, c: Cursor, sizes: seq<nat>)
    requires sizes != [] && forall k :: 0 <= k < |sizes| ==> sizes[k] > 0
    requires |Due(hits[Position(hits, c.start)..], c.watermark)| > sizes[0]
    ensures var rest := Due(hits[Position(hits, c.start)..], c.watermark);
      var next := NextCursor(c, Serve(hits, Query(c.watermark, c.start), sizes[0]));
      Calls(hits, c, sizes, false) == rest[..sizes[0]] + Calls(hits, next, sizes[1..], false)
  {
  }

  /** As the code is, a search read in pages delivers its whole result if and only if no page
      border falls between two hits of the same edit time. */
  lemma {:induction false} DeliversAllExactly(hits: seq<Hit>, c: Cursor, sizes: seq<nat>)
    requires Listing(hits) && forall k :: 0 <= k < |sizes| ==> sizes[k] > 0
    ensures var rest := Due(hits[Position(hits, c.start)..], c.watermark);
      Calls(hits, c, sizes, false) == rest <==> TieFree(rest, sizes)
    decreases |sizes|
  {
    var p := Position(hits, c.start);
    var rest := Due(hits[p..], c.watermark);
    if sizes != [] && |rest| > sizes[0] {
      var n := sizes[0];
      var next := NextCursor(c, Serve(hits, Query(c.watermark, c.start), n));
      CallsFirst(hits, c, sizes);
      DeliversAllExactly(hits, next, sizes[1..]);
      CallsNoMore(hits, next, sizes[1..]);
      RestIsFiltered(hits, c, n);
      ListingSuffix(hits, p);
      DueListing(hits[p..], c.watermark);
      hide Calls, Due, Position, NextCursor, Serve, Listing;
      BorderAndLater(rest, n, Calls(hits, next, sizes[1..], false), sizes[1..]);
    }
  }

  /** Two hits of one edit time on two pages: the second is never delivered. */
  lemma TieIsLost() returns (hits: seq<Hit>, sizes: seq<nat>)
    ensures Listing(hits) && sizes == [1]
    ensures Calls(hits, Cursor("", ""), sizes, false) != Due(hits, "")
    ensures Calls(hits, Cursor("", ""), sizes, true) == Due(hits, "")
  {
    hits, sizes := [Hit("a", "t"), Hit("b", "t")], [1];
    Trichotomy("t", "t");
    var c := Cursor("", "");
    assert hits[Position(hits, c.start)..] == hits;
    assert Due(hits[1..], "") == [hits[1]] + Due([], "");
    DeliversAllExactly(hits, c, sizes);
    RepairedDeliversAll(hits, c, sizes);
  }
}
