/** What cleaning does to a briefing text: rejected references taken out or marked, runs of
    spaces collapsed, the ends stripped. */
module Cleaning {
  import opened References
  import opened Sequences

  // ---- Replacing, token by token -----------------------------------------------------------------

  /** Every group with body `b` exchanged for the tokens `into`. */
  function Exchange(ts: seq<Token>, b: string, into: seq<Token>): seq<Token> {
    if ts == [] then []
    else (if ts[0] == Group(b) then into else [ts[0]]) + Exchange(ts[1..], b, into)
  }

  lemma {:induction false} ReplaceSkips(a: string, rest: string, raw: string, into: string)
    requires raw != [] && forall k :: 0 <= k < |a| ==> a[k] != raw[0]
    ensures Replace(a + rest, raw, into) == a + Replace(rest, raw, into)
  {
    if a == [] {
      assert a + rest == rest;
    } else {
      assert (a + rest)[0] == a[0];
      assert (a + rest)[1..] == a[1..] + rest;
      ReplaceSkips(a[1..], rest, raw, into);
    }
  }

  lemma SameGroup(b: string, body: string, rest: string)
    requires Plain(b) && Plain(body)
    ensures Image(Group(b)) <= Image(Group(body)) + rest <==> b == body
  {
    var raw, s := Image(Group(b)), Image(Group(body)) + rest;
    if |b| < |body| {
      assert raw[|b| + 1] == ']' && s[|b| + 1] == body[|b|] != ']';
    } else if |body| < |b| {
      assert raw[|body| + 1] == b[|body|] != ']' && s[|body| + 1] == ']';
    } else {
      assert s[..|raw|] == Image(Group(body));
      assert raw[1..|b| + 1] == b && Image(Group(body))[1..|b| + 1] == body;
    }
  }

  lemma ReplaceOther(body: string, rest: string, b: string, into: string)
    requires Plain(body) && Plain(b) && body != b
    ensures Replace(Image(Group(body)) + rest, Image(Group(b)), into)
         == Image(Group(body)) + Replace(rest, Image(Group(b)), into)
  {
    var raw, s, tail := Image(Group(b)), Image(Group(body)) + rest, body + "]";
    SameGroup(b, body, rest);
    assert s[0] == '[' && s[1..] == tail + rest;
    ReplaceSkips(tail, rest, raw, into);
    assert ['['] + (tail + Replace(rest, raw, into)) == (['['] + tail) + Replace(rest, raw, into);
    assert ['['] + tail == Image(Group(body));
  }

  lemma ReplaceStep(t: Token, rest: string, b: string, into: string)
    requires Sound(t) && Plain(b)
    ensures Replace(Image(t) + rest, Image(Group(b)), into)
         == (if t == Group(b) then into else Image(t)) + Replace(rest, Image(Group(b)), into)
  {
    match t
    case Char(c) =>
      ReplaceSkips([c], rest, Image(Group(b)), into);
    case Group(body) =>
      if body == b {
        SameGroup(b, b, rest);
        assert (Image(t) + rest)[|Image(t)|..] == rest;
      } else {
        ReplaceOther(body, rest, b, into);
      }
  }

  lemma {:induction false} RenderConcat(ts: seq<Token>, us: seq<Token>)
    ensures Render(ts + us) == Render(ts) + Render(us)
    ensures Groups(ts + us) == Groups(ts) + Groups(us)
    decreases |ts|
  {
    if ts == [] {
      assert ts + us == us;
    } else {
      var t, rest := ts[0], ts[1..];
      RenderConcat(rest, us);
      assert (ts + us)[1..] == rest + us;
      Regroup(Image(t), Render(rest), Render(us));
      Regroup(if t.Group? then [t.body] else [], Groups(rest), Groups(us));
    }
  }

  /** Replacing a group's text exchanges exactly the groups with that body. */
  lemma {:induction false} ReplaceGroup(ts: seq<Token>, b: string, into: seq<Token>)
    requires Tokenized(ts) && Plain(b) && Tokenized(into)
    ensures Replace(Render(ts), Image(Group(b)), Render(into)) == Render(Exchange(ts, b, into))
    ensures Tokenized(Exchange(ts, b, into))
    decreases |ts|
  {
    if ts != [] {
      ReplaceGroup(ts[1..], b, into);
      ReplaceStep(ts[0], Render(ts[1..]), b, Render(into));
      RenderCons(ts[0], Exchange(ts[1..], b, into));
      RenderConcat(into, Exchange(ts[1..], b, into));
    }
  }

  // ---- Collapsing and stripping, token by token ----------------------------------------------------

  function CollapseTokens(ts: seq<Token>): seq<Token> {
    if ts == [] then []
    else if |ts| > 1 && ts[0] == Char(' ') && ts[1] == Char(' ') then CollapseTokens(ts[1..])
    else [if ts[0].Group? then Group(Collapse(ts[0].body)) else ts[0]] + CollapseTokens(ts[1..])
  }

  /** Spaces on the two sides of another character never meet. */
  lemma {:induction false} CollapseThrough(a: string, c: char, rest: string)
    requires c != ' '
    ensures Collapse(a + [c] + rest) == Collapse(a) + [c] + Collapse(rest)
  {
    var s := a + [c] + rest;
    if a == [] {
      assert s == [c] + rest && s[1..] == rest;
    } else {
      assert s[1..] == a[1..] + [c] + rest;
      CollapseThrough(a[1..], c, rest);
      if |a| > 1 {
        assert s[1] == a[1];
      } else {
        assert s[1] == c && Collapse(a[1..]) == [];
      }
    }
  }

  lemma {:induction false} CollapsePlain(s: string)
    ensures Plain(s) ==> Plain(Collapse(s))
    ensures |Collapse(s)| <= |s|
    ensures s != [] ==> Collapse(s) != [] && (Collapse(s)[0] == s[0])
  {
    if |s| > 1 { CollapsePlain(s[1..]); }
  }

  lemma CollapseChar(c: char, rest: string)
    ensures Collapse([c] + rest)
         == if c == ' ' && rest != [] && rest[0] == ' ' then Collapse(rest) else [c] + Collapse(rest)
  {
    assert ([c] + rest)[1..] == rest;
  }

  lemma ImageSplits(body: string, rest: string)
    ensures Image(Group(body)) + rest == ['['] + (body + [']'] + rest)
  {
  }

  lemma CollapseGroup(body: string, rest: string)
    requires Plain(body)
    ensures Collapse(Image(Group(body)) + rest) == Image(Group(Collapse(body))) + Collapse(rest)
    ensures Plain(Collapse(body))
  {
    ImageSplits(body, rest);
    CollapseChar('[', body + [']'] + rest);
    CollapseThrough(body, ']', rest);
    ImageSplits(Collapse(body), Collapse(rest));
    CollapsePlain(body);
  }

  lemma RenderHead(ts: seq<Token>)
    requires ts != []
    ensures Render(ts) != [] && (Render(ts)[0] == ' ' <==> ts[0] == Char(' '))
  {
  }

  lemma {:induction false} CollapseGroups(ts: seq<Token>)
    requires Tokenized(ts)
    ensures Collapse(Render(ts)) == Render(CollapseTokens(ts)) && Tokenized(CollapseTokens(ts))
    decreases |ts|
  {
    if ts != [] {
      var rest := ts[1..];
      CollapseGroups(rest);
      if rest != [] { RenderHead(rest); }
      match ts[0]
      case Char(c) =>
        CollapseChar(c, Render(rest));
        RenderCons(Char(c), CollapseTokens(rest));
      case Group(body) =>
        CollapseGroup(body, Render(rest));
        RenderCons(Group(Collapse(body)), CollapseTokens(rest));
    }
  }

  function CollapseEach(bodies: seq<string>): seq<string> {
    if bodies == [] then [] else [Collapse(bodies[0])] + CollapseEach(bodies[1..])
  }

  lemma {:induction false} GroupsCollapse(ts: seq<Token>)
    ensures Groups(CollapseTokens(ts)) == CollapseEach(Groups(ts))
    decreases |ts|
  {
    if ts != [] {
      GroupsCollapse(ts[1..]);
      if !(|ts| > 1 && ts[0] == Char(' ') && ts[1] == Char(' ')) {
        assert CollapseTokens(ts)[1..] == CollapseTokens(ts[1..]);
      }
      if ts[0].Group? {
        assert Groups(ts)[1..] == Groups(ts[1..]);
      } else {
        assert Groups(ts) == Groups(ts[1..]);
      }
    }
  }

  lemma {:induction false} TrimLeftGroups(ts: seq<Token>) returns (k: nat)
    requires Tokenized(ts)
    ensures k <= |ts| && TrimLeft(Render(ts)) == Render(ts[k..]) && Groups(ts[k..]) == Groups(ts)
    decreases |ts|
  {
    if ts != [] && ts[0].Char? && IsSpace(ts[0].c) {
      var n := TrimLeftGroups(ts[1..]);
      k := n + 1;
      assert Render(ts)[1..] == Render(ts[1..]);
      assert ts[k..] == ts[1..][n..];
      assert Groups(ts) == Groups(ts[1..]);
    } else {
      k := 0;
      assert ts[0..] == ts;
    }
  }

  lemma {:induction false} RenderAppend(ts: seq<Token>, t: Token)
    ensures Render(ts + [t]) == Render(ts) + Image(t)
    ensures Groups(ts + [t]) == Groups(ts) + (if t.Group? then [t.body] else [])
    decreases |ts|
  {
    if ts == [] {
      assert (ts + [t])[1..] == [];
    } else {
      assert (ts + [t])[1..] == ts[1..] + [t];
      RenderAppend(ts[1..], t);
    }
  }

  lemma {:induction false} TrimRightGroups(ts: seq<Token>) returns (k: nat)
    requires Tokenized(ts)
    ensures k <= |ts| && TrimRight(Render(ts)) == Render(ts[..k]) && Groups(ts[..k]) == Groups(ts)
    decreases |ts|
  {
    k := |ts|;
    assert ts[..k] == ts;
    if ts != [] {
      var front, last := ts[..|ts| - 1], ts[|ts| - 1];
      assert ts == front + [last];
      RenderAppend(front, last);
      if last.Char? && IsSpace(last.c) {
        assert Render(ts)[..|Render(ts)| - 1] == Render(front);
        k := TrimRightGroups(front);
        assert ts[..k] == front[..k];
      } else if last.Group? {
        assert Render(ts)[|Render(ts)| - 1] == ']';
      }
    }
  }

  /** `strip` takes away characters outside the groups only. */
  lemma StripGroups(ts: seq<Token>) returns (us: seq<Token>)
    requires Tokenized(ts)
    ensures Tokenized(us) && Strip(Render(ts)) == Render(us) && Groups(us) == Groups(ts)
  {
    var i := TrimLeftGroups(ts);
    var k := TrimRightGroups(ts[i..]);
    us := ts[i..][..k];
  }

  // ---- Collapsing and being a reference ------------------------------------------------------------

  lemma {:induction false} SpanCollapse(s: string)
    ensures Span(Collapse(s), {','}) > 0 <==> Span(s, {','}) > 0
    ensures Span(Collapse(s), {','}) + 1 < |Collapse(s)| <==> Span(s, {','}) + 1 < |s|
    ensures Span(Collapse(s), {','}) < |Collapse(s)| <==> Span(s, {','}) < |s|
  {
    CollapsePlain(s);
    if |s| > 1 {
      SpanCollapse(s[1..]);
      CollapsePlain(s[1..]);
    }
  }

  /** Collapsing spaces makes no group a reference that was none, and no reference a plain
      group. */
  lemma ReferenceSurvivesCollapse(body: string)
    ensures IsReference(Collapse(body)) <==> IsReference(body)
  {
    CollapseHead(body);
    if |body| >= 7 && body[..7] == "Quelle:" {
      SpanCollapse(body[7..]);
    }
  }

  /** `Quelle:` holds no space, so collapsing leaves it and what follows it apart. */
  lemma CollapseHead(body: string)
    ensures |body| >= 7 && body[..7] == "Quelle:" ==> Collapse(body) == "Quelle:" + Collapse(body[7..])
    ensures |Collapse(body)| >= 7 && Collapse(body)[..7] == "Quelle:" ==> |body| >= 7 && body[..7] == "Quelle:"
  {
    if |body| >= 7 && body[..7] == "Quelle:" {
      assert body == "Quelle" + [':'] + body[7..];
      CollapseThrough("Quelle", ':', body[7..]);
      assert !HasDoubleSpace("Quelle");
      CollapseIdentity("Quelle");
    }
    if |Collapse(body)| >= 7 && Collapse(body)[..7] == "Quelle:" {
      HeadUnchanged(body, 7);
    }
  }

  /** Up to the first space nothing changes. */
  lemma {:induction false} HeadUnchanged(s: string, n: nat)
    requires n <= |Collapse(s)| && forall k :: 0 <= k < n ==> Collapse(s)[k] != ' '
    ensures n <= |s| && s[..n] == Collapse(s)[..n]
    decreases n
  {
    CollapsePlain(s);
    if n > 0 && |s| > 1 {
      assert s[0] != ' ';
      assert Collapse(s)[1..] == Collapse(s[1..]);
      HeadUnchanged(s[1..], n - 1);
      assert s[..n] == [s[0]] + s[1..][..n - 1];
      assert Collapse(s)[..n] == [s[0]] + Collapse(s[1..])[..n - 1];
    }
  }

  lemma {:induction false} CollapseIdentity(s: string)
    ensures Collapse(s) == s <==> !HasDoubleSpace(s)
  {
    if |s| > 1 {
      CollapseIdentity(s[1..]);
      if s[0] == ' ' && s[1] == ' ' {
        CollapsePlain(s[1..]);
      } else {
        if HasDoubleSpace(s) {
          var i :| 0 <= i < |s| - 1 && s[i] == ' ' && s[i + 1] == ' ';
          assert s[1..][i - 1] == ' ' && s[1..][i] == ' ';
        }
        if HasDoubleSpace(s[1..]) {
          var i :| 0 <= i < |s[1..]| - 1 && s[1..][i] == ' ' && s[1..][i + 1] == ' ';
          assert s[i + 1] == ' ' && s[i + 2] == ' ';
        }
        assert Collapse(s)[1..] == Collapse(s[1..]);
      }
    }
  }
}
