/** Source references `[Quelle: title, date]` in a briefing: how they are found, and how the
    text is cleaned of those that no document backs. */
module References {

  // ---- The regular expressions, as functions on text ----------------------------------------

  /** `str.isspace` on the first 256 code points. */
  predicate IsSpace(c: char) {
    c in {' ', '\t', '\n', '\r', '\U{000B}', '\U{000C}', '\U{001C}', '\U{001D}', '\U{001E}', '\U{001F}',
          '\U{0085}', '\U{00A0}'}
  }

  /** By code point: tab to carriage return, the four separators, blank, next line and no-break
      space. */
  lemma SpaceCodes(c: char)
    ensures IsSpace(c) <==>
      9 <= c as int <= 13 || 28 <= c as int <= 32 || c as int == 133 || c as int == 160
  {
    assert '\U{000B}' as int == 11 && '\U{000C}' as int == 12 && '\U{001C}' as int == 28;
  }

  function TrimLeft(s: string): string {
    if s != [] && IsSpace(s[0]) then TrimLeft(s[1..]) else s
  }

  function TrimRight(s: string): string {
    if s != [] && IsSpace(s[|s| - 1]) then TrimRight(s[..|s| - 1]) else s
  }

  function Strip(s: string): string {
    TrimRight(TrimLeft(s))
  }

  lemma {:induction false} TrimLeftSuffix(s: string) returns (k: nat)
    ensures k <= |s| && TrimLeft(s) == s[k..]
    ensures forall n :: 0 <= n < k ==> IsSpace(s[n])
    ensures k < |s| ==> !IsSpace(s[k])
  {
    if s != [] && IsSpace(s[0]) {
      var n := TrimLeftSuffix(s[1..]);
      k := n + 1;
      assert s[k..] == s[1..][n..];
      assert forall n :: 1 <= n < |s| ==> s[n] == s[1..][n - 1];
    } else {
      k := 0;
    }
  }

  lemma {:induction false} TrimRightPrefix(s: string) returns (k: nat)
    ensures k <= |s| && TrimRight(s) == s[..k]
    ensures forall n :: k <= n < |s| ==> IsSpace(s[n])
    ensures k > 0 ==> !IsSpace(s[k - 1])
  {
    if s != [] && IsSpace(s[|s| - 1]) {
      var front := s[..|s| - 1];
      k := TrimRightPrefix(front);
      assert s[..k] == front[..k];
      assert forall n :: 0 <= n < |front| ==> s[n] == front[n];
    } else {
      k := |s|;
    }
  }

  /** `strip` takes away exactly the white space at the two ends. */
  lemma StripMeans(s: string) returns (i: nat, j: nat)
    ensures i <= j <= |s| && Strip(s) == s[i..j]
    ensures forall n :: 0 <= n < i || j <= n < |s| ==> IsSpace(s[n])
    ensures i < j ==> !IsSpace(s[i]) && !IsSpace(s[j - 1])
  {
    i := TrimLeftSuffix(s);
    var k := TrimRightPrefix(s[i..]);
    j := i + k;
    assert s[i..][..k] == s[i..j];
    forall n | j <= n < |s| ensures IsSpace(s[n]) {
      assert s[i..][n - i] == s[n];
    }
    if i < j {
      assert s[i..][k - 1] == s[j - 1];
    }
  }

  /** Length of the longest prefix without the given characters. */
  function Span(s: string, stops: set<char>): (n: nat)
    ensures n <= |s|
  {
    if s == [] || s[0] in stops then 0 else 1 + Span(s[1..], stops)
  }

  const OPENING: string := "[Quelle:"

  /** The extent of a match of `\[Quelle:\s*([^,\]]+),\s*([^\]]+)\]` at the start of `s`, as the
      two runs up to the comma and up to the bracket.  Both must be non-empty; that white
      space at their start belongs to `\s*` changes neither the extent nor, after `strip`,
      the groups. */
  function Match(s: string): (m: (bool, nat, nat))
    ensures m.0 ==> 8 + m.1 + 1 + m.2 + 1 <= |s|
  {
    if !(OPENING <= s) then (false, 0, 0)
    else
      var t := s[8..];
      var i := Span(t, {',', ']'});
      if i == 0 || i == |t| || t[i] != ',' then (false, 0, 0)
      else
        var u := t[i + 1..];
        var j := Span(u, {']'});
        if j == 0 || j == |u| then (false, 0, 0) else (true, i, j)
  }

  /** What the pattern says: a title part without comma and closing bracket, a date part without
      closing bracket, neither empty. */
  ghost predicate Reads(s: string, a: string, b: string, rest: string) {
    && a != [] && b != []
    && (forall k :: 0 <= k < |a| ==> a[k] !in {',', ']'})
    && (forall k :: 0 <= k < |b| ==> b[k] !in {']'})
    && s == OPENING + (a + [','] + (b + [']'] + rest))
  }

  /** The scan finds a match exactly if the pattern can be read, and in only one way. */
  lemma MatchMeans(s: string)
    ensures Match(s).0 <==> exists a, b, rest :: Reads(s, a, b, rest)
    ensures forall a, b, rest :: Reads(s, a, b, rest) ==>
      && Match(s) == (true, |a|, |b|)
      && RefAt(s, Match(s)) == Ref(Strip(a), Strip(b), OPENING + a + "," + b + "]")
  {
    if Match(s).0 {
      var a, b, rest := MatchReads(s);
    }
    forall a, b, rest | Reads(s, a, b, rest)
      ensures Match(s) == (true, |a|, |b|)
      ensures RefAt(s, Match(s)) == Ref(Strip(a), Strip(b), OPENING + a + "," + b + "]")
    {
      ReadMatches(s, a, b, rest);
      ReadGroups(s, a, b, rest);
    }
  }

  lemma SpanCuts(s: string, stops: set<char>)
    requires Span(s, stops) < |s|
    ensures var n := Span(s, stops);
      && s == s[..n] + [s[n]] + s[n + 1..] && s[n] in stops
      && forall k :: 0 <= k < n ==> s[..n][k] !in stops
  {
    SpanSplits(s, stops);
  }

  lemma MatchReads(s: string) returns (a: string, b: string, rest: string)
    requires Match(s).0
    ensures Reads(s, a, b, rest)
  {
    var t := s[8..];
    var i := Span(t, {',', ']'});
    var u := t[i + 1..];
    var j := Span(u, {']'});
    assert OPENING <= s && 0 < i < |t| && t[i] == ',' && 0 < j < |u|;
    SpanCuts(t, {',', ']'});
    SpanCuts(u, {']'});
    hide Match, Span;
    a, b, rest := t[..i], u[..j], u[j + 1..];
    assert u == b + [']'] + rest;
    assert t == a + [','] + u;
    assert s == OPENING + t;
  }

  lemma ReadMatches(s: string, a: string, b: string, rest: string)
    requires Reads(s, a, b, rest)
    ensures Match(s) == (true, |a|, |b|)
  {
    var u := b + [']'] + rest;
    var t := a + [','] + u;
    assert s[8..] == t && s[..8] == OPENING;
    SpanStops(a, ',', u, {',', ']'});
    assert t[|a| + 1..] == u;
    SpanStops(b, ']', rest, {']'});
  }

  /** The title is what stands before the comma, the date what stands behind it, and the text is the
      whole reference. */
  lemma ReadGroups(s: string, a: string, b: string, rest: string)
    requires Reads(s, a, b, rest)
    ensures 8 + |a| + 1 + |b| + 1 <= |s|
    ensures RefAt(s, (true, |a|, |b|)) == Ref(Strip(a), Strip(b), OPENING + a + "," + b + "]")
  {
    hide Strip;
    var raw := OPENING + a + "," + b + "]";
    assert s == raw + rest;
    assert s[..|raw|] == raw;
    assert s[8..8 + |a|] == a;
    assert s[8 + |a| + 1..8 + |a| + 1 + |b|] == b;
  }

  datatype Ref = Ref(title: string, date: string, raw: string)

  function RefAt(s: string, m: (bool, nat, nat)): Ref
    requires 8 + m.1 + 1 + m.2 + 1 <= |s|
  {
    Ref(Strip(s[8..8 + m.1]), Strip(s[8 + m.1 + 1..8 + m.1 + 1 + m.2]), s[..8 + m.1 + 1 + m.2 + 1])
  }

  /** `finditer`: leftmost matches, none overlapping the one before. */
  function Extract(s: string): seq<Ref>
    decreases |s|
  {
    if s == [] then []
    else
      var m := Match(s);
      if m.0 then [RefAt(s, m)] + Extract(s[8 + m.1 + 1 + m.2 + 1..]) else Extract(s[1..])
  }

  ghost predicate NoMatchBefore(s: string, k: nat)
    requires k <= |s|
  {
    forall j :: 0 <= j < k ==> !Match(s[j..]).0
  }

  lemma NoMatchOnce(s: string, n: nat)
    requires s != [] && !Match(s).0 && n <= |s[1..]| && NoMatchBefore(s[1..], n)
    ensures NoMatchBefore(s, n + 1) && s[n + 1..] == s[1..][n..]
  {
    hide Match;
    forall j | 0 <= j < n + 1 ensures !Match(s[j..]).0 {
      if j == 0 {
        assert s[j..] == s;
      } else {
        assert s[j..] == s[1..][j - 1..];
      }
    }
  }

  /** The first reference is the leftmost match, and the search goes on behind it. */
  lemma {:induction false} ExtractFirst(s: string) returns (k: nat)
    ensures k <= |s| && NoMatchBefore(s, k)
    ensures k == |s| ==> Extract(s) == []
    ensures k < |s| ==> Match(s[k..]).0 && Extract(s) == FirstAndRest(s[k..])
    decreases |s|
  {
    if s == [] || Match(s).0 {
      k := 0;
      assert s[0..] == s;
    } else {
      assert Extract(s) == Extract(s[1..]);
      hide Match, Extract, NoMatchBefore, FirstAndRest;
      var n := ExtractFirst(s[1..]);
      k := n + 1;
      NoMatchOnce(s, n);
    }
  }

  function FirstAndRest(s: string): seq<Ref>
    requires Match(s).0
  {
    var m := Match(s);
    [RefAt(s, m)] + Extract(s[8 + m.1 + 1 + m.2 + 1..])
  }

  /** `str.replace(raw, into)`. */
  function Replace(s: string, raw: string, into: string): string
    requires raw != []
    decreases |s|
  {
    if s == [] then []
    else if raw <= s then into + Replace(s[|raw|..], raw, into)
    else [s[0]] + Replace(s[1..], raw, into)
  }

  /** `re.sub("  +", " ", s)`: of every run of spaces one remains. */
  function Collapse(s: string): string {
    if |s| <= 1 then s
    else if s[0] == ' ' && s[1] == ' ' then Collapse(s[1..])
    else [s[0]] + Collapse(s[1..])
  }

  predicate HasDoubleSpace(s: string) {
    exists i :: 0 <= i < |s| - 1 && s[i] == ' ' && s[i + 1] == ' '
  }

  // ---- Text with balanced, un-nested brackets ----------------------------------------------------

  /** Every bracket is closed before the next one opens. */
  predicate Balanced(s: string, inside: bool) {
    if s == [] then !inside
    else if s[0] == '[' then !inside && Balanced(s[1..], true)
    else if s[0] == ']' then inside && Balanced(s[1..], false)
    else Balanced(s[1..], inside)
  }

  lemma {:induction false} BalancedBody(body: string, rest: string)
    requires forall i :: 0 <= i < |body| ==> body[i] != '[' && body[i] != ']'
    requires Balanced(rest, false)
    ensures Balanced(body + [']'] + rest, true)
  {
    if body == [] {
      assert [] + [']'] + rest == [']'] + rest;
    } else {
      assert (body + [']'] + rest)[1..] == body[1..] + [']'] + rest;
      BalancedBody(body[1..], rest);
    }
  }

  datatype Token = Char(c: char) | Group(body: string)

  predicate Plain(s: string) {
    forall i :: 0 <= i < |s| ==> s[i] != '[' && s[i] != ']'
  }

  predicate Sound(t: Token) {
    match t
    case Char(c) => c != '[' && c != ']'
    case Group(body) => Plain(body)
  }

  predicate Tokenized(ts: seq<Token>) {
    forall k :: 0 <= k < |ts| ==> Sound(ts[k])
  }

  function Image(t: Token): string {
    match t
    case Char(c) => [c]
    case Group(body) => "[" + body + "]"
  }

  function Render(ts: seq<Token>): string {
    if ts == [] then [] else Image(ts[0]) + Render(ts[1..])
  }

  /** The bodies of the bracket groups, in order. */
  function Groups(ts: seq<Token>): seq<string> {
    if ts == [] then []
    else (if ts[0].Group? then [ts[0].body] else []) + Groups(ts[1..])
  }

  lemma RenderCons(t: Token, ts: seq<Token>)
    ensures Render([t] + ts) == Image(t) + Render(ts)
    ensures Groups([t] + ts) == (if t.Group? then [t.body] else []) + Groups(ts)
    ensures Sound(t) && Tokenized(ts) ==> Tokenized([t] + ts)
  {
    assert ([t] + ts)[1..] == ts;
  }

  lemma {:induction false} Tokenize(s: string) returns (ts: seq<Token>)
    requires Balanced(s, false)
    ensures Tokenized(ts) && Render(ts) == s
    decreases |s|
  {
    if s == [] {
      return [];
    }
    var n := 0;
    var head := Char(s[0]);
    if s[0] == '[' {
      n := CloseBracket(s[1..]);
      head := Group(s[1..][..n]);
      n := n + 1;
      assert s[n + 1..] == s[1..][n..];
    }
    assert Sound(head) && s == Image(head) + s[n + 1..];
    var rest := Tokenize(s[n + 1..]);
    ts := [head] + rest;
    RenderCons(head, rest);
  }

  lemma {:induction false} CloseBracket(s: string) returns (n: nat)
    requires Balanced(s, true)
    ensures n < |s| && s[n] == ']' && Plain(s[..n]) && Balanced(s[n + 1..], false)
    decreases |s|
  {
    if s[0] == ']' {
      n := 0;
    } else {
      var k := CloseBracket(s[1..]);
      n := k + 1;
      assert s[..n] == [s[0]] + s[1..][..k];
      assert s[n + 1..] == s[1..][k + 1..];
    }
  }

  // ---- Extraction sees exactly the groups -----------------------------------------------------------

  /** A bracket group is a reference: `Quelle:`, a non-empty title part, a comma, and a
      non-empty date part. */
  predicate IsReference(body: string) {
    && |body| >= 7 && body[..7] == "Quelle:"
    && var i := Span(body[7..], {','});
    && 0 < i && 7 + i + 1 < |body|
  }

  function RefOf(body: string): Ref
    requires IsReference(body)
  {
    var i := Span(body[7..], {','});
    Ref(Strip(body[7..7 + i]), Strip(body[7 + i + 1..]), "[" + body + "]")
  }

  function RefsOf(bodies: seq<string>): seq<Ref> {
    if bodies == [] then []
    else (if IsReference(bodies[0]) then [RefOf(bodies[0])] else []) + RefsOf(bodies[1..])
  }

  lemma {:induction false} SpanStops(a: string, c: char, rest: string, stops: set<char>)
    requires c in stops && forall k :: 0 <= k < |a| ==> a[k] !in stops
    ensures Span(a + [c] + rest, stops) == |a|
  {
    if a == [] {
      assert a + [c] + rest == [c] + rest;
    } else {
      assert (a + [c] + rest)[1..] == a[1..] + [c] + rest;
      SpanStops(a[1..], c, rest, stops);
    }
  }

  lemma {:induction false} SpanSplits(s: string, stops: set<char>)
    ensures forall k :: 0 <= k < Span(s, stops) ==> s[k] !in stops
    ensures Span(s, stops) < |s| ==> s[Span(s, stops)] in stops
  {
    if s != [] && s[0] !in stops {
      SpanSplits(s[1..], stops);
      assert forall k :: 1 <= k < |s| ==> s[k] == s[1..][k - 1];
    }
  }

  lemma OpeningInGroup(body: string, rest: string)
    requires Plain(body)
    ensures OPENING <= "[" + body + "]" + rest <==> |body| >= 7 && body[..7] == "Quelle:"
  {
    var s := "[" + body + "]" + rest;
    if |body| >= 7 {
      assert s[..8] == "[" + body[..7];
      assert OPENING[1..] == "Quelle:";
      if OPENING <= s {
        assert body[..7] == s[..8][1..] == "Quelle:";
      }
    } else {
      assert s[|body| + 1] == ']' && OPENING[|body| + 1] != ']';
    }
  }

  /** The title run ends at the group's first comma, or at its closing bracket. */
  lemma {:induction false} TitleRun(b: string, rest: string)
    requires Plain(b)
    ensures Span(b + "]" + rest, {',', ']'}) == Span(b, {','})
    ensures Span(b, {','}) < |b| ==> b[Span(b, {','})] == ','
    ensures Span(b, {','}) == |b| ==> (b + "]" + rest)[|b|] == ']'
  {
    if b != [] {
      assert (b + "]" + rest)[1..] == b[1..] + "]" + rest;
      TitleRun(b[1..], rest);
    }
  }

  lemma DateRun(b: string, i: nat, rest: string)
    requires Plain(b) && i < |b|
    ensures (b + "]" + rest)[i + 1..] == b[i + 1..] + [']'] + rest
    ensures Span(b[i + 1..] + [']'] + rest, {']'}) == |b| - i - 1
  {
    SpanStops(b[i + 1..], ']', rest, {']'});
  }

  lemma MatchAfterOpening(body: string, rest: string)
    requires Plain(body) && |body| >= 7 && body[..7] == "Quelle:"
    ensures var m := Match("[" + body + "]" + rest); var i := Span(body[7..], {','});
      && (m.0 <==> IsReference(body))
      && (m.0 ==> m.1 == i && m.2 == |body| - 7 - i - 1)
  {
    var s := "[" + body + "]" + rest;
    OpeningInGroup(body, rest);
    var b := body[7..];
    assert s[8..] == b + "]" + rest;
    TitleRun(b, rest);
    var i := Span(b, {','});
    if i < |b| { DateRun(b, i, rest); }
  }

  /** A match at a group's opening bracket ends with the group, and there is one exactly if
      the group is a reference. */
  lemma MatchGroup(body: string, rest: string)
    requires Plain(body)
    ensures var s := "[" + body + "]" + rest; var m := Match(s);
      && (m.0 <==> IsReference(body))
      && (m.0 ==> 8 + m.1 + 1 + m.2 + 1 == |body| + 2 && RefAt(s, m) == RefOf(body))
  {
    var s := "[" + body + "]" + rest;
    OpeningInGroup(body, rest);
    if OPENING <= s {
      MatchAfterOpening(body, rest);
      var i := Span(body[7..], {','});
      assert s[..|body| + 2] == "[" + body + "]";
      if Match(s).0 {
        assert s[8..8 + i] == body[7..7 + i];
        assert s[8 + i + 1..|body| + 1] == body[7 + i + 1..];
      }
    }
  }

  lemma {:induction false} ExtractSkips(a: string, rest: string)
    requires forall k :: 0 <= k < |a| ==> a[k] != '['
    ensures Extract(a + rest) == Extract(rest)
  {
    if a == [] {
      assert a + rest == rest;
    } else {
      assert (a + rest)[0] == a[0] && OPENING[0] == '[' && !Match(a + rest).0;
      assert (a + rest)[1..] == a[1..] + rest;
      ExtractSkips(a[1..], rest);
    }
  }

  lemma ExtractGroup(body: string, rest: string)
    requires Plain(body)
    ensures Extract("[" + body + "]" + rest) == (if IsReference(body) then [RefOf(body)] else []) + Extract(rest)
  {
    var s := "[" + body + "]" + rest;
    MatchGroup(body, rest);
    if IsReference(body) {
      assert s[|body| + 2..] == rest;
    } else {
      var tail := body + "]";
      assert s[1..] == tail + rest;
      ExtractSkips(tail, rest);
    }
  }

  lemma ExtractStep(t: Token, rest: string)
    requires Sound(t)
    ensures Extract(Image(t) + rest)
         == (if t.Group? && IsReference(t.body) then [RefOf(t.body)] else []) + Extract(rest)
  {
    match t
    case Char(c) => ExtractSkips([c], rest);
    case Group(body) => ExtractGroup(body, rest);
  }

  lemma RefsOfCons(body: string, bodies: seq<string>)
    ensures RefsOf([body] + bodies) == (if IsReference(body) then [RefOf(body)] else []) + RefsOf(bodies)
  {
    assert ([body] + bodies)[1..] == bodies;
  }

  lemma {:induction false} ExtractGroups(ts: seq<Token>)
    requires Tokenized(ts)
    ensures Extract(Render(ts)) == RefsOf(Groups(ts))
    decreases |ts|
  {
    if ts != [] {
      ExtractGroups(ts[1..]);
      ExtractStep(ts[0], Render(ts[1..]));
      if ts[0].Group? {
        RefsOfCons(ts[0].body, Groups(ts[1..]));
      } else {
        assert Groups(ts) == Groups(ts[1..]);
      }
    }
  }
}
