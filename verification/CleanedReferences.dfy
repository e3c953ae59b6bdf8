/** Which references a cleaned briefing text still carries. */
module CleanedReferences {
  import opened References
  import opened Cleaning

  const NOTE := "WARNUNG: Quelle nicht verifiziert"

  function Warning(): string {
    " [" + NOTE + "]"
  }

  /** The rejected references, taken out one after the other or each followed by the warning. */
  function Rewrite(s: string, raws: seq<string>, remove: bool): string
    requires forall k :: 0 <= k < |raws| ==> raws[k] != []
    decreases |raws|
  {
    if raws == [] then s
    else Rewrite(Replace(s, raws[0], if remove then "" else raws[0] + Warning()), raws[1..], remove)
  }

  function Clean(s: string, raws: seq<string>, remove: bool): string
    requires forall k :: 0 <= k < |raws| ==> raws[k] != []
  {
    Strip(Collapse(Rewrite(s, raws, remove)))
  }

  function Accepted(refs: seq<Ref>, valid: string -> bool): seq<Ref> {
    if refs == [] then []
    else (if valid(refs[0].title) then [refs[0]] else []) + Accepted(refs[1..], valid)
  }

  function Rejected(refs: seq<Ref>, valid: string -> bool): seq<string> {
    if refs == [] then []
    else (if valid(refs[0].title) then [] else [refs[0].raw]) + Rejected(refs[1..], valid)
  }

  /** What remains of each reference once its own runs of spaces are collapsed. */
  function Recollapsed(refs: seq<Ref>): seq<Ref> {
    if refs == [] then [] else Extract(Collapse(refs[0].raw)) + Recollapsed(refs[1..])
  }

  predicate NoDoubleSpaces(refs: seq<Ref>) {
    forall k :: 0 <= k < |refs| ==> !HasDoubleSpace(refs[k].raw)
  }

  // ---- The references among the groups ---------------------------------------------------------

  /** The references a list of groups yields after collapsing, except those whose text is gone. */
  function Kept(bodies: seq<string>, gone: set<string>): seq<Ref> {
    if bodies == [] then []
    else
      (if IsReference(bodies[0]) && Image(Group(bodies[0])) !in gone
       then Extract(Collapse(Image(Group(bodies[0])))) else [])
      + Kept(bodies[1..], gone)
  }

  lemma {:induction false} KeptConcat(a: seq<string>, b: seq<string>, gone: set<string>)
    ensures Kept(a + b, gone) == Kept(a, gone) + Kept(b, gone)
    decreases |a|
  {
    if a == [] {
      assert a + b == b;
    } else {
      assert (a + b)[1..] == a[1..] + b;
      KeptConcat(a[1..], b, gone);
    }
  }

  lemma CollapsedReference(body: string)
    requires Plain(body)
    ensures IsReference(Collapse(body)) <==> IsReference(body)
    ensures Extract(Collapse(Image(Group(body)))) == if IsReference(body) then [RefOf(Collapse(body))] else []
  {
    CollapseGroup(body, []);
    assert Image(Group(body)) + [] == Image(Group(body));
    assert Image(Group(Collapse(body))) + Collapse([]) == "[" + Collapse(body) + "]" + [];
    ExtractGroup(Collapse(body), []);
    ReferenceSurvivesCollapse(body);
  }

  ghost predicate AllPlain(bodies: seq<string>) {
    forall k :: 0 <= k < |bodies| ==> Plain(bodies[k])
  }

  lemma {:induction false} GroupsPlain(ts: seq<Token>)
    requires Tokenized(ts)
    ensures AllPlain(Groups(ts))
    decreases |ts|
  {
    if ts != [] { GroupsPlain(ts[1..]); }
  }

  lemma {:induction false} CollapsedGroups(bodies: seq<string>)
    requires AllPlain(bodies)
    ensures RefsOf(CollapseEach(bodies)) == Kept(bodies, {})
    decreases |bodies|
  {
    if bodies != [] {
      CollapsedGroups(bodies[1..]);
      CollapsedReference(bodies[0]);
      RefsOfCons(Collapse(bodies[0]), CollapseEach(bodies[1..]));
    }
  }

  /** A text's references after collapsing and stripping are those its groups yield. */
  lemma TidiedReferences(ts: seq<Token>)
    requires Tokenized(ts)
    ensures Extract(Strip(Collapse(Render(ts)))) == Kept(Groups(ts), {})
  {
    CollapseGroups(ts);
    var us := StripGroups(CollapseTokens(ts));
    ExtractGroups(us);
    GroupsCollapse(ts);
    GroupsPlain(ts);
    CollapsedGroups(Groups(ts));
  }

  // ---- One replacement -------------------------------------------------------------------------

  /** What a group is exchanged for. */
  function Successor(b: string, remove: bool): seq<Token> {
    if remove then [] else [Group(b), Char(' '), Group(NOTE)]
  }

  lemma MarkRenders(b: string, w: string)
    ensures Render([Group(b), Char(' '), Group(w)]) == Image(Group(b)) + ([' '] + Image(Group(w)))
    ensures Groups([Group(b), Char(' '), Group(w)]) == [b, w]
  {
    RenderCons(Group(w), []);
    RenderCons(Char(' '), [Group(w)]);
    RenderCons(Group(b), [Char(' '), Group(w)]);
    assert [Group(w)] + [] == [Group(w)];
    assert [Char(' ')] + [Group(w)] == [Char(' '), Group(w)];
    assert [Group(b)] + [Char(' '), Group(w)] == [Group(b), Char(' '), Group(w)];
  }

  lemma WarningSplits(w: string)
    ensures [' '] + Image(Group(w)) == " [" + w + "]"
  {
  }

  lemma NoteIsNoReference()
    ensures Plain(NOTE) && !IsReference(NOTE)
  {
    assert NOTE[..7][0] == 'W' && "Quelle:"[0] == 'Q';
  }

  lemma SuccessorRenders(b: string, remove: bool)
    requires Plain(b)
    ensures Render(Successor(b, remove)) == if remove then "" else Image(Group(b)) + Warning()
    ensures Tokenized(Successor(b, remove))
    ensures Groups(Successor(b, remove)) == if remove then [] else [b, NOTE]
  {
    if !remove {
      MarkRenders(b, NOTE);
      NoteIsNoReference();
      WarningSplits(NOTE);
    }
  }

  /** Taking a group out hides its text; marking it changes no reference, for the warning is
      none. */
  lemma SuccessorKept(b: string, remove: bool, gone: set<string>)
    requires Plain(b)
    ensures Kept(Groups(Successor(b, remove)), gone)
         == Kept([b], if remove then gone + {Image(Group(b))} else gone)
  {
    SuccessorRenders(b, remove);
    if !remove {
      var note := NOTE;
      KeptConcat([b], [note], gone);
      NoteIsNoReference();
      assert Kept([note], gone) == [];
      assert [b] + [note] == [b, note];
    }
  }

  /** The same, in front of further tokens. */
  lemma ExchangeKeptStep(t: Token, rest: seq<Token>, after: seq<Token>, b: string, remove: bool, gone: set<string>)
    requires Plain(b)
    requires Kept(Groups(after), gone) == Kept(Groups(rest), if remove then gone + {Image(Group(b))} else gone)
    ensures Kept(Groups((if t == Group(b) then Successor(b, remove) else [t]) + after), gone)
         == Kept(Groups([t] + rest), if remove then gone + {Image(Group(b))} else gone)
  {
    var wider := if remove then gone + {Image(Group(b))} else gone;
    RenderCons(t, rest);
    if t == Group(b) {
      RenderConcat(Successor(b, remove), after);
      KeptConcat(Groups(Successor(b, remove)), Groups(after), gone);
      SuccessorKept(b, remove, gone);
      KeptConcat([b], Groups(rest), wider);
    } else {
      RenderCons(t, after);
      OtherGroup(t, b);
      if t.Group? {
        KeptConcat([t.body], Groups(after), gone);
        KeptConcat([t.body], Groups(rest), wider);
        assert Kept([t.body], gone) == Kept([t.body], wider);
      } else {
        assert [] + Groups(after) == Groups(after) && [] + Groups(rest) == Groups(rest);
      }
    }
  }

  lemma {:induction false} ExchangeKept(ts: seq<Token>, b: string, remove: bool, gone: set<string>)
    requires Tokenized(ts) && Plain(b)
    ensures Kept(Groups(Exchange(ts, b, Successor(b, remove))), gone)
         == Kept(Groups(ts), if remove then gone + {Image(Group(b))} else gone)
    decreases |ts|
  {
    if ts != [] {
      ExchangeKept(ts[1..], b, remove, gone);
      ExchangeKeptStep(ts[0], ts[1..], Exchange(ts[1..], b, Successor(b, remove)), b, remove, gone);
      assert ts == [ts[0]] + ts[1..];
    }
  }

  lemma OtherGroup(t: Token, b: string)
    requires t != Group(b)
    ensures t.Group? ==> Image(t) != Image(Group(b))
  {
    if t.Group? && |t.body| == |b| {
      assert Image(t)[1..|b| + 1] == t.body && Image(Group(b))[1..|b| + 1] == b;
    }
  }

  // ---- All replacements --------------------------------------------------------------------------

  function SetOf(raws: seq<string>): set<string> {
    set k | 0 <= k < |raws| :: raws[k]
  }

  /** Each of the texts to replace is some bracket group. */
  ghost predicate AreGroups(raws: seq<string>) {
    forall k :: 0 <= k < |raws| ==> exists b :: Plain(b) && raws[k] == Image(Group(b))
  }

  lemma {:induction false} RewriteGroups(ts: seq<Token>, raws: seq<string>, remove: bool, gone: set<string>)
    returns (us: seq<Token>)
    requires Tokenized(ts) && AreGroups(raws)
    ensures forall k :: 0 <= k < |raws| ==> raws[k] != []
    ensures Tokenized(us) && Rewrite(Render(ts), raws, remove) == Render(us)
    ensures Kept(Groups(us), gone) == Kept(Groups(ts), if remove then gone + SetOf(raws) else gone)
    decreases |raws|
  {
    if raws == [] {
      us := ts;
      assert gone + SetOf(raws) == gone;
    } else {
      var b :| Plain(b) && raws[0] == Image(Group(b));
      var into := Successor(b, remove);
      var mid := Exchange(ts, b, into);
      SuccessorRenders(b, remove);
      ReplaceGroup(ts, b, into);
      us := RewriteGroups(mid, raws[1..], remove, gone);
      var later := if remove then gone + SetOf(raws[1..]) else gone;
      ExchangeKept(ts, b, remove, later);
      if remove { SetOfCons(raws, gone); }
    }
  }

  lemma SetOfCons(raws: seq<string>, gone: set<string>)
    requires raws != []
    ensures gone + SetOf(raws[1..]) + {raws[0]} == gone + SetOf(raws)
  {
    forall k | 0 <= k < |raws| ensures raws[k] in SetOf(raws[1..]) + {raws[0]} {
      if k > 0 { assert raws[1..][k - 1] == raws[k]; }
    }
    forall k | 0 <= k < |raws[1..]| ensures raws[1..][k] in SetOf(raws) {
      assert raws[1..][k] == raws[k + 1];
    }
  }

  // ---- From groups to references -----------------------------------------------------------------

  /** The first of a list of groups, as reference, accepted or rejected, collapsed. */
  lemma FirstReference(bodies: seq<string>, valid: string -> bool)
    requires bodies != []
    ensures !IsReference(bodies[0]) ==> RefsOf(bodies) == RefsOf(bodies[1..])
    ensures IsReference(bodies[0]) ==>
      var r, rest := RefOf(bodies[0]), RefsOf(bodies[1..]);
      && r.raw == Image(Group(bodies[0]))
      && Accepted(RefsOf(bodies), valid) == (if valid(r.title) then [r] else []) + Accepted(rest, valid)
      && Rejected(RefsOf(bodies), valid) == (if valid(r.title) then [] else [r.raw]) + Rejected(rest, valid)
  {
    if IsReference(bodies[0]) {
      assert RefsOf(bodies)[1..] == RefsOf(bodies[1..]);
    }
  }

  lemma RecollapsedCons(r: Ref, refs: seq<Ref>)
    ensures Recollapsed([r] + refs) == Extract(Collapse(r.raw)) + Recollapsed(refs)
  {
    assert ([r] + refs)[1..] == refs;
  }

  lemma {:induction false} RejectedAreGroups(bodies: seq<string>, valid: string -> bool)
    requires AllPlain(bodies)
    ensures AreGroups(Rejected(RefsOf(bodies), valid))
    decreases |bodies|
  {
    if bodies != [] {
      RejectedAreGroups(bodies[1..], valid);
      FirstReference(bodies, valid);
    }
  }

  /** A reference's text is rejected exactly if its title is: equal texts have equal titles. */
  lemma {:induction false} RejectedExactly(bodies: seq<string>, body: string, valid: string -> bool)
    requires IsReference(body)
    ensures Image(Group(body)) in Rejected(RefsOf(bodies), valid) <==> body in bodies && !valid(RefOf(body).title)
    decreases |bodies|
  {
    if bodies != [] {
      RejectedExactly(bodies[1..], body, valid);
      FirstReference(bodies, valid);
      assert body in bodies <==> body == bodies[0] || body in bodies[1..];
      if bodies[0] != body { OtherGroup(Group(bodies[0]), body); }
    }
  }

  lemma {:induction false} KeptAreAccepted(bodies: seq<string>, valid: string -> bool, gone: set<string>)
    requires forall k :: 0 <= k < |bodies| && IsReference(bodies[k]) ==>
      (Image(Group(bodies[k])) in gone <==> !valid(RefOf(bodies[k]).title))
    ensures Kept(bodies, gone) == Recollapsed(Accepted(RefsOf(bodies), valid))
    decreases |bodies|
  {
    if bodies != [] {
      KeptAreAccepted(bodies[1..], valid, gone);
      FirstReference(bodies, valid);
      var rest := Accepted(RefsOf(bodies[1..]), valid);
      if IsReference(bodies[0]) {
        RecollapsedCons(RefOf(bodies[0]), rest);
        assert [] + rest == rest;
      }
    }
  }

  // ---- The main results ----------------------------------------------------------------------------

  /** In balanced text, with rejected references removed, the cleaned text's references are the
      accepted ones in their order, each with its own runs of spaces collapsed. */
  lemma RemovingKeepsTheAccepted(s: string, valid: string -> bool)
    requires Balanced(s, false)
    ensures forall k :: 0 <= k < |Rejected(Extract(s), valid)| ==> Rejected(Extract(s), valid)[k] != []
    ensures Extract(Clean(s, Rejected(Extract(s), valid), true)) == Recollapsed(Accepted(Extract(s), valid))
  {
    var ts := Tokenize(s);
    var bodies := Groups(ts);
    ExtractGroups(ts);
    GroupsPlain(ts);
    var raws := Rejected(RefsOf(bodies), valid);
    RejectedAreGroups(bodies, valid);
    var us := RewriteGroups(ts, raws, true, {});
    TidiedReferences(us);
    forall k | 0 <= k < |bodies| && IsReference(bodies[k])
      ensures Image(Group(bodies[k])) in {} + SetOf(raws) <==> !valid(RefOf(bodies[k]).title)
    {
      RejectedExactly(bodies, bodies[k], valid);
    }
    KeptAreAccepted(bodies, valid, {} + SetOf(raws));
  }

  /** With rejected references marked instead, all references stay, in order. */
  lemma MarkingKeepsAll(s: string, valid: string -> bool)
    requires Balanced(s, false)
    ensures forall k :: 0 <= k < |Rejected(Extract(s), valid)| ==> Rejected(Extract(s), valid)[k] != []
    ensures Extract(Clean(s, Rejected(Extract(s), valid), false)) == Recollapsed(Extract(s))
  {
    var ts := Tokenize(s);
    var bodies := Groups(ts);
    ExtractGroups(ts);
    GroupsPlain(ts);
    RejectedAreGroups(bodies, valid);
    var us := RewriteGroups(ts, Rejected(RefsOf(bodies), valid), false, {});
    TidiedReferences(us);
    KeptAreAccepted(bodies, _ => true, {});
    AcceptAll(RefsOf(bodies));
  }

  lemma {:induction false} AcceptAll(refs: seq<Ref>)
    ensures Accepted(refs, _ => true) == refs
  {
    if refs != [] { AcceptAll(refs[1..]); }
  }

  /** No reference is changed exactly if no reference holds two spaces in a row. */
  lemma {:induction false} UnchangedExactly(bodies: seq<string>, valid: string -> bool)
    requires AllPlain(bodies)
    ensures var refs := Accepted(RefsOf(bodies), valid);
      && |Recollapsed(refs)| == |refs|
      && (Recollapsed(refs) == refs <==> NoDoubleSpaces(refs))
    decreases |bodies|
  {
    if bodies != [] {
      UnchangedExactly(bodies[1..], valid);
      FirstReference(bodies, valid);
      var rest := Accepted(RefsOf(bodies[1..]), valid);
      if IsReference(bodies[0]) {
        if valid(RefOf(bodies[0]).title) {
          RefUnchanged(bodies[0]);
          UnchangedStep(RefOf(bodies[0]), rest);
        } else {
          assert [] + rest == rest;
        }
      }
    }
  }

  lemma UnchangedStep(r: Ref, rest: seq<Ref>)
    requires |Extract(Collapse(r.raw))| == 1 && (Extract(Collapse(r.raw))[0] == r <==> !HasDoubleSpace(r.raw))
    requires |Recollapsed(rest)| == |rest|
    requires Recollapsed(rest) == rest <==> NoDoubleSpaces(rest)
    ensures |Recollapsed([r] + rest)| == |[r] + rest|
    ensures Recollapsed([r] + rest) == [r] + rest <==> NoDoubleSpaces([r] + rest)
  {
    RecollapsedCons(r, rest);
    var c := Extract(Collapse(r.raw));
    assert c == [c[0]];
    assert (c + Recollapsed(rest))[1..] == Recollapsed(rest) && ([r] + rest)[1..] == rest;
    assert NoDoubleSpaces([r] + rest) <==> !HasDoubleSpace(r.raw) && NoDoubleSpaces(rest) by {
      assert forall k :: 0 <= k < |rest| ==> ([r] + rest)[k + 1] == rest[k];
      assert ([r] + rest)[0] == r;
    }
  }

  lemma RefUnchanged(body: string)
    requires Plain(body) && IsReference(body)
    ensures |Extract(Collapse(RefOf(body).raw))| == 1
    ensures Extract(Collapse(RefOf(body).raw))[0] == RefOf(body) <==> !HasDoubleSpace(RefOf(body).raw)
  {
    var raw := Image(Group(body));
    CollapsedReference(body);
    CollapseGroup(body, []);
    assert raw + [] == raw;
    CollapseIdentity(raw);
    assert RefOf(Collapse(body)).raw == Image(Group(Collapse(body))) == Collapse(raw);
    if Collapse(raw) == raw {
      assert Image(Group(Collapse(body)))[1..|Collapse(body)| + 1] == Collapse(body);
      assert raw[1..|body| + 1] == body;
    }
  }

  /** Extracting from the cleaned text gives back exactly the valid references, in order, if and
      only if none of them holds a double space. */
  lemma ExactlyTheValid(s: string, valid: string -> bool)
    requires Balanced(s, false)
    ensures forall k :: 0 <= k < |Rejected(Extract(s), valid)| ==> Rejected(Extract(s), valid)[k] != []
    ensures var kept := Accepted(Extract(s), valid);
      (Extract(Clean(s, Rejected(Extract(s), valid), true)) == kept <==> NoDoubleSpaces(kept))
  {
    RemovingKeepsTheAccepted(s, valid);
    var ts := Tokenize(s);
    ExtractGroups(ts);
    GroupsPlain(ts);
    UnchangedExactly(Groups(ts), valid);
  }

  predicate Anything(title: string) {
    true
  }

  /** A text that is one reference. */
  lemma LoneReference(body: string)
    requires Plain(body) && IsReference(body)
    ensures var s := Image(Group(body));
      Balanced(s, false) && Extract(s) == [RefOf(body)] && Accepted(Extract(s), Anything) == [RefOf(body)]
  {
    var s := "[" + body + "]" + [];
    assert s == Image(Group(body));
    BalancedBody(body, []);
    assert s[1..] == body + [']'] + [];
    ExtractGroup(body, []);
    assert [RefOf(body)][1..] == [];
  }

  const SPACED := "Quelle:a  b,c"

  lemma SpacedIsPlain()
    ensures Plain(SPACED)
  {
  }

  lemma SpacedIsReference()
    ensures IsReference(SPACED) && HasDoubleSpace(Image(Group(SPACED)))
  {
    assert SPACED[7..] == "a  b" + [','] + "c";
    SpanStops("a  b", ',', "c", {','});
    assert Image(Group(SPACED))[9] == ' ' && Image(Group(SPACED))[10] == ' ';
  }

  /** A reference whose title holds two spaces: it is accepted, and comes back changed. */
  lemma DoubleSpaceIsLost() returns (s: string)
    ensures s == Image(Group(SPACED)) && Balanced(s, false) && Accepted(Extract(s), Anything) == Extract(s) != []
    ensures NonEmptyRaws(Rejected(Extract(s), Anything))
    ensures Extract(Clean(s, Rejected(Extract(s), Anything), true)) != Extract(s)
  {
    s := Image(Group(SPACED));
    SpacedIsPlain();
    SpacedIsReference();
    LoneReference(SPACED);
    hide Image, Balanced, Extract, Clean, Accepted, Rejected, IsReference, Plain, HasDoubleSpace;
    assert Extract(s)[0].raw == s;
    ExactlyTheValid(s, Anything);
  }

  ghost predicate NonEmptyRaws(raws: seq<string>) {
    forall k :: 0 <= k < |raws| ==> raws[k] != []
  }
}
