/** Validation of a briefing's source references against the user's documents. */
module SourceValidator {
  import opened References
  import opened Cleaning
  import opened CleanedReferences
  import opened Sequences

  datatype Document = Document(id: nat, title: string, chunks: seq<nat>)

  /** The parts of the matching that this model does not open: case folding, the similarity
      ratio of two titles, and the configured floor. */
  datatype Matcher = Matcher(lower: string -> string, ratio: (string, string) -> real, floor: real) {
    function Key(title: string): string {
      Strip(lower(title))
    }

    predicate Eligible(d: Document) {
      Key(d.title) != []
    }

    /** Equal titles score 1, a title inside the other 0.9, any others their ratio. */
    function Score(title: string, d: Document): real {
      if Key(title) == Key(d.title) then 1.0
      else if Contains(Key(d.title), Key(title)) || Contains(Key(title), Key(d.title)) then 0.9
      else ratio(Key(title), Key(d.title))
    }

    /** Unequal texts are less than fully similar. */
    ghost predicate Lawful() {
      forall a, b :: a != b ==> 0.0 <= ratio(a, b) < 1.0
    }

    /** Document `k` is the first of those that score highest. */
    predicate Best(title: string, docs: seq<Document>, k: nat) {
      && k < |docs| && Eligible(docs[k])
      && forall j :: 0 <= j < |docs| && Eligible(docs[j]) ==>
        && Score(title, docs[j]) <= Score(title, docs[k])
        && (j < k ==> Score(title, docs[j]) < Score(title, docs[k]))
    }

    /** A score that counts as a match: equality always does, anything else must be above zero
        and reach the floor. */
    predicate Suffices(score: real) {
      score == 1.0 || (score > 0.0 && score >= floor)
    }

    predicate Accepts(title: string, docs: seq<Document>) {
      exists k :: 0 <= k < |docs| && Eligible(docs[k]) && Suffices(Score(title, docs[k]))
    }
  }

  predicate OccursAt(hay: string, i: nat, needle: string) {
    i + |needle| <= |hay| && hay[i..i + |needle|] == needle
  }

  /** `needle in hay`. */
  predicate Contains(hay: string, needle: string) {
    exists i :: 0 <= i <= |hay| && OccursAt(hay, i, needle)
  }

  datatype Found = NoMatch | Found(document: nat, score: real)

  predicate Within(hay: string, needle: string) {
    exists i, j | 0 <= i <= j <= |hay| :: hay[i..j] == needle
  }

  /** A title with something left after folding and stripping scores 1 if it is the reference's, 0.9
      if one of the two holds the other, and else the ratio. */
  ghost predicate Scores(m: Matcher, title: string, d: Document, score: real) {
    var wanted, offered := Strip(m.lower(title)), Strip(m.lower(d.title));
    && offered != ""
    && (wanted == offered ==> score == 1.0)
    && (wanted != offered && (Within(offered, wanted) || Within(wanted, offered)) ==> score == 0.9)
    && (wanted != offered && !Within(offered, wanted) && !Within(wanted, offered) ==> score == m.ratio(wanted, offered))
  }

  lemma WithinContains(hay: string, needle: string)
    ensures Within(hay, needle) <==> Contains(hay, needle)
  {
    if i, j :| 0 <= i <= j <= |hay| && hay[i..j] == needle {
      assert OccursAt(hay, i, needle);
    }
    if i :| 0 <= i <= |hay| && OccursAt(hay, i, needle) {
      assert hay[i..i + |needle|] == needle;
    }
  }

  lemma ScoresExactly(m: Matcher, title: string, d: Document, score: real)
    ensures Scores(m, title, d, score) <==> m.Eligible(d) && score == m.Score(title, d)
  {
    var wanted, offered := Strip(m.lower(title)), Strip(m.lower(d.title));
    hide Within, Contains, Strip;
    WithinContains(offered, wanted);
    WithinContains(wanted, offered);
  }

  /** The scan over the documents: the first highest-scoring one, if its score suffices. */
  method FindBestMatch(m: Matcher, title: string, docs: seq<Document>) returns (found: Found)
    requires m.Lawful()
    ensures found.Found? ==>
      && found.document < |docs| && m.Best(title, docs, found.document)
      && found.score == m.Score(title, docs[found.document])
      && m.Suffices(found.score)
    ensures found.Found? <==> m.Accepts(title, docs)
    ensures match found
      case Found(k, score) =>
        && k < |docs| && Scores(m, title, docs[k], score) && (score == 1.0 || (score > 0.0 && score >= m.floor))
        && (forall j, s :: 0 <= j < |docs| && Scores(m, title, docs[j], s) ==> s <= score && (j < k ==> s < score))
      case NoMatch =>
        forall j, s :: 0 <= j < |docs| && Scores(m, title, docs[j], s) ==> s != 1.0 && (s <= 0.0 || s < m.floor)
  {
    found := Scan(m, title, docs);
    forall j, s | 0 <= j < |docs|
      ensures Scores(m, title, docs[j], s) <==> m.Eligible(docs[j]) && s == m.Score(title, docs[j])
    {
      ScoresExactly(m, title, docs[j], s);
    }
  }

  method Scan(m: Matcher, title: string, docs: seq<Document>) returns (found: Found)
    requires m.Lawful()
    ensures found.Found? ==>
      && found.document < |docs| && m.Best(title, docs, found.document)
      && found.score == m.Score(title, docs[found.document])
      && m.Suffices(found.score)
    ensures found.Found? <==> m.Accepts(title, docs)
  {
    var key, best, bestScore := m.Key(title), NoMatch, 0.0;
    var i := 0;
    while i < |docs|
      invariant 0 <= i <= |docs|
      invariant 0.0 <= bestScore < 1.0
      invariant forall j :: 0 <= j < i && m.Eligible(docs[j]) ==> m.Score(title, docs[j]) <= bestScore
      invariant best.NoMatch? ==> bestScore == 0.0
      invariant best.Found? ==>
        && best.document < i && m.Eligible(docs[best.document])
        && best.score == bestScore == m.Score(title, docs[best.document]) && bestScore > 0.0
        && forall j :: 0 <= j < best.document && m.Eligible(docs[j]) ==> m.Score(title, docs[j]) < bestScore
    {
      var docKey := m.Key(docs[i].title);
      if docKey != [] {
        if key == docKey {
          return Found(i, 1.0);
        }
        var score := if Contains(docKey, key) || Contains(key, docKey) then 0.9 else m.ratio(key, docKey);
        if score > bestScore {
          best, bestScore := Found(i, score), score;
        }
      }
      i := i + 1;
    }
    if best.Found? && bestScore >= m.floor {
      return best;
    }
    return NoMatch;
  }

  // ---- Cleaning ---------------------------------------------------------------------------------------

  datatype Verdict = Verdict(ref: Ref, found: Found)

  /** The texts of the references that matched nothing, in order. */
  function Unmatched(verdicts: seq<Verdict>): seq<string> {
    if verdicts == [] then []
    else (if verdicts[0].found.NoMatch? then [verdicts[0].ref.raw] else []) + Unmatched(verdicts[1..])
  }

  lemma {:induction false} UnmatchedAppend(verdicts: seq<Verdict>, v: Verdict)
    ensures Unmatched(verdicts + [v]) == Unmatched(verdicts) + (if v.found.NoMatch? then [v.ref.raw] else [])
    decreases |verdicts|
  {
    var last := if v.found.NoMatch? then [v.ref.raw] else [];
    if verdicts == [] {
      assert verdicts + [v] == [v] && [v][1..] == [];
    } else {
      var first := if verdicts[0].found.NoMatch? then [verdicts[0].ref.raw] else [];
      assert (verdicts + [v])[1..] == verdicts[1..] + [v];
      UnmatchedAppend(verdicts[1..], v);
      Regroup(first, Unmatched(verdicts[1..]), last);
    }
  }

  ghost predicate NonEmpty(raws: seq<string>) {
    forall k :: 0 <= k < |raws| ==> raws[k] != []
  }

  lemma {:induction false} UnmatchedNonEmpty(verdicts: seq<Verdict>)
    requires forall k :: 0 <= k < |verdicts| ==> verdicts[k].ref.raw != []
    ensures NonEmpty(Unmatched(verdicts))
    decreases |verdicts|
  {
    if verdicts != [] { UnmatchedNonEmpty(verdicts[1..]); }
  }

  /** The replacement loop, the collapsing and the strip. */
  method CleanText(text: string, verdicts: seq<Verdict>, remove: bool) returns (result: string)
    requires forall k :: 0 <= k < |verdicts| ==> verdicts[k].ref.raw != []
    ensures NonEmpty(Unmatched(verdicts))
    ensures result == Clean(text, Unmatched(verdicts), remove)
  {
    UnmatchedNonEmpty(verdicts);
    result := text;
    var i := 0;
    while i < |verdicts|
      invariant 0 <= i <= |verdicts|
      invariant NonEmpty(Unmatched(verdicts[i..]))
      invariant Rewrite(result, Unmatched(verdicts[i..]), remove) == Rewrite(text, Unmatched(verdicts), remove)
    {
      var v := verdicts[i];
      assert verdicts[i..][1..] == verdicts[i + 1..];
      UnmatchedNonEmpty(verdicts[i + 1..]);
      if v.found.NoMatch? {
        assert Unmatched(verdicts[i..])[1..] == Unmatched(verdicts[i + 1..]);
        result := Replace(result, v.ref.raw, if remove then "" else v.ref.raw + Warning());
      } else {
        assert Unmatched(verdicts[i..]) == Unmatched(verdicts[i + 1..]);
      }
      i := i + 1;
    }
    result := Strip(Collapse(result));
  }

  // ---- Validation ----------------------------------------------------------------------------------------

  /** `dict.fromkeys`: of each value its first occurrence. */
  function Unique(s: seq<nat>): (u: seq<nat>)
    ensures forall x :: x in u <==> x in s
    ensures forall i, j :: 0 <= i < j < |u| ==> u[i] != u[j]
  {
    if s == [] then []
    else
      var front, x := Unique(s[..|s| - 1]), s[|s| - 1];
      assert s == s[..|s| - 1] + [x];
      if x in front then front else front + [x]
  }

  /** Values keep the order in which they first occur. */
  lemma {:induction false} UniqueInOrder(s: seq<nat>, i: nat, j: nat)
    requires i < j < |Unique(s)|
    ensures exists k :: 0 <= k < |s| && s[k] == Unique(s)[i] && Unique(s)[j] !in s[..k + 1]
  {
    var last := |s| - 1;
    var front := Unique(s[..last]);
    if j < |front| {
      UniqueInOrder(s[..last], i, j);
      var k :| 0 <= k < last && s[..last][k] == front[i] && front[j] !in s[..last][..k + 1];
      assert s[..last][..k + 1] == s[..k + 1];
    } else {
      assert front[i] in s[..last];
      var k :| 0 <= k < last && s[..last][k] == front[i];
      assert forall x :: x in s[..k + 1] ==> x in s[..last];
    }
  }

  function ChunksOf(verdicts: seq<Verdict>, docs: seq<Document>): seq<nat>
    requires forall k :: 0 <= k < |verdicts| && verdicts[k].found.Found? ==> verdicts[k].found.document < |docs|
  {
    if verdicts == [] then []
    else
      var front, v := verdicts[..|verdicts| - 1], verdicts[|verdicts| - 1];
      ChunksOf(front, docs) + if v.found.Found? then docs[v.found.document].chunks else []
  }

  ghost predicate InBounds(verdicts: seq<Verdict>, docs: seq<Document>) {
    forall k :: 0 <= k < |verdicts| && verdicts[k].found.Found? ==> verdicts[k].found.document < |docs|
  }

  /** The chunks are those of the matched documents, one reference after the other. */
  lemma {:induction false} ChunksAppend(a: seq<Verdict>, b: seq<Verdict>, docs: seq<Document>)
    requires InBounds(a, docs) && InBounds(b, docs)
    ensures ChunksOf(a + b, docs) == ChunksOf(a, docs) + ChunksOf(b, docs)
    ensures |b| == 1 ==>
      ChunksOf(b, docs) == if b[0].found.Found? then docs[b[0].found.document].chunks else []
    decreases |b|
  {
    if b == [] {
      assert a + b == a;
    } else {
      var front, last := b[..|b| - 1], b[|b| - 1];
      assert (a + b)[..|a + b| - 1] == a + front;
      ChunksAppend(a, front, docs);
      Regroup(ChunksOf(a, docs), ChunksOf(front, docs),
              if last.found.Found? then docs[last.found.document].chunks else []);
    }
  }

  lemma {:induction false} ChunksExactly(verdicts: seq<Verdict>, docs: seq<Document>, c: nat)
    requires InBounds(verdicts, docs)
    ensures c in ChunksOf(verdicts, docs) <==>
      exists v <- verdicts :: v.found.Found? && c in docs[v.found.document].chunks
    decreases |verdicts|
  {
    if verdicts != [] {
      var front, last := verdicts[..|verdicts| - 1], verdicts[|verdicts| - 1];
      ChunksExactly(front, docs, c);
      assert verdicts == front + [last];
    }
  }

  datatype Validation = Validation(text: string, chunks: seq<nat>, verdicts: seq<Verdict>, removed: nat, total: nat)

  /** What the scan decided about one reference. */
  ghost predicate Judged(m: Matcher, docs: seq<Document>, v: Verdict, ref: Ref) {
    && v.ref == ref
    && (v.found.Found? <==> m.Accepts(ref.title, docs))
    && (v.found.Found? ==>
      && v.found.document < |docs| && m.Best(ref.title, docs, v.found.document)
      && v.found.score == m.Score(ref.title, docs[v.found.document]))
  }

  lemma {:induction false} RawNonEmpty(s: string)
    ensures forall k :: 0 <= k < |Extract(s)| ==> Extract(s)[k].raw != []
    decreases |s|
  {
    if s != [] {
      var m := Match(s);
      if m.0 {
        RawNonEmpty(s[8 + m.1 + 1 + m.2 + 1..]);
      } else {
        RawNonEmpty(s[1..]);
      }
    }
  }

  lemma {:induction false} UnmatchedAreRejected(m: Matcher, docs: seq<Document>, verdicts: seq<Verdict>, refs: seq<Ref>)
    requires |verdicts| == |refs| && forall k :: 0 <= k < |refs| ==> Judged(m, docs, verdicts[k], refs[k])
    ensures Unmatched(verdicts) == Rejected(refs, t => m.Accepts(t, docs))
    decreases |refs|
  {
    if refs != [] { UnmatchedAreRejected(m, docs, verdicts[1..], refs[1..]); }
  }

  lemma NoneRejected(valid: string -> bool)
    ensures Rejected([], valid) == []
  {
  }

  /** The whole validation: every extracted reference judged, the text cleaned of the rejected
      ones, the chunks of the accepted ones listed once each. */
  method Validate(m: Matcher, text: string, docs: seq<Document>, remove: bool) returns (out: Validation)
    requires m.Lawful()
    ensures var refs := Extract(text); var rejected := Rejected(refs, t => m.Accepts(t, docs));
      && out.total == |out.verdicts| == |refs|
      && (forall k :: 0 <= k < |refs| ==> Judged(m, docs, out.verdicts[k], refs[k]))
      && out.removed == |rejected| && NonEmpty(rejected)
      && out.text == (if refs == [] then text else Clean(text, rejected, remove))
      && out.chunks == Unique(ChunksOf(out.verdicts, docs))
    ensures InBounds(out.verdicts, docs)
    ensures forall c :: c in out.chunks <==>
      exists v <- out.verdicts :: v.found.Found? && c in docs[v.found.document].chunks
    ensures forall i, j :: 0 <= i < j < |out.chunks| ==> out.chunks[i] != out.chunks[j]
  {
    hide Extract, Clean, Rejected, Matcher.Accepts, Matcher.Best, Matcher.Score, Matcher.Suffices;
    var refs := Extract(text);
    if refs == [] {
      assert Rejected(refs, t => m.Accepts(t, docs)) == [] by { NoneRejected(t => m.Accepts(t, docs)); }
      return Validation(text, [], [], 0, 0);
    }
    RawNonEmpty(text);
    var verdicts: seq<Verdict>, chunks: seq<nat>, removed := [], [], 0;
    var i := 0;
    while i < |refs|
      invariant 0 <= i == |verdicts| <= |refs|
      invariant forall k :: 0 <= k < i ==> Judged(m, docs, verdicts[k], refs[k])
      invariant chunks == ChunksOf(verdicts, docs)
      invariant removed == |Unmatched(verdicts)|
    {
      var found := FindBestMatch(m, refs[i].title, docs);
      var v := Verdict(refs[i], found);
      if found.Found? {
        chunks := chunks + docs[found.document].chunks;
      } else {
        removed := removed + 1;
      }
      UnmatchedAppend(verdicts, v);
      assert (verdicts + [v])[..i] == verdicts;
      verdicts := verdicts + [v];
      i := i + 1;
    }
    UnmatchedAreRejected(m, docs, verdicts, refs);
    var cleaned := CleanText(text, verdicts, remove);
    forall c { ChunksExactly(verdicts, docs, c); }
    return Validation(cleaned, Unique(chunks), verdicts, removed, |refs|);
  }

  // ---- Cleaning once is enough -----------------------------------------------------------------------------

  lemma {:induction false} CollapseSettles(s: string)
    ensures !HasDoubleSpace(Collapse(s))
  {
    if |s| > 1 {
      CollapseSettles(s[1..]);
      CollapsePlain(s[1..]);
      if !(s[0] == ' ' && s[1] == ' ') {
        var rest := Collapse(s[1..]);
        assert Collapse(s) == [s[0]] + rest && rest[0] == s[1];
        assert forall i :: 1 <= i < |Collapse(s)| ==> Collapse(s)[i] == rest[i - 1];
      }
    }
  }

  lemma StripSettles(s: string)
    ensures Strip(Strip(s)) == Strip(s)
    ensures !HasDoubleSpace(s) ==> !HasDoubleSpace(Strip(s))
  {
    var i, j := StripMeans(s);
    var k, l := StripMeans(Strip(s));
    assert forall n :: 0 <= n < j - i ==> Strip(s)[n] == s[i + n];
  }

  lemma {:induction false} AcceptedNoneRejected(refs: seq<Ref>, valid: string -> bool)
    ensures Rejected(Accepted(refs, valid), valid) == []
  {
    if refs != [] {
      AcceptedNoneRejected(refs[1..], valid);
      if valid(refs[0].title) {
        assert Accepted(refs, valid)[1..] == Accepted(refs[1..], valid);
      } else {
        assert Accepted(refs, valid) == Accepted(refs[1..], valid);
      }
    }
  }

  /** When no accepted reference holds a double space, validating the cleaned text again rejects
      nothing and changes nothing. */
  lemma CleaningOnceIsEnough(s: string, valid: string -> bool)
    requires Balanced(s, false) && NoDoubleSpaces(Accepted(Extract(s), valid))
    ensures NonEmpty(Rejected(Extract(s), valid))
    ensures var cleaned := Clean(s, Rejected(Extract(s), valid), true);
      && Rejected(Extract(cleaned), valid) == []
      && Clean(cleaned, [], true) == cleaned
  {
    ExactlyTheValid(s, valid);
    AcceptedNoneRejected(Extract(s), valid);
    var rewritten := Rewrite(s, Rejected(Extract(s), valid), true);
    CollapseSettles(rewritten);
    StripSettles(Collapse(rewritten));
    CollapseIdentity(Strip(Collapse(rewritten)));
  }
}
