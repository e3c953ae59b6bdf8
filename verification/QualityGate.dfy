/** The quality gate on a generated briefing: each sentence is scored by its closest source
    chunk, and the briefing is blocked if too many sentences score low. */
module QualityGate {
  import opened CosineBound
  import opened Options
  import opened Sequences
  import References

  // ---- Sentences ----------------------------------------------------------------------------------

  function SkipSpace(s: string): (r: string)
    ensures |r| <= |s|
    ensures s != [] && References.IsSpace(s[0]) ==> |r| < |s|
  {
    if s != [] && References.IsSpace(s[0]) then SkipSpace(s[1..]) else s
  }

  function SkipNewlines(s: string): (r: string)
    ensures |r| <= |s|
    ensures s != [] && s[0] == '\n' ==> |r| < |s|
  {
    if s != [] && s[0] == '\n' then SkipNewlines(s[1..]) else s
  }

  /** `split` at white space after a full stop, exclamation or question mark, and at line breaks;
      `piece` is what has been read since the last cut, `ended` whether it ends in such a mark. */
  function Pieces(s: string, piece: string, ended: bool): seq<string>
    decreases |s|
  {
    if s == [] then [piece]
    else if ended && References.IsSpace(s[0]) then [piece] + Pieces(SkipSpace(s), [], false)
    else if s[0] == '\n' then [piece] + Pieces(SkipNewlines(s), [], false)
    else Pieces(s[1..], piece + [s[0]], EndsSentence(s[0]))
  }

  function Stripped(pieces: seq<string>): seq<string> {
    if pieces == [] then []
    else (if References.Strip(pieces[0]) == [] then [] else [References.Strip(pieces[0])]) + Stripped(pieces[1..])
  }

  function Sentences(text: string): seq<string> {
    Stripped(Pieces(text, [], false))
  }

  predicate EndsSentence(c: char) {
    c in {'.', '!', '?'}
  }

  /** No place to split inside: no line break, and no white space after a mark. */
  predicate Whole(piece: string) {
    && (forall k :: 0 <= k < |piece| ==> piece[k] != '\n')
    && (forall k :: 0 <= k < |piece| - 1 && piece[k] in {'.', '!', '?'} ==> !References.IsSpace(piece[k + 1]))
  }

  predicate Ended(piece: string) {
    piece != [] && piece[|piece| - 1] in {'.', '!', '?'}
  }

  /** A place to split: white space after a mark, or line breaks. */
  predicate IsGap(piece: string, gap: string) {
    && gap != []
    && ((Ended(piece) && forall k :: 0 <= k < |gap| ==> References.IsSpace(gap[k]))
        || forall k :: 0 <= k < |gap| ==> gap[k] == '\n')
  }

  function Weave(pieces: seq<string>, gaps: seq<string>): string {
    if pieces == [] then []
    else if gaps == [] then pieces[0]
    else pieces[0] + gaps[0] + Weave(pieces[1..], gaps[1..])
  }

  lemma {:induction false} SkippedSpace(s: string) returns (n: nat)
    ensures n <= |s| && SkipSpace(s) == s[n..] && forall k :: 0 <= k < n ==> References.IsSpace(s[k])
  {
    n := 0;
    if s != [] && References.IsSpace(s[0]) {
      n := SkippedSpace(s[1..]);
      n := n + 1;
      assert s[n..] == s[1..][n - 1..];
      assert forall k :: 1 <= k < |s| ==> s[k] == s[1..][k - 1];
    }
  }

  lemma {:induction false} SkippedNewlines(s: string) returns (n: nat)
    ensures n <= |s| && SkipNewlines(s) == s[n..] && forall k :: 0 <= k < n ==> s[k] == '\n'
  {
    n := 0;
    if s != [] && s[0] == '\n' {
      n := SkippedNewlines(s[1..]);
      n := n + 1;
      assert s[n..] == s[1..][n - 1..];
      assert forall k :: 1 <= k < |s| ==> s[k] == s[1..][k - 1];
    }
  }

  /** The split is complete and justified: no piece holds a place to split, and the text is the
      pieces with a place to split between any two. */
  lemma {:induction false} SplitExactly(s: string, piece: string, ended: bool) returns (gaps: seq<string>)
    requires Whole(piece) && (ended <==> Ended(piece))
    ensures var pieces := Pieces(s, piece, ended);
      && |pieces| == |gaps| + 1
      && Weave(pieces, gaps) == piece + s
      && (forall k :: 0 <= k < |pieces| ==> Whole(pieces[k]))
      && (forall k :: 0 <= k < |gaps| ==> IsGap(pieces[k], gaps[k]))
    decreases |s|
  {
    if s == [] {
      gaps := [];
    } else if (ended && References.IsSpace(s[0])) || s[0] == '\n' {
      var cut, rest := CutHere(s, piece, ended);
      var later := SplitExactly(rest, [], false);
      gaps := [cut] + later;
      SplitStep(piece, cut, Pieces(rest, [], false), later);
      Regroup(piece, cut, rest);
    } else {
      GrowsWhole(piece, s[0]);
      gaps := SplitExactly(s[1..], piece + [s[0]], EndsSentence(s[0]));
      assert piece + [s[0]] + s[1..] == piece + s;
    }
  }

  lemma CutHere(s: string, piece: string, ended: bool) returns (cut: string, rest: string)
    requires s != [] && ((ended && References.IsSpace(s[0])) || s[0] == '\n') && (ended <==> Ended(piece))
    ensures s == cut + rest && |rest| < |s| && IsGap(piece, cut)
    ensures Pieces(s, piece, ended) == [piece] + Pieces(rest, [], false)
  {
    if ended && References.IsSpace(s[0]) {
      var n := SkippedSpace(s);
      cut, rest := s[..n], SkipSpace(s);
    } else {
      var n := SkippedNewlines(s);
      cut, rest := s[..n], SkipNewlines(s);
    }
  }

  lemma GrowsWhole(piece: string, c: char)
    requires Whole(piece) && c != '\n' && !(Ended(piece) && References.IsSpace(c))
    ensures Whole(piece + [c]) && (Ended(piece + [c]) <==> EndsSentence(c))
  {
    var grown := piece + [c];
    forall k | 0 <= k < |piece| ensures grown[k] == piece[k] {
    }
  }

  lemma SplitStep(piece: string, cut: string, pieces: seq<string>, gaps: seq<string>)
    requires |pieces| == |gaps| + 1 && Whole(piece) && IsGap(piece, cut)
    requires forall k :: 0 <= k < |pieces| ==> Whole(pieces[k])
    requires forall k :: 0 <= k < |gaps| ==> IsGap(pieces[k], gaps[k])
    ensures Weave([piece] + pieces, [cut] + gaps) == piece + cut + Weave(pieces, gaps)
    ensures forall k :: 0 <= k < |[piece] + pieces| ==> Whole(([piece] + pieces)[k])
    ensures forall k :: 0 <= k < |[cut] + gaps| ==> IsGap(([piece] + pieces)[k], ([cut] + gaps)[k])
  {
    assert ([piece] + pieces)[1..] == pieces && ([cut] + gaps)[1..] == gaps;
  }

  lemma {:induction false} StrippedFrom(pieces: seq<string>, k: nat)
    requires k < |Stripped(pieces)| && forall n :: 0 <= n < |pieces| ==> Whole(pieces[n])
    ensures var s := Stripped(pieces)[k];
      s != [] && Whole(s) && !References.IsSpace(s[0]) && !References.IsSpace(s[|s| - 1])
    decreases |pieces|
  {
    var t := References.Strip(pieces[0]);
    hide References.Strip, References.IsSpace;
    if t != [] && k == 0 {
      var i, j := References.StripMeans(pieces[0]);
      assert forall n :: 0 <= n < j - i ==> t[n] == pieces[0][i + n];
    } else {
      StrippedFrom(pieces[1..], if t == [] then k else k - 1);
    }
  }

  /** Sentences are non-empty, begin and end without white space and hold no place to split. */
  lemma SentencesAreWhole(text: string, k: nat)
    requires k < |Sentences(text)|
    ensures var s := Sentences(text)[k];
      s != [] && Whole(s) && !References.IsSpace(s[0]) && !References.IsSpace(s[|s| - 1])
  {
    var gaps := SplitExactly(text, [], false);
    StrippedFrom(Pieces(text, [], false), k);
  }

  // Splitting loses white space only.

  function Letters(s: string): string {
    if s == [] then [] else (if References.IsSpace(s[0]) then [] else [s[0]]) + Letters(s[1..])
  }

  function Joined(pieces: seq<string>): string {
    if pieces == [] then [] else pieces[0] + Joined(pieces[1..])
  }

  lemma {:induction false} LettersConcat(a: string, b: string)
    ensures Letters(a + b) == Letters(a) + Letters(b)
  {
    if a == [] {
      assert a + b == b;
    } else {
      assert (a + b)[1..] == a[1..] + b;
      LettersConcat(a[1..], b);
    }
  }

  lemma {:induction false} SkipsKeepLetters(s: string)
    ensures Letters(SkipSpace(s)) == Letters(s) && Letters(SkipNewlines(s)) == Letters(s)
  {
    if s != [] { SkipsKeepLetters(s[1..]); }
  }

  lemma {:induction false} PiecesKeepLetters(s: string, piece: string, ended: bool)
    ensures Letters(Joined(Pieces(s, piece, ended))) == Letters(piece) + Letters(s)
    decreases |s|
  {
    if s == [] {
      assert Joined([piece]) == piece + Joined([]) == piece;
    } else if ended && References.IsSpace(s[0]) {
      SkipsKeepLetters(s);
      PiecesKeepLetters(SkipSpace(s), [], false);
      LettersConcat(piece, Joined(Pieces(SkipSpace(s), [], false)));
      JoinedCons(piece, Pieces(SkipSpace(s), [], false));
    } else if s[0] == '\n' {
      SkipsKeepLetters(s);
      PiecesKeepLetters(SkipNewlines(s), [], false);
      LettersConcat(piece, Joined(Pieces(SkipNewlines(s), [], false)));
      JoinedCons(piece, Pieces(SkipNewlines(s), [], false));
    } else {
      PiecesKeepLetters(s[1..], piece + [s[0]], EndsSentence(s[0]));
      LettersConcat(piece, [s[0]]);
      LettersConcat([s[0]], s[1..]);
      assert [s[0]] + s[1..] == s;
    }
  }

  lemma JoinedCons(piece: string, pieces: seq<string>)
    ensures Joined([piece] + pieces) == piece + Joined(pieces)
  {
    assert ([piece] + pieces)[1..] == pieces;
  }

  lemma {:induction false} TrimKeepsLetters(s: string)
    ensures Letters(References.TrimLeft(s)) == Letters(s)
    decreases |s|
  {
    if s != [] { TrimKeepsLetters(s[1..]); }
  }

  lemma {:induction false} TrimRightKeepsLetters(s: string)
    ensures Letters(References.TrimRight(s)) == Letters(s)
    decreases |s|
  {
    if s != [] {
      var front, last := s[..|s| - 1], s[|s| - 1];
      TrimRightKeepsLetters(front);
      LettersConcat(front, [last]);
      assert front + [last] == s;
    }
  }

  lemma {:induction false} StrippedKeepLetters(pieces: seq<string>)
    ensures Letters(Joined(Stripped(pieces))) == Letters(Joined(pieces))
    decreases |pieces|
  {
    if pieces != [] {
      var t := References.Strip(pieces[0]);
      StrippedKeepLetters(pieces[1..]);
      TrimKeepsLetters(pieces[0]);
      TrimRightKeepsLetters(References.TrimLeft(pieces[0]));
      LettersConcat(pieces[0], Joined(pieces[1..]));
      if t != [] {
        JoinedCons(t, Stripped(pieces[1..]));
        LettersConcat(t, Joined(Stripped(pieces[1..])));
      } else {
        assert Stripped(pieces) == Stripped(pieces[1..]);
      }
    }
  }

  /** The sentences hold the text's characters in order, white space aside. */
  lemma SentencesKeepLetters(text: string)
    ensures Letters(Joined(Sentences(text))) == Letters(text)
  {
    PiecesKeepLetters(text, [], false);
    StrippedKeepLetters(Pieces(text, [], false));
  }

  // ---- The gate -----------------------------------------------------------------------------------

  datatype Level = High | Medium | Low

  function Rank(l: Level): nat {
    match l case High => 2 case Medium => 1 case Low => 0
  }

  datatype Scored = Scored(sentence: string, confidence: real, level: Level, nearest: Option<nat>)

  datatype Result = Result(isValid: bool, content: string, scores: seq<Scored>, overall: real, lowRatio: real,
                           hasReferences: bool, warned: bool)

  /** The largest similarity, not below 0. */
  function Peak(sims: seq<real>): (p: real)
    ensures p >= 0.0 && (p == 0.0 || p in sims)
    ensures forall k :: 0 <= k < |sims| ==> sims[k] <= p
  {
    if sims == [] then 0.0
    else
      var front, last := Peak(sims[..|sims| - 1]), sims[|sims| - 1];
      assert sims == sims[..|sims| - 1] + [last];
      if last > front then last else front
  }

  function Sum(xs: seq<real>): real {
    if xs == [] then 0.0 else Sum(xs[..|xs| - 1]) + xs[|xs| - 1]
  }

  lemma PeakAppend(sims: seq<real>, i: nat)
    requires i < |sims|
    ensures Peak(sims[..i + 1]) == if sims[i] > Peak(sims[..i]) then sims[i] else Peak(sims[..i])
  {
    assert sims[..i + 1][..i] == sims[..i];
  }

  /** A sentence's confidence and level. */
  datatype Mark = Mark(confidence: real, level: Level)

  function Confidences(marks: seq<Mark>): seq<real> {
    seq(|marks|, k requires 0 <= k < |marks| => marks[k].confidence)
  }

  function LowCount(marks: seq<Mark>): (n: nat)
    ensures n <= |marks|
  {
    if marks == [] then 0
    else LowCount(marks[..|marks| - 1]) + if marks[|marks| - 1].level.Low? then 1 else 0
  }

  function Overall(marks: seq<Mark>): real {
    if marks == [] then 0.0 else Sum(Confidences(marks)) / |marks| as real
  }

  function LowRatio(marks: seq<Mark>): real {
    if marks == [] then 1.0 else LowCount(marks) as real / |marks| as real
  }

  datatype Gate = Gate(high: real, medium: real, maxLow: real, minLength: nat, fallback: string,
                       embed: string -> seq<real>, root: real -> real) {
    function Classify(x: real): Level {
      if x > high then High else if x >= medium then Medium else Low
    }

    function Similarity(sentence: string, chunk: string): real {
      Cosine(root, embed(sentence), embed(chunk))
    }

    function Similarities(sentence: string, chunks: seq<string>): seq<real> {
      seq(|chunks|, k requires 0 <= k < |chunks| => Similarity(sentence, chunks[k]))
    }

    /** A sentence without embedding scores 0 and low; any other by its closest chunk. */
    function MarkOf(sentence: string, chunks: seq<string>): Mark {
      if embed(sentence) == [] then Mark(0.0, Low)
      else
        var best := Peak(Similarities(sentence, chunks));
        Mark(best, Classify(best))
    }

    /** The sentences long enough to be scored: headings and the like are left out. */
    function Long(sentences: seq<string>): seq<string> {
      if sentences == [] then []
      else
        var front, last := Long(sentences[..|sentences| - 1]), sentences[|sentences| - 1];
        if |last| < minLength then front else front + [last]
    }

    function Marks(sentences: seq<string>, chunks: seq<string>): seq<Mark> {
      seq(|sentences|, k requires 0 <= k < |sentences| => MarkOf(sentences[k], chunks))
    }

    function Assessed(briefing: string, chunks: seq<string>): seq<Mark> {
      Marks(Long(Sentences(briefing)), chunks)
    }

    predicate Passes(briefing: string, chunks: seq<string>) {
      References.Extract(briefing) != [] && chunks != [] && LowRatio(Assessed(briefing, chunks)) <= maxLow
    }
  }

  lemma {:induction false} SumConcat(xs: seq<real>, ys: seq<real>)
    ensures Sum(xs + ys) == Sum(xs) + Sum(ys)
    decreases |ys|
  {
    if ys == [] {
      assert xs + ys == xs;
    } else {
      assert (xs + ys)[..|xs + ys| - 1] == xs + ys[..|ys| - 1];
      SumConcat(xs, ys[..|ys| - 1]);
    }
  }

  lemma {:induction false} LowCountMeans(marks: seq<Mark>)
    ensures LowCount(marks) == |set k | 0 <= k < |marks| && marks[k].level.Low?|
  {
    if marks != [] {
      var last := |marks| - 1;
      LowCountMeans(marks[..last]);
      var before := set k | 0 <= k < last && marks[..last][k].level.Low?;
      assert (set k | 0 <= k < |marks| && marks[k].level.Low?)
          == before + if marks[last].level.Low? then {last} else {};
    }
  }

  /** Exactly the sentences of at least the minimal length are scored, in their order ... */
  lemma {:induction false} LongInOrder(g: Gate, sentences: seq<string>)
    ensures Picks(g.Long(sentences), sentences, (s: string) => |s| >= g.minLength)
  {
    hide Picks;
    var isLong := (s: string) => |s| >= g.minLength;
    if sentences == [] {
      PicksNothing(isLong);
    } else {
      var front, last := sentences[..|sentences| - 1], sentences[|sentences| - 1];
      LongInOrder(g, front);
      PicksNext(g.Long(front), front, isLong, last);
      assert sentences == front + [last];
    }
  }

  /** ... and each as often as it occurs. */
  lemma {:induction false} LongCounted(g: Gate, sentences: seq<string>, s: string)
    ensures multiset(g.Long(sentences))[s] == if |s| >= g.minLength then multiset(sentences)[s] else 0
  {
    if sentences != [] {
      LongCounted(g, sentences[..|sentences| - 1], s);
      assert sentences == sentences[..|sentences| - 1] + [sentences[|sentences| - 1]];
    }
  }

  /** The scan for the closest chunk: the first with the highest positive similarity, or the first
      chunk if none is positive. */
  method Nearest(g: Gate, sentence: string, chunks: seq<string>) returns (best: real, index: nat)
    requires chunks != []
    ensures best == Peak(g.Similarities(sentence, chunks)) && index < |chunks|
    ensures best > 0.0 ==> var sims := g.Similarities(sentence, chunks);
      sims[index] == best && forall k :: 0 <= k < index ==> sims[k] < best
    ensures best == 0.0 ==> index == 0
  {
    ghost var sims := g.Similarities(sentence, chunks);
    best, index := 0.0, 0;
    var i := 0;
    assert Peak(sims[..i]) == 0.0;
    hide Cosine, Peak;
    while i < |chunks|
      invariant 0 <= i <= |chunks| && index < |chunks|
      invariant best == Peak(sims[..i])
      invariant best > 0.0 ==> index < i && sims[index] == best && forall k :: 0 <= k < index ==> sims[k] < best
      invariant best == 0.0 ==> index == 0
    {
      var sim := g.Similarity(sentence, chunks[i]);
      assert sim == sims[i];
      PeakAppend(sims, i);
      assert forall k :: 0 <= k < i ==> sims[..i][k] == sims[k];
      if sim > best {
        best, index := sim, i;
      }
      i := i + 1;
    }
    assert sims[..i] == sims;
  }

  /** One sentence's score: its mark, and as nearest chunk the first that scored highest. */
  ghost predicate ScoredRightly(g: Gate, x: Scored, sentence: string, chunks: seq<string>, ids: seq<nat>)
    requires ids == [] || |ids| == |chunks|
  {
    && x.sentence == sentence
    && Mark(x.confidence, x.level) == g.MarkOf(sentence, chunks)
    && Graded(g, x, sentence, chunks)
    && (g.embed(sentence) == [] || ids == [] ==> x.nearest == None)
    && (g.embed(sentence) != [] && ids != [] ==> NamesPeak(x, g.Similarities(sentence, chunks), ids))
  }

  /** In terms of cosine and thresholds: without embedding 0 and low; otherwise the confidence is the
      largest cosine to a chunk, or 0 if none is positive, and the level is high above the upper
      threshold, medium from the lower one on, and low below. */
  ghost predicate Graded(g: Gate, x: Scored, sentence: string, chunks: seq<string>) {
    if g.embed(sentence) == [] then x.confidence == 0.0 && x.level == Low
    else
      && x.confidence >= 0.0
      && (forall c <- chunks :: Cosine(g.root, g.embed(sentence), g.embed(c)) <= x.confidence)
      && (x.confidence > 0.0 ==> exists c <- chunks :: Cosine(g.root, g.embed(sentence), g.embed(c)) == x.confidence)
      && (x.level == High <==> x.confidence > g.high)
      && (x.level == Medium <==> g.medium <= x.confidence <= g.high)
  }

  lemma PeakGrades(g: Gate, x: Scored, sentence: string, chunks: seq<string>)
    requires g.embed(sentence) != []
    requires x.confidence == Peak(g.Similarities(sentence, chunks)) && x.level == g.Classify(x.confidence)
    ensures Graded(g, x, sentence, chunks)
  {
    var sims := g.Similarities(sentence, chunks);
    forall c <- chunks ensures Cosine(g.root, g.embed(sentence), g.embed(c)) <= x.confidence {
      var k :| 0 <= k < |chunks| && chunks[k] == c;
      assert sims[k] <= x.confidence;
    }
    if x.confidence > 0.0 {
      var k :| 0 <= k < |sims| && sims[k] == x.confidence;
      assert chunks[k] in chunks;
    }
  }

  ghost predicate NamesPeak(x: Scored, sims: seq<real>, ids: seq<nat>)
    requires |sims| == |ids| && ids != []
  {
    exists k :: 0 <= k < |ids| && x.nearest == Some(ids[k]) && FirstPeak(x.confidence, sims, k)
  }

  ghost predicate FirstPeak(best: real, sims: seq<real>, k: nat)
    requires k < |sims|
  {
    if best > 0.0 then sims[k] == best && forall j :: 0 <= j < k ==> sims[j] < best else k == 0
  }

  method ScoreSentence(g: Gate, sentence: string, chunks: seq<string>, ids: seq<nat>) returns (x: Scored)
    requires chunks != [] && (ids == [] || |ids| == |chunks|)
    ensures ScoredRightly(g, x, sentence, chunks, ids)
  {
    if g.embed(sentence) == [] {
      return Scored(sentence, 0.0, Low, None);
    }
    var best, index := Nearest(g, sentence, chunks);
    x := Scored(sentence, best, g.Classify(best), if ids == [] then None else Some(ids[index]));
    assert ids != [] ==> FirstPeak(best, g.Similarities(sentence, chunks), index);
    PeakGrades(g, x, sentence, chunks);
  }

  ghost predicate AllScoredRightly(g: Gate, xs: seq<Scored>, sentences: seq<string>, chunks: seq<string>, ids: seq<nat>)
    requires ids == [] || |ids| == |chunks|
  {
    && |xs| == |sentences|
    && forall k :: 0 <= k < |xs| ==> ScoredRightly(g, xs[k], sentences[k], chunks, ids)
  }

  function MarksOf(xs: seq<Scored>): seq<Mark> {
    seq(|xs|, k requires 0 <= k < |xs| => Mark(xs[k].confidence, xs[k].level))
  }

  function Texts(xs: seq<Scored>): seq<string> {
    seq(|xs|, k requires 0 <= k < |xs| => xs[k].sentence)
  }

  /** The loop over the sentences. */
  method ScoreAll(g: Gate, sentences: seq<string>, chunks: seq<string>, ids: seq<nat>) returns (xs: seq<Scored>)
    requires chunks != [] && (ids == [] || |ids| == |chunks|)
    ensures AllScoredRightly(g, xs, g.Long(sentences), chunks, ids)
    ensures Picks(Texts(xs), sentences, (s: string) => |s| >= g.minLength)
    ensures forall s: string ::
      multiset(Texts(xs))[s] == if |s| >= g.minLength then multiset(sentences)[s] else 0
  {
    hide Picks;
    xs := [];
    var i := 0;
    while i < |sentences|
      invariant 0 <= i <= |sentences|
      invariant AllScoredRightly(g, xs, g.Long(sentences[..i]), chunks, ids)
    {
      assert sentences[..i + 1][..i] == sentences[..i];
      if |sentences[i]| >= g.minLength {
        var x := ScoreSentence(g, sentences[i], chunks, ids);
        xs := xs + [x];
      }
      i := i + 1;
    }
    assert sentences[..i] == sentences;
    assert Texts(xs) == g.Long(sentences);
    LongInOrder(g, sentences);
    forall s: string { LongCounted(g, sentences, s); }
  }

  /** The mean confidence and the share of low sentences, 0 and 1 if there are none. */
  lemma Aggregated(xs: seq<Scored>)
    ensures xs == [] ==> Overall(MarksOf(xs)) == 0.0 && LowRatio(MarksOf(xs)) == 1.0
    ensures xs != [] ==> var n := |xs|;
      && Overall(MarksOf(xs)) == Sum(seq(n, k requires 0 <= k < n => xs[k].confidence)) / n as real
      && LowRatio(MarksOf(xs)) == |set k | 0 <= k < n && xs[k].level == Low| as real / n as real
  {
    LowCountMeans(MarksOf(xs));
    assert Confidences(MarksOf(xs)) == seq(|xs|, k requires 0 <= k < |xs| => xs[k].confidence);
    assert (set k | 0 <= k < |xs| && MarksOf(xs)[k].level.Low?) == (set k | 0 <= k < |xs| && xs[k].level == Low);
  }

  /** The validation: blocked without references or chunks, otherwise scored and gated by the
      share of low sentences. */
  method Validate(g: Gate, briefing: string, chunks: seq<string>, ids: seq<nat>) returns (out: Result)
    requires ids == [] || |ids| == |chunks|
    ensures out.isValid <==> g.Passes(briefing, chunks)
    ensures out.isValid <==> References.Extract(briefing) != [] && chunks != [] && out.lowRatio <= g.maxLow
    ensures out.content == (if out.isValid then briefing else g.fallback) && out.warned == !out.isValid
    ensures References.Extract(briefing) == [] || chunks == [] ==>
      out.scores == [] && out.overall == 0.0 && out.lowRatio == 1.0 && !out.hasReferences
    ensures References.Extract(briefing) != [] && chunks != [] ==>
      && AllScoredRightly(g, out.scores, g.Long(Sentences(briefing)), chunks, ids)
      && out.overall == Overall(g.Assessed(briefing, chunks))
      && out.lowRatio == LowRatio(g.Assessed(briefing, chunks))
      && out.hasReferences
    ensures References.Extract(briefing) != [] && chunks != [] ==>
      && Picks(Texts(out.scores), Sentences(briefing), (s: string) => |s| >= g.minLength)
      && forall s: string ::
           multiset(Texts(out.scores))[s] == if |s| >= g.minLength then multiset(Sentences(briefing))[s] else 0
    ensures out.scores == [] ==> out.overall == 0.0 && out.lowRatio == 1.0
    ensures out.scores != [] ==> var n := |out.scores|;
      && out.overall == Sum(seq(n, k requires 0 <= k < n => out.scores[k].confidence)) / n as real
      && out.lowRatio == |set k | 0 <= k < n && out.scores[k].level == Low| as real / n as real
  {
    hide Picks, References.Extract, Sentences;
    if References.Extract(briefing) == [] || chunks == [] {
      return Result(false, g.fallback, [], 0.0, 1.0, false, true);
    }
    var xs := ScoreAll(g, Sentences(briefing), chunks, ids);
    assert MarksOf(xs) == g.Assessed(briefing, chunks);
    var overall, lowRatio := Overall(MarksOf(xs)), LowRatio(MarksOf(xs));
    var isValid := lowRatio <= g.maxLow;
    Aggregated(xs);
    hide Overall, LowRatio, MarksOf, Sum;
    return Result(isValid, if isValid then briefing else g.fallback, xs, overall, lowRatio, true, !isValid);
  }

  // ---- Bounds ------------------------------------------------------------------------------------------

  /** A confidence is 0 or a similarity, so it lies between 0 and 1. */
  lemma ConfidenceInUnit(g: Gate, sentence: string, chunks: seq<string>)
    requires IsRoot(g.root)
    ensures 0.0 <= g.MarkOf(sentence, chunks).confidence <= 1.0
  {
    var sims := g.Similarities(sentence, chunks);
    var best := Peak(sims);
    if best > 0.0 {
      var k :| 0 <= k < |sims| && sims[k] == best;
      CosineInUnit(g.root, g.embed(sentence), g.embed(chunks[k]));
      assert sims[k] == g.Similarity(sentence, chunks[k]);
    }
  }

  lemma {:induction false} SumBounds(xs: seq<real>, top: real)
    requires forall k :: 0 <= k < |xs| ==> 0.0 <= xs[k] <= top
    ensures 0.0 <= Sum(xs) <= top * |xs| as real
  {
    if xs == [] {
    } else {
      SumBounds(xs[..|xs| - 1], top);
    }
  }

  lemma QuotientBounds(x: real, n: real, lo: real, hi: real)
    requires n > 0.0 && lo * n <= x <= hi * n
    ensures lo <= x / n <= hi
  {
    var q := x / n;
    assert q * n == x;
    assert q < lo ==> (lo - q) * n > 0.0;
    assert q > hi ==> (q - hi) * n > 0.0;
  }

  ghost predicate InUnit(marks: seq<Mark>) {
    forall k :: 0 <= k < |marks| ==> 0.0 <= marks[k].confidence <= 1.0
  }

  lemma MeanInUnit(marks: seq<Mark>)
    requires InUnit(marks)
    ensures 0.0 <= Overall(marks) <= 1.0
  {
    if marks != [] {
      SumBounds(Confidences(marks), 1.0);
      QuotientBounds(Sum(Confidences(marks)), |marks| as real, 0.0, 1.0);
    }
  }

  lemma RatioInUnit(marks: seq<Mark>)
    ensures 0.0 <= LowRatio(marks) <= 1.0
  {
    if marks != [] {
      QuotientBounds(LowCount(marks) as real, |marks| as real, 0.0, 1.0);
    }
  }

  /** Every sentence's confidence, their mean, and the share of low sentences lie between 0
      and 1. */
  lemma AssessmentInUnit(g: Gate, briefing: string, chunks: seq<string>)
    requires IsRoot(g.root)
    ensures var marks := g.Assessed(briefing, chunks);
      InUnit(marks) && 0.0 <= Overall(marks) <= 1.0 && 0.0 <= LowRatio(marks) <= 1.0
  {
    hide Overall, LowRatio;
    var sentences, marks := g.Long(Sentences(briefing)), g.Assessed(briefing, chunks);
    forall k | 0 <= k < |marks| ensures 0.0 <= marks[k].confidence <= 1.0 {
      ConfidenceInUnit(g, sentences[k], chunks);
    }
    MeanInUnit(marks);
    RatioInUnit(marks);
  }

  lemma {:induction false} SumAboveLow(marks: seq<Mark>, floor: real)
    requires floor >= 0.0
    requires forall k :: 0 <= k < |marks| ==>
      marks[k].confidence >= 0.0 && (!marks[k].level.Low? ==> marks[k].confidence >= floor)
    ensures Sum(Confidences(marks)) >= floor * (|marks| - LowCount(marks)) as real
  {
    if marks == [] {
    } else {
      var front := marks[..|marks| - 1];
      SumAboveLow(front, floor);
      assert Confidences(marks)[..|marks| - 1] == Confidences(front);
      var n := |front| - LowCount(front);
      assert floor * (n + 1) as real == floor * n as real + floor;
    }
  }

  lemma MeanAboveLow(sum: real, n: nat, low: nat, floor: real, maxLow: real)
    requires n > 0 && low <= n && floor >= 0.0
    requires sum >= floor * (n - low) as real && low as real / n as real <= maxLow
    ensures sum / n as real >= floor * (1.0 - maxLow)
  {
    var d, r := n as real, low as real / n as real;
    assert r * d == low as real;
    assert floor * (d - low as real) == (floor * (1.0 - r)) * d;
    assert floor * (maxLow - r) >= 0.0;
    assert floor * (1.0 - maxLow) <= floor * (1.0 - r);
    ProductOrder(d, floor * (1.0 - maxLow), floor * (1.0 - r));
    var q := sum / d;
    assert q * d == sum;
    assert q < floor * (1.0 - maxLow) ==> (floor * (1.0 - maxLow) - q) * d > 0.0;
  }

  ghost predicate AboveUnlessLow(marks: seq<Mark>, floor: real) {
    forall k :: 0 <= k < |marks| ==>
      marks[k].confidence >= 0.0 && (!marks[k].level.Low? ==> marks[k].confidence >= floor)
  }

  lemma NonPositiveProduct(x: real, y: real)
    requires x >= 0.0 && y <= 0.0
    ensures x * y <= 0.0
  {
    assert x * (-y) >= 0.0;
  }

  lemma FewLowMeansConfident(marks: seq<Mark>, floor: real, maxLow: real)
    requires floor >= 0.0 && AboveUnlessLow(marks, floor) && LowRatio(marks) <= maxLow
    ensures Overall(marks) >= floor * (1.0 - maxLow)
  {
    if marks == [] {
      NonPositiveProduct(floor, 1.0 - maxLow);
    } else {
      SumAboveLow(marks, floor);
      MeanAboveLow(Sum(Confidences(marks)), |marks|, LowCount(marks), floor, maxLow);
    }
  }

  lemma MarksAboveUnlessLow(g: Gate, sentences: seq<string>, chunks: seq<string>)
    requires g.medium <= g.high
    ensures AboveUnlessLow(g.Marks(sentences, chunks), g.medium)
  {
    forall k | 0 <= k < |sentences|
      ensures g.Marks(sentences, chunks)[k] == g.MarkOf(sentences[k], chunks)
    {
    }
  }

  /** An accepted briefing's overall confidence is at least the medium threshold times the share
      of sentences that must not be low. */
  lemma AcceptedIsConfident(g: Gate, briefing: string, chunks: seq<string>)
    requires 0.0 <= g.medium <= g.high && g.Passes(briefing, chunks)
    ensures Overall(g.Assessed(briefing, chunks)) >= g.medium * (1.0 - g.maxLow)
  {
    hide Overall, LowRatio;
    MarksAboveUnlessLow(g, g.Long(Sentences(briefing)), chunks);
    FewLowMeansConfident(g.Assessed(briefing, chunks), g.medium, g.maxLow);
  }

  // ---- More chunks ---------------------------------------------------------------------------------------

  ghost predicate Among(chunks: seq<string>, more: seq<string>) {
    forall k :: 0 <= k < |chunks| ==> chunks[k] in more
  }

  /** Further source chunks, wherever they are put, lower no sentence's confidence or level. */
  lemma MoreChunksRaise(g: Gate, sentence: string, chunks: seq<string>, more: seq<string>)
    requires Among(chunks, more)
    ensures g.MarkOf(sentence, chunks).confidence <= g.MarkOf(sentence, more).confidence
    ensures Rank(g.MarkOf(sentence, chunks).level) <= Rank(g.MarkOf(sentence, more).level)
  {
    var sims, wider := g.Similarities(sentence, chunks), g.Similarities(sentence, more);
    var best := Peak(sims);
    if best > 0.0 {
      var k :| 0 <= k < |sims| && sims[k] == best;
      var j :| 0 <= j < |more| && more[j] == chunks[k];
      assert wider[j] == sims[k];
    }
  }

  lemma {:induction false} LowCountFalls(marks: seq<Mark>, raised: seq<Mark>)
    requires |marks| == |raised|
    requires forall k :: 0 <= k < |marks| ==> Rank(marks[k].level) <= Rank(raised[k].level)
    ensures LowCount(raised) <= LowCount(marks)
  {
    if marks != [] {
      LowCountFalls(marks[..|marks| - 1], raised[..|raised| - 1]);
    }
  }

  /** And they turn no accepted briefing into a rejected one. */
  lemma MoreChunksKeepAccepted(g: Gate, briefing: string, chunks: seq<string>, more: seq<string>)
    requires Among(chunks, more) && g.Passes(briefing, chunks)
    ensures g.Passes(briefing, more)
  {
    assert chunks[0] in more;
    var sentences := g.Long(Sentences(briefing));
    var marks, raised := g.Assessed(briefing, chunks), g.Assessed(briefing, more);
    if marks != [] {
      forall k | 0 <= k < |marks| ensures Rank(marks[k].level) <= Rank(raised[k].level) {
        MoreChunksRaise(g, sentences[k], chunks, more);
      }
      LowCountFalls(marks, raised);
      RatioOrder(LowCount(raised), LowCount(marks), |marks|);
    }
  }

  lemma RatioOrder(a: nat, b: nat, n: nat)
    requires a <= b && n > 0
    ensures a as real / n as real <= b as real / n as real
  {
    var p, q, d := a as real / n as real, b as real / n as real, n as real;
    assert p * d == a as real && q * d == b as real;
    assert p > q ==> (p - q) * d > 0.0;
  }
}
