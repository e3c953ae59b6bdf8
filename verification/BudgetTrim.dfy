/** Trimming a briefing context to its token budget: one specification, which the four context
    assemblers refine.  A context's trimmable sections are listed lowest priority first; an entry
    is the text it contributes.  Nothing is assumed of the tokenizer, not even that less text
    has fewer tokens. */
module BudgetTrim {
  import opened Sequences

  type Sections = seq<seq<string>>

  function Total(sections: Sections): nat {
    if sections == [] then 0 else |sections[0]| + Total(sections[1..])
  }

  /** The state after `k` entries were dropped, each from the end of the lowest section that
      still has any. */
  function Cut(sections: Sections, k: nat): (c: Sections)
    requires k <= Total(sections)
    ensures |c| == |sections|
  {
    if sections == [] then []
    else if k <= |sections[0]| then [sections[0][..|sections[0]| - k]] + sections[1..]
    else [[]] + Cut(sections[1..], k - |sections[0]|)
  }

  /** `k` is the first point at which the context fits, or everything is dropped without it
      ever having fitted before. */
  ghost predicate FirstFit(weigh: Sections -> nat, sections: Sections, budget: int, k: nat) {
    && k <= Total(sections)
    && (forall j: nat :: j < k ==> weigh(Cut(sections, j)) > budget)
    && (weigh(Cut(sections, k)) <= budget || k == Total(sections))
  }

  lemma FirstFitUnique(weigh: Sections -> nat, sections: Sections, budget: int, k: nat, l: nat)
    requires FirstFit(weigh, sections, budget, k) && FirstFit(weigh, sections, budget, l)
    ensures k == l
  {
  }

  /** A fitting point exists for every context and budget. */
  lemma {:induction false} FirstFitExists(weigh: Sections -> nat, sections: Sections, budget: int, from: nat)
    returns (k: nat)
    requires from <= Total(sections) && forall j: nat :: j < from ==> weigh(Cut(sections, j)) > budget
    ensures FirstFit(weigh, sections, budget, k)
    decreases Total(sections) - from
  {
    if weigh(Cut(sections, from)) <= budget || from == Total(sections) {
      k := from;
    } else {
      k := FirstFitExists(weigh, sections, budget, from + 1);
    }
  }

  /** Every section keeps a prefix, and one has shrunk only if all below it are empty. */
  lemma {:induction false} CutByPriority(sections: Sections, k: nat, i: nat)
    requires k <= Total(sections) && i < |sections|
    ensures Cut(sections, k)[i] <= sections[i]
    ensures Cut(sections, k)[i] != sections[i] ==> forall j :: 0 <= j < i ==> Cut(sections, k)[j] == []
    decreases |sections|
  {
    var c := Cut(sections, k);
    if k <= |sections[0]| {
      if i > 0 { assert c[i] == sections[1..][i - 1]; }
    } else if i > 0 {
      CutByPriority(sections[1..], k - |sections[0]|, i - 1);
      var rest := Cut(sections[1..], k - |sections[0]|);
      assert forall j :: 1 <= j < |c| ==> c[j] == rest[j - 1];
    }
  }

  lemma {:induction false} CutNothing(sections: Sections)
    ensures Cut(sections, 0) == sections
  {
    if sections != [] {
      assert sections[0][..|sections[0]| - 0] == sections[0];
      assert sections == [sections[0]] + sections[1..];
    }
  }

  lemma {:induction false} CutDropsExactly(sections: Sections, k: nat)
    requires k <= Total(sections)
    ensures Total(Cut(sections, k)) == Total(sections) - k
    decreases |sections|
  {
    if sections != [] {
      if k <= |sections[0]| {
        assert Cut(sections, k)[1..] == sections[1..];
      } else {
        CutDropsExactly(sections[1..], k - |sections[0]|);
        assert Cut(sections, k)[1..] == Cut(sections[1..], k - |sections[0]|);
      }
    }
  }

  /** Nothing is left to drop exactly if all sections are empty. */
  lemma {:induction false} EmptyTotal(sections: Sections)
    ensures Total(sections) == 0 <==> forall i :: 0 <= i < |sections| ==> sections[i] == []
  {
    if sections != [] {
      EmptyTotal(sections[1..]);
      assert (forall i :: 0 <= i < |sections| ==> sections[i] == []) ==>
        forall i :: 0 <= i < |sections[1..]| ==> sections[1..][i] == sections[i + 1] == [];
      assert (forall i :: 0 <= i < |sections[1..]| ==> sections[1..][i] == []) && sections[0] == [] ==>
        forall i :: 0 <= i < |sections| ==> sections[i] == [] by {
        assert forall i :: 1 <= i < |sections| ==> sections[i] == sections[1..][i - 1];
      }
    }
  }

  /** Once the first section is empty, the chain goes on in the others. */
  lemma CutBehind(sections: Sections, k: nat)
    requires sections != [] && |sections[0]| <= k <= Total(sections)
    ensures Cut(sections, k) == [[]] + Cut(sections[1..], k - |sections[0]|)
  {
    CutNothing(sections[1..]);
  }

  /** One `pop` on the lowest non-empty section is one step along the chain. */
  lemma {:induction false} Pop(sections: Sections, k: nat, i: nat)
    requires k <= Total(sections) && i < |sections|
    requires Cut(sections, k)[i] != [] && forall j :: 0 <= j < i ==> Cut(sections, k)[j] == []
    ensures k < Total(sections)
    ensures Cut(sections, k + 1) == Cut(sections, k)[i := Cut(sections, k)[i][..|Cut(sections, k)[i]| - 1]]
    decreases |sections|
  {
    var c, first, rest := Cut(sections, k), sections[0], sections[1..];
    if k < |first| {
      assert c[0] == first[..|first| - k] != [];
      assert c[0][..|c[0]| - 1] == first[..|first| - (k + 1)];
    } else {
      CutBehind(sections, k);
      hide Cut;
      var below := Cut(rest, k - |first|);
      forall j | 0 <= j < |below| ensures below[j] == c[j + 1] {
      }
      Pop(rest, k - |first|, i - 1);
      CutBehind(sections, k + 1);
    }
  }

  /** `str.join`. */
  function Join(parts: seq<string>, separator: string): string {
    if parts == [] then [] else if |parts| == 1 then parts[0] else parts[0] + separator + Join(parts[1..], separator)
  }

  // ---- What a joined text consists of --------------------------------------------------------------------

  /** The entries one after the other, each led by the same text. */
  function Led(lead: string, entries: seq<string>): string {
    if entries == [] then [] else Led(lead, entries[..|entries| - 1]) + lead + entries[|entries| - 1]
  }

  function Lengths(entries: seq<string>): nat {
    if entries == [] then 0 else Lengths(entries[..|entries| - 1]) + |entries[|entries| - 1]|
  }

  lemma {:induction false} LedConcat(lead: string, a: seq<string>, b: seq<string>)
    ensures Led(lead, a + b) == Led(lead, a) + Led(lead, b)
    decreases |b|
  {
    if b == [] {
      assert a + b == a;
    } else {
      var front, last := b[..|b| - 1], b[|b| - 1];
      assert (a + b)[..|a + b| - 1] == a + front;
      LedConcat(lead, a, front);
      assert Led(lead, a) + Led(lead, front) + lead + last == Led(lead, a) + (Led(lead, front) + lead + last);
    }
  }

  /** A joined text is its first part and the others, each led by the separator. */
  lemma {:induction false} JoinLed(parts: seq<string>, separator: string)
    requires parts != []
    ensures Join(parts, separator) == parts[0] + Led(separator, parts[1..])
    decreases |parts|
  {
    if |parts| > 1 {
      var rest := parts[1..];
      JoinLed(rest, separator);
      LedConcat(separator, [rest[0]], rest[1..]);
      assert [rest[0]] + rest[1..] == rest;
      assert [rest[0]][..0] == [];
      assert Led(separator, [rest[0]]) == separator + rest[0];
      assert separator + (rest[0] + Led(separator, rest[1..])) == separator + rest[0] + Led(separator, rest[1..]);
    }
  }

  /** Further parts are appended, each led by the separator. */
  lemma JoinMore(parts: seq<string>, more: seq<string>, separator: string)
    requires parts != []
    ensures Join(parts + more, separator) == Join(parts, separator) + Led(separator, more)
  {
    hide Join, Led;
    JoinLed(parts, separator);
    JoinLed(parts + more, separator);
    assert (parts + more)[1..] == parts[1..] + more;
    LedConcat(separator, parts[1..], more);
    Regroup(parts[0], Led(separator, parts[1..]), Led(separator, more));
  }

  /** Dropping an entry shortens the text by the entry and what leads it. */
  lemma {:induction false} LedLength(lead: string, entries: seq<string>)
    ensures |Led(lead, entries)| == Lengths(entries) + |lead| * |entries|
    ensures entries != [] ==>
      |Led(lead, entries)| == |Led(lead, entries[..|entries| - 1])| + |lead| + |entries[|entries| - 1]|
  {
    if entries != [] {
      var n := |entries| - 1;
      LedLength(lead, entries[..n]);
      assert |lead| * (n + 1) == |lead| * n + |lead|;
    }
  }

  predicate Occurs(text: string, part: string) {
    exists i | 0 <= i <= |text| :: part <= text[i..]
  }

  /** Every part is in the joined text. */
  lemma {:induction false} JoinHolds(parts: seq<string>, separator: string, k: nat)
    requires k < |parts|
    ensures Occurs(Join(parts, separator), parts[k])
    decreases |parts|
  {
    var text := Join(parts, separator);
    if k == 0 {
      assert text[0..] == text;
    } else {
      var rest := Join(parts[1..], separator);
      JoinHolds(parts[1..], separator, k - 1);
      var i :| 0 <= i <= |rest| && parts[k] <= rest[i..];
      assert text == parts[0] + separator + rest;
      assert text[|parts[0] + separator| + i..] == rest[i..];
    }
  }
}
