/** Small facts and functions about sequences that several modules use. */
module Sequences {
  import opened Options

  lemma Regroup<T>(a: seq<T>, b: seq<T>, c: seq<T>)
    ensures a + (b + c) == (a + b) + c
  {
  }

  /** The documents of the items that could be normalized, in order. */
  function Normalized<T>(items: seq<T>, normalize: T -> Option<string>): seq<string> {
    if items == [] then []
    else
      var last := items[|items| - 1];
      Normalized(items[..|items| - 1], normalize) + if normalize(last).Some? then [normalize(last).value] else []
  }

  /** The ids of the items that could not, in order. */
  function Refused<T>(items: seq<T>, normalize: T -> Option<string>, id: T -> string): seq<string> {
    if items == [] then []
    else
      var last := items[|items| - 1];
      Refused(items[..|items| - 1], normalize, id) + if normalize(last).Some? then [] else [id(last)]
  }

  // ---- Picking elements in order -------------------------------------------------------------------------

  /** `s` is what `of` holds at the positions `p`: all the places where `keep` holds, ascending. */
  ghost predicate PickedAt<T>(s: seq<T>, of: seq<T>, keep: T -> bool, p: seq<nat>) {
    && |p| == |s|
    && (forall i, j :: 0 <= i < j < |p| ==> p[i] < p[j])
    && (forall i :: 0 <= i < |p| ==> p[i] < |of| && s[i] == of[p[i]] && keep(s[i]))
    && (forall k :: 0 <= k < |of| && keep(of[k]) ==> k in p)
  }

  /** `s` holds exactly the elements of `of` that satisfy `keep`, in their order. */
  ghost predicate Picks<T>(s: seq<T>, of: seq<T>, keep: T -> bool) {
    exists p: seq<nat> :: PickedAt(s, of, keep, p)
  }

  lemma PicksNothing<T>(keep: T -> bool)
    ensures Picks([], [], keep)
  {
    assert PickedAt<T>([], [], keep, []);
  }

  lemma PicksNext<T>(s: seq<T>, of: seq<T>, keep: T -> bool, x: T)
    requires Picks(s, of, keep)
    ensures Picks(if keep(x) then s + [x] else s, of + [x], keep)
  {
    var p: seq<nat> :| PickedAt(s, of, keep, p);
    if keep(x) {
      PickedNext(s, of, keep, x, p);
    } else {
      PickedSame(s, of, keep, x, p);
    }
  }

  lemma PickedNext<T>(s: seq<T>, of: seq<T>, keep: T -> bool, x: T, p: seq<nat>)
    requires PickedAt(s, of, keep, p) && keep(x)
    ensures PickedAt(s + [x], of + [x], keep, p + [|of|])
  {
    var t, all, q := s + [x], of + [x], p + [|of|];
    assert q[|p|] == |of|;
    forall i | 0 <= i < |p| ensures q[i] == p[i] && t[i] == s[i] && all[p[i]] == of[p[i]] {
    }
    forall k | 0 <= k < |all| && keep(all[k]) ensures k in q {
      if k < |of| {
        assert keep(of[k]);
        var i :| 0 <= i < |p| && p[i] == k;
        assert q[i] == k;
      }
    }
  }

  lemma PickedSame<T>(s: seq<T>, of: seq<T>, keep: T -> bool, x: T, p: seq<nat>)
    requires PickedAt(s, of, keep, p) && !keep(x)
    ensures PickedAt(s, of + [x], keep, p)
  {
    var all := of + [x];
    forall i | 0 <= i < |p| ensures p[i] < |all| && all[p[i]] == s[i] {
    }
  }

  /** The documents are those of the items that have one, in the items' order. */
  ghost predicate Documented<T(!new)>(items: seq<T>, normalize: T -> Option<string>, documents: seq<string>) {
    exists kept: seq<T> ::
      && Picks(kept, items, (x: T) => normalize(x).Some?) && |kept| == |documents|
      && forall k :: 0 <= k < |kept| ==> normalize(kept[k]) == Some(documents[k])
  }

  /** The errors are the ids of those that have none, in the items' order. */
  ghost predicate Reported<T(!new)>(items: seq<T>, normalize: T -> Option<string>, id: T -> string,
                                    errors: seq<string>)
  {
    exists kept: seq<T> ::
      && Picks(kept, items, (x: T) => normalize(x).None?) && |kept| == |errors|
      && forall k :: 0 <= k < |kept| ==> id(kept[k]) == errors[k]
  }

  lemma {:induction false} KeptItems<T>(items: seq<T>, normalize: T -> Option<string>) returns (kept: seq<T>)
    ensures Picks(kept, items, (x: T) => normalize(x).Some?) && |kept| == |Normalized(items, normalize)|
    ensures forall k :: 0 <= k < |kept| ==> normalize(kept[k]) == Some(Normalized(items, normalize)[k])
  {
    hide Picks;
    var keep := (x: T) => normalize(x).Some?;
    if items == [] {
      PicksNothing(keep);
      kept := [];
    } else {
      var front, last := items[..|items| - 1], items[|items| - 1];
      var before := KeptItems(front, normalize);
      PicksNext(before, front, keep, last);
      assert items == front + [last];
      kept := if keep(last) then before + [last] else before;
    }
  }

  lemma {:induction false} RefusedItems<T>(items: seq<T>, normalize: T -> Option<string>, id: T -> string)
    returns (kept: seq<T>)
    ensures Picks(kept, items, (x: T) => normalize(x).None?) && |kept| == |Refused(items, normalize, id)|
    ensures forall k :: 0 <= k < |kept| ==> id(kept[k]) == Refused(items, normalize, id)[k]
  {
    hide Picks;
    var keep := (x: T) => normalize(x).None?;
    if items == [] {
      PicksNothing(keep);
      kept := [];
    } else {
      var front, last := items[..|items| - 1], items[|items| - 1];
      var before := RefusedItems(front, normalize, id);
      PicksNext(before, front, keep, last);
      assert items == front + [last];
      kept := if keep(last) then before + [last] else before;
    }
  }

  /** Each item becomes a document or an error, and in which order. */
  lemma EachAccounted<T(!new)>(items: seq<T>, normalize: T -> Option<string>, id: T -> string)
    ensures Documented(items, normalize, Normalized(items, normalize))
    ensures Reported(items, normalize, id, Refused(items, normalize, id))
  {
    hide Picks;
    var kept := KeptItems(items, normalize);
    var refused := RefusedItems(items, normalize, id);
  }
}
