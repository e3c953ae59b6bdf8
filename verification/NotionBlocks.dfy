/** Recursive, paged fetching of Notion blocks against the tree it is meant to read. */
module NotionBlocks {
  import opened Options

  type Mention = string

  /** A block as one answer lists it: its children are announced, not included. */
  datatype Flat = Flat(id: string, hasChildren: bool, mentions: seq<Mention>) {
    /** `has_children` is set and there is an id to ask with. */
    predicate Expandable() {
      hasChildren && id != ""
    }
  }

  /** A block after fetching; `asked` says that `_children` was attached. */
  datatype Node = Node(flat: Flat, asked: bool, kids: seq<Node>)

  const MAX_BLOCK_DEPTH: nat := 5

  /** What the workspace stores: the child list of every block.  Nothing says that these
      lists form a tree; a block may even list one of its ancestors. */
  type Store = map<string, seq<Flat>>

  function Listed(store: Store, id: string): seq<Flat> {
    if id in store then store[id] else []
  }

  // ---- Specification ------------------------------------------------------------------------

  /** The store unfolded below `id` for a number of levels. */
  function Unfold(store: Store, id: string, levels: nat): seq<Node>
    decreases levels, 2, store
  {
    if levels == 0 then [] else UnfoldEach(store, Listed(store, id), levels)
  }

  function UnfoldEach(store: Store, flats: seq<Flat>, levels: nat): seq<Node>
    requires levels > 0
    decreases levels, 1, flats
  {
    if flats == [] then []
    else
      var flat := flats[|flats| - 1];
      UnfoldEach(store, flats[..|flats| - 1], levels)
        + [Node(flat, flat.Expandable(), if flat.Expandable() then Unfold(store, flat.id, levels - 1) else [])]
  }

  /** Some prefix at every level: what a fetch with failing pages may still return. */
  predicate Partial(store: Store, id: string, levels: nat, nodes: seq<Node>)
    decreases levels, 2, store
  {
    if levels == 0 then nodes == []
    else |nodes| <= |Listed(store, id)| && PartialEach(store, Listed(store, id)[..|nodes|], levels, nodes)
  }

  predicate PartialEach(store: Store, flats: seq<Flat>, levels: nat, nodes: seq<Node>)
    requires levels > 0 && |flats| == |nodes|
    decreases levels, 1, nodes
  {
    nodes == [] ||
    (var n, flat := nodes[|nodes| - 1], flats[|nodes| - 1];
     && PartialEach(store, flats[..|nodes| - 1], levels, nodes[..|nodes| - 1])
     && n.flat == flat && n.asked == flat.Expandable()
     && (if n.asked then Partial(store, flat.id, levels - 1, n.kids) else n.kids == []))
  }

  // ---- The API and the connector --------------------------------------------------------------

  datatype Answer = Page(results: seq<Flat>, more: bool, next: nat) | Failed | RateLimited

  class Api {
    const store: Store

    constructor (store: Store)
      ensures this.store == store
    {
      this.store := store;
    }

    /** One request for the children of `id` from a position on: a page of any size, an error,
        or a rate limit. */
    method Children(id: string, start: nat) returns (a: Answer)
      requires start <= |Listed(store, id)|
      ensures a.Page? ==> start <= a.next <= |Listed(store, id)|
      ensures a.Page? ==> a.results == Listed(store, id)[start..a.next]
      ensures a.Page? ==> a.more == (a.next < |Listed(store, id)|)
      ensures a.Page? && a.more ==> start < a.next
    {
      var kind: nat := *;
      if kind == 0 { return Failed; }
      if kind == 1 { return RateLimited; }
      var list := Listed(store, id);
      var next: nat := *;
      if next <= start || next > |list| { next := |list|; }
      a := Page(list[start..next], next < |list|, next);
    }
  }

  /** How far the page loop has come: the blocks stand for a prefix of the list, and if
      nothing has failed below them they are unfolded in full. */
  predicate Progress(store: Store, list: seq<Flat>, levels: nat, blocks: seq<Node>, complete: bool)
    requires levels > 0
  {
    && |blocks| <= |list|
    && PartialEach(store, list[..|blocks|], levels, blocks)
    && (complete ==> blocks == UnfoldEach(store, list[..|blocks|], levels))
  }

  /** `node` is what one turn of the block loop makes of `flat`. */
  predicate Attached(store: Store, flat: Flat, levels: nat, node: Node, complete: bool)
    requires levels > 0
  {
    && node.flat == flat && node.asked == flat.Expandable()
    && (if node.asked then Partial(store, flat.id, levels - 1, node.kids) else node.kids == [])
    && (complete && node.asked ==> node.kids == Unfold(store, flat.id, levels - 1))
  }

  lemma UnfoldAppend(store: Store, flats: seq<Flat>, flat: Flat, levels: nat)
    requires levels > 0
    ensures UnfoldEach(store, flats + [flat], levels) == UnfoldEach(store, flats, levels)
      + [Node(flat, flat.Expandable(), if flat.Expandable() then Unfold(store, flat.id, levels - 1) else [])]
  {
    assert (flats + [flat])[..|flats|] == flats;
  }

  lemma PartialAppend(store: Store, flats: seq<Flat>, levels: nat, nodes: seq<Node>, flat: Flat, n: Node)
    requires levels > 0 && |flats| == |nodes|
    ensures PartialEach(store, flats + [flat], levels, nodes + [n]) <==>
      PartialEach(store, flats, levels, nodes) && Attached(store, flat, levels, n, false)
  {
    assert (flats + [flat])[..|flats|] == flats;
    assert (nodes + [n])[..|nodes|] == nodes;
  }

  lemma ProgressStep(store: Store, list: seq<Flat>, levels: nat, blocks: seq<Node>, complete: bool, n: Node,
                     whole: bool)
    requires levels > 0 && Progress(store, list, levels, blocks, complete) && |blocks| < |list|
    requires Attached(store, list[|blocks|], levels, n, whole)
    ensures Progress(store, list, levels, blocks + [n], complete && whole)
  {
    var k := |blocks|;
    assert list[..k + 1] == list[..k] + [list[k]];
    PartialAppend(store, list[..k], levels, blocks, list[k], n);
    UnfoldAppend(store, list[..k], list[k], levels);
  }

  /** `_fetch_blocks`.  `None` stands for the `RateLimitError` that ends the whole fetch;
      `complete` says that no request below failed. */
  method FetchBlocks(api: Api, id: string, depth: nat) returns (r: Option<seq<Node>>, complete: bool)
    ensures r.Some? ==> Partial(api.store, id, if depth < MAX_BLOCK_DEPTH then MAX_BLOCK_DEPTH - depth else 0, r.value)
    ensures r.Some? && complete ==>
      r.value == Unfold(api.store, id, if depth < MAX_BLOCK_DEPTH then MAX_BLOCK_DEPTH - depth else 0)
    ensures depth == 0 && r.Some? ==>
      Partial(api.store, id, 5, r.value) && (complete ==> r.value == Unfold(api.store, id, 5))
    decreases MAX_BLOCK_DEPTH - depth, 1
  {
    if depth >= MAX_BLOCK_DEPTH {
      return Some([]), true;
    }
    ghost var levels: nat := MAX_BLOCK_DEPTH - depth;
    ghost var list := Listed(api.store, id);
    var blocks: seq<Node> := [];
    complete := true;
    while true
      invariant Progress(api.store, list, levels, blocks, complete)
      decreases |list| - |blocks|
    {
      var start := |blocks|;
      var answer := api.Children(id, start);
      if answer.Failed? {
        complete := false;
        break;
      }
      if answer.RateLimited? {
        return None, false;
      }
      for k := 0 to |answer.results|
        invariant |blocks| == start + k
        invariant Progress(api.store, list, levels, blocks, complete)
      {
        var node, whole := FetchNode(api, answer.results[k], depth);
        if node.None? {
          return None, false;
        }
        ProgressStep(api.store, list, levels, blocks, complete, node.value, whole);
        blocks := blocks + [node.value];
        complete := complete && whole;
      }
      if !answer.more {
        assert list[..|blocks|] == list;
        break;
      }
    }
    r := Some(blocks);
  }

  /** The body of the block loop: attach the children, if there are any to ask for. */
  method FetchNode(api: Api, flat: Flat, depth: nat) returns (node: Option<Node>, complete: bool)
    requires depth < MAX_BLOCK_DEPTH
    ensures node.Some? ==> Attached(api.store, flat, MAX_BLOCK_DEPTH - depth, node.value, complete)
    ensures node.Some? ==> node.value.flat == flat && (node.value.asked <==> flat.hasChildren && flat.id != "")
    decreases MAX_BLOCK_DEPTH - depth, 0
  {
    if flat.hasChildren && flat.id != "" {
      var children, whole := FetchBlocks(api, flat.id, depth + 1);
      if children.None? {
        return None, false;
      }
      return Some(Node(flat, true, children.value)), whole;
    }
    return Some(Node(flat, false, [])), true;
  }

  /** `_collect_all_mentions`. */
  method CollectMentions(blocks: seq<Node>) returns (mentions: seq<Mention>)
    ensures mentions == Mentioned(blocks)
    decreases blocks
  {
    mentions := [];
    for i := 0 to |blocks|
      invariant mentions == Mentioned(blocks[..i])
    {
      assert blocks[..i + 1][..i] == blocks[..i];
      mentions := mentions + blocks[i].flat.mentions;
      if blocks[i].asked {
        var below := CollectMentions(blocks[i].kids);
        mentions := mentions + below;
      }
    }
    assert blocks[..|blocks|] == blocks;
  }

  function Mentioned(blocks: seq<Node>): seq<Mention> {
    if blocks == [] then []
    else
      var b := blocks[|blocks| - 1];
      Mentioned(blocks[..|blocks| - 1]) + b.flat.mentions + (if b.asked then Mentioned(b.kids) else [])
  }

  // ---- Trees ---------------------------------------------------------------------------------

  /** The block tree of a page as the user sees it. */
  datatype Tree = Tree(id: string, mentions: seq<Mention>, children: seq<Tree>)

  function FlatsOf(forest: seq<Tree>): (flats: seq<Flat>)
    ensures |flats| == |forest|
  {
    if forest == [] then []
    else
      var t := forest[|forest| - 1];
      FlatsOf(forest[..|forest| - 1]) + [Flat(t.id, t.children != [], t.mentions)]
  }

  /** The store holds this forest below `id`: every block that has children has an id and is
      listed with them. */
  predicate Holds(store: Store, id: string, forest: seq<Tree>)
    decreases forest, 1
  {
    Listed(store, id) == FlatsOf(forest) && HoldsEach(store, forest)
  }

  predicate HoldsEach(store: Store, forest: seq<Tree>)
    decreases forest, 0
  {
    forest == [] ||
    (var t := forest[|forest| - 1];
     && HoldsEach(store, forest[..|forest| - 1])
     && (t.children != [] ==> t.id != "" && Holds(store, t.id, t.children)))
  }

  /** A forest without everything below the given number of levels. */
  function Truncate(forest: seq<Tree>, levels: nat): seq<Tree>
    decreases levels, |forest|
  {
    if levels == 0 || forest == [] then []
    else
      var t := forest[|forest| - 1];
      Truncate(forest[..|forest| - 1], levels) + [Tree(t.id, t.mentions, Truncate(t.children, levels - 1))]
  }

  /** Reading the fetched blocks as trees again. */
  function Read(nodes: seq<Node>): seq<Tree> {
    if nodes == [] then []
    else
      var n := nodes[|nodes| - 1];
      Read(nodes[..|nodes| - 1]) + [Tree(n.flat.id, n.flat.mentions, if n.asked then Read(n.kids) else [])]
  }

  function Preorder(forest: seq<Tree>): seq<Mention> {
    if forest == [] then []
    else
      var t := forest[|forest| - 1];
      Preorder(forest[..|forest| - 1]) + t.mentions + Preorder(t.children)
  }

  /** A complete fetch is the tree cut at the level bound: order kept, every block once. */
  lemma {:induction false} UnfoldIsTruncation(store: Store, id: string, forest: seq<Tree>, levels: nat)
    requires Holds(store, id, forest)
    ensures Read(Unfold(store, id, levels)) == Truncate(forest, levels)
    decreases levels, 1, forest
  {
    if levels > 0 { UnfoldEachIsTruncation(store, forest, levels); }
  }

  lemma {:induction false} UnfoldEachIsTruncation(store: Store, forest: seq<Tree>, levels: nat)
    requires HoldsEach(store, forest) && levels > 0
    ensures ReadsAs(store, forest, levels)
    decreases levels, 0, forest
  {
    if forest == [] {
    } else {
      var front, t := forest[..|forest| - 1], forest[|forest| - 1];
      UnfoldEachIsTruncation(store, front, levels);
      if t.children != [] {
        UnfoldIsTruncation(store, t.id, t.children, levels - 1);
      }
      assert forest == front + [t];
      UnfoldStep(store, front, t, levels);
    }
  }

  predicate ReadsAs(store: Store, forest: seq<Tree>, levels: nat)
    requires levels > 0
  {
    Read(UnfoldEach(store, FlatsOf(forest), levels)) == Truncate(forest, levels)
  }

  lemma UnfoldStep(store: Store, front: seq<Tree>, t: Tree, levels: nat)
    requires levels > 0 && ReadsAs(store, front, levels)
    requires t.children != []
      ==> t.id != "" && Read(Unfold(store, t.id, levels - 1)) == Truncate(t.children, levels - 1)
    ensures ReadsAs(store, front + [t], levels)
  {
    var flat := Flat(t.id, t.children != [], t.mentions);
    var below := if flat.Expandable() then Unfold(store, flat.id, levels - 1) else [];
    TruncateAppend(front, t, levels);
    FlatsAppend(front, t);
    UnfoldAppend(store, FlatsOf(front), flat, levels);
    ReadAppend(UnfoldEach(store, FlatsOf(front), levels), Node(flat, flat.Expandable(), below));
  }

  lemma TruncateAppend(front: seq<Tree>, t: Tree, levels: nat)
    requires levels > 0
    ensures Truncate(front + [t], levels)
      == Truncate(front, levels) + [Tree(t.id, t.mentions, Truncate(t.children, levels - 1))]
  {
    assert (front + [t])[..|front|] == front;
  }

  lemma FlatsAppend(front: seq<Tree>, t: Tree)
    ensures FlatsOf(front + [t]) == FlatsOf(front) + [Flat(t.id, t.children != [], t.mentions)]
  {
    assert (front + [t])[..|front|] == front;
  }

  lemma ReadAppend(nodes: seq<Node>, n: Node)
    ensures Read(nodes + [n]) == Read(nodes) + [Tree(n.flat.id, n.flat.mentions, if n.asked then Read(n.kids) else [])]
  {
    assert (nodes + [n])[..|nodes|] == nodes;
  }

  /** The collected mentions of fetched blocks are the preorder mentions of what was read. */
  lemma {:induction false} MentionedIsPreorder(nodes: seq<Node>)
    ensures Mentioned(nodes) == Preorder(Read(nodes))
    decreases nodes
  {
    if nodes != [] {
      var front, n := nodes[..|nodes| - 1], nodes[|nodes| - 1];
      MentionedIsPreorder(front);
      assert Read(nodes)[..|Read(nodes)| - 1] == Read(front);
      if n.asked { MentionedIsPreorder(n.kids); }
    }
  }

  /** A complete fetch and its mentions, at any level bound. */
  lemma CompleteFetch(store: Store, pageId: string, forest: seq<Tree>, levels: nat, blocks: seq<Node>)
    requires Holds(store, pageId, forest) && blocks == Unfold(store, pageId, levels)
    ensures Read(blocks) == Truncate(forest, levels)
    ensures Mentioned(blocks) == Preorder(Truncate(forest, levels))
  {
    UnfoldIsTruncation(store, pageId, forest, levels);
    MentionedIsPreorder(blocks);
  }

  // ---- Partial fetches -------------------------------------------------------------------------

  /** Branches cut short, nothing reordered or invented: a prefix at every level. */
  predicate Pruned(small: seq<Tree>, large: seq<Tree>)
    decreases small, 1
  {
    |small| <= |large| && PrunedEach(small, large[..|small|])
  }

  predicate PrunedEach(small: seq<Tree>, large: seq<Tree>)
    requires |small| == |large|
    decreases small, 0
  {
    small == [] ||
    (var s, l := small[|small| - 1], large[|small| - 1];
     && PrunedEach(small[..|small| - 1], large[..|small| - 1])
     && s.id == l.id && s.mentions == l.mentions && Pruned(s.children, l.children))
  }

  lemma {:induction false} TruncatePrefix(forest: seq<Tree>, levels: nat, k: nat)
    requires levels > 0 && k <= |forest|
    ensures |Truncate(forest, levels)| == |forest|
    ensures Truncate(forest, levels)[..k] == Truncate(forest[..k], levels)
    decreases |forest|
  {
    if forest != [] {
      TruncatePrefix(forest[..|forest| - 1], levels, if k < |forest| then k else k - 1);
      if k < |forest| {
        assert forest[..|forest| - 1][..k] == forest[..k];
      } else {
        assert forest[..k] == forest;
      }
    }
  }

  lemma {:induction false} HoldsPrefix(store: Store, forest: seq<Tree>, k: nat)
    requires k <= |forest| && HoldsEach(store, forest)
    ensures HoldsEach(store, forest[..k])
    ensures FlatsOf(forest[..k]) == FlatsOf(forest)[..k]
    decreases |forest|
  {
    if forest != [] {
      HoldsPrefix(store, forest[..|forest| - 1], if k < |forest| then k else k - 1);
      if k < |forest| {
        assert forest[..|forest| - 1][..k] == forest[..k];
      } else {
        assert forest[..k] == forest;
      }
    }
  }

  /** Whatever fails, what comes back is the true tree, cut at the bound, with branches cut
      short. */
  lemma {:induction false} PartialIsPruned(store: Store, id: string, forest: seq<Tree>, levels: nat, nodes: seq<Node>)
    requires Holds(store, id, forest) && Partial(store, id, levels, nodes)
    ensures Pruned(Read(nodes), Truncate(forest, levels))
    decreases levels, 1, nodes
  {
    if levels > 0 {
      HoldsPrefix(store, forest, 0);
      HoldsPrefix(store, forest, |nodes|);
      TruncatePrefix(forest, levels, |nodes|);
      PartialEachIsPruned(store, forest[..|nodes|], levels, nodes);
    }
  }

  lemma {:induction false} PartialEachIsPruned(store: Store, forest: seq<Tree>, levels: nat, nodes: seq<Node>)
    requires HoldsEach(store, forest) && levels > 0 && |nodes| == |forest|
    requires PartialEach(store, FlatsOf(forest), levels, nodes)
    ensures SameLengthPruned(Read(nodes), Truncate(forest, levels))
    decreases levels, 0, nodes
  {
    if nodes != [] {
      var front, t := forest[..|forest| - 1], forest[|forest| - 1];
      var before, n := nodes[..|nodes| - 1], nodes[|nodes| - 1];
      assert forest == front + [t] && nodes == before + [n];
      FlatsAppend(front, t);
      PartialAppend(store, FlatsOf(front), levels, before, Flat(t.id, t.children != [], t.mentions), n);
      PartialEachIsPruned(store, front, levels, before);
      if n.asked {
        PartialIsPruned(store, t.id, t.children, levels - 1, n.kids);
      }
      ReadAppend(before, n);
      TruncateAppend(front, t, levels);
      PrunedAppend(Read(before), Truncate(front, levels),
                   Tree(n.flat.id, n.flat.mentions, if n.asked then Read(n.kids) else []),
                   Tree(t.id, t.mentions, Truncate(t.children, levels - 1)));
    }
  }

  predicate SameLengthPruned(small: seq<Tree>, large: seq<Tree>) {
    |small| == |large| && PrunedEach(small, large)
  }

  lemma PrunedAppend(small: seq<Tree>, large: seq<Tree>, s: Tree, l: Tree)
    requires SameLengthPruned(small, large)
    requires s.id == l.id && s.mentions == l.mentions && Pruned(s.children, l.children)
    ensures SameLengthPruned(small + [s], large + [l])
  {
    assert (small + [s])[..|small|] == small && (large + [l])[..|large|] == large;
  }
}
