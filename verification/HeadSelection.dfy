/**
  Head selection (`crates/pharos-fork-choice/src/get_head.rs`): the filtered block
  tree, the greedy LMD-GHOST descent, and what the chosen head guarantees.
 */
module HeadSelection {
  import opened Types
  import opened Ancestry
  import opened Weights

  // ── viability ───────────────────────────────────────────────────────────────

  function CheckpointBlock(s: Store, root: Root, epoch: Epoch): Root
    requires ParentsLower(s.blocks)
  {
    Ancestor(s.blocks, root, StartSlot(s.preset, epoch))
  }

  /** `get_voting_source`: unrealized justification for blocks of past epochs, on-chain otherwise. */
  function VotingSource(s: Store, root: Root): Checkpoint {
    if root !in s.blocks then Checkpoint(0, ZERO_ROOT)
    else if CurrentEpoch(s) > EpochAt(s.preset, s.blocks[root].slot) then
      if root in s.unrealized then s.unrealized[root] else Checkpoint(0, ZERO_ROOT)
    else
      if root in s.blockStates then s.blockStates[root].justified else Checkpoint(0, ZERO_ROOT)
  }

  predicate JustifiedOk(s: Store, leaf: Root) {
    var source := VotingSource(s, leaf);
    s.justified.epoch == 0 || source.epoch == s.justified.epoch || source.epoch + 2 >= CurrentEpoch(s)
  }

  predicate FinalizedOk(s: Store, leaf: Root)
    requires ParentsLower(s.blocks)
  {
    s.finalized.epoch == 0 || s.finalized.root == CheckpointBlock(s, leaf, s.finalized.epoch)
  }

  predicate LeafViable(s: Store, leaf: Root)
    requires ParentsLower(s.blocks)
  {
    JustifiedOk(s, leaf) && FinalizedOk(s, leaf)
  }

  predicate IsInvalid(s: Store, root: Root) { root in s.payloads && s.payloads[root] == Invalid }

  ghost predicate IsLeaf(blocks: Blocks, r: Root) {
    r in blocks && forall c :: !IsChild(blocks, c, r)
  }

  /** `r` descends from `a` through stored blocks none of which, ends included, is invalid. */
  ghost predicate Clean(s: Store, a: Root, r: Root)
    requires ParentsLower(s.blocks)
    decreases Height(s.blocks, r)
  {
    r in s.blocks && !IsInvalid(s, r) && (r == a || Clean(s, a, s.blocks[r].parentRoot))
  }

  /** The filtered tree under `base`: blocks on a clean path from `base` to some viable leaf. */
  ghost predicate InFiltered(s: Store, base: Root, r: Root)
    requires ParentsLower(s.blocks)
  {
    Clean(s, base, r) && exists leaf :: ViableBelow(s, r, leaf)
  }

  ghost predicate ViableBelow(s: Store, r: Root, leaf: Root)
    requires ParentsLower(s.blocks)
  {
    IsLeaf(s.blocks, leaf) && LeafViable(s, leaf) && Clean(s, r, leaf)
  }

  lemma {:induction false} CleanIsChain(s: Store, a: Root, r: Root)
    requires ParentsLower(s.blocks) && Clean(s, a, r)
    ensures OnChain(s.blocks, a, r) && Clean(s, a, a)
    decreases Height(s.blocks, r)
  {
    if a != r { CleanIsChain(s, a, s.blocks[r].parentRoot); }
  }

  lemma {:induction false} CleanComposes(s: Store, a: Root, b: Root, c: Root)
    requires ParentsLower(s.blocks) && Clean(s, a, b) && Clean(s, b, c)
    ensures Clean(s, a, c)
    decreases Height(s.blocks, c)
  {
    if b != c { CleanComposes(s, a, b, s.blocks[c].parentRoot); }
  }

  /** A clean path starts with a clean step to a child. */
  lemma {:induction false} CleanFirstStep(s: Store, a: Root, r: Root) returns (c: Root)
    requires ParentsLower(s.blocks) && Clean(s, a, r) && a != r
    ensures IsChild(s.blocks, c, a) && Clean(s, c, r) && Clean(s, a, c)
    decreases Height(s.blocks, r)
  {
    var p := s.blocks[r].parentRoot;
    if p == a { c := r; } else { c := CleanFirstStep(s, a, p); }
  }

  ghost function Filtered(s: Store, base: Root): set<Root>
    requires ParentsLower(s.blocks)
  {
    set r | r in s.blocks && InFiltered(s, base, r)
  }

  ghost function FilteredUnder(s: Store, cs: seq<Root>): set<Root>
    requires ParentsLower(s.blocks)
  {
    set r | r in s.blocks && exists c :: c in cs && r in Filtered(s, c)
  }

  /** Some listed block is the root of a non-empty filtered tree. */
  ghost predicate AnyViable(s: Store, cs: seq<Root>)
    requires ParentsLower(s.blocks)
  {
    exists c :: c in cs && c in Filtered(s, c)
  }

  lemma FilteredFromChild(s: Store, root: Root, c: Root, r: Root)
    requires ParentsLower(s.blocks) && root in s.blocks && !IsInvalid(s, root)
    requires IsChild(s.blocks, c, root) && InFiltered(s, c, r)
    ensures InFiltered(s, root, r) && InFiltered(s, root, root)
  {
    var leaf :| ViableBelow(s, r, leaf);
    CleanIsChain(s, c, r);
    assert Clean(s, root, c);
    CleanComposes(s, root, c, r);
    CleanComposes(s, root, r, leaf);
    assert ViableBelow(s, root, leaf);
  }

  lemma FilteredToChild(s: Store, root: Root, r: Root) returns (c: Root)
    requires ParentsLower(s.blocks) && InFiltered(s, root, r) && !(r == root && IsLeaf(s.blocks, root))
    ensures IsChild(s.blocks, c, root) && InFiltered(s, c, if r == root then c else r)
  {
    var leaf :| ViableBelow(s, r, leaf);
    if r != root {
      c := CleanFirstStep(s, root, r);
    } else {
      c := CleanFirstStep(s, root, leaf);
      CleanIsChain(s, c, leaf);
      assert ViableBelow(s, c, leaf);
    }
  }

  /** One level of the filtered tree, in terms of the children. */
  lemma FilteredSplits(s: Store, root: Root, cs: seq<Root>)
    requires ParentsLower(s.blocks) && root in s.blocks && !IsInvalid(s, root)
    requires forall c :: c in cs <==> IsChild(s.blocks, c, root)
    ensures Filtered(s, root) == FilteredUnder(s, cs)
                               + (if (cs == [] && LeafViable(s, root)) || AnyViable(s, cs) then {root} else {})
  {
    if cs != [] { assert cs[0] in cs; }
    assert cs == [] <==> IsLeaf(s.blocks, root);
    forall r: Root | r in Filtered(s, root)
      ensures if r == root then (cs == [] && LeafViable(s, root)) || AnyViable(s, cs) else r in FilteredUnder(s, cs)
    {
      if r == root && cs == [] {
        var leaf :| ViableBelow(s, root, leaf);
        if leaf != root { var c := CleanFirstStep(s, root, leaf); }
      } else {
        var c := FilteredToChild(s, root, r);
      }
    }
    forall r: Root | r in FilteredUnder(s, cs) ensures r in Filtered(s, root) {
      var c :| c in cs && r in Filtered(s, c);
      FilteredFromChild(s, root, c, r);
    }
    if AnyViable(s, cs) {
      var c :| c in cs && c in Filtered(s, c);
      FilteredFromChild(s, root, c, c);
    }
    if cs == [] && LeafViable(s, root) { assert ViableBelow(s, root, root); }
  }

  // ── children index and filter_block_tree ────────────────────────────────────

  ghost predicate IsIndex(blocks: Blocks, index: map<Root, seq<Root>>) {
    && (forall p :: p in index ==> index[p] != [] && EnumeratesChildren(blocks, p, index[p]))
    && (forall c :: c in blocks ==> blocks[c].parentRoot in index)
  }

  /** `children_index`: one pass over the block map, in any iteration order. */
  method ChildrenIndex(blocks: Blocks) returns (index: map<Root, seq<Root>>)
    ensures IsIndex(blocks, index)
  {
    index := map[];
    var todo := blocks.Keys;
    while todo != {}
      invariant todo <= blocks.Keys
      invariant forall p :: p in index ==> index[p] != []
      invariant forall p, i, j :: p in index && 0 <= i < j < |index[p]| ==> index[p][i] != index[p][j]
      invariant forall p, c :: p in index ==>
                  (c in index[p] <==> c in blocks && c !in todo && blocks[c].parentRoot == p)
      invariant forall c :: c in blocks && c !in todo ==> blocks[c].parentRoot in index
      decreases |todo|
    {
      var c :| c in todo;
      var p := blocks[c].parentRoot;
      index := index[p := (if p in index then index[p] else []) + [c]];
      todo := todo - {c};
    }
  }

  /** Blocks at or above the slot of `r`; shrinks at every step towards the leaves. */
  ghost function AtOrAbove(blocks: Blocks, r: Root): set<Root> {
    if r in blocks then set x | x in blocks && blocks[x].slot >= blocks[r].slot else {}
  }

  lemma ChildIsAbove(blocks: Blocks, p: Root, c: Root)
    requires ParentsLower(blocks) && p in blocks && IsChild(blocks, c, p)
    ensures AtOrAbove(blocks, c) < AtOrAbove(blocks, p)
  {
    assert p in AtOrAbove(blocks, p) && p !in AtOrAbove(blocks, c);
  }

  ghost predicate SubTree(s: Store, tree: Blocks) {
    forall r :: r in tree ==> r in s.blocks && tree[r] == s.blocks[r]
  }

  /**
    `filter_block_tree`: inserts into `tree` exactly the filtered tree under `root`
    and reports whether `root` itself is in it.
   */
  method FilterBlockTree(s: Store, root: Root, tree: Blocks, index: map<Root, seq<Root>>)
    returns (viable: bool, out: Blocks)
    requires ParentsLower(s.blocks) && IsIndex(s.blocks, index) && SubTree(s, tree)
    ensures SubTree(s, out)
    ensures viable <==> root in Filtered(s, root)
    ensures out.Keys == tree.Keys + Filtered(s, root)
    decreases AtOrAbove(s.blocks, root), 1
  {
    if root !in s.blocks || IsInvalid(s, root) {
      NothingFiltered(s, root);
      return false, tree;
    }
    var children := if root in index then index[root] else [];
    assert forall c :: c in children <==> IsChild(s.blocks, c, root);
    FilteredSplits(s, root, children);
    if children != [] {
      viable, out := FilterChildren(s, root, children, tree, index);
      RootIsNotUnder(s, root, children);
    } else {
      viable, out := LeafViable(s, root), tree;
    }
    if viable { out := out[root := s.blocks[root]]; }
  }

  /** The recursion into every child; it does not stop at the first viable one. */
  method FilterChildren(s: Store, root: Root, children: seq<Root>, tree: Blocks, index: map<Root, seq<Root>>)
    returns (anyViable: bool, out: Blocks)
    requires ParentsLower(s.blocks) && IsIndex(s.blocks, index) && SubTree(s, tree) && root in s.blocks
    requires forall c :: c in children ==> IsChild(s.blocks, c, root)
    ensures SubTree(s, out)
    ensures anyViable <==> AnyViable(s, children)
    ensures out.Keys == tree.Keys + FilteredUnder(s, children)
    decreases AtOrAbove(s.blocks, root), 0
  {
    anyViable, out := false, tree;
    for i := 0 to |children|
      invariant SubTree(s, out)
      invariant anyViable <==> AnyViable(s, children[..i])
      invariant out.Keys == tree.Keys + FilteredUnder(s, children[..i])
    {
      ChildIsAbove(s.blocks, root, children[i]);
      var v;
      v, out := FilterBlockTree(s, children[i], out, index);
      if v { anyViable := true; }
      UnderGrows(s, children, i);
      UnionAssociates(tree.Keys, FilteredUnder(s, children[..i]), Filtered(s, children[i]));
    }
    assert children[..|children|] == children;
  }

  lemma UnionAssociates(a: set<Root>, b: set<Root>, c: set<Root>)
    ensures (a + b) + c == a + (b + c)
  {
  }

  lemma NothingFiltered(s: Store, root: Root)
    requires ParentsLower(s.blocks) && (root !in s.blocks || IsInvalid(s, root))
    ensures Filtered(s, root) == {}
  {
    forall r: Root ensures !InFiltered(s, root, r) {
      if Clean(s, root, r) { CleanIsChain(s, root, r); }
    }
  }

  lemma UnderGrows(s: Store, cs: seq<Root>, i: nat)
    requires ParentsLower(s.blocks) && i < |cs|
    ensures FilteredUnder(s, cs[..i+1]) == FilteredUnder(s, cs[..i]) + Filtered(s, cs[i])
    ensures AnyViable(s, cs[..i+1]) <==> AnyViable(s, cs[..i]) || cs[i] in Filtered(s, cs[i])
  {
    assert cs[..i+1] == cs[..i] + [cs[i]];
  }

  lemma RootIsNotUnder(s: Store, root: Root, cs: seq<Root>)
    requires ParentsLower(s.blocks) && root in s.blocks
    requires forall c :: c in cs ==> IsChild(s.blocks, c, root)
    ensures root !in FilteredUnder(s, cs)
  {
    if root in FilteredUnder(s, cs) {
      var c :| c in cs && root in Filtered(s, c);
      CleanIsChain(s, c, root);
      OnChainLowers(s.blocks, c, root);
    }
  }

  // ── the head ────────────────────────────────────────────────────────────────

  /** `effective_base`: the justified root, or the finalized root while the former is unknown. */
  function Base(s: Store): Root {
    if s.justified.root in s.blocks then s.justified.root else s.finalized.root
  }

  /** `(weight, root)` order with the larger root breaking ties. */
  predicate Beats(s: Store, c: Root, d: Root)
    requires ParentsLower(s.blocks)
  {
    Weight(s, d) < Weight(s, c) || (Weight(s, d) == Weight(s, c) && d <= c)
  }

  ghost function FilteredChildren(s: Store, r: Root): set<Root>
    requires ParentsLower(s.blocks)
  {
    set c | c in s.blocks && s.blocks[c].parentRoot == r && InFiltered(s, Base(s), c)
  }

  ghost function Best(s: Store, cs: set<Root>): (c: Root)
    requires ParentsLower(s.blocks) && cs != {}
    ensures c in cs && forall d :: d in cs ==> Beats(s, c, d)
  {
    var x :| x in cs;
    var rest := cs - {x};
    assert cs == rest + {x};
    if rest == {} then x else
      var y := Best(s, rest);
      if Beats(s, x, y) then x else y
  }

  ghost function Descend(s: Store, r: Root): (h: Root)
    requires ParentsLower(s.blocks) && (r == Base(s) || InFiltered(s, Base(s), r))
    ensures OnChain(s.blocks, r, h) && FilteredChildren(s, h) == {}
    ensures h == r || InFiltered(s, Base(s), h)
    decreases AtOrAbove(s.blocks, r)
  {
    var cs := FilteredChildren(s, r);
    if cs == {} then r else
      var c := Best(s, cs);
      FilteredParent(s, r, c);
      ChildIsAbove(s.blocks, r, c);
      var h := Descend(s, c);
      OnChainTransitive(s.blocks, r, c, h);
      h
  }

  ghost function Head(s: Store): Root
    requires ParentsLower(s.blocks)
  {
    Descend(s, Base(s))
  }

  lemma FilteredParent(s: Store, p: Root, c: Root)
    requires ParentsLower(s.blocks) && c in FilteredChildren(s, p) && (p == Base(s) || InFiltered(s, Base(s), p))
    ensures p in s.blocks && InFiltered(s, Base(s), p)
  {
    var base := Base(s);
    if p != base { CleanIsChain(s, base, p); }
    assert c != base by { if c == base && p != base { OnChainLowers(s.blocks, c, p); } }
    assert Clean(s, base, p);
    var leaf :| ViableBelow(s, c, leaf);
    assert Clean(s, p, c) by { if p == base { CleanIsChain(s, base, c); } }
    CleanComposes(s, p, c, leaf);
    assert ViableBelow(s, p, leaf);
  }

  lemma BestIsUnique(s: Store, cs: set<Root>, c: Root)
    requires ParentsLower(s.blocks) && c in cs && forall d :: d in cs ==> Beats(s, c, d)
    ensures Best(s, cs) == c
  {
  }

  /** The index of the filtered tree lists the filtered children, and has no entry where there are none. */
  lemma IndexListsFiltered(s: Store, tree: Blocks, index: map<Root, seq<Root>>, r: Root)
    requires ParentsLower(s.blocks) && SubTree(s, tree) && tree.Keys == Filtered(s, Base(s)) && IsIndex(tree, index)
    ensures r in index ==> index[r] != [] && forall c :: c in index[r] <==> c in FilteredChildren(s, r)
    ensures r !in index ==> FilteredChildren(s, r) == {}
  {
    forall c: Root ensures IsChild(tree, c, r) <==> c in FilteredChildren(s, r) {}
    forall c: Root ensures IsChild(tree, c, r) ==> r in index {}
  }

  /** Going to the child that beats all filtered children is one step of the descent. */
  lemma DescendStep(s: Store, r: Root, best: Root)
    requires ParentsLower(s.blocks) && (r == Base(s) || InFiltered(s, Base(s), r))
    requires best in FilteredChildren(s, r) && forall d :: d in FilteredChildren(s, r) ==> Beats(s, best, d)
    ensures InFiltered(s, Base(s), best) && Descend(s, best) == Descend(s, r)
    ensures AtOrAbove(s.blocks, best) < AtOrAbove(s.blocks, r)
  {
    BestIsUnique(s, FilteredChildren(s, r), best);
    FilteredParent(s, r, best);
    ChildIsAbove(s.blocks, r, best);
  }

  /**
    `get_head`.  The children are visited in whatever order the hash map yields and
    weights are memoized; neither affects the answer.
   */
  method GetHead(s: Store) returns (head: Root)
    requires ParentsLower(s.blocks)
    ensures head == Head(s)
  {
    var storeIndex := ChildrenIndex(s.blocks);
    var viable, tree := FilterBlockTree(s, Base(s), map[], storeIndex);
    assert tree.Keys == Filtered(s, Base(s));
    var index := ChildrenIndex(tree);
    head := DescendTree(s, tree, index);
  }

  /** The descent over the filtered tree. */
  method DescendTree(s: Store, tree: Blocks, index: map<Root, seq<Root>>) returns (head: Root)
    requires ParentsLower(s.blocks) && SubTree(s, tree) && tree.Keys == Filtered(s, Base(s)) && IsIndex(tree, index)
    ensures head == Head(s)
  {
    var weights: map<Root, nat> := map[];
    head := Base(s);
    IndexListsFiltered(s, tree, index, head);
    while head in index
      invariant head == Base(s) || InFiltered(s, Base(s), head)
      invariant Descend(s, head) == Head(s)
      invariant head in index ==> index[head] != [] && forall c :: c in index[head] <==> c in FilteredChildren(s, head)
      invariant head !in index ==> FilteredChildren(s, head) == {}
      invariant forall r :: r in weights ==> weights[r] == Weight(s, r)
      decreases AtOrAbove(s.blocks, head)
    {
      var best;
      best, weights := HeaviestChild(s, index[head], weights);
      DescendStep(s, head, best);
      IndexListsFiltered(s, tree, index, best);
      head := best;
    }
  }

  /** `max_by_key` over `(weight, root)` with the per-call weight memo. */
  method HeaviestChild(s: Store, children: seq<Root>, memo: map<Root, nat>)
    returns (best: Root, weights: map<Root, nat>)
    requires ParentsLower(s.blocks) && children != []
    requires forall r :: r in memo ==> memo[r] == Weight(s, r)
    ensures best in children && forall d :: d in children ==> Beats(s, best, d)
    ensures forall r :: r in weights ==> weights[r] == Weight(s, r)
  {
    best, weights := children[0], memo;
    for i := 0 to |children|
      invariant best in children && forall d :: d in children[..i] ==> Beats(s, best, d)
      invariant forall r :: r in weights ==> weights[r] == Weight(s, r)
    {
      var c: Root := children[i];
      if c !in weights { weights := weights[c := Weight(s, c)]; }
      if best !in weights { weights := weights[best := Weight(s, best)]; }
      var (mine, top) := (weights[c], weights[best]);
      assert children[..i+1] == children[..i] + [c];
      if mine > top || (mine == top && c >= best) { best := c; }
    }
  }

  // ── what the head guarantees ────────────────────────────────────────────────

  /** With no viable branch the head is the base itself. */
  lemma HeadFallsBackToBase(s: Store)
    requires ParentsLower(s.blocks) && Base(s) !in Filtered(s, Base(s))
    ensures Head(s) == Base(s)
  {
    forall c: Root | c in FilteredChildren(s, Base(s)) ensures false { FilteredParent(s, Base(s), c); }
  }

  /** Otherwise it is a leaf of the whole store, viable, and joined to the base by valid blocks only. */
  lemma HeadIsViableLeaf(s: Store)
    requires ParentsLower(s.blocks) && Base(s) in Filtered(s, Base(s))
    ensures ViableBelow(s, Base(s), Head(s))
  {
    var head := Head(s);
    var leaf :| ViableBelow(s, head, leaf);
    if leaf != head { InnerBlockHasChild(s, head, leaf); }
  }

  lemma InnerBlockHasChild(s: Store, r: Root, leaf: Root)
    requires ParentsLower(s.blocks) && InFiltered(s, Base(s), r) && ViableBelow(s, r, leaf) && r != leaf
    ensures FilteredChildren(s, r) != {}
  {
    var c := CleanFirstStep(s, r, leaf);
    CleanIsChain(s, c, leaf);
    CleanComposes(s, Base(s), r, c);
    assert ViableBelow(s, c, leaf);
    assert c in FilteredChildren(s, r);
  }

  /** A head with a viable branch descends from the finalized block (unless nothing past genesis is finalized). */
  lemma HeadExtendsFinalized(s: Store)
    requires ParentsLower(s.blocks) && Base(s) in Filtered(s, Base(s)) && s.finalized.epoch != 0
    ensures OnChain(s.blocks, s.finalized.root, Head(s))
  {
    HeadIsViableLeaf(s);
  }

  /** Every block on the way from `a` down to `b` outweighs each of its siblings. */
  ghost predicate Dominant(s: Store, a: Root, b: Root)
    requires ParentsLower(s.blocks)
    decreases Height(s.blocks, b)
  {
    a == b || (b in s.blocks
               && (forall d :: IsChild(s.blocks, d, s.blocks[b].parentRoot) && d != b ==> Weight(s, b) > Weight(s, d))
               && Dominant(s, a, s.blocks[b].parentRoot))
  }

  lemma {:induction false} DominantFirstStep(s: Store, a: Root, b: Root) returns (c: Root)
    requires ParentsLower(s.blocks) && Dominant(s, a, b) && Clean(s, a, b) && a != b
    ensures IsChild(s.blocks, c, a) && Clean(s, a, c) && Clean(s, c, b) && Dominant(s, c, b)
    ensures forall d :: IsChild(s.blocks, d, a) && d != c ==> Weight(s, c) > Weight(s, d)
    decreases Height(s.blocks, b)
  {
    var p := s.blocks[b].parentRoot;
    if p == a { c := b; } else { c := DominantFirstStep(s, a, p); }
  }

  /** Greedy descent follows a dominant path to its end. */
  lemma {:induction false} DescentFollowsDominant(s: Store, a: Root, b: Root)
    requires ParentsLower(s.blocks) && (a == Base(s) || InFiltered(s, Base(s), a))
    requires Dominant(s, a, b) && Clean(s, a, b) && b in Filtered(s, Base(s))
    ensures OnChain(s.blocks, b, Descend(s, a))
    decreases AtOrAbove(s.blocks, a)
  {
    if a != b {
      var c := DominantFirstStep(s, a, b);
      if a != Base(s) { CleanComposes(s, Base(s), a, c); }
      var leaf :| ViableBelow(s, b, leaf);
      CleanComposes(s, c, b, leaf);
      assert ViableBelow(s, c, leaf);
      CleanIsChain(s, a, c);
      assert c in FilteredChildren(s, a);
      BestIsUnique(s, FilteredChildren(s, a), c);
      ChildIsAbove(s.blocks, a, c);
      DescentFollowsDominant(s, c, b);
    }
  }

  lemma DominantIsCanonical(s: Store, b: Root)
    requires ParentsLower(s.blocks) && b in Filtered(s, Base(s)) && Dominant(s, Base(s), b)
    ensures OnChain(s.blocks, b, Head(s))
  {
    CleanIsChain(s, Base(s), b);
    DescentFollowsDominant(s, Base(s), b);
  }

  /** Support of `b` beyond half of all votes plus the boost makes its whole path dominant. */
  lemma {:induction false} MajorityIsDominant(s: Store, a: Root, x: Root, b: Root)
    requires ParentsLower(s.blocks) && s.justified in s.checkpointStates && b in s.blocks && x in s.blocks
    requires OnChain(s.blocks, x, b) && Clean(s, a, x)
    requires var state := s.checkpointStates[s.justified];
             2 * AttestationScore(s, b, state)
             > Balance(state.validators, Voters(s, state)) + ProposerScore(s.preset, state)
    ensures Dominant(s, a, x)
    decreases Height(s.blocks, x)
  {
    if a != x {
      var state, p := s.checkpointStates[s.justified], s.blocks[x].parentRoot;
      AncestorScoresMore(s, state, x, b);
      forall d | IsChild(s.blocks, d, p) && d != x ensures Weight(s, x) > Weight(s, d) {
        OnlyOneMajority(s, state, p, x, d);
      }
      OnChainTransitive(s.blocks, p, x, b);
      MajorityIsDominant(s, a, p, b);
    }
  }

  lemma OnlyOneMajority(s: Store, state: BeaconState, p: Root, x: Root, d: Root)
    requires ParentsLower(s.blocks) && p in s.blocks && IsChild(s.blocks, x, p) && IsChild(s.blocks, d, p) && x != d
    ensures AttestationScore(s, x, state) + AttestationScore(s, d, state) <= Balance(state.validators, Voters(s, state))
  {
    forall i | i in Supporters(s, state, x) && i in Supporters(s, state, d) ensures false {
      SupportIsDescent(s, state, x);
      SupportIsDescent(s, state, d);
      ChildrenDisjoint(s.blocks, p, x, d, s.latestMessages[i].root);
    }
    BalanceSplits(state.validators, Supporters(s, state, x), Supporters(s, state, d));
    BalanceMonotone(state.validators, Supporters(s, state, x) + Supporters(s, state, d), Voters(s, state));
  }

  /** A viable block voted for by more than half of the voting balance plus the boost is on the head's chain. */
  lemma MajorityIsCanonical(s: Store, b: Root)
    requires ParentsLower(s.blocks) && s.justified in s.checkpointStates && b in Filtered(s, Base(s))
    requires var state := s.checkpointStates[s.justified];
             2 * AttestationScore(s, b, state)
             > Balance(state.validators, Voters(s, state)) + ProposerScore(s.preset, state)
    ensures OnChain(s.blocks, b, Head(s))
  {
    MajorityIsDominant(s, Base(s), b, b);
    DominantIsCanonical(s, b);
  }
}
