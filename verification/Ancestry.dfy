/**
  The block tree of the store: parent links, the slot-bounded ancestor walk of
  `crates/pharos-fork-choice/src/get_head.rs`, and the fact that the walk decides
  true ancestry whenever parent links strictly lower the slot.
 */
module Ancestry {
  import opened Types

  type Blocks = map<Root, Block>

  /** Every in-store parent has a smaller slot.  Without it `get_ancestor` may not terminate. */
  ghost predicate ParentsLower(blocks: Blocks) {
    forall r {:trigger blocks[blocks[r].parentRoot]} ::
      r in blocks && blocks[r].parentRoot in blocks ==> blocks[blocks[r].parentRoot].slot < blocks[r].slot
  }

  ghost function Height(blocks: Blocks, r: Root): nat {
    if r in blocks then blocks[r].slot + 1 else 0
  }

  /** `a` is `r` itself or is reached from `r` by parent links of stored blocks. */
  ghost predicate OnChain(blocks: Blocks, a: Root, r: Root)
    requires ParentsLower(blocks)
    decreases Height(blocks, r)
  {
    a == r || (r in blocks && OnChain(blocks, a, blocks[r].parentRoot))
  }

  ghost predicate IsChild(blocks: Blocks, c: Root, p: Root) {
    c in blocks && blocks[c].parentRoot == p
  }

  /** `get_ancestor`: the first block at or below `slot` met when walking towards genesis. */
  function Ancestor(blocks: Blocks, r: Root, slot: Slot): (a: Root)
    requires ParentsLower(blocks)
    ensures OnChain(blocks, a, r)
    ensures a in blocks ==> blocks[a].slot <= slot
    decreases Height(blocks, r)
  {
    if r in blocks && blocks[r].slot > slot then Ancestor(blocks, blocks[r].parentRoot, slot) else r
  }

  /** The walk itself, as the source runs it. */
  method GetAncestor(blocks: Blocks, root: Root, slot: Slot) returns (cur: Root)
    requires ParentsLower(blocks)
    ensures cur == Ancestor(blocks, root, slot)
  {
    cur := root;
    while true
      invariant Ancestor(blocks, cur, slot) == Ancestor(blocks, root, slot)
      decreases Height(blocks, cur)
    {
      if cur !in blocks { return; }
      if blocks[cur].slot > slot { cur := blocks[cur].parentRoot; } else { return; }
    }
  }

  lemma {:induction false} OnChainTransitive(blocks: Blocks, a: Root, b: Root, c: Root)
    requires ParentsLower(blocks) && OnChain(blocks, a, b) && OnChain(blocks, b, c)
    ensures OnChain(blocks, a, c)
    decreases Height(blocks, c)
  {
    if b != c { OnChainTransitive(blocks, a, b, blocks[c].parentRoot); }
  }

  /** A proper ancestor has a strictly smaller slot. */
  lemma {:induction false} OnChainLowers(blocks: Blocks, a: Root, r: Root)
    requires ParentsLower(blocks) && OnChain(blocks, a, r) && a != r && a in blocks
    ensures r in blocks && blocks[a].slot < blocks[r].slot
    decreases Height(blocks, r)
  {
    var p := blocks[r].parentRoot;
    if a != p { OnChainLowers(blocks, a, p); }
  }

  /** The slot-bounded walk finds `a` exactly when `a` is an ancestor-or-self. */
  lemma {:induction false} WalkDecidesAncestry(blocks: Blocks, a: Root, r: Root)
    requires ParentsLower(blocks) && a in blocks
    ensures Ancestor(blocks, r, blocks[a].slot) == a <==> OnChain(blocks, a, r)
    decreases Height(blocks, r)
  {
    if a != r {
      if OnChain(blocks, a, r) { OnChainLowers(blocks, a, r); }
      if r in blocks && blocks[r].slot > blocks[a].slot { WalkDecidesAncestry(blocks, a, blocks[r].parentRoot); }
    }
  }

  /** `a` is on the chain of `r`, not above `slot`, and the last such block: every other one is below it. */
  ghost predicate LastUpTo(blocks: Blocks, a: Root, r: Root, slot: Slot)
    requires ParentsLower(blocks)
  {
    && OnChain(blocks, a, r) && (a in blocks ==> blocks[a].slot <= slot)
    && forall x :: x in blocks && blocks[x].slot <= slot && OnChain(blocks, x, r) ==> OnChain(blocks, x, a)
  }

  lemma {:induction false} WalkSkipsNothing(blocks: Blocks, x: Root, r: Root, slot: Slot)
    requires ParentsLower(blocks) && OnChain(blocks, x, r) && (x in blocks ==> blocks[x].slot <= slot)
    ensures OnChain(blocks, x, Ancestor(blocks, r, slot))
    decreases Height(blocks, r)
  {
    if r in blocks && blocks[r].slot > slot { WalkSkipsNothing(blocks, x, blocks[r].parentRoot, slot); }
  }

  /** The walk to any slot returns the last block of the chain up to that slot, and nothing else. */
  lemma WalkFindsLast(blocks: Blocks, a: Root, r: Root, slot: Slot)
    requires ParentsLower(blocks)
    ensures Ancestor(blocks, r, slot) == a <==> LastUpTo(blocks, a, r, slot)
  {
    var b := Ancestor(blocks, r, slot);
    forall x | x in blocks && blocks[x].slot <= slot && OnChain(blocks, x, r) ensures OnChain(blocks, x, b) {
      WalkSkipsNothing(blocks, x, r, slot);
    }
    if LastUpTo(blocks, a, r, slot) && a != b {
      WalkSkipsNothing(blocks, a, r, slot);
      if a in blocks { OnChainLowers(blocks, a, b); }
      if b in blocks && a in blocks { OnChainLowers(blocks, b, a); }
    }
  }

  /** Two walks compose: the lower bound decides. */
  lemma {:induction false} WalksCompose(blocks: Blocks, r: Root, high: Slot, low: Slot)
    requires ParentsLower(blocks) && low <= high
    ensures Ancestor(blocks, Ancestor(blocks, r, high), low) == Ancestor(blocks, r, low)
    decreases Height(blocks, r)
  {
    if r in blocks && blocks[r].slot > high { WalksCompose(blocks, blocks[r].parentRoot, high, low); }
  }

  /** The chain above any block is a line: two ancestors of one block are comparable. */
  lemma {:induction false} AncestorsComparable(blocks: Blocks, a: Root, b: Root, r: Root)
    requires ParentsLower(blocks) && OnChain(blocks, a, r) && OnChain(blocks, b, r)
    ensures OnChain(blocks, a, b) || OnChain(blocks, b, a)
    decreases Height(blocks, r)
  {
    if a != r && b != r { AncestorsComparable(blocks, a, b, blocks[r].parentRoot); }
  }

  /** The child of `a` on the way down to a proper descendant `r`; it is the only one. */
  ghost function Towards(blocks: Blocks, a: Root, r: Root): (c: Root)
    requires ParentsLower(blocks) && OnChain(blocks, a, r) && a != r
    ensures IsChild(blocks, c, a) && OnChain(blocks, c, r)
    decreases Height(blocks, r)
  {
    if blocks[r].parentRoot == a then r else Towards(blocks, a, blocks[r].parentRoot)
  }

  lemma ChildrenDisjoint(blocks: Blocks, p: Root, c: Root, d: Root, r: Root)
    requires ParentsLower(blocks) && p in blocks && IsChild(blocks, c, p) && IsChild(blocks, d, p)
    requires OnChain(blocks, c, r) && OnChain(blocks, d, r)
    ensures c == d
  {
    if c != d {
      AncestorsComparable(blocks, c, d, r);
      var lo, hi := if OnChain(blocks, c, d) then c else d, if OnChain(blocks, c, d) then d else c;
      assert OnChain(blocks, lo, p);
      assert p != lo;
      OnChainLowers(blocks, lo, p);
      assert false;
    }
  }

  /** Inserting a fresh leaf keeps every walk that starts at an old block. */
  lemma {:induction false} ExtendKeepsAncestor(blocks: Blocks, bigger: Blocks, r: Root, slot: Slot)
    requires ParentsLower(blocks) && ParentsLower(bigger)
    requires forall x :: x in blocks ==> x in bigger && bigger[x] == blocks[x]
    requires r in blocks && Ancestor(blocks, r, slot) in blocks
    ensures Ancestor(bigger, r, slot) == Ancestor(blocks, r, slot)
    decreases Height(blocks, r)
  {
    if blocks[r].slot > slot && blocks[r].parentRoot in blocks {
      ExtendKeepsAncestor(blocks, bigger, blocks[r].parentRoot, slot);
    }
  }

  lemma {:induction false} ExtendKeepsChain(blocks: Blocks, bigger: Blocks, a: Root, r: Root)
    requires ParentsLower(blocks) && ParentsLower(bigger)
    requires forall x :: x in blocks ==> x in bigger && bigger[x] == blocks[x]
    requires OnChain(blocks, a, r)
    ensures OnChain(bigger, a, r)
    decreases Height(blocks, r)
  {
    if a != r { ExtendKeepsChain(blocks, bigger, a, blocks[r].parentRoot); }
  }
}
