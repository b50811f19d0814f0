/**
  `fork_choice_heads` of `crates/pharos-api/src/state.rs`: the blocks that are nobody's
  parent, each with its own optimistic flag.
 */
module Heads {
  import opened Types
  import opened Ancestry
  import opened HeadSelection
  import Optimistic

  datatype Listed = Listed(slot: Slot, optimistic: bool)

  function ParentRoots(blocks: Blocks): set<Root> {
    set r | r in blocks :: blocks[r].parentRoot
  }

  function ForkChoiceHeads(s: Store): map<Root, Listed> {
    map r | r in s.blocks && r !in ParentRoots(s.blocks) ::
      Listed(s.blocks[r].slot, Optimistic.IsOptimistic(s, r))
  }

  lemma ListedIffNoChild(s: Store, r: Root)
    ensures r in ForkChoiceHeads(s) <==> IsLeaf(s.blocks, r)
  {
    if r in s.blocks && r in ParentRoots(s.blocks) {
      var c :| c in s.blocks && s.blocks[c].parentRoot == r;
      assert IsChild(s.blocks, c, r);
    }
    if c :| IsChild(s.blocks, c, r) {
      assert s.blocks[c].parentRoot in ParentRoots(s.blocks);
    }
  }

  /** The stored blocks later than `r`: the climb from `r` to a head stays among them. */
  ghost function Later(blocks: Blocks, r: Root): set<Root>
    requires r in blocks
  {
    set b | b in blocks && blocks[b].slot > blocks[r].slot
  }

  lemma {:induction false} HeadAbove(s: Store, r: Root) returns (head: Root)
    requires ParentsLower(s.blocks) && r in s.blocks
    ensures head in ForkChoiceHeads(s) && OnChain(s.blocks, r, head)
    decreases |Later(s.blocks, r)|
  {
    if r !in ParentRoots(s.blocks) {
      head := r;
    } else {
      var c :| c in s.blocks && s.blocks[c].parentRoot == r;
      assert c in Later(s.blocks, r) && c !in Later(s.blocks, c);
      assert Later(s.blocks, c) < Later(s.blocks, r);
      FewerLater(Later(s.blocks, c), Later(s.blocks, r));
      head := HeadAbove(s, c);
      assert OnChain(s.blocks, r, c);
      OnChainTransitive(s.blocks, r, c, head);
    }
  }

  lemma {:induction false} FewerLater<T>(a: set<T>, b: set<T>)
    requires a < b
    ensures |a| < |b|
  {
    if a != {} {
      var x :| x in a;
      FewerLater(a - {x}, b - {x});
    }
  }

  ghost predicate Covered(s: Store, r: Root)
    requires ParentsLower(s.blocks)
  {
    exists head :: head in ForkChoiceHeads(s) && OnChain(s.blocks, r, head)
  }

  /** Every stored block is on the chain of some listed head. */
  lemma HeadsCoverTheTree(s: Store)
    requires ParentsLower(s.blocks)
    ensures forall r :: r in s.blocks ==> Covered(s, r)
    ensures s.blocks.Keys != {} ==> ForkChoiceHeads(s).Keys != {}
  {
    forall r | r in s.blocks ensures Covered(s, r) && ForkChoiceHeads(s).Keys != {} {
      var head := HeadAbove(s, r);
    }
  }

  /** No listed head is a proper ancestor of a stored block. */
  lemma {:induction false} HeadsAreTips(s: Store, head: Root, r: Root)
    requires ParentsLower(s.blocks) && head in ForkChoiceHeads(s)
    requires OnChain(s.blocks, head, r)
    ensures r == head
    decreases Height(s.blocks, r)
  {
    ListedIffNoChild(s, head);
    assert !IsChild(s.blocks, r, head);
    if r != head { HeadsAreTips(s, head, s.blocks[r].parentRoot); }
  }

  /** Listed is the same as being a stored block without a descendant. */
  lemma ListedIffTip(s: Store, r: Root)
    requires ParentsLower(s.blocks) && r in s.blocks
    ensures r in ForkChoiceHeads(s) <==> forall d :: d in s.blocks && OnChain(s.blocks, r, d) ==> d == r
  {
    if r in ForkChoiceHeads(s) {
      forall d | d in s.blocks && OnChain(s.blocks, r, d) ensures d == r { HeadsAreTips(s, r, d); }
    } else {
      var head := HeadAbove(s, r);
      assert OnChain(s.blocks, r, head) && head != r;
    }
  }

  /** Whenever a viable branch exists, the head that fork choice selects is listed. */
  lemma SelectedHeadIsListed(s: Store)
    requires ParentsLower(s.blocks) && Base(s) in Filtered(s, Base(s))
    ensures Head(s) in ForkChoiceHeads(s)
  {
    HeadIsViableLeaf(s);
    ListedIffNoChild(s, Head(s));
  }
}
