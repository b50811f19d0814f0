/**
  What picks the head out of the filtered tree: at every fork on its way the heavier branch,
  ties to the larger root, with votes and the proposer boost both counted
  (`crates/pharos-fork-choice/src/get_head.rs`).
 */
module HeadLaws {
  import opened Types
  import opened Ancestry
  import opened Weights
  import opened HeadSelection

  /** `c` is strictly preferred to `d`. */
  predicate Preferred(s: Store, c: Root, d: Root)
    requires ParentsLower(s.blocks)
  {
    Weight(s, c) > Weight(s, d) || (Weight(s, c) == Weight(s, d) && c > d)
  }

  /** `c` is a filtered child of `p` preferred to every other one. */
  ghost predicate Wins(s: Store, p: Root, c: Root)
    requires ParentsLower(s.blocks)
  {
    c in FilteredChildren(s, p) && forall d :: d in FilteredChildren(s, p) && d != c ==> Preferred(s, c, d)
  }

  /** Every block from `a` (exclusive) up to `h` wins the fork at its parent, and nothing filtered extends `h`. */
  ghost predicate Greedy(s: Store, a: Root, h: Root)
    requires ParentsLower(s.blocks)
  {
    WinsUpTo(s, a, h) && FilteredChildren(s, h) == {}
  }

  ghost predicate WinsUpTo(s: Store, a: Root, h: Root)
    requires ParentsLower(s.blocks)
    decreases Height(s.blocks, h)
  {
    a == h || (h in s.blocks && Wins(s, s.blocks[h].parentRoot, h) && WinsUpTo(s, a, s.blocks[h].parentRoot))
  }

  lemma {:induction false} WinsCompose(s: Store, a: Root, b: Root, c: Root)
    requires ParentsLower(s.blocks) && WinsUpTo(s, a, b) && WinsUpTo(s, b, c)
    ensures WinsUpTo(s, a, c)
    decreases Height(s.blocks, c)
  {
    if b != c { WinsCompose(s, a, b, s.blocks[c].parentRoot); }
  }

  lemma {:induction false} DescentIsGreedy(s: Store, r: Root)
    requires ParentsLower(s.blocks) && (r == Base(s) || InFiltered(s, Base(s), r))
    ensures Greedy(s, r, Descend(s, r))
    decreases AtOrAbove(s.blocks, r)
  {
    var cs := FilteredChildren(s, r);
    if cs != {} {
      var c := Best(s, cs);
      FilteredParent(s, r, c);
      ChildIsAbove(s.blocks, r, c);
      DescentIsGreedy(s, c);
      assert Wins(s, r, c);
      assert WinsUpTo(s, r, r) && WinsUpTo(s, r, c);
      WinsCompose(s, r, c, Descend(s, c));
    }
  }

  lemma {:induction false} FirstWin(s: Store, a: Root, h: Root) returns (c: Root)
    requires ParentsLower(s.blocks) && WinsUpTo(s, a, h) && a != h
    ensures Wins(s, a, c) && WinsUpTo(s, c, h)
    decreases Height(s.blocks, h)
  {
    var p := s.blocks[h].parentRoot;
    if p == a { c := h; } else { c := FirstWin(s, a, p); }
  }

  lemma {:induction false} GreedyIsDescent(s: Store, r: Root, h: Root)
    requires ParentsLower(s.blocks) && (r == Base(s) || InFiltered(s, Base(s), r)) && Greedy(s, r, h)
    ensures Descend(s, r) == h
    decreases AtOrAbove(s.blocks, r)
  {
    if r != h {
      var c := FirstWin(s, r, h);
      assert forall d :: d in FilteredChildren(s, r) ==> Beats(s, c, d);
      DescendStep(s, r, c);
      GreedyIsDescent(s, c, h);
    }
  }

  /** The head is the one block that wins every fork from the base on and has no filtered child. */
  lemma HeadIffGreedy(s: Store, h: Root)
    requires ParentsLower(s.blocks)
    ensures h == Head(s) <==> Greedy(s, Base(s), h)
  {
    DescentIsGreedy(s, Base(s));
    if Greedy(s, Base(s), h) { GreedyIsDescent(s, Base(s), h); }
  }

  lemma {:induction false} WinnerOnTheWay(s: Store, a: Root, p: Root, h: Root)
    requires ParentsLower(s.blocks) && WinsUpTo(s, a, h)
    requires OnChain(s.blocks, a, p) && OnChain(s.blocks, p, h) && p != h && p in s.blocks
    ensures Wins(s, p, Towards(s.blocks, p, h))
    decreases Height(s.blocks, h)
  {
    var q := s.blocks[h].parentRoot;
    if a == h {
      OnChainLowers(s.blocks, p, h);
      OnChainLowers(s.blocks, a, p);
    } else if q != p {
      WinnerOnTheWay(s, a, p, q);
    }
  }

  /** At a fork the head goes to the boosted side when no other side leads it by the whole boost. */
  lemma BoostDecidesHead(s: Store, p: Root, c: Root)
    requires ParentsLower(s.blocks) && s.justified in s.checkpointStates && s.boostRoot != ZERO_ROOT
    requires OnChain(s.blocks, Base(s), p) && OnChain(s.blocks, p, Head(s)) && p in s.blocks
    requires c in FilteredChildren(s, p) && OnChain(s.blocks, c, s.boostRoot)
    requires var state := s.checkpointStates[s.justified];
             forall d :: d in FilteredChildren(s, p) && d != c ==>
               AttestationScore(s, c, state) + ProposerScore(s.preset, state) > AttestationScore(s, d, state)
    ensures OnChain(s.blocks, c, Head(s))
  {
    HeadIffGreedy(s, Head(s));
    var n := Towards(s.blocks, p, Head(s));
    WinnerOnTheWay(s, Base(s), p, Head(s));
    if n != c {
      assert Preferred(s, n, c);
      BoostBeats(s, p, c, n);
    }
  }

  /** The head descends from the justified block, whenever that block is known. */
  lemma HeadExtendsJustified(s: Store)
    requires ParentsLower(s.blocks) && s.justified.root in s.blocks
    ensures OnChain(s.blocks, s.justified.root, Head(s))
  {
  }

  /** With a viable branch the head votes from the justified epoch or from one of the last two. */
  lemma HeadVotesRecently(s: Store)
    requires ParentsLower(s.blocks) && Base(s) in Filtered(s, Base(s)) && s.justified.epoch != 0
    ensures var source := VotingSource(s, Head(s)).epoch;
            source == s.justified.epoch || CurrentEpoch(s) <= source + 2
  {
    HeadIsViableLeaf(s);
  }

  /** A leaf that descends cleanly from the base and meets both rules keeps its whole branch in the filtered tree. */
  lemma ViableLeafIsKept(s: Store, leaf: Root, r: Root)
    requires ParentsLower(s.blocks) && IsLeaf(s.blocks, leaf) && Clean(s, Base(s), r) && Clean(s, r, leaf)
    requires s.justified.epoch == 0 || VotingSource(s, leaf).epoch == s.justified.epoch
             || CurrentEpoch(s) <= VotingSource(s, leaf).epoch + 2
    requires s.finalized.epoch == 0
             || (s.finalized.root in s.blocks && OnChain(s.blocks, s.finalized.root, leaf)
                 && s.blocks[s.finalized.root].slot == StartSlot(s.preset, s.finalized.epoch))
    ensures r in Filtered(s, Base(s))
  {
    if s.finalized.epoch != 0 { WalkDecidesAncestry(s.blocks, s.finalized.root, leaf); }
    assert ViableBelow(s, r, leaf);
  }
}
