/**
  How far `find_latest_confirmed_descendant` of
  `crates/pharos-fork-choice/src/fast_confirmation.rs` goes: each of its two stages ends at the
  furthest block of the head's chain that its rule lets it reach.
 */
module SearchReach {
  import opened Types
  import opened Ancestry
  import opened HeadSelection
  import opened Handlers
  import opened FastConfirmation

  // ── the furthest block reached through good blocks ──────────────────────────

  /** Every block from `a` (exclusive) up to `x` is stored and good. */
  ghost predicate AllGood(blocks: Blocks, good: set<Root>, a: Root, x: Root)
    requires ParentsLower(blocks)
    decreases Height(blocks, x)
  {
    a == x || (x in blocks && x in good && AllGood(blocks, good, a, blocks[x].parentRoot))
  }

  /** The first block met from `head` downwards to which all is good from `a` on; `a` itself off its chain. */
  ghost function Furthest(blocks: Blocks, good: set<Root>, a: Root, head: Root): Root
    requires ParentsLower(blocks)
    decreases Height(blocks, head)
  {
    if AllGood(blocks, good, a, head) then head
    else if head !in blocks then a
    else Furthest(blocks, good, a, blocks[head].parentRoot)
  }

  lemma {:induction false} AllGoodBelow(blocks: Blocks, good: set<Root>, a: Root, x: Root, y: Root)
    requires ParentsLower(blocks) && a in blocks
    requires AllGood(blocks, good, a, y) && OnChain(blocks, a, x) && OnChain(blocks, x, y)
    ensures AllGood(blocks, good, a, x)
    decreases Height(blocks, y)
  {
    if x != y && a != y {
      AllGoodBelow(blocks, good, a, x, blocks[y].parentRoot);
    } else if a == y && x != a {
      OnChainLowers(blocks, a, x);
      OnChainLowers(blocks, x, a);
    }
  }

  /** A block of the chain is reached exactly when all blocks up to it are good. */
  lemma {:induction false} FurthestIff(blocks: Blocks, good: set<Root>, a: Root, head: Root, x: Root)
    requires ParentsLower(blocks) && a in blocks && OnChain(blocks, a, x) && OnChain(blocks, x, head)
    ensures OnChain(blocks, x, Furthest(blocks, good, a, head)) <==> AllGood(blocks, good, a, x)
    decreases Height(blocks, head)
  {
    if AllGood(blocks, good, a, head) {
      AllGoodBelow(blocks, good, a, x, head);
    } else if x == head {
      OnChainTransitive(blocks, a, x, head);
      FurthestIsBelow(blocks, good, a, blocks[head].parentRoot);
      if OnChain(blocks, head, Furthest(blocks, good, a, blocks[head].parentRoot)) {
        OnChainTransitive(blocks, head, Furthest(blocks, good, a, blocks[head].parentRoot), blocks[head].parentRoot);
        if head != blocks[head].parentRoot { OnChainLowers(blocks, head, blocks[head].parentRoot); }
      }
    } else {
      FurthestIff(blocks, good, a, blocks[head].parentRoot, x);
    }
  }

  lemma {:induction false} FurthestIsBelow(blocks: Blocks, good: set<Root>, a: Root, head: Root)
    requires ParentsLower(blocks) && OnChain(blocks, a, head)
    ensures var f := Furthest(blocks, good, a, head);
            OnChain(blocks, f, head) && AllGood(blocks, good, a, f)
    decreases Height(blocks, head)
  {
    if !AllGood(blocks, good, a, head) {
      FurthestIsBelow(blocks, good, a, blocks[head].parentRoot);
    }
  }

  lemma {:induction false} AllGoodIsChain(blocks: Blocks, good: set<Root>, a: Root, x: Root)
    requires ParentsLower(blocks)
    ensures AllGood(blocks, good, a, x) ==> OnChain(blocks, a, x) && (x == a || x in blocks)
    decreases Height(blocks, x)
  {
    if a != x && x in blocks { AllGoodIsChain(blocks, good, a, blocks[x].parentRoot); }
  }

  /** The next block towards the head is not good. */
  lemma FurthestStops(blocks: Blocks, good: set<Root>, a: Root, head: Root)
    requires ParentsLower(blocks) && a in blocks && OnChain(blocks, a, head) && Furthest(blocks, good, a, head) != head
    ensures OnChain(blocks, Furthest(blocks, good, a, head), head)
    ensures Towards(blocks, Furthest(blocks, good, a, head), head) !in good
  {
    var f := Furthest(blocks, good, a, head);
    FurthestIsBelow(blocks, good, a, head);
    AllGoodIsChain(blocks, good, a, f);
    var next := Towards(blocks, f, head);
    assert OnChain(blocks, f, next);
    OnChainTransitive(blocks, a, f, next);
    if next in good {
      NextIsGood(blocks, good, a, next);
      FurthestIff(blocks, good, a, head, next);
      OnChainLowers(blocks, next, f);
      assert false;
    }
  }

  lemma NextIsGood(blocks: Blocks, good: set<Root>, a: Root, next: Root)
    requires ParentsLower(blocks) && next in blocks && next in good && AllGood(blocks, good, a, blocks[next].parentRoot)
    ensures AllGood(blocks, good, a, next)
  {
  }

  // ── the list the loops walk ─────────────────────────────────────────────────

  function Below(xs: seq<Root>, start: Root, k: nat): Root
    requires k <= |xs|
  {
    if k == 0 then start else xs[k - 1]
  }

  /** `xs` runs from a child of `start` upwards. */
  ghost predicate Linked(blocks: Blocks, xs: seq<Root>, start: Root) {
    forall k :: 0 <= k < |xs| ==> xs[k] in blocks && blocks[xs[k]].parentRoot == Below(xs, start, k)
  }

  lemma {:induction false} RootsAreComplete(s: Store, head: Root, start: Root)
    requires ParentsLower(s.blocks) && start in s.blocks && OnChain(s.blocks, start, head) && start != head
    ensures RootsAbove(s, head, start).Some?
    decreases Height(s.blocks, head)
  {
    OnChainLowers(s.blocks, start, head);
    var p := s.blocks[head].parentRoot;
    if p != start { RootsAreComplete(s, p, start); }
  }

  /** The roots above `start`: linked, and ending at the head unless the head is `start` or not above it. */
  lemma RootsAreLinked(s: Store, head: Root, start: Root)
    requires ParentsLower(s.blocks) && start in s.blocks
    ensures var xs := AncestorRoots(s, head, start);
            Linked(s.blocks, xs, start)
            && (if OnChain(s.blocks, start, head) && start != head then xs != [] && xs[|xs| - 1] == head else xs == [])
  {
    var xs := AncestorRoots(s, head, start);
    if OnChain(s.blocks, start, head) && start != head { RootsAreComplete(s, head, start); }
    if RootsAbove(s, head, start).Some? {
      RootsAboveMeans(s, head, start);
      ChainedFrom(s, xs, head, start, |xs| - 1);
    }
  }

  lemma {:induction false} LinkedIsChain(blocks: Blocks, xs: seq<Root>, start: Root, j: nat)
    requires ParentsLower(blocks) && Linked(blocks, xs, start) && j <= |xs|
    ensures OnChain(blocks, start, Below(xs, start, j))
  {
    if j > 0 {
      LinkedIsChain(blocks, xs, start, j - 1);
      assert blocks[xs[j - 1]].parentRoot == Below(xs, start, j - 1);
    }
  }

  lemma {:induction false} GoodPrefix(blocks: Blocks, good: set<Root>, xs: seq<Root>, start: Root, k: nat)
    requires ParentsLower(blocks) && Linked(blocks, xs, start) && k <= |xs|
    requires forall i :: 0 <= i < k ==> xs[i] in good
    ensures AllGood(blocks, good, start, Below(xs, start, k))
  {
    if k > 0 {
      GoodPrefix(blocks, good, xs, start, k - 1);
      assert blocks[xs[k - 1]].parentRoot == Below(xs, start, k - 1);
    }
  }

  lemma StartIsNotListed(blocks: Blocks, xs: seq<Root>, start: Root, k: nat)
    requires ParentsLower(blocks) && Linked(blocks, xs, start) && start in blocks && k < |xs|
    ensures start != xs[k]
  {
    var p := Below(xs, start, k);
    LinkedIsChain(blocks, xs, start, k);
    assert blocks[xs[k]].parentRoot == p;
    if start == xs[k] && start != p { OnChainLowers(blocks, start, p); }
  }

  lemma {:induction false} BadStops(blocks: Blocks, good: set<Root>, xs: seq<Root>, start: Root, k: nat, n: nat)
    requires ParentsLower(blocks) && Linked(blocks, xs, start) && start in blocks && k < n <= |xs| && xs[k] !in good
    ensures !AllGood(blocks, good, start, Below(xs, start, n))
    decreases n
  {
    StartIsNotListed(blocks, xs, start, n - 1);
    assert blocks[xs[n - 1]].parentRoot == Below(xs, start, n - 1);
    if k < n - 1 { BadStops(blocks, good, xs, start, k, n - 1); }
  }

  /** A walk that passes `k` good blocks and then meets a bad one or the end has reached the furthest block. */
  lemma {:induction false} StopIsFurthest(blocks: Blocks, good: set<Root>, xs: seq<Root>, start: Root, k: nat, n: nat)
    requires ParentsLower(blocks) && Linked(blocks, xs, start) && start in blocks && k <= n <= |xs|
    requires forall i :: 0 <= i < k ==> xs[i] in good
    requires k < |xs| ==> xs[k] !in good
    ensures Furthest(blocks, good, start, Below(xs, start, n)) == Below(xs, start, k)
    decreases n
  {
    if k == n {
      GoodPrefix(blocks, good, xs, start, k);
    } else {
      BadStops(blocks, good, xs, start, k, n);
      assert blocks[xs[n - 1]].parentRoot == Below(xs, start, n - 1);
      StopIsFurthest(blocks, good, xs, start, k, n - 1);
    }
  }

  /** A loop that goes on while the next root is good. */
  ghost function Advance(good: set<Root>, roots: seq<Root>, start: Root): Root {
    if roots == [] || roots[0] !in good then start else Advance(good, roots[1..], roots[0])
  }

  lemma {:induction false} AdvanceStops(good: set<Root>, roots: seq<Root>, start: Root) returns (k: nat)
    ensures k <= |roots| && Advance(good, roots, start) == Below(roots, start, k)
    ensures forall i :: 0 <= i < k ==> roots[i] in good
    ensures k < |roots| ==> roots[k] !in good
    decreases |roots|
  {
    k := 0;
    if roots != [] && roots[0] in good {
      var j := AdvanceStops(good, roots[1..], roots[0]);
      k := j + 1;
    }
  }

  lemma {:induction false} OffChainStays(blocks: Blocks, good: set<Root>, a: Root, head: Root)
    requires ParentsLower(blocks) && !OnChain(blocks, a, head)
    ensures Furthest(blocks, good, a, head) == a
    decreases Height(blocks, head)
  {
    AllGoodIsChain(blocks, good, a, head);
    if head in blocks { OffChainStays(blocks, good, a, blocks[head].parentRoot); }
  }

  lemma AdvanceIsFurthest(s: Store, good: set<Root>, head: Root, start: Root)
    requires ParentsLower(s.blocks) && start in s.blocks
    ensures Advance(good, AncestorRoots(s, head, start), start) == Furthest(s.blocks, good, start, head)
  {
    var roots := AncestorRoots(s, head, start);
    RootsAreLinked(s, head, start);
    if OnChain(s.blocks, start, head) {
      var k := AdvanceStops(good, roots, start);
      StopIsFurthest(s.blocks, good, roots, start, k, |roots|);
    } else {
      OffChainStays(s.blocks, good, start, head);
    }
  }

  // ── the two stages ──────────────────────────────────────────────────────────

  /** What the first loop may pass: one-confirmed, of an earlier epoch, and on the previous head's chain. */
  ghost function GoodPrevious(env: Env, s: Store, head: Root, c: Confirmation, source: BeaconState): set<Root>
    requires ParentsLower(s.blocks)
  {
    set b | b in s.blocks && BlockEpoch(s, b) != CurrentEpoch(s) && OnChain(s.blocks, b, c.previousHead)
            && IsOneConfirmed(env, s, head, source, b)
  }

  /** What the second may: one-confirmed, and where an epoch begins only if the head's target will be justified. */
  ghost function GoodCurrent(env: Env, s: Store, head: Root, source: BeaconState, pulled: BeaconState): set<Root>
    requires ParentsLower(s.blocks)
  {
    set b | b in s.blocks && IsOneConfirmed(env, s, head, source, b)
            && (BlockEpoch(s, b) > BlockEpoch(s, s.blocks[b].parentRoot) ==>
                  TargetWillBeJustified(env, s, head, pulled))
  }

  lemma {:induction false} PreviousAdvances(env: Env, s: Store, head: Root, c: Confirmation, source: BeaconState,
                                            roots: seq<Root>, start: Root)
    requires ParentsLower(s.blocks) && Linked(s.blocks, roots, start)
    ensures AdvancePrevious(env, s, head, c, source, roots, start)
         == Advance(GoodPrevious(env, s, head, c, source), roots, start)
    decreases |roots|
  {
    if roots != [] {
      assert roots[0] in s.blocks;
      WalkDecidesAncestry(s.blocks, roots[0], c.previousHead);
      LinkedRest(s.blocks, roots, start);
      PreviousAdvances(env, s, head, c, source, roots[1..], roots[0]);
    }
  }

  lemma LinkedRest(blocks: Blocks, roots: seq<Root>, start: Root)
    requires roots != [] && Linked(blocks, roots, start)
    ensures Linked(blocks, roots[1..], roots[0])
  {
    var rest := roots[1..];
    forall k | 0 <= k < |rest| ensures rest[k] in blocks && blocks[rest[k]].parentRoot == Below(rest, roots[0], k) {
      assert rest[k] == roots[k + 1] && Below(rest, roots[0], k) == Below(roots, start, k + 1);
    }
  }

  lemma {:induction false} TentativeAdvances(env: Env, s: Store, head: Root, source: BeaconState, pulled: BeaconState,
                                             roots: seq<Root>, start: Root)
    requires ParentsLower(s.blocks) && Linked(s.blocks, roots, start)
    ensures AdvanceTentative(env, s, head, source, pulled, roots, start)
         == Advance(GoodCurrent(env, s, head, source, pulled), roots, start)
    decreases |roots|
  {
    if roots != [] {
      assert roots[0] in s.blocks && s.blocks[roots[0]].parentRoot == start;
      LinkedRest(s.blocks, roots, start);
      TentativeAdvances(env, s, head, source, pulled, roots[1..], roots[0]);
    }
  }

  lemma PreviousIsFurthest(env: Env, s: Store, head: Root, c: Confirmation, source: BeaconState, start: Root)
    requires ParentsLower(s.blocks) && start in s.blocks
    ensures AdvancePrevious(env, s, head, c, source, AncestorRoots(s, head, start), start)
         == Furthest(s.blocks, GoodPrevious(env, s, head, c, source), start, head)
  {
    RootsAreLinked(s, head, start);
    PreviousAdvances(env, s, head, c, source, AncestorRoots(s, head, start), start);
    AdvanceIsFurthest(s, GoodPrevious(env, s, head, c, source), head, start);
  }

  lemma TentativeIsFurthest(env: Env, s: Store, head: Root, source: BeaconState, pulled: BeaconState, start: Root)
    requires ParentsLower(s.blocks) && start in s.blocks
    ensures AdvanceTentative(env, s, head, source, pulled, AncestorRoots(s, head, start), start)
         == Furthest(s.blocks, GoodCurrent(env, s, head, source, pulled), start, head)
  {
    RootsAreLinked(s, head, start);
    TentativeAdvances(env, s, head, source, pulled, AncestorRoots(s, head, start), start);
    AdvanceIsFurthest(s, GoodCurrent(env, s, head, source, pulled), head, start);
  }

  // ── the whole search ────────────────────────────────────────────────────────

  /** The first stage runs from a block of the previous epoch, when the last head's and the votes' state allow. */
  predicate PreviousStageRuns(env: Env, s: Store, head: Root, c: Confirmation, start: Root, pulled: BeaconState)
    requires ParentsLower(s.blocks)
  {
    var now := CurrentEpoch(s);
    && BlockEpoch(s, start) + 1 == now && VotingSource(s, c.previousHead).epoch + 2 >= now
    && (SlotsSinceEpochStart(s.preset, CurrentSlot(s)) == 0
        || (NoConflictingTarget(env, s, head, pulled)
            && (UnrealizedEpoch(s, c.previousHead) + 1 >= now || UnrealizedEpoch(s, head) + 1 >= now)))
  }

  /** The second stage runs at an epoch's first slot, or when the head's justification is recent. */
  predicate CurrentStageRuns(s: Store, head: Root) {
    SlotsSinceEpochStart(s.preset, CurrentSlot(s)) == 0 || UnrealizedEpoch(s, head) + 1 >= CurrentEpoch(s)
  }

  /** Its result stands in the current epoch, or if it votes recently and no other target can be justified. */
  predicate Stands(env: Env, s: Store, head: Root, t: Root, pulled: BeaconState)
    requires ParentsLower(s.blocks)
  {
    BlockEpoch(s, t) == CurrentEpoch(s)
    || (VotingSource(s, t).epoch + 2 >= CurrentEpoch(s)
        && (SlotsSinceEpochStart(s.preset, CurrentSlot(s)) == 0 || NoConflictingTarget(env, s, head, pulled)))
  }

  /** Where the first stage ends. */
  ghost function FirstEnd(env: Env, s: Store, head: Root, c: Confirmation, source: BeaconState, start: Root,
                          pulled: BeaconState): Root
    requires ParentsLower(s.blocks)
  {
    if PreviousStageRuns(env, s, head, c, start, pulled)
    then Furthest(s.blocks, GoodPrevious(env, s, head, c, source), start, head) else start
  }

  lemma FirstEndIsStored(env: Env, s: Store, head: Root, c: Confirmation, source: BeaconState, start: Root,
                         pulled: BeaconState)
    requires ParentsLower(s.blocks) && start in s.blocks
    ensures FirstEnd(env, s, head, c, source, start, pulled) in s.blocks
  {
    var good := GoodPrevious(env, s, head, c, source);
    if OnChain(s.blocks, start, head) {
      FurthestIsBelow(s.blocks, good, start, head);
      AllGoodIsChain(s.blocks, good, start, Furthest(s.blocks, good, start, head));
    } else {
      OffChainStays(s.blocks, good, start, head);
    }
  }

  /** Both stages together, from any stored block: each goes as far as it may, or the second is taken back. */
  lemma SearchIsFurthest(env: Env, s: Store, head: Root, c: Confirmation, start: Root, pulled: BeaconState)
    requires ParentsLower(s.blocks) && start in s.blocks && c.currentObserved in s.checkpointStates
    ensures var source := s.checkpointStates[c.currentObserved];
            var first := FirstEnd(env, s, head, c, source, start, pulled);
            var second := Furthest(s.blocks, GoodCurrent(env, s, head, source, pulled), first, head);
            LatestConfirmedDescendant(env, s, head, c, start, pulled)
            == if CurrentStageRuns(s, head) && Stands(env, s, head, second, pulled) then second else first
  {
    var source := s.checkpointStates[c.currentObserved];
    PreviousIsFurthest(env, s, head, c, source, start);
    FirstEndIsStored(env, s, head, c, source, start, pulled);
    TentativeIsFurthest(env, s, head, source, pulled, FirstEnd(env, s, head, c, source, start, pulled));
  }

  /** Without the observed state the search does not move. */
  lemma UnknownSourceStays(env: Env, s: Store, head: Root, c: Confirmation, start: Root, pulled: BeaconState)
    requires ParentsLower(s.blocks) && c.currentObserved !in s.checkpointStates
    ensures LatestConfirmedDescendant(env, s, head, c, start, pulled) == start
  {
  }
}
