/**
  Optimistic sync (`crates/pharos-fork-choice/src/optimistic.rs`): verdicts of the
  execution layer spread over the block tree, and what that means for the head.
  Blocks never hash to the zero root, so a walk stops at a zero parent exactly
  when it leaves the store there.
 */
module Optimistic {
  import opened Types
  import opened Ancestry
  import opened Weights
  import opened HeadSelection
  import opened Handlers
  import opened StoreInvariant
  import opened ForkChoiceObject

  predicate ExecutionEnabled(block: Block) { block.executionHash != ZERO_ROOT }

  predicate IsValid(payloads: map<Root, PayloadStatus>, root: Root) { root in payloads && payloads[root] == Valid }

  predicate IsOptimistic(s: Store, root: Root) {
    root in s.blocks && ExecutionEnabled(s.blocks[root]) && !IsValid(s.payloads, root)
  }

  // ── resolve_invalid_block ───────────────────────────────────────────────────

  /** The execution block closest to genesis on the chain of `r`. */
  ghost function DeepestExecution(blocks: Blocks, r: Root): Option<Root>
    requires ParentsLower(blocks)
    decreases Height(blocks, r)
  {
    if r !in blocks then None else
      var deeper := DeepestExecution(blocks, blocks[r].parentRoot);
      if deeper.Some? then deeper else if ExecutionEnabled(blocks[r]) then Some(r) else None
  }

  lemma {:induction false} DeepestExecutionMeans(blocks: Blocks, r: Root, e: Root)
    requires ParentsLower(blocks) && e in blocks && OnChain(blocks, e, r) && ExecutionEnabled(blocks[e])
    ensures var d := DeepestExecution(blocks, r);
            d.Some? && d.value in blocks && ExecutionEnabled(blocks[d.value]) && OnChain(blocks, d.value, e)
    decreases Height(blocks, r)
  {
    var p := blocks[r].parentRoot;
    if e != r { DeepestExecutionMeans(blocks, p, e); }
    else if DeepestExecution(blocks, p).Some? { DeepestIsExecution(blocks, p); }
  }

  lemma {:induction false} DeepestIsExecution(blocks: Blocks, r: Root)
    requires ParentsLower(blocks) && DeepestExecution(blocks, r).Some?
    ensures var d := DeepestExecution(blocks, r).value;
            d in blocks && ExecutionEnabled(blocks[d]) && OnChain(blocks, d, r)
    decreases Height(blocks, r)
  {
    if DeepestExecution(blocks, blocks[r].parentRoot).Some? { DeepestIsExecution(blocks, blocks[r].parentRoot); }
  }

  function ExecutionHashAt(blocks: Blocks, r: Root): Root { if r in blocks then blocks[r].executionHash else ZERO_ROOT }

  /** The nearest block at or below `r` whose parent carries execution hash `hash`. */
  ghost function ChildOfHash(blocks: Blocks, r: Root, hash: Root): Option<Root>
    requires ParentsLower(blocks)
    decreases Height(blocks, r)
  {
    if r !in blocks then None
    else if ExecutionHashAt(blocks, blocks[r].parentRoot) == hash then Some(r)
    else ChildOfHash(blocks, blocks[r].parentRoot, hash)
  }

  lemma {:induction false} ChildOfHashMeans(blocks: Blocks, r: Root, hash: Root)
    requires ParentsLower(blocks) && ChildOfHash(blocks, r, hash).Some?
    ensures var c := ChildOfHash(blocks, r, hash).value;
            c in blocks && OnChain(blocks, c, r) && ExecutionHashAt(blocks, blocks[c].parentRoot) == hash
    decreases Height(blocks, r)
  {
    if ExecutionHashAt(blocks, blocks[r].parentRoot) != hash { ChildOfHashMeans(blocks, blocks[r].parentRoot, hash); }
  }

  /** The three-row `latestValidHash` table; unmatched hashes count as absent. */
  ghost function InvalidRoot(blocks: Blocks, block: Root, latestValid: Option<Root>): Root
    requires ParentsLower(blocks)
  {
    match latestValid
    case None => block
    case Some(hash) =>
      if hash == ZERO_ROOT then
        var d := DeepestExecution(blocks, block);
        if d.Some? then d.value else block
      else if ExecutionHashAt(blocks, block) == hash then block
      else
        var c := ChildOfHash(blocks, block, hash);
        if c.Some? then c.value else block
  }

  ghost predicate ExecutionOnChain(blocks: Blocks, e: Root, block: Root)
    requires ParentsLower(blocks)
  {
    e in blocks && ExecutionEnabled(blocks[e]) && OnChain(blocks, e, block)
  }

  /** A proper ancestor of `block` carries the execution hash `hash`. */
  ghost predicate HashBelow(blocks: Blocks, p: Root, block: Root, hash: Root)
    requires ParentsLower(blocks)
  {
    p in blocks && p != block && OnChain(blocks, p, block) && blocks[p].executionHash == hash
  }

  /** The first execution block of the chain: it is below every other. */
  ghost predicate FirstExecution(blocks: Blocks, x: Root, block: Root)
    requires ParentsLower(blocks)
  {
    ExecutionOnChain(blocks, x, block)
    && forall e :: ExecutionOnChain(blocks, e, block) ==> OnChain(blocks, x, e)
  }

  /** The block after the last one that carries `hash`. */
  ghost predicate FirstAfterHash(blocks: Blocks, x: Root, block: Root, hash: Root)
    requires ParentsLower(blocks)
  {
    && x in blocks && OnChain(blocks, x, block)
    && HashBelow(blocks, blocks[x].parentRoot, block, hash)
    && forall p :: HashBelow(blocks, p, block, hash) ==> OnChain(blocks, p, blocks[x].parentRoot)
  }

  /** What the `latestValidHash` table says about the block to invalidate. */
  ghost predicate ResolvesTo(blocks: Blocks, block: Root, latestValid: Option<Root>, x: Root)
    requires ParentsLower(blocks)
  {
    if latestValid == Some(ZERO_ROOT) && (exists e :: ExecutionOnChain(blocks, e, block)) then
      FirstExecution(blocks, x, block)
    else if latestValid.Some? && latestValid.value != ZERO_ROOT
            && (block in blocks ==> blocks[block].executionHash != latestValid.value)
            && (exists p :: HashBelow(blocks, p, block, latestValid.value)) then
      FirstAfterHash(blocks, x, block, latestValid.value)
    else x == block
  }

  lemma ZeroHashResolves(blocks: Blocks, block: Root)
    requires ParentsLower(blocks)
    ensures ResolvesTo(blocks, block, Some(ZERO_ROOT), InvalidRoot(blocks, block, Some(ZERO_ROOT)))
  {
    var x := InvalidRoot(blocks, block, Some(ZERO_ROOT));
    forall e | ExecutionOnChain(blocks, e, block) ensures FirstExecution(blocks, x, block) {
      DeepestExecutionMeans(blocks, block, e);
      DeepestIsExecution(blocks, block);
      forall f | ExecutionOnChain(blocks, f, block) ensures OnChain(blocks, x, f) {
        DeepestExecutionMeans(blocks, block, f);
      }
    }
    if DeepestExecution(blocks, block).Some? {
      DeepestIsExecution(blocks, block);
      assert ExecutionOnChain(blocks, x, block);
    }
  }

  /** The walk finds the nearest ancestor with the hash, whenever there is one. */
  lemma {:induction false} NearestHash(blocks: Blocks, r: Root, hash: Root, p: Root)
    requires ParentsLower(blocks) && hash != ZERO_ROOT && HashBelow(blocks, p, r, hash)
    ensures var c := ChildOfHash(blocks, r, hash);
            c.Some? && c.value in blocks && OnChain(blocks, p, blocks[c.value].parentRoot)
    decreases Height(blocks, r)
  {
    var q := blocks[r].parentRoot;
    if ExecutionHashAt(blocks, q) != hash { NearestHash(blocks, q, hash, p); }
  }

  lemma HashResolves(blocks: Blocks, block: Root, hash: Root)
    requires ParentsLower(blocks) && hash != ZERO_ROOT
    ensures ResolvesTo(blocks, block, Some(hash), InvalidRoot(blocks, block, Some(hash)))
  {
    if ExecutionHashAt(blocks, block) != hash {
      var c := ChildOfHash(blocks, block, hash);
      if c.Some? {
        ChildOfHashMeans(blocks, block, hash);
        ParentIsBelow(blocks, c.value, block, hash);
      }
      forall p | HashBelow(blocks, p, block, hash)
        ensures c.Some? && c.value in blocks && OnChain(blocks, p, blocks[c.value].parentRoot)
      {
        NearestHash(blocks, block, hash, p);
      }
    }
  }

  lemma ParentIsBelow(blocks: Blocks, c: Root, block: Root, hash: Root)
    requires ParentsLower(blocks) && c in blocks && OnChain(blocks, c, block) && hash != ZERO_ROOT
    requires ExecutionHashAt(blocks, blocks[c].parentRoot) == hash && ExecutionHashAt(blocks, block) != hash
    ensures HashBelow(blocks, blocks[c].parentRoot, block, hash)
  {
    OnChainTransitive(blocks, blocks[c].parentRoot, c, block);
  }

  /** The three rows of the table, on every tree. */
  lemma InvalidRootResolves(blocks: Blocks, block: Root, latestValid: Option<Root>)
    requires ParentsLower(blocks)
    ensures ResolvesTo(blocks, block, latestValid, InvalidRoot(blocks, block, latestValid))
  {
    if latestValid == Some(ZERO_ROOT) {
      ZeroHashResolves(blocks, block);
    } else if latestValid.Some? {
      HashResolves(blocks, block, latestValid.value);
    }
  }

  /** `resolve_invalid_block`, with the two walks of the source. */
  method ResolveInvalidBlock(blocks: Blocks, block: Root, latestValid: Option<Root>) returns (root: Root)
    requires ParentsLower(blocks) && ZERO_ROOT !in blocks
    ensures root == InvalidRoot(blocks, block, latestValid) && OnChain(blocks, root, block)
    ensures ResolvesTo(blocks, block, latestValid, root)
  {
    InvalidRootResolves(blocks, block, latestValid);
    if latestValid.None? { return block; }
    var hash := latestValid.value;
    var cur := block;
    if hash == ZERO_ROOT {
      var first: Option<Root> := None;
      while cur in blocks
        invariant OnChain(blocks, cur, block) && (first.Some? ==> OnChain(blocks, first.value, block))
        invariant var d := DeepestExecution(blocks, cur);
                  DeepestExecution(blocks, block) == if d.Some? then d else first
        decreases Height(blocks, cur)
      {
        if ExecutionEnabled(blocks[cur]) { first := Some(cur); }
        var parent := blocks[cur].parentRoot;
        if parent == ZERO_ROOT || parent == cur { return if first.Some? then first.value else block; }
        OnChainTransitive(blocks, parent, cur, block);
        cur := parent;
      }
      return if first.Some? then first.value else block;
    }
    var child: Option<Root> := None;
    assert ChildOfHash(blocks, ZERO_ROOT, hash) == None;
    while true
      invariant OnChain(blocks, cur, block) && (child.None? ==> cur == block)
      invariant child.Some? ==> OnChain(blocks, child.value, block) && child.value in blocks
                                && blocks[child.value].parentRoot == cur && ExecutionHashAt(blocks, block) != hash
      invariant child.Some? ==> ChildOfHash(blocks, block, hash) == ChildOfHash(blocks, child.value, hash)
      decreases Height(blocks, cur)
    {
      if ExecutionHashAt(blocks, cur) == hash { return if child.Some? then child.value else block; }
      assert child.Some? ==> ChildOfHash(blocks, block, hash) == ChildOfHash(blocks, cur, hash);
      if cur !in blocks { break; }
      var parent := blocks[cur].parentRoot;
      if parent == ZERO_ROOT || parent == cur { break; }
      OnChainTransitive(blocks, parent, cur, block);
      child, cur := Some(cur), parent;
    }
    root := block;
  }

  // ── apply_invalid_payload ───────────────────────────────────────────────────

  /** `x` together with every stored descendant. */
  ghost function Subtree(blocks: Blocks, x: Root): set<Root>
    requires ParentsLower(blocks)
  {
    {x} + set r | r in blocks && OnChain(blocks, x, r)
  }

  ghost predicate MarkedExactly(before: map<Root, PayloadStatus>, after: map<Root, PayloadStatus>, marked: set<Root>) {
    && after.Keys == before.Keys + marked
    && forall r :: r in after ==> after[r] == if r in marked then Invalid else before[r]
  }

  /** What the breadth-first marking has reached: visited and queued blocks, each but `x` below a visited one. */
  ghost predicate Frontier(blocks: Blocks, x: Root, visited: set<Root>, queue: seq<Root>)
    requires ParentsLower(blocks)
  {
    && (forall i, j :: 0 <= i < j < |queue| ==> queue[i] != queue[j])
    && (forall r :: r in queue ==> r !in visited)
    && (x in visited || x in queue)
    && (forall r :: r in visited || r in queue ==>
          r in Subtree(blocks, x) && (r == x || (r in blocks && blocks[r].parentRoot in visited)))
    && (forall p, c :: p in visited && IsChild(blocks, c, p) ==> c in visited || c in queue)
  }

  lemma ChildIsBelow(blocks: Blocks, x: Root, p: Root, c: Root)
    requires ParentsLower(blocks) && p in Subtree(blocks, x) && IsChild(blocks, c, p)
    ensures c in Subtree(blocks, x) && c != x
  {
    assert OnChain(blocks, x, p);
    if c == x && p != x { OnChainLowers(blocks, x, p); }
  }

  lemma ChildIsNew(blocks: Blocks, x: Root, visited: set<Root>, queue: seq<Root>, c: Root)
    requires ParentsLower(blocks) && Frontier(blocks, x, visited, queue) && queue != [] && IsChild(blocks, c, queue[0])
    ensures c in Subtree(blocks, x) && c != x && c !in visited && c !in queue
  {
    assert queue[0] in queue;
    ChildIsBelow(blocks, x, queue[0], c);
  }

  lemma GrownIsDistinct(queue: seq<Root>, children: seq<Root>)
    requires queue != [] && forall i, j :: 0 <= i < j < |queue| ==> queue[i] != queue[j]
    requires forall i, j :: 0 <= i < j < |children| ==> children[i] != children[j]
    requires forall c :: c in children ==> c !in queue
    ensures var grown := queue[1..] + children; forall i, j :: 0 <= i < j < |grown| ==> grown[i] != grown[j]
  {
    var grown := queue[1..] + children;
    forall i, j | 0 <= i < j < |grown| ensures grown[i] != grown[j] {
      if i < |queue| - 1 <= j { assert grown[i] == queue[i + 1] && grown[j] in children; }
    }
  }

  lemma FrontierStep(blocks: Blocks, x: Root, visited: set<Root>, queue: seq<Root>, children: seq<Root>)
    requires ParentsLower(blocks) && Frontier(blocks, x, visited, queue) && queue != []
    requires EnumeratesChildren(blocks, queue[0], children)
    ensures Frontier(blocks, x, visited + {queue[0]}, queue[1..] + children)
  {
    forall c | c in children ensures c in Subtree(blocks, x) && c != x && c !in visited && c !in queue {
      ChildIsNew(blocks, x, visited, queue, c);
    }
    GrownIsDistinct(queue, children);
  }

  /** A finished marking has reached the whole subtree. */
  lemma {:induction false} FrontierIsSubtree(blocks: Blocks, x: Root, visited: set<Root>, r: Root)
    requires ParentsLower(blocks) && Frontier(blocks, x, visited, []) && r in Subtree(blocks, x)
    ensures r in visited
    decreases Height(blocks, r)
  {
    if r != x {
      var p := blocks[r].parentRoot;
      assert OnChain(blocks, x, p);
      FrontierIsSubtree(blocks, x, visited, p);
      assert IsChild(blocks, r, p);
    }
  }

  /** Marks the resolved block and exactly its descendants invalid; no other verdict changes. */
  method ApplyInvalidPayload(fc: ForkChoice, block: Root, latestValid: Option<Root>) returns (x: Root)
    requires ParentsLower(fc.blocks) && ZERO_ROOT !in fc.blocks
    modifies fc`payloads
    ensures x == InvalidRoot(fc.blocks, block, latestValid) && OnChain(fc.blocks, x, block)
    ensures ResolvesTo(fc.blocks, block, latestValid, x)
    ensures MarkedExactly(old(fc.payloads), fc.payloads, Subtree(fc.blocks, x))
  {
    x := ResolveInvalidBlock(fc.blocks, block, latestValid);
    MarkSubtree(fc, x);
  }

  /** The breadth-first marking. */
  method MarkSubtree(fc: ForkChoice, x: Root)
    requires ParentsLower(fc.blocks)
    modifies fc`payloads
    ensures MarkedExactly(old(fc.payloads), fc.payloads, Subtree(fc.blocks, x))
  {
    var index := ChildrenIndex(fc.blocks);
    ghost var visited: set<Root> := {};
    var queue := [x];
    while queue != []
      invariant Frontier(fc.blocks, x, visited, queue)
      invariant MarkedExactly(old(fc.payloads), fc.payloads, visited)
      invariant visited <= Subtree(fc.blocks, x)
      decreases Subtree(fc.blocks, x) - visited
    {
      var root := queue[0];
      fc.payloads := fc.payloads[root := Invalid];
      var children := if root in index then index[root] else [];
      FrontierStep(fc.blocks, x, visited, queue, children);
      queue := queue[1..] + children;
      visited := visited + {root};
    }
    forall r: Root | r in Subtree(fc.blocks, x) ensures r in visited { FrontierIsSubtree(fc.blocks, x, visited, r); }
    assert visited == Subtree(fc.blocks, x);
  }

  /** An invalid block is on the head's chain exactly when the base of the search already descends from it. */
  lemma InvalidIsCanonicalIff(s: Store, x: Root)
    requires ParentsLower(s.blocks) && IsInvalid(s, x)
    ensures OnChain(s.blocks, x, Head(s)) <==> OnChain(s.blocks, x, Base(s))
  {
    var base, head := Base(s), Head(s);
    if OnChain(s.blocks, x, base) { OnChainTransitive(s.blocks, x, base, head); }
    if OnChain(s.blocks, x, head) && head != base {
      AncestorsComparable(s.blocks, x, base, head);
      if OnChain(s.blocks, base, x) && x != base { CleanAvoids(s, base, x, head); }
    }
  }

  /** A clean path meets no invalid block. */
  lemma {:induction false} CleanAvoids(s: Store, a: Root, x: Root, r: Root)
    requires ParentsLower(s.blocks) && Clean(s, a, r) && OnChain(s.blocks, x, r) && OnChain(s.blocks, a, x)
    ensures !IsInvalid(s, x)
    decreases Height(s.blocks, r)
  {
    if x != r {
      if r == a {
        assert a in s.blocks;
        if x in s.blocks { OnChainLowers(s.blocks, x, r); OnChainLowers(s.blocks, a, x); }
      } else {
        CleanAvoids(s, a, x, s.blocks[r].parentRoot);
      }
    }
  }

  // ── promote_valid_ancestors ─────────────────────────────────────────────────

  predicate IsRejected(payloads: map<Root, PayloadStatus>, root: Root) {
    root in payloads && payloads[root] == Invalid
  }

  /** A valid block has a valid parent, and an invalid block has invalid children. */
  predicate LinkAgrees(payloads: map<Root, PayloadStatus>, child: Root, parent: Root) {
    && (IsValid(payloads, child) ==> IsValid(payloads, parent))
    && (IsRejected(payloads, parent) ==> IsRejected(payloads, child))
  }

  /** Verdicts agree along every stored parent link. */
  ghost predicate VerdictsAgree(s: Store) { LinksAgree(s.blocks, s.payloads) }

  ghost predicate LinksAgree(blocks: Blocks, payloads: map<Root, PayloadStatus>) {
    forall r {:trigger LinkAgrees(payloads, r, blocks[r].parentRoot)} ::
      r in blocks && blocks[r].parentRoot in blocks ==> LinkAgrees(payloads, r, blocks[r].parentRoot)
  }

  lemma {:induction false} ValidHasValidAncestors(s: Store, a: Root, r: Root)
    requires ParentsLower(s.blocks) && VerdictsAgree(s) && r in s.blocks && a in s.blocks && OnChain(s.blocks, a, r)
    ensures IsValid(s.payloads, r) ==> IsValid(s.payloads, a)
    ensures IsInvalid(s, a) ==> IsInvalid(s, r)
    decreases Height(s.blocks, r)
  {
    if a != r {
      var p := s.blocks[r].parentRoot;
      OnStoredChain(s.blocks, a, p);
      assert LinkAgrees(s.payloads, r, p);
      ValidHasValidAncestors(s, a, p);
    }
  }

  predicate Untouched(before: map<Root, PayloadStatus>, after: map<Root, PayloadStatus>, r: Root) {
    (r in before <==> r in after) && (r in before ==> before[r] == after[r])
  }

  /** Every verdict stays, except that undecided ones on the chain of `root` may have become valid. */
  ghost predicate PromotesOnly(blocks: Blocks, root: Root, before: map<Root, PayloadStatus>, after: map<Root,
                               PayloadStatus>)
    requires ParentsLower(blocks)
  {
    forall r {:trigger Untouched(before, after, r)} ::
      Untouched(before, after, r)
      || (OnChain(blocks, r, root) && IsValid(after, r) && !(r in before && before[r] != NotValidated))
  }

  lemma PromotionKeepsAgreement(s: Store, root: Root, t: Store)
    requires ParentsLower(s.blocks) && VerdictsAgree(s) && t == s.(payloads := t.payloads)
    requires PromotesOnly(s.blocks, root, s.payloads, t.payloads)
    requires forall r :: r in s.blocks && OnChain(s.blocks, r, root) ==> IsValid(t.payloads, r)
    ensures VerdictsAgree(t)
  {
    forall r | r in t.blocks && t.blocks[r].parentRoot in t.blocks
      ensures LinkAgrees(t.payloads, r, t.blocks[r].parentRoot)
    {
      var p := t.blocks[r].parentRoot;
      assert Untouched(s.payloads, t.payloads, r) || IsValid(t.payloads, r);
      assert Untouched(s.payloads, t.payloads, p) || IsValid(t.payloads, p);
      assert LinkAgrees(s.payloads, r, p);
      if OnChain(s.blocks, r, root) {
        assert OnChain(s.blocks, p, r);
        OnChainTransitive(s.blocks, p, r, root);
      }
    }
  }

  /** The verdicts after the walk from `cur`: it stops at the first block that has one. */
  function Promote(blocks: Blocks, payloads: map<Root, PayloadStatus>, cur: Root): map<Root, PayloadStatus>
    requires ParentsLower(blocks)
    decreases Height(blocks, cur)
  {
    if cur in payloads && payloads[cur] != NotValidated then payloads
    else
      var marked := payloads[cur := Valid];
      if cur !in blocks || blocks[cur].parentRoot == ZERO_ROOT then marked
      else Promote(blocks, marked, blocks[cur].parentRoot)
  }

  /** Whatever the store holds, the walk overwrites no verdict and touches only the chain of `cur`. */
  lemma {:induction false} PromotesUndecidedOnly(blocks: Blocks, payloads: map<Root, PayloadStatus>, cur: Root)
    requires ParentsLower(blocks)
    ensures PromotesOnly(blocks, cur, payloads, Promote(blocks, payloads, cur))
    decreases Height(blocks, cur)
  {
    var after := Promote(blocks, payloads, cur);
    if !(cur in payloads && payloads[cur] != NotValidated) && cur in blocks && blocks[cur].parentRoot != ZERO_ROOT {
      var marked, parent := payloads[cur := Valid], blocks[cur].parentRoot;
      PromotesUndecidedOnly(blocks, marked, parent);
      forall r: Root
        ensures Untouched(payloads, after, r)
                || (OnChain(blocks, r, cur) && IsValid(after, r) && !(r in payloads && payloads[r] != NotValidated))
      {
        assert Untouched(marked, after, r) || (OnChain(blocks, r, parent) && IsValid(after, r));
      }
    }
  }

  lemma OnStoredChain(blocks: Blocks, r: Root, cur: Root)
    requires ParentsLower(blocks) && r in blocks && OnChain(blocks, r, cur)
    ensures cur in blocks
  {
  }

  predicate Decided(payloads: map<Root, PayloadStatus>, r: Root) { r in payloads && payloads[r] != NotValidated }

  /** The first block with a verdict that the walk from `cur` meets, if it meets one. */
  ghost function FirstDecided(blocks: Blocks, payloads: map<Root, PayloadStatus>, cur: Root): (d: Option<Root>)
    requires ParentsLower(blocks)
    ensures d.Some? ==> Decided(payloads, d.value) && OnChain(blocks, d.value, cur)
    decreases Height(blocks, cur)
  {
    if Decided(payloads, cur) then Some(cur)
    else if cur !in blocks || blocks[cur].parentRoot == ZERO_ROOT then None
    else FirstDecided(blocks, payloads, blocks[cur].parentRoot)
  }

  /** Two verdict maps that differ at most off the chain of `cur`. */
  ghost predicate SameOnChain(blocks: Blocks, m: map<Root, PayloadStatus>, n: map<Root, PayloadStatus>, cur: Root)
    requires ParentsLower(blocks)
  {
    forall r {:trigger Untouched(m, n, r)} :: OnChain(blocks, r, cur) ==> Untouched(m, n, r)
  }

  lemma {:induction false} FirstDecidedFrame(blocks: Blocks, m: map<Root, PayloadStatus>, n: map<Root, PayloadStatus>,
                                             cur: Root)
    requires ParentsLower(blocks) && SameOnChain(blocks, m, n, cur)
    ensures FirstDecided(blocks, m, cur) == FirstDecided(blocks, n, cur)
    decreases Height(blocks, cur)
  {
    assert Untouched(m, n, cur);
    if !Decided(m, cur) && cur in blocks && blocks[cur].parentRoot != ZERO_ROOT {
      assert forall r :: OnChain(blocks, r, blocks[cur].parentRoot) ==> OnChain(blocks, r, cur);
      FirstDecidedFrame(blocks, m, n, blocks[cur].parentRoot);
    }
  }

  lemma MarkingIsAbove(blocks: Blocks, payloads: map<Root, PayloadStatus>, cur: Root)
    requires ParentsLower(blocks) && cur in blocks
    ensures SameOnChain(blocks, payloads, payloads[cur := Valid], blocks[cur].parentRoot)
  {
    var parent := blocks[cur].parentRoot;
    forall r: Root | OnChain(blocks, r, parent) ensures Untouched(payloads, payloads[cur := Valid], r) {
      if r == cur { OnChainLowers(blocks, cur, parent); }
    }
  }

  /** `r` is at or below the block where the walk from `cur` stops. */
  ghost predicate BelowStop(blocks: Blocks, payloads: map<Root, PayloadStatus>, cur: Root, r: Root)
    requires ParentsLower(blocks)
  {
    var stop := FirstDecided(blocks, payloads, cur);
    stop.Some? && OnChain(blocks, r, stop.value)
  }

  /** Block by block, on every store: an ancestor is valid afterwards iff it was, or the walk passes it. */
  lemma {:induction false} PromotedIff(blocks: Blocks, payloads: map<Root, PayloadStatus>, cur: Root, r: Root)
    requires ParentsLower(blocks) && ZERO_ROOT !in blocks && r in blocks && OnChain(blocks, r, cur)
    ensures IsValid(Promote(blocks, payloads, cur), r) <==> IsValid(payloads, r) || !BelowStop(blocks, payloads, cur, r)
    decreases Height(blocks, cur)
  {
    OnStoredChain(blocks, r, cur);
    var parent, marked := blocks[cur].parentRoot, payloads[cur := Valid];
    if !Decided(payloads, cur) {
      MarkingIsAbove(blocks, payloads, cur);
      FirstDecidedFrame(blocks, payloads, marked, parent);
      if r == cur {
        PromotesUndecidedOnly(blocks, marked, parent);
        assert Untouched(marked, Promote(blocks, marked, parent), cur) || IsValid(Promote(blocks, marked, parent), cur);
        StopIsBelow(blocks, payloads, cur);
      } else {
        PromotedIff(blocks, marked, parent, r);
        assert Untouched(payloads, marked, r);
      }
    }
  }

  lemma StopIsBelow(blocks: Blocks, payloads: map<Root, PayloadStatus>, cur: Root)
    requires ParentsLower(blocks) && cur in blocks && !Decided(payloads, cur)
    ensures !BelowStop(blocks, payloads, cur, cur)
  {
    var stop := FirstDecided(blocks, payloads, cur);
    if stop.Some? && OnChain(blocks, cur, stop.value) {
      OnChainLowers(blocks, cur, stop.value);
      OnChainLowers(blocks, stop.value, cur);
    }
  }

  /**
    The obligation that all ancestors become valid, on every store: it is met exactly when
    every stored block at or below the first decided one of the walk was valid already.
   */
  lemma PromotionReachesAllIff(blocks: Blocks, payloads: map<Root, PayloadStatus>, root: Root)
    requires ParentsLower(blocks) && ZERO_ROOT !in blocks
    ensures (forall r :: r in blocks && OnChain(blocks, r, root) ==> IsValid(Promote(blocks, payloads, root), r))
       <==> (forall r :: r in blocks && BelowStop(blocks, payloads, root, r) ==> IsValid(payloads, r))
  {
    forall r: Root | r in blocks && BelowStop(blocks, payloads, root, r) ensures OnChain(blocks, r, root) {
      OnChainTransitive(blocks, r, FirstDecided(blocks, payloads, root).value, root);
    }
    forall r: Root | r in blocks && OnChain(blocks, r, root)
      ensures IsValid(Promote(blocks, payloads, root), r)
         <==> IsValid(payloads, r) || !BelowStop(blocks, payloads, root, r)
    {
      PromotedIff(blocks, payloads, root, r);
    }
  }

  /** In a store whose verdicts agree, a block found valid makes all its stored ancestors valid. */
  lemma PromotionReachesAnchor(s: Store, root: Root, t: Store)
    requires ParentsLower(s.blocks) && ZERO_ROOT !in s.blocks && VerdictsAgree(s)
    requires root in s.blocks && !IsInvalid(s, root)
    requires t == s.(payloads := Promote(s.blocks, s.payloads, root))
    ensures forall r :: r in s.blocks && OnChain(s.blocks, r, root) ==> IsValid(t.payloads, r)
    ensures VerdictsAgree(t)
  {
    var stop := FirstDecided(s.blocks, s.payloads, root);
    forall r: Root | r in s.blocks && BelowStop(s.blocks, s.payloads, root, r) ensures IsValid(s.payloads, r) {
      OnStoredChain(s.blocks, r, stop.value);
      ValidHasValidAncestors(s, stop.value, root);
      ValidHasValidAncestors(s, r, stop.value);
    }
    PromotionReachesAllIff(s.blocks, s.payloads, root);
    PromotesUndecidedOnly(s.blocks, s.payloads, root);
    PromotionKeepsAgreement(s, root, t);
  }

  /** The walk itself. */
  method PromoteValidAncestors(fc: ForkChoice, root: Root)
    requires ParentsLower(fc.blocks)
    modifies fc`payloads
    ensures fc.payloads == Promote(fc.blocks, old(fc.payloads), root)
    ensures PromotesOnly(fc.blocks, root, old(fc.payloads), fc.payloads)
  {
    PromotesUndecidedOnly(fc.blocks, fc.payloads, root);
    var cur := root;
    while true
      invariant Promote(fc.blocks, fc.payloads, cur) == Promote(fc.blocks, old(fc.payloads), root)
      decreases Height(fc.blocks, cur)
    {
      if cur in fc.payloads && fc.payloads[cur] != NotValidated { break; }
      fc.payloads := fc.payloads[cur := Valid];
      if cur !in fc.blocks { break; }
      var parent := fc.blocks[cur].parentRoot;
      if parent == ZERO_ROOT || parent == cur { break; }
      cur := parent;
    }
  }

  // ── which operations keep the verdicts in agreement ─────────────────────────

  lemma InitialVerdictsAgree(preset: Preset, root: Root, block: Block, state: BeaconState, genesisTime: nat)
    ensures VerdictsAgree(InitialStore(preset, root, block, state, genesisTime))
  {
    var s := InitialStore(preset, root, block, state, genesisTime);
    forall r | r in s.blocks && s.blocks[r].parentRoot in s.blocks
      ensures LinkAgrees(s.payloads, r, s.blocks[r].parentRoot)
    {
      assert r == root && s.blocks[r].parentRoot == root;
    }
  }

  /** Invalidating a whole subtree keeps agreement. */
  lemma InvalidationKeepsAgreement(s: Store, x: Root, t: Store)
    requires ParentsLower(s.blocks) && VerdictsAgree(s) && t == s.(payloads := t.payloads)
    requires MarkedExactly(s.payloads, t.payloads, Subtree(s.blocks, x))
    ensures VerdictsAgree(t)
  {
    forall r | r in t.blocks && t.blocks[r].parentRoot in t.blocks
      ensures LinkAgrees(t.payloads, r, t.blocks[r].parentRoot)
    {
      var p := t.blocks[r].parentRoot;
      assert LinkAgrees(s.payloads, r, p);
      if p in Subtree(s.blocks, x) { assert OnChain(s.blocks, x, r); }
    }
  }

  /** Hanging a block below a stored parent adds one link, when no stored block was waiting for it. */
  lemma InsertAddsOneLink(blocks: Blocks, payloads: map<Root, PayloadStatus>, root: Root, block: Block)
    requires LinksAgree(blocks, payloads) && block.parentRoot in blocks
    requires root in blocks ==> blocks[root] == block
    requires forall r :: r in blocks && blocks[r].parentRoot == root ==> root in blocks
    ensures LinksAgree(blocks[root := block], payloads) <==> LinkAgrees(payloads, root, block.parentRoot)
  {
    var bigger := blocks[root := block];
    if LinkAgrees(payloads, root, block.parentRoot) {
      forall r | r in bigger && bigger[r].parentRoot in bigger ensures LinkAgrees(payloads, r, bigger[r].parentRoot) {
        if r != root { assert LinkAgrees(payloads, r, blocks[r].parentRoot); }
      }
    } else {
      assert !LinkAgrees(payloads, root, bigger[root].parentRoot);
    }
  }

  lemma LinksFrame(blocks: Blocks, m: map<Root, PayloadStatus>, n: map<Root, PayloadStatus>)
    requires forall r, p :: LinkAgrees(m, r, p) == LinkAgrees(n, r, p)
    ensures LinksAgree(blocks, m) == LinksAgree(blocks, n)
  {
  }

  /** `on_block` never looks at the parent's verdict, so one link decides whether agreement survives. */
  lemma BlockKeepsAgreementIff(env: Env, a: Anchor, s: Store, block: Block)
    requires EnvLaws(env) && TrustedAnchor(env, a) && StoreInv(env, a, s) && Insertable(env, s, block)
    requires VerdictsAgree(s)
    requires BlockAcceptable(env, s, block) && env.transition(s.blockStates[block.parentRoot], block).Some?
    ensures VerdictsAgree(DeliverBlock(env, s, block).0)
       <==> LinkAgrees(s.payloads, env.rootOf(block), block.parentRoot)
  {
    var root, post := env.rootOf(block), env.transition(s.blockStates[block.parentRoot], block).value;
    NewParentIsLower(env, a, s, block);
    forall r | r in s.blocks && s.blocks[r].parentRoot == root ensures root in s.blocks {
      StoredParentIsStored(env, a, s, block, r);
    }
    InsertAddsOneLink(s.blocks, s.payloads, root, block);
    DeliveredVerdicts(env, s, block, post);
    LinksFrame(s.blocks[root := block], s.payloads, DeliverBlock(env, s, block).0.payloads);
  }

  /** A delivered block changes no link's agreement: it adds at most an undecided verdict of its own. */
  lemma DeliveredVerdicts(env: Env, s: Store, block: Block, post: BeaconState)
    requires ParentsLower(s.blocks) && ParentsLower(s.blocks[env.rootOf(block) := block])
    requires BlockAcceptable(env, s, block)
    ensures OnBlock(env, s, block, post, s.time).0.blocks == s.blocks[env.rootOf(block) := block]
    ensures forall r, p ::
              LinkAgrees(OnBlock(env, s, block, post, s.time).0.payloads, r, p) == LinkAgrees(s.payloads, r, p)
  {
    var t := OnBlock(env, s, block, post, s.time).0;
    assert t.payloads == s.payloads || t.payloads == s.payloads[env.rootOf(block) := NotValidated];
  }

  lemma StoredParentIsStored(env: Env, a: Anchor, s: Store, block: Block, r: Root)
    requires EnvLaws(env) && TrustedAnchor(env, a) && StoreInv(env, a, s) && r in s.blocks
    requires block.parentRoot in s.blockStates && env.transition(s.blockStates[block.parentRoot], block).Some?
    requires s.blocks[r].parentRoot in s.blocks || s.blocks[r].parentRoot == env.rootOf(block)
    ensures s.blocks[r].parentRoot in s.blocks
  {
    NewParentIsLower(env, a, s, block);
    if s.blocks[r].parentRoot !in s.blocks {
      assert r == a.root;
      AnchorIsLowest(env, a, s, block.parentRoot);
    }
  }

  lemma AnchorIsLowest(env: Env, a: Anchor, s: Store, r: Root)
    requires StoreInv(env, a, s) && r in s.blocks
    ensures a.block.slot <= s.blocks[r].slot
  {
    assert OnChain(s.blocks, a.root, r);
    if a.root != r { OnChainLowers(s.blocks, a.root, r); }
  }

  /** A block without a verdict, delivered on an invalid parent, breaks agreement. */
  lemma BlockOnInvalidBreaks(env: Env, a: Anchor, s: Store, block: Block)
    requires EnvLaws(env) && TrustedAnchor(env, a) && StoreInv(env, a, s) && Insertable(env, s, block)
    requires VerdictsAgree(s) && env.rootOf(block) !in s.payloads
    requires BlockAcceptable(env, s, block) && env.transition(s.blockStates[block.parentRoot], block).Some?
    ensures VerdictsAgree(DeliverBlock(env, s, block).0) <==> !IsInvalid(s, block.parentRoot)
  {
    BlockKeepsAgreementIff(env, a, s, block);
  }

  lemma DeliveredPayloads(env: Env, s: Store, block: Block, post: BeaconState)
    requires ParentsLower(s.blocks) && ParentsLower(s.blocks[env.rootOf(block) := block])
    requires BlockAcceptable(env, s, block)
    ensures OnBlock(env, s, block, post, s.time).0.payloads
         == if env.rootOf(block) in s.payloads then s.payloads else s.payloads[env.rootOf(block) := NotValidated]
  {
  }

  lemma PromotionStopsAt(blocks: Blocks, payloads: map<Root, PayloadStatus>, root: Root)
    requires ParentsLower(blocks) && root in blocks && blocks[root].parentRoot != root
    requires root in payloads && payloads[root] == NotValidated
    requires blocks[root].parentRoot in payloads && payloads[blocks[root].parentRoot] == Invalid
    ensures Promote(blocks, payloads, root) == payloads[root := Valid]
  {
  }

  /** Promoting such a block makes it valid and leaves its parent invalid. */
  lemma PromotionStopsAtInvalid(env: Env, a: Anchor, s: Store, block: Block)
    requires EnvLaws(env) && TrustedAnchor(env, a) && StoreInv(env, a, s) && Insertable(env, s, block)
    requires env.rootOf(block) !in s.payloads && IsInvalid(s, block.parentRoot)
    requires BlockAcceptable(env, s, block) && env.transition(s.blockStates[block.parentRoot], block).Some?
    ensures var root, t := env.rootOf(block), DeliverBlock(env, s, block).0;
            && ParentsLower(t.blocks) && IsChild(t.blocks, root, block.parentRoot)
            && Promote(t.blocks, t.payloads, root) == s.payloads[root := Valid]
            && IsInvalid(t.(payloads := Promote(t.blocks, t.payloads, root)), block.parentRoot)
  {
    var root, post := env.rootOf(block), env.transition(s.blockStates[block.parentRoot], block).value;
    var t := DeliverBlock(env, s, block).0;
    NewParentIsLower(env, a, s, block);
    DeliveredVerdicts(env, s, block, post);
    DeliveredPayloads(env, s, block, post);
    PromotionStopsAt(t.blocks, t.payloads, root);
    assert s.payloads[root := NotValidated][root := Valid] == s.payloads[root := Valid];
  }

  /** Recording one block as valid keeps agreement exactly when its stored parent is valid. */
  lemma MarkingValidAgreesIff(s: Store, root: Root)
    requires ParentsLower(s.blocks) && VerdictsAgree(s)
    ensures VerdictsAgree(s.(payloads := s.payloads[root := Valid]))
       <==> (root in s.blocks && s.blocks[root].parentRoot in s.blocks ==>
               IsValid(s.payloads, s.blocks[root].parentRoot))
  {
    var t := s.(payloads := s.payloads[root := Valid]);
    if root in s.blocks && s.blocks[root].parentRoot in s.blocks && !IsValid(s.payloads, s.blocks[root].parentRoot) {
      assert !LinkAgrees(t.payloads, root, t.blocks[root].parentRoot);
    } else {
      forall r | r in t.blocks && t.blocks[r].parentRoot in t.blocks
        ensures LinkAgrees(t.payloads, r, t.blocks[r].parentRoot)
      {
        assert LinkAgrees(s.payloads, r, s.blocks[r].parentRoot);
      }
    }
  }

  // ── latest_verified_ancestor ────────────────────────────────────────────────

  ghost predicate Verified(s: Store, v: Root) { v in s.blocks && !IsOptimistic(s, v) }

  /** `b` is the block where the chain of `root` leaves the store. */
  ghost predicate LastStored(blocks: Blocks, b: Root, root: Root)
    requires ParentsLower(blocks)
  {
    b in blocks && OnChain(blocks, b, root) && blocks[b].parentRoot !in blocks
  }

  lemma LastStoredIsUnique(blocks: Blocks, b: Root, c: Root, root: Root)
    requires ParentsLower(blocks) && LastStored(blocks, b, root) && LastStored(blocks, c, root)
    ensures b == c
  {
    AncestorsComparable(blocks, b, c, root);
    if OnChain(blocks, b, c) && b != c { OnStoredChain(blocks, b, blocks[c].parentRoot); }
    if OnChain(blocks, c, b) && b != c { OnStoredChain(blocks, c, blocks[b].parentRoot); }
  }

  /**
    Whenever some block on the chain is not optimistic, the walk returns the nearest one:
    everything strictly above it is optimistic.  When every block is optimistic it returns
    the last stored one, or the finalized root if that one has a parent outside the store.
   */
  method LatestVerifiedAncestor(s: Store, root: Root) returns (cur: Root)
    requires ParentsLower(s.blocks) && ZERO_ROOT !in s.blocks
    ensures (exists v :: Verified(s, v) && OnChain(s.blocks, v, root)) ==>
              OnChain(s.blocks, cur, root) && !IsOptimistic(s, cur)
              && forall r :: OnChain(s.blocks, r, root) && OnChain(s.blocks, cur, r) && r != cur ==> IsOptimistic(s, r)
    ensures forall b: Root ::
              LastStored(s.blocks, b, root) && (forall v :: Verified(s, v) ==> !OnChain(s.blocks, v, root)) ==>
                cur == if s.blocks[b].parentRoot == ZERO_ROOT then b else s.finalized.root
    ensures root !in s.blocks ==> cur == root
  {
    cur := root;
    while true
      invariant OnChain(s.blocks, cur, root) && (root !in s.blocks ==> cur == root) && (cur != root ==> cur in s.blocks)
      invariant forall r :: OnChain(s.blocks, r, root) ==> OnChain(s.blocks, r, cur) || IsOptimistic(s, r)
      decreases Height(s.blocks, cur)
    {
      if !IsOptimistic(s, cur) {
        forall r: Root | OnChain(s.blocks, r, root) && OnChain(s.blocks, cur, r) && r != cur
          ensures IsOptimistic(s, r)
        {
          if OnChain(s.blocks, r, cur) && cur in s.blocks {
            OnChainLowers(s.blocks, cur, r);
            OnChainLowers(s.blocks, r, cur);
          }
        }
        assert cur in s.blocks ==> Verified(s, cur);
        return;
      }
      assert forall r :: OnChain(s.blocks, r, cur) && r != cur ==> OnChain(s.blocks, r, s.blocks[cur].parentRoot);
      var parent := s.blocks[cur].parentRoot;
      if parent !in s.blocks {
        forall b: Root | LastStored(s.blocks, b, root) ensures b == cur { LastStoredIsUnique(s.blocks, b, cur, root); }
      }
      if parent == ZERO_ROOT || parent == cur { return; }
      if parent !in s.blocks { return s.finalized.root; }
      OnChainTransitive(s.blocks, parent, cur, root);
      cur := parent;
    }
  }

  /** In a store grown from a trusted anchor that the execution layer accepts, such a block always exists. */
  lemma AnchorVerifiesEveryChain(env: Env, a: Anchor, s: Store, root: Root)
    requires StoreInv(env, a, s) && IsValid(s.payloads, a.root) && root in s.blocks
    ensures a.root in s.blocks && OnChain(s.blocks, a.root, root) && !IsOptimistic(s, a.root)
  {
  }
}
