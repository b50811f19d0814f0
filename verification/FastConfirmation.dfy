/**
  The Fast Confirmation Rule (`crates/pharos-fork-choice/src/fast_confirmation.rs`).
  Functions take the head of the store as an argument; the source recomputes it.
 */
module FastConfirmation {
  import opened Types
  import opened Ancestry
  import opened Weights
  import opened HeadSelection
  import opened Handlers
  import opened StoreInvariant
  import opened Optimistic

  const BYZANTINE_THRESHOLD := 25
  const ESTIMATION_ADJUSTMENT := 5

  datatype Confirmation = Confirmation(
    confirmed: Root,
    previousObserved: Checkpoint,    // `previous_epoch_observed_justified_checkpoint`
    currentObserved: Checkpoint,     // `current_epoch_observed_justified_checkpoint`
    greatestUnrealized: Checkpoint,  // `previous_epoch_greatest_unrealized_checkpoint`
    previousHead: Root,
    currentHead: Root)

  function BlockEpoch(s: Store, r: Root): Epoch { EpochAt(s.preset, BlockSlot(s, r)) }

  predicate IsEpochStart(s: Store, slot: Slot) { SlotsSinceEpochStart(s.preset, slot) == 0 }

  predicate IsAncestor(s: Store, block: Root, ancestor: Root)
    requires ParentsLower(s.blocks)
  {
    Ancestor(s.blocks, block, BlockSlot(s, ancestor)) == ancestor
  }

  // ── get_ancestor_roots ──────────────────────────────────────────────────────

  /** Blocks from just above `terminal` up to `block`; nothing when `terminal` is not met. */
  function RootsAbove(s: Store, block: Root, terminal: Root): Option<seq<Root>>
    requires ParentsLower(s.blocks)
    decreases Height(s.blocks, block)
  {
    if BlockSlot(s, block) <= BlockSlot(s, terminal) then None
    else if s.blocks[block].parentRoot == terminal then Some([block])
    else
      var below := RootsAbove(s, s.blocks[block].parentRoot, terminal);
      if below.None? then None else Some(below.value + [block])
  }

  function AncestorRoots(s: Store, block: Root, terminal: Root): seq<Root>
    requires ParentsLower(s.blocks)
  {
    var roots := RootsAbove(s, block, terminal);
    if roots.Some? then roots.value else []
  }

  function Reverse(xs: seq<Root>): seq<Root> { if xs == [] then [] else Reverse(xs[1..]) + [xs[0]] }

  /** The walk of the source: collect downwards, reverse at the end. */
  method GetAncestorRoots(s: Store, block: Root, terminal: Root) returns (roots: seq<Root>)
    requires ParentsLower(s.blocks)
    ensures roots == AncestorRoots(s, block, terminal)
  {
    var root, seen := block, [];
    while true
      invariant var rest := RootsAbove(s, root, terminal);
                AncestorRoots(s, block, terminal) == if rest.None? then [] else rest.value + Reverse(seen)
      decreases Height(s.blocks, root)
    {
      if BlockSlot(s, root) <= BlockSlot(s, terminal) { break; }
      ghost var before := seen;
      seen := seen + [root];
      ReverseSnoc(before, root);
      var parent := s.blocks[root].parentRoot;
      if parent == terminal { return Reverse(seen); }
      root := parent;
    }
    roots := [];
  }

  lemma {:induction false} ReverseSnoc(xs: seq<Root>, x: Root)
    ensures Reverse(xs + [x]) == [x] + Reverse(xs)
  {
    if xs != [] {
      assert (xs + [x])[1..] == xs[1..] + [x];
      ReverseSnoc(xs[1..], x);
    }
  }

  ghost predicate Chained(s: Store, xs: seq<Root>, block: Root, terminal: Root)
    requires ParentsLower(s.blocks)
  {
    && xs != [] && xs[|xs|-1] == block
    && (forall k :: 0 <= k < |xs| ==> xs[k] in s.blocks && OnChain(s.blocks, xs[k], block))
    && s.blocks[xs[0]].parentRoot == terminal
    && (forall k :: 1 <= k < |xs| ==> s.blocks[xs[k]].parentRoot == xs[k-1])
  }

  /** Every listed block is stored, lies on the chain of `block` and above `terminal`; each extends the one before. */
  lemma {:induction false} RootsAboveMeans(s: Store, block: Root, terminal: Root)
    requires ParentsLower(s.blocks) && RootsAbove(s, block, terminal).Some?
    ensures Chained(s, RootsAbove(s, block, terminal).value, block, terminal)
    decreases Height(s.blocks, block)
  {
    var p := s.blocks[block].parentRoot;
    if p != terminal {
      RootsAboveMeans(s, p, terminal);
      var below := RootsAbove(s, p, terminal).value;
      var xs := below + [block];
      forall k | 0 <= k < |xs| ensures OnChain(s.blocks, xs[k], block) {
        if k < |below| { assert OnChain(s.blocks, below[k], p); }
      }
      forall k | 1 <= k < |xs| ensures s.blocks[xs[k]].parentRoot == xs[k-1] {
        assert xs[k-1] == below[k-1];
        if k < |below| { assert xs[k] == below[k]; }
      }
      assert xs[0] == below[0];
    }
  }

  // ── committee weights ───────────────────────────────────────────────────────

  /** `get_slot_committee`, shuffled by the head state. */
  function SlotCommittee(env: Env, s: Store, head: Root, slot: Slot): set<ValidatorIndex> {
    if head in s.blockStates then env.committee(s.blockStates[head], slot) else {}
  }

  function Committees(env: Env, s: Store, head: Root, from: Slot, to: Slot): set<ValidatorIndex>
    decreases to + 1 - from
  {
    if from > to then {} else SlotCommittee(env, s, head, from) + Committees(env, s, head, from + 1, to)
  }

  /** `get_block_support_between_slots`: votes for exactly `block`, not for its descendants. */
  function SupportBetween(env: Env, s: Store, head: Root, source: BeaconState, block: Root, from: Slot, to: Slot): nat {
    Balance(source.validators, Committees(env, s, head, from, to) * DirectVoters(s, source, block))
  }

  predicate CoversFullEpoch(p: Preset, from: Slot, to: Slot) {
    EpochAt(p, from + p.slotsPerEpoch - 1) < EpochAt(p, to + 1)
  }

  function AdjustEstimate(estimate: nat): nat { (estimate + 999) / 1000 * (1000 + ESTIMATION_ADJUSTMENT) }

  function EstimateWeight(p: Preset, total: nat, from: Slot, to: Slot): nat {
    if from > to then 0
    else if CoversFullEpoch(p, from, to) then total
    else
      var perSlot := Share(total, p.slotsPerEpoch);
      if EpochAt(p, from) == EpochAt(p, to) then Times(perSlot, to - from + 1)
      else
        var inEnd := SlotsSinceEpochStart(p, to) + 1;
        var remaining := p.slotsPerEpoch - inEnd;
        var inStart := p.slotsPerEpoch - SlotsSinceEpochStart(p, from);
        AdjustEstimate(Times(Share(Times(perSlot, inStart), p.slotsPerEpoch), remaining) + Times(perSlot, inEnd))
  }

  function Times(a: nat, b: nat): nat { a * b }

  function Share(total: nat, n: Positive): nat { total / n }

  function EquivocationScore(env: Env, s: Store, head: Root, source: BeaconState, from: Slot, to: Slot): nat {
    Balance(source.validators, Committees(env, s, head, from, to) * s.equivocating * ActiveIndices(s.preset, source))
  }

  function Minus(a: nat, b: nat): nat { if a > b then a - b else 0 }

  function AdversarialBetween(env: Env, s: Store, head: Root, source: BeaconState, from: Slot, to: Slot): nat {
    var most := EstimateWeight(s.preset, TotalActiveBalance(s.preset, source), from, to);
    Minus(most / 100 * BYZANTINE_THRESHOLD, EquivocationScore(env, s, head, source, from, to))
  }

  function AdversarialWeight(env: Env, s: Store, head: Root, source: BeaconState, block: Root): nat {
    if CurrentSlot(s) == 0 || block !in s.blocks then 0 else
      var crosses := BlockEpoch(s, block) > BlockEpoch(s, s.blocks[block].parentRoot);
      var from := if crosses then StartSlot(s.preset, BlockEpoch(s, block)) else BlockSlot(s, block);
      AdversarialBetween(env, s, head, source, from, CurrentSlot(s) - 1)
  }

  /** `compute_empty_slot_support_discount`. */
  function SupportDiscount(env: Env, s: Store, head: Root, source: BeaconState, block: Root): nat {
    if block !in s.blocks then 0 else
      var parent := s.blocks[block].parentRoot;
      var (from, slot) := (BlockSlot(s, parent) + 1, BlockSlot(s, block));
      if from == slot || slot == 0 then 0 else
        Minus(SupportBetween(env, s, head, source, parent, from, slot - 1),
              AdversarialBetween(env, s, head, source, from, slot - 1))
  }

  function SafetyThreshold(env: Env, s: Store, head: Root, block: Root, source: BeaconState): nat {
    if CurrentSlot(s) == 0 || block !in s.blocks then 0 else
      var from := BlockSlot(s, s.blocks[block].parentRoot) + 1;
      var most := EstimateWeight(s.preset, TotalActiveBalance(s.preset, source), from, CurrentSlot(s) - 1);
      var all := most + ProposerScore(s.preset, source) + 2 * AdversarialWeight(env, s, head, source, block);
      Minus(all, SupportDiscount(env, s, head, source, block)) / 2
  }

  /** `is_one_confirmed`. */
  predicate IsOneConfirmed(env: Env, s: Store, head: Root, source: BeaconState, block: Root)
    requires ParentsLower(s.blocks)
  {
    !IsOptimistic(s, block) && AttestationScore(s, block, source) > SafetyThreshold(env, s, head, block, source)
  }

  /** `is_confirmed_chain_safe`. */
  predicate IsChainSafe(env: Env, s: Store, head: Root, c: Confirmation)
    requires ParentsLower(s.blocks)
  {
    && IsAncestor(s, c.confirmed, c.currentObserved.root)
    && c.previousObserved in s.checkpointStates
    && var roots := AncestorRoots(s, c.confirmed, ChainStart(s, c));
       forall k :: 0 <= k < |roots| ==> IsOneConfirmed(env, s, head, s.checkpointStates[c.previousObserved], roots[k])
  }

  function ChainStart(s: Store, c: Confirmation): Root
    requires ParentsLower(s.blocks)
  {
    if c.currentObserved.epoch + 1 >= CurrentEpoch(s) then c.currentObserved.root else
      var early := Ancestor(s.blocks, c.confirmed, StartSlot(s.preset, CurrentEpoch(s) - 1));
      if BlockEpoch(s, early) + 1 == CurrentEpoch(s) && early in s.blocks then s.blocks[early].parentRoot else early
  }

  // ── FFG estimates ───────────────────────────────────────────────────────────

  function CurrentTarget(s: Store, head: Root): Checkpoint
    requires ParentsLower(s.blocks)
  {
    Checkpoint(CurrentEpoch(s), CheckpointBlock(s, head, CurrentEpoch(s)))
  }

  function TargetOf(s: Store, vote: LatestMessage): Checkpoint
    requires ParentsLower(s.blocks)
  {
    Checkpoint(vote.epoch, CheckpointBlock(s, vote.root, vote.epoch))
  }

  /** Those who vote for the target that the head gives the current epoch. */
  function TargetVoters(s: Store, head: Root, pulled: BeaconState): set<ValidatorIndex>
    requires ParentsLower(s.blocks)
  {
    set i | i in Voters(s, pulled) && TargetOf(s, s.latestMessages[i]) == CurrentTarget(s, head)
  }

  function TargetScore(s: Store, head: Root, pulled: BeaconState): nat
    requires ParentsLower(s.blocks)
  {
    Balance(pulled.validators, TargetVoters(s, head, pulled))
  }

  function HonestTargetSupport(env: Env, s: Store, head: Root, pulled: BeaconState): nat
    requires ParentsLower(s.blocks)
  {
    var (slot, start) := (CurrentSlot(s), StartSlot(s.preset, CurrentEpoch(s)));
    var total, support := TotalActiveBalance(s.preset, pulled), TargetScore(s, head, pulled);
    var spent := if slot > start then EstimateWeight(s.preset, total, start, slot - 1) else 0;
    var adversarial := if slot > start then AdversarialBetween(env, s, head, pulled, start, slot - 1) else 0;
    Minus(support, adversarial) + Minus(total, spent) / 100 * (100 - BYZANTINE_THRESHOLD)
  }

  predicate NoConflictingTarget(env: Env, s: Store, head: Root, pulled: BeaconState)
    requires ParentsLower(s.blocks)
  {
    CurrentTarget(s, head) == s.unrealizedJustified
    || 3 * HonestTargetSupport(env, s, head, pulled) > TotalActiveBalance(s.preset, pulled)
  }

  predicate TargetWillBeJustified(env: Env, s: Store, head: Root, pulled: BeaconState)
    requires ParentsLower(s.blocks)
  {
    3 * HonestTargetSupport(env, s, head, pulled) >= 2 * TotalActiveBalance(s.preset, pulled)
  }

  // ── advancing the confirmed block ───────────────────────────────────────────

  function UnrealizedEpoch(s: Store, r: Root): Epoch { if r in s.unrealized then s.unrealized[r].epoch else 0 }

  predicate MayConfirmPrevious(env: Env, s: Store, head: Root, c: Confirmation, confirmed: Root, pulled: BeaconState)
    requires ParentsLower(s.blocks)
  {
    var now := CurrentEpoch(s);
    && BlockEpoch(s, confirmed) + 1 == now
    && VotingSource(s, c.previousHead).epoch + 2 >= now
    && (IsEpochStart(s, CurrentSlot(s))
        || (NoConflictingTarget(env, s, head, pulled)
            && (UnrealizedEpoch(s, c.previousHead) + 1 >= now || UnrealizedEpoch(s, head) + 1 >= now)))
  }

  /** First loop: blocks of earlier epochs, as long as the previous head saw them too. */
  function AdvancePrevious(env: Env, s: Store, head: Root, c: Confirmation, source: BeaconState, roots: seq<Root>,
                           confirmed: Root): (r: Root)
    requires ParentsLower(s.blocks)
    ensures r == confirmed || r in roots
    decreases |roots|
  {
    if roots == [] then confirmed else
      var b := roots[0];
      if BlockEpoch(s, b) == CurrentEpoch(s) || !IsAncestor(s, c.previousHead, b)
         || !IsOneConfirmed(env, s, head, source, b)
      then confirmed
      else AdvancePrevious(env, s, head, c, source, roots[1..], b)
  }

  /** Second loop: up to the head; crossing into the current epoch needs a target that will be justified. */
  function AdvanceTentative(env: Env, s: Store, head: Root, source: BeaconState, pulled: BeaconState,
                            roots: seq<Root>, tentative: Root): (r: Root)
    requires ParentsLower(s.blocks)
    ensures r == tentative || r in roots
    decreases |roots|
  {
    if roots == [] then tentative else
      var b := roots[0];
      if (BlockEpoch(s, b) > BlockEpoch(s, tentative) && !TargetWillBeJustified(env, s, head, pulled))
         || !IsOneConfirmed(env, s, head, source, b)
      then tentative
      else AdvanceTentative(env, s, head, source, pulled, roots[1..], b)
  }

  function ConfirmPrevious(env: Env, s: Store, head: Root, c: Confirmation, confirmed: Root, pulled: BeaconState): Root
    requires ParentsLower(s.blocks)
  {
    if MayConfirmPrevious(env, s, head, c, confirmed, pulled) && c.currentObserved in s.checkpointStates
    then AdvancePrevious(env, s, head, c, s.checkpointStates[c.currentObserved], AncestorRoots(s, head, confirmed),
                         confirmed)
    else confirmed
  }

  function ConfirmCurrent(env: Env, s: Store, head: Root, c: Confirmation, confirmed: Root, pulled: BeaconState): Root
    requires ParentsLower(s.blocks)
  {
    var now := CurrentEpoch(s);
    if !(IsEpochStart(s, CurrentSlot(s)) || UnrealizedEpoch(s, head) + 1 >= now)
       || c.currentObserved !in s.checkpointStates
    then confirmed
    else
      var t := AdvanceTentative(env, s, head, s.checkpointStates[c.currentObserved], pulled,
                                AncestorRoots(s, head, confirmed), confirmed);
      if BlockEpoch(s, t) == now
         || (VotingSource(s, t).epoch + 2 >= now
             && (IsEpochStart(s, CurrentSlot(s)) || NoConflictingTarget(env, s, head, pulled)))
      then t else confirmed
  }

  /**
    `find_latest_confirmed_descendant`.  An unknown balance source ends the source's first
    stage by returning; the second stage then finds it unknown as well.
   */
  function LatestConfirmedDescendant(env: Env, s: Store, head: Root, c: Confirmation, start: Root,
                                     pulled: BeaconState): Root
    requires ParentsLower(s.blocks)
  {
    ConfirmCurrent(env, s, head, c, ConfirmPrevious(env, s, head, c, start, pulled), pulled)
  }

  /** The conditions under which the confirmed block falls back to the finalized one. */
  predicate MustRevert(env: Env, s: Store, head: Root, c: Confirmation)
    requires ParentsLower(s.blocks)
  {
    || BlockEpoch(s, c.confirmed) + 1 < CurrentEpoch(s)
    || !IsAncestor(s, head, c.confirmed)
    || (IsEpochStart(s, CurrentSlot(s)) && !IsChainSafe(env, s, head, c))
  }

  /** Restart from the observed justified block at an epoch start, when the head agrees and it is newer. */
  predicate MustRestart(s: Store, head: Root, c: Confirmation, confirmed: Root) {
    && IsEpochStart(s, CurrentSlot(s))
    && BlockEpoch(s, c.currentObserved.root) + 1 == CurrentEpoch(s)
    && head in s.unrealized && s.unrealized[head] == c.currentObserved
    && BlockSlot(s, confirmed) < BlockSlot(s, c.currentObserved.root)
  }

  function StartingPoint(env: Env, s: Store, head: Root, c: Confirmation): Root
    requires ParentsLower(s.blocks)
  {
    var kept := if MustRevert(env, s, head, c) then s.finalized.root else c.confirmed;
    if MustRestart(s, head, c, kept) then c.currentObserved.root else kept
  }

  /** `get_latest_confirmed`. */
  function LatestConfirmed(env: Env, s: Store, head: Root, c: Confirmation, pulled: BeaconState): Root
    requires ParentsLower(s.blocks)
  {
    var start := StartingPoint(env, s, head, c);
    if BlockEpoch(s, start) + 1 >= CurrentEpoch(s)
    then LatestConfirmedDescendant(env, s, head, c, start, pulled)
    else start
  }

  /** `update_fast_confirmation_variables`. */
  function UpdateVariables(s: Store, head: Root, c: Confirmation): Confirmation {
    var greatest := if IsEpochStart(s, CurrentSlot(s) + 1) then s.unrealizedJustified else c.greatestUnrealized;
    var start := IsEpochStart(s, CurrentSlot(s));
    c.(previousHead := c.currentHead, currentHead := head, greatestUnrealized := greatest,
       previousObserved := if start then c.currentObserved else c.previousObserved,
       currentObserved := if start then greatest else c.currentObserved)
  }

  function PulledUpHeadState(env: Env, s: Store, head: Root): Option<BeaconState> {
    if head !in s.blockStates then None
    else if EpochAt(s.preset, s.blockStates[head].slot) < CurrentEpoch(s) then
      env.processSlots(s.blockStates[head], StartSlot(s.preset, CurrentEpoch(s)))
    else Some(s.blockStates[head])
  }

  /** `on_fast_confirmation`. */
  ghost function OnFastConfirmation(env: Env, s: Store, c: Confirmation): Confirmation
    requires ParentsLower(s.blocks)
  {
    var head := Head(s);
    var updated := UpdateVariables(s, head, c);
    var pulled := PulledUpHeadState(env, s, head);
    if pulled.None? then updated
    else updated.(confirmed := LatestConfirmed(env, s, head, updated, pulled.value))
  }

  /** The first loop of `find_latest_confirmed_descendant`. */
  method RunAdvancePrevious(env: Env, s: Store, head: Root, c: Confirmation, source: BeaconState, roots: seq<Root>,
                            start: Root)
    returns (confirmed: Root)
    requires ParentsLower(s.blocks)
    ensures confirmed == AdvancePrevious(env, s, head, c, source, roots, start)
  {
    confirmed := start;
    for i := 0 to |roots|
      invariant AdvancePrevious(env, s, head, c, source, roots[i..], confirmed)
             == AdvancePrevious(env, s, head, c, source, roots, start)
    {
      assert roots[i..][1..] == roots[i+1..];
      var b := roots[i];
      if BlockEpoch(s, b) == CurrentEpoch(s) { return; }
      if !IsAncestor(s, c.previousHead, b) { return; }
      if !IsOneConfirmed(env, s, head, source, b) { return; }
      confirmed := b;
    }
  }

  /** The second loop. */
  method RunAdvanceTentative(env: Env, s: Store, head: Root, source: BeaconState, pulled: BeaconState,
                             roots: seq<Root>, start: Root)
    returns (tentative: Root)
    requires ParentsLower(s.blocks)
    ensures tentative == AdvanceTentative(env, s, head, source, pulled, roots, start)
  {
    tentative := start;
    for i := 0 to |roots|
      invariant AdvanceTentative(env, s, head, source, pulled, roots[i..], tentative)
             == AdvanceTentative(env, s, head, source, pulled, roots, start)
    {
      assert roots[i..][1..] == roots[i+1..];
      var b := roots[i];
      if BlockEpoch(s, b) > BlockEpoch(s, tentative) && !TargetWillBeJustified(env, s, head, pulled) { return; }
      if !IsOneConfirmed(env, s, head, source, b) { return; }
      tentative := b;
    }
  }

  /** `find_latest_confirmed_descendant` with its early return for an unknown balance source. */
  method FindLatestConfirmedDescendant(env: Env, s: Store, head: Root, c: Confirmation, start: Root,
                                       pulled: BeaconState)
    returns (confirmed: Root)
    requires ParentsLower(s.blocks)
    ensures confirmed == LatestConfirmedDescendant(env, s, head, c, start, pulled)
  {
    confirmed := start;
    if MayConfirmPrevious(env, s, head, c, confirmed, pulled) {
      var roots := GetAncestorRoots(s, head, confirmed);
      if c.currentObserved !in s.checkpointStates { return; }
      confirmed := RunAdvancePrevious(env, s, head, c, s.checkpointStates[c.currentObserved], roots, confirmed);
    }
    if IsEpochStart(s, CurrentSlot(s)) || UnrealizedEpoch(s, head) + 1 >= CurrentEpoch(s) {
      var roots := GetAncestorRoots(s, head, confirmed);
      if c.currentObserved !in s.checkpointStates { return; }
      var source := s.checkpointStates[c.currentObserved];
      var tentative := RunAdvanceTentative(env, s, head, source, pulled, roots, confirmed);
      if BlockEpoch(s, tentative) == CurrentEpoch(s)
         || (VotingSource(s, tentative).epoch + 2 >= CurrentEpoch(s)
             && (IsEpochStart(s, CurrentSlot(s)) || NoConflictingTarget(env, s, head, pulled)))
      {
        confirmed := tentative;
      }
    }
  }

  // ── the confirmed block is canonical ────────────────────────────────────────

  /** Neither advancing stage leaves the chain between its starting point and the head. */
  lemma AdvanceStaysOnChain(s: Store, head: Root, start: Root, r: Root)
    requires ParentsLower(s.blocks) && (r == start || r in AncestorRoots(s, head, start))
    ensures r == start || (r in s.blocks && OnChain(s.blocks, r, head) && OnChain(s.blocks, start, r))
  {
    if r != start {
      RootsAboveMeans(s, head, start);
      var xs := RootsAbove(s, head, start).value;
      var k :| 0 <= k < |xs| && xs[k] == r;
      ChainedFrom(s, xs, head, start, k);
    }
  }

  lemma {:induction false} ChainedFrom(s: Store, xs: seq<Root>, head: Root, start: Root, k: nat)
    requires ParentsLower(s.blocks) && Chained(s, xs, head, start) && k < |xs|
    ensures OnChain(s.blocks, start, xs[k])
  {
    if k == 0 {
      assert s.blocks[xs[0]].parentRoot == start;
    } else {
      ChainedFrom(s, xs, head, start, k - 1);
      assert s.blocks[xs[k]].parentRoot == xs[k-1];
    }
  }

  lemma DescendantStaysOnChain(env: Env, s: Store, head: Root, c: Confirmation, start: Root, pulled: BeaconState)
    requires ParentsLower(s.blocks)
    ensures var r := LatestConfirmedDescendant(env, s, head, c, start, pulled);
            r == start || (r in s.blocks && OnChain(s.blocks, r, head) && OnChain(s.blocks, start, r))
  {
    var first := ConfirmPrevious(env, s, head, c, start, pulled);
    var second := ConfirmCurrent(env, s, head, c, first, pulled);
    AdvanceStaysOnChain(s, head, start, first);
    AdvanceStaysOnChain(s, head, first, second);
    if first != start && second != first { OnChainTransitive(s.blocks, start, first, second); }
  }

  /**
    Whatever the votes, the confirmed block is an ancestor of the head, the finalized block,
    or the head's own unrealized justified block.
   */
  lemma ConfirmedIsAnchored(env: Env, s: Store, c: Confirmation)
    requires ParentsLower(s.blocks) && PulledUpHeadState(env, s, Head(s)).Some?
    ensures var r := OnFastConfirmation(env, s, c).confirmed;
            || OnChain(s.blocks, r, Head(s))
            || r == s.finalized.root
            || (Head(s) in s.unrealized && r == s.unrealized[Head(s)].root)
  {
    var head := Head(s);
    var updated := UpdateVariables(s, head, c);
    var pulled := PulledUpHeadState(env, s, head).value;
    DescendantStaysOnChain(env, s, head, updated, StartingPoint(env, s, head, updated), pulled);
  }

  /** With a viable branch and an anchored store, the finalized block is itself an ancestor of the head. */
  lemma ConfirmedIsCanonical(env: Env, a: Anchor, s: Store, c: Confirmation)
    requires StoreInv(env, a, s) && Base(s) in Filtered(s, Base(s)) && PulledUpHeadState(env, s, Head(s)).Some?
    ensures var r := OnFastConfirmation(env, s, c).confirmed;
            OnChain(s.blocks, r, Head(s)) || (Head(s) in s.unrealized && r == s.unrealized[Head(s)].root)
  {
    ConfirmedIsAnchored(env, s, c);
    HeadIsViableLeaf(s);
    if s.finalized.epoch != 0 { HeadExtendsFinalized(s); }
    else { assert s.finalized.root == a.root; }
  }

  /** Confirmation moves backwards only when one of the reversion conditions holds. */
  lemma ConfirmedNeverRegresses(env: Env, s: Store, c: Confirmation)
    requires ParentsLower(s.blocks)
    requires !MustRevert(env, s, Head(s), UpdateVariables(s, Head(s), c))
    ensures BlockSlot(s, c.confirmed) <= BlockSlot(s, OnFastConfirmation(env, s, c).confirmed)
  {
    var head := Head(s);
    var updated, pulled := UpdateVariables(s, head, c), PulledUpHeadState(env, s, head);
    if pulled.Some? {
      var start := StartingPoint(env, s, head, updated);
      DescendantStaysOnChain(env, s, head, updated, start, pulled.value);
      var r := LatestConfirmed(env, s, head, updated, pulled.value);
      if r != start && start in s.blocks { OnChainLowers(s.blocks, start, r); }
    }
  }
}
