/**
  The one-block rule and the target estimates of
  `crates/pharos-fork-choice/src/fast_confirmation.rs`, and the whole call on a small store.
 */
module RuleLaws {
  import opened Types
  import opened Arithmetic
  import opened Ancestry
  import opened Weights
  import opened HeadSelection
  import opened Handlers
  import opened HandlerEffects
  import opened Optimistic
  import opened FastConfirmation
  import opened ConfirmedChains
  import opened SearchReach
  import opened ConfirmationLaws

  // ── the rule for one block ──────────────────────────────────────────────────

  /** Twice the votes outweigh what could be cast, the boost and twice the adversary, less the discount. */
  lemma OneConfirmedIff(env: Env, s: Store, head: Root, source: BeaconState, block: Root)
    requires ParentsLower(s.blocks) && block in s.blocks && CurrentSlot(s) > 0
    ensures IsOneConfirmed(env, s, head, source, block)
       <==> (s.blocks[block].executionHash == ZERO_ROOT || (block in s.payloads && s.payloads[block] == Valid))
            && AttestationScore(s, block, source) > 0
            && 2 * AttestationScore(s, block, source) + SupportDiscount(env, s, head, source, block)
               > WindowEstimate(s, source, block) + ProposerScore(s.preset, source)
                 + 2 * AdversarialWeight(env, s, head, source, block)
  {
  }

  /** A quarter of the estimate, less the weight of the committees' known equivocators, and never below zero. */
  lemma AdversaryIs(env: Env, s: Store, head: Root, source: BeaconState, first: Slot, last: Slot)
    ensures var most := EstimateWeight(s.preset, TotalActiveBalance(s.preset, source), first, last);
            var committees := Committees(env, s, head, first, last);
            var known := Balance(source.validators, committees * s.equivocating * ActiveIndices(s.preset, source));
            var adversary := AdversarialBetween(env, s, head, source, first, last);
            most / 100 * 25 <= adversary + known && (adversary == 0 || adversary + known == most / 100 * 25)
  {
  }

  /** The adversary of a block is counted from its slot on, or from its epoch's start when its parent is older. */
  lemma AdversaryFrom(env: Env, s: Store, head: Root, source: BeaconState, block: Root) returns (first: Slot)
    requires block in s.blocks && CurrentSlot(s) > 0
    ensures AdversarialWeight(env, s, head, source, block)
         == AdversarialBetween(env, s, head, source, first, CurrentSlot(s) - 1)
    ensures first <= BlockSlot(s, block) && EpochAt(s.preset, first) == BlockEpoch(s, block)
    ensures if BlockEpoch(s, s.blocks[block].parentRoot) < BlockEpoch(s, block)
            then SlotsSinceEpochStart(s.preset, first) == 0 else first == BlockSlot(s, block)
  {
    var (epoch, n) := (BlockEpoch(s, block), s.preset.slotsPerEpoch);
    var opens := BlockEpoch(s, s.blocks[block].parentRoot) < epoch;
    first := if opens then StartSlot(s.preset, epoch) else BlockSlot(s, block);
    EpochFromSlot(s.preset, BlockSlot(s, block), epoch);
    DivUnique(epoch * n, epoch, 0, n);
  }

  /** The discount: votes that stayed with the parent in the empty slots before the block, less the adversary there. */
  lemma DiscountIs(env: Env, s: Store, head: Root, source: BeaconState, block: Root)
    requires ParentsLower(s.blocks) && block in s.blocks && s.blocks[block].parentRoot in s.blocks
    ensures var (first, discount) := (BlockSlot(s, s.blocks[block].parentRoot) + 1,
                                      SupportDiscount(env, s, head, source, block));
            if first == BlockSlot(s, block) then discount == 0
            else var last := BlockSlot(s, block) - 1;
                 var stayed := Balance(source.validators,
                                       Committees(env, s, head, first, last)
                                       * DirectVoters(s, source, s.blocks[block].parentRoot));
                 var adversary := AdversarialBetween(env, s, head, source, first, last);
                 stayed <= discount + adversary && (discount == 0 || discount + adversary == stayed)
  {
  }

  // ── targets ─────────────────────────────────────────────────────────────────

  /** A target that is justified already has no conflict, and one that will be has none either. */
  lemma TargetsWithoutConflict(env: Env, s: Store, head: Root, pulled: BeaconState)
    requires ParentsLower(s.blocks)
    ensures CurrentTarget(s, head) == s.unrealizedJustified ==> NoConflictingTarget(env, s, head, pulled)
    ensures TotalActiveBalance(s.preset, pulled) > 0 && TargetWillBeJustified(env, s, head, pulled) ==>
              NoConflictingTarget(env, s, head, pulled)
  {
  }

  /** `target` is the last block of both chains up to `slot`. */
  ghost predicate SharedUpTo(blocks: Blocks, target: Root, a: Root, b: Root, slot: Slot)
    requires ParentsLower(blocks)
  {
    LastUpTo(blocks, target, a, slot) && LastUpTo(blocks, target, b, slot)
  }

  lemma WalksMeetIff(blocks: Blocks, a: Root, b: Root, slot: Slot)
    requires ParentsLower(blocks)
    ensures Ancestor(blocks, a, slot) == Ancestor(blocks, b, slot) <==> exists x :: SharedUpTo(blocks, x, a, b, slot)
  {
    if Ancestor(blocks, a, slot) == Ancestor(blocks, b, slot) {
      var x := Ancestor(blocks, a, slot);
      WalkFindsLast(blocks, x, a, slot);
      WalkFindsLast(blocks, x, b, slot);
      assert SharedUpTo(blocks, x, a, b, slot);
    }
    forall x | SharedUpTo(blocks, x, a, b, slot) ensures Ancestor(blocks, a, slot) == Ancestor(blocks, b, slot) {
      WalkFindsLast(blocks, x, a, slot);
      WalkFindsLast(blocks, x, b, slot);
    }
  }

  /** The target votes counted are those of the epoch whose chain shares the head's block at the epoch's start. */
  lemma TargetVoteIff(s: Store, head: Root, pulled: BeaconState, i: ValidatorIndex)
    requires ParentsLower(s.blocks) && i in Voters(s, pulled)
    ensures i in TargetVoters(s, head, pulled)
       <==> s.latestMessages[i].epoch == CurrentEpoch(s)
            && exists x :: SharedUpTo(s.blocks, x, head, s.latestMessages[i].root, StartSlot(s.preset, CurrentEpoch(s)))
  {
    WalksMeetIff(s.blocks, head, s.latestMessages[i].root, StartSlot(s.preset, CurrentEpoch(s)));
  }

  /** The head state that targets are judged by is never of an earlier epoch. */
  lemma PulledUpIsCurrent(env: Env, s: Store, head: Root)
    requires SlotsAreProcessed(env) && PulledUpHeadState(env, s, head).Some?
    ensures EpochAt(s.preset, PulledUpHeadState(env, s, head).value.slot) >= CurrentEpoch(s)
    ensures head in s.blockStates
            && (EpochAt(s.preset, s.blockStates[head].slot) >= CurrentEpoch(s) ==>
                  PulledUpHeadState(env, s, head).value == s.blockStates[head])
  {
    EpochFromSlot(s.preset, StartSlot(s.preset, CurrentEpoch(s)), CurrentEpoch(s));
  }

  // ── payloads ────────────────────────────────────────────────────────────────

  /** No call passes a block whose payload is not known to be valid. */
  lemma {:induction false} PassedIsVerified(env: Env, s: Store, head: Root, source: BeaconState, a: Root, b: Root,
                                            x: Root)
    requires ParentsLower(s.blocks) && Between(env, s, head, source, a, b)
    requires a in s.blocks && OnChain(s.blocks, a, x) && x != a && OnChain(s.blocks, x, b)
    ensures x in s.blocks && (s.blocks[x].executionHash == ZERO_ROOT || (x in s.payloads && s.payloads[x] == Valid))
    decreases Height(s.blocks, b)
  {
    if x != b {
      if a == b { OnChainLowers(s.blocks, a, x); NoneBetween(s.blocks, a, x); }
      else { PassedIsVerified(env, s, head, source, a, s.blocks[b].parentRoot, x); }
    }
  }

  lemma ConfirmationIsVerified(env: Env, s: Store, c: Confirmation, x: Root)
    requires ParentsLower(s.blocks) && CanAdvance(env, s, c)
    requires x != AdvancesFrom(env, s, c) && OnChain(s.blocks, AdvancesFrom(env, s, c), x)
    requires OnChain(s.blocks, x, OnFastConfirmation(env, s, c).confirmed)
    ensures x in s.blocks && (s.blocks[x].executionHash == ZERO_ROOT || (x in s.payloads && s.payloads[x] == Valid))
  {
    ConfirmationPasses(env, s, c);
    PassedIsVerified(env, s, Head(s), Observed(env, s, c), AdvancesFrom(env, s, c),
                     OnFastConfirmation(env, s, c).confirmed, x);
  }

  // ── the whole call on a small store ─────────────────────────────────────────

  lemma ForkedHead(preset: Preset, mine: nat, other: nat, idle: nat)
    requires mine > other
    ensures var s := ForkedStore(preset, mine, other, idle);
            ParentsLower(s.blocks) && Head(s) == VOTED
  {
    var s := ForkedStore(preset, mine, other, idle);
    ForkedVotes(preset, mine, other, idle);
    ForkedBalances(mine, other, idle);
    assert IsLeaf(s.blocks, VOTED) && Clean(s, ANCHOR, ANCHOR) && Clean(s, ANCHOR, VOTED) && Clean(s, VOTED, VOTED);
    assert ViableBelow(s, VOTED, VOTED);
    assert Weight(s, VOTED) == mine && Weight(s, OTHER) == other;
    assert Dominant(s, ANCHOR, ANCHOR);
    DominantIsCanonical(s, VOTED);
    if Head(s) != VOTED {
      var c := Towards(s.blocks, VOTED, Head(s));
    }
  }

  /** One call moves the confirmed root from the anchor to the block that 96 of 100 voted for. */
  lemma ForkIsConfirmed(env: Env, preset: Preset, c: Confirmation)
    requires EightSlotEpochs(preset) && {0, 1} <= env.committee(ForkedState(96, 4, 700), 1)
    requires c.confirmed == ANCHOR && c.currentObserved == Checkpoint(0, ANCHOR)
    ensures var s := ForkedStore(preset, 96, 4, 700);
            ParentsLower(s.blocks) && OnFastConfirmation(env, s, c).confirmed == VOTED
  {
    var s := ForkedStore(preset, 96, 4, 700);
    ForkedHead(preset, 96, 4, 700);
    ForkedVotes(preset, 96, 4, 700);
    var updated, pulled := UpdateVariables(s, VOTED, c), ForkedState(96, 4, 700);
    assert PulledUpHeadState(env, s, VOTED) == Some(pulled);
    WalkDecidesAncestry(s.blocks, ANCHOR, VOTED);
    assert OnChain(s.blocks, ANCHOR, ANCHOR) && OnChain(s.blocks, ANCHOR, VOTED);
    assert StartingPoint(env, s, VOTED, updated) == ANCHOR;
    ForkIsSearched(env, preset, updated, pulled);
  }

  lemma ForkedTargetScore(preset: Preset, mine: nat, other: nat, idle: nat)
    ensures var s := ForkedStore(preset, mine, other, idle);
            ParentsLower(s.blocks)
            && (CurrentEpoch(s) == 0 ==> TargetScore(s, VOTED, JustifiedState(s)) == mine + other)
  {
    var s := ForkedStore(preset, mine, other, idle);
    var state := JustifiedState(s);
    ForkedVotes(preset, mine, other, idle);
    ForkedBalances(mine, other, idle);
    assert StartSlot(preset, 0) == 0 && Ancestor(s.blocks, ANCHOR, 0) == ANCHOR;
    assert CheckpointBlock(s, VOTED, 0) == ANCHOR && CheckpointBlock(s, OTHER, 0) == ANCHOR;
    if CurrentEpoch(s) == 0 { assert TargetVoters(s, VOTED, state) == {0, 1}; }
  }

  /** There the votes for the epoch's target, less the adversary, and three quarters of those to come make 500. */
  lemma ForkedTarget(env: Env, preset: Preset, mine: nat, other: nat, idle: nat)
    requires EightSlotEpochs(preset) && mine + other == 100 && idle == 700
    ensures var s := ForkedStore(preset, mine, other, idle);
            && ParentsLower(s.blocks)
            && HonestTargetSupport(env, s, VOTED, JustifiedState(s)) == 500
            && NoConflictingTarget(env, s, VOTED, JustifiedState(s))
            && !TargetWillBeJustified(env, s, VOTED, JustifiedState(s))
  {
    var s := ForkedStore(preset, mine, other, idle);
    var state := JustifiedState(s);
    ForkedVotes(preset, mine, other, idle);
    ForkedTotal(preset, mine, other, idle);
    ForkedTargetScore(preset, mine, other, idle);
    assert EstimateWeight(preset, 800, 0, 1) == 200;
    assert Committees(env, s, VOTED, 0, 1) * {} * ActiveIndices(preset, state) == {};
    BalanceOfNone(state.validators);
    assert AdversarialBetween(env, s, VOTED, state, 0, 1) == 50;
  }

  /** The estimate over an epoch boundary: the end epoch's slots in full, the rest pro rata, and half a percent. */
  lemma BoundaryEstimate(p: Preset)
    requires p.slotsPerEpoch == 8
    ensures EstimateWeight(p, 8_000_000, 5, 10) == 4_899_375
    ensures EstimateWeight(p, 8_000_000, 5, 7) == 3_000_000
    ensures EstimateWeight(p, 8_000_000, 5, 15) == 8_000_000
  {
  }
}
