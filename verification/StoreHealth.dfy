/**
  Invariants of the store's clock and checkpoints that hold as long as time does not run
  backwards (`crates/pharos-fork-choice/src/handlers.rs`): no block from the future, no stale
  boost, no vote from the running slot, and no justification that the store has missed.
 */
module StoreHealth {
  import opened Types
  import opened Arithmetic
  import opened Ancestry
  import opened Weights
  import opened HeadSelection
  import opened Handlers
  import opened StoreInvariant

  predicate NoneFromFuture(s: Store) { forall r :: r in s.blocks ==> s.blocks[r].slot <= CurrentSlot(s) }

  /** The boost belongs to a block of the running slot. */
  predicate BoostIsCurrent(s: Store) {
    s.boostRoot == ZERO_ROOT || (s.boostRoot in s.blocks && s.blocks[s.boostRoot].slot == CurrentSlot(s))
  }

  /** Every vote was cast in a slot that is over. */
  predicate VotesArePast(s: Store) {
    forall i :: i in s.latestMessages ==>
      CurrentSlot(s) > 0 && s.latestMessages[i].epoch <= EpochAt(s.preset, CurrentSlot(s) - 1)
  }

  /** The store's checkpoints are no older than those of any state it holds. */
  predicate StatesAreRealized(s: Store) { StatesUpTo(s.blockStates, s.justified.epoch, s.finalized.epoch) }

  predicate StatesUpTo(states: map<Root, BeaconState>, justified: Epoch, finalized: Epoch) {
    forall r :: r in states ==> states[r].justified.epoch <= justified && states[r].finalized.epoch <= finalized
  }

  /** Pulled-up checkpoints are known to the store, and realized once the epoch of their block is over. */
  predicate TipsAreRealized(s: Store) {
    TipsUpTo(s.preset, CurrentEpoch(s), s.blocks, s.unrealized, s.unrealizedJustified.epoch, s.justified.epoch)
  }

  predicate TipsUpTo(p: Preset, now: Epoch, blocks: Blocks, tips: map<Root, Checkpoint>, known: Epoch, realized: Epoch)
  {
    forall r :: r in tips ==> r in blocks && TipUpTo(p, now, blocks[r], tips[r], known, realized)
  }

  predicate TipUpTo(p: Preset, now: Epoch, block: Block, tip: Checkpoint, known: Epoch, realized: Epoch) {
    tip.epoch <= known && (EpochAt(p, block.slot) < now ==> tip.epoch <= realized)
  }

  ghost predicate Healthy(s: Store) {
    NoneFromFuture(s) && BoostIsCurrent(s) && VotesArePast(s) && StatesAreRealized(s) && TipsAreRealized(s)
  }

  /** Then no block votes from a checkpoint later than the store's own. */
  lemma NoSourceBeyondJustified(s: Store, r: Root)
    requires Healthy(s)
    ensures VotingSource(s, r).epoch <= s.justified.epoch
  {
  }

  // ── the anchor store ────────────────────────────────────────────────────────

  lemma StartSlotIsReached(slot: Slot, durationMs: Positive)
    requires durationMs >= 1000
    ensures slot * durationMs / 1000 * 1000 / (durationMs / 1000 * 1000) >= slot
  {
    var k := durationMs / 1000;
    assert durationMs == k * 1000 + durationMs % 1000;
    assert slot * durationMs >= slot * (k * 1000) by { MulMonotone(k * 1000, durationMs, slot); }
    assert slot * (k * 1000) == slot * k * 1000;
    DivMonotone(slot * k * 1000, slot * durationMs, 1000);
    DivUnique(slot * k * 1000, slot * k, 0, 1000);
    DivMonotone(slot * k * 1000, slot * durationMs / 1000 * 1000, k * 1000);
    DivUnique(slot * k * 1000, slot, 0, k * 1000);
  }

  /** A store built from an anchor whose state is not behind its block, nor justifies the future, is healthy. */
  lemma InitialIsHealthy(preset: Preset, root: Root, block: Block, state: BeaconState, genesisTime: nat)
    requires preset.slotDurationMs >= 1000 && block.slot <= state.slot
    requires state.justified.epoch <= EpochAt(preset, state.slot)
    requires state.finalized.epoch <= EpochAt(preset, state.slot)
    ensures Healthy(InitialStore(preset, root, block, state, genesisTime))
  {
    StartSlotIsReached(state.slot, preset.slotDurationMs);
  }

  // ── the handlers ────────────────────────────────────────────────────────────

  /** Health reads neither payloads nor checkpoint states, nor which validators equivocate. */
  lemma HealthFrame(s: Store, t: Store)
    requires Healthy(s)
    requires t == s.(payloads := t.payloads, checkpointStates := t.checkpointStates, equivocating := t.equivocating)
    ensures Healthy(t)
  {
  }

  lemma {:induction false} VotesStayPast(votes: Votes, frozen: set<ValidatorIndex>, indices: seq<ValidatorIndex>,
                                         m: LatestMessage, bound: Epoch)
    requires m.epoch <= bound && forall i :: i in votes ==> votes[i].epoch <= bound
    ensures forall i :: i in VoteAll(votes, frozen, indices, m) ==>
              VoteAll(votes, frozen, indices, m)[i].epoch <= bound
  {
    if indices != [] { VotesStayPast(votes, frozen, indices[..|indices| - 1], m, bound); }
  }

  lemma AttestationKeepsHealth(env: Env, s: Store, att: Attestation, fromBlock: bool)
    requires ParentsLower(s.blocks) && Healthy(s)
    ensures Healthy(OnAttestation(env, s, att, fromBlock).0)
  {
    var (t, ok) := OnAttestation(env, s, att, fromBlock);
    if ok {
      var last, m := CurrentSlot(s) - 1, LatestMessage(att.data.target.epoch, att.data.blockRoot);
      DivMonotone(att.data.slot, last, s.preset.slotsPerEpoch);
      VotesStayPast(s.latestMessages, s.equivocating,
                    env.attesters(TargetState(env, s, att.data.target).value, att).value, m, EpochAt(s.preset, last));
      assert VotesArePast(t);
    } else {
      HealthFrame(s, t);
    }
  }

  lemma {:induction false} FeedKeepsHealth(env: Env, s: Store, atts: seq<Attestation>)
    requires ParentsLower(s.blocks) && Healthy(s)
    ensures Healthy(FeedAttestations(env, s, atts))
    decreases |atts|
  {
    if atts != [] {
      AttestationKeepsHealth(env, s, atts[0], true);
      FeedKeepsHealth(env, OnAttestation(env, s, atts[0], true).0, atts[1..]);
    }
  }

  lemma SlashingKeepsHealth(env: Env, s: Store, slashing: AttesterSlashing)
    requires Healthy(s)
    ensures Healthy(OnAttesterSlashing(env, s, slashing).0)
  {
    HealthFrame(s, OnAttesterSlashing(env, s, slashing).0);
  }

  /** A tick that does not go back. */
  lemma TickKeepsHealth(s: Store, time: nat)
    requires Healthy(s) && CurrentSlot(s) <= SlotFromTime(time, s.genesisTime, SlotMs(s))
    ensures Healthy(OnTick(s, time))
  {
    var t := OnTick(s, time);
    DivMonotone(CurrentSlot(s), CurrentSlot(t), s.preset.slotsPerEpoch);
    if CurrentSlot(s) > 0 { DivMonotone(CurrentSlot(s) - 1, CurrentSlot(t) - 1, s.preset.slotsPerEpoch); }
  }

  /** The block map, boost and clock of a delivery. */
  lemma DeliveryKeepsClock(env: Env, s: Store, block: Block, post: BeaconState)
    requires ParentsLower(s.blocks) && ParentsLower(s.blocks[env.rootOf(block) := block])
    requires BlockAcceptable(env, s, block) && NoneFromFuture(s) && BoostIsCurrent(s)
    requires env.rootOf(block) in s.blocks ==> s.blocks[env.rootOf(block)] == block
    ensures NoneFromFuture(OnBlock(env, s, block, post, s.time).0)
    ensures BoostIsCurrent(OnBlock(env, s, block, post, s.time).0)
  {
    TimelyIff(s.preset, SlotMs(s), s.genesisTime, block.slot, s.time);
  }

  lemma StatesGrow(states: map<Root, BeaconState>, root: Root, post: BeaconState, j: Epoch, f: Epoch, j': Epoch,
                   f': Epoch)
    requires StatesUpTo(states, j, f) && j <= j' && f <= f'
    requires post.justified.epoch <= j' && post.finalized.epoch <= f'
    ensures StatesUpTo(states[root := post], j', f')
  {
  }

  lemma TipsGrow(p: Preset, now: Epoch, blocks: Blocks, tips: map<Root, Checkpoint>, root: Root, block: Block,
                 known: Epoch, realized: Epoch, known': Epoch, realized': Epoch)
    requires TipsUpTo(p, now, blocks, tips, known, realized) && known <= known' && realized <= realized'
    requires root in blocks ==> blocks[root] == block
    ensures TipsUpTo(p, now, blocks[root := block], tips, known', realized')
    ensures forall tip :: TipUpTo(p, now, block, tip, known', realized') ==>
              TipsUpTo(p, now, blocks[root := block], tips[root := tip], known', realized')
  {
  }

  /** The checkpoint fields of a delivery. */
  lemma DeliveryCheckpoints(env: Env, s: Store, block: Block, post: BeaconState)
    requires ParentsLower(s.blocks) && ParentsLower(s.blocks[env.rootOf(block) := block])
    requires BlockAcceptable(env, s, block)
    ensures var t := OnBlock(env, s, block, post, s.time).0;
            && s.justified.epoch <= t.justified.epoch && s.finalized.epoch <= t.finalized.epoch
            && s.unrealizedJustified.epoch <= t.unrealizedJustified.epoch
            && post.justified.epoch <= t.justified.epoch && post.finalized.epoch <= t.finalized.epoch
            && (env.pullUp(post).None? ==> t.unrealized == s.unrealized)
            && (env.pullUp(post).Some? ==>
                  && t.unrealized == s.unrealized[env.rootOf(block) := env.pullUp(post).value.0]
                  && TipUpTo(s.preset, CurrentEpoch(s), block, env.pullUp(post).value.0, t.unrealizedJustified.epoch,
                             t.justified.epoch))
  {
  }

  lemma DeliveryRealizes(env: Env, s: Store, block: Block, post: BeaconState)
    requires ParentsLower(s.blocks) && ParentsLower(s.blocks[env.rootOf(block) := block])
    requires BlockAcceptable(env, s, block) && StatesAreRealized(s) && TipsAreRealized(s)
    requires env.rootOf(block) in s.blocks ==> s.blocks[env.rootOf(block)] == block
    ensures StatesAreRealized(OnBlock(env, s, block, post, s.time).0)
    ensures TipsAreRealized(OnBlock(env, s, block, post, s.time).0)
  {
    var t, root := OnBlock(env, s, block, post, s.time).0, env.rootOf(block);
    DeliveryFrame(env, s, block, post, s.time);
    DeliveryCheckpoints(env, s, block, post);
    StatesGrow(s.blockStates, root, post, s.justified.epoch, s.finalized.epoch, t.justified.epoch, t.finalized.epoch);
    TipsGrow(s.preset, CurrentEpoch(s), s.blocks, s.unrealized, root, block, s.unrealizedJustified.epoch,
             s.justified.epoch, t.unrealizedJustified.epoch, t.justified.epoch);
  }

  /** Delivering a block, accepted or not, keeps the store healthy. */
  lemma BlockKeepsHealth(env: Env, a: Anchor, s: Store, block: Block)
    requires EnvLaws(env) && TrustedAnchor(env, a) && StoreInv(env, a, s) && Insertable(env, s, block) && Healthy(s)
    ensures Healthy(DeliverBlock(env, s, block).0)
  {
    if BlockAcceptable(env, s, block) && env.transition(s.blockStates[block.parentRoot], block).Some? {
      assert env.rootOf(block) in s.blocks ==> s.blocks[env.rootOf(block)] == block;
      OnBlockKeepsHealth(env, s, block, env.transition(s.blockStates[block.parentRoot], block).value);
    }
  }

  lemma OnBlockKeepsHealth(env: Env, s: Store, block: Block, post: BeaconState)
    requires ParentsLower(s.blocks) && ParentsLower(s.blocks[env.rootOf(block) := block])
    requires BlockAcceptable(env, s, block) && Healthy(s)
    requires env.rootOf(block) in s.blocks ==> s.blocks[env.rootOf(block)] == block
    ensures Healthy(OnBlock(env, s, block, post, s.time).0)
  {
    DeliveryKeepsClock(env, s, block, post);
    DeliveryRealizes(env, s, block, post);
    DeliveryFrame(env, s, block, post, s.time);
  }
}
