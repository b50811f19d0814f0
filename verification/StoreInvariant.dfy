/**
  What every handler keeps: the store stays one tree rooted at the trusted anchor,
  every recorded vote names a stored block, and nothing that was learned is lost.
 */
module StoreInvariant {
  import opened Types
  import opened Ancestry
  import opened Weights
  import opened HeadSelection
  import opened Handlers
  import opened Arithmetic

  datatype Anchor = Anchor(root: Root, block: Block, epoch: Epoch)

  /** The anchor's parent, if it exists at all, is an older block. */
  ghost predicate TrustedAnchor(env: Env, a: Anchor) {
    env.rootOf(a.block) == a.root && forall b :: env.rootOf(b) == a.block.parentRoot ==> b.slot < a.block.slot
  }

  /** One tree: every block but the anchor has its parent stored, at a smaller slot, below the anchor. */
  ghost predicate RootedTree(env: Env, a: Anchor, blocks: Blocks, states: map<Root, BeaconState>) {
    && a.root in blocks && blocks[a.root] == a.block
    && blocks.Keys == states.Keys
    && ParentsLower(blocks)
    && (forall r :: r in blocks ==> env.rootOf(blocks[r]) == r && states[r].headerSlot == blocks[r].slot)
    && (forall r {:trigger blocks[r].parentRoot in blocks} ::
          r in blocks && r != a.root ==> blocks[r].parentRoot in blocks)
    && (forall r {:trigger OnChain(blocks, a.root, r)} :: r in blocks ==> OnChain(blocks, a.root, r))
  }

  /** A vote names a stored block that is not newer than the vote's target epoch. */
  ghost predicate VotesKnown(p: Preset, blocks: Blocks, votes: Votes) {
    forall i :: i in votes ==> votes[i].root in blocks && EpochAt(p, blocks[votes[i].root].slot) <= votes[i].epoch
  }

  ghost predicate StoreInv(env: Env, a: Anchor, s: Store) {
    && RootedTree(env, a, s.blocks, s.blockStates)
    && VotesKnown(s.preset, s.blocks, s.latestMessages)
    && (s.boostRoot == ZERO_ROOT || s.boostRoot in s.blocks)
    && (s.finalized == Checkpoint(a.epoch, a.root) || s.finalized.epoch > a.epoch)
  }

  /** `c` may be replaced by `d`: the same checkpoint or one of a later epoch. */
  predicate Advances(c: Checkpoint, d: Checkpoint) { c == d || c.epoch < d.epoch }

  ghost predicate BlocksGrow(before: Blocks, after: Blocks) {
    forall r :: r in before ==> r in after && after[r] == before[r]
  }

  /** Votes move to later epochs only, and not at all for validators known to equivocate. */
  ghost predicate VotesGrow(frozen: set<ValidatorIndex>, before: Votes, after: Votes) {
    && (forall i :: i in before ==> i in after && (after[i] == before[i] || after[i].epoch > before[i].epoch))
    && (forall i :: i in frozen && i in after ==> i in before && after[i] == before[i])
  }

  /** `t` knows everything `s` knows: blocks and equivocators stay, votes and checkpoints only advance. */
  ghost predicate Grows(s: Store, t: Store) {
    && s.preset == t.preset && s.secondsPerSlot == t.secondsPerSlot && s.genesisTime == t.genesisTime
    && BlocksGrow(s.blocks, t.blocks)
    && s.equivocating <= t.equivocating
    && VotesGrow(s.equivocating, s.latestMessages, t.latestMessages)
    && Advances(s.justified, t.justified) && Advances(s.finalized, t.finalized)
    && Advances(s.unrealizedJustified, t.unrealizedJustified) && Advances(s.unrealizedFinalized, t.unrealizedFinalized)
  }

  lemma GrowsTransitive(s: Store, t: Store, u: Store)
    requires Grows(s, t) && Grows(t, u)
    ensures Grows(s, u)
  {
  }

  /** `get_forkchoice_store`. */
  function InitialStore(preset: Preset, root: Root, block: Block, state: BeaconState, genesisTime: nat): Store {
    var c := Checkpoint(EpochAt(preset, state.slot), root);
    Store(preset, preset.slotDurationMs / 1000, SlotStartTime(state.slot, genesisTime, preset.slotDurationMs),
          genesisTime,
          c, c, c, c, ZERO_ROOT, {}, map[root := block], map[root := state], map[], map[c := state],
          map[], map[root := c], map[root := Valid])
  }

  lemma InitialStoreInv(env: Env, preset: Preset, block: Block, state: BeaconState, genesisTime: nat)
    requires state.headerSlot == block.slot && block.parentRoot != env.rootOf(block)
    ensures var root := env.rootOf(block);
            StoreInv(env, Anchor(root, block, EpochAt(preset, state.slot)),
                     InitialStore(preset, root, block, state, genesisTime))
  {
  }

  /** The slots of a store built from an anchor last whole seconds, unless they are shorter than a second. */
  lemma InitialWholeSecondsIff(preset: Preset, root: Root, block: Block, state: BeaconState, genesisTime: nat)
    ensures WholeSeconds(InitialStore(preset, root, block, state, genesisTime)) <==> preset.slotDurationMs >= 1000
  {
    WholeSecondsIff(InitialStore(preset, root, block, state, genesisTime));
  }

  /** Then the catch-up ends from every store that grows out of it, whatever time it is asked to reach. */
  lemma GrownStoresCatchUp(preset: Preset, root: Root, block: Block, state: BeaconState, genesisTime: nat, s: Store,
                           now: nat)
    requires preset.slotDurationMs >= 1000 && Grows(InitialStore(preset, root, block, state, genesisTime), s)
    ensures CanCatchUp(s, now)
  {
    InitialWholeSecondsIff(preset, root, block, state, genesisTime);
    WholeSecondsCatchUp(s, now);
  }

  /** The fields the invariant reads. */
  lemma InvFrame(env: Env, a: Anchor, s: Store, t: Store)
    requires StoreInv(env, a, s)
    requires t.blocks == s.blocks && t.blockStates == s.blockStates && t.preset == s.preset
    requires VotesKnown(t.preset, t.blocks, t.latestMessages)
    requires t.boostRoot == s.boostRoot || t.boostRoot == ZERO_ROOT
    requires Advances(s.finalized, t.finalized)
    ensures StoreInv(env, a, t)
  {
  }

  lemma GrowsFrame(s: Store, t: Store)
    requires s.preset == t.preset && s.secondsPerSlot == t.secondsPerSlot && s.genesisTime == t.genesisTime
    requires s.blocks == t.blocks && s.equivocating <= t.equivocating
    requires VotesGrow(s.equivocating, s.latestMessages, t.latestMessages)
    requires Advances(s.justified, t.justified) && Advances(s.finalized, t.finalized)
    requires s.unrealizedJustified == t.unrealizedJustified && s.unrealizedFinalized == t.unrealizedFinalized
    ensures Grows(s, t)
  {
  }

  // ── ticks and slashings ─────────────────────────────────────────────────────

  lemma TickKeeps(env: Env, a: Anchor, s: Store, time: nat)
    requires StoreInv(env, a, s)
    ensures StoreInv(env, a, OnTick(s, time))
    ensures Grows(s, OnTick(s, time))
    ensures OnTick(s, time).time == time
  {
    InvFrame(env, a, s, OnTick(s, time));
    GrowsFrame(s, OnTick(s, time));
  }

  lemma SlashingKeeps(env: Env, a: Anchor, s: Store, slashing: AttesterSlashing)
    requires StoreInv(env, a, s)
    ensures StoreInv(env, a, OnAttesterSlashing(env, s, slashing).0)
    ensures Grows(s, OnAttesterSlashing(env, s, slashing).0)
    ensures OnAttesterSlashing(env, s, slashing).0.time == s.time
  {
    var t := OnAttesterSlashing(env, s, slashing).0;
    InvFrame(env, a, s, t);
    GrowsFrame(s, t);
  }

  // ── attestations ────────────────────────────────────────────────────────────

  lemma {:induction false} VoteAllKeeps(p: Preset, blocks: Blocks, votes: Votes, frozen: set<ValidatorIndex>,
                                        indices: seq<ValidatorIndex>, m: LatestMessage)
    requires VotesKnown(p, blocks, votes) && m.root in blocks && EpochAt(p, blocks[m.root].slot) <= m.epoch
    ensures VotesKnown(p, blocks, VoteAll(votes, frozen, indices, m))
    ensures VotesGrow(frozen, votes, VoteAll(votes, frozen, indices, m))
  {
    if indices != [] { VoteAllKeeps(p, blocks, votes, frozen, indices[..|indices|-1], m); }
  }

  /** An attestation, accepted or not, leaves only known votes and moves them to later epochs only. */
  lemma AttestationVotes(env: Env, s: Store, att: Attestation, fromBlock: bool)
    requires ParentsLower(s.blocks) && VotesKnown(s.preset, s.blocks, s.latestMessages)
    ensures VotesKnown(s.preset, s.blocks, OnAttestation(env, s, att, fromBlock).0.latestMessages)
    ensures VotesGrow(s.equivocating, s.latestMessages, OnAttestation(env, s, att, fromBlock).0.latestMessages)
  {
    var data, state := att.data, TargetState(env, s, att.data.target);
    if AttestationAcceptable(s, data, fromBlock) && state.Some? && env.attesters(state.value, att).Some? {
      DivMonotone(s.blocks[data.blockRoot].slot, data.slot, s.preset.slotsPerEpoch);
      VoteAllKeeps(s.preset, s.blocks, s.latestMessages, s.equivocating, env.attesters(state.value, att).value,
                   LatestMessage(data.target.epoch, data.blockRoot));
    }
  }

  lemma AttestationKeeps(env: Env, a: Anchor, s: Store, att: Attestation, fromBlock: bool)
    requires StoreInv(env, a, s)
    ensures StoreInv(env, a, OnAttestation(env, s, att, fromBlock).0)
    ensures Grows(s, OnAttestation(env, s, att, fromBlock).0)
  {
    AttestationVotes(env, s, att, fromBlock);
    var t := OnAttestation(env, s, att, fromBlock).0;
    InvFrame(env, a, s, t);
    GrowsFrame(s, t);
  }

  lemma {:induction false} FeedKeeps(env: Env, a: Anchor, s: Store, atts: seq<Attestation>)
    requires StoreInv(env, a, s)
    ensures StoreInv(env, a, FeedAttestations(env, s, atts))
    ensures Grows(s, FeedAttestations(env, s, atts))
    decreases |atts|
  {
    if atts != [] {
      var t := OnAttestation(env, s, atts[0], true).0;
      AttestationKeeps(env, a, s, atts[0], true);
      FeedKeeps(env, a, t, atts[1..]);
      GrowsTransitive(s, t, FeedAttestations(env, t, atts[1..]));
    }
  }

  /**
    A refused attestation need not leave the store alone: when its signature is what fails,
    the target checkpoint state stays behind.  It is untouched exactly when that state was
    already known, or the attestation failed before the state was built.
   */
  lemma RefusedAttestationTrace(env: Env, s: Store, att: Attestation, fromBlock: bool)
    requires ParentsLower(s.blocks) && !OnAttestation(env, s, att, fromBlock).1
    ensures OnAttestation(env, s, att, fromBlock).0 == s <==>
            att.data.target in s.checkpointStates || !AttestationAcceptable(s, att.data, fromBlock)
            || TargetState(env, s, att.data.target).None?
  {
    var target, t := att.data.target, OnAttestation(env, s, att, fromBlock).0;
    if AttestationAcceptable(s, att.data, fromBlock) && TargetState(env, s, target).Some? {
      assert target in t.checkpointStates;
      if target in s.checkpointStates {
        assert s.checkpointStates[target := s.checkpointStates[target]] == s.checkpointStates;
      }
    }
  }

  /** A refusal that is not side-effect free: a target state built for the first time stays cached. */
  lemma RefusedAttestationCaches(env: Env, s: Store, att: Attestation, fromBlock: bool)
    requires ParentsLower(s.blocks) && AttestationAcceptable(s, att.data, fromBlock)
    requires att.data.target !in s.checkpointStates && TargetState(env, s, att.data.target).Some?
    requires env.attesters(TargetState(env, s, att.data.target).value, att).None?
    ensures !OnAttestation(env, s, att, fromBlock).1 && OnAttestation(env, s, att, fromBlock).0 != s
    ensures OnAttestation(env, s, att, fromBlock).0.checkpointStates.Keys
         == s.checkpointStates.Keys + {att.data.target}
  {
    RefusedAttestationTrace(env, s, att, fromBlock);
  }

  // ── blocks ──────────────────────────────────────────────────────────────────

  /** A block whose state transition succeeds can be hung into the tree, and is new or already there. */
  lemma TransitionAllowsInsert(env: Env, a: Anchor, s: Store, block: Block)
    requires EnvLaws(env) && TrustedAnchor(env, a) && RootedTree(env, a, s.blocks, s.blockStates)
    requires block.parentRoot in s.blockStates && env.transition(s.blockStates[block.parentRoot], block).Some?
    ensures ParentsLower(s.blocks[env.rootOf(block) := block])
    ensures BlocksGrow(s.blocks, s.blocks[env.rootOf(block) := block])
  {
    var root, bigger := env.rootOf(block), s.blocks[env.rootOf(block) := block];
    assert root in s.blocks ==> s.blocks[root] == block;
    forall r | r in bigger && bigger[r].parentRoot in bigger
      ensures bigger[bigger[r].parentRoot].slot < bigger[r].slot
    {
      if r == root {
        NewParentIsLower(env, a, s, block);
      } else {
        OldParentIsLower(env, a, s, block, r);
      }
    }
  }

  lemma NewParentIsLower(env: Env, a: Anchor, s: Store, block: Block)
    requires EnvLaws(env) && RootedTree(env, a, s.blocks, s.blockStates)
    requires block.parentRoot in s.blockStates && env.transition(s.blockStates[block.parentRoot], block).Some?
    ensures block.parentRoot in s.blocks && s.blocks[block.parentRoot].slot < block.slot
    ensures block.parentRoot != env.rootOf(block)
  {
    var p := block.parentRoot;
    assert p in s.blocks && env.rootOf(s.blocks[p]) == p && s.blockStates[p].headerSlot == s.blocks[p].slot;
  }

  /** A stored block whose parent is the new one can only be the anchor. */
  lemma OldParentIsLower(env: Env, a: Anchor, s: Store, block: Block, r: Root)
    requires TrustedAnchor(env, a) && RootedTree(env, a, s.blocks, s.blockStates)
    requires r in s.blocks && (env.rootOf(block) in s.blocks ==> s.blocks[env.rootOf(block)] == block)
    requires s.blocks[r].parentRoot in s.blocks || s.blocks[r].parentRoot == env.rootOf(block)
    ensures s.blocks[env.rootOf(block) := block][s.blocks[r].parentRoot].slot < s.blocks[r].slot
  {
    var p := s.blocks[r].parentRoot;
    if p !in s.blocks { assert r == a.root; }
  }

  lemma InsertKeepsTree(env: Env, a: Anchor, s: Store, block: Block)
    requires EnvLaws(env) && TrustedAnchor(env, a) && RootedTree(env, a, s.blocks, s.blockStates)
    requires block.parentRoot in s.blockStates && env.transition(s.blockStates[block.parentRoot], block).Some?
    ensures RootedTree(env, a, s.blocks[env.rootOf(block) := block],
                       s.blockStates[env.rootOf(block) := env.transition(s.blockStates[block.parentRoot], block).value])
  {
    var bigger := s.blocks[env.rootOf(block) := block];
    TransitionAllowsInsert(env, a, s, block);
    forall r | r in bigger ensures OnChain(bigger, a.root, r) {
      ExtendKeepsChain(s.blocks, bigger, a.root, if r == env.rootOf(block) then block.parentRoot else r);
    }
  }

  lemma BlockIsInsertable(env: Env, a: Anchor, s: Store, block: Block)
    requires EnvLaws(env) && TrustedAnchor(env, a) && StoreInv(env, a, s)
    ensures Insertable(env, s, block)
  {
    if block.parentRoot in s.blockStates && env.transition(s.blockStates[block.parentRoot], block).Some? {
      TransitionAllowsInsert(env, a, s, block);
    }
  }

  /** The fields a delivered block does not touch once it has been inserted. */
  lemma DeliveryFrame(env: Env, s: Store, block: Block, post: BeaconState, now: nat)
    requires ParentsLower(s.blocks) && ParentsLower(s.blocks[env.rootOf(block) := block])
    requires BlockAcceptable(env, s, block)
    ensures var t := OnBlock(env, s, block, post, now).0;
            t == s.(blocks := s.blocks[env.rootOf(block) := block],
                    blockStates := s.blockStates[env.rootOf(block) := post],
                    payloads := t.payloads, timely := t.timely, boostRoot := t.boostRoot, unrealized := t.unrealized,
                    justified := t.justified, finalized := t.finalized,
                    unrealizedJustified := t.unrealizedJustified, unrealizedFinalized := t.unrealizedFinalized)
    ensures var t := OnBlock(env, s, block, post, now).0; t.boostRoot == s.boostRoot || t.boostRoot == env.rootOf(block)
    ensures Advances(s.justified, OnBlock(env, s, block, post, now).0.justified)
    ensures Advances(s.finalized, OnBlock(env, s, block, post, now).0.finalized)
    ensures Advances(s.unrealizedJustified, OnBlock(env, s, block, post, now).0.unrealizedJustified)
    ensures Advances(s.unrealizedFinalized, OnBlock(env, s, block, post, now).0.unrealizedFinalized)
  {
  }

  /** `on_block`, at any arrival time, keeps the invariant when it is given the block's own post-state. */
  lemma OnBlockKeeps(env: Env, a: Anchor, s: Store, block: Block, post: BeaconState, now: nat)
    requires EnvLaws(env) && TrustedAnchor(env, a) && StoreInv(env, a, s)
    requires block.parentRoot in s.blockStates && env.transition(s.blockStates[block.parentRoot], block) == Some(post)
    requires BlockAcceptable(env, s, block) ==> ParentsLower(s.blocks[env.rootOf(block) := block])
    ensures StoreInv(env, a, OnBlock(env, s, block, post, now).0)
    ensures Grows(s, OnBlock(env, s, block, post, now).0)
    ensures OnBlock(env, s, block, post, now).0.time == s.time
  {
    if BlockAcceptable(env, s, block) {
      TransitionAllowsInsert(env, a, s, block);
      InsertKeepsTree(env, a, s, block);
      DeliveryFrame(env, s, block, post, now);
    }
  }

  /** Delivering any block keeps the invariant; a missing parent or failed transition leaves the store as it was. */
  lemma BlockKeeps(env: Env, a: Anchor, s: Store, block: Block)
    requires EnvLaws(env) && TrustedAnchor(env, a) && StoreInv(env, a, s) && Insertable(env, s, block)
    ensures StoreInv(env, a, DeliverBlock(env, s, block).0)
    ensures Grows(s, DeliverBlock(env, s, block).0)
    ensures DeliverBlock(env, s, block).0.time == s.time
    ensures !BlockAcceptable(env, s, block) || env.transition(s.blockStates[block.parentRoot], block).None? ==>
              DeliverBlock(env, s, block) == (s, false)
  {
    if block.parentRoot in s.blockStates && env.transition(s.blockStates[block.parentRoot], block).Some? {
      OnBlockKeeps(env, a, s, block, env.transition(s.blockStates[block.parentRoot], block).value, s.time);
    }
  }

  /** Delivering `block` again would write nothing that is not there already. */
  ghost predicate AlreadyThere(env: Env, s: Store, block: Block, post: BeaconState)
    requires ParentsLower(s.blocks)
  {
    var root := env.rootOf(block);
    && root in s.blocks && s.blocks[root] == block
    && root in s.blockStates && s.blockStates[root] == post
    && root in s.payloads
    && root in s.timely && s.timely[root] == IsTimely(s.preset, SlotMs(s), s.genesisTime, block.slot, s.time)
    && BoostAfter(env, s, root) == s.boostRoot
    && post.justified.epoch <= s.justified.epoch && post.finalized.epoch <= s.finalized.epoch
  }

  lemma InsertAgain(env: Env, s: Store, block: Block, post: BeaconState)
    requires ParentsLower(s.blocks)
    ensures AlreadyThere(env, s, block, post) ==> InsertBlock(env, s, block, post, s.time) == s
  {
    if AlreadyThere(env, s, block, post) {
      var root := env.rootOf(block);
      assert s.blocks[root := block] == s.blocks && s.blockStates[root := post] == s.blockStates;
      assert s.timely[root := s.timely[root]] == s.timely;
    }
  }

  /**
    A refused block leaves no trace exactly when a rule or its transition refused it, or
    everything it writes was there already; a pull-up that fails leaves a new block in the store.
   */
  lemma RefusedBlockTrace(env: Env, s: Store, block: Block)
    requires ParentsLower(s.blocks) && Insertable(env, s, block) && !DeliverBlock(env, s, block).1
    ensures DeliverBlock(env, s, block).0 == s
       <==> !BlockAcceptable(env, s, block) || env.transition(s.blockStates[block.parentRoot], block).None?
            || AlreadyThere(env, s, block, env.transition(s.blockStates[block.parentRoot], block).value)
    ensures DeliverBlock(env, s, block).0 != s ==> env.rootOf(block) in DeliverBlock(env, s, block).0.blocks
  {
    if BlockAcceptable(env, s, block) && env.transition(s.blockStates[block.parentRoot], block).Some? {
      RefusedInsertTrace(env, s, block, env.transition(s.blockStates[block.parentRoot], block).value);
    }
  }

  /** A refusal that leaves its block behind: the pull-up fails after the block has been written. */
  lemma RefusedBlockStays(env: Env, s: Store, block: Block)
    requires ParentsLower(s.blocks) && Insertable(env, s, block)
    requires BlockAcceptable(env, s, block) && env.rootOf(block) !in s.blocks
    requires var post := env.transition(s.blockStates[block.parentRoot], block);
             post.Some? && env.pullUp(post.value).None?
    ensures !DeliverBlock(env, s, block).1 && DeliverBlock(env, s, block).0 != s
    ensures DeliverBlock(env, s, block).0.blocks == s.blocks[env.rootOf(block) := block]
  {
    RefusedBlockTrace(env, s, block);
  }

  lemma RefusedInsertTrace(env: Env, s: Store, block: Block, post: BeaconState)
    requires ParentsLower(s.blocks) && ParentsLower(s.blocks[env.rootOf(block) := block])
    requires BlockAcceptable(env, s, block) && env.pullUp(post).None?
    ensures OnBlock(env, s, block, post, s.time).0 == s <==> AlreadyThere(env, s, block, post)
    ensures env.rootOf(block) in OnBlock(env, s, block, post, s.time).0.blocks
  {
    var root, t := env.rootOf(block), OnBlock(env, s, block, post, s.time).0;
    var inserted := InsertBlock(env, s, block, post, s.time);
    InsertAgain(env, s, block, post);
    if t == s {
      assert root in t.blocks && t.blocks[root] == block && root in t.blockStates && t.blockStates[root] == post;
      assert root in t.payloads && root in t.timely;
      assert inserted == s.(blocks := t.blocks, blockStates := t.blockStates, payloads := t.payloads,
                            timely := t.timely);
    }
  }

  /** An accepted block descends from the block that was finalized when it arrived. */
  lemma AcceptedBlockExtendsFinalized(env: Env, a: Anchor, s: Store, block: Block)
    requires EnvLaws(env) && TrustedAnchor(env, a) && StoreInv(env, a, s) && Insertable(env, s, block)
    requires DeliverBlock(env, s, block).1
    ensures ParentsLower(DeliverBlock(env, s, block).0.blocks)
    ensures env.rootOf(block) in DeliverBlock(env, s, block).0.blocks
    ensures OnChain(DeliverBlock(env, s, block).0.blocks, s.finalized.root, env.rootOf(block))
  {
    var t := DeliverBlock(env, s, block).0;
    BlockKeeps(env, a, s, block);
    DeliveryFrame(env, s, block, env.transition(s.blockStates[block.parentRoot], block).value, s.time);
    ExtendKeepsChain(s.blocks, t.blocks, s.finalized.root, block.parentRoot);
  }
}
