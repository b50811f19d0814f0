/**
  The fork-choice handlers of `crates/pharos-fork-choice/src/handlers.rs` as
  functions from store to store.  State transition, hashing, signatures and slot
  processing are the fields of `Env`; what the proofs assume of them is `EnvLaws`.
 */
module Handlers {
  import opened Types
  import opened Ancestry
  import opened Weights
  import opened HeadSelection
  import opened Arithmetic

  datatype AttestationData = AttestationData(slot: Slot, index: nat, blockRoot: Root, source: Checkpoint,
                                             target: Checkpoint)

  /** `votes` stands for the bit fields and the signature. */
  datatype Attestation = Attestation(data: AttestationData, votes: nat)

  datatype IndexedAttestation = IndexedAttestation(indices: seq<ValidatorIndex>, data: AttestationData, signature: nat)

  datatype AttesterSlashing = AttesterSlashing(first: IndexedAttestation, second: IndexedAttestation)

  datatype Env = Env(
    rootOf: Block -> Root,                                                   // `tree_hash_root`
    transition: (BeaconState, Block) -> Option<BeaconState>,                 // `state_transition`
    pullUp: BeaconState -> Option<(Checkpoint, Checkpoint)>,                 // justification and finalization of a copy
    processSlots: (BeaconState, Slot) -> Option<BeaconState>,
    proposerIndex: BeaconState -> ValidatorIndex,
    mergeAllowed: (BeaconState, Block) -> bool,                              // merge-transition guard
    attesters: (BeaconState, Attestation) -> Option<seq<ValidatorIndex>>,    // None: invalid indexed attestation
    validIndexed: (BeaconState, IndexedAttestation) -> bool,
    committee: (BeaconState, Slot) -> set<ValidatorIndex>)

  /** Block roots are collision free, and a transition only accepts a block newer than the state's latest header. */
  ghost predicate EnvLaws(env: Env) {
    && (forall a, b :: env.rootOf(a) == env.rootOf(b) ==> a == b)
    && (forall pre, b :: env.transition(pre, b).Some? ==>
          pre.headerSlot < b.slot && env.transition(pre, b).value.headerSlot == b.slot)
  }

  // ── checkpoints and ticks ───────────────────────────────────────────────────

  /** Promotion rule: replaced only by a strictly later epoch. */
  function Later(before: Checkpoint, after: Checkpoint): Checkpoint {
    if after.epoch > before.epoch then after else before
  }

  /**
    What a tick amounts to, however many slots it spans: the boost goes when the slot
    advances, and unrealized checkpoints are adopted when the epoch does.
   */
  function OnTick(s: Store, time: nat): Store {
    var slot := SlotFromTime(time, s.genesisTime, SlotMs(s));
    var newSlot, newEpoch := slot > CurrentSlot(s), EpochAt(s.preset, slot) > CurrentEpoch(s);
    s.(time := time,
       boostRoot := if newSlot then ZERO_ROOT else s.boostRoot,
       justified := if newSlot && newEpoch then Later(s.justified, s.unrealizedJustified) else s.justified,
       finalized := if newSlot && newEpoch then Later(s.finalized, s.unrealizedFinalized) else s.finalized)
  }

  /** Slot starts fall on whole seconds, so the slot-by-slot catch-up makes progress. */
  ghost predicate WholeSeconds(s: Store) { SlotMs(s) % 1000 == 0 }

  lemma WholeSecondsIff(s: Store)
    ensures WholeSeconds(s) <==> s.secondsPerSlot != 0 || s.preset.slotDurationMs % 1000 == 0
  {
  }

  /** The whole second in which slot `n` starts belongs to slot `n`. */
  predicate StartIsExact(n: Slot, genesis: nat, slotMs: Positive) {
    SlotFromTime(SlotStartTime(n, genesis, slotMs), genesis, slotMs) == n
  }

  ghost predicate ExactBetween(first: Slot, last: Slot, genesis: nat, slotMs: Positive) {
    forall n: Slot :: first < n <= last ==> StartIsExact(n, genesis, slotMs)
  }

  /** The catch-up from the store's clock to `now` ends: each slot on the way has an exact start. */
  ghost predicate CanCatchUp(s: Store, now: nat) {
    ExactBetween(CurrentSlot(s), SlotFromTime(now, s.genesisTime, SlotMs(s)), s.genesisTime, SlotMs(s))
  }

  lemma WholeSecondsCatchUp(s: Store, now: nat)
    requires WholeSeconds(s)
    ensures CanCatchUp(s, now)
  {
    forall n: Slot | CurrentSlot(s) < n <= SlotFromTime(now, s.genesisTime, SlotMs(s))
      ensures StartIsExact(n, s.genesisTime, SlotMs(s))
    {
      SlotStartsAreExact(n, s.genesisTime, SlotMs(s));
    }
  }

  lemma SlotStartsAreExact(slot: Slot, genesis: nat, slotMs: Positive)
    requires slotMs % 1000 == 0
    ensures SlotFromTime(SlotStartTime(slot, genesis, slotMs), genesis, slotMs) == slot
  {
    var k := slotMs / 1000;
    assert slot * slotMs == slot * k * 1000;
    assert slot * k * 1000 / 1000 == slot * k;
    DivUnique(slot * slotMs, slot, 0, slotMs);
  }

  /** Catching up reaches every slot exactly when slots last whole seconds; otherwise slot 1 is never reached. */
  lemma CatchUpProgressesIff(genesis: nat, slotMs: Positive)
    ensures (forall n: Slot :: SlotFromTime(SlotStartTime(n, genesis, slotMs), genesis, slotMs) >= n)
       <==> slotMs % 1000 == 0
  {
    if slotMs % 1000 == 0 {
      forall n: Slot { SlotStartsAreExact(n, genesis, slotMs); }
    } else {
      var elapsed := SlotStartTime(1, genesis, slotMs) - genesis;
      assert elapsed * 1000 < slotMs;
      assert SlotFromTime(SlotStartTime(1, genesis, slotMs), genesis, slotMs) == 0;
    }
  }

  // ── on_block ────────────────────────────────────────────────────────────────

  /** Whether a block of `slot` arriving at `now` beats the attestation deadline of its own slot. */
  predicate IsTimely(p: Preset, slotMs: Positive, genesis: nat, slot: Slot, now: nat) {
    var intoSlot := SinceGenesis(now, genesis) * 1000 % slotMs;
    SlotFromTime(now, genesis, slotMs) == slot && intoSlot < p.attestationDueBps * p.slotDurationMs / 10000
  }

  function Millis(now: nat, genesis: nat): nat { SinceGenesis(now, genesis) * 1000 }

  function TimelyWindow(p: Preset, slotMs: Positive): nat {
    var due := p.attestationDueBps * p.slotDurationMs / 10000; if due < slotMs then due else slotMs
  }

  /** Timely means: at or after the start of the block's slot, and before its attestation deadline. */
  lemma TimelyIff(p: Preset, slotMs: Positive, genesis: nat, slot: Slot, now: nat)
    ensures IsTimely(p, slotMs, genesis, slot, now)
       <==> slot * slotMs <= Millis(now, genesis) < slot * slotMs + TimelyWindow(p, slotMs)
  {
    var ms := Millis(now, genesis);
    assert ms == ms / slotMs * slotMs + ms % slotMs;
    if slot * slotMs <= ms < slot * slotMs + slotMs { DivUnique(ms, slot, ms - slot * slotMs, slotMs); }
  }

  /** A block that is late once its slot has begun is late at every later time. */
  lemma LateStaysLate(p: Preset, slotMs: Positive, genesis: nat, slot: Slot, now: nat, later: nat)
    requires now <= later && slot * slotMs <= Millis(now, genesis) && !IsTimely(p, slotMs, genesis, slot, now)
    ensures !IsTimely(p, slotMs, genesis, slot, later)
  {
    TimelyIff(p, slotMs, genesis, slot, now);
    TimelyIff(p, slotMs, genesis, slot, later);
  }

  /** The proposer expected at the current slot on top of the head, if it can be computed. */
  ghost function ExpectedProposer(env: Env, s: Store): Option<ValidatorIndex>
    requires ParentsLower(s.blocks)
  {
    var head := Head(s);
    if head !in s.blockStates then None else
      var state := s.blockStates[head];
      var advanced := if state.slot < CurrentSlot(s) then env.processSlots(state, CurrentSlot(s)) else Some(state);
      if advanced.None? then None else Some(env.proposerIndex(advanced.value))
  }

  /** `update_proposer_boost_root`: only the first timely block of the expected proposer is boosted. */
  ghost function BoostAfter(env: Env, s: Store, root: Root): Root
    requires ParentsLower(s.blocks)
  {
    if s.boostRoot == ZERO_ROOT && root in s.timely && s.timely[root] && root in s.blocks
       && ExpectedProposer(env, s) == Some(s.blocks[root].proposer)
    then root else s.boostRoot
  }

  /** The checks `on_block` makes before it writes anything. */
  predicate BlockAcceptable(env: Env, s: Store, block: Block)
    requires ParentsLower(s.blocks)
  {
    && block.parentRoot in s.blockStates
    && block.slot <= CurrentSlot(s)
    && StartSlot(s.preset, s.finalized.epoch) < block.slot
    && s.finalized.root == CheckpointBlock(s, block.parentRoot, s.finalized.epoch)
    && env.mergeAllowed(s.blockStates[block.parentRoot], block)
  }

  /** The writes made before fork choice is consulted again. */
  function InsertBlock(env: Env, s: Store, block: Block, post: BeaconState, now: nat): Store {
    var root := env.rootOf(block);
    s.(blocks := s.blocks[root := block],
       blockStates := s.blockStates[root := post],
       payloads := if root in s.payloads then s.payloads else s.payloads[root := NotValidated],
       timely := s.timely[root := IsTimely(s.preset, SlotMs(s), s.genesisTime, block.slot, now)])
  }

  /**
    `on_block`: insertion, boost, realized checkpoints, then the pull-up of the new tip.
    A failing pull-up is reported although the block has been stored.
   */
  ghost function OnBlock(env: Env, s: Store, block: Block, post: BeaconState, now: nat): (Store, bool)
    requires ParentsLower(s.blocks)
    requires BlockAcceptable(env, s, block) ==> ParentsLower(s.blocks[env.rootOf(block) := block])
  {
    if !BlockAcceptable(env, s, block) then (s, false) else
      var root, inserted := env.rootOf(block), InsertBlock(env, s, block, post, now);
      var boost := BoostAfter(env, inserted, root);
      var (j, f) := (Later(s.justified, post.justified), Later(s.finalized, post.finalized));
      match env.pullUp(post)
      case None => (inserted.(boostRoot := boost, justified := j, finalized := f), false)
      case Some((uj, uf)) =>
        var past := EpochAt(s.preset, block.slot) < CurrentEpoch(s);
        (inserted.(boostRoot := boost,
                   justified := if past then Later(j, uj) else j,
                   finalized := if past then Later(f, uf) else f,
                   unrealized := s.unrealized[root := uj],
                   unrealizedJustified := Later(s.unrealizedJustified, uj),
                   unrealizedFinalized := Later(s.unrealizedFinalized, uf)), true)
  }

  /** Hanging `block` into the tree keeps parents lower, whenever the drivers would get that far. */
  ghost predicate Insertable(env: Env, s: Store, block: Block) {
    block.parentRoot in s.blockStates && env.transition(s.blockStates[block.parentRoot], block).Some? ==>
      ParentsLower(s.blocks[env.rootOf(block) := block])
  }

  /**
    How every driver delivers a block: look up the parent state, run the transition, then
    `on_block` at the store's own time.  A missing parent or a failed transition is a refusal.
   */
  ghost function DeliverBlock(env: Env, s: Store, block: Block): (Store, bool)
    requires ParentsLower(s.blocks) && Insertable(env, s, block)
  {
    if block.parentRoot !in s.blockStates then (s, false) else
      var post := env.transition(s.blockStates[block.parentRoot], block);
      if post.None? then (s, false) else OnBlock(env, s, block, post.value, s.time)
  }

  // ── on_attestation ──────────────────────────────────────────────────────────

  predicate TargetIsRecent(s: Store, data: AttestationData) {
    var current := CurrentEpoch(s);
    var previous := if current > 0 then current - 1 else 0;
    data.target.epoch == current || data.target.epoch == previous
  }

  /** `validate_on_attestation`. */
  predicate AttestationAcceptable(s: Store, data: AttestationData, fromBlock: bool)
    requires ParentsLower(s.blocks)
  {
    && (fromBlock || TargetIsRecent(s, data))
    && data.target.epoch == EpochAt(s.preset, data.slot)
    && data.target.root in s.blocks
    && data.blockRoot in s.blocks
    && s.blocks[data.blockRoot].slot <= data.slot
    && data.target.root == CheckpointBlock(s, data.blockRoot, data.target.epoch)
    && data.slot + 1 <= CurrentSlot(s)
  }

  /** The state `store_target_checkpoint_state` would keep for `target`. */
  function TargetState(env: Env, s: Store, target: Checkpoint): Option<BeaconState> {
    if target in s.checkpointStates then Some(s.checkpointStates[target])
    else if target.root !in s.blockStates then None
    else
      var state := s.blockStates[target.root];
      var start := StartSlot(s.preset, target.epoch);
      if state.slot < start then env.processSlots(state, start) else Some(state)
  }

  type Votes = map<ValidatorIndex, LatestMessage>

  /** One `update_latest_messages` step: only a later target epoch replaces a vote, and equivocators stay frozen. */
  function Vote(votes: Votes, frozen: set<ValidatorIndex>, i: ValidatorIndex, m: LatestMessage): Votes {
    if i in frozen || (i in votes && m.epoch <= votes[i].epoch) then votes else votes[i := m]
  }

  function VoteAll(votes: Votes, frozen: set<ValidatorIndex>, indices: seq<ValidatorIndex>, m: LatestMessage): Votes {
    if indices == [] then votes
    else Vote(VoteAll(votes, frozen, indices[..|indices|-1], m), frozen, indices[|indices|-1], m)
  }

  /** `on_attestation`, `on_attestation_electra`: the flag tells acceptance. */
  function OnAttestation(env: Env, s: Store, att: Attestation, fromBlock: bool): (r: (Store, bool))
    requires ParentsLower(s.blocks)
    ensures r.0 == s.(checkpointStates := r.0.checkpointStates, latestMessages := r.0.latestMessages)
  {
    if !AttestationAcceptable(s, att.data, fromBlock) then (s, false) else
      var state := TargetState(env, s, att.data.target);
      if state.None? then (s, false) else
        var known := s.checkpointStates[att.data.target := state.value];
        match env.attesters(state.value, att)
        case None => (s.(checkpointStates := known), false)
        case Some(indices) =>
          var m := LatestMessage(att.data.target.epoch, att.data.blockRoot);
          (s.(checkpointStates := known, latestMessages := VoteAll(s.latestMessages, s.equivocating, indices, m)), true)
  }

  /** The post-block feed-through of a block's own attestations; refusals are ignored. */
  function FeedAttestations(env: Env, s: Store, atts: seq<Attestation>): (t: Store)
    requires ParentsLower(s.blocks)
    ensures t == s.(checkpointStates := t.checkpointStates, latestMessages := t.latestMessages)
    decreases |atts|
  {
    if atts == [] then s else FeedAttestations(env, OnAttestation(env, s, atts[0], true).0, atts[1..])
  }

  // ── on_attester_slashing ────────────────────────────────────────────────────

  /** A double vote, or the first attestation surrounding the second. */
  predicate Slashable(a: AttestationData, b: AttestationData) {
    (a != b && a.target.epoch == b.target.epoch) || (a.source.epoch < b.source.epoch && b.target.epoch < a.target.epoch)
  }

  function Range(xs: seq<ValidatorIndex>): set<ValidatorIndex> { set x | x in xs }

  function OnAttesterSlashing(env: Env, s: Store, slashing: AttesterSlashing): (r: (Store, bool))
    ensures s.equivocating <= r.0.equivocating && r.0 == s.(equivocating := r.0.equivocating)
  {
    if !Slashable(slashing.first.data, slashing.second.data) || s.justified.root !in s.blockStates then (s, false) else
      var state := s.blockStates[s.justified.root];
      if !env.validIndexed(state, slashing.first) || !env.validIndexed(state, slashing.second) then (s, false)
      else (s.(equivocating := s.equivocating + (Range(slashing.first.indices) * Range(slashing.second.indices))), true)
  }
}
