/**
  What an accepted message does to the store, and exactly which messages are accepted
  (`crates/pharos-fork-choice/src/handlers.rs`): one law for each thing a handler writes.
 */
module HandlerEffects {
  import opened Types
  import opened Ancestry
  import opened Weights
  import opened HeadSelection
  import opened Handlers
  import opened StoreInvariant
  import Arithmetic

  // ── attestations ────────────────────────────────────────────────────────────

  /** The vote of `i` is replaced by `m`: `i` attested, is not frozen, and had no vote of that epoch or later. */
  predicate Moves(votes: Votes, frozen: set<ValidatorIndex>, indices: seq<ValidatorIndex>, m: LatestMessage,
                  i: ValidatorIndex)
  {
    i in indices && i !in frozen && (i in votes ==> votes[i].epoch < m.epoch)
  }

  predicate SameVote(before: Votes, after: Votes, i: ValidatorIndex) {
    (i in before <==> i in after) && (i in before ==> before[i] == after[i])
  }

  lemma {:induction false} VoteAllRecords(votes: Votes, frozen: set<ValidatorIndex>, indices: seq<ValidatorIndex>,
                                          m: LatestMessage, i: ValidatorIndex)
    ensures var after := VoteAll(votes, frozen, indices, m);
            if Moves(votes, frozen, indices, m, i) then i in after && after[i] == m else SameVote(votes, after, i)
  {
    if indices != [] {
      var n := |indices| - 1;
      VoteAllRecords(votes, frozen, indices[..n], m, i);
      assert indices == indices[..n] + [indices[n]];
    }
  }

  /** The attesters of an attestation on the store `s`. */
  function Attesters(env: Env, s: Store, att: Attestation): seq<ValidatorIndex>
    requires TargetState(env, s, att.data.target).Some?
    requires env.attesters(TargetState(env, s, att.data.target).value, att).Some?
  {
    env.attesters(TargetState(env, s, att.data.target).value, att).value
  }

  /** An accepted attestation gives each attester its vote, unless a vote at least as late stands or is frozen. */
  lemma AttestationRecords(env: Env, s: Store, att: Attestation, fromBlock: bool, i: ValidatorIndex)
    requires ParentsLower(s.blocks) && OnAttestation(env, s, att, fromBlock).1
    ensures TargetState(env, s, att.data.target).Some?
    ensures env.attesters(TargetState(env, s, att.data.target).value, att).Some?
    ensures var votes := OnAttestation(env, s, att, fromBlock).0.latestMessages;
            if i in Attesters(env, s, att) && i !in s.equivocating
               && (i in s.latestMessages ==> s.latestMessages[i].epoch < att.data.target.epoch)
            then i in votes && votes[i] == LatestMessage(att.data.target.epoch, att.data.blockRoot)
            else SameVote(s.latestMessages, votes, i)
  {
    VoteAllRecords(s.latestMessages, s.equivocating, Attesters(env, s, att),
                   LatestMessage(att.data.target.epoch, att.data.blockRoot), i);
  }

  /** From then on an eligible attester supports exactly the chain of the attested block. */
  lemma AttestationSupports(env: Env, s: Store, att: Attestation, fromBlock: bool, i: ValidatorIndex,
                            state: BeaconState, r: Root)
    requires ParentsLower(s.blocks) && OnAttestation(env, s, att, fromBlock).1 && r in s.blocks
    requires TargetState(env, s, att.data.target).Some?
    requires env.attesters(TargetState(env, s, att.data.target).value, att).Some?
    requires Moves(s.latestMessages, s.equivocating, Attesters(env, s, att),
                   LatestMessage(att.data.target.epoch, att.data.blockRoot), i)
    requires i in ActiveIndices(s.preset, state) && !state.validators[i].slashed
    ensures i in Supporters(OnAttestation(env, s, att, fromBlock).0, state, r)
       <==> OnChain(s.blocks, r, att.data.blockRoot)
  {
    AttestationRecords(env, s, att, fromBlock, i);
    VoteCountsIff(OnAttestation(env, s, att, fromBlock).0, state, r, i);
  }

  /** The target state is built and cached for the epoch it names, and never replaced. */
  lemma AttestationCaches(env: Env, s: Store, att: Attestation, fromBlock: bool, c: Checkpoint)
    requires ParentsLower(s.blocks) && OnAttestation(env, s, att, fromBlock).1
    ensures var states := OnAttestation(env, s, att, fromBlock).0.checkpointStates;
            && (c in states <==> c in s.checkpointStates || c == att.data.target)
            && (c in s.checkpointStates ==> states[c] == s.checkpointStates[c])
            && (c !in s.checkpointStates && c == att.data.target ==>
                  c.root in s.blockStates
                  && (if s.blockStates[c.root].slot < StartSlot(s.preset, c.epoch)
                      then Some(states[c]) == env.processSlots(s.blockStates[c.root], StartSlot(s.preset, c.epoch))
                      else states[c] == s.blockStates[c.root]))
  {
  }

  /** Exactly the attestations that are accepted. */
  lemma AttestationAcceptedIff(env: Env, s: Store, att: Attestation, fromBlock: bool)
    requires ParentsLower(s.blocks)
    ensures var (data, now) := (att.data, CurrentEpoch(s));
            OnAttestation(env, s, att, fromBlock).1
            <==> (&& (fromBlock || data.target.epoch == now || data.target.epoch + 1 == now)
                  && data.slot < CurrentSlot(s) && EpochAt(s.preset, data.slot) == data.target.epoch
                  && data.blockRoot in s.blocks && s.blocks[data.blockRoot].slot <= data.slot
                  && data.target.root in s.blocks
                  && LastUpTo(s.blocks, data.target.root, data.blockRoot, StartSlot(s.preset, data.target.epoch))
                  && TargetState(env, s, data.target).Some?
                  && env.attesters(TargetState(env, s, data.target).value, att).Some?)
  {
    WalkFindsLast(s.blocks, att.data.target.root, att.data.blockRoot, StartSlot(s.preset, att.data.target.epoch));
  }

  /** A block's attestations are fed one after the other, each into what the earlier ones left. */
  lemma {:induction false} FeedAppends(env: Env, s: Store, atts: seq<Attestation>, att: Attestation)
    requires ParentsLower(s.blocks)
    ensures FeedAttestations(env, s, []) == s
    ensures FeedAttestations(env, s, atts + [att]) == OnAttestation(env, FeedAttestations(env, s, atts), att, true).0
    decreases |atts|
  {
    if atts == [] {
      assert ([] + [att])[1..] == [];
    } else {
      assert (atts + [att])[1..] == atts[1..] + [att];
      FeedAppends(env, OnAttestation(env, s, atts[0], true).0, atts[1..], att);
    }
  }

  // ── blocks ──────────────────────────────────────────────────────────────────

  /** Exactly the blocks that are accepted. */
  lemma BlockAcceptedIff(env: Env, s: Store, block: Block)
    requires ParentsLower(s.blocks) && Insertable(env, s, block)
    ensures DeliverBlock(env, s, block).1
       <==> (&& block.parentRoot in s.blockStates
             && StartSlot(s.preset, s.finalized.epoch) < block.slot <= CurrentSlot(s)
             && LastUpTo(s.blocks, s.finalized.root, block.parentRoot, StartSlot(s.preset, s.finalized.epoch))
             && env.mergeAllowed(s.blockStates[block.parentRoot], block)
             && var post := env.transition(s.blockStates[block.parentRoot], block);
                post.Some? && env.pullUp(post.value).Some?)
  {
    WalkFindsLast(s.blocks, s.finalized.root, block.parentRoot, StartSlot(s.preset, s.finalized.epoch));
  }

  /** The state of an accepted block after its own transition. */
  function PostState(env: Env, s: Store, block: Block): BeaconState
    requires block.parentRoot in s.blockStates && env.transition(s.blockStates[block.parentRoot], block).Some?
  {
    env.transition(s.blockStates[block.parentRoot], block).value
  }

  /** An accepted block is stored with its post-state, an undecided verdict if it had none, and its timeliness. */
  lemma AcceptedBlockIsStored(env: Env, s: Store, block: Block)
    requires ParentsLower(s.blocks) && Insertable(env, s, block) && DeliverBlock(env, s, block).1
    ensures block.parentRoot in s.blockStates && env.transition(s.blockStates[block.parentRoot], block).Some?
    ensures var (root, t) := (env.rootOf(block), DeliverBlock(env, s, block).0);
            && t.blocks == s.blocks[root := block]
            && t.blockStates == s.blockStates[root := PostState(env, s, block)]
            && t.payloads == s.payloads[root := if root in s.payloads then s.payloads[root] else NotValidated]
            && root in t.timely
            && (t.timely[root] <==> block.slot * SlotMs(s) <= Millis(s.time, s.genesisTime)
                                    < block.slot * SlotMs(s) + TimelyWindow(s.preset, SlotMs(s)))
  {
    TimelyIff(s.preset, SlotMs(s), s.genesisTime, block.slot, s.time);
    var root := env.rootOf(block);
    if root in s.payloads { assert s.payloads[root := s.payloads[root]] == s.payloads; }
  }

  /** It votes from its pulled-up checkpoint once its epoch is over, and from its own state's until then. */
  lemma AcceptedBlockVotes(env: Env, s: Store, block: Block)
    requires ParentsLower(s.blocks) && Insertable(env, s, block) && DeliverBlock(env, s, block).1
    ensures block.parentRoot in s.blockStates && env.transition(s.blockStates[block.parentRoot], block).Some?
    ensures env.pullUp(PostState(env, s, block)).Some?
    ensures var (t, post) := (DeliverBlock(env, s, block).0, PostState(env, s, block));
            VotingSource(t, env.rootOf(block))
            == if EpochAt(s.preset, block.slot) == CurrentEpoch(s) then post.justified else env.pullUp(post).value.0
    ensures forall time: nat ::
              EpochAt(s.preset, block.slot) < CurrentEpoch(OnTick(DeliverBlock(env, s, block).0, time)) ==>
                VotingSource(OnTick(DeliverBlock(env, s, block).0, time), env.rootOf(block))
                == env.pullUp(PostState(env, s, block)).value.0
  {
    Arithmetic.DivMonotone(block.slot, CurrentSlot(s), s.preset.slotsPerEpoch);
  }

  ghost predicate IsLatest(c: Checkpoint, offered: set<Checkpoint>) {
    c in offered && forall d :: d in offered ==> d.epoch <= c.epoch
  }

  /** Each checkpoint becomes the latest one offered; pulled-up ones are offered to a past epoch's block only. */
  lemma AcceptedBlockCheckpoints(env: Env, s: Store, block: Block)
    requires ParentsLower(s.blocks) && Insertable(env, s, block) && DeliverBlock(env, s, block).1
    ensures block.parentRoot in s.blockStates && env.transition(s.blockStates[block.parentRoot], block).Some?
    ensures env.pullUp(PostState(env, s, block)).Some?
    ensures var (t, post) := (DeliverBlock(env, s, block).0, PostState(env, s, block));
            var (j, f) := env.pullUp(post).value;
            var past := EpochAt(s.preset, block.slot) < CurrentEpoch(s);
            && IsLatest(t.justified, {s.justified, post.justified} + if past then {j} else {})
            && IsLatest(t.finalized, {s.finalized, post.finalized} + if past then {f} else {})
            && IsLatest(t.unrealizedJustified, {s.unrealizedJustified, j})
            && IsLatest(t.unrealizedFinalized, {s.unrealizedFinalized, f})
  {
  }

  /** Slot processing ends at the slot it is asked for. */
  ghost predicate SlotsAreProcessed(env: Env) {
    forall state, slot :: env.processSlots(state, slot).Some? ==> env.processSlots(state, slot).value.slot == slot
  }

  /** The expected proposer is that of the head's state brought up to the current slot. */
  lemma ProposerIsOfTheSlot(env: Env, s: Store) returns (state: BeaconState)
    requires ParentsLower(s.blocks) && SlotsAreProcessed(env) && ExpectedProposer(env, s).Some?
    ensures ExpectedProposer(env, s) == Some(env.proposerIndex(state)) && state.slot >= CurrentSlot(s)
    ensures Head(s) in s.blockStates
            && (state == s.blockStates[Head(s)]
                || Some(state) == env.processSlots(s.blockStates[Head(s)], CurrentSlot(s)))
  {
    var own := s.blockStates[Head(s)];
    state := if own.slot < CurrentSlot(s) then env.processSlots(own, CurrentSlot(s)).value else own;
  }

  /** The block gets the boost exactly when no block holds it, it is timely and by the expected proposer. */
  lemma BoostGivenIff(env: Env, s: Store, block: Block)
    requires ParentsLower(s.blocks) && Insertable(env, s, block) && DeliverBlock(env, s, block).1
    requires env.rootOf(block) != ZERO_ROOT
    ensures ParentsLower(s.blocks[env.rootOf(block) := block])
    ensures var (root, t) := (env.rootOf(block), DeliverBlock(env, s, block).0);
            && (t.boostRoot == s.boostRoot || (s.boostRoot == ZERO_ROOT && t.boostRoot == root))
            && (s.boostRoot == ZERO_ROOT ==>
                  (t.boostRoot == root <==>
                     t.timely[root]
                     && ExpectedProposer(env, InsertBlock(env, s, block, PostState(env, s, block), s.time))
                        == Some(block.proposer)))
  {
  }

  // ── ticks ───────────────────────────────────────────────────────────────────

  /** A tick into a later slot takes the boost away; into a later epoch it also adopts later unrealized checkpoints. */
  lemma TickEffect(s: Store, time: nat)
    ensures var t := OnTick(s, time);
            && t.time == time
            && t.boostRoot == (if CurrentSlot(t) > CurrentSlot(s) then ZERO_ROOT else s.boostRoot)
            && (CurrentEpoch(t) <= CurrentEpoch(s) ==> t.justified == s.justified && t.finalized == s.finalized)
            && (CurrentEpoch(t) > CurrentEpoch(s) ==>
                  && t.justified == (if s.unrealizedJustified.epoch > s.justified.epoch
                                     then s.unrealizedJustified else s.justified)
                  && t.finalized == (if s.unrealizedFinalized.epoch > s.finalized.epoch
                                     then s.unrealizedFinalized else s.finalized))
  {
    var slot := SlotFromTime(time, s.genesisTime, SlotMs(s));
    if slot <= CurrentSlot(s) { Arithmetic.DivMonotone(slot, CurrentSlot(s), s.preset.slotsPerEpoch); }
  }

  // ── slashings ───────────────────────────────────────────────────────────────

  predicate Spans(a: AttestationData, e: Epoch) { a.source.epoch <= e <= a.target.epoch }

  /** The vote `b`, from its source to its target, lies strictly inside that of `a`. */
  ghost predicate Surrounds(a: AttestationData, b: AttestationData) {
    forall e: Epoch :: Spans(b, e) ==> a.source.epoch < e < a.target.epoch
  }

  /** For votes that look forward: two different ones for a target epoch, or the first around the second. */
  lemma SlashableIff(a: AttestationData, b: AttestationData)
    requires b.source.epoch <= b.target.epoch
    ensures Slashable(a, b) <==> (a != b && a.target.epoch == b.target.epoch) || Surrounds(a, b)
  {
    assert Spans(b, b.source.epoch) && Spans(b, b.target.epoch);
  }

  /** An accepted slashing adds exactly the validators that are in both attestations; a refused one adds nobody. */
  lemma SlashingEffect(env: Env, s: Store, slashing: AttesterSlashing, i: ValidatorIndex)
    ensures var (t, ok) := OnAttesterSlashing(env, s, slashing);
            && (i in t.equivocating <==> i in s.equivocating
                                         || (ok && i in slashing.first.indices && i in slashing.second.indices))
            && (ok <==> && Slashable(slashing.first.data, slashing.second.data) && s.justified.root in s.blockStates
                        && env.validIndexed(s.blockStates[s.justified.root], slashing.first)
                        && env.validIndexed(s.blockStates[s.justified.root], slashing.second))
  {
  }

  /** Their votes stop counting, for every block, and nobody else's do. */
  lemma SlashingRemovesVotes(env: Env, s: Store, slashing: AttesterSlashing, state: BeaconState, r: Root)
    requires ParentsLower(s.blocks) && r in s.blocks && OnAttesterSlashing(env, s, slashing).1
    ensures Supporters(OnAttesterSlashing(env, s, slashing).0, state, r)
         == Supporters(s, state, r) - (Range(slashing.first.indices) * Range(slashing.second.indices))
  {
    var t := OnAttesterSlashing(env, s, slashing).0;
    forall i: ValidatorIndex { SlashingEffect(env, s, slashing, i); }
  }
}
