/**
  The mutable store and its handlers in the form the source gives them
  (`crates/pharos-fork-choice/src/handlers.rs`): fields written step by step,
  proved equal to the store functions of `Handlers`.
 */
module ForkChoiceObject {
  import opened Types
  import opened Ancestry
  import opened Weights
  import opened HeadSelection
  import opened Handlers
  import opened StoreInvariant
  import opened Arithmetic

  /** `on_tick_per_slot` as a function of the store. */
  ghost function TickPerSlot(s: Store, time: nat): Store {
    var slot := SlotFromTime(time, s.genesisTime, SlotMs(s));
    var newSlot, epochStart := slot > CurrentSlot(s), SlotsSinceEpochStart(s.preset, slot) == 0;
    s.(time := time,
       boostRoot := if newSlot then ZERO_ROOT else s.boostRoot,
       justified := if newSlot && epochStart then Later(s.justified, s.unrealizedJustified) else s.justified,
       finalized := if newSlot && epochStart then Later(s.finalized, s.unrealizedFinalized) else s.finalized)
  }

  /** Entering the next slot enters a new epoch exactly at an epoch's first slot. */
  lemma NextSlotEpoch(p: Preset, slot: Slot)
    ensures EpochAt(p, slot) <= EpochAt(p, slot + 1)
    ensures EpochAt(p, slot + 1) > EpochAt(p, slot) <==> SlotsSinceEpochStart(p, slot + 1) == 0
  {
    var n, q, r := p.slotsPerEpoch, slot / p.slotsPerEpoch, slot % p.slotsPerEpoch;
    if r + 1 < n {
      DivUnique(slot + 1, q, r + 1, n);
    } else {
      assert slot + 1 == q * n + n == (q + 1) * n;
      DivUnique(slot + 1, q + 1, 0, n);
    }
  }

  /** One more slot of catching up turns the closed form for `t1` into the one for `t2`. */
  lemma TicksCompose(s: Store, t1: nat, t2: nat)
    requires var (slot1, slot2) := (SlotFromTime(t1, s.genesisTime, SlotMs(s)),
                                    SlotFromTime(t2, s.genesisTime, SlotMs(s)));
             CurrentSlot(s) <= slot1 && (slot2 == slot1 || slot2 == slot1 + 1)
    ensures TickPerSlot(OnTick(s, t1), t2) == OnTick(s, t2)
  {
    var slot1 := SlotFromTime(t1, s.genesisTime, SlotMs(s));
    NextSlotEpoch(s.preset, slot1);
    DivMonotone(CurrentSlot(s), slot1, s.preset.slotsPerEpoch);
  }

  // ── when the catch-up loop ends ─────────────────────────────────────────────

  /** One turn of the catch-up loop: a tick to the start of the next slot. */
  ghost function NextTick(s: Store): Store {
    TickPerSlot(s, SlotStartTime(CurrentSlot(s) + 1, s.genesisTime, SlotMs(s)))
  }

  ghost function NextTicks(s: Store, turns: nat): Store
    decreases turns
  {
    if turns == 0 then s else NextTicks(NextTick(s), turns - 1)
  }

  ghost predicate ReachedBy(s: Store, slot: Slot, turns: nat) { CurrentSlot(NextTicks(s, turns)) >= slot }

  lemma StartIsNotLate(slot: Slot, slotMs: Positive)
    ensures slot * slotMs / 1000 * 1000 / slotMs <= slot
  {
    DivMonotone(slot * slotMs / 1000 * 1000, slot * slotMs, slotMs);
    DivUnique(slot * slotMs, slot, 0, slotMs);
  }

  lemma StartIsNotEarly(elapsed: nat, slotMs: Positive)
    ensures elapsed <= (elapsed * 1000 / slotMs + 1) * slotMs / 1000
  {
    var slot := elapsed * 1000 / slotMs;
    assert elapsed * 1000 == slot * slotMs + elapsed * 1000 % slotMs;
    assert (slot + 1) * slotMs == slot * slotMs + slotMs;
    DivMonotone(elapsed * 1000, (slot + 1) * slotMs, 1000);
  }

  /** A turn enters the next slot when that slot has an exact start; else the store comes to a standstill. */
  lemma NextTickMoves(s: Store)
    ensures var n, t := CurrentSlot(s) + 1, NextTick(s);
            CurrentSlot(t) == if StartIsExact(n, s.genesisTime, SlotMs(s)) then n else n - 1
    ensures !StartIsExact(CurrentSlot(s) + 1, s.genesisTime, SlotMs(s)) ==> NextTick(NextTick(s)) == NextTick(s)
  {
    var n := CurrentSlot(s) + 1;
    var elapsed := SinceGenesis(s.time, s.genesisTime);
    StartIsNotLate(n, SlotMs(s));
    StartIsNotEarly(elapsed, SlotMs(s));
    DivMonotone(elapsed * 1000, n * SlotMs(s) / 1000 * 1000, SlotMs(s));
  }

  /** A slot without an exact start is never reached. */
  lemma {:induction false} NeverReached(s: Store, n: Slot, turns: nat)
    requires CurrentSlot(s) < n && !StartIsExact(n, s.genesisTime, SlotMs(s))
    ensures !ReachedBy(s, n, turns)
    decreases turns
  {
    if turns > 0 {
      NextTickMoves(s);
      NeverReached(NextTick(s), n, turns - 1);
    }
  }

  lemma {:induction false} CatchesUp(s: Store, last: Slot) returns (turns: nat)
    requires ExactBetween(CurrentSlot(s), last, s.genesisTime, SlotMs(s))
    ensures ReachedBy(s, last, turns)
    decreases last - CurrentSlot(s)
  {
    turns := 0;
    if CurrentSlot(s) < last {
      NextTickMoves(s);
      turns := CatchesUp(NextTick(s), last);
      turns := turns + 1;
    }
  }

  /** The catch-up loop of `on_tick` ends exactly when every slot on the way has an exact start. */
  lemma CatchUpEndsIff(s: Store, now: nat)
    ensures (exists turns: nat :: ReachedBy(s, SlotFromTime(now, s.genesisTime, SlotMs(s)), turns))
       <==> CanCatchUp(s, now)
  {
    var last := SlotFromTime(now, s.genesisTime, SlotMs(s));
    if CanCatchUp(s, now) {
      var turns := CatchesUp(s, last);
    } else {
      var n: Slot :| CurrentSlot(s) < n <= last && !StartIsExact(n, s.genesisTime, SlotMs(s));
      forall turns: nat ensures !ReachedBy(s, last, turns) { NeverReached(s, n, turns); }
    }
  }

  /** `s` satisfies the invariant and `post` is what the transition makes of `block` on its parent's state. */
  ghost predicate OwnPostState(env: Env, a: Anchor, s: Store, block: Block, post: BeaconState) {
    && EnvLaws(env) && TrustedAnchor(env, a) && StoreInv(env, a, s)
    && block.parentRoot in s.blockStates && env.transition(s.blockStates[block.parentRoot], block) == Some(post)
  }

  class ForkChoice {
    const preset: Preset
    const secondsPerSlot: nat
    const genesisTime: nat
    var time: nat
    var justified: Checkpoint
    var finalized: Checkpoint
    var unrealizedJustified: Checkpoint
    var unrealizedFinalized: Checkpoint
    var boostRoot: Root
    var equivocating: set<ValidatorIndex>
    var blocks: map<Root, Block>
    var blockStates: map<Root, BeaconState>
    var timely: map<Root, bool>
    var checkpointStates: map<Checkpoint, BeaconState>
    var latestMessages: map<ValidatorIndex, LatestMessage>
    var unrealized: map<Root, Checkpoint>
    var payloads: map<Root, PayloadStatus>

    function View(): Store
      reads this
    {
      Store(preset, secondsPerSlot, time, genesisTime, justified, finalized, unrealizedJustified, unrealizedFinalized,
            boostRoot, equivocating, blocks, blockStates, timely, checkpointStates, latestMessages, unrealized,
            payloads)
    }

    constructor (s: Store)
      ensures View() == s
    {
      preset, secondsPerSlot, genesisTime, time := s.preset, s.secondsPerSlot, s.genesisTime, s.time;
      justified, finalized := s.justified, s.finalized;
      unrealizedJustified, unrealizedFinalized := s.unrealizedJustified, s.unrealizedFinalized;
      boostRoot, equivocating, blocks, blockStates := s.boostRoot, s.equivocating, s.blocks, s.blockStates;
      timely, checkpointStates, latestMessages := s.timely, s.checkpointStates, s.latestMessages;
      unrealized, payloads := s.unrealized, s.payloads;
    }

    method UpdateCheckpoints(j: Checkpoint, f: Checkpoint)
      modifies `justified, `finalized
      ensures justified == Later(old(justified), j) && finalized == Later(old(finalized), f)
    {
      if j.epoch > justified.epoch { justified := j; }
      if f.epoch > finalized.epoch { finalized := f; }
    }

    method OnTickPerSlot(now: nat)
      modifies `time, `boostRoot, `justified, `finalized
      ensures View() == TickPerSlot(old(View()), now)
    {
      var previousSlot := CurrentSlot(View());
      time := now;
      var slot := CurrentSlot(View());
      if slot > previousSlot { boostRoot := ZERO_ROOT; }
      if slot > previousSlot && SlotsSinceEpochStart(preset, slot) == 0 {
        UpdateCheckpoints(unrealizedJustified, unrealizedFinalized);
      }
    }

    /** The handler keeps the store one tree below its anchor and loses nothing. */
    method OnTick(now: nat, ghost env: Env, ghost a: Anchor)
      requires CanCatchUp(View(), now)
      modifies `time, `boostRoot, `justified, `finalized
      ensures View() == Handlers.OnTick(old(View()), now)
      ensures StoreInv(env, a, old(View())) ==> StoreInv(env, a, View()) && Grows(old(View()), View())
    {
      CatchUp(now);
      if StoreInv(env, a, old(View())) { TickKeeps(env, a, old(View()), now); }
    }

    /** Slot-by-slot catch-up; whatever it spans, it ends in the closed form. */
    method CatchUp(now: nat)
      requires CanCatchUp(View(), now)
      modifies `time, `boostRoot, `justified, `finalized
      ensures View() == Handlers.OnTick(old(View()), now)
    {
      ghost var s := View();
      var slotMs := SlotMs(View());
      var tickSlot := SlotFromTime(now, genesisTime, slotMs);
      while CurrentSlot(View()) < tickSlot
        invariant View() == Handlers.OnTick(s, time)
        invariant CurrentSlot(s) <= CurrentSlot(View()) && (CurrentSlot(View()) <= tickSlot || time == s.time)
      {
        assert StartIsExact(CurrentSlot(View()) + 1, genesisTime, slotMs);
        var previousTime := SlotStartTime(CurrentSlot(View()) + 1, genesisTime, slotMs);
        TicksCompose(s, time, previousTime);
        OnTickPerSlot(previousTime);
      }
      if tickSlot >= CurrentSlot(s) { TicksCompose(s, time, now); }
      OnTickPerSlot(now);
    }

    /** Timely exactly when the clock is inside the window that opens with the block's slot. */
    method RecordTimeliness(root: Root)
      modifies `timely
      ensures timely == old(timely)[root := IsTimely(preset, SlotLength(preset, secondsPerSlot), genesisTime,
                                                    if root in blocks then blocks[root].slot else 0, time)]
      ensures var start := (if root in blocks then blocks[root].slot else 0) * SlotMs(View());
              timely[root] <==> start <= Millis(time, genesisTime) < start + TimelyWindow(preset, SlotMs(View()))
    {
      TimelyIff(preset, SlotMs(View()), genesisTime, if root in blocks then blocks[root].slot else 0, time);
      var slot := if root in blocks then blocks[root].slot else 0;
      var intoSlot := SinceGenesis(time, genesisTime) * 1000 % SlotMs(View());
      var threshold := preset.attestationDueBps * preset.slotDurationMs / 10000;
      timely := timely[root := CurrentSlot(View()) == slot && intoSlot < threshold];
    }

    /** The clock shows `now` only while timeliness is recorded. */
    method RecordTimelinessAt(root: Root, now: nat)
      modifies `timely, `time
      ensures time == old(time)
      ensures timely == old(timely)[root := IsTimely(preset, SlotLength(preset, secondsPerSlot), genesisTime,
                                                    if root in blocks then blocks[root].slot else 0, now)]
    {
      var savedTime := time;
      time := now;
      RecordTimeliness(root);
      time := savedTime;
    }

    method UpdateBoost(env: Env, root: Root)
      requires ParentsLower(blocks)
      modifies `boostRoot
      ensures boostRoot == BoostAfter(env, old(View()), root)
    {
      var isTimely := if root in timely then timely[root] else false;
      if boostRoot != ZERO_ROOT || !isTimely { return; }
      var head := GetHead(View());
      if head !in blockStates { return; }
      var state := blockStates[head];
      if state.slot < CurrentSlot(View()) {
        var advanced := env.processSlots(state, CurrentSlot(View()));
        if advanced.None? { return; }
        state := advanced.value;
      }
      if root !in blocks { return; }
      if blocks[root].proposer == env.proposerIndex(state) { boostRoot := root; }
    }

    /** `compute_pulled_up_tip`. */
    method PullUpTip(env: Env, root: Root) returns (ok: bool)
      modifies `unrealized, `unrealizedJustified, `unrealizedFinalized, `justified, `finalized
      ensures ok == (root in blockStates && env.pullUp(blockStates[root]).Some?)
      ensures !ok ==> View() == old(View())
      ensures ok ==> var (j, f) := env.pullUp(blockStates[root]).value;
                     var past := EpochAt(preset, BlockSlot(old(View()), root)) < CurrentEpoch(old(View()));
                     View() == old(View()).(
                       unrealized := old(unrealized)[root := j],
                       unrealizedJustified := Later(old(unrealizedJustified), j),
                       unrealizedFinalized := Later(old(unrealizedFinalized), f),
                       justified := if past then Later(old(justified), j) else old(justified),
                       finalized := if past then Later(old(finalized), f) else old(finalized))
    {
      if root !in blockStates { return false; }
      var pulled := env.pullUp(blockStates[root]);
      if pulled.None? { return false; }
      var (j, f) := pulled.value;
      unrealized := unrealized[root := j];
      if j.epoch > unrealizedJustified.epoch { unrealizedJustified := j; }
      if f.epoch > unrealizedFinalized.epoch { unrealizedFinalized := f; }
      if EpochAt(preset, BlockSlot(View(), root)) < CurrentEpoch(View()) { UpdateCheckpoints(j, f); }
      ok := true;
    }

    /** The refusals of `on_block`, in the order of the source. */
    method CheckBlock(env: Env, block: Block) returns (ok: bool)
      requires ParentsLower(blocks)
      ensures ok == BlockAcceptable(env, View(), block)
    {
      if block.parentRoot !in blockStates { return false; }
      var preState := blockStates[block.parentRoot];
      if CurrentSlot(View()) < block.slot { return false; }
      if block.slot <= StartSlot(preset, finalized.epoch) { return false; }
      var checkpointBlock := GetAncestor(blocks, block.parentRoot, StartSlot(preset, finalized.epoch));
      if finalized.root != checkpointBlock { return false; }
      ok := env.mergeAllowed(preState, block);
    }

    method Insert(env: Env, block: Block, post: BeaconState, now: nat)
      modifies `blocks, `blockStates, `payloads, `timely, `time
      ensures View() == InsertBlock(env, old(View()), block, post, now)
    {
      var root := env.rootOf(block);
      blocks := blocks[root := block];
      blockStates := blockStates[root := post];
      if root !in payloads { payloads := payloads[root := NotValidated]; }
      RecordTimelinessAt(root, now);
    }

    /** Given the block's own post-state, the handler keeps the tree and loses nothing, accepted or refused. */
    method OnBlock(env: Env, block: Block, post: BeaconState, now: nat, ghost a: Anchor) returns (ok: bool)
      requires ParentsLower(blocks)
      requires BlockAcceptable(env, View(), block) ==> ParentsLower(blocks[env.rootOf(block) := block])
      modifies this
      ensures View() == Handlers.OnBlock(env, old(View()), block, post, now).0
      ensures ok == Handlers.OnBlock(env, old(View()), block, post, now).1
      ensures OwnPostState(env, a, old(View()), block, post) ==> StoreInv(env, a, View()) && Grows(old(View()), View())
    {
      ok := ProcessBlock(env, block, post, now);
      if OwnPostState(env, a, old(View()), block, post) { OnBlockKeeps(env, a, old(View()), block, post, now); }
    }

    method ProcessBlock(env: Env, block: Block, post: BeaconState, now: nat) returns (ok: bool)
      requires ParentsLower(blocks)
      requires BlockAcceptable(env, View(), block) ==> ParentsLower(blocks[env.rootOf(block) := block])
      modifies this
      ensures View() == Handlers.OnBlock(env, old(View()), block, post, now).0
      ensures ok == Handlers.OnBlock(env, old(View()), block, post, now).1
    {
      var acceptable := CheckBlock(env, block);
      if !acceptable { return false; }
      Insert(env, block, post, now);
      UpdateBoost(env, env.rootOf(block));
      UpdateCheckpoints(post.justified, post.finalized);
      ok := PullUpTip(env, env.rootOf(block));
    }

    method StoreTargetCheckpointState(env: Env, target: Checkpoint) returns (ok: bool)
      modifies `checkpointStates
      ensures ok == TargetState(env, old(View()), target).Some?
      ensures ok ==> checkpointStates == old(checkpointStates)[target := TargetState(env, old(View()), target).value]
      ensures !ok ==> checkpointStates == old(checkpointStates)
    {
      if target in checkpointStates { return true; }
      if target.root !in blockStates { return false; }
      var state := blockStates[target.root];
      var start := StartSlot(preset, target.epoch);
      if state.slot < start {
        var advanced := env.processSlots(state, start);
        if advanced.None? { return false; }
        state := advanced.value;
      }
      checkpointStates := checkpointStates[target := state];
      ok := true;
    }

    method OnAttestation(env: Env, att: Attestation, fromBlock: bool, ghost a: Anchor) returns (ok: bool)
      requires ParentsLower(blocks)
      modifies `checkpointStates, `latestMessages
      ensures View() == Handlers.OnAttestation(env, old(View()), att, fromBlock).0
      ensures ok == Handlers.OnAttestation(env, old(View()), att, fromBlock).1
      ensures StoreInv(env, a, old(View())) ==> StoreInv(env, a, View()) && Grows(old(View()), View())
    {
      ok := ProcessAttestation(env, att, fromBlock);
      if StoreInv(env, a, old(View())) { AttestationKeeps(env, a, old(View()), att, fromBlock); }
    }

    method ProcessAttestation(env: Env, att: Attestation, fromBlock: bool) returns (ok: bool)
      requires ParentsLower(blocks)
      modifies `checkpointStates, `latestMessages
      ensures View() == Handlers.OnAttestation(env, old(View()), att, fromBlock).0
      ensures ok == Handlers.OnAttestation(env, old(View()), att, fromBlock).1
    {
      if !AttestationAcceptable(View(), att.data, fromBlock) { return false; }
      var stored := StoreTargetCheckpointState(env, att.data.target);
      if !stored { return false; }
      var indices := env.attesters(checkpointStates[att.data.target], att);
      if indices.None? { return false; }
      UpdateLatestMessages(indices.value, att.data);
      ok := true;
    }

    method UpdateLatestMessages(indices: seq<ValidatorIndex>, data: AttestationData)
      modifies `latestMessages
      ensures latestMessages == VoteAll(old(latestMessages), equivocating, indices,
                                        LatestMessage(data.target.epoch, data.blockRoot))
    {
      ghost var m := LatestMessage(data.target.epoch, data.blockRoot);
      for k := 0 to |indices|
        invariant latestMessages == VoteAll(old(latestMessages), equivocating, indices[..k], m)
      {
        var i := indices[k];
        assert indices[..k+1][..k] == indices[..k];
        if i in equivocating { continue; }
        if i !in latestMessages || data.target.epoch > latestMessages[i].epoch {
          latestMessages := latestMessages[i := LatestMessage(data.target.epoch, data.blockRoot)];
        }
      }
      assert indices[..|indices|] == indices;
    }

    method OnAttesterSlashing(env: Env, slashing: AttesterSlashing, ghost a: Anchor) returns (ok: bool)
      modifies `equivocating
      ensures View() == Handlers.OnAttesterSlashing(env, old(View()), slashing).0
      ensures ok == Handlers.OnAttesterSlashing(env, old(View()), slashing).1
      ensures StoreInv(env, a, old(View())) ==> StoreInv(env, a, View()) && Grows(old(View()), View())
    {
      ok := ProcessSlashing(env, slashing);
      if StoreInv(env, a, old(View())) { SlashingKeeps(env, a, old(View()), slashing); }
    }

    method ProcessSlashing(env: Env, slashing: AttesterSlashing) returns (ok: bool)
      modifies `equivocating
      ensures View() == Handlers.OnAttesterSlashing(env, old(View()), slashing).0
      ensures ok == Handlers.OnAttesterSlashing(env, old(View()), slashing).1
    {
      if !Slashable(slashing.first.data, slashing.second.data) { return false; }
      if justified.root !in blockStates { return false; }
      var state := blockStates[justified.root];
      if !env.validIndexed(state, slashing.first) || !env.validIndexed(state, slashing.second) { return false; }
      var common := Range(slashing.first.indices) * Range(slashing.second.indices);
      var todo := common;
      while todo != {}
        invariant todo <= common && equivocating == old(equivocating) + (common - todo)
        decreases |todo|
      {
        var i :| i in todo;
        equivocating := equivocating + {i};
        todo := todo - {i};
      }
      assert common - todo == common;
      ok := true;
    }
  }
}
