/**
  The tape drivers of `crates/pharos-conformance/src/fork_choice.rs` on the real
  fork-choice handlers: the clock law is a theorem here, not an assumption, and
  every run keeps the store's invariant.
 */
module Conformance {
  import opened Types
  import opened Ancestry
  import opened Weights
  import opened HeadSelection
  import opened Handlers
  import opened StoreInvariant
  import opened FastConfirmation
  import opened Optimistic
  import T = Tape
  import Trace = TapeTrace
  import Arithmetic

  /** Files of a case directory and the numbered checks blocks of its tape. */
  datatype Fixture = Fixture(
    marksValid: bool,            // the fast-confirmation drivers from bellatrix on record accepted payloads as valid
    block: string -> Option<(Block, seq<Attestation>)>,
    attestation: string -> Option<Attestation>,
    slashing: string -> Option<AttesterSlashing>,
    checks: nat -> ChecksBlock,
    proposerHead: (Store, Root) -> Root)

  /** `Checks`: every absent field holds. */
  datatype ChecksBlock = ChecksBlock(
    time: Option<nat>,
    justified: Option<Checkpoint>,
    finalized: Option<Checkpoint>,
    boostRoot: Option<Root>,
    head: Option<(Root, Option<Slot>)>,
    proposerHead: Option<Root>,
    confirmed: Option<Root>,
    previousObserved: Option<Checkpoint>,
    currentObserved: Option<Checkpoint>,
    greatestUnrealized: Option<Checkpoint>,
    previousHead: Option<Root>,
    currentHead: Option<Root>)

  predicate Matches<V(==)>(want: Option<V>, got: V) { want.None? || want.value == got }

  /** `run_checks`. */
  ghost predicate ChecksHold(fx: Fixture, s: Store, c: ChecksBlock)
    requires ParentsLower(s.blocks)
  {
    && Matches(c.time, s.time) && Matches(c.justified, s.justified) && Matches(c.finalized, s.finalized)
    && Matches(c.boostRoot, s.boostRoot)
    && (c.head.None? || (c.head.value.0 == Head(s) && Matches(c.head.value.1, BlockSlot(s, Head(s)))))
    && Matches(c.proposerHead, fx.proposerHead(s, Head(s)))
  }

  /** `run_fcr_checks`. */
  predicate ConfirmationMatches(f: Confirmation, c: ChecksBlock) {
    && Matches(c.confirmed, f.confirmed) && Matches(c.previousObserved, f.previousObserved)
    && Matches(c.currentObserved, f.currentObserved) && Matches(c.greatestUnrealized, f.greatestUnrealized)
    && Matches(c.previousHead, f.previousHead) && Matches(c.currentHead, f.currentHead)
  }

  ghost function BlockStep(env: Env, a: Anchor, fx: Fixture, s: Store, name: string): Option<(Store, bool)>
    requires EnvLaws(env) && TrustedAnchor(env, a)
  {
    if fx.block(name).None? then None
    else if !StoreInv(env, a, s) then Some((s, false))
    else
      var (block, atts) := fx.block(name).value;
      BlockIsInsertable(env, a, s, block);
      BlockKeeps(env, a, s, block);
      var (t, ok) := DeliverBlock(env, s, block);
      if ok then Some((Settle(fx, FeedAttestations(env, t, atts), env.rootOf(block)), true)) else Some((t, false))
  }

  /** `mark_payload_status` after an accepted block. */
  function Settle(fx: Fixture, s: Store, root: Root): Store {
    if fx.marksValid then s.(payloads := s.payloads[root := Valid]) else s
  }

  ghost function AttestationStep(env: Env, fx: Fixture, s: Store, name: string): Option<(Store, bool)> {
    if fx.attestation(name).None? then None
    else if !ParentsLower(s.blocks) then Some((s, false))
    else Some(OnAttestation(env, s, fx.attestation(name).value, false))
  }

  ghost function SlashingStep(env: Env, fx: Fixture, s: Store, name: string): Option<(Store, bool)> {
    if fx.slashing(name).None? then None else Some(OnAttesterSlashing(env, s, fx.slashing(name).value))
  }

  /** The drivers' machine, for the clock of the store they start from. */
  ghost function StoreMachine(env: Env, a: Anchor, fx: Fixture, start: Store): T.Machine<Store, Confirmation>
    requires EnvLaws(env) && TrustedAnchor(env, a)
  {
    T.Machine(
      s => CurrentSlot(s),
      time => SlotFromTime(time, start.genesisTime, SlotMs(start)),
      (s, time) => OnTick(s, time),
      (s, name) => BlockStep(env, a, fx, s, name),
      (s, name) => AttestationStep(env, fx, s, name),
      (s, name) => SlashingStep(env, fx, s, name),
      name => fx.attestation(name).Some?,
      (s: Store, f: Confirmation) => if ParentsLower(s.blocks) then OnFastConfirmation(env, s, f) else f,
      (s: Store, id: nat) => ParentsLower(s.blocks) && ChecksHold(fx, s, fx.checks(id)),
      (s: Store, f: Confirmation, id: nat) =>
        ParentsLower(s.blocks) && ChecksHold(fx, s, fx.checks(id)) && ConfirmationMatches(f, fx.checks(id)))
  }

  /** The tree is intact and nothing known at the start has been lost. */
  ghost predicate Reachable(env: Env, a: Anchor, start: Store, s: Store) { StoreInv(env, a, s) && Grows(start, s) }

  lemma BlockStepKeeps(env: Env, a: Anchor, fx: Fixture, start: Store, s: Store, name: string)
    requires EnvLaws(env) && TrustedAnchor(env, a) && Reachable(env, a, start, s)
    requires BlockStep(env, a, fx, s, name).Some?
    ensures Reachable(env, a, start, BlockStep(env, a, fx, s, name).value.0)
    ensures CurrentSlot(BlockStep(env, a, fx, s, name).value.0) == CurrentSlot(s)
  {
    var (block, atts) := fx.block(name).value;
    BlockIsInsertable(env, a, s, block);
    BlockKeeps(env, a, s, block);
    var t := DeliverBlock(env, s, block).0;
    GrowsTransitive(start, s, t);
    FeedKeeps(env, a, t, atts);
    var fed := FeedAttestations(env, t, atts);
    GrowsTransitive(start, t, fed);
    SettleKeeps(env, a, fx, start, fed, env.rootOf(block));
  }

  lemma SettleKeeps(env: Env, a: Anchor, fx: Fixture, start: Store, s: Store, root: Root)
    requires Reachable(env, a, start, s)
    ensures Reachable(env, a, start, Settle(fx, s, root))
  {
    var t := Settle(fx, s, root);
    InvFrame(env, a, s, t);
    GrowsFrame(s, t);
    GrowsTransitive(start, s, t);
  }

  lemma AttestationStepKeeps(env: Env, a: Anchor, fx: Fixture, start: Store, s: Store, name: string)
    requires Reachable(env, a, start, s) && AttestationStep(env, fx, s, name).Some?
    ensures Reachable(env, a, start, AttestationStep(env, fx, s, name).value.0)
    ensures CurrentSlot(AttestationStep(env, fx, s, name).value.0) == CurrentSlot(s)
  {
    AttestationKeeps(env, a, s, fx.attestation(name).value, false);
    GrowsTransitive(start, s, AttestationStep(env, fx, s, name).value.0);
  }

  lemma SlashingStepKeeps(env: Env, a: Anchor, fx: Fixture, start: Store, s: Store, name: string)
    requires Reachable(env, a, start, s) && SlashingStep(env, fx, s, name).Some?
    ensures Reachable(env, a, start, SlashingStep(env, fx, s, name).value.0)
    ensures CurrentSlot(SlashingStep(env, fx, s, name).value.0) == CurrentSlot(s)
  {
    SlashingKeeps(env, a, s, fx.slashing(name).value);
    GrowsTransitive(start, s, SlashingStep(env, fx, s, name).value.0);
  }

  lemma TickStepKeeps(env: Env, a: Anchor, start: Store, s: Store, time: nat)
    requires Reachable(env, a, start, s)
    ensures Reachable(env, a, start, OnTick(s, time))
    ensures CurrentSlot(OnTick(s, time)) == SlotFromTime(time, start.genesisTime, SlotMs(start))
  {
    TickKeeps(env, a, s, time);
    GrowsTransitive(start, s, OnTick(s, time));
  }

  /** On the real handlers only ticks move the clock, and every handler keeps the store reachable. */
  lemma HandlersAreClocked(env: Env, a: Anchor, fx: Fixture, start: Store)
    requires EnvLaws(env) && TrustedAnchor(env, a)
    ensures T.Clocked(StoreMachine(env, a, fx, start), s => Reachable(env, a, start, s))
  {
    var m, inv := StoreMachine(env, a, fx, start), (s: Store) => Reachable(env, a, start, s);
    forall s, time: nat | inv(s) ensures inv(m.tick(s, time)) && m.slot(m.tick(s, time)) == m.slotAt(time) {
      TickStepKeeps(env, a, start, s, time);
    }
    forall s, name | inv(s) && m.block(s, name).Some? ensures T.SameClock(m, inv, s, m.block(s, name).value.0) {
      BlockStepKeeps(env, a, fx, start, s, name);
    }
    forall s, name | inv(s) && m.attest(s, name).Some? ensures T.SameClock(m, inv, s, m.attest(s, name).value.0) {
      AttestationStepKeeps(env, a, fx, start, s, name);
    }
    forall s, name | inv(s) && m.slash(s, name).Some? ensures T.SameClock(m, inv, s, m.slash(s, name).value.0) {
      SlashingStepKeeps(env, a, fx, start, s, name);
    }
  }

  /** At every point of every plain run the store is one tree below the anchor and has lost nothing. */
  lemma EveryPlainRunIsSafe(env: Env, a: Anchor, fx: Fixture, start: Store, steps: seq<T.Step>)
    requires EnvLaws(env) && TrustedAnchor(env, a) && StoreInv(env, a, start)
    ensures Reachable(env, a, start, T.After(StoreMachine(env, a, fx, start), start, steps))
  {
    HandlersAreClocked(env, a, fx, start);
    T.PlainRunKeeps(StoreMachine(env, a, fx, start), s => Reachable(env, a, start, s), start, steps);
  }

  /** Every fast-confirmation driver, on any tape: it ends as the rewritten tape says, in a reachable store. */
  lemma EveryFastRunFollowsItsSchedule(env: Env, a: Anchor, fx: Fixture, eager: bool, start: Store, f: Confirmation,
                                       steps: seq<T.Step>)
    requires EnvLaws(env) && TrustedAnchor(env, a) && StoreInv(env, a, start)
    ensures var m := StoreMachine(env, a, fx, start);
            T.RunDeferred(m, eager, start, f, [], steps)
            == if eager && !T.AttestationsDecode(m, steps) then T.Failed
               else T.RunImmediate(m, start, f, T.Schedule(m, CurrentSlot(start), [], steps))
    ensures var run := T.RunDeferred(StoreMachine(env, a, fx, start), eager, start, f, [], steps);
            run.Passed? ==> Reachable(env, a, start, run.store)
  {
    var m, inv := StoreMachine(env, a, fx, start), (s: Store) => Reachable(env, a, start, s);
    HandlersAreClocked(env, a, fx, start);
    assert T.Names([]) == [];
    T.DeferredRunsItsSchedule(m, inv, eager, start, f, [], steps);
    if T.RunDeferred(m, eager, start, f, [], steps).Passed? { T.DeferredRunKeeps(m, inv, eager, start, f, [], steps); }
  }

  /**
    At every point of every fast-confirmation run on the real handlers: read equals applied
    followed by the buffer, there was one confirmation for each slot entered, and the next
    tick into a new slot applies everything read before it confirms.
   */
  lemma EveryFastRunKeepsItsBuffer(env: Env, a: Anchor, fx: Fixture, eager: bool, start: Store, f: Confirmation,
                                   steps: seq<T.Step>)
    requires EnvLaws(env) && TrustedAnchor(env, a) && StoreInv(env, a, start)
    requires T.Turns(StoreMachine(env, a, fx, start), eager, T.Point(start, f, [], []), steps).Some?
    ensures var m := StoreMachine(env, a, fx, start);
            Trace.InOrder(m, CurrentSlot(start), steps, T.Turns(m, eager, T.Point(start, f, [], []), steps).value)
  {
    HandlersAreClocked(env, a, fx, start);
    Trace.EveryPointInOrder(StoreMachine(env, a, fx, start), s => Reachable(env, a, start, s), eager, start, f, steps);
  }

  /**
    On tapes whose tick times do not decrease, every fast-confirmation driver applies each
    attestation when its store stands in a later slot than when it read the attestation.
   */
  lemma ForwardTapesDelayAttestations(env: Env, a: Anchor, fx: Fixture, eager: bool, start: Store, f: Confirmation,
                                      steps: seq<T.Step>)
    requires EnvLaws(env) && TrustedAnchor(env, a) && StoreInv(env, a, start) && TimesForward(start.time, steps)
    requires T.Turns(StoreMachine(env, a, fx, start), eager, T.Point(start, f, [], []), steps).Some?
    ensures var p := T.Turns(StoreMachine(env, a, fx, start), eager, T.Point(start, f, [], []), steps).value;
            forall e :: e in p.trace && e.Took? ==> e.readAt < e.at
  {
    var m, inv := StoreMachine(env, a, fx, start), (s: Store) => Reachable(env, a, start, s);
    TimesAreSlots(m, start, start.time, steps);
    HandlersAreClocked(env, a, fx, start);
    Trace.DriverDelays(m, inv, eager, start, f, steps);
  }

  ghost predicate TimesForward(time: nat, steps: seq<T.Step>)
    decreases |steps|
  {
    steps == [] || (if steps[0].Tick? then time <= steps[0].time && TimesForward(steps[0].time, steps[1..])
                    else TimesForward(time, steps[1..]))
  }

  lemma {:induction false} TimesAreSlots(m: T.Machine<Store, Confirmation>, start: Store, time: nat, steps: seq<T.Step>)
    requires forall t: nat :: m.slotAt(t) == SlotFromTime(t, start.genesisTime, SlotMs(start))
    requires TimesForward(time, steps)
    ensures T.TicksForward(m, m.slotAt(time), steps)
    decreases |steps|
  {
    if steps != [] {
      if steps[0].Tick? {
        Arithmetic.DivMonotone(SinceGenesis(time, start.genesisTime) * 1000,
                               SinceGenesis(steps[0].time, start.genesisTime) * 1000, SlotMs(start));
        TimesAreSlots(m, start, steps[0].time, steps[1..]);
      } else {
        TimesAreSlots(m, start, time, steps[1..]);
      }
    }
  }

  // ── what a step shows ───────────────────────────────────────────────────────

  /** Two stores that pass one checks block agree on every field the block names. */
  lemma ChecksPin(fx: Fixture, s: Store, t: Store, c: ChecksBlock)
    requires ParentsLower(s.blocks) && ParentsLower(t.blocks) && ChecksHold(fx, s, c) && ChecksHold(fx, t, c)
    ensures c.time.Some? ==> s.time == t.time
    ensures c.justified.Some? ==> s.justified == t.justified
    ensures c.finalized.Some? ==> s.finalized == t.finalized
    ensures c.boostRoot.Some? ==> s.boostRoot == t.boostRoot
    ensures c.head.Some? ==> Head(s) == Head(t)
    ensures c.head.Some? && c.head.value.1.Some? ==> BlockSlot(s, Head(s)) == BlockSlot(t, Head(t))
    ensures c.proposerHead.Some? ==> fx.proposerHead(s, Head(s)) == fx.proposerHead(t, Head(t))
  {
  }

  /** … and two confirmation stores likewise. */
  lemma ConfirmationChecksPin(f: Confirmation, g: Confirmation, c: ChecksBlock)
    requires ConfirmationMatches(f, c) && ConfirmationMatches(g, c)
    ensures c.confirmed.Some? ==> f.confirmed == g.confirmed
    ensures c.previousObserved.Some? ==> f.previousObserved == g.previousObserved
    ensures c.currentObserved.Some? ==> f.currentObserved == g.currentObserved
    ensures c.greatestUnrealized.Some? ==> f.greatestUnrealized == g.greatestUnrealized
    ensures c.previousHead.Some? ==> f.previousHead == g.previousHead
    ensures c.currentHead.Some? ==> f.currentHead == g.currentHead
  {
  }

  /** The checks block that names everything about a store, which that store passes. */
  ghost function AllAbout(fx: Fixture, s: Store, f: Confirmation): ChecksBlock
    requires ParentsLower(s.blocks)
  {
    ChecksBlock(Some(s.time), Some(s.justified), Some(s.finalized), Some(s.boostRoot),
                Some((Head(s), Some(BlockSlot(s, Head(s))))), Some(fx.proposerHead(s, Head(s))),
                Some(f.confirmed), Some(f.previousObserved), Some(f.currentObserved), Some(f.greatestUnrealized),
                Some(f.previousHead), Some(f.currentHead))
  }

  lemma OwnChecksHold(fx: Fixture, s: Store, f: Confirmation)
    requires ParentsLower(s.blocks)
    ensures ChecksHold(fx, s, AllAbout(fx, s, f)) && ConfirmationMatches(f, AllAbout(fx, s, f))
  {
  }

  /** After a block step the votes are those of the delivery with the block's own attestations fed in, if accepted. */
  lemma BlockStepVotes(env: Env, a: Anchor, fx: Fixture, s: Store, name: string)
    requires EnvLaws(env) && TrustedAnchor(env, a) && StoreInv(env, a, s) && fx.block(name).Some?
    ensures var (block, atts) := fx.block(name).value;
            && Insertable(env, s, block) && ParentsLower(DeliverBlock(env, s, block).0.blocks)
            && BlockStep(env, a, fx, s, name).Some?
            && BlockStep(env, a, fx, s, name).value.1 == DeliverBlock(env, s, block).1
            && BlockStep(env, a, fx, s, name).value.0.latestMessages
               == FeedAttestations(env, DeliverBlock(env, s, block).0,
                                   if DeliverBlock(env, s, block).1 then atts else []).latestMessages
  {
    var block := fx.block(name).value.0;
    BlockIsInsertable(env, a, s, block);
    BlockKeeps(env, a, s, block);
  }

  // ── payload verdicts over whole runs ────────────────────────────────────────

  /** Verdicts agree, are about stored blocks, and none is a rejection. */
  ghost predicate NoneRejected(s: Store) {
    && VerdictsAgree(s)
    && s.payloads.Keys <= s.blocks.Keys
    && forall r :: r in s.payloads ==> s.payloads[r] != Invalid
  }

  ghost predicate AllValidBut(s: Store, root: Root) {
    forall r :: r in s.blocks && r != root ==> IsValid(s.payloads, r)
  }

  /** Moreover a driver that marks payloads has marked every stored block. */
  ghost predicate Quiet(fx: Fixture, s: Store) {
    NoneRejected(s) && (fx.marksValid ==> forall r :: r in s.blocks ==> IsValid(s.payloads, r))
  }

  lemma InitialIsQuiet(fx: Fixture, preset: Preset, root: Root, block: Block, state: BeaconState, genesisTime: nat)
    ensures Quiet(fx, InitialStore(preset, root, block, state, genesisTime))
  {
    InitialVerdictsAgree(preset, root, block, state, genesisTime);
  }

  lemma DeliveryRejectsNone(env: Env, a: Anchor, s: Store, block: Block)
    requires EnvLaws(env) && TrustedAnchor(env, a) && StoreInv(env, a, s) && Insertable(env, s, block)
    requires NoneRejected(s) && BlockAcceptable(env, s, block)
    requires env.transition(s.blockStates[block.parentRoot], block).Some?
    ensures NoneRejected(DeliverBlock(env, s, block).0)
    ensures AllValidBut(s, env.rootOf(block)) ==> AllValidBut(DeliverBlock(env, s, block).0, env.rootOf(block))
  {
    var root, t := env.rootOf(block), DeliverBlock(env, s, block).0;
    var post := env.transition(s.blockStates[block.parentRoot], block).value;
    NewParentIsLower(env, a, s, block);
    TransitionAllowsInsert(env, a, s, block);
    assert LinkAgrees(s.payloads, root, block.parentRoot) by {
      if root in s.payloads { assert s.blocks[root] == block; }
    }
    BlockKeepsAgreementIff(env, a, s, block);
    DeliveredVerdicts(env, s, block, post);
    DeliveredPayloads(env, s, block, post);
  }

  lemma SettleIsQuiet(fx: Fixture, s: Store, root: Root)
    requires NoneRejected(s) && root in s.blocks && (fx.marksValid ==> AllValidBut(s, root))
    ensures Quiet(fx, Settle(fx, s, root))
  {
    var t := Settle(fx, s, root);
    if fx.marksValid {
      forall r | r in t.blocks && t.blocks[r].parentRoot in t.blocks
        ensures LinkAgrees(t.payloads, r, t.blocks[r].parentRoot)
      {
        assert IsValid(t.payloads, t.blocks[r].parentRoot);
      }
    }
  }

  /** Feeding attestations and settling, after a delivery that rejected nothing. */
  lemma FedIsQuiet(env: Env, fx: Fixture, t: Store, atts: seq<Attestation>, root: Root)
    requires ParentsLower(t.blocks) && NoneRejected(t) && root in t.blocks && (fx.marksValid ==> AllValidBut(t, root))
    ensures Quiet(fx, Settle(fx, FeedAttestations(env, t, atts), root))
  {
    var fed := FeedAttestations(env, t, atts);
    assert fed.blocks == t.blocks && fed.payloads == t.payloads;
    SettleIsQuiet(fx, fed, root);
  }

  /** Justification and finalization can be computed on the state after any block that the transition accepts. */
  ghost predicate PullUpsSucceed(env: Env) {
    forall pre, b :: env.transition(pre, b).Some? ==> env.pullUp(env.transition(pre, b).value).Some?
  }

  lemma DeliveredIsQuiet(env: Env, a: Anchor, fx: Fixture, s: Store, block: Block)
    requires EnvLaws(env) && TrustedAnchor(env, a) && StoreInv(env, a, s) && Insertable(env, s, block)
    requires fx.marksValid ==> PullUpsSucceed(env)
    requires Quiet(fx, s)
    ensures ParentsLower(DeliverBlock(env, s, block).0.blocks) && NoneRejected(DeliverBlock(env, s, block).0)
    ensures fx.marksValid ==> AllValidBut(DeliverBlock(env, s, block).0, env.rootOf(block))
    ensures DeliverBlock(env, s, block).1 ==> env.rootOf(block) in DeliverBlock(env, s, block).0.blocks
    ensures !DeliverBlock(env, s, block).1 && fx.marksValid ==> DeliverBlock(env, s, block).0 == s
  {
    if BlockAcceptable(env, s, block) && env.transition(s.blockStates[block.parentRoot], block).Some? {
      DeliveryRejectsNone(env, a, s, block);
      DeliveredVerdicts(env, s, block, env.transition(s.blockStates[block.parentRoot], block).value);
    }
  }

  /** A block step keeps the verdicts quiet; a driver that marks payloads needs pull-ups that succeed. */
  lemma BlockStepKeepsQuiet(env: Env, a: Anchor, fx: Fixture, s: Store, name: string)
    requires EnvLaws(env) && TrustedAnchor(env, a) && StoreInv(env, a, s) && BlockStep(env, a, fx, s, name).Some?
    requires fx.marksValid ==> PullUpsSucceed(env)
    requires Quiet(fx, s)
    ensures Quiet(fx, BlockStep(env, a, fx, s, name).value.0)
  {
    var (block, atts) := fx.block(name).value;
    BlockIsInsertable(env, a, s, block);
    DeliveredIsQuiet(env, a, fx, s, block);
    if DeliverBlock(env, s, block).1 {
      FedIsQuiet(env, fx, DeliverBlock(env, s, block).0, atts, env.rootOf(block));
    }
  }

  lemma QuietFrame(fx: Fixture, s: Store, t: Store)
    requires Quiet(fx, s) && t.blocks == s.blocks && t.payloads == s.payloads
    ensures Quiet(fx, t)
  {
  }

  ghost predicate QuietReachable(env: Env, a: Anchor, fx: Fixture, start: Store, s: Store) {
    Reachable(env, a, start, s) && Quiet(fx, s)
  }

  lemma HandlersStayQuiet(env: Env, a: Anchor, fx: Fixture, start: Store)
    requires EnvLaws(env) && TrustedAnchor(env, a)
    requires fx.marksValid ==> PullUpsSucceed(env)
    ensures T.Clocked(StoreMachine(env, a, fx, start), s => QuietReachable(env, a, fx, start, s))
  {
    var m, inv := StoreMachine(env, a, fx, start), (s: Store) => QuietReachable(env, a, fx, start, s);
    forall s, time: nat | inv(s) ensures inv(m.tick(s, time)) && m.slot(m.tick(s, time)) == m.slotAt(time) {
      TickStepKeeps(env, a, start, s, time);
      QuietFrame(fx, s, OnTick(s, time));
    }
    forall s, name | inv(s) && m.block(s, name).Some? ensures T.SameClock(m, inv, s, m.block(s, name).value.0) {
      BlockStepKeeps(env, a, fx, start, s, name);
      BlockStepKeepsQuiet(env, a, fx, s, name);
    }
    forall s, name | inv(s) && m.attest(s, name).Some? ensures T.SameClock(m, inv, s, m.attest(s, name).value.0) {
      AttestationStepKeeps(env, a, fx, start, s, name);
      QuietFrame(fx, s, AttestationStep(env, fx, s, name).value.0);
    }
    forall s, name | inv(s) && m.slash(s, name).Some? ensures T.SameClock(m, inv, s, m.slash(s, name).value.0) {
      SlashingStepKeeps(env, a, fx, start, s, name);
      QuietFrame(fx, s, SlashingStep(env, fx, s, name).value.0);
    }
  }

  /**
    Over whole runs, plain and fast-confirmation: verdicts stay in agreement on every tape, for
    drivers that leave payloads unmarked, and for drivers that mark them whenever pull-ups succeed.
   */
  lemma EveryRunKeepsAgreement(env: Env, a: Anchor, fx: Fixture, start: Store, f: Confirmation, eager: bool,
                               steps: seq<T.Step>)
    requires EnvLaws(env) && TrustedAnchor(env, a) && StoreInv(env, a, start) && Quiet(fx, start)
    requires fx.marksValid ==> PullUpsSucceed(env)
    ensures VerdictsAgree(T.After(StoreMachine(env, a, fx, start), start, steps))
    ensures var run := T.RunDeferred(StoreMachine(env, a, fx, start), eager, start, f, [], steps);
            run.Passed? ==> VerdictsAgree(run.store)
  {
    var m, inv := StoreMachine(env, a, fx, start), (s: Store) => QuietReachable(env, a, fx, start, s);
    HandlersStayQuiet(env, a, fx, start);
    T.PlainRunKeeps(m, inv, start, steps);
    if T.RunDeferred(m, eager, start, f, [], steps).Passed? { T.DeferredRunKeeps(m, inv, eager, start, f, [], steps); }
  }
}
