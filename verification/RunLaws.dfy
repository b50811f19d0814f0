/**
  The invariants of `StoreHealth` over whole conformance runs: at every point of every tape whose
  tick times do not decrease, on the plain and on the fast-confirmation drivers
  (`crates/pharos-conformance/src/fork_choice.rs`).
 */
module RunLaws {
  import opened Types
  import opened Ancestry
  import opened Handlers
  import opened StoreInvariant
  import opened StoreHealth
  import opened FastConfirmation
  import opened Conformance
  import T = Tape
  import Trace = TapeTrace

  ghost predicate HealthyReachable(env: Env, a: Anchor, start: Store, s: Store) {
    Reachable(env, a, start, s) && Healthy(s)
  }

  lemma BlockStepKeepsHealth(env: Env, a: Anchor, fx: Fixture, s: Store, name: string)
    requires EnvLaws(env) && TrustedAnchor(env, a) && StoreInv(env, a, s) && Healthy(s)
    requires BlockStep(env, a, fx, s, name).Some?
    ensures Healthy(BlockStep(env, a, fx, s, name).value.0)
  {
    var (block, atts) := fx.block(name).value;
    BlockIsInsertable(env, a, s, block);
    BlockKeeps(env, a, s, block);
    BlockKeepsHealth(env, a, s, block);
    var t := DeliverBlock(env, s, block).0;
    FeedKeepsHealth(env, t, atts);
    HealthFrame(FeedAttestations(env, t, atts), Settle(fx, FeedAttestations(env, t, atts), env.rootOf(block)));
  }

  lemma HandlersKeepHealth(env: Env, a: Anchor, fx: Fixture, start: Store)
    requires EnvLaws(env) && TrustedAnchor(env, a)
    ensures Trace.KeptForward(StoreMachine(env, a, fx, start), s => HealthyReachable(env, a, start, s))
  {
    var m, inv := StoreMachine(env, a, fx, start), (s: Store) => HealthyReachable(env, a, start, s);
    forall s, time: nat | inv(s) && m.slot(s) <= m.slotAt(time)
      ensures inv(m.tick(s, time)) && m.slot(m.tick(s, time)) == m.slotAt(time)
    {
      TickStepKeeps(env, a, start, s, time);
      TickKeepsHealth(s, time);
    }
    forall s, name | inv(s) && m.block(s, name).Some? ensures T.SameClock(m, inv, s, m.block(s, name).value.0) {
      BlockStepKeeps(env, a, fx, start, s, name);
      BlockStepKeepsHealth(env, a, fx, s, name);
    }
    forall s, name | inv(s) && m.attest(s, name).Some? ensures T.SameClock(m, inv, s, m.attest(s, name).value.0) {
      AttestationStepKeeps(env, a, fx, start, s, name);
      AttestationKeepsHealth(env, s, fx.attestation(name).value, false);
    }
    forall s, name | inv(s) && m.slash(s, name).Some? ensures T.SameClock(m, inv, s, m.slash(s, name).value.0) {
      SlashingStepKeeps(env, a, fx, start, s, name);
      SlashingKeepsHealth(env, s, fx.slashing(name).value);
    }
  }

  /** At every point of every plain run from a healthy store, forward in time, the store is healthy. */
  lemma EveryForwardRunIsHealthy(env: Env, a: Anchor, fx: Fixture, start: Store, steps: seq<T.Step>)
    requires EnvLaws(env) && TrustedAnchor(env, a) && StoreInv(env, a, start) && Healthy(start)
    requires TimesForward(start.time, steps)
    ensures Healthy(T.After(StoreMachine(env, a, fx, start), start, steps))
  {
    var m, inv := StoreMachine(env, a, fx, start), (s: Store) => HealthyReachable(env, a, start, s);
    TimesAreSlots(m, start, start.time, steps);
    HandlersKeepHealth(env, a, fx, start);
    Trace.ForwardPlainRunKeeps(m, inv, start, steps);
  }

  /** … and at every point of every fast-confirmation run. */
  lemma EveryForwardFastRunIsHealthy(env: Env, a: Anchor, fx: Fixture, eager: bool, start: Store, f: Confirmation,
                                     steps: seq<T.Step>)
    requires EnvLaws(env) && TrustedAnchor(env, a) && StoreInv(env, a, start) && Healthy(start)
    requires TimesForward(start.time, steps)
    requires T.Turns(StoreMachine(env, a, fx, start), eager, T.Point(start, f, [], []), steps).Some?
    ensures Healthy(T.Turns(StoreMachine(env, a, fx, start), eager, T.Point(start, f, [], []), steps).value.store)
  {
    var m, inv := StoreMachine(env, a, fx, start), (s: Store) => HealthyReachable(env, a, start, s);
    TimesAreSlots(m, start, start.time, steps);
    HandlersKeepHealth(env, a, fx, start);
    Trace.ForwardPointsKeep(m, inv, eager, T.Point(start, f, [], []), steps);
  }

  /** From a store built from an anchor, so no premise is left but the anchor's. */
  lemma RunsFromAnAnchorAreHealthy(env: Env, preset: Preset, block: Block, state: BeaconState, genesisTime: nat,
                                   fx: Fixture, steps: seq<T.Step>)
    requires EnvLaws(env) && state.headerSlot == block.slot && block.slot <= state.slot
    requires preset.slotDurationMs >= 1000
    requires state.justified.epoch <= EpochAt(preset, state.slot)
    requires state.finalized.epoch <= EpochAt(preset, state.slot)
    requires TrustedAnchor(env, Anchor(env.rootOf(block), block, EpochAt(preset, state.slot)))
    requires TimesForward(InitialStore(preset, env.rootOf(block), block, state, genesisTime).time, steps)
    ensures var a, start := Anchor(env.rootOf(block), block, EpochAt(preset, state.slot)),
                            InitialStore(preset, env.rootOf(block), block, state, genesisTime);
            Healthy(T.After(StoreMachine(env, a, fx, start), start, steps))
  {
    var a, start := Anchor(env.rootOf(block), block, EpochAt(preset, state.slot)),
                    InitialStore(preset, env.rootOf(block), block, state, genesisTime);
    InitialIsHealthy(preset, env.rootOf(block), block, state, genesisTime);
    InitialStoreInv(env, preset, block, state, genesisTime);
    EveryForwardRunIsHealthy(env, a, fx, start, steps);
  }
}
