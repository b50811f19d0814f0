/**
  Values shared by the fork-choice model: roots, checkpoints, blocks, states and
  the fork-choice store of `crates/pharos-fork-choice/src/store.rs`.

  Machine words (`u64`) are modelled by unbounded naturals.  A root is the
  32-byte hash read as a big-endian number, so that `<` on roots is the
  lexicographic order used by the head tie-break; the zero root is `Root::default()`.
 */
module Types {

  type Root = nat
  type Slot = nat
  type Epoch = nat
  type ValidatorIndex = nat
  type Positive = n: nat | 0 < n witness 1

  const ZERO_ROOT: Root := 0

  const U64_MAX: nat := 0xFFFF_FFFF_FFFF_FFFF

  datatype Option<+T> = None | Some(value: T)

  datatype Checkpoint = Checkpoint(epoch: Epoch, root: Root)

  datatype Validator = Validator(slashed: bool, effectiveBalance: nat, activationEpoch: Epoch, exitEpoch: Epoch)

  /** The part of a beacon state that fork choice reads; `rest` stands for everything else. */
  datatype BeaconState = BeaconState(
    slot: Slot,
    headerSlot: Slot,            // slot of `latest_block_header`
    justified: Checkpoint,       // `current_justified_checkpoint`
    finalized: Checkpoint,
    validators: seq<Validator>,
    rest: nat)

  /** `executionHash` is the payload's block hash, `ZERO_ROOT` when the block carries no live payload. */
  datatype Block = Block(slot: Slot, parentRoot: Root, proposer: ValidatorIndex, executionHash: Root, body: nat)

  datatype LatestMessage = LatestMessage(epoch: Epoch, root: Root)

  datatype PayloadStatus = Valid | Invalid | NotValidated

  /** Compile-time constants of a `BeaconSpec`; `EFFECTIVE_BALANCE_INCREMENT` is `balanceIncrement`. */
  datatype Preset = Preset(slotsPerEpoch: Positive, slotDurationMs: Positive, attestationDueBps: nat,
                           balanceIncrement: nat)

  datatype Store = Store(
    preset: Preset,
    secondsPerSlot: nat,         // `runtime_cfg.seconds_per_slot`
    time: nat,
    genesisTime: nat,
    justified: Checkpoint,
    finalized: Checkpoint,
    unrealizedJustified: Checkpoint,
    unrealizedFinalized: Checkpoint,
    boostRoot: Root,
    equivocating: set<ValidatorIndex>,
    blocks: map<Root, Block>,
    blockStates: map<Root, BeaconState>,
    timely: map<Root, bool>,
    checkpointStates: map<Checkpoint, BeaconState>,
    latestMessages: map<ValidatorIndex, LatestMessage>,
    unrealized: map<Root, Checkpoint>,
    payloads: map<Root, PayloadStatus>)

  function EpochAt(p: Preset, slot: Slot): Epoch { slot / p.slotsPerEpoch }

  function StartSlot(p: Preset, epoch: Epoch): Slot { epoch * p.slotsPerEpoch }

  function SlotsSinceEpochStart(p: Preset, slot: Slot): (n: nat)
    ensures n < p.slotsPerEpoch
  {
    slot % p.slotsPerEpoch
  }

  // ── the slot clock ──────────────────────────────────────────────────────────

  function SlotLength(p: Preset, secondsPerSlot: nat): Positive {
    if secondsPerSlot == 0 then p.slotDurationMs else secondsPerSlot * 1000
  }

  function SlotMs(s: Store): Positive { SlotLength(s.preset, s.secondsPerSlot) }

  function SinceGenesis(time: nat, genesis: nat): nat { if time < genesis then 0 else time - genesis }

  function SlotFromTime(time: nat, genesis: nat, slotMs: Positive): Slot {
    SinceGenesis(time, genesis) * 1000 / slotMs
  }

  function SlotStartTime(slot: Slot, genesis: nat, slotMs: Positive): nat { genesis + slot * slotMs / 1000 }

  function CurrentSlot(s: Store): Slot { SlotFromTime(s.time, s.genesisTime, SlotMs(s)) }

  function CurrentEpoch(s: Store): Epoch { EpochAt(s.preset, CurrentSlot(s)) }
}
