# pharos: a Dafny model of fork choice and its conformance tooling

pharos is an Ethereum consensus client. This project models its fork-choice store and
the tools around it, and proves properties of the model.

The centre is the store: blocks, states, votes and checkpoints, the handlers that update
it, and the head it selects. `Ancestry`, `Weights` and `HeadSelection` give the block tree,
vote weights and greedy head selection. `Handlers`, `StoreInvariant` and `ForkChoiceObject` give
ticks, blocks, attestations and slashings, first as functions on store values and then as
methods of a mutable object. `HeadLaws`, `HandlerEffects` and `StoreHealth` say what the head is,
what each handler writes, and which invariants hold while time moves forward. `Optimistic` adds
payload verdicts; `FastConfirmation`, `ConfirmedChains`, `SearchReach`, `ConfirmationLaws` and
`RuleLaws` the fast confirmation rule. `Tape`, `TapeTrace` and `Conformance` interpret
`steps.yaml` tapes on those handlers, including the drivers that hold attestations back until the
next slot, and `RunLaws` carries the invariants over whole runs.

Beside it stand the tools: calendar arithmetic, JSON comparison, hex and decimal codecs,
slashing JSON, payload ids, the light-client merge, liveness, the head list, block-sequence
cases, the work pool, the filter and command-line grammars, and the dashboard's
reorganisation records.

Conventions. Machine words are natural numbers; width matters in `Calendar`, `Codec`,
`LightClient`, `Slashing` and `Liveness`, and is written out there. The state transition,
slot processing, signature checks, committee lookup and block hashing are function-valued
parameters (`Env`). What is assumed of them is written as `EnvLaws`: block hashes do not
collide, a successful transition moves to a later slot, and its post-state carries that
slot. `TrustedAnchor` assumes that whatever hashes to the anchor's parent has an earlier slot.
`SlotsAreProcessed`, that slot processing ends at the slot asked for, is assumed only where a lemma
names it. The optimistic-sync walks assume that no stored block has the zero root, which the
source uses as its sentinel.

Where comments and code differ, the model follows the code:

- `json_values_equivalent` compares every all-string array without order, hex
  `transactions` included (`JsonEquivalence.PositionalIffAllEqual`).
- A refused attestation can leave a checkpoint state behind, and a block refused after its
  insertion stays (`StoreInvariant.RefusedAttestationTrace` and `StoreInvariant.RefusedBlockTrace` say when,
  `StoreInvariant.RefusedAttestationCaches` and `StoreInvariant.RefusedBlockStays` give inputs).
- Altair light-client updates are labelled by rank, so a gap shifts labels, and an overflowing range misses its last period
  (`LightClient.MergeIsRightIff`).
- `--category` or `--preset` without `--fork` selects nothing (`Cli.LegacyKeepsMeaningIff`).
- A pool vote does not make every requested index live (`Liveness.PoolPromiseForAllIff`).
- Promotion does not always reach all ancestors, because `on_block` ignores the parent's
  verdict (`Optimistic.PromotionReachesAllIff`; inputs in `Optimistic.BlockOnInvalidBreaks` and
  `Optimistic.PromotionStopsAtInvalid`).
- `is_one_confirmed` is documented as true exactly for LMD-GHOST safe blocks; a block can be one-confirmed
  and lose its fork, because the threshold rests on an estimate of the votes
  (`ConfirmedChains.ForkIsLost`). It wins when its threshold is safe for the votes cast
  (`ConfirmedChains.OneConfirmedOutweighs`), and only such thresholds are safe for every split of
  those votes (`ConfirmedChains.SafeThresholdIff`).
- `on_tick` stands still before a slot whose start is not exact (`ForkChoiceObject.CatchUpEndsIff`). That takes
  a store with no runtime slot length and a preset slot that is not whole seconds
  (`Handlers.WholeSecondsIff`); a store built from an anchor is such a store only if slots are
  shorter than a second (`StoreInvariant.InitialWholeSecondsIff`).

## Model

| member | source | states |
|---|---|---|
| `Ancestry.GetAncestor` | crates/pharos-fork-choice/src/get_head.rs:101-119 | the loop computes `Ancestor`, the first block at or below a slot on the way to genesis |
| `Ancestry.Ancestor` | crates/pharos-fork-choice/src/get_head.rs:101-119 | the result is on the start's chain and, if stored, at or below the slot |
| `Ancestry.WalkDecidesAncestry` | crates/pharos-fork-choice/src/get_head.rs:101-119 | walking to a block's own slot returns that block exactly when it is an ancestor-or-self (both directions) |
| `Ancestry.WalkFindsLast` | crates/pharos-fork-choice/src/get_head.rs:101-129 | the walk to any slot returns exactly the last block of the chain up to that slot, stored or not |
| `Ancestry.WalksCompose` | crates/pharos-fork-choice/src/get_head.rs:101-129 | a walk to a high slot then to a low one equals the direct walk to the low one |
| `Ancestry.AncestorsComparable` | crates/pharos-fork-choice/src/get_head.rs:101-119 | two ancestors of one block lie on one chain |
| `Ancestry.ChildrenDisjoint` | crates/pharos-fork-choice/src/get_head.rs:315-324 | no block descends from two different children of one parent |
| `Ancestry.ExtendKeepsAncestor` | crates/pharos-fork-choice/src/get_head.rs:101-119 | adding blocks changes no answer that was a stored block |
| `Weights.SupportIsDescent` | crates/pharos-fork-choice/src/get_head.rs:165-199 | the voters counted for a root by slot-bounded walks are exactly the eligible voters whose latest vote descends from it |
| `Weights.SiblingScoresAdd` | crates/pharos-fork-choice/src/get_head.rs:165-199 | scores of distinct siblings add up to the balance of those who vote under any of them: nobody is counted twice |
| `Weights.VotesConserved` | crates/pharos-fork-choice/src/get_head.rs:165-199 | a block's score is the balance voting for it directly plus its children's scores |
| `Weights.AncestorScoresMore` | crates/pharos-fork-choice/src/get_head.rs:165-199 | an ancestor never scores less than a descendant |
| `Weights.MajorityChildOutweighs` | crates/pharos-fork-choice/src/get_head.rs:226-269 | a child with a majority of its siblings' votes by more than the proposer boost outweighs every sibling, wherever the boost goes |
| `Weights.BoostCounts` | crates/pharos-fork-choice/src/get_head.rs:241-269 | the weight is that without a boost plus the whole proposer score for exactly the blocks on the boosted chain |
| `Weights.BoostBeats` | crates/pharos-fork-choice/src/get_head.rs:241-269 | of two siblings the one on the boosted chain weighs more exactly when it does not trail by the whole boost |
| `Weights.VoteCountsIff` | crates/pharos-fork-choice/src/get_head.rs:165-199 | a vote counts exactly for an active, unslashed validator not known to equivocate, and for the chain of its block |
| `Weights.TotalIsActiveBalance` | crates/pharos-fork-choice/src/get_head.rs:202-211 | the total is the active balance, but at least one increment |
| `HeadSelection.ChildrenIndex` | crates/pharos-fork-choice/src/get_head.rs:315-324 | the index lists, without repetition, exactly the stored children of each parent |
| `HeadSelection.FilterBlockTree` | crates/pharos-fork-choice/src/get_head.rs:332-411 | the recursion adds to the tree exactly the blocks on a path, free of invalid blocks, from the root to a viable leaf, and answers whether the root is one |
| `HeadSelection.FilterChildren` | crates/pharos-fork-choice/src/get_head.rs:368-387 | the loop over children adds exactly what they contribute and answers whether any is viable |
| `HeadSelection.FilteredSplits` | crates/pharos-fork-choice/src/get_head.rs:332-411 | the set of viable-path blocks satisfies the recursion equation, leaves and inner blocks alike |
| `HeadSelection.GetHead` | crates/pharos-fork-choice/src/get_head.rs:461-499 | the loop with memoised weights returns the head of the specification: greedy descent by weight then root from the justified base |
| `HeadSelection.DescendTree` | crates/pharos-fork-choice/src/get_head.rs:478-495 | the descent over the filtered tree ends at the head |
| `HeadSelection.HeaviestChild` | crates/pharos-fork-choice/src/get_head.rs:474-494 | the maximum is by weight, ties by the larger root, and memoised weights stay right |
| `HeadSelection.BestIsUnique` | crates/pharos-fork-choice/src/get_head.rs:484-494 | the tie-break leaves one winner, so the answer does not depend on iteration order |
| `HeadSelection.HeadFallsBackToBase` | crates/pharos-fork-choice/src/get_head.rs:437-499 | without a viable branch the head is the base |
| `HeadSelection.HeadIsViableLeaf` | crates/pharos-fork-choice/src/get_head.rs:437-499 | with a viable branch the head is a viable leaf reached through no invalid block |
| `HeadSelection.HeadExtendsFinalized` | crates/pharos-fork-choice/src/get_head.rs:389-411 | with a viable branch and finality past genesis the head descends from the finalized block |
| `HeadSelection.DominantIsCanonical` | crates/pharos-fork-choice/src/get_head.rs:461-499 | a viable block whose chain outweighs all siblings at every step is on the head's chain |
| `HeadSelection.OnlyOneMajority` | crates/pharos-fork-choice/src/get_head.rs:165-199 | two siblings' scores never exceed the balance of all voters |
| `HeadSelection.MajorityIsCanonical` | crates/pharos-fork-choice/src/get_head.rs:461-499 | a viable block with a majority of all votes beyond the boost is on the head's chain |
| `HeadLaws.HeadIffGreedy` | crates/pharos-fork-choice/src/get_head.rs:461-499 | the head is the one block that wins every fork from the base on, by weight and then by the larger root, and has no filtered child (both directions) |
| `HeadLaws.BoostDecidesHead` | crates/pharos-fork-choice/src/get_head.rs:241-269 | at a fork on its way the head goes to the boosted side when no other side leads it by the whole boost |
| `HeadLaws.HeadExtendsJustified` | crates/pharos-fork-choice/src/get_head.rs:424-435 | the head descends from the justified block whenever that is known |
| `HeadLaws.HeadVotesRecently` | crates/pharos-fork-choice/src/get_head.rs:389-411 | with a viable branch the head's voting source is the justified epoch's or at most two epochs old |
| `HeadLaws.ViableLeafIsKept` | crates/pharos-fork-choice/src/get_head.rs:389-411 | a leaf that meets both rules keeps its whole valid branch in the filtered tree |
| `Handlers.SlotStartsAreExact` | crates/pharos-fork-choice/src/get_head.rs:49-58 | for slots of whole seconds the slot at a slot's start time is that slot |
| `Handlers.CatchUpProgressesIff` | crates/pharos-fork-choice/src/handlers.rs:156-166 | every slot is reached at its start exactly when the slot length is a whole number of seconds; `ForkChoiceObject.CatchUpEndsIff` is the condition for one call |
| `Handlers.WholeSecondsIff` | crates/pharos-fork-choice/src/get_head.rs:44-47 | the slot length is whole seconds exactly when a runtime length is set or the preset length is whole seconds |
| `Handlers.WholeSecondsCatchUp` | crates/pharos-fork-choice/src/handlers.rs:156-166 | whole-second slots let every catch-up end |
| `Handlers.TimelyIff` | crates/pharos-fork-choice/src/handlers.rs:171-181 | a block is timely exactly when it arrives at or after the start of its slot and before the attestation deadline |
| `Handlers.LateStaysLate` | crates/pharos-fork-choice/src/handlers.rs:171-181 | a block that is late once its slot has begun is late at every later time |
| `Handlers.OnAttestation` | crates/pharos-fork-choice/src/handlers.rs:676-739 | an attestation, accepted or not, changes only checkpoint states and latest messages |
| `Handlers.FeedAttestations` | crates/pharos-conformance/src/fork_choice.rs:649-654 | feeding a block's attestations changes only checkpoint states and latest messages |
| `Handlers.OnAttesterSlashing` | crates/pharos-fork-choice/src/handlers.rs:856-905 | a slashing only ever adds equivocating validators |
| `StoreInvariant.InitialStoreInv` | crates/pharos-fork-choice/src/store.rs:244-350 | the anchor store satisfies the invariant: one rooted tree, votes for known blocks, states for all blocks |
| `StoreInvariant.InitialWholeSecondsIff` | crates/pharos-fork-choice/src/store.rs:332-342 | slots of a store built from an anchor are whole seconds exactly when the preset slot is not shorter than a second |
| `StoreInvariant.GrownStoresCatchUp` | crates/pharos-fork-choice/src/handlers.rs:156-166 | then the catch-up ends from every store grown out of it, for every time |
| `StoreInvariant.TickKeeps` | crates/pharos-fork-choice/src/handlers.rs:136-166 | every tick keeps the invariant, grows the store monotonically and sets the clock |
| `StoreInvariant.SlashingKeeps` | crates/pharos-fork-choice/src/handlers.rs:856-905 | every slashing keeps the invariant, grows the store and leaves the clock |
| `StoreInvariant.VoteAllKeeps` | crates/pharos-fork-choice/src/handlers.rs:642-668 | recording votes keeps them known, never lowers a voter's epoch and never moves an equivocator's vote |
| `StoreInvariant.AttestationKeeps` | crates/pharos-fork-choice/src/handlers.rs:676-848 | every attestation, accepted or refused, keeps the invariant and grows the store |
| `StoreInvariant.FeedKeeps` | crates/pharos-conformance/src/fork_choice.rs:649-654 | so does every list of block attestations |
| `StoreInvariant.RefusedAttestationTrace` | crates/pharos-fork-choice/src/handlers.rs:676-739 | a refused attestation leaves the store untouched exactly when its target state was cached, its data was refused, or the target state could not be built; otherwise the cached state stays behind |
| `StoreInvariant.RefusedAttestationCaches` | crates/pharos-fork-choice/src/handlers.rs:676-739 | the failing input: attesters rejected on a target state built for the first time, which then stays cached |
| `StoreInvariant.TransitionAllowsInsert` | crates/pharos-fork-choice/src/handlers.rs:277-460 | a block whose transition succeeded can be inserted without breaking the tree or replacing a block |
| `StoreInvariant.InsertKeepsTree` | crates/pharos-fork-choice/src/handlers.rs:277-460 | insertion keeps one tree rooted at the anchor with a state per block |
| `StoreInvariant.BlockKeeps` | crates/pharos-fork-choice/src/handlers.rs:277-460 | every delivered block keeps the invariant, grows the store and leaves the clock; a block refused by a rule or by its transition leaves the store untouched |
| `StoreInvariant.OnBlockKeeps` | crates/pharos-fork-choice/src/handlers.rs:277-460 | `on_block` at any arrival time keeps the invariant and grows the store, given the block's own post-state |
| `StoreInvariant.RefusedBlockTrace` | crates/pharos-fork-choice/src/handlers.rs:426-460 | a refused block, new or delivered again, leaves the store untouched exactly when a rule or its transition refused it or all it writes was there; a failure after insertion leaves a new block behind |
| `StoreInvariant.RefusedBlockStays` | crates/pharos-fork-choice/src/handlers.rs:426-460 | the failing input: a new block whose pull-up fails is refused and stays in the block map |
| `StoreInvariant.AcceptedBlockExtendsFinalized` | crates/pharos-fork-choice/src/handlers.rs:346-363 | an accepted block descends from the block that was finalized when it arrived |
| `StoreInvariant.GrowsTransitive` | crates/pharos-fork-choice/src/store.rs:36-160 | monotone growth (blocks kept, votes and checkpoints only advance) composes over whole runs |
| `HandlerEffects.AttestationRecords` | crates/pharos-fork-choice/src/handlers.rs:642-668 | an accepted attestation gives every attester its vote, unless frozen or voting at least as late already, and changes no other vote |
| `HandlerEffects.AttestationSupports` | crates/pharos-fork-choice/src/handlers.rs:676-739 | from then on an eligible attester supports exactly the chain of the attested block |
| `HandlerEffects.AttestationCaches` | crates/pharos-fork-choice/src/handlers.rs:587-627 | the target state is cached once, advanced to the epoch start, and never replaced |
| `HandlerEffects.AttestationAcceptedIff` | crates/pharos-fork-choice/src/handlers.rs:510-581 | exactly the attestations accepted: recent target, past slot, known blocks, and the target the last block of the chain at the epoch start |
| `HandlerEffects.FeedAppends` | crates/pharos-conformance/src/fork_choice.rs:649-654 | a block's attestations are fed one after the other |
| `HandlerEffects.BlockAcceptedIff` | crates/pharos-fork-choice/src/handlers.rs:277-460 | exactly the blocks accepted: known parent, not from the future, after and on the finalized block, merge rule, transition and pull-up succeed |
| `HandlerEffects.AcceptedBlockIsStored` | crates/pharos-fork-choice/src/handlers.rs:426-440 | an accepted block is stored with its post-state, an undecided verdict if it had none, and its timeliness |
| `HandlerEffects.AcceptedBlockVotes` | crates/pharos-fork-choice/src/get_head.rs:274-312 | it votes from its own state until its epoch is over and from its pulled-up checkpoint afterwards, also after any tick |
| `HandlerEffects.AcceptedBlockCheckpoints` | crates/pharos-fork-choice/src/handlers.rs:32-130 | each checkpoint becomes the latest one offered, pulled-up ones only for blocks of past epochs |
| `HandlerEffects.ProposerIsOfTheSlot` | crates/pharos-fork-choice/src/handlers.rs:184-251 | the expected proposer is that of the head's state brought up to the current slot |
| `HandlerEffects.BoostGivenIff` | crates/pharos-fork-choice/src/handlers.rs:184-251 | a block gets the boost exactly when no block holds it, it is timely and by the expected proposer |
| `HandlerEffects.TickEffect` | crates/pharos-fork-choice/src/handlers.rs:136-166 | a tick clears the boost exactly on a later slot and adopts later unrealized checkpoints exactly on a later epoch |
| `HandlerEffects.SlashableIff` | crates/pharos-fork-choice/src/handlers.rs:856-880 | two different votes for one target epoch, or the first vote's span strictly around the second's |
| `HandlerEffects.SlashingEffect` | crates/pharos-fork-choice/src/handlers.rs:856-910 | accepted exactly when slashable and both valid under the justified block's state; then exactly the validators in both become equivocators |
| `HandlerEffects.SlashingRemovesVotes` | crates/pharos-fork-choice/src/handlers.rs:856-910 | for every block exactly their votes stop counting |
| `StoreHealth.InitialIsHealthy` | crates/pharos-fork-choice/src/store.rs:244-350 | an anchor store has no future block, no stale boost, no running vote and no missed checkpoint |
| `StoreHealth.BlockKeepsHealth` | crates/pharos-fork-choice/src/handlers.rs:277-460 | delivering a block, accepted or not, keeps the store healthy |
| `StoreHealth.AttestationKeepsHealth` | crates/pharos-fork-choice/src/handlers.rs:676-739 | so does an attestation: every vote is from a slot that is over |
| `StoreHealth.SlashingKeepsHealth` | crates/pharos-fork-choice/src/handlers.rs:856-910 | so does a slashing |
| `StoreHealth.TickKeepsHealth` | crates/pharos-fork-choice/src/handlers.rs:136-166 | so does a tick that does not go back: the boost is of the running slot, and past blocks' justifications are realized |
| `StoreHealth.NoSourceBeyondJustified` | crates/pharos-fork-choice/src/get_head.rs:274-312 | in a healthy store no block votes from a later checkpoint than the store's own |
| `ForkChoiceObject.TicksCompose` | crates/pharos-fork-choice/src/handlers.rs:136-166 | ticking slot by slot equals one jump in closed form |
| `ForkChoiceObject.NextSlotEpoch` | crates/pharos-fork-choice/src/handlers.rs:143-149 | the next slot starts an epoch exactly when its offset in the epoch is zero |
| `ForkChoiceObject.ForkChoice.constructor` | crates/pharos-fork-choice/src/store.rs:36-160 | the mutable object holds the given store |
| `ForkChoiceObject.ForkChoice.UpdateCheckpoints` | crates/pharos-fork-choice/src/handlers.rs:32-43 | each checkpoint moves only to a later epoch |
| `ForkChoiceObject.ForkChoice.OnTickPerSlot` | crates/pharos-fork-choice/src/handlers.rs:136-150 | one slot's tick: clock, boost reset on a new slot, checkpoints pulled at an epoch start |
| `ForkChoiceObject.ForkChoice.OnTick` | crates/pharos-fork-choice/src/handlers.rs:156-166 | the handler equals the closed form, keeps the invariant and grows the store, wherever the catch-up ends |
| `ForkChoiceObject.CatchUpEndsIff` | crates/pharos-fork-choice/src/handlers.rs:156-166 | from any store and to any time, some number of turns of the loop reaches the slot exactly when each slot on the way has an exact start |
| `ForkChoiceObject.NextTickMoves` | crates/pharos-fork-choice/src/handlers.rs:156-166 | one turn enters the next slot when its start is exact; else the slot stays and a second turn changes nothing |
| `ForkChoiceObject.ForkChoice.CatchUp` | crates/pharos-fork-choice/src/handlers.rs:156-166 | the slot-by-slot loop ends and equals the closed form when each slot on the way has an exact start |
| `ForkChoiceObject.ForkChoice.RecordTimeliness` | crates/pharos-fork-choice/src/handlers.rs:171-181 | timely exactly when the clock is inside the window that opens with the block's slot and closes at its deadline |
| `ForkChoiceObject.ForkChoice.RecordTimelinessAt` | crates/pharos-fork-choice/src/handlers.rs:442-447 | the same at a delayed arrival time, with the clock put back |
| `ForkChoiceObject.ForkChoice.UpdateBoost` | crates/pharos-fork-choice/src/handlers.rs:184-251 | the boost goes to the first timely block of the proposer expected at the current slot on the head's state |
| `ForkChoiceObject.ForkChoice.PullUpTip` | crates/pharos-fork-choice/src/handlers.rs:70-128 | unrealized checkpoints always advance, realized ones only for blocks of a past epoch; failure changes nothing |
| `ForkChoiceObject.ForkChoice.CheckBlock` | crates/pharos-fork-choice/src/handlers.rs:326-425 | the guards accept exactly the acceptable blocks |
| `ForkChoiceObject.ForkChoice.Insert` | crates/pharos-fork-choice/src/handlers.rs:427-447 | block, state, payload verdict and timeliness written together |
| `ForkChoiceObject.ForkChoice.OnBlock` | crates/pharos-fork-choice/src/handlers.rs:277-460 | equals the specification on every field, accepting or refusing, and with the block's own post-state keeps the invariant and grows the store |
| `ForkChoiceObject.ForkChoice.StoreTargetCheckpointState` | crates/pharos-fork-choice/src/handlers.rs:587-627 | the target's state is cached once, advanced to its epoch start |
| `ForkChoiceObject.ForkChoice.OnAttestation` | crates/pharos-fork-choice/src/handlers.rs:676-739 | equals the specification, including what a refusal leaves behind, keeps the invariant and grows the store |
| `ForkChoiceObject.ForkChoice.UpdateLatestMessages` | crates/pharos-fork-choice/src/handlers.rs:630-668 | the loop records newer votes of non-equivocating validators only |
| `ForkChoiceObject.ForkChoice.OnAttesterSlashing` | crates/pharos-fork-choice/src/handlers.rs:856-905 | adds the common indices of a valid slashing and nothing else, keeps the invariant and grows the store |
| `Optimistic.DeepestExecutionMeans` | crates/pharos-fork-choice/src/optimistic.rs:138-158 | the deepest execution block found is below every execution block of the chain |
| `Optimistic.ChildOfHashMeans` | crates/pharos-fork-choice/src/optimistic.rs:160-195 | the block found is on the chain and its parent carries the given hash |
| `Optimistic.ResolveInvalidBlock` | crates/pharos-fork-choice/src/optimistic.rs:125-194 | the two walks resolve `latestValidHash` as `InvalidRootResolves` says, on every tree |
| `Optimistic.InvalidRootResolves` | crates/pharos-fork-choice/src/optimistic.rs:100-194 | zero hash: the first execution block of the chain, if any; a hash of a proper ancestor: the block after the last ancestor carrying it; otherwise the block itself |
| `Optimistic.ApplyInvalidPayload` | crates/pharos-fork-choice/src/optimistic.rs:404-438 | the breadth-first pass marks exactly the subtree of the resolved root invalid and changes no other verdict |
| `Optimistic.MarkSubtree` | crates/pharos-fork-choice/src/optimistic.rs:404-438 | the breadth-first marking makes exactly the subtree invalid |
| `Optimistic.InvalidIsCanonicalIff` | crates/pharos-fork-choice/src/get_head.rs:332-499 | an invalid block is on the head's chain exactly when it is on the chain of the base |
| `Optimistic.ValidHasValidAncestors` | crates/pharos-fork-choice/src/optimistic.rs:199-255 | where verdicts agree, valid blocks have valid ancestors and invalid ones invalid descendants; which operations keep agreement is stated below |
| `Optimistic.PromoteValidAncestors` | crates/pharos-fork-choice/src/optimistic.rs:222-255 | the loop equals `Promote` and overwrites no verdict, on every store |
| `Optimistic.PromotesUndecidedOnly` | crates/pharos-fork-choice/src/optimistic.rs:222-255 | only undecided blocks on the block's own chain change, and they become valid |
| `Optimistic.PromotedIff` | crates/pharos-fork-choice/src/optimistic.rs:222-255 | on every store, an ancestor is valid afterwards exactly when it was, or lies above the first decided block of the walk |
| `Optimistic.PromotionReachesAllIff` | crates/pharos-fork-choice/src/optimistic.rs:199-255 | all stored ancestors become valid exactly when every stored block at or below the first decided one was valid already |
| `Optimistic.PromotionReachesAnchor` | crates/pharos-fork-choice/src/optimistic.rs:222-255 | where verdicts agree, every stored ancestor becomes valid and verdicts still agree |
| `Optimistic.PromotionStopsAtInvalid` | crates/pharos-fork-choice/src/optimistic.rs:222-255 | the failing input: promoting a block delivered on an invalid parent leaves the parent invalid |
| `Optimistic.InitialVerdictsAgree` | crates/pharos-fork-choice/src/store.rs:244-350 | the anchor store's verdicts agree |
| `Optimistic.InvalidationKeepsAgreement` | crates/pharos-fork-choice/src/optimistic.rs:404-438 | invalidating a whole subtree keeps agreement |
| `Optimistic.BlockKeepsAgreementIff` | crates/pharos-fork-choice/src/handlers.rs:426-440 | a delivered block keeps agreement exactly when its own link to its parent agrees |
| `Optimistic.BlockOnInvalidBreaks` | crates/pharos-fork-choice/src/handlers.rs:426-440 | for a block without a verdict that is exactly when its parent is not invalid |
| `Optimistic.MarkingValidAgreesIff` | crates/pharos-fork-choice/src/store.rs:165-167 | recording one block as valid keeps agreement exactly when its stored parent is valid |
| `Optimistic.LatestVerifiedAncestor` | crates/pharos-fork-choice/src/optimistic.rs:284-315 | returns the nearest non-optimistic block of the chain if there is one; otherwise the last stored block, or the finalized root when that block's parent is outside the store |
| `Optimistic.AnchorVerifiesEveryChain` | crates/pharos-fork-choice/src/optimistic.rs:284-315 | with a valid anchor there always is one |
| `FastConfirmation.GetAncestorRoots` | crates/pharos-fork-choice/src/fast_confirmation.rs:145-178 | the loop collects the roots between a terminal and a block, oldest first, or nothing |
| `FastConfirmation.RootsAboveMeans` | crates/pharos-fork-choice/src/fast_confirmation.rs:145-178 | they are parent-linked from the terminal's child up to the block |
| `FastConfirmation.RunAdvancePrevious` | crates/pharos-fork-choice/src/fast_confirmation.rs:911-931 | the first advancing loop equals its specification |
| `FastConfirmation.RunAdvanceTentative` | crates/pharos-fork-choice/src/fast_confirmation.rs:941-965 | the second advancing loop equals its specification |
| `FastConfirmation.FindLatestConfirmedDescendant` | crates/pharos-fork-choice/src/fast_confirmation.rs:876-982 | the whole search equals its specification |
| `FastConfirmation.DescendantStaysOnChain` | crates/pharos-fork-choice/src/fast_confirmation.rs:876-982 | the search returns its start or a block between the start and the head; `ConfirmedChains.SearchPassesConfirmedOnly` says what it passes |
| `FastConfirmation.ConfirmedIsAnchored` | crates/pharos-fork-choice/src/fast_confirmation.rs:987-1093 | the confirmed root is on the head's chain, or the finalized root, or the head's unrealized justified root |
| `FastConfirmation.ConfirmedIsCanonical` | crates/pharos-fork-choice/src/fast_confirmation.rs:987-1093 | in every store satisfying the invariant with a viable branch, the finalized case is canonical too |
| `FastConfirmation.ConfirmedNeverRegresses` | crates/pharos-fork-choice/src/fast_confirmation.rs:987-1042 | unless a revert condition holds, the confirmed block's slot never falls |
| `ConfirmedChains.VotesUnderIsSum` | crates/pharos-fork-choice/src/get_head.rs:165-199 | the balance voting for proper descendants of a block is what its children score together |
| `ConfirmedChains.SafeThresholdIff` | crates/pharos-fork-choice/src/fast_confirmation.rs:572-613 | a threshold is safe exactly when no split of the votes under the parent lets a block above it be caught by a sibling with the boost |
| `ConfirmedChains.OneConfirmedLeads` | crates/pharos-fork-choice/src/fast_confirmation.rs:620-646 | under any balance source, a one-confirmed block with a safe threshold has more votes than each sibling plus the proposer boost |
| `ConfirmedChains.OneConfirmedOutweighs` | crates/pharos-fork-choice/src/fast_confirmation.rs:615-646 | under the justified state it outweighs every sibling in LMD-GHOST, wherever the boost goes |
| `ConfirmedChains.EstimateGivesCover` | crates/pharos-fork-choice/src/fast_confirmation.rs:363-402 | a committee estimate that covers the votes makes the threshold safe, empty-slot discount included |
| `ConfirmedChains.EpochIsCovered` | crates/pharos-fork-choice/src/fast_confirmation.rs:363-402 | over an epoch the estimate covers every vote under the parent |
| `ConfirmedChains.WindowIsCovered` | crates/pharos-fork-choice/src/fast_confirmation.rs:363-402 | over any window it does when the votes come from the window's committees and these weigh no more than the estimate |
| `ConfirmedChains.EvenCommitteesCover` | crates/pharos-fork-choice/src/fast_confirmation.rs:363-402 | inside one epoch it does when each vote comes from a committee at or after its block and no committee outweighs an even share |
| `ConfirmedChains.ConfirmedChainLeads` | crates/pharos-fork-choice/src/fast_confirmation.rs:651-701 | a chain of one-confirmed blocks with safe thresholds leads at every step, under any balance source |
| `ConfirmedChains.ConfirmedChainIsDominant` | crates/pharos-fork-choice/src/fast_confirmation.rs:651-701 | under the justified state it wins every fork |
| `ConfirmedChains.ConfirmedChainIsCanonical` | crates/pharos-fork-choice/src/fast_confirmation.rs:651-701 | seen from the base, every viable block of it is on the chain of the selected head |
| `ConfirmedChains.OldChainIsCovered` | crates/pharos-fork-choice/src/fast_confirmation.rs:363-402 | a chain whose top has votes over an epoch has safe thresholds throughout, whatever the committees |
| `ConfirmedChains.EpochChainIsCovered` | crates/pharos-fork-choice/src/fast_confirmation.rs:363-402 | above a block of the last slot's epoch, even committees and timely votes make every threshold safe |
| `ConfirmedChains.PreviousPasses` | crates/pharos-fork-choice/src/fast_confirmation.rs:911-931 | the first loop passes a prefix, all of it one-confirmed, of earlier epochs and known to the previous head |
| `ConfirmedChains.TentativePasses` | crates/pharos-fork-choice/src/fast_confirmation.rs:941-965 | the second loop passes a prefix, all of it one-confirmed |
| `ConfirmedChains.SearchPassesConfirmedOnly` | crates/pharos-fork-choice/src/fast_confirmation.rs:876-982 | every block from the start to the result is one-confirmed under the observed justified state |
| `ConfirmedChains.SearchResultLeads` | crates/pharos-fork-choice/src/fast_confirmation.rs:876-982 | so the result leads at every step above the start under that state, when the thresholds passed are safe |
| `ConfirmedChains.SearchResultIsDominant` | crates/pharos-fork-choice/src/fast_confirmation.rs:876-982 | when that state is the justified one, the result wins every fork above the start |
| `ConfirmedChains.ConfirmationPasses` | crates/pharos-fork-choice/src/fast_confirmation.rs:987-1093 | `on_fast_confirmation` stays at its starting point or passes one-confirmed blocks only |
| `ConfirmedChains.ConfirmationLeads` | crates/pharos-fork-choice/src/fast_confirmation.rs:987-1093 | whatever it advances over leads at every step, when each threshold passed is safe |
| `ConfirmedChains.ConfirmationLeadsInEpoch` | crates/pharos-fork-choice/src/fast_confirmation.rs:987-1093 | when it advances inside an epoch, even committees and timely votes are enough for that |
| `ConfirmedChains.ConfirmationIsDominant` | crates/pharos-fork-choice/src/fast_confirmation.rs:987-1093 | with the justified checkpoint observed, a leading confirmed root wins every fork above the starting point |
| `ConfirmedChains.ForkIsDecided` | crates/pharos-fork-choice/src/fast_confirmation.rs:615-646 | eight slots an epoch, a committee of 100 voting 96 to 4: the premises hold and the one-confirmed block wins |
| `ConfirmedChains.ForkIsSearched` | crates/pharos-fork-choice/src/fast_confirmation.rs:1036-1041 | there the search is called and advances from the anchor to that block |
| `ConfirmedChains.ForkIsLost` | crates/pharos-fork-choice/src/fast_confirmation.rs:615-646 | the failing input: with 500 voting for the sibling the block with 96 is one-confirmed and loses; its threshold is not safe |
| `SearchReach.FurthestIff` | crates/pharos-fork-choice/src/fast_confirmation.rs:876-982 | a block of the chain is at or below the furthest one reached exactly when all blocks up to it pass the rule |
| `SearchReach.FurthestStops` | crates/pharos-fork-choice/src/fast_confirmation.rs:876-982 | the next block towards the head does not pass the rule |
| `SearchReach.PreviousIsFurthest` | crates/pharos-fork-choice/src/fast_confirmation.rs:911-931 | the first loop ends at the furthest block through one-confirmed blocks of earlier epochs on the previous head's chain |
| `SearchReach.TentativeIsFurthest` | crates/pharos-fork-choice/src/fast_confirmation.rs:941-965 | the second loop ends at the furthest block through one-confirmed blocks, entering an epoch only if its target will be justified |
| `SearchReach.SearchIsFurthest` | crates/pharos-fork-choice/src/fast_confirmation.rs:876-982 | the whole search, its two gates and the taking back of the second stage, from any stored start |
| `SearchReach.UnknownSourceStays` | crates/pharos-fork-choice/src/fast_confirmation.rs:876-982 | without the observed state the search does not move |
| `ConfirmationLaws.ConfirmationIsFurthest` | crates/pharos-fork-choice/src/fast_confirmation.rs:987-1093 | a call searches from a start of the current or previous epoch and rests on an older one |
| `ConfirmationLaws.ConfirmationIsMaximal` | crates/pharos-fork-choice/src/fast_confirmation.rs:987-1093 | inside the current epoch a block above the start is at or below the confirmed root exactly when it and all blocks down to the start are one-confirmed |
| `ConfirmationLaws.ConfirmationStops` | crates/pharos-fork-choice/src/fast_confirmation.rs:941-982 | it stops below the head only before a block that is not one-confirmed or opens an epoch whose target is not sure to be justified |
| `ConfirmationLaws.EpochStartConfirms` | crates/pharos-fork-choice/src/fast_confirmation.rs:890-931 | at an epoch's first slot it confirms each block of the previous epoch that both heads' chains share, if all up to it are one-confirmed |
| `ConfirmationLaws.ConfirmedIsRecent` | crates/pharos-fork-choice/src/fast_confirmation.rs:987-1041 | the confirmed root is of the current or previous epoch, or it is the finalized root |
| `ConfirmationLaws.ConfirmedIsKept` | crates/pharos-fork-choice/src/fast_confirmation.rs:987-1041 | between epoch starts a recent confirmed block on the head's chain is never given up |
| `ConfirmationLaws.ChainSafeIff` | crates/pharos-fork-choice/src/fast_confirmation.rs:651-701 | at an epoch start the chain is safe exactly when each block above the observed checkpoint, or of the previous epoch on, is one-confirmed |
| `ConfirmationLaws.StartIs` | crates/pharos-fork-choice/src/fast_confirmation.rs:987-1034 | exactly where a call starts: kept, reverted to the finalized root, or restarted from the observed checkpoint |
| `ConfirmationLaws.HeadsAreRemembered` | crates/pharos-fork-choice/src/fast_confirmation.rs:843-873 | two calls in a row remember the two heads they saw |
| `ConfirmationLaws.ObservedIsLastSlots` | crates/pharos-fork-choice/src/fast_confirmation.rs:843-873 | the checkpoint observed from an epoch's first slot on is the unrealized one of the slot before |
| `ConfirmationLaws.ObservedStays` | crates/pharos-fork-choice/src/fast_confirmation.rs:843-873 | away from epoch starts observed checkpoints do not change |
| `RuleLaws.OneConfirmedIff` | crates/pharos-fork-choice/src/fast_confirmation.rs:572-646 | valid payload, some votes, and twice the votes plus the discount above the estimate, the boost and twice the adversary |
| `RuleLaws.AdversaryIs` | crates/pharos-fork-choice/src/fast_confirmation.rs:406-478 | a quarter of the estimate less the committees' known equivocators, never below zero |
| `RuleLaws.AdversaryFrom` | crates/pharos-fork-choice/src/fast_confirmation.rs:481-510 | counted from the block's slot, or from its epoch's start when its parent is of an earlier epoch |
| `RuleLaws.DiscountIs` | crates/pharos-fork-choice/src/fast_confirmation.rs:516-556 | votes that stayed with the parent in the empty slots, less the adversary there |
| `RuleLaws.TargetsWithoutConflict` | crates/pharos-fork-choice/src/fast_confirmation.rs:802-840 | a justified target has no conflict, and one that will be justified has none either |
| `RuleLaws.TargetVoteIff` | crates/pharos-fork-choice/src/fast_confirmation.rs:707-748 | target votes counted are those of the current epoch whose chain shares the head's block at the epoch's start |
| `RuleLaws.PulledUpIsCurrent` | crates/pharos-fork-choice/src/fast_confirmation.rs:214-258 | the head state used for targets is never of an earlier epoch |
| `RuleLaws.ConfirmationIsVerified` | crates/pharos-fork-choice/src/fast_confirmation.rs:615-646 | no call passes a block whose payload is not known to be valid |
| `RuleLaws.ForkIsConfirmed` | crates/pharos-fork-choice/src/fast_confirmation.rs:1051-1093 | on the small store one call moves the confirmed root from the anchor to the block that 96 of 100 voted for |
| `RuleLaws.ForkedTarget` | crates/pharos-fork-choice/src/fast_confirmation.rs:752-840 | there honest target support is 500 of 800: no conflict, but not yet sure to be justified |
| `RuleLaws.BoundaryEstimate` | crates/pharos-fork-choice/src/fast_confirmation.rs:344-402 | the estimate on three windows: inside an epoch, across a boundary, and over a full epoch |
| `Tape.RunCase` | crates/pharos-conformance/src/fork_choice.rs:584-801 | the plain driver's loop equals the fold over steps |
| `Tape.VerdictMeans` | crates/pharos-conformance/src/fork_choice.rs:584-801 | Pass exactly when every step holds in the store reached there; otherwise the first broken step decides between Skip and Fail, and the store is the one before it |
| `Tape.PassIffTrail` | crates/pharos-conformance/src/fork_choice.rs:584-801 | a case passes, in a given store, exactly when its handlers answer as the fixture expects all the way there |
| `Tape.RunFcrCase` | crates/pharos-conformance/src/fork_choice.rs:3883-4069 | the fast-confirmation loop, decoding at reading or at release, equals the deferring fold and reaches the point that records its buffer and what it did |
| `Tape.ReleaseAll` | crates/pharos-conformance/src/fork_choice.rs:3894-3911 | draining the buffer applies everything held, in order, until one disagrees |
| `Tape.DeferredRunsItsSchedule` | crates/pharos-conformance/src/fork_choice.rs:3883-4069 | both kinds of driver, on every tape: a driver that decodes at reading fails where a file does not decode; otherwise store, confirmation and verdict are those of an immediate interpreter on the rewritten tape |
| `Tape.LazyRunsItsSchedule` | crates/pharos-conformance/src/fork_choice.rs:5390-5602 | the driver that decodes at release equals the immediate interpreter on the rewritten tape |
| `Tape.TurnsMakeTheRun` | crates/pharos-conformance/src/fork_choice.rs:3887-4069 | the outcome of a run is that of its last point |
| `Tape.DrainIsImmediate` | crates/pharos-conformance/src/fork_choice.rs:3891-3914 | releasing the buffer is running the released steps at once |
| `Tape.DecodableTapesAgree` | crates/pharos-conformance/src/fork_choice.rs:5390-5430 | where all attestation files decode, decoding at reading and at release agree |
| `Tape.EagerRejectsUndecodable` | crates/pharos-conformance/src/fork_choice.rs:4060-4069 | a driver that decodes at reading fails every tape with an undecodable attestation |
| `Tape.EagerAgreesIff` | crates/pharos-conformance/src/fork_choice.rs:5390-5602 | the two kinds of driver agree exactly when all attestations decode or the lazy one fails as well |
| `Tape.AttestationsConserved` | crates/pharos-conformance/src/fork_choice.rs:5390-5602 | in the rewrite, attestations read equal applied then still held; `TapeTrace.DriverConserves` says it of the driver |
| `Tape.ScheduleSplits` | crates/pharos-conformance/src/fork_choice.rs:3883-4069 | the rewrite works piecewise, so the laws hold at every point of a tape |
| `Tape.NothingHeldAtConfirmation` | crates/pharos-conformance/src/fork_choice.rs:3891-3914 | in the rewrite, a slot-advancing tick ends with a confirmation with nothing held; `TapeTrace.ConfirmedAfterAll` says it of the driver |
| `Tape.ConfirmsOncePerSlot` | crates/pharos-conformance/src/fork_choice.rs:3889-3914 | in the rewrite, confirmations are exactly the slots entered; `TapeTrace.DriverConfirmsOncePerSlot` says it of the driver |
| `Tape.AppliedInLaterSlot` | crates/pharos-conformance/src/fork_choice.rs:3891-3914 | in the rewrite, when ticks do not go back, each attestation is applied in a later slot than it was read; `TapeTrace.DriverDelays` says it of the driver |
| `Tape.PlainRunKeeps` | crates/pharos-conformance/src/fork_choice.rs:584-801 | any invariant of the handlers holds after every plain tape |
| `Tape.DeferredRunKeeps` | crates/pharos-conformance/src/fork_choice.rs:3883-4069 | and after every deferred tape that passes |
| `TapeTrace.TurnsSplit` | crates/pharos-conformance/src/fork_choice.rs:3887-4069 | a run that has not failed has reached every earlier point, so these laws hold at each |
| `TapeTrace.DriverConserves` | crates/pharos-conformance/src/fork_choice.rs:3887-4069 | at every point, for both kinds of driver, attestations read equal applied followed by the buffer, as sequences |
| `TapeTrace.ConfirmedAfterAll` | crates/pharos-conformance/src/fork_choice.rs:3889-3914 | from every point of every run, a tick into a new slot applies everything read so far, empties the buffer, and then confirms |
| `TapeTrace.TraceIsSchedule` | crates/pharos-conformance/src/fork_choice.rs:5390-5602 | at every point the driver has done what the rewrite says, in the slots of its own store, and its buffer holds what the rewrite still holds back |
| `TapeTrace.DriverConfirmsOncePerSlot` | crates/pharos-conformance/src/fork_choice.rs:3889-3914 | at every point the driver has confirmed once in each slot it entered, in order |
| `TapeTrace.DriverDelays` | crates/pharos-conformance/src/fork_choice.rs:3889-3914 | when ticks do not go back, each attestation was taken when the driver's store stood in a later slot than when the driver read it |
| `Conformance.HandlersAreClocked` | crates/pharos-conformance/src/fork_choice.rs:584-801 | on the real handlers only a tick moves the clock, and every handler keeps the invariant |
| `Conformance.BlockStepKeeps` | crates/pharos-conformance/src/fork_choice.rs:589-666 | a block step with its attestations keeps the invariant and the slot |
| `Conformance.EveryPlainRunIsSafe` | crates/pharos-conformance/src/fork_choice.rs:584-801 | every tape from a good store ends in a store that satisfies the invariant and extends the first one |
| `Conformance.EveryFastRunFollowsItsSchedule` | crates/pharos-conformance/src/fork_choice.rs:3883-4069 | every fast-confirmation driver, decoding at reading or at release, on every tape: it ends as the rewrite says, and a passing run ends in a good store |
| `Conformance.EveryFastRunKeepsItsBuffer` | crates/pharos-conformance/src/fork_choice.rs:3883-4069 | at every point on the real handlers: read equals applied then pending, one confirmation per slot entered, and the next advancing tick applies all before confirming |
| `Conformance.ForwardTapesDelayAttestations` | crates/pharos-conformance/src/fork_choice.rs:3883-4069 | with non-decreasing tick times, on the real handlers and for both decoding orders, the store is in a later slot when an attestation is applied than when it was read |
| `Conformance.InitialIsQuiet` | crates/pharos-fork-choice/src/store.rs:244-350 | the anchor store has no rejection, and its one block is valid |
| `Conformance.BlockStepKeepsQuiet` | crates/pharos-conformance/src/fork_choice.rs:4303-4321 | a block step keeps verdicts in agreement without rejections; a driver that marks payloads needs pull-ups that succeed on post-states |
| `Conformance.EveryRunKeepsAgreement` | crates/pharos-conformance/src/fork_choice.rs:584-801 | under that condition verdicts agree after every plain tape and every passing fast-confirmation tape |
| `Conformance.ChecksPin` | crates/pharos-conformance/src/fork_choice.rs:1258-1325 | two stores that pass one checks block agree on every field it names |
| `Conformance.ConfirmationChecksPin` | crates/pharos-conformance/src/fork_choice.rs:3732-3785 | two confirmation stores that pass one checks block agree on every field it names |
| `Conformance.OwnChecksHold` | crates/pharos-conformance/src/fork_choice.rs:1258-1325 | every store passes the checks block that names all about it |
| `Conformance.BlockStepVotes` | crates/pharos-conformance/src/fork_choice.rs:589-668 | after a block step the votes are those of the delivery with the block's own attestations fed in, if accepted |
| `RunLaws.BlockStepKeepsHealth` | crates/pharos-conformance/src/fork_choice.rs:589-668 | a block step with its attestations keeps the store healthy |
| `RunLaws.EveryForwardRunIsHealthy` | crates/pharos-conformance/src/fork_choice.rs:584-801 | at every point of every plain tape with non-decreasing times the store is healthy |
| `RunLaws.EveryForwardFastRunIsHealthy` | crates/pharos-conformance/src/fork_choice.rs:3883-4069 | and at every point of every such fast-confirmation run, for both decoding orders |
| `RunLaws.RunsFromAnAnchorAreHealthy` | crates/pharos-conformance/src/fork_choice.rs:584-801 | from an anchor store with no premise but on the anchor |
| `Calendar.DaysToYmd` | crates/pharos-conformance/src/lib.rs:473-507 | below 2^63 the two loops give a valid Gregorian date whose closed-form day number is the input; from 2^63 on the cast gives the value stated |
| `Calendar.SplitYear` | crates/pharos-conformance/src/lib.rs:475-485 | the year loop leaves a remainder inside the year |
| `Calendar.SplitMonth` | crates/pharos-conformance/src/lib.rs:486-505 | the month loop never leaves the table and leaves a remainder inside the month |
| `Calendar.CountsAgree` | crates/pharos-conformance/src/lib.rs:477-511 | counting years one by one equals the closed form with y/4 - y/100 + y/400 |
| `Calendar.DayNumberIncreases` | crates/pharos-conformance/src/lib.rs:473-511 | a later date has a larger day number |
| `Calendar.DayNumberNamesOneDate` | crates/pharos-conformance/src/lib.rs:473-511 | day numbers and dates correspond one to one |
| `JsonEquivalence.EquivalentIffCanonical` | crates/pharos-conformance/src/engine.rs:443-473 | two values are equivalent exactly when their canonical forms are equal |
| `JsonEquivalence.EquivalenceRelation` | crates/pharos-conformance/src/engine.rs:443-473 | the comparison is reflexive, symmetric and transitive on all trees |
| `JsonEquivalence.MixedArraysDiffer` | crates/pharos-conformance/src/engine.rs:445-462 | an all-string array never equals one that holds anything else |
| `JsonEquivalence.StringsCompareAsMultisets` | crates/pharos-conformance/src/engine.rs:449-455 | string arrays are compared as multisets |
| `JsonEquivalence.PositionalIffAllEqual` | crates/pharos-conformance/src/engine.rs:438-455 | the documented positional comparison of `transactions` holds of a hex list exactly when its entries are all equal |
| `JsonEquivalence.SwappedTransactionsPass` | crates/pharos-conformance/src/engine.rs:438-455 | two different transactions swapped pass the comparison |
| `Sorting.SortForgetsOrder` | crates/pharos-conformance/src/engine.rs:449-454 | without ties, two lists sort alike exactly when they hold the same elements |
| `Sorting.SortOfSorted` | crates/pharos-conformance/src/task.rs:100-101 | sorting a sorted list changes nothing |
| `Dashboard.CanonicalWalk` | scripts/devnet-dashboard.py:289-296 | on every parent map, cyclic ones included, the walk ends with a parent-linked path that repeats nothing and holds exactly the head's in-dump ancestors |
| `Dashboard.AncestryIsLeast` | scripts/devnet-dashboard.py:289-296 | the ancestors are the least parent-closed set that holds the start |
| `Dashboard.MeasureReorg` | scripts/devnet-dashboard.py:319-326 | depth is the length of the guarded walk, slot that of the last block walked |
| `Dashboard.WalkedCountsOrphans` | scripts/devnet-dashboard.py:319-326 | where parent links lower the slot, the walk counts exactly the ancestors dropped, up to 256 |
| `Dashboard.RecordedDepth` | scripts/devnet-dashboard.py:312-330 | a recorded depth is min(256, ancestors of the old head that are not ancestors of the new one) |
| `Dashboard.RecordAddedIff` | scripts/devnet-dashboard.py:312-330 | over any polls, a record is added exactly when the previous head is in the dump and off the new ancestry |
| `Dashboard.NothingAdded` | scripts/devnet-dashboard.py:273-276 | a poll without a dump, or with none before it, adds nothing |
| `Dashboard.LastHeadMeans` | scripts/devnet-dashboard.py:313-314 | the remembered head is that of the nearest earlier poll with a dump |
| `Dashboard.Poller.constructor` | scripts/devnet-dashboard.py:191-192 | no head remembered and no record |
| `Dashboard.Poller.ForkChoice` | scripts/devnet-dashboard.py:273-310 | the object's records are the newest twelve of the whole history |
| `Dashboard.Poller.DetectReorg` | scripts/devnet-dashboard.py:312-330 | one poll's update of head and records |
| `Heads.HeadsCoverTheTree` | crates/pharos-api/src/state.rs:2754-2779 | every stored block is on the chain of a listed head, and a non-empty store has one |
| `Heads.HeadsAreTips` | crates/pharos-api/src/state.rs:2754-2779 | no listed head is a proper ancestor of a stored block |
| `Heads.ListedIffTip` | crates/pharos-api/src/state.rs:2754-2779 | listed is the same as having no stored descendant |
| `Heads.SelectedHeadIsListed` | crates/pharos-api/src/state.rs:2754-2779 | the head that fork choice selects is listed whenever a viable branch exists |
| `LightClient.UpdatesByRange` | crates/pharos-storage/src/db.rs:783-801 | the range read returns the values found, without their periods, or fails on any failed read |
| `LightClient.Overlay` | crates/pharos-api/src/state.rs:2680-2710 | one probing pass overlays the window, saturated probes included, or fails on any failed probe |
| `LightClient.IntoValues` | crates/pharos-api/src/state.rs:2712-2712 | map values come out in ascending order of period |
| `LightClient.LightClientUpdates` | crates/pharos-api/src/state.rs:2659-2713 | the result is the merge of the three sources, and an error exactly when a read in their windows fails |
| `LightClient.MergeIsRight` | crates/pharos-api/src/state.rs:2659-2713 | without an Altair gap in the range read or an Altair update beyond it, the list is each period from Deneb, else Capella, else Altair, ascending |
| `LightClient.RanksAreRightIff` | crates/pharos-api/src/state.rs:2675-2678 | labels by rank name the true periods exactly when the Altair range has no gap |
| `LightClient.GapLosesAnUpdate` | crates/pharos-api/src/state.rs:2664-2694 | with a gap, one Capella update in the empty period makes the list one entry short |
| `LightClient.LastPeriodIsLost` | crates/pharos-api/src/state.rs:2664-2699 | when the range overflows, an Altair update in the last period is left out |
| `LightClient.MergeIsRightIff` | crates/pharos-api/src/state.rs:2659-2713 | on every request, overflowing ones included, the merge is right for all Capella and Deneb contents exactly when Altair has no gap and, on overflow, nothing in the last period |
| `LightClient.EndsMeetIff` | crates/pharos-api/src/state.rs:2683-2699 | the read and the probes cover one window exactly when it does not overflow |
| `LightClient.PassesCommute` | crates/pharos-api/src/state.rs:2664-2710 | if each period is in one source only, the passes commute |
| `Codec.ParseUndoesPrint` | crates/pharos-api/src/serde_helpers.rs:32-43 | decoding undoes encoding for every 64-bit integer |
| `Codec.ParsesIffSpelled` | crates/pharos-api/src/serde_helpers.rs:39-42 | the accepted spellings of a number are exactly an optional plus, zeros, then its digits |
| `Codec.SerializeHex` | crates/pharos-api/src/serde_helpers.rs:53-61 | the loop writes the encoding, of length 2 + 2n |
| `Codec.HexRoundTrip` | crates/pharos-api/src/serde_helpers.rs:50-68 | decoding undoes encoding for every byte string, with and without the prefix |
| `Codec.EncodingIsInjective` | crates/pharos-api/src/serde_helpers.rs:53-61 | different byte strings have different encodings |
| `Codec.PrefixIsOptionalIff` | crates/pharos-api/src/serde_helpers.rs:63-67 | adding the prefix changes nothing, except on a text that already has it and decodes |
| `Codec.FixedAcceptsIff` | crates/pharos-api/src/serde_helpers.rs:77-135 | a fixed-size decoder accepts exactly texts of its own length and reads their digits |
| `Slashing.ParseIndices` | crates/pharos-api/src/state.rs:519-537 | every index is validated and the first 2048 kept |
| `Slashing.ParseIndexedAttestation` | crates/pharos-api/src/state.rs:512-617 | the parser equals its specification on every JSON value |
| `Slashing.IndexedRoundTrip` | crates/pharos-api/src/state.rs:2332-2350 | parsing undoes printing for every attestation of at most 2048 indices |
| `Slashing.ParseIsStable` | crates/pharos-api/src/state.rs:512-617 | parse, print, parse equals parse |
| `Slashing.MalformedIndexRejects` | crates/pharos-api/src/state.rs:520-537 | a malformed index at any position rejects the attestation |
| `Slashing.NothingDroppedIff` | crates/pharos-api/src/state.rs:534-536 | the indices kept are a prefix, and all of them exactly when there are at most 2048 |
| `Slashing.SlashingRoundTrip` | crates/pharos-api/src/state.rs:2323-2357 | parsing undoes printing for whole slashings |
| `Slashing.SlashingIsStable` | crates/pharos-api/src/state.rs:2250-2269 | submitting what the pool prints gives what was first submitted |
| `PayloadId.ParamsToPayloadId` | crates/pharos-conformance/src/engine.rs:1120-1133 | the byte array filled in place equals the specification, default included |
| `PayloadId.TrimKeepsDigits` | crates/pharos-conformance/src/engine.rs:1126-1126 | quotes and prefixes are removed and digits kept |
| `PayloadId.BytesAreTheDigitsRead` | crates/pharos-conformance/src/engine.rs:1120-1133 | for every hex text, the eight bytes read big-endian are the number of its first sixteen digits or fewer |
| `PayloadId.SpellingsAgreeIff` | crates/pharos-conformance/src/engine.rs:401-409 | two hex texts compare equal exactly when the digits read denote one number |
| `PayloadId.BytesAreTheNumberIff` | crates/pharos-conformance/src/engine.rs:1120-1133 | for any length, the bytes are the number exactly when there are at most sixteen digits or it is zero |
| `PayloadId.SeventeenDigitsCollide` | crates/pharos-conformance/src/engine.rs:401-409 | different seventeen-digit ids that compare equal |
| `BlocksCase.RunBlocksCase` | crates/pharos-conformance/src/fixture_walker.rs:505-556 | passes exactly when all blocks apply and encodings match, or no post-state is given and some block fails after all earlier ones applied; the state is never missing, and no file after the first failing block is read |
| `BlocksCase.StopsOnce` | crates/pharos-conformance/src/fixture_walker.rs:513-533 | a run stops at one block for one cause |
| `BlocksCase.LaterFilesDoNotMatter` | crates/pharos-conformance/src/fixture_walker.rs:513-556 | the verdict does not depend on files after the first failing block |
| `TaskPool.EnumerateBls` | crates/pharos-conformance/src/bls.rs:50-117 | tasks have ordinals 0..n-1 and run to the outcomes of the fixtures in walk order |
| `TaskPool.RunBls` | crates/pharos-conformance/src/bls.rs:120-207 | the eager runner tallies the same outcomes |
| `TaskPool.TallyAddsUp` | crates/pharos-conformance/src/bls.rs:188-206 | every outcome is counted once, and every failure leaves its message |
| `TaskPool.EnumerateEngineYaml` | crates/pharos-conformance/src/engine.rs:87-159 | the same for the Engine API examples, a missing directory and bad files included |
| `TaskPool.EnumerateMethods` | crates/pharos-conformance/src/engine.rs:128-155 | ordinals go on through the methods of one file |
| `TaskPool.RunEngineYaml` | crates/pharos-conformance/src/engine.rs:170-213 | the eager Engine API runner tallies the same outcomes |
| `TaskPool.RunMethodExamples` | crates/pharos-conformance/src/engine.rs:280-300 | one method's examples are counted in order |
| `TaskPool.Fold` | crates/pharos-conformance/src/task.rs:54-111 | the fold's rows are ascending and its failures in key order |
| `TaskPool.FoldIgnoresOrder` | crates/pharos-conformance/src/task.rs:44-56 | with one outcome per key the fold is the same for every order of completion |
| `TaskPool.PoolIsEager` | crates/pharos-conformance/src/task.rs:54-111 | whatever order the pool finishes in, counts and failures are the eager runners', row by row |
| `TaskPool.PoolAgainstEager` | crates/pharos-conformance/src/lib.rs:98-116 | enumerating both suites, running them and folding in any order of completion gives the rows and failures of `run_bls` and `run_engine_yaml_suite` |
| `TaskPool.RunTasks` | crates/pharos-conformance/src/lib.rs:109-113 | running tasks yields their outcomes under their ordinals |
| `Filter.ParseFilterPatterns` | crates/pharos-conformance/src/filter.rs:62-88 | the loop equals the specification |
| `Filter.ParsesIffSpelled` | crates/pharos-conformance/src/filter.rs:53-88 | a text parses to a list exactly when the list is non-empty, spellable and the text is its printing |
| `Filter.JoinSplit` | crates/pharos-conformance/src/filter.rs:64-65 | joining undoes splitting |
| `Filter.SplitJoin` | crates/pharos-conformance/src/filter.rs:64-65 | splitting undoes joining when no part holds the separator |
| `Filter.MatchesConcat` | crates/pharos-conformance/src/filter.rs:38-50 | two non-empty lists together select what either selects |
| `Cli.ParseArgs` | crates/pharos-conformance/src/cli.rs:30-119 | the loop over arguments equals the fold, error returns and exits included |
| `Cli.LineRuns` | crates/pharos-conformance/src/cli.rs:38-119 | a line of well-formed flags has the effect of its flags one by one |
| `Cli.FlagsPermute` | crates/pharos-conformance/src/cli.rs:30-119 | distinct well-formed flags mean the same in every order |
| `Cli.LegacyIsFilter` | crates/pharos-conformance/src/cli.rs:100-112 | `--fork F [--category C [--preset P]]` yields the pattern of `--filter F[/C[/P]]` |
| `Cli.FilterExcludesLegacy` | crates/pharos-conformance/src/cli.rs:94-98 | a well-formed line exits with code 2 exactly when it mixes `--filter` with a legacy flag |
| `Cli.LegacySelects` | crates/pharos-conformance/src/cli.rs:103-112 | the rows legacy flags select: those agreeing with every flag, and of the empty fork name when only `--fork` is missing |
| `Cli.LegacyKeepsMeaningIff` | crates/pharos-conformance/src/filter.rs:17-25 | legacy flags select exactly the named rows agreeing with every given flag if and only if `--fork` is given or neither of the others is |
| `Cli.NoForkSelectsNothing` | crates/pharos-conformance/src/cli.rs:103-112 | legacy flags without `--fork` select no row that has a fork name |
| `Liveness.ValidatorLiveness` | crates/pharos-api/src/state.rs:2532-2617 | one answer per request in order; live exactly when a pool committee index, a current flag or a next-epoch previous flag says so |
| `Liveness.MarkStates` | crates/pharos-api/src/state.rs:2572-2605 | the scan over states collects exactly the flagged indices |
| `Liveness.LivenessIgnoresOrder` | crates/pharos-api/src/state.rs:2572-2605 | the iteration order of states does not matter |
| `Liveness.LivenessGrows` | crates/pharos-api/src/state.rs:2532-2617 | more votes and more states never make a live index not live |
| `Liveness.PoolPromiseIff` | crates/pharos-api/src/state.rs:2541-2566 | for one request, a pool vote makes every index live exactly when no vote targets the epoch or each index is itself voted for or flagged |
| `Liveness.PoolPromiseForAllIff` | crates/pharos-api/src/state.rs:2541-2566 | over all requests, exactly when no vote targets the epoch |
| `Liveness.PoolVoteIsNotEnough` | crates/pharos-api/src/state.rs:2541-2566 | the witness: one vote of committee 0 leaves index 1 not live, although the comment promises all requested indices |

## Left out

- Overflow of 64-bit slots, epochs, balances and times in fork choice: the store uses natural numbers.
- The state transition, BLS, KZG, shuffling and epoch processing: parameters with stated laws.
- Data-availability rules of the Deneb and Fulu drivers: a block that fails them is a block whose file does not apply; their own logic is not modelled.
- The proof-of-work block provider and the terminal-block rules of the Bellatrix driver: the merge guard is a parameter, and a `pow_block` step is outside the modelled drivers.
- `get_proposer_head` and `should_override_forkchoice_update`: the tape's proposer-head value is a parameter.
- `is_optimistic_node` and `is_optimistic_candidate_block`: single conditions over what is modelled.
- Anchor loading, YAML step parsing, file reading and snappy: their results are inputs.
- Error messages: an error is one value, except where a verdict depends on its kind.
- Id resolution, block headers by slot, fee recipients and validator registration: look-ups and map writes with no hard property.
- Attester-slashing pool insertion and its de-duplication: only the JSON parser and printer are modelled.
- Footnotes of the fold and the rendering of the report.
- Dashboard polling over HTTP, time series and HTML; parsing of dump nodes, whose result is the dump.
- `fork_choice_heads` output order: the source iterates a hash map, the model lists a map.
- ForkChoiceObject.ForkChoice.OnTick: a catch-up that meets a slot without an exact start is not modelled, because it does not end.
- Dashboard.WalkedCountsOrphans: on cyclic dumps only the general walk of `MeasureReorg` is stated.
- PayloadId.ParamsToPayloadId: multi-byte characters are not modelled, so the panic on a split character is not either.
- ConfirmedChains.ConfirmationLeads: when the search starts in an earlier epoch than the last slot's, safe thresholds are a stated condition, since the source's pro-rata estimate across an epoch boundary need not cover the committees that voted.
- ConfirmedChains.SearchResultIsDominant: LMD-GHOST weights use the justified state, so it asks that the observed checkpoint be the justified one; `ConfirmedChains.SearchResultLeads` does not.
