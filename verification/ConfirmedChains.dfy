/**
  What one-confirmation gives (`is_one_confirmed` and the two loops of
  `find_latest_confirmed_descendant` in `crates/pharos-fork-choice/src/fast_confirmation.rs`):
  the search passes through one-confirmed blocks only, and such a block wins its fork in
  LMD-GHOST whenever its threshold is above half of the votes it has to beat.
 */
module ConfirmedChains {
  import opened Types
  import opened Arithmetic
  import opened Ancestry
  import opened Weights
  import opened HeadSelection
  import opened Handlers
  import opened StoreHealth
  import opened FastConfirmation

  // ── when the threshold is high enough ───────────────────────────────────────

  ghost function JustifiedState(s: Store): BeaconState
    requires s.justified in s.checkpointStates
  {
    s.checkpointStates[s.justified]
  }

  /** Votes for proper descendants of `p`: what the children of `p` share among them. */
  ghost function VotesUnder(s: Store, source: BeaconState, p: Root): nat
    requires ParentsLower(s.blocks)
  {
    Balance(source.validators, Supporters(s, source, p) - DirectVoters(s, source, p))
  }

  lemma VotesUnderIsSum(s: Store, source: BeaconState, p: Root, children: seq<Root>)
    requires ParentsLower(s.blocks) && p in s.blocks && EnumeratesChildren(s.blocks, p, children)
    ensures VotesUnder(s, source, p) == SumOfScores(s, source, children)
  {
    var direct, all := DirectVoters(s, source, p), Supporters(s, source, p);
    VotesConserved(s, source, p, children);
    SupportIsDescent(s, source, p);
    BalanceSplits(source.validators, direct, all - direct);
    assert direct + (all - direct) == all;
  }

  /** No block can pass `threshold`, or passing it takes more than half of the fork's votes and the boost. */
  predicate SafeThreshold(threshold: nat, votes: nat, boost: nat) {
    votes <= threshold || votes + boost < 2 * (threshold + 1)
  }

  /** Exactly such thresholds are safe: above them no split of the votes lets another block win. */
  lemma SafeThresholdIff(threshold: nat, votes: nat, boost: nat)
    ensures SafeThreshold(threshold, votes, boost)
       <==> (forall mine: nat, other: nat {:trigger Splits(mine, other, votes)} ::
               Splits(mine, other, votes) && mine > threshold ==> mine > other + boost)
  {
    if !SafeThreshold(threshold, votes, boost) {
      var mine := threshold + 1;
      assert Splits(mine, votes - mine, votes);
    }
  }

  predicate Splits(mine: nat, other: nat, votes: nat) { mine + other <= votes }

  /** The rule's threshold for `block` is safe for the votes cast under its parent. */
  ghost predicate Covered(env: Env, s: Store, head: Root, source: BeaconState, block: Root)
    requires ParentsLower(s.blocks)
  {
    block in s.blocks
    && SafeThreshold(SafetyThreshold(env, s, head, block, source),
                     VotesUnder(s, source, s.blocks[block].parentRoot), ProposerScore(s.preset, source))
  }

  lemma {:induction false} ListOf(roots: set<Root>) returns (list: seq<Root>)
    ensures forall r :: r in list <==> r in roots
    ensures forall i, j :: 0 <= i < j < |list| ==> list[i] != list[j]
  {
    if roots == {} {
      list := [];
    } else {
      var r :| r in roots;
      var rest := ListOf(roots - {r});
      list := [r] + rest;
    }
  }

  lemma ChildrenOf(blocks: Blocks, p: Root) returns (children: seq<Root>)
    ensures EnumeratesChildren(blocks, p, children)
  {
    children := ListOf(set c | c in blocks && blocks[c].parentRoot == p);
  }

  lemma {:induction false} ScoreIsUnder(s: Store, source: BeaconState, children: seq<Root>, c: Root)
    requires ParentsLower(s.blocks) && c in children
    ensures AttestationScore(s, c, source) <= SumOfScores(s, source, children)
    decreases |children|
  {
    if c != children[0] { ScoreIsUnder(s, source, children[1..], c); }
  }

  /** `block` has more votes than its sibling `d` even with the proposer boost on `d`. */
  predicate Leads(s: Store, source: BeaconState, block: Root, d: Root)
    requires ParentsLower(s.blocks)
  {
    AttestationScore(s, block, source) > AttestationScore(s, d, source) + ProposerScore(s.preset, source)
  }

  /** Under any balance source, a one-confirmed block with a safe threshold leads every sibling. */
  lemma OneConfirmedLeads(env: Env, s: Store, head: Root, source: BeaconState, block: Root, d: Root)
    requires ParentsLower(s.blocks)
    requires Covered(env, s, head, source, block) && s.blocks[block].parentRoot in s.blocks
    requires IsOneConfirmed(env, s, head, source, block)
    requires IsChild(s.blocks, d, s.blocks[block].parentRoot) && d != block
    ensures Leads(s, source, block, d)
  {
    var parent := s.blocks[block].parentRoot;
    var siblings := ChildrenOf(s.blocks, parent);
    assert IsChild(s.blocks, block, parent) && block in siblings && d in siblings;
    VotesUnderIsSum(s, source, parent, siblings);
    ScoreIsUnder(s, source, siblings, block);
    SiblingPairFits(s, source, parent, siblings, block, d);
  }

  /** Under the justified state, it outweighs every sibling in LMD-GHOST, wherever the boost goes. */
  lemma OneConfirmedOutweighs(env: Env, s: Store, head: Root, block: Root, d: Root)
    requires ParentsLower(s.blocks) && s.justified in s.checkpointStates
    requires Covered(env, s, head, JustifiedState(s), block) && s.blocks[block].parentRoot in s.blocks
    requires IsOneConfirmed(env, s, head, JustifiedState(s), block)
    requires IsChild(s.blocks, d, s.blocks[block].parentRoot) && d != block
    ensures Weight(s, block) > Weight(s, d)
  {
    OneConfirmedLeads(env, s, head, JustifiedState(s), block, d);
  }

  // ── when the estimate makes it so ───────────────────────────────────────────

  /**
    The committees that could vote between the parent and now weigh no more than the rule's
    estimate: votes below the parent, plus votes for the parent itself cast in the empty slots.
   */
  ghost predicate EstimateCovers(env: Env, s: Store, head: Root, source: BeaconState, block: Root, siblings: seq<Root>)
    requires ParentsLower(s.blocks) && block in s.blocks && CurrentSlot(s) > 0
  {
    var parent := s.blocks[block].parentRoot;
    var (from, slot) := (BlockSlot(s, parent) + 1, BlockSlot(s, block));
    var empty := if from == slot || slot == 0 then 0 else SupportBetween(env, s, head, source, parent, from, slot - 1);
    SumOfScores(s, source, siblings) + empty
    <= EstimateWeight(s.preset, TotalActiveBalance(s.preset, source), from, CurrentSlot(s) - 1)
  }

  /** An estimate that covers the votes gives a safe threshold. */
  lemma EstimateGivesCover(env: Env, s: Store, head: Root, source: BeaconState, block: Root, siblings: seq<Root>)
    requires ParentsLower(s.blocks) && block in s.blocks && s.blocks[block].parentRoot in s.blocks && CurrentSlot(s) > 0
    requires EnumeratesChildren(s.blocks, s.blocks[block].parentRoot, siblings)
    requires EstimateCovers(env, s, head, source, block, siblings)
    ensures Covered(env, s, head, source, block)
  {
    VotesUnderIsSum(s, source, s.blocks[block].parentRoot, siblings);
  }

  /** The slots after the parent of `block` and before now span an epoch. */
  predicate SpansEpoch(s: Store, block: Root) {
    block in s.blocks && CurrentSlot(s) > 0
    && CoversFullEpoch(s.preset, BlockSlot(s, s.blocks[block].parentRoot) + 1, CurrentSlot(s) - 1)
  }

  lemma SpanIsForward(p: Preset, first: Slot, last: Slot)
    requires CoversFullEpoch(p, first, last)
    ensures first <= last
  {
    if first > last { DivMonotone(last + 1, first + p.slotsPerEpoch - 1, p.slotsPerEpoch); }
  }

  lemma VotersAreActive(s: Store, state: BeaconState)
    ensures Balance(state.validators, Voters(s, state)) <= TotalActiveBalance(s.preset, state)
  {
    BalanceMonotone(state.validators, Voters(s, state), ActiveIndices(s.preset, state));
  }

  /** Over an epoch the estimate is the whole active balance, so it covers every vote under the parent. */
  lemma EpochIsCovered(env: Env, s: Store, head: Root, source: BeaconState, block: Root, siblings: seq<Root>)
    requires ParentsLower(s.blocks) && SpansEpoch(s, block) && s.blocks[block].parentRoot in s.blocks
    requires EnumeratesChildren(s.blocks, s.blocks[block].parentRoot, siblings)
    ensures EstimateCovers(env, s, head, source, block, siblings)
  {
    var parent := s.blocks[block].parentRoot;
    var from := BlockSlot(s, parent) + 1;
    SpanIsForward(s.preset, from, CurrentSlot(s) - 1);
    VotesConserved(s, source, parent, siblings);
    BalanceMonotone(source.validators, Supporters(s, source, parent), Voters(s, source));
    VotersAreActive(s, source);
    var committees := Committees(env, s, head, from, BlockSlot(s, block) - 1);
    BalanceMonotone(source.validators, committees * DirectVoters(s, source, parent), DirectVoters(s, source, parent));
  }

  lemma {:induction false} CommitteesGrow(env: Env, s: Store, head: Root, first: Slot, last: Slot, later: Slot)
    requires last <= later
    ensures Committees(env, s, head, first, last) <= Committees(env, s, head, first, later)
    decreases last + 1 - first
  {
    if first <= last { CommitteesGrow(env, s, head, first + 1, last, later); }
  }

  lemma {:induction false} CommitteesShrink(env: Env, s: Store, head: Root, first: Slot, later: Slot, last: Slot)
    requires first <= later
    ensures Committees(env, s, head, later, last) <= Committees(env, s, head, first, last)
    decreases later - first
  {
    if first < later && first <= last { CommitteesShrink(env, s, head, first + 1, later, last); }
  }

  lemma ChildVotesAreNotDirect(s: Store, source: BeaconState, parent: Root, siblings: seq<Root>)
    requires ParentsLower(s.blocks) && parent in s.blocks && EnumeratesChildren(s.blocks, parent, siblings)
    ensures SupportersOfAny(s, source, siblings) !! DirectVoters(s, source, parent)
  {
    forall i | i in SupportersOfAny(s, source, siblings) && i in DirectVoters(s, source, parent) ensures false {
      var c :| c in siblings && i in Supporters(s, source, c);
      assert IsChild(s.blocks, c, parent);
      SupportIsDescent(s, source, c);
      OnChainLowers(s.blocks, c, parent);
    }
  }

  /** The committees of the slots after the parent of `block` and before now. */
  function Window(env: Env, s: Store, head: Root, block: Root): set<ValidatorIndex>
    requires block in s.blocks && CurrentSlot(s) > 0
  {
    Committees(env, s, head, BlockSlot(s, s.blocks[block].parentRoot) + 1, CurrentSlot(s) - 1)
  }

  /** The rule's estimate of their weight. */
  function WindowEstimate(s: Store, source: BeaconState, block: Root): nat
    requires block in s.blocks && CurrentSlot(s) > 0
  {
    EstimateWeight(s.preset, TotalActiveBalance(s.preset, source),
                   BlockSlot(s, s.blocks[block].parentRoot) + 1, CurrentSlot(s) - 1)
  }

  /**
    Over any window: when the votes under the siblings come from the window's committees,
    and those committees weigh no more than the estimate, the estimate covers the votes.
   */
  lemma WindowIsCovered(env: Env, s: Store, head: Root, source: BeaconState, block: Root, siblings: seq<Root>)
    requires ParentsLower(s.blocks) && block in s.blocks && s.blocks[block].parentRoot in s.blocks
    requires 0 < CurrentSlot(s) && BlockSlot(s, block) <= CurrentSlot(s)
    requires EnumeratesChildren(s.blocks, s.blocks[block].parentRoot, siblings)
    requires SupportersOfAny(s, source, siblings) <= Window(env, s, head, block)
    requires Balance(source.validators, Window(env, s, head, block) * Voters(s, source))
          <= WindowEstimate(s, source, block)
    ensures EstimateCovers(env, s, head, source, block, siblings)
  {
    var parent := s.blocks[block].parentRoot;
    var from := BlockSlot(s, parent) + 1;
    var window := Window(env, s, head, block);
    var early := Committees(env, s, head, from, BlockSlot(s, block) - 1) * DirectVoters(s, source, parent);
    var under := SupportersOfAny(s, source, siblings);
    SiblingScoresAdd(s, source, parent, siblings);
    ChildVotesAreNotDirect(s, source, parent, siblings);
    CommitteesGrow(env, s, head, from, BlockSlot(s, block) - 1, CurrentSlot(s) - 1);
    BalanceSplits(source.validators, under, early);
    BalanceMonotone(source.validators, under + early, window * Voters(s, source));
  }

  // ── windows inside one epoch ────────────────────────────────────────────────

  /** Every vote for a stored block was cast by a committee of a slot from the block's own up to the last one. */
  ghost predicate VotesFromCommittees(env: Env, s: Store, head: Root, source: BeaconState) {
    CurrentSlot(s) > 0
    && forall i :: i in Voters(s, source) && s.latestMessages[i].root in s.blocks ==>
         i in Committees(env, s, head, BlockSlot(s, s.latestMessages[i].root), CurrentSlot(s) - 1)
  }

  /** No committee of the last slot's epoch outweighs an even share of the active balance. */
  ghost predicate EvenCommittees(env: Env, s: Store, head: Root, source: BeaconState) {
    forall slot: Slot :: slot < CurrentSlot(s) && EpochAt(s.preset, slot) == EpochAt(s.preset, CurrentSlot(s) - 1) ==>
      Balance(source.validators, SlotCommittee(env, s, head, slot) * Voters(s, source))
      <= Share(TotalActiveBalance(s.preset, source), s.preset.slotsPerEpoch)
  }

  lemma {:induction false} BalanceOfUnion(vs: seq<Validator>, a: set<ValidatorIndex>, b: set<ValidatorIndex>)
    ensures Balance(vs, a + b) <= Balance(vs, a) + Balance(vs, b)
  {
    if vs != [] { BalanceOfUnion(vs[..|vs| - 1], a, b); }
  }

  lemma TimesOneMore(a: nat, n: nat)
    ensures Times(a, n + 1) == a + Times(a, n)
  {
  }

  lemma SlotsOfOneEpoch(p: Preset, first: Slot, slot: Slot, last: Slot)
    requires first <= slot && EpochAt(p, first) == EpochAt(p, last)
    ensures slot > last || EpochAt(p, slot) == EpochAt(p, last)
  {
    if slot <= last {
      DivMonotone(first, slot, p.slotsPerEpoch);
      DivMonotone(slot, last, p.slotsPerEpoch);
    }
  }

  /** Even committees weigh at most a share for each slot of a window. */
  lemma {:induction false} EvenWindow(env: Env, s: Store, head: Root, source: BeaconState, first: Slot, last: Slot)
    requires EvenCommittees(env, s, head, source) && last + 1 == CurrentSlot(s)
    requires first > last || EpochAt(s.preset, first) == EpochAt(s.preset, last)
    ensures Balance(source.validators, Committees(env, s, head, first, last) * Voters(s, source))
         <= Times(Share(TotalActiveBalance(s.preset, source), s.preset.slotsPerEpoch),
                  if first <= last then last - first + 1 else 0)
    decreases last + 1 - first
  {
    var voters := Voters(s, source);
    if first > last {
      assert Committees(env, s, head, first, last) * voters == {};
      BalanceOfNone(source.validators);
    } else {
      var now, rest := SlotCommittee(env, s, head, first), Committees(env, s, head, first + 1, last);
      SlotsOfOneEpoch(s.preset, first, first + 1, last);
      EvenWindow(env, s, head, source, first + 1, last);
      BalanceOfUnion(source.validators, now * voters, rest * voters);
      assert (now + rest) * voters == now * voters + rest * voters;
      TimesOneMore(Share(TotalActiveBalance(s.preset, source), s.preset.slotsPerEpoch), last - first);
    }
  }

  /** The window of `block` is empty or lies in one epoch. */
  predicate InOneEpoch(s: Store, block: Root) {
    block in s.blocks && CurrentSlot(s) > 0
    && var first := BlockSlot(s, s.blocks[block].parentRoot) + 1;
       first > CurrentSlot(s) - 1 || EpochAt(s.preset, first) == EpochAt(s.preset, CurrentSlot(s) - 1)
  }

  lemma SiblingVotesInWindow(env: Env, s: Store, head: Root, source: BeaconState, block: Root, siblings: seq<Root>)
    requires ParentsLower(s.blocks) && VotesFromCommittees(env, s, head, source)
    requires block in s.blocks && s.blocks[block].parentRoot in s.blocks
    requires EnumeratesChildren(s.blocks, s.blocks[block].parentRoot, siblings)
    ensures SupportersOfAny(s, source, siblings) <= Window(env, s, head, block)
  {
    var parent := s.blocks[block].parentRoot;
    forall i | i in SupportersOfAny(s, source, siblings) ensures i in Window(env, s, head, block) {
      var c :| c in siblings && i in Supporters(s, source, c);
      var vote := s.latestMessages[i].root;
      assert IsChild(s.blocks, c, parent);
      SupportIsDescent(s, source, c);
      if c != vote { OnChainLowers(s.blocks, c, vote); }
      CommitteesShrink(env, s, head, BlockSlot(s, parent) + 1, BlockSlot(s, vote), CurrentSlot(s) - 1);
    }
  }

  /** Inside one epoch, even committees that vote from their block's slot on make the threshold safe. */
  lemma EvenCommitteesCover(env: Env, s: Store, head: Root, source: BeaconState, block: Root)
    requires ParentsLower(s.blocks) && NoneFromFuture(s)
    requires InOneEpoch(s, block) && s.blocks[block].parentRoot in s.blocks
    requires VotesFromCommittees(env, s, head, source) && EvenCommittees(env, s, head, source)
    ensures Covered(env, s, head, source, block)
  {
    var siblings := ChildrenOf(s.blocks, s.blocks[block].parentRoot);
    if SpansEpoch(s, block) {
      EpochIsCovered(env, s, head, source, block, siblings);
    } else {
      SiblingVotesInWindow(env, s, head, source, block, siblings);
      EvenWindow(env, s, head, source, BlockSlot(s, s.blocks[block].parentRoot) + 1, CurrentSlot(s) - 1);
      WindowIsCovered(env, s, head, source, block, siblings);
    }
    EstimateGivesCover(env, s, head, source, block, siblings);
  }

  // ── chains of one-confirmed blocks ──────────────────────────────────────────

  /** Every block from `a` (exclusive) up to `b` is stored and one-confirmed under `source`. */
  ghost predicate Between(env: Env, s: Store, head: Root, source: BeaconState, a: Root, b: Root)
    requires ParentsLower(s.blocks)
    decreases Height(s.blocks, b)
  {
    a == b || (b in s.blocks && IsOneConfirmed(env, s, head, source, b)
               && Between(env, s, head, source, a, s.blocks[b].parentRoot))
  }

  /** … and every one of them has a safe threshold. */
  ghost predicate CoveredBetween(env: Env, s: Store, head: Root, source: BeaconState, a: Root, b: Root)
    requires ParentsLower(s.blocks)
    decreases Height(s.blocks, b)
  {
    a == b || (Covered(env, s, head, source, b) && CoveredBetween(env, s, head, source, a, s.blocks[b].parentRoot))
  }

  lemma {:induction false} BetweenIsChain(env: Env, s: Store, head: Root, source: BeaconState, a: Root, b: Root)
    requires ParentsLower(s.blocks) && Between(env, s, head, source, a, b)
    ensures OnChain(s.blocks, a, b)
    decreases Height(s.blocks, b)
  {
    if a != b { BetweenIsChain(env, s, head, source, a, s.blocks[b].parentRoot); }
  }

  lemma {:induction false} BetweenComposes(env: Env, s: Store, head: Root, source: BeaconState, a: Root, b: Root,
                                           c: Root)
    requires ParentsLower(s.blocks) && Between(env, s, head, source, a, b) && Between(env, s, head, source, b, c)
    ensures Between(env, s, head, source, a, c)
    decreases Height(s.blocks, c)
  {
    if b != c { BetweenComposes(env, s, head, source, a, b, s.blocks[c].parentRoot); }
  }

  lemma BetweenParent(env: Env, s: Store, head: Root, source: BeaconState, a: Root, b: Root)
    requires ParentsLower(s.blocks) && a in s.blocks && Between(env, s, head, source, a, b) && a != b
    ensures s.blocks[b].parentRoot in s.blocks && BlockSlot(s, a) <= BlockSlot(s, s.blocks[b].parentRoot)
  {
    var p := s.blocks[b].parentRoot;
    BetweenIsChain(env, s, head, source, a, p);
    if a != p { OnChainLowers(s.blocks, a, p); }
  }

  /** Every block from `a` (exclusive) up to `b` leads all its siblings. */
  ghost predicate LeadsBetween(s: Store, source: BeaconState, a: Root, b: Root)
    requires ParentsLower(s.blocks)
    decreases Height(s.blocks, b)
  {
    a == b || (b in s.blocks
               && (forall d :: IsChild(s.blocks, d, s.blocks[b].parentRoot) && d != b ==> Leads(s, source, b, d))
               && LeadsBetween(s, source, a, s.blocks[b].parentRoot))
  }

  /** A chain of one-confirmed blocks with safe thresholds leads at every step. */
  lemma {:induction false} ConfirmedChainLeads(env: Env, s: Store, head: Root, source: BeaconState, a: Root, b: Root)
    requires ParentsLower(s.blocks) && a in s.blocks
    requires Between(env, s, head, source, a, b) && CoveredBetween(env, s, head, source, a, b)
    ensures LeadsBetween(s, source, a, b)
    decreases Height(s.blocks, b)
  {
    if a != b {
      var p := s.blocks[b].parentRoot;
      BetweenParent(env, s, head, source, a, b);
      forall d | IsChild(s.blocks, d, p) && d != b ensures Leads(s, source, b, d) {
        OneConfirmedLeads(env, s, head, source, b, d);
      }
      ConfirmedChainLeads(env, s, head, source, a, p);
    }
  }

  lemma {:induction false} LeadingIsDominant(s: Store, a: Root, b: Root)
    requires ParentsLower(s.blocks) && s.justified in s.checkpointStates && LeadsBetween(s, JustifiedState(s), a, b)
    ensures Dominant(s, a, b)
    decreases Height(s.blocks, b)
  {
    if a != b { LeadingIsDominant(s, a, s.blocks[b].parentRoot); }
  }

  /** Under the justified state it wins every fork. */
  lemma ConfirmedChainIsDominant(env: Env, s: Store, head: Root, a: Root, b: Root)
    requires ParentsLower(s.blocks) && s.justified in s.checkpointStates && a in s.blocks
    requires Between(env, s, head, JustifiedState(s), a, b) && CoveredBetween(env, s, head, JustifiedState(s), a, b)
    ensures Dominant(s, a, b)
  {
    ConfirmedChainLeads(env, s, head, JustifiedState(s), a, b);
    LeadingIsDominant(s, a, b);
  }

  /** Then every viable block of it, seen from the base, is on the chain of the selected head. */
  lemma ConfirmedChainIsCanonical(env: Env, s: Store, head: Root, b: Root)
    requires ParentsLower(s.blocks) && s.justified in s.checkpointStates && b in Filtered(s, Base(s))
    requires Between(env, s, head, JustifiedState(s), Base(s), b)
    requires CoveredBetween(env, s, head, JustifiedState(s), Base(s), b)
    ensures OnChain(s.blocks, b, Head(s))
  {
    assert Base(s) in s.blocks by { CleanIsChain(s, Base(s), b); }
    ConfirmedChainIsDominant(env, s, head, Base(s), b);
    DominantIsCanonical(s, b);
  }

  lemma SpanReachesDown(s: Store, p: Root, b: Root)
    requires ParentsLower(s.blocks) && p in s.blocks && b in s.blocks && s.blocks[b].parentRoot == p
    requires SpansEpoch(s, b)
    ensures SpansEpoch(s, p)
  {
    var before := BlockSlot(s, s.blocks[p].parentRoot);
    DivMonotone(before + s.preset.slotsPerEpoch, BlockSlot(s, p) + s.preset.slotsPerEpoch, s.preset.slotsPerEpoch);
  }

  /** A chain that ends an epoch ago has safe thresholds throughout, whatever the committees. */
  lemma {:induction false} OldChainIsCovered(env: Env, s: Store, head: Root, source: BeaconState, a: Root, b: Root)
    requires ParentsLower(s.blocks) && a in s.blocks && Between(env, s, head, source, a, b)
    requires a == b || SpansEpoch(s, b)
    ensures CoveredBetween(env, s, head, source, a, b)
    decreases Height(s.blocks, b)
  {
    if a != b {
      var p := s.blocks[b].parentRoot;
      BetweenParent(env, s, head, source, a, b);
      var siblings := ChildrenOf(s.blocks, p);
      EpochIsCovered(env, s, head, source, b, siblings);
      EstimateGivesCover(env, s, head, source, b, siblings);
      SpanReachesDown(s, p, b);
      OldChainIsCovered(env, s, head, source, a, p);
    }
  }

  /** Above a block of the epoch of the last slot, every window lies in that epoch. */
  lemma {:induction false} EpochChainIsCovered(env: Env, s: Store, head: Root, source: BeaconState, a: Root, b: Root)
    requires ParentsLower(s.blocks) && a in s.blocks && Between(env, s, head, source, a, b) && NoneFromFuture(s)
    requires VotesFromCommittees(env, s, head, source) && EvenCommittees(env, s, head, source)
    requires EpochAt(s.preset, BlockSlot(s, a) + 1) == EpochAt(s.preset, CurrentSlot(s) - 1)
    ensures CoveredBetween(env, s, head, source, a, b)
    decreases Height(s.blocks, b)
  {
    if a != b {
      var p := s.blocks[b].parentRoot;
      BetweenParent(env, s, head, source, a, b);
      SlotsOfOneEpoch(s.preset, BlockSlot(s, a) + 1, BlockSlot(s, p) + 1, CurrentSlot(s) - 1);
      EvenCommitteesCover(env, s, head, source, b);
      EpochChainIsCovered(env, s, head, source, a, p);
    }
  }

  /** No block is from the future, votes are timely, committees even, and the slot after `a` is in the last epoch. */
  ghost predicate EvenEpochFrom(env: Env, s: Store, head: Root, source: BeaconState, a: Root) {
    && NoneFromFuture(s) && VotesFromCommittees(env, s, head, source) && EvenCommittees(env, s, head, source)
    && EpochAt(s.preset, BlockSlot(s, a) + 1) == EpochAt(s.preset, CurrentSlot(s) - 1)
  }

  /** So inside an epoch a chain of one-confirmed blocks leads at every step. */
  lemma EpochChainLeads(env: Env, s: Store, head: Root, source: BeaconState, a: Root, b: Root)
    requires ParentsLower(s.blocks) && a in s.blocks && Between(env, s, head, source, a, b)
    requires EvenEpochFrom(env, s, head, source, a)
    ensures LeadsBetween(s, source, a, b)
  {
    EpochChainIsCovered(env, s, head, source, a, b);
    ConfirmedChainLeads(env, s, head, source, a, b);
  }

  // ── what the search passes through ──────────────────────────────────────────

  /** The first loop stops after some prefix, all of it one-confirmed and known to the previous head. */
  lemma {:induction false} PreviousPasses(env: Env, s: Store, head: Root, c: Confirmation, source: BeaconState,
                                          roots: seq<Root>, start: Root) returns (k: nat)
    requires ParentsLower(s.blocks)
    ensures k <= |roots|
    ensures AdvancePrevious(env, s, head, c, source, roots, start) == if k == 0 then start else roots[k - 1]
    ensures forall i :: 0 <= i < k ==> IsOneConfirmed(env, s, head, source, roots[i])
    ensures forall i :: 0 <= i < k ==>
              BlockEpoch(s, roots[i]) != CurrentEpoch(s) && IsAncestor(s, c.previousHead, roots[i])
    decreases |roots|
  {
    k := 0;
    if roots != [] {
      var b := roots[0];
      if BlockEpoch(s, b) != CurrentEpoch(s) && IsAncestor(s, c.previousHead, b)
         && IsOneConfirmed(env, s, head, source, b)
      {
        var j := PreviousPasses(env, s, head, c, source, roots[1..], b);
        k := j + 1;
      }
    }
  }

  /** The second loop stops after some prefix, all of it one-confirmed. */
  lemma {:induction false} TentativePasses(env: Env, s: Store, head: Root, source: BeaconState, pulled: BeaconState,
                                           roots: seq<Root>, start: Root) returns (k: nat)
    requires ParentsLower(s.blocks)
    ensures k <= |roots|
    ensures AdvanceTentative(env, s, head, source, pulled, roots, start) == if k == 0 then start else roots[k - 1]
    ensures forall i :: 0 <= i < k ==> IsOneConfirmed(env, s, head, source, roots[i])
    decreases |roots|
  {
    k := 0;
    if roots != [] {
      var b := roots[0];
      if (BlockEpoch(s, b) > BlockEpoch(s, start) ==> TargetWillBeJustified(env, s, head, pulled))
         && IsOneConfirmed(env, s, head, source, b)
      {
        var j := TentativePasses(env, s, head, source, pulled, roots[1..], b);
        k := j + 1;
      }
    }
  }

  /** A one-confirmed prefix of the roots above `start` is a one-confirmed chain from `start`. */
  lemma {:induction false} PrefixIsBetween(env: Env, s: Store, head: Root, source: BeaconState, start: Root, k: nat)
    requires ParentsLower(s.blocks) && k <= |AncestorRoots(s, head, start)|
    requires forall i :: 0 <= i < k ==> IsOneConfirmed(env, s, head, source, AncestorRoots(s, head, start)[i])
    ensures Between(env, s, head, source, start, if k == 0 then start else AncestorRoots(s, head, start)[k - 1])
  {
    if k > 0 {
      var roots := AncestorRoots(s, head, start);
      RootsAboveMeans(s, head, start);
      PrefixIsBetween(env, s, head, source, start, k - 1);
      assert roots[k - 1] in s.blocks;
      assert s.blocks[roots[k - 1]].parentRoot == if k == 1 then start else roots[k - 2];
    }
  }

  /** The whole search, from any start: every block passed is one-confirmed under the observed justified state. */
  lemma SearchPassesConfirmedOnly(env: Env, s: Store, head: Root, c: Confirmation, start: Root, pulled: BeaconState)
    requires ParentsLower(s.blocks)
    ensures LatestConfirmedDescendant(env, s, head, c, start, pulled) == start
         || (c.currentObserved in s.checkpointStates
             && Between(env, s, head, s.checkpointStates[c.currentObserved], start,
                        LatestConfirmedDescendant(env, s, head, c, start, pulled)))
  {
    var first := ConfirmPrevious(env, s, head, c, start, pulled);
    if c.currentObserved in s.checkpointStates {
      var source := s.checkpointStates[c.currentObserved];
      FirstStagePasses(env, s, head, c, start, pulled);
      SecondStagePasses(env, s, head, c, first, pulled);
      BetweenComposes(env, s, head, source, start, first, ConfirmCurrent(env, s, head, c, first, pulled));
    }
  }

  lemma FirstStagePasses(env: Env, s: Store, head: Root, c: Confirmation, start: Root, pulled: BeaconState)
    requires ParentsLower(s.blocks) && c.currentObserved in s.checkpointStates
    ensures Between(env, s, head, s.checkpointStates[c.currentObserved], start,
                    ConfirmPrevious(env, s, head, c, start, pulled))
  {
    var source, roots := s.checkpointStates[c.currentObserved], AncestorRoots(s, head, start);
    var k := PreviousPasses(env, s, head, c, source, roots, start);
    PrefixIsBetween(env, s, head, source, start, k);
  }

  lemma SecondStagePasses(env: Env, s: Store, head: Root, c: Confirmation, first: Root, pulled: BeaconState)
    requires ParentsLower(s.blocks) && c.currentObserved in s.checkpointStates
    ensures Between(env, s, head, s.checkpointStates[c.currentObserved], first,
                    ConfirmCurrent(env, s, head, c, first, pulled))
  {
    var source, roots := s.checkpointStates[c.currentObserved], AncestorRoots(s, head, first);
    var k := TentativePasses(env, s, head, source, pulled, roots, first);
    PrefixIsBetween(env, s, head, source, first, k);
  }

  /** What the search returns leads at every step above its start, under the state the search read balances from. */
  lemma SearchResultLeads(env: Env, s: Store, head: Root, c: Confirmation, start: Root, pulled: BeaconState)
    requires ParentsLower(s.blocks) && start in s.blocks && c.currentObserved in s.checkpointStates
    requires CoveredBetween(env, s, head, s.checkpointStates[c.currentObserved], start,
                            LatestConfirmedDescendant(env, s, head, c, start, pulled))
    ensures LeadsBetween(s, s.checkpointStates[c.currentObserved], start,
                         LatestConfirmedDescendant(env, s, head, c, start, pulled))
  {
    SearchPassesConfirmedOnly(env, s, head, c, start, pulled);
    ConfirmedChainLeads(env, s, head, s.checkpointStates[c.currentObserved], start,
                        LatestConfirmedDescendant(env, s, head, c, start, pulled));
  }

  /** When that is the justified state, it wins every fork. */
  lemma SearchResultIsDominant(env: Env, s: Store, head: Root, c: Confirmation, start: Root, pulled: BeaconState)
    requires ParentsLower(s.blocks) && start in s.blocks
    requires c.currentObserved == s.justified && s.justified in s.checkpointStates
    requires CoveredBetween(env, s, head, JustifiedState(s), start,
                            LatestConfirmedDescendant(env, s, head, c, start, pulled))
    ensures Dominant(s, start, LatestConfirmedDescendant(env, s, head, c, start, pulled))
  {
    SearchResultLeads(env, s, head, c, start, pulled);
    LeadingIsDominant(s, start, LatestConfirmedDescendant(env, s, head, c, start, pulled));
  }

  // ── on_fast_confirmation ────────────────────────────────────────────────────

  /** The block from which `on_fast_confirmation` advances. */
  ghost function AdvancesFrom(env: Env, s: Store, c: Confirmation): Root
    requires ParentsLower(s.blocks)
  {
    StartingPoint(env, s, Head(s), UpdateVariables(s, Head(s), c))
  }

  /** It can advance: the start is stored, and so are the states it reads. */
  ghost predicate CanAdvance(env: Env, s: Store, c: Confirmation)
    requires ParentsLower(s.blocks)
  {
    && PulledUpHeadState(env, s, Head(s)).Some? && AdvancesFrom(env, s, c) in s.blocks
    && UpdateVariables(s, Head(s), c).currentObserved in s.checkpointStates
  }

  ghost function Observed(env: Env, s: Store, c: Confirmation): BeaconState
    requires ParentsLower(s.blocks) && CanAdvance(env, s, c)
  {
    s.checkpointStates[UpdateVariables(s, Head(s), c).currentObserved]
  }

  /** It stays where it starts or passes one-confirmed blocks only. */
  lemma ConfirmationPasses(env: Env, s: Store, c: Confirmation)
    requires ParentsLower(s.blocks) && CanAdvance(env, s, c)
    ensures Between(env, s, Head(s), Observed(env, s, c), AdvancesFrom(env, s, c),
                    OnFastConfirmation(env, s, c).confirmed)
  {
    var updated, pulled := UpdateVariables(s, Head(s), c), PulledUpHeadState(env, s, Head(s)).value;
    var start := AdvancesFrom(env, s, c);
    if BlockEpoch(s, start) + 1 >= CurrentEpoch(s) {
      SearchPassesConfirmedOnly(env, s, Head(s), updated, start, pulled);
    }
  }

  /** Whatever it advances over leads at every step, when each block passed has a safe threshold. */
  lemma ConfirmationLeads(env: Env, s: Store, c: Confirmation)
    requires ParentsLower(s.blocks) && CanAdvance(env, s, c)
    requires CoveredBetween(env, s, Head(s), Observed(env, s, c), AdvancesFrom(env, s, c),
                            OnFastConfirmation(env, s, c).confirmed)
    ensures LeadsBetween(s, Observed(env, s, c), AdvancesFrom(env, s, c), OnFastConfirmation(env, s, c).confirmed)
  {
    ConfirmationPasses(env, s, c);
    ConfirmedChainLeads(env, s, Head(s), Observed(env, s, c), AdvancesFrom(env, s, c),
                        OnFastConfirmation(env, s, c).confirmed);
  }

  /** Inside an epoch the thresholds are safe by themselves: even committees and timely votes are enough. */
  lemma ConfirmationLeadsInEpoch(env: Env, s: Store, c: Confirmation)
    requires ParentsLower(s.blocks) && CanAdvance(env, s, c)
    requires EvenEpochFrom(env, s, Head(s), Observed(env, s, c), AdvancesFrom(env, s, c))
    ensures LeadsBetween(s, Observed(env, s, c), AdvancesFrom(env, s, c), OnFastConfirmation(env, s, c).confirmed)
  {
    ConfirmationPasses(env, s, c);
    EpochChainLeads(env, s, Head(s), Observed(env, s, c), AdvancesFrom(env, s, c),
                    OnFastConfirmation(env, s, c).confirmed);
  }

  /** With the justified checkpoint observed, the confirmed root wins every fork above the start. */
  lemma ConfirmationIsDominant(env: Env, s: Store, c: Confirmation)
    requires ParentsLower(s.blocks) && CanAdvance(env, s, c)
    requires UpdateVariables(s, Head(s), c).currentObserved == s.justified
    requires LeadsBetween(s, Observed(env, s, c), AdvancesFrom(env, s, c), OnFastConfirmation(env, s, c).confirmed)
    ensures Dominant(s, AdvancesFrom(env, s, c), OnFastConfirmation(env, s, c).confirmed)
  {
    LeadingIsDominant(s, AdvancesFrom(env, s, c), OnFastConfirmation(env, s, c).confirmed);
  }

  // ── a fork decided and a fork lost ──────────────────────────────────────────

  const ANCHOR: Root := 1
  const VOTED: Root := 2
  const OTHER: Root := 3

  /** Three validators of the given balances; the third has not voted. */
  function ForkedState(mine: nat, other: nat, idle: nat): BeaconState {
    var c := Checkpoint(0, ANCHOR);
    BeaconState(0, 0, c, c,
                [Validator(false, mine, 0, 1), Validator(false, other, 0, 1), Validator(false, idle, 0, 1)], 0)
  }

  /** Two blocks of slot 1 on the anchor, each with one vote; it is slot 2. */
  function ForkedStore(preset: Preset, mine: nat, other: nat, idle: nat): Store {
    var c, state := Checkpoint(0, ANCHOR), ForkedState(mine, other, idle);
    Store(preset, 1, 2, 0, c, c, c, c, ZERO_ROOT, {},
          map[ANCHOR := Block(0, ZERO_ROOT, 0, ZERO_ROOT, 0), VOTED := Block(1, ANCHOR, 0, ZERO_ROOT, 0),
              OTHER := Block(1, ANCHOR, 0, ZERO_ROOT, 1)],
          map[VOTED := state], map[], map[c := state],
          map[0 := LatestMessage(0, VOTED), 1 := LatestMessage(0, OTHER)], map[], map[])
  }

  predicate EightSlotEpochs(p: Preset) { p.slotsPerEpoch == 8 && p.balanceIncrement <= 800 }

  lemma BalanceOfThree(vs: seq<Validator>, who: set<ValidatorIndex>)
    requires |vs| == 3
    ensures Balance(vs, who) == (if 0 in who then vs[0].effectiveBalance else 0)
                              + (if 1 in who then vs[1].effectiveBalance else 0)
                              + (if 2 in who then vs[2].effectiveBalance else 0)
  {
    assert Balance(vs[..2][..1], who) == if 0 in who then vs[0].effectiveBalance else 0 by {
      assert vs[..2][..1][..0] == [];
    }
    assert Balance(vs[..2], who) == Balance(vs[..2][..1], who) + if 1 in who then vs[1].effectiveBalance else 0;
  }

  lemma ForkedBalances(mine: nat, other: nat, idle: nat)
    ensures var vs := ForkedState(mine, other, idle).validators;
            && Balance(vs, {0}) == mine && Balance(vs, {1}) == other
            && Balance(vs, {0, 1}) == mine + other && Balance(vs, {0, 1, 2}) == mine + other + idle
  {
    var vs := ForkedState(mine, other, idle).validators;
    BalanceOfThree(vs, {0});
    BalanceOfThree(vs, {1});
    BalanceOfThree(vs, {0, 1});
    BalanceOfThree(vs, {0, 1, 2});
  }

  lemma ForkedVotes(preset: Preset, mine: nat, other: nat, idle: nat)
    ensures var s := ForkedStore(preset, mine, other, idle);
            && ParentsLower(s.blocks) && CurrentSlot(s) == 2
            && ActiveIndices(preset, JustifiedState(s)) == {0, 1, 2} && Voters(s, JustifiedState(s)) == {0, 1}
            && Supporters(s, JustifiedState(s), VOTED) == {0} && Supporters(s, JustifiedState(s), OTHER) == {1}
  {
  }

  lemma ForkedTotal(preset: Preset, mine: nat, other: nat, idle: nat)
    requires preset.balanceIncrement <= mine + other + idle
    ensures TotalActiveBalance(preset, JustifiedState(ForkedStore(preset, mine, other, idle))) == mine + other + idle
  {
    ForkedVotes(preset, mine, other, idle);
    ForkedBalances(mine, other, idle);
  }

  /** With 800 in balance over eight slots the threshold of the voted block is 95, whoever voted. */
  lemma ForkedThreshold(env: Env, preset: Preset, mine: nat, other: nat, idle: nat)
    requires EightSlotEpochs(preset) && mine + other + idle == 800
    ensures var s := ForkedStore(preset, mine, other, idle);
            SafetyThreshold(env, s, VOTED, VOTED, JustifiedState(s)) == 95
  {
    var s := ForkedStore(preset, mine, other, idle);
    var state := JustifiedState(s);
    ForkedVotes(preset, mine, other, idle);
    ForkedBalances(mine, other, idle);
    ForkedTotal(preset, mine, other, idle);
    assert ProposerScore(preset, state) == 40;
    assert EstimateWeight(preset, 800, 1, 1) == 100;
    assert Committees(env, s, VOTED, 1, 1) * {} * ActiveIndices(preset, state) == {};
    BalanceOfNone(state.validators);
    assert AdversarialWeight(env, s, VOTED, state, VOTED) == 25;
  }

  /** A committee of 100 that voted 96 to 4: the premises hold and the one-confirmed block wins. */
  lemma ForkIsDecided(env: Env, preset: Preset)
    requires EightSlotEpochs(preset) && {0, 1} <= env.committee(ForkedState(96, 4, 700), 1)
    ensures var s := ForkedStore(preset, 96, 4, 700);
            && ParentsLower(s.blocks) && NoneFromFuture(s) && InOneEpoch(s, VOTED)
            && VotesFromCommittees(env, s, VOTED, JustifiedState(s)) && EvenCommittees(env, s, VOTED, JustifiedState(s))
            && IsOneConfirmed(env, s, VOTED, JustifiedState(s), VOTED)
            && Weight(s, VOTED) > Weight(s, OTHER)
  {
    var s := ForkedStore(preset, 96, 4, 700);
    var state := JustifiedState(s);
    ForkedVotes(preset, 96, 4, 700);
    ForkedBalances(96, 4, 700);
    ForkedThreshold(env, preset, 96, 4, 700);
    forall slot: Slot ensures Balance(state.validators, SlotCommittee(env, s, VOTED, slot) * {0, 1}) <= 100 {
      BalanceMonotone(state.validators, SlotCommittee(env, s, VOTED, slot) * {0, 1}, {0, 1});
    }
    EvenCommitteesCover(env, s, VOTED, state, VOTED);
    OneConfirmedOutweighs(env, s, VOTED, VOTED, OTHER);
  }

  /** There the search from the anchor advances, and passes the guard under which the source calls it. */
  lemma ForkIsSearched(env: Env, preset: Preset, c: Confirmation, pulled: BeaconState)
    requires EightSlotEpochs(preset) && {0, 1} <= env.committee(ForkedState(96, 4, 700), 1)
    requires c.currentObserved == Checkpoint(0, ANCHOR)
    ensures var s := ForkedStore(preset, 96, 4, 700);
            && ParentsLower(s.blocks) && BlockEpoch(s, ANCHOR) + 1 >= CurrentEpoch(s)
            && EpochAt(s.preset, BlockSlot(s, ANCHOR) + 1) == EpochAt(s.preset, CurrentSlot(s) - 1)
            && LatestConfirmedDescendant(env, s, VOTED, c, ANCHOR, pulled) == VOTED
  {
    var s := ForkedStore(preset, 96, 4, 700);
    ForkIsDecided(env, preset);
    assert AncestorRoots(s, VOTED, ANCHOR) == [VOTED];
    assert [VOTED][1..] == [];
  }

  /** One-confirmation alone is not safety: with 500 voting for the sibling, the one-confirmed block loses. */
  lemma ForkIsLost(env: Env, preset: Preset)
    requires EightSlotEpochs(preset)
    ensures var s := ForkedStore(preset, 96, 500, 204);
            && ParentsLower(s.blocks) && IsOneConfirmed(env, s, VOTED, JustifiedState(s), VOTED)
            && !Covered(env, s, VOTED, JustifiedState(s), VOTED)
            && IsChild(s.blocks, OTHER, s.blocks[VOTED].parentRoot) && Weight(s, VOTED) < Weight(s, OTHER)
  {
    var s := ForkedStore(preset, 96, 500, 204);
    var state := JustifiedState(s);
    ForkedVotes(preset, 96, 500, 204);
    ForkedBalances(96, 500, 204);
    ForkedThreshold(env, preset, 96, 500, 204);
    if Covered(env, s, VOTED, state, VOTED) { OneConfirmedOutweighs(env, s, VOTED, VOTED, OTHER); }
  }
}
