/**
  Vote weight: who supports a block and how much effective balance they carry
  (`get_attestation_score`, `get_weight` of `crates/pharos-fork-choice/src/get_head.rs`).
 */
module Weights {
  import opened Types
  import opened Ancestry

  const PROPOSER_SCORE_BOOST := 40

  /** Effective balance of the validators in `who`. */
  function Balance(vs: seq<Validator>, who: set<ValidatorIndex>): nat {
    if vs == [] then 0 else
      var i := |vs| - 1;
      Balance(vs[..i], who) + if i in who then vs[i].effectiveBalance else 0
  }

  lemma BalanceSplits(vs: seq<Validator>, a: set<ValidatorIndex>, b: set<ValidatorIndex>)
    requires a !! b
    ensures Balance(vs, a + b) == Balance(vs, a) + Balance(vs, b)
  {
  }

  lemma BalanceMonotone(vs: seq<Validator>, a: set<ValidatorIndex>, b: set<ValidatorIndex>)
    requires a <= b
    ensures Balance(vs, a) <= Balance(vs, b)
  {
  }

  lemma BalanceOfNone(vs: seq<Validator>)
    ensures Balance(vs, {}) == 0
  {
  }

  predicate IsActive(v: Validator, epoch: Epoch) { v.activationEpoch <= epoch < v.exitEpoch }

  function ActiveIndices(p: Preset, state: BeaconState): set<ValidatorIndex> {
    set i | 0 <= i < |state.validators| && IsActive(state.validators[i], EpochAt(p, state.slot))
  }

  function TotalActiveBalance(p: Preset, state: BeaconState): nat {
    var sum := Balance(state.validators, ActiveIndices(p, state));
    if sum < p.balanceIncrement then p.balanceIncrement else sum
  }

  /** Active, unslashed, not known to equivocate, and with a recorded vote. */
  function Voters(s: Store, state: BeaconState): set<ValidatorIndex> {
    set i | i in ActiveIndices(s.preset, state)
            && !state.validators[i].slashed && i in s.latestMessages && i !in s.equivocating
  }

  function BlockSlot(s: Store, root: Root): Slot {
    if root in s.blocks then s.blocks[root].slot else 0
  }

  /** Voters whose latest vote, walked down to the slot of `root`, lands on `root`. */
  function Supporters(s: Store, state: BeaconState, root: Root): set<ValidatorIndex>
    requires ParentsLower(s.blocks)
  {
    set i | i in Voters(s, state) && Ancestor(s.blocks, s.latestMessages[i].root, BlockSlot(s, root)) == root
  }

  function AttestationScore(s: Store, root: Root, state: BeaconState): nat
    requires ParentsLower(s.blocks)
  {
    Balance(state.validators, Supporters(s, state, root))
  }

  function ProposerScore(p: Preset, state: BeaconState): nat {
    TotalActiveBalance(p, state) / p.slotsPerEpoch * PROPOSER_SCORE_BOOST / 100
  }

  /** Proposer boost counted for `root` on top of its votes. */
  function BoostFor(s: Store, root: Root, state: BeaconState): nat
    requires ParentsLower(s.blocks)
  {
    if s.boostRoot != ZERO_ROOT && Ancestor(s.blocks, s.boostRoot, BlockSlot(s, root)) == root
    then ProposerScore(s.preset, state) else 0
  }

  /** `get_weight`: zero when the justified checkpoint state is unknown. */
  function Weight(s: Store, root: Root): nat
    requires ParentsLower(s.blocks)
  {
    if s.justified !in s.checkpointStates then 0 else
      var state := s.checkpointStates[s.justified];
      AttestationScore(s, root, state) + BoostFor(s, root, state)
  }

  // ── conservation of votes ───────────────────────────────────────────────────

  /** For a stored block, supporting it means having voted for one of its descendants-or-self. */
  lemma SupportIsDescent(s: Store, state: BeaconState, root: Root)
    requires ParentsLower(s.blocks) && root in s.blocks
    ensures Supporters(s, state, root)
         == set i | i in Voters(s, state) && OnChain(s.blocks, root, s.latestMessages[i].root)
  {
    forall i | i in Voters(s, state)
      ensures i in Supporters(s, state, root) <==> OnChain(s.blocks, root, s.latestMessages[i].root)
    {
      WalkDecidesAncestry(s.blocks, root, s.latestMessages[i].root);
    }
  }

  /** Voters whose latest vote is exactly `root`. */
  function DirectVoters(s: Store, state: BeaconState, root: Root): set<ValidatorIndex> {
    set i | i in Voters(s, state) && s.latestMessages[i].root == root
  }

  ghost predicate EnumeratesChildren(blocks: Blocks, p: Root, cs: seq<Root>) {
    && (forall i, j :: 0 <= i < j < |cs| ==> cs[i] != cs[j])
    && (forall c :: c in cs <==> IsChild(blocks, c, p))
  }

  function SumOfScores(s: Store, state: BeaconState, cs: seq<Root>): nat
    requires ParentsLower(s.blocks)
  {
    if cs == [] then 0 else AttestationScore(s, cs[0], state) + SumOfScores(s, state, cs[1..])
  }

  ghost function SupportersOfAny(s: Store, state: BeaconState, cs: seq<Root>): set<ValidatorIndex>
    requires ParentsLower(s.blocks)
  {
    set i | i in Voters(s, state) && exists c :: c in cs && i in Supporters(s, state, c)
  }

  lemma {:induction false} SiblingScoresAdd(s: Store, state: BeaconState, p: Root, cs: seq<Root>)
    requires ParentsLower(s.blocks) && p in s.blocks
    requires forall i, j :: 0 <= i < j < |cs| ==> cs[i] != cs[j]
    requires forall c :: c in cs ==> IsChild(s.blocks, c, p)
    ensures SumOfScores(s, state, cs) == Balance(state.validators, SupportersOfAny(s, state, cs))
  {
    if cs == [] {
      assert SupportersOfAny(s, state, cs) == {};
      BalanceOfNone(state.validators);
    } else {
      var first, rest := Supporters(s, state, cs[0]), SupportersOfAny(s, state, cs[1..]);
      SiblingScoresAdd(s, state, p, cs[1..]);
      forall i | i in first && i in rest ensures false {
        var c :| c in cs[1..] && i in Supporters(s, state, c);
        assert IsChild(s.blocks, cs[0], p);
        SupportIsDescent(s, state, cs[0]);
        SupportIsDescent(s, state, c);
        ChildrenDisjoint(s.blocks, p, cs[0], c, s.latestMessages[i].root);
      }
      assert SupportersOfAny(s, state, cs) == first + rest;
      BalanceSplits(state.validators, first, rest);
    }
  }

  /** Every vote below a block counts once: for the block itself or for exactly one child. */
  lemma VotesConserved(s: Store, state: BeaconState, p: Root, cs: seq<Root>)
    requires ParentsLower(s.blocks) && p in s.blocks && EnumeratesChildren(s.blocks, p, cs)
    ensures AttestationScore(s, p, state)
         == Balance(state.validators, DirectVoters(s, state, p)) + SumOfScores(s, state, cs)
  {
    var direct, below := DirectVoters(s, state, p), SupportersOfAny(s, state, cs);
    SupportIsDescent(s, state, p);
    forall i | i in Voters(s, state)
      ensures i in below <==> i in Supporters(s, state, p) && i !in direct
    {
      var vote := s.latestMessages[i].root;
      if i in below {
        var c :| c in cs && i in Supporters(s, state, c);
        SupportIsDescent(s, state, c);
        OnChainTransitive(s.blocks, p, c, vote);
        if vote == p { OnChainLowers(s.blocks, c, p); }
      }
      if OnChain(s.blocks, p, vote) && vote != p {
        var c := Towards(s.blocks, p, vote);
        SupportIsDescent(s, state, c);
        assert c in cs && i in Supporters(s, state, c);
      }
    }
    assert Supporters(s, state, p) == direct + below;
    BalanceSplits(state.validators, direct, below);
    SiblingScoresAdd(s, state, p, cs);
  }

  /** Support only grows towards the root of the tree. */
  lemma AncestorScoresMore(s: Store, state: BeaconState, a: Root, b: Root)
    requires ParentsLower(s.blocks) && a in s.blocks && b in s.blocks && OnChain(s.blocks, a, b)
    ensures Supporters(s, state, b) <= Supporters(s, state, a)
    ensures AttestationScore(s, b, state) <= AttestationScore(s, a, state)
  {
    SupportIsDescent(s, state, a);
    SupportIsDescent(s, state, b);
    forall i | i in Supporters(s, state, b) ensures i in Supporters(s, state, a) {
      OnChainTransitive(s.blocks, a, b, s.latestMessages[i].root);
    }
    BalanceMonotone(state.validators, Supporters(s, state, b), Supporters(s, state, a));
  }

  lemma SiblingPairFits(s: Store, state: BeaconState, p: Root, cs: seq<Root>, c: Root, d: Root)
    requires ParentsLower(s.blocks) && p in s.blocks && EnumeratesChildren(s.blocks, p, cs)
    requires c in cs && d in cs && c != d
    ensures AttestationScore(s, c, state) + AttestationScore(s, d, state) <= SumOfScores(s, state, cs)
  {
    var vs := state.validators;
    SiblingScoresAdd(s, state, p, cs);
    var pair := Supporters(s, state, c) + Supporters(s, state, d);
    forall i | i in Supporters(s, state, c) && i in Supporters(s, state, d) ensures false {
      SupportIsDescent(s, state, c);
      SupportIsDescent(s, state, d);
      ChildrenDisjoint(s.blocks, p, c, d, s.latestMessages[i].root);
    }
    BalanceSplits(vs, Supporters(s, state, c), Supporters(s, state, d));
    BalanceMonotone(vs, pair, SupportersOfAny(s, state, cs));
  }

  /**
    A child that holds more than half of the votes cast strictly below its parent,
    plus the proposer boost, outweighs each of its siblings.
   */
  lemma MajorityChildOutweighs(s: Store, p: Root, cs: seq<Root>, c: Root, d: Root)
    requires ParentsLower(s.blocks) && p in s.blocks && EnumeratesChildren(s.blocks, p, cs)
    requires c in cs && d in cs && c != d && s.justified in s.checkpointStates
    requires var state := s.checkpointStates[s.justified];
             2 * AttestationScore(s, c, state) > SumOfScores(s, state, cs) + ProposerScore(s.preset, state)
    ensures Weight(s, c) > Weight(s, d)
  {
    SiblingPairFits(s, s.checkpointStates[s.justified], p, cs, c, d);
  }

  // ── what a weight is made of ────────────────────────────────────────────────

  /** The boost counts for exactly the blocks on the boosted block's chain, and in full. */
  lemma BoostCounts(s: Store, r: Root)
    requires ParentsLower(s.blocks) && r in s.blocks && s.boostRoot != ZERO_ROOT && s.justified in s.checkpointStates
    ensures Weight(s, r) == Weight(s.(boostRoot := ZERO_ROOT), r)
                          + if OnChain(s.blocks, r, s.boostRoot)
                            then ProposerScore(s.preset, s.checkpointStates[s.justified]) else 0
  {
    var t, state := s.(boostRoot := ZERO_ROOT), s.checkpointStates[s.justified];
    assert Supporters(t, state, r) == Supporters(s, state, r);
    WalkDecidesAncestry(s.blocks, r, s.boostRoot);
  }

  /** Without a boost the weight is the score, and without a justified state it is nothing. */
  lemma UnboostedWeight(s: Store, r: Root)
    requires ParentsLower(s.blocks) && s.boostRoot == ZERO_ROOT
    ensures Weight(s, r) == if s.justified in s.checkpointStates
                            then AttestationScore(s, r, s.checkpointStates[s.justified]) else 0
  {
  }

  /** Of two siblings, the one on the boosted chain wins unless it trails by the whole boost. */
  lemma BoostBeats(s: Store, p: Root, c: Root, d: Root)
    requires ParentsLower(s.blocks) && p in s.blocks && IsChild(s.blocks, c, p) && IsChild(s.blocks, d, p) && c != d
    requires s.justified in s.checkpointStates && s.boostRoot != ZERO_ROOT && OnChain(s.blocks, c, s.boostRoot)
    ensures var state := s.checkpointStates[s.justified];
            Weight(s, c) > Weight(s, d)
            <==> AttestationScore(s, c, state) + ProposerScore(s.preset, state) > AttestationScore(s, d, state)
  {
    WalkDecidesAncestry(s.blocks, c, s.boostRoot);
    WalkDecidesAncestry(s.blocks, d, s.boostRoot);
    if OnChain(s.blocks, d, s.boostRoot) { ChildrenDisjoint(s.blocks, p, c, d, s.boostRoot); }
  }

  /** The total is the active balance, but never less than one increment. */
  lemma TotalIsActiveBalance(p: Preset, state: BeaconState)
    ensures var (total, active) := (TotalActiveBalance(p, state), Balance(state.validators, ActiveIndices(p, state)));
            total >= p.balanceIncrement && total >= active && (total == active || total == p.balanceIncrement)
  {
  }

  /** A vote counts exactly while its voter is active, not slashed and not known to equivocate. */
  lemma VoteCountsIff(s: Store, state: BeaconState, root: Root, i: ValidatorIndex)
    requires ParentsLower(s.blocks) && root in s.blocks && i in s.latestMessages
    ensures i in Supporters(s, state, root)
       <==> (i < |state.validators| && !state.validators[i].slashed && i !in s.equivocating
             && state.validators[i].activationEpoch <= EpochAt(s.preset, state.slot) < state.validators[i].exitEpoch
             && OnChain(s.blocks, root, s.latestMessages[i].root))
  {
    WalkDecidesAncestry(s.blocks, root, s.latestMessages[i].root);
  }
}
