/**
  One call of `on_fast_confirmation` (`crates/pharos-fork-choice/src/fast_confirmation.rs`): where it
  starts, when it keeps, gives up or restarts, how far it goes, and what it remembers.
 */
module ConfirmationLaws {
  import opened Types
  import opened Arithmetic
  import opened Ancestry
  import opened Weights
  import opened HeadSelection
  import opened StoreHealth
  import opened Handlers
  import opened FastConfirmation
  import opened ConfirmedChains
  import opened SearchReach

  // ── on_fast_confirmation goes as far as it may ──────────────────────────────

  /** The call searches from a start of the current or the previous epoch, and rests on an older one. */
  lemma ConfirmationIsFurthest(env: Env, s: Store, c: Confirmation)
    requires ParentsLower(s.blocks) && CanAdvance(env, s, c)
    ensures var (head, start, source) := (Head(s), AdvancesFrom(env, s, c), Observed(env, s, c));
            var pulled := PulledUpHeadState(env, s, head).value;
            var first := FirstEnd(env, s, head, UpdateVariables(s, head, c), source, start, pulled);
            var second := Furthest(s.blocks, GoodCurrent(env, s, head, source, pulled), first, head);
            OnFastConfirmation(env, s, c).confirmed
            == if BlockEpoch(s, start) + 1 < CurrentEpoch(s) then start
               else if CurrentStageRuns(s, head) && Stands(env, s, head, second, pulled) then second else first
  {
    var head := Head(s);
    SearchIsFurthest(env, s, head, UpdateVariables(s, head, c), AdvancesFrom(env, s, c),
                     PulledUpHeadState(env, s, head).value);
  }

  predicate StopsBefore(env: Env, s: Store, head: Root, source: BeaconState, pulled: BeaconState, next: Root)
    requires ParentsLower(s.blocks)
  {
    next in s.blocks
    && (!IsOneConfirmed(env, s, head, source, next)
        || (BlockEpoch(s, next) > BlockEpoch(s, s.blocks[next].parentRoot)
            && !TargetWillBeJustified(env, s, head, pulled)))
  }

  /** Where the second stage of a call ends. */
  ghost function SecondEnd(env: Env, s: Store, c: Confirmation): Root
    requires ParentsLower(s.blocks) && CanAdvance(env, s, c)
  {
    var (head, source) := (Head(s), Observed(env, s, c));
    var pulled := PulledUpHeadState(env, s, head).value;
    Furthest(s.blocks, GoodCurrent(env, s, head, source, pulled),
             FirstEnd(env, s, head, UpdateVariables(s, head, c), source, AdvancesFrom(env, s, c), pulled), head)
  }

  /**
    Where a call that runs its second stage and keeps the result stops below the head: the next block
    is not one-confirmed, or it opens an epoch whose target is not sure to be justified.
   */
  lemma ConfirmationStops(env: Env, s: Store, c: Confirmation)
    requires ParentsLower(s.blocks) && CanAdvance(env, s, c) && CurrentStageRuns(s, Head(s))
    requires BlockEpoch(s, AdvancesFrom(env, s, c)) + 1 >= CurrentEpoch(s)
    requires OnChain(s.blocks, AdvancesFrom(env, s, c), Head(s))
    requires Stands(env, s, Head(s), SecondEnd(env, s, c), PulledUpHeadState(env, s, Head(s)).value)
    requires OnFastConfirmation(env, s, c).confirmed != Head(s)
    ensures OnChain(s.blocks, OnFastConfirmation(env, s, c).confirmed, Head(s))
    ensures StopsBefore(env, s, Head(s), Observed(env, s, c), PulledUpHeadState(env, s, Head(s)).value,
                        Towards(s.blocks, OnFastConfirmation(env, s, c).confirmed, Head(s)))
  {
    var head, source, start := Head(s), Observed(env, s, c), AdvancesFrom(env, s, c);
    var updated, pulled := UpdateVariables(s, head, c), PulledUpHeadState(env, s, head).value;
    var first := FirstEnd(env, s, head, updated, source, start, pulled);
    ConfirmationIsFurthest(env, s, c);
    FirstEndIsStored(env, s, head, updated, source, start, pulled);
    FurthestIsBelow(s.blocks, GoodPrevious(env, s, head, updated, source), start, head);
    FurthestStops(s.blocks, GoodCurrent(env, s, head, source, pulled), first, head);
  }

  lemma EpochsOfChain(s: Store, a: Root, b: Root)
    requires ParentsLower(s.blocks) && a in s.blocks && b in s.blocks && OnChain(s.blocks, a, b)
    ensures BlockEpoch(s, a) <= BlockEpoch(s, b)
  {
    if a != b { OnChainLowers(s.blocks, a, b); }
    DivMonotone(BlockSlot(s, a), BlockSlot(s, b), s.preset.slotsPerEpoch);
  }

  /** Above a block of the current epoch, what the second stage may pass is what is one-confirmed. */
  lemma {:induction false} GoodIsConfirmed(env: Env, s: Store, head: Root, source: BeaconState, pulled: BeaconState,
                                           a: Root, x: Root)
    requires ParentsLower(s.blocks) && NoneFromFuture(s) && a in s.blocks && OnChain(s.blocks, a, x)
    requires BlockEpoch(s, a) == CurrentEpoch(s)
    ensures AllGood(s.blocks, GoodCurrent(env, s, head, source, pulled), a, x) <==> Between(env, s, head, source, a, x)
    decreases Height(s.blocks, x)
  {
    if a != x {
      var p := s.blocks[x].parentRoot;
      if p != a { OnChainLowers(s.blocks, a, p); }
      EpochsOfChain(s, a, p);
      DivMonotone(BlockSlot(s, x), CurrentSlot(s), s.preset.slotsPerEpoch);
      GoodIsConfirmed(env, s, head, source, pulled, a, p);
    }
  }

  /**
    Inside the current epoch the confirmed root is the highest block of the head's chain that
    is reached through one-confirmed blocks only: a block above the start is at or below the
    confirmed root exactly when it and all blocks down to the start are one-confirmed.
   */
  lemma ConfirmationIsMaximal(env: Env, s: Store, c: Confirmation, x: Root)
    requires ParentsLower(s.blocks) && CanAdvance(env, s, c) && NoneFromFuture(s)
    requires BlockEpoch(s, AdvancesFrom(env, s, c)) == CurrentEpoch(s) && CurrentStageRuns(s, Head(s))
    requires OnChain(s.blocks, AdvancesFrom(env, s, c), x) && OnChain(s.blocks, x, Head(s))
    ensures OnChain(s.blocks, x, OnFastConfirmation(env, s, c).confirmed)
       <==> Between(env, s, Head(s), Observed(env, s, c), AdvancesFrom(env, s, c), x)
  {
    var head, start, source := Head(s), AdvancesFrom(env, s, c), Observed(env, s, c);
    var pulled := PulledUpHeadState(env, s, head).value;
    var good := GoodCurrent(env, s, head, source, pulled);
    ConfirmationIsFurthest(env, s, c);
    OnChainTransitive(s.blocks, start, x, head);
    FurthestIsCurrent(s, good, start, head);
    FurthestIff(s.blocks, good, start, head, x);
    GoodIsConfirmed(env, s, head, source, pulled, start, x);
  }

  lemma FurthestIsCurrent(s: Store, good: set<Root>, start: Root, head: Root)
    requires ParentsLower(s.blocks) && NoneFromFuture(s) && start in s.blocks && OnChain(s.blocks, start, head)
    requires BlockEpoch(s, start) == CurrentEpoch(s)
    ensures BlockEpoch(s, Furthest(s.blocks, good, start, head)) == CurrentEpoch(s)
  {
    var f := Furthest(s.blocks, good, start, head);
    FurthestIsBelow(s.blocks, good, start, head);
    AllGoodIsChain(s.blocks, good, start, f);
    EpochsOfChain(s, start, f);
    DivMonotone(BlockSlot(s, f), CurrentSlot(s), s.preset.slotsPerEpoch);
  }

  /**
    At an epoch's first slot, from the previous epoch: each block of that epoch on the chains of
    both the last and the present head is confirmed once all blocks up to it are one-confirmed.
   */
  lemma EpochStartConfirms(env: Env, s: Store, c: Confirmation, x: Root)
    requires ParentsLower(s.blocks) && CanAdvance(env, s, c) && IsEpochStart(s, CurrentSlot(s))
    requires BlockEpoch(s, AdvancesFrom(env, s, c)) + 1 == CurrentEpoch(s)
    requires VotingSource(s, c.currentHead).epoch + 2 >= CurrentEpoch(s)
    requires OnChain(s.blocks, AdvancesFrom(env, s, c), x) && OnChain(s.blocks, x, Head(s))
    requires AllGood(s.blocks, GoodPrevious(env, s, Head(s), UpdateVariables(s, Head(s), c), Observed(env, s, c)),
                     AdvancesFrom(env, s, c), x)
    ensures OnChain(s.blocks, x, OnFastConfirmation(env, s, c).confirmed)
  {
    var head, start, source := Head(s), AdvancesFrom(env, s, c), Observed(env, s, c);
    var updated, pulled := UpdateVariables(s, head, c), PulledUpHeadState(env, s, head).value;
    var first := FirstEnd(env, s, head, updated, source, start, pulled);
    var good := GoodCurrent(env, s, head, source, pulled);
    ConfirmationIsFurthest(env, s, c);
    OnChainTransitive(s.blocks, start, x, head);
    FurthestIff(s.blocks, GoodPrevious(env, s, head, updated, source), start, head, x);
    FurthestIsBelow(s.blocks, GoodPrevious(env, s, head, updated, source), start, head);
    FurthestIsBelow(s.blocks, good, first, head);
    AllGoodIsChain(s.blocks, good, first, Furthest(s.blocks, good, first, head));
    OnChainTransitive(s.blocks, x, first, Furthest(s.blocks, good, first, head));
  }

  // ── where a call starts ─────────────────────────────────────────────────────

  lemma StartIsRecent(env: Env, s: Store, head: Root, c: Confirmation)
    requires ParentsLower(s.blocks)
    ensures var start := StartingPoint(env, s, head, c);
            BlockEpoch(s, start) + 1 >= CurrentEpoch(s) || start == s.finalized.root
  {
  }

  lemma SearchMovesUp(env: Env, s: Store, head: Root, c: Confirmation, start: Root, pulled: BeaconState)
    requires ParentsLower(s.blocks)
    ensures var r := LatestConfirmedDescendant(env, s, head, c, start, pulled);
            r == start || BlockEpoch(s, start) <= BlockEpoch(s, r)
  {
    var r := LatestConfirmedDescendant(env, s, head, c, start, pulled);
    DescendantStaysOnChain(env, s, head, c, start, pulled);
    if r != start {
      DivMonotone(0, BlockSlot(s, r), s.preset.slotsPerEpoch);
      if start in s.blocks { EpochsOfChain(s, start, r); }
    }
  }

  /** The confirmed root is of the current or the previous epoch, or it is the finalized root. */
  lemma ConfirmedIsRecent(env: Env, s: Store, c: Confirmation)
    requires ParentsLower(s.blocks) && PulledUpHeadState(env, s, Head(s)).Some?
    ensures var r := OnFastConfirmation(env, s, c).confirmed;
            BlockEpoch(s, r) + 1 >= CurrentEpoch(s) || r == s.finalized.root
  {
    var updated := UpdateVariables(s, Head(s), c);
    StartIsRecent(env, s, Head(s), updated);
    SearchMovesUp(env, s, Head(s), updated, AdvancesFrom(env, s, c), PulledUpHeadState(env, s, Head(s)).value);
  }

  /** Between epoch starts a confirmed block that is recent and on the head's chain is never given up. */
  lemma ConfirmedIsKept(env: Env, s: Store, c: Confirmation)
    requires ParentsLower(s.blocks) && PulledUpHeadState(env, s, Head(s)).Some? && !IsEpochStart(s, CurrentSlot(s))
    requires c.confirmed in s.blocks && OnChain(s.blocks, c.confirmed, Head(s))
    requires BlockEpoch(s, c.confirmed) + 1 >= CurrentEpoch(s)
    ensures AdvancesFrom(env, s, c) == c.confirmed
    ensures OnChain(s.blocks, c.confirmed, OnFastConfirmation(env, s, c).confirmed)
  {
    var head := Head(s);
    WalkDecidesAncestry(s.blocks, c.confirmed, head);
    DescendantStaysOnChain(env, s, head, UpdateVariables(s, head, c), c.confirmed,
                           PulledUpHeadState(env, s, head).value);
  }

  /** A block of the confirmed chain that must still be one-confirmed when an epoch begins. */
  ghost predicate Rechecked(s: Store, c: Confirmation, x: Root)
    requires ParentsLower(s.blocks)
  {
    x in s.blocks && OnChain(s.blocks, x, c.confirmed)
    && if c.currentObserved.epoch + 1 >= CurrentEpoch(s)
       then x != c.currentObserved.root && OnChain(s.blocks, c.currentObserved.root, x)
       else BlockEpoch(s, x) + 1 >= CurrentEpoch(s)
  }

  /** The roots listed above `start` are the stored blocks between it and the head. */
  lemma {:induction false} ListedIff(s: Store, head: Root, start: Root, x: Root)
    requires ParentsLower(s.blocks) && OnChain(s.blocks, start, head)
    requires start in s.blocks || forall y :: y in s.blocks && OnChain(s.blocks, y, head) ==> s.blocks[y].slot > 0
    ensures x in AncestorRoots(s, head, start)
       <==> x in s.blocks && x != start && OnChain(s.blocks, start, x) && OnChain(s.blocks, x, head)
    decreases Height(s.blocks, head)
  {
    if start == head {
      NoneBetween(s.blocks, start, x);
    } else {
      var p := s.blocks[head].parentRoot;
      if start in s.blocks { OnChainLowers(s.blocks, start, head); }
      if p != start {
        ListedIff(s, p, start, x);
        RootsAreFound(s, p, start);
      } else {
        NoneBetween(s.blocks, start, x);
      }
    }
  }

  lemma NoneBetween(blocks: Blocks, start: Root, x: Root)
    requires ParentsLower(blocks)
    ensures !(x in blocks && x != start && OnChain(blocks, start, x) && OnChain(blocks, x, start))
  {
    if x in blocks && x != start && OnChain(blocks, start, x) && OnChain(blocks, x, start) {
      OnChainLowers(blocks, x, start);
      OnChainLowers(blocks, start, x);
    }
  }

  lemma {:induction false} RootsAreFound(s: Store, head: Root, start: Root)
    requires ParentsLower(s.blocks) && OnChain(s.blocks, start, head) && start != head
    requires start in s.blocks || forall y :: y in s.blocks && OnChain(s.blocks, y, head) ==> s.blocks[y].slot > 0
    ensures RootsAbove(s, head, start).Some?
    decreases Height(s.blocks, head)
  {
    if start in s.blocks {
      RootsAreComplete(s, head, start);
    } else {
      var p := s.blocks[head].parentRoot;
      assert OnChain(s.blocks, head, head);
      if p != start {
        forall y | y in s.blocks && OnChain(s.blocks, y, p) ensures s.blocks[y].slot > 0 {}
        RootsAreFound(s, p, start);
      }
    }
  }

  lemma EpochFromSlot(p: Preset, slot: Slot, epoch: Epoch)
    ensures EpochAt(p, slot) >= epoch <==> slot >= StartSlot(p, epoch)
  {
    var n := p.slotsPerEpoch;
    if slot >= epoch * n {
      DivMonotone(epoch * n, slot, n);
      DivUnique(epoch * n, epoch, 0, n);
    } else if slot / n >= epoch {
      MulMonotone(epoch, slot / n, n);
    }
  }

  /** Among the stored blocks of the chain, those up to a slot are the ones below the walk's end. */
  lemma UpToWalk(blocks: Blocks, x: Root, r: Root, slot: Slot)
    requires ParentsLower(blocks) && x in blocks && OnChain(blocks, x, r)
    ensures blocks[x].slot <= slot <==> OnChain(blocks, x, Ancestor(blocks, r, slot))
  {
    var early := Ancestor(blocks, r, slot);
    if blocks[x].slot <= slot { WalkSkipsNothing(blocks, x, r, slot); }
    if OnChain(blocks, x, early) && x != early { OnChainLowers(blocks, x, early); }
  }

  /** Strictly above `early` on a chain means not at or below it. */
  lemma AboveIff(blocks: Blocks, early: Root, x: Root, r: Root)
    requires ParentsLower(blocks) && x in blocks && OnChain(blocks, x, r) && OnChain(blocks, early, r)
    ensures x != early && OnChain(blocks, early, x) <==> !OnChain(blocks, x, early)
  {
    AncestorsComparable(blocks, x, early, r);
    NoneBetween(blocks, early, x);
  }

  /** … and above the parent of `early` means at or above `early`. */
  lemma AboveParentIff(blocks: Blocks, early: Root, x: Root, r: Root)
    requires ParentsLower(blocks) && x in blocks && early in blocks
    requires OnChain(blocks, x, r) && OnChain(blocks, early, r)
    ensures var p := blocks[early].parentRoot;
            x != p && OnChain(blocks, p, x) <==> x == early || !OnChain(blocks, x, early)
  {
    var p := blocks[early].parentRoot;
    OnChainTransitive(blocks, p, early, r);
    AboveIff(blocks, p, x, r);
    if x == early && OnChain(blocks, early, p) { OnChainLowers(blocks, early, p); }
  }

  /** With an old observed checkpoint the recheck starts where the previous epoch does. */
  lemma RecheckFromPreviousEpoch(s: Store, c: Confirmation, x: Root)
    requires ParentsLower(s.blocks) && c.currentObserved.epoch + 1 < CurrentEpoch(s)
    requires x in s.blocks && OnChain(s.blocks, x, c.confirmed)
    ensures x != ChainStart(s, c) && OnChain(s.blocks, ChainStart(s, c), x) <==> BlockEpoch(s, x) + 1 >= CurrentEpoch(s)
  {
    var epoch := CurrentEpoch(s) - 1;
    var slot := StartSlot(s.preset, epoch);
    var early := Ancestor(s.blocks, c.confirmed, slot);
    EpochFromSlot(s.preset, s.blocks[x].slot, epoch);
    UpToWalk(s.blocks, x, c.confirmed, slot);
    AboveIff(s.blocks, early, x, c.confirmed);
    EpochFromSlot(s.preset, BlockSlot(s, early), epoch);
    EpochFromSlot(s.preset, BlockSlot(s, early), epoch + 1);
    EpochFromSlot(s.preset, slot, epoch + 1);
    if early in s.blocks {
      AboveParentIff(s.blocks, early, x, c.confirmed);
      if OnChain(s.blocks, x, early) && x != early { OnChainLowers(s.blocks, x, early); }
    }
  }

  lemma ChainStartIsBelow(s: Store, c: Confirmation)
    requires ParentsLower(s.blocks) && IsAncestor(s, c.confirmed, c.currentObserved.root)
    ensures OnChain(s.blocks, ChainStart(s, c), c.confirmed)
  {
    if c.currentObserved.epoch + 1 < CurrentEpoch(s) {
      var early := Ancestor(s.blocks, c.confirmed, StartSlot(s.preset, CurrentEpoch(s) - 1));
      if early in s.blocks { OnChainTransitive(s.blocks, s.blocks[early].parentRoot, early, c.confirmed); }
    }
  }

  /** A start outside the store is left only by chains without a block of slot 0. */
  lemma ChainStartIsListable(s: Store, c: Confirmation, y: Root)
    requires ParentsLower(s.blocks) && IsAncestor(s, c.confirmed, c.currentObserved.root)
    requires ChainStart(s, c) !in s.blocks && y in s.blocks && OnChain(s.blocks, y, c.confirmed)
    ensures s.blocks[y].slot > 0
  {
    if c.currentObserved.epoch + 1 >= CurrentEpoch(s) {
      UpToWalk(s.blocks, y, c.confirmed, 0);
    } else {
      RecheckFromPreviousEpoch(s, c, y);
      ChainStartIsBelow(s, c);
      AboveIff(s.blocks, ChainStart(s, c), y, c.confirmed);
      EpochFromSlot(s.preset, s.blocks[y].slot, 1);
    }
  }

  /** At an epoch start the confirmed chain is safe exactly when each block to recheck is one-confirmed. */
  lemma ChainSafeIff(env: Env, s: Store, head: Root, c: Confirmation)
    requires ParentsLower(s.blocks)
    ensures IsChainSafe(env, s, head, c)
       <==> (&& IsAncestor(s, c.confirmed, c.currentObserved.root) && c.previousObserved in s.checkpointStates
             && forall x :: Rechecked(s, c, x) ==>
                  IsOneConfirmed(env, s, head, s.checkpointStates[c.previousObserved], x))
  {
    if IsAncestor(s, c.confirmed, c.currentObserved.root) {
      var roots := AncestorRoots(s, c.confirmed, ChainStart(s, c));
      forall x ensures x in roots <==> Rechecked(s, c, x) { ListedIsRechecked(s, c, x); }
    }
  }

  lemma ListedIsRechecked(s: Store, c: Confirmation, x: Root)
    requires ParentsLower(s.blocks) && IsAncestor(s, c.confirmed, c.currentObserved.root)
    ensures x in AncestorRoots(s, c.confirmed, ChainStart(s, c)) <==> Rechecked(s, c, x)
  {
    ChainStartIsBelow(s, c);
    if ChainStart(s, c) !in s.blocks {
      forall y | y in s.blocks && OnChain(s.blocks, y, c.confirmed) ensures s.blocks[y].slot > 0 {
        ChainStartIsListable(s, c, y);
      }
    }
    ListedIff(s, c.confirmed, ChainStart(s, c), x);
    if c.currentObserved.epoch + 1 < CurrentEpoch(s) && x in s.blocks && OnChain(s.blocks, x, c.confirmed) {
      RecheckFromPreviousEpoch(s, c, x);
    }
  }

  /** The confirmed block is given up: too old, off the head's chain, or not safe when an epoch begins. */
  ghost predicate GivenUp(env: Env, s: Store, head: Root, c: Confirmation)
    requires ParentsLower(s.blocks)
  {
    || BlockEpoch(s, c.confirmed) + 1 < CurrentEpoch(s)
    || !OnChain(s.blocks, c.confirmed, head)
    || (SlotsSinceEpochStart(s.preset, CurrentSlot(s)) == 0
        && !(&& IsAncestor(s, c.confirmed, c.currentObserved.root) && c.previousObserved in s.checkpointStates
             && forall x :: Rechecked(s, c, x) ==>
                  IsOneConfirmed(env, s, head, s.checkpointStates[c.previousObserved], x)))
  }

  /** The observed checkpoint is the head's own, of the previous epoch, and newer than `kept`. */
  predicate ObservedIsBetter(s: Store, head: Root, c: Confirmation, kept: Root) {
    && SlotsSinceEpochStart(s.preset, CurrentSlot(s)) == 0
    && BlockEpoch(s, c.currentObserved.root) + 1 == CurrentEpoch(s)
    && head in s.unrealized && s.unrealized[head] == c.currentObserved
    && BlockSlot(s, kept) < BlockSlot(s, c.currentObserved.root)
  }

  /** Exactly where a call starts. */
  lemma StartIs(env: Env, s: Store, head: Root, c: Confirmation)
    requires ParentsLower(s.blocks) && c.confirmed in s.blocks
    ensures var kept := if GivenUp(env, s, head, c) then s.finalized.root else c.confirmed;
            StartingPoint(env, s, head, c)
            == if ObservedIsBetter(s, head, c, kept) then c.currentObserved.root else kept
  {
    WalkDecidesAncestry(s.blocks, c.confirmed, head);
    ChainSafeIff(env, s, head, c);
  }

  // ── what a call remembers ───────────────────────────────────────────────────

  /** Two calls in a row remember the two heads they saw. */
  lemma HeadsAreRemembered(env: Env, s: Store, t: Store, c: Confirmation)
    requires ParentsLower(s.blocks) && ParentsLower(t.blocks)
    ensures var after := OnFastConfirmation(env, t, OnFastConfirmation(env, s, c));
            after.previousHead == Head(s) && after.currentHead == Head(t)
  {
  }

  /**
    The checkpoint observed from an epoch's first slot on is the unrealized one of the slot before,
    and the one observed until then becomes the previous one.
   */
  lemma ObservedIsLastSlots(env: Env, s: Store, t: Store, c: Confirmation)
    requires ParentsLower(s.blocks) && ParentsLower(t.blocks) && s.preset == t.preset && s.preset.slotsPerEpoch > 1
    requires CurrentSlot(t) == CurrentSlot(s) + 1 && IsEpochStart(t, CurrentSlot(t))
    ensures var after := OnFastConfirmation(env, t, OnFastConfirmation(env, s, c));
            after.currentObserved == s.unrealizedJustified && after.previousObserved == c.currentObserved
  {
    var n := s.preset.slotsPerEpoch;
    NotBothStarts(CurrentSlot(s), n);
    NotBothStarts(CurrentSlot(t), n);
  }

  lemma NotBothStarts(slot: Slot, n: Positive)
    requires n > 1
    ensures !(slot % n == 0 && (slot + 1) % n == 0)
  {
    if slot % n == 0 { DivUnique(slot + 1, slot / n, 1, n); }
  }

  /** Away from epoch starts the observed checkpoints do not change. */
  lemma ObservedStays(env: Env, s: Store, c: Confirmation)
    requires ParentsLower(s.blocks) && !IsEpochStart(s, CurrentSlot(s))
    ensures var after := OnFastConfirmation(env, s, c);
            after.currentObserved == c.currentObserved && after.previousObserved == c.previousObserved
            && (!IsEpochStart(s, CurrentSlot(s) + 1) ==> after.greatestUnrealized == c.greatestUnrealized)
  {
  }
}
