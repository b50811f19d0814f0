/**
  `scripts/devnet-dashboard.py`: the canonical walk over a fork-choice dump and the
  reorganisation records kept across polls. Roots that the API may omit are options.
 */
module Dashboard {
  import opened Types

  const GUARD: nat := 256
  const KEPT: nat := 12

  datatype Node = Node(slot: nat, parent: Option<Root>)
  type Dump = map<Root, Node>

  predicate Inside(dump: Dump, cur: Option<Root>) { cur.Some? && cur.value in dump }

  // ── ancestry inside a dump ──────────────────────────────────────────────────

  /** The `n`-th root reached from `cur` by parent links that start inside the dump. */
  function Step(dump: Dump, cur: Option<Root>, n: nat): Option<Root>
    decreases n
  {
    if n == 0 then cur
    else if Inside(dump, cur) then Step(dump, dump[cur.value].parent, n - 1)
    else None
  }

  ghost predicate Reaches(dump: Dump, cur: Option<Root>, r: Root) {
    exists n: nat :: Step(dump, cur, n) == Some(r)
  }

  /** The in-dump ancestors-or-self of `cur`. */
  ghost function Ancestry(dump: Dump, cur: Option<Root>): set<Root> {
    set r | r in dump && Reaches(dump, cur, r)
  }

  ghost predicate ParentClosed(dump: Dump, roots: set<Root>) {
    forall r :: r in roots && r in dump && Inside(dump, dump[r].parent) ==> dump[r].parent.value in roots
  }

  /** Parent links strictly lower the slot, so the dump has no cycle. */
  ghost predicate SlotsFall(dump: Dump) {
    forall r :: r in dump && Inside(dump, dump[r].parent) ==> dump[dump[r].parent.value].slot < dump[r].slot
  }

  lemma {:induction false} StepFurther(dump: Dump, cur: Option<Root>, n: nat)
    ensures Step(dump, cur, n + 1)
         == if Inside(dump, Step(dump, cur, n)) then dump[Step(dump, cur, n).value].parent else None
    decreases n
  {
    if n != 0 && Inside(dump, cur) {
      StepFurther(dump, dump[cur.value].parent, n - 1);
    }
  }

  lemma AncestryClosed(dump: Dump, cur: Option<Root>)
    ensures ParentClosed(dump, Ancestry(dump, cur))
  {
    var all := Ancestry(dump, cur);
    forall r | r in all && Inside(dump, dump[r].parent) ensures dump[r].parent.value in all {
      var n: nat :| Step(dump, cur, n) == Some(r);
      StepFurther(dump, cur, n);
      assert Step(dump, cur, n + 1) == Some(dump[r].parent.value);
    }
  }

  lemma {:induction false} ClosedHoldsSteps(dump: Dump, roots: set<Root>, cur: Option<Root>, n: nat)
    requires ParentClosed(dump, roots)
    requires Inside(dump, cur) ==> cur.value in roots
    ensures Inside(dump, Step(dump, cur, n)) ==> Step(dump, cur, n).value in roots
    decreases n
  {
    if n != 0 && Inside(dump, cur) {
      ClosedHoldsSteps(dump, roots, dump[cur.value].parent, n - 1);
    }
  }

  /** Ancestry is the least closed set that holds the start. */
  lemma AncestryIsLeast(dump: Dump, roots: set<Root>, cur: Option<Root>)
    requires ParentClosed(dump, roots)
    requires Inside(dump, cur) ==> cur.value in roots
    ensures Ancestry(dump, cur) <= roots
  {
    forall r | r in Ancestry(dump, cur) ensures r in roots {
      var n: nat :| Step(dump, cur, n) == Some(r);
      ClosedHoldsSteps(dump, roots, cur, n);
    }
  }

  lemma AncestryUnfolds(dump: Dump, r: Root)
    requires r in dump
    ensures Ancestry(dump, Some(r)) == {r} + Ancestry(dump, dump[r].parent)
  {
    var rest := Ancestry(dump, dump[r].parent);
    assert Step(dump, Some(r), 0) == Some(r);
    forall a | a in rest ensures a in Ancestry(dump, Some(r)) {
      var n: nat :| Step(dump, dump[r].parent, n) == Some(a);
      assert Step(dump, Some(r), n + 1) == Some(a);
    }
    AncestryClosed(dump, dump[r].parent);
    if Inside(dump, dump[r].parent) {
      assert Step(dump, dump[r].parent, 0) == dump[r].parent;
    }
    AncestryIsLeast(dump, {r} + rest, Some(r));
  }

  // ── the canonical walk ──────────────────────────────────────────────────────

  ghost predicate ParentPath(dump: Dump, head: Option<Root>, path: seq<Root>) {
    && (path != [] ==> head == Some(path[0]))
    && (forall i :: 0 <= i < |path| ==> path[i] in dump)
    && (forall i :: 0 <= i < |path| - 1 ==> dump[path[i]].parent == Some(path[i + 1]))
  }

  ghost predicate Distinct(path: seq<Root>) {
    forall i, j :: 0 <= i < j < |path| ==> path[i] != path[j]
  }

  /**
    The walk ends on every parent map, cyclic ones included: its path is parent-linked
    from the head, repeats nothing and holds exactly the reachable ancestors.
   */
  method CanonicalWalk(dump: Dump, head: Option<Root>) returns (path: seq<Root>, seen: set<Root>)
    ensures ParentPath(dump, head, path) && Distinct(path)
    ensures seen == Ancestry(dump, head) == (set r | r in path)
  {
    path, seen := [], {};
    var cur := head;
    while Inside(dump, cur) && cur.value !in seen
      invariant seen == set r | r in path
      invariant ParentPath(dump, head, path) && Distinct(path)
      invariant cur == if path == [] then head else dump[path[|path| - 1]].parent
      invariant cur == Step(dump, head, |path|)
      invariant forall i :: 0 <= i < |path| ==> Step(dump, head, i) == Some(path[i])
      decreases dump.Keys - seen
    {
      StepFurther(dump, head, |path|);
      seen := seen + {cur.value};
      path := path + [cur.value];
      cur := dump[cur.value].parent;
    }
    assert seen <= Ancestry(dump, head);
    WalkIsClosed(dump, head, path, seen, cur);
    AncestryIsLeast(dump, seen, head);
  }

  lemma WalkIsClosed(dump: Dump, head: Option<Root>, path: seq<Root>, seen: set<Root>, cur: Option<Root>)
    requires seen == (set r | r in path) && ParentPath(dump, head, path)
    requires cur == if path == [] then head else dump[path[|path| - 1]].parent
    requires Inside(dump, cur) ==> cur.value in seen
    ensures ParentClosed(dump, seen)
    ensures Inside(dump, head) ==> head.value in seen
  {
    forall r | r in seen && r in dump && Inside(dump, dump[r].parent) ensures dump[r].parent.value in seen {
      var i :| 0 <= i < |path| && path[i] == r;
      if i < |path| - 1 {
        assert path[i + 1] in path;
      }
    }
  }

  // ── measuring a reorganisation ──────────────────────────────────────────────

  /** Blocks walked from `cur` up to the canonical chain, the dump's edge or the guard. */
  function Walked(dump: Dump, canonical: set<Root>, cur: Option<Root>, guard: nat): nat
    decreases guard
  {
    if guard > 0 && Inside(dump, cur) && cur.value !in canonical
    then 1 + Walked(dump, canonical, dump[cur.value].parent, guard - 1)
    else 0
  }

  /** The block walked last is the one `Walked - 1` links above the start. */
  lemma {:induction false} WalkedStays(dump: Dump, canonical: set<Root>, cur: Option<Root>, guard: nat, n: nat)
    requires n < Walked(dump, canonical, cur, guard)
    ensures Inside(dump, Step(dump, cur, n)) && Step(dump, cur, n).value !in canonical
    decreases n
  {
    if n != 0 { WalkedStays(dump, canonical, dump[cur.value].parent, guard - 1, n - 1); }
  }

  function Least(a: nat, b: nat): nat { if a <= b then a else b }

  lemma {:induction false} SlotsFallAlong(dump: Dump, cur: Option<Root>, r: Root)
    requires SlotsFall(dump) && r in Ancestry(dump, cur)
    ensures Inside(dump, cur) && dump[r].slot <= dump[cur.value].slot
    decreases if Inside(dump, cur) then dump[cur.value].slot + 1 else 0
  {
    var n: nat :| Step(dump, cur, n) == Some(r);
    if n != 0 && Inside(dump, cur) {
      var up := dump[cur.value].parent;
      assert Step(dump, up, n - 1) == Some(r);
      assert r in Ancestry(dump, up);
      if Inside(dump, up) {
        SlotsFallAlong(dump, up, r);
      } else {
        OutsideHasNone(dump, up);
      }
    }
  }

  lemma OutsideHasNone(dump: Dump, cur: Option<Root>)
    requires !Inside(dump, cur)
    ensures Ancestry(dump, cur) == {}
  {
    AncestryIsLeast(dump, {}, cur);
  }

  /** A block off the canonical chain adds itself to the orphans of its parent. */
  lemma OneMoreOrphan(dump: Dump, canonical: set<Root>, r: Root)
    requires SlotsFall(dump) && r in dump && r !in canonical
    ensures |Ancestry(dump, Some(r)) - canonical| == 1 + |Ancestry(dump, dump[r].parent) - canonical|
  {
    var above := Ancestry(dump, dump[r].parent);
    AncestryUnfolds(dump, r);
    if r in above { SlotsFallAlong(dump, dump[r].parent, r); }
    AddOne(above - canonical, r);
    assert Ancestry(dump, Some(r)) - canonical == {r} + (above - canonical);
  }

  lemma AddOne(roots: set<Root>, r: Root)
    requires r !in roots
    ensures |{r} + roots| == 1 + |roots|
  {
  }

  /**
    On a dump whose slots fall, the walk counts exactly the ancestors of the old head
    that the new chain dropped, up to the guard.
   */
  lemma {:induction false} WalkedCountsOrphans(dump: Dump, canonical: set<Root>, cur: Option<Root>, guard: nat)
    requires SlotsFall(dump) && ParentClosed(dump, canonical)
    ensures Walked(dump, canonical, cur, guard) == Least(guard, |Ancestry(dump, cur) - canonical|)
    decreases guard
  {
    if !Inside(dump, cur) {
      OutsideHasNone(dump, cur);
    } else if cur.value in canonical {
      AncestryIsLeast(dump, canonical, cur);
      assert Ancestry(dump, cur) - canonical == {};
    } else {
      OneMoreOrphan(dump, canonical, cur.value);
      if guard > 0 { WalkedCountsOrphans(dump, canonical, dump[cur.value].parent, guard - 1); }
    }
  }

  /** The measuring loop. */
  method MeasureReorg(dump: Dump, canonical: set<Root>, prev: Root) returns (depth: nat, topSlot: Option<nat>)
    ensures depth == Walked(dump, canonical, Some(prev), GUARD)
    ensures depth == 0 ==> topSlot == None
    ensures depth > 0 ==> Inside(dump, Step(dump, Some(prev), depth - 1))
    ensures depth > 0 ==> topSlot == Some(dump[Step(dump, Some(prev), depth - 1).value].slot)
  {
    var cur, guard := Some(prev), 0;
    depth, topSlot := 0, None;
    while Inside(dump, cur) && cur.value !in canonical && guard < GUARD
      invariant depth == guard <= GUARD
      invariant cur == Step(dump, Some(prev), depth)
      invariant Walked(dump, canonical, Some(prev), GUARD) == depth + Walked(dump, canonical, cur, GUARD - depth)
      invariant depth == 0 ==> topSlot == None
      invariant depth > 0 ==> Inside(dump, Step(dump, Some(prev), depth - 1))
      invariant depth > 0 ==> topSlot == Some(dump[Step(dump, Some(prev), depth - 1).value].slot)
      decreases GUARD - guard
    {
      StepFurther(dump, Some(prev), depth);
      topSlot := Some(dump[cur.value].slot);
      depth := depth + 1;
      cur := dump[cur.value].parent;
      guard := guard + 1;
    }
  }

  // ── records across polls ────────────────────────────────────────────────────

  /** One poll: the dump (absent when the endpoint gave none), the head and the clock. */
  datatype Poll = Poll(dump: Option<Dump>, head: Option<Root>, time: nat)
  datatype Reorg = Reorg(time: nat, depth: nat, oldHead: Root, newHead: Option<Root>, slot: Option<nat>)

  /** The old head is still in the dump and off the new head's ancestry. */
  ghost predicate Orphaned(dump: Dump, prev: Option<Root>, head: Option<Root>) {
    Inside(dump, prev) && prev.value !in Ancestry(dump, head)
  }

  /** The record made when `poll` finds the previous head orphaned. */
  ghost function RecordOf(dump: Dump, prev: Option<Root>, poll: Poll): Reorg
    requires Orphaned(dump, prev, poll.head)
  {
    var depth := Walked(dump, Ancestry(dump, poll.head), prev, GUARD);
    WalkedStays(dump, Ancestry(dump, poll.head), prev, GUARD, depth - 1);
    Reorg(poll.time, depth, prev.value, poll.head, Some(dump[Step(dump, prev, depth - 1).value].slot))
  }

  /** On a dump whose slots fall, the depth is the number of blocks the new head dropped. */
  lemma RecordedDepth(dump: Dump, prev: Option<Root>, poll: Poll)
    requires SlotsFall(dump) && Orphaned(dump, prev, poll.head)
    ensures RecordOf(dump, prev, poll).depth
         == Least(GUARD, |Ancestry(dump, prev) - Ancestry(dump, poll.head)|)
  {
    AncestryClosed(dump, poll.head);
    WalkedCountsOrphans(dump, Ancestry(dump, poll.head), prev, GUARD);
  }

  /** Head of the last poll that had a dump. */
  ghost function LastHead(polls: seq<Poll>): Option<Root> {
    if polls == [] then None
    else if polls[|polls| - 1].dump.Some? then polls[|polls| - 1].head
    else LastHead(polls[..|polls| - 1])
  }

  lemma {:induction false} LastHeadMeans(polls: seq<Poll>, j: nat)
    requires j < |polls| && polls[j].dump.Some?
    requires forall k :: j < k < |polls| ==> polls[k].dump.None?
    ensures LastHead(polls) == polls[j].head
    decreases |polls|
  {
    var last := |polls| - 1;
    if j < last { LastHeadMeans(polls[..last], j); }
  }

  /** Every record ever made, newest first. */
  ghost function Log(polls: seq<Poll>): seq<Reorg> {
    if polls == [] then []
    else
      var before, poll := polls[..|polls| - 1], polls[|polls| - 1];
      if poll.dump.Some? && Orphaned(poll.dump.value, LastHead(before), poll.head)
      then [RecordOf(poll.dump.value, LastHead(before), poll)] + Log(before)
      else Log(before)
  }

  /**
    Poll `i` adds a record exactly when the head of the nearest earlier poll with a
    dump is still in its dump and off its head's ancestry.
   */
  lemma RecordAddedIff(polls: seq<Poll>, j: nat, i: nat)
    requires j < i < |polls| && polls[j].dump.Some? && polls[i].dump.Some?
    requires forall k :: j < k < i ==> polls[k].dump.None?
    ensures var dump := polls[i].dump.value;
      if Orphaned(dump, polls[j].head, polls[i].head)
      then Log(polls[..i + 1]) == [RecordOf(dump, polls[j].head, polls[i])] + Log(polls[..i])
      else Log(polls[..i + 1]) == Log(polls[..i])
  {
    assert polls[..i + 1][..i] == polls[..i];
    LastHeadMeans(polls[..i], j);
  }

  /** A poll without a dump, or with none before it, adds nothing. */
  lemma {:induction false} NothingAdded(polls: seq<Poll>, i: nat)
    requires i < |polls|
    requires polls[i].dump.None? || forall k :: 0 <= k < i ==> polls[k].dump.None?
    ensures Log(polls[..i + 1]) == Log(polls[..i])
  {
    assert polls[..i + 1][..i] == polls[..i];
    if polls[i].dump.Some? { NoDumpNoHead(polls[..i]); }
  }

  lemma {:induction false} NoDumpNoHead(polls: seq<Poll>)
    requires forall k :: 0 <= k < |polls| ==> polls[k].dump.None?
    ensures LastHead(polls) == None
  {
    if polls != [] { NoDumpNoHead(polls[..|polls| - 1]); }
  }

  ghost function Newest(log: seq<Reorg>): seq<Reorg> { log[..Least(KEPT, |log|)] }

  class Poller {
    var prevHead: Option<Root>
    var reorgs: seq<Reorg>
    ghost var history: seq<Poll>

    ghost predicate Valid()
      reads this
    {
      prevHead == LastHead(history) && reorgs == Newest(Log(history))
    }

    constructor ()
      ensures Valid() && history == []
    {
      prevHead, reorgs, history := None, [], [];
    }

    /** `_fork_choice`: the walk, then the reorganisation check. */
    method ForkChoice(poll: Poll) returns (canonical: seq<Root>)
      requires Valid()
      modifies this
      ensures Valid() && history == old(history) + [poll]
      ensures poll.dump.Some? ==> ParentPath(poll.dump.value, poll.head, canonical) && Distinct(canonical)
      ensures poll.dump.Some? ==> (set r | r in canonical) == Ancestry(poll.dump.value, poll.head)
    {
      assert (history + [poll])[..|history|] == history;
      canonical := [];
      if poll.dump.Some? {
        var seen;
        canonical, seen := CanonicalWalk(poll.dump.value, poll.head);
        DetectReorg(poll, seen);
      }
      history := history + [poll];
    }

    /** `_detect_reorg`. */
    method DetectReorg(poll: Poll, canonical: set<Root>)
      requires Valid() && poll.dump.Some? && canonical == Ancestry(poll.dump.value, poll.head)
      modifies `prevHead, `reorgs
      ensures prevHead == poll.head
      ensures reorgs == Newest(Log(history + [poll]))
    {
      assert (history + [poll])[..|history|] == history;
      var prev, dump := prevHead, poll.dump.value;
      prevHead := poll.head;
      if prev.None? || prev == poll.head || prev.value in canonical {
        if Inside(dump, prev) { SelfInAncestry(dump, prev.value); }
        return;
      }
      if prev.value !in dump {
        return;
      }
      var depth, topSlot := MeasureReorg(dump, canonical, prev.value);
      reorgs := [Reorg(poll.time, depth, prev.value, poll.head, topSlot)] + reorgs;
      if |reorgs| > KEPT { reorgs := reorgs[..KEPT]; }
    }
  }

  lemma SelfInAncestry(dump: Dump, r: Root)
    requires r in dump
    ensures r in Ancestry(dump, Some(r))
  {
    assert Step(dump, Some(r), 0) == Some(r);
  }
}
