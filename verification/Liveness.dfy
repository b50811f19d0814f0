/**
  `validator_liveness` of `crates/pharos-api/src/state.rs`: pool attestations stand in by
  their committee index, and states of the epoch or the next one by participation flags.
 */
module Liveness {
  import opened Types
  import opened Codec

  datatype PoolVote = PoolVote(targetEpoch: nat, committee: nat)
  datatype Participation = Participation(epoch: nat, current: seq<Byte>, previous: seq<Byte>)

  function NextEpoch(epoch: nat): nat { if epoch < U64_MAX then epoch + 1 else U64_MAX }

  predicate Flagged(flags: seq<Byte>, index: nat) { index < |flags| && flags[index] != 0 }

  predicate LiveInState(state: Participation, epoch: nat, index: nat) {
    || (state.epoch == epoch && Flagged(state.current, index))
    || (state.epoch == NextEpoch(epoch) && Flagged(state.previous, index))
  }

  ghost predicate LiveInStates(states: seq<Participation>, epoch: nat, index: nat) {
    exists s :: s in states && LiveInState(s, epoch, index)
  }

  ghost predicate Live(pool: seq<PoolVote>, states: seq<Participation>, epoch: nat, index: nat) {
    PoolVote(epoch, index) in pool || LiveInStates(states, epoch, index)
  }

  method MarkFlags(flags: seq<Byte>, before: set<nat>) returns (live: set<nat>)
    ensures forall i: nat :: i in live <==> i in before || Flagged(flags, i)
  {
    live := before;
    for vi := 0 to |flags|
      invariant forall i: nat :: i in live <==> i in before || (i < vi && Flagged(flags, i))
    {
      if flags[vi] != 0 { live := live + {vi}; }
    }
  }

  lemma OneMoreState(states: seq<Participation>, s: Participation, epoch: nat, index: nat)
    ensures LiveInStates(states + [s], epoch, index)
       <==> LiveInStates(states, epoch, index) || LiveInState(s, epoch, index)
  {
    if t :| t in states && LiveInState(t, epoch, index) { assert t in states + [s]; }
    assert s in states + [s];
  }

  method MarkStates(states: seq<Participation>, epoch: nat, before: set<nat>) returns (live: set<nat>)
    ensures forall i: nat :: i in live <==> i in before || LiveInStates(states, epoch, i)
  {
    live := before;
    for k := 0 to |states|
      invariant forall i: nat :: i in live <==> i in before || LiveInStates(states[..k], epoch, i)
    {
      if states[k].epoch == epoch { live := MarkFlags(states[k].current, live); }
      if states[k].epoch == NextEpoch(epoch) { live := MarkFlags(states[k].previous, live); }
      forall i: nat ensures LiveInStates(states[..k + 1], epoch, i)
                       <==> LiveInStates(states[..k], epoch, i) || LiveInState(states[k], epoch, i) {
        OneMoreState(states[..k], states[k], epoch, i);
        assert states[..k + 1] == states[..k] + [states[k]];
      }
    }
    assert states[..|states|] == states;
  }

  /** One answer per request, in order; an index is live exactly when a vote or a flag says so. */
  method ValidatorLiveness(pool: seq<PoolVote>, states: seq<Participation>, epoch: nat, indices: seq<nat>)
    returns (r: seq<(nat, bool)>)
    ensures |r| == |indices|
    ensures forall i :: 0 <= i < |indices| ==>
              r[i].0 == indices[i] && (r[i].1 <==> Live(pool, states, epoch, indices[i]))
  {
    var live: set<nat> := {};
    for k := 0 to |pool|
      invariant forall i: nat :: i in live <==> PoolVote(epoch, i) in pool[..k]
    {
      if pool[k].targetEpoch == epoch { live := live + {pool[k].committee}; }
    }
    live := MarkStates(states, epoch, live);
    r := seq(|indices|, i requires 0 <= i < |indices| => (indices[i], indices[i] in live));
  }

  /** More votes and more states, in any order, never make a live index not live. */
  lemma LivenessGrows(pool: seq<PoolVote>, more: seq<PoolVote>, states: seq<Participation>,
                      further: seq<Participation>, epoch: nat, index: nat)
    requires (forall v :: v in pool ==> v in more) && (forall s :: s in states ==> s in further)
    requires Live(pool, states, epoch, index)
    ensures Live(more, further, epoch, index)
  {
  }

  /** The iteration order of the states does not matter. */
  lemma LivenessIgnoresOrder(pool: seq<PoolVote>, states: seq<Participation>, shuffled: seq<Participation>,
                             epoch: nat, index: nat)
    requires multiset(states) == multiset(shuffled)
    ensures Live(pool, states, epoch, index) <==> Live(pool, shuffled, epoch, index)
  {
    forall s ensures s in states <==> s in shuffled {
      assert s in states <==> s in multiset(states);
    }
  }

  // ── the promise about pool votes ────────────────────────────────────────────

  ghost predicate VotedFor(pool: seq<PoolVote>, epoch: nat) {
    exists v :: v in pool && v.targetEpoch == epoch
  }

  /** The documented promise: a pool vote for the epoch makes every requested index live. */
  ghost predicate PoolPromise(pool: seq<PoolVote>, states: seq<Participation>, epoch: nat, indices: seq<nat>) {
    VotedFor(pool, epoch) ==> forall i :: i in indices ==> Live(pool, states, epoch, i)
  }

  /**
    For one request the promise is kept exactly when no vote targets the epoch, or each index
    is itself the committee index of such a vote or flagged in a state.
   */
  lemma PoolPromiseIff(pool: seq<PoolVote>, states: seq<Participation>, epoch: nat, indices: seq<nat>)
    ensures PoolPromise(pool, states, epoch, indices)
       <==> (|| (forall v :: v in pool ==> v.targetEpoch != epoch)
             || (forall i :: i in indices ==> PoolVote(epoch, i) in pool || LiveInStates(states, epoch, i)))
  {
    if v :| v in pool && v.targetEpoch == epoch { assert VotedFor(pool, epoch); }
  }

  /** Above every committee index in the pool and every participation list. */
  function Bound(pool: seq<PoolVote>, states: seq<Participation>): nat {
    if pool != [] then
      var b := Bound(pool[1..], states); if pool[0].committee < b then b else pool[0].committee + 1
    else if states != [] then
      var b := Bound(pool, states[1..]);
      var n := if |states[0].current| < |states[0].previous| then |states[0].previous| else |states[0].current|;
      if n < b then b else n
    else 0
  }

  lemma {:induction false} BoundIsNotLive(pool: seq<PoolVote>, states: seq<Participation>, epoch: nat, index: nat)
    requires Bound(pool, states) <= index
    ensures !Live(pool, states, epoch, index)
    decreases |pool| + |states|
  {
    if pool != [] {
      BoundIsNotLive(pool[1..], states, epoch, index);
      assert pool == [pool[0]] + pool[1..];
    } else if states != [] {
      BoundIsNotLive(pool, states[1..], epoch, index);
      assert states == [states[0]] + states[1..];
    }
  }

  /** Over all requests it is kept exactly when no vote targets the epoch: some index is never live. */
  lemma PoolPromiseForAllIff(pool: seq<PoolVote>, states: seq<Participation>, epoch: nat)
    ensures (forall indices :: PoolPromise(pool, states, epoch, indices)) <==> !VotedFor(pool, epoch)
  {
    if VotedFor(pool, epoch) {
      var index := Bound(pool, states);
      BoundIsNotLive(pool, states, epoch, index);
      assert index in [index];
      assert !PoolPromise(pool, states, epoch, [index]);
    }
  }

  /** One vote of committee 0 leaves index 1 not live. */
  lemma PoolVoteIsNotEnough(epoch: nat)
    ensures VotedFor([PoolVote(epoch, 0)], epoch) && !PoolPromise([PoolVote(epoch, 0)], [], epoch, [1])
  {
    assert PoolVote(epoch, 0) in [PoolVote(epoch, 0)];
    assert 1 in [1] && !Live([PoolVote(epoch, 0)], [], epoch, 1);
  }
}
