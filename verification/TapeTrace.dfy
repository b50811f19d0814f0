/**
  Laws of the fast-confirmation drivers at every point of every run, for the drivers that
  decode attestations at reading and for those that decode at release: what has been
  read, applied, held back and confirmed (`crates/pharos-conformance/src/fork_choice.rs`).
 */
module TapeTrace {
  import opened Types
  import opened Tape

  function TakenBy(e: Event): seq<Held> { if e.Took? then [Held(e.name, e.valid)] else [] }

  function Taken(trace: seq<Event>): seq<Held> {
    if trace == [] then [] else Taken(trace[..|trace| - 1]) + TakenBy(trace[|trace| - 1])
  }

  lemma TakenOneMore(trace: seq<Event>, e: Event)
    ensures Taken(trace + [e]) == Taken(trace) + TakenBy(e)
  {
    assert (trace + [e])[..|trace|] == trace;
  }

  lemma {:induction false} TakenAfterTaking<S, F>(m: Machine<S, F>, s: S, trace: seq<Event>, ws: seq<Waiting>)
    ensures Taken(trace + Taking(m, s, ws)) == Taken(trace) + Names(ws)
    decreases |ws|
  {
    if ws == [] {
      assert trace + Taking(m, s, ws) == trace;
    } else {
      var first, next := Took(ws[0].name, ws[0].valid, ws[0].readAt, m.slot(s)), Kept(s, m.attest(s, ws[0].name));
      TakenAfterTaking(m, next, trace + [first], ws[1..]);
      TakenOneMore(trace, first);
      Associates(trace, [first], Taking(m, next, ws[1..]));
      Associates(Taken(trace), TakenBy(first), Names(ws[1..]));
      assert Names(ws) == TakenBy(first) + Names(ws[1..]);
    }
  }

  /** A run that has not failed has reached every earlier point. */
  lemma {:induction false} TurnsSplit<S, F>(m: Machine<S, F>, eager: bool, p: Point<S, F>, a: seq<Step>, b: seq<Step>)
    ensures Turns(m, eager, p, a + b)
         == var mid := Turns(m, eager, p, a); if mid.None? then None else Turns(m, eager, mid.value, b)
    decreases |a|
  {
    if a == [] {
      assert a + b == b;
    } else {
      assert (a + b)[1..] == a[1..] + b;
      var next := Turn(m, eager, p, a[0]);
      if next.Some? { TurnsSplit(m, eager, next.value, a[1..], b); }
    }
  }

  function ReadBy(step: Step): seq<Held> { if step.Attestation? then [Held(step.name, step.valid)] else [] }

  lemma TurnConserves<S, F>(m: Machine<S, F>, eager: bool, p: Point<S, F>, step: Step)
    requires Turn(m, eager, p, step).Some?
    ensures var q := Turn(m, eager, p, step).value;
            Taken(q.trace) + Names(q.pending) == Taken(p.trace) + Names(p.pending) + ReadBy(step)
  {
    if step.Attestation? {
      NamesOneMore(p.pending, Waiting(step.name, step.valid, m.slot(p.store)));
      Associates(Taken(p.trace), Names(p.pending), ReadBy(step));
    } else if step.Tick? {
      TickConserves(m, p, step.time);
    }
  }

  lemma TickConserves<S, F>(m: Machine<S, F>, p: Point<S, F>, time: nat)
    requires TickTurn(m, p, time).Some?
    ensures var q := TickTurn(m, p, time).value;
            Taken(q.trace) + Names(q.pending) == Taken(p.trace) + Names(p.pending)
  {
    var t := m.tick(p.store, time);
    if m.slot(t) > m.slot(p.store) {
      ReleaseTaken(m, t, p.trace, p.pending, Confirmed(m.slot(TickTurn(m, p, time).value.store)));
      assert Names([]) == [];
    }
  }

  lemma ReleaseTaken<S, F>(m: Machine<S, F>, s: S, trace: seq<Event>, ws: seq<Waiting>, e: Event)
    requires e.Confirmed?
    ensures Taken(trace + Taking(m, s, ws) + [e]) == Taken(trace) + Names(ws)
  {
    TakenAfterTaking(m, s, trace, ws);
    TakenOneMore(trace + Taking(m, s, ws), e);
  }

  /** At every point, for both kinds of driver: read so far is applied so far followed by the buffer. */
  lemma {:induction false} DriverConserves<S, F>(m: Machine<S, F>, eager: bool, p: Point<S, F>, steps: seq<Step>)
    requires Turns(m, eager, p, steps).Some?
    ensures var q := Turns(m, eager, p, steps).value;
            Taken(p.trace) + Names(p.pending) + Read(steps) == Taken(q.trace) + Names(q.pending)
    decreases |steps|
  {
    var before := Taken(p.trace) + Names(p.pending);
    if steps == [] {
      assert before + [] == before;
    } else {
      var next := Turn(m, eager, p, steps[0]).value;
      TurnConserves(m, eager, p, steps[0]);
      DriverConserves(m, eager, next, steps[1..]);
      assert Read(steps) == ReadBy(steps[0]) + Read(steps[1..]);
      Associates(before, ReadBy(steps[0]), Read(steps[1..]));
    }
  }

  /** Everything read has been applied, nothing is held, and the last thing done was to confirm. */
  ghost predicate AllTaken<S, F>(m: Machine<S, F>, p: Point<S, F>, read: seq<Held>) {
    && p.pending == [] && Taken(p.trace) == read
    && p.trace != [] && p.trace[|p.trace| - 1] == Confirmed(m.slot(p.store))
  }

  lemma TickTakesAll<S, F>(m: Machine<S, F>, p: Point<S, F>, read: seq<Held>, time: nat)
    requires TickTurn(m, p, time).Some? && m.slot(m.tick(p.store, time)) > m.slot(p.store)
    requires read == Taken(p.trace) + Names(p.pending)
    ensures AllTaken(m, TickTurn(m, p, time).value, read)
  {
    assert Names([]) == [];
    TickConserves(m, p, time);
  }

  /** From every point of every run, a tick into a new slot applies all that was read before it confirms. */
  lemma ConfirmedAfterAll<S, F>(m: Machine<S, F>, eager: bool, s: S, f: F, steps: seq<Step>)
    requires Turns(m, eager, Point(s, f, [], []), steps).Some?
    ensures var p := Turns(m, eager, Point(s, f, [], []), steps).value;
            forall time: nat :: TickTurn(m, p, time).Some? && m.slot(m.tick(p.store, time)) > m.slot(p.store) ==>
              AllTaken(m, TickTurn(m, p, time).value, Read(steps))
  {
    var start, p := Point(s, f, [], []), Turns(m, eager, Point(s, f, [], []), steps).value;
    DriverConserves(m, eager, start, steps);
    assert Taken(start.trace) + Names(start.pending) + Read(steps) == Read(steps);
    forall time: nat | TickTurn(m, p, time).Some? && m.slot(m.tick(p.store, time)) > m.slot(p.store)
      ensures AllTaken(m, TickTurn(m, p, time).value, Read(steps))
    {
      TickTakesAll(m, p, Read(steps), time);
    }
  }

  /** The events a schedule stands for. */
  function EventOf(it: Item): seq<Event> {
    match it
    case Do(_) => []
    case Apply(name, valid, readAt, appliedAt) => [Took(name, valid, readAt, appliedAt)]
    case Confirm(at) => [Confirmed(at)]
  }

  function Events(items: seq<Item>): seq<Event> {
    if items == [] then [] else EventOf(items[0]) + Events(items[1..])
  }

  lemma EventsFirst(it: Item, tail: seq<Item>)
    ensures Events([it] + tail) == EventOf(it) + Events(tail)
  {
    assert ([it] + tail)[1..] == tail;
  }

  lemma AdvanceUnfolds(tick: Step, ws: seq<Waiting>, at: nat, tail: seq<Item>)
    ensures Advance(tick, ws, at) + tail == [Do(tick)] + (Released(ws, at) + ([Confirm(at)] + tail))
  {
  }

  function Tooks(ws: seq<Waiting>, at: nat): seq<Event> {
    seq(|ws|, i requires 0 <= i < |ws| => Took(ws[i].name, ws[i].valid, ws[i].readAt, at))
  }

  /** With a clock that only ticks move, a buffer is released within one slot. */
  lemma {:induction false} TakingInOneSlot<S(!new), F>(m: Machine<S, F>, inv: S -> bool, s: S, ws: seq<Waiting>)
    requires Clocked(m, inv) && inv(s) && Drain(m, s, Names(ws)).Some?
    ensures Taking(m, s, ws) == Tooks(ws, m.slot(s))
    ensures SameClock(m, inv, s, Drain(m, s, Names(ws)).value)
    decreases |ws|
  {
    if ws != [] {
      assert Names(ws)[1..] == Names(ws[1..]);
      TakingInOneSlot(m, inv, m.attest(s, ws[0].name).value.0, ws[1..]);
    }
  }

  lemma EventsOfAdvance(tick: Step, ws: seq<Waiting>, at: nat, tail: seq<Item>)
    ensures Events(Advance(tick, ws, at) + tail) == Tooks(ws, at) + [Confirmed(at)] + Events(tail)
  {
    AdvanceUnfolds(tick, ws, at, tail);
    EventsFirst(Do(tick), Released(ws, at) + ([Confirm(at)] + tail));
    EventsOfReleased(ws, at, [Confirm(at)] + tail);
    EventsFirst(Confirm(at), tail);
    Associates(Tooks(ws, at), [Confirmed(at)], Events(tail));
  }

  lemma {:induction false} EventsOfReleased(ws: seq<Waiting>, at: nat, tail: seq<Item>)
    ensures Events(Released(ws, at) + tail) == Tooks(ws, at) + Events(tail)
    decreases |ws|
  {
    if ws == [] {
      assert Released(ws, at) + tail == tail;
    } else {
      var first := Apply(ws[0].name, ws[0].valid, ws[0].readAt, at);
      EventsOfReleased(ws[1..], at, tail);
      assert Released(ws, at) + tail == [first] + (Released(ws[1..], at) + tail);
      EventsFirst(first, Released(ws[1..], at) + tail);
      assert Tooks(ws, at) == EventOf(first) + Tooks(ws[1..], at);
      Associates(EventOf(first), Tooks(ws[1..], at), Events(tail));
    }
  }

  /** From `p` to `q` the driver made the events of `items` and was left with `ws` in its buffer. */
  ghost predicate Follows<S, F>(p: Point<S, F>, q: Point<S, F>, items: seq<Item>, ws: seq<Waiting>) {
    q.trace == p.trace + Events(items) && q.pending == ws
  }

  lemma FollowsDoing<S, F>(p: Point<S, F>, next: Point<S, F>, q: Point<S, F>, step: Step, items: seq<Item>,
                           ws: seq<Waiting>)
    requires Follows(next, q, items, ws) && next.trace == p.trace
    ensures Follows(p, q, [Do(step)] + items, ws)
  {
    EventsFirst(Do(step), items);
  }

  lemma FollowsAdvance<S, F>(p: Point<S, F>, next: Point<S, F>, q: Point<S, F>, tick: Step, held: seq<Waiting>, at: nat,
                             items: seq<Item>, ws: seq<Waiting>)
    requires Follows(next, q, items, ws)
    requires next.trace == p.trace + Tooks(held, at) + [Confirmed(at)]
    ensures Follows(p, q, Advance(tick, held, at) + items, ws)
  {
    EventsOfAdvance(tick, held, at, items);
    Regroup(p.trace, Tooks(held, at), [Confirmed(at)], Events(items));
  }

  lemma Regroup<T>(a: seq<T>, b: seq<T>, c: seq<T>, d: seq<T>)
    ensures (a + b + c) + d == a + (b + c + d)
  {
  }

  /**
    At every point the driver has done what the rewrite of the steps so far says, and its
    buffer holds what the rewrite still holds back.
   */
  lemma {:induction false} TraceIsSchedule<S(!new), F>(m: Machine<S, F>, inv: S -> bool, eager: bool, p: Point<S, F>,
                                                       steps: seq<Step>)
    requires Clocked(m, inv) && inv(p.store) && Turns(m, eager, p, steps).Some?
    ensures Follows(p, Turns(m, eager, p, steps).value, Schedule(m, m.slot(p.store), p.pending, steps),
                    StillHeld(m, m.slot(p.store), p.pending, steps))
    decreases |steps|
  {
    if steps == [] {
      assert p.trace + [] == p.trace;
    } else {
      var rest, slot, next := steps[1..], m.slot(p.store), Turn(m, eager, p, steps[0]).value;
      var end := Turns(m, eager, p, steps).value;
      if steps[0].Tick? {
        TickFollows(m, inv, eager, p, steps);
      } else {
        TraceIsSchedule(m, inv, eager, next, rest);
        if !steps[0].Attestation? {
          FollowsDoing(p, next, end, steps[0], Schedule(m, slot, p.pending, rest), StillHeld(m, slot, p.pending, rest));
        }
      }
    }
  }

  lemma {:induction false} TickFollows<S(!new), F>(m: Machine<S, F>, inv: S -> bool, eager: bool, p: Point<S, F>,
                                                   steps: seq<Step>)
    requires Clocked(m, inv) && inv(p.store) && Turns(m, eager, p, steps).Some?
    requires steps != [] && steps[0].Tick?
    ensures Follows(p, Turns(m, eager, p, steps).value, Schedule(m, m.slot(p.store), p.pending, steps),
                    StillHeld(m, m.slot(p.store), p.pending, steps))
    decreases |steps|, 0
  {
    var rest, next, end := steps[1..], Turn(m, eager, p, steps[0]).value, Turns(m, eager, p, steps).value;
    var t := m.tick(p.store, steps[0].time);
    var at := m.slot(t);
    if at <= m.slot(p.store) {
      TraceIsSchedule(m, inv, eager, next, rest);
      FollowsDoing(p, next, end, steps[0], Schedule(m, at, p.pending, rest), StillHeld(m, at, p.pending, rest));
    } else {
      TakingInOneSlot(m, inv, t, p.pending);
      TraceIsSchedule(m, inv, eager, next, rest);
      FollowsAdvance(p, next, end, steps[0], p.pending, at, Schedule(m, at, [], rest), StillHeld(m, at, [], rest));
    }
  }

  function ConfirmedSlots(trace: seq<Event>): seq<nat> {
    if trace == [] then []
    else (if trace[0].Confirmed? then [trace[0].at] else []) + ConfirmedSlots(trace[1..])
  }

  function ConfirmedBy(e: Event): seq<nat> { if e.Confirmed? then [e.at] else [] }

  lemma ConfirmedSlotsFirst(e: Event, tail: seq<Event>)
    ensures ConfirmedSlots([e] + tail) == ConfirmedBy(e) + ConfirmedSlots(tail)
  {
    assert ([e] + tail)[1..] == tail;
  }

  lemma {:induction false} ConfirmedSlotsOfEvents(items: seq<Item>)
    ensures ConfirmedSlots(Events(items)) == Confirmations(items)
  {
    if items != [] {
      ConfirmedSlotsOfEvents(items[1..]);
      if items[0].Do? {
        assert Events(items) == Events(items[1..]) && Confirmations(items) == Confirmations(items[1..]);
      } else {
        ConfirmedSlotsFirst(EventOf(items[0])[0], Events(items[1..]));
      }
    }
  }

  /** At every point of every run the driver has confirmed once in each slot it entered, in order. */
  lemma DriverConfirmsOncePerSlot<S(!new), F>(m: Machine<S, F>, inv: S -> bool, eager: bool, s: S, f: F,
                                              steps: seq<Step>)
    requires Clocked(m, inv) && inv(s) && Turns(m, eager, Point(s, f, [], []), steps).Some?
    ensures ConfirmedSlots(Turns(m, eager, Point(s, f, [], []), steps).value.trace) == Entered(m, m.slot(s), steps)
  {
    var start := Point(s, f, [], []);
    TraceIsSchedule(m, inv, eager, start, steps);
    var items := Schedule(m, m.slot(s), [], steps);
    assert [] + Events(items) == Events(items);
    ConfirmedSlotsOfEvents(items);
    ConfirmsOncePerSlot(m, m.slot(s), [], steps);
  }

  lemma {:induction false} TookWasApply(items: seq<Item>, e: Event)
    requires e in Events(items) && e.Took?
    ensures Apply(e.name, e.valid, e.readAt, e.at) in items
  {
    if e !in EventOf(items[0]) { TookWasApply(items[1..], e); }
  }

  /**
    On a tape whose ticks do not go back, at every point of every run: each attestation was
    taken when the driver's store stood in a later slot than when the driver read it.
   */
  lemma DriverDelays<S(!new), F>(m: Machine<S, F>, inv: S -> bool, eager: bool, s: S, f: F, steps: seq<Step>)
    requires Clocked(m, inv) && inv(s) && Turns(m, eager, Point(s, f, [], []), steps).Some?
    requires TicksForward(m, m.slot(s), steps)
    ensures forall e :: e in Turns(m, eager, Point(s, f, [], []), steps).value.trace && e.Took? ==> e.readAt < e.at
  {
    var start, items := Point(s, f, [], []), Schedule(m, m.slot(s), [], steps);
    TraceIsSchedule(m, inv, eager, start, steps);
    AppliedInLaterSlot(m, m.slot(s), [], steps);
    assert [] + Events(items) == Events(items);
    forall e | e in Events(items) && e.Took? ensures e.readAt < e.at { TookWasApply(items, e); }
  }

  /** What holds at a point `p` that a run has reached from slot `slot` by `steps`. */
  ghost predicate InOrder<S, F>(m: Machine<S, F>, slot: nat, steps: seq<Step>, p: Point<S, F>) {
    && Read(steps) == Taken(p.trace) + Names(p.pending)
    && ConfirmedSlots(p.trace) == Entered(m, slot, steps)
    && forall time: nat :: TickTurn(m, p, time).Some? && m.slot(m.tick(p.store, time)) > m.slot(p.store) ==>
         AllTaken(m, TickTurn(m, p, time).value, Read(steps))
  }

  lemma EveryPointInOrder<S(!new), F>(m: Machine<S, F>, inv: S -> bool, eager: bool, s: S, f: F, steps: seq<Step>)
    requires Clocked(m, inv) && inv(s) && Turns(m, eager, Point(s, f, [], []), steps).Some?
    ensures InOrder(m, m.slot(s), steps, Turns(m, eager, Point(s, f, [], []), steps).value)
  {
    var start := Point(s, f, [], []);
    DriverConserves(m, eager, start, steps);
    assert Taken(start.trace) + Names(start.pending) + Read(steps) == Read(steps);
    DriverConfirmsOncePerSlot(m, inv, eager, s, f, steps);
    ConfirmedAfterAll(m, eager, s, f, steps);
  }

  // ── runs whose clock does not go back ───────────────────────────────────────

  /** Every handler keeps `inv`, ticks as long as they do not go back. */
  ghost predicate KeptForward<S(!new), F>(m: Machine<S, F>, inv: S -> bool) {
    && (forall s, t {:trigger m.tick(s, t)} ::
          inv(s) && m.slot(s) <= m.slotAt(t) ==> inv(m.tick(s, t)) && m.slot(m.tick(s, t)) == m.slotAt(t))
    && (forall s, n {:trigger m.block(s, n)} ::
          inv(s) && m.block(s, n).Some? ==> SameClock(m, inv, s, m.block(s, n).value.0))
    && (forall s, n {:trigger m.attest(s, n)} ::
          inv(s) && m.attest(s, n).Some? ==> SameClock(m, inv, s, m.attest(s, n).value.0))
    && (forall s, n {:trigger m.slash(s, n)} ::
          inv(s) && m.slash(s, n).Some? ==> SameClock(m, inv, s, m.slash(s, n).value.0))
  }

  lemma {:induction false} ForwardPlainRunKeeps<S(!new), F>(m: Machine<S, F>, inv: S -> bool, s: S, steps: seq<Step>)
    requires KeptForward(m, inv) && inv(s) && TicksForward(m, m.slot(s), steps)
    ensures inv(After(m, s, steps))
    decreases |steps|
  {
    if steps != [] { ForwardPlainRunKeeps(m, inv, Effect(m, s, steps[0]), steps[1..]); }
  }

  lemma {:induction false} ForwardDrainKeeps<S(!new), F>(m: Machine<S, F>, inv: S -> bool, s: S, held: seq<Held>)
    requires KeptForward(m, inv) && inv(s) && Drain(m, s, held).Some?
    ensures SameClock(m, inv, s, Drain(m, s, held).value)
    decreases |held|
  {
    if held != [] { ForwardDrainKeeps(m, inv, m.attest(s, held[0].name).value.0, held[1..]); }
  }

  lemma {:induction false} ForwardPointsKeep<S(!new), F>(m: Machine<S, F>, inv: S -> bool, eager: bool, p: Point<S, F>,
                                                         steps: seq<Step>)
    requires KeptForward(m, inv) && inv(p.store) && TicksForward(m, m.slot(p.store), steps)
    requires Turns(m, eager, p, steps).Some?
    ensures inv(Turns(m, eager, p, steps).value.store)
    decreases |steps|
  {
    if steps != [] {
      if steps[0].Tick? {
        var t := m.tick(p.store, steps[0].time);
        if m.slot(t) > m.slot(p.store) { ForwardDrainKeeps(m, inv, t, Names(p.pending)); }
      }
      ForwardPointsKeep(m, inv, eager, Turn(m, eager, p, steps[0]).value, steps[1..]);
    }
  }
}
