/**
  The `steps.yaml` interpreters of `crates/pharos-conformance/src/fork_choice.rs`,
  over any store machine.  The plain driver applies every step at once.  The
  fast-confirmation drivers hold attestations back and release them after the
  next tick that enters a new slot, just before confirming.
 */
module Tape {
  import opened Types

  datatype Verdict = Pass | Skip | Fail

  /** Steps name files; `valid` is the acceptance the fixture expects. */
  datatype Step =
    | Tick(time: nat)
    | Block(name: string, valid: bool)
    | Attestation(name: string, valid: bool)
    | AttesterSlashing(name: string, valid: bool)
    | Checks(id: nat)
    | PowBlock(name: string)
    | Unknown(key: string)

  /**
    What a driver works on.  `S` is the fork-choice store, `F` the confirmation store.
    Handlers answer `None` when the named file does not decode, else the new store and acceptance.
   */
  datatype Machine<!S, !F> = Machine(
    slot: S -> nat,
    slotAt: nat -> nat,
    tick: (S, nat) -> S,
    block: (S, string) -> Option<(S, bool)>,
    attest: (S, string) -> Option<(S, bool)>,
    slash: (S, string) -> Option<(S, bool)>,
    decodes: string -> bool,
    confirm: (S, F) -> F,
    plainChecks: (S, nat) -> bool,
    confirmChecks: (S, F, nat) -> bool)

  // ── the plain driver: run_case ──────────────────────────────────────────────

  /** The store after a step, whatever the fixture expected of it. */
  function Effect<S, F>(m: Machine<S, F>, s: S, step: Step): S {
    match step
    case Tick(time) => m.tick(s, time)
    case Block(name, _) => Kept(s, m.block(s, name))
    case Attestation(name, _) => Kept(s, m.attest(s, name))
    case AttesterSlashing(name, _) => Kept(s, m.slash(s, name))
    case Checks(_) => s
    case PowBlock(_) => s
    case Unknown(_) => s
  }

  function Kept<S>(s: S, r: Option<(S, bool)>): S { if r.Some? then r.value.0 else s }

  predicate Expected<S>(r: Option<(S, bool)>, valid: bool) { r.Some? && r.value.1 == valid }

  /** The step is understood, its file decodes, its acceptance is the expected one and its checks hold. */
  predicate StepHolds<S, F>(m: Machine<S, F>, s: S, step: Step) {
    match step
    case Tick(_) => true
    case Block(name, valid) => Expected(m.block(s, name), valid)
    case Attestation(name, valid) => Expected(m.attest(s, name), valid)
    case AttesterSlashing(name, valid) => Expected(m.slash(s, name), valid)
    case Checks(id) => m.plainChecks(s, id)
    case PowBlock(_) => false
    case Unknown(_) => false
  }

  function After<S, F>(m: Machine<S, F>, s: S, steps: seq<Step>): S
    decreases |steps|
  {
    if steps == [] then s else After(m, Effect(m, s, steps[0]), steps[1..])
  }

  /** Step `k` holds in the store that the steps before it lead to. */
  ghost predicate HoldsAt<S, F>(m: Machine<S, F>, s: S, steps: seq<Step>, k: nat)
    requires k < |steps|
  {
    StepHolds(m, After(m, s, steps[..k]), steps[k])
  }

  ghost predicate FirstBroken<S, F>(m: Machine<S, F>, s: S, steps: seq<Step>, k: nat) {
    k < |steps| && !HoldsAt(m, s, steps, k) && forall j: nat :: j < k ==> HoldsAt(m, s, steps, j)
  }

  predicate NotForThisDriver(step: Step) { step.PowBlock? || step.Unknown? }

  function RunPlain<S, F>(m: Machine<S, F>, s: S, steps: seq<Step>): (Verdict, S)
    decreases |steps|
  {
    if steps == [] then (Pass, s)
    else if StepHolds(m, s, steps[0]) then RunPlain(m, Effect(m, s, steps[0]), steps[1..])
    else (if NotForThisDriver(steps[0]) then Skip else Fail, s)
  }

  /** `run_case` after the anchor has loaded. */
  method RunCase<S, F>(m: Machine<S, F>, s0: S, steps: seq<Step>) returns (verdict: Verdict, store: S)
    ensures (verdict, store) == RunPlain(m, s0, steps)
  {
    store := s0;
    for i := 0 to |steps|
      invariant RunPlain(m, store, steps[i..]) == RunPlain(m, s0, steps)
    {
      assert steps[i..][1..] == steps[i+1..];
      match steps[i] {
        case Tick(time) => store := m.tick(store, time);
        case Block(name, valid) =>
          var r := m.block(store, name);
          if r.None? || r.value.1 != valid { return Fail, store; }
          store := r.value.0;
        case Attestation(name, valid) =>
          var r := m.attest(store, name);
          if r.None? || r.value.1 != valid { return Fail, store; }
          store := r.value.0;
        case AttesterSlashing(name, valid) =>
          var r := m.slash(store, name);
          if r.None? || r.value.1 != valid { return Fail, store; }
          store := r.value.0;
        case Checks(id) =>
          if !m.plainChecks(store, id) { return Fail, store; }
        case PowBlock(_) => return Skip, store;
        case Unknown(_) => return Skip, store;
      }
    }
    verdict := Pass;
  }

  lemma HoldsAtShifts<S, F>(m: Machine<S, F>, s: S, steps: seq<Step>, k: nat)
    requires steps != [] && 0 < k < |steps|
    ensures HoldsAt(m, s, steps, k) <==> HoldsAt(m, Effect(m, s, steps[0]), steps[1..], k - 1)
  {
    assert steps[..k][1..] == steps[1..][..k-1];
  }

  /**
    The verdict of a case: `Pass` exactly when every step holds in the store reached at that
    point; otherwise the first step that does not decides between `Skip` and `Fail`.
   */
  lemma {:induction false} VerdictMeans<S, F>(m: Machine<S, F>, s: S, steps: seq<Step>)
    ensures RunPlain(m, s, steps).0 == Pass <==> forall k: nat :: k < |steps| ==> HoldsAt(m, s, steps, k)
    ensures RunPlain(m, s, steps).0 == Pass ==> RunPlain(m, s, steps).1 == After(m, s, steps)
    ensures forall k: nat :: FirstBroken(m, s, steps, k) ==>
              RunPlain(m, s, steps) == (if NotForThisDriver(steps[k]) then Skip else Fail, After(m, s, steps[..k]))
    decreases |steps|
  {
    if steps != [] {
      var next, rest := Effect(m, s, steps[0]), steps[1..];
      assert HoldsAt(m, s, steps, 0) <==> StepHolds(m, s, steps[0]);
      VerdictMeans(m, next, rest);
      forall k: nat | 0 < k < |steps| { HoldsAtShifts(m, s, steps, k); }
      forall k: nat | k < |rest| ensures HoldsAt(m, next, rest, k) <==> HoldsAt(m, s, steps, k + 1) {
        HoldsAtShifts(m, s, steps, k + 1);
      }
      forall k: nat | FirstBroken(m, s, steps, k)
        ensures RunPlain(m, s, steps) == (if NotForThisDriver(steps[k]) then Skip else Fail, After(m, s, steps[..k]))
      {
        if k > 0 {
          assert HoldsAt(m, s, steps, 0);
          assert FirstBroken(m, next, rest, k - 1);
          assert steps[..k][1..] == rest[..k-1];
        }
      }
    }
  }

  /** The handler's answer to `step` in `s` is what the fixture expects, and leads to `t`. */
  ghost predicate LeadsTo<S, F>(m: Machine<S, F>, s: S, step: Step, t: S) {
    match step
    case Tick(time) => t == m.tick(s, time)
    case Block(name, valid) => m.block(s, name) == Some((t, valid))
    case Attestation(name, valid) => m.attest(s, name) == Some((t, valid))
    case AttesterSlashing(name, valid) => m.slash(s, name) == Some((t, valid))
    case Checks(id) => t == s && m.plainChecks(s, id)
    case PowBlock(_) => false
    case Unknown(_) => false
  }

  /** Stores before, between and after the steps of a case. */
  ghost predicate Trail<S, F>(m: Machine<S, F>, stores: seq<S>, steps: seq<Step>) {
    |stores| == |steps| + 1
    && forall k :: 0 <= k < |steps| ==> LeadsTo(m, stores[k], steps[k], stores[k + 1])
  }

  ghost predicate TrailFromTo<S, F>(m: Machine<S, F>, stores: seq<S>, steps: seq<Step>, s: S, t: S) {
    Trail(m, stores, steps) && stores[0] == s && stores[|steps|] == t
  }

  lemma TrailExtends<S, F>(m: Machine<S, F>, stores: seq<S>, steps: seq<Step>, s: S)
    requires steps != [] && stores != [] && Trail(m, stores, steps[1..]) && LeadsTo(m, s, steps[0], stores[0])
    ensures Trail(m, [s] + stores, steps)
  {
    var all := [s] + stores;
    forall k | 0 <= k < |steps| ensures LeadsTo(m, all[k], steps[k], all[k + 1]) {
      if k > 0 { assert steps[k] == steps[1..][k - 1]; }
    }
  }

  lemma TrailRest<S, F>(m: Machine<S, F>, stores: seq<S>, steps: seq<Step>)
    requires steps != [] && Trail(m, stores, steps)
    ensures LeadsTo(m, stores[0], steps[0], stores[1]) && Trail(m, stores[1..], steps[1..])
  {
    forall k | 0 <= k < |steps| - 1 ensures LeadsTo(m, stores[1..][k], steps[1..][k], stores[1..][k + 1]) {
      assert steps[1..][k] == steps[k + 1];
    }
  }

  lemma {:induction false} PassHasTrail<S, F>(m: Machine<S, F>, s: S, steps: seq<Step>) returns (stores: seq<S>)
    requires RunPlain(m, s, steps).0 == Pass
    ensures TrailFromTo(m, stores, steps, s, RunPlain(m, s, steps).1)
    decreases |steps|
  {
    if steps == [] {
      stores := [s];
    } else {
      var rest := PassHasTrail(m, Effect(m, s, steps[0]), steps[1..]);
      TrailExtends(m, rest, steps, s);
      stores := [s] + rest;
    }
  }

  lemma {:induction false} TrailPasses<S, F>(m: Machine<S, F>, stores: seq<S>, steps: seq<Step>, s: S, t: S)
    requires TrailFromTo(m, stores, steps, s, t)
    ensures RunPlain(m, s, steps) == (Pass, t)
    decreases |steps|
  {
    if steps != [] {
      TrailRest(m, stores, steps);
      TrailPasses(m, stores[1..], steps[1..], stores[1], t);
    }
  }

  /** A case passes, in store `t`, exactly when its handlers answer as expected all the way from `s` to `t`. */
  lemma PassIffTrail<S, F>(m: Machine<S, F>, s: S, steps: seq<Step>, t: S)
    ensures RunPlain(m, s, steps) == (Pass, t) <==> exists stores :: TrailFromTo(m, stores, steps, s, t)
  {
    if RunPlain(m, s, steps) == (Pass, t) {
      var stores := PassHasTrail(m, s, steps);
    }
    forall stores | TrailFromTo(m, stores, steps, s, t) ensures RunPlain(m, s, steps) == (Pass, t) {
      TrailPasses(m, stores, steps, s, t);
    }
  }

  // ── the deferring drivers: run_fcr_case and its siblings ────────────────────

  datatype Held = Held(name: string, valid: bool)

  datatype Outcome<S, F> = Passed(store: S, confirmation: F) | Failed

  /** Release held attestations in order; none when a file fails to decode or an acceptance surprises. */
  function Drain<S, F>(m: Machine<S, F>, s: S, held: seq<Held>): Option<S> {
    if held == [] then Some(s)
    else
      var r := m.attest(s, held[0].name);
      if Expected(r, held[0].valid) then Drain(m, r.value.0, held[1..]) else None
  }

  /**
    The fast-confirmation run.  The altair, bellatrix and capella-like drivers decode an
    attestation when they read it (`eager`); the electra-like one when it releases it.
   */
  function RunDeferred<S, F>(m: Machine<S, F>, eager: bool, s: S, f: F, held: seq<Held>,
                             steps: seq<Step>): Outcome<S, F>
    decreases |steps|
  {
    if steps == [] then Passed(s, f) else
      var rest := steps[1..];
      match steps[0]
      case Tick(time) =>
        var t := m.tick(s, time);
        if m.slot(t) <= m.slot(s) then RunDeferred(m, eager, t, f, held, rest)
        else
          var drained := Drain(m, t, held);
          if drained.None? then Failed
          else RunDeferred(m, eager, drained.value, m.confirm(drained.value, f), [], rest)
      case Attestation(name, valid) =>
        if eager && !m.decodes(name) then Failed else RunDeferred(m, eager, s, f, held + [Held(name, valid)], rest)
      case Block(name, valid) =>
        var r := m.block(s, name);
        if Expected(r, valid) then RunDeferred(m, eager, r.value.0, f, held, rest) else Failed
      case AttesterSlashing(name, valid) =>
        var r := m.slash(s, name);
        if Expected(r, valid) then RunDeferred(m, eager, r.value.0, f, held, rest) else Failed
      case Checks(id) => if m.confirmChecks(s, f, id) then RunDeferred(m, eager, s, f, held, rest) else Failed
      case PowBlock(_) => Failed
      case Unknown(_) => Failed
  }

  /** A held attestation and the slot of the store it was read at. */
  datatype Waiting = Waiting(name: string, valid: bool, readAt: nat)

  function Names(ws: seq<Waiting>): seq<Held> { seq(|ws|, i requires 0 <= i < |ws| => Held(ws[i].name, ws[i].valid)) }

  /** What a driver does with attestations and confirmations, with the slots of its store at reading and at doing it. */
  datatype Event =
    | Took(name: string, valid: bool, readAt: nat, at: nat)
    | Confirmed(at: nat)

  /** A point of a run: both stores, the `pending_atts` buffer and the events so far. */
  datatype Point<S, F> = Point(store: S, confirmation: F, pending: seq<Waiting>, trace: seq<Event>)

  /** The events of releasing `ws` in order from the store `s`. */
  function Taking<S, F>(m: Machine<S, F>, s: S, ws: seq<Waiting>): seq<Event>
    decreases |ws|
  {
    if ws == [] then [] else
      [Took(ws[0].name, ws[0].valid, ws[0].readAt, m.slot(s))]
      + Taking(m, Kept(s, m.attest(s, ws[0].name)), ws[1..])
  }

  function TickTurn<S, F>(m: Machine<S, F>, p: Point<S, F>, time: nat): Option<Point<S, F>> {
    var t := m.tick(p.store, time);
    if m.slot(t) <= m.slot(p.store) then Some(p.(store := t))
    else
      var drained := Drain(m, t, Names(p.pending));
      if drained.None? then None
      else Some(Point(drained.value, m.confirm(drained.value, p.confirmation), [],
                      p.trace + Taking(m, t, p.pending) + [Confirmed(m.slot(drained.value))]))
  }

  /** One turn of the driver's loop; none when the case fails there. */
  function Turn<S, F>(m: Machine<S, F>, eager: bool, p: Point<S, F>, step: Step): Option<Point<S, F>> {
    match step
    case Tick(time) => TickTurn(m, p, time)
    case Attestation(name, valid) =>
      if eager && !m.decodes(name) then None
      else Some(p.(pending := p.pending + [Waiting(name, valid, m.slot(p.store))]))
    case Block(name, valid) =>
      var r := m.block(p.store, name);
      if Expected(r, valid) then Some(p.(store := r.value.0)) else None
    case AttesterSlashing(name, valid) =>
      var r := m.slash(p.store, name);
      if Expected(r, valid) then Some(p.(store := r.value.0)) else None
    case Checks(id) => if m.confirmChecks(p.store, p.confirmation, id) then Some(p) else None
    case PowBlock(_) => None
    case Unknown(_) => None
  }

  /** The point a run reaches after `steps`, if it has not failed. */
  function Turns<S, F>(m: Machine<S, F>, eager: bool, p: Point<S, F>, steps: seq<Step>): Option<Point<S, F>>
    decreases |steps|
  {
    if steps == [] then Some(p)
    else
      var next := Turn(m, eager, p, steps[0]);
      if next.None? then None else Turns(m, eager, next.value, steps[1..])
  }

  lemma NamesOneMore(ws: seq<Waiting>, w: Waiting)
    ensures Names(ws + [w]) == Names(ws) + [Held(w.name, w.valid)]
  {
  }

  /** The run's outcome is that of its last point. */
  lemma {:induction false} TurnsMakeTheRun<S, F>(m: Machine<S, F>, eager: bool, p: Point<S, F>, steps: seq<Step>)
    ensures RunDeferred(m, eager, p.store, p.confirmation, Names(p.pending), steps)
         == var end := Turns(m, eager, p, steps);
            if end.None? then Failed else Passed(end.value.store, end.value.confirmation)
    decreases |steps|
  {
    if steps != [] {
      var next := Turn(m, eager, p, steps[0]);
      if steps[0].Attestation? { NamesOneMore(p.pending, Waiting(steps[0].name, steps[0].valid, m.slot(p.store))); }
      assert Names([]) == [];
      if next.Some? { TurnsMakeTheRun(m, eager, next.value, steps[1..]); }
    }
  }

  /** The loop of the source, with its `pending_atts` buffer; `end` records what it did. */
  method RunFcrCase<S, F>(m: Machine<S, F>, eager: bool, s0: S, f0: F, steps: seq<Step>)
    returns (verdict: Verdict, store: S, confirmation: F, ghost end: Point<S, F>)
    ensures verdict == Pass ==> RunDeferred(m, eager, s0, f0, [], steps) == Passed(store, confirmation)
    ensures verdict == Fail <==> RunDeferred(m, eager, s0, f0, [], steps) == Failed
    ensures verdict != Skip
    ensures verdict == Pass ==> Turns(m, eager, Point(s0, f0, [], []), steps) == Some(end)
    ensures verdict == Pass ==> store == end.store && confirmation == end.confirmation
  {
    ghost var start := Point(s0, f0, [], []);
    assert Names([]) == [];
    TurnsMakeTheRun(m, eager, start, steps);
    store, confirmation := s0, f0;
    var pending: seq<Held> := [];
    ghost var noted: seq<Waiting> := [];
    ghost var trace: seq<Event> := [];
    end := start;
    for i := 0 to |steps|
      invariant pending == Names(noted)
      invariant Turns(m, eager, Point(store, confirmation, noted, trace), steps[i..]) == Turns(m, eager, start, steps)
    {
      assert steps[i..][1..] == steps[i+1..];
      match steps[i] {
        case Tick(time) =>
          var slotBefore := m.slot(store);
          store := m.tick(store, time);
          if m.slot(store) > slotBefore {
            ghost var took;
            var ok;
            ok, store, took := ReleaseAll(m, store, pending, noted);
            if !ok { return Fail, store, confirmation, end; }
            pending, noted := [], [];
            trace := trace + took + [Confirmed(m.slot(store))];
            confirmation := m.confirm(store, confirmation);
          }
        case Attestation(name, valid) =>
          if eager && !m.decodes(name) { return Fail, store, confirmation, end; }
          NamesOneMore(noted, Waiting(name, valid, m.slot(store)));
          pending, noted := pending + [Held(name, valid)], noted + [Waiting(name, valid, m.slot(store))];
        case Block(name, valid) =>
          var r := m.block(store, name);
          if r.None? || r.value.1 != valid { return Fail, store, confirmation, end; }
          store := r.value.0;
        case AttesterSlashing(name, valid) =>
          var r := m.slash(store, name);
          if r.None? || r.value.1 != valid { return Fail, store, confirmation, end; }
          store := r.value.0;
        case Checks(id) =>
          if !m.confirmChecks(store, confirmation, id) { return Fail, store, confirmation, end; }
        case PowBlock(_) => return Fail, store, confirmation, end;
        case Unknown(_) => return Fail, store, confirmation, end;
      }
    }
    assert steps[|steps|..] == [];
    end := Point(store, confirmation, noted, trace);
    verdict := Pass;
  }

  method ReleaseAll<S, F>(m: Machine<S, F>, s0: S, held: seq<Held>, ghost noted: seq<Waiting>)
    returns (ok: bool, store: S, ghost took: seq<Event>)
    requires held == Names(noted)
    ensures ok == Drain(m, s0, held).Some?
    ensures ok ==> store == Drain(m, s0, held).value && took == Taking(m, s0, noted)
  {
    store, took := s0, [];
    for i := 0 to |held|
      invariant Drain(m, store, held[i..]) == Drain(m, s0, held)
      invariant took + Taking(m, store, noted[i..]) == Taking(m, s0, noted)
    {
      assert held[i..][1..] == held[i+1..] && noted[i..][1..] == noted[i+1..];
      var r := m.attest(store, held[i].name);
      if r.None? || r.value.1 != held[i].valid { return false, store, took; }
      took := took + [Took(held[i].name, held[i].valid, noted[i].readAt, m.slot(store))];
      store := r.value.0;
    }
    ok := true;
  }

  // ── the schedule a tape stands for ──────────────────────────────────────────

  /** Steps with the release and confirmation points written out. */
  datatype Item =
    | Do(step: Step)                                                    // every step but attestations
    | Apply(name: string, valid: bool, readAt: nat, appliedAt: nat)     // slots of reading and of release
    | Confirm(at: nat)

  function Released(ws: seq<Waiting>, at: nat): seq<Item> {
    seq(|ws|, i requires 0 <= i < |ws| => Apply(ws[i].name, ws[i].valid, ws[i].readAt, at))
  }

  /** A tick into a new slot: the tick, what was held back, then the confirmation. */
  function Advance(tick: Step, ws: seq<Waiting>, at: nat): seq<Item> { [Do(tick)] + Released(ws, at) + [Confirm(at)] }

  /**
    The rewriting: each attestation moves to directly after the next tick that enters a new
    slot, in order; a confirmation follows; attestations with no such tick are dropped.
    It looks at the tape and the clock only.
   */
  function Schedule<S, F>(m: Machine<S, F>, slot: nat, waiting: seq<Waiting>, steps: seq<Step>): seq<Item>
    decreases |steps|
  {
    if steps == [] then [] else
      var rest := steps[1..];
      match steps[0]
      case Tick(time) =>
        var next := m.slotAt(time);
        if next <= slot then [Do(steps[0])] + Schedule(m, next, waiting, rest)
        else Advance(steps[0], waiting, next) + Schedule(m, next, [], rest)
      case Attestation(name, valid) => Schedule(m, slot, waiting + [Waiting(name, valid, slot)], rest)
      case _ => [Do(steps[0])] + Schedule(m, slot, waiting, rest)
  }

  /** An interpreter with no buffer: every item takes effect where it stands. */
  function RunImmediate<S, F>(m: Machine<S, F>, s: S, f: F, items: seq<Item>): Outcome<S, F> {
    if items == [] then Passed(s, f) else
      var rest := items[1..];
      match items[0]
      case Apply(name, valid, _, _) =>
        var r := m.attest(s, name);
        if Expected(r, valid) then RunImmediate(m, r.value.0, f, rest) else Failed
      case Confirm(_) => RunImmediate(m, s, m.confirm(s, f), rest)
      case Do(step) =>
        if step.Checks? then (if m.confirmChecks(s, f, step.id) then RunImmediate(m, s, f, rest) else Failed)
        else if StepHolds(m, s, step) then RunImmediate(m, Effect(m, s, step), f, rest) else Failed
  }

  /** Ticks set the slot; nothing else moves it. */
  ghost predicate Clocked<S(!new), F>(m: Machine<S, F>, inv: S -> bool) {
    && (forall s, t {:trigger m.tick(s, t)} :: inv(s) ==> inv(m.tick(s, t)) && m.slot(m.tick(s, t)) == m.slotAt(t))
    && (forall s, n {:trigger m.block(s, n)} ::
          inv(s) && m.block(s, n).Some? ==> SameClock(m, inv, s, m.block(s, n).value.0))
    && (forall s, n {:trigger m.attest(s, n)} ::
          inv(s) && m.attest(s, n).Some? ==> SameClock(m, inv, s, m.attest(s, n).value.0))
    && (forall s, n {:trigger m.slash(s, n)} ::
          inv(s) && m.slash(s, n).Some? ==> SameClock(m, inv, s, m.slash(s, n).value.0))
  }

  ghost predicate SameClock<S, F>(m: Machine<S, F>, inv: S -> bool, s: S, t: S) { inv(t) && m.slot(t) == m.slot(s) }

  /** What every handler keeps, every point of a plain run has. */
  lemma {:induction false} PlainRunKeeps<S(!new), F>(m: Machine<S, F>, inv: S -> bool, s: S, steps: seq<Step>)
    requires Clocked(m, inv) && inv(s)
    ensures inv(After(m, s, steps))
    decreases |steps|
  {
    if steps != [] { PlainRunKeeps(m, inv, Effect(m, s, steps[0]), steps[1..]); }
  }

  /** … and so has the end of every fast-confirmation run that passes. */
  lemma {:induction false} DeferredRunKeeps<S(!new), F>(m: Machine<S, F>, inv: S -> bool, eager: bool, s: S, f: F,
                                                        held: seq<Held>, steps: seq<Step>)
    requires Clocked(m, inv) && inv(s) && RunDeferred(m, eager, s, f, held, steps).Passed?
    ensures inv(RunDeferred(m, eager, s, f, held, steps).store)
    decreases |steps|
  {
    if steps != [] {
      var rest := steps[1..];
      match steps[0]
      case Tick(time) =>
        var t := m.tick(s, time);
        if m.slot(t) <= m.slot(s) { DeferredRunKeeps(m, inv, eager, t, f, held, rest); }
        else {
          var drained := Drain(m, t, held).value;
          DrainKeeps(m, inv, t, held);
          DeferredRunKeeps(m, inv, eager, drained, m.confirm(drained, f), [], rest);
        }
      case Attestation(name, valid) => DeferredRunKeeps(m, inv, eager, s, f, held + [Held(name, valid)], rest);
      case Block(name, _) => DeferredRunKeeps(m, inv, eager, m.block(s, name).value.0, f, held, rest);
      case AttesterSlashing(name, _) => DeferredRunKeeps(m, inv, eager, m.slash(s, name).value.0, f, held, rest);
      case Checks(_) => DeferredRunKeeps(m, inv, eager, s, f, held, rest);
      case PowBlock(_) =>
      case Unknown(_) =>
    }
  }

  lemma {:induction false} DrainKeeps<S(!new), F>(m: Machine<S, F>, inv: S -> bool, s: S, held: seq<Held>)
    requires Clocked(m, inv) && inv(s) && Drain(m, s, held).Some?
    ensures inv(Drain(m, s, held).value)
    decreases |held|
  {
    if held != [] { DrainKeeps(m, inv, m.attest(s, held[0].name).value.0, held[1..]); }
  }

  /** Releasing a buffer is running the released items one by one. */
  lemma {:induction false} DrainIsImmediate<S(!new), F>(m: Machine<S, F>, inv: S -> bool, s: S, f: F,
                                                        ws: seq<Waiting>, at: nat, tail: seq<Item>)
    requires Clocked(m, inv) && inv(s)
    ensures RunImmediate(m, s, f, Released(ws, at) + tail) ==
            var drained := Drain(m, s, Names(ws));
            if drained.None? then Failed else RunImmediate(m, drained.value, f, tail)
    ensures var drained := Drain(m, s, Names(ws)); drained.Some? ==> SameClock(m, inv, s, drained.value)
    decreases |ws|
  {
    if ws == [] {
      assert Released(ws, at) + tail == tail;
    } else {
      var items := Released(ws, at) + tail;
      assert items[1..] == Released(ws[1..], at) + tail;
      assert Names(ws)[1..] == Names(ws[1..]);
      var r := m.attest(s, ws[0].name);
      if Expected(r, ws[0].valid) { DrainIsImmediate(m, inv, r.value.0, f, ws[1..], at, tail); }
    }
  }

  /** The driver that decodes at release computes what the scheduled tape says: same verdict, same stores. */
  lemma {:induction false} LazyRunsItsSchedule<S(!new), F>(m: Machine<S, F>, inv: S -> bool, s: S, f: F,
                                                           ws: seq<Waiting>, steps: seq<Step>)
    requires Clocked(m, inv) && inv(s)
    ensures RunDeferred(m, false, s, f, Names(ws), steps) == RunImmediate(m, s, f, Schedule(m, m.slot(s), ws, steps))
    decreases |steps|
  {
    if steps != [] {
      var rest := steps[1..];
      match steps[0]
      case Tick(time) =>
        var t := m.tick(s, time);
        if m.slot(t) <= m.slot(s) {
          LazyRunsItsSchedule(m, inv, t, f, ws, rest);
        } else {
          var at := m.slot(t);
          var tail := Schedule(m, at, [], rest);
          assert Schedule(m, m.slot(s), ws, steps)[1..] == Released(ws, at) + ([Confirm(at)] + tail);
          DrainIsImmediate(m, inv, t, f, ws, at, [Confirm(at)] + tail);
          var drained := Drain(m, t, Names(ws));
          if drained.Some? {
            assert Names([]) == [];
            LazyRunsItsSchedule(m, inv, drained.value, m.confirm(drained.value, f), [], rest);
          }
        }
      case Attestation(name, valid) =>
        assert Names(ws) + [Held(name, valid)] == Names(ws + [Waiting(name, valid, m.slot(s))]);
        LazyRunsItsSchedule(m, inv, s, f, ws + [Waiting(name, valid, m.slot(s))], rest);
      case Block(name, valid) =>
        var r := m.block(s, name);
        if Expected(r, valid) { LazyRunsItsSchedule(m, inv, r.value.0, f, ws, rest); }
      case AttesterSlashing(name, valid) =>
        var r := m.slash(s, name);
        if Expected(r, valid) { LazyRunsItsSchedule(m, inv, r.value.0, f, ws, rest); }
      case Checks(id) => LazyRunsItsSchedule(m, inv, s, f, ws, rest);
      case PowBlock(_) =>
      case Unknown(_) =>
    }
  }

  // ── eager and lazy decoding ─────────────────────────────────────────────────

  predicate AttestationsDecode<S, F>(m: Machine<S, F>, steps: seq<Step>) {
    forall i :: 0 <= i < |steps| && steps[i].Attestation? ==> m.decodes(steps[i].name)
  }

  /** When every attestation file decodes, it does not matter when it is decoded. */
  lemma {:induction false} DecodableTapesAgree<S, F>(m: Machine<S, F>, s: S, f: F, held: seq<Held>, steps: seq<Step>)
    requires AttestationsDecode(m, steps)
    ensures RunDeferred(m, true, s, f, held, steps) == RunDeferred(m, false, s, f, held, steps)
    decreases |steps|
  {
    if steps != [] {
      var rest := steps[1..];
      match steps[0]
      case Tick(time) =>
        var t := m.tick(s, time);
        DecodableTapesAgree(m, t, f, held, rest);
        var drained := Drain(m, t, held);
        if drained.Some? { DecodableTapesAgree(m, drained.value, m.confirm(drained.value, f), [], rest); }
      case Attestation(name, valid) => DecodableTapesAgree(m, s, f, held + [Held(name, valid)], rest);
      case Block(name, valid) =>
        var r := m.block(s, name);
        if r.Some? { DecodableTapesAgree(m, r.value.0, f, held, rest); }
      case AttesterSlashing(name, valid) =>
        var r := m.slash(s, name);
        if r.Some? { DecodableTapesAgree(m, r.value.0, f, held, rest); }
      case Checks(_) => DecodableTapesAgree(m, s, f, held, rest);
      case PowBlock(_) =>
      case Unknown(_) =>
    }
  }

  /** An eager driver never passes a tape that names an undecodable attestation, wherever it stands. */
  lemma {:induction false} EagerRejectsUndecodable<S, F>(m: Machine<S, F>, s: S, f: F, held: seq<Held>,
                                                         steps: seq<Step>)
    requires !AttestationsDecode(m, steps)
    ensures RunDeferred(m, true, s, f, held, steps) == Failed
    decreases |steps|
  {
    var rest := steps[1..];
    if !(steps[0].Attestation? && !m.decodes(steps[0].name)) {
      assert !AttestationsDecode(m, rest) by {
        var i :| 0 <= i < |steps| && steps[i].Attestation? && !m.decodes(steps[i].name);
        assert rest[i - 1] == steps[i];
      }
      match steps[0]
      case Tick(time) =>
        var t := m.tick(s, time);
        EagerRejectsUndecodable(m, t, f, held, rest);
        var drained := Drain(m, t, held);
        if drained.Some? { EagerRejectsUndecodable(m, drained.value, m.confirm(drained.value, f), [], rest); }
      case Attestation(name, valid) => EagerRejectsUndecodable(m, s, f, held + [Held(name, valid)], rest);
      case Block(name, valid) =>
        var r := m.block(s, name);
        if r.Some? { EagerRejectsUndecodable(m, r.value.0, f, held, rest); }
      case AttesterSlashing(name, valid) =>
        var r := m.slash(s, name);
        if r.Some? { EagerRejectsUndecodable(m, r.value.0, f, held, rest); }
      case Checks(_) => EagerRejectsUndecodable(m, s, f, held, rest);
      case PowBlock(_) =>
      case Unknown(_) =>
    }
  }

  /**
    The eager and the lazy drivers differ exactly on tapes with an undecodable attestation that
    the lazy driver passes: one it reads but never releases.
   */
  lemma EagerAgreesIff<S, F>(m: Machine<S, F>, s: S, f: F, steps: seq<Step>)
    ensures RunDeferred(m, true, s, f, [], steps) == RunDeferred(m, false, s, f, [], steps)
       <==> AttestationsDecode(m, steps) || RunDeferred(m, false, s, f, [], steps) == Failed
  {
    if AttestationsDecode(m, steps) { DecodableTapesAgree(m, s, f, [], steps); }
    else { EagerRejectsUndecodable(m, s, f, [], steps); }
  }

  /**
    Both kinds of driver, on every tape: an eager driver fails where an attestation file
    does not decode, and otherwise each ends as an immediate interpreter of the rewritten tape.
   */
  lemma DeferredRunsItsSchedule<S(!new), F>(m: Machine<S, F>, inv: S -> bool, eager: bool, s: S, f: F,
                                            ws: seq<Waiting>, steps: seq<Step>)
    requires Clocked(m, inv) && inv(s)
    ensures RunDeferred(m, eager, s, f, Names(ws), steps)
         == if eager && !AttestationsDecode(m, steps) then Failed
            else RunImmediate(m, s, f, Schedule(m, m.slot(s), ws, steps))
  {
    LazyRunsItsSchedule(m, inv, s, f, ws, steps);
    if eager {
      if AttestationsDecode(m, steps) {
        DecodableTapesAgree(m, s, f, Names(ws), steps);
      } else {
        EagerRejectsUndecodable(m, s, f, Names(ws), steps);
      }
    }
  }

  // ── order and conservation of attestations ──────────────────────────────────

  function Read(steps: seq<Step>): seq<Held> {
    if steps == [] then []
    else (if steps[0].Attestation? then [Held(steps[0].name, steps[0].valid)] else []) + Read(steps[1..])
  }

  function Applied(items: seq<Item>): seq<Held> {
    if items == [] then []
    else (if items[0].Apply? then [Held(items[0].name, items[0].valid)] else []) + Applied(items[1..])
  }

  /** What is still held back after the tape. */
  function StillHeld<S, F>(m: Machine<S, F>, slot: nat, waiting: seq<Waiting>, steps: seq<Step>): seq<Waiting>
    decreases |steps|
  {
    if steps == [] then waiting else
      match steps[0]
      case Tick(time) =>
        var next := m.slotAt(time);
        StillHeld(m, next, if next <= slot then waiting else [], steps[1..])
      case Attestation(name, valid) => StillHeld(m, slot, waiting + [Waiting(name, valid, slot)], steps[1..])
      case _ => StillHeld(m, slot, waiting, steps[1..])
  }

  lemma Associates<T>(a: seq<T>, b: seq<T>, c: seq<T>)
    ensures (a + b) + c == a + (b + c)
  {
  }

  function AppliedBy(it: Item): seq<Held> { if it.Apply? then [Held(it.name, it.valid)] else [] }

  lemma AppliedFirst(it: Item, tail: seq<Item>)
    ensures Applied([it] + tail) == AppliedBy(it) + Applied(tail)
  {
    assert ([it] + tail)[1..] == tail;
  }

  lemma {:induction false} AppliedConcat(a: seq<Item>, b: seq<Item>)
    ensures Applied(a + b) == Applied(a) + Applied(b)
  {
    if a == [] {
      assert a + b == b;
    } else {
      AppliedConcat(a[1..], b);
      assert a == [a[0]] + a[1..] && a + b == [a[0]] + (a[1..] + b);
      AppliedFirst(a[0], a[1..]);
      AppliedFirst(a[0], a[1..] + b);
      Associates(AppliedBy(a[0]), Applied(a[1..]), Applied(b));
    }
  }

  lemma {:induction false} AppliedReleased(ws: seq<Waiting>, at: nat)
    ensures Applied(Released(ws, at)) == Names(ws)
    decreases |ws|
  {
    if ws != [] {
      assert Released(ws, at)[1..] == Released(ws[1..], at);
      assert Names(ws) == [Held(ws[0].name, ws[0].valid)] + Names(ws[1..]);
      AppliedReleased(ws[1..], at);
    }
  }

  lemma AppliedAdvance(tick: Step, ws: seq<Waiting>, at: nat, tail: seq<Item>)
    ensures Applied(Advance(tick, ws, at) + tail) == Names(ws) + Applied(tail)
  {
    AppliedReleased(ws, at);
    AppliedConcat([Do(tick)], Released(ws, at));
    AppliedConcat([Do(tick)] + Released(ws, at), [Confirm(at)]);
    AppliedConcat(Advance(tick, ws, at), tail);
  }

  /** What was held and what is read equal what is applied and what stays held, in order. */
  ghost predicate Conserved(ws: seq<Waiting>, read: seq<Held>, items: seq<Item>, held: seq<Waiting>) {
    Names(ws) + read == Applied(items) + Names(held)
  }

  lemma ConservedReading(ws: seq<Waiting>, w: Waiting, read: seq<Held>, items: seq<Item>, held: seq<Waiting>)
    requires Conserved(ws + [w], read, items, held)
    ensures Conserved(ws, [Held(w.name, w.valid)] + read, items, held)
  {
    assert Names(ws + [w]) == Names(ws) + [Held(w.name, w.valid)];
    Associates(Names(ws), [Held(w.name, w.valid)], read);
  }

  lemma ConservedDoing(step: Step, ws: seq<Waiting>, read: seq<Held>, items: seq<Item>, held: seq<Waiting>)
    requires Conserved(ws, read, items, held)
    ensures Conserved(ws, read, [Do(step)] + items, held)
  {
    AppliedFirst(Do(step), items);
  }

  lemma ConservedRelease(tick: Step, at: nat, ws: seq<Waiting>, read: seq<Held>, items: seq<Item>, held: seq<Waiting>)
    requires Conserved([], read, items, held)
    ensures Conserved(ws, read, Advance(tick, ws, at) + items, held)
  {
    assert Names([]) + read == read;
    AppliedAdvance(tick, ws, at, items);
    Associates(Names(ws), Applied(items), Names(held));
  }

  lemma ReadSkips(steps: seq<Step>)
    requires steps != [] && !steps[0].Attestation?
    ensures Read(steps) == Read(steps[1..])
  {
  }

  /** Nothing is lost, duplicated or reordered: read so far is applied so far followed by what is held. */
  lemma {:induction false} AttestationsConserved<S, F>(m: Machine<S, F>, slot: nat, ws: seq<Waiting>, steps: seq<Step>)
    ensures Conserved(ws, Read(steps), Schedule(m, slot, ws, steps), StillHeld(m, slot, ws, steps))
    decreases |steps|
  {
    if steps == [] {
      assert Names(ws) + [] == [] + Names(ws);
    } else {
      var rest := steps[1..];
      match steps[0]
      case Tick(time) =>
        var next := m.slotAt(time);
        ReadSkips(steps);
        if next <= slot {
          AttestationsConserved(m, next, ws, rest);
          ConservedDoing(steps[0], ws, Read(rest), Schedule(m, next, ws, rest), StillHeld(m, next, ws, rest));
        } else {
          AttestationsConserved(m, next, [], rest);
          ConservedRelease(steps[0], next, ws, Read(rest), Schedule(m, next, [], rest), StillHeld(m, next, [], rest));
        }
      case Attestation(name, valid) =>
        var w := Waiting(name, valid, slot);
        AttestationsConserved(m, slot, ws + [w], rest);
        ConservedReading(ws, w, Read(rest), Schedule(m, slot, ws + [w], rest), StillHeld(m, slot, ws + [w], rest));
      case _ =>
        ReadSkips(steps);
        AttestationsConserved(m, slot, ws, rest);
        ConservedDoing(steps[0], ws, Read(rest), Schedule(m, slot, ws, rest), StillHeld(m, slot, ws, rest));
    }
  }

  function SlotAfter<S, F>(m: Machine<S, F>, slot: nat, steps: seq<Step>): nat
    decreases |steps|
  {
    if steps == [] then slot else SlotAfter(m, if steps[0].Tick? then m.slotAt(steps[0].time) else slot, steps[1..])
  }

  /** A tape can be cut anywhere: the schedule so far stands, and the rest starts from what is held. */
  lemma {:induction false} ScheduleSplits<S, F>(m: Machine<S, F>, slot: nat, ws: seq<Waiting>, a: seq<Step>,
                                                b: seq<Step>)
    ensures Schedule(m, slot, ws, a + b)
         == Schedule(m, slot, ws, a) + Schedule(m, SlotAfter(m, slot, a), StillHeld(m, slot, ws, a), b)
    ensures StillHeld(m, slot, ws, a + b) == StillHeld(m, SlotAfter(m, slot, a), StillHeld(m, slot, ws, a), b)
    decreases |a|
  {
    if a == [] {
      assert a + b == b;
    } else {
      assert (a + b)[1..] == a[1..] + b;
      match a[0]
      case Tick(time) =>
        var next := m.slotAt(time);
        ScheduleSplits(m, next, if next <= slot then ws else [], a[1..], b);
      case Attestation(name, valid) => ScheduleSplits(m, slot, ws + [Waiting(name, valid, slot)], a[1..], b);
      case _ => ScheduleSplits(m, slot, ws, a[1..], b);
    }
  }

  lemma AdvancingTick<S, F>(m: Machine<S, F>, now: nat, held: seq<Waiting>, time: nat)
    requires now < m.slotAt(time)
    ensures Schedule(m, now, held, [Tick(time)])
         == [Do(Tick(time))] + Released(held, m.slotAt(time)) + [Confirm(m.slotAt(time))]
    ensures StillHeld(m, now, held, [Tick(time)]) == []
    ensures Applied([Do(Tick(time))] + Released(held, m.slotAt(time))) == Names(held)
  {
    assert [Tick(time)][1..] == [];
    AppliedFirst(Do(Tick(time)), Released(held, m.slotAt(time)));
    AppliedReleased(held, m.slotAt(time));
  }

  /** A tick that enters a new slot releases everything before confirmation runs: it ends with nothing held. */
  lemma NothingHeldAtConfirmation<S, F>(m: Machine<S, F>, slot: nat, ws: seq<Waiting>, steps: seq<Step>, time: nat)
    requires SlotAfter(m, slot, steps) < m.slotAt(time)
    ensures StillHeld(m, slot, ws, steps + [Tick(time)]) == []
    ensures exists applied :: Schedule(m, slot, ws, steps + [Tick(time)]) == applied + [Confirm(m.slotAt(time))]
                           && Applied(applied) == Names(ws) + Read(steps)
  {
    var now, next, held := SlotAfter(m, slot, steps), m.slotAt(time), StillHeld(m, slot, ws, steps);
    var before, released := Schedule(m, slot, ws, steps), [Do(Tick(time))] + Released(held, next);
    ScheduleSplits(m, slot, ws, steps, [Tick(time)]);
    AdvancingTick(m, now, held, time);
    AppliedConcat(before, released);
    Associates(before, released, [Confirm(next)]);
    AttestationsConserved(m, slot, ws, steps);
    assert Applied(before + released) == Names(ws) + Read(steps);
  }

  /** The slots that the advancing ticks of a tape enter. */
  function Entered<S, F>(m: Machine<S, F>, slot: nat, steps: seq<Step>): seq<nat>
    decreases |steps|
  {
    if steps == [] then []
    else if !steps[0].Tick? then Entered(m, slot, steps[1..])
    else
      var next := m.slotAt(steps[0].time);
      (if next > slot then [next] else []) + Entered(m, next, steps[1..])
  }

  function Confirmations(items: seq<Item>): seq<nat> {
    if items == [] then [] else (if items[0].Confirm? then [items[0].at] else []) + Confirmations(items[1..])
  }

  function ConfirmationOf(it: Item): seq<nat> { if it.Confirm? then [it.at] else [] }

  lemma ConfirmationsFirst(it: Item, tail: seq<Item>)
    ensures Confirmations([it] + tail) == ConfirmationOf(it) + Confirmations(tail)
  {
    assert ([it] + tail)[1..] == tail;
  }

  lemma {:induction false} ConfirmationsConcat(a: seq<Item>, b: seq<Item>)
    ensures Confirmations(a + b) == Confirmations(a) + Confirmations(b)
  {
    if a == [] {
      assert a + b == b;
    } else {
      ConfirmationsConcat(a[1..], b);
      assert a == [a[0]] + a[1..] && a + b == [a[0]] + (a[1..] + b);
      ConfirmationsFirst(a[0], a[1..]);
      ConfirmationsFirst(a[0], a[1..] + b);
      Associates(ConfirmationOf(a[0]), Confirmations(a[1..]), Confirmations(b));
    }
  }

  lemma {:induction false} NoneInReleased(ws: seq<Waiting>, at: nat)
    ensures Confirmations(Released(ws, at)) == []
    decreases |ws|
  {
    if ws != [] { assert Released(ws, at)[1..] == Released(ws[1..], at); NoneInReleased(ws[1..], at); }
  }

  lemma ConfirmationsAdvance(tick: Step, ws: seq<Waiting>, at: nat, tail: seq<Item>)
    ensures Confirmations(Advance(tick, ws, at) + tail) == [at] + Confirmations(tail)
  {
    NoneInReleased(ws, at);
    ConfirmationsConcat([Do(tick)], Released(ws, at));
    ConfirmationsConcat([Do(tick)] + Released(ws, at), [Confirm(at)]);
    ConfirmationsConcat(Advance(tick, ws, at), tail);
  }

  /** Confirmation runs once for each slot entered by a tick, in that slot, and at no other time. */
  lemma {:induction false} ConfirmsOncePerSlot<S, F>(m: Machine<S, F>, slot: nat, ws: seq<Waiting>, steps: seq<Step>)
    ensures Confirmations(Schedule(m, slot, ws, steps)) == Entered(m, slot, steps)
    decreases |steps|
  {
    if steps != [] {
      var rest := steps[1..];
      match steps[0]
      case Tick(time) =>
        var next := m.slotAt(time);
        if next <= slot {
          ConfirmsOncePerSlot(m, next, ws, rest);
        } else {
          ConfirmsOncePerSlot(m, next, [], rest);
          ConfirmationsAdvance(steps[0], ws, next, Schedule(m, next, [], rest));
        }
      case Attestation(name, valid) => ConfirmsOncePerSlot(m, slot, ws + [Waiting(name, valid, slot)], rest);
      case _ => ConfirmsOncePerSlot(m, slot, ws, rest);
    }
  }

  /** Ticks do not go back, starting from `slot`. */
  ghost predicate TicksForward<S, F>(m: Machine<S, F>, slot: nat, steps: seq<Step>)
    decreases |steps|
  {
    steps == [] || (if steps[0].Tick?
                    then slot <= m.slotAt(steps[0].time) && TicksForward(m, m.slotAt(steps[0].time), steps[1..])
                    else TicksForward(m, slot, steps[1..]))
  }

  /** Then every attestation takes effect in a strictly later slot than the one it was read in. */
  lemma {:induction false} AppliedInLaterSlot<S, F>(m: Machine<S, F>, slot: nat, ws: seq<Waiting>, steps: seq<Step>)
    requires TicksForward(m, slot, steps) && forall w :: w in ws ==> w.readAt <= slot
    ensures forall it :: it in Schedule(m, slot, ws, steps) && it.Apply? ==> it.readAt < it.appliedAt
    decreases |steps|
  {
    if steps != [] {
      var rest := steps[1..];
      match steps[0]
      case Tick(time) => AppliedInLaterSlot(m, m.slotAt(time), if m.slotAt(time) <= slot then ws else [], rest);
      case Attestation(name, valid) => AppliedInLaterSlot(m, slot, ws + [Waiting(name, valid, slot)], rest);
      case _ => AppliedInLaterSlot(m, slot, ws, rest);
    }
  }
}
