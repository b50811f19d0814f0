/**
  `run_blocks_case` of `crates/pharos-conformance/src/fixture_walker.rs`: a sequence of
  blocks applied to a pre-state and judged against an optional post-state. Loading,
  the state transition and the encoding are parameters.
 */
module BlocksCase {
  import opened Types

  datatype Reason = LoadFailed | Mismatch | NothingFailed | BlockFailed
  datatype Outcome = Pass | Fail(reason: Reason)

  datatype Fixture<!S, !B, E> = Fixture(
    load: nat -> Option<B>,
    apply: (S, B) -> Option<S>,
    encode: S -> E,
    count: nat)

  // ── the reference: states after each block ──────────────────────────────────

  /** The state after the first `n` blocks, if all of them load and apply. */
  function After<S, B, E>(f: Fixture<S, B, E>, pre: S, n: nat): Option<S> {
    if n == 0 then Some(pre)
    else
      var before, block := After(f, pre, n - 1), f.load(n - 1);
      if before.Some? && block.Some? then f.apply(before.value, block.value) else None
  }

  /** Block `n` is the first that does not apply, and every file up to it loads. */
  predicate FailsAt<S, B, E>(f: Fixture<S, B, E>, pre: S, n: nat) {
    After(f, pre, n).Some? && f.load(n).Some? && f.apply(After(f, pre, n).value, f.load(n).value).None?
  }

  predicate UnloadableAt<S, B, E>(f: Fixture<S, B, E>, pre: S, n: nat) {
    After(f, pre, n).Some? && f.load(n).None?
  }

  lemma {:induction false} AfterShrinks<S, B, E>(f: Fixture<S, B, E>, pre: S, m: nat, n: nat)
    requires m <= n && After(f, pre, n).Some?
    ensures After(f, pre, m).Some?
    decreases n
  {
    if m < n { AfterShrinks(f, pre, m, n - 1); }
  }

  /** A run stops at one place for one cause. */
  lemma StopsOnce<S, B, E>(f: Fixture<S, B, E>, pre: S, m: nat, n: nat)
    requires FailsAt(f, pre, m) || UnloadableAt(f, pre, m)
    requires FailsAt(f, pre, n) || UnloadableAt(f, pre, n)
    ensures m == n
    ensures FailsAt(f, pre, m) <==> !UnloadableAt(f, pre, m)
  {
    assert After(f, pre, m + 1).None? && After(f, pre, n + 1).None?;
    if m < n { AfterShrinks(f, pre, m + 1, n); }
    if n < m { AfterShrinks(f, pre, n + 1, m); }
  }

  // ── the runner ──────────────────────────────────────────────────────────────

  /** When the case passes. */
  ghost predicate Passes<S, B, E>(f: Fixture<S, B, E>, loaded: Option<(S, Option<S>)>) {
    && loaded.Some?
    && (var pre, post := loaded.value.0, loaded.value.1;
        if post.Some?
        then After(f, pre, f.count).Some? && f.encode(After(f, pre, f.count).value) == f.encode(post.value)
        else exists n: nat :: n < f.count && FailsAt(f, pre, n))
  }

  /** The loop, with `current` taken and put back; `read` counts the block files read. */
  method RunBlocksCase<S, B, E(==)>(f: Fixture<S, B, E>, loaded: Option<(S, Option<S>)>)
    returns (outcome: Outcome, read: nat)
    ensures outcome == Pass <==> Passes(f, loaded)
    ensures loaded.Some? && After(f, loaded.value.0, f.count).Some? ==> read == f.count
    ensures forall n: nat :: loaded.Some? && n < f.count && FailsAt(f, loaded.value.0, n) ==> read == n + 1
    ensures forall n: nat :: loaded.Some? && n < f.count && UnloadableAt(f, loaded.value.0, n)
              ==> read == n + 1 && outcome == Fail(LoadFailed)
    ensures loaded.None? ==> read == 0
  {
    read := 0;
    if loaded.None? { return Fail(LoadFailed), 0; }
    var (pre, post) := loaded.value;
    var current, failed := Some(pre), false;
    var i := 0;
    while i < f.count && !failed
      invariant i <= f.count && (failed ==> i > 0)
      invariant !failed ==> current == After(f, pre, i) && current.Some? && read == i
      invariant failed ==> FailsAt(f, pre, i - 1) && read == i
      decreases f.count - i, !failed
    {
      var block := f.load(i);
      read := read + 1;
      if block.None? {
        Stopped(f, pre, i);
        return Fail(LoadFailed), read;
      }
      var state := current.value;
      current := f.apply(state, block.value);
      failed := current.None?;
      i := i + 1;
    }
    if failed {
      Stopped(f, pre, i - 1);
      outcome := if post.None? then Pass else Fail(BlockFailed);
    } else {
      Completed(f, pre);
      if post.None? {
        outcome := Fail(NothingFailed);
      } else {
        outcome := if f.encode(current.value) == f.encode(post.value) then Pass else Fail(Mismatch);
      }
    }
  }

  lemma Stopped<S, B, E>(f: Fixture<S, B, E>, pre: S, i: nat)
    requires i < f.count && (FailsAt(f, pre, i) || UnloadableAt(f, pre, i))
    ensures After(f, pre, f.count).None?
    ensures forall n: nat :: FailsAt(f, pre, n) ==> n == i && !UnloadableAt(f, pre, i)
    ensures forall n: nat :: UnloadableAt(f, pre, n) ==> n == i && !FailsAt(f, pre, i)
  {
    assert After(f, pre, i + 1).None?;
    if After(f, pre, f.count).Some? { AfterShrinks(f, pre, i + 1, f.count); }
    forall n: nat | FailsAt(f, pre, n) || UnloadableAt(f, pre, n) ensures n == i { StopsOnce(f, pre, n, i); }
  }

  lemma Completed<S, B, E>(f: Fixture<S, B, E>, pre: S)
    requires After(f, pre, f.count).Some?
    ensures forall n: nat :: n < f.count ==> !FailsAt(f, pre, n) && !UnloadableAt(f, pre, n)
  {
    forall n: nat | n < f.count ensures !FailsAt(f, pre, n) && !UnloadableAt(f, pre, n) {
      AfterShrinks(f, pre, n + 1, f.count);
    }
  }

  // ── files after the first failing block ─────────────────────────────────────

  lemma {:induction false} AfterFrame<S, B, E>(f: Fixture<S, B, E>, g: Fixture<S, B, E>, pre: S, n: nat)
    requires f.apply == g.apply && forall i: nat :: i < n ==> f.load(i) == g.load(i)
    ensures After(f, pre, n) == After(g, pre, n)
  {
    if n > 0 { AfterFrame(f, g, pre, n - 1); }
  }

  /** Whatever the later files hold, the verdict is the same. */
  lemma LaterFilesDoNotMatter<S, B, E>(f: Fixture<S, B, E>, g: Fixture<S, B, E>, pre: S, post: Option<S>, n: nat)
    requires f.apply == g.apply && f.encode == g.encode && f.count == g.count && n < f.count
    requires FailsAt(f, pre, n) && forall i: nat :: i <= n ==> f.load(i) == g.load(i)
    ensures Passes(f, Some((pre, post))) <==> Passes(g, Some((pre, post)))
  {
    AfterFrame(f, g, pre, n);
    assert FailsAt(g, pre, n);
    Stopped(f, pre, n);
    Stopped(g, pre, n);
  }
}
