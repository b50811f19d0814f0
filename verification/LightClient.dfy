/**
  `light_client_updates` of `crates/pharos-api/src/state.rs`: the merge of the Altair
  range with the per-period Capella and Deneb probes, over the range read of
  `crates/pharos-storage/src/db.rs`. A probe fails when the read or the envelope fails.
 */
module LightClient {
  import opened Types

  datatype Probe<V> = Found(value: V) | Absent | Failed
  datatype Result<V> = Ok(value: V) | Err

  function Saturate(x: nat): nat { if x <= U64_MAX then x else U64_MAX }

  /** One past the last period that the saturating probes touch. */
  function End(start: nat, count: nat): nat {
    if start + count <= U64_MAX then start + count else U64_MAX + 1
  }

  ghost predicate Fails<V>(source: nat -> Probe<V>, lo: nat, hi: nat) {
    exists p :: lo <= p < hi && source(p).Failed?
  }

  // ── the range read ──────────────────────────────────────────────────────────

  /** What the range read returns: the values found, without their periods. */
  function Present<V>(source: nat -> Probe<V>, lo: nat, hi: nat): seq<V>
    requires lo <= hi
  {
    if lo == hi then []
    else Present(source, lo, hi - 1) + if source(hi - 1).Found? then [source(hi - 1).value] else []
  }

  method UpdatesByRange<V>(source: nat -> Probe<V>, start: nat, count: nat) returns (r: Result<seq<V>>)
    requires start <= U64_MAX
    ensures r.Err? <==> Fails(source, start, Saturate(start + count))
    ensures r.Ok? ==> r.value == Present(source, start, Saturate(start + count))
  {
    var updates := [];
    for period := start to Saturate(start + count)
      invariant !Fails(source, start, period)
      invariant updates == Present(source, start, period)
    {
      match source(period) {
        case Found(v) => updates := updates + [v];
        case Absent =>
        case Failed => return Err;
      }
    }
    r := Ok(updates);
  }

  // ── the period map ──────────────────────────────────────────────────────────

  /** The updates a source holds in a window. */
  function Table<V>(source: nat -> Probe<V>, lo: nat, hi: nat): map<nat, V> {
    map p: nat | lo <= p < hi && source(p).Found? :: source(p).value
  }

  /** The Altair updates as the merge labels them: by rank from `start`. */
  function Labelled<V>(updates: seq<V>, start: nat): map<nat, V> {
    map p | p in Ranks(start, |updates|) :: updates[p - start]
  }

  function Ranks(start: nat, n: nat): (ranks: set<nat>)
    ensures forall p :: p in ranks <==> start <= p < start + n
  {
    if n == 0 then {} else Ranks(start, n - 1) + {start + n - 1}
  }

  /** Later passes win. */
  function Merged<V>(altair: map<nat, V>, capella: map<nat, V>, deneb: map<nat, V>): map<nat, V> {
    altair + capella + deneb
  }

  /** The values of a window in ascending order of period. */
  function InOrder<V>(m: map<nat, V>, lo: nat, hi: nat): seq<V>
    requires lo <= hi
    decreases hi - lo
  {
    if lo == hi then [] else (if lo in m then [m[lo]] else []) + InOrder(m, lo + 1, hi)
  }

  /** Probe `i` extends the window by one period, or repeats the last one when saturated. */
  lemma NextProbe<V>(source: nat -> Probe<V>, start: nat, i: nat)
    requires start <= U64_MAX
    ensures start <= Saturate(start + i) < End(start, i + 1)
    ensures Fails(source, start, End(start, i + 1))
       <==> Fails(source, start, End(start, i)) || source(Saturate(start + i)).Failed?
    ensures Table(source, start, End(start, i + 1))
         == if source(Saturate(start + i)).Found?
            then Table(source, start, End(start, i))[Saturate(start + i) := source(Saturate(start + i)).value]
            else Table(source, start, End(start, i))
  {
    if start + i <= U64_MAX {
      assert End(start, i) == Saturate(start + i) == start + i && End(start, i + 1) == start + i + 1;
    } else {
      assert End(start, i) == End(start, i + 1) == U64_MAX + 1 && Saturate(start + i) == U64_MAX;
    }
  }

  /** One probing pass. */
  method Overlay<V>(m: map<nat, V>, source: nat -> Probe<V>, start: nat, count: nat) returns (r: Result<map<nat, V>>)
    requires start <= U64_MAX
    ensures r.Err? <==> Fails(source, start, End(start, count))
    ensures r.Ok? ==> r.value == m + Table(source, start, End(start, count))
  {
    var byPeriod := m;
    for i := 0 to count
      invariant !Fails(source, start, End(start, i))
      invariant byPeriod == m + Table(source, start, End(start, i))
    {
      var period := Saturate(start + i);
      NextProbe(source, start, i);
      match source(period) {
        case Found(v) => byPeriod := byPeriod[period := v];
        case Absent =>
        case Failed => return Err;
      }
    }
    r := Ok(byPeriod);
  }

  lemma {:induction false} SkipTo<V>(m: map<nat, V>, lo: nat, k: nat, hi: nat)
    requires lo <= k <= hi && forall p :: p in m ==> !(lo <= p < k)
    ensures InOrder(m, lo, hi) == InOrder(m, k, hi)
    decreases k - lo
  {
    if lo < k { SkipTo(m, lo + 1, k, hi); }
  }

  lemma TakeLeast<V>(m: map<nat, V>, lo: nat, k: nat, hi: nat)
    requires lo <= k < hi && k in m && forall p :: p in m ==> !(lo <= p < k)
    ensures InOrder(m, lo, hi) == [m[k]] + InOrder(m, k + 1, hi)
  {
    SkipTo(m, lo, k, hi);
  }

  predicate IsLeast(k: nat, keys: set<nat>) {
    k in keys && forall j :: j in keys ==> k <= j
  }

  lemma {:induction false} LeastExists(keys: set<nat>)
    requires keys != {}
    ensures exists k :: IsLeast(k, keys)
  {
    var x :| x in keys;
    var rest := keys - {x};
    var least := x;
    if rest != {} {
      LeastExists(rest);
      var k :| IsLeast(k, rest);
      least := if x <= k then x else k;
    }
    forall j | j in keys ensures least <= j { assert j == x || j in rest; }
    assert IsLeast(least, keys);
  }

  /** `BTreeMap::into_values`: ascending by key, whatever window holds the keys. */
  method IntoValues<V>(m: map<nat, V>, ghost lo: nat, ghost hi: nat) returns (values: seq<V>)
    requires lo <= hi && forall p :: p in m ==> lo <= p < hi
    ensures values == InOrder(m, lo, hi)
  {
    values := [];
    var left := m.Keys;
    ghost var at := lo;
    while left != {}
      invariant lo <= at <= hi && left <= m.Keys
      invariant forall p :: p in m ==> (p in left <==> at <= p)
      invariant InOrder(m, lo, hi) == values + InOrder(m, at, hi)
      decreases left
    {
      LeastExists(left);
      var k :| IsLeast(k, left);
      TakeLeast(m, at, k, hi);
      values := values + [m[k]];
      left := left - {k};
      at := k + 1;
    }
    SkipTo(m, at, hi, hi);
  }

  method LightClientUpdates<V>(altair: nat -> Probe<V>, capella: nat -> Probe<V>, deneb: nat -> Probe<V>,
                               start: nat, count: nat) returns (r: Result<seq<V>>)
    requires start <= U64_MAX
    ensures r.Err? <==> (|| Fails(altair, start, Saturate(start + count))
                         || Fails(capella, start, End(start, count))
                         || Fails(deneb, start, End(start, count)))
    ensures r.Ok? ==> r.value == Updates(altair, capella, deneb, start, Saturate(start + count), End(start, count))
  {
    var range := UpdatesByRange(altair, start, count);
    if range.Err? { return Err; }
    var byPeriod: map<nat, V> := map[];
    for idx := 0 to |range.value|
      invariant byPeriod == Labelled(range.value[..idx], start)
    {
      byPeriod := byPeriod[start + idx := range.value[idx]];
    }
    assert range.value[..|range.value|] == range.value;
    ghost var first := byPeriod;
    var pass := Overlay(byPeriod, capella, start, count);
    if pass.Err? { return Err; }
    pass := Overlay(pass.value, deneb, start, count);
    if pass.Err? { return Err; }
    PresentFits(altair, start, Saturate(start + count));
    var values := IntoValues(pass.value, start, End(start, count));
    r := Ok(values);
  }

  lemma {:induction false} PresentFits<V>(source: nat -> Probe<V>, lo: nat, hi: nat)
    requires lo <= hi
    ensures |Present(source, lo, hi)| <= hi - lo
    decreases hi
  {
    if lo < hi { PresentFits(source, lo, hi - 1); }
  }

  /**
    The returned list, as a function of the three sources: the Altair read stops at
    `read`, the probes at `end`, and both are `start + count` unless that overflows.
   */
  function Updates<V>(altair: nat -> Probe<V>, capella: nat -> Probe<V>, deneb: nat -> Probe<V>,
                      start: nat, read: nat, end: nat): seq<V>
    requires start <= read && start <= end
  {
    MergedInOrder(Labelled(Present(altair, start, read), start),
                  Table(capella, start, end), Table(deneb, start, end), start, end)
  }

  function MergedInOrder<V>(altair: map<nat, V>, capella: map<nat, V>, deneb: map<nat, V>, lo: nat, hi: nat): seq<V>
    requires lo <= hi
  {
    InOrder(Merged(altair, capella, deneb), lo, hi)
  }

  // ── the promised list ───────────────────────────────────────────────────────

  /** Each period of the window from Deneb, else Capella, else Altair, ascending. */
  function Promised<V>(altair: nat -> Probe<V>, capella: nat -> Probe<V>, deneb: nat -> Probe<V>,
                       lo: nat, hi: nat): seq<V>
    requires lo <= hi
    decreases hi - lo
  {
    if lo == hi then [] else Pick(altair(lo), capella(lo), deneb(lo)) + Promised(altair, capella, deneb, lo + 1, hi)
  }

  function Pick<V>(altair: Probe<V>, capella: Probe<V>, deneb: Probe<V>): seq<V> {
    if deneb.Found? then [deneb.value]
    else if capella.Found? then [capella.value]
    else if altair.Found? then [altair.value]
    else []
  }

  /** Inside the window, an Altair update never follows an empty period. */
  ghost predicate GapFree<V>(source: nat -> Probe<V>, lo: nat, hi: nat) {
    forall p, q :: lo <= p < q < hi && source(q).Found? ==> source(p).Found?
  }

  lemma {:induction false} PromisedIsInOrder<V>(altair: nat -> Probe<V>, capella: nat -> Probe<V>,
                                                deneb: nat -> Probe<V>,
                                                start: nat, lo: nat, hi: nat)
    requires start <= lo <= hi
    ensures MergedInOrder(Table(altair, start, hi), Table(capella, start, hi), Table(deneb, start, hi), lo, hi)
         == Promised(altair, capella, deneb, lo, hi)
    decreases hi - lo
  {
    if lo < hi { PromisedIsInOrder(altair, capella, deneb, start, lo + 1, hi); }
  }

  /** The ranks name the true periods exactly when the range has no gap. */
  lemma RanksAreRightIff<V>(source: nat -> Probe<V>, lo: nat, hi: nat)
    requires lo <= hi
    ensures Labelled(Present(source, lo, hi), lo) == Table(source, lo, hi) <==> GapFree(source, lo, hi)
  {
    var labelled, table := Labelled(Present(source, lo, hi), lo), Table(source, lo, hi);
    if GapFree(source, lo, hi) {
      GapFreeLabels(source, lo, hi);
    }
    if labelled == table {
      forall p, q | lo <= p < q < hi && source(q).Found? ensures source(p).Found? {
        assert q in table;
        assert p in labelled;
      }
    }
  }

  lemma LabelOneMore<V>(updates: seq<V>, start: nat, v: V)
    ensures Labelled(updates + [v], start) == Labelled(updates, start)[start + |updates| := v]
  {
  }

  lemma TableOneMore<V>(source: nat -> Probe<V>, lo: nat, hi: nat)
    requires lo < hi
    ensures Table(source, lo, hi)
         == if source(hi - 1).Found? then Table(source, lo, hi - 1)[hi - 1 := source(hi - 1).value]
            else Table(source, lo, hi - 1)
  {
  }

  lemma PresentOneMore<V>(source: nat -> Probe<V>, lo: nat, hi: nat)
    requires lo < hi
    ensures Present(source, lo, hi)
         == if source(hi - 1).Found? then Present(source, lo, hi - 1) + [source(hi - 1).value]
            else Present(source, lo, hi - 1)
  {
  }

  lemma LabelStep<V>(source: nat -> Probe<V>, lo: nat, hi: nat)
    requires lo < hi && Labelled(Present(source, lo, hi - 1), lo) == Table(source, lo, hi - 1)
    requires source(hi - 1).Found? ==> |Present(source, lo, hi - 1)| == hi - 1 - lo
    ensures Labelled(Present(source, lo, hi), lo) == Table(source, lo, hi)
  {
    PresentOneMore(source, lo, hi);
    TableOneMore(source, lo, hi);
    if source(hi - 1).Found? { LabelOneMore(Present(source, lo, hi - 1), lo, source(hi - 1).value); }
  }

  lemma {:induction false} GapFreeLabels<V>(source: nat -> Probe<V>, lo: nat, hi: nat)
    requires lo <= hi && GapFree(source, lo, hi)
    ensures Labelled(Present(source, lo, hi), lo) == Table(source, lo, hi)
    decreases hi
  {
    if lo < hi {
      GapFreeLabels(source, lo, hi - 1);
      if source(hi - 1).Found? { FoundPrefix(source, lo, hi - 1); }
      LabelStep(source, lo, hi);
    }
  }

  /** The Altair read has no gap and misses no update that the probes reach. */
  ghost predicate ReadsAll<V>(altair: nat -> Probe<V>, start: nat, read: nat, end: nat) {
    GapFree(altair, start, read) && (read < end ==> !altair(read).Found?)
  }

  /** Then the merge returns the promised list. */
  lemma MergeIsRight<V>(altair: nat -> Probe<V>, capella: nat -> Probe<V>, deneb: nat -> Probe<V>,
                        start: nat, read: nat, end: nat)
    requires start <= read <= end <= read + 1 && ReadsAll(altair, start, read, end)
    ensures Updates(altair, capella, deneb, start, read, end) == Promised(altair, capella, deneb, start, end)
  {
    GapFreeLabels(altair, start, read);
    assert Table(altair, start, read) == Table(altair, start, end);
    PromisedIsInOrder(altair, capella, deneb, start, start, end);
  }

  /** The ends meet exactly when the window does not overflow. */
  lemma EndsMeetIff(start: nat, count: nat)
    requires start <= U64_MAX
    ensures Saturate(start + count) == End(start, count) <==> start + count <= U64_MAX
    ensures start + count <= U64_MAX ==> End(start, count) == start + count
  {
  }

  // ── a gap loses updates ─────────────────────────────────────────────────────

  lemma {:induction false} InsertLengthens<V>(m: map<nat, V>, k: nat, v: V, lo: nat, hi: nat)
    requires lo <= k < hi
    ensures |InOrder(m[k := v], lo, hi)| == |InOrder(m, lo, hi)| + if k in m then 0 else 1
    decreases hi - lo
  {
    if lo == k {
      InOrderFrame(m, m[k := v], lo + 1, hi);
    } else {
      InsertLengthens(m, k, v, lo + 1, hi);
    }
  }

  lemma {:induction false} InOrderFrame<V>(m: map<nat, V>, n: map<nat, V>, lo: nat, hi: nat)
    requires lo <= hi && forall p :: lo <= p < hi ==> (p in m <==> p in n) && (p in m ==> m[p] == n[p])
    ensures InOrder(m, lo, hi) == InOrder(n, lo, hi)
    decreases hi - lo
  {
    if lo < hi { InOrderFrame(m, n, lo + 1, hi); }
  }

  function At<V>(m: map<nat, V>, k: nat): seq<V> { if k in m then [m[k]] else [] }

  lemma Associates<T>(a: seq<T>, b: seq<T>, c: seq<T>)
    ensures (a + b) + c == a + (b + c)
  {
  }

  lemma {:induction false} InOrderAppends<V>(m: map<nat, V>, lo: nat, hi: nat)
    requires lo < hi
    ensures InOrder(m, lo, hi) == InOrder(m, lo, hi - 1) + At(m, hi - 1)
    decreases hi - lo
  {
    if lo + 1 < hi {
      InOrderAppends(m, lo + 1, hi);
      Associates(At(m, lo), InOrder(m, lo + 1, hi - 1), At(m, hi - 1));
    }
  }

  lemma {:induction false} TableHoldsPresent<V>(source: nat -> Probe<V>, lo: nat, hi: nat)
    requires lo <= hi
    ensures InOrder(Table(source, lo, hi), lo, hi) == Present(source, lo, hi)
    decreases hi
  {
    if lo < hi {
      TableHoldsPresent(source, lo, hi - 1);
      InOrderAppends(Table(source, lo, hi), lo, hi);
      InOrderFrame(Table(source, lo, hi), Table(source, lo, hi - 1), lo, hi - 1);
    }
  }

  lemma {:induction false} LabelsHoldUpdates<V>(updates: seq<V>, start: nat, i: nat, hi: nat)
    requires i <= |updates| && start + |updates| <= hi
    ensures |InOrder(Labelled(updates, start), start + i, hi)| == |updates| - i
    decreases |updates| - i
  {
    var m := Labelled(updates, start);
    if i == |updates| {
      SkipTo(m, start + i, hi, hi);
    } else {
      LabelsHoldUpdates(updates, start, i + 1, hi);
    }
  }

  /** The first empty period before some update. */
  lemma {:induction false} FirstGap<V>(source: nat -> Probe<V>, lo: nat, hi: nat) returns (gap: nat)
    requires !GapFree(source, lo, hi)
    ensures lo <= gap < hi && !source(gap).Found?
    ensures gap - lo < |Present(source, lo, hi)|
    decreases hi - lo
  {
    var p, q :| lo <= p < q < hi && source(q).Found? && !source(p).Found?;
    gap := lo;
    while source(gap).Found?
      invariant lo <= gap <= p && forall k :: lo <= k < gap ==> source(k).Found?
      decreases p - gap
    {
      gap := gap + 1;
    }
    FoundPrefix(source, lo, gap);
    PresentGrows(source, lo, gap, q);
    PresentGrows(source, lo, q + 1, hi);
  }

  lemma {:induction false} FoundPrefix<V>(source: nat -> Probe<V>, lo: nat, hi: nat)
    requires lo <= hi && forall q :: lo <= q < hi ==> source(q).Found?
    ensures |Present(source, lo, hi)| == hi - lo
    decreases hi
  {
    if lo < hi { FoundPrefix(source, lo, hi - 1); }
  }

  lemma {:induction false} PresentGrows<V>(source: nat -> Probe<V>, lo: nat, mid: nat, hi: nat)
    requires lo <= mid <= hi
    ensures |Present(source, lo, mid)| <= |Present(source, lo, hi)|
    decreases hi
  {
    if mid < hi { PresentGrows(source, lo, mid, hi - 1); }
  }

  function Only<V>(k: nat, v: V): nat -> Probe<V> { p => if p == k then Found(v) else Absent }
  function Nothing<V>(): nat -> Probe<V> { p => Absent }

  lemma OnlyTable<V>(k: nat, v: V, lo: nat, hi: nat)
    requires lo <= k < hi
    ensures Table(Only(k, v), lo, hi) == map[k := v] && Table(Nothing<V>(), lo, hi) == map[]
  {
  }

  lemma PromisedLength<V>(altair: nat -> Probe<V>, k: nat, v: V, start: nat, hi: nat)
    requires start <= k < hi && !altair(k).Found?
    ensures |Promised(altair, Only(k, v), Nothing(), start, hi)| == |Present(altair, start, hi)| + 1
  {
    PromisedIsInOrder(altair, Only(k, v), Nothing(), start, start, hi);
    OnlyTable(k, v, start, hi);
    OneOverlay(Table(altair, start, hi), k, v, start, hi);
    TableHoldsPresent(altair, start, hi);
  }

  lemma UpdatesLength<V>(altair: nat -> Probe<V>, k: nat, v: V, start: nat, read: nat, end: nat)
    requires start <= k < read <= end && k - start < |Present(altair, start, read)|
    ensures |Updates(altair, Only(k, v), Nothing(), start, read, end)| == |Present(altair, start, read)|
  {
    OnlyTable(k, v, start, end);
    PresentFits(altair, start, read);
    LabelledLength(Present(altair, start, read), k, v, start, end);
  }

  lemma LabelledLength<V>(updates: seq<V>, k: nat, v: V, start: nat, hi: nat)
    requires start <= k < start + |updates| <= hi
    ensures |MergedInOrder(Labelled(updates, start), map[k := v], map[], start, hi)| == |updates|
  {
    OneOverlay(Labelled(updates, start), k, v, start, hi);
    LabelsHoldUpdates(updates, start, 0, hi);
  }

  /**
    With a gap, one Capella update in the empty period overwrites the Altair update that
    slid into its place: the returned list is one entry short.
   */
  lemma GapLosesAnUpdate<V>(altair: nat -> Probe<V>, start: nat, read: nat, end: nat, v: V) returns (gap: nat)
    requires start <= read <= end <= read + 1 && !GapFree(altair, start, read)
    requires read < end ==> !altair(read).Found?
    ensures start <= gap < end && !altair(gap).Found?
    ensures |Updates(altair, Only(gap, v), Nothing(), start, read, end)| + 1
         == |Promised(altair, Only(gap, v), Nothing(), start, end)|
  {
    gap := FirstGap(altair, start, read);
    UpdatesLength(altair, gap, v, start, read, end);
    PromisedLength(altair, gap, v, start, end);
  }

  lemma AloneInOrder<V>(m: map<nat, V>, lo: nat, hi: nat)
    requires lo <= hi
    ensures MergedInOrder(m, Table(Nothing(), lo, hi), Table(Nothing(), lo, hi), lo, hi) == InOrder(m, lo, hi)
  {
    assert Merged(m, Table(Nothing(), lo, hi), Table(Nothing(), lo, hi)) == m;
  }

  lemma UpdatesAlone<V>(altair: nat -> Probe<V>, start: nat, read: nat, end: nat)
    requires start <= read <= end
    ensures |Updates(altair, Nothing(), Nothing(), start, read, end)| == |Present(altair, start, read)|
  {
    PresentFits(altair, start, read);
    LabelledAlone(Present(altair, start, read), start, end);
  }

  lemma LabelledAlone<V>(updates: seq<V>, start: nat, end: nat)
    requires start + |updates| <= end
    ensures var none := Table(Nothing<V>(), start, end);
            |MergedInOrder(Labelled(updates, start), none, none, start, end)| == |updates|
  {
    AloneInOrder(Labelled(updates, start), start, end);
    LabelsHoldUpdates(updates, start, 0, end);
  }

  lemma PromisedAlone<V>(altair: nat -> Probe<V>, start: nat, end: nat)
    requires start <= end
    ensures Promised(altair, Nothing(), Nothing(), start, end) == Present(altair, start, end)
  {
    PromisedIsInOrder(altair, Nothing(), Nothing(), start, start, end);
    AloneInOrder(Table(altair, start, end), start, end);
    TableHoldsPresent(altair, start, end);
  }

  /** An Altair update in the period that only the probes reach is left out, whatever the other sources lack. */
  lemma LastPeriodIsLost<V>(altair: nat -> Probe<V>, start: nat, read: nat)
    requires start <= read && altair(read).Found?
    ensures |Updates(altair, Nothing(), Nothing(), start, read, read + 1)| + 1
         == |Promised(altair, Nothing(), Nothing(), start, read + 1)|
  {
    UpdatesAlone(altair, start, read, read + 1);
    PromisedAlone(altair, start, read + 1);
    PresentOneMore(altair, start, read + 1);
  }

  lemma OneOverlay<V>(m: map<nat, V>, k: nat, v: V, lo: nat, hi: nat)
    requires lo <= k < hi
    ensures |MergedInOrder(m, map[k := v], map[], lo, hi)| == |InOrder(m, lo, hi)| + if k in m then 0 else 1
  {
    InsertLengthens(m, k, v, lo, hi);
    assert Merged(m, map[k := v], map[]) == m[k := v];
  }

  ghost predicate MergesRight<V>(altair: nat -> Probe<V>, capella: nat -> Probe<V>, deneb: nat -> Probe<V>,
                                 start: nat, read: nat, end: nat)
    requires start <= read && start <= end
  {
    Updates(altair, capella, deneb, start, read, end) == Promised(altair, capella, deneb, start, end)
  }

  lemma RightOnWindowIff<V(!new)>(altair: nat -> Probe<V>, start: nat, read: nat, end: nat, v: V)
    requires start <= read <= end <= read + 1
    ensures (forall capella, deneb :: MergesRight(altair, capella, deneb, start, read, end))
       <==> ReadsAll(altair, start, read, end)
  {
    if ReadsAll(altair, start, read, end) {
      forall capella, deneb ensures MergesRight(altair, capella, deneb, start, read, end) {
        MergeIsRight(altair, capella, deneb, start, read, end);
      }
    } else if read < end && altair(read).Found? {
      LastPeriodIsLost(altair, start, read);
      assert !MergesRight(altair, Nothing(), Nothing(), start, read, end);
    } else {
      var gap := GapLosesAnUpdate(altair, start, read, end, v);
      assert !MergesRight(altair, Only(gap, v), Nothing(), start, read, end);
    }
  }

  /**
    On every request the merge is right for all Capella and Deneb contents exactly when Altair
    has no gap in the range read and, if the range overflows, no update in the last period.
   */
  lemma MergeIsRightIff<V(!new)>(altair: nat -> Probe<V>, start: nat, count: nat, v: V)
    requires start <= U64_MAX
    ensures var read, end := Saturate(start + count), End(start, count);
            (forall capella, deneb :: MergesRight(altair, capella, deneb, start, read, end))
            <==> GapFree(altair, start, read) && (start + count > U64_MAX ==> !altair(U64_MAX).Found?)
  {
    EndsMeetIff(start, count);
    RightOnWindowIff(altair, start, Saturate(start + count), End(start, count), v);
  }

  lemma SwapPasses<V>(base: map<nat, V>, b: map<nat, V>, c: map<nat, V>)
    requires b.Keys !! c.Keys
    ensures base + b + c == base + c + b
  {
  }

  /** If each period exists in one source only, the three passes give one list in any order. */
  lemma PassesCommute<V>(a: map<nat, V>, b: map<nat, V>, c: map<nat, V>, lo: nat, hi: nat)
    requires a.Keys !! b.Keys && a.Keys !! c.Keys && b.Keys !! c.Keys
    requires lo <= hi
    ensures MergedInOrder(a, b, c, lo, hi) == MergedInOrder(a, c, b, lo, hi) == MergedInOrder(b, a, c, lo, hi)
    ensures MergedInOrder(b, c, a, lo, hi) == MergedInOrder(c, a, b, lo, hi) == MergedInOrder(c, b, a, lo, hi)
    ensures MergedInOrder(a, b, c, lo, hi) == MergedInOrder(c, a, b, lo, hi)
  {
    var none: map<nat, V> := map[];
    assert none + a == a && none + b == b && none + c == c;
    SwapPasses(a, b, c);
    SwapPasses(b, a, c);
    SwapPasses(c, a, b);
    SwapPasses(none, a, b);
    SwapPasses(none, a, c);
  }
}
