/**
  `json_values_equivalent` of `crates/pharos-conformance/src/engine.rs`: all-string
  arrays are compared as multisets, other arrays by position, objects by key.
  Objects are unordered as in section 4 of RFC 8259.
 */
module JsonEquivalence {

  import opened JsonValue
  import Sorting

  // ── sorting strings ─────────────────────────────────────────────────────────

  /** Lexicographic order on character codes. */
  predicate Leq(a: string, b: string) {
    a == [] || (b != [] && (a[0] < b[0] || (a[0] == b[0] && Leq(a[1..], b[1..]))))
  }

  lemma {:induction false} LeqTotal(a: string, b: string)
    ensures Leq(a, b) || Leq(b, a)
    ensures Leq(a, b) && Leq(b, a) ==> a == b
  {
    if a != [] && b != [] && a[0] == b[0] {
      LeqTotal(a[1..], b[1..]);
      assert a == [a[0]] + a[1..] && b == [b[0]] + b[1..];
    }
  }

  lemma {:induction false} LeqTransitive(a: string, b: string, c: string)
    requires Leq(a, b) && Leq(b, c)
    ensures Leq(a, c)
  {
    if a != [] && a[0] == b[0] == c[0] { LeqTransitive(a[1..], b[1..], c[1..]); }
  }

  const TEXT_ORDER := (a: string, b: string) => Leq(a, b)

  function Sort(texts: seq<string>): (r: seq<string>)
    ensures |r| == |texts|
  {
    Sorting.Sort(texts, TEXT_ORDER)
  }

  /** Sorting texts forgets exactly their order. */
  lemma SortForgetsOrder(xs: seq<string>, ys: seq<string>)
    ensures Sort(xs) == Sort(ys) <==> multiset(xs) == multiset(ys)
  {
    assert Sorting.Order(TEXT_ORDER) by {
      forall a, b ensures TEXT_ORDER(a, b) || TEXT_ORDER(b, a) { LeqTotal(a, b); }
      forall a, b, c | TEXT_ORDER(a, b) && TEXT_ORDER(b, c) ensures TEXT_ORDER(a, c) { LeqTransitive(a, b, c); }
    }
    forall i, j | 0 <= i < |xs| && 0 <= j < |xs| && TEXT_ORDER(xs[i], xs[j]) && TEXT_ORDER(xs[j], xs[i])
      ensures xs[i] == xs[j]
    {
      LeqTotal(xs[i], xs[j]);
    }
    Sorting.SortForgetsOrder(xs, ys, TEXT_ORDER);
  }

  // ── the comparison ──────────────────────────────────────────────────────────

  predicate AllStrings(xs: seq<Json>) { forall i :: 0 <= i < |xs| ==> xs[i].Str? }

  function Texts(xs: seq<Json>): seq<string>
    requires AllStrings(xs)
  {
    seq(|xs|, i requires 0 <= i < |xs| => xs[i].s)
  }

  /** `json_values_equivalent`. */
  predicate Equivalent(a: Json, b: Json)
    decreases a
  {
    match (a, b)
    case (Array(av), Array(bv)) =>
      if AllStrings(av) && AllStrings(bv) then Sort(Texts(av)) == Sort(Texts(bv))
      else |av| == |bv| && forall i :: 0 <= i < |av| ==> Equivalent(av[i], bv[i])
    case (Object(ao), Object(bo)) =>
      |ao| == |bo| && forall k :: k in ao ==> k in bo && Equivalent(ao[k], bo[k])
    case _ => a == b
  }

  // ── the reference: canonical forms ──────────────────────────────────────────

  /** All-string arrays sorted at every depth; everything else kept. */
  function Canonical(a: Json): Json
    decreases a
  {
    match a
    case Array(xs) => if AllStrings(xs) then Array(SortStrings(xs)) else Array(CanonicalItems(xs))
    case Object(fs) => Object(map k | k in fs :: Canonical(fs[k]))
    case _ => a
  }

  function SortStrings(xs: seq<Json>): seq<Json>
    requires AllStrings(xs)
  {
    var sorted := Sort(Texts(xs));
    seq(|sorted|, i requires 0 <= i < |sorted| => Str(sorted[i]))
  }

  function CanonicalItems(xs: seq<Json>): (r: seq<Json>)
    ensures |r| == |xs|
    ensures forall i :: 0 <= i < |xs| ==> r[i] == Canonical(xs[i])
    decreases xs
  {
    seq(|xs|, i requires 0 <= i < |xs| => Canonical(xs[i]))
  }

  lemma SortedStringsAgree(xs: seq<Json>, ys: seq<Json>)
    requires AllStrings(xs) && AllStrings(ys)
    ensures SortStrings(xs) == SortStrings(ys) <==> Sort(Texts(xs)) == Sort(Texts(ys))
  {
    var sx, sy := Sort(Texts(xs)), Sort(Texts(ys));
    if SortStrings(xs) == SortStrings(ys) {
      assert |sx| == |SortStrings(xs)| == |sy|;
      forall i | 0 <= i < |sx| ensures sx[i] == sy[i] {
        assert SortStrings(xs)[i] == Str(sx[i]) && SortStrings(ys)[i] == Str(sy[i]);
      }
    }
  }

  /** An all-string array is never equivalent to one that holds something else. */
  lemma MixedArraysDiffer(xs: seq<Json>, ys: seq<Json>)
    requires AllStrings(xs) && !AllStrings(ys)
    ensures !Equivalent(Array(xs), Array(ys)) && !Equivalent(Array(ys), Array(xs))
    ensures Canonical(Array(xs)) != Canonical(Array(ys))
  {
    var i :| 0 <= i < |ys| && !ys[i].Str?;
    assert !Canonical(ys[i]).Str?;
    if |xs| == |ys| {
      assert !Equivalent(xs[i], ys[i]) && !Equivalent(ys[i], xs[i]);
      assert SortStrings(xs)[i].Str? && !CanonicalItems(ys)[i].Str?;
    }
  }

  lemma SameKeys<K, V>(a: map<K, V>, b: map<K, V>)
    requires |a| == |b| && a.Keys <= b.Keys
    ensures a.Keys == b.Keys
  {
    SameSize(a.Keys, b.Keys);
  }

  lemma {:induction false} SameSize<K>(a: set<K>, b: set<K>)
    requires |a| == |b| && a <= b
    ensures a == b
  {
    if a != {} {
      var x :| x in a;
      SameSize(a - {x}, b - {x});
    }
  }

  /** The comparison is equality of canonical forms. */
  lemma {:induction false} EquivalentIffCanonical(a: Json, b: Json)
    ensures Equivalent(a, b) <==> Canonical(a) == Canonical(b)
    decreases a, 1
  {
    match (a, b)
    case (Array(xs), Array(ys)) =>
      if AllStrings(xs) && AllStrings(ys) {
        SortedStringsAgree(xs, ys);
      } else if AllStrings(xs) {
        MixedArraysDiffer(xs, ys);
      } else if AllStrings(ys) {
        MixedArraysDiffer(ys, xs);
      } else {
        ItemsAgree(xs, ys);
      }
    case (Object(ao), Object(bo)) => FieldsAgree(ao, bo);
    case _ =>
  }

  lemma {:induction false} ItemsAgree(xs: seq<Json>, ys: seq<Json>)
    ensures (|xs| == |ys| && forall i :: 0 <= i < |xs| ==> Equivalent(xs[i], ys[i]))
       <==> CanonicalItems(xs) == CanonicalItems(ys)
    decreases Array(xs), 0
  {
    if |xs| == |ys| {
      forall i | 0 <= i < |xs| ensures Equivalent(xs[i], ys[i]) <==> CanonicalItems(xs)[i] == CanonicalItems(ys)[i] {
        EquivalentIffCanonical(xs[i], ys[i]);
      }
    }
  }

  lemma {:induction false} FieldsAgree(ao: map<string, Json>, bo: map<string, Json>)
    ensures Equivalent(Object(ao), Object(bo)) <==> Canonical(Object(ao)) == Canonical(Object(bo))
    decreases Object(ao), 0
  {
    var ca, cb := Canonical(Object(ao)).fields, Canonical(Object(bo)).fields;
    assert ca.Keys == ao.Keys && cb.Keys == bo.Keys;
    forall k | k in ao && k in bo ensures Equivalent(ao[k], bo[k]) <==> ca[k] == cb[k] {
      EquivalentIffCanonical(ao[k], bo[k]);
    }
    if Equivalent(Object(ao), Object(bo)) {
      SameKeys(ao, bo);
      assert ca == cb;
    }
    if ca == cb {
      assert |ao| == |ao.Keys| == |bo.Keys| == |bo|;
    }
  }

  lemma EquivalenceRelation(a: Json, b: Json, c: Json)
    ensures Equivalent(a, a)
    ensures Equivalent(a, b) ==> Equivalent(b, a)
    ensures Equivalent(a, b) && Equivalent(b, c) ==> Equivalent(a, c)
  {
    EquivalentIffCanonical(a, a);
    EquivalentIffCanonical(a, b);
    EquivalentIffCanonical(b, a);
    EquivalentIffCanonical(b, c);
    EquivalentIffCanonical(a, c);
  }

  // ── order of string arrays ──────────────────────────────────────────────────

  function Strings(texts: seq<string>): Json {
    Array(seq(|texts|, i requires 0 <= i < |texts| => Str(texts[i])))
  }

  lemma TextsOfStrings(texts: seq<string>)
    ensures AllStrings(Strings(texts).items) && Texts(Strings(texts).items) == texts
  {
  }

  /** String arrays compare as multisets, whatever the strings mean. */
  lemma StringsCompareAsMultisets(xs: seq<string>, ys: seq<string>)
    ensures Equivalent(Strings(xs), Strings(ys)) <==> multiset(xs) == multiset(ys)
  {
    TextsOfStrings(xs);
    TextsOfStrings(ys);
    SortForgetsOrder(xs, ys);
  }

  /**
    The promise that `transactions` compare by position fails for hex strings: a list
    is told apart from every other list exactly when all its entries are equal.
   */
  lemma PositionalIffAllEqual(xs: seq<string>)
    ensures (forall ys :: Equivalent(Strings(xs), Strings(ys)) ==> ys == xs)
       <==> (forall i :: 0 <= i < |xs| ==> xs[i] == xs[0])
  {
    if forall i :: 0 <= i < |xs| ==> xs[i] == xs[0] {
      forall ys | Equivalent(Strings(xs), Strings(ys)) ensures ys == xs {
        StringsCompareAsMultisets(xs, ys);
        ConstantIsAlone(xs, ys);
      }
    } else {
      var i :| 0 <= i < |xs| && xs[i] != xs[0];
      var ys := xs[0 := xs[i]][i := xs[0]];
      SwapKeepsElements(xs, i);
      StringsCompareAsMultisets(xs, ys);
      assert ys[0] != xs[0];
    }
  }

  lemma ConstantIsAlone(xs: seq<string>, ys: seq<string>)
    requires multiset(xs) == multiset(ys) && forall i :: 0 <= i < |xs| ==> xs[i] == xs[0]
    ensures ys == xs
  {
    assert |xs| == |multiset(xs)| == |multiset(ys)| == |ys|;
    forall i | 0 <= i < |ys| ensures ys[i] == xs[i] {
      assert ys[i] in multiset(ys);
      var j :| 0 <= j < |xs| && xs[j] == ys[i];
    }
  }

  lemma SwapKeepsElements(xs: seq<string>, i: nat)
    requires 0 < i < |xs|
    ensures multiset(xs[0 := xs[i]][i := xs[0]]) == multiset(xs)
  {
  }

  /** Two different transactions in the other order pass the comparison. */
  lemma SwappedTransactionsPass(x: string, y: string)
    requires x != y
    ensures Equivalent(Strings([x, y]), Strings([y, x]))
    ensures Strings([x, y]) != Strings([y, x])
  {
    StringsCompareAsMultisets([x, y], [y, x]);
    assert Strings([x, y]).items[0] == Str(x) && Strings([y, x]).items[0] == Str(y);
  }
}
