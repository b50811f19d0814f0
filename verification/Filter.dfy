/**
  The `--filter` grammar of `crates/pharos-conformance/src/filter.rs`:
  comma-separated `fork[/category[/preset]]` patterns, any of which selects a row.
 */
module Filter {
  import opened Types

  datatype Pattern = Pattern(fork: string, category: Option<string>, preset: Option<string>)

  // ── splitting and joining ───────────────────────────────────────────────────

  /** `str::split`: one more part than separators, so never empty. */
  function Split(s: string, sep: char): (parts: seq<string>)
    ensures parts != []
  {
    if s == [] then [[]]
    else
      var rest := Split(s[1..], sep);
      if s[0] == sep then [[]] + rest else [[s[0]] + rest[0]] + rest[1..]
  }

  function Join(parts: seq<string>, sep: char): string
    requires parts != []
  {
    if |parts| == 1 then parts[0] else parts[0] + [sep] + Join(parts[1..], sep)
  }

  predicate Free(part: string, sep: char) { sep !in part }

  lemma {:induction false} SplitParts(s: string, sep: char)
    ensures forall i :: 0 <= i < |Split(s, sep)| ==> Free(Split(s, sep)[i], sep)
  {
    if s != [] { SplitParts(s[1..], sep); }
  }

  lemma {:induction false} SplitKeepsFree(s: string, sep: char, other: char)
    requires Free(s, other)
    ensures forall i :: 0 <= i < |Split(s, sep)| ==> Free(Split(s, sep)[i], other)
  {
    if s != [] {
      assert s[0] in s && forall c :: c in s[1..] ==> c in s;
      SplitKeepsFree(s[1..], sep, other);
    }
  }

  /** Joining undoes splitting. */
  lemma {:induction false} JoinSplit(s: string, sep: char)
    ensures Join(Split(s, sep), sep) == s
  {
    if s != [] {
      JoinSplit(s[1..], sep);
      var rest := Split(s[1..], sep);
      if s[0] != sep {
        var parts := [[s[0]] + rest[0]] + rest[1..];
        if |rest| > 1 { assert parts[1..] == rest[1..]; }
      } else {
        assert ([[]] + rest)[1..] == rest;
      }
      assert s == [s[0]] + s[1..];
    }
  }

  /** Splitting undoes joining, when no part holds the separator. */
  lemma {:induction false} SplitJoin(parts: seq<string>, sep: char)
    requires parts != [] && forall i :: 0 <= i < |parts| ==> Free(parts[i], sep)
    ensures Split(Join(parts, sep), sep) == parts
    decreases |parts|, if parts == [] then 0 else |parts[0]|
  {
    var s := Join(parts, sep);
    if parts[0] == [] {
      if |parts| > 1 {
        SplitJoin(parts[1..], sep);
        assert s[1..] == Join(parts[1..], sep);
        assert parts == [[]] + parts[1..];
      }
    } else {
      var shorter := [parts[0][1..]] + parts[1..];
      assert shorter[1..] == parts[1..];
      SplitJoin(shorter, sep);
      assert s[0] == parts[0][0] && s[0] in parts[0];
      assert s[1..] == Join(shorter, sep);
      assert parts[0] == [parts[0][0]] + parts[0][1..];
    }
  }

  // ── parsing ─────────────────────────────────────────────────────────────────

  predicate Accepts(segments: seq<string>) {
    0 < |segments| <= 3 && forall i :: 0 <= i < |segments| ==> segments[i] != []
  }

  function FromSegments(segments: seq<string>): Pattern
    requires Accepts(segments)
  {
    Pattern(segments[0],
            if |segments| > 1 then Some(segments[1]) else None,
            if |segments| > 2 then Some(segments[2]) else None)
  }

  /** The patterns of the first raw parts, or nothing once one is malformed. */
  function ParseRaws(raws: seq<string>): Option<seq<Pattern>> {
    if raws == [] then Some([])
    else
      var front, segments := ParseRaws(raws[..|raws| - 1]), Split(raws[|raws| - 1], '/');
      if front.Some? && Accepts(segments) then Some(front.value + [FromSegments(segments)]) else None
  }

  function Parse(value: string): Option<seq<Pattern>> { ParseRaws(Split(value, ',')) }

  /** `parse_filter_patterns`: pushes patterns until one raw part is malformed. */
  method ParseFilterPatterns(value: string) returns (r: Option<seq<Pattern>>)
    ensures r == Parse(value)
  {
    var raws := Split(value, ',');
    var patterns := [];
    for i := 0 to |raws|
      invariant ParseRaws(raws[..i]) == Some(patterns)
    {
      var segments := Split(raws[i], '/');
      assert raws[..i + 1][..i] == raws[..i];
      if |segments| == 1 && segments[0] == [] { MalformedRejects(raws, i); return None; }
      if |segments| > 3 { MalformedRejects(raws, i); return None; }
      for j := 0 to |segments|
        invariant forall k :: 0 <= k < j ==> segments[k] != []
      {
        if segments[j] == [] { MalformedRejects(raws, i); return None; }
      }
      patterns := patterns + [FromSegments(segments)];
    }
    assert raws[..|raws|] == raws;
    r := Some(patterns);
  }

  lemma {:induction false} MalformedRejects(raws: seq<string>, i: nat)
    requires i < |raws| && !Accepts(Split(raws[i], '/'))
    ensures ParseRaws(raws).None?
    decreases |raws|
  {
    var n := |raws| - 1;
    if i < n { MalformedRejects(raws[..n], i); }
  }

  // ── printing, and the grammar ───────────────────────────────────────────────

  predicate Segment(s: string) { s != [] && Free(s, ',') && Free(s, '/') }

  /** A pattern the grammar can spell: a preset needs a category. */
  predicate Spellable(p: Pattern) {
    && Segment(p.fork)
    && (p.category.Some? ==> Segment(p.category.value))
    && (p.preset.Some? ==> p.category.Some? && Segment(p.preset.value))
  }

  function Segments(p: Pattern): (segments: seq<string>)
    ensures 0 < |segments| <= 3
  {
    [p.fork] + (if p.category.Some? then [p.category.value] else [])
             + (if p.category.Some? && p.preset.Some? then [p.preset.value] else [])
  }

  function Print(p: Pattern): string { Join(Segments(p), '/') }

  function PrintEach(ps: seq<Pattern>): (raws: seq<string>)
    ensures |raws| == |ps|
    ensures forall i :: 0 <= i < |ps| ==> raws[i] == Print(ps[i])
  {
    seq(|ps|, i requires 0 <= i < |ps| => Print(ps[i]))
  }

  function PrintAll(ps: seq<Pattern>): string
    requires ps != []
  {
    Join(PrintEach(ps), ',')
  }

  lemma {:induction false} JoinFree(parts: seq<string>, sep: char, other: char)
    requires parts != [] && sep != other && forall i :: 0 <= i < |parts| ==> Free(parts[i], other)
    ensures Free(Join(parts, sep), other)
  {
    if |parts| > 1 { JoinFree(parts[1..], sep, other); }
  }

  lemma SegmentsRoundTrip(p: Pattern)
    requires Spellable(p)
    ensures Split(Print(p), '/') == Segments(p) && Accepts(Segments(p)) && FromSegments(Segments(p)) == p
    ensures Free(Print(p), ',')
  {
    SplitJoin(Segments(p), '/');
    JoinFree(Segments(p), '/', ',');
  }

  lemma {:induction false} RawsRoundTrip(ps: seq<Pattern>)
    requires forall i :: 0 <= i < |ps| ==> Spellable(ps[i])
    ensures ParseRaws(PrintEach(ps)) == Some(ps)
  {
    if ps != [] {
      var n := |ps| - 1;
      RawsRoundTrip(ps[..n]);
      SegmentsRoundTrip(ps[n]);
      assert PrintEach(ps)[..n] == PrintEach(ps[..n]);
      assert ps == ps[..n] + [ps[n]];
    }
  }

  /** Parsing undoes printing for every non-empty list of spellable patterns. */
  lemma ParsePrinted(ps: seq<Pattern>)
    requires ps != [] && forall i :: 0 <= i < |ps| ==> Spellable(ps[i])
    ensures Parse(PrintAll(ps)) == Some(ps)
  {
    forall i | 0 <= i < |ps| ensures Free(PrintEach(ps)[i], ',') { SegmentsRoundTrip(ps[i]); }
    SplitJoin(PrintEach(ps), ',');
    RawsRoundTrip(ps);
  }

  lemma AcceptedIsSpellable(raw: string)
    requires Free(raw, ',') && Accepts(Split(raw, '/'))
    ensures Spellable(FromSegments(Split(raw, '/'))) && Print(FromSegments(Split(raw, '/'))) == raw
  {
    var segments := Split(raw, '/');
    SplitParts(raw, '/');
    SplitKeepsFree(raw, '/', ',');
    JoinSplit(raw, '/');
    assert Segments(FromSegments(segments)) == segments;
  }

  lemma {:induction false} ParsedAreSpellable(raws: seq<string>)
    requires ParseRaws(raws).Some? && forall i :: 0 <= i < |raws| ==> Free(raws[i], ',')
    ensures forall i :: 0 <= i < |ParseRaws(raws).value| ==> Spellable(ParseRaws(raws).value[i])
    ensures PrintEach(ParseRaws(raws).value) == raws
  {
    if raws != [] {
      var n := |raws| - 1;
      ParsedAreSpellable(raws[..n]);
      AcceptedIsSpellable(raws[n]);
      assert raws == raws[..n] + [raws[n]];
    }
  }

  /** The parser accepts exactly the grammar: `value` parses to `ps` iff it spells `ps`. */
  lemma ParsesIffSpelled(value: string, ps: seq<Pattern>)
    ensures Parse(value) == Some(ps)
       <==> ps != [] && (forall i :: 0 <= i < |ps| ==> Spellable(ps[i])) && value == PrintAll(ps)
  {
    if Parse(value) == Some(ps) {
      SplitParts(value, ',');
      ParsedAreSpellable(Split(value, ','));
      JoinSplit(value, ',');
    }
    if ps != [] && (forall i :: 0 <= i < |ps| ==> Spellable(ps[i])) && value == PrintAll(ps) {
      ParsePrinted(ps);
    }
  }

  // ── matching ────────────────────────────────────────────────────────────────

  /** Rows that do not depend on a preset carry the name `-`. */
  predicate Selects(p: Pattern, fork: string, category: string, preset: string) {
    && p.fork == fork
    && (p.category.None? || p.category.value == category)
    && (p.preset.None? || p.preset.value == preset || preset == "-")
  }

  predicate Matches(patterns: seq<Pattern>, fork: string, category: string, preset: string) {
    patterns == [] || exists i :: 0 <= i < |patterns| && Selects(patterns[i], fork, category, preset)
  }

  /** Two lists together select what either selects, unless one is the empty filter. */
  lemma MatchesConcat(a: seq<Pattern>, b: seq<Pattern>, fork: string, category: string, preset: string)
    requires a != [] && b != []
    ensures Matches(a + b, fork, category, preset)
       <==> Matches(a, fork, category, preset) || Matches(b, fork, category, preset)
  {
    var all := a + b;
    if i :| 0 <= i < |all| && Selects(all[i], fork, category, preset) {
      if i < |a| { assert Selects(a[i], fork, category, preset); }
      else { assert Selects(b[i - |a|], fork, category, preset); }
    }
    if i :| 0 <= i < |a| && Selects(a[i], fork, category, preset) { assert all[i] == a[i]; }
    if i :| 0 <= i < |b| && Selects(b[i], fork, category, preset) { assert all[|a| + i] == b[i]; }
  }
}
