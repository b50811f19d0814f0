/**
  `parse_args_from` of `crates/pharos-conformance/src/cli.rs`: the argument loop, the
  mutual exclusion of `--filter` with the legacy flags, and the pattern they stand for.
 */
module Cli {
  import opened Types
  import opened Filter

  datatype Args = Args(patterns: seq<Pattern>, fork: Option<string>, category: Option<string>,
                       preset: Option<string>, write: bool, bail: bool)

  /** A parsed command line, an error return, or the process exit the parser performs. */
  datatype Outcome = Parsed(args: Args) | Error | Exit(code: nat)

  datatype Kind = WriteFlag | BailFlag | ForkFlag | CategoryFlag | PresetFlag | FilterFlag | HelpFlag | Unknown

  function KindOf(arg: string): Kind {
    if arg == "--write" then WriteFlag
    else if arg == "--bail" then BailFlag
    else if arg == "--fork" then ForkFlag
    else if arg == "--category" then CategoryFlag
    else if arg == "--preset" then PresetFlag
    else if arg == "--filter" then FilterFlag
    else if arg == "--help" || arg == "-h" then HelpFlag
    else Unknown
  }

  /** The variables of the loop. */
  datatype Scan = Scan(write: bool, bail: bool, fork: Option<string>, category: Option<string>,
                       preset: Option<string>, legacy: bool, patterns: Option<seq<Pattern>>)

  const START := Scan(false, false, None, None, None, false, None)

  /** What follows the loop. */
  function Finish(s: Scan): Outcome {
    if s.patterns.Some? && s.legacy then Exit(2)
    else if s.patterns.Some? then Parsed(Args(s.patterns.value, s.fork, s.category, s.preset, s.write, s.bail))
    else Parsed(Args(Legacy(s.fork, s.category, s.preset), s.fork, s.category, s.preset, s.write, s.bail))
  }

  /** The one pattern the legacy flags stand for; a missing fork becomes the empty name. */
  function Legacy(fork: Option<string>, category: Option<string>, preset: Option<string>): seq<Pattern> {
    if fork.Some? || category.Some? || preset.Some?
    then [Pattern(if fork.Some? then fork.value else "", category, preset)]
    else []
  }

  /** The rest of the loop and what follows it, from state `s`. */
  function Run(args: seq<string>, s: Scan): Outcome
    decreases |args|
  {
    if args == [] then Finish(s)
    else
      var kind := KindOf(args[0]);
      if kind == WriteFlag then Run(args[1..], s.(write := true))
      else if kind == BailFlag then Run(args[1..], s.(bail := true))
      else if kind == HelpFlag then Exit(0)
      else if kind == Unknown || |args| == 1 then Error
      else if !Accepted(kind, args[1]) then Exit(2)
      else Run(args[2..], Take(s, kind, args[1]))
  }

  predicate Valued(kind: Kind) { kind.ForkFlag? || kind.CategoryFlag? || kind.PresetFlag? || kind.FilterFlag? }

  predicate Accepted(kind: Kind, value: string) { kind == FilterFlag ==> Parse(value).Some? }

  function Take(s: Scan, kind: Kind, value: string): Scan
    requires Valued(kind)
  {
    if kind == ForkFlag then s.(fork := Some(value), legacy := true)
    else if kind == CategoryFlag then s.(category := Some(value), legacy := true)
    else if kind == PresetFlag then s.(preset := Some(value), legacy := true)
    else s.(patterns := Parse(value))
  }

  /** One turn of the loop, by position. */
  lemma RunFrom(args: seq<string>, i: nat, s: Scan)
    requires i < |args|
    ensures KindOf(args[i]) == WriteFlag ==> Run(args[i..], s) == Run(args[i + 1..], s.(write := true))
    ensures KindOf(args[i]) == BailFlag ==> Run(args[i..], s) == Run(args[i + 1..], s.(bail := true))
    ensures KindOf(args[i]) == HelpFlag ==> Run(args[i..], s) == Exit(0)
    ensures KindOf(args[i]) == Unknown ==> Run(args[i..], s) == Error
    ensures Valued(KindOf(args[i])) && i + 1 == |args| ==> Run(args[i..], s) == Error
    ensures Valued(KindOf(args[i])) && i + 1 < |args| && !Accepted(KindOf(args[i]), args[i + 1]) ==>
              Run(args[i..], s) == Exit(2)
    ensures Valued(KindOf(args[i])) && i + 1 < |args| && Accepted(KindOf(args[i]), args[i + 1]) ==>
              Run(args[i..], s) == Run(args[i + 2..], Take(s, KindOf(args[i]), args[i + 1]))
  {
    var rest := args[i..];
    assert rest[0] == args[i] && rest[1..] == args[i + 1..];
    if i + 1 < |args| { assert rest[1] == args[i + 1] && rest[2..] == args[i + 2..]; }
  }

  method ParseArgs(args: seq<string>) returns (r: Outcome)
    ensures r == Run(args, START)
  {
    var s := START;
    var i := 0;
    while i < |args|
      invariant i <= |args| && Run(args[i..], s) == Run(args, START)
      decreases |args| - i
    {
      var kind := KindOf(args[i]);
      RunFrom(args, i, s);
      if kind == WriteFlag {
        s := s.(write := true);
      } else if kind == BailFlag {
        s := s.(bail := true);
      } else if kind == HelpFlag {
        return Exit(0);
      } else if kind == Unknown {
        return Error;
      } else {
        i := i + 1;
        if i == |args| { return Error; }
        var ok;
        ok, s := TakeValue(s, kind, args[i]);
        if !ok { return Exit(2); }
      }
      i := i + 1;
    }
    r := Finish(s);
  }

  method TakeValue(s: Scan, kind: Kind, value: string) returns (ok: bool, t: Scan)
    requires Valued(kind)
    ensures ok <==> Accepted(kind, value)
    ensures ok ==> t == Take(s, kind, value)
  {
    if kind == FilterFlag {
      var patterns := ParseFilterPatterns(value);
      return patterns.Some?, s.(patterns := patterns);
    }
    return true, Take(s, kind, value);
  }

  // ── well-formed flags in any order ──────────────────────────────────────────

  datatype Flag =
    | Write | Bail
    | Fork(value: string) | Category(value: string) | Preset(value: string)
    | Only(value: string)

  function Words(f: Flag): seq<string> {
    match f
    case Write => ["--write"]
    case Bail => ["--bail"]
    case Fork(v) => ["--fork", v]
    case Category(v) => ["--category", v]
    case Preset(v) => ["--preset", v]
    case Only(v) => ["--filter", v]
  }

  function Line(flags: seq<Flag>): seq<string> {
    if flags == [] then [] else Words(flags[0]) + Line(flags[1..])
  }

  predicate SameKind(a: Flag, b: Flag) {
    match a
    case Write => b.Write?
    case Bail => b.Bail?
    case Fork(_) => b.Fork?
    case Category(_) => b.Category?
    case Preset(_) => b.Preset?
    case Only(_) => b.Only?
  }

  /** Each flag at most once, and the filter spelled right. */
  ghost predicate WellFormed(flags: seq<Flag>) {
    && DistinctKinds(flags)
    && (forall i :: 0 <= i < |flags| && flags[i].Only? ==> Parse(flags[i].value).Some?)
  }

  function Apply(s: Scan, f: Flag): Scan {
    match f
    case Write => s.(write := true)
    case Bail => s.(bail := true)
    case Fork(v) => Take(s, ForkFlag, v)
    case Category(v) => Take(s, CategoryFlag, v)
    case Preset(v) => Take(s, PresetFlag, v)
    case Only(v) => Take(s, FilterFlag, v)
  }

  function ApplyAll(s: Scan, flags: seq<Flag>): Scan
    decreases |flags|
  {
    if flags == [] then s else ApplyAll(Apply(s, flags[0]), flags[1..])
  }

  lemma Keywords()
    ensures KindOf("--write") == WriteFlag && KindOf("--bail") == BailFlag && KindOf("--fork") == ForkFlag
    ensures KindOf("--category") == CategoryFlag && KindOf("--preset") == PresetFlag && KindOf("--filter") == FilterFlag
  {
    assert "--fork"[2] == 'f' && "--bail"[2] == 'b';
    assert "--preset"[2] == 'p' && "--filter"[2] == 'f';
    assert |"--write"| == 7 && |"--bail"| == |"--fork"| == 6 && |"--category"| == 10;
    assert |"--preset"| == |"--filter"| == 8;
  }

  lemma {:induction false} LineRuns(flags: seq<Flag>, s: Scan)
    requires WellFormed(flags)
    ensures Run(Line(flags), s) == Finish(ApplyAll(s, flags))
    decreases |flags|
  {
    if flags != [] {
      Keywords();
      var rest := flags[1..];
      assert flags == [flags[0]] + rest;
      LineRuns(rest, Apply(s, flags[0]));
      OneFlagRuns(flags[0], Line(rest), s);
    }
  }

  lemma OneFlagRuns(f: Flag, rest: seq<string>, s: Scan)
    requires f.Only? ==> Parse(f.value).Some?
    ensures Run(Words(f) + rest, s) == Run(rest, Apply(s, f))
  {
    Keywords();
    var args := Words(f) + rest;
    if f.Write? || f.Bail? {
      assert args[1..] == rest;
    } else {
      assert args[2..] == rest;
    }
  }

  lemma FlagsCommute(s: Scan, f: Flag, g: Flag)
    requires !SameKind(f, g)
    ensures Apply(Apply(s, f), g) == Apply(Apply(s, g), f)
  {
  }

  lemma {:induction false} MoveFirst(s: Scan, flags: seq<Flag>, k: nat)
    requires k < |flags| && forall i :: 0 <= i < k ==> !SameKind(flags[i], flags[k])
    ensures ApplyAll(s, flags) == ApplyAll(Apply(s, flags[k]), Without(flags, k))
    decreases |flags|
  {
    if k == 0 {
      assert Without(flags, 0) == flags[1..];
    } else {
      var rest := flags[1..];
      MoveFirst(Apply(s, flags[0]), rest, k - 1);
      FlagsCommute(s, flags[0], flags[k]);
      var moved := Without(flags, k);
      assert moved[0] == flags[0] && moved[1..] == Without(rest, k - 1);
    }
  }

  ghost predicate DistinctKinds(flags: seq<Flag>) {
    forall i, j :: 0 <= i < j < |flags| ==> !SameKind(flags[i], flags[j])
  }

  function Without(flags: seq<Flag>, k: nat): seq<Flag>
    requires k < |flags|
  {
    flags[..k] + flags[k + 1..]
  }

  lemma WithoutKeepsDistinct(flags: seq<Flag>, k: nat)
    requires k < |flags| && DistinctKinds(flags)
    ensures DistinctKinds(Without(flags, k))
  {
  }

  lemma WithoutElements(flags: seq<Flag>, k: nat)
    requires k < |flags|
    ensures multiset(Without(flags, k)) == multiset(flags) - multiset{flags[k]}
  {
    assert flags == flags[..k] + ([flags[k]] + flags[k + 1..]);
  }

  lemma {:induction false} OrderDoesNotMatter(s: Scan, a: seq<Flag>, b: seq<Flag>)
    requires multiset(a) == multiset(b) && DistinctKinds(b)
    ensures ApplyAll(s, a) == ApplyAll(s, b)
    decreases |a|
  {
    assert |a| == |multiset(a)| == |multiset(b)| == |b|;
    if a != [] {
      assert a[0] in multiset(a);
      var k :| 0 <= k < |b| && b[k] == a[0];
      WithoutElements(a, 0);
      assert Without(a, 0) == a[1..];
      WithoutElements(b, k);
      WithoutKeepsDistinct(b, k);
      MoveFirst(s, b, k);
      OrderDoesNotMatter(Apply(s, a[0]), a[1..], Without(b, k));
    }
  }

  /** Distinct well-formed flags mean the same in every order. */
  lemma FlagsPermute(a: seq<Flag>, b: seq<Flag>)
    requires WellFormed(a) && WellFormed(b) && multiset(a) == multiset(b)
    ensures Run(Line(a), START) == Run(Line(b), START)
  {
    LineRuns(a, START);
    LineRuns(b, START);
    OrderDoesNotMatter(START, a, b);
  }

  // ── the legacy flags ────────────────────────────────────────────────────────

  function LegacyFlags(p: Pattern): seq<Flag> {
    [Fork(p.fork)] + (if p.category.Some? then [Category(p.category.value)] else [])
                   + (if p.preset.Some? then [Flag.Preset(p.preset.value)] else [])
  }

  /** `--fork F [--category C [--preset P]]` selects what `--filter F[/C[/P]]` selects. */
  lemma LegacyIsFilter(p: Pattern)
    requires Spellable(p)
    ensures Run(Line(LegacyFlags(p)), START).Parsed? && Run(Line([Only(Print(p))]), START).Parsed?
    ensures Run(Line(LegacyFlags(p)), START).args.patterns == Run(Line([Only(Print(p))]), START).args.patterns == [p]
  {
    LineRuns(LegacyFlags(p), START);
    ParsePrinted([p]);
    assert PrintAll([p]) == Print(p);
    assert WellFormed([Only(Print(p))]);
    LineRuns([Only(Print(p))], START);
    LegacyScan(p);
    FilterScan(Print(p));
  }

  lemma FirstApplies(s: Scan, f: Flag, rest: seq<Flag>)
    ensures ApplyAll(s, [f] + rest) == ApplyAll(Apply(s, f), rest)
  {
    assert ([f] + rest)[1..] == rest;
  }

  lemma LegacyScan(p: Pattern)
    requires p.preset.Some? ==> p.category.Some?
    ensures ApplyAll(START, LegacyFlags(p))
         == START.(fork := Some(p.fork), category := p.category, preset := p.preset, legacy := true)
  {
    var third := if p.preset.Some? then [Flag.Preset(p.preset.value)] else [];
    var second := if p.category.Some? then [Category(p.category.value)] + third else [];
    var s := Apply(START, Fork(p.fork));
    assert LegacyFlags(p) == [Fork(p.fork)] + second;
    FirstApplies(START, Fork(p.fork), second);
    if p.category.Some? {
      FirstApplies(s, Category(p.category.value), third);
      if p.preset.Some? {
        FirstApplies(Apply(s, Category(p.category.value)), Flag.Preset(p.preset.value), []);
        assert third == third + [];
      }
    }
  }

  lemma FilterScan(value: string)
    ensures ApplyAll(START, [Only(value)]) == START.(patterns := Parse(value))
  {
    assert [Only(value)][1..] == [];
  }

  /** What the legacy fields document: each flag that is given restricts the rows. */
  predicate AgreesWithFlags(fork: Option<string>, category: Option<string>, preset: Option<string>,
                            rowFork: string, rowCategory: string, rowPreset: string) {
    && (fork.Some? ==> fork.value == rowFork)
    && (category.Some? ==> category.value == rowCategory)
    && (preset.Some? ==> preset.value == rowPreset || rowPreset == "-")
  }

  ghost predicate KeepsMeaning(fork: Option<string>, category: Option<string>, preset: Option<string>) {
    forall f, c, p :: f != "" ==>
      (Matches(Legacy(fork, category, preset), f, c, p) <==> AgreesWithFlags(fork, category, preset, f, c, p))
  }

  lemma LegacySelects(fork: Option<string>, category: Option<string>, preset: Option<string>,
                      f: string, c: string, p: string)
    ensures Matches(Legacy(fork, category, preset), f, c, p)
       <==> AgreesWithFlags(fork, category, preset, f, c, p)
            && (fork.None? && (category.Some? || preset.Some?) ==> f == "")
  {
    var patterns := Legacy(fork, category, preset);
    if patterns != [] {
      assert Matches(patterns, f, c, p) <==> Selects(patterns[0], f, c, p);
    }
  }

  /**
    Legacy flags select exactly the named rows that agree with every given flag if and only if
    `--fork` is given, or neither `--category` nor `--preset` is.
   */
  lemma LegacyKeepsMeaningIff(fork: Option<string>, category: Option<string>, preset: Option<string>)
    ensures KeepsMeaning(fork, category, preset) <==> fork.Some? || (category.None? && preset.None?)
  {
    if fork.Some? || (category.None? && preset.None?) {
      forall f, c, p | f != ""
        ensures Matches(Legacy(fork, category, preset), f, c, p) <==> AgreesWithFlags(fork, category, preset, f, c, p)
      {
        LegacySelects(fork, category, preset, f, c, p);
      }
    } else {
      var f, c, p := "f", if category.Some? then category.value else "", if preset.Some? then preset.value else "";
      LegacySelects(fork, category, preset, f, c, p);
      assert AgreesWithFlags(fork, category, preset, f, c, p) && f != "";
    }
  }

  /** Legacy flags without a fork select rows of the empty fork name only: none that has a name. */
  lemma NoForkSelectsNothing(category: Option<string>, preset: Option<string>, row: string, cat: string, pre: string)
    requires (category.Some? || preset.Some?) && row != ""
    ensures !Matches(Legacy(None, category, preset), row, cat, pre)
  {
    LegacySelects(None, category, preset, row, cat, pre);
  }

  ghost predicate HasFilter(flags: seq<Flag>) { exists i :: 0 <= i < |flags| && flags[i].Only? }

  ghost predicate HasLegacy(flags: seq<Flag>) {
    exists i :: 0 <= i < |flags| && (flags[i].Fork? || flags[i].Category? || flags[i].Preset?)
  }

  /** `--filter` with any legacy flag exits with code 2. */
  lemma FilterExcludesLegacy(flags: seq<Flag>)
    requires WellFormed(flags)
    ensures Run(Line(flags), START) == Exit(2)
       <==> HasFilter(flags) && HasLegacy(flags)
  {
    LineRuns(flags, START);
    ScanRemembers(START, flags);
  }

  lemma FirstOrRest(flags: seq<Flag>)
    requires flags != []
    ensures HasFilter(flags) <==> flags[0].Only? || HasFilter(flags[1..])
    ensures HasLegacy(flags) <==> flags[0].Fork? || flags[0].Category? || flags[0].Preset? || HasLegacy(flags[1..])
  {
    forall i | 0 <= i < |flags| ensures flags[i] == if i == 0 then flags[0] else flags[1..][i - 1] {}
    forall i | 0 <= i < |flags[1..]| ensures flags[1..][i] == flags[i + 1] {}
  }

  lemma FlagRemembers(s: Scan, f: Flag)
    requires f.Only? ==> Parse(f.value).Some?
    ensures Apply(s, f).patterns.Some? <==> s.patterns.Some? || f.Only?
    ensures Apply(s, f).legacy <==> s.legacy || f.Fork? || f.Category? || f.Preset?
  {
  }

  lemma {:induction false} ScanRemembers(s: Scan, flags: seq<Flag>)
    requires forall i :: 0 <= i < |flags| && flags[i].Only? ==> Parse(flags[i].value).Some?
    ensures ApplyAll(s, flags).patterns.Some? <==> s.patterns.Some? || HasFilter(flags)
    ensures ApplyAll(s, flags).legacy <==> s.legacy || HasLegacy(flags)
    decreases |flags|
  {
    if flags != [] {
      FirstOrRest(flags);
      FlagRemembers(s, flags[0]);
      ScanRemembers(Apply(s, flags[0]), flags[1..]);
    }
  }
}
