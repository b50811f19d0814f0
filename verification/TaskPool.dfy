/**
  The flat work pool of the conformance harness: `fold` of
  `crates/pharos-conformance/src/task.rs`, and enumerators beside the eager
  runners of `bls.rs` and `engine.rs`. What a file or an example yields is an input.
 */
module TaskPool {
  import opened Types
  import Sorting

  datatype CaseOutcome = Pass | Skip | Fail(message: string)
  datatype Task = Task(row: nat, ordinal: nat, run: () -> CaseOutcome)
  datatype Entry = Entry(row: nat, ordinal: nat, outcome: CaseOutcome)
  datatype RowCounts = RowCounts(row: nat, pass: nat, fail: nat, skip: nat)

  // ── the eager runners' counters ─────────────────────────────────────────────

  datatype Tally = Tally(pass: nat, fail: nat, skip: nat, failures: seq<string>)

  function Messages(o: CaseOutcome): seq<string> { if o.Fail? then [o.message] else [] }

  function Count(t: Tally, o: CaseOutcome): Tally {
    match o
    case Pass => t.(pass := t.pass + 1)
    case Skip => t.(skip := t.skip + 1)
    case Fail(m) => t.(fail := t.fail + 1, failures := t.failures + [m])
  }

  function TallyOf(outcomes: seq<CaseOutcome>): Tally {
    if outcomes == [] then Tally(0, 0, 0, [])
    else Count(TallyOf(outcomes[..|outcomes| - 1]), outcomes[|outcomes| - 1])
  }

  lemma CountOneMore(outcomes: seq<CaseOutcome>, o: CaseOutcome)
    ensures TallyOf(outcomes + [o]) == Count(TallyOf(outcomes), o)
  {
    assert (outcomes + [o])[..|outcomes|] == outcomes;
  }

  lemma OneFailure(m: string)
    ensures TallyOf([Fail(m)]) == Tally(0, 1, 0, [m])
  {
    CountOneMore([], Fail(m));
    assert [] + [Fail(m)] == [Fail(m)];
  }

  /** Every outcome is counted once, and every failure leaves its message. */
  lemma {:induction false} TallyAddsUp(outcomes: seq<CaseOutcome>)
    ensures var t := TallyOf(outcomes);
            && t.pass + t.skip + t.fail == |outcomes| && |t.failures| == t.fail
            && (t.pass == |outcomes| <==> forall i :: 0 <= i < |outcomes| ==> outcomes[i].Pass?)
            && (t.fail == 0 <==> forall i :: 0 <= i < |outcomes| ==> !outcomes[i].Fail?)
  {
    if outcomes != [] {
      var n := |outcomes| - 1;
      TallyAddsUp(outcomes[..n]);
      assert outcomes == outcomes[..n] + [outcomes[n]];
      assert forall i :: 0 <= i < n ==> outcomes[..n][i] == outcomes[i];
    }
  }

  /** Tasks numbered from zero that run to the given outcomes. */
  ghost predicate Enumerates(tasks: seq<Task>, row: nat, outcomes: seq<CaseOutcome>) {
    && |tasks| == |outcomes|
    && forall i :: 0 <= i < |tasks| ==>
         tasks[i].row == row && tasks[i].ordinal == i && tasks[i].run() == outcomes[i]
  }

  // ── the BLS fixtures ────────────────────────────────────────────────────────

  datatype DataFile = Missing | Unreadable(message: string) | Malformed(message: string) | Ran(error: Option<string>)
  datatype DirEntry = Stray | CaseDir(data: DataFile)

  /** No base directory; else per sub-category its sorted listing, if it can be read. */
  type BlsTree = Option<seq<Option<seq<DirEntry>>>>

  function RunData(data: DataFile): CaseOutcome {
    match data
    case Missing => Skip
    case Unreadable(m) => Fail(m)
    case Malformed(m) => Fail(m)
    case Ran(error) => if error.Some? then Fail(error.value) else Pass
  }

  function Listed(entries: seq<DirEntry>): seq<CaseOutcome> {
    if entries == [] then []
    else
      var last := entries[|entries| - 1];
      Listed(entries[..|entries| - 1]) + if last.CaseDir? then [RunData(last.data)] else []
  }

  function Categories(subs: seq<Option<seq<DirEntry>>>): seq<CaseOutcome> {
    if subs == [] then []
    else
      var last := subs[|subs| - 1];
      Categories(subs[..|subs| - 1]) + if last.Some? then Listed(last.value) else []
  }

  function BlsOutcomes(tree: BlsTree): seq<CaseOutcome> {
    if tree.Some? then Categories(tree.value) else []
  }

  lemma ListedOneMore(done: seq<CaseOutcome>, cases: seq<DirEntry>, j: nat)
    requires j < |cases|
    ensures done + Listed(cases[..j + 1])
         == if cases[j].CaseDir? then done + Listed(cases[..j]) + [RunData(cases[j].data)]
            else done + Listed(cases[..j])
  {
    assert cases[..j + 1][..j] == cases[..j];
  }

  method EnumerateBls(tree: BlsTree, row: nat) returns (tasks: seq<Task>)
    ensures Enumerates(tasks, row, BlsOutcomes(tree))
  {
    tasks := [];
    if tree.None? { return; }
    var ordinal := 0;
    for k := 0 to |tree.value|
      invariant ordinal == |tasks| && Enumerates(tasks, row, Categories(tree.value[..k]))
    {
      assert tree.value[..k + 1][..k] == tree.value[..k];
      if tree.value[k].None? { continue; }
      var cases := tree.value[k].value;
      ghost var done := Categories(tree.value[..k]);
      for j := 0 to |cases|
        invariant ordinal == |tasks|
        invariant Enumerates(tasks, row, done + Listed(cases[..j]))
      {
        ListedOneMore(done, cases, j);
        if cases[j].Stray? { continue; }
        var data := cases[j].data;
        tasks := tasks + [Task(row, ordinal, () => RunData(data))];
        ordinal := ordinal + 1;
      }
      assert cases[..|cases|] == cases;
    }
    assert tree.value[..|tree.value|] == tree.value;
  }

  method RunBls(tree: BlsTree) returns (t: Tally)
    ensures t == TallyOf(BlsOutcomes(tree))
  {
    t := Tally(0, 0, 0, []);
    if tree.None? { return; }
    for k := 0 to |tree.value|
      invariant t == TallyOf(Categories(tree.value[..k]))
    {
      assert tree.value[..k + 1][..k] == tree.value[..k];
      if tree.value[k].None? {
        assert Categories(tree.value[..k + 1]) == Categories(tree.value[..k]);
        continue;
      }
      t := RunCases(tree.value[k].value, t, Categories(tree.value[..k]));
    }
    assert tree.value[..|tree.value|] == tree.value;
  }

  method RunCases(cases: seq<DirEntry>, before: Tally, ghost done: seq<CaseOutcome>) returns (t: Tally)
    requires before == TallyOf(done)
    ensures t == TallyOf(done + Listed(cases))
  {
    t := before;
    assert done + Listed(cases[..0]) == done;
    for j := 0 to |cases|
      invariant t == TallyOf(done + Listed(cases[..j]))
    {
      ListedOneMore(done, cases, j);
      if cases[j].Stray? { continue; }
      CountOneMore(done + Listed(cases[..j]), RunData(cases[j].data));
      t := CountData(t, cases[j].data);
    }
    assert cases[..|cases|] == cases;
  }

  method CountData(before: Tally, data: DataFile) returns (t: Tally)
    ensures t == Count(before, RunData(data))
  {
    t := before;
    match data {
      case Missing => t := t.(skip := t.skip + 1);
      case Unreadable(m) => t := t.(fail := t.fail + 1, failures := t.failures + [m]);
      case Malformed(m) => t := t.(fail := t.fail + 1, failures := t.failures + [m]);
      case Ran(error) =>
        if error.Some? {
          t := t.(fail := t.fail + 1, failures := t.failures + [error.value]);
        } else {
          t := t.(pass := t.pass + 1);
        }
    }
  }

  // ── the Engine API examples ─────────────────────────────────────────────────

  /** An example's error, if its run fails. */
  type Example = Option<string>
  datatype YamlFile = BadYaml(message: string) | Methods(methods: seq<seq<Example>>)

  /** Either the specs directory is missing, or its YAML files in order. */
  datatype EngineTree = NoSpecs(message: string) | Specs(files: seq<YamlFile>)

  function RunExample(ex: Example): CaseOutcome { if ex.Some? then Fail(ex.value) else Pass }

  function Examples(exs: seq<Example>): seq<CaseOutcome> {
    seq(|exs|, i requires 0 <= i < |exs| => RunExample(exs[i]))
  }

  function MethodOutcomes(methods: seq<seq<Example>>): seq<CaseOutcome> {
    if methods == [] then []
    else MethodOutcomes(methods[..|methods| - 1]) + Examples(methods[|methods| - 1])
  }

  function FileOutcomes(file: YamlFile): seq<CaseOutcome> {
    match file
    case BadYaml(m) => [Fail(m)]
    case Methods(methods) => MethodOutcomes(methods)
  }

  function FilesOutcomes(files: seq<YamlFile>): seq<CaseOutcome> {
    if files == [] then [] else FilesOutcomes(files[..|files| - 1]) + FileOutcomes(files[|files| - 1])
  }

  function EngineOutcomes(tree: EngineTree): seq<CaseOutcome> {
    match tree
    case NoSpecs(m) => [Fail(m)]
    case Specs(files) => FilesOutcomes(files)
  }

  method EnumerateEngineYaml(tree: EngineTree, row: nat) returns (tasks: seq<Task>)
    ensures Enumerates(tasks, row, EngineOutcomes(tree))
  {
    match tree {
      case NoSpecs(m) => tasks := [Task(row, 0, () => Fail(m))];
      case Specs(files) => tasks := EnumerateFiles(files, row);
    }
  }

  method EnumerateFiles(files: seq<YamlFile>, row: nat) returns (tasks: seq<Task>)
    ensures Enumerates(tasks, row, FilesOutcomes(files))
  {
    tasks := [];
    var ordinal := 0;
    for k := 0 to |files|
      invariant ordinal == |tasks|
      invariant Enumerates(tasks, row, FilesOutcomes(files[..k]))
    {
      FilesOneMore(files, k);
      tasks, ordinal := EnumerateFile(files[k], row, tasks, ordinal, FilesOutcomes(files[..k]));
    }
    assert files[..|files|] == files;
  }

  lemma FilesOneMore(files: seq<YamlFile>, k: nat)
    requires k < |files|
    ensures FilesOutcomes(files[..k + 1]) == FilesOutcomes(files[..k]) + FileOutcomes(files[k])
  {
    assert files[..k + 1][..k] == files[..k];
  }

  method EnumerateFile(file: YamlFile, row: nat, before: seq<Task>, from: nat, ghost done: seq<CaseOutcome>)
    returns (tasks: seq<Task>, ordinal: nat)
    requires Enumerates(before, row, done) && from == |before|
    ensures Enumerates(tasks, row, done + FileOutcomes(file)) && ordinal == |tasks|
  {
    match file {
      case BadYaml(m) =>
        tasks, ordinal := before + [Task(row, from, () => Fail(m))], from + 1;
      case Methods(methods) =>
        tasks, ordinal := EnumerateMethods(methods, row, before, from, done);
    }
  }

  method EnumerateMethods(methods: seq<seq<Example>>, row: nat, before: seq<Task>, from: nat,
                          ghost done: seq<CaseOutcome>)
    returns (tasks: seq<Task>, ordinal: nat)
    requires Enumerates(before, row, done) && from == |before|
    ensures Enumerates(tasks, row, done + MethodOutcomes(methods)) && ordinal == |tasks|
  {
    tasks, ordinal := before, from;
    for i := 0 to |methods|
      invariant ordinal == |tasks|
      invariant Enumerates(tasks, row, done + MethodOutcomes(methods[..i]))
    {
      assert methods[..i + 1][..i] == methods[..i];
      ghost var outer := done + MethodOutcomes(methods[..i]);
      for j := 0 to |methods[i]|
        invariant ordinal == |tasks|
        invariant Enumerates(tasks, row, outer + Examples(methods[i])[..j])
      {
        var ex := methods[i][j];
        tasks := tasks + [Task(row, ordinal, () => RunExample(ex))];
        ordinal := ordinal + 1;
      }
      assert outer + Examples(methods[i])[..|methods[i]|] == done + MethodOutcomes(methods[..i + 1]);
    }
    assert methods[..|methods|] == methods;
  }

  method RunEngineYaml(tree: EngineTree) returns (t: Tally)
    ensures t == TallyOf(EngineOutcomes(tree))
  {
    t := Tally(0, 0, 0, []);
    match tree {
      case NoSpecs(m) =>
        OneFailure(m);
        t := t.(failures := t.failures + [m], fail := t.fail + 1);
      case Specs(files) =>
        t := RunFiles(files, t);
    }
  }

  method RunFiles(files: seq<YamlFile>, before: Tally) returns (t: Tally)
    requires before == TallyOf([])
    ensures t == TallyOf(FilesOutcomes(files))
  {
    t := before;
    for k := 0 to |files|
      invariant t == TallyOf(FilesOutcomes(files[..k]))
    {
      FilesOneMore(files, k);
      t := RunFile(files[k], t, FilesOutcomes(files[..k]));
    }
    assert files[..|files|] == files;
  }

  method RunFile(file: YamlFile, before: Tally, ghost done: seq<CaseOutcome>) returns (t: Tally)
    requires before == TallyOf(done)
    ensures t == TallyOf(done + FileOutcomes(file))
  {
    match file {
      case BadYaml(m) =>
        CountOneMore(done, Fail(m));
        t := before.(fail := before.fail + 1, failures := before.failures + [m]);
      case Methods(methods) =>
        t := RunMethods(methods, before, done);
    }
  }

  method RunMethods(methods: seq<seq<Example>>, before: Tally, ghost done: seq<CaseOutcome>) returns (t: Tally)
    requires before == TallyOf(done)
    ensures t == TallyOf(done + MethodOutcomes(methods))
  {
    t := before;
    assert done + MethodOutcomes(methods[..0]) == done;
    for i := 0 to |methods|
      invariant t == TallyOf(done + MethodOutcomes(methods[..i]))
    {
      assert methods[..i + 1][..i] == methods[..i];
      t := RunMethodExamples(methods[i], t, done + MethodOutcomes(methods[..i]));
      assert done + MethodOutcomes(methods[..i]) + Examples(methods[i]) == done + MethodOutcomes(methods[..i + 1]);
    }
    assert methods[..|methods|] == methods;
  }

  method RunMethodExamples(exs: seq<Example>, before: Tally, ghost done: seq<CaseOutcome>) returns (t: Tally)
    requires before == TallyOf(done)
    ensures t == TallyOf(done + Examples(exs))
  {
    t := before;
    assert done + Examples(exs)[..0] == done;
    for j := 0 to |exs|
      invariant t == TallyOf(done + Examples(exs)[..j])
    {
      CountOneMore(done + Examples(exs)[..j], RunExample(exs[j]));
      assert done + Examples(exs)[..j] + [RunExample(exs[j])] == done + Examples(exs)[..j + 1];
      if exs[j].None? {
        t := t.(pass := t.pass + 1);
      } else {
        t := t.(fail := t.fail + 1, failures := t.failures + [exs[j].value]);
      }
    }
    assert Examples(exs)[..|exs|] == Examples(exs);
  }

  // ── folding outcomes ────────────────────────────────────────────────────────

  const ENTRY_ORDER := (a: Entry, b: Entry) => a.row < b.row || (a.row == b.row && a.ordinal <= b.ordinal)
  const ROW_ORDER := (a: RowCounts, b: RowCounts) => a.row <= b.row

  function CountInRow(c: RowCounts, o: CaseOutcome): RowCounts {
    match o
    case Pass => c.(pass := c.pass + 1)
    case Skip => c.(skip := c.skip + 1)
    case Fail(_) => c.(fail := c.fail + 1)
  }

  /** Count into the last row, or open a new one. */
  function AddToRows(rows: seq<RowCounts>, row: nat, o: CaseOutcome): (r: seq<RowCounts>)
    ensures r != [] && r[|r| - 1].row == row
  {
    var n := |rows|;
    if n == 0 || rows[n - 1].row != row
    then rows + [CountInRow(RowCounts(row, 0, 0, 0), o)]
    else rows[..n - 1] + [CountInRow(rows[n - 1], o)]
  }

  /** The rows the loop has built after `entries`. */
  function Rows(entries: seq<Entry>): (rows: seq<RowCounts>)
    ensures rows == [] <==> entries == []
    ensures entries != [] ==> rows[|rows| - 1].row == entries[|entries| - 1].row
  {
    if entries == [] then []
    else
      var e := entries[|entries| - 1];
      AddToRows(Rows(entries[..|entries| - 1]), e.row, e.outcome)
  }

  function Failures(entries: seq<Entry>): seq<string> {
    if entries == [] then []
    else Failures(entries[..|entries| - 1]) + Messages(entries[|entries| - 1].outcome)
  }

  lemma FoldOneMore(entries: seq<Entry>, e: Entry)
    ensures Rows(entries + [e]) == AddToRows(Rows(entries), e.row, e.outcome)
    ensures Failures(entries + [e]) == Failures(entries) + Messages(e.outcome)
  {
    assert (entries + [e])[..|entries|] == entries;
  }

  ghost predicate Ascending(rows: seq<RowCounts>) {
    forall i, j :: 0 <= i < j < |rows| ==> rows[i].row < rows[j].row
  }

  lemma BeforeIsOrder()
    ensures Sorting.Order(ENTRY_ORDER)
  {
  }

  lemma AddKeepsAscending(rows: seq<RowCounts>, row: nat, o: CaseOutcome)
    requires Ascending(rows) && (rows != [] ==> rows[|rows| - 1].row <= row)
    ensures Ascending(AddToRows(rows, row, o))
  {
  }

  lemma {:induction false} RowsAscend(entries: seq<Entry>)
    requires Sorting.Sorted(entries, ENTRY_ORDER)
    ensures Ascending(Rows(entries))
  {
    if entries != [] {
      var n := |entries| - 1;
      RowsAscend(entries[..n]);
      if n > 0 { assert ENTRY_ORDER(entries[n - 1], entries[n]); }
      AddKeepsAscending(Rows(entries[..n]), entries[n].row, entries[n].outcome);
    }
  }

  /** `fold`: sort by row and ordinal, then one pass; the last sort finds the rows in order. */
  method Fold(outcomes: seq<Entry>) returns (rows: seq<RowCounts>, failures: seq<string>)
    ensures rows == Rows(Sorting.Sort(outcomes, ENTRY_ORDER)) && Ascending(rows)
    ensures failures == Failures(Sorting.Sort(outcomes, ENTRY_ORDER))
  {
    var sorted := Sorting.Sort(outcomes, ENTRY_ORDER);
    rows, failures := FoldSorted(sorted);
    BeforeIsOrder();
    Sorting.SortSorts(outcomes, ENTRY_ORDER);
    RowsAscend(sorted);
    Sorting.SortOfSorted(rows, ROW_ORDER);
    rows := Sorting.Sort(rows, ROW_ORDER);
  }

  ghost predicate Folded(done: seq<Entry>, rows: seq<RowCounts>, failures: seq<string>) {
    rows == Rows(done) && failures == Failures(done)
  }

  lemma TakeOneMore(entries: seq<Entry>, i: nat)
    requires i < |entries|
    ensures entries[..i] + [entries[i]] == entries[..i + 1]
  {
  }

  method FoldSorted(sorted: seq<Entry>) returns (rows: seq<RowCounts>, failures: seq<string>)
    ensures Folded(sorted, rows, failures)
  {
    rows, failures := [], [];
    ghost var done: seq<Entry> := [];
    for i := 0 to |sorted|
      invariant done == sorted[..i]
      invariant Folded(done, rows, failures)
    {
      rows, failures := FoldEntry(rows, failures, sorted[i], done);
      TakeOneMore(sorted, i);
      done := done + [sorted[i]];
    }
    assert done == sorted;
  }

  method FoldEntry(before: seq<RowCounts>, failed: seq<string>, e: Entry, ghost done: seq<Entry>)
    returns (rows: seq<RowCounts>, failures: seq<string>)
    requires Folded(done, before, failed)
    ensures Folded(done + [e], rows, failures)
  {
    FoldOneMore(done, e);
    rows := CountEntry(before, e);
    failures := failed;
    if e.outcome.Fail? { failures := failures + [e.outcome.message]; }
  }

  method CountEntry(before: seq<RowCounts>, e: Entry) returns (rows: seq<RowCounts>)
    ensures rows == AddToRows(before, e.row, e.outcome)
  {
    rows := before;
    if rows == [] || rows[|rows| - 1].row != e.row {
      rows := rows + [RowCounts(e.row, 0, 0, 0)];
    }
    var n := |rows|;
    rows := rows[..n - 1] + [CountInRow(rows[n - 1], e.outcome)];
  }

  /** With one outcome per key, the fold is the same for every order of completion. */
  lemma FoldIgnoresOrder(a: seq<Entry>, b: seq<Entry>)
    requires Sorting.TiesAreEqual(a, ENTRY_ORDER) && multiset(a) == multiset(b)
    ensures Rows(Sorting.Sort(a, ENTRY_ORDER)) == Rows(Sorting.Sort(b, ENTRY_ORDER))
    ensures Failures(Sorting.Sort(a, ENTRY_ORDER)) == Failures(Sorting.Sort(b, ENTRY_ORDER))
  {
    BeforeIsOrder();
    Sorting.SortForgetsOrder(a, b, ENTRY_ORDER);
  }

  // ── the pool against the eager runners ──────────────────────────────────────

  /** What one row yields when run in ordinal order. */
  function Entries(row: nat, outcomes: seq<CaseOutcome>): (es: seq<Entry>)
    ensures |es| == |outcomes|
  {
    seq(|outcomes|, i requires 0 <= i < |outcomes| => Entry(row, i, outcomes[i]))
  }

  /** What tasks yield, in their own order. */
  function Results(tasks: seq<Task>): seq<Entry> {
    seq(|tasks|, i requires 0 <= i < |tasks| => Entry(tasks[i].row, tasks[i].ordinal, tasks[i].run()))
  }

  lemma RunInOrder(tasks: seq<Task>, row: nat, outcomes: seq<CaseOutcome>)
    requires Enumerates(tasks, row, outcomes)
    ensures Results(tasks) == Entries(row, outcomes)
  {
  }

  method RunTasks(tasks: seq<Task>) returns (entries: seq<Entry>)
    ensures entries == Results(tasks)
  {
    entries := [];
    for i := 0 to |tasks|
      invariant entries == Results(tasks)[..i]
    {
      entries := entries + [Entry(tasks[i].row, tasks[i].ordinal, tasks[i].run())];
    }
  }

  /** All rows of a harness run: row `i` has the cases `suites[i]`. */
  function AllEntries(suites: seq<seq<CaseOutcome>>): seq<Entry> {
    if suites == [] then []
    else AllEntries(suites[..|suites| - 1]) + Entries(|suites| - 1, suites[|suites| - 1])
  }

  /** The eager runners' report: counts of every row that has cases, failures row by row. */
  function EagerRows(suites: seq<seq<CaseOutcome>>): seq<RowCounts> {
    if suites == [] then []
    else EagerRows(suites[..|suites| - 1]) + EagerRow(|suites| - 1, suites[|suites| - 1])
  }

  function EagerRow(row: nat, outcomes: seq<CaseOutcome>): seq<RowCounts> {
    if outcomes == [] then [] else [CountsOf(row, TallyOf(outcomes))]
  }

  function EagerFailures(suites: seq<seq<CaseOutcome>>): seq<string> {
    if suites == [] then []
    else EagerFailures(suites[..|suites| - 1]) + TallyOf(suites[|suites| - 1]).failures
  }

  ghost predicate RowsBelow(entries: seq<Entry>, row: nat) {
    forall i :: 0 <= i < |entries| ==> entries[i].row < row
  }

  lemma {:induction false} AllEntriesBelow(suites: seq<seq<CaseOutcome>>)
    ensures RowsBelow(AllEntries(suites), |suites|)
  {
    if suites != [] { AllEntriesBelow(suites[..|suites| - 1]); }
  }

  lemma {:induction false} AllEntriesSorted(suites: seq<seq<CaseOutcome>>)
    ensures Sorting.Sorted(AllEntries(suites), ENTRY_ORDER) && Sorting.TiesAreEqual(AllEntries(suites), ENTRY_ORDER)
  {
    if suites != [] {
      AllEntriesSorted(suites[..|suites| - 1]);
      AllEntriesBelow(suites[..|suites| - 1]);
    }
  }

  lemma EntriesOneMore(earlier: seq<Entry>, row: nat, front: seq<CaseOutcome>, o: CaseOutcome)
    ensures earlier + Entries(row, front + [o]) == earlier + Entries(row, front) + [Entry(row, |front|, o)]
  {
  }

  function CountsOf(row: nat, t: Tally): RowCounts { RowCounts(row, t.pass, t.fail, t.skip) }

  lemma CountsOneMore(row: nat, t: Tally, o: CaseOutcome)
    ensures CountInRow(CountsOf(row, t), o) == CountsOf(row, Count(t, o))
    ensures Count(t, o).failures == t.failures + Messages(o)
  {
  }

  lemma AddNewRow(rows: seq<RowCounts>, row: nat, o: CaseOutcome)
    requires rows == [] || rows[|rows| - 1].row < row
    ensures AddToRows(rows, row, o) == rows + [CountInRow(RowCounts(row, 0, 0, 0), o)]
  {
  }

  lemma AddToLast(rows: seq<RowCounts>, c: RowCounts, o: CaseOutcome)
    ensures AddToRows(rows + [c], c.row, o) == rows + [CountInRow(c, o)]
  {
    assert (rows + [c])[..|rows|] == rows;
  }

  lemma EagerRowOneMore(rows: seq<RowCounts>, row: nat, front: seq<CaseOutcome>, o: CaseOutcome)
    requires rows == [] || rows[|rows| - 1].row < row
    ensures AddToRows(rows + EagerRow(row, front), row, o) == rows + EagerRow(row, front + [o])
    ensures TallyOf(front + [o]).failures == TallyOf(front).failures + Messages(o)
  {
    CountOneMore(front, o);
    CountsOneMore(row, TallyOf(front), o);
    assert EagerRow(row, front + [o]) == [CountsOf(row, Count(TallyOf(front), o))];
    if front == [] {
      assert rows + EagerRow(row, front) == rows;
      AddNewRow(rows, row, o);
    } else {
      assert EagerRow(row, front) == [CountsOf(row, TallyOf(front))];
      AddToLast(rows, CountsOf(row, TallyOf(front)), o);
    }
  }

  lemma {:induction false} RowsOfSuite(earlier: seq<Entry>, row: nat, outcomes: seq<CaseOutcome>)
    requires RowsBelow(earlier, row)
    ensures Rows(earlier + Entries(row, outcomes)) == Rows(earlier) + EagerRow(row, outcomes)
    ensures Failures(earlier + Entries(row, outcomes)) == Failures(earlier) + TallyOf(outcomes).failures
  {
    if outcomes == [] {
      assert earlier + Entries(row, outcomes) == earlier;
    } else {
      var n := |outcomes| - 1;
      assert outcomes == outcomes[..n] + [outcomes[n]];
      RowsOfSuite(earlier, row, outcomes[..n]);
      SuiteStep(earlier, row, outcomes[..n], outcomes[n]);
    }
  }

  lemma SuiteStep(earlier: seq<Entry>, row: nat, front: seq<CaseOutcome>, o: CaseOutcome)
    requires RowsBelow(earlier, row)
    requires Rows(earlier + Entries(row, front)) == Rows(earlier) + EagerRow(row, front)
    requires Failures(earlier + Entries(row, front)) == Failures(earlier) + TallyOf(front).failures
    ensures Rows(earlier + Entries(row, front + [o])) == Rows(earlier) + EagerRow(row, front + [o])
    ensures Failures(earlier + Entries(row, front + [o])) == Failures(earlier) + TallyOf(front + [o]).failures
  {
    EntriesOneMore(earlier, row, front, o);
    FoldOneMore(earlier + Entries(row, front), Entry(row, |front|, o));
    EagerRowOneMore(Rows(earlier), row, front, o);
    Associates(Failures(earlier), TallyOf(front).failures, Messages(o));
  }

  lemma Associates(a: seq<string>, b: seq<string>, c: seq<string>)
    ensures (a + b) + c == a + (b + c)
  {
  }

  lemma {:induction false} RowsOfAll(suites: seq<seq<CaseOutcome>>)
    ensures Rows(AllEntries(suites)) == EagerRows(suites)
    ensures Failures(AllEntries(suites)) == EagerFailures(suites)
  {
    if suites != [] {
      var n := |suites| - 1;
      assert suites == suites[..n] + [suites[n]];
      RowsOfAll(suites[..n]);
      SuitesStep(suites[..n], suites[n]);
    }
  }

  lemma SuitesStep(front: seq<seq<CaseOutcome>>, last: seq<CaseOutcome>)
    requires Rows(AllEntries(front)) == EagerRows(front) && Failures(AllEntries(front)) == EagerFailures(front)
    ensures Rows(AllEntries(front + [last])) == EagerRows(front + [last])
    ensures Failures(AllEntries(front + [last])) == EagerFailures(front + [last])
  {
    assert (front + [last])[..|front|] == front;
    AllEntriesBelow(front);
    RowsOfSuite(AllEntries(front), |front|, last);
  }

  /** Whatever order the pool finishes in, the fold is the eager report. */
  lemma PoolIsEager(suites: seq<seq<CaseOutcome>>, finished: seq<Entry>)
    requires multiset(finished) == multiset(AllEntries(suites))
    ensures Rows(Sorting.Sort(finished, ENTRY_ORDER)) == EagerRows(suites)
    ensures Failures(Sorting.Sort(finished, ENTRY_ORDER)) == EagerFailures(suites)
  {
    AllEntriesSorted(suites);
    FoldIgnoresOrder(AllEntries(suites), finished);
    Sorting.SortOfSorted(AllEntries(suites), ENTRY_ORDER);
    RowsOfAll(suites);
  }

  lemma TwoSuitesSorted(b: nat, bls: seq<CaseOutcome>, e: nat, engine: seq<CaseOutcome>)
    requires b < e
    ensures var all := Entries(b, bls) + Entries(e, engine);
            Sorting.Sorted(all, ENTRY_ORDER) && Sorting.TiesAreEqual(all, ENTRY_ORDER)
  {
  }

  lemma TwoSuitesFold(b: nat, bls: seq<CaseOutcome>, e: nat, engine: seq<CaseOutcome>, finished: seq<Entry>)
    requires b < e && multiset(finished) == multiset(Entries(b, bls) + Entries(e, engine))
    ensures Rows(Sorting.Sort(finished, ENTRY_ORDER)) == EagerRow(b, bls) + EagerRow(e, engine)
    ensures Failures(Sorting.Sort(finished, ENTRY_ORDER)) == TallyOf(bls).failures + TallyOf(engine).failures
  {
    TwoSuitesSorted(b, bls, e, engine);
    FoldIgnoresOrder(Entries(b, bls) + Entries(e, engine), finished);
    Sorting.SortOfSorted(Entries(b, bls) + Entries(e, engine), ENTRY_ORDER);
    TwoSuitesRows(b, bls, e, engine);
  }

  lemma TwoSuitesRows(b: nat, bls: seq<CaseOutcome>, e: nat, engine: seq<CaseOutcome>)
    requires b < e
    ensures Rows(Entries(b, bls) + Entries(e, engine)) == EagerRow(b, bls) + EagerRow(e, engine)
    ensures Failures(Entries(b, bls) + Entries(e, engine)) == TallyOf(bls).failures + TallyOf(engine).failures
  {
    RowsOfSuite([], b, bls);
    assert [] + Entries(b, bls) == Entries(b, bls) && Rows([]) + EagerRow(b, bls) == EagerRow(b, bls);
    assert Failures([]) + TallyOf(bls).failures == TallyOf(bls).failures;
    RowsOfSuite(Entries(b, bls), e, engine);
  }

  /**
    The pool against the eager runners: enumerate both suites, run the tasks, let them finish
    in any order and fold.  Counts and failures are those of the eager runners, BLS first.
   */
  method PoolAgainstEager(bls: BlsTree, engine: EngineTree, blsRow: nat, engineRow: nat,
                          reorder: seq<Entry> -> seq<Entry>)
    returns (rows: seq<RowCounts>, failures: seq<string>, eagerBls: Tally, eagerEngine: Tally)
    requires blsRow < engineRow && forall es :: multiset(reorder(es)) == multiset(es)
    ensures failures == eagerBls.failures + eagerEngine.failures
    ensures rows == TallyRow(blsRow, eagerBls) + TallyRow(engineRow, eagerEngine)
    ensures eagerBls == TallyOf(BlsOutcomes(bls)) && eagerEngine == TallyOf(EngineOutcomes(engine))
  {
    var blsTasks := EnumerateBls(bls, blsRow);
    var engineTasks := EnumerateEngineYaml(engine, engineRow);
    RunInOrder(blsTasks, blsRow, BlsOutcomes(bls));
    RunInOrder(engineTasks, engineRow, EngineOutcomes(engine));
    var entries := RunTasks(blsTasks + engineTasks);
    assert entries == Results(blsTasks) + Results(engineTasks);
    TwoSuitesFold(blsRow, BlsOutcomes(bls), engineRow, EngineOutcomes(engine), reorder(entries));
    rows, failures := Fold(reorder(entries));
    eagerBls := RunBls(bls);
    eagerEngine := RunEngineYaml(engine);
    TallyRowIsEager(blsRow, BlsOutcomes(bls));
    TallyRowIsEager(engineRow, EngineOutcomes(engine));
  }

  /** The report row of a runner: none when it counted nothing. */
  function TallyRow(row: nat, t: Tally): seq<RowCounts> {
    if t.pass + t.fail + t.skip == 0 then [] else [CountsOf(row, t)]
  }

  lemma {:induction false} TallyCounts(outcomes: seq<CaseOutcome>)
    ensures TallyOf(outcomes).pass + TallyOf(outcomes).fail + TallyOf(outcomes).skip == |outcomes|
  {
    if outcomes != [] { TallyCounts(outcomes[..|outcomes| - 1]); }
  }

  lemma TallyRowIsEager(row: nat, outcomes: seq<CaseOutcome>)
    ensures TallyRow(row, TallyOf(outcomes)) == EagerRow(row, outcomes)
  {
    TallyCounts(outcomes);
  }
}
