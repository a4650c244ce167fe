/** The `task apply` command in place. */
module TaskApplyCommand {
  // Task files and an edge index that change step by step (src/commands/task-apply.ts,
  // src/commands/_task-apply-run.ts), and what the report says.

  import opened Prelude
  import opened TaskEdges
  import opened TaskOps
  import opened TaskApply
  import opened TaskApplyRuns
  import opened TaskPlan

  class EdgeIndex {
    var entries: seq<Entry>

    constructor (entries: seq<Entry>)
      ensures this.entries == entries
    {
      this.entries := entries;
    }

    method RecordTask(slug: string, task: Task)
      modifies this
      ensures entries == Record(old(entries), slug, task)
    {
      for k := 0 to |entries|
        invariant entries == old(entries)
        invariant forall i :: 0 <= i < k ==> !Matches(entries[i], slug, task.id)
      {
        if Matches(entries[k], slug, task.id) {
          RecordFirst(entries, slug, task, k);
          entries := entries[k := Entry(slug, task)];
          return;
        }
      }
      RecordFirst(entries, slug, task, |entries|);
    }
  }

  predicate Matches(e: Entry, slug: string, id: string) {
    e.slug == slug && e.task.id == id
  }

  lemma {:induction false} RecordFirst(index: seq<Entry>, slug: string, task: Task, k: nat)
    requires k <= |index| && (k < |index| ==> Matches(index[k], slug, task.id))
    requires forall i :: 0 <= i < k ==> !Matches(index[i], slug, task.id)
    ensures Record(index, slug, task) == if k < |index| then index[k := Entry(slug, task)] else index
  {
    if k > 0 {
      assert !Matches(index[0], slug, task.id);
      RecordFirst(index[1..], slug, task, k - 1);
    }
  }

  /** The task files under the active root. */
  class TaskFiles {
    var files: map<Key, Task>
    ghost var written: seq<Key>

    constructor (files: map<Key, Task>)
      ensures this.files == files && written == []
    {
      this.files, written := files, [];
    }

    /** False where the write fails, which leaves the file as it was. */
    method WriteYaml(key: Key, task: Task, writeOk: Key -> bool) returns (ok: bool)
      modifies this
      ensures ok == writeOk(key)
      ensures files == if ok then old(files)[key := task] else old(files)
      ensures written == if ok then old(written) + [key] else old(written)
    {
      ok := writeOk(key);
      if ok {
        files := files[key := task];
        written := written + [key];
      }
    }
  }

  /** The ops of one line in order, and those that changed something. */
  method ApplyEach(env: Env, index: seq<Entry>, task: Task, ops: seq<Op>) returns (next: Task, changes: seq<Op>)
    ensures Applied(next, changes) == ApplyOps(env.reader, index, env.now, task, ops)
  {
    next, changes := task, [];
    for i := 0 to |ops|
      invariant Applied(next, changes) == ApplyOps(env.reader, index, env.now, task, ops[..i])
    {
      assert ops[..i + 1][..i] == ops[..i];
      var step := ApplyOp(env.reader, index, env.now, next, ops[i]);
      next := step.task;
      if step.changed {
        changes := changes + [ops[i]];
      }
    }
    assert ops[..|ops|] == ops;
  }

  /** One line; no result where it needs the index and that was not loaded. */
  method ApplyLine(env: Env, edges: EdgeIndex, task: Task, e: PlanEntry)
    returns (next: Task, line: Option<LineResult>)
    modifies edges
    ensures LineDone(next, edges.entries, line) == ApplyOne(env, old(edges.entries), task, e)
  {
    var changes;
    next, changes := ApplyEach(env, edges.entries, task, e.ops);
    if changes == [] {
      return task, Some(Result(e, LineUnchanged, []));
    }
    if !env.loaded && NeedsIndex(e.slug, task, next) {
      return task, None;
    }
    var refused := EdgeErrors(env, edges.entries, e.slug, task, next);
    if refused != [] {
      return task, Some(Failing(e, Refused(refused)));
    }
    next := next.(updated := env.date);
    if !env.valid(next) {
      return task, Some(Failing(e, Invalid));
    }
    edges.RecordTask(e.slug, next);
    line := Some(Result(e, LineApplied, changes));
  }

  lemma {:induction false} ThrownSticks(env: Env, index: seq<Entry>, task: Task, entries: seq<PlanEntry>, i: nat)
    requires i <= |entries| && ApplyEntries(env, index, task, entries[..i]).thrown
    ensures ApplyEntries(env, index, task, entries) == ApplyEntries(env, index, task, entries[..i])
    decreases |entries|
  {
    if i == |entries| {
      assert entries[..i] == entries;
    } else {
      assert entries[..|entries| - 1][..i] == entries[..i];
      ThrownSticks(env, index, task, entries[..|entries| - 1], i);
    }
  }

  /** The lines of one task, each against the task and the index the ones before it left. */
  method ApplyLines(env: Env, edges: EdgeIndex, original: Task, entries: seq<PlanEntry>)
    returns (task: Task, lines: seq<LineResult>, thrown: bool)
    modifies edges
    ensures Progress(task, edges.entries, lines, thrown) == ApplyEntries(env, old(edges.entries), original, entries)
  {
    task, lines, thrown := original, [], false;
    for i := 0 to |entries|
      invariant Progress(task, edges.entries, lines, false) ==
                ApplyEntries(env, old(edges.entries), original, entries[..i])
      invariant !thrown
    {
      assert entries[..i + 1][..i] == entries[..i];
      var line;
      task, line := ApplyLine(env, edges, task, entries[i]);
      if line.None? {
        thrown := true;
        ThrownSticks(env, old(edges.entries), original, entries, i + 1);
        return;
      }
      lines := lines + [line.value];
    }
    assert entries[..|entries|] == entries;
  }

  /** One task: one read, its lines in order, at most one write, the index put back if that fails. */
  method ApplyTask(
    env: Env, dryRun: bool, writeOk: Key -> bool, root: TaskFiles, edges: EdgeIndex, job: Job)
    returns (lines: seq<LineResult>)
    modifies root, edges
    ensures RunJob(env, dryRun, writeOk, old(root.files), old(edges.entries), old(root.written), job) ==
            Run(root.files, edges.entries, root.written, lines)
  {
    if job.key !in root.files {
      return Missings(job.entries);
    }
    var original := root.files[job.key];
    var task, thrown;
    task, lines, thrown := ApplyLines(env, edges, original, job.entries);
    if thrown {
      edges.RecordTask(job.key.slug, original);
      lines := Failures(job.entries, NoIndex);
    } else if Dirty(lines) && !dryRun {
      var ok := root.WriteYaml(job.key, task, writeOk);
      if !ok {
        edges.RecordTask(job.key.slug, original);
        lines := Failures(job.entries, WriteFailed);
      }
    }
  }

  // --- The report -------------------------------------------------------------------

  function FailedLine(e: PlanEntry): LineResult {
    LineResult(e.index, e.slug, e.id, LineFailed, [], Some(BadLine(e.error.GetOr(""))))
  }

  /** The lines that did not parse. */
  function FailedLines(entries: seq<PlanEntry>): seq<LineResult> {
    if entries == [] then []
    else FailedLines(entries[..|entries| - 1]) +
         (if entries[|entries| - 1].error.Some? then [FailedLine(entries[|entries| - 1])] else [])
  }

  function Insert(sorted: seq<LineResult>, line: LineResult): seq<LineResult> {
    if sorted == [] || sorted[|sorted| - 1].index <= line.index then sorted + [line]
    else Insert(sorted[..|sorted| - 1], line) + [sorted[|sorted| - 1]]
  }

  /** lines.sort((a, b) => a.index - b.index) */
  function SortByIndex(lines: seq<LineResult>): seq<LineResult> {
    if lines == [] then [] else Insert(SortByIndex(lines[..|lines| - 1]), lines[|lines| - 1])
  }

  ghost predicate Sorted(lines: seq<LineResult>) {
    forall i, j :: 0 <= i < j < |lines| ==> lines[i].index <= lines[j].index
  }

  function LineOf(l: LineResult): Line {
    Line(l.index, l.slug, l.id)
  }

  lemma {:induction false} ResultLinesSnoc(lines: seq<LineResult>, l: LineResult)
    ensures ResultLines(lines + [l]) == ResultLines(lines) + multiset{LineOf(l)}
  {
    assert (lines + [l])[..|lines|] == lines;
  }

  lemma {:induction false} ResultLinesConcat(xs: seq<LineResult>, ys: seq<LineResult>)
    ensures ResultLines(xs + ys) == ResultLines(xs) + ResultLines(ys)
    decreases |ys|
  {
    if ys == [] {
      assert xs + ys == xs;
    } else {
      var init := ys[..|ys| - 1];
      assert (xs + init) + [ys[|ys| - 1]] == xs + ys;
      ResultLinesConcat(xs, init);
      ResultLinesSnoc(xs + init, ys[|ys| - 1]);
    }
  }

  ghost predicate Bounded(lines: seq<LineResult>, top: nat) {
    forall i :: 0 <= i < |lines| ==> lines[i].index <= top
  }

  lemma {:induction false} InsertBounded(sorted: seq<LineResult>, line: LineResult, top: nat)
    requires Bounded(sorted, top) && line.index <= top
    ensures Bounded(Insert(sorted, line), top)
  {
    if sorted != [] && sorted[|sorted| - 1].index > line.index {
      InsertBounded(sorted[..|sorted| - 1], line, top);
    }
  }

  lemma {:induction false} SortedSnoc(init: seq<LineResult>, last: LineResult)
    requires Sorted(init) && Bounded(init, last.index)
    ensures Sorted(init + [last])
  {
  }

  lemma {:induction false} InsertSorts(sorted: seq<LineResult>, line: LineResult)
    requires Sorted(sorted)
    ensures Sorted(Insert(sorted, line))
  {
    if sorted == [] || sorted[|sorted| - 1].index <= line.index {
      SortedSnoc(sorted, line);
    } else {
      var init, last := sorted[..|sorted| - 1], sorted[|sorted| - 1];
      InsertSorts(init, line);
      InsertBounded(init, line, last.index);
      SortedSnoc(Insert(init, line), last);
    }
  }

  lemma {:induction false} InsertKeeps(sorted: seq<LineResult>, line: LineResult)
    ensures ResultLines(Insert(sorted, line)) == ResultLines(sorted) + multiset{LineOf(line)}
  {
    if sorted == [] || sorted[|sorted| - 1].index <= line.index {
      ResultLinesSnoc(sorted, line);
    } else {
      var init, last := sorted[..|sorted| - 1], sorted[|sorted| - 1];
      assert init + [last] == sorted;
      InsertKeeps(init, line);
      ResultLinesSnoc(init, last);
      ResultLinesSnoc(Insert(init, line), last);
    }
  }

  lemma {:induction false} SortSorts(lines: seq<LineResult>)
    ensures Sorted(SortByIndex(lines))
  {
    if lines != [] {
      SortSorts(lines[..|lines| - 1]);
      InsertSorts(SortByIndex(lines[..|lines| - 1]), lines[|lines| - 1]);
    }
  }

  lemma {:induction false} SortKeeps(lines: seq<LineResult>)
    ensures ResultLines(SortByIndex(lines)) == ResultLines(lines)
  {
    if lines != [] {
      SortKeeps(lines[..|lines| - 1]);
      InsertKeeps(SortByIndex(lines[..|lines| - 1]), lines[|lines| - 1]);
    }
  }

  lemma {:induction false} ResultLinesHave(lines: seq<LineResult>, x: Line)
    ensures x in ResultLines(lines) <==> exists i :: 0 <= i < |lines| && LineOf(lines[i]) == x
    ensures |ResultLines(lines)| == |lines|
  {
    if lines != [] {
      ResultLinesHave(lines[..|lines| - 1], x);
      if x in ResultLines(lines[..|lines| - 1]) {
        var i :| 0 <= i < |lines| - 1 && LineOf(lines[..|lines| - 1][i]) == x;
        assert LineOf(lines[i]) == x;
      }
      if i :| 0 <= i < |lines| && LineOf(lines[i]) == x {
        assert i < |lines| - 1 ==> LineOf(lines[..|lines| - 1][i]) == x;
      }
    }
  }

  lemma {:induction false} EntryLinesHave(entries: seq<PlanEntry>, x: Line)
    requires forall k :: 0 <= k < |entries| ==> entries[k].index == k
    ensures x in EntryLines(entries) <==> x.index < |entries| && x == Line(x.index, entries[x.index].slug, entries[x.index].id)
    ensures |EntryLines(entries)| == |entries|
  {
    if entries != [] {
      EntryLinesHave(entries[..|entries| - 1], x);
    }
  }

  lemma {:induction false} TopIsLast(lines: seq<LineResult>, entries: seq<PlanEntry>)
    requires Sorted(lines) && ResultLines(lines) == EntryLines(entries) && |lines| == |entries| > 0
    requires forall k :: 0 <= k < |entries| ==> entries[k].index == k
    ensures var n := |entries| - 1; LineOf(lines[n]) == Line(n, entries[n].slug, entries[n].id)
  {
    var n := |entries| - 1;
    var top := Line(n, entries[n].slug, entries[n].id);
    ResultLinesHave(lines, LineOf(lines[n]));
    EntryLinesHave(entries, LineOf(lines[n]));
    EntryLinesHave(entries, top);
    ResultLinesHave(lines, top);
    var i :| 0 <= i < |lines| && LineOf(lines[i]) == top;
    assert i < n ==> lines[i].index <= lines[n].index;
  }

  lemma {:induction false} PeelLast(lines: seq<LineResult>, entries: seq<PlanEntry>)
    requires Sorted(lines) && ResultLines(lines) == EntryLines(entries) && |lines| == |entries| > 0
    requires forall k :: 0 <= k < |entries| ==> entries[k].index == k
    ensures Sorted(lines[..|lines| - 1])
    ensures ResultLines(lines[..|lines| - 1]) == EntryLines(entries[..|entries| - 1])
  {
    var n := |entries| - 1;
    var top := Line(n, entries[n].slug, entries[n].id);
    TopIsLast(lines, entries);
    assert ResultLines(lines[..n]) == ResultLines(lines) - multiset{top};
    assert EntryLines(entries[..n]) == EntryLines(entries) - multiset{top};
  }

  lemma {:induction false} SameCount(lines: seq<LineResult>, entries: seq<PlanEntry>)
    requires ResultLines(lines) == EntryLines(entries)
    requires forall i :: 0 <= i < |entries| ==> entries[i].index == i
    ensures |lines| == |entries|
  {
    ResultLinesHave(lines, Line(0, "", ""));
    EntryLinesHave(entries, Line(0, "", ""));
  }

  /** Sorted results whose lines are exactly the numbered entries are the entries' results in order. */
  lemma {:induction false} SortedIsPlanOrder(lines: seq<LineResult>, entries: seq<PlanEntry>, k: nat)
    requires Sorted(lines) && ResultLines(lines) == EntryLines(entries)
    requires forall i :: 0 <= i < |entries| ==> entries[i].index == i
    ensures |lines| == |entries|
    ensures k < |lines| ==> LineOf(lines[k]) == Line(k, entries[k].slug, entries[k].id)
    decreases |entries|
  {
    var n := |entries|;
    SameCount(lines, entries);
    if n > 0 {
      TopIsLast(lines, entries);
      PeelLast(lines, entries);
      if k < n - 1 {
        SortedIsPlanOrder(lines[..n - 1], entries[..n - 1], k);
      }
    }
  }

  // --- From the run to the report ------------------------------------------------------

  lemma {:induction false} FailedLinesAre(entries: seq<PlanEntry>)
    ensures ResultLines(FailedLines(entries)) == ValidLines(entries, true)
  {
    if entries != [] {
      FailedLinesAre(entries[..|entries| - 1]);
      assert FailedLines(entries[..|entries| - 1]) + [] == FailedLines(entries[..|entries| - 1]);
      if entries[|entries| - 1].error.Some? {
        ResultLinesSnoc(FailedLines(entries[..|entries| - 1]), FailedLine(entries[|entries| - 1]));
      }
    }
  }

  lemma {:induction false} OneLineEach(env: Env, index: seq<Entry>, task: Task, entries: seq<PlanEntry>)
    requires !ApplyEntries(env, index, task, entries).thrown
    ensures ResultLines(ApplyEntries(env, index, task, entries).lines) == EntryLines(entries)
  {
    if entries != [] {
      var init, last := entries[..|entries| - 1], entries[|entries| - 1];
      OneLineEach(env, index, task, init);
      EntryAddsItsLine(env, ApplyEntries(env, index, task, init), last);
    }
  }

  lemma {:induction false} EntryAddsItsLine(env: Env, p: Progress, e: PlanEntry)
    requires !ApplyEntry(env, p, e).thrown
    ensures ResultLines(ApplyEntry(env, p, e).lines) == ResultLines(p.lines) + multiset{Line(e.index, e.slug, e.id)}
  {
    OneMoreLine(env, p, e);
    ResultLinesSnoc(p.lines, ApplyEntry(env, p, e).lines[|p.lines|]);
  }

  lemma {:induction false} OneMissingEach(entries: seq<PlanEntry>)
    ensures ResultLines(Missings(entries)) == EntryLines(entries)
  {
    if entries != [] {
      var init, last := entries[..|entries| - 1], entries[|entries| - 1];
      OneMissingEach(init);
      ResultLinesSnoc(Missings(init), Result(last, LineMissing, []));
    }
  }

  lemma {:induction false} OneFailureEach(entries: seq<PlanEntry>, why: Failure)
    ensures ResultLines(Failures(entries, why)) == EntryLines(entries)
  {
    if entries != [] {
      var init, last := entries[..|entries| - 1], entries[|entries| - 1];
      OneFailureEach(init, why);
      ResultLinesSnoc(Failures(init, why), Failing(last, why));
    }
  }

  function JobLines(jobs: seq<Job>): multiset<Line> {
    if jobs == [] then multiset{}
    else JobLines(jobs[..|jobs| - 1]) + EntryLines(jobs[|jobs| - 1].entries)
  }

  lemma {:induction false} JobReportsItsLines(
    env: Env, dryRun: bool, writeOk: Key -> bool, files: map<Key, Task>, index: seq<Entry>, written: seq<Key>, job: Job)
    ensures ResultLines(RunJob(env, dryRun, writeOk, files, index, written, job).lines) == EntryLines(job.entries)
  {
    if job.key !in files {
      OneMissingEach(job.entries);
    } else if ApplyEntries(env, index, files[job.key], job.entries).thrown {
      OneFailureEach(job.entries, NoIndex);
    } else if dryRun || !Dirty(ApplyEntries(env, index, files[job.key], job.entries).lines) || writeOk(job.key) {
      OneLineEach(env, index, files[job.key], job.entries);
    } else {
      OneFailureEach(job.entries, WriteFailed);
    }
  }

  lemma {:induction false} RunAddsItsLines(env: Env, dryRun: bool, writeOk: Key -> bool, st: Run, jobs: seq<Job>)
    ensures ResultLines(ApplyJobs(env, dryRun, writeOk, st, jobs).lines) == ResultLines(st.lines) + JobLines(jobs)
  {
    if jobs != [] {
      var init := jobs[..|jobs| - 1];
      RunAddsItsLines(env, dryRun, writeOk, st, init);
      var before, last := ApplyJobs(env, dryRun, writeOk, st, init), jobs[|jobs| - 1];
      JobReportsItsLines(env, dryRun, writeOk, before.files, before.index, before.written, last);
      ResultLinesConcat(before.lines,
        RunJob(env, dryRun, writeOk, before.files, before.index, before.written, last).lines);
    }
  }

  lemma {:induction false} JobLinesCons(job: Job, jobs: seq<Job>)
    ensures JobLines([job] + jobs) == EntryLines(job.entries) + JobLines(jobs)
  {
    if jobs == [] {
      assert [job] + jobs == [job];
      assert [job][..0] == [];
    } else {
      assert ([job] + jobs)[..|jobs|] == [job] + jobs[..|jobs| - 1];
      JobLinesCons(job, jobs[..|jobs| - 1]);
    }
  }

  lemma {:induction false} JobLinesConcat(xs: seq<Job>, ys: seq<Job>)
    ensures JobLines(xs + ys) == JobLines(xs) + JobLines(ys)
    decreases |ys|
  {
    if ys == [] {
      assert xs + ys == xs;
    } else {
      assert (xs + ys)[..|xs + ys| - 1] == xs + ys[..|ys| - 1];
      JobLinesConcat(xs, ys[..|ys| - 1]);
    }
  }

  lemma {:induction false} TaskJobLines(slug: string, tasks: seq<TaskGroup>)
    ensures JobLines(TaskJobs(slug, tasks)) == TaskLines(tasks)
  {
    if tasks != [] {
      TaskJobLines(slug, tasks[1..]);
      JobLinesCons(Job(Key(slug, tasks[0].id), tasks[0].entries), TaskJobs(slug, tasks[1..]));
    }
  }

  lemma {:induction false} GroupJobLines(groups: seq<SlugGroup>)
    ensures JobLines(Jobs(groups)) == GroupLines(groups)
  {
    if groups != [] {
      GroupJobLines(groups[1..]);
      TaskJobLines(groups[0].slug, groups[0].tasks);
      JobLinesConcat(TaskJobs(groups[0].slug, groups[0].tasks), Jobs(groups[1..]));
    }
  }

  function Report(entries: seq<PlanEntry>, run: seq<LineResult>): seq<LineResult> {
    SortByIndex(FailedLines(entries) + run)
  }

  /** Exactly one result per non-blank plan line, in plan order, whatever was refused, missing or unwritable. */
  lemma {:induction false} ReportFollowsPlan(
    env: Env, dryRun: bool, writeOk: Key -> bool, files: map<Key, Task>, index: seq<Entry>,
    lines: seq<RawLine>, rules: Rules, k: nat)
    ensures var entries := Entries(lines, rules);
            var run := ApplyJobs(env, dryRun, writeOk, Run(files, index, [], []), Jobs(Grouped(entries)));
            var report := Report(entries, run.lines);
            && |report| == |entries|
            && (k < |report| ==> LineOf(report[k]) == Line(k, entries[k].slug, entries[k].id))
  {
    var entries := Entries(lines, rules);
    var jobs := Jobs(Grouped(entries));
    var st := Run(files, index, [], []);
    var run := ApplyJobs(env, dryRun, writeOk, st, jobs);
    var all := FailedLines(entries) + run.lines;
    RunAddsItsLines(env, dryRun, writeOk, st, jobs);
    GroupJobLines(Grouped(entries));
    GroupedLines(entries);
    FailedLinesAre(entries);
    ResultLinesConcat(FailedLines(entries), run.lines);
    SortSorts(all);
    SortKeeps(all);
    SortedIsPlanOrder(SortByIndex(all), entries, k);
  }

  datatype Counts = Counts(applied: nat, unchanging: nat, missing: nat, failed: nat)

  function CountOf(lines: seq<LineResult>, outcome: Outcome): nat {
    if lines == [] then 0
    else CountOf(lines[..|lines| - 1], outcome) + (if lines[|lines| - 1].outcome == outcome then 1 else 0)
  }

  method CountOutcomes(lines: seq<LineResult>) returns (counts: Counts)
    ensures counts == Counts(CountOf(lines, LineApplied), CountOf(lines, LineUnchanged),
                             CountOf(lines, LineMissing), CountOf(lines, LineFailed))
    ensures counts.applied + counts.unchanging + counts.missing + counts.failed == |lines|
  {
    counts := Counts(0, 0, 0, 0);
    for i := 0 to |lines|
      invariant counts == Counts(CountOf(lines[..i], LineApplied), CountOf(lines[..i], LineUnchanged),
                                 CountOf(lines[..i], LineMissing), CountOf(lines[..i], LineFailed))
      invariant counts.applied + counts.unchanging + counts.missing + counts.failed == i
    {
      assert lines[..i + 1][..i] == lines[..i];
      match lines[i].outcome {
        case LineApplied => counts := counts.(applied := counts.applied + 1);
        case LineUnchanged => counts := counts.(unchanging := counts.unchanging + 1);
        case LineMissing => counts := counts.(missing := counts.missing + 1);
        case LineFailed => counts := counts.(failed := counts.failed + 1);
      }
    }
    assert lines[..|lines|] == lines;
  }

  // --- The command -----------------------------------------------------------------------

  /** The plan's tasks in visiting order; index and files end as the run over their old contents says. */
  method ApplyGroups(
    env: Env, dryRun: bool, writeOk: Key -> bool, root: TaskFiles, edges: EdgeIndex, groups: seq<SlugGroup>)
    returns (lines: seq<LineResult>)
    modifies root, edges
    ensures ApplyJobs(env, dryRun, writeOk, Run(old(root.files), old(edges.entries), old(root.written), []), Jobs(groups))
            == Run(root.files, edges.entries, root.written, lines)
  {
    var jobs := Jobs(groups);
    lines := [];
    ghost var start := Run(root.files, edges.entries, root.written, []);
    ghost var done := start;
    for i := 0 to |jobs|
      invariant done == Run(root.files, edges.entries, root.written, lines)
      invariant done == ApplyJobs(env, dryRun, writeOk, start, jobs[..i])
    {
      ApplyJobsSnoc(env, dryRun, writeOk, start, jobs, i);
      done := ApplyJob(env, dryRun, writeOk, done, jobs[i]);
      var more := ApplyTask(env, dryRun, writeOk, root, edges, jobs[i]);
      lines := lines + more;
    }
    assert jobs[..|jobs|] == jobs;
  }

  /** The run of a plan has the edge index only if some line sets a parent or adds a dep. */
  function Loading(env: Env, entries: seq<PlanEntry>): Env {
    env.(loaded := HasEdgeOps(entries))
  }

  /** The whole command: the report in plan order, files and index as the run over their old contents leaves them. */
  method ApplyPlan(
    env: Env, dryRun: bool, writeOk: Key -> bool, root: TaskFiles, edges: EdgeIndex,
    lines: seq<RawLine>, rules: Rules)
    returns (report: seq<LineResult>, counts: Counts)
    requires root.written == []
    modifies root, edges
    ensures var entries := Entries(lines, rules);
            var run := ApplyJobs(Loading(env, entries), dryRun, writeOk,
              Run(old(root.files), old(edges.entries), [], []), Jobs(Grouped(entries)));
            && report == Report(entries, run.lines)
            && root.files == run.files && edges.entries == run.index && root.written == run.written
    ensures counts == Counts(CountOf(report, LineApplied), CountOf(report, LineUnchanged),
                             CountOf(report, LineMissing), CountOf(report, LineFailed))
    ensures counts.applied + counts.unchanging + counts.missing + counts.failed == |report|
  {
    var entries, unknownKeys := ParsePlan(lines, rules);
    var groups := GroupPlan(entries);
    var run := ApplyGroups(Loading(env, entries), dryRun, writeOk, root, edges, groups);
    report := SortByIndex(FailedLines(entries) + run);
    counts := CountOutcomes(report);
  }

  lemma {:induction false} PlanJobsWellFormed(lines: seq<RawLine>, rules: Rules)
    ensures JobsWellFormed(Jobs(Grouped(Entries(lines, rules))))
  {
    GroupedOk(Entries(lines, rules));
    JobsWellFormedOf(Grouped(Entries(lines, rules)));
  }

  ghost predicate AllOfTasks(ok: PlanEntry -> bool, tasks: seq<TaskGroup>) {
    forall i :: 0 <= i < |tasks| ==> AllOf(ok, tasks[i].entries)
  }

  ghost predicate AllOfGroups(ok: PlanEntry -> bool, groups: seq<SlugGroup>) {
    forall i :: 0 <= i < |groups| ==> AllOfTasks(ok, groups[i].tasks)
  }

  lemma {:induction false} AddTaskKeeps(ok: PlanEntry -> bool, tasks: seq<TaskGroup>, e: PlanEntry)
    requires AllOfTasks(ok, tasks) && ok(e)
    ensures AllOfTasks(ok, AddToTasks(tasks, e))
  {
    if tasks != [] && tasks[0].id != e.id {
      assert AllOfTasks(ok, tasks[1..]) by {
        assert forall i :: 0 <= i < |tasks[1..]| ==> tasks[1..][i] == tasks[i + 1];
      }
      AddTaskKeeps(ok, tasks[1..], e);
    }
  }

  lemma {:induction false} AddGroupKeeps(ok: PlanEntry -> bool, groups: seq<SlugGroup>, e: PlanEntry)
    requires AllOfGroups(ok, groups) && ok(e)
    ensures AllOfGroups(ok, AddToGroups(groups, e))
  {
    if groups == [] {
      AddTaskKeeps(ok, [], e);
    } else if groups[0].slug == e.slug {
      AddTaskKeeps(ok, groups[0].tasks, e);
    } else {
      assert AllOfGroups(ok, groups[1..]) by {
        assert forall i :: 0 <= i < |groups[1..]| ==> groups[1..][i] == groups[i + 1];
      }
      AddGroupKeeps(ok, groups[1..], e);
    }
  }

  lemma {:induction false} GroupedKeeps(ok: PlanEntry -> bool, entries: seq<PlanEntry>)
    requires forall i :: 0 <= i < |entries| && entries[i].error.None? ==> ok(entries[i])
    ensures AllOfGroups(ok, Grouped(entries))
  {
    if entries != [] {
      GroupedKeeps(ok, entries[..|entries| - 1]);
      if entries[|entries| - 1].error.None? {
        AddGroupKeeps(ok, Grouped(entries[..|entries| - 1]), entries[|entries| - 1]);
      }
    }
  }

  lemma {:induction false} JobsKeep(ok: PlanEntry -> bool, groups: seq<SlugGroup>)
    requires AllOfGroups(ok, groups)
    ensures AllOfJobs(ok, Jobs(groups))
  {
    if groups != [] {
      JobsKeep(ok, groups[1..]);
      TaskJobsAt(groups[0].slug, groups[0].tasks);
    }
  }

  /** A plan without edge ops reports and writes the same whatever index there might have been. */
  lemma {:induction false} TagPlansNeedNoIndex(
    env: Env, dryRun: bool, writeOk: Key -> bool, files: map<Key, Task>, xs: seq<Entry>, ys: seq<Entry>,
    lines: seq<RawLine>, rules: Rules)
    requires !HasEdgeOps(Entries(lines, rules))
    ensures var entries := Entries(lines, rules);
            SameButIndex(
              ApplyJobs(Loading(env, entries), dryRun, writeOk, Run(files, xs, [], []), Jobs(Grouped(entries))),
              ApplyJobs(Loading(env, entries), dryRun, writeOk, Run(files, ys, [], []), Jobs(Grouped(entries))))
  {
    var entries := Entries(lines, rules);
    GroupedKeeps(HasNoEdgeOps(), entries);
    JobsKeep(HasNoEdgeOps(), Grouped(entries));
    RunIgnoresIndex(Loading(env, entries), dryRun, writeOk, Run(files, xs, [], []), Run(files, ys, [], []),
      Jobs(Grouped(entries)));
  }

  /**
   * From files without a parent or dep cycle and an index that agrees with them,
   * every state on disk during the run (after any number n of its tasks) has no
   * cycle either, whatever lines are refused and whatever writes fail, so long as
   * each line applied leaves the task's tags naming nothing that leads back to it.
   */
  lemma {:induction false} DiskStaysAcyclic(
    env: Env, writeOk: Key -> bool, files: map<Key, Task>, index: seq<Entry>, lines: seq<RawLine>, rules: Rules, n: nat)
    requires ListsCycles(env.cycles) && Agrees(files, index) && Acyclic(Keyed(env.reader, index))
    requires RunClear(env, writeOk, Run(files, index, [], []), Jobs(Grouped(Entries(lines, rules))))
    requires n <= |Jobs(Grouped(Entries(lines, rules)))|
    ensures var st := ApplyJobs(env, false, writeOk, Run(files, index, [], []), Jobs(Grouped(Entries(lines, rules)))[..n]);
            Agrees(st.files, st.index) && Acyclic(Keyed(env.reader, st.index)) && Distinct(st.written)
  {
    var jobs := Jobs(Grouped(Entries(lines, rules)));
    var st := Run(files, index, [], []);
    PlanJobsWellFormed(lines, rules);
    RunClearInit(env, writeOk, st, jobs, n);
    RunKeepsSafe(env, writeOk, st, jobs[..n]);
    assert KeysDistinct(jobs[..n]);
    WrittenOnce(env, writeOk, st, jobs[..n]);
  }

  /** So long as: the index is acyclic after every line exactly then. */
  lemma {:induction false} PlanStaysAcyclicIff(
    env: Env, writeOk: Key -> bool, files: map<Key, Task>, index: seq<Entry>, lines: seq<RawLine>, rules: Rules)
    requires ListsCycles(env.cycles) && Agrees(files, index) && Acyclic(Keyed(env.reader, index))
    ensures var st, jobs := Run(files, index, [], []), Jobs(Grouped(Entries(lines, rules)));
            && (RunAcyclic(env, writeOk, st, jobs) <==> RunClear(env, writeOk, st, jobs))
            && (EntriesLeaveTagEdges(env.reader, Entries(lines, rules)) ==> RunClear(env, writeOk, st, jobs))
  {
    var st, jobs := Run(files, index, [], []), Jobs(Grouped(Entries(lines, rules)));
    PlanJobsWellFormed(lines, rules);
    RunAcyclicIff(env, writeOk, st, jobs);
    if EntriesLeaveTagEdges(env.reader, Entries(lines, rules)) {
      var ok := (e: PlanEntry) => LeavesTagEdges(env.reader, e.ops);
      GroupedKeeps(ok, Entries(lines, rules));
      JobsKeep(ok, Grouped(Entries(lines, rules)));
      assert PlanLeavesTagEdges(env.reader, jobs) by {
        forall j, i | 0 <= j < |jobs| && 0 <= i < |jobs[j].entries| ensures LeavesTagEdges(env.reader, jobs[j].entries[i].ops) {
          assert AllOf(ok, jobs[j].entries);
          assert ok(jobs[j].entries[i]);
        }
      }
      PlainRunClear(env, writeOk, st, jobs);
    }
  }
}
