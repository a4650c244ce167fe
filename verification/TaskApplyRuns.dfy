/** What whole `task apply` runs keep. */
module TaskApplyRuns {
  // An acyclic edge graph on disk at every point, dry runs that predict real ones, and when a
  // second run is silent (src/commands/_task-apply-run.ts).

  import opened Prelude
  import opened TaskEdges
  import opened TaskOps
  import opened TaskApply

  // --- Within one task -----------------------------------------------------------

  /** The plan's tag ops on this task name no edge. */
  ghost predicate EntriesLeaveTagEdges(r: TagReader, entries: seq<PlanEntry>) {
    forall i :: 0 <= i < |entries| ==> LeavesTagEdges(r, entries[i].ops)
  }

  /** The index holds the running task at `k` and agrees elsewhere with `index`. */
  ghost predicate Placed(index: seq<Entry>, k: nat, p: Progress) {
    && k < |index|
    && p.task.id == index[k].task.id
    && p.index == index[k := Entry(index[k].slug, p.task)]
  }

  ghost predicate InStep(env: Env, index: seq<Entry>, k: nat, p: Progress) {
    Placed(index, k, p) && Acyclic(Keyed(env.reader, p.index))
  }

  /** If the line is applied, what the task's tags name from then on does not lead back to it. */
  ghost predicate LineClear(env: Env, k: nat, p: Progress, e: PlanEntry) {
    var q := ApplyEntry(env, p, e);
    q.index != p.index && Shown(p.index, k) ==> TagsClear(env.reader, Keyed(env.reader, p.index), q.task)
  }

  /** The line is applied: it changes something, and neither the edge check nor the schema refuses that. */
  ghost predicate Accepts(env: Env, p: Progress, e: PlanEntry) {
    var applied := ApplyOps(env.reader, p.index, env.now, p.task, e.ops);
    && !p.thrown && applied.changes != []
    && (env.loaded || !NeedsIndex(e.slug, p.task, applied.task))
    && EdgeErrors(env, p.index, e.slug, p.task, applied.task) == []
    && env.valid(applied.task.(updated := env.date))
  }

  lemma {:induction false} EntryCases(env: Env, p: Progress, e: PlanEntry)
    ensures var applied := ApplyOps(env.reader, p.index, env.now, p.task, e.ops);
            var stamped := applied.task.(updated := env.date);
            var q := ApplyEntry(env, p, e);
            if Accepts(env, p, e)
            then q == Progress(stamped, Record(p.index, e.slug, stamped), p.lines + [Result(e, LineApplied, applied.changes)])
            else q.task == p.task && q.index == p.index
  {
  }

  /** A line that neither fails nor throws leaves what its ops make of the task, stamped if they change it. */
  lemma {:induction false} WentOn(env: Env, p: Progress, e: PlanEntry)
    requires var q := ApplyEntry(env, p, e); !q.thrown && q.lines != [] && q.lines[|q.lines| - 1].outcome != LineFailed
    requires OpsWellFormed(e.ops)
    ensures var after := ApplyOps(env.reader, p.index, env.now, p.task, e.ops).task;
            ApplyEntry(env, p, e).task == after || ApplyEntry(env, p, e).task == after.(updated := env.date)
  {
    NoChangesIff(env.reader, p.index, env.now, p.task, e.ops);
  }

  /** A line that does not throw gets one result. */
  lemma {:induction false} OneMoreLine(env: Env, p: Progress, e: PlanEntry)
    requires !ApplyEntry(env, p, e).thrown
    ensures !p.thrown
    ensures var q := ApplyEntry(env, p, e);
            && |q.lines| == |p.lines| + 1 && q.lines == p.lines + [q.lines[|p.lines|]]
            && var l := q.lines[|p.lines|]; l.index == e.index && l.slug == e.slug && l.id == e.id
  {
  }

  /** One line keeps task and index in step, and the index acyclic exactly when it is clear. */
  lemma {:induction false} EntryInStepIff(env: Env, index: seq<Entry>, k: nat, p: Progress, e: PlanEntry)
    requires ListsCycles(env.cycles) && UniqueEntries(index)
    requires InStep(env, index, k, p) && e.slug == index[k].slug
    ensures Placed(index, k, ApplyEntry(env, p, e))
    ensures Acyclic(Keyed(env.reader, ApplyEntry(env, p, e).index)) <==> LineClear(env, k, p, e)
  {
    EntryCases(env, p, e);
    if Accepts(env, p, e) {
      var applied := ApplyOps(env.reader, p.index, env.now, p.task, e.ops);
      var stamped := applied.task.(updated := env.date);
      OpsOnEdges(env.reader, p.index, env.now, p.task, e.ops);
      PutAt(index, k, p, stamped);
      AcceptedAcyclicIff(env, index, k, p, stamped);
    }
  }

  lemma {:induction false} PutAt(index: seq<Entry>, k: nat, p: Progress, after: Task)
    requires UniqueEntries(index) && Placed(index, k, p) && after.id == p.task.id
    ensures Record(p.index, index[k].slug, after) == index[k := Entry(index[k].slug, after)]
    ensures Record(p.index, index[k].slug, after) == p.index[k := Entry(p.index[k].slug, after)]
  {
    UpdateUnique(index, k, p.task);
    RecordAt(p.index, k, after);
    assert p.index[k := Entry(index[k].slug, after)] == index[k := Entry(index[k].slug, after)];
  }

  lemma {:induction false} AcceptedAcyclicIff(env: Env, index: seq<Entry>, k: nat, p: Progress, after: Task)
    requires ListsCycles(env.cycles) && UniqueEntries(index) && InStep(env, index, k, p)
    requires FieldsGrow(p.task, after) && EdgeErrors(env, p.index, index[k].slug, p.task, after) == []
    ensures var put := p.index[k := Entry(p.index[k].slug, after)];
            Acyclic(Keyed(env.reader, put)) <==>
            (put != p.index && Shown(p.index, k) ==> TagsClear(env.reader, Keyed(env.reader, p.index), after))
  {
    if p.index[k := Entry(p.index[k].slug, after)] != p.index {
      ChangedTaskAcyclicIff(env, p.index, k, after);
    }
  }

  /** A line whose tag ops name no edge is clear. */
  lemma {:induction false} PlainLineClear(env: Env, index: seq<Entry>, k: nat, p: Progress, e: PlanEntry)
    requires InStep(env, index, k, p) && LeavesTagEdges(env.reader, e.ops)
    ensures LineClear(env, k, p, e)
  {
    EntryCases(env, p, e);
    if Accepts(env, p, e) && Shown(p.index, k) {
      var after := ApplyOps(env.reader, p.index, env.now, p.task, e.ops).task.(updated := env.date);
      OpsOnEdges(env.reader, p.index, env.now, p.task, e.ops);
      ShownGraph(env.reader, p.index, k);
      assert p.index[k].task == p.task;
      ShrunkTagsClear(env.reader, Keyed(env.reader, p.index), p.task, after);
    }
  }

  /** Every line of a task is clear when its turn comes. */
  ghost predicate LinesClear(env: Env, index: seq<Entry>, k: nat, task: Task, entries: seq<PlanEntry>)
    decreases |entries|
  {
    entries == [] ||
    (LinesClear(env, index, k, task, entries[..|entries| - 1])
     && LineClear(env, k, ApplyEntries(env, index, task, entries[..|entries| - 1]), entries[|entries| - 1]))
  }

  /** After each of the task's lines, and before the first, the index has no cycle. */
  ghost predicate AcyclicThroughout(env: Env, index: seq<Entry>, task: Task, entries: seq<PlanEntry>)
    decreases |entries|
  {
    && Acyclic(Keyed(env.reader, ApplyEntries(env, index, task, entries).index))
    && (entries == [] || AcyclicThroughout(env, index, task, entries[..|entries| - 1]))
  }

  lemma {:induction false} EntriesInStepIff(env: Env, index: seq<Entry>, k: nat, entries: seq<PlanEntry>)
    requires ListsCycles(env.cycles) && UniqueEntries(index) && k < |index|
    requires Acyclic(Keyed(env.reader, index))
    requires forall i :: 0 <= i < |entries| ==> entries[i].slug == index[k].slug
    ensures AcyclicThroughout(env, index, index[k].task, entries) <==>
            LinesClear(env, index, k, index[k].task, entries)
    ensures LinesClear(env, index, k, index[k].task, entries) ==>
              InStep(env, index, k, ApplyEntries(env, index, index[k].task, entries))
    decreases |entries|
  {
    if entries == [] {
      assert index[k := Entry(index[k].slug, index[k].task)] == index;
    } else {
      var init := entries[..|entries| - 1];
      EntriesInStepIff(env, index, k, init);
      if LinesClear(env, index, k, index[k].task, init) {
        EntryInStepIff(env, index, k, ApplyEntries(env, index, index[k].task, init), entries[|entries| - 1]);
      }
    }
  }

  lemma {:induction false} PlainLinesClear(env: Env, index: seq<Entry>, k: nat, entries: seq<PlanEntry>)
    requires ListsCycles(env.cycles) && UniqueEntries(index) && k < |index|
    requires Acyclic(Keyed(env.reader, index)) && EntriesLeaveTagEdges(env.reader, entries)
    requires forall i :: 0 <= i < |entries| ==> entries[i].slug == index[k].slug
    ensures LinesClear(env, index, k, index[k].task, entries)
    decreases |entries|
  {
    if entries != [] {
      var init := entries[..|entries| - 1];
      PlainLinesClear(env, index, k, init);
      EntriesInStepIff(env, index, k, init);
      PlainLineClear(env, index, k, ApplyEntries(env, index, index[k].task, init), entries[|entries| - 1]);
    }
  }

  /** A task no line of which was applied is as it was. */
  lemma {:induction false} CleanIsUnchanged(env: Env, index: seq<Entry>, task: Task, entries: seq<PlanEntry>)
    requires !Dirty(ApplyEntries(env, index, task, entries).lines)
    ensures ApplyEntries(env, index, task, entries).task == task
    ensures ApplyEntries(env, index, task, entries).index == index
    decreases |entries|
  {
    if entries != [] {
      var before := ApplyEntries(env, index, task, entries[..|entries| - 1]);
      var after := ApplyEntries(env, index, task, entries);
      assert before.lines <= after.lines;
      assert !Dirty(before.lines) by {
        assert forall i :: 0 <= i < |before.lines| ==> before.lines[i] == after.lines[i];
      }
      CleanIsUnchanged(env, index, task, entries[..|entries| - 1]);
      assert after.lines == before.lines || after.lines[|after.lines| - 1].outcome != LineApplied;
    }
  }

  // --- The safety invariant over a run ------------------------------------------------

  ghost predicate Safe(env: Env, st: Run) {
    Agrees(st.files, st.index) && Acyclic(Keyed(env.reader, st.index))
  }

  lemma {:induction false} FindEntry(files: map<Key, Task>, index: seq<Entry>, key: Key) returns (k: nat)
    requires Agrees(files, index) && key in files
    ensures k < |index| && index[k] == Entry(key.slug, files[key])
    ensures files[key].id == key.id
  {
    k :| 0 <= k < |index| && index[k] == Entry(key.slug, files[key]);
  }

  /** The task's lines are clear, if there is such a task. */
  ghost predicate JobClear(env: Env, st: Run, job: Job) {
    forall k: nat :: job.key in st.files && k < |st.index| && st.index[k] == Entry(job.key.slug, st.files[job.key]) ==>
      LinesClear(env, st.index, k, st.files[job.key], job.entries)
  }

  ghost predicate JobAcyclic(env: Env, st: Run, job: Job) {
    job.key in st.files ==> AcyclicThroughout(env, st.index, st.files[job.key], job.entries)
  }

  lemma {:induction false} JobClearIff(env: Env, st: Run, job: Job)
    requires ListsCycles(env.cycles) && Safe(env, st) && JobWellFormed(job)
    ensures JobAcyclic(env, st, job) <==> JobClear(env, st, job)
    ensures EntriesLeaveTagEdges(env.reader, job.entries) ==> JobClear(env, st, job)
  {
    if job.key in st.files {
      var k := FindEntry(st.files, st.index, job.key);
      forall i: nat | i < |st.index| && st.index[i] == Entry(job.key.slug, st.files[job.key]) ensures i == k {
      }
      EntriesInStepIff(env, st.index, k, job.entries);
      if EntriesLeaveTagEdges(env.reader, job.entries) {
        PlainLinesClear(env, st.index, k, job.entries);
      }
    }
  }

  /** Refused, applied, unwritable: whatever one task's clear lines do, index and disk agree again and stay acyclic. */
  lemma {:induction false} JobKeepsSafe(env: Env, writeOk: Key -> bool, st: Run, job: Job)
    requires ListsCycles(env.cycles) && Safe(env, st)
    requires JobWellFormed(job) && JobClear(env, st, job)
    ensures Safe(env, ApplyJob(env, false, writeOk, st, job))
  {
    if job.key in st.files {
      var k := FindEntry(st.files, st.index, job.key);
      var original := st.files[job.key];
      var p := ApplyEntries(env, st.index, original, job.entries);
      EntriesInStepIff(env, st.index, k, job.entries);
      if !p.thrown && !Dirty(p.lines) {
        CleanIsUnchanged(env, st.index, original, job.entries);
      } else if !p.thrown && writeOk(job.key) {
        UpdateAgrees(st.files, st.index, k, p.task);
      } else {
        PutBack(st.index, k, p, job.key.slug);
      }
    }
  }

  lemma {:induction false} PutBack(index: seq<Entry>, k: nat, p: Progress, slug: string)
    requires UniqueEntries(index) && Placed(index, k, p) && slug == index[k].slug
    ensures Record(p.index, slug, index[k].task) == index
  {
    PutAt(index, k, p, index[k].task);
  }

  ghost predicate PlanLeavesTagEdges(r: TagReader, jobs: seq<Job>) {
    forall j :: 0 <= j < |jobs| ==> EntriesLeaveTagEdges(r, jobs[j].entries)
  }

  /** Every line of the run is clear when its turn comes. */
  ghost predicate RunClear(env: Env, writeOk: Key -> bool, st: Run, jobs: seq<Job>)
    decreases |jobs|
  {
    jobs == [] ||
    (RunClear(env, writeOk, st, jobs[..|jobs| - 1])
     && JobClear(env, ApplyJobs(env, false, writeOk, st, jobs[..|jobs| - 1]), jobs[|jobs| - 1]))
  }

  /** After every line of the run the index has no cycle. */
  ghost predicate RunAcyclic(env: Env, writeOk: Key -> bool, st: Run, jobs: seq<Job>)
    decreases |jobs|
  {
    jobs == [] ||
    (RunAcyclic(env, writeOk, st, jobs[..|jobs| - 1])
     && JobAcyclic(env, ApplyJobs(env, false, writeOk, st, jobs[..|jobs| - 1]), jobs[|jobs| - 1]))
  }

  /** After any number of the plan's tasks, the files on disk have no parent or dep cycle. */
  lemma {:induction false} RunKeepsSafe(env: Env, writeOk: Key -> bool, st: Run, jobs: seq<Job>)
    requires ListsCycles(env.cycles) && Safe(env, st)
    requires JobsWellFormed(jobs) && RunClear(env, writeOk, st, jobs)
    ensures Safe(env, ApplyJobs(env, false, writeOk, st, jobs))
    decreases |jobs|
  {
    if jobs != [] {
      var init := jobs[..|jobs| - 1];
      JobsWellFormedInit(jobs);
      RunKeepsSafe(env, writeOk, st, init);
      JobKeepsSafe(env, writeOk, ApplyJobs(env, false, writeOk, st, init), jobs[|jobs| - 1]);
    }
  }

  /** Over any run the index is acyclic after every line exactly when every line is clear. */
  lemma {:induction false} RunAcyclicIff(env: Env, writeOk: Key -> bool, st: Run, jobs: seq<Job>)
    requires ListsCycles(env.cycles) && Safe(env, st) && JobsWellFormed(jobs)
    ensures RunAcyclic(env, writeOk, st, jobs) <==> RunClear(env, writeOk, st, jobs)
    decreases |jobs|
  {
    if jobs != [] {
      var init := jobs[..|jobs| - 1];
      JobsWellFormedInit(jobs);
      RunAcyclicIff(env, writeOk, st, init);
      if RunClear(env, writeOk, st, init) {
        RunKeepsSafe(env, writeOk, st, init);
        JobClearIff(env, ApplyJobs(env, false, writeOk, st, init), jobs[|jobs| - 1]);
      }
    }
  }

  /** In particular every line is, in a plan whose tag ops name no edge. */
  lemma {:induction false} PlainRunClear(env: Env, writeOk: Key -> bool, st: Run, jobs: seq<Job>)
    requires ListsCycles(env.cycles) && Safe(env, st)
    requires JobsWellFormed(jobs) && PlanLeavesTagEdges(env.reader, jobs)
    ensures RunClear(env, writeOk, st, jobs)
    decreases |jobs|
  {
    if jobs != [] {
      var init := jobs[..|jobs| - 1];
      JobsWellFormedInit(jobs);
      PlainRunClear(env, writeOk, st, init);
      RunKeepsSafe(env, writeOk, st, init);
      JobClearIff(env, ApplyJobs(env, false, writeOk, st, init), jobs[|jobs| - 1]);
    }
  }

  lemma {:induction false} RunClearInit(env: Env, writeOk: Key -> bool, st: Run, jobs: seq<Job>, n: nat)
    requires n <= |jobs| && JobsWellFormed(jobs) && RunClear(env, writeOk, st, jobs)
    ensures JobsWellFormed(jobs[..n]) && RunClear(env, writeOk, st, jobs[..n])
    decreases |jobs|
  {
    if n == |jobs| {
      assert jobs[..n] == jobs;
    } else {
      JobsWellFormedInit(jobs);
      RunClearInit(env, writeOk, st, jobs[..|jobs| - 1], n);
      assert jobs[..|jobs| - 1][..n] == jobs[..n];
    }
  }

  // --- Each task is read once and written at most once ----------------------------------

  lemma {:induction false} JobLeavesOthers(env: Env, dryRun: bool, writeOk: Key -> bool, st: Run, job: Job, key: Key)
    requires job.key != key
    ensures SameFile(ApplyJob(env, dryRun, writeOk, st, job).files, st.files, key)
  {
  }

  ghost predicate SameFile(a: map<Key, Task>, b: map<Key, Task>, key: Key) {
    (key in a <==> key in b) && (key in a ==> a[key] == b[key])
  }

  lemma {:induction false} FilesOutside(env: Env, dryRun: bool, writeOk: Key -> bool, st: Run, jobs: seq<Job>, key: Key)
    requires forall j :: 0 <= j < |jobs| ==> jobs[j].key != key
    ensures SameFile(ApplyJobs(env, dryRun, writeOk, st, jobs).files, st.files, key)
    decreases |jobs|
  {
    if jobs != [] {
      var init := jobs[..|jobs| - 1];
      FilesOutside(env, dryRun, writeOk, st, init, key);
      JobLeavesOthers(env, dryRun, writeOk, ApplyJobs(env, dryRun, writeOk, st, init), jobs[|jobs| - 1], key);
    }
  }

  lemma {:induction false} JobWrites(env: Env, writeOk: Key -> bool, st: Run, job: Job)
    ensures var end := ApplyJob(env, false, writeOk, st, job);
            end.written == st.written || end.written == st.written + [job.key]
  {
  }

  /** Every key is that of one of the jobs. */
  ghost predicate KeysOf(written: seq<Key>, jobs: seq<Job>) {
    forall i :: 0 <= i < |written| ==> exists j :: 0 <= j < |jobs| && jobs[j].key == written[i]
  }

  lemma {:induction false} KeysOfMore(written: seq<Key>, jobs: seq<Job>)
    requires jobs != [] && KeysOf(written, jobs[..|jobs| - 1])
    ensures KeysOf(written, jobs) && KeysOf(written + [jobs[|jobs| - 1].key], jobs)
  {
    forall i | 0 <= i < |written| ensures exists j :: 0 <= j < |jobs| && jobs[j].key == written[i] {
      var j :| 0 <= j < |jobs| - 1 && jobs[..|jobs| - 1][j].key == written[i];
      assert jobs[j].key == written[i];
    }
    var more := written + [jobs[|jobs| - 1].key];
    forall i | 0 <= i < |more| ensures exists j :: 0 <= j < |jobs| && jobs[j].key == more[i] {
      if i < |written| {
        assert more[i] == written[i];
      } else {
        assert jobs[|jobs| - 1].key == more[i];
      }
    }
  }

  lemma {:induction false} WrittenOnce(env: Env, writeOk: Key -> bool, st: Run, jobs: seq<Job>)
    requires KeysDistinct(jobs) && st.written == []
    ensures var end := ApplyJobs(env, false, writeOk, st, jobs);
            Distinct(end.written) && KeysOf(end.written, jobs)
    decreases |jobs|
  {
    if jobs != [] {
      var init, last := jobs[..|jobs| - 1], jobs[|jobs| - 1];
      WrittenOnce(env, writeOk, st, init);
      var before := ApplyJobs(env, false, writeOk, st, init);
      JobWrites(env, writeOk, before, last);
      KeysOfMore(before.written, jobs);
      forall i | 0 <= i < |before.written| ensures before.written[i] != last.key {
        var j :| 0 <= j < |init| && init[j].key == before.written[i];
        assert jobs[j].key == before.written[i];
      }
    }
  }

  // --- Dry runs -------------------------------------------------------------------------

  /** A dry run writes nothing and reports line for line what the real run does when no write fails. */
  lemma {:induction false} DryRunPredicts(env: Env, writeOk: Key -> bool, st: Run, jobs: seq<Job>)
    requires KeysDistinct(jobs) && forall key :: writeOk(key)
    ensures var dry, wet := ApplyJobs(env, true, writeOk, st, jobs), ApplyJobs(env, false, writeOk, st, jobs);
            && dry.lines == wet.lines && dry.index == wet.index
            && dry.files == st.files && dry.written == st.written
    decreases |jobs|
  {
    if jobs != [] {
      var init, last := jobs[..|jobs| - 1], jobs[|jobs| - 1];
      DryRunPredicts(env, writeOk, st, init);
      FilesOutside(env, false, writeOk, st, init, last.key);
    }
  }

  // --- Plans that do not load the index ---------------------------------------------------

  ghost predicate AllOf(ok: PlanEntry -> bool, entries: seq<PlanEntry>) {
    forall i :: 0 <= i < |entries| ==> ok(entries[i])
  }

  ghost predicate AllOfJobs(ok: PlanEntry -> bool, jobs: seq<Job>) {
    forall j :: 0 <= j < |jobs| ==> AllOf(ok, jobs[j].entries)
  }

  function HasNoEdgeOps(): PlanEntry -> bool {
    (e: PlanEntry) => NoEdgeOps(e.ops)
  }

  lemma {:induction false} EntriesIgnoreIndex(
    env: Env, xs: seq<Entry>, ys: seq<Entry>, task: Task, entries: seq<PlanEntry>)
    requires !env.loaded && AllOf(HasNoEdgeOps(), entries)
    ensures var p, q := ApplyEntries(env, xs, task, entries), ApplyEntries(env, ys, task, entries);
            p.task == q.task && p.lines == q.lines && p.thrown == q.thrown
    decreases |entries|
  {
    if entries != [] {
      var init, last := entries[..|entries| - 1], entries[|entries| - 1];
      EntriesIgnoreIndex(env, xs, ys, task, init);
      var p, q := ApplyEntries(env, xs, task, init), ApplyEntries(env, ys, task, init);
      assert HasNoEdgeOps()(last);
      OpsIgnoreIndex(env.reader, p.index, q.index, env.now, p.task, last.ops);
    }
  }

  ghost predicate SameButIndex(a: Run, b: Run) {
    a.files == b.files && a.written == b.written && a.lines == b.lines
  }

  /** Without edge ops nothing depends on an index that was not loaded. */
  lemma {:induction false} RunIgnoresIndex(
    env: Env, dryRun: bool, writeOk: Key -> bool, a: Run, b: Run, jobs: seq<Job>)
    requires !env.loaded && AllOfJobs(HasNoEdgeOps(), jobs) && SameButIndex(a, b)
    ensures SameButIndex(ApplyJobs(env, dryRun, writeOk, a, jobs), ApplyJobs(env, dryRun, writeOk, b, jobs))
    decreases |jobs|
  {
    if jobs != [] {
      var init, last := jobs[..|jobs| - 1], jobs[|jobs| - 1];
      RunIgnoresIndex(env, dryRun, writeOk, a, b, init);
      var x, y := ApplyJobs(env, dryRun, writeOk, a, init), ApplyJobs(env, dryRun, writeOk, b, init);
      if last.key in x.files {
        EntriesIgnoreIndex(env, x.index, y.index, x.files[last.key], last.entries);
      }
    }
  }

  // --- Running the same plan again ---------------------------------------------------------

  function AllOps(entries: seq<PlanEntry>): seq<Op> {
    if entries == [] then [] else AllOps(entries[..|entries| - 1]) + entries[|entries| - 1].ops
  }

  ghost predicate NoneFailed(lines: seq<LineResult>) {
    forall i :: 0 <= i < |lines| ==> lines[i].outcome != LineFailed
  }

  ghost predicate OpsWellFormed(ops: seq<Op>) {
    forall i :: 0 <= i < |ops| ==> WellFormed(ops[i])
  }

  ghost predicate EntriesWellFormed(entries: seq<PlanEntry>) {
    forall i :: 0 <= i < |entries| ==> OpsWellFormed(entries[i].ops)
  }

  lemma {:induction false} StampKeepsStable(t: Task, date: string, ops: seq<Op>)
    ensures AllStable(t.(updated := date), ops) <==> AllStable(t, ops)
  {
    assert forall op :: Stable(t.(updated := date), op) <==> Stable(t, op);
  }

  lemma {:induction false} StableIsHarmonious(t: Task, ops: seq<Op>)
    requires AllStable(t, ops)
    ensures Harmonious(ops)
  {
    forall i, j | 0 <= i < j < |ops| ensures !Conflict(ops[i], ops[j]) {
      if Conflict(ops[i], ops[j]) {
        ConflictUnstable(t, ops[i], ops[j]);
      }
    }
  }

  lemma {:induction false} HarmonySplits(xs: seq<Op>, ys: seq<Op>)
    requires Harmonious(xs + ys)
    ensures Harmonious(xs) && Harmonious(ys)
    ensures forall i, j :: 0 <= i < |xs| && 0 <= j < |ys| ==> !Conflict(xs[i], ys[j])
  {
    var all := xs + ys;
    assert forall i :: 0 <= i < |xs| ==> all[i] == xs[i];
    assert forall j :: 0 <= j < |ys| ==> all[|xs| + j] == ys[j];
  }

  /** Ops on top of settled ops, none in conflict with them, leave everything settled. */
  lemma {:induction false} OpsSettleOnTop(
    r: TagReader, entries: seq<Entry>, now: string, t: Task, done: seq<Op>, ops: seq<Op>)
    requires AllStable(t, done) && Harmonious(done + ops) && OpsWellFormed(done) && OpsWellFormed(ops)
    ensures AllStable(ApplyOps(r, entries, now, t, ops).task, done + ops)
  {
    HarmonySplits(done, ops);
    OpsAllStable(r, entries, now, t, ops);
    var after := ApplyOps(r, entries, now, t, ops).task;
    forall i | 0 <= i < |done + ops| ensures Stable(after, (done + ops)[i]) {
      if i < |done| {
        OpsKeepStable(r, entries, now, t, ops, done[i]);
      } else {
        assert Stable(after, ops[i - |done|]);
      }
    }
  }

  lemma {:induction false} AllOpsWellFormed(entries: seq<PlanEntry>)
    requires EntriesWellFormed(entries)
    ensures OpsWellFormed(AllOps(entries))
  {
    if entries != [] {
      AllOpsWellFormed(entries[..|entries| - 1]);
    }
  }

  /** Lines that all went through, and do not contradict each other, leave every op settled. */
  lemma {:induction false} EntriesSettle(env: Env, index: seq<Entry>, task: Task, entries: seq<PlanEntry>)
    requires EntriesWellFormed(entries) && Harmonious(AllOps(entries))
    requires NoneFailed(ApplyEntries(env, index, task, entries).lines)
    requires !ApplyEntries(env, index, task, entries).thrown
    ensures AllStable(ApplyEntries(env, index, task, entries).task, AllOps(entries))
    decreases |entries|
  {
    if entries != [] {
      var init, last := entries[..|entries| - 1], entries[|entries| - 1];
      var p, q := ApplyEntries(env, index, task, init), ApplyEntries(env, index, task, entries);
      HarmonySplits(AllOps(init), last.ops);
      assert NoneFailed(p.lines) by {
        assert forall i :: 0 <= i < |p.lines| ==> p.lines[i] == q.lines[i];
      }
      EntriesSettle(env, index, task, init);
      AllOpsWellFormed(init);
      var applied := ApplyOps(env.reader, p.index, env.now, p.task, last.ops);
      OpsSettleOnTop(env.reader, p.index, env.now, p.task, AllOps(init), last.ops);
      NoChangesIff(env.reader, p.index, env.now, p.task, last.ops);
      AllIdleIs(env.reader, p.task, last.ops);
      StampKeepsStable(applied.task, env.date, AllOps(entries));
      assert q.lines[|q.lines| - 1].outcome != LineFailed;
    }
  }

  lemma {:induction false} EntryQuietIff(env: Env, p: Progress, e: PlanEntry)
    requires OpsWellFormed(e.ops) && !p.thrown
    ensures var q := ApplyEntry(env, p, e);
            if AllIdle(env.reader, p.task, e.ops) then q == p.(lines := p.lines + [Result(e, LineUnchanged, [])])
            else (q.thrown && q.lines == p.lines) ||
                 (|q.lines| == |p.lines| + 1 && q.lines[..|p.lines|] == p.lines
                  && (q.lines[|p.lines|].outcome == LineApplied || q.lines[|p.lines|].outcome == LineFailed))
  {
    NoChangesIff(env.reader, p.index, env.now, p.task, e.ops);
  }

  /** A task's lines are all reported unchanged exactly when every op finds nothing to do. */
  lemma {:induction false} RerunQuietIff(env: Env, index: seq<Entry>, task: Task, entries: seq<PlanEntry>)
    requires EntriesWellFormed(entries)
    ensures var p := ApplyEntries(env, index, task, entries);
            && (!p.thrown && AllUnchanged(p.lines) <==> AllIdle(env.reader, task, AllOps(entries)))
            && (!p.thrown && AllUnchanged(p.lines) ==> p.task == task && p.index == index)
            && NoneMissing(p.lines)
    decreases |entries|
  {
    if entries != [] {
      var init, last := entries[..|entries| - 1], entries[|entries| - 1];
      var p, q := ApplyEntries(env, index, task, init), ApplyEntries(env, index, task, entries);
      RerunQuietIff(env, index, task, init);
      AllIdleSplits(env.reader, task, AllOps(init), last.ops);
      if !p.thrown {
        EntryQuietIff(env, p, last);
        if q.lines != p.lines {
          AllUnchangedSnoc(p.lines, q.lines);
          assert NoneMissing(q.lines) by {
            assert forall i :: 0 <= i < |q.lines| ==> q.lines[i] == if i < |p.lines| then p.lines[i] else q.lines[|p.lines|];
          }
        }
      }
    }
  }

  ghost predicate NoneMissing(lines: seq<LineResult>) {
    forall i :: 0 <= i < |lines| ==> lines[i].outcome != LineMissing
  }

  ghost predicate AllUnchanged(lines: seq<LineResult>) {
    forall i :: 0 <= i < |lines| ==> lines[i].outcome == LineUnchanged
  }

  lemma {:induction false} AllUnchangedSnoc(init: seq<LineResult>, lines: seq<LineResult>)
    requires |lines| == |init| + 1 && lines[..|init|] == init
    ensures AllUnchanged(lines) <==> AllUnchanged(init) && lines[|init|].outcome == LineUnchanged
  {
    assert forall i :: 0 <= i < |init| ==> init[i] == lines[i];
  }

  lemma {:induction false} AllIdleSplits(r: TagReader, t: Task, xs: seq<Op>, ys: seq<Op>)
    ensures AllIdle(r, t, xs + ys) <==> AllIdle(r, t, xs) && AllIdle(r, t, ys)
  {
    var all := xs + ys;
    if AllIdle(r, t, all) {
      assert forall i :: 0 <= i < |xs| ==> xs[i] == all[i];
      assert forall j :: 0 <= j < |ys| ==> ys[j] == all[|xs| + j];
    }
  }

  /** A task that ends for want of the index reports nothing but failures. */
  lemma {:induction false} ThrownFails(env: Env, index: seq<Entry>, task: Task, entries: seq<PlanEntry>, why: Failure)
    requires ApplyEntries(env, index, task, entries).thrown
    ensures entries != [] && !NoneFailed(Failures(entries, why)) && !Quiet(Failures(entries, why))
  {
    assert Failures(entries, why)[|entries| - 1].outcome == LineFailed by {
      FailuresAre(entries, why);
    }
  }

  lemma {:induction false} FailuresAre(entries: seq<PlanEntry>, why: Failure)
    ensures |Failures(entries, why)| == |entries|
    ensures forall i :: 0 <= i < |entries| ==> Failures(entries, why)[i] == Failing(entries[i], why)
  {
    if entries != [] {
      FailuresAre(entries[..|entries| - 1], why);
    }
  }

  /** What a plan asks of one task is free of contradiction. */
  ghost predicate HarmoniousJob(job: Job) {
    Harmonious(AllOps(job.entries))
  }

  ghost predicate Settled(files: map<Key, Task>, job: Job) {
    job.key in files ==> AllStable(files[job.key], AllOps(job.entries))
  }

  lemma {:induction false} JobEntriesWellFormed(job: Job)
    requires JobWellFormed(job)
    ensures EntriesWellFormed(job.entries)
  {
  }

  /** A job none of whose lines failed went through line by line, and leaves the task it computed. */
  lemma {:induction false} WentThrough(env: Env, writeOk: Key -> bool, st: Run, job: Job)
    requires writeOk(job.key) && job.key in st.files
    requires NoneFailed(ApplyJob(env, false, writeOk, st, job).lines)
    ensures var p := ApplyEntries(env, st.index, st.files[job.key], job.entries);
            && !p.thrown && NoneFailed(p.lines)
            && ApplyJob(env, false, writeOk, st, job).files == st.files[job.key := p.task]
  {
    var original := st.files[job.key];
    var p := ApplyEntries(env, st.index, original, job.entries);
    var alone := RunJob(env, false, writeOk, st.files, st.index, st.written, job);
    NoneFailedSuffix(st.lines, alone.lines);
    if p.thrown {
      ThrownFails(env, st.index, original, job.entries, NoIndex);
    } else if !Dirty(p.lines) {
      CleanIsUnchanged(env, st.index, original, job.entries);
      assert st.files[job.key := original] == st.files;
    }
  }

  lemma {:induction false} NoneFailedSuffix(xs: seq<LineResult>, ys: seq<LineResult>)
    requires NoneFailed(xs + ys)
    ensures NoneFailed(ys)
  {
    assert forall i :: 0 <= i < |ys| ==> ys[i] == (xs + ys)[|xs| + i];
  }

  /** One task's lines, all gone through: settled exactly when they were harmonious. */
  lemma {:induction false} JobSettles(env: Env, writeOk: Key -> bool, st: Run, job: Job)
    requires JobWellFormed(job) && writeOk(job.key) && job.key in st.files
    requires NoneFailed(ApplyJob(env, false, writeOk, st, job).lines)
    ensures Settled(ApplyJob(env, false, writeOk, st, job).files, job) <==> HarmoniousJob(job)
  {
    var p := ApplyEntries(env, st.index, st.files[job.key], job.entries);
    WentThrough(env, writeOk, st, job);
    JobEntriesWellFormed(job);
    if HarmoniousJob(job) {
      EntriesSettle(env, st.index, st.files[job.key], job.entries);
    }
    if AllStable(p.task, AllOps(job.entries)) {
      StableIsHarmonious(p.task, AllOps(job.entries));
    }
  }

  lemma {:induction false} NoneFailedPrefix(xs: seq<LineResult>, ys: seq<LineResult>)
    requires xs <= ys && NoneFailed(ys)
    ensures NoneFailed(xs)
  {
    assert forall i :: 0 <= i < |xs| ==> xs[i] == ys[i];
  }

  lemma {:induction false} JobsSettle(env: Env, writeOk: Key -> bool, st: Run, jobs: seq<Job>, j: nat)
    requires JobsWellFormed(jobs) && (forall key :: writeOk(key)) && j < |jobs| && jobs[j].key in st.files
    requires NoneFailed(ApplyJobs(env, false, writeOk, st, jobs).lines)
    ensures Settled(ApplyJobs(env, false, writeOk, st, jobs).files, jobs[j]) <==> HarmoniousJob(jobs[j])
    decreases |jobs|
  {
    var init, last := jobs[..|jobs| - 1], jobs[|jobs| - 1];
    JobsWellFormedInit(jobs);
    var before, end := ApplyJobs(env, false, writeOk, st, init), ApplyJobs(env, false, writeOk, st, jobs);
    if j < |init| {
      NoneFailedPrefix(before.lines, end.lines);
      JobsSettle(env, writeOk, st, init, j);
      JobLeavesOthers(env, false, writeOk, before, last, jobs[j].key);
    } else {
      FilesOutside(env, false, writeOk, st, init, last.key);
      JobSettles(env, writeOk, before, last);
    }
  }

  ghost predicate Quiet(lines: seq<LineResult>) {
    forall i :: 0 <= i < |lines| ==> lines[i].outcome == LineUnchanged || lines[i].outcome == LineMissing
  }

  /** There is nothing left to do for the job. */
  ghost predicate Resting(r: TagReader, files: map<Key, Task>, job: Job) {
    job.key in files ==> AllIdle(r, files[job.key], AllOps(job.entries))
  }

  ghost predicate AllResting(r: TagReader, files: map<Key, Task>, jobs: seq<Job>) {
    forall j :: 0 <= j < |jobs| ==> Resting(r, files, jobs[j])
  }

  lemma {:induction false} QuietConcat(xs: seq<LineResult>, ys: seq<LineResult>)
    ensures Quiet(xs + ys) <==> Quiet(xs) && Quiet(ys)
  {
    var all := xs + ys;
    if Quiet(all) {
      assert forall i :: 0 <= i < |xs| ==> xs[i] == all[i];
      assert forall j :: 0 <= j < |ys| ==> ys[j] == all[|xs| + j];
    }
  }

  lemma {:induction false} MissingsQuiet(entries: seq<PlanEntry>)
    ensures Quiet(Missings(entries))
  {
    if entries != [] {
      MissingsQuiet(entries[..|entries| - 1]);
    }
  }

  lemma {:induction false} JobQuietIff(env: Env, writeOk: Key -> bool, st: Run, job: Job)
    requires JobWellFormed(job) && (forall key :: writeOk(key))
    ensures var end := ApplyJob(env, false, writeOk, st, job);
            && (Quiet(end.lines) <==> Quiet(st.lines) && Resting(env.reader, st.files, job))
            && (Quiet(end.lines) ==> end.files == st.files && end.written == st.written)
  {
    JobEntriesWellFormed(job);
    if job.key in st.files {
      var p := ApplyEntries(env, st.index, st.files[job.key], job.entries);
      RerunQuietIff(env, st.index, st.files[job.key], job.entries);
      if p.thrown {
        ThrownFails(env, st.index, st.files[job.key], job.entries, NoIndex);
        QuietConcat(st.lines, Failures(job.entries, NoIndex));
      } else {
        QuietConcat(st.lines, p.lines);
      }
    } else {
      MissingsQuiet(job.entries);
      QuietConcat(st.lines, Missings(job.entries));
    }
  }

  lemma {:induction false} JobsWellFormedInit(jobs: seq<Job>)
    requires jobs != [] && JobsWellFormed(jobs)
    ensures JobsWellFormed(jobs[..|jobs| - 1])
  {
    assert forall i :: 0 <= i < |jobs| - 1 ==> jobs[..|jobs| - 1][i] == jobs[i];
  }

  lemma {:induction false} AllRestingSnoc(r: TagReader, files: map<Key, Task>, jobs: seq<Job>)
    requires jobs != []
    ensures AllResting(r, files, jobs) <==>
            AllResting(r, files, jobs[..|jobs| - 1]) && Resting(r, files, jobs[|jobs| - 1])
  {
    var init := jobs[..|jobs| - 1];
    assert forall i :: 0 <= i < |init| ==> init[i] == jobs[i];
  }

  lemma {:induction false} JobsQuietIff(env: Env, writeOk: Key -> bool, st: Run, jobs: seq<Job>)
    requires JobsWellFormed(jobs) && (forall key :: writeOk(key)) && st.lines == []
    ensures var end := ApplyJobs(env, false, writeOk, st, jobs);
            && (Quiet(end.lines) <==> AllResting(env.reader, st.files, jobs))
            && (Quiet(end.lines) ==> end.files == st.files && end.written == st.written)
    decreases |jobs|
  {
    if jobs != [] {
      var init, last := jobs[..|jobs| - 1], jobs[|jobs| - 1];
      JobsWellFormedInit(jobs);
      JobsQuietIff(env, writeOk, st, init);
      JobQuietIff(env, writeOk, ApplyJobs(env, false, writeOk, st, init), last);
      AllRestingSnoc(env.reader, st.files, jobs);
    }
  }

  /**
   * After a run in which no line failed, a second run of the plan (at any later
   * time) applies nothing and writes nothing exactly when no task it reached was
   * given one tag both to add and to remove, or two different parents, and none
   * that has tag ops is left with a dep listed twice.
   */
  lemma {:induction false} RerunIsSilentIff(
    env: Env, later: Env, writeOk: Key -> bool, files: map<Key, Task>, index: seq<Entry>, jobs: seq<Job>)
    requires JobsWellFormed(jobs) && (forall key :: writeOk(key))
    requires NoneFailed(ApplyJobs(env, false, writeOk, Run(files, index, [], []), jobs).lines)
    ensures var first := ApplyJobs(env, false, writeOk, Run(files, index, [], []), jobs);
            var second := ApplyJobs(later, false, writeOk, Run(first.files, first.index, [], []), jobs);
            && first.files.Keys == files.Keys
            && (Quiet(second.lines) <==>
                  forall j :: 0 <= j < |jobs| && jobs[j].key in files ==>
                    HarmoniousJob(jobs[j]) && TidyDeps(later.reader, first.files, jobs[j]))
            && (Quiet(second.lines) ==> second.files == first.files && second.written == [])
  {
    var st := Run(files, index, [], []);
    var first := ApplyJobs(env, false, writeOk, st, jobs);
    JobsQuietIff(later, writeOk, Run(first.files, first.index, [], []), jobs);
    SameKeys(env, writeOk, st, jobs);
    forall j | 0 <= j < |jobs|
      ensures Resting(later.reader, first.files, jobs[j]) <==>
              (jobs[j].key in files ==> HarmoniousJob(jobs[j]) && TidyDeps(later.reader, first.files, jobs[j]))
    {
      if jobs[j].key in files {
        JobsSettle(env, writeOk, st, jobs, j);
        AllIdleIs(later.reader, first.files[jobs[j].key], AllOps(jobs[j].entries));
      }
    }
  }

  /** Where the plan has tag ops for the task, no dep of it is listed twice. */
  ghost predicate TidyDeps(r: TagReader, files: map<Key, Task>, job: Job) {
    job.key in files && HasTagOp(AllOps(job.entries)) ==> !Repeats(r, files[job.key])
  }

  lemma {:induction false} HasTagOpSplits(xs: seq<Op>, ys: seq<Op>)
    ensures HasTagOp(xs + ys) <==> HasTagOp(xs) || HasTagOp(ys)
  {
    var all := xs + ys;
    assert forall i :: 0 <= i < |xs| ==> all[i] == xs[i];
    assert forall j :: 0 <= j < |ys| ==> all[|xs| + j] == ys[j];
  }

  /** Lines that all went through and name no edge by a tag leave a tidy task, if any of them has a tag op. */
  lemma {:induction false} EntriesTidy(env: Env, index: seq<Entry>, task: Task, entries: seq<PlanEntry>)
    requires EntriesLeaveTagEdges(env.reader, entries) && EntriesWellFormed(entries)
    requires !ApplyEntries(env, index, task, entries).thrown
    requires NoneFailed(ApplyEntries(env, index, task, entries).lines)
    requires HasTagOp(AllOps(entries))
    ensures !Repeats(env.reader, ApplyEntries(env, index, task, entries).task)
    decreases |entries|
  {
    if entries != [] {
      var init, last := entries[..|entries| - 1], entries[|entries| - 1];
      var p, q := ApplyEntries(env, index, task, init), ApplyEntries(env, index, task, entries);
      HasTagOpSplits(AllOps(init), last.ops);
      NoneFailedPrefix(p.lines, q.lines);
      if HasTagOp(AllOps(init)) {
        EntriesTidy(env, index, task, init);
      }
      OpsRepeatNothing(env.reader, p.index, env.now, p.task, last.ops);
      OneMoreLine(env, p, last);
      WentOn(env, p, last);
    }
  }

  lemma {:induction false} JobsTidy(env: Env, writeOk: Key -> bool, st: Run, jobs: seq<Job>, j: nat)
    requires JobsWellFormed(jobs) && (forall key :: writeOk(key)) && j < |jobs| && jobs[j].key in st.files
    requires NoneFailed(ApplyJobs(env, false, writeOk, st, jobs).lines)
    requires PlanLeavesTagEdges(env.reader, jobs)
    ensures TidyDeps(env.reader, ApplyJobs(env, false, writeOk, st, jobs).files, jobs[j])
    decreases |jobs|
  {
    var init, last := jobs[..|jobs| - 1], jobs[|jobs| - 1];
    JobsWellFormedInit(jobs);
    var before, end := ApplyJobs(env, false, writeOk, st, init), ApplyJobs(env, false, writeOk, st, jobs);
    if j < |init| {
      NoneFailedPrefix(before.lines, end.lines);
      JobsTidy(env, writeOk, st, init, j);
      JobLeavesOthers(env, false, writeOk, before, last, jobs[j].key);
    } else {
      FilesOutside(env, false, writeOk, st, init, last.key);
      WentThrough(env, writeOk, before, last);
      JobEntriesWellFormed(last);
      if HasTagOp(AllOps(last.entries)) {
        EntriesTidy(env, before.index, before.files[last.key], last.entries);
      }
    }
  }

  /** Of a plan that names no edge by a tag, only contradictions within a task can keep the second run busy. */
  lemma {:induction false} PlainRerunIsSilentIff(
    env: Env, later: Env, writeOk: Key -> bool, files: map<Key, Task>, index: seq<Entry>, jobs: seq<Job>)
    requires JobsWellFormed(jobs) && (forall key :: writeOk(key)) && later.reader == env.reader
    requires NoneFailed(ApplyJobs(env, false, writeOk, Run(files, index, [], []), jobs).lines)
    requires PlanLeavesTagEdges(env.reader, jobs)
    ensures var first := ApplyJobs(env, false, writeOk, Run(files, index, [], []), jobs);
            var second := ApplyJobs(later, false, writeOk, Run(first.files, first.index, [], []), jobs);
            Quiet(second.lines) <==> forall j :: 0 <= j < |jobs| && jobs[j].key in files ==> HarmoniousJob(jobs[j])
  {
    RerunIsSilentIff(env, later, writeOk, files, index, jobs);
    forall j | 0 <= j < |jobs| && jobs[j].key in files
      ensures TidyDeps(env.reader, ApplyJobs(env, false, writeOk, Run(files, index, [], []), jobs).files, jobs[j])
    {
      JobsTidy(env, writeOk, Run(files, index, [], []), jobs, j);
    }
  }

  lemma {:induction false} SameKeys(env: Env, writeOk: Key -> bool, st: Run, jobs: seq<Job>)
    ensures ApplyJobs(env, false, writeOk, st, jobs).files.Keys == st.files.Keys
    decreases |jobs|
  {
    if jobs != [] {
      SameKeys(env, writeOk, st, jobs[..|jobs| - 1]);
    }
  }

  /** A line that adds a tag and removes it again. */
  function Wavering(): PlanEntry {
    PlanEntry(0, "s", "t", [AddTag("x"), RemoveTag("x")], None)
  }

  lemma {:induction false} WaveringStep(env: Env, index: seq<Entry>, t: Task)
    requires t.tags.GetOr([]) == [] && t.dep.None?
    ensures ApplyOps(env.reader, index, env.now, t, Wavering().ops) ==
            Applied(t.(tags := Some([])), Wavering().ops)
  {
    var ops := Wavering().ops;
    var mid := t.(tags := Some(["x"]));
    assert ops[..1] == [AddTag("x")];
    assert [] + ["x"] == ["x"];
    assert !Repeats(env.reader, t);
    OneOp(env.reader, index, env.now, t, AddTag("x"));
    assert ["x"][1..] == [];
    TagDepsSnoc(env.reader, [], "x");
    assert !Repeats(env.reader, mid);
    assert Without(["x"], "x") == [];
  }

  lemma {:induction false} WaveringLine(env: Env, index: seq<Entry>, t: Task)
    requires t.tags.GetOr([]) == [] && t.dep.None?
    requires env.valid(t.(tags := Some([]), updated := env.date))
    ensures var one := ApplyOne(env, index, t, Wavering());
            && one.task == t.(tags := Some([]), updated := env.date)
            && one.line == Some(Result(Wavering(), LineApplied, Wavering().ops))
  {
    WaveringStep(env, index, t);
  }

  /** It is applied on every run, so a plan of that line alone never comes to rest though nothing fails. */
  lemma {:induction false} WaveringNeverRests(env: Env, index: seq<Entry>, t: Task)
    requires t.tags.GetOr([]) == [] && t.dep.None?
    requires env.valid(t.(tags := Some([]), updated := env.date))
    ensures !Harmonious(Wavering().ops)
    ensures var first := ApplyOne(env, index, t, Wavering());
            && first.line == Some(Result(Wavering(), LineApplied, Wavering().ops))
            && ApplyOne(env, first.index, first.task, Wavering()).line == first.line
  {
    WaveringLine(env, index, t);
    var first := ApplyOne(env, index, t, Wavering());
    assert first.task.(tags := Some([]), updated := env.date) == first.task;
    WaveringLine(env, first.index, first.task);
    assert Conflict(Wavering().ops[0], Wavering().ops[1]);
  }
}
