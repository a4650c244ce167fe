/** Tasks that list a dep twice. */
module TaskRepeats {
  // patchChange in src/commands/task-edit.ts drops such a repetition whatever it was asked for, and a
  // run of `task apply` without edge ops has no index to judge that by (src/commands/_task-apply-run.ts).

  import opened Prelude
  import opened TaskEdges
  import opened TaskOps
  import opened TaskApply
  import opened TaskApplyRuns

  // --- The ops of one line --------------------------------------------------------

  /** The op goes through patchChange: a tag op always, a note unless the line is there. */
  predicate Patching(t: Task, op: Op) {
    TagOp(op) || (op.AppendNote? && !HasLine(t.notes, op.line))
  }

  predicate Patches(t: Task, ops: seq<Op>) {
    exists i :: 0 <= i < |ops| && Patching(t, ops[i])
  }

  /** At one of the ops the task, as it is by then, lists a dep twice and goes through patchChange. */
  predicate Untangles(r: TagReader, index: seq<Entry>, now: string, t: Task, ops: seq<Op>)
    decreases |ops|
  {
    ops != [] &&
    var mid := ApplyOps(r, index, now, t, ops[..|ops| - 1]).task;
    Untangles(r, index, now, t, ops[..|ops| - 1]) || (Repeats(r, mid) && Patching(mid, ops[|ops| - 1]))
  }

  /** The deps were rewritten: they are a field now, without repetition, and not what they were. */
  predicate Untangled(before: Task, after: Task) {
    && after.dep.Some? && Dedupe(after.dep.value) == after.dep.value
    && after.dep.value != before.dep.GetOr([])
  }

  lemma {:induction false} PatchUntangles(r: TagReader, t: Task)
    requires Repeats(r, t)
    ensures Untangled(t, Patched(r, t))
  {
    DedupeSettles(NodeOf(r, t).dep);
    if t.dep.None? {
      assert NodeOf(r, t).dep[0] in Dedupe(NodeOf(r, t).dep);
    }
  }

  /** An op that names no edge leaves parent and deps, but where it patches a task with repetitions. */
  lemma {:induction false} OpOnDeps(r: TagReader, index: seq<Entry>, now: string, t: Task, op: Op)
    requires !EdgeOp(op)
    ensures var step := ApplyOp(r, index, now, t, op);
            && step.task.parent == t.parent
            && step.task.dep == (if Patching(t, op) then Patched(r, t).dep else t.dep)
            && (Repeats(r, t) && Patching(t, op) ==> step.changed)
  {
  }

  lemma {:induction false} OpsOnDeps(r: TagReader, index: seq<Entry>, now: string, t: Task, ops: seq<Op>)
    requires NoEdgeOps(ops)
    ensures var applied := ApplyOps(r, index, now, t, ops);
            && applied.task.parent == t.parent
            && (if Untangles(r, index, now, t, ops) then applied.changes != [] && Untangled(t, applied.task)
                else applied.task.dep == t.dep)
    decreases |ops|
  {
    if ops != [] {
      var init, last := ops[..|ops| - 1], ops[|ops| - 1];
      assert forall i :: 0 <= i < |init| ==> init[i] == ops[i];
      OpsOnDeps(r, index, now, t, init);
      var mid := ApplyOps(r, index, now, t, init).task;
      OpOnDeps(r, index, now, mid, last);
      if Repeats(r, mid) {
        PatchUntangles(r, mid);
      }
    }
  }

  /** Without the index, a line that names no edge fails its task exactly when one of its ops untangles the deps. */
  lemma {:induction false} LineThrowsIff(env: Env, p: Progress, e: PlanEntry)
    requires !env.loaded && !p.thrown && NoEdgeOps(e.ops)
    ensures ApplyEntry(env, p, e).thrown <==> Untangles(env.reader, p.index, env.now, p.task, e.ops)
  {
    OpsOnDeps(env.reader, p.index, env.now, p.task, e.ops);
  }

  // --- All lines of a task, judged by its file --------------------------------------

  /** What decides whether an op patches, and the deps, are the same. */
  predicate SameText(t: Task, u: Task) {
    u.dep == t.dep && u.parent == t.parent && u.tags == t.tags && u.notes == t.notes
  }

  lemma {:induction false} OpLeavesText(r: TagReader, index: seq<Entry>, now: string, t: Task, op: Op)
    requires !EdgeOp(op) && !Patching(t, op)
    ensures SameText(t, ApplyOp(r, index, now, t, op).task)
  {
  }

  /** A task with repetitions is untangled by the first of the ops that patches it as it was. */
  lemma {:induction false} RepeatedUntangles(r: TagReader, index: seq<Entry>, now: string, t: Task, ops: seq<Op>)
    requires NoEdgeOps(ops) && Repeats(r, t)
    ensures Untangles(r, index, now, t, ops) <==> Patches(t, ops)
    ensures !Patches(t, ops) ==> SameText(t, ApplyOps(r, index, now, t, ops).task)
    decreases |ops|
  {
    if ops != [] {
      var init, last := ops[..|ops| - 1], ops[|ops| - 1];
      assert forall i :: 0 <= i < |init| ==> init[i] == ops[i];
      RepeatedUntangles(r, index, now, t, init);
      PatchesSnoc(t, ops);
      var mid := ApplyOps(r, index, now, t, init).task;
      if !Patches(t, ops) {
        OpLeavesText(r, index, now, mid, last);
      }
    }
  }

  lemma {:induction false} PatchesSnoc(t: Task, ops: seq<Op>)
    requires ops != []
    ensures Patches(t, ops) <==> Patches(t, ops[..|ops| - 1]) || Patching(t, ops[|ops| - 1])
  {
    var init := ops[..|ops| - 1];
    assert forall i :: 0 <= i < |init| ==> init[i] == ops[i];
  }

  /** Ops that name no edge, not by a tag either, leave nothing to untangle where there was nothing. */
  lemma {:induction false} TidyStaysTidy(r: TagReader, index: seq<Entry>, now: string, t: Task, ops: seq<Op>)
    requires LeavesTagEdges(r, ops) && !Repeats(r, t)
    ensures !Untangles(r, index, now, t, ops) && !Repeats(r, ApplyOps(r, index, now, t, ops).task)
    decreases |ops|
  {
    OpsRepeatNothing(r, index, now, t, ops);
    if ops != [] {
      assert forall i :: 0 <= i < |ops| - 1 ==> ops[..|ops| - 1][i] == ops[i];
      TidyStaysTidy(r, index, now, t, ops[..|ops| - 1]);
    }
  }

  /** The running task repeats a dep exactly when the file does, and then still has its text. */
  predicate LikeFile(r: TagReader, file: Task, running: Task) {
    if Repeats(r, file) then SameText(file, running) else !Repeats(r, running)
  }

  lemma {:induction false} LikeFileStep(env: Env, file: Task, p: Progress, e: PlanEntry)
    requires !env.loaded && !p.thrown && NoEdgeOps(e.ops) && LikeFile(env.reader, file, p.task)
    requires Repeats(env.reader, file) || LeavesTagEdges(env.reader, e.ops)
    ensures ApplyEntry(env, p, e).thrown <==> Repeats(env.reader, file) && Patches(file, e.ops)
    ensures !ApplyEntry(env, p, e).thrown ==> LikeFile(env.reader, file, ApplyEntry(env, p, e).task)
  {
    LineThrowsIff(env, p, e);
    EntryCases(env, p, e);
    if Repeats(env.reader, file) {
      RepeatedUntangles(env.reader, p.index, env.now, p.task, e.ops);
      SameTextPatches(file, p.task, e.ops);
    } else {
      TidyStaysTidy(env.reader, p.index, env.now, p.task, e.ops);
    }
  }

  lemma {:induction false} SameTextPatches(t: Task, u: Task, ops: seq<Op>)
    requires SameText(t, u)
    ensures Patches(t, ops) <==> Patches(u, ops)
  {
    assert forall op :: Patching(t, op) <==> Patching(u, op);
  }

  /** Some line has an op that patches the task as it is on disk. */
  predicate SomePatches(t: Task, entries: seq<PlanEntry>) {
    exists i :: 0 <= i < |entries| && Patches(t, entries[i].ops)
  }

  lemma {:induction false} SomePatchesSnoc(t: Task, entries: seq<PlanEntry>)
    requires entries != []
    ensures SomePatches(t, entries) <==>
            SomePatches(t, entries[..|entries| - 1]) || Patches(t, entries[|entries| - 1].ops)
  {
    var init := entries[..|entries| - 1];
    assert forall i :: 0 <= i < |init| ==> init[i] == entries[i];
  }

  /**
   * Without the index, lines that name no edge fail their task exactly when its file
   * lists a dep twice and some op of some line patches it. A tag may name an edge only
   * where the file repeats one.
   */
  lemma {:induction false} EntriesThrowIff(env: Env, index: seq<Entry>, task: Task, entries: seq<PlanEntry>)
    requires !env.loaded && AllOf(HasNoEdgeOps(), entries)
    requires Repeats(env.reader, task) || EntriesLeaveTagEdges(env.reader, entries)
    ensures var p := ApplyEntries(env, index, task, entries);
            && (p.thrown <==> Repeats(env.reader, task) && SomePatches(task, entries))
            && (!p.thrown ==> LikeFile(env.reader, task, p.task))
    decreases |entries|
  {
    if entries != [] {
      var init, last := entries[..|entries| - 1], entries[|entries| - 1];
      assert forall i :: 0 <= i < |init| ==> init[i] == entries[i];
      EntriesThrowIff(env, index, task, init);
      SomePatchesSnoc(task, entries);
      assert HasNoEdgeOps()(last);
      var p := ApplyEntries(env, index, task, init);
      if !p.thrown {
        LikeFileStep(env, task, p, last);
      }
    }
  }

  // --- The report --------------------------------------------------------------------

  /** Some line is reported as failed for want of the index. */
  predicate LacksIndex(lines: seq<LineResult>) {
    exists i :: 0 <= i < |lines| && lines[i].failure == Some(NoIndex)
  }

  lemma {:induction false} LinesHaveOtherFailures(env: Env, index: seq<Entry>, task: Task, entries: seq<PlanEntry>)
    ensures !LacksIndex(ApplyEntries(env, index, task, entries).lines)
    decreases |entries|
  {
    if entries != [] {
      LinesHaveOtherFailures(env, index, task, entries[..|entries| - 1]);
    }
  }

  lemma {:induction false} MissingsHaveNoFailure(entries: seq<PlanEntry>)
    ensures !LacksIndex(Missings(entries))
  {
    if entries != [] {
      MissingsHaveNoFailure(entries[..|entries| - 1]);
    }
  }

  /**
   * In a run that loaded no index, a job that names no edge fails for want of one,
   * on every line and with nothing written, exactly when the file lists a dep twice and
   * some op of the job patches it; no line fails so otherwise.
   */
  lemma {:induction false} JobThrowsIff(env: Env, dryRun: bool, writeOk: Key -> bool, st: Run, job: Job)
    requires !env.loaded && AllOf(HasNoEdgeOps(), job.entries) && job.key in st.files
    requires Repeats(env.reader, st.files[job.key]) || EntriesLeaveTagEdges(env.reader, job.entries)
    ensures var t := st.files[job.key];
            var alone := RunJob(env, dryRun, writeOk, st.files, st.index, st.written, job);
            var end := ApplyJob(env, dryRun, writeOk, st, job);
            && end.lines == st.lines + alone.lines
            && (LacksIndex(alone.lines) <==> Repeats(env.reader, t) && SomePatches(t, job.entries))
            && (LacksIndex(alone.lines) ==>
                  end.files == st.files && end.written == st.written && alone.lines == Failures(job.entries, NoIndex))
  {
    EntriesThrowIff(env, st.index, st.files[job.key], job.entries);
    JobLacksIff(env, dryRun, writeOk, st, job);
  }

  lemma {:induction false} JobLacksIff(env: Env, dryRun: bool, writeOk: Key -> bool, st: Run, job: Job)
    requires job.key in st.files
    ensures var alone := RunJob(env, dryRun, writeOk, st.files, st.index, st.written, job);
            && (LacksIndex(alone.lines) <==> ApplyEntries(env, st.index, st.files[job.key], job.entries).thrown)
            && (LacksIndex(alone.lines) ==>
                  && alone.files == st.files && alone.written == st.written
                  && alone.lines == Failures(job.entries, NoIndex))
  {
    var p := ApplyEntries(env, st.index, st.files[job.key], job.entries);
    LinesHaveOtherFailures(env, st.index, st.files[job.key], job.entries);
    FailuresLack(job.entries, WriteFailed);
    FailuresLack(job.entries, NoIndex);
  }

  /** Failures for one reason lack the index exactly when that is the reason. */
  lemma {:induction false} FailuresLack(entries: seq<PlanEntry>, why: Failure)
    ensures LacksIndex(Failures(entries, why)) <==> why == NoIndex && entries != []
  {
    FailuresAre(entries, why);
    if entries != [] {
      assert Failures(entries, why)[0].failure == Some(why);
    }
  }

  /** The job's task lists a dep twice, and some op of the job patches it. */
  predicate Stuck(r: TagReader, files: map<Key, Task>, job: Job) {
    job.key in files && Repeats(r, files[job.key]) && SomePatches(files[job.key], job.entries)
  }

  /** What JobThrowsIff asks of a job. */
  ghost predicate NamesNoEdge(r: TagReader, files: map<Key, Task>, job: Job) {
    && AllOf(HasNoEdgeOps(), job.entries)
    && (job.key in files ==> Repeats(r, files[job.key]) || EntriesLeaveTagEdges(r, job.entries))
  }

  lemma {:induction false} JobLacksIndex(env: Env, dryRun: bool, writeOk: Key -> bool, st: Run, job: Job)
    requires !env.loaded && NamesNoEdge(env.reader, st.files, job)
    ensures LacksIndex(ApplyJob(env, dryRun, writeOk, st, job).lines) <==>
            LacksIndex(st.lines) || Stuck(env.reader, st.files, job)
  {
    var alone := RunJob(env, dryRun, writeOk, st.files, st.index, st.written, job);
    LacksIndexSplits(st.lines, alone.lines);
    if job.key in st.files {
      JobThrowsIff(env, dryRun, writeOk, st, job);
    } else {
      MissingsHaveNoFailure(job.entries);
    }
  }

  lemma {:induction false} LacksIndexSplits(xs: seq<LineResult>, ys: seq<LineResult>)
    ensures LacksIndex(xs + ys) <==> LacksIndex(xs) || LacksIndex(ys)
  {
    var all := xs + ys;
    assert forall i :: 0 <= i < |xs| ==> all[i] == xs[i];
    assert forall i :: 0 <= i < |ys| ==> all[|xs| + i] == ys[i];
  }

  /** Over a plan that names no edge, some line fails so exactly when some job is stuck by the files at the start. */
  lemma {:induction false} PlanThrowsIff(
    env: Env, dryRun: bool, writeOk: Key -> bool, files: map<Key, Task>, index: seq<Entry>, jobs: seq<Job>)
    requires !env.loaded && KeysDistinct(jobs)
    requires forall j :: 0 <= j < |jobs| ==> NamesNoEdge(env.reader, files, jobs[j])
    ensures LacksIndex(ApplyJobs(env, dryRun, writeOk, Run(files, index, [], []), jobs).lines) <==>
            exists j :: 0 <= j < |jobs| && Stuck(env.reader, files, jobs[j])
    decreases |jobs|
  {
    if jobs != [] {
      var init, last := jobs[..|jobs| - 1], jobs[|jobs| - 1];
      assert forall j :: 0 <= j < |init| ==> init[j] == jobs[j];
      PlanThrowsIff(env, dryRun, writeOk, files, index, init);
      FilesOutside(env, dryRun, writeOk, Run(files, index, [], []), init, last.key);
      JobLacksIndex(env, dryRun, writeOk, ApplyJobs(env, dryRun, writeOk, Run(files, index, [], []), init), last);
      assert jobs[|init|] == last;
    }
  }

  // --- An input ---------------------------------------------------------------------

  const REPEATING: Task :=
    Task("t", "open", None, None, Some(["b", "b"]), Some(["x"]), None, "2026-01-01", "")

  /** One line adds a tag that is there already, the other marks the task done. */
  const HARMLESS: seq<PlanEntry> :=
    [PlanEntry(0, "s", "t", [AddTag("x")], None), PlanEntry(1, "s", "t", [Done], None)]

  lemma {:induction false} HarmlessIsStuck(r: TagReader)
    ensures Repeats(r, REPEATING) && SomePatches(REPEATING, HARMLESS)
  {
    assert ["b", "b"][..1] == ["b"] && ["b"][..0] == [] && [] + ["b"] == ["b"];
    assert Dedupe(["b"]) == ["b"];
    assert Patching(REPEATING, HARMLESS[0].ops[0]) && Patches(REPEATING, HARMLESS[0].ops);
  }

  /** Neither line asks for a change of deps, and both fail; nothing is written. */
  lemma {:induction false} HarmlessLinesFail(env: Env, writeOk: Key -> bool)
    requires !env.loaded
    ensures var key := Key("s", "t");
            var st := Run(map[key := REPEATING], [Entry("s", REPEATING)], [], []);
            var end := ApplyJob(env, false, writeOk, st, Job(key, HARMLESS));
            && end.files == st.files && end.written == []
            && end.lines == [Failing(HARMLESS[0], NoIndex), Failing(HARMLESS[1], NoIndex)]
  {
    var key := Key("s", "t");
    var st := Run(map[key := REPEATING], [Entry("s", REPEATING)], [], []);
    var job := Job(key, HARMLESS);
    HarmlessIsStuck(env.reader);
    JobThrowsIff(env, false, writeOk, st, job);
    HarmlessFailures();
    assert [] + Failures(HARMLESS, NoIndex) == Failures(HARMLESS, NoIndex);
  }

  lemma {:induction false} HarmlessFailures()
    ensures Failures(HARMLESS, NoIndex) == [Failing(HARMLESS[0], NoIndex), Failing(HARMLESS[1], NoIndex)]
  {
    FailuresAre(HARMLESS, NoIndex);
  }
}
