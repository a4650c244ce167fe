/** One run of `task apply`. */
module TaskApply {
  // src/commands/_task-apply-run.ts: every line of the plan against the task files, with the in-
  // memory edge index kept in step, refusals, failed writes rolled back in the index, and dry runs.

  import opened Prelude
  import opened TaskEdges
  import opened TaskOps

  datatype PlanEntry = PlanEntry(index: nat, slug: string, id: string, ops: seq<Op>, error: Option<string>)

  datatype Outcome = LineApplied | LineUnchanged | LineMissing | LineFailed

  datatype Failure = BadLine(message: string) | Refused(errors: seq<EdgeError>) | Invalid | WriteFailed | NoIndex

  datatype LineResult = LineResult(
    index: nat, slug: string, id: string, outcome: Outcome, changes: seq<Op>, failure: Option<Failure>)

  /** Fixed for one run; `valid` is TaskSchema, and `loaded` whether the plan made the run load the edge index. */
  datatype Env = Env(
    reader: TagReader, cycles: CycleLister, valid: Task -> bool, now: string, date: string, loaded: bool)

  function Result(e: PlanEntry, outcome: Outcome, changes: seq<Op>): LineResult {
    LineResult(e.index, e.slug, e.id, outcome, changes, None)
  }

  function Failing(e: PlanEntry, why: Failure): LineResult {
    LineResult(e.index, e.slug, e.id, LineFailed, [], Some(why))
  }

  // --- One line ----------------------------------------------------------------

  /** edgeErrors: the check runs only on the edges the line changed. */
  function LineWrite(slug: string, before: Task, after: Task): EdgeWrite {
    EdgeWrite(slug, after.id,
      if after.parent == before.parent then None else after.parent,
      if after.dep.GetOr([]) == before.dep.GetOr([]) then None else after.dep)
  }

  /** The line changed an edge field, so that it can be judged only with the index. */
  predicate NeedsIndex(slug: string, before: Task, after: Task) {
    var w := LineWrite(slug, before, after);
    w.parent.Some? || w.dep.Some?
  }

  function EdgeErrors(env: Env, index: seq<Entry>, slug: string, before: Task, after: Task): seq<EdgeError> {
    if NeedsIndex(slug, before, after)
    then EdgeWriteErrors(env.reader, env.cycles, index, LineWrite(slug, before, after))
    else []
  }

  /** recordTask: the first entry filed under this initiative and id. */
  function Record(index: seq<Entry>, slug: string, task: Task): (r: seq<Entry>)
    ensures |r| == |index|
  {
    if index == [] then []
    else if index[0].slug == slug && index[0].task.id == task.id then [Entry(slug, task)] + index[1..]
    else [index[0]] + Record(index[1..], slug, task)
  }

  /**
   * The running task, the index, and the results so far; `thrown` once a line
   * needed the index and it was not loaded, which ends the task. An index that was
   * not loaded stands for the edges on disk; nothing asks it then.
   */
  datatype Progress = Progress(task: Task, index: seq<Entry>, lines: seq<LineResult>, thrown: bool := false)

  /** What one line leaves; it has no result where it needed the index in vain. */
  datatype LineDone = LineDone(task: Task, index: seq<Entry>, line: Option<LineResult>)

  function ApplyOne(env: Env, index: seq<Entry>, task: Task, e: PlanEntry): LineDone {
    var applied := ApplyOps(env.reader, index, env.now, task, e.ops);
    if applied.changes == [] then LineDone(task, index, Some(Result(e, LineUnchanged, [])))
    else if !env.loaded && NeedsIndex(e.slug, task, applied.task) then LineDone(task, index, None)
    else
      var refused := EdgeErrors(env, index, e.slug, task, applied.task);
      var stamped := applied.task.(updated := env.date);
      if refused != [] then LineDone(task, index, Some(Failing(e, Refused(refused))))
      else if !env.valid(stamped) then LineDone(task, index, Some(Failing(e, Invalid)))
      else LineDone(stamped, Record(index, e.slug, stamped), Some(Result(e, LineApplied, applied.changes)))
  }

  function ApplyEntry(env: Env, p: Progress, e: PlanEntry): Progress {
    if p.thrown then p
    else
      var one := ApplyOne(env, p.index, p.task, e);
      Progress(one.task, one.index, if one.line.Some? then p.lines + [one.line.value] else p.lines, one.line.None?)
  }

  function ApplyEntries(env: Env, index: seq<Entry>, task: Task, entries: seq<PlanEntry>): Progress
    decreases |entries|
  {
    if entries == [] then Progress(task, index, [])
    else ApplyEntry(env, ApplyEntries(env, index, task, entries[..|entries| - 1]), entries[|entries| - 1])
  }

  // --- One task, and the whole run ------------------------------------------------

  datatype Key = Key(slug: string, id: string)

  /** All the plan's lines for one task, in plan order. */
  datatype Job = Job(key: Key, entries: seq<PlanEntry>)

  datatype Run = Run(files: map<Key, Task>, index: seq<Entry>, written: seq<Key>, lines: seq<LineResult>)

  predicate Dirty(lines: seq<LineResult>) {
    exists i :: 0 <= i < |lines| && lines[i].outcome == LineApplied
  }

  function Missings(entries: seq<PlanEntry>): seq<LineResult> {
    if entries == [] then [] else Missings(entries[..|entries| - 1]) + [Result(entries[|entries| - 1], LineMissing, [])]
  }

  /** Every line of a task fails for the one reason. */
  function Failures(entries: seq<PlanEntry>, why: Failure): seq<LineResult> {
    if entries == [] then []
    else Failures(entries[..|entries| - 1], why) + [Failing(entries[|entries| - 1], why)]
  }

  /** One task on its own, its lines the only ones reported; `writeOk` says which task files can be written. */
  function RunJob(
    env: Env, dryRun: bool, writeOk: Key -> bool, files: map<Key, Task>, index: seq<Entry>, written: seq<Key>, job: Job)
    : Run
  {
    if job.key !in files then Run(files, index, written, Missings(job.entries))
    else
      var p := ApplyEntries(env, index, files[job.key], job.entries);
      var put := Record(p.index, job.key.slug, files[job.key]);
      if p.thrown then Run(files, put, written, Failures(job.entries, NoIndex))
      else if dryRun || !Dirty(p.lines) then Run(files, p.index, written, p.lines)
      else if writeOk(job.key) then Run(files[job.key := p.task], p.index, written + [job.key], p.lines)
      else Run(files, put, written, Failures(job.entries, WriteFailed))
  }

  function ApplyJob(env: Env, dryRun: bool, writeOk: Key -> bool, st: Run, job: Job): Run {
    var alone := RunJob(env, dryRun, writeOk, st.files, st.index, st.written, job);
    alone.(lines := st.lines + alone.lines)
  }

  function ApplyJobs(env: Env, dryRun: bool, writeOk: Key -> bool, st: Run, jobs: seq<Job>): Run
    decreases |jobs|
  {
    if jobs == [] then st
    else ApplyJob(env, dryRun, writeOk, ApplyJobs(env, dryRun, writeOk, st, jobs[..|jobs| - 1]), jobs[|jobs| - 1])
  }

  lemma {:induction false} ApplyJobsSnoc(
    env: Env, dryRun: bool, writeOk: Key -> bool, st: Run, jobs: seq<Job>, i: nat)
    requires i < |jobs|
    ensures ApplyJobs(env, dryRun, writeOk, st, jobs[..i + 1]) ==
            ApplyJob(env, dryRun, writeOk, ApplyJobs(env, dryRun, writeOk, st, jobs[..i]), jobs[i])
  {
    assert jobs[..i + 1][..i] == jobs[..i];
  }

  ghost predicate KeysDistinct(jobs: seq<Job>) {
    forall i, j :: 0 <= i < j < |jobs| ==> jobs[i].key != jobs[j].key
  }

  ghost predicate JobWellFormed(job: Job) {
    forall i :: 0 <= i < |job.entries| ==>
      && job.entries[i].slug == job.key.slug && job.entries[i].id == job.key.id
      && forall k :: 0 <= k < |job.entries[i].ops| ==> WellFormed(job.entries[i].ops[k])
  }

  ghost predicate JobsWellFormed(jobs: seq<Job>) {
    KeysDistinct(jobs) && forall j :: 0 <= j < |jobs| ==> JobWellFormed(jobs[j])
  }

  // --- The index keeps up with the files ---------------------------------------------

  ghost predicate UniqueEntries(index: seq<Entry>) {
    forall i, j :: 0 <= i < j < |index| ==> index[i].slug != index[j].slug || index[i].task.id != index[j].task.id
  }

  /** The index lists every task file once, with the content it has on disk. */
  ghost predicate Agrees(files: map<Key, Task>, index: seq<Entry>) {
    && UniqueEntries(index)
    && (forall i :: 0 <= i < |index| ==>
          var key := Key(index[i].slug, index[i].task.id);
          key in files && files[key] == index[i].task)
    && (forall key :: key in files ==>
          files[key].id == key.id && exists i :: 0 <= i < |index| && index[i] == Entry(key.slug, files[key]))
  }

  lemma {:induction false} RecordAt(index: seq<Entry>, k: nat, task: Task)
    requires UniqueEntries(index) && k < |index| && index[k].task.id == task.id
    ensures Record(index, index[k].slug, task) == index[k := Entry(index[k].slug, task)]
  {
    if k > 0 {
      assert UniqueEntries(index[1..]) by {
        assert forall i :: 0 <= i < |index[1..]| ==> index[1..][i] == index[i + 1];
      }
      RecordAt(index[1..], k - 1, task);
    }
  }

  lemma {:induction false} UpdateUnique(index: seq<Entry>, k: nat, task: Task)
    requires UniqueEntries(index) && k < |index| && index[k].task.id == task.id
    ensures UniqueEntries(index[k := Entry(index[k].slug, task)])
  {
  }

  lemma {:induction false} UpdateAgrees(files: map<Key, Task>, index: seq<Entry>, k: nat, task: Task)
    requires Agrees(files, index) && k < |index| && index[k].task.id == task.id
    ensures Agrees(files[Key(index[k].slug, task.id) := task], index[k := Entry(index[k].slug, task)])
  {
    var key := Key(index[k].slug, task.id);
    var files', index' := files[key := task], index[k := Entry(index[k].slug, task)];
    UpdateUnique(index, k, task);
    forall other | other in files'
      ensures exists i :: 0 <= i < |index'| && index'[i] == Entry(other.slug, files'[other])
    {
      if other == key {
        assert index'[k] == Entry(other.slug, files'[other]);
      } else {
        var i :| 0 <= i < |index| && index[i] == Entry(other.slug, files[other]);
        assert i != k;
        assert index'[i] == index[i];
      }
    }
  }

  // --- Acyclicity, line by line --------------------------------------------------------

  /** No later entry has this entry's id, so this is the copy the check's graph shows. */
  ghost predicate Shown(index: seq<Entry>, k: int) {
    0 <= k < |index| && forall j :: k < j < |index| ==> index[j].task.id != index[k].task.id
  }

  lemma {:induction false} KeyedSnoc(r: TagReader, init: seq<Entry>, last: Entry)
    ensures Keyed(r, init + [last]) == Keyed(r, init)[last.task.id := NodeOf(r, last.task)]
  {
    assert (init + [last])[..|init|] == init;
  }

  lemma {:induction false} ShownSnoc(init: seq<Entry>, last: Entry, k: nat)
    requires k < |init|
    ensures Shown(init + [last], k) <==> Shown(init, k) && last.task.id != init[k].task.id
  {
    var all := init + [last];
    if Shown(init, k) && last.task.id != init[k].task.id {
      assert forall j :: k < j < |all| ==> all[j] == if j < |init| then init[j] else last;
    }
    if Shown(all, k) {
      assert forall j :: 0 <= j < |init| ==> init[j] == all[j];
      assert all[|init|] == last;
    }
  }

  lemma {:induction false} TwoUpdates(m: Graph, a: string, x: Node, b: string, y: Node)
    ensures a == b ==> m[a := x][b := y] == m[b := y]
    ensures a != b ==> m[a := x][b := y] == m[b := y][a := x]
  {
  }

  lemma {:induction false} KeyedUpdate(r: TagReader, index: seq<Entry>, k: nat, task: Task)
    requires k < |index| && index[k].task.id == task.id
    ensures Keyed(r, index[k := Entry(index[k].slug, task)]) ==
            if Shown(index, k) then Keyed(r, index)[task.id := NodeOf(r, task)] else Keyed(r, index)
    decreases |index|
  {
    var n := |index| - 1;
    var init, last, e := index[..n], index[n], Entry(index[k].slug, task);
    SnocUpdate(init, last, k, e);
    assert index == init + [last];
    if k == n {
      UpdateLast(r, init, last, e);
    } else {
      KeyedUpdate(r, init, k, task);
      UpdateEarlier(r, init, last, k, task);
    }
  }

  lemma {:induction false} SnocUpdate<T>(init: seq<T>, last: T, k: nat, x: T)
    requires k <= |init|
    ensures (init + [last])[k := x] == if k == |init| then init + [x] else init[k := x] + [last]
  {
  }

  lemma {:induction false} UpdateLast(r: TagReader, init: seq<Entry>, last: Entry, e: Entry)
    requires e.task.id == last.task.id
    ensures Keyed(r, init + [e]) == Keyed(r, init + [last])[e.task.id := NodeOf(r, e.task)]
    ensures Shown(init + [last], |init|)
  {
    KeyedSnoc(r, init, last);
    KeyedSnoc(r, init, e);
  }

  lemma {:induction false} UpdateEarlier(r: TagReader, init: seq<Entry>, last: Entry, k: nat, task: Task)
    requires k < |init| && init[k].task.id == task.id
    requires Keyed(r, init[k := Entry(init[k].slug, task)]) ==
             if Shown(init, k) then Keyed(r, init)[task.id := NodeOf(r, task)] else Keyed(r, init)
    ensures Keyed(r, init[k := Entry(init[k].slug, task)] + [last]) ==
            if Shown(init + [last], k) then Keyed(r, init + [last])[task.id := NodeOf(r, task)]
            else Keyed(r, init + [last])
  {
    var updated := init[k := Entry(init[k].slug, task)];
    KeyedSnoc(r, init, last);
    KeyedSnoc(r, updated, last);
    ShownSnoc(init, last, k);
    TwoUpdates(Keyed(r, init), task.id, NodeOf(r, task), last.task.id, NodeOf(r, last.task));
  }

  lemma {:induction false} FilteredSnoc(init: seq<Entry>, last: Entry, slug: string, id: string)
    ensures var kept, all := GraphEntries(init, slug, id), GraphEntries(init + [last], slug, id);
            if last.task.id != id || last.slug == slug
            then |all| == |kept| + 1 && all[..|kept|] == kept && all[|kept|] == last
            else all == kept
  {
    assert (init + [last])[..|init|] == init;
  }

  lemma {:induction false} KeyedStep(r: TagReader, init: seq<Entry>, last: Entry, slug: string, id: string)
    ensures var g := Keyed(r, GraphEntries(init, slug, id));
            Keyed(r, GraphEntries(init + [last], slug, id)) ==
            if last.task.id != id || last.slug == slug then g[last.task.id := NodeOf(r, last.task)] else g
  {
    var kept := GraphEntries(init, slug, id);
    FilteredSnoc(init, last, slug, id);
    if last.task.id != id || last.slug == slug {
      assert GraphEntries(init + [last], slug, id) == kept + [last];
      KeyedSnoc(r, kept, last);
    }
  }

  ghost predicate SameAt(g: Graph, g': Graph, x: string) {
    (x in g <==> x in g') && (x in g ==> g[x] == g'[x])
  }

  /** Leaving copies of one id out does not touch the other ids. */
  lemma {:induction false} KeyedOthers(r: TagReader, index: seq<Entry>, slug: string, id: string, x: string)
    requires x != id
    ensures SameAt(Keyed(r, index), Keyed(r, GraphEntries(index, slug, id)), x)
    decreases |index|
  {
    if index != [] {
      var init, last := index[..|index| - 1], index[|index| - 1];
      assert init + [last] == index;
      KeyedOthers(r, init, slug, id, x);
      KeyedStep(r, init, last, slug, id);
      KeyedSnoc(r, init, last);
    }
  }

  lemma {:induction false} KeyedShown(r: TagReader, index: seq<Entry>, k: nat)
    requires Shown(index, k)
    ensures index[k].task.id in Keyed(r, index)
    ensures Keyed(r, index)[index[k].task.id] == NodeOf(r, index[k].task)
    decreases |index|
  {
    if k < |index| - 1 {
      assert Shown(index[..|index| - 1], k);
      KeyedShown(r, index[..|index| - 1], k);
    }
  }

  /** The shown copy is still the one shown once the other copies are left out. */
  lemma {:induction false} FilteredShows(index: seq<Entry>, k: nat) returns (k': nat)
    requires Shown(index, k)
    ensures var kept := GraphEntries(index, index[k].slug, index[k].task.id);
            Shown(kept, k') && kept[k'] == index[k]
    decreases |index|
  {
    var init, last := index[..|index| - 1], index[|index| - 1];
    assert init + [last] == index;
    FilteredSnoc(init, last, index[k].slug, index[k].task.id);
    if k == |index| - 1 {
      k' := |GraphEntries(init, index[k].slug, index[k].task.id)|;
    } else {
      assert Shown(init, k);
      k' := FilteredShows(init, k);
    }
  }

  lemma {:induction false} GraphsEqual(g: Graph, g': Graph)
    requires forall x :: SameAt(g, g', x)
    ensures g == g'
  {
    forall x ensures x in g <==> x in g' {
      assert SameAt(g, g', x);
    }
    forall x | x in g ensures g[x] == g'[x] {
      assert SameAt(g, g', x);
    }
  }

  lemma {:induction false} ShownGraph(r: TagReader, index: seq<Entry>, k: nat)
    requires Shown(index, k)
    ensures var g := Keyed(r, index);
            && Keyed(r, GraphEntries(index, index[k].slug, index[k].task.id)) == g
            && index[k].task.id in g && g[index[k].task.id] == NodeOf(r, index[k].task)
  {
    var slug, id := index[k].slug, index[k].task.id;
    var kept := GraphEntries(index, slug, id);
    KeyedShown(r, index, k);
    var k' := FilteredShows(index, k);
    KeyedShown(r, kept, k');
    forall x ensures SameAt(Keyed(r, index), Keyed(r, kept), x) {
      if x != id {
        KeyedOthers(r, index, slug, id, x);
      }
    }
    GraphsEqual(Keyed(r, index), Keyed(r, kept));
  }

  /** The edges a task has by its tags: no field hides them. */
  function TagTargets(r: TagReader, t: Task, f: Field): seq<string> {
    if (f == Parent && t.parent.Some?) || (f == Dep && t.dep.Some?) then [] else Targets(NodeOf(r, t), f)
  }

  /** What the task's tags name is clear of the task. */
  ghost predicate TagsClear(r: TagReader, g: Graph, t: Task) {
    AllClear(g, Parent, TagTargets(r, t, Parent), t.id) && AllClear(g, Dep, TagTargets(r, t, Dep), t.id)
  }

  /** The edge fields of the task a line produces are among those the check was asked about. */
  lemma {:induction false} FieldsAreOverridden(
    r: TagReader, g: Graph, slug: string, before: Task, after: Task, f: Field, s: string)
    requires before.id in g && g[before.id] == NodeOf(r, before) && FieldsGrow(before, after)
    requires s in Targets(NodeOf(r, after), f) && s !in TagTargets(r, after, f)
    ensures s in Targets(Overridden(g, LineWrite(slug, before, after)), f)
  {
    assert after.dep != before.dep ==> after.dep.GetOr([]) != before.dep.GetOr([]);
  }

  lemma {:induction false} FieldsClear(env: Env, index: seq<Entry>, k: nat, after: Task, f: Field)
    requires ListsCycles(env.cycles)
    requires Acyclic(Keyed(env.reader, index)) && Shown(index, k)
    requires FieldsGrow(index[k].task, after)
    requires EdgeErrors(env, index, index[k].slug, index[k].task, after) == []
    ensures var g := Keyed(env.reader, index);
            AllClear(g, f, Targets(NodeOf(env.reader, after), f), after.id) <==>
            AllClear(g, f, TagTargets(env.reader, after, f), after.id)
  {
    var slug, before := index[k].slug, index[k].task;
    ShownGraph(env.reader, index, k);
    var g := Keyed(env.reader, index);
    var w := LineWrite(slug, before, after);
    if !NeedsIndex(slug, before, after) {
      assert Named(env.reader, g, w) == [];
    }
    AcceptedWriteKeepsAcyclic(env.reader, env.cycles, g, w);
    ClosesCycleIff(g, w.id, Overridden(g, w), f);
    forall s | s in Targets(NodeOf(env.reader, after), f) && s !in TagTargets(env.reader, after, f)
      ensures Clear(g, f, s, after.id) {
      FieldsAreOverridden(env.reader, g, slug, before, after, f, s);
    }
  }

  /**
   * An accepted line leaves an acyclic index acyclic exactly when what the task's
   * tags then name, where no field hides them, does not lead back to it.
   */
  lemma {:induction false} ChangedTaskAcyclicIff(env: Env, index: seq<Entry>, k: nat, after: Task)
    requires ListsCycles(env.cycles)
    requires Acyclic(Keyed(env.reader, index)) && k < |index|
    requires FieldsGrow(index[k].task, after)
    requires EdgeErrors(env, index, index[k].slug, index[k].task, after) == []
    ensures Acyclic(Keyed(env.reader, index[k := Entry(index[k].slug, after)])) <==>
            (Shown(index, k) ==> TagsClear(env.reader, Keyed(env.reader, index), after))
  {
    KeyedUpdate(env.reader, index, k, after);
    if Shown(index, k) {
      FieldsClear(env, index, k, after, Parent);
      FieldsClear(env, index, k, after, Dep);
      UpdateAcyclicIff(Keyed(env.reader, index), after.id, NodeOf(env.reader, after));
    }
  }

  /** Tags that name nothing new are clear. */
  lemma {:induction false} ShrunkTagsClear(r: TagReader, g: Graph, before: Task, after: Task)
    requires Acyclic(g) && before.id in g && g[before.id] == NodeOf(r, before)
    requires FieldsGrow(before, after) && TagEdgesShrink(r, before, after)
    ensures TagsClear(r, g, after)
  {
    PresentIsClear(g, before.id, Parent);
    PresentIsClear(g, before.id, Dep);
  }

  /** An accepted line whose tags name no new edge leaves an acyclic index acyclic. */
  lemma {:induction false} ChangedTaskKeepsAcyclic(env: Env, index: seq<Entry>, k: nat, after: Task)
    requires ListsCycles(env.cycles)
    requires Acyclic(Keyed(env.reader, index)) && k < |index|
    requires FieldsGrow(index[k].task, after) && TagEdgesShrink(env.reader, index[k].task, after)
    requires EdgeErrors(env, index, index[k].slug, index[k].task, after) == []
    ensures Acyclic(Keyed(env.reader, index[k := Entry(index[k].slug, after)]))
  {
    ChangedTaskAcyclicIff(env, index, k, after);
    if Shown(index, k) {
      ShownGraph(env.reader, index, k);
      ShrunkTagsClear(env.reader, Keyed(env.reader, index), index[k].task, after);
    }
  }
}
