/** What `task apply` refuses, reports and writes. */
module TaskReplies {
  // src/tasks/edge-index.ts and src/commands/_task-apply-run.ts, task-apply.ts: each error of the edge
  // check said of the entries and the write, what one line answers, and how report, files written and
  // counts fit together over a whole plan.

  import opened Prelude
  import opened TaskEdges
  import opened TaskOps
  import opened TaskPlan
  import opened TaskApply
  import opened TaskApplyRuns
  import opened TaskApplyCommand

  // --- The edge check ---------------------------------------------------------------------

  ghost function HasId(entries: seq<Entry>, id: string): nat -> bool {
    (i: nat) => i < |entries| && entries[i].task.id == id
  }

  /** The entries an id is filed under. */
  ghost function Filed(entries: seq<Entry>, id: string): seq<nat> {
    Listing(|entries|, HasId(entries, id))
  }

  lemma {:induction false} HomesAre(entries: seq<Entry>, id: string, n: nat)
    requires n <= |entries|
    ensures var at, homes := Listing(n, HasId(entries, id)), Homes(entries[..n], id);
            |homes| == |at| && forall k :: 0 <= k < |at| ==> homes[k] == entries[at[k]].slug
  {
    if n > 0 {
      HomesAre(entries, id, n - 1);
      assert entries[..n][..n - 1] == entries[..n - 1];
    }
  }

  lemma {:induction false} FiledHomes(entries: seq<Entry>, id: string)
    ensures |Homes(entries, id)| == |Filed(entries, id)|
    ensures forall k :: 0 <= k < |Filed(entries, id)| ==> Homes(entries, id)[k] == entries[Filed(entries, id)[k]].slug
  {
    HomesAre(entries, id, |entries|);
    assert entries[..|entries|] == entries;
  }

  /** The id is known to the check: some entry has it. */
  ghost predicate Known(entries: seq<Entry>, id: string) {
    exists i :: 0 <= i < |entries| && entries[i].task.id == id
  }

  /** What the check is over, the other copies of the written id left out. */
  ghost function Judged(r: TagReader, entries: seq<Entry>, w: EdgeWrite): Graph {
    Keyed(r, GraphEntries(entries, w.slug, w.id))
  }

  lemma {:induction false} KeyedKnows(r: TagReader, entries: seq<Entry>, id: string)
    ensures id in Keyed(r, entries) <==> Known(entries, id)
  {
    if entries != [] {
      var init, last := entries[..|entries| - 1], entries[|entries| - 1];
      assert entries == init + [last];
      KeyedKnows(r, init, id);
      KnownSnoc(init, last, id);
    }
  }

  lemma {:induction false} KnownSnoc(init: seq<Entry>, last: Entry, id: string)
    ensures Known(init + [last], id) <==> Known(init, id) || last.task.id == id
  {
    if Known(init, id) {
      var i :| 0 <= i < |init| && init[i].task.id == id;
      assert (init + [last])[i].task.id == id;
    }
    assert (init + [last])[|init|] == last;
  }

  lemma {:induction false} JudgedKnows(entries: seq<Entry>, slug: string, id: string, ref: string)
    requires ref != id
    ensures Known(GraphEntries(entries, slug, id), ref) <==> Known(entries, ref)
  {
    if entries != [] {
      var init, last := entries[..|entries| - 1], entries[|entries| - 1];
      assert entries == init + [last];
      JudgedKnows(init, slug, id, ref);
      KnownSnoc(init, last, ref);
      KnownSnoc(GraphEntries(init, slug, id), last, ref);
      assert GraphEntries(init, slug, id) + [] == GraphEntries(init, slug, id);
    }
  }

  /** The write names the id anew: as its parent, or as a dep the task does not have. */
  ghost predicate NewRef(r: TagReader, entries: seq<Entry>, w: EdgeWrite, ref: string) {
    || w.parent == Some(ref)
    || (ref in w.dep.GetOr([]) && !(w.id in Judged(r, entries, w) && ref in Judged(r, entries, w)[w.id].dep))
  }

  /** The task would have this edge after the write. */
  ghost predicate WouldHave(r: TagReader, entries: seq<Entry>, w: EdgeWrite, f: Field, ref: string) {
    ref in Targets(Overridden(Judged(r, entries, w), w), f)
  }

  lemma {:induction false} AmbiguousAre(entries: seq<Entry>, named: seq<string>, e: EdgeError)
    ensures e in AmbiguousIds(entries, named) <==>
            e.Ambiguous? && e.ref in named && |Homes(entries, e.ref)| >= 2
  {
    if named != [] {
      AmbiguousAre(entries, named[1..], e);
    }
  }

  lemma {:induction false} UnknownAre(g: Graph, f: Field, refs: seq<string>, named: seq<string>, e: EdgeError)
    ensures e in UnknownRefs(g, f, refs, named) <==>
            e.UnknownId? && e.field == f && e.ref in refs && e.ref in named && e.ref !in g
  {
    if refs != [] {
      UnknownAre(g, f, refs[1..], named, e);
    }
  }

  lemma {:induction false} NamedAre(r: TagReader, g: Graph, w: EdgeWrite, ref: string)
    ensures ref in Named(r, g, w) <==>
            w.parent == Some(ref) || (ref in w.dep.GetOr([]) && !(w.id in g && ref in g[w.id].dep))
  {
  }

  lemma {:induction false} NewCyclesAre(
    f: Field, after: seq<seq<string>>, before: seq<seq<string>>, e: EdgeError)
    ensures e in NewCycles(f, after, before) <==>
            e.ClosesCycle? && e.field == f && e.ids in after && e.ids !in before
  {
    if after != [] {
      NewCyclesAre(f, after[1..], before, e);
    }
  }

  /**
   * Each error the check can give, exactly when: a new id filed twice, a parent filed
   * only in another initiative, a new id no task has, named with the field it would
   * stand in, and, if the write names a new id, a cycle listed after it and not before.
   */
  lemma {:induction false} RefusedIff(
    r: TagReader, cycles: CycleLister, entries: seq<Entry>, w: EdgeWrite, e: EdgeError)
    ensures e in EdgeWriteErrors(r, cycles, entries, w) <==>
            match e
            case Ambiguous(ref) => NewRef(r, entries, w, ref) && |Filed(entries, ref)| >= 2
            case ForeignParent(ref) =>
              w.parent == Some(ref) && |Filed(entries, ref)| == 1 && entries[Filed(entries, ref)[0]].slug != w.slug
            case UnknownId(field, ref) =>
              NewRef(r, entries, w, ref) && ref != w.id && !Known(entries, ref) && WouldHave(r, entries, w, field, ref)
            case ClosesCycle(field, ids) =>
              var g := Judged(r, entries, w);
              && (exists ref :: NewRef(r, entries, w, ref))
              && ids in cycles(g[w.id := Overridden(g, w)], field, w.id) && ids !in cycles(g, field, w.id)
  {
    var g := Judged(r, entries, w);
    ErrorComesFrom(r, cycles, entries, w, e);
    AmbiguousAre(entries, Named(r, g, w), e);
    match e
    case Ambiguous(ref) =>
      NamedAre(r, g, w, ref);
      FiledHomes(entries, ref);
    case ForeignParent(ref) => FiledHomes(entries, ref);
    case UnknownId(_, ref) =>
      NamedAre(r, g, w, ref);
      KeyedKnows(r, GraphEntries(entries, w.slug, w.id), ref);
      if ref != w.id {
        JudgedKnows(entries, w.slug, w.id, ref);
      }
    case ClosesCycle(_, _) => AnyNamed(r, entries, w);
  }

  lemma {:induction false} AnyNamed(r: TagReader, entries: seq<Entry>, w: EdgeWrite)
    ensures Named(r, Judged(r, entries, w), w) != [] <==> exists ref :: NewRef(r, entries, w, ref)
  {
    var named := Named(r, Judged(r, entries, w), w);
    if named != [] {
      assert named[0] in named;
      NamedAre(r, Judged(r, entries, w), w, named[0]);
      assert NewRef(r, entries, w, named[0]);
    }
    if ref :| NewRef(r, entries, w, ref) {
      NamedAre(r, Judged(r, entries, w), w, ref);
    }
  }

  /** Which part of the check an error comes from. */
  lemma {:induction false} ErrorComesFrom(
    r: TagReader, cycles: CycleLister, entries: seq<Entry>, w: EdgeWrite, e: EdgeError)
    ensures var g := Judged(r, entries, w);
            var named, after := Named(r, g, w), g[w.id := Overridden(g, w)];
            e in EdgeWriteErrors(r, cycles, entries, w) <==>
            match e
            case UnknownId(field, ref) => ref in named && ref in Targets(Overridden(g, w), field) && ref !in after
            case ClosesCycle(field, ids) =>
              named != [] && ids in cycles(after, field, w.id) && ids !in cycles(g, field, w.id)
            case _ => e in PlacementErrors(entries, w, named)
  {
    var g := Judged(r, entries, w);
    var named, node := Named(r, g, w), Overridden(g, w);
    var after := g[w.id := node];
    AmbiguousAre(entries, named, e);
    UnknownAre(after, Parent, Targets(node, Parent), named, e);
    UnknownAre(after, Dep, Targets(node, Dep), named, e);
    NewCyclesAre(Parent, cycles(after, Parent, w.id), cycles(g, Parent, w.id), e);
    NewCyclesAre(Dep, cycles(after, Dep, w.id), cycles(g, Dep, w.id), e);
  }

  // --- One line ------------------------------------------------------------------------------

  /** The edges the line changed, as the check is asked about them. */
  ghost predicate Asks(e: PlanEntry, before: Task, after: Task, w: EdgeWrite) {
    && w.slug == e.slug && w.id == after.id
    && (if after.parent == before.parent then w.parent == None else w.parent == after.parent)
    && (if after.dep.GetOr([]) == before.dep.GetOr([]) then w.dep == None else w.dep == after.dep)
  }

  /** The line changed a parent or dep. */
  ghost predicate Moves(before: Task, after: Task) {
    (after.parent != before.parent && after.parent.Some?) || (after.dep.GetOr([]) != before.dep.GetOr([]) && after.dep.Some?)
  }

  /**
   * What a line answers. It asks for the index if it changed an edge; it is refused with
   * the errors of the edge check, all of them, or if the schema refuses the task; and
   * only a line that is applied, with the changes it made, leaves a task or index changed.
   */
  lemma {:induction false} LineAnswers(env: Env, index: seq<Entry>, task: Task, e: PlanEntry) returns (w: EdgeWrite)
    ensures var applied, one := ApplyOps(env.reader, index, env.now, task, e.ops), ApplyOne(env, index, task, e);
            var changed, moved := applied.changes != [], Moves(task, applied.task);
            var stamped := applied.task.(updated := env.date);
            && Asks(e, task, applied.task, w)
            && (one.line.None? <==> changed && moved && !env.loaded)
            && (one.line.Some? ==>
                  var line := one.line.value;
                  var errors := if moved then EdgeWriteErrors(env.reader, env.cycles, index, w) else [];
                  && line.index == e.index && line.slug == e.slug && line.id == e.id
                  && (line.outcome == LineUnchanged <==> !changed)
                  && (line.failure == Some(Refused(errors)) <==> changed && errors != [])
                  && (line.failure == Some(Invalid) <==> changed && errors == [] && !env.valid(stamped))
                  && (line.outcome == LineFailed <==> line.failure == Some(Refused(errors)) || line.failure == Some(Invalid))
                  && (line.outcome == LineApplied <==> changed && errors == [] && env.valid(stamped))
                  && line.changes == if line.outcome == LineApplied then applied.changes else [])
            && (if one.line.Some? && one.line.value.outcome == LineApplied
                then one.task == stamped && one.index == Record(index, e.slug, stamped)
                else one.task == task && one.index == index)
  {
    w := LineWrite(e.slug, task, ApplyOps(env.reader, index, env.now, task, e.ops).task);
  }

  // --- Report and files ------------------------------------------------------------------------

  /** Some result says that a line of this task was applied. */
  ghost predicate SaysApplied(lines: seq<LineResult>, key: Key) {
    exists i :: 0 <= i < |lines| && lines[i].slug == key.slug && lines[i].id == key.id && lines[i].outcome == LineApplied
  }

  lemma {:induction false} SaysConcat(xs: seq<LineResult>, ys: seq<LineResult>, key: Key)
    ensures SaysApplied(xs + ys, key) <==> SaysApplied(xs, key) || SaysApplied(ys, key)
  {
    var all := xs + ys;
    assert forall i :: 0 <= i < |xs| ==> all[i] == xs[i];
    assert forall i :: 0 <= i < |ys| ==> all[|xs| + i] == ys[i];
    if SaysApplied(all, key) {
      var i :| 0 <= i < |all| && all[i].slug == key.slug && all[i].id == key.id && all[i].outcome == LineApplied;
      assert i < |xs| || all[i] == ys[i - |xs|];
    }
  }

  ghost predicate AllOfKey(lines: seq<LineResult>, key: Key) {
    forall i :: 0 <= i < |lines| ==> lines[i].slug == key.slug && lines[i].id == key.id
  }

  /** The results of a task's lines name that task. */
  lemma {:induction false} EntriesOfKey(
    env: Env, index: seq<Entry>, task: Task, entries: seq<PlanEntry>, key: Key)
    requires forall i :: 0 <= i < |entries| ==> entries[i].slug == key.slug && entries[i].id == key.id
    ensures AllOfKey(ApplyEntries(env, index, task, entries).lines, key)
    decreases |entries|
  {
    if entries != [] {
      EntriesOfKey(env, index, task, entries[..|entries| - 1], key);
    }
  }

  lemma {:induction false} NoneApplied(entries: seq<PlanEntry>, why: Failure, key: Key)
    ensures !SaysApplied(Failures(entries, why), key) && !SaysApplied(Missings(entries), key)
  {
    if entries != [] {
      var init, last := entries[..|entries| - 1], entries[|entries| - 1];
      NoneApplied(init, why, key);
      SaysConcat(Failures(init, why), [Failing(last, why)], key);
      SaysConcat(Missings(init), [Result(last, LineMissing, [])], key);
    }
  }

  /** A task is written exactly when one of its lines is reported as applied. */
  lemma {:induction false} JobSaysWritten(
    env: Env, writeOk: Key -> bool, files: map<Key, Task>, index: seq<Entry>, written: seq<Key>, job: Job, key: Key)
    requires JobWellFormed(job)
    ensures var run := RunJob(env, false, writeOk, files, index, written, job);
            key in run.written <==> key in written || SaysApplied(run.lines, key)
  {
    NoneApplied(job.entries, NoIndex, key);
    NoneApplied(job.entries, WriteFailed, key);
    if job.key in files {
      var lines := ApplyEntries(env, index, files[job.key], job.entries).lines;
      EntriesOfKey(env, index, files[job.key], job.entries, job.key);
      if Dirty(lines) {
        var i :| 0 <= i < |lines| && lines[i].outcome == LineApplied;
        assert SaysApplied(lines, job.key);
      }
    }
  }

  /** Over a whole run, a file is written exactly when some line about it is reported as applied. */
  lemma {:induction false} AppliedIsWritten(
    env: Env, writeOk: Key -> bool, st: Run, jobs: seq<Job>, key: Key)
    requires JobsWellFormed(jobs) && (key in st.written <==> SaysApplied(st.lines, key))
    ensures var run := ApplyJobs(env, false, writeOk, st, jobs);
            key in run.written <==> SaysApplied(run.lines, key)
    decreases |jobs|
  {
    if jobs != [] {
      var init, last := jobs[..|jobs| - 1], jobs[|jobs| - 1];
      AppliedIsWritten(env, writeOk, st, init, key);
      var mid := ApplyJobs(env, false, writeOk, st, init);
      JobSaysWritten(env, writeOk, mid.files, mid.index, mid.written, last, key);
      SaysConcat(mid.lines, RunJob(env, false, writeOk, mid.files, mid.index, mid.written, last).lines, key);
    }
  }

  /** A file that was not written is as it was. */
  lemma {:induction false} UnwrittenStay(
    env: Env, dryRun: bool, writeOk: Key -> bool, st: Run, jobs: seq<Job>, key: Key)
    requires key !in ApplyJobs(env, dryRun, writeOk, st, jobs).written
    ensures SameFile(ApplyJobs(env, dryRun, writeOk, st, jobs).files, st.files, key)
    decreases |jobs|
  {
    if jobs != [] {
      var init := jobs[..|jobs| - 1];
      var mid := ApplyJobs(env, dryRun, writeOk, st, init);
      if key !in mid.written {
        UnwrittenStay(env, dryRun, writeOk, st, init, key);
      }
    }
  }

  // --- The report ---------------------------------------------------------------------------------

  lemma {:induction false} InsertHolds(sorted: seq<LineResult>, line: LineResult, x: LineResult)
    ensures x in Insert(sorted, line) <==> x in sorted || x == line
  {
    if sorted != [] && sorted[|sorted| - 1].index > line.index {
      InsertHolds(sorted[..|sorted| - 1], line, x);
      assert sorted == sorted[..|sorted| - 1] + [sorted[|sorted| - 1]];
    }
  }

  lemma {:induction false} SortHolds(lines: seq<LineResult>, x: LineResult)
    ensures x in SortByIndex(lines) <==> x in lines
  {
    if lines != [] {
      SortHolds(lines[..|lines| - 1], x);
      InsertHolds(SortByIndex(lines[..|lines| - 1]), lines[|lines| - 1], x);
      assert lines == lines[..|lines| - 1] + [lines[|lines| - 1]];
    }
  }

  /** A line that did not parse is reported with its reason. */
  lemma {:induction false} FailedLinesHold(entries: seq<PlanEntry>, k: nat)
    requires k < |entries| && entries[k].error.Some?
    ensures LineResult(entries[k].index, entries[k].slug, entries[k].id, LineFailed, [],
              Some(BadLine(entries[k].error.value))) in FailedLines(entries)
  {
    if k < |entries| - 1 {
      FailedLinesHold(entries[..|entries| - 1], k);
    }
  }

  /** The report holds what the run answered, each at the number of its line, and says why a bad line is one. */
  lemma {:induction false} ReportSays(
    env: Env, dryRun: bool, writeOk: Key -> bool, files: map<Key, Task>, index: seq<Entry>,
    lines: seq<RawLine>, rules: Rules, k: nat)
    ensures var entries := Entries(lines, rules);
            var run := ApplyJobs(env, dryRun, writeOk, Run(files, index, [], []), Jobs(Grouped(entries)));
            var report := Report(entries, run.lines);
            && |report| == |entries|
            && (forall x :: x in run.lines ==> x.index < |report| && report[x.index] == x)
            && (k < |report| && entries[k].error.Some? ==>
                  report[k] == LineResult(k, entries[k].slug, entries[k].id, LineFailed, [],
                                 Some(BadLine(entries[k].error.value))))
  {
    var entries := Entries(lines, rules);
    var run := ApplyJobs(env, dryRun, writeOk, Run(files, index, [], []), Jobs(Grouped(entries)));
    var report := Report(entries, run.lines);
    ReportFollowsPlan(env, dryRun, writeOk, files, index, lines, rules, 0);
    forall x | x in FailedLines(entries) + run.lines ensures x.index < |report| && report[x.index] == x {
      SortHolds(FailedLines(entries) + run.lines, x);
      var j :| 0 <= j < |report| && report[j] == x;
      ReportFollowsPlan(env, dryRun, writeOk, files, index, lines, rules, j);
      assert LineOf(report[j]).index == j;
    }
    if k < |report| && entries[k].error.Some? {
      LineGivesIndex(lines, rules, k);
      FailedLinesHold(entries, k);
    }
  }

  lemma {:induction false} LineGivesIndex(lines: seq<RawLine>, rules: Rules, k: nat)
    requires k < |Entries(lines, rules)|
    ensures Entries(lines, rules)[k].index == k
  {
  }

  /** The run has the edge index exactly when some line that parsed sets a parent or adds a dep. */
  lemma {:induction false} IndexIsLoadedIff(env: Env, entries: seq<PlanEntry>)
    ensures Loading(env, entries).loaded <==>
            exists i, op: Op :: 0 <= i < |entries| && entries[i].error.None? && op in entries[i].ops
              && (op.SetParent? || op.AddDep?)
  {
    if HasEdgeOps(entries) {
      var i :| 0 <= i < |entries| && entries[i].error.None? && !NoEdgeOps(entries[i].ops);
      var k :| 0 <= k < |entries[i].ops| && (entries[i].ops[k].SetParent? || entries[i].ops[k].AddDep?);
      assert entries[i].ops[k] in entries[i].ops;
    }
  }

  // --- Counts ----------------------------------------------------------------------------------------

  /** The numbers of the results with this outcome. */
  ghost function WithOutcome(lines: seq<LineResult>, outcome: Outcome): set<nat> {
    set i: nat | i < |lines| && lines[i].outcome == outcome
  }

  lemma {:induction false} OutcomeSnoc(init: seq<LineResult>, last: LineResult, outcome: Outcome)
    ensures WithOutcome(init + [last], outcome) ==
            WithOutcome(init, outcome) + (if last.outcome == outcome then {|init|} else {})
  {
  }

  /** Each count is the number of results with that outcome. */
  lemma {:induction false} CountIs(lines: seq<LineResult>, outcome: Outcome)
    ensures CountOf(lines, outcome) == |WithOutcome(lines, outcome)|
  {
    if lines != [] {
      var init, last := lines[..|lines| - 1], lines[|lines| - 1];
      assert lines == init + [last];
      CountIs(init, outcome);
      OutcomeSnoc(init, last, outcome);
      assert |init| !in WithOutcome(init, outcome);
    }
  }
}
