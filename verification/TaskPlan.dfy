/**
 * A `task apply` plan from its lines to its jobs (src/commands/_task-apply-plan.ts,
 * src/commands/task-apply.ts): parsing, with a malformed line kept as a failing entry, grouping
 * by initiative and task in order of first appearance, and the accounting of lines that the
 * report relies on later.
 */
module TaskPlan {
  import opened Prelude
  import opened TaskOps
  import opened TaskApply
  import opened TaskApplyRuns

  // --- Parsing -------------------------------------------------------------------

  /** A plan line as far as JSON.parse decides it; a slug or id that is no string reads as "". */
  datatype RawLine =
    | Blank
    | NotJson
    | NotObject
    | Object(slug: string, id: string, ops: Option<seq<RawOp>>, keys: set<string>)

  datatype Rules = Rules(slugOk: string -> bool, idOk: string -> bool)

  function ParseOps(raws: seq<RawOp>, idOk: string -> bool): (r: Option<seq<Op>>)
    ensures r.Some? ==> |r.value| == |raws| && OpsWellFormed(r.value)
  {
    if raws == [] then Some([])
    else
      var init := ParseOps(raws[..|raws| - 1], idOk);
      var last := ParseOp(raws[|raws| - 1], idOk);
      if init.Some? && last.Some? then Some(init.value + [last.value]) else None
  }

  function ParseLine(raw: RawLine, index: nat, rules: Rules): (e: PlanEntry)
    ensures e.index == index && OpsWellFormed(e.ops)
    ensures e.error.Some? ==> e.ops == []
    ensures e.error.None? ==> raw.Object? && rules.slugOk(e.slug) && rules.idOk(e.id)
  {
    match raw
    case Object(slug, id, ops, _) =>
      if !rules.slugOk(slug) then PlanEntry(index, slug, id, [], Some("Invalid slug"))
      else if !rules.idOk(id) then PlanEntry(index, slug, id, [], Some("Invalid task id"))
      else if ops.None? then PlanEntry(index, slug, id, [], Some("ops must be an array"))
      else if ParseOps(ops.value, rules.idOk).None? then PlanEntry(index, slug, id, [], Some("bad op"))
      else PlanEntry(index, slug, id, ParseOps(ops.value, rules.idOk).value, None)
    case NotObject => PlanEntry(index, "", "", [], Some("Plan line must be a JSON object"))
    case _ => PlanEntry(index, "", "", [], Some("Invalid JSON"))
  }

  /** Some valid line of the plan sets a parent or adds a dep. */
  predicate HasEdgeOps(entries: seq<PlanEntry>) {
    exists i :: 0 <= i < |entries| && entries[i].error.None? && !NoEdgeOps(entries[i].ops)
  }

  const LINE_KEYS := {"slug", "id", "ops"}

  /** One entry per non-blank line, numbered from 0. */
  function Entries(lines: seq<RawLine>, rules: Rules): (r: seq<PlanEntry>)
    ensures forall k :: 0 <= k < |r| ==> r[k].index == k && OpsWellFormed(r[k].ops)
    ensures forall k :: 0 <= k < |r| && r[k].error.Some? ==> r[k].ops == []
  {
    if lines == [] then []
    else
      var init := Entries(lines[..|lines| - 1], rules);
      if lines[|lines| - 1].Blank? then init else init + [ParseLine(lines[|lines| - 1], |init|, rules)]
  }

  method ParsePlan(lines: seq<RawLine>, rules: Rules) returns (entries: seq<PlanEntry>, unknownKeys: set<string>)
    ensures entries == Entries(lines, rules)
    ensures unknownKeys == set i, key | 0 <= i < |lines| && lines[i].Object? && key in lines[i].keys - LINE_KEYS :: key
  {
    entries, unknownKeys := [], {};
    for i := 0 to |lines|
      invariant entries == Entries(lines[..i], rules)
      invariant unknownKeys == set j, key | 0 <= j < i && lines[j].Object? && key in lines[j].keys - LINE_KEYS :: key
    {
      assert lines[..i + 1][..i] == lines[..i];
      if !lines[i].Blank? {
        if lines[i].Object? {
          unknownKeys := unknownKeys + (lines[i].keys - LINE_KEYS);
        }
        entries := entries + [ParseLine(lines[i], |entries|, rules)];
      }
    }
    assert lines[..|lines|] == lines;
  }

  // --- Grouping ---------------------------------------------------------------------

  datatype TaskGroup = TaskGroup(id: string, entries: seq<PlanEntry>)

  datatype SlugGroup = SlugGroup(slug: string, tasks: seq<TaskGroup>)

  /** tasks.set(id, [...(tasks.get(id) ?? []), entry]) on an insertion-ordered map. */
  function AddToTasks(tasks: seq<TaskGroup>, e: PlanEntry): seq<TaskGroup> {
    if tasks == [] then [TaskGroup(e.id, [e])]
    else if tasks[0].id == e.id then [TaskGroup(e.id, tasks[0].entries + [e])] + tasks[1..]
    else [tasks[0]] + AddToTasks(tasks[1..], e)
  }

  function AddToGroups(groups: seq<SlugGroup>, e: PlanEntry): seq<SlugGroup> {
    if groups == [] then [SlugGroup(e.slug, [TaskGroup(e.id, [e])])]
    else if groups[0].slug == e.slug then [SlugGroup(e.slug, AddToTasks(groups[0].tasks, e))] + groups[1..]
    else [groups[0]] + AddToGroups(groups[1..], e)
  }

  /** Failed entries are left out. */
  function Grouped(entries: seq<PlanEntry>): seq<SlugGroup> {
    if entries == [] then []
    else
      var init := Grouped(entries[..|entries| - 1]);
      if entries[|entries| - 1].error.Some? then init else AddToGroups(init, entries[|entries| - 1])
  }

  method GroupPlan(entries: seq<PlanEntry>) returns (groups: seq<SlugGroup>)
    ensures groups == Grouped(entries)
  {
    groups := [];
    for i := 0 to |entries|
      invariant groups == Grouped(entries[..i])
    {
      assert entries[..i + 1][..i] == entries[..i];
      if entries[i].error.Some? {
        continue;
      }
      groups := AddToGroups(groups, entries[i]);
    }
    assert entries[..|entries|] == entries;
  }

  function TaskJobs(slug: string, tasks: seq<TaskGroup>): seq<Job> {
    if tasks == [] then [] else [Job(Key(slug, tasks[0].id), tasks[0].entries)] + TaskJobs(slug, tasks[1..])
  }

  /** The order the run visits: initiatives by first line, within each the tasks by first line. */
  function Jobs(groups: seq<SlugGroup>): seq<Job> {
    if groups == [] then [] else TaskJobs(groups[0].slug, groups[0].tasks) + Jobs(groups[1..])
  }

  // --- What grouping keeps ------------------------------------------------------------

  /** The line a result or an entry belongs to. */
  datatype Line = Line(index: nat, slug: string, id: string)

  function EntryLines(entries: seq<PlanEntry>): multiset<Line> {
    if entries == [] then multiset{}
    else
      var last := entries[|entries| - 1];
      EntryLines(entries[..|entries| - 1]) + multiset{Line(last.index, last.slug, last.id)}
  }

  function ResultLines(lines: seq<LineResult>): multiset<Line> {
    if lines == [] then multiset{}
    else
      var last := lines[|lines| - 1];
      ResultLines(lines[..|lines| - 1]) + multiset{Line(last.index, last.slug, last.id)}
  }

  function TaskLines(tasks: seq<TaskGroup>): multiset<Line> {
    if tasks == [] then multiset{} else EntryLines(tasks[0].entries) + TaskLines(tasks[1..])
  }

  function GroupLines(groups: seq<SlugGroup>): multiset<Line> {
    if groups == [] then multiset{} else TaskLines(groups[0].tasks) + GroupLines(groups[1..])
  }

  function ValidLines(entries: seq<PlanEntry>, failed: bool): multiset<Line> {
    if entries == [] then multiset{}
    else
      var last := entries[|entries| - 1];
      ValidLines(entries[..|entries| - 1], failed) +
      (if last.error.Some? == failed then multiset{Line(last.index, last.slug, last.id)} else multiset{})
  }

  lemma {:induction false} EntryLinesSnoc(entries: seq<PlanEntry>, e: PlanEntry)
    ensures EntryLines(entries + [e]) == EntryLines(entries) + multiset{Line(e.index, e.slug, e.id)}
  {
    assert (entries + [e])[..|entries|] == entries;
  }

  lemma {:induction false} AddTaskLines(tasks: seq<TaskGroup>, e: PlanEntry)
    ensures TaskLines(AddToTasks(tasks, e)) == TaskLines(tasks) + multiset{Line(e.index, e.slug, e.id)}
  {
    if tasks == [] {
      EntryLinesSnoc([], e);
      assert [] + [e] == [e];
    } else if tasks[0].id == e.id {
      EntryLinesSnoc(tasks[0].entries, e);
    } else {
      AddTaskLines(tasks[1..], e);
    }
  }

  lemma {:induction false} AddGroupLines(groups: seq<SlugGroup>, e: PlanEntry)
    ensures GroupLines(AddToGroups(groups, e)) == GroupLines(groups) + multiset{Line(e.index, e.slug, e.id)}
  {
    if groups == [] {
      AddTaskLines([], e);
    } else if groups[0].slug == e.slug {
      AddTaskLines(groups[0].tasks, e);
    } else {
      AddGroupLines(groups[1..], e);
    }
  }

  lemma {:induction false} GroupedLines(entries: seq<PlanEntry>)
    ensures GroupLines(Grouped(entries)) == ValidLines(entries, false)
    ensures EntryLines(entries) == ValidLines(entries, true) + ValidLines(entries, false)
  {
    if entries != [] {
      GroupedLines(entries[..|entries| - 1]);
      if entries[|entries| - 1].error.None? {
        AddGroupLines(Grouped(entries[..|entries| - 1]), entries[|entries| - 1]);
      }
    }
  }

  ghost predicate TasksOk(slug: string, tasks: seq<TaskGroup>) {
    && (forall i, j :: 0 <= i < j < |tasks| ==> tasks[i].id != tasks[j].id)
    && (forall i :: 0 <= i < |tasks| ==> JobWellFormed(Job(Key(slug, tasks[i].id), tasks[i].entries)))
  }

  ghost predicate GroupsOk(groups: seq<SlugGroup>) {
    && (forall i, j :: 0 <= i < j < |groups| ==> groups[i].slug != groups[j].slug)
    && (forall i :: 0 <= i < |groups| ==> TasksOk(groups[i].slug, groups[i].tasks))
  }

  lemma {:induction false} AddTaskOk(slug: string, tasks: seq<TaskGroup>, e: PlanEntry)
    requires TasksOk(slug, tasks) && e.slug == slug && OpsWellFormed(e.ops)
    ensures TasksOk(slug, AddToTasks(tasks, e))
    ensures forall t :: t in AddToTasks(tasks, e) ==> t.id == e.id || exists u :: u in tasks && u.id == t.id
  {
    if tasks != [] && tasks[0].id != e.id {
      var rest := tasks[1..];
      assert TasksOk(slug, rest) by {
        assert forall i :: 0 <= i < |rest| ==> rest[i] == tasks[i + 1];
      }
      AddTaskOk(slug, rest, e);
      var added := AddToTasks(rest, e);
      forall i | 0 <= i < |added| ensures added[i].id != tasks[0].id {
        assert added[i] in added;
      }
    }
  }

  lemma {:induction false} AddGroupOk(groups: seq<SlugGroup>, e: PlanEntry)
    requires GroupsOk(groups) && OpsWellFormed(e.ops)
    ensures GroupsOk(AddToGroups(groups, e))
    ensures forall g :: g in AddToGroups(groups, e) ==> g.slug == e.slug || exists u :: u in groups && u.slug == g.slug
  {
    if groups == [] {
      AddTaskOk(e.slug, [], e);
    } else if groups[0].slug == e.slug {
      AddTaskOk(e.slug, groups[0].tasks, e);
    } else {
      var rest := groups[1..];
      assert GroupsOk(rest) by {
        assert forall i :: 0 <= i < |rest| ==> rest[i] == groups[i + 1];
      }
      AddGroupOk(rest, e);
      var added := AddToGroups(rest, e);
      forall i | 0 <= i < |added| ensures added[i].slug != groups[0].slug {
        assert added[i] in added;
      }
    }
  }

  lemma {:induction false} GroupedOk(entries: seq<PlanEntry>)
    requires EntriesWellFormed(entries)
    ensures GroupsOk(Grouped(entries))
  {
    if entries != [] {
      GroupedOk(entries[..|entries| - 1]);
      if entries[|entries| - 1].error.None? {
        AddGroupOk(Grouped(entries[..|entries| - 1]), entries[|entries| - 1]);
      }
    }
  }

  lemma {:induction false} TaskJobsAt(slug: string, tasks: seq<TaskGroup>)
    ensures |TaskJobs(slug, tasks)| == |tasks|
    ensures forall i :: 0 <= i < |tasks| ==> TaskJobs(slug, tasks)[i] == Job(Key(slug, tasks[i].id), tasks[i].entries)
  {
    if tasks != [] {
      TaskJobsAt(slug, tasks[1..]);
    }
  }

  lemma {:induction false} JobsWellFormedOf(groups: seq<SlugGroup>)
    requires GroupsOk(groups)
    ensures JobsWellFormed(Jobs(groups))
    ensures forall j :: 0 <= j < |Jobs(groups)| ==>
      exists i :: 0 <= i < |groups| && groups[i].slug == Jobs(groups)[j].key.slug
  {
    if groups != [] {
      var rest := groups[1..];
      assert GroupsOk(rest) by {
        assert forall i :: 0 <= i < |rest| ==> rest[i] == groups[i + 1];
      }
      JobsWellFormedOf(rest);
      TaskJobsAt(groups[0].slug, groups[0].tasks);
      var mine, others := TaskJobs(groups[0].slug, groups[0].tasks), Jobs(rest);
      forall j | 0 <= j < |others|
        ensures exists i :: 1 <= i < |groups| && groups[i].slug == others[j].key.slug
      {
        var i :| 0 <= i < |rest| && rest[i].slug == others[j].key.slug;
        assert groups[i + 1].slug == others[j].key.slug;
      }
    }
  }
}
