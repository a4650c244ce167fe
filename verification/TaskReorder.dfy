/**
 * Moving a task to a new priority (src/commands/task-reorder.ts): the siblings at or after the
 * new place move up by one, collected in one loop and written in a second one. The new list as a
 * whole is a function; what it keeps of distinctness and order, and when it leaves no gap, are
 * lemmas about it.
 */
module TaskReorder {
  import opened Prelude

  datatype Task = Task(id: string, priority: int, updated: string)

  datatype Write = Write(at: nat, task: Task)

  function Target(tasks: seq<Task>, id: string, i: nat): (r: Option<nat>)
    ensures r.Some? ==> i <= r.value < |tasks| && tasks[r.value].id == id
    ensures r.None? ==> forall j :: i <= j < |tasks| ==> tasks[j].id != id
    decreases |tasks| - i
  {
    if i >= |tasks| then None else if tasks[i].id == id then Some(i) else Target(tasks, id, i + 1)
  }

  function MoveOne(task: Task, id: string, to: int, date: string): Task {
    if task.id != id && task.priority >= to then Task(task.id, task.priority + 1, date) else task
  }

  /** Siblings at or after the new priority move up by one; the target takes it. */
  function Reordered(tasks: seq<Task>, t: nat, to: int, date: string): seq<Task>
    requires t < |tasks|
  {
    var moved := seq(|tasks|, i requires 0 <= i < |tasks| => MoveOne(tasks[i], tasks[t].id, to, date));
    moved[t := Task(tasks[t].id, to, date)]
  }

  /** The tasks as the command leaves them: an unknown id and a priority it has already write nothing. */
  function AfterCommand(tasks: seq<Task>, id: string, to: int, date: string): seq<Task> {
    match Target(tasks, id, 0)
    case None => tasks
    case Some(t) => if tasks[t].priority == to then tasks else Reordered(tasks, t, to, date)
  }

  ghost predicate IdsDistinct(tasks: seq<Task>) {
    forall i, j :: 0 <= i < j < |tasks| ==> tasks[i].id != tasks[j].id
  }

  ghost predicate PrioritiesDistinct(tasks: seq<Task>) {
    forall i, j :: 0 <= i < j < |tasks| ==> tasks[i].priority != tasks[j].priority
  }

  /** The task files of one initiative, in listing order. */
  class TaskDirectory {
    var tasks: seq<Task>

    constructor (tasks: seq<Task>)
      ensures this.tasks == tasks
    {
      this.tasks := tasks;
    }

    /** Collects the writes in one loop and performs them in a second one. */
    method Reorder(id: string, to: int, date: string) returns (from: Option<int>)
      modifies this
      ensures var t := Target(old(tasks), id, 0);
        from == if t.None? then None else Some(old(tasks)[t.value].priority)
      ensures tasks == AfterCommand(old(tasks), id, to, date)
    {
      var loaded := tasks;
      var t := Target(loaded, id, 0);
      if t.None? {
        return None;
      }
      from := Some(loaded[t.value].priority);
      if loaded[t.value].priority == to {
        return;
      }
      var writes := CollectShifts(loaded, id, to, date);
      PerformedSnoc(loaded, writes, Write(t.value, Task(id, to, date)));
      writes := writes + [Write(t.value, Task(id, to, date))];
      PartlyAll(loaded, t.value, to, date);
      assert writes[..0] == [];
      for k := 0 to |writes|
        invariant tasks == Performed(loaded, writes[..k])
      {
        assert writes[..k + 1] == writes[..k] + [writes[k]];
        PerformedSnoc(loaded, writes[..k], writes[k]);
        tasks := tasks[writes[k].at := writes[k].task];
      }
      assert writes[..|writes|] == writes;
    }
  }

  /** The writes that move the siblings. */
  method CollectShifts(tasks: seq<Task>, id: string, to: int, date: string) returns (writes: seq<Write>)
    ensures forall k :: 0 <= k < |writes| ==> writes[k].at < |tasks|
    ensures Performed(tasks, writes) == Partly(tasks, id, to, date, |tasks|)
  {
    writes := [];
    for i := 0 to |tasks|
      invariant forall k :: 0 <= k < |writes| ==> writes[k].at < |tasks|
      invariant Performed(tasks, writes) == Partly(tasks, id, to, date, i)
    {
      PartlyStep(tasks, id, to, date, i);
      if tasks[i].id != id && tasks[i].priority >= to {
        var w := Write(i, Task(tasks[i].id, tasks[i].priority + 1, date));
        PerformedSnoc(tasks, writes, w);
        writes := writes + [w];
      }
    }
  }

  /** The files after a list of writes. */
  function Performed(tasks: seq<Task>, writes: seq<Write>): (r: seq<Task>)
    requires forall k :: 0 <= k < |writes| ==> writes[k].at < |tasks|
    ensures |r| == |tasks|
  {
    if writes == [] then tasks
    else
      var last := writes[|writes| - 1];
      Performed(tasks, writes[..|writes| - 1])[last.at := last.task]
  }

  lemma {:induction false} PerformedSnoc(tasks: seq<Task>, writes: seq<Write>, w: Write)
    requires w.at < |tasks| && forall k :: 0 <= k < |writes| ==> writes[k].at < |tasks|
    ensures Performed(tasks, writes + [w]) == Performed(tasks, writes)[w.at := w.task]
  {
    assert (writes + [w])[..|writes|] == writes;
  }

  function Partly(tasks: seq<Task>, id: string, to: int, date: string, n: nat): seq<Task> {
    seq(|tasks|, i requires 0 <= i < |tasks| => if i < n then MoveOne(tasks[i], id, to, date) else tasks[i])
  }

  lemma {:induction false} PartlyStep(tasks: seq<Task>, id: string, to: int, date: string, n: nat)
    requires n < |tasks|
    ensures Partly(tasks, id, to, date, n + 1) == Partly(tasks, id, to, date, n)[n := MoveOne(tasks[n], id, to, date)]
  {
  }

  lemma {:induction false} PartlyAll(tasks: seq<Task>, t: nat, to: int, date: string)
    requires t < |tasks|
    ensures Partly(tasks, tasks[t].id, to, date, |tasks|)[t := Task(tasks[t].id, to, date)] == Reordered(tasks, t, to, date)
  {
  }

  /**
   * The target ends at the new priority, distinct priorities stay distinct, and
   * the siblings keep their order, also relative to each other's ties.
   */
  lemma {:induction false} ReorderKeeps(tasks: seq<Task>, t: nat, to: int, date: string)
    requires t < |tasks| && IdsDistinct(tasks)
    ensures var next := Reordered(tasks, t, to, date);
      && |next| == |tasks| && next[t].priority == to && IdsDistinct(next)
      && (PrioritiesDistinct(tasks) ==> PrioritiesDistinct(next))
      && forall i, j :: 0 <= i < |tasks| && 0 <= j < |tasks| && i != t && j != t ==>
           (next[i].priority < next[j].priority <==> tasks[i].priority < tasks[j].priority)
  {
    var next := Reordered(tasks, t, to, date);
    forall i | 0 <= i < |tasks| && i != t
      ensures next[i].id == tasks[i].id && next[i].priority != to
        && next[i].priority == if tasks[i].priority >= to then tasks[i].priority + 1 else tasks[i].priority
    {
      assert tasks[i].id != tasks[t].id;
    }
  }

  /** Every sibling that was before the new place stays before the target, every other one comes after it. */
  lemma {:induction false} TargetSits(tasks: seq<Task>, t: nat, i: nat, to: int, date: string)
    requires t < |tasks| && i < |tasks| && i != t && IdsDistinct(tasks)
    ensures var next := Reordered(tasks, t, to, date);
      next[i].priority < next[t].priority <==> tasks[i].priority < to
    ensures tasks[i].priority < to <==> Reordered(tasks, t, to, date)[i] == tasks[i]
  {
    assert tasks[i].id != tasks[t].id;
  }

  ghost predicate PriorityIn(tasks: seq<Task>, p: int) {
    exists i :: 0 <= i < |tasks| && tasks[i].priority == p
  }

  /** The priorities are exactly 1..n, each once. */
  ghost predicate Gapless(tasks: seq<Task>, n: nat) {
    PrioritiesDistinct(tasks) && forall p :: PriorityIn(tasks, p) <==> 1 <= p <= n
  }

  ghost predicate LeavesNoGap(tasks: seq<Task>) {
    exists n :: Gapless(tasks, n)
  }

  lemma {:induction false} MovedPriorities(tasks: seq<Task>, n: nat, t: nat, to: int, date: string, p: int)
    requires IdsDistinct(tasks) && Gapless(tasks, n) && t < |tasks|
    ensures PriorityIn(Reordered(tasks, t, to, date), p) <==>
            var was, c := if p > to then p - 1 else p, tasks[t].priority;
            p == to || (1 <= was <= n && was != c)
  {
    PriorityAfter(tasks, t, to, date, p);
    OtherPriority(tasks, n, t, if p > to then p - 1 else p);
  }

  lemma {:induction false} MoveLeavesNoGapIff(tasks: seq<Task>, n: nat, t: nat, to: int, date: string)
    requires IdsDistinct(tasks) && Gapless(tasks, n) && t < |tasks| && to != tasks[t].priority
    ensures LeavesNoGap(Reordered(tasks, t, to, date)) <==> tasks[t].priority == n && 1 <= to <= n
  {
    var next, c := Reordered(tasks, t, to, date), tasks[t].priority;
    assert PriorityIn(tasks, c);
    ReorderKeeps(tasks, t, to, date);
    forall p: int ensures PriorityIn(next, p) <==>
      p == to || (1 <= (if p > to then p - 1 else p) <= n && (if p > to then p - 1 else p) != c)
    {
      MovedPriorities(tasks, n, t, to, date, p);
    }
    assert PriorityIn(next, to);
    if 1 <= to <= n && c == n {
      assert Gapless(next, n);
    } else if 1 <= to <= n {
      var gap, above := if to > c then c else c + 1, if to > c then to else n + 1;
      assert !PriorityIn(next, gap) && PriorityIn(next, above) && 1 <= gap < above;
    } else if to > n {
      assert !PriorityIn(next, c) && 1 <= c < to;
    }
  }

  /**
   * From priorities 1..n the command leaves 1..m again exactly when the task has
   * that priority already, or was last and goes to another place among them.
   */
  lemma {:induction false} CommandLeavesNoGapIff(tasks: seq<Task>, n: nat, t: nat, to: int, date: string)
    requires IdsDistinct(tasks) && Gapless(tasks, n) && t < |tasks|
    ensures LeavesNoGap(AfterCommand(tasks, tasks[t].id, to, date)) <==>
            to == tasks[t].priority || (tasks[t].priority == n && 1 <= to <= n)
  {
    assert Target(tasks, tasks[t].id, 0) == Some(t);
    if to == tasks[t].priority {
      assert Gapless(AfterCommand(tasks, tasks[t].id, to, date), n);
    } else {
      MoveLeavesNoGapIff(tasks, n, t, to, date);
    }
  }

  lemma {:induction false} PriorityAfter(tasks: seq<Task>, t: nat, to: int, date: string, p: int)
    requires IdsDistinct(tasks) && t < |tasks|
    ensures PriorityIn(Reordered(tasks, t, to, date), p) <==>
      p == to || exists i :: 0 <= i < |tasks| && i != t && tasks[i].priority == (if p > to then p - 1 else p) && p != to
  {
    var next := Reordered(tasks, t, to, date);
    if i :| 0 <= i < |next| && i != t && next[i].priority == p {
      TargetSits(tasks, t, i, to, date);
    }
    if i :| 0 <= i < |tasks| && i != t && tasks[i].priority == (if p > to then p - 1 else p) && p != to {
      TargetSits(tasks, t, i, to, date);
      assert next[i].priority == p;
    }
    assert next[t].priority == to;
  }

  lemma {:induction false} OtherPriority(tasks: seq<Task>, n: nat, t: nat, p: int)
    requires Gapless(tasks, n) && t < |tasks|
    ensures (exists i :: 0 <= i < |tasks| && i != t && tasks[i].priority == p) <==> 1 <= p <= n && p != tasks[t].priority
  {
    assert PriorityIn(tasks, p) <==> 1 <= p <= n;
    if i :| 0 <= i < |tasks| && i != t && tasks[i].priority == p {
      assert PriorityIn(tasks, p);
    }
  }
}
