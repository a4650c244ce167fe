/** Tags that name an edge. */
module TaskTagEdges {
  // They are not edge-checked when a plan adds or removes them: edgeErrors looks at fields only
  // (src/commands/_task-apply-run.ts). This says exactly when such a line closes a cycle.

  import opened Prelude
  import opened TaskEdges
  import opened TaskOps
  import opened TaskApply

  // --- A line of one tag op ----------------------------------------------------------

  function TagLine(index: seq<Entry>, k: nat, op: Op, at: nat): PlanEntry
    requires k < |index|
  {
    PlanEntry(at, index[k].slug, index[k].task.id, [op], None)
  }

  /** The task the op leaves, stamped. */
  function After(env: Env, index: seq<Entry>, k: nat, op: Op): Task
    requires k < |index|
  {
    ApplyOp(env.reader, index, env.now, index[k].task, op).task.(updated := env.date)
  }

  function Applying(env: Env, index: seq<Entry>, k: nat, op: Op, at: nat): Progress
    requires k < |index|
  {
    ApplyEntry(env, Progress(index[k].task, index, []), TagLine(index, k, op, at))
  }

  /** The line needs the edge index, which is not there. */
  predicate Throws(env: Env, t: Task) {
    !env.loaded && Repeats(env.reader, t)
  }

  /** A tag op that does not hold yet, on the copy of a task the edge check shows. */
  ghost predicate Tagging(env: Env, index: seq<Entry>, k: nat, op: Op) {
    && UniqueEntries(index) && Shown(index, k) && Acyclic(Keyed(env.reader, index))
    && TagOp(op) && !Stable(index[k].task, op)
    && env.valid(After(env, index, k, op))
  }

  lemma {:induction false} TidyingIsAccepted(env: Env, index: seq<Entry>, k: nat, op: Op)
    requires Tagging(env, index, k, op)
    ensures var after := After(env, index, k, op);
            && (NeedsIndex(index[k].slug, index[k].task, after) <==> Repeats(env.reader, index[k].task))
            && EdgeErrors(env, index, index[k].slug, index[k].task, after) == []
  {
    var before, after := index[k].task, After(env, index, k, op);
    ShownGraph(env.reader, index, k);
    var w := LineWrite(index[k].slug, before, after);
    if Repeats(env.reader, before) {
      assert w.dep == Some(Dedupe(NodeOf(env.reader, before).dep));
      assert Named(env.reader, Keyed(env.reader, index), w) == [];
    }
  }

  lemma {:induction false} TagLineDone(env: Env, index: seq<Entry>, k: nat, op: Op, at: nat)
    requires Tagging(env, index, k, op)
    ensures var e, after := TagLine(index, k, op, at), After(env, index, k, op);
            ApplyOne(env, index, index[k].task, e) ==
            if Throws(env, index[k].task) then LineDone(index[k].task, index, None)
            else LineDone(after, index[k := Entry(index[k].slug, after)], Some(Result(e, LineApplied, [op])))
  {
    OneOp(env.reader, index, env.now, index[k].task, op);
    TidyingIsAccepted(env, index, k, op);
    RecordAt(index, k, After(env, index, k, op));
  }

  /** It is applied unless it throws, and asks the edge check nothing about the tag. */
  lemma {:induction false} TagLineApplies(env: Env, index: seq<Entry>, k: nat, op: Op, at: nat)
    requires Tagging(env, index, k, op)
    ensures var p, after := Applying(env, index, k, op, at), After(env, index, k, op);
            if Throws(env, index[k].task) then p.thrown && p.index == index
            else p == Progress(after, index[k := Entry(index[k].slug, after)],
                               [Result(TagLine(index, k, op, at), LineApplied, [op])])
  {
    TagLineDone(env, index, k, op, at);
    var result := Result(TagLine(index, k, op, at), LineApplied, [op]);
    assert [] + [result] == [result];
  }

  /** The graph stays acyclic exactly when it throws or what the task then names is clear of it. */
  lemma {:induction false} TagLineIsSafeIff(env: Env, index: seq<Entry>, k: nat, op: Op, at: nat)
    requires Tagging(env, index, k, op)
    ensures var g, after := Keyed(env.reader, index), After(env, index, k, op);
            Acyclic(Keyed(env.reader, Applying(env, index, k, op, at).index)) <==>
            Throws(env, index[k].task) ||
            (AllClear(g, Parent, Targets(NodeOf(env.reader, after), Parent), after.id)
             && AllClear(g, Dep, Targets(NodeOf(env.reader, after), Dep), after.id))
  {
    var after := After(env, index, k, op);
    TagLineApplies(env, index, k, op, at);
    KeyedUpdate(env.reader, index, k, after);
    UpdateAcyclicIff(Keyed(env.reader, index), after.id, NodeOf(env.reader, after));
  }

  /** What the task named before is clear of it. */
  lemma {:induction false} BeforeIsClear(env: Env, index: seq<Entry>, k: nat, f: Field)
    requires Shown(index, k) && Acyclic(Keyed(env.reader, index))
    ensures AllClear(Keyed(env.reader, index), f, Targets(NodeOf(env.reader, index[k].task), f), index[k].task.id)
  {
    KeyedShown(env.reader, index, k);
    PresentIsClear(Keyed(env.reader, index), index[k].task.id, f);
  }

  // --- What adding and removing a tag does to the task's edges ------------------------------

  ghost predicate SameRefs(xs: seq<string>, ys: seq<string>) {
    forall s :: s in xs <==> s in ys
  }

  lemma {:induction false} TagParentSnoc(r: TagReader, tags: seq<string>, tag: string)
    ensures TagParent(r, tags + [tag]) == if TagParent(r, tags).Some? then TagParent(r, tags) else r.parentOf(tag)
  {
    if tags == [] {
      assert [tag][1..] == [];
    } else {
      assert (tags + [tag])[1..] == tags[1..] + [tag];
      TagParentSnoc(r, tags[1..], tag);
    }
  }

  lemma {:induction false} AddedTagNode(env: Env, index: seq<Entry>, k: nat, tag: string)
    requires k < |index| && !Stable(index[k].task, AddTag(tag))
    ensures var r, before, after := env.reader, index[k].task, After(env, index, k, AddTag(tag));
            && NodeOf(r, after).parent ==
               (if NodeOf(r, before).parent.Some? then NodeOf(r, before).parent else r.parentOf(tag))
            && (if before.dep.Some? || Repeats(r, before) || r.depOf(tag).None?
                then SameRefs(NodeOf(r, after).dep, NodeOf(r, before).dep)
                else NodeOf(r, after).dep == NodeOf(r, before).dep + [r.depOf(tag).value])
  {
    var tags := index[k].task.tags.GetOr([]);
    TagParentSnoc(env.reader, tags, tag);
    TagDepsSnoc(env.reader, tags, tag);
  }

  lemma {:induction false} RemovedTagNode(env: Env, index: seq<Entry>, k: nat, tag: string)
    requires k < |index| && !Stable(index[k].task, RemoveTag(tag))
    ensures var r, before, after := env.reader, index[k].task, After(env, index, k, RemoveTag(tag));
            && NodeOf(r, after).parent ==
               (if before.parent.Some? then before.parent else TagParent(r, Without(before.tags.GetOr([]), tag)))
            && forall s :: s in NodeOf(r, after).dep ==> s in NodeOf(r, before).dep
  {
    var r, before, after := env.reader, index[k].task, After(env, index, k, RemoveTag(tag));
    forall s | s in NodeOf(r, after).dep ensures s in NodeOf(r, before).dep {
      TagDepsAre(r, before.tags.GetOr([]), s);
      TagDepsAre(r, after.tags.GetOr([]), s);
    }
  }

  // --- Adding a tag that names a dep ----------------------------------------------------

  /**
   * A line that adds a dep tag leaves the graph acyclic exactly when a dep field
   * hides the tag, there or just written to drop repetitions, or the tag names
   * another task that does not already depend on this one.
   */
  lemma {:induction false} DepTagIsSafeIff(env: Env, index: seq<Entry>, k: nat, tag: string, x: string, at: nat)
    requires Tagging(env, index, k, AddTag(tag))
    requires env.reader.depOf(tag) == Some(x) && env.reader.parentOf(tag).None?
    ensures var before := index[k].task;
            Acyclic(Keyed(env.reader, Applying(env, index, k, AddTag(tag), at).index)) <==>
            before.dep.Some? || Repeats(env.reader, before) || Clear(Keyed(env.reader, index), Dep, x, before.id)
  {
    TagLineIsSafeIff(env, index, k, AddTag(tag), at);
    BeforeIsClear(env, index, k, Parent);
    BeforeIsClear(env, index, k, Dep);
    AddedTagNode(env, index, k, tag);
  }

  // --- Adding and removing a tag that names a parent --------------------------------------

  /**
   * A line that adds a parent tag leaves the graph acyclic exactly when it throws,
   * the task has a parent by field or an earlier tag already, or the tag names
   * another task that does not reach this one by parents.
   */
  lemma {:induction false} ParentTagIsSafeIff(env: Env, index: seq<Entry>, k: nat, tag: string, x: string, at: nat)
    requires Tagging(env, index, k, AddTag(tag))
    requires env.reader.parentOf(tag) == Some(x) && env.reader.depOf(tag).None?
    ensures var before := index[k].task;
            Acyclic(Keyed(env.reader, Applying(env, index, k, AddTag(tag), at).index)) <==>
            || Throws(env, before) || NodeOf(env.reader, before).parent.Some?
            || Clear(Keyed(env.reader, index), Parent, x, before.id)
  {
    TagLineIsSafeIff(env, index, k, AddTag(tag), at);
    BeforeIsClear(env, index, k, Parent);
    BeforeIsClear(env, index, k, Dep);
    AddedTagNode(env, index, k, tag);
  }

  /**
   * A line that removes a tag leaves the graph acyclic exactly when it throws, the
   * task has a parent field, or the first parent its remaining tags name, if any,
   * is another task that does not reach this one by parents.
   */
  lemma {:induction false} RemovedTagIsSafeIff(env: Env, index: seq<Entry>, k: nat, tag: string, at: nat)
    requires Tagging(env, index, k, RemoveTag(tag))
    ensures var before := index[k].task;
            var left := TagParent(env.reader, Without(before.tags.GetOr([]), tag));
            Acyclic(Keyed(env.reader, Applying(env, index, k, RemoveTag(tag), at).index)) <==>
            || Throws(env, before) || before.parent.Some? || left.None?
            || Clear(Keyed(env.reader, index), Parent, left.value, before.id)
  {
    TagLineIsSafeIff(env, index, k, RemoveTag(tag), at);
    BeforeIsClear(env, index, k, Parent);
    BeforeIsClear(env, index, k, Dep);
    RemovedTagNode(env, index, k, tag);
  }

  // --- One input each ------------------------------------------------------------------------

  /** Two tasks, the second of which names nothing yet or only what nobody else has. */
  function Two(a: Task, b: Task): seq<Entry> {
    [Entry("s", a), Entry("s", b)]
  }

  lemma {:induction false} TwoIs(r: TagReader, a: Task, b: Task)
    requires a.id != b.id
    ensures UniqueEntries(Two(a, b)) && Shown(Two(a, b), 1)
    ensures Keyed(r, Two(a, b)) == map[][a.id := NodeOf(r, a)][b.id := NodeOf(r, b)]
  {
    KeyedSnoc(r, [], Entry("s", a));
    KeyedSnoc(r, [Entry("s", a)], Entry("s", b));
    assert [] + [Entry("s", a)] == [Entry("s", a)];
    assert [Entry("s", a)] + [Entry("s", b)] == Two(a, b);
  }

  /** The first names the second, and what the second names nobody has: no cycle. */
  lemma {:induction false} TwoAcyclic(r: TagReader, a: Task, b: Task)
    requires a.id != b.id
    requires forall f, s :: s in Targets(NodeOf(r, a), f) ==> s == b.id
    requires forall f, s :: s in Targets(NodeOf(r, b), f) ==> s != a.id && s != b.id
    ensures Acyclic(Keyed(r, Two(a, b)))
  {
    var none: Graph := map[];
    TwoIs(r, a, b);
    forall f, id ensures !OnCycle(none, f, id) {
      LeavesGraph(none, f, id, id);
    }
    forall f, s | s in Targets(NodeOf(r, a), f) ensures Clear(none, f, s, a.id) {
      LeavesGraph(none, f, s, a.id);
    }
    UpdateAcyclicIff(none, a.id, NodeOf(r, a));
    var one := none[a.id := NodeOf(r, a)];
    forall f, s | s in Targets(NodeOf(r, b), f) ensures Clear(one, f, s, b.id) {
      LeavesGraph(one, f, s, b.id);
    }
    UpdateAcyclicIff(one, b.id, NodeOf(r, b));
  }

  lemma {:induction false} LeavesGraph(g: Graph, f: Field, s: string, id: string)
    requires s !in g
    ensures !Reaches(g, f, s, id)
  {
    assert forall p :: Connects(g, f, p, s, id) ==> Edge(g, f, p[0], p[1]);
  }

  lemma {:induction false} EdgeReaches(g: Graph, f: Field, a: string, b: string)
    requires Edge(g, f, a, b)
    ensures !Clear(g, f, a, b)
  {
    assert Connects(g, f, [a, b], a, b);
  }

  /** One add_tag line closes a dep cycle: the task it names depends on this one. */
  lemma {:induction false} DepTagEscapesCheck(env: Env, a: Task, b: Task, tag: string, at: nat)
    requires a.id != b.id && a.dep == Some([b.id]) && a.parent.None? && a.tags.None?
    requires b.dep.None? && b.parent.None? && b.tags.None?
    requires env.reader.depOf(tag) == Some(a.id) && env.reader.parentOf(tag).None?
    requires env.valid(After(env, Two(a, b), 1, AddTag(tag)))
    ensures var p := Applying(env, Two(a, b), 1, AddTag(tag), at);
            && Acyclic(Keyed(env.reader, Two(a, b)))
            && p.lines == [Result(TagLine(Two(a, b), 1, AddTag(tag), at), LineApplied, [AddTag(tag)])]
            && !Acyclic(Keyed(env.reader, p.index))
  {
    TwoIs(env.reader, a, b);
    TwoAcyclic(env.reader, a, b);
    EdgeReaches(Keyed(env.reader, Two(a, b)), Dep, a.id, b.id);
    TagLineApplies(env, Two(a, b), 1, AddTag(tag), at);
    DepTagIsSafeIff(env, Two(a, b), 1, tag, a.id, at);
  }

  /** One add_tag line closes a parent cycle: the task it names is a child of this one. */
  lemma {:induction false} ParentTagEscapesCheck(env: Env, a: Task, b: Task, tag: string, at: nat)
    requires a.id != b.id && a.parent == Some(b.id) && a.dep.None? && a.tags.None?
    requires b.dep.None? && b.parent.None? && b.tags.None?
    requires env.reader.parentOf(tag) == Some(a.id) && env.reader.depOf(tag).None?
    requires env.valid(After(env, Two(a, b), 1, AddTag(tag)))
    ensures var p := Applying(env, Two(a, b), 1, AddTag(tag), at);
            && Acyclic(Keyed(env.reader, Two(a, b)))
            && p.lines == [Result(TagLine(Two(a, b), 1, AddTag(tag), at), LineApplied, [AddTag(tag)])]
            && !Acyclic(Keyed(env.reader, p.index))
  {
    TwoIs(env.reader, a, b);
    TwoAcyclic(env.reader, a, b);
    EdgeReaches(Keyed(env.reader, Two(a, b)), Parent, a.id, b.id);
    TagLineApplies(env, Two(a, b), 1, AddTag(tag), at);
    ParentTagIsSafeIff(env, Two(a, b), 1, tag, a.id, at);
  }

  lemma {:induction false} TwoParentTags(r: TagReader, first: string, second: string)
    requires first != second && r.depOf(first).None? && r.depOf(second).None?
    requires r.parentOf(first).Some? && r.parentOf(second).Some?
    ensures TagDeps(r, [first, second]) == [] && TagParent(r, [first, second]) == r.parentOf(first)
    ensures TagParent(r, Without([first, second], first)) == r.parentOf(second)
  {
    assert [] + [first] == [first] && [first] + [second] == [first, second];
    TagDepsSnoc(r, [], first);
    TagDepsSnoc(r, [first], second);
    WithoutSnoc([], first, first);
    WithoutSnoc([first], second, first);
    assert [] + [second] == [second];
  }

  /** One remove_tag line closes a parent cycle: the tag it removes hid another that names a child. */
  lemma {:induction false} RemovalUncovers(env: Env, a: Task, b: Task, first: string, second: string, at: nat)
    requires a.id != b.id && a.parent == Some(b.id) && a.dep.None? && a.tags.None?
    requires b.dep.None? && b.parent.None? && b.tags == Some([first, second]) && first != second
    requires env.reader.depOf(first).None? && env.reader.depOf(second).None?
    requires env.reader.parentOf(first).Some? && env.reader.parentOf(first).value !in {a.id, b.id}
    requires env.reader.parentOf(second) == Some(a.id)
    requires env.valid(After(env, Two(a, b), 1, RemoveTag(first)))
    ensures var p := Applying(env, Two(a, b), 1, RemoveTag(first), at);
            && Acyclic(Keyed(env.reader, Two(a, b)))
            && p.lines == [Result(TagLine(Two(a, b), 1, RemoveTag(first), at), LineApplied, [RemoveTag(first)])]
            && !Acyclic(Keyed(env.reader, p.index))
  {
    var r := env.reader;
    TwoParentTags(r, first, second);
    TwoIs(r, a, b);
    TwoAcyclic(r, a, b);
    EdgeReaches(Keyed(r, Two(a, b)), Parent, a.id, b.id);
    TagLineApplies(env, Two(a, b), 1, RemoveTag(first), at);
    RemovedTagIsSafeIff(env, Two(a, b), 1, first, at);
  }
}
