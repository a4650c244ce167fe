/** The ops of a `task apply` line. */
module TaskOps {
  // src/commands/_task-apply-plan.ts, src/commands/_task-apply-run.ts, patchChange in
  // src/commands/task-edit.ts; and exactly when applying the same ops again changes nothing.

  import opened Prelude
  import opened TaskEdges

  datatype Op =
    | AddTag(tag: string)
    | RemoveTag(tag: string)
    | AppendNote(line: string)
    | SetParent(ref: string)
    | AddDep(ref: string)
    | Done

  // --- Parsing one op ------------------------------------------------------

  datatype RawValue = Str(text: string) | True | OtherValue

  /** One element of `ops`, as far as JSON.parse decides it. */
  datatype RawOp = OneKey(key: string, value: RawValue) | NotOneKey

  function TrimLeft(text: string): string {
    if text != [] && IsBlankChar(text[0]) then TrimLeft(text[1..]) else text
  }

  function TrimRight(text: string): string {
    if text != [] && IsBlankChar(text[|text| - 1]) then TrimRight(text[..|text| - 1]) else text
  }

  /** The op, or None where parseOp throws; `idOk` is the schema's rule for task ids. */
  function ParseOp(raw: RawOp, idOk: string -> bool): (r: Option<Op>)
    ensures r.Some? ==> WellFormed(r.value)
  {
    match raw
    case NotOneKey => None
    case OneKey(key, value) =>
      if key == "add_tag" || key == "remove_tag" then
        var tag := if value.Str? then TrimRight(TrimLeft(value.text)) else "";
        if tag == "" || ',' in tag then None
        else if key == "add_tag" then Some(AddTag(tag)) else Some(RemoveTag(tag))
      else if key == "append" then
        if !value.Str? || IsBlank(value.text) || '\n' in value.text || '\r' in value.text then None
        else
          assert value.text != "";
          Some(AppendNote(value.text))
      else if key == "set_parent" || key == "add_dep" then
        if !value.Str? || !idOk(value.text) then None
        else if key == "set_parent" then Some(SetParent(value.text)) else Some(AddDep(value.text))
      else if key == "done" && value.True? then Some(Done)
      else None
  }

  /** What parsing guarantees of every op: one tag, one non-empty note line. */
  predicate WellFormed(op: Op) {
    match op
    case AddTag(t) => t != "" && ',' !in t
    case RemoveTag(t) => t != "" && ',' !in t
    case AppendNote(l) => l != "" && '\n' !in l
    case _ => true
  }

  // --- Notes as lines ---------------------------------------------------------

  /** text.split('\n') */
  function Lines(text: string): (r: seq<string>)
    ensures |r| >= 1
  {
    if text == "" then [""]
    else if text[0] == '\n' then [""] + Lines(text[1..])
    else
      var rest := Lines(text[1..]);
      [[text[0]] + rest[0]] + rest[1..]
  }

  lemma {:induction false} LinesOfOne(line: string)
    requires '\n' !in line
    ensures Lines(line) == [line]
  {
    if line != "" {
      assert line[0] in line;
      assert '\n' !in line[1..];
      LinesOfOne(line[1..]);
      assert [line[0]] + line[1..] == line;
    }
  }

  /** Splitting a join at the newline between the two parts. */
  lemma {:induction false} LinesJoin(a: string, b: string)
    ensures Lines(a + "\n" + b) == Lines(a) + Lines(b)
  {
    if a == "" {
      assert a + "\n" + b == "\n" + b;
      assert ("\n" + b)[1..] == b;
    } else {
      assert (a + "\n" + b)[1..] == a[1..] + "\n" + b;
      LinesJoin(a[1..], b);
    }
  }

  function AppendLine(notes: Option<string>, line: string): string {
    if notes.GetOr("") == "" then line
    else if notes.value[|notes.value| - 1] == '\n' then notes.value + line + "\n"
    else notes.value + "\n" + line
  }

  predicate HasLine(notes: Option<string>, line: string) {
    line in Lines(notes.GetOr(""))
  }

  /** An appended line is a line of the notes, and no line that was there is lost but the empty one. */
  lemma {:induction false} AppendKeepsLines(notes: Option<string>, line: string, other: string)
    requires '\n' !in line && other != ""
    ensures HasLine(Some(AppendLine(notes, line)), other) <==> other == line || HasLine(notes, other)
  {
    LinesOfOne(line);
    var text := notes.GetOr("");
    if text == "" {
    } else if text[|text| - 1] == '\n' {
      var m := text[..|text| - 1];
      assert text == m + "\n" + "";
      assert text + line + "\n" == (m + "\n" + line) + "\n" + "";
      LinesJoin(m, "");
      LinesJoin(m + "\n" + line, "");
      LinesJoin(m, line);
    } else {
      LinesJoin(text, line);
    }
  }

  // --- Applying ops --------------------------------------------------------------

  datatype Stepped = Stepped(task: Task, changed: bool)

  function Dedupe(refs: seq<string>): (r: seq<string>)
    ensures forall x :: x in r <==> x in refs
    ensures Distinct(r)
  {
    if refs == [] then []
    else
      var init := Dedupe(refs[..|refs| - 1]);
      var last := refs[|refs| - 1];
      if last in init then init else init + [last]
  }

  function Without(tags: seq<string>, tag: string): (r: seq<string>)
    ensures forall x :: x in r <==> x in tags && x != tag
  {
    if tags == [] then []
    else (if tags[0] == tag then [] else [tags[0]]) + Without(tags[1..], tag)
  }

  /** Tag-only deps worth carrying into the field: known, filed once, not the task itself. */
  function Carried(r: TagReader, entries: seq<Entry>, t: Task): seq<string> {
    if t.dep.Some? then t.dep.value else CleanRefs(entries, t.id, TagDeps(r, t.tags.GetOr([])))
  }

  function CleanRefs(entries: seq<Entry>, id: string, refs: seq<string>): (r: seq<string>)
    ensures forall x :: x in r ==> x in refs && x != id
  {
    if refs == [] then []
    else (if refs[0] != id && |Homes(entries, refs[0])| == 1 then [refs[0]] else []) + CleanRefs(entries, id, refs[1..])
  }

  /** The task's deps, field or tags, name an id twice. */
  predicate Repeats(r: TagReader, t: Task) {
    Dedupe(NodeOf(r, t).dep) != NodeOf(r, t).dep
  }

  /** patchChange writes the deps back without repetitions, whatever else it was asked for. */
  function Patched(r: TagReader, t: Task): Task {
    if Repeats(r, t) then t.(dep := Some(Dedupe(NodeOf(r, t).dep))) else t
  }

  function ApplyOp(r: TagReader, entries: seq<Entry>, now: string, t: Task, op: Op): Stepped {
    match op
    case Done =>
      if t.status == "done" then Stepped(t, false)
      else Stepped(t.(status := "done", doneAt := Some(now)), true)
    case SetParent(ref) =>
      if t.parent == Some(ref) then Stepped(t, false) else Stepped(t.(parent := Some(ref)), true)
    case AddDep(ref) =>
      if ref in t.dep.GetOr([]) then Stepped(t, false)
      else Stepped(t.(dep := Some(Dedupe(Carried(r, entries, t) + [ref]))), true)
    case AddTag(tag) =>
      if tag in t.tags.GetOr([]) then Stepped(Patched(r, t), Repeats(r, t))
      else Stepped(Patched(r, t).(tags := Some(t.tags.GetOr([]) + [tag])), true)
    case RemoveTag(tag) =>
      if tag in t.tags.GetOr([]) then Stepped(Patched(r, t).(tags := Some(Without(t.tags.GetOr([]), tag))), true)
      else Stepped(Patched(r, t), Repeats(r, t))
    case AppendNote(line) =>
      if HasLine(t.notes, line) then Stepped(t, false)
      else Stepped(Patched(r, t).(notes := Some(AppendLine(t.notes, line))), true)
  }

  /** The task after all ops, and the ops that changed something. */
  datatype Applied = Applied(task: Task, changes: seq<Op>)

  function ApplyOps(r: TagReader, entries: seq<Entry>, now: string, t: Task, ops: seq<Op>): Applied
    decreases |ops|
  {
    if ops == [] then Applied(t, [])
    else
      var before := ApplyOps(r, entries, now, t, ops[..|ops| - 1]);
      var step := ApplyOp(r, entries, now, before.task, ops[|ops| - 1]);
      Applied(step.task, before.changes + (if step.changed then [ops[|ops| - 1]] else []))
  }

  lemma {:induction false} OneOp(r: TagReader, index: seq<Entry>, now: string, t: Task, op: Op)
    ensures var step := ApplyOp(r, index, now, t, op);
            ApplyOps(r, index, now, t, [op]) == Applied(step.task, if step.changed then [op] else [])
  {
    assert [op][..0] == [];
    assert ApplyOps(r, index, now, t, [op][..0]) == Applied(t, []);
    assert [] + [op] == [op];
  }

  // --- Doing it again ---------------------------------------------------------------

  /** What the op asks for already holds. */
  predicate Stable(t: Task, op: Op) {
    match op
    case Done => t.status == "done"
    case SetParent(ref) => t.parent == Some(ref)
    case AddDep(ref) => ref in t.dep.GetOr([])
    case AddTag(tag) => tag in t.tags.GetOr([])
    case RemoveTag(tag) => tag !in t.tags.GetOr([])
    case AppendNote(line) => HasLine(t.notes, line)
  }

  /** One tag both added and removed, or two different parents. */
  predicate Conflict(a: Op, b: Op) {
    match (a, b)
    case (AddTag(x), RemoveTag(y)) => x == y
    case (RemoveTag(x), AddTag(y)) => x == y
    case (SetParent(x), SetParent(y)) => x != y
    case _ => false
  }

  ghost predicate Harmonious(ops: seq<Op>) {
    forall i, j :: 0 <= i < j < |ops| ==> !Conflict(ops[i], ops[j])
  }

  ghost predicate AllStable(t: Task, ops: seq<Op>) {
    forall i :: 0 <= i < |ops| ==> Stable(t, ops[i])
  }

  predicate TagOp(op: Op) {
    op.AddTag? || op.RemoveTag?
  }

  /** The op finds nothing to do: it holds, and if it is a tag op no dep is listed twice. */
  predicate Idle(r: TagReader, t: Task, op: Op) {
    Stable(t, op) && (TagOp(op) ==> !Repeats(r, t))
  }

  ghost predicate AllIdle(r: TagReader, t: Task, ops: seq<Op>) {
    forall i :: 0 <= i < |ops| ==> Idle(r, t, ops[i])
  }

  lemma {:induction false} AllIdleIs(r: TagReader, t: Task, ops: seq<Op>)
    ensures AllIdle(r, t, ops) <==> AllStable(t, ops) && (HasTagOp(ops) ==> !Repeats(r, t))
  {
  }

  ghost predicate HasTagOp(ops: seq<Op>) {
    exists i :: 0 <= i < |ops| && TagOp(ops[i])
  }

  /** An op changes nothing exactly when it is idle, and holds once applied. */
  lemma {:induction false} OpSettles(r: TagReader, entries: seq<Entry>, now: string, t: Task, op: Op)
    requires WellFormed(op)
    ensures var step := ApplyOp(r, entries, now, t, op);
            && (step.changed <==> !Idle(r, t, op)) && (!step.changed ==> step.task == t)
            && Stable(step.task, op)
  {
    if op.AppendNote? {
      AppendKeepsLines(t.notes, op.line, op.line);
    }
  }

  /** An op unsettles another only if the two conflict. */
  lemma {:induction false} OpKeepsStable(r: TagReader, entries: seq<Entry>, now: string, t: Task, op: Op, other: Op)
    requires WellFormed(op) && WellFormed(other) && !Conflict(other, op) && Stable(t, other)
    ensures Stable(ApplyOp(r, entries, now, t, op).task, other)
  {
    if op.AppendNote? && other.AppendNote? {
      AppendKeepsLines(t.notes, op.line, other.line);
    }
  }

  /** Conflicting ops are never both settled. */
  lemma {:induction false} ConflictUnstable(t: Task, a: Op, b: Op)
    requires Conflict(a, b)
    ensures !Stable(t, a) || !Stable(t, b)
  {
  }

  lemma {:induction false} OpsKeepStable(
    r: TagReader, entries: seq<Entry>, now: string, t: Task, ops: seq<Op>, other: Op)
    requires WellFormed(other) && Stable(t, other)
    requires forall i :: 0 <= i < |ops| ==> WellFormed(ops[i]) && !Conflict(other, ops[i])
    ensures Stable(ApplyOps(r, entries, now, t, ops).task, other)
    decreases |ops|
  {
    if ops != [] {
      OpsKeepStable(r, entries, now, t, ops[..|ops| - 1], other);
      OpKeepsStable(r, entries, now, ApplyOps(r, entries, now, t, ops[..|ops| - 1]).task, ops[|ops| - 1], other);
    }
  }

  /** Ops are reported as changing nothing exactly when each is idle. */
  lemma {:induction false} NoChangesIff(r: TagReader, entries: seq<Entry>, now: string, t: Task, ops: seq<Op>)
    requires forall i :: 0 <= i < |ops| ==> WellFormed(ops[i])
    ensures ApplyOps(r, entries, now, t, ops).changes == [] <==> AllIdle(r, t, ops)
    ensures ApplyOps(r, entries, now, t, ops).changes == [] ==> ApplyOps(r, entries, now, t, ops).task == t
    decreases |ops|
  {
    if ops != [] {
      var init, last := ops[..|ops| - 1], ops[|ops| - 1];
      NoChangesIff(r, entries, now, t, init);
      var before := ApplyOps(r, entries, now, t, init);
      OpSettles(r, entries, now, before.task, last);
      if AllIdle(r, t, ops) {
        assert forall i :: 0 <= i < |init| ==> init[i] == ops[i];
        assert AllIdle(r, t, init);
      }
      if AllIdle(r, t, init) && Idle(r, t, last) {
        assert forall i :: 0 <= i < |ops| ==> ops[i] == if i < |init| then init[i] else last;
      }
    }
  }

  lemma {:induction false} OpsAllStable(r: TagReader, entries: seq<Entry>, now: string, t: Task, ops: seq<Op>)
    requires Harmonious(ops) && forall i :: 0 <= i < |ops| ==> WellFormed(ops[i])
    ensures AllStable(ApplyOps(r, entries, now, t, ops).task, ops)
    decreases |ops|
  {
    if ops != [] {
      var init, last := ops[..|ops| - 1], ops[|ops| - 1];
      OpsAllStable(r, entries, now, t, init);
      var before := ApplyOps(r, entries, now, t, init).task;
      forall i | 0 <= i < |ops| ensures Stable(ApplyOps(r, entries, now, t, ops).task, ops[i]) {
        if i < |init| {
          assert Stable(before, init[i]);
          OpKeepsStable(r, entries, now, before, last, ops[i]);
        } else {
          OpSettles(r, entries, now, before, last);
        }
      }
    }
  }

  // --- What ops do to the edges ---------------------------------------------------------

  /** No tag op of the list names an edge, but a dep tag may be removed. */
  predicate LeavesTagEdges(r: TagReader, ops: seq<Op>) {
    forall i :: 0 <= i < |ops| ==>
      match ops[i]
      case AddTag(tag) => r.depOf(tag).None? && r.parentOf(tag).None?
      case RemoveTag(tag) => r.parentOf(tag).None?
      case _ => true
  }

  lemma {:induction false} TagDepsAre(r: TagReader, tags: seq<string>, x: string)
    ensures x in TagDeps(r, tags) <==> exists t :: t in tags && r.depOf(t) == Some(x)
    decreases |tags|
  {
    if tags != [] {
      TagDepsAre(r, tags[..|tags| - 1], x);
      assert forall t :: t in tags <==> t in tags[..|tags| - 1] || t == tags[|tags| - 1];
    }
  }

  lemma {:induction false} TagParentAppend(r: TagReader, tags: seq<string>, tag: string)
    requires r.parentOf(tag).None?
    ensures TagParent(r, tags + [tag]) == TagParent(r, tags)
  {
    if tags == [] {
      assert [tag][1..] == [];
    } else {
      assert (tags + [tag])[1..] == tags[1..] + [tag];
      TagParentAppend(r, tags[1..], tag);
    }
  }

  lemma {:induction false} TagParentWithout(r: TagReader, tags: seq<string>, tag: string)
    requires r.parentOf(tag).None?
    ensures TagParent(r, Without(tags, tag)) == TagParent(r, tags)
  {
    if tags != [] {
      TagParentWithout(r, tags[1..], tag);
      if tags[0] != tag {
        assert ([tags[0]] + Without(tags[1..], tag))[1..] == Without(tags[1..], tag);
      } else {
        assert Without(tags, tag) == Without(tags[1..], tag);
      }
    }
  }

  /** Every tag edge of `after` is one of `before`, and the tag parent is the same. */
  ghost predicate TagEdgesShrink(r: TagReader, before: Task, after: Task) {
    && TagParent(r, after.tags.GetOr([])) == TagParent(r, before.tags.GetOr([]))
    && forall x :: x in TagDeps(r, after.tags.GetOr([])) ==> x in TagDeps(r, before.tags.GetOr([]))
  }

  lemma {:induction false} OpShrinksTagEdges(r: TagReader, entries: seq<Entry>, now: string, t: Task, op: Op)
    requires LeavesTagEdges(r, [op])
    ensures TagEdgesShrink(r, t, ApplyOp(r, entries, now, t, op).task)
  {
    assert [op][0] == op;
    var tags, tags' := t.tags.GetOr([]), ApplyOp(r, entries, now, t, op).task.tags.GetOr([]);
    match op {
      case AddTag(tag) => TagParentAppend(r, tags, tag);
      case RemoveTag(tag) => TagParentWithout(r, tags, tag);
      case _ =>
    }
    forall x | x in TagDeps(r, tags') ensures x in TagDeps(r, tags) {
      TagDepsAre(r, tags, x);
      TagDepsAre(r, tags', x);
    }
  }

  /** The fields change only so: a parent is set, a dep list gains an id it lacked or loses its repetitions. */
  ghost predicate FieldsGrow(before: Task, after: Task) {
    && after.id == before.id
    && (after.parent == before.parent || after.parent.Some?)
    && (after.dep == before.dep ||
        (after.dep.Some? && (Gains(after.dep.value, before.dep.GetOr([]))
                             || (Dedupe(after.dep.value) == after.dep.value
                                 && Dedupe(before.dep.GetOr([])) != before.dep.GetOr([])))))
  }

  ghost predicate Gains(after: seq<string>, before: seq<string>) {
    exists v :: v in after && v !in before
  }

  lemma {:induction false} DedupeSettles(refs: seq<string>)
    ensures Dedupe(Dedupe(refs)) == Dedupe(refs)
    ensures |Dedupe(refs)| <= |refs|
  {
    if refs != [] {
      var init, last := Dedupe(refs[..|refs| - 1]), refs[|refs| - 1];
      DedupeSettles(refs[..|refs| - 1]);
      if last !in init {
        assert (init + [last])[..|init|] == init;
      }
    }
  }

  lemma {:induction false} PatchGrowsFields(r: TagReader, t: Task)
    ensures FieldsGrow(t, Patched(r, t))
  {
    var refs := NodeOf(r, t).dep;
    DedupeSettles(refs);
    if Repeats(r, t) && t.dep.None? {
      assert refs != [] && refs[0] in Dedupe(refs);
    }
  }

  lemma {:induction false} OpGrowsFields(r: TagReader, entries: seq<Entry>, now: string, t: Task, op: Op)
    ensures FieldsGrow(t, ApplyOp(r, entries, now, t, op).task)
  {
    if op.AddDep? {
      assert op.ref in Dedupe(Carried(r, entries, t) + [op.ref]);
    } else {
      PatchGrowsFields(r, t);
    }
  }

  lemma {:induction false} FieldsGrowOn(r: TagReader, entries: seq<Entry>, now: string, t: Task, mid: Task, op: Op)
    requires FieldsGrow(t, mid)
    ensures FieldsGrow(t, ApplyOp(r, entries, now, mid, op).task)
  {
    var after := ApplyOp(r, entries, now, mid, op).task;
    OpGrowsFields(r, entries, now, mid, op);
    if after.dep != mid.dep && mid.dep != t.dep {
      if Gains(mid.dep.value, t.dep.GetOr([])) {
        var v :| v in mid.dep.value && v !in t.dep.GetOr([]);
        assert v in after.dep.value;
      } else if op.AddDep? {
        DedupeSettles(Carried(r, entries, mid) + [op.ref]);
      }
    }
  }

  lemma {:induction false} OpsOnEdges(r: TagReader, entries: seq<Entry>, now: string, t: Task, ops: seq<Op>)
    ensures FieldsGrow(t, ApplyOps(r, entries, now, t, ops).task)
    ensures LeavesTagEdges(r, ops) ==> TagEdgesShrink(r, t, ApplyOps(r, entries, now, t, ops).task)
    decreases |ops|
  {
    if ops != [] {
      var init, last := ops[..|ops| - 1], ops[|ops| - 1];
      OpsOnEdges(r, entries, now, t, init);
      var before := ApplyOps(r, entries, now, t, init).task;
      FieldsGrowOn(r, entries, now, t, before, last);
      if LeavesTagEdges(r, ops) {
        assert LeavesTagEdges(r, init) by {
          assert forall i :: 0 <= i < |init| ==> init[i] == ops[i];
        }
        assert LeavesTagEdges(r, [last]);
        OpShrinksTagEdges(r, entries, now, before, last);
      }
    }
  }

  // --- What the index is asked -----------------------------------------------------------

  predicate EdgeOp(op: Op) {
    op.SetParent? || op.AddDep?
  }

  predicate NoEdgeOps(ops: seq<Op>) {
    forall i :: 0 <= i < |ops| ==> !EdgeOp(ops[i])
  }

  lemma {:induction false} OpIgnoresIndex(r: TagReader, xs: seq<Entry>, ys: seq<Entry>, now: string, t: Task, op: Op)
    requires !EdgeOp(op)
    ensures ApplyOp(r, xs, now, t, op) == ApplyOp(r, ys, now, t, op)
  {
  }

  /** Only an added dep looks anything up. */
  lemma {:induction false} OpsIgnoreIndex(
    r: TagReader, xs: seq<Entry>, ys: seq<Entry>, now: string, t: Task, ops: seq<Op>)
    requires NoEdgeOps(ops)
    ensures ApplyOps(r, xs, now, t, ops) == ApplyOps(r, ys, now, t, ops)
    decreases |ops|
  {
    if ops != [] {
      assert forall i :: 0 <= i < |ops| - 1 ==> ops[..|ops| - 1][i] == ops[i];
      OpsIgnoreIndex(r, xs, ys, now, t, ops[..|ops| - 1]);
      OpIgnoresIndex(r, xs, ys, now, ApplyOps(r, xs, now, t, ops[..|ops| - 1]).task, ops[|ops| - 1]);
    }
  }

  // --- Deps listed twice -------------------------------------------------------------------

  lemma {:induction false} WithoutSnoc(tags: seq<string>, last: string, tag: string)
    ensures Without(tags + [last], tag) == if last == tag then Without(tags, tag) else Without(tags, tag) + [last]
  {
    if tags == [] {
      assert [last][1..] == [];
    } else {
      assert (tags + [last])[1..] == tags[1..] + [last];
      WithoutSnoc(tags[1..], last, tag);
    }
  }

  lemma {:induction false} TagDepsSnoc(r: TagReader, tags: seq<string>, last: string)
    ensures TagDeps(r, tags + [last]) ==
            match r.depOf(last) case Some(id) => TagDeps(r, tags) + [id] case None => TagDeps(r, tags)
  {
    assert (tags + [last])[..|tags|] == tags;
    assert TagDeps(r, tags) + [] == TagDeps(r, tags);
  }

  lemma {:induction false} DistinctSnoc(xs: seq<string>, x: string)
    ensures Distinct(xs + [x]) <==> Distinct(xs) && x !in xs
  {
    var all := xs + [x];
    if Distinct(all) {
      assert forall i :: 0 <= i < |xs| ==> xs[i] == all[i];
      assert all[|xs|] == x;
    }
  }

  lemma {:induction false} DedupeIsSameIff(refs: seq<string>)
    ensures Dedupe(refs) == refs <==> Distinct(refs)
  {
    if Distinct(refs) && refs != [] {
      var init, last := refs[..|refs| - 1], refs[|refs| - 1];
      assert init + [last] == refs;
      DistinctSnoc(init, last);
      DedupeIsSameIff(init);
    }
  }

  lemma {:induction false} FewerTagsDistinct(r: TagReader, tags: seq<string>, tag: string)
    requires Distinct(TagDeps(r, tags))
    ensures Distinct(TagDeps(r, Without(tags, tag)))
    decreases |tags|
  {
    if tags != [] {
      var init, last := tags[..|tags| - 1], tags[|tags| - 1];
      assert init + [last] == tags;
      TagDepsSnoc(r, init, last);
      WithoutSnoc(init, last, tag);
      TagDepsSnoc(r, Without(init, tag), last);
      if r.depOf(last).Some? {
        var id := r.depOf(last).value;
        DistinctSnoc(TagDeps(r, init), id);
        FewerTagsDistinct(r, init, tag);
        TagDepsAre(r, init, id);
        TagDepsAre(r, Without(init, tag), id);
        DistinctSnoc(TagDeps(r, Without(init, tag)), id);
      } else {
        FewerTagsDistinct(r, init, tag);
      }
    }
  }

  /** Ops that name no edge by a tag repeat no dep, and a tag op ends what repetition there was. */
  lemma {:induction false} OpRepeatsNothing(r: TagReader, entries: seq<Entry>, now: string, t: Task, op: Op)
    requires LeavesTagEdges(r, [op]) && (!Repeats(r, t) || TagOp(op))
    ensures !Repeats(r, ApplyOp(r, entries, now, t, op).task)
  {
    assert [op][0] == op;
    var after := ApplyOp(r, entries, now, t, op).task;
    var tags := t.tags.GetOr([]);
    DedupeSettles(NodeOf(r, t).dep);
    DedupeIsSameIff(NodeOf(r, t).dep);
    match op {
      case AddTag(tag) => TagDepsSnoc(r, tags, tag);
      case RemoveTag(tag) =>
        if after.dep.None? {
          FewerTagsDistinct(r, tags, tag);
          DedupeIsSameIff(NodeOf(r, after).dep);
        }
      case AddDep(ref) =>
        DedupeSettles(Carried(r, entries, t) + [ref]);
      case _ =>
    }
  }

  lemma {:induction false} OpsRepeatNothing(r: TagReader, entries: seq<Entry>, now: string, t: Task, ops: seq<Op>)
    requires LeavesTagEdges(r, ops) && (!Repeats(r, t) || HasTagOp(ops))
    ensures !Repeats(r, ApplyOps(r, entries, now, t, ops).task)
    decreases |ops|
  {
    if ops != [] {
      var init, last := ops[..|ops| - 1], ops[|ops| - 1];
      assert forall i :: 0 <= i < |init| ==> init[i] == ops[i];
      assert LeavesTagEdges(r, init) && LeavesTagEdges(r, [last]);
      if !TagOp(last) {
        assert HasTagOp(ops) ==> HasTagOp(init);
        OpsRepeatNothing(r, entries, now, t, init);
      }
      OpRepeatsNothing(r, entries, now, ApplyOps(r, entries, now, t, init).task, last);
    }
  }
}
