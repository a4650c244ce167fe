/** What a line of ops makes of a task. */
module TaskMeaning {
  // src/commands/_task-apply-run.ts (applyOp, applyEdgeOp) and patchChange in src/commands/task-edit.ts, said
  // of the fields of the task: what each op asks for is there afterwards, and nothing else has changed.

  import opened Prelude
  import opened TaskEdges
  import opened TaskOps
  import opened TaskApplyRuns

  // --- Status, parent and the rest ----------------------------------------------------

  /** The parent the last op to set one sets, or the one there was. */
  function ParentAfter(ops: seq<Op>, was: Option<string>): Option<string> {
    if ops == [] then was
    else if ops[|ops| - 1].SetParent? then Some(ops[|ops| - 1].ref)
    else ParentAfter(ops[..|ops| - 1], was)
  }

  /** Whether a tag is there, by the last op about it, or else as it was. */
  function TagAfter(ops: seq<Op>, tag: string, was: bool): bool {
    if ops == [] then was
    else if ops[|ops| - 1] == AddTag(tag) then true
    else if ops[|ops| - 1] == RemoveTag(tag) then false
    else TagAfter(ops[..|ops| - 1], tag, was)
  }

  /** Done, and when, if that is asked for and it was not; everything else about the task is untouched. */
  ghost predicate PlainFields(t: Task, ops: seq<Op>, now: string, u: Task) {
    && u.id == t.id && u.rest == t.rest && u.updated == t.updated
    && u.parent == ParentAfter(ops, t.parent)
    && (if Done in ops && t.status != "done" then u.status == "done" && u.doneAt == Some(now)
        else u.status == t.status && u.doneAt == t.doneAt)
  }

  lemma {:induction false} OpPlainFields(r: TagReader, index: seq<Entry>, now: string, t: Task, op: Op)
    ensures PlainFields(t, [op], now, ApplyOp(r, index, now, t, op).task)
  {
    assert [op][..0] == [];
    assert ParentAfter([op], t.parent) == if op.SetParent? then Some(op.ref) else t.parent;
  }

  lemma {:induction false} OpsPlainFields(r: TagReader, index: seq<Entry>, now: string, t: Task, ops: seq<Op>)
    ensures PlainFields(t, ops, now, ApplyOps(r, index, now, t, ops).task)
    decreases |ops|
  {
    if ops != [] {
      var init, last := ops[..|ops| - 1], ops[|ops| - 1];
      OpsPlainFields(r, index, now, t, init);
      var mid := ApplyOps(r, index, now, t, init).task;
      OpPlainFields(r, index, now, mid, last);
      assert [last][..0] == [];
      assert ops == init + [last];
    }
  }

  // --- Tags -------------------------------------------------------------------------------

  /** A tag is added at the end, and removed without touching the others. */
  lemma {:induction false} OpTags(r: TagReader, index: seq<Entry>, now: string, t: Task, op: Op)
    ensures var was, tags := t.tags.GetOr([]), ApplyOp(r, index, now, t, op).task.tags.GetOr([]);
            match op
            case AddTag(tag) => tags == if tag in was then was else was + [tag]
            case RemoveTag(tag) => tags == Filter(was, (x: string) => x != tag)
            case _ => ApplyOp(r, index, now, t, op).task.tags == t.tags
  {
    match op {
      case RemoveTag(tag) =>
        WithoutIsFilter(t.tags.GetOr([]), tag);
        if tag !in t.tags.GetOr([]) {
          FilterAll(t.tags.GetOr([]), (x: string) => x != tag);
        }
      case _ =>
    }
  }

  lemma {:induction false} WithoutIsFilter(tags: seq<string>, tag: string)
    ensures TaskOps.Without(tags, tag) == Filter(tags, (x: string) => x != tag)
  {
    if tags != [] {
      WithoutIsFilter(tags[1..], tag);
    }
  }

  lemma {:induction false} OpsTags(r: TagReader, index: seq<Entry>, now: string, t: Task, ops: seq<Op>, tag: string)
    ensures tag in ApplyOps(r, index, now, t, ops).task.tags.GetOr([]) <==>
            TagAfter(ops, tag, tag in t.tags.GetOr([]))
    decreases |ops|
  {
    if ops != [] {
      var init, last := ops[..|ops| - 1], ops[|ops| - 1];
      OpsTags(r, index, now, t, init, tag);
      OpTags(r, index, now, ApplyOps(r, index, now, t, init).task, last);
    }
  }

  // --- Notes ---------------------------------------------------------------------------------

  /** A newline that ended the notes is kept for last. */
  lemma {:induction false} AppendBeforeNewline(m: string, line: string)
    requires '\n' !in line
    ensures Lines(m + "\n") == Lines(m) + [""]
    ensures Lines(m + "\n" + line + "\n") == Lines(m) + [line, ""]
  {
    LinesOfOne(line);
    assert m + "\n" == m + "\n" + "";
    LinesJoin(m, "");
    assert m + "\n" + line + "\n" == (m + "\n" + line) + "\n" + "";
    LinesJoin(m + "\n" + line, "");
    LinesJoin(m, line);
    ConcatAssoc(Lines(m), [line], [""]);
  }

  /** A line is appended after all others; a newline that ended the notes ends them again. */
  lemma {:induction false} AppendGoesLast(notes: Option<string>, line: string)
    requires '\n' !in line
    ensures var was, now := Lines(notes.GetOr("")), Lines(AppendLine(notes, line));
            if notes.GetOr("") == "" then now == [line]
            else if was[|was| - 1] == "" then now == was[..|was| - 1] + [line, ""]
            else now == was + [line]
  {
    var text := notes.GetOr("");
    if text == "" {
      LinesOfOne(line);
    } else if text[|text| - 1] == '\n' {
      var m := text[..|text| - 1];
      assert text == m + "\n";
      AppendBeforeNewline(m, line);
      assert (Lines(m) + [""])[..|Lines(m)|] == Lines(m);
    } else {
      LinesOfOne(line);
      LinesJoin(text, line);
      LastLine(text);
    }
  }

  /** Notes that do not end with a newline end with a line that is not empty. */
  lemma {:induction false} LastLine(text: string)
    requires text != "" && text[|text| - 1] != '\n'
    ensures Lines(text)[|Lines(text)| - 1] != ""
  {
    if |text| > 1 {
      LastLine(text[1..]);
    }
  }

  lemma {:induction false} OpNotes(r: TagReader, index: seq<Entry>, now: string, t: Task, op: Op, other: string)
    requires WellFormed(op) && other != ""
    ensures HasLine(ApplyOp(r, index, now, t, op).task.notes, other) <==> HasLine(t.notes, other) || op == AppendNote(other)
  {
    if op.AppendNote? {
      AppendKeepsLines(t.notes, op.line, other);
    }
  }

  lemma {:induction false} OpsNotes(
    r: TagReader, index: seq<Entry>, now: string, t: Task, ops: seq<Op>, other: string)
    requires OpsWellFormed(ops) && other != ""
    ensures HasLine(ApplyOps(r, index, now, t, ops).task.notes, other) <==>
            HasLine(t.notes, other) || AppendNote(other) in ops
    decreases |ops|
  {
    if ops != [] {
      var init, last := ops[..|ops| - 1], ops[|ops| - 1];
      assert ops == init + [last];
      OpsNotes(r, index, now, t, init, other);
      OpNotes(r, index, now, ApplyOps(r, index, now, t, init).task, last, other);
    }
  }

  // --- Deps -------------------------------------------------------------------------------------

  /** Some tag of the task, or one a line adds, names this id as a dep. */
  ghost predicate TagNames(r: TagReader, tags: seq<string>, ops: seq<Op>, x: string) {
    exists tag :: (tag in tags || AddTag(tag) in ops) && r.depOf(tag) == Some(x)
  }

  /** Carrying over keeps the order of the tags. */
  lemma {:induction false} CleanIsFilter(index: seq<Entry>, id: string, refs: seq<string>)
    ensures CleanRefs(index, id, refs) == Filter(refs, (x: string) => x != id && |Homes(index, x)| == 1)
  {
    if refs != [] {
      CleanIsFilter(index, id, refs[1..]);
    }
  }

  /** Writing the field for the first time carries over the tags' deps that are known, filed once and not the task. */
  lemma {:induction false} AddDepCarries(r: TagReader, index: seq<Entry>, now: string, t: Task, ref: string)
    requires ref !in t.dep.GetOr([])
    ensures var u := ApplyOp(r, index, now, t, AddDep(ref)).task;
            && u.dep.Some? && Distinct(u.dep.value)
            && forall x :: x in u.dep.value <==>
                 || x == ref
                 || (if t.dep.Some? then x in t.dep.value
                     else x != t.id && |Homes(index, x)| == 1 && TagNames(r, t.tags.GetOr([]), [], x))
  {
    forall x ensures x in Carried(r, index, t) <==>
      if t.dep.Some? then x in t.dep.value
      else x != t.id && |Homes(index, x)| == 1 && TagNames(r, t.tags.GetOr([]), [], x)
    {
      if t.dep.None? {
        CleanIs(index, t.id, TagDeps(r, t.tags.GetOr([])), x);
        TagDepsAre(r, t.tags.GetOr([]), x);
      }
    }
  }

  lemma {:induction false} CleanIs(index: seq<Entry>, id: string, refs: seq<string>, x: string)
    ensures x in CleanRefs(index, id, refs) <==> x in refs && x != id && |Homes(index, x)| == 1
  {
    if refs != [] {
      CleanIs(index, id, refs[1..], x);
      assert refs == [refs[0]] + refs[1..];
    }
  }

  /** The dep field loses no id, gains each one asked for, and beyond these only what tags name. */
  ghost predicate DepsGrow(r: TagReader, t: Task, ops: seq<Op>, u: Task, x: string) {
    && (x in t.dep.GetOr([]) ==> x in u.dep.GetOr([]))
    && (AddDep(x) in ops ==> x in u.dep.GetOr([]))
    && (x in u.dep.GetOr([]) ==> x in t.dep.GetOr([]) || AddDep(x) in ops || TagNames(r, t.tags.GetOr([]), ops, x))
  }

  lemma {:induction false} OpDeps(r: TagReader, index: seq<Entry>, now: string, t: Task, op: Op, x: string)
    ensures DepsGrow(r, t, [op], ApplyOp(r, index, now, t, op).task, x)
  {
    TagDepsAre(r, t.tags.GetOr([]), x);
    if op.AddDep? && op.ref !in t.dep.GetOr([]) {
      AddDepCarries(r, index, now, t, op.ref);
    }
  }

  /** What a tag names after some ops, a tag of the task or an added one names. */
  lemma {:induction false} NamesComeFrom(
    r: TagReader, index: seq<Entry>, now: string, t: Task, init: seq<Op>, last: Op, x: string)
    requires TagNames(r, ApplyOps(r, index, now, t, init).task.tags.GetOr([]), [last], x)
    ensures TagNames(r, t.tags.GetOr([]), init + [last], x)
  {
    var mid := ApplyOps(r, index, now, t, init).task;
    var tag :| (tag in mid.tags.GetOr([]) || AddTag(tag) in [last]) && r.depOf(tag) == Some(x);
    OpsTags(r, index, now, t, init, tag);
    if tag in mid.tags.GetOr([]) {
      TagsComeFrom(init, tag, tag in t.tags.GetOr([]));
    }
    assert tag in t.tags.GetOr([]) || AddTag(tag) in init + [last];
  }

  lemma {:induction false} DepsChain(r: TagReader, t: Task, init: seq<Op>, mid: Task, last: Op, u: Task, x: string)
    requires DepsGrow(r, t, init, mid, x) && DepsGrow(r, mid, [last], u, x)
    requires TagNames(r, t.tags.GetOr([]), init, x) ==> TagNames(r, t.tags.GetOr([]), init + [last], x)
    requires TagNames(r, mid.tags.GetOr([]), [last], x) ==> TagNames(r, t.tags.GetOr([]), init + [last], x)
    ensures DepsGrow(r, t, init + [last], u, x)
  {
    assert AddDep(x) in init + [last] <==> AddDep(x) in init || last == AddDep(x);
  }

  lemma {:induction false} MoreNames(r: TagReader, tags: seq<string>, init: seq<Op>, last: Op, x: string)
    requires TagNames(r, tags, init, x)
    ensures TagNames(r, tags, init + [last], x)
  {
    var tag :| (tag in tags || AddTag(tag) in init) && r.depOf(tag) == Some(x);
    assert tag in tags || AddTag(tag) in init + [last];
  }

  lemma {:induction false} OpsDeps(r: TagReader, index: seq<Entry>, now: string, t: Task, ops: seq<Op>, x: string)
    ensures DepsGrow(r, t, ops, ApplyOps(r, index, now, t, ops).task, x)
    decreases |ops|
  {
    if ops != [] {
      var init, last := ops[..|ops| - 1], ops[|ops| - 1];
      assert ops == init + [last];
      OpsDeps(r, index, now, t, init, x);
      var mid := ApplyOps(r, index, now, t, init).task;
      OpDeps(r, index, now, mid, last, x);
      if TagNames(r, mid.tags.GetOr([]), [last], x) {
        NamesComeFrom(r, index, now, t, init, last, x);
      }
      if TagNames(r, t.tags.GetOr([]), init, x) {
        MoreNames(r, t.tags.GetOr([]), init, last, x);
      }
      DepsChain(r, t, init, mid, last, ApplyOp(r, index, now, mid, last).task, x);
    }
  }

  /** A tag that is there was there, or is one an op adds. */
  lemma {:induction false} TagsComeFrom(ops: seq<Op>, tag: string, was: bool)
    requires TagAfter(ops, tag, was)
    ensures was || AddTag(tag) in ops
  {
    if ops != [] && ops[|ops| - 1] != AddTag(tag) {
      TagsComeFrom(ops[..|ops| - 1], tag, was);
    }
  }

  // --- The whole line ---------------------------------------------------------------------------

  /**
   * After a line: status, parent and tags are what the last op about each says; a note
   * is there if it was or is asked for; deps grow as asked and by what tags name; and
   * nothing else of the task has changed.
   */
  lemma {:induction false} LineMeans(
    r: TagReader, index: seq<Entry>, now: string, t: Task, ops: seq<Op>, tag: string, note: string, dep: string)
    requires OpsWellFormed(ops) && note != ""
    ensures var u := ApplyOps(r, index, now, t, ops).task;
            && PlainFields(t, ops, now, u)
            && (tag in u.tags.GetOr([]) <==> TagAfter(ops, tag, tag in t.tags.GetOr([])))
            && (HasLine(u.notes, note) <==> HasLine(t.notes, note) || AppendNote(note) in ops)
            && DepsGrow(r, t, ops, u, dep)
  {
    OpsPlainFields(r, index, now, t, ops);
    OpsTags(r, index, now, t, ops, tag);
    OpsNotes(r, index, now, t, ops, note);
    OpsDeps(r, index, now, t, ops, dep);
  }
}
