/** Task numbers are never issued twice. */
module TaskIds {
  // src/commands/task-add.ts, task-delete.ts, src/utils/task-seq.ts; and what archiving does to
  // that (src/bootstrap/archive-tasks.ts).

  import opened Prelude

  /** task_seq in the brief: absent, a stored high-water mark, or a value the schema refuses. */
  datatype Mark = Absent | Stored(value: nat) | Corrupt

  /** A file in tasks/: the number in its name, and the one in its id when it can be read. */
  datatype TaskFile = TaskFile(number: nat, inner: Option<nat>)

  datatype Ledger = Ledger(files: seq<TaskFile>, archived: seq<TaskFile>, mark: Mark)

  function MaxName(files: seq<TaskFile>): nat {
    if files == [] then 0
    else var m := MaxName(files[..|files| - 1]); var n := files[|files| - 1].number; if n > m then n else m
  }

  function MaxInner(files: seq<TaskFile>): nat {
    if files == [] then 0
    else var m := MaxInner(files[..|files| - 1]); var n := files[|files| - 1].inner.GetOr(0); if n > m then n else m
  }

  function Larger(a: nat, b: nat): nat {
    if a > b then a else b
  }

  /** readTaskSeq: an absent mark reads as 0, a corrupt one is an error. */
  function ReadMark(mark: Mark): Option<nat> {
    match mark
    case Absent => Some(0)
    case Stored(value) => Some(value)
    case Corrupt => None
  }

  /** The number the next task gets; None when the mark is corrupt. */
  function NextNumber(l: Ledger): Option<nat> {
    match ReadMark(l.mark)
    case None => None
    case Some(mark) => Some(Larger(mark, Larger(MaxInner(l.files), MaxName(l.files))) + 1)
  }

  /** Position of the file of task `n`. */
  function FileOf(files: seq<TaskFile>, n: nat): (r: Option<nat>)
    ensures r.Some? ==> r.value < |files| && files[r.value].number == n
    ensures r.None? ==> forall i :: 0 <= i < |files| ==> files[i].number != n
  {
    if files == [] then None
    else if files[|files| - 1].number == n then Some(|files| - 1)
    else FileOf(files[..|files| - 1], n)
  }

  function Without(files: seq<TaskFile>, i: nat): seq<TaskFile>
    requires i < |files|
  {
    files[..i] + files[i + 1..]
  }

  datatype Command =
    | Add
    | Delete(number: nat, crashes: bool)
    | Archive(number: nat)

  function AddTask(l: Ledger): Ledger {
    match NextNumber(l)
    case None => l
    case Some(n) => l.(files := l.files + [TaskFile(n, Some(n))])
  }

  /** The mark is raised first when the highest number goes; a crash may stop before the file is removed. */
  function Raised(l: Ledger, n: nat): Option<Ledger> {
    if n != MaxName(l.files) then Some(l)
    else
      match ReadMark(l.mark)
      case None => None
      case Some(stored) => Some(if stored < n then l.(mark := Stored(n)) else l)
  }

  function DeleteTask(l: Ledger, n: nat, crashes: bool): Ledger {
    match FileOf(l.files, n)
    case None => l
    case Some(i) =>
      match Raised(l, n)
      case None => l
      case Some(raised) => if crashes then raised else raised.(files := Without(l.files, i))
  }

  /** The bootstrap moves a stale done task out of the directory that add and delete look at. */
  function ArchiveTask(l: Ledger, n: nat): Ledger {
    match FileOf(l.files, n)
    case None => l
    case Some(i) => l.(files := Without(l.files, i), archived := l.archived + [l.files[i]])
  }

  function Execute(l: Ledger, c: Command): Ledger {
    match c
    case Add => AddTask(l)
    case Delete(n, crashes) => DeleteTask(l, n, crashes)
    case Archive(n) => ArchiveTask(l, n)
  }

  function Issues(l: Ledger, c: Command): seq<nat> {
    if c.Add? && NextNumber(l).Some? then [NextNumber(l).value] else []
  }

  /** The ledger after a run, and every number issued: those before it and those it issues. */
  datatype History = History(ledger: Ledger, issued: seq<nat>)

  function Step(h: History, c: Command): History {
    History(Execute(h.ledger, c), h.issued + Issues(h.ledger, c))
  }

  function Run(h: History, cs: seq<Command>): History {
    if cs == [] then h else Step(Run(h, cs[..|cs| - 1]), cs[|cs| - 1])
  }

  // --- The two maxima ----------------------------------------------------------------

  lemma {:induction false} MaxNameIs(files: seq<TaskFile>)
    ensures forall i :: 0 <= i < |files| ==> files[i].number <= MaxName(files)
    ensures MaxName(files) == 0 || exists i :: 0 <= i < |files| && files[i].number == MaxName(files)
  {
    if files != [] {
      var init := files[..|files| - 1];
      MaxNameIs(init);
      if files[|files| - 1].number > MaxName(init) {
        assert files[|files| - 1].number == MaxName(files);
      } else if MaxName(init) > 0 {
        var i :| 0 <= i < |init| && init[i].number == MaxName(init);
        assert files[i].number == MaxName(files);
      }
    }
  }

  lemma {:induction false} MaxInnerIs(files: seq<TaskFile>)
    ensures forall i :: 0 <= i < |files| && files[i].inner.Some? ==> files[i].inner.value <= MaxInner(files)
    ensures MaxInner(files) == 0 || exists i :: 0 <= i < |files| && files[i].inner == Some(MaxInner(files))
  {
    if files != [] {
      var init := files[..|files| - 1];
      MaxInnerIs(init);
      var m := MaxInner(files);
      if m > 0 && files[|files| - 1].inner != Some(m) {
        var i :| 0 <= i < |init| && init[i].inner == Some(m);
        assert files[i].inner == Some(m);
      }
    }
  }

  /** `m` is the mark, or the number in the name or in the id of a file. */
  ghost predicate Seen(l: Ledger, m: nat) {
    || l.mark == Stored(m)
    || exists i :: 0 <= i < |l.files| && (l.files[i].number == m || l.files[i].inner == Some(m))
  }

  /** The next number is one above the greatest there is, and there is one unless the mark is corrupt. */
  lemma {:induction false} NextIs(l: Ledger)
    ensures NextNumber(l).None? <==> l.mark.Corrupt?
    ensures NextNumber(l).Some? ==>
      var n := NextNumber(l).value;
      n > 0 && (forall m: nat :: Seen(l, m) ==> m < n) && (n == 1 || Seen(l, n - 1))
  {
    MaxNameIs(l.files);
    MaxInnerIs(l.files);
  }

  lemma {:induction false} MaxSnoc(files: seq<TaskFile>, f: TaskFile)
    ensures MaxName(files + [f]) == Larger(f.number, MaxName(files))
  {
    assert (files + [f])[..|files|] == files;
  }

  lemma {:induction false} MaxWithout(files: seq<TaskFile>, i: nat)
    requires i < |files|
    ensures MaxName(Without(files, i)) <= MaxName(files)
    ensures files[i].number < MaxName(files) ==> MaxName(Without(files, i)) == MaxName(files)
  {
    var rest := Without(files, i);
    MaxNameIs(files);
    MaxNameIs(rest);
    if k :| 0 <= k < |rest| && rest[k].number == MaxName(rest) {
      assert rest[k] == files[if k < i then k else k + 1];
    }
    if j :| 0 <= j < |files| && j != i && files[j].number == MaxName(files) {
      assert rest[if j < i then j else j - 1] == files[j];
    }
  }

  /** Archiving loses no file: the last one with the number, if there is one, goes to the end of the archive. */
  lemma {:induction false} ArchiveMoves(l: Ledger, n: nat)
    ensures var next := ArchiveTask(l, n);
            && multiset(next.files) + multiset(next.archived) == multiset(l.files) + multiset(l.archived)
            && next.mark == l.mark && l.archived <= next.archived
            && (if exists i :: 0 <= i < |l.files| && l.files[i].number == n
                then |next.archived| == |l.archived| + 1 && next.archived[|l.archived|].number == n
                else next == l)
  {
    var at := FileOf(l.files, n);
    if at.Some? {
      var i := at.value;
      assert l.files == l.files[..i] + [l.files[i]] + l.files[i + 1..];
    }
  }

  // --- Adds and deletes never reissue --------------------------------------------------

  function MarkValue(mark: Mark): nat {
    ReadMark(mark).GetOr(0)
  }

  /** What an add counts on: the mark, or the highest file name left. */
  function Top(l: Ledger): nat {
    Larger(MarkValue(l.mark), MaxName(l.files))
  }

  predicate Floor(l: Ledger, n: nat) {
    n <= Top(l)
  }

  ghost predicate Covered(h: History) {
    forall i :: 0 <= i < |h.issued| ==> Floor(h.ledger, h.issued[i])
  }

  lemma {:induction false} DeleteKeepsFloor(l: Ledger, n: nat, crashes: bool, k: nat)
    requires Floor(l, k)
    ensures Floor(DeleteTask(l, n, crashes), k)
  {
    var at := FileOf(l.files, n);
    if at.Some? && Raised(l, n).Some? {
      MaxNameIs(l.files);
      MaxWithout(l.files, at.value);
    }
  }

  lemma {:induction false} AddKeepsFloor(l: Ledger, k: nat)
    requires Floor(l, k)
    ensures Floor(AddTask(l), k)
    ensures NextNumber(l).Some? ==> Floor(AddTask(l), NextNumber(l).value) && !Floor(l, NextNumber(l).value)
  {
    if NextNumber(l).Some? {
      MaxSnoc(l.files, TaskFile(NextNumber(l).value, Some(NextNumber(l).value)));
    }
  }

  lemma {:induction false} StepStaysCovered(h: History, c: Command)
    requires Covered(h) && !c.Archive?
    ensures Covered(Step(h, c))
    ensures Distinct(h.issued) ==> Distinct(Step(h, c).issued)
  {
    var next := Step(h, c);
    AddKeepsFloor(h.ledger, 0);
    forall i | 0 <= i < |h.issued| ensures Floor(next.ledger, h.issued[i]) {
      match c
      case Add => AddKeepsFloor(h.ledger, h.issued[i]);
      case Delete(n, crashes) => DeleteKeepsFloor(h.ledger, n, crashes, h.issued[i]);
    }
  }

  predicate NoArchiving(cs: seq<Command>) {
    forall i :: 0 <= i < |cs| ==> !cs[i].Archive?
  }

  /** Over every run of adds and deletes, crashes included, no number is issued twice. */
  lemma {:induction false} NeverReissued(h: History, cs: seq<Command>)
    requires Covered(h) && Distinct(h.issued) && NoArchiving(cs)
    ensures Covered(Run(h, cs)) && Distinct(Run(h, cs).issued)
  {
    if cs != [] {
      NeverReissued(h, cs[..|cs| - 1]);
      StepStaysCovered(Run(h, cs[..|cs| - 1]), cs[|cs| - 1]);
    }
  }

  // --- Exactly when later adds are safe ------------------------------------------------

  function Adds(k: nat): seq<Command> {
    seq(k, _ => Add)
  }

  /** Ids inside the readable files are not ahead of the file names. */
  predicate NamesLead(l: Ledger) {
    MaxInner(l.files) <= Top(l)
  }

  lemma {:induction false} AddClimbs(h: History)
    requires !h.ledger.mark.Corrupt? && NamesLead(h.ledger)
    ensures var next := Step(h, Add);
            && !next.ledger.mark.Corrupt? && NamesLead(next.ledger)
            && Top(next.ledger) == Top(h.ledger) + 1
            && next.issued == h.issued + [Top(h.ledger) + 1]
  {
    var f := TaskFile(Top(h.ledger) + 1, Some(Top(h.ledger) + 1));
    MaxSnoc(h.ledger.files, f);
    assert (h.ledger.files + [f])[..|h.ledger.files|] == h.ledger.files;
  }

  lemma {:induction false} AddsClimb(h: History, k: nat)
    requires !h.ledger.mark.Corrupt? && NamesLead(h.ledger)
    ensures var next := Run(h, Adds(k));
            && !next.ledger.mark.Corrupt? && NamesLead(next.ledger)
            && Top(next.ledger) == Top(h.ledger) + k
            && |next.issued| == |h.issued| + k && h.issued <= next.issued
            && (k > 0 ==> next.issued[|h.issued| + k - 1] == Top(h.ledger) + k)
  {
    if k > 0 {
      AddsClimb(h, k - 1);
      assert Adds(k)[..k - 1] == Adds(k - 1);
      AddClimbs(Run(h, Adds(k - 1)));
    }
  }

  /** No run of adds and deletes from here issues a number again. */
  ghost predicate SafeForever(h: History) {
    forall cs: seq<Command> :: NoArchiving(cs) ==> Distinct(Run(h, cs).issued)
  }

  /**
   * Whatever happened before, later adds are safe exactly when the mark is corrupt,
   * so that there are none, or every issued number is under the mark or a file left
   * in tasks/.
   */
  lemma {:induction false} SafeIffCovered(h: History)
    requires Distinct(h.issued)
    ensures SafeForever(h) <==> h.ledger.mark.Corrupt? || Covered(h)
  {
    if h.ledger.mark.Corrupt? || Covered(h) {
      forall cs: seq<Command> | NoArchiving(cs) ensures Distinct(Run(h, cs).issued) {
        if Covered(h) {
          NeverReissued(h, cs);
        } else {
          CorruptIssuesNone(h, cs);
        }
      }
    } else {
      var i :| 0 <= i < |h.issued| && !Floor(h.ledger, h.issued[i]);
      var cs := UncoveredIsUnsafe(h, i);
    }
  }

  lemma {:induction false} UncoveredIsUnsafe(h: History, i: nat) returns (cs: seq<Command>)
    requires !h.ledger.mark.Corrupt? && i < |h.issued| && !Floor(h.ledger, h.issued[i])
    ensures NoArchiving(cs) && !Distinct(Run(h, cs).issued)
  {
    var away := ClearOut(h);
    var rest := Run(h, away);
    UncoveredReissues(rest, i);
    var k := h.issued[i] - Top(rest.ledger);
    RunOn(h, away, Adds(k));
    cs := away + Adds(k);
  }

  lemma {:induction false} CorruptIssuesNone(h: History, cs: seq<Command>)
    requires h.ledger.mark.Corrupt? && NoArchiving(cs)
    ensures Run(h, cs).ledger.mark.Corrupt? && Run(h, cs).issued == h.issued
  {
    if cs != [] {
      CorruptIssuesNone(h, cs[..|cs| - 1]);
      assert !cs[|cs| - 1].Archive?;
    }
  }

  lemma {:induction false} RunOn(h: History, xs: seq<Command>, ys: seq<Command>)
    ensures Run(h, xs + ys) == Run(Run(h, xs), ys)
  {
    if ys == [] {
      assert xs + ys == xs;
    } else {
      assert (xs + ys)[..|xs + ys| - 1] == xs + ys[..|ys| - 1];
      RunOn(h, xs, ys[..|ys| - 1]);
    }
  }

  /** Deletes can empty the directory, leaving the top where it was. */
  lemma {:induction false} ClearOut(h: History) returns (cs: seq<Command>)
    requires !h.ledger.mark.Corrupt?
    ensures NoArchiving(cs)
    ensures var next := Run(h, cs);
            && next.ledger.files == [] && next.issued == h.issued && !next.ledger.mark.Corrupt?
            && Top(next.ledger) == Top(h.ledger)
    decreases |h.ledger.files|
  {
    if h.ledger.files == [] {
      cs := [];
    } else {
      var c := Delete(h.ledger.files[|h.ledger.files| - 1].number, false);
      DeleteLast(h.ledger);
      var next := Step(h, c);
      assert next.issued == h.issued;
      var rest := ClearOut(next);
      cs := [c] + rest;
      assert [c][..0] == [] && Run(h, [c]) == next;
      RunOn(h, [c], rest);
    }
  }

  lemma {:induction false} DeleteLast(l: Ledger)
    requires !l.mark.Corrupt? && l.files != []
    ensures var next := DeleteTask(l, l.files[|l.files| - 1].number, false);
            && next.files == l.files[..|l.files| - 1] && !next.mark.Corrupt? && Top(next) == Top(l)
  {
    var n := |l.files| - 1;
    assert FileOf(l.files, l.files[n].number) == Some(n);
    assert Without(l.files, n) == l.files[..n];
  }

  lemma {:induction false} UncoveredReissues(h: History, i: nat)
    requires NamesLead(h.ledger) && !h.ledger.mark.Corrupt? && i < |h.issued| && !Floor(h.ledger, h.issued[i])
    ensures var k := h.issued[i] - Top(h.ledger);
            && NoArchiving(Adds(k))
            && !Distinct(Run(h, Adds(k)).issued)
  {
    var top := Top(h.ledger);
    var k := h.issued[i] - top;
    AddsClimb(h, k);
    var issued := Run(h, Adds(k)).issued;
    assert issued[i] == h.issued[i];
  }

  /**
   * Archiving a covered task keeps every number covered exactly when its own number stays
   * under the mark or another file.
   */
  lemma {:induction false} ArchiveIsSafeIff(h: History, n: nat)
    requires Covered(h) && n in h.issued && FileOf(h.ledger.files, n).Some?
    ensures Covered(Step(h, Archive(n))) <==>
      n <= Larger(MarkValue(h.ledger.mark), MaxName(Without(h.ledger.files, FileOf(h.ledger.files, n).value)))
  {
    var i := FileOf(h.ledger.files, n).value;
    var next := Step(h, Archive(n));
    MaxNameIs(h.ledger.files);
    MaxWithout(h.ledger.files, i);
    assert next.issued == h.issued;
    var at :| 0 <= at < |h.issued| && h.issued[at] == n;
    assert Covered(next) ==> Floor(next.ledger, next.issued[at]);
  }

  /** A first task, archived: the next task gets its number. */
  lemma {:induction false} ArchivingReissues()
    ensures Run(History(Ledger([], [], Absent), []), [Add, Archive(1), Add]).issued == [1, 1]
  {
    var h0 := History(Ledger([], [], Absent), []);
    var h1 := Step(h0, Add);
    assert h1.issued == [1] && h1.ledger.files == [TaskFile(1, Some(1))];
    var h2 := Step(h1, Archive(1));
    assert h2.ledger.files == [] && h2.issued == [1];
    var h3 := Step(h2, Add);
    var cs := [Add, Archive(1), Add];
    assert cs[..2] == [Add, Archive(1)] && cs[..2][..1] == [Add] && cs[..2][..1][..0] == [];
    assert Run(h0, cs[..2][..1]) == h1;
    assert Run(h0, cs[..2]) == h2;
    assert Run(h0, cs) == h3;
  }

  // --- The directory as the commands change it -------------------------------------------

  class TaskDirectory {
    var files: seq<TaskFile>
    var archived: seq<TaskFile>
    var mark: Mark
    /** Every number ever issued. */
    ghost var issued: seq<nat>

    constructor (h: History)
      ensures Now() == h
    {
      files, archived, mark := h.ledger.files, h.ledger.archived, h.ledger.mark;
      issued := h.issued;
    }

    ghost function Now(): History
      reads this
    {
      History(Ledger(files, archived, mark), issued)
    }

    method MaxFromFilenames() returns (max: nat)
      ensures max == MaxName(files)
    {
      max := 0;
      var listed := files;
      for i := 0 to |listed|
        invariant max == MaxName(listed[..i])
      {
        assert listed[..i + 1][..i] == listed[..i];
        if listed[i].number > max {
          max := listed[i].number;
        }
      }
      assert listed[..|listed|] == listed;
    }

    method MaxFromTasks() returns (max: nat)
      ensures max == MaxInner(files)
    {
      max := 0;
      var listed := files;
      for i := 0 to |listed|
        invariant max == MaxInner(listed[..i])
      {
        assert listed[..i + 1][..i] == listed[..i];
        if listed[i].inner.Some? && listed[i].inner.value > max {
          max := listed[i].inner.value;
        }
      }
      assert listed[..|listed|] == listed;
    }

    /** allocateTaskNumber, then the new file. */
    method Add() returns (number: Option<nat>)
      modifies this
      ensures Now() == Step(old(Now()), Command.Add)
      ensures number == NextNumber(old(Now()).ledger)
      ensures number.Some? && Covered(old(Now())) ==> number.value !in old(issued)
    {
      var fromTasks := MaxFromTasks();
      var fromNames := MaxFromFilenames();
      var stored := ReadMark(mark);
      if stored.None? {
        return None;
      }
      var n := Larger(stored.value, Larger(fromTasks, fromNames)) + 1;
      AddKeepsFloor(Now().ledger, 0);
      files := files + [TaskFile(n, Some(n))];
      issued := issued + [n];
      number := Some(n);
    }

    /** Raises the mark before it unlinks; `crashes` stops it in between. */
    method Delete(number: nat, crashes: bool)
      modifies this
      ensures Now() == Step(old(Now()), Command.Delete(number, crashes))
    {
      var at := FileOf(files, number);
      if at.None? {
        return;
      }
      var onDiskMax := MaxFromFilenames();
      if number == onDiskMax {
        var stored := ReadMark(mark);
        if stored.None? {
          return;
        }
        if stored.value < number {
          mark := Stored(number);
        }
      }
      if crashes {
        return;
      }
      files := Without(files, at.value);
    }
  }
}
