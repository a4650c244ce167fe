/**
 * What the v2 to v3 migration plans for one initiative (src/migrations/v2-to-v3-open-loops.ts,
 * src/migrations/v3-repairs.ts, src/sessions/session-file.ts): the synthetic opening and closing
 * sessions, the brief with its repair and its backfilled mark, and what is to become of the
 * handoff.
 */
module OpenLoopsPlan {
  import opened Prelude

  // --- Session files --------------------------------------------------------------

  /** A point in time: its stamp to the minute, YYYY-MM-DD-HHMM in UTC, and its milliseconds. */
  datatype Instant = Instant(stamp: string, ms: int)

  function Digits(n: nat): string {
    if n < 10 then [('0' as int + n) as char] else Digits(n / 10) + [('0' as int + n % 10) as char]
  }

  /** The number a run of digits writes. */
  ghost function NumberOf(s: string): int {
    if s == "" then 0 else 10 * NumberOf(s[..|s| - 1]) + (s[|s| - 1] as int - '0' as int)
  }

  /** Digits writes the number in decimal digits, the first no zero but for zero itself. */
  lemma {:induction false} DigitsReadBack(n: nat)
    ensures var s := Digits(n);
            && s != "" && NumberOf(s) == n
            && (forall c :: c in s ==> c in "0123456789") && (s[0] == '0' ==> n == 0)
  {
    var digit := ('0' as int + n % 10) as char;
    assert "0123456789"[n % 10] == digit;
    if n < 10 {
      assert Digits(n) == [digit] && NumberOf(Digits(n)[..0]) == 0;
    } else {
      DigitsReadBack(n / 10);
      assert (Digits(n / 10) + [digit])[..|Digits(n / 10)|] == Digits(n / 10);
    }
  }

  function BuildSessionStem(started: Instant, sessionId: string): string {
    started.stamp + "-" + sessionId
  }

  datatype NextStep = NextStep(id: string, text: string)

  datatype Resolve = Resolve(ref: string, note: string)

  datatype Session = Session(
    id: string, started: Instant, ended: Instant, nextSteps: seq<NextStep>, resolves: seq<Resolve>, body: string)

  function StemOf(s: Session): string {
    BuildSessionStem(s.started, s.id)
  }

  const PICK_LIMIT: nat := 10_000

  /** The first name free: the plain one, then -1, -2 and so on. */
  function PickAvailable(sessions: map<string, Session>, base: string, i: nat): Option<string>
    requires i <= PICK_LIMIT
    decreases PICK_LIMIT - i
  {
    if i == PICK_LIMIT then None
    else
      var name := if i == 0 then base else base + "-" + Digits(i);
      if name !in sessions then Some(name) else PickAvailable(sessions, base, i + 1)
  }

  // --- The proposal and the sessions it makes --------------------------------------

  datatype ProposedStep = ProposedStep(id: string, text: string, abandoned: Option<string>)

  datatype Entry = Entry(sessionId: string, ended: Instant, body: string, nextSteps: seq<ProposedStep>)

  function Opened(steps: seq<ProposedStep>): (r: seq<NextStep>)
    ensures |r| == |steps| && forall i :: 0 <= i < |r| ==> r[i] == NextStep(steps[i].id, steps[i].text)
  {
    if steps == [] then [] else [NextStep(steps[0].id, steps[0].text)] + Opened(steps[1..])
  }

  function Closing(steps: seq<ProposedStep>, openStem: string): seq<Resolve> {
    if steps == [] then []
    else
      (match steps[0].abandoned
       case Some(note) => [Resolve(openStem + "#" + steps[0].id, note)]
       case None => [])
      + Closing(steps[1..], openStem)
  }

  function OpenSession(entry: Entry): Session {
    Session(entry.sessionId, entry.ended, entry.ended, Opened(entry.nextSteps), [], entry.body)
  }

  function AbandonSession(entry: Entry, abandonedAt: Instant): Session {
    Session(entry.sessionId + "-abandonment", abandonedAt, abandonedAt, [],
      Closing(entry.nextSteps, StemOf(OpenSession(entry))), "# Abandoned on arrival")
  }

  predicate HasAbandoned(entry: Entry) {
    exists i :: 0 <= i < |entry.nextSteps| && entry.nextSteps[i].abandoned.Some?
  }

  /** A session with the stem its path is looked up by. */
  datatype Draft = Draft(stem: string, session: Session)

  function Located(s: Session): Draft {
    Draft(StemOf(s), s)
  }

  /** The sessions an entry asks for; None when the proposal lacks the closing date. */
  function DraftSessions(entry: Option<Entry>, abandonedAt: Option<Instant>): Option<seq<Draft>> {
    match entry
    case None => Some([])
    case Some(e) =>
      if !HasAbandoned(e) then Some([Located(OpenSession(e))])
      else if abandonedAt.None? then None
      else Some([Located(OpenSession(e)), Located(AbandonSession(e, abandonedAt.value))])
  }

  // --- The brief ---------------------------------------------------------------------

  /** Raw frontmatter: the fields the migration looks at, the key v4 retired, and the rest. */
  datatype RawBrief = RawBrief(
    state: string, rank: Option<int>, taskPrefix: Option<string>, taskSeq: Option<int>,
    worktrees: Option<string>, rest: string)

  const REPAIRED_SLUG := "sample-lib"
  const REPAIRED_RANK := 11

  predicate NeedsRepair(slug: string, b: RawBrief) {
    slug == REPAIRED_SLUG && b.state == "active"
  }

  function RepairBrief(slug: string, b: RawBrief): RawBrief {
    if NeedsRepair(slug, b) then b.(state := "focused", rank := Some(b.rank.GetOr(REPAIRED_RANK))) else b
  }

  datatype TaskFile = TaskFile(prefix: string, number: nat)

  function MaxNumber(files: seq<TaskFile>, prefix: string): nat {
    if files == [] then 0
    else
      var m := MaxNumber(files[..|files| - 1], prefix);
      var last := files[|files| - 1];
      if last.prefix == prefix && last.number > m then last.number else m
  }

  /** The mark to backfill, seeded from the open and the archived tasks. */
  function NextTaskSeq(files: Files, b: RawBrief): Option<int> {
    if b.taskSeq.Some? || b.taskPrefix.None? || b.taskPrefix.value == "" then None
    else
      var max := MaxNumber(files.tasks + files.archivedTasks, b.taskPrefix.value);
      if max > 0 then Some(max) else None
  }

  /** The schema keeps only the keys it knows. */
  function Parsed(b: RawBrief): RawBrief {
    b.(worktrees := None)
  }

  /** The brief with what is known to be broken in it repaired and the mark backfilled. */
  function Merged(slug: string, files: Files): RawBrief {
    var repaired := RepairBrief(slug, files.brief);
    var mark := NextTaskSeq(files, repaired);
    if mark.Some? then repaired.(taskSeq := mark) else repaired
  }

  /** The brief to write: None when nothing changes or the schema refuses the result. */
  function PlanBrief(slug: string, files: Files, schema: RawBrief -> bool): Option<RawBrief> {
    var repaired := RepairBrief(slug, files.brief);
    var mark := NextTaskSeq(files, repaired);
    if mark.None? && !NeedsRepair(slug, files.brief) then None
    else if schema(Merged(slug, files)) then Some(Parsed(Merged(slug, files))) else None
  }

  // --- The whole plan ------------------------------------------------------------------

  /** The files of one initiative the migration reads or writes. */
  datatype Files = Files(
    sessions: map<string, Session>, brief: RawBrief, handoff: Option<string>, archive: Option<string>,
    tasks: seq<TaskFile>, archivedTasks: seq<TaskFile>)

  datatype Disposition = ArchiveAndRemove | ArchiveExists | Absent

  function PlanHandoff(files: Files): Disposition {
    if files.handoff.None? then Absent else if files.archive.Some? then ArchiveExists else ArchiveAndRemove
  }

  datatype Plan = Plan(missing: seq<Draft>, brief: Option<RawBrief>, handoff: Disposition)

  /** The drafts whose exact path is not taken yet. */
  function Missing(sessions: map<string, Session>, drafts: seq<Draft>): seq<Draft> {
    if drafts == [] then []
    else (if drafts[0].stem in sessions then [] else [drafts[0]]) + Missing(sessions, drafts[1..])
  }

  function MakePlan(slug: string, files: Files, drafts: seq<Draft>, schema: RawBrief -> bool): Plan {
    Plan(Missing(files.sessions, drafts), PlanBrief(slug, files, schema), PlanHandoff(files))
  }

  // --- Facts about the sessions ----------------------------------------------------------

  /** Years have four to six digits in the range of a JavaScript date. */
  predicate ValidInstant(t: Instant) {
    15 <= |t.stamp| <= 17
  }

  /** The opening and the closing session of one entry never share a path. */
  lemma {:induction false} StemsDiffer(entry: Entry, abandonedAt: Instant)
    requires ValidInstant(entry.ended) && ValidInstant(abandonedAt)
    ensures StemOf(OpenSession(entry)) != StemOf(AbandonSession(entry, abandonedAt))
  {
    assert |"-abandonment"| == 12;
  }

  ghost predicate StemsDistinct(drafts: seq<Draft>) {
    forall i, j :: 0 <= i < j < |drafts| ==> drafts[i].stem != drafts[j].stem
  }

  /** Drafts carry their sessions' stems, and no two the same one. */
  ghost predicate Proper(drafts: seq<Draft>) {
    StemsDistinct(drafts) && forall i :: 0 <= i < |drafts| ==> drafts[i].stem == StemOf(drafts[i].session)
  }

  /** What an entry asks for is always proper: an opening session, and a closing one if a step is abandoned. */
  lemma {:induction false} DraftsAreProper(entry: Option<Entry>, abandonedAt: Option<Instant>)
    requires entry.Some? ==> ValidInstant(entry.value.ended)
    requires abandonedAt.Some? ==> ValidInstant(abandonedAt.value)
    ensures var drafts := DraftSessions(entry, abandonedAt);
            && (drafts.Some? ==> Proper(drafts.value) && |drafts.value| <= 2)
            && (drafts.None? <==> entry.Some? && HasAbandoned(entry.value) && abandonedAt.None?)
  {
    if entry.Some? && abandonedAt.Some? {
      StemsDiffer(entry.value, abandonedAt.value);
    }
  }

  /** The closing session closes exactly the steps marked abandoned, each one a step of the opening session. */
  lemma {:induction false} ClosesTheAbandoned(steps: seq<ProposedStep>, openStem: string, ref: string, note: string)
    ensures Resolve(ref, note) in Closing(steps, openStem) <==>
      exists i :: 0 <= i < |steps| && steps[i].abandoned == Some(note) && ref == openStem + "#" + Opened(steps)[i].id
  {
    if steps != [] {
      var rest := steps[1..];
      ClosesTheAbandoned(rest, openStem, ref, note);
      if i :| 0 <= i < |steps| && steps[i].abandoned == Some(note) && ref == openStem + "#" + Opened(steps)[i].id {
        if i > 0 {
          assert rest[i - 1] == steps[i];
          assert Opened(rest)[i - 1].id == steps[i].id;
        }
      }
      if i :| 0 <= i < |rest| && rest[i].abandoned == Some(note) && ref == openStem + "#" + Opened(rest)[i].id {
        assert steps[i + 1] == rest[i];
        assert Opened(steps)[i + 1].id == rest[i].id;
      }
    }
  }

  /** A repaired or backfilled brief needs nothing more: planning again writes nothing. */
  lemma {:induction false} BriefSettles(slug: string, files: Files, schema: RawBrief -> bool)
    ensures var write := PlanBrief(slug, files, schema);
            write.Some? ==> PlanBrief(slug, files.(brief := write.value), schema) == None
  {
  }

  lemma {:induction false} MaxNumberIs(files: seq<TaskFile>, prefix: string)
    ensures forall i :: 0 <= i < |files| && files[i].prefix == prefix ==> files[i].number <= MaxNumber(files, prefix)
    ensures MaxNumber(files, prefix) == 0
      || exists i :: 0 <= i < |files| && files[i].prefix == prefix && files[i].number == MaxNumber(files, prefix)
  {
    if files != [] {
      var init, last := files[..|files| - 1], files[|files| - 1];
      MaxNumberIs(init, prefix);
      assert forall i :: 0 <= i < |init| ==> init[i] == files[i];
      if last.prefix == prefix && last.number > MaxNumber(init, prefix) {
        assert files[|files| - 1].number == MaxNumber(files, prefix);
      }
    }
  }

  /** Some task file of the prefix, open or archived, has a number above zero. */
  ghost predicate HasNumbered(files: Files, prefix: string) {
    exists f :: (f in files.tasks || f in files.archivedTasks) && f.prefix == prefix && f.number > 0
  }

  /** There is nothing to backfill exactly when a mark is there, no prefix is, or no numbered task file of it. */
  lemma {:induction false} NothingToBackfillIff(files: Files, b: RawBrief)
    ensures NextTaskSeq(files, b).None? <==>
            b.taskSeq.Some? || b.taskPrefix.GetOr("") == "" || !HasNumbered(files, b.taskPrefix.value)
  {
    var all, prefix := files.tasks + files.archivedTasks, b.taskPrefix.GetOr("");
    MaxNumberIs(all, prefix);
    assert forall f :: f in all <==> f in files.tasks || f in files.archivedTasks;
    if HasNumbered(files, prefix) {
      var f :| (f in files.tasks || f in files.archivedTasks) && f.prefix == prefix && f.number > 0;
      var i :| 0 <= i < |all| && all[i] == f;
      assert all[i].number <= MaxNumber(all, prefix);
    } else if MaxNumber(all, prefix) > 0 {
      var i :| 0 <= i < |all| && all[i].prefix == prefix && all[i].number == MaxNumber(all, prefix);
      assert all[i] in all;
    }
  }

  /**
   * What the brief gains: a mark only if it had none, and then the greatest
   * number of its prefix on disk, archive included; a repaired state and rank
   * only where the known breakage is; nothing else but the loss of `worktrees`.
   */
  lemma {:induction false} BriefGains(slug: string, files: Files, schema: RawBrief -> bool)
    requires PlanBrief(slug, files, schema).Some?
    ensures var was, now := files.brief, PlanBrief(slug, files, schema).value;
            && now.rest == was.rest && now.taskPrefix == was.taskPrefix && now.worktrees == None
            && (if NeedsRepair(slug, was) then now.state == "focused" && now.rank == Some(was.rank.GetOr(11))
                else now.state == was.state && now.rank == was.rank)
            && (was.taskSeq.Some? ==> now.taskSeq == was.taskSeq)
            && (was.taskSeq.None? && now.taskSeq.Some? ==>
                  && was.taskPrefix.Some? && now.taskSeq.value > 0
                  && (forall f :: (f in files.tasks || f in files.archivedTasks) && f.prefix == was.taskPrefix.value ==>
                       f.number <= now.taskSeq.value)
                  && exists f :: (f in files.tasks || f in files.archivedTasks) && f.prefix == was.taskPrefix.value
                       && f.number == now.taskSeq.value)
            && schema(now.(worktrees := was.worktrees))
  {
    var was := files.brief;
    if was.taskPrefix.Some? {
      var all := files.tasks + files.archivedTasks;
      MaxNumberIs(all, was.taskPrefix.value);
      assert forall i :: 0 <= i < |all| ==> all[i] in files.tasks || all[i] in files.archivedTasks;
      forall f | f in files.tasks || f in files.archivedTasks ensures exists i :: 0 <= i < |all| && all[i] == f {
        assert f in all;
      }
    }
  }
}
