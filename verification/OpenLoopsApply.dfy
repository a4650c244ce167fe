/**
 * The v2 to v3 migration writing its files one by one, and over a whole root
 * (src/migrations/v2-to-v3-open-loops.ts: locateSessions, applyInitiative, archiveHandoff,
 * applyV2ToV3). The directory of an initiative is an object that records every state it has been
 * in, so that the states a crash can leave are those of the plan.
 */
module OpenLoopsApply {
  import opened Prelude
  import opened OpenLoopsPlan
  import opened OpenLoopsMigration

  // --- One initiative ---------------------------------------------------------------

  /** The state after each write in turn: where a crash can leave the files. */
  function Trail(files: Files, ws: seq<Write>): (r: seq<Files>)
    ensures |r| == |ws|
  {
    if ws == [] then [] else Trail(files, ws[..|ws| - 1]) + [AfterWrites(files, ws)]
  }

  lemma {:induction false} TrailSnoc(files: Files, ws: seq<Write>, w: Write)
    ensures Trail(files, ws + [w]) == Trail(files, ws) + [Perform(AfterWrites(files, ws), w)]
  {
    AfterSnoc(files, ws, w);
    assert (ws + [w])[..|ws|] == ws;
  }

  /** The states a run goes through are those an interruption can leave. */
  lemma {:induction false} TrailIsInterrupted(files: Files, ws: seq<Write>, k: nat)
    requires k < |ws|
    ensures Trail(files, ws)[k] == Interrupted(files, ws, k + 1, None)
  {
    if k < |ws| - 1 {
      var init := ws[..|ws| - 1];
      TrailIsInterrupted(files, init, k);
      assert init[..k + 1] == ws[..k + 1];
      assert init[..|init|] == init;
    }
  }

  lemma {:induction false} MissingSnoc(sessions: map<string, Session>, drafts: seq<Draft>, d: Draft)
    ensures Missing(sessions, drafts + [d]) ==
      Missing(sessions, drafts) + (if d.stem in sessions then [] else [d])
  {
    if drafts == [] {
      assert drafts + [d] == [d];
      assert [d][1..] == [];
    } else {
      assert (drafts + [d])[1..] == drafts[1..] + [d];
      MissingSnoc(sessions, drafts[1..], d);
    }
  }

  /** `now` and `history` are what the writes `ws` make of `start` and `before`. */
  ghost predicate Follows(now: Files, history: seq<Files>, start: Files, before: seq<Files>, ws: seq<Write>) {
    now == AfterWrites(start, ws) && history == before + Trail(start, ws)
  }

  lemma {:induction false} FollowsOn(
    now: Files, history: seq<Files>, start: Files, before: seq<Files>, ws: seq<Write>, w: Write)
    requires Follows(now, history, start, before, ws)
    ensures Follows(Perform(now, w), history + [Perform(now, w)], start, before, ws + [w])
  {
    AfterSnoc(start, ws, w);
    TrailSnoc(start, ws, w);
    ConcatAssoc(before, Trail(start, ws), [Perform(now, w)]);
  }

  lemma {:induction false} SessionWritesSnoc(missing: seq<Draft>, d: Draft)
    ensures SessionWrites(missing + [d]) == SessionWrites(missing) + [WriteSession(d)]
  {
  }

  datatype LocatedDraft = LocatedDraft(draft: Draft, present: bool)

  class InitiativeDirectory {
    var sessions: map<string, Session>
    var brief: RawBrief
    var handoff: Option<string>
    var archive: Option<string>
    const tasks: seq<TaskFile>
    const archivedTasks: seq<TaskFile>
    /** Every state the files have been in after a write. */
    ghost var history: seq<Files>

    constructor (files: Files)
      ensures Now() == files && history == []
    {
      sessions, brief, handoff, archive := files.sessions, files.brief, files.handoff, files.archive;
      tasks, archivedTasks := files.tasks, files.archivedTasks;
      history := [];
    }

    function Now(): Files
      reads this
    {
      Files(sessions, brief, handoff, archive, tasks, archivedTasks)
    }

    /** writeSessionFile: the stem from the session's own fields, then the first free name. */
    method WriteSessionFile(s: Session) returns (name: Option<string>)
      modifies this
      ensures Now() == Perform(old(Now()), WriteSession(Located(s)))
      ensures history == old(history) + [Now()]
    {
      name := PickAvailable(sessions, BuildSessionStem(s.started, s.id), 0);
      if name.Some? {
        sessions := sessions[name.value := s];
      }
      history := history + [Now()];
    }

    method WriteBriefFile(b: RawBrief)
      modifies this
      ensures Now() == Perform(old(Now()), WriteBrief(b))
      ensures history == old(history) + [Now()]
    {
      brief := b;
      history := history + [Now()];
    }

    /** Copies before it removes. */
    method ArchiveHandoff()
      modifies this
      ensures Now() == Perform(Perform(old(Now()), CopyHandoff), RemoveHandoff)
      ensures history == old(history) + [Perform(old(Now()), CopyHandoff), Now()]
    {
      archive := handoff;
      history := history + [Now()];
      handoff := None;
      history := history + [Now()];
    }

    method LocateSessions(drafts: seq<Draft>) returns (located: seq<LocatedDraft>)
      ensures |located| == |drafts|
      ensures forall i :: 0 <= i < |drafts| ==> located[i] == LocatedDraft(drafts[i], drafts[i].stem in sessions)
    {
      located := [];
      for i := 0 to |drafts|
        invariant |located| == i
        invariant forall j :: 0 <= j < i ==> located[j] == LocatedDraft(drafts[j], drafts[j].stem in sessions)
      {
        located := located + [LocatedDraft(drafts[i], drafts[i].stem in sessions)];
      }
    }

    /** The sessions not there yet, in the order planned. */
    method WriteSessions(located: seq<LocatedDraft>, drafts: seq<Draft>)
      requires Proper(drafts) && |located| == |drafts|
      requires forall i :: 0 <= i < |drafts| ==> located[i] == LocatedDraft(drafts[i], drafts[i].stem in sessions)
      modifies this
      ensures Follows(Now(), history, old(Now()), old(history), SessionWrites(Missing(old(sessions), drafts)))
    {
      ghost var start, before := Now(), history;
      for i := 0 to |drafts|
        invariant Follows(Now(), history, start, before, SessionWrites(Missing(start.sessions, drafts[..i])))
      {
        assert drafts[..i + 1] == drafts[..i] + [drafts[i]];
        MissingSnoc(start.sessions, drafts[..i], drafts[i]);
        if !located[i].present {
          ghost var missing := Missing(start.sessions, drafts[..i]);
          FollowsOn(Now(), history, start, before, SessionWrites(missing), WriteSession(drafts[i]));
          SessionWritesSnoc(missing, drafts[i]);
          var _ := WriteSessionFile(located[i].draft.session);
        } else {
          assert Missing(start.sessions, drafts[..i]) + [] == Missing(start.sessions, drafts[..i]);
        }
      }
      assert drafts[..|drafts|] == drafts;
    }

    /** applyInitiative: sessions, then the brief, then the handoff; every state on the way is one of the plan's. */
    method ApplyInitiative(c: Context)
      requires Proper(c.drafts)
      modifies this
      ensures Now() == Migrated(c, old(Now()))
      ensures history == old(history) + Trail(old(Now()), Writes(PlanOf(c, old(Now()))))
    {
      var plan := PlanOf(c, Now());
      var located := LocateSessions(c.drafts);
      ghost var start, before := Now(), history;
      WriteSessions(located, c.drafts);
      ghost var ws := SessionWrites(plan.missing);
      assert Follows(Now(), history, start, before, ws);
      if plan.brief.Some? {
        var w := WriteBrief(plan.brief.value);
        FollowsOn(Now(), history, start, before, ws, w);
        WriteBriefFile(plan.brief.value);
        ws := ws + [w];
      }
      if plan.handoff.ArchiveAndRemove? {
        ArchiveFollows(Now(), history, start, before, ws);
        ArchiveHandoff();
        ws := ws + [CopyHandoff, RemoveHandoff];
      }
      assert ws == Writes(plan);
    }
  }

  lemma {:induction false} ArchiveFollows(
    now: Files, history: seq<Files>, start: Files, before: seq<Files>, ws: seq<Write>)
    requires Follows(now, history, start, before, ws)
    ensures var copied := Perform(now, CopyHandoff); var removed := Perform(copied, RemoveHandoff);
      Follows(removed, history + [copied, removed], start, before, ws + [CopyHandoff, RemoveHandoff])
  {
    var copied := Perform(now, CopyHandoff);
    FollowsOn(now, history, start, before, ws, CopyHandoff);
    FollowsOn(copied, history + [copied], start, before, ws + [CopyHandoff], RemoveHandoff);
    assert ws + [CopyHandoff] + [RemoveHandoff] == ws + [CopyHandoff, RemoveHandoff];
    var removed := Perform(copied, RemoveHandoff);
    assert history + [copied] + [removed] == history + [copied, removed];
  }

  // --- A whole root -----------------------------------------------------------------------

  datatype Initiative = Initiative(context: Context, files: Files)

  function WritesOf(x: Initiative): seq<Write> {
    Writes(PlanOf(x.context, x.files))
  }

  function StopOne(x: Initiative, cut: Cut): Initiative {
    x.(files := Interrupted(x.files, WritesOf(x), cut.k, cut.torn))
  }

  function Sizes(root: seq<Initiative>): (r: seq<nat>)
    ensures |r| == |root|
  {
    seq(|root|, i requires 0 <= i < |root| => |WritesOf(root[i])|)
  }

  /** Where each of several lists of writes stops when the first n writes of all are done, one list after the other. */
  function Cuts(sizes: seq<nat>, n: nat, torn: Option<string>): (r: seq<Cut>)
    ensures |r| == |sizes|
  {
    if sizes == [] then []
    else if n < sizes[0] then [Cut(n, torn)] + seq(|sizes| - 1, _ => Cut(0, None))
    else [Cut(sizes[0], None)] + Cuts(sizes[1..], n - sizes[0], torn)
  }

  /** The root after the first n of all its writes, initiative after initiative. */
  function StopRoot(root: seq<Initiative>, n: nat, torn: Option<string>): (r: seq<Initiative>)
    ensures |r| == |root|
  {
    seq(|root|, i requires 0 <= i < |root| => StopOne(root[i], Cuts(Sizes(root), n, torn)[i]))
  }

  function MigrateRoot(root: seq<Initiative>): (r: seq<Initiative>)
    ensures |r| == |root|
  {
    seq(|root|, i requires 0 <= i < |root| => root[i].(files := Migrated(root[i].context, root[i].files)))
  }

  ghost predicate ProperRoot(root: seq<Initiative>) {
    forall i :: 0 <= i < |root| ==> StemsDistinct(root[i].context.drafts)
  }

  function SumOf(ns: seq<nat>): nat {
    if ns == [] then 0 else ns[0] + SumOf(ns[1..])
  }

  function Reached(cuts: seq<Cut>): (r: seq<nat>)
    ensures |r| == |cuts|
  {
    seq(|cuts|, i requires 0 <= i < |cuts| => cuts[i].k)
  }

  /** The lists stop after n writes in all: full ones first, then the one cut short, then untouched ones. */
  lemma {:induction false} CutsAre(sizes: seq<nat>, n: nat, torn: Option<string>) returns (at: nat)
    requires n <= SumOf(sizes)
    ensures var cuts := Cuts(sizes, n, torn);
            && at <= |sizes|
            && SumOf(Reached(cuts)) == n
            && (forall i :: 0 <= i < at ==> cuts[i] == Cut(sizes[i], None))
            && (at < |sizes| ==> cuts[at].k < sizes[at] && cuts[at].torn == torn)
            && (forall i :: at < i < |sizes| ==> cuts[i] == Cut(0, None))
  {
    var cuts := Cuts(sizes, n, torn);
    at := 0;
    if sizes != [] {
      if n < sizes[0] {
        assert Reached(cuts)[1..] == seq(|sizes| - 1, _ => 0);
        ZerosSum(|sizes| - 1);
      } else {
        var rest := CutsAre(sizes[1..], n - sizes[0], torn);
        at := rest + 1;
        assert Reached(cuts)[1..] == Reached(Cuts(sizes[1..], n - sizes[0], torn));
      }
    }
  }

  lemma {:induction false} ZerosSum(n: nat)
    ensures SumOf(seq(n, _ => 0)) == 0
  {
    if n > 0 {
      assert seq(n, _ => 0)[1..] == seq(n - 1, _ => 0);
      ZerosSum(n - 1);
    }
  }

  /** The first initiatives are migrated, one may be cut short in its writes, and the rest are untouched. */
  lemma {:induction false} StoppedRootIs(root: seq<Initiative>, n: nat, torn: Option<string>) returns (at: nat)
    requires n <= SumOf(Sizes(root))
    ensures var stopped := StopRoot(root, n, torn);
            && at <= |root|
            && (forall i :: 0 <= i < at ==> stopped[i] == MigrateRoot(root)[i])
            && (at < |root| ==> exists k: nat ::
                  k < |WritesOf(root[at])| &&
                  stopped[at] == Initiative(root[at].context, Interrupted(root[at].files, WritesOf(root[at]), k, torn)))
            && (forall i :: at < i < |root| ==> stopped[i] == root[i])
  {
    at := CutsAre(Sizes(root), n, torn);
    var cuts := Cuts(Sizes(root), n, torn);
    forall i | 0 <= i < |root| ensures i < at ==> StopRoot(root, n, torn)[i] == MigrateRoot(root)[i] {
      if i < at {
        WholeIsMigrated(root[i]);
      }
    }
    forall i | at < i < |root| ensures StopRoot(root, n, torn)[i] == root[i] {
      NothingIsUntouched(root[i]);
    }
    if at < |root| {
      assert StopRoot(root, n, torn)[at] == StopOne(root[at], cuts[at]);
    }
  }

  lemma {:induction false} WholeIsMigrated(x: Initiative)
    ensures StopOne(x, Cut(|WritesOf(x)|, None)) == Initiative(x.context, Migrated(x.context, x.files))
  {
  }

  lemma {:induction false} NothingIsUntouched(x: Initiative)
    ensures StopOne(x, Cut(0, None)) == x
  {
  }

  ghost predicate SameLedger(one: Files, two: Files) {
    one.sessions == two.sessions && one.brief == two.brief
  }

  /** A root stopped anywhere, planned again and run to the end has the sessions and briefs of one whole run. */
  lemma {:induction false} RootResumes(root: seq<Initiative>, n: nat, torn: Option<string>, i: nat)
    requires ProperRoot(root) && i < |root|
    ensures SameLedger(MigrateRoot(StopRoot(root, n, torn))[i].files, MigrateRoot(root)[i].files)
  {
    var cut := Cuts(Sizes(root), n, torn)[i];
    OneCutIsHarmless(root[i].context, root[i].files, cut.k, cut.torn);
  }

  function StopAgain(root: seq<Initiative>, stops: seq<Cut>): (r: seq<Initiative>)
    ensures |r| == |root|
  {
    if stops == [] then root
    else StopRoot(StopAgain(root, stops[..|stops| - 1]), stops[|stops| - 1].k, stops[|stops| - 1].torn)
  }

  /** The same after any number of stops. */
  lemma {:induction false} RootAlwaysResumes(root: seq<Initiative>, stops: seq<Cut>, i: nat)
    requires ProperRoot(root) && i < |root|
    ensures ProperRoot(StopAgain(root, stops))
    ensures SameLedger(MigrateRoot(StopAgain(root, stops))[i].files, MigrateRoot(root)[i].files)
  {
    if stops != [] {
      var init, last := stops[..|stops| - 1], stops[|stops| - 1];
      RootAlwaysResumes(root, init, i);
      var before := StopAgain(root, init);
      RootResumes(before, last.k, last.torn, i);
    }
  }
}
