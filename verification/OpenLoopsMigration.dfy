/** Interrupting the v2 to v3 migration. */
module OpenLoopsMigration {
  // Applying the plan, stopping anywhere, and starting over (src/migrations/v2-to-v3-open-loops.ts:
  // applyInitiative, archiveHandoff, applyV2ToV3).

  import opened Prelude
  import opened OpenLoopsPlan

  // --- The writes, in order ----------------------------------------------------------

  datatype Write = WriteSession(draft: Draft) | WriteBrief(brief: RawBrief) | CopyHandoff | RemoveHandoff

  function SessionWrites(missing: seq<Draft>): (r: seq<Write>)
    ensures |r| == |missing| && forall i :: 0 <= i < |r| ==> r[i] == WriteSession(missing[i])
  {
    seq(|missing|, i requires 0 <= i < |missing| => WriteSession(missing[i]))
  }

  function LaterWrites(plan: Plan): seq<Write> {
    (if plan.brief.Some? then [WriteBrief(plan.brief.value)] else [])
    + (if plan.handoff.ArchiveAndRemove? then [CopyHandoff, RemoveHandoff] else [])
  }

  function Writes(plan: Plan): seq<Write> {
    SessionWrites(plan.missing) + LaterWrites(plan)
  }

  /** One write. A session goes to the first free name for its stem. */
  function Perform(files: Files, w: Write): Files {
    match w
    case WriteSession(draft) =>
      var name := PickAvailable(files.sessions, draft.stem, 0);
      if name.Some? then files.(sessions := files.sessions[name.value := draft.session]) else files
    case WriteBrief(b) => files.(brief := b)
    case CopyHandoff => files.(archive := files.handoff)
    case RemoveHandoff => files.(handoff := None)
  }

  function AfterWrites(files: Files, ws: seq<Write>): Files {
    if ws == [] then files else Perform(AfterWrites(files, ws[..|ws| - 1]), ws[|ws| - 1])
  }

  /** Cut short after `k` writes; a copy under way may leave part of the text behind. */
  function Interrupted(files: Files, ws: seq<Write>, k: nat, torn: Option<string>): Files {
    if k >= |ws| then AfterWrites(files, ws)
    else
      var done := AfterWrites(files, ws[..k]);
      if torn.Some? && ws[k].CopyHandoff? then done.(archive := torn) else done
  }

  /** What one initiative's migration depends on besides its files. */
  datatype Context = Context(slug: string, drafts: seq<Draft>, schema: RawBrief -> bool)

  function PlanOf(c: Context, files: Files): Plan {
    MakePlan(c.slug, files, c.drafts, c.schema)
  }

  /** A whole run: plan, then apply every write. */
  function Migrated(c: Context, files: Files): Files {
    AfterWrites(files, Writes(PlanOf(c, files)))
  }

  datatype Cut = Cut(k: nat, torn: Option<string>)

  /** Attempts cut short one after the other, each planning afresh. */
  function Attempted(c: Context, files: Files, cuts: seq<Cut>): Files {
    if cuts == [] then files
    else
      var before := Attempted(c, files, cuts[..|cuts| - 1]);
      var last := cuts[|cuts| - 1];
      Interrupted(before, Writes(PlanOf(c, before)), last.k, last.torn)
  }

  // --- Sessions ------------------------------------------------------------------------

  /** Every draft at its exact path, what is there already winning. */
  function WithDrafts(sessions: map<string, Session>, drafts: seq<Draft>): map<string, Session> {
    if drafts == [] then sessions
    else
      var before := WithDrafts(sessions, drafts[..|drafts| - 1]);
      var last := drafts[|drafts| - 1];
      if last.stem in before then before else before[last.stem := last.session]
  }

  lemma {:induction false} WithDraftsHas(sessions: map<string, Session>, drafts: seq<Draft>, name: string)
    ensures name in WithDrafts(sessions, drafts) <==>
      name in sessions || exists i :: 0 <= i < |drafts| && drafts[i].stem == name
  {
    if drafts != [] {
      var init := drafts[..|drafts| - 1];
      WithDraftsHas(sessions, init, name);
      assert forall i :: 0 <= i < |init| ==> init[i] == drafts[i];
      if i :| 0 <= i < |drafts| && drafts[i].stem == name {
        assert i < |init| ==> init[i].stem == name;
      }
    }
  }

  lemma {:induction false} WithDraftsKeeps(sessions: map<string, Session>, drafts: seq<Draft>, name: string)
    requires name in sessions
    ensures name in WithDrafts(sessions, drafts) && WithDrafts(sessions, drafts)[name] == sessions[name]
  {
    if drafts != [] {
      WithDraftsKeeps(sessions, drafts[..|drafts| - 1], name);
    }
  }

  lemma {:induction false} WithDraftsAdds(sessions: map<string, Session>, drafts: seq<Draft>, i: nat)
    requires StemsDistinct(drafts) && i < |drafts| && drafts[i].stem !in sessions
    ensures drafts[i].stem in WithDrafts(sessions, drafts)
    ensures WithDrafts(sessions, drafts)[drafts[i].stem] == drafts[i].session
  {
    var init := drafts[..|drafts| - 1];
    if i < |init| {
      WithDraftsAdds(sessions, init, i);
    } else {
      WithDraftsHas(sessions, init, drafts[i].stem);
    }
  }

  /** `mid` lies between `sessions` and all drafts written: nothing lost, nothing but drafts added. */
  ghost predicate Between(sessions: map<string, Session>, mid: map<string, Session>, drafts: seq<Draft>) {
    var all := WithDrafts(sessions, drafts);
    && (forall name :: name in sessions ==> name in mid && mid[name] == sessions[name])
    && (forall name :: name in mid ==> name in all && mid[name] == all[name])
  }

  lemma {:induction false} BetweenSame(sessions: map<string, Session>, drafts: seq<Draft>)
    ensures Between(sessions, sessions, drafts)
  {
    forall name | name in sessions ensures name in WithDrafts(sessions, drafts) && WithDrafts(sessions, drafts)[name] == sessions[name] {
      WithDraftsKeeps(sessions, drafts, name);
    }
  }

  /** Writing the drafts over anything in between gives the same as writing them from the start. */
  lemma {:induction false} BetweenCatchesUp(
    sessions: map<string, Session>, mid: map<string, Session>, drafts: seq<Draft>)
    requires Between(sessions, mid, drafts) && StemsDistinct(drafts)
    ensures WithDrafts(mid, drafts) == WithDrafts(sessions, drafts)
  {
    var all, again := WithDrafts(sessions, drafts), WithDrafts(mid, drafts);
    forall name ensures name in again <==> name in all {
      WithDraftsHas(sessions, drafts, name);
      WithDraftsHas(mid, drafts, name);
    }
    forall name | name in all ensures again[name] == all[name] {
      if name in mid {
        WithDraftsKeeps(mid, drafts, name);
      } else {
        WithDraftsHas(mid, drafts, name);
        var i :| 0 <= i < |drafts| && drafts[i].stem == name;
        WithDraftsAdds(sessions, drafts, i);
        WithDraftsAdds(mid, drafts, i);
      }
    }
  }

  lemma {:induction false} MissingIs(sessions: map<string, Session>, drafts: seq<Draft>)
    ensures forall s :: s in Missing(sessions, drafts) <==> s in drafts && s.stem !in sessions
    ensures StemsDistinct(drafts) ==> StemsDistinct(Missing(sessions, drafts))
  {
    if drafts != [] {
      var rest := Missing(sessions, drafts[1..]);
      MissingIs(sessions, drafts[1..]);
      if StemsDistinct(drafts) {
        forall j | 0 <= j < |rest| ensures drafts[0].stem != rest[j].stem {
          assert rest[j] in rest;
        }
      }
    }
  }

  lemma {:induction false} AfterSnoc(files: Files, ws: seq<Write>, w: Write)
    ensures AfterWrites(files, ws + [w]) == Perform(AfterWrites(files, ws), w)
  {
    assert (ws + [w])[..|ws|] == ws;
  }

  lemma {:induction false} WithDraftsSnoc(sessions: map<string, Session>, drafts: seq<Draft>, s: Draft)
    ensures WithDrafts(sessions, drafts + [s]) ==
      (var before := WithDrafts(sessions, drafts); if s.stem in before then before else before[s.stem := s.session])
  {
    assert (drafts + [s])[..|drafts|] == drafts;
  }

  /** The first k missing sessions, written: each lands on its exact path. */
  lemma {:induction false} SessionsLand(files: Files, missing: seq<Draft>, k: nat)
    requires k <= |missing| && StemsDistinct(missing)
    requires forall i :: 0 <= i < |missing| ==> missing[i].stem !in files.sessions
    ensures AfterWrites(files, SessionWrites(missing)[..k]) ==
      files.(sessions := WithDrafts(files.sessions, missing[..k]))
  {
    if k > 0 {
      SessionsLand(files, missing, k - 1);
      SessionLands(files, missing, k - 1);
      assert SessionWrites(missing)[..k] == SessionWrites(missing)[..k - 1] + [WriteSession(missing[k - 1])];
      AfterSnoc(files, SessionWrites(missing)[..k - 1], WriteSession(missing[k - 1]));
    }
  }

  /** The next missing session finds its exact path free. */
  lemma {:induction false} SessionLands(files: Files, missing: seq<Draft>, k: nat)
    requires k < |missing| && StemsDistinct(missing) && missing[k].stem !in files.sessions
    ensures Perform(files.(sessions := WithDrafts(files.sessions, missing[..k])), WriteSession(missing[k])) ==
            files.(sessions := WithDrafts(files.sessions, missing[..k + 1]))
  {
    WithDraftsHas(files.sessions, missing[..k], missing[k].stem);
    assert missing[..k + 1] == missing[..k] + [missing[k]];
    WithDraftsSnoc(files.sessions, missing[..k], missing[k]);
  }

  lemma {:induction false} MissingAreFree(sessions: map<string, Session>, drafts: seq<Draft>)
    requires StemsDistinct(drafts)
    ensures StemsDistinct(Missing(sessions, drafts))
    ensures forall i :: 0 <= i < |Missing(sessions, drafts)| ==> Missing(sessions, drafts)[i].stem !in sessions
  {
    MissingIs(sessions, drafts);
    var missing := Missing(sessions, drafts);
    forall i | 0 <= i < |missing| ensures missing[i].stem !in sessions {
      assert missing[i] in missing;
    }
  }

  lemma {:induction false} PartKnown(sessions: map<string, Session>, drafts: seq<Draft>, k: nat, name: string)
    requires StemsDistinct(drafts) && k <= |Missing(sessions, drafts)|
    requires name in WithDrafts(sessions, Missing(sessions, drafts)[..k])
    ensures name in WithDrafts(sessions, drafts)
    ensures WithDrafts(sessions, Missing(sessions, drafts)[..k])[name] == WithDrafts(sessions, drafts)[name]
  {
    var missing := Missing(sessions, drafts);
    MissingIs(sessions, drafts);
    if name in sessions {
      WithDraftsKeeps(sessions, missing[..k], name);
      WithDraftsKeeps(sessions, drafts, name);
    } else {
      WithDraftsHas(sessions, missing[..k], name);
      var i :| 0 <= i < k && missing[..k][i].stem == name;
      assert missing[i] in missing;
      var j :| 0 <= j < |drafts| && drafts[j] == missing[i];
      WithDraftsAdds(sessions, missing[..k], i);
      WithDraftsAdds(sessions, drafts, j);
    }
  }

  lemma {:induction false} PartIsBetween(sessions: map<string, Session>, drafts: seq<Draft>, k: nat)
    requires StemsDistinct(drafts) && k <= |Missing(sessions, drafts)|
    ensures Between(sessions, WithDrafts(sessions, Missing(sessions, drafts)[..k]), drafts)
  {
    var part := WithDrafts(sessions, Missing(sessions, drafts)[..k]);
    forall name | name in sessions ensures name in part && part[name] == sessions[name] {
      WithDraftsKeeps(sessions, Missing(sessions, drafts)[..k], name);
    }
    forall name | name in part
      ensures name in WithDrafts(sessions, drafts) && part[name] == WithDrafts(sessions, drafts)[name]
    {
      PartKnown(sessions, drafts, k, name);
    }
  }

  lemma {:induction false} MissingReaches(sessions: map<string, Session>, drafts: seq<Draft>, name: string)
    requires name in WithDrafts(sessions, drafts)
    ensures name in WithDrafts(sessions, Missing(sessions, drafts))
  {
    MissingIs(sessions, drafts);
    WithDraftsHas(sessions, drafts, name);
    WithDraftsHas(sessions, Missing(sessions, drafts), name);
    if name !in sessions {
      var i :| 0 <= i < |drafts| && drafts[i].stem == name;
      assert drafts[i] in Missing(sessions, drafts);
    }
  }

  /** Writing the missing drafts writes all drafts. */
  lemma {:induction false} MissingCompletes(sessions: map<string, Session>, drafts: seq<Draft>)
    requires StemsDistinct(drafts)
    ensures WithDrafts(sessions, Missing(sessions, drafts)) == WithDrafts(sessions, drafts)
  {
    var missing := Missing(sessions, drafts);
    var part, all := WithDrafts(sessions, missing), WithDrafts(sessions, drafts);
    assert missing[..|missing|] == missing;
    forall name | name in all ensures name in part {
      MissingReaches(sessions, drafts, name);
    }
    forall name | name in part ensures name in all && part[name] == all[name] {
      PartKnown(sessions, drafts, |missing|, name);
    }
    assert part.Keys == all.Keys;
  }

  // --- The writes after the sessions ----------------------------------------------------

  lemma {:induction false} AfterConcat(files: Files, xs: seq<Write>, ys: seq<Write>)
    ensures AfterWrites(files, xs + ys) == AfterWrites(AfterWrites(files, xs), ys)
  {
    if ys == [] {
      assert xs + ys == xs;
    } else {
      var init := ys[..|ys| - 1];
      assert (xs + ys)[..|xs + ys| - 1] == xs + init;
      AfterConcat(files, xs, init);
    }
  }

  /** The files after the first j later writes. */
  function LaterState(files: Files, plan: Plan, j: nat): Files {
    var n := if plan.brief.Some? then 1 else 0;
    var archives := plan.handoff.ArchiveAndRemove?;
    files.(brief := if plan.brief.Some? && j > 0 then plan.brief.value else files.brief,
           archive := if archives && j > n then files.handoff else files.archive,
           handoff := if archives && j > n + 1 then None else files.handoff)
  }

  lemma {:induction false} LaterStep(files: Files, plan: Plan, j: nat)
    requires j < |LaterWrites(plan)|
    ensures Perform(LaterState(files, plan, j), LaterWrites(plan)[j]) == LaterState(files, plan, j + 1)
  {
  }

  lemma {:induction false} LaterLand(files: Files, plan: Plan, j: nat)
    requires j <= |LaterWrites(plan)|
    ensures AfterWrites(files, LaterWrites(plan)[..j]) == LaterState(files, plan, j)
  {
    if j > 0 {
      LaterLand(files, plan, j - 1);
      NextLands(files, LaterWrites(plan), j - 1);
      LaterStep(files, plan, j - 1);
    } else {
      LaterStart(files, plan);
    }
  }

  lemma {:induction false} NextLands(files: Files, ws: seq<Write>, j: nat)
    requires j < |ws|
    ensures AfterWrites(files, ws[..j + 1]) == Perform(AfterWrites(files, ws[..j]), ws[j])
  {
    assert ws[..j + 1] == ws[..j] + [ws[j]];
    AfterSnoc(files, ws[..j], ws[j]);
  }

  lemma {:induction false} LaterStart(files: Files, plan: Plan)
    ensures LaterState(files, plan, 0) == files
  {
  }

  /** The state an interrupted attempt leaves, piece by piece. */
  ghost predicate LeftBy(c: Context, files: Files, k: nat, torn: Option<string>, left: Files) {
    var plan := PlanOf(c, files);
    var m := |plan.missing|;
    var copy := m + (if plan.brief.Some? then 1 else 0);
    && Between(files.sessions, left.sessions, c.drafts)
    && left.sessions == WithDrafts(files.sessions, plan.missing[..if k < m then k else m])
    && left.brief == (if plan.brief.Some? && k > m then plan.brief.value else files.brief)
    && (plan.handoff.ArchiveAndRemove? ==>
         && left.handoff == (if k > copy + 1 then None else files.handoff)
         && left.archive == (if k > copy then files.handoff else if k == copy && torn.Some? then torn else None))
    && (!plan.handoff.ArchiveAndRemove? ==> left.handoff == files.handoff && left.archive == files.archive)
    && left.tasks == files.tasks && left.archivedTasks == files.archivedTasks
  }

  /** The files after the first n writes of a plan. */
  lemma {:induction false} PrefixLands(c: Context, files: Files, n: nat)
    requires StemsDistinct(c.drafts) && n <= |Writes(PlanOf(c, files))|
    ensures LeftBy(c, files, n, None, AfterWrites(files, Writes(PlanOf(c, files))[..n]))
  {
    var plan := PlanOf(c, files);
    var ws, m := Writes(plan), |plan.missing|;
    MissingAreFree(files.sessions, c.drafts);
    if n <= m {
      assert ws[..n] == SessionWrites(plan.missing)[..n];
      SessionsLand(files, plan.missing, n);
      PartIsBetween(files.sessions, c.drafts, n);
    } else {
      PastSessions(files, plan, n);
      PartIsBetween(files.sessions, c.drafts, m);
      LaterLand(files.(sessions := WithDrafts(files.sessions, plan.missing[..m])), plan, n - m);
    }
  }

  /** More writes than there are sessions: first all of these, then the later ones. */
  lemma {:induction false} PastSessions(files: Files, plan: Plan, n: nat)
    requires |plan.missing| < n <= |Writes(plan)| && StemsDistinct(plan.missing)
    requires forall i :: 0 <= i < |plan.missing| ==> plan.missing[i].stem !in files.sessions
    ensures var m := |plan.missing|;
            AfterWrites(files, Writes(plan)[..n]) ==
            AfterWrites(files.(sessions := WithDrafts(files.sessions, plan.missing[..m])), LaterWrites(plan)[..n - m])
  {
    var m, sessionWrites := |plan.missing|, SessionWrites(plan.missing);
    assert Writes(plan)[..n] == sessionWrites + LaterWrites(plan)[..n - m];
    assert sessionWrites[..m] == sessionWrites;
    AfterConcat(files, sessionWrites, LaterWrites(plan)[..n - m]);
    SessionsLand(files, plan.missing, m);
  }

  lemma {:induction false} InterruptedLeaves(c: Context, files: Files, k: nat, torn: Option<string>)
    requires StemsDistinct(c.drafts)
    ensures LeftBy(c, files, k, torn, Interrupted(files, Writes(PlanOf(c, files)), k, torn))
  {
    var plan := PlanOf(c, files);
    var ws := Writes(plan);
    assert ws[..|ws|] == ws;
    PrefixLands(c, files, if k < |ws| then k else |ws|);
    CopyIsAt(plan, k);
  }

  /** Write number k is the copy exactly when k counts the sessions and the brief. */
  lemma {:induction false} CopyIsAt(plan: Plan, k: nat)
    ensures var copy := |plan.missing| + (if plan.brief.Some? then 1 else 0);
            && |Writes(plan)| == copy + (if plan.handoff.ArchiveAndRemove? then 2 else 0)
            && (k < |Writes(plan)| ==> (Writes(plan)[k].CopyHandoff? <==> k == copy))
  {
  }

  // --- Starting over ---------------------------------------------------------------------

  /** What a whole run ends with. */
  lemma {:induction false} MigratedIs(c: Context, files: Files)
    requires StemsDistinct(c.drafts)
    ensures var done := Migrated(c, files);
            && done.sessions == WithDrafts(files.sessions, c.drafts)
            && done.brief == PlanOf(c, files).brief.GetOr(files.brief)
            && (PlanOf(c, files).handoff.ArchiveAndRemove? ==> done.handoff == None && done.archive == files.handoff)
            && (!PlanOf(c, files).handoff.ArchiveAndRemove? ==> done.handoff == files.handoff && done.archive == files.archive)
  {
    var ws := Writes(PlanOf(c, files));
    InterruptedLeaves(c, files, |ws|, None);
    assert ws[..|ws|] == ws;
    var missing := Missing(files.sessions, c.drafts);
    assert missing[..|missing|] == missing;
    MissingCompletes(files.sessions, c.drafts);
    CopyIsAt(PlanOf(c, files), 0);
  }

  /** After any attempt, however far it got, a whole run ends with the same sessions and brief. */
  lemma {:induction false} OneCutIsHarmless(c: Context, files: Files, k: nat, torn: Option<string>)
    requires StemsDistinct(c.drafts)
    ensures var left := Interrupted(files, Writes(PlanOf(c, files)), k, torn);
            && Migrated(c, left).sessions == Migrated(c, files).sessions
            && Migrated(c, left).brief == Migrated(c, files).brief
  {
    var left := Interrupted(files, Writes(PlanOf(c, files)), k, torn);
    InterruptedLeaves(c, files, k, torn);
    BetweenCatchesUp(files.sessions, left.sessions, c.drafts);
    MigratedIs(c, files);
    MigratedIs(c, left);
    BriefSettles(c.slug, files, c.schema);
    SameBriefPlan(c, files, left);
  }

  /** The brief plan looks at the brief and the task files only. */
  lemma {:induction false} SameBriefPlan(c: Context, files: Files, left: Files)
    requires left.tasks == files.tasks && left.archivedTasks == files.archivedTasks
    ensures PlanBrief(c.slug, left, c.schema) == PlanBrief(c.slug, files.(brief := left.brief), c.schema)
  {
  }

  /**
   * Interrupted any number of times after any write, and each time planned afresh,
   * the migration ends with the sessions and the brief of one uninterrupted run.
   */
  lemma {:induction false} ResumesToSame(c: Context, files: Files, cuts: seq<Cut>)
    requires StemsDistinct(c.drafts)
    ensures Migrated(c, Attempted(c, files, cuts)).sessions == WithDrafts(files.sessions, c.drafts)
    ensures Migrated(c, Attempted(c, files, cuts)).sessions == Migrated(c, files).sessions
    ensures Migrated(c, Attempted(c, files, cuts)).brief == Migrated(c, files).brief
  {
    MigratedIs(c, files);
    if cuts != [] {
      var init, last := cuts[..|cuts| - 1], cuts[|cuts| - 1];
      ResumesToSame(c, files, init);
      OneCutIsHarmless(c, Attempted(c, files, init), last.k, last.torn);
    }
  }

  /** At every stop the sessions are the old ones plus some drafts, each at most once and at its own path. */
  lemma {:induction false} NothingDuplicated(c: Context, files: Files, cuts: seq<Cut>)
    requires StemsDistinct(c.drafts)
    ensures Between(files.sessions, Attempted(c, files, cuts).sessions, c.drafts)
  {
    BetweenSame(files.sessions, c.drafts);
    if cuts != [] {
      var init, last := cuts[..|cuts| - 1], cuts[|cuts| - 1];
      NothingDuplicated(c, files, init);
      var before := Attempted(c, files, init);
      InterruptedLeaves(c, before, last.k, last.torn);
      BetweenCatchesUp(files.sessions, before.sessions, c.drafts);
    }
  }

  /** A closing session is on disk only with its opening one, at every stop. */
  lemma {:induction false} OpeningComesFirst(c: Context, files: Files, cuts: seq<Cut>)
    requires |c.drafts| == 2 && StemsDistinct(c.drafts)
    requires c.drafts[1].stem in files.sessions ==> c.drafts[0].stem in files.sessions
    ensures var sessions := Attempted(c, files, cuts).sessions;
            c.drafts[1].stem in sessions ==> c.drafts[0].stem in sessions
  {
    if cuts != [] {
      var init, last := cuts[..|cuts| - 1], cuts[|cuts| - 1];
      OpeningComesFirst(c, files, init);
      var before := Attempted(c, files, init);
      InterruptedLeaves(c, before, last.k, last.torn);
      PrefixOpensFirst(before.sessions, c.drafts, last.k);
    }
  }

  lemma {:induction false} PrefixOpensFirst(sessions: map<string, Session>, drafts: seq<Draft>, k: nat)
    requires |drafts| == 2 && StemsDistinct(drafts)
    requires drafts[1].stem in sessions ==> drafts[0].stem in sessions
    ensures var missing := Missing(sessions, drafts);
            var next := WithDrafts(sessions, missing[..if k < |missing| then k else |missing|]);
            drafts[1].stem in next ==> drafts[0].stem in next
  {
    var missing := Missing(sessions, drafts);
    var reach := if k < |missing| then k else |missing|;
    assert drafts[1..] == [drafts[1]] && drafts[1..][1..] == [];
    assert Missing(sessions, drafts[1..]) == if drafts[1].stem in sessions then [] else [drafts[1]];
    WithDraftsHas(sessions, missing[..reach], drafts[0].stem);
    WithDraftsHas(sessions, missing[..reach], drafts[1].stem);
    if drafts[0].stem !in sessions {
      assert missing == [drafts[0], drafts[1]];
      if reach > 0 {
        assert missing[..reach][0] == drafts[0];
      }
    }
  }

  // --- The handoff text ---------------------------------------------------------------------

  /** The text is in handoff.md, or in the archive. */
  predicate TextKept(files: Files, text: string) {
    files.handoff == Some(text) || files.archive == Some(text)
  }

  lemma {:induction false} CutKeepsText(c: Context, files: Files, k: nat, torn: Option<string>, text: string)
    requires StemsDistinct(c.drafts) && TextKept(files, text)
    ensures TextKept(Interrupted(files, Writes(PlanOf(c, files)), k, torn), text)
  {
    InterruptedLeaves(c, files, k, torn);
  }

  /** At every stop, and after the final run, the handoff text is in at least one file. */
  lemma {:induction false} TextNeverLost(c: Context, files: Files, cuts: seq<Cut>, text: string)
    requires StemsDistinct(c.drafts) && TextKept(files, text)
    ensures TextKept(Attempted(c, files, cuts), text)
    ensures TextKept(Migrated(c, Attempted(c, files, cuts)), text)
  {
    if cuts != [] {
      var init, last := cuts[..|cuts| - 1], cuts[|cuts| - 1];
      TextNeverLost(c, files, init, text);
      CutKeepsText(c, Attempted(c, files, init), last.k, last.torn, text);
    }
    MigratedIs(c, Attempted(c, files, cuts));
  }

  /** Both files are there: no later run touches either. */
  predicate Stranded(files: Files) {
    files.handoff.Some? && files.archive.Some?
  }

  lemma {:induction false} StrandedStays(c: Context, files: Files, cuts: seq<Cut>)
    requires StemsDistinct(c.drafts) && Stranded(files)
    ensures Attempted(c, files, cuts).handoff == files.handoff && Attempted(c, files, cuts).archive == files.archive
  {
    if cuts != [] {
      var init, last := cuts[..|cuts| - 1], cuts[|cuts| - 1];
      StrandedStays(c, files, init);
      InterruptedLeaves(c, Attempted(c, files, init), last.k, last.torn);
    }
  }

  /** The attempt stopped with the copy begun and the removal not done. */
  predicate StopsMidway(c: Context, files: Files, cut: Cut) {
    var plan := PlanOf(c, files);
    var copy := |plan.missing| + (if plan.brief.Some? then 1 else 0);
    plan.handoff.ArchiveAndRemove? && (cut.k == copy + 1 || (cut.k == copy && cut.torn.Some?))
  }

  /** An attempt leaves both files exactly when they were both there, or it stopped midway. */
  lemma {:induction false} CutStrandsIff(c: Context, files: Files, cut: Cut)
    requires StemsDistinct(c.drafts)
    ensures Stranded(Interrupted(files, Writes(PlanOf(c, files)), cut.k, cut.torn)) <==>
      Stranded(files) || StopsMidway(c, files, cut)
  {
    InterruptedLeaves(c, files, cut.k, cut.torn);
  }

  /**
   * handoff.md outlives the final run exactly when some attempt stopped between copy and
   * removal, or both files were there from the start.
   */
  lemma {:induction false} HandoffStaysIff(c: Context, files: Files, cuts: seq<Cut>)
    requires StemsDistinct(c.drafts)
    ensures Migrated(c, Attempted(c, files, cuts)).handoff.Some? <==>
      Stranded(files) || AnyMidway(c, files, cuts)
  {
    MigratedIs(c, Attempted(c, files, cuts));
    StrandedIff(c, files, cuts);
  }

  /** An initiative with nothing to migrate but its handoff. */
  function OnlyHandoff(): Files {
    Files(map[], RawBrief("backburner", None, None, None, None, ""), Some("text"), None, [], [])
  }

  /** One attempt that stops after the copy leaves the handoff for good. */
  lemma {:induction false} HandoffStays(c: Context)
    requires c.drafts == []
    ensures Migrated(c, OnlyHandoff()).handoff.None?
    ensures Migrated(c, Attempted(c, OnlyHandoff(), [Cut(1, None)])).handoff == Some("text")
  {
    var cuts := [Cut(1, None)];
    assert cuts[..0] == [];
    assert PlanOf(c, OnlyHandoff()) == Plan([], None, ArchiveAndRemove);
    assert AnyMidway(c, OnlyHandoff(), cuts);
    HandoffStaysIff(c, OnlyHandoff(), cuts);
    HandoffStaysIff(c, OnlyHandoff(), []);
    assert Attempted(c, OnlyHandoff(), []) == OnlyHandoff();
    TextNeverLost(c, OnlyHandoff(), cuts, "text");
    StillThere(c, OnlyHandoff(), cuts);
  }

  /** A handoff that is there after a run is the one there was. */
  lemma {:induction false} StillThere(c: Context, files: Files, cuts: seq<Cut>)
    requires StemsDistinct(c.drafts)
    ensures var end := Migrated(c, Attempted(c, files, cuts)).handoff;
            end.Some? ==> end == files.handoff
  {
    MigratedIs(c, Attempted(c, files, cuts));
    AttemptedHandoff(c, files, cuts);
  }

  lemma {:induction false} AttemptedHandoff(c: Context, files: Files, cuts: seq<Cut>)
    requires StemsDistinct(c.drafts)
    ensures Attempted(c, files, cuts).handoff.Some? ==> Attempted(c, files, cuts).handoff == files.handoff
  {
    if cuts != [] {
      var init, last := cuts[..|cuts| - 1], cuts[|cuts| - 1];
      AttemptedHandoff(c, files, init);
      InterruptedLeaves(c, Attempted(c, files, init), last.k, last.torn);
    }
  }

  /** Some attempt stops midway. */
  predicate AnyMidway(c: Context, files: Files, cuts: seq<Cut>) {
    cuts != []
    && (AnyMidway(c, files, cuts[..|cuts| - 1])
        || StopsMidway(c, Attempted(c, files, cuts[..|cuts| - 1]), cuts[|cuts| - 1]))
  }

  lemma {:induction false} StrandedIff(c: Context, files: Files, cuts: seq<Cut>)
    requires StemsDistinct(c.drafts)
    ensures Stranded(Attempted(c, files, cuts)) <==> Stranded(files) || AnyMidway(c, files, cuts)
  {
    if cuts != [] {
      var init, last := cuts[..|cuts| - 1], cuts[|cuts| - 1];
      StrandedIff(c, files, init);
      CutStrandsIff(c, Attempted(c, files, init), last);
    }
  }

  // --- Worktrees on the way to v4 ---------------------------------------------------------

  /**
   * The brief's worktrees, which only v4 moves elsewhere, survive this step exactly
   * when there is nothing to repair and nothing to backfill (a mark is there, or no
   * prefix, or no numbered task file of it), or the schema refuses the merged brief.
   */
  lemma {:induction false} WorktreesSurviveIff(c: Context, files: Files)
    requires StemsDistinct(c.drafts) && files.brief.worktrees.Some?
    ensures var b := files.brief;
            Migrated(c, files).brief.worktrees == b.worktrees <==>
            || (&& !(c.slug == REPAIRED_SLUG && b.state == "active")
                && (b.taskSeq.Some? || b.taskPrefix.GetOr("") == "" || !HasNumbered(files, b.taskPrefix.value)))
            || !c.schema(Merged(c.slug, files))
  {
    MigratedIs(c, files);
    NothingToBackfillIff(files, RepairBrief(c.slug, files.brief));
  }

  /** A brief with worktrees and no mark, and one numbered task file of its prefix. */
  const UNMARKED: Files :=
    Files(map[], RawBrief("backburner", None, Some("T"), None, Some("main: ."), ""), None, None, [TaskFile("T", 7)], [])

  /** The mark is backfilled, and the worktrees are gone. */
  lemma {:induction false} WorktreesAreDropped()
    ensures var done := Migrated(Context("s", [], (b: RawBrief) => true), UNMARKED);
            UNMARKED.brief.worktrees.Some? && done.brief.worktrees.None? && done.brief.taskSeq == Some(7)
  {
    var c := Context("s", [], (b: RawBrief) => true);
    MigratedIs(c, UNMARKED);
    var all := UNMARKED.tasks + UNMARKED.archivedTasks;
    assert all == [TaskFile("T", 7)] && all[..0] == [];
    assert MaxNumber(all, "T") == 7;
  }
}
