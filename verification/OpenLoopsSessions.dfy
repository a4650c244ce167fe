/** The sessions of a migrated handoff. */
module OpenLoopsSessions {
  // src/migrations/v2-to-v3-open-loops.ts: buildOpenSession, buildAbandonSession, draftSessions: what the
  // synthetic sessions of a proposal entry hold, and that a closing one never names a loop that is not there.

  import opened Prelude
  import opened OpenLoopsPlan
  import opened OpenLoopsMigration

  /** The file name of the session that opens the entry's loops, and of the one that closes some. */
  function OpenStem(entry: Entry): string {
    entry.ended.stamp + "-" + entry.sessionId
  }

  function CloseStem(entry: Entry, closedAt: Instant): string {
    closedAt.stamp + "-" + entry.sessionId + "-abandonment"
  }

  /** The context of an entry's migration. */
  function For(slug: string, entry: Entry, abandonedAt: Option<Instant>, schema: RawBrief -> bool): Context
    requires DraftSessions(Some(entry), abandonedAt).Some?
  {
    Context(slug, DraftSessions(Some(entry), abandonedAt).value, schema)
  }

  ghost predicate Proposable(entry: Entry, abandonedAt: Option<Instant>) {
    && ValidInstant(entry.ended) && (abandonedAt.Some? ==> ValidInstant(abandonedAt.value))
    && DraftSessions(Some(entry), abandonedAt).Some?
  }

  // --- What a session holds -------------------------------------------------------------

  /** The session opens every proposed step, live or abandoned, at the instant of the handoff. */
  ghost predicate Opens(s: Session, entry: Entry) {
    && s.id == entry.sessionId && s.started == s.ended == entry.ended && s.body == entry.body
    && s.resolves == [] && |s.nextSteps| == |entry.nextSteps|
    && forall i :: 0 <= i < |entry.nextSteps| ==>
         s.nextSteps[i].id == entry.nextSteps[i].id && s.nextSteps[i].text == entry.nextSteps[i].text
  }

  /** The session closes the abandoned steps, with their notes, and nothing else. */
  ghost predicate Closes(s: Session, entry: Entry, closedAt: Instant) {
    && s.started == s.ended == closedAt && s.nextSteps == []
    && forall ref, note :: Resolve(ref, note) in s.resolves <==>
         exists i :: 0 <= i < |entry.nextSteps| && entry.nextSteps[i].abandoned == Some(note)
           && ref == OpenStem(entry) + "#" + entry.nextSteps[i].id
  }

  /** First the opening session, at its stem; then, if a step is abandoned, the closing one at its own. */
  lemma {:induction false} DraftsAre(entry: Entry, abandonedAt: Option<Instant>)
    requires DraftSessions(Some(entry), abandonedAt).Some?
    ensures var drafts := DraftSessions(Some(entry), abandonedAt).value;
            && |drafts| == (if exists i :: 0 <= i < |entry.nextSteps| && entry.nextSteps[i].abandoned.Some? then 2 else 1)
            && drafts[0].stem == OpenStem(entry) && Opens(drafts[0].session, entry)
            && (|drafts| == 2 ==>
                  && abandonedAt.Some? && drafts[1].stem == CloseStem(entry, abandonedAt.value)
                  && Closes(drafts[1].session, entry, abandonedAt.value))
  {
    if HasAbandoned(entry) {
      var s := AbandonSession(entry, abandonedAt.value);
      ConcatAssoc(abandonedAt.value.stamp + "-", entry.sessionId, "-abandonment");
      forall ref, note
        ensures Resolve(ref, note) in s.resolves <==>
          exists i :: 0 <= i < |entry.nextSteps| && entry.nextSteps[i].abandoned == Some(note)
            && ref == OpenStem(entry) + "#" + entry.nextSteps[i].id
      {
        ClosesTheAbandoned(entry.nextSteps, OpenStem(entry), ref, note);
        assert forall i :: 0 <= i < |entry.nextSteps| ==> Opened(entry.nextSteps)[i].id == entry.nextSteps[i].id;
      }
    }
  }

  lemma {:induction false} StemsApart(entry: Entry, abandonedAt: Option<Instant>)
    requires Proposable(entry, abandonedAt)
    ensures StemsDistinct(DraftSessions(Some(entry), abandonedAt).value)
  {
    DraftsAreProper(Some(entry), abandonedAt);
  }

  // --- After a whole run ----------------------------------------------------------------------

  /**
   * However often it was stopped before, a whole run leaves every proposed step open in
   * the session named for the handoff, unless a session of that name was there already.
   */
  lemma {:induction false} EveryLoopIsOpened(
    slug: string, entry: Entry, abandonedAt: Option<Instant>, schema: RawBrief -> bool, files: Files, cuts: seq<Cut>)
    requires Proposable(entry, abandonedAt) && OpenStem(entry) !in files.sessions
    ensures var c := For(slug, entry, abandonedAt, schema);
            var sessions := Migrated(c, Attempted(c, files, cuts)).sessions;
            OpenStem(entry) in sessions && Opens(sessions[OpenStem(entry)], entry)
  {
    var c := For(slug, entry, abandonedAt, schema);
    StemsApart(entry, abandonedAt);
    DraftsAre(entry, abandonedAt);
    ResumesToSame(c, files, cuts);
    WithDraftsAdds(files.sessions, c.drafts, 0);
  }

  // --- At every stop ----------------------------------------------------------------------------

  /** Every resolve in a session that was not there before names a step of the session at `stem`. */
  ghost predicate ResolvesNameSteps(before: map<string, Session>, now: map<string, Session>, stem: string) {
    forall name, r :: name in now && name !in before && r in now[name].resolves ==> NamesStep(now, stem, r)
  }

  /** The resolve names a step of the session at `stem`. */
  ghost predicate NamesStep(now: map<string, Session>, stem: string, r: Resolve) {
    stem in now && exists n :: n in now[stem].nextSteps && r.ref == stem + "#" + n.id
  }

  /** The session that had the opening session's name before, if one had, has each abandoned step. */
  ghost predicate NameIsFit(files: Files, entry: Entry) {
    OpenStem(entry) in files.sessions ==>
      forall i :: 0 <= i < |entry.nextSteps| && entry.nextSteps[i].abandoned.Some? ==>
        exists n :: n in files.sessions[OpenStem(entry)].nextSteps && n.id == entry.nextSteps[i].id
  }

  /** What a session that was not there before is. */
  lemma {:induction false} NewSessionIs(
    slug: string, entry: Entry, abandonedAt: Option<Instant>, schema: RawBrief -> bool, files: Files, cuts: seq<Cut>,
    name: string)
    requires Proposable(entry, abandonedAt)
    requires name !in files.sessions
    requires name in Attempted(For(slug, entry, abandonedAt, schema), files, cuts).sessions
    ensures var s := Attempted(For(slug, entry, abandonedAt, schema), files, cuts).sessions[name];
            (name == OpenStem(entry) && Opens(s, entry))
            || (abandonedAt.Some? && name == CloseStem(entry, abandonedAt.value) && Closes(s, entry, abandonedAt.value))
  {
    var c := For(slug, entry, abandonedAt, schema);
    StemsApart(entry, abandonedAt);
    DraftsAre(entry, abandonedAt);
    NothingDuplicated(c, files, cuts);
    WithDraftsHas(files.sessions, c.drafts, name);
    var i :| 0 <= i < |c.drafts| && c.drafts[i].stem == name;
    WithDraftsAdds(files.sessions, c.drafts, i);
  }

  lemma {:induction false} OneResolve(
    slug: string, entry: Entry, abandonedAt: Option<Instant>, schema: RawBrief -> bool, files: Files, cuts: seq<Cut>,
    name: string, r: Resolve)
    requires Proposable(entry, abandonedAt) && NameIsFit(files, entry)
    requires var now := Attempted(For(slug, entry, abandonedAt, schema), files, cuts).sessions;
             name in now && name !in files.sessions && r in now[name].resolves
    ensures NamesStep(Attempted(For(slug, entry, abandonedAt, schema), files, cuts).sessions, OpenStem(entry), r)
  {
    var c, stem := For(slug, entry, abandonedAt, schema), OpenStem(entry);
    var now := Attempted(c, files, cuts).sessions;
    NewSessionIs(slug, entry, abandonedAt, schema, files, cuts, name);
    assert Resolve(r.ref, r.note) == r;
    var i :| 0 <= i < |entry.nextSteps| && entry.nextSteps[i].abandoned == Some(r.note)
      && r.ref == stem + "#" + entry.nextSteps[i].id;
    DraftsAre(entry, abandonedAt);
    StemsApart(entry, abandonedAt);
    OpeningComesFirst(c, files, cuts);
    if stem in files.sessions {
      NothingDuplicated(c, files, cuts);
    } else {
      NewSessionIs(slug, entry, abandonedAt, schema, files, cuts, stem);
      OpeningIsNoClosing(entry, abandonedAt);
      assert now[stem].nextSteps[i] in now[stem].nextSteps;
    }
  }

  lemma {:induction false} OpeningIsNoClosing(entry: Entry, abandonedAt: Option<Instant>)
    requires Proposable(entry, abandonedAt) && abandonedAt.Some?
    ensures OpenStem(entry) != CloseStem(entry, abandonedAt.value)
  {
    StemsDiffer(entry, abandonedAt.value);
    ConcatAssoc(abandonedAt.value.stamp + "-", entry.sessionId, "-abandonment");
  }

  /**
   * At every stop, each loop a new session closes is one the opening session opened:
   * always, exactly if no other session with the opening one's name lacks it, or the
   * closing one was there from the start.
   */
  lemma {:induction false} ResolvesNameStepsIff(
    slug: string, entry: Entry, abandonedAt: Option<Instant>, schema: RawBrief -> bool, files: Files)
    requires Proposable(entry, abandonedAt)
    ensures var c := For(slug, entry, abandonedAt, schema);
            (forall cuts :: ResolvesNameSteps(files.sessions, Attempted(c, files, cuts).sessions, OpenStem(entry))) <==>
            NameIsFit(files, entry)
            || (abandonedAt.Some? && CloseStem(entry, abandonedAt.value) in files.sessions)
  {
    var c := For(slug, entry, abandonedAt, schema);
    if NameIsFit(files, entry) {
      forall cuts ensures ResolvesNameSteps(files.sessions, Attempted(c, files, cuts).sessions, OpenStem(entry)) {
        AllResolve(slug, entry, abandonedAt, schema, files, cuts);
      }
    } else if abandonedAt.Some? && CloseStem(entry, abandonedAt.value) in files.sessions {
      forall cuts ensures ResolvesNameSteps(files.sessions, Attempted(c, files, cuts).sessions, OpenStem(entry)) {
        NothingToResolve(slug, entry, abandonedAt, schema, files, cuts);
      }
    } else {
      var cuts := UnfitNameShows(slug, entry, abandonedAt, schema, files);
      assert !ResolvesNameSteps(files.sessions, Attempted(c, files, cuts).sessions, OpenStem(entry));
    }
  }

  lemma {:induction false} SameAfterHash(stem: string, a: string, b: string)
    requires stem + "#" + a == stem + "#" + b
    ensures a == b
  {
    assert (stem + "#" + a)[|stem| + 1..] == a && (stem + "#" + b)[|stem| + 1..] == b;
  }

  lemma {:induction false} AllResolve(
    slug: string, entry: Entry, abandonedAt: Option<Instant>, schema: RawBrief -> bool, files: Files, cuts: seq<Cut>)
    requires Proposable(entry, abandonedAt) && NameIsFit(files, entry)
    ensures var now := Attempted(For(slug, entry, abandonedAt, schema), files, cuts).sessions;
            ResolvesNameSteps(files.sessions, now, OpenStem(entry))
  {
    var now, stem := Attempted(For(slug, entry, abandonedAt, schema), files, cuts).sessions, OpenStem(entry);
    forall name, r: Resolve | name in now && name !in files.sessions && r in now[name].resolves
      ensures NamesStep(now, stem, r)
    {
      OneResolve(slug, entry, abandonedAt, schema, files, cuts, name, r);
    }
  }

  /** With the closing session there from the start, no new one resolves anything. */
  lemma {:induction false} NothingToResolve(
    slug: string, entry: Entry, abandonedAt: Option<Instant>, schema: RawBrief -> bool, files: Files, cuts: seq<Cut>)
    requires Proposable(entry, abandonedAt)
    requires abandonedAt.Some? && CloseStem(entry, abandonedAt.value) in files.sessions
    ensures var now := Attempted(For(slug, entry, abandonedAt, schema), files, cuts).sessions;
            ResolvesNameSteps(files.sessions, now, OpenStem(entry))
  {
    var now := Attempted(For(slug, entry, abandonedAt, schema), files, cuts).sessions;
    forall name, r: Resolve | name in now && name !in files.sessions ensures r !in now[name].resolves {
      NewSessionIs(slug, entry, abandonedAt, schema, files, cuts, name);
    }
  }

  /** An attempt that is not cut short is a whole run. */
  lemma {:induction false} UncutIsWhole(c: Context, files: Files) returns (cuts: seq<Cut>)
    ensures Attempted(c, files, cuts) == Migrated(c, files)
  {
    cuts := [Cut(|Writes(PlanOf(c, files))|, None)];
    assert cuts[..0] == [];
    assert Attempted(c, files, cuts[..0]) == files;
  }

  /** A whole run writes the closing session, and leaves one that has the opening one's name. */
  lemma {:induction false} ClosingLands(
    slug: string, entry: Entry, abandonedAt: Option<Instant>, schema: RawBrief -> bool, files: Files)
    returns (cuts: seq<Cut>)
    requires Proposable(entry, abandonedAt) && HasAbandoned(entry) && OpenStem(entry) in files.sessions
    requires abandonedAt.Some? && CloseStem(entry, abandonedAt.value) !in files.sessions
    ensures var now := Attempted(For(slug, entry, abandonedAt, schema), files, cuts).sessions;
            && CloseStem(entry, abandonedAt.value) in now
            && Closes(now[CloseStem(entry, abandonedAt.value)], entry, abandonedAt.value)
            && OpenStem(entry) in now && now[OpenStem(entry)] == files.sessions[OpenStem(entry)]
  {
    var c := For(slug, entry, abandonedAt, schema);
    DraftsAre(entry, abandonedAt);
    StemsApart(entry, abandonedAt);
    cuts := UncutIsWhole(c, files);
    MigratedIs(c, files);
    NothingDuplicated(c, files, cuts);
    WithDraftsAdds(files.sessions, c.drafts, 1);
  }

  /** A resolve of a step the session does not have names none of its steps. */
  lemma {:induction false} NamesNoStep(now: map<string, Session>, stem: string, id: string, note: string)
    requires stem in now && forall n :: n in now[stem].nextSteps ==> n.id != id
    ensures !NamesStep(now, stem, Resolve(stem + "#" + id, note))
  {
    forall n | n in now[stem].nextSteps ensures stem + "#" + id != stem + "#" + n.id {
      if stem + "#" + id == stem + "#" + n.id {
        SameAfterHash(stem, id, n.id);
      }
    }
  }

  /** An abandoned step that the session with the opening one's name lacks. */
  lemma {:induction false} LackingStep(files: Files, entry: Entry, abandonedAt: Option<Instant>) returns (i: nat)
    requires Proposable(entry, abandonedAt) && !NameIsFit(files, entry)
    ensures i < |entry.nextSteps| && entry.nextSteps[i].abandoned.Some? && HasAbandoned(entry) && abandonedAt.Some?
    ensures OpenStem(entry) in files.sessions
    ensures forall n :: n in files.sessions[OpenStem(entry)].nextSteps ==> n.id != entry.nextSteps[i].id
  {
    i :| i < |entry.nextSteps| && entry.nextSteps[i].abandoned.Some?
      && forall n :: n in files.sessions[OpenStem(entry)].nextSteps ==> n.id != entry.nextSteps[i].id;
  }

  lemma {:induction false} UnfitNameShows(
    slug: string, entry: Entry, abandonedAt: Option<Instant>, schema: RawBrief -> bool, files: Files)
    returns (cuts: seq<Cut>)
    requires Proposable(entry, abandonedAt) && !NameIsFit(files, entry)
    requires abandonedAt.Some? ==> CloseStem(entry, abandonedAt.value) !in files.sessions
    ensures var c := For(slug, entry, abandonedAt, schema);
            !ResolvesNameSteps(files.sessions, Attempted(c, files, cuts).sessions, OpenStem(entry))
  {
    var stem := OpenStem(entry);
    var i := LackingStep(files, entry, abandonedAt);
    cuts := ClosingLands(slug, entry, abandonedAt, schema, files);
    var now := Attempted(For(slug, entry, abandonedAt, schema), files, cuts).sessions;
    ClosingResolves(now, entry, abandonedAt.value, i);
    NamesNoStep(now, stem, entry.nextSteps[i].id, entry.nextSteps[i].abandoned.value);
  }

  /** The closing session resolves each abandoned step. */
  lemma {:induction false} ClosingResolves(now: map<string, Session>, entry: Entry, closedAt: Instant, i: nat)
    requires i < |entry.nextSteps| && entry.nextSteps[i].abandoned.Some?
    requires CloseStem(entry, closedAt) in now && Closes(now[CloseStem(entry, closedAt)], entry, closedAt)
    ensures Resolve(OpenStem(entry) + "#" + entry.nextSteps[i].id, entry.nextSteps[i].abandoned.value)
            in now[CloseStem(entry, closedAt)].resolves
  {
  }

  // --- An input ------------------------------------------------------------------------------------

  const ENDED := Instant("2026-01-01-1200", 0)

  /** A handoff with one step, abandoned. */
  const ENTRY: Entry := Entry("h", ENDED, "text", [ProposedStep("one", "do it", Some("too late"))])

  /** A session that has the name its opening session would get, and no steps. */
  const TAKEN: Files :=
    Files(map["2026-01-01-1200-h" := Session("h", ENDED, ENDED, [], [], "another")],
          RawBrief("backburner", None, None, None, None, ""), Some("text"), None, [], [])

  /** The opening session is taken to be there, and the closing one then closes a loop no session opened. */
  lemma {:induction false} TakenNameMisleads(slug: string, schema: RawBrief -> bool) returns (cuts: seq<Cut>)
    ensures DraftSessions(Some(ENTRY), Some(ENDED)).Some?
    ensures var now := Attempted(For(slug, ENTRY, Some(ENDED), schema), TAKEN, cuts).sessions;
            !ResolvesNameSteps(TAKEN.sessions, now, OpenStem(ENTRY))
  {
    assert ENTRY.nextSteps[0].abandoned.Some?;
    assert ENDED.stamp + "-" + "h" == "2026-01-01-1200-h";
    assert OpenStem(ENTRY) in TAKEN.sessions;
    OpeningIsNoClosing(ENTRY, Some(ENDED));
    cuts := UnfitNameShows(slug, ENTRY, Some(ENDED), schema, TAKEN);
  }
}
