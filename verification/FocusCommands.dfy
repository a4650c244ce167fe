/**
 * The focus-list commands as they change the brief files one by one (src/commands/focus.ts,
 * unfocus.ts, pause.ts, unpause.ts, new.ts). Each method works on the briefs it loaded, builds
 * its change map or its survivors, writes only the briefs that change, and is proved to leave
 * exactly the list its specification gives.
 */
module FocusCommands {
  import opened Prelude
  import opened LockOrder
  import opened FocusRanks

  /** The rank a ranking holds for `slug`. */
  function PriorFrom(ranked: seq<RankedSlug>, slug: string, i: nat): Option<nat>
    decreases |ranked| - i
  {
    if i >= |ranked| then None
    else if ranked[i].slug == slug then Some(ranked[i].rank)
    else PriorFrom(ranked, slug, i + 1)
  }

  lemma {:induction false} PriorIs(ranked: seq<RankedSlug>, slug: string, i: nat)
    ensures var p := PriorFrom(ranked, slug, i);
            && (p.Some? ==> RankedSlug(slug, p.value) in ranked)
            && (p.None? ==> forall j :: i <= j < |ranked| ==> ranked[j].slug != slug)
    decreases |ranked| - i
  {
    if i < |ranked| && ranked[i].slug != slug {
      PriorIs(ranked, slug, i + 1);
    }
  }

  /** A focused initiative's prior rank is the one in its brief; the others have none. */
  lemma {:induction false} PriorInRanking(ps: seq<Initiative>, i: nat)
    requires SlugsDistinct(ps) && i < |ps|
    ensures PriorFrom(BuildRanking(ps), ps[i].slug, 0) == if IsFocused(ps[i]) then Some(RankOf(ps[i])) else None
  {
    var ranked := BuildRanking(ps);
    PriorIs(ranked, ps[i].slug, 0);
    RankedIs(ps);
    SortKeeps(Ranked(ps));
    if IsFocused(ps[i]) {
      assert RankedSlug(ps[i].slug, RankOf(ps[i])) in ranked;
    }
  }

  /** withoutTarget.map(...), with the target pushed last. */
  function FinalRanking(others: seq<RankedSlug>, slug: string, desired: nat): seq<RankedSlug> {
    seq(|others|, i requires 0 <= i < |others| =>
      if others[i].rank >= desired then RankedSlug(others[i].slug, others[i].rank + 1) else others[i])
    + [RankedSlug(slug, desired)]
  }

  /** The new rank of every brief focus rewrites: the target always, another only when it moves. */
  ghost predicate ChangesAre(ps: seq<Initiative>, slug: string, desired: nat, changes: map<string, nat>) {
    && slug in changes && changes[slug] == desired
    && (forall i :: 0 <= i < |ps| && ps[i].slug != slug ==>
         (ps[i].slug in changes <==> IsFocused(ps[i]) && RankOf(ps[i]) >= desired))
    && (forall i :: 0 <= i < |ps| && ps[i].slug != slug && ps[i].slug in changes ==>
         changes[ps[i].slug] == RankOf(ps[i]) + 1)
    && (forall s :: s in changes && s != slug ==> exists i :: 0 <= i < |ps| && ps[i].slug == s)
  }

  /** focus rewrites this brief. */
  predicate Rewrites(x: Initiative, slug: string, desired: nat) {
    x.slug == slug || (IsFocused(x) && RankOf(x) >= desired)
  }

  function Rewritten(ps: seq<Initiative>, slug: string, desired: nat): seq<string> {
    if ps == [] then []
    else
      var last := ps[|ps| - 1];
      Rewritten(ps[..|ps| - 1], slug, desired) + (if Rewrites(last, slug, desired) then [last.slug] else [])
  }

  lemma {:induction false} RewrittenIs(ps: seq<Initiative>, slug: string, desired: nat, s: string)
    ensures s in Rewritten(ps, slug, desired) <==>
            exists i :: 0 <= i < |ps| && ps[i].slug == s && Rewrites(ps[i], slug, desired)
  {
    if ps != [] {
      var init := ps[..|ps| - 1];
      RewrittenIs(init, slug, desired, s);
      assert forall i :: 0 <= i < |init| ==> init[i] == ps[i];
    }
  }

  /** The slugs focus rewrites, in the order it does. */
  function FocusOrder(ps: seq<Initiative>, slug: string, desired: nat): seq<string> {
    SortSlugs(Rewritten(ps, slug, desired))
  }

  lemma {:induction false} OrderOfKeys(
    ps: seq<Initiative>, slug: string, desired: nat, changes: map<string, nat>, keys: seq<string>)
    requires SlugsDistinct(ps) && Find(ps, slug).Some? && ChangesAre(ps, slug, desired, changes)
    requires forall s :: s in keys <==> s in changes
    ensures SortSlugs(keys) == FocusOrder(ps, slug, desired)
  {
    forall s ensures s in keys <==> s in Rewritten(ps, slug, desired) {
      RewrittenIs(ps, slug, desired, s);
    }
    SameSlugsSameOrder(keys, Rewritten(ps, slug, desired));
  }

  /** The survivors among the first `k` that are rewritten, by rank. */
  function Moving(survivors: seq<RankedSlug>, k: nat): seq<string>
    requires k <= |survivors|
  {
    if k == 0 then []
    else Moving(survivors, k - 1) + (if survivors[k - 1].rank != k then [survivors[k - 1].slug] else [])
  }

  lemma {:induction false} MovingIs(survivors: seq<RankedSlug>, q: nat, k: nat)
    requires RankingDistinct(survivors) && q <= |survivors| && k < |survivors|
    ensures survivors[k].slug in Moving(survivors, q) <==> k < q && survivors[k].rank != k + 1
  {
    if q > 0 {
      MovingIs(survivors, q - 1, k);
    }
  }

  /** Each survivor once, with the rank its brief has, and not the target. */
  ghost predicate SurvivorsOf(ps: seq<Initiative>, slug: string, survivors: seq<RankedSlug>) {
    && RankingDistinct(survivors)
    && forall k :: 0 <= k < |survivors| ==>
         survivors[k].slug != slug
         && exists i :: 0 <= i < |ps| && ps[i].slug == survivors[k].slug && RankOf(ps[i]) == survivors[k].rank
  }

  lemma {:induction false} TargetWritten(ps: seq<Initiative>, goal: seq<Initiative>, t: nat, brief: Brief)
    requires SlugsDistinct(ps) && |goal| == |ps| && t < |ps| && goal[t] == Initiative(ps[t].slug, brief)
    ensures Halfway(ps, goal, [ps[t].slug]) == ps[t := goal[t]]
    ensures Trail(ps, goal, [ps[t].slug]) == [ps, ps[t := goal[t]]]
  {
    assert Halfway(ps, goal, []) == ps && [] + [ps[t].slug] == [ps[t].slug];
    HalfwayStep(ps, goal, [], t);
    TrailStarts(ps, goal);
    TrailGrows(ps, goal, [], ps[t].slug);
  }

  /** A survivor that moves is to have its place as its rank. */
  lemma {:induction false} SurvivorGoal(
    ps: seq<Initiative>, slug: string, brief: Brief, survivors: seq<RankedSlug>, date: string, k: nat, at: nat)
    requires SlugsDistinct(ps) && SurvivorsOf(ps, slug, survivors) && k < |survivors| && at < |ps|
    requires ps[at].slug == survivors[k].slug && survivors[k].rank != k + 1
    ensures Demote(ps, slug, brief, survivors, date)[at] == Initiative(ps[at].slug, AtRank(ps[at].brief, k + 1, date))
  {
    PlaceOf(survivors, k, 0);
    var i :| 0 <= i < |ps| && ps[i].slug == survivors[k].slug && RankOf(ps[i]) == survivors[k].rank;
    assert i == at;
  }

  /** The write of a survivor in its turn. */
  lemma {:induction false} SurvivorWritten(
    ps: seq<Initiative>, slug: string, brief: Brief, survivors: seq<RankedSlug>, date: string, k: nat, at: nat)
    requires SlugsDistinct(ps) && SurvivorsOf(ps, slug, survivors) && k < |survivors| && at < |ps|
    requires ps[at].slug == survivors[k].slug && survivors[k].rank != k + 1
    ensures var goal, done := Demote(ps, slug, brief, survivors, date), [slug] + Moving(survivors, k);
            var next := Halfway(ps, goal, done)[at := Initiative(ps[at].slug, AtRank(ps[at].brief, k + 1, date))];
            && Halfway(ps, goal, done)[at].slug == ps[at].slug
            && Halfway(ps, goal, done + [survivors[k].slug]) == next
            && Trail(ps, goal, done + [survivors[k].slug]) == Trail(ps, goal, done) + [next]
            && done + [survivors[k].slug] == [slug] + Moving(survivors, k + 1)
  {
    var goal, done := Demote(ps, slug, brief, survivors, date), [slug] + Moving(survivors, k);
    SurvivorGoal(ps, slug, brief, survivors, date, k, at);
    HalfwayStep(ps, goal, done, at);
    TrailGrows(ps, goal, done, survivors[k].slug);
    ConcatAssoc([slug], Moving(survivors, k), [survivors[k].slug]);
  }

  /** A removal writes all briefs it changes. */
  lemma {:induction false} RemovalEnds(
    ps: seq<Initiative>, slug: string, brief: Brief, survivors: seq<RankedSlug>, date: string)
    requires SlugsDistinct(ps) && SurvivorsOf(ps, slug, survivors)
    ensures var goal := Demote(ps, slug, brief, survivors, date);
            Halfway(ps, goal, RemovalOrder(slug, survivors)) == goal
  {
    forall i | 0 <= i < |ps| && ps[i].slug !in RemovalOrder(slug, survivors)
      ensures Demote(ps, slug, brief, survivors, date)[i] == ps[i]
    {
      assert RemovalOrder(slug, survivors)[0] == slug;
      PlaceIs(survivors, ps[i].slug, 0);
      var place := PlaceFrom(survivors, ps[i].slug, 0);
      if place.Some? {
        var k := place.value - 1;
        MovingIs(survivors, |survivors|, k);
        var j :| 0 <= j < |ps| && ps[j].slug == survivors[k].slug && RankOf(ps[j]) == survivors[k].rank;
        assert i == j;
      }
    }
    HalfwayEnds(ps, Demote(ps, slug, brief, survivors, date), RemovalOrder(slug, survivors));
  }

  /** The slugs a removal rewrites, in the order it does. */
  function RemovalOrder(slug: string, survivors: seq<RankedSlug>): seq<string> {
    [slug] + Moving(survivors, |survivors|)
  }

  /** The briefs before any write, and after each one. */
  function Trail(ps: seq<Initiative>, goal: seq<Initiative>, order: seq<string>): (r: seq<seq<Initiative>>)
    requires |goal| == |ps|
    ensures |r| == |order| + 1
  {
    seq(|order| + 1, n requires 0 <= n <= |order| => Halfway(ps, goal, order[..n]))
  }

  lemma {:induction false} TrailStarts(ps: seq<Initiative>, goal: seq<Initiative>)
    requires |goal| == |ps|
    ensures Trail(ps, goal, []) == [ps]
  {
    assert Halfway(ps, goal, []) == ps;
  }

  lemma {:induction false} TrailGrows(ps: seq<Initiative>, goal: seq<Initiative>, order: seq<string>, s: string)
    requires |goal| == |ps|
    ensures Trail(ps, goal, order + [s]) == Trail(ps, goal, order) + [Halfway(ps, goal, order + [s])]
  {
    assert forall n :: 0 <= n <= |order| ==> (order + [s])[..n] == order[..n];
    assert (order + [s])[..|order| + 1] == order + [s];
  }

  /** The briefs once those in `done` have been rewritten as `goal` has them. */
  function Halfway(ps: seq<Initiative>, goal: seq<Initiative>, done: seq<string>): seq<Initiative>
    requires |goal| == |ps|
  {
    seq(|ps|, i requires 0 <= i < |ps| => if ps[i].slug in done then goal[i] else ps[i])
  }

  /** Entries of `goal` differ from `ps` only for the slugs listed. */
  ghost predicate OnlyThese(ps: seq<Initiative>, goal: seq<Initiative>, slugs: seq<string>) {
    && |goal| == |ps|
    && forall i :: 0 <= i < |ps| && ps[i].slug !in slugs ==> goal[i] == ps[i]
  }

  lemma {:induction false} HalfwayEnds(ps: seq<Initiative>, goal: seq<Initiative>, slugs: seq<string>)
    requires OnlyThese(ps, goal, slugs)
    ensures Halfway(ps, goal, []) == ps && Halfway(ps, goal, slugs) == goal
  {
  }

  lemma {:induction false} HalfwayStep(ps: seq<Initiative>, goal: seq<Initiative>, done: seq<string>, t: nat)
    requires |goal| == |ps| && t < |ps| && SlugsDistinct(ps) && goal[t].slug == ps[t].slug
    ensures Halfway(ps, goal, done + [ps[t].slug]) == Halfway(ps, goal, done)[t := goal[t]]
  {
  }

  lemma {:induction false} HalfwayAbsent(ps: seq<Initiative>, goal: seq<Initiative>, done: seq<string>, slug: string)
    requires |goal| == |ps| && Find(ps, slug).None?
    ensures Halfway(ps, goal, done + [slug]) == Halfway(ps, goal, done)
  {
  }

  /** Where the map has a rank, focus leaves that rank; elsewhere it changes nothing. */
  lemma {:induction false} GoalChanges(
    ps: seq<Initiative>, slug: string, desired: nat, changes: map<string, nat>, date: string)
    requires ChangesAre(ps, slug, desired, changes)
    ensures forall i :: 0 <= i < |ps| ==>
      FocusAll(ps, slug, desired, date)[i] ==
        if ps[i].slug in changes then Initiative(ps[i].slug, FocusedAt(ps[i].brief, changes[ps[i].slug], date)) else ps[i]
  {
  }

  /** pause renumbers only where it takes a focused entry out. */
  function PauseSurvivors(ps: seq<Initiative>, slug: string): seq<RankedSlug> {
    match Find(ps, slug)
    case Some(at) => if IsFocused(ps[at]) then Without(ps, slug) else []
    case None => []
  }

  datatype Reply = Placed(rank: nat) | Moved | Refused(error: Error)

  /** The brief files of all initiatives, in listing order. */
  class BriefFiles {
    var briefs: seq<Initiative>

    constructor (briefs: seq<Initiative>)
      ensures this.briefs == briefs
    {
      this.briefs := briefs;
    }

    method WriteBrief(t: nat, brief: Brief)
      requires t < |briefs|
      modifies this
      ensures briefs == old(briefs)[t := Initiative(old(briefs)[t].slug, brief)]
    {
      briefs := briefs[t := Initiative(briefs[t].slug, brief)];
    }

    /** Works out the change map, then rewrites each changed brief in lock order; `trail` is what each write leaves. */
    method Focus(slug: string, rank: Option<nat>, date: string)
      returns (reply: Reply, ghost trail: seq<seq<Initiative>>)
      requires SlugsDistinct(briefs)
      modifies this
      ensures FocusCommand(old(briefs), slug, rank, date).Ok? ==>
                |briefs| == |old(briefs)|
                && trail == Trail(old(briefs), briefs, FocusOrder(old(briefs), slug, Desired(old(briefs), slug, rank)))
      ensures match FocusCommand(old(briefs), slug, rank, date)
        case Ok(next) => briefs == next && reply == Placed(Desired(old(briefs), slug, rank))
        case Err(error) => briefs == old(briefs) && reply == Refused(error)
    {
      var loaded := briefs;
      if rank == Some(0) {
        return Refused(BadRank), [];
      }
      if !AllValid(loaded) {
        return Refused(Unreadable), [];
      }
      if Find(loaded, slug).None? {
        return Refused(NotFound), [];
      }
      var ranked := BuildRanking(loaded);
      var others := Filter(ranked, (r: RankedSlug) => r.slug != slug);
      var desired: nat;
      if rank.None? {
        desired := if |others| == 0 then 1 else MaxRank(others) + 1;
      } else {
        if rank.value > |others| + 1 {
          return Refused(BadRank), [];
        }
        desired := rank.value;
      }
      var changes, keys := FocusChanges(loaded, slug, desired);
      OrderOfKeys(loaded, slug, desired, changes, keys);
      trail := WriteChanges(slug, desired, changes, keys, date);
      reply := Placed(desired);
    }

    /** Rewrites the changed briefs under their locks, in lock order. */
    method WriteChanges(slug: string, desired: nat, changes: map<string, nat>, keys: seq<string>, date: string)
      returns (ghost trail: seq<seq<Initiative>>)
      requires SlugsDistinct(briefs) && ChangesAre(briefs, slug, desired, changes)
      requires forall s :: s in keys <==> s in changes
      modifies this
      ensures briefs == FocusAll(old(briefs), slug, desired, date)
      ensures |briefs| == |old(briefs)| && trail == Trail(old(briefs), briefs, SortSlugs(keys))
    {
      var loaded := briefs;
      var lockOrder := SortSlugs(keys);
      SortSlugsSorts(keys);
      ghost var goal := FocusAll(loaded, slug, desired, date);
      GoalChanges(loaded, slug, desired, changes, date);
      HalfwayEnds(loaded, goal, lockOrder);
      trail := [briefs];
      TrailStarts(loaded, goal);
      assert lockOrder[..0] == [];
      for k := 0 to |lockOrder|
        invariant briefs == Halfway(loaded, goal, lockOrder[..k])
        invariant trail == Trail(loaded, goal, lockOrder[..k])
      {
        var s := lockOrder[k];
        TrailGrows(loaded, goal, lockOrder[..k], s);
        assert lockOrder[..k + 1] == lockOrder[..k] + [s];
        var at := Find(loaded, s);
        if at.Some? {
          HalfwayStep(loaded, goal, lockOrder[..k], at.value);
          WriteBrief(at.value, FocusedAt(loaded[at.value].brief, changes[s], date));
        } else {
          HalfwayAbsent(loaded, goal, lockOrder[..k], s);
        }
        trail := trail + [briefs];
      }
      assert lockOrder[..|lockOrder|] == lockOrder;
    }

    /** Writes the target, then each survivor that moved; `trail` is what each write leaves. */
    method Renumber(t: nat, brief: Brief, survivors: seq<RankedSlug>, date: string)
      returns (ghost trail: seq<seq<Initiative>>)
      requires SlugsDistinct(briefs) && t < |briefs| && SurvivorsOf(briefs, briefs[t].slug, survivors)
      modifies this
      ensures briefs == Demote(old(briefs), old(briefs)[t].slug, brief, survivors, date)
      ensures |briefs| == |old(briefs)|
      ensures trail == Trail(old(briefs), briefs, RemovalOrder(old(briefs)[t].slug, survivors))
    {
      ghost var goal := Demote(briefs, briefs[t].slug, brief, survivors, date);
      var loaded := briefs;
      WriteBrief(t, brief);
      ghost var done := [loaded[t].slug];
      TargetWritten(loaded, goal, t, brief);
      trail := [loaded, briefs];
      for k := 0 to |survivors|
        invariant briefs == Halfway(loaded, goal, done)
        invariant done == [loaded[t].slug] + Moving(survivors, k)
        invariant trail == Trail(loaded, goal, done)
      {
        if survivors[k].rank != k + 1 {
          var at := Find(loaded, survivors[k].slug).value;
          SurvivorWritten(loaded, loaded[t].slug, brief, survivors, date, k, at);
          WriteBrief(at, AtRank(loaded[at].brief, k + 1, date));
          trail := trail + [briefs];
          done := done + [survivors[k].slug];
        }
      }
      RemovalEnds(loaded, loaded[t].slug, brief, survivors, date);
    }

    method Unfocus(slug: string, date: string)
      returns (reply: Reply, ghost trail: seq<seq<Initiative>>)
      requires SlugsDistinct(briefs)
      modifies this
      ensures match UnfocusCommand(old(briefs), slug, date)
        case Ok(next) =>
          && briefs == next && reply == Moved
          && |next| == |old(briefs)|
          && trail == Trail(old(briefs), next, RemovalOrder(slug, Without(old(briefs), slug)))
        case Err(error) => briefs == old(briefs) && reply == Refused(error)
    {
      if !AllValid(briefs) {
        return Refused(Unreadable), [];
      }
      var at := Find(briefs, slug);
      if at.None? {
        return Refused(NotFound), [];
      }
      if !IsFocused(briefs[at.value]) {
        return Refused(WrongState), [];
      }
      SurvivorsFit(briefs, slug);
      var cleared := briefs[at.value].brief.(state := Backburner, rank := None, updated := date);
      trail := Renumber(at.value, cleared, Without(briefs, slug), date);
      reply := Moved;
    }

    method Pause(slug: string, since: string, trigger: string, date: string)
      returns (reply: Reply, ghost trail: seq<seq<Initiative>>)
      requires SlugsDistinct(briefs)
      modifies this
      ensures match PauseCommand(old(briefs), slug, since, trigger, date)
        case Ok(next) =>
          && briefs == next && reply == Moved
          && |next| == |old(briefs)|
          && trail == Trail(old(briefs), next, RemovalOrder(slug, PauseSurvivors(old(briefs), slug)))
        case Err(error) => briefs == old(briefs) && reply == Refused(error)
    {
      if !AllValid(briefs) {
        return Refused(Unreadable), [];
      }
      var at := Find(briefs, slug);
      if at.None? {
        return Refused(NotFound), [];
      }
      SurvivorsFit(briefs, slug);
      var paused := Brief(Paused, None, Some(since), Some(trigger), date);
      trail := Renumber(at.value, paused, PauseSurvivors(briefs, slug), date);
      reply := Moved;
    }

    method Unpause(slug: string, date: string) returns (reply: Reply)
      requires SlugsDistinct(briefs)
      modifies this
      ensures match UnpauseCommand(old(briefs), slug, date)
        case Ok(next) => briefs == next && reply == Moved
        case Err(error) => briefs == old(briefs) && reply == Refused(error)
    {
      if !AllValid(briefs) {
        return Refused(Unreadable);
      }
      var at := Find(briefs, slug);
      if at.None? {
        return Refused(NotFound);
      }
      if !briefs[at.value].brief.state.Paused? {
        return Refused(WrongState);
      }
      WriteBrief(at.value, Brief(Backburner, None, None, None, date));
      reply := Moved;
    }

    /** computeNextRank: one more than the greatest focused rank. */
    method ComputeNextRank() returns (rank: nat)
      ensures rank == MaxRank(Ranked(briefs)) + 1
    {
      var loaded := briefs;
      var max: nat := 0;
      for i := 0 to |loaded|
        invariant max == MaxRank(Ranked(loaded[..i]))
      {
        assert loaded[..i + 1] == loaded[..i] + [loaded[i]];
        MaxRankSnoc(loaded[..i], loaded[i]);
        var b := loaded[i].brief;
        if IsFocused(loaded[i]) && b.rank.Some? && b.rank.value > max {
          max := b.rank.value;
        }
      }
      assert loaded[..|loaded|] == loaded;
      rank := max + 1;
    }

    method New(slug: string, at: nat, date: string) returns (reply: Reply)
      modifies this
      ensures match NewCommand(old(briefs), slug, at, date)
        case Ok(next) => briefs == next && reply == Placed(MaxRank(Ranked(old(briefs))) + 1)
        case Err(error) => briefs == old(briefs) && reply == Refused(error)
    {
      if Find(briefs, slug).Some? {
        return Refused(AlreadyExists);
      }
      var rank := ComputeNextRank();
      var k := if at <= |briefs| then at else |briefs|;
      briefs := briefs[..k] + [Initiative(slug, Brief(Focused, Some(rank), None, None, date))] + briefs[k..];
      reply := Placed(rank);
    }
  }

  lemma {:induction false} MaxRankSnoc(ps: seq<Initiative>, x: Initiative)
    ensures var m := MaxRank(Ranked(ps));
            MaxRank(Ranked(ps + [x])) == if IsFocused(x) && RankOf(x) > m then RankOf(x) else m
  {
    assert (ps + [x])[..|ps|] == ps;
    var listed := Ranked(ps);
    assert (listed + [RankedSlug(x.slug, RankOf(x))])[..|listed|] == listed;
    assert listed + [] == listed;
  }

  lemma {:induction false} PlaceOf(ranking: seq<RankedSlug>, k: nat, i: nat)
    requires RankingDistinct(ranking) && i <= k < |ranking|
    ensures PlaceFrom(ranking, ranking[k].slug, i) == Some(k + 1)
    decreases k - i
  {
    if i < k {
      PlaceOf(ranking, k, i + 1);
    }
  }

  lemma {:induction false} SurvivorsFit(ps: seq<Initiative>, slug: string)
    requires SlugsDistinct(ps)
    ensures SurvivorsOf(ps, slug, Without(ps, slug))
  {
    var survivors := Without(ps, slug);
    WithoutIs(ps, slug);
    forall k | 0 <= k < |survivors|
      ensures survivors[k].slug != slug
        && exists i :: 0 <= i < |ps| && ps[i].slug == survivors[k].slug && RankOf(ps[i]) == survivors[k].rank
    {
      assert Survivor(ps, slug, survivors[k]);
    }
  }

  lemma {:induction false} MapSoFarStep(
    ranked: seq<RankedSlug>, final: seq<RankedSlug>, k: nat, changes: map<string, nat>, next: map<string, nat>)
    requires k < |final| && MapSoFar(ranked, final, k, changes)
    requires next == if Moves(ranked, final[k]) then changes[final[k].slug := final[k].rank] else changes
    ensures MapSoFar(ranked, final, k + 1, next)
  {
    assert RankedSlug(final[k].slug, final[k].rank) == final[k];
  }

  /** The entries of the final ranking whose rank is new, keyed by slug. */
  method MovedEntries(
    ranked: seq<RankedSlug>, final: seq<RankedSlug>)
    returns (changes: map<string, nat>, keys: seq<string>)
    ensures forall s :: s in keys <==> s in changes
    ensures MapSoFar(ranked, final, |final|, changes)
  {
    changes, keys := map[], [];
    for k := 0 to |final|
      invariant forall s :: s in keys <==> s in changes
      invariant MapSoFar(ranked, final, k, changes)
    {
      var entry := final[k];
      var next := changes;
      if Moves(ranked, entry) {
        next := changes[entry.slug := entry.rank];
        keys := keys + [entry.slug];
      }
      MapSoFarStep(ranked, final, k, changes, next);
      changes := next;
    }
  }

  /** The change map focus builds, with its keys in the order they were set. */
  method FocusChanges(
    ps: seq<Initiative>, slug: string, desired: nat)
    returns (changes: map<string, nat>, keys: seq<string>)
    requires SlugsDistinct(ps)
    ensures forall s :: s in keys <==> s in changes
    ensures ChangesAre(ps, slug, desired, changes)
  {
    var final := SortByRank(FinalRanking(Without(ps, slug), slug, desired));
    changes, keys := MovedEntries(BuildRanking(ps), final);
    FinalIs(ps, slug, desired);
    assert FinalEntry(ps, slug, desired, RankedSlug(slug, desired));
    MapEnds(ps, final, slug, desired, changes);
    if slug !in changes {
      changes := changes[slug := desired];
      keys := keys + [slug];
    }
    ChangesFollow(ps, slug, desired, changes);
  }

  /** With the target put in, the map of the moved entries is the change map. */
  lemma {:induction false} MapEnds(
    ps: seq<Initiative>, final: seq<RankedSlug>, slug: string, desired: nat, changes: map<string, nat>)
    requires MapSoFar(BuildRanking(ps), final, |final|, changes) && RankedSlug(slug, desired) in final
    ensures MapOf(ps, final, slug, if slug in changes then changes else changes[slug := desired])
  {
  }

  /** The ranking focus aims at: the target at its rank, the others moved out of its way. */
  ghost predicate FinalEntry(ps: seq<Initiative>, slug: string, desired: nat, r: RankedSlug) {
    || r == RankedSlug(slug, desired)
    || exists i :: 0 <= i < |ps| && ps[i].slug != slug && IsFocused(ps[i]) && r == Shifted(ps[i], desired)
  }

  function Shifted(x: Initiative, desired: nat): RankedSlug {
    RankedSlug(x.slug, if RankOf(x) >= desired then RankOf(x) + 1 else RankOf(x))
  }

  lemma {:induction false} RawEntries(ps: seq<Initiative>, slug: string, desired: nat, r: RankedSlug)
    requires SlugsDistinct(ps)
    ensures r in FinalRanking(Without(ps, slug), slug, desired) <==> FinalEntry(ps, slug, desired, r)
  {
    var others := Without(ps, slug);
    var raw := FinalRanking(others, slug, desired);
    WithoutIs(ps, slug);
    if k :| 0 <= k < |others| && raw[k] == r {
      assert others[k] in others && Survivor(ps, slug, others[k]);
      var i :| 0 <= i < |ps| && IsFocused(ps[i]) && ps[i].slug != slug && others[k] == RankedSlug(ps[i].slug, RankOf(ps[i]));
      assert r == Shifted(ps[i], desired);
    }
    if i :| 0 <= i < |ps| && ps[i].slug != slug && IsFocused(ps[i]) && r == Shifted(ps[i], desired) {
      assert Survivor(ps, slug, RankedSlug(ps[i].slug, RankOf(ps[i])));
      var k :| 0 <= k < |others| && others[k] == RankedSlug(ps[i].slug, RankOf(ps[i]));
      assert raw[k] == r;
    }
    assert raw[|others|] == RankedSlug(slug, desired);
  }

  lemma {:induction false} RawDistinct(ps: seq<Initiative>, slug: string, desired: nat)
    requires SlugsDistinct(ps)
    ensures RankingDistinct(FinalRanking(Without(ps, slug), slug, desired))
  {
    SurvivorsFit(ps, slug);
  }

  lemma {:induction false} FinalIs(ps: seq<Initiative>, slug: string, desired: nat)
    requires SlugsDistinct(ps)
    ensures var final := SortByRank(FinalRanking(Without(ps, slug), slug, desired));
            RankingDistinct(final) && forall r :: r in final <==> FinalEntry(ps, slug, desired, r)
  {
    SortKeeps(FinalRanking(Without(ps, slug), slug, desired));
    RawDistinct(ps, slug, desired);
    forall r ensures r in FinalRanking(Without(ps, slug), slug, desired) <==> FinalEntry(ps, slug, desired, r) {
      RawEntries(ps, slug, desired, r);
    }
  }

  /** Entry j's rank is not the one the slug had. */
  predicate Moves(ranked: seq<RankedSlug>, entry: RankedSlug) {
    PriorFrom(ranked, entry.slug, 0) != Some(entry.rank)
  }

  ghost predicate MapSoFar(ranked: seq<RankedSlug>, final: seq<RankedSlug>, k: nat, changes: map<string, nat>)
    requires k <= |final|
  {
    && (forall j :: 0 <= j < k && Moves(ranked, final[j]) ==> final[j].slug in changes)
    && (forall s :: s in changes ==> RankedSlug(s, changes[s]) in final)
    && (forall s :: s in changes ==> exists j :: 0 <= j < k && Moves(ranked, final[j]) && final[j].slug == s)
  }

  /** The map holds the entries of the final ranking whose rank is not the prior one, and the target. */
  ghost predicate MapOf(ps: seq<Initiative>, final: seq<RankedSlug>, slug: string, changes: map<string, nat>) {
    && slug in changes
    && (forall s :: s in changes && s != slug <==>
         s != slug && exists j :: 0 <= j < |final| && final[j].slug == s && Moves(BuildRanking(ps), final[j]))
    && (forall s :: s in changes ==> RankedSlug(s, changes[s]) in final)
  }

  lemma {:induction false} ChangesFollow(ps: seq<Initiative>, slug: string, desired: nat, changes: map<string, nat>)
    requires SlugsDistinct(ps)
    requires MapOf(ps, SortByRank(FinalRanking(Without(ps, slug), slug, desired)), slug, changes)
    ensures ChangesAre(ps, slug, desired, changes)
  {
    var final := SortByRank(FinalRanking(Without(ps, slug), slug, desired));
    FinalIs(ps, slug, desired);
    assert FinalEntry(ps, slug, desired, RankedSlug(slug, desired));
    forall i | 0 <= i < |ps| && ps[i].slug != slug
      ensures ps[i].slug in changes <==> IsFocused(ps[i]) && RankOf(ps[i]) >= desired
      ensures ps[i].slug in changes ==> changes[ps[i].slug] == RankOf(ps[i]) + 1
    {
      PriorInRanking(ps, i);
      EntryOfOther(ps, slug, desired, i);
    }
  }

  lemma {:induction false} EntryOfOther(ps: seq<Initiative>, slug: string, desired: nat, i: nat)
    requires SlugsDistinct(ps) && i < |ps| && ps[i].slug != slug
    ensures var final := SortByRank(FinalRanking(Without(ps, slug), slug, desired));
            if IsFocused(ps[i]) then
              && Shifted(ps[i], desired) in final
              && forall j :: 0 <= j < |final| && final[j].slug == ps[i].slug ==> final[j] == Shifted(ps[i], desired)
            else forall j :: 0 <= j < |final| ==> final[j].slug != ps[i].slug
  {
    var final := SortByRank(FinalRanking(Without(ps, slug), slug, desired));
    FinalIs(ps, slug, desired);
    if IsFocused(ps[i]) {
      assert FinalEntry(ps, slug, desired, Shifted(ps[i], desired));
      OneEntryEach(final, Shifted(ps[i], desired));
    } else {
      forall j | 0 <= j < |final| ensures final[j].slug != ps[i].slug {
        assert FinalEntry(ps, slug, desired, final[j]);
      }
    }
  }

  lemma {:induction false} OneEntryEach(final: seq<RankedSlug>, r: RankedSlug)
    requires RankingDistinct(final) && r in final
    ensures forall j :: 0 <= j < |final| && final[j].slug == r.slug ==> final[j] == r
  {
  }
}
