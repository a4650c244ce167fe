/**
 * The focus list as a rank machine: src/commands/new.ts, focus.ts, unfocus.ts, pause.ts,
 * unpause.ts: what each command makes of all briefs, and what every run of commands keeps.
 */
module FocusRanks {
  import opened Prelude

  datatype State = Focused | Backburner | Paused | Done

  datatype Brief = Brief(
    state: State, rank: Option<nat>, pausedSince: Option<string>, restartTrigger: Option<string>, updated: string)

  /** One initiative directory: its slug and its brief. */
  datatype Initiative = Initiative(slug: string, brief: Brief)

  /** What the brief schema refines: ranks positive, and present where the state needs them. */
  predicate ValidBrief(b: Brief) {
    && (b.rank.Some? ==> b.rank.value > 0)
    && (b.state.Focused? ==> b.rank.Some?)
    && (b.state.Paused? ==> b.pausedSince.Some? && b.restartTrigger.Some?)
  }

  predicate AllValid(ps: seq<Initiative>) {
    forall i :: 0 <= i < |ps| ==> ValidBrief(ps[i].brief)
  }

  ghost predicate SlugsDistinct(ps: seq<Initiative>) {
    forall i, j :: 0 <= i < j < |ps| ==> ps[i].slug != ps[j].slug
  }

  predicate IsFocused(x: Initiative) {
    x.brief.state.Focused?
  }

  function RankOf(x: Initiative): nat {
    x.brief.rank.GetOr(0)
  }

  /** briefs.find((b) => b.slug === slug) */
  function Find(ps: seq<Initiative>, slug: string): (r: Option<nat>)
    ensures r.Some? ==> r.value < |ps| && ps[r.value].slug == slug
    ensures r.None? ==> forall i :: 0 <= i < |ps| ==> ps[i].slug != slug
  {
    FindFrom(ps, slug, 0)
  }

  function FindFrom(ps: seq<Initiative>, slug: string, i: nat): (r: Option<nat>)
    ensures r.Some? ==> r.value < |ps| && ps[r.value].slug == slug
    ensures r.None? ==> forall j :: i <= j < |ps| ==> ps[j].slug != slug
    decreases |ps| - i
  {
    if i >= |ps| then None else if ps[i].slug == slug then Some(i) else FindFrom(ps, slug, i + 1)
  }

  datatype Error = Unreadable | NotFound | AlreadyExists | WrongState | BadRank

  datatype Outcome = Ok(briefs: seq<Initiative>) | Err(error: Error)

  // --- The focused list ---------------------------------------------------------

  datatype RankedSlug = RankedSlug(slug: string, rank: nat)

  function Ranked(ps: seq<Initiative>): seq<RankedSlug> {
    if ps == [] then []
    else
      var last := ps[|ps| - 1];
      Ranked(ps[..|ps| - 1]) + (if IsFocused(last) then [RankedSlug(last.slug, RankOf(last))] else [])
  }

  function InsertByRank(xs: seq<RankedSlug>, x: RankedSlug): seq<RankedSlug> {
    if xs == [] || x.rank < xs[0].rank then [x] + xs else [xs[0]] + InsertByRank(xs[1..], x)
  }

  /** A stable sort by rank, as Array.prototype.sort with (a, b) => a.rank - b.rank. */
  function SortByRank(xs: seq<RankedSlug>): seq<RankedSlug> {
    if xs == [] then [] else InsertByRank(SortByRank(xs[..|xs| - 1]), xs[|xs| - 1])
  }

  function BuildRanking(ps: seq<Initiative>): seq<RankedSlug> {
    SortByRank(Ranked(ps))
  }

  /** The focused entries other than `slug`, by rank. */
  function Without(ps: seq<Initiative>, slug: string): seq<RankedSlug> {
    Filter(BuildRanking(ps), (r: RankedSlug) => r.slug != slug)
  }

  function MaxRank(xs: seq<RankedSlug>): nat {
    if xs == [] then 0
    else var m := MaxRank(xs[..|xs| - 1]); if xs[|xs| - 1].rank > m then xs[|xs| - 1].rank else m
  }

  // --- The commands -------------------------------------------------------------

  function AtRank(b: Brief, rank: nat, date: string): Brief {
    b.(state := Focused, rank := Some(rank), updated := date)
  }

  /** What focus writes: rank set, paused-only fields cleared. */
  function FocusedAt(b: Brief, rank: nat, date: string): Brief {
    AtRank(b, rank, date).(pausedSince := None, restartTrigger := None)
  }

  /** The rank the target gets: after the last when none is asked for. */
  function Desired(ps: seq<Initiative>, slug: string, rank: Option<nat>): nat {
    match rank
    case None => MaxRank(Without(ps, slug)) + 1
    case Some(r) => r
  }

  function FocusOne(x: Initiative, slug: string, desired: nat, date: string): Initiative {
    if x.slug == slug then x.(brief := FocusedAt(x.brief, desired, date))
    else if IsFocused(x) && RankOf(x) >= desired then x.(brief := FocusedAt(x.brief, RankOf(x) + 1, date))
    else x
  }

  function FocusAll(ps: seq<Initiative>, slug: string, desired: nat, date: string): seq<Initiative> {
    seq(|ps|, i requires 0 <= i < |ps| => FocusOne(ps[i], slug, desired, date))
  }

  function FocusCommand(ps: seq<Initiative>, slug: string, rank: Option<nat>, date: string): Outcome {
    if rank == Some(0) then Err(BadRank)
    else if !AllValid(ps) then Err(Unreadable)
    else if Find(ps, slug).None? then Err(NotFound)
    else if rank.Some? && rank.value > |Without(ps, slug)| + 1 then Err(BadRank)
    else Ok(FocusAll(ps, slug, Desired(ps, slug, rank), date))
  }

  /** The 1-based place of `slug` in a ranking, if it is there. */
  function PlaceFrom(ranking: seq<RankedSlug>, slug: string, i: nat): Option<nat>
    decreases |ranking| - i
  {
    if i >= |ranking| then None
    else if ranking[i].slug == slug then Some(i + 1)
    else PlaceFrom(ranking, slug, i + 1)
  }

  /** Survivors move to their place; one that is there already is not rewritten. */
  function SurvivorOne(x: Initiative, survivors: seq<RankedSlug>, date: string): Initiative {
    var place := PlaceFrom(survivors, x.slug, 0);
    if place.Some? && place.value != RankOf(x) then x.(brief := AtRank(x.brief, place.value, date)) else x
  }

  /** `slug` gets `brief`, and the survivors are renumbered. */
  function Demote(
    ps: seq<Initiative>, slug: string, brief: Brief, survivors: seq<RankedSlug>, date: string): seq<Initiative> {
    seq(|ps|, i requires 0 <= i < |ps| =>
      if ps[i].slug == slug then Initiative(slug, brief) else SurvivorOne(ps[i], survivors, date))
  }

  function UnfocusCommand(ps: seq<Initiative>, slug: string, date: string): Outcome {
    if !AllValid(ps) then Err(Unreadable)
    else
      match Find(ps, slug)
      case None => Err(NotFound)
      case Some(at) =>
        if !IsFocused(ps[at]) then Err(WrongState)
        else
          var cleared := ps[at].brief.(state := Backburner, rank := None, updated := date);
          Ok(Demote(ps, slug, cleared, Without(ps, slug), date))
  }

  function PauseCommand(ps: seq<Initiative>, slug: string, since: string, trigger: string, date: string): Outcome {
    if !AllValid(ps) then Err(Unreadable)
    else
      match Find(ps, slug)
      case None => Err(NotFound)
      case Some(at) =>
        var paused := Brief(Paused, None, Some(since), Some(trigger), date);
        Ok(Demote(ps, slug, paused, if IsFocused(ps[at]) then Without(ps, slug) else [], date))
  }

  function UnpauseCommand(ps: seq<Initiative>, slug: string, date: string): Outcome {
    if !AllValid(ps) then Err(Unreadable)
    else
      match Find(ps, slug)
      case None => Err(NotFound)
      case Some(at) =>
        if !ps[at].brief.state.Paused? then Err(WrongState)
        else Ok(ps[at := Initiative(slug, Brief(Backburner, None, None, None, date))])
  }

  /** `new` adds an initiative after the last rank; `at` is where the listing puts it. */
  function NewCommand(ps: seq<Initiative>, slug: string, at: nat, date: string): Outcome {
    if Find(ps, slug).Some? then Err(AlreadyExists)
    else
      var k := if at <= |ps| then at else |ps|;
      Ok(ps[..k] + [Initiative(slug, Brief(Focused, Some(MaxRank(Ranked(ps)) + 1), None, None, date))] + ps[k..])
  }

  datatype Command =
    | New(slug: string, at: nat)
    | Focus(slug: string, rank: Option<nat>)
    | Unfocus(slug: string)
    | Pause(slug: string, since: string, trigger: string)
    | Unpause(slug: string)

  function Execute(ps: seq<Initiative>, c: Command, date: string): Outcome {
    match c
    case New(slug, at) => NewCommand(ps, slug, at, date)
    case Focus(slug, rank) => FocusCommand(ps, slug, rank, date)
    case Unfocus(slug) => UnfocusCommand(ps, slug, date)
    case Pause(slug, since, trigger) => PauseCommand(ps, slug, since, trigger, date)
    case Unpause(slug) => UnpauseCommand(ps, slug, date)
  }

  /** A run of commands; one that fails leaves the briefs alone. */
  function RunCommands(ps: seq<Initiative>, cs: seq<Command>, date: string): seq<Initiative> {
    if cs == [] then ps
    else
      var before := RunCommands(ps, cs[..|cs| - 1], date);
      match Execute(before, cs[|cs| - 1], date)
      case Ok(next) => next
      case Err(_) => before
  }

  // --- Sorting keeps the entries ------------------------------------------------

  ghost predicate RankingDistinct(xs: seq<RankedSlug>) {
    forall i, j :: 0 <= i < j < |xs| ==> xs[i].slug != xs[j].slug
  }

  ghost predicate Rising(xs: seq<RankedSlug>) {
    forall i, j :: 0 <= i < j < |xs| ==> xs[i].rank <= xs[j].rank
  }

  lemma {:induction false} ConsKeeps(x: RankedSlug, rest: seq<RankedSlug>)
    ensures Rising(rest) && (forall y :: y in rest ==> x.rank <= y.rank) ==> Rising([x] + rest)
    ensures RankingDistinct(rest) && (forall y :: y in rest ==> x.slug != y.slug) ==> RankingDistinct([x] + rest)
  {
    assert forall j :: 0 <= j < |rest| ==> rest[j] in rest;
  }

  lemma {:induction false} UnconsKeeps(xs: seq<RankedSlug>)
    requires xs != []
    ensures xs == [xs[0]] + xs[1..]
    ensures Rising(xs) ==> Rising(xs[1..]) && forall y :: y in xs[1..] ==> xs[0].rank <= y.rank
    ensures RankingDistinct(xs) ==> RankingDistinct(xs[1..]) && forall y :: y in xs[1..] ==> xs[0].slug != y.slug
  {
  }

  lemma {:induction false} InsertElements(xs: seq<RankedSlug>, x: RankedSlug)
    ensures |InsertByRank(xs, x)| == |xs| + 1
    ensures forall y :: y in InsertByRank(xs, x) <==> y in xs || y == x
  {
    if xs != [] && x.rank >= xs[0].rank {
      InsertElements(xs[1..], x);
      assert xs == [xs[0]] + xs[1..];
    }
  }

  lemma {:induction false} InsertKeeps(xs: seq<RankedSlug>, x: RankedSlug)
    requires Rising(xs)
    ensures Rising(InsertByRank(xs, x))
    ensures RankingDistinct(xs) && (forall y :: y in xs ==> y.slug != x.slug) ==> RankingDistinct(InsertByRank(xs, x))
  {
    if xs != [] {
      UnconsKeeps(xs);
    }
    if xs == [] || x.rank < xs[0].rank {
      ConsKeeps(x, xs);
    } else {
      InsertKeeps(xs[1..], x);
      InsertElements(xs[1..], x);
      ConsKeeps(xs[0], InsertByRank(xs[1..], x));
    }
  }

  lemma {:induction false} SortKeeps(xs: seq<RankedSlug>)
    ensures var r := SortByRank(xs);
            && Rising(r) && |r| == |xs|
            && (forall y :: y in r ==> y in xs) && (forall y :: y in xs ==> y in r)
    ensures RankingDistinct(xs) ==> RankingDistinct(SortByRank(xs))
  {
    if xs != [] {
      var init, last := xs[..|xs| - 1], xs[|xs| - 1];
      assert xs == init + [last];
      SortKeeps(init);
      InsertElements(SortByRank(init), last);
      InsertKeeps(SortByRank(init), last);
      if RankingDistinct(xs) {
        forall y | y in SortByRank(init) ensures y.slug != last.slug {
          assert y in init;
        }
      }
    }
  }

  lemma {:induction false} RankedIs(ps: seq<Initiative>)
    ensures forall r :: r in Ranked(ps) <==>
      exists i :: 0 <= i < |ps| && IsFocused(ps[i]) && r == RankedSlug(ps[i].slug, RankOf(ps[i]))
  {
    if ps != [] {
      var init, last := ps[..|ps| - 1], ps[|ps| - 1];
      assert ps == init + [last];
      RankedIs(init);
      forall i | 0 <= i < |ps| && IsFocused(ps[i]) ensures RankedSlug(ps[i].slug, RankOf(ps[i])) in Ranked(ps) {
        if i < |init| {
          assert ps[i] == init[i];
        }
      }
      forall r | r in Ranked(ps)
        ensures exists i :: 0 <= i < |ps| && IsFocused(ps[i]) && r == RankedSlug(ps[i].slug, RankOf(ps[i]))
      {
        if r in Ranked(init) {
          var i :| 0 <= i < |init| && IsFocused(init[i]) && r == RankedSlug(init[i].slug, RankOf(init[i]));
          assert ps[i] == init[i];
        } else {
          assert r == RankedSlug(ps[|init|].slug, RankOf(ps[|init|]));
        }
      }
    }
  }

  lemma {:induction false} RankedDistinct(ps: seq<Initiative>)
    requires SlugsDistinct(ps)
    ensures RankingDistinct(Ranked(ps))
  {
    if ps != [] {
      var init := ps[..|ps| - 1];
      RankedDistinct(init);
      RankedIs(init);
      forall j | 0 <= j < |Ranked(init)| ensures Ranked(init)[j].slug != ps[|ps| - 1].slug {
        assert Ranked(init)[j] in Ranked(init);
      }
    }
  }

  lemma {:induction false} FilterKeepsOrder(xs: seq<RankedSlug>, keep: RankedSlug -> bool)
    ensures Rising(xs) ==> Rising(Filter(xs, keep))
    ensures RankingDistinct(xs) ==> RankingDistinct(Filter(xs, keep))
  {
    if xs != [] {
      UnconsKeeps(xs);
      FilterKeepsOrder(xs[1..], keep);
      ConsKeeps(xs[0], Filter(xs[1..], keep));
    }
  }

  /** `r` is the entry of a focused initiative other than `slug`. */
  ghost predicate Survivor(ps: seq<Initiative>, slug: string, r: RankedSlug) {
    exists i :: 0 <= i < |ps| && IsFocused(ps[i]) && ps[i].slug != slug && r == RankedSlug(ps[i].slug, RankOf(ps[i]))
  }

  /** The survivors' ranking: exactly the other focused initiatives, each once, by rank. */
  lemma {:induction false} WithoutIs(ps: seq<Initiative>, slug: string)
    requires SlugsDistinct(ps)
    ensures Rising(Without(ps, slug)) && RankingDistinct(Without(ps, slug))
    ensures forall r :: r in Without(ps, slug) <==> Survivor(ps, slug, r)
  {
    RankedIs(ps);
    RankedDistinct(ps);
    SortKeeps(Ranked(ps));
    FilterKeepsOrder(BuildRanking(ps), (r: RankedSlug) => r.slug != slug);
  }

  lemma {:induction false} MaxRankIs(xs: seq<RankedSlug>)
    ensures forall r :: r in xs ==> r.rank <= MaxRank(xs)
    ensures xs == [] || exists r :: r in xs && r.rank == MaxRank(xs)
  {
    if xs != [] {
      var init, last := xs[..|xs| - 1], xs[|xs| - 1];
      assert xs == init + [last];
      MaxRankIs(init);
      if last.rank > MaxRank(init) {
        assert last in xs;
      } else if init == [] {
        assert last in xs && last.rank == 0;
      } else {
        var r :| r in init && r.rank == MaxRank(init);
        assert r in xs;
      }
    }
  }

  lemma {:induction false} PlaceIs(ranking: seq<RankedSlug>, slug: string, i: nat)
    requires RankingDistinct(ranking)
    ensures var p := PlaceFrom(ranking, slug, i);
            && (p.Some? ==> i < p.value <= |ranking| && ranking[p.value - 1].slug == slug)
            && (p.None? ==> forall j :: i <= j < |ranking| ==> ranking[j].slug != slug)
    decreases |ranking| - i
  {
    if i < |ranking| && ranking[i].slug != slug {
      PlaceIs(ranking, slug, i + 1);
    }
  }

  // --- What every run keeps -------------------------------------------------------

  ghost predicate RanksDistinct(ps: seq<Initiative>) {
    forall i, j :: 0 <= i < j < |ps| && IsFocused(ps[i]) && IsFocused(ps[j]) ==> RankOf(ps[i]) != RankOf(ps[j])
  }

  ghost predicate WellRanked(ps: seq<Initiative>) {
    SlugsDistinct(ps) && AllValid(ps) && RanksDistinct(ps)
  }

  lemma {:induction false} FocusKeeps(ps: seq<Initiative>, slug: string, desired: nat, date: string)
    requires WellRanked(ps) && desired > 0
    ensures WellRanked(FocusAll(ps, slug, desired, date))
  {
  }

  /** Where a survivor ends up: its place, which no other survivor shares. */
  lemma {:induction false} SurvivorPlace(ps: seq<Initiative>, slug: string, i: nat, date: string)
    requires SlugsDistinct(ps) && AllValid(ps) && i < |ps| && ps[i].slug != slug
    ensures var survivors := Without(ps, slug); var next := SurvivorOne(ps[i], survivors, date);
            if IsFocused(ps[i]) then
              && IsFocused(next) && 0 < RankOf(next) <= |survivors|
              && survivors[RankOf(next) - 1] == RankedSlug(ps[i].slug, RankOf(ps[i]))
            else next == ps[i]
  {
    var survivors := Without(ps, slug);
    WithoutIs(ps, slug);
    PlaceIs(survivors, ps[i].slug, 0);
    var place := PlaceFrom(survivors, ps[i].slug, 0);
    if IsFocused(ps[i]) {
      var me := RankedSlug(ps[i].slug, RankOf(ps[i]));
      assert Survivor(ps, slug, me);
      var j :| 0 <= j < |survivors| && survivors[j] == me;
    } else {
      forall j | 0 <= j < |survivors| ensures survivors[j].slug != ps[i].slug {
        assert Survivor(ps, slug, survivors[j]);
      }
    }
  }

  /** Taking a focused entry out needs no distinct ranks before, and leaves them distinct. */
  lemma {:induction false} DemoteKeeps(ps: seq<Initiative>, slug: string, brief: Brief, date: string)
    requires SlugsDistinct(ps) && AllValid(ps) && ValidBrief(brief) && !brief.state.Focused?
    ensures WellRanked(Demote(ps, slug, brief, Without(ps, slug), date))
  {
    var next := Demote(ps, slug, brief, Without(ps, slug), date);
    forall i | 0 <= i < |ps| && ps[i].slug != slug
      ensures ValidBrief(next[i].brief) && next[i].slug == ps[i].slug
    {
      SurvivorPlace(ps, slug, i, date);
    }
    forall i, j | 0 <= i < j < |ps| && IsFocused(next[i]) && IsFocused(next[j]) ensures RankOf(next[i]) != RankOf(next[j]) {
      SurvivorPlace(ps, slug, i, date);
      SurvivorPlace(ps, slug, j, date);
    }
  }

  lemma {:induction false} PauseUnfocusedKeeps(ps: seq<Initiative>, slug: string, brief: Brief, date: string)
    requires WellRanked(ps) && ValidBrief(brief) && !brief.state.Focused?
    ensures WellRanked(Demote(ps, slug, brief, [], date))
  {
  }

  lemma {:induction false} RanksBelowMax(ps: seq<Initiative>, i: nat)
    requires i < |ps| && IsFocused(ps[i])
    ensures RankOf(ps[i]) <= MaxRank(Ranked(ps))
  {
    RankedIs(ps);
    MaxRankIs(Ranked(ps));
    assert RankedSlug(ps[i].slug, RankOf(ps[i])) in Ranked(ps);
  }

  lemma {:induction false} InsertOneKeeps(ps: seq<Initiative>, k: nat, x: Initiative)
    requires WellRanked(ps) && k <= |ps| && ValidBrief(x.brief)
    requires forall i :: 0 <= i < |ps| ==> ps[i].slug != x.slug
    requires IsFocused(x) ==> forall i :: 0 <= i < |ps| && IsFocused(ps[i]) ==> RankOf(ps[i]) != RankOf(x)
    ensures WellRanked(ps[..k] + [x] + ps[k..])
  {
    var next := ps[..k] + [x] + ps[k..];
    forall i | 0 <= i < |next| && i != k ensures next[i] == ps[if i < k then i else i - 1] {
    }
  }

  lemma {:induction false} NewKeeps(ps: seq<Initiative>, slug: string, at: nat, date: string)
    requires WellRanked(ps) && Find(ps, slug).None?
    ensures WellRanked(NewCommand(ps, slug, at, date).briefs)
  {
    forall i | 0 <= i < |ps| && IsFocused(ps[i]) ensures RankOf(ps[i]) <= MaxRank(Ranked(ps)) {
      RanksBelowMax(ps, i);
    }
    var x := Initiative(slug, Brief(Focused, Some(MaxRank(Ranked(ps)) + 1), None, None, date));
    InsertOneKeeps(ps, if at <= |ps| then at else |ps|, x);
  }

  lemma {:induction false} ExecuteKeeps(ps: seq<Initiative>, c: Command, date: string)
    requires WellRanked(ps) && Execute(ps, c, date).Ok?
    ensures WellRanked(Execute(ps, c, date).briefs)
  {
    match c
    case New(slug, at) => NewKeeps(ps, slug, at, date);
    case Focus(slug, rank) => FocusKeeps(ps, slug, Desired(ps, slug, rank), date);
    case Unfocus(slug) =>
      var cleared := ps[Find(ps, slug).value].brief.(state := Backburner, rank := None, updated := date);
      DemoteKeeps(ps, slug, cleared, date);
    case Pause(slug, since, trigger) =>
      var paused := Brief(Paused, None, Some(since), Some(trigger), date);
      DemoteKeeps(ps, slug, paused, date);
      PauseUnfocusedKeeps(ps, slug, paused, date);
    case Unpause(slug) =>
  }

  /** Over every run, focused ranks stay positive and pairwise distinct. */
  lemma {:induction false} RunKeepsRanks(ps: seq<Initiative>, cs: seq<Command>, date: string)
    requires WellRanked(ps)
    ensures WellRanked(RunCommands(ps, cs, date))
  {
    if cs != [] {
      RunKeepsRanks(ps, cs[..|cs| - 1], date);
      var before := RunCommands(ps, cs[..|cs| - 1], date);
      if Execute(before, cs[|cs| - 1], date).Ok? {
        ExecuteKeeps(before, cs[|cs| - 1], date);
      }
    }
  }

  // --- Which briefs are rewritten, and into what ------------------------------------

  /** focus rewrites the target and the entries it moves, clearing their paused-only fields, and no other brief. */
  lemma {:induction false} FocusRewrites(ps: seq<Initiative>, t: nat, rank: Option<nat>, date: string, i: nat)
    requires SlugsDistinct(ps) && t < |ps| && i < |ps|
    requires FocusCommand(ps, ps[t].slug, rank, date).Ok?
    ensures var next, d := FocusCommand(ps, ps[t].slug, rank, date).briefs, Desired(ps, ps[t].slug, rank);
            && |next| == |ps| && next[i].slug == ps[i].slug
            && (i == t ==> next[i].brief == Brief(Focused, Some(d), None, None, date))
            && (i != t && IsFocused(ps[i]) && RankOf(ps[i]) >= d ==>
                  next[i].brief == Brief(Focused, Some(RankOf(ps[i]) + 1), None, None, date))
            && (i != t && !(IsFocused(ps[i]) && RankOf(ps[i]) >= d) ==> next[i] == ps[i])
  {
    if i != t {
      assert ps[i].slug != ps[t].slug;
    }
  }

  /** A focused entry with another rank and the date, and nothing else changed. */
  predicate Moved(x: Initiative, next: Initiative, date: string) {
    IsFocused(x) && RankOf(next) != RankOf(x) && next.brief == x.brief.(rank := Some(RankOf(next)), updated := date)
  }

  /** Taking an entry out rewrites it and the survivors that move, and no other brief. */
  lemma {:induction false} RemovalRewrites(ps: seq<Initiative>, t: nat, c: Command, date: string, i: nat)
    requires SlugsDistinct(ps) && AllValid(ps) && t < |ps| && i < |ps| && IsFocused(ps[t])
    requires c == Unfocus(ps[t].slug) || (c.Pause? && c.slug == ps[t].slug)
    ensures Execute(ps, c, date).Ok?
    ensures var next := Execute(ps, c, date).briefs;
            && |next| == |ps| && next[i].slug == ps[i].slug
            && (i == t && c.Unfocus? ==>
                  next[i].brief == Brief(Backburner, None, ps[t].brief.pausedSince, ps[t].brief.restartTrigger, date))
            && (i == t && c.Pause? ==> next[i].brief == Brief(Paused, None, Some(c.since), Some(c.trigger), date))
            && (i != t ==> next[i] == ps[i] || Moved(ps[i], next[i], date))
  {
    assert Find(ps, ps[t].slug) == Some(t);
    if i != t {
      assert ps[i].slug != ps[t].slug;
      SurvivorPlace(ps, ps[t].slug, i, date);
    }
  }
}
