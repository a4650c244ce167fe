/** When the focus-list commands go through. */
module FocusReplies {
  // src/commands/focus.ts, unfocus.ts, pause.ts, unpause.ts, new.ts: which arguments are accepted, what
  // each refusal is, and what becomes of the one brief a command is about.

  import opened Prelude
  import opened FocusRanks
  import opened FocusDense

  ghost predicate Listed(ps: seq<Initiative>, slug: string) {
    exists i :: 0 <= i < |ps| && ps[i].slug == slug
  }

  /** The focused entries other than `slug`, by their places in the listing. */
  ghost function Others(ps: seq<Initiative>, slug: string): set<nat> {
    set i: nat | i < |ps| && IsFocused(ps[i]) && ps[i].slug != slug
  }

  // --- Counting the others --------------------------------------------------------

  lemma {:induction false} FilterInsert(xs: seq<RankedSlug>, x: RankedSlug, keep: RankedSlug -> bool)
    ensures |Filter(InsertByRank(xs, x), keep)| == |Filter(xs, keep)| + (if keep(x) then 1 else 0)
  {
    if xs == [] || x.rank < xs[0].rank {
      assert ([x] + xs)[1..] == xs;
    } else {
      FilterInsert(xs[1..], x, keep);
      assert ([xs[0]] + InsertByRank(xs[1..], x))[1..] == InsertByRank(xs[1..], x);
    }
  }

  lemma {:induction false} SortSnoc(xs: seq<RankedSlug>, more: seq<RankedSlug>, keep: RankedSlug -> bool)
    requires |more| <= 1
    ensures |Filter(SortByRank(xs + more), keep)| ==
            |Filter(SortByRank(xs), keep)| + (if more != [] && keep(more[0]) then 1 else 0)
  {
    if more == [] {
      assert xs + more == xs;
    } else {
      assert (xs + more)[..|xs|] == xs;
      FilterInsert(SortByRank(xs), more[0], keep);
    }
  }

  lemma {:induction false} OthersSnoc(ps: seq<Initiative>, slug: string)
    requires ps != []
    ensures var n := |ps| - 1;
            Others(ps, slug) ==
            Others(ps[..n], slug) + (if IsFocused(ps[n]) && ps[n].slug != slug then {n} else {})
  {
  }

  lemma {:induction false} OthersNumber(ps: seq<Initiative>, slug: string)
    ensures |Without(ps, slug)| == |Others(ps, slug)|
  {
    if ps == [] {
      assert Others(ps, slug) == {};
    } else {
      var n := |ps| - 1;
      OthersNumber(ps[..n], slug);
      OthersSnoc(ps, slug);
      var last := if IsFocused(ps[n]) then [RankedSlug(ps[n].slug, RankOf(ps[n]))] else [];
      SortSnoc(Ranked(ps[..n]), last, (r: RankedSlug) => r.slug != slug);
      assert n !in Others(ps[..n], slug);
    }
  }

  /** The brief lacks what its state needs, or has rank zero. */
  ghost predicate Malformed(b: Brief) {
    || b.rank == Some(0)
    || (b.state == Focused && b.rank == None)
    || (b.state == Paused && (b.pausedSince == None || b.restartTrigger == None))
  }

  /** One malformed brief, of whatever initiative, stops every command that lists them all; nothing else about briefs does. */
  lemma {:induction false} MalformedStops(ps: seq<Initiative>, slug: string, since: string, trigger: string, date: string)
    ensures AllValid(ps) <==> forall i :: 0 <= i < |ps| ==> !Malformed(ps[i].brief)
    ensures (exists i :: 0 <= i < |ps| && Malformed(ps[i].brief)) ==>
              && FocusCommand(ps, slug, None, date) == Err(Unreadable)
              && UnfocusCommand(ps, slug, date) == Err(Unreadable)
              && PauseCommand(ps, slug, since, trigger, date) == Err(Unreadable)
              && UnpauseCommand(ps, slug, date) == Err(Unreadable)
  {
    assert forall i :: 0 <= i < |ps| ==> (ValidBrief(ps[i].brief) <==> !Malformed(ps[i].brief));
  }

  // --- focus --------------------------------------------------------------------------

  /** focus goes through for a listed slug and no rank, or one between 1 and one more than the other focused entries. */
  lemma {:induction false} FocusAccepts(ps: seq<Initiative>, slug: string, rank: Option<nat>, date: string)
    ensures var fits := rank.None? || 1 <= rank.value <= |Others(ps, slug)| + 1;
            match FocusCommand(ps, slug, rank, date)
            case Ok(_) => AllValid(ps) && Listed(ps, slug) && fits
            case Err(error) =>
              if rank == Some(0) then error == BadRank
              else if !AllValid(ps) then error == Unreadable
              else if !Listed(ps, slug) then error == NotFound
              else error == BadRank && !fits
  {
    OthersNumber(ps, slug);
  }

  /** From 1..n an entry that is not focused can be put at exactly 1..n+1. */
  lemma {:induction false} DenseListTakes(ps: seq<Initiative>, n: nat, t: nat, rank: nat, date: string)
    requires WellRanked(ps) && Dense(ps, n) && t < |ps| && !IsFocused(ps[t])
    ensures FocusCommand(ps, ps[t].slug, Some(rank), date).Ok? <==> 1 <= rank <= n + 1
  {
    OthersCount(ps, n, t);
  }

  /** Without a rank the entry goes after all others, leaving no gap before it. */
  lemma {:induction false} LastPlace(ps: seq<Initiative>, slug: string)
    requires SlugsDistinct(ps)
    ensures var last := Desired(ps, slug, None);
            && (forall i :: i in Others(ps, slug) ==> RankOf(ps[i]) < last)
            && (if Others(ps, slug) == {} then last == 1
                else exists i :: i in Others(ps, slug) && RankOf(ps[i]) + 1 == last)
  {
    var others := Without(ps, slug);
    WithoutIs(ps, slug);
    MaxRankIs(others);
    OthersNumber(ps, slug);
    forall i | i in Others(ps, slug) ensures RankOf(ps[i]) <= MaxRank(others) {
      assert Survivor(ps, slug, RankedSlug(ps[i].slug, RankOf(ps[i])));
    }
    if others != [] {
      var r :| r in others && r.rank == MaxRank(others);
      assert Survivor(ps, slug, r);
      var i :| 0 <= i < |ps| && IsFocused(ps[i]) && ps[i].slug != slug && r == RankedSlug(ps[i].slug, RankOf(ps[i]));
      assert i in Others(ps, slug);
    }
  }

  // --- Entries at one rank ---------------------------------------------------------------

  /** `a` stands somewhere in `xs`, and `b` somewhere after it. */
  ghost predicate Follows(xs: seq<RankedSlug>, a: RankedSlug, b: RankedSlug) {
    xs != [] && ((xs[0] == a && b in xs[1..]) || Follows(xs[1..], a, b))
  }

  lemma {:induction false} FollowsAppend(xs: seq<RankedSlug>, ys: seq<RankedSlug>, a: RankedSlug, b: RankedSlug)
    ensures Follows(xs, a, b) || (a in xs && b in ys) ==> Follows(xs + ys, a, b)
  {
    if xs != [] {
      assert (xs + ys)[1..] == xs[1..] + ys;
      FollowsAppend(xs[1..], ys, a, b);
    }
  }

  lemma {:induction false} InsertFollows(xs: seq<RankedSlug>, x: RankedSlug, a: RankedSlug, b: RankedSlug)
    requires Rising(xs)
    ensures Follows(xs, a, b) ==> Follows(InsertByRank(xs, x), a, b)
    ensures a in xs && a.rank <= x.rank ==> Follows(InsertByRank(xs, x), a, x)
  {
    InsertElements(xs, x);
    if xs != [] && x.rank < xs[0].rank {
      UnconsKeeps(xs);
      assert ([x] + xs)[1..] == xs;
    } else if xs != [] {
      UnconsKeeps(xs);
      InsertElements(xs[1..], x);
      InsertFollows(xs[1..], x, a, b);
      assert InsertByRank(xs, x)[1..] == InsertByRank(xs[1..], x);
    }
  }

  lemma {:induction false} SortFollows(xs: seq<RankedSlug>, a: RankedSlug, b: RankedSlug)
    requires Follows(xs, a, b) && a.rank <= b.rank
    ensures Follows(SortByRank(xs), a, b)
  {
    var init, last := xs[..|xs| - 1], xs[|xs| - 1];
    assert xs == init + [last];
    FollowsSnoc(init, last, a, b);
    SortKeeps(init);
    InsertFollows(SortByRank(init), last, a, b);
    if Follows(init, a, b) {
      SortFollows(init, a, b);
    }
  }

  lemma {:induction false} FollowsSnoc(xs: seq<RankedSlug>, x: RankedSlug, a: RankedSlug, b: RankedSlug)
    requires Follows(xs + [x], a, b)
    ensures Follows(xs, a, b) || (a in xs && b == x)
  {
    if xs != [] {
      assert (xs + [x])[1..] == xs[1..] + [x];
      if !(xs[0] == a && b in xs[1..] + [x]) {
        FollowsSnoc(xs[1..], x, a, b);
      }
    }
  }

  lemma {:induction false} FilterFollows(
    xs: seq<RankedSlug>, a: RankedSlug, b: RankedSlug, keep: RankedSlug -> bool)
    requires Follows(xs, a, b) && keep(a) && keep(b)
    ensures Follows(Filter(xs, keep), a, b)
  {
    var rest := Filter(xs[1..], keep);
    if !(xs[0] == a && b in xs[1..]) {
      FilterFollows(xs[1..], a, b, keep);
    }
    if keep(xs[0]) {
      assert Filter(xs, keep) == [xs[0]] + rest && ([xs[0]] + rest)[1..] == rest;
    } else {
      assert Filter(xs, keep) == rest;
    }
  }

  function EntryOf(x: Initiative): RankedSlug {
    RankedSlug(x.slug, RankOf(x))
  }

  lemma {:induction false} RankedFollows(ps: seq<Initiative>, i: nat, j: nat)
    requires i < j < |ps| && IsFocused(ps[i]) && IsFocused(ps[j])
    ensures Follows(Ranked(ps), EntryOf(ps[i]), EntryOf(ps[j]))
  {
    var n := |ps| - 1;
    var last := if IsFocused(ps[n]) then [EntryOf(ps[n])] else [];
    FollowsAppend(Ranked(ps[..n]), last, EntryOf(ps[i]), EntryOf(ps[j]));
    if j < n {
      RankedFollows(ps[..n], i, j);
    } else {
      RankedIs(ps[..n]);
      assert ps[..n][i] == ps[i];
    }
  }

  /** Of two entries at one rank, the one listed first stays first. */
  lemma {:induction false} TiesKeepPlaces(ps: seq<Initiative>, slug: string, i: nat, j: nat)
    requires i < j && i in Others(ps, slug) && j in Others(ps, slug) && RankOf(ps[i]) <= RankOf(ps[j])
    ensures Follows(Without(ps, slug), EntryOf(ps[i]), EntryOf(ps[j]))
  {
    RankedFollows(ps, i, j);
    SortFollows(Ranked(ps), EntryOf(ps[i]), EntryOf(ps[j]));
    FilterFollows(BuildRanking(ps), EntryOf(ps[i]), EntryOf(ps[j]), (r: RankedSlug) => r.slug != slug);
  }

  // --- unfocus, pause, unpause, new ----------------------------------------------------

  /** The slug is listed, in this state. */
  ghost predicate ListedAs(ps: seq<Initiative>, slug: string, state: State) {
    exists i :: 0 <= i < |ps| && ps[i].slug == slug && ps[i].brief.state == state
  }

  lemma {:induction false} UnfocusAccepts(ps: seq<Initiative>, slug: string, date: string)
    requires SlugsDistinct(ps)
    ensures match UnfocusCommand(ps, slug, date)
            case Ok(_) => AllValid(ps) && ListedAs(ps, slug, Focused)
            case Err(error) =>
              if !AllValid(ps) then error == Unreadable
              else if !Listed(ps, slug) then error == NotFound
              else error == WrongState && !ListedAs(ps, slug, Focused)
  {
  }

  lemma {:induction false} PauseAccepts(ps: seq<Initiative>, slug: string, since: string, trigger: string, date: string)
    ensures match PauseCommand(ps, slug, since, trigger, date)
            case Ok(_) => AllValid(ps) && Listed(ps, slug)
            case Err(error) => if !AllValid(ps) then error == Unreadable else error == NotFound && !Listed(ps, slug)
  {
  }

  lemma {:induction false} UnpauseAccepts(ps: seq<Initiative>, slug: string, date: string)
    requires SlugsDistinct(ps)
    ensures match UnpauseCommand(ps, slug, date)
            case Ok(_) => AllValid(ps) && ListedAs(ps, slug, Paused)
            case Err(error) =>
              if !AllValid(ps) then error == Unreadable
              else if !Listed(ps, slug) then error == NotFound
              else error == WrongState && !ListedAs(ps, slug, Paused)
  {
  }

  lemma {:induction false} NewAccepts(ps: seq<Initiative>, slug: string, at: nat, date: string)
    ensures match NewCommand(ps, slug, at, date)
            case Ok(_) => !Listed(ps, slug)
            case Err(error) => error == AlreadyExists && Listed(ps, slug)
  {
  }

  /** unpause, and the pause of an entry that is not focused, rewrite that entry alone. */
  lemma {:induction false} LoneRewrites(ps: seq<Initiative>, t: nat, c: Command, date: string, i: nat)
    requires SlugsDistinct(ps) && t < |ps| && i < |ps| && Execute(ps, c, date).Ok?
    requires c == Unpause(ps[t].slug) || (c.Pause? && c.slug == ps[t].slug && !IsFocused(ps[t]))
    ensures var next := Execute(ps, c, date).briefs;
            && |next| == |ps| && next[i].slug == ps[i].slug
            && (i != t ==> next[i] == ps[i])
            && (i == t && c.Unpause? ==> next[i].brief == Brief(Backburner, None, None, None, date))
            && (i == t && c.Pause? ==> next[i].brief == Brief(Paused, None, Some(c.since), Some(c.trigger), date))
  {
    FindIs(ps, t);
    if i != t {
      assert ps[i].slug != ps[t].slug;
    }
  }

  /** new adds one entry, focused, one rank after the last; the others stay in their order. */
  lemma {:induction false} NewAdds(ps: seq<Initiative>, slug: string, at: nat, date: string) returns (k: nat)
    requires NewCommand(ps, slug, at, date).Ok?
    ensures var next := NewCommand(ps, slug, at, date).briefs;
            && k < |next| == |ps| + 1 && next[k].slug == slug
            && next[k].brief.state == Focused && next[k].brief.updated == date
            && next[k].brief.pausedSince == None && next[k].brief.restartTrigger == None
            && (forall i :: 0 <= i < |ps| && IsFocused(ps[i]) ==> RankOf(ps[i]) < RankOf(next[k]))
            && (forall i :: 0 <= i < k ==> next[i] == ps[i]) && forall i :: k < i < |next| ==> next[i] == ps[i - 1]
  {
    k := if at <= |ps| then at else |ps|;
    forall i | 0 <= i < |ps| && IsFocused(ps[i]) ensures RankOf(ps[i]) <= MaxRank(Ranked(ps)) {
      RanksBelowMax(ps, i);
    }
  }
}
