/**
 * When the focused ranks read exactly 1..n (src/commands/focus.ts, unfocus.ts,
 * pause.ts, new.ts).
 */
module FocusDense {
  import opened Prelude
  import opened FocusRanks

  ghost predicate HasRank(ps: seq<Initiative>, r: int) {
    exists i :: 0 <= i < |ps| && IsFocused(ps[i]) && RankOf(ps[i]) == r
  }

  /** The focused ranks are exactly 1..n, each once. */
  ghost predicate Dense(ps: seq<Initiative>, n: nat) {
    RanksDistinct(ps) && forall r :: HasRank(ps, r) <==> 1 <= r <= n
  }

  ghost predicate IsDense(ps: seq<Initiative>) {
    exists n :: Dense(ps, n)
  }

  // --- Counting -----------------------------------------------------------------

  ghost predicate RankIn(xs: seq<RankedSlug>, r: int) {
    exists i :: 0 <= i < |xs| && xs[i].rank == r
  }

  /** A ranking whose ranks are exactly 1..n, rising, has n entries. */
  lemma {:induction false} ExactRanking(xs: seq<RankedSlug>, n: nat)
    requires forall i, j :: 0 <= i < j < |xs| ==> xs[i].rank < xs[j].rank
    requires forall r :: RankIn(xs, r) <==> 1 <= r <= n
    ensures |xs| == n
  {
    assert xs != [] ==> RankIn(xs, xs[|xs| - 1].rank);
    if n > 0 {
      assert RankIn(xs, n);
      var init := xs[..|xs| - 1];
      assert RankIn(xs, xs[|xs| - 1].rank);
      forall r ensures RankIn(init, r) <==> 1 <= r <= n - 1 {
        if RankIn(init, r) {
          var i :| 0 <= i < |init| && init[i].rank == r;
          assert xs[i].rank == r && RankIn(xs, r);
        }
        if 1 <= r <= n - 1 {
          assert RankIn(xs, r);
          var i :| 0 <= i < |xs| && xs[i].rank == r;
          assert init[i].rank == r;
        }
      }
      ExactRanking(init, n - 1);
    }
  }

  lemma {:induction false} BuildRankingIs(ps: seq<Initiative>)
    requires SlugsDistinct(ps)
    ensures Rising(BuildRanking(ps)) && RankingDistinct(BuildRanking(ps))
    ensures forall r :: r in BuildRanking(ps) <==>
      exists i :: 0 <= i < |ps| && IsFocused(ps[i]) && r == RankedSlug(ps[i].slug, RankOf(ps[i]))
  {
    RankedIs(ps);
    RankedDistinct(ps);
    SortKeeps(Ranked(ps));
  }

  lemma {:induction false} RankingRanks(ps: seq<Initiative>)
    requires WellRanked(ps)
    ensures forall r :: RankIn(BuildRanking(ps), r) <==> HasRank(ps, r)
    ensures forall i, j :: 0 <= i < j < |BuildRanking(ps)| ==> BuildRanking(ps)[i].rank < BuildRanking(ps)[j].rank
  {
    var xs := BuildRanking(ps);
    BuildRankingIs(ps);
    forall r ensures RankIn(xs, r) <==> HasRank(ps, r) {
      if RankIn(xs, r) {
        var k :| 0 <= k < |xs| && xs[k].rank == r;
        assert xs[k] in xs;
      }
      if HasRank(ps, r) {
        var i :| 0 <= i < |ps| && IsFocused(ps[i]) && RankOf(ps[i]) == r;
        assert RankedSlug(ps[i].slug, r) in xs;
      }
    }
    forall i, j | 0 <= i < j < |xs| ensures xs[i].rank < xs[j].rank {
      assert xs[i] in xs && xs[j] in xs;
      var p :| 0 <= p < |ps| && IsFocused(ps[p]) && xs[i] == RankedSlug(ps[p].slug, RankOf(ps[p]));
      var q :| 0 <= q < |ps| && IsFocused(ps[q]) && xs[j] == RankedSlug(ps[q].slug, RankOf(ps[q]));
      assert p != q;
    }
  }

  lemma {:induction false} DropOne(xs: seq<RankedSlug>, slug: string)
    requires RankingDistinct(xs)
    ensures |Filter(xs, (r: RankedSlug) => r.slug != slug)| ==
      if exists i :: 0 <= i < |xs| && xs[i].slug == slug then |xs| - 1 else |xs|
  {
    if xs != [] {
      UnconsKeeps(xs);
      DropOne(xs[1..], slug);
      if xs[0].slug == slug {
        assert forall j :: 0 <= j < |xs[1..]| ==> xs[1..][j] in xs[1..];
      } else if i :| 0 <= i < |xs| && xs[i].slug == slug {
        assert xs[1..][i - 1].slug == slug;
      } else {
        assert forall j :: 0 <= j < |xs[1..]| ==> xs[1..][j] == xs[j + 1];
      }
    }
  }

  /** With dense ranks, the others number n, or n - 1 when the target is one of them. */
  lemma {:induction false} OthersCount(ps: seq<Initiative>, n: nat, t: nat)
    requires WellRanked(ps) && Dense(ps, n) && t < |ps|
    ensures |Without(ps, ps[t].slug)| == if IsFocused(ps[t]) then n - 1 else n
  {
    var xs := BuildRanking(ps);
    RankingRanks(ps);
    ExactRanking(xs, n);
    BuildRankingIs(ps);
    DropOne(xs, ps[t].slug);
    if IsFocused(ps[t]) {
      assert RankedSlug(ps[t].slug, RankOf(ps[t])) in xs;
    } else {
      forall k | 0 <= k < |xs| ensures xs[k].slug != ps[t].slug {
        assert xs[k] in xs;
      }
    }
  }

  /** The greatest rank among the others. */
  lemma {:induction false} OthersMax(ps: seq<Initiative>, t: nat, m: nat)
    requires WellRanked(ps) && t < |ps|
    requires forall i :: 0 <= i < |ps| && i != t && IsFocused(ps[i]) ==> RankOf(ps[i]) <= m
    requires m == 0 || exists i :: 0 <= i < |ps| && i != t && IsFocused(ps[i]) && RankOf(ps[i]) == m
    ensures MaxRank(Without(ps, ps[t].slug)) == m
  {
    var others := Without(ps, ps[t].slug);
    MaxRankIs(others);
    forall r | r in others ensures r.rank <= m {
      OtherIs(ps, t, r);
    }
    if m > 0 {
      var i :| 0 <= i < |ps| && i != t && IsFocused(ps[i]) && RankOf(ps[i]) == m;
      OtherIn(ps, t, i);
    }
  }

  lemma {:induction false} OtherIn(ps: seq<Initiative>, t: nat, i: nat)
    requires WellRanked(ps) && t < |ps| && i < |ps| && i != t && IsFocused(ps[i])
    ensures RankedSlug(ps[i].slug, RankOf(ps[i])) in Without(ps, ps[t].slug)
  {
    WithoutIs(ps, ps[t].slug);
    assert Survivor(ps, ps[t].slug, RankedSlug(ps[i].slug, RankOf(ps[i])));
  }

  lemma {:induction false} OtherIs(ps: seq<Initiative>, t: nat, r: RankedSlug)
    requires WellRanked(ps) && t < |ps| && r in Without(ps, ps[t].slug)
    ensures exists i :: 0 <= i < |ps| && i != t && IsFocused(ps[i]) && RankOf(ps[i]) == r.rank
  {
    WithoutIs(ps, ps[t].slug);
    assert Survivor(ps, ps[t].slug, r);
  }

  // --- Focusing --------------------------------------------------------------------

  lemma {:induction false} FindIs(ps: seq<Initiative>, t: nat)
    requires SlugsDistinct(ps) && t < |ps|
    ensures Find(ps, ps[t].slug) == Some(t)
  {
  }

  /** The ranks after a focus: the target's, the others' below it, and the others' from it on plus one. */
  lemma {:induction false} RanksAfterFocus(ps: seq<Initiative>, t: nat, d: nat, date: string, r: int)
    requires WellRanked(ps) && t < |ps| && d > 0
    ensures HasRank(FocusAll(ps, ps[t].slug, d, date), r) <==>
      r == d
      || (r < d && exists i :: 0 <= i < |ps| && i != t && IsFocused(ps[i]) && RankOf(ps[i]) == r)
      || (r > d && exists i :: 0 <= i < |ps| && i != t && IsFocused(ps[i]) && RankOf(ps[i]) == r - 1)
  {
    var next := FocusAll(ps, ps[t].slug, d, date);
    if HasRank(next, r) {
      var i :| 0 <= i < |next| && IsFocused(next[i]) && RankOf(next[i]) == r;
      assert i == t || next[i].slug != ps[t].slug;
    }
    if r == d {
      assert IsFocused(next[t]) && RankOf(next[t]) == d;
    }
    if i :| 0 <= i < |ps| && i != t && IsFocused(ps[i]) && RankOf(ps[i]) == (if r < d then r else r - 1) {
      if r != d {
        assert IsFocused(next[i]) && RankOf(next[i]) == r;
      }
    }
  }

  /** The other entries keep their order. */
  lemma {:induction false} FocusKeepsOrder(ps: seq<Initiative>, slug: string, d: nat, date: string, i: nat, j: nat)
    requires AllValid(ps) && i < |ps| && j < |ps| && IsFocused(ps[i]) && IsFocused(ps[j])
    requires ps[i].slug != slug && ps[j].slug != slug
    ensures var next := FocusAll(ps, slug, d, date);
            RankOf(next[i]) < RankOf(next[j]) <==> RankOf(ps[i]) < RankOf(ps[j])
  {
  }

  lemma {:induction false} HasOther(ps: seq<Initiative>, t: nat, n: nat, r: int)
    requires WellRanked(ps) && Dense(ps, n) && t < |ps|
    ensures (exists i :: 0 <= i < |ps| && i != t && IsFocused(ps[i]) && RankOf(ps[i]) == r) <==>
      1 <= r <= n && !(IsFocused(ps[t]) && RankOf(ps[t]) == r)
  {
    if 1 <= r <= n {
      assert HasRank(ps, r);
    }
    if i :| 0 <= i < |ps| && i != t && IsFocused(ps[i]) && RankOf(ps[i]) == r {
      assert HasRank(ps, r);
    }
  }

  /** Where the target goes when the ranks are dense. */
  lemma {:induction false} DesiredWhenDense(ps: seq<Initiative>, n: nat, t: nat, rank: Option<nat>, date: string)
    requires WellRanked(ps) && Dense(ps, n) && t < |ps|
    requires FocusCommand(ps, ps[t].slug, rank, date).Ok?
    ensures var d := Desired(ps, ps[t].slug, rank);
            && 1 <= d && (rank.Some? ==> d == rank.value)
            && if IsFocused(ps[t]) && (rank.Some? || RankOf(ps[t]) == n) then d <= n else d <= n + 1
    ensures rank.None? ==> Desired(ps, ps[t].slug, rank) == if IsFocused(ps[t]) && RankOf(ps[t]) == n then n else n + 1
  {
    OthersCount(ps, n, t);
    var me := IsFocused(ps[t]) && RankOf(ps[t]) == n;
    var m: nat := if me && n > 0 then n - 1 else n;
    HasOther(ps, t, n, m);
    forall i | 0 <= i < |ps| && i != t && IsFocused(ps[i]) ensures RankOf(ps[i]) <= m {
      HasOther(ps, t, n, RankOf(ps[i]));
    }
    OthersMax(ps, t, m);
  }

  /** Focusing an entry that was not focused takes 1..n to 1..n+1. */
  lemma {:induction false} FocusGrows(ps: seq<Initiative>, n: nat, t: nat, rank: Option<nat>, date: string)
    requires WellRanked(ps) && Dense(ps, n) && t < |ps| && !IsFocused(ps[t])
    requires FocusCommand(ps, ps[t].slug, rank, date).Ok?
    ensures var next := FocusCommand(ps, ps[t].slug, rank, date).briefs;
            && Dense(next, n + 1) && |next| == |ps|
            && IsFocused(next[t]) && RankOf(next[t]) == rank.GetOr(n + 1)
  {
    var d := Desired(ps, ps[t].slug, rank);
    DesiredWhenDense(ps, n, t, rank, date);
    FocusKeeps(ps, ps[t].slug, d, date);
    var next := FocusAll(ps, ps[t].slug, d, date);
    forall r ensures HasRank(next, r) <==> 1 <= r <= n + 1 {
      RanksAfterFocus(ps, t, d, date, r);
      HasOther(ps, t, n, r);
      if r > 0 {
        HasOther(ps, t, n, r - 1);
      }
    }
  }

  /** Focusing an entry that is focused already keeps the ranks gap-free exactly when it was the last one. */
  lemma {:induction false} RefocusStaysDenseIff(ps: seq<Initiative>, n: nat, t: nat, rank: Option<nat>, date: string)
    requires WellRanked(ps) && Dense(ps, n) && t < |ps| && IsFocused(ps[t])
    requires FocusCommand(ps, ps[t].slug, rank, date).Ok?
    ensures IsDense(FocusCommand(ps, ps[t].slug, rank, date).briefs) <==> RankOf(ps[t]) == n
    ensures RankOf(ps[t]) == n ==> Dense(FocusCommand(ps, ps[t].slug, rank, date).briefs, n)
  {
    var d, c := Desired(ps, ps[t].slug, rank), RankOf(ps[t]);
    DesiredWhenDense(ps, n, t, rank, date);
    FocusKeeps(ps, ps[t].slug, d, date);
    assert HasRank(ps, c);
    var next := FocusAll(ps, ps[t].slug, d, date);
    forall r ensures HasRank(next, r) <==>
      r == d || (r < d && 1 <= r <= n && r != c) || (r > d && 1 <= r - 1 <= n && r - 1 != c)
    {
      RanksAfterFocus(ps, t, d, date, r);
      HasOther(ps, t, n, r);
      if r > 0 {
        HasOther(ps, t, n, r - 1);
      }
    }
    if c == n {
      assert Dense(next, n);
    } else {
      var gap, above := if d > c then c else c + 1, if d > c then d else n + 1;
      assert !HasRank(next, gap) && HasRank(next, above) && 1 <= gap < above;
    }
  }

  function AtRank(slug: string, rank: nat): Initiative {
    Initiative(slug, Brief(Focused, Some(rank), None, None, ""))
  }

  /** Two focused entries; the first is focused once more, and nothing is left at rank 1. */
  lemma {:induction false} RefocusingLeavesAGap(date: string)
    ensures var ps := [AtRank("a", 1), AtRank("b", 2)];
            var outcome := FocusCommand(ps, "a", None, date);
            Dense(ps, 2) && outcome.Ok? && !IsDense(outcome.briefs)
  {
    var ps := [AtRank("a", 1), AtRank("b", 2)];
    assert RankOf(ps[0]) == 1 && RankOf(ps[1]) == 2;
    forall r ensures HasRank(ps, r) <==> 1 <= r <= 2 {
      assert r == 1 ==> HasRank(ps, RankOf(ps[0]));
      assert r == 2 ==> HasRank(ps, RankOf(ps[1]));
    }
    assert Find(ps, "a") == Some(0);
    RefocusStaysDenseIff(ps, 2, 0, None, date);
  }

  // --- Taking an entry out ------------------------------------------------------------

  /** Entries focused afterwards stand in the order they had. */
  ghost predicate OrderKept(ps: seq<Initiative>, next: seq<Initiative>)
    requires |next| == |ps|
  {
    forall i, j | 0 <= i < |ps| && 0 <= j < |ps| && IsFocused(next[i]) && IsFocused(next[j]) ::
      RankOf(ps[i]) < RankOf(ps[j]) ==> RankOf(next[i]) < RankOf(next[j])
  }

  /** Whatever the ranks were, taking a focused entry out leaves the survivors at 1..n in the order they had. */
  lemma {:induction false} RemovalRenumbers(ps: seq<Initiative>, slug: string, brief: Brief, date: string)
    requires SlugsDistinct(ps) && AllValid(ps) && ValidBrief(brief) && !brief.state.Focused?
    ensures var survivors, next := Without(ps, slug), Demote(ps, slug, brief, Without(ps, slug), date);
            && Dense(next, |survivors|)
            && OrderKept(ps, next)
  {
    var survivors, next := Without(ps, slug), Demote(ps, slug, brief, Without(ps, slug), date);
    WithoutIs(ps, slug);
    DemoteKeeps(ps, slug, brief, date);
    forall r ensures HasRank(next, r) <==> 1 <= r <= |survivors| {
      if 1 <= r <= |survivors| {
        var x := survivors[r - 1];
        assert Survivor(ps, slug, x);
        var i :| 0 <= i < |ps| && IsFocused(ps[i]) && ps[i].slug != slug && x == RankedSlug(ps[i].slug, RankOf(ps[i]));
        SurvivorPlace(ps, slug, i, date);
        assert IsFocused(next[i]) && RankOf(next[i]) == r;
      }
      if i :| 0 <= i < |next| && IsFocused(next[i]) && RankOf(next[i]) == r {
        SurvivorPlace(ps, slug, i, date);
      }
    }
    forall i, j | 0 <= i < |ps| && 0 <= j < |ps| && IsFocused(next[i]) && IsFocused(next[j]) && RankOf(ps[i]) < RankOf(ps[j])
      ensures RankOf(next[i]) < RankOf(next[j])
    {
      SurvivorPlace(ps, slug, i, date);
      SurvivorPlace(ps, slug, j, date);
    }
  }

  /** unfocus, and pause of a focused entry, always end dense. */
  lemma {:induction false} RemovalIsDense(ps: seq<Initiative>, c: Command, t: nat, date: string)
    requires SlugsDistinct(ps) && AllValid(ps) && t < |ps| && IsFocused(ps[t])
    requires c == Unfocus(ps[t].slug) || (c.Pause? && c.slug == ps[t].slug)
    ensures Execute(ps, c, date).Ok? && IsDense(Execute(ps, c, date).briefs)
    ensures !IsFocused(Execute(ps, c, date).briefs[t])
  {
    FindIs(ps, t);
    var out := if c.Unfocus? then ps[t].brief.(state := Backburner, rank := None, updated := date)
               else Brief(Paused, None, Some(c.since), Some(c.trigger), date);
    RemovalRenumbers(ps, ps[t].slug, out, date);
  }

  // --- Whole runs -----------------------------------------------------------------------

  /** The command does not re-focus an entry that is focused already, unless it is the last one. */
  ghost predicate Tidy(ps: seq<Initiative>, c: Command) {
    c.Focus? ==> forall i :: 0 <= i < |ps| && ps[i].slug == c.slug && IsFocused(ps[i]) ==>
      forall j :: 0 <= j < |ps| && IsFocused(ps[j]) ==> RankOf(ps[j]) <= RankOf(ps[i])
  }

  ghost predicate TidyRun(ps: seq<Initiative>, cs: seq<Command>, date: string) {
    cs == [] || (TidyRun(ps, cs[..|cs| - 1], date) && Tidy(RunCommands(ps, cs[..|cs| - 1], date), cs[|cs| - 1]))
  }

  lemma {:induction false} TopRankWhenDense(ps: seq<Initiative>, n: nat)
    requires WellRanked(ps) && Dense(ps, n)
    ensures MaxRank(Ranked(ps)) == n
  {
    RankedIs(ps);
    MaxRankIs(Ranked(ps));
    var top := MaxRank(Ranked(ps));
    if Ranked(ps) != [] {
      var x :| x in Ranked(ps) && x.rank == top;
      assert HasRank(ps, top);
    }
    if n > 0 {
      assert HasRank(ps, n);
      var i :| 0 <= i < |ps| && IsFocused(ps[i]) && RankOf(ps[i]) == n;
      RanksBelowMax(ps, i);
    }
  }

  lemma {:induction false} RanksAfterInsert(ps: seq<Initiative>, k: nat, x: Initiative, r: int)
    requires k <= |ps| && IsFocused(x)
    ensures HasRank(ps[..k] + [x] + ps[k..], r) <==> HasRank(ps, r) || r == RankOf(x)
  {
    var next := ps[..k] + [x] + ps[k..];
    assert next[k] == x;
    if i :| 0 <= i < |ps| && IsFocused(ps[i]) && RankOf(ps[i]) == r {
      assert next[if i < k then i else i + 1] == ps[i];
    }
    if i :| 0 <= i < |next| && i != k && IsFocused(next[i]) && RankOf(next[i]) == r {
      assert next[i] == ps[if i < k then i else i - 1];
    }
  }

  lemma {:induction false} NewIsDense(ps: seq<Initiative>, n: nat, slug: string, at: nat, date: string)
    requires WellRanked(ps) && Dense(ps, n) && NewCommand(ps, slug, at, date).Ok?
    ensures Dense(NewCommand(ps, slug, at, date).briefs, n + 1)
  {
    NewKeeps(ps, slug, at, date);
    TopRankWhenDense(ps, n);
    var k := if at <= |ps| then at else |ps|;
    var x := Initiative(slug, Brief(Focused, Some(n + 1), None, None, date));
    forall r: int ensures HasRank(ps[..k] + [x] + ps[k..], r) <==> 1 <= r <= n + 1 {
      RanksAfterInsert(ps, k, x, r);
    }
  }

  /** A command that leaves every focused entry as it is keeps the ranks dense. */
  lemma {:induction false} SameFocused(ps: seq<Initiative>, next: seq<Initiative>, n: nat)
    requires Dense(ps, n) && |next| == |ps|
    requires forall i :: 0 <= i < |ps| && (IsFocused(ps[i]) || IsFocused(next[i])) ==> next[i] == ps[i]
    ensures Dense(next, n)
  {
    forall r ensures HasRank(next, r) <==> HasRank(ps, r) {
      if i :| 0 <= i < |ps| && IsFocused(ps[i]) && RankOf(ps[i]) == r {
        assert next[i] == ps[i];
      }
      if i :| 0 <= i < |next| && IsFocused(next[i]) && RankOf(next[i]) == r {
        assert ps[i] == next[i];
      }
    }
  }

  lemma {:induction false} ExecuteStaysDense(ps: seq<Initiative>, c: Command, date: string)
    requires WellRanked(ps) && IsDense(ps) && Tidy(ps, c) && Execute(ps, c, date).Ok?
    ensures IsDense(Execute(ps, c, date).briefs)
  {
    var n: nat :| Dense(ps, n);
    if c.New? {
      NewIsDense(ps, n, c.slug, c.at, date);
    } else {
      var t := Find(ps, c.slug).value;
      if c.Focus? {
        if IsFocused(ps[t]) {
          RefocusStaysDenseIff(ps, n, t, c.rank, date);
          assert HasRank(ps, RankOf(ps[t])) && HasRank(ps, n);
        } else {
          FocusGrows(ps, n, t, c.rank, date);
        }
      } else if IsFocused(ps[t]) && !c.Unpause? {
        RemovalIsDense(ps, c, t, date);
      } else {
        SameFocused(ps, Execute(ps, c, date).briefs, n);
      }
    }
  }

  /** From 1..n, a run that never re-focuses an inner entry stays at 1..m. */
  lemma {:induction false} RunStaysDense(ps: seq<Initiative>, cs: seq<Command>, date: string)
    requires WellRanked(ps) && IsDense(ps) && TidyRun(ps, cs, date)
    ensures IsDense(RunCommands(ps, cs, date))
  {
    if cs != [] {
      var init := cs[..|cs| - 1];
      RunStaysDense(ps, init, date);
      RunKeepsRanks(ps, init, date);
      var before := RunCommands(ps, init, date);
      if Execute(before, cs[|cs| - 1], date).Ok? {
        ExecuteStaysDense(before, cs[|cs| - 1], date);
      }
    }
  }
}
