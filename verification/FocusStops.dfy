/** A focus command that was stopped between two of its writes. */
module FocusStops {
  // src/commands/focus.ts, unfocus.ts, pause.ts: focus writes the briefs in the order of their slugs,
  // a removal the target first and then the survivors by rank; a stop leaves the briefs written by then.

  import opened Prelude
  import opened LockOrder
  import opened FocusRanks
  import opened FocusDense
  import opened FocusCommands

  // --- focus ---------------------------------------------------------------------

  /** The briefs after `n` of the writes of focus. */
  function FocusStopped(ps: seq<Initiative>, slug: string, desired: nat, date: string, n: nat): seq<Initiative>
    requires n <= |FocusOrder(ps, slug, desired)|
  {
    Halfway(ps, FocusAll(ps, slug, desired, date), FocusOrder(ps, slug, desired)[..n])
  }

  function LandsOn(x: Initiative, slug: string, desired: nat): nat {
    if x.slug == slug then desired else RankOf(x) + 1
  }

  /** Brief `i` is written to the rank that brief `j` has. */
  predicate Displaces(ps: seq<Initiative>, slug: string, desired: nat, i: nat, j: nat) {
    && i < |ps| && j < |ps| && i != j && Rewrites(ps[i], slug, desired) && IsFocused(ps[j])
    && RankOf(ps[j]) == LandsOn(ps[i], slug, desired)
  }

  /** Whoever is displaced by a brief written already has been written too. */
  ghost predicate DisplacedFirst(ps: seq<Initiative>, slug: string, desired: nat, done: seq<string>) {
    forall i: nat, j: nat :: Displaces(ps, slug, desired, i, j) && ps[i].slug in done ==> ps[j].slug in done
  }

  /** Only briefs that focus rewrites have been written. */
  ghost predicate OnlyRewritten(ps: seq<Initiative>, slug: string, desired: nat, done: seq<string>) {
    forall i :: 0 <= i < |ps| && ps[i].slug in done ==> Rewrites(ps[i], slug, desired)
  }

  lemma {:induction false} WrittenLands(
    ps: seq<Initiative>, slug: string, desired: nat, date: string, done: seq<string>, i: nat)
    requires SlugsDistinct(ps) && i < |ps| && OnlyRewritten(ps, slug, desired, done)
    ensures var h := Halfway(ps, FocusAll(ps, slug, desired, date), done);
            && h[i].slug == ps[i].slug
            && (if ps[i].slug in done then IsFocused(h[i]) && RankOf(h[i]) == LandsOn(ps[i], slug, desired)
                else h[i] == ps[i])
  {
  }

  /** What was written leaves the focused ranks distinct exactly when no displaced brief is still to be written. */
  lemma {:induction false} WrittenDistinctIff(
    ps: seq<Initiative>, slug: string, desired: nat, date: string, done: seq<string>)
    requires WellRanked(ps) && OnlyRewritten(ps, slug, desired, done)
    ensures RanksDistinct(Halfway(ps, FocusAll(ps, slug, desired, date), done)) <==>
            DisplacedFirst(ps, slug, desired, done)
  {
    var h := Halfway(ps, FocusAll(ps, slug, desired, date), done);
    forall i | 0 <= i < |ps|
      ensures if ps[i].slug in done then IsFocused(h[i]) && RankOf(h[i]) == LandsOn(ps[i], slug, desired)
              else h[i] == ps[i]
    {
      WrittenLands(ps, slug, desired, date, done, i);
    }
    if DisplacedFirst(ps, slug, desired, done) {
      forall i: nat, j: nat | i < j < |ps| && IsFocused(h[i]) && IsFocused(h[j]) ensures RankOf(h[i]) != RankOf(h[j]) {
        assert !Displaces(ps, slug, desired, i, j) || ps[i].slug !in done || ps[j].slug in done;
        assert !Displaces(ps, slug, desired, j, i) || ps[j].slug !in done || ps[i].slug in done;
      }
    }
    if RanksDistinct(h) {
      forall i: nat, j: nat | Displaces(ps, slug, desired, i, j) && ps[i].slug in done ensures ps[j].slug in done {
        assert RankOf(h[i]) == RankOf(ps[j]);
      }
    }
  }

  lemma {:induction false} OrderIs(ps: seq<Initiative>, slug: string, desired: nat, n: nat)
    requires SlugsDistinct(ps) && n <= |FocusOrder(ps, slug, desired)|
    ensures Ascending(FocusOrder(ps, slug, desired))
    ensures forall i :: 0 <= i < |ps| ==>
              (ps[i].slug in FocusOrder(ps, slug, desired) <==> Rewrites(ps[i], slug, desired))
    ensures OnlyRewritten(ps, slug, desired, FocusOrder(ps, slug, desired)[..n])
  {
    SortSlugsSorts(Rewritten(ps, slug, desired));
    forall i | 0 <= i < |ps|
      ensures ps[i].slug in FocusOrder(ps, slug, desired) <==> Rewrites(ps[i], slug, desired)
    {
      RewrittenIs(ps, slug, desired, ps[i].slug);
    }
  }

  /** A stop of focus after `n` writes leaves distinct ranks exactly when no displaced brief is still to be written. */
  lemma {:induction false} StoppedFocusIff(ps: seq<Initiative>, slug: string, desired: nat, date: string, n: nat)
    requires WellRanked(ps) && n <= |FocusOrder(ps, slug, desired)|
    ensures RanksDistinct(FocusStopped(ps, slug, desired, date, n)) <==>
            DisplacedFirst(ps, slug, desired, FocusOrder(ps, slug, desired)[..n])
  {
    OrderIs(ps, slug, desired, n);
    WrittenDistinctIff(ps, slug, desired, date, FocusOrder(ps, slug, desired)[..n]);
  }

  /** Of an ascending list, a slug that comes before one of a prefix is in the prefix, and no other is. */
  lemma {:induction false} PrefixHolds(order: seq<string>, a: nat, b: nat)
    requires Ascending(order) && a < |order| && b < |order| && a != b
    ensures order[b] in order[..a + 1] <==> Less(order[b], order[a])
    ensures order[a] in order[..a + 1]
  {
    assert order[..a + 1][a] == order[a];
    if b < a {
      assert order[..a + 1][b] == order[b];
    } else {
      NotBefore(order, a, b);
    }
  }

  lemma {:induction false} NotBefore(order: seq<string>, a: nat, b: nat)
    requires Ascending(order) && a < b < |order|
    ensures order[b] !in order[..a + 1] && !Less(order[b], order[a])
  {
    if k :| 0 <= k < a + 1 && order[k] == order[b] {
      LessIsStrict(order[b]);
    }
    if Less(order[b], order[a]) {
      LessIsTransitive(order[a], order[b], order[a]);
      LessIsStrict(order[a]);
    }
  }

  /** Each brief that is displaced has the earlier slug. */
  ghost predicate DisplacedSortFirst(ps: seq<Initiative>, slug: string, desired: nat) {
    forall i: nat, j: nat :: Displaces(ps, slug, desired, i, j) ==> Less(ps[j].slug, ps[i].slug)
  }

  lemma {:induction false} DisplacedIsRewritten(ps: seq<Initiative>, slug: string, desired: nat, i: nat, j: nat)
    requires Displaces(ps, slug, desired, i, j)
    ensures Rewrites(ps[j], slug, desired)
  {
  }

  lemma {:induction false} PairInOrder(ps: seq<Initiative>, slug: string, desired: nat, i: nat, j: nat)
    returns (a: nat, b: nat)
    requires SlugsDistinct(ps) && Displaces(ps, slug, desired, i, j)
    ensures var order := FocusOrder(ps, slug, desired);
            a < |order| && b < |order| && a != b && order[a] == ps[i].slug && order[b] == ps[j].slug
  {
    var order := FocusOrder(ps, slug, desired);
    OrderIs(ps, slug, desired, 0);
    DisplacedIsRewritten(ps, slug, desired, i, j);
    a :| 0 <= a < |order| && order[a] == ps[i].slug;
    b :| 0 <= b < |order| && order[b] == ps[j].slug;
  }

  /** No stop of focus leaves two entries at one rank exactly when each displaced brief has the earlier slug. */
  lemma {:induction false} EveryStopDistinctIff(ps: seq<Initiative>, slug: string, desired: nat, date: string)
    requires WellRanked(ps)
    ensures (forall n: nat :: n <= |FocusOrder(ps, slug, desired)| ==>
               RanksDistinct(FocusStopped(ps, slug, desired, date, n))) <==>
            DisplacedSortFirst(ps, slug, desired)
  {
    var order := FocusOrder(ps, slug, desired);
    if DisplacedSortFirst(ps, slug, desired) {
      forall n: nat | n <= |order| ensures RanksDistinct(FocusStopped(ps, slug, desired, date, n)) {
        SortedFirstIsFirst(ps, slug, desired, n);
        StoppedFocusIff(ps, slug, desired, date, n);
      }
    } else {
      var i: nat, j: nat :| Displaces(ps, slug, desired, i, j) && !Less(ps[j].slug, ps[i].slug);
      var a, b := PairInOrder(ps, slug, desired, i, j);
      OrderIs(ps, slug, desired, a + 1);
      PrefixHolds(order, a, b);
      StoppedFocusIff(ps, slug, desired, date, a + 1);
      assert !DisplacedFirst(ps, slug, desired, order[..a + 1]);
    }
  }

  lemma {:induction false} SortedFirstIsFirst(ps: seq<Initiative>, slug: string, desired: nat, n: nat)
    requires SlugsDistinct(ps) && DisplacedSortFirst(ps, slug, desired) && n <= |FocusOrder(ps, slug, desired)|
    ensures DisplacedFirst(ps, slug, desired, FocusOrder(ps, slug, desired)[..n])
  {
    var order := FocusOrder(ps, slug, desired);
    OrderIs(ps, slug, desired, n);
    forall i: nat, j: nat | Displaces(ps, slug, desired, i, j) && ps[i].slug in order[..n]
      ensures ps[j].slug in order[..n]
    {
      var a, b := PairInOrder(ps, slug, desired, i, j);
      var k :| 0 <= k < n && order[k] == ps[i].slug;
      if n <= b {
        assert Less(order[k], order[b]);
        LessIsTransitive(order[k], order[b], order[k]);
        LessIsStrict(order[k]);
      }
      assert order[..n][b] == order[b];
    }
  }

  // --- removals ----------------------------------------------------------------------

  /** What `n` writes of a removal have written: the target, and of the survivors all that move up to some place. */
  lemma {:induction false} MovingPrefix(survivors: seq<RankedSlug>, k: nat, n: nat) returns (q: nat)
    requires k <= |survivors| && n <= |Moving(survivors, k)|
    ensures q <= k && Moving(survivors, k)[..n] == Moving(survivors, q)
  {
    if n == |Moving(survivors, k)| {
      q := k;
      assert Moving(survivors, k)[..n] == Moving(survivors, k);
    } else {
      q := MovingPrefix(survivors, k - 1, n);
      assert Moving(survivors, k)[..n] == Moving(survivors, k - 1)[..n];
    }
  }

  /** By rank, and each rank once: no survivor is below its place. */
  lemma {:induction false} PlaceIsReached(survivors: seq<RankedSlug>, k: nat)
    requires forall i, j :: 0 <= i < j < |survivors| ==> survivors[i].rank < survivors[j].rank
    requires k < |survivors| && survivors[0].rank > 0
    ensures survivors[k].rank >= k + 1
  {
    if k > 0 {
      PlaceIsReached(survivors, k - 1);
    }
  }

  lemma {:induction false} SurvivorsRise(ps: seq<Initiative>, slug: string)
    requires WellRanked(ps)
    ensures var survivors := Without(ps, slug);
            && (forall i, j :: 0 <= i < j < |survivors| ==> survivors[i].rank < survivors[j].rank)
            && forall k :: 0 <= k < |survivors| ==> survivors[k].rank > 0
  {
    var survivors := Without(ps, slug);
    WithoutIs(ps, slug);
    forall k | 0 <= k < |survivors| ensures survivors[k].rank > 0 {
      assert Survivor(ps, slug, survivors[k]);
    }
    forall i, j | 0 <= i < j < |survivors| ensures survivors[i].rank < survivors[j].rank {
      assert Survivor(ps, slug, survivors[i]) && Survivor(ps, slug, survivors[j]);
    }
  }

  /** The briefs once the target and the moving ones among the first `q` survivors are written. */
  function RemovedUpTo(ps: seq<Initiative>, slug: string, brief: Brief, date: string, q: nat): seq<Initiative>
    requires q <= |Without(ps, slug)|
  {
    Halfway(ps, Demote(ps, slug, brief, Without(ps, slug), date), [slug] + Moving(Without(ps, slug), q))
  }

  /** A survivor's rank by then: its place if it comes among the first `q`, the rank it had otherwise. */
  lemma {:induction false} SurvivorThen(
    ps: seq<Initiative>, slug: string, brief: Brief, date: string, q: nat, i: nat) returns (k: nat)
    requires WellRanked(ps) && q <= |Without(ps, slug)| && i < |ps| && ps[i].slug != slug && IsFocused(ps[i])
    ensures var survivors, h := Without(ps, slug), RemovedUpTo(ps, slug, brief, date, q);
            && k < |survivors| && survivors[k] == RankedSlug(ps[i].slug, RankOf(ps[i])) && survivors[k].rank >= k + 1
            && h[i].slug == ps[i].slug && ValidBrief(h[i].brief) && IsFocused(h[i])
            && RankOf(h[i]) == if k < q then k + 1 else RankOf(ps[i])
  {
    var survivors := Without(ps, slug);
    SurvivorPlace(ps, slug, i, date);
    k := RankOf(SurvivorOne(ps[i], survivors, date)) - 1;
    WithoutIs(ps, slug);
    SurvivorsRise(ps, slug);
    PlaceIsReached(survivors, k);
    MovingIs(survivors, q, k);
    var order := [slug] + Moving(survivors, q);
    assert ps[i].slug in order <==> ps[i].slug in Moving(survivors, q);
  }

  lemma {:induction false} RestThen(ps: seq<Initiative>, slug: string, brief: Brief, date: string, q: nat, i: nat)
    requires WellRanked(ps) && q <= |Without(ps, slug)| && i < |ps|
    requires ValidBrief(brief) && !brief.state.Focused? && (ps[i].slug == slug || !IsFocused(ps[i]))
    ensures var h := RemovedUpTo(ps, slug, brief, date, q);
            h[i].slug == ps[i].slug && ValidBrief(h[i].brief) && !IsFocused(h[i])
  {
    var order := [slug] + Moving(Without(ps, slug), q);
    assert order[0] == slug;
    if ps[i].slug != slug {
      SurvivorPlace(ps, slug, i, date);
    }
  }

  lemma {:induction false} RemovedUpToKeeps(ps: seq<Initiative>, slug: string, brief: Brief, date: string, q: nat)
    requires WellRanked(ps) && q <= |Without(ps, slug)| && ValidBrief(brief) && !brief.state.Focused?
    ensures WellRanked(RemovedUpTo(ps, slug, brief, date, q))
  {
    var h := RemovedUpTo(ps, slug, brief, date, q);
    forall i | 0 <= i < |ps| ensures h[i].slug == ps[i].slug && ValidBrief(h[i].brief) {
      if ps[i].slug == slug || !IsFocused(ps[i]) {
        RestThen(ps, slug, brief, date, q, i);
      } else {
        var _ := SurvivorThen(ps, slug, brief, date, q, i);
      }
    }
    forall i, j | 0 <= i < j < |ps| && IsFocused(h[i]) && IsFocused(h[j]) ensures RankOf(h[i]) != RankOf(h[j]) {
      TwoSurvivors(ps, slug, brief, date, q, i, j);
    }
  }

  lemma {:induction false} TwoSurvivors(
    ps: seq<Initiative>, slug: string, brief: Brief, date: string, q: nat, i: nat, j: nat)
    requires WellRanked(ps) && q <= |Without(ps, slug)| && ValidBrief(brief) && !brief.state.Focused?
    requires i < |ps| && j < |ps| && i != j
    requires var h := RemovedUpTo(ps, slug, brief, date, q); IsFocused(h[i]) && IsFocused(h[j])
    ensures var h := RemovedUpTo(ps, slug, brief, date, q); RankOf(h[i]) != RankOf(h[j])
  {
    if ps[i].slug == slug || !IsFocused(ps[i]) {
      RestThen(ps, slug, brief, date, q, i);
    } else if ps[j].slug == slug || !IsFocused(ps[j]) {
      RestThen(ps, slug, brief, date, q, j);
    } else {
      var a := SurvivorThen(ps, slug, brief, date, q, i);
      var b := SurvivorThen(ps, slug, brief, date, q, j);
      SurvivorsRise(ps, slug);
      assert ps[i].slug != ps[j].slug;
    }
  }

  /** The briefs after `n` of the writes of a removal. */
  function RemovalStopped(ps: seq<Initiative>, slug: string, brief: Brief, date: string, n: nat): seq<Initiative>
    requires n <= |RemovalOrder(slug, Without(ps, slug))|
  {
    Halfway(ps, Demote(ps, slug, brief, Without(ps, slug), date), RemovalOrder(slug, Without(ps, slug))[..n])
  }

  /** Wherever unfocus, or the pause of a focused entry, stops, the ranks stay positive and distinct. */
  lemma {:induction false} StoppedRemovalKeeps(ps: seq<Initiative>, slug: string, brief: Brief, date: string, n: nat)
    requires WellRanked(ps) && ValidBrief(brief) && !brief.state.Focused?
    requires n <= |RemovalOrder(slug, Without(ps, slug))|
    ensures WellRanked(RemovalStopped(ps, slug, brief, date, n))
  {
    var survivors := Without(ps, slug);
    if n == 0 {
      assert RemovalStopped(ps, slug, brief, date, n) == ps;
    } else {
      var q := MovingPrefix(survivors, |survivors|, n - 1);
      assert RemovalOrder(slug, survivors)[..n] == [slug] + Moving(survivors, |survivors|)[..n - 1];
      RemovedUpToKeeps(ps, slug, brief, date, q);
    }
  }

  // --- The repair ------------------------------------------------------------------------

  lemma {:induction false} StoppedFocusIsProper(ps: seq<Initiative>, slug: string, desired: nat, date: string, n: nat)
    requires WellRanked(ps) && desired > 0 && n <= |FocusOrder(ps, slug, desired)|
    ensures SlugsDistinct(FocusStopped(ps, slug, desired, date, n))
    ensures AllValid(FocusStopped(ps, slug, desired, date, n))
  {
    FocusKeeps(ps, slug, desired, date);
  }

  /** After a focus that stopped anywhere, taking any focused entry out leaves the ranks at 1..n. */
  lemma {:induction false} RemovalRepairs(
    ps: seq<Initiative>, slug: string, desired: nat, date: string, n: nat, c: Command, t: nat)
    requires WellRanked(ps) && desired > 0 && n <= |FocusOrder(ps, slug, desired)|
    requires var h := FocusStopped(ps, slug, desired, date, n);
             t < |h| && IsFocused(h[t]) && (c == Unfocus(h[t].slug) || (c.Pause? && c.slug == h[t].slug))
    ensures var h := FocusStopped(ps, slug, desired, date, n);
            Execute(h, c, date).Ok? && IsDense(Execute(h, c, date).briefs)
  {
    StoppedFocusIsProper(ps, slug, desired, date, n);
    RemovalIsDense(FocusStopped(ps, slug, desired, date, n), c, t, date);
  }

  // --- An input ---------------------------------------------------------------------------

  function At(slug: string, rank: nat): Initiative {
    Initiative(slug, Brief(Focused, Some(rank), None, None, "d"))
  }

  const LISTED: seq<Initiative> :=
    [At("a", 1), At("b", 2), Initiative("c", Brief(Backburner, None, None, None, "d"))]

  lemma {:induction false} LessOf(x: char, y: char)
    ensures Less([x], [y]) <==> x < y
  {
  }

  lemma {:induction false} ListedOrder()
    ensures FocusOrder(LISTED, "c", 1) == ["a", "b", "c"]
  {
    var ab := [At("a", 1), At("b", 2)];
    assert LISTED[..2] == ab && ab[..1] == [At("a", 1)] && [At("a", 1)][..0] == [];
    assert [] + ["a"] == ["a"] && ["a"] + ["b"] == ["a", "b"] && ["a", "b"] + ["c"] == ["a", "b", "c"];
    assert Rewritten(LISTED, "c", 1) == ["a", "b", "c"];
    LessOf('a', 'b');
    LessOf('b', 'c');
    SortSlugsSorts(["a", "b", "c"]);
    AscendingIsUnique(SortSlugs(["a", "b", "c"]), ["a", "b", "c"]);
  }

  lemma {:induction false} ListedIsFine()
    ensures WellRanked(LISTED) && FocusCommand(LISTED, "c", Some(1), "d").Ok?
  {
    assert "a"[0] != "b"[0] && "b"[0] != "c"[0] && "a"[0] != "c"[0];
  }

  /** "c" is put first in a list of "a" and "b"; after one write both of these have rank 2. */
  lemma {:induction false} StopLeavesTwoAtOneRank()
    ensures WellRanked(LISTED) && FocusCommand(LISTED, "c", Some(1), "d").Ok?
    ensures FocusOrder(LISTED, "c", 1) == ["a", "b", "c"]
    ensures !RanksDistinct(FocusStopped(LISTED, "c", 1, "d", 1))
  {
    ListedOrder();
    ListedIsFine();
    assert ["a", "b", "c"][..1] == ["a"];
    assert Displaces(LISTED, "c", 1, 0, 1);
    StoppedFocusIff(LISTED, "c", 1, "d", 1);
  }
}
