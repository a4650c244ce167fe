/** Schema migrations. */
module MigrationChain {
  // The chain of migrations, its check and its runner (src/migrations/index.ts).

  import opened Prelude

  const BASE_VERSION := 1

  datatype Migration = Migration(from: int, to: int, description: string)

  function TargetVersion(migrations: seq<Migration>): (target: int)
    ensures target >= BASE_VERSION
  {
    if migrations == [] then BASE_VERSION
    else
      var before := TargetVersion(migrations[..|migrations| - 1]);
      var to := migrations[|migrations| - 1].to;
      if to > before then to else before
  }

  /** migrations.find((m) => m.from === cursor) */
  function FirstFrom(migrations: seq<Migration>, cursor: int): (r: Option<Migration>)
    ensures r.Some? ==> r.value in migrations && r.value.from == cursor
    ensures r.None? ==> forall m :: m in migrations ==> m.from != cursor
  {
    if migrations == [] then None
    else if migrations[0].from == cursor then Some(migrations[0])
    else FirstFrom(migrations[1..], cursor)
  }

  // --- What is wrong with a chain ----------------------------------------------------

  datatype Problem =
    | DoesNotAdvance(description: string)
    | Duplicated(from: int)
    | Missing(from: int)
    | CannotPass(from: int)

  /** The walk of `gaps`: from the base on, always by the first migration found. */
  function GapFrom(migrations: seq<Migration>, cursor: int, target: int): Option<Problem>
    decreases target - cursor
  {
    if cursor >= target then None
    else
      match FirstFrom(migrations, cursor)
      case None => Some(Missing(cursor))
      case Some(next) =>
        if next.to <= cursor then Some(CannotPass(cursor)) else GapFrom(migrations, next.to, target)
  }

  method Gaps(migrations: seq<Migration>, target: int) returns (problem: Option<Problem>)
    ensures problem == GapFrom(migrations, BASE_VERSION, target)
  {
    var cursor := BASE_VERSION;
    while cursor < target
      invariant GapFrom(migrations, cursor, target) == GapFrom(migrations, BASE_VERSION, target)
      decreases target - cursor
    {
      var next := FirstFrom(migrations, cursor);
      if next.None? {
        return Some(Missing(cursor));
      }
      if next.value.to <= cursor {
        return Some(CannotPass(cursor));
      }
      cursor := next.value.to;
    }
    problem := None;
  }

  /** No two migrations start at the same version. */
  ghost predicate FromsDistinct(migrations: seq<Migration>) {
    forall i, j :: 0 <= i < j < |migrations| ==> migrations[i].from != migrations[j].from
  }

  ghost predicate AllAdvance(migrations: seq<Migration>) {
    forall m :: m in migrations ==> m.from < m.to
  }

  /** Every migration advances, no version has two, and the walk reaches the target. */
  ghost predicate SoundChain(migrations: seq<Migration>) {
    AllAdvance(migrations) && FromsDistinct(migrations)
    && GapFrom(migrations, BASE_VERSION, TargetVersion(migrations)).None?
  }

  lemma {:induction false} AdvanceSnoc(migrations: seq<Migration>, m: Migration)
    ensures AllAdvance(migrations + [m]) <==> AllAdvance(migrations) && m.from < m.to
  {
    assert m in migrations + [m];
    forall x | x in migrations ensures x in migrations + [m] {
    }
  }

  /** The keys of the groups, in the order they were first seen. */
  ghost predicate KeysOf(byFrom: map<int, seq<Migration>>, order: seq<int>) {
    (forall k :: 0 <= k < |order| ==> order[k] in byFrom) && forall v :: v in byFrom ==> v in order
  }

  /** What the loop knows after the first n migrations. */
  ghost predicate GroupedUpTo(
    migrations: seq<Migration>, n: nat, problems: seq<Problem>, byFrom: map<int, seq<Migration>>, order: seq<int>)
    requires n <= |migrations|
  {
    && (problems == [] <==> AllAdvance(migrations[..n]))
    && Grouped(migrations[..n], byFrom) && KeysOf(byFrom, order)
  }

  lemma {:induction false} GroupNext(
    migrations: seq<Migration>, n: nat, problems: seq<Problem>, byFrom: map<int, seq<Migration>>, order: seq<int>,
    more: seq<Problem>)
    requires n < |migrations| && GroupedUpTo(migrations, n, problems, byFrom, order)
    requires more == [] <==> problems == [] && migrations[n].from < migrations[n].to
    ensures var m := migrations[n];
            GroupedUpTo(migrations, n + 1, more,
              byFrom[m.from := (if m.from in byFrom then byFrom[m.from] else []) + [m]],
              if m.from in byFrom then order else order + [m.from])
  {
    var m := migrations[n];
    assert migrations[..n + 1] == migrations[..n] + [m];
    AdvanceSnoc(migrations[..n], m);
    GroupedSnoc(migrations[..n], byFrom, m);
    KeysOfNext(byFrom, order, m.from, (if m.from in byFrom then byFrom[m.from] else []) + [m]);
  }

  lemma {:induction false} KeysOfNext(byFrom: map<int, seq<Migration>>, order: seq<int>, v: int, group: seq<Migration>)
    requires KeysOf(byFrom, order)
    ensures KeysOf(byFrom[v := group], if v in byFrom then order else order + [v])
  {
    var next := if v in byFrom then order else order + [v];
    forall w | w in byFrom[v := group] ensures w in next {
      if w in order {
        var k :| 0 <= k < |order| && order[k] == w;
        assert next[k] == w;
      } else {
        assert w == v && next[|order|] == v;
      }
    }
  }

  /** The migrations by the version they start from, as a map in insertion order. */
  method GroupByFrom(
    migrations: seq<Migration>)
    returns (problems: seq<Problem>, byFrom: map<int, seq<Migration>>, order: seq<int>)
    ensures problems == [] <==> AllAdvance(migrations)
    ensures forall p :: p in problems ==> p.DoesNotAdvance?
    ensures Grouped(migrations, byFrom) && KeysOf(byFrom, order)
  {
    problems, byFrom, order := [], map[], [];
    for i := 0 to |migrations|
      invariant GroupedUpTo(migrations, i, problems, byFrom, order)
      invariant forall p :: p in problems ==> p.DoesNotAdvance?
    {
      var m := migrations[i];
      ghost var was := problems;
      if m.to <= m.from {
        problems := problems + [DoesNotAdvance(m.description)];
      }
      GroupNext(migrations, i, was, byFrom, order, problems);
      if m.from !in byFrom {
        order := order + [m.from];
      }
      byFrom := byFrom[m.from := (if m.from in byFrom then byFrom[m.from] else []) + [m]];
    }
    assert migrations[..|migrations|] == migrations;
  }

  /** Two migrations leave `v`. */
  ghost predicate LeftTwice(migrations: seq<Migration>, v: int) {
    exists i, j :: 0 <= i < j < |migrations| && migrations[i].from == migrations[j].from == v
  }

  /** None of the first n versions has more than one migration. */
  ghost predicate SingleUpTo(byFrom: map<int, seq<Migration>>, order: seq<int>, n: nat)
    requires n <= |order| && forall k :: 0 <= k < |order| ==> order[k] in byFrom
  {
    forall k :: 0 <= k < n ==> |byFrom[order[k]]| <= 1
  }

  lemma {:induction false} SingleNext(byFrom: map<int, seq<Migration>>, order: seq<int>, k: nat)
    requires k < |order| && forall k :: 0 <= k < |order| ==> order[k] in byFrom
    ensures SingleUpTo(byFrom, order, k + 1) <==> SingleUpTo(byFrom, order, k) && |byFrom[order[k]]| <= 1
  {
  }

  lemma {:induction false} RealSnoc(migrations: seq<Migration>, problems: seq<Problem>, from: int)
    requires RealDuplicates(migrations, problems) && LeftTwice(migrations, from)
    ensures RealDuplicates(migrations, problems + [Duplicated(from)])
  {
  }

  ghost predicate RealDuplicates(migrations: seq<Migration>, problems: seq<Problem>) {
    forall p :: p in problems ==> p.Duplicated? && LeftTwice(migrations, p.from)
  }

  /** One problem for each version that more than one migration leaves. */
  method ReportDuplicates(migrations: seq<Migration>, byFrom: map<int, seq<Migration>>, order: seq<int>)
    returns (problems: seq<Problem>)
    requires Grouped(migrations, byFrom) && KeysOf(byFrom, order)
    ensures problems == [] <==> FromsDistinct(migrations)
    ensures RealDuplicates(migrations, problems)
  {
    problems := [];
    for k := 0 to |order|
      invariant problems == [] <==> SingleUpTo(byFrom, order, k)
      invariant RealDuplicates(migrations, problems)
    {
      SingleNext(byFrom, order, k);
      if |byFrom[order[k]]| > 1 {
        GroupTwice(migrations, byFrom, order[k]);
        RealSnoc(migrations, problems, order[k]);
        problems := problems + [Duplicated(order[k])];
      }
    }
    GroupsDistinct(migrations, byFrom, order);
  }

  /** Everything wrong with a chain: nothing exactly when it is sound. */
  method ChainProblems(migrations: seq<Migration>) returns (problems: seq<Problem>)
    ensures problems == [] <==> SoundChain(migrations)
    ensures forall from :: Duplicated(from) in problems ==> LeftTwice(migrations, from)
  {
    var stuck, byFrom, order := GroupByFrom(migrations);
    var repeated := ReportDuplicates(migrations, byFrom, order);
    problems := stuck + repeated;
    var gap := Gaps(migrations, TargetVersion(migrations));
    if gap.Some? {
      GapKind(migrations, BASE_VERSION, TargetVersion(migrations));
      problems := problems + [gap.value];
    }
  }

  lemma {:induction false} GapKind(migrations: seq<Migration>, cursor: int, target: int)
    ensures var gap := GapFrom(migrations, cursor, target); gap.Some? ==> gap.value.Missing? || gap.value.CannotPass?
    decreases target - cursor
  {
    if cursor < target && FirstFrom(migrations, cursor).Some? && FirstFrom(migrations, cursor).value.to > cursor {
      GapKind(migrations, FirstFrom(migrations, cursor).value.to, target);
    }
  }

  function WithFrom(migrations: seq<Migration>, v: int): seq<Migration> {
    if migrations == [] then []
    else
      var last := migrations[|migrations| - 1];
      WithFrom(migrations[..|migrations| - 1], v) + (if last.from == v then [last] else [])
  }

  ghost predicate Grouped(migrations: seq<Migration>, byFrom: map<int, seq<Migration>>) {
    && (forall v :: v in byFrom <==> WithFrom(migrations, v) != [])
    && (forall v :: v in byFrom ==> byFrom[v] == WithFrom(migrations, v))
  }

  lemma {:induction false} GroupedSnoc(migrations: seq<Migration>, byFrom: map<int, seq<Migration>>, m: Migration)
    requires Grouped(migrations, byFrom)
    ensures Grouped(migrations + [m], byFrom[m.from := (if m.from in byFrom then byFrom[m.from] else []) + [m]])
  {
    assert (migrations + [m])[..|migrations|] == migrations;
  }

  lemma {:induction false} TwoWithFrom(migrations: seq<Migration>, i: nat, j: nat)
    requires i < j < |migrations| && migrations[i].from == migrations[j].from
    ensures |WithFrom(migrations, migrations[i].from)| >= 2
  {
    var init := migrations[..|migrations| - 1];
    if j < |init| {
      TwoWithFrom(init, i, j);
    } else {
      OneWithFrom(init, i);
    }
  }

  lemma {:induction false} OneWithFrom(migrations: seq<Migration>, i: nat)
    requires i < |migrations|
    ensures |WithFrom(migrations, migrations[i].from)| >= 1
  {
    if i < |migrations| - 1 {
      OneWithFrom(migrations[..|migrations| - 1], i);
    }
  }

  lemma {:induction false} WithFromTwice(migrations: seq<Migration>, v: int)
    requires |WithFrom(migrations, v)| >= 2
    ensures exists i, j :: 0 <= i < j < |migrations| && migrations[i].from == migrations[j].from == v
  {
    var n := |migrations| - 1;
    var init := migrations[..n];
    if |WithFrom(init, v)| >= 2 {
      WithFromTwice(init, v);
      var i, j :| 0 <= i < j < n && init[i].from == init[j].from == v;
      assert migrations[i].from == migrations[j].from == v;
    } else {
      WithFromOnce(init, v);
      var i :| 0 <= i < n && init[i].from == v;
      assert migrations[i].from == migrations[n].from == v;
    }
  }

  lemma {:induction false} WithFromOnce(migrations: seq<Migration>, v: int)
    requires WithFrom(migrations, v) != []
    ensures exists i :: 0 <= i < |migrations| && migrations[i].from == v
  {
    var n := |migrations| - 1;
    if migrations[n].from != v {
      WithFromOnce(migrations[..n], v);
      var i :| 0 <= i < n && migrations[..n][i].from == v;
      assert migrations[i].from == v;
    }
  }

  lemma {:induction false} GroupTwice(migrations: seq<Migration>, byFrom: map<int, seq<Migration>>, v: int)
    requires Grouped(migrations, byFrom) && v in byFrom && |byFrom[v]| > 1
    ensures LeftTwice(migrations, v)
  {
    WithFromTwice(migrations, v);
  }

  lemma {:induction false} GroupsDistinct(migrations: seq<Migration>, byFrom: map<int, seq<Migration>>, order: seq<int>)
    requires Grouped(migrations, byFrom) && KeysOf(byFrom, order)
    ensures SingleUpTo(byFrom, order, |order|) <==> FromsDistinct(migrations)
  {
    if FromsDistinct(migrations) {
      forall k | 0 <= k < |order| ensures |byFrom[order[k]]| <= 1 {
        if |byFrom[order[k]]| > 1 {
          WithFromTwice(migrations, order[k]);
        }
      }
    } else {
      var i, j :| 0 <= i < j < |migrations| && migrations[i].from == migrations[j].from;
      TwoWithFrom(migrations, i, j);
      assert migrations[i].from in byFrom;
      var k :| 0 <= k < |order| && order[k] == migrations[i].from;
    }
  }

  // --- Running a chain ---------------------------------------------------------------

  datatype Outcome = Ran(steps: seq<Migration>) | NewerThanBuild | NoMigrationFrom(version: int) | NotAdvancing(at: Migration)
    | EndedAt(version: int)

  /** The walk of runMigrations from `cursor`, with the steps taken so far. */
  function WalkFrom(migrations: seq<Migration>, cursor: int, current: int, ran: seq<Migration>): Outcome
    decreases current - cursor
  {
    if cursor >= current then (if cursor == current then Ran(ran) else EndedAt(cursor))
    else
      match FirstFrom(migrations, cursor)
      case None => NoMigrationFrom(cursor)
      case Some(next) =>
        if next.to <= next.from then NotAdvancing(next)
        else WalkFrom(migrations, next.to, current, ran + [next])
  }

  function RunSpec(migrations: seq<Migration>, from: int, current: int): Outcome {
    if from == current then Ran([])
    else if from > current then NewerThanBuild
    else WalkFrom(migrations, from, current, [])
  }

  /** A data root: the versions its migrations have brought it through. */
  class DataRoot {
    var applied: seq<Migration>

    constructor ()
      ensures applied == []
    {
      applied := [];
    }

    /** Terminates whatever the list holds; each step run is applied to the root as it goes. */
    method RunMigrations(migrations: seq<Migration>, from: int, current: int) returns (outcome: Outcome)
      modifies this
      ensures outcome == RunSpec(migrations, from, current)
      ensures outcome.Ran? ==> applied == old(applied) + outcome.steps
      ensures old(applied) <= applied
      ensures forall k :: |old(applied)| <= k < |applied| ==> applied[k] in migrations && applied[k].from < applied[k].to
    {
      if from == current {
        return Ran([]);
      }
      if from > current {
        return NewerThanBuild;
      }
      var ran: seq<Migration> := [];
      var cursor := from;
      while cursor < current
        invariant applied == old(applied) + ran
        invariant WalkFrom(migrations, cursor, current, ran) == RunSpec(migrations, from, current)
        invariant forall m :: m in ran ==> m in migrations && m.from < m.to
        decreases current - cursor
      {
        var next := FirstFrom(migrations, cursor);
        if next.None? {
          return NoMigrationFrom(cursor);
        }
        if next.value.to <= next.value.from {
          return NotAdvancing(next.value);
        }
        applied := applied + [next.value];
        ran := ran + [next.value];
        cursor := next.value.to;
      }
      if cursor != current {
        return EndedAt(cursor);
      }
      outcome := Ran(ran);
    }
  }

  /** The steps join end to end, from one version to another. */
  ghost predicate Joined(steps: seq<Migration>, from: int, to: int) {
    if steps == [] then from == to
    else steps[0].from == from && Joined(steps[1..], steps[0].to, to)
  }

  lemma {:induction false} JoinedSnoc(steps: seq<Migration>, from: int, m: Migration)
    requires Joined(steps, from, m.from)
    ensures Joined(steps + [m], from, m.to)
  {
    if steps == [] {
      assert [m][1..] == [];
    } else {
      assert (steps + [m])[1..] == steps[1..] + [m];
      JoinedSnoc(steps[1..], steps[0].to, m);
    }
  }

  /** A walk that ends well has taken joined steps of the list. */
  lemma {:induction false} WalkJoins(
    migrations: seq<Migration>, from: int, cursor: int, current: int, ran: seq<Migration>)
    requires Joined(ran, from, cursor) && forall m :: m in ran ==> m in migrations
    requires WalkFrom(migrations, cursor, current, ran).Ran?
    ensures Joined(WalkFrom(migrations, cursor, current, ran).steps, from, current)
    ensures forall m :: m in WalkFrom(migrations, cursor, current, ran).steps ==> m in migrations
    decreases current - cursor
  {
    if cursor < current {
      var next := FirstFrom(migrations, cursor).value;
      JoinedSnoc(ran, from, next);
      WalkJoins(migrations, from, next.to, current, ran + [next]);
    }
  }

  /** The run walks as `gaps` walks, while it can go on. */
  lemma {:induction false} WalksAgree(migrations: seq<Migration>, cursor: int, current: int, ran: seq<Migration>)
    ensures GapFrom(migrations, cursor, current).None? <==>
      WalkFrom(migrations, cursor, current, ran).Ran? || WalkFrom(migrations, cursor, current, ran).EndedAt?
    decreases current - cursor
  {
    if cursor < current && FirstFrom(migrations, cursor).Some? {
      var next := FirstFrom(migrations, cursor).value;
      if next.to > cursor {
        WalksAgree(migrations, next.to, current, ran + [next]);
      }
    }
  }

  lemma {:induction false} TargetBounds(migrations: seq<Migration>)
    ensures forall m :: m in migrations ==> m.to <= TargetVersion(migrations)
  {
    if migrations != [] {
      TargetBounds(migrations[..|migrations| - 1]);
      assert forall m :: m in migrations ==> m in migrations[..|migrations| - 1] || m == migrations[|migrations| - 1];
    }
  }

  lemma {:induction false} NeverPastTarget(migrations: seq<Migration>, cursor: int, ran: seq<Migration>)
    requires cursor <= TargetVersion(migrations)
    ensures !WalkFrom(migrations, cursor, TargetVersion(migrations), ran).EndedAt?
    decreases TargetVersion(migrations) - cursor
  {
    TargetBounds(migrations);
    if cursor < TargetVersion(migrations) && FirstFrom(migrations, cursor).Some? {
      var next := FirstFrom(migrations, cursor).value;
      if next.to > next.from {
        NeverPastTarget(migrations, next.to, ran + [next]);
      }
    }
  }

  /** A chain without problems takes the base version to exactly its target, by joined steps. */
  lemma {:induction false} SoundChainsRun(migrations: seq<Migration>)
    requires SoundChain(migrations)
    ensures var outcome := RunSpec(migrations, BASE_VERSION, TargetVersion(migrations));
            outcome.Ran? && Joined(outcome.steps, BASE_VERSION, TargetVersion(migrations))
  {
    var target := TargetVersion(migrations);
    if BASE_VERSION < target {
      WalksAgree(migrations, BASE_VERSION, target, []);
      NeverPastTarget(migrations, BASE_VERSION, []);
      WalkJoins(migrations, BASE_VERSION, BASE_VERSION, target, []);
    }
  }

  /** The versions a chain passes on the way to its target. */
  ghost predicate OnTheWay(migrations: seq<Migration>, cursor: int, v: int, target: int)
    decreases target - cursor
  {
    || cursor == v
    || (cursor < target && FirstFrom(migrations, cursor).Some? && FirstFrom(migrations, cursor).value.to > cursor
        && OnTheWay(migrations, FirstFrom(migrations, cursor).value.to, v, target))
  }

  lemma {:induction false} FromAnyOnTheWay(
    migrations: seq<Migration>, cursor: int, v: int, target: int, ran: seq<Migration>)
    requires v <= target && OnTheWay(migrations, cursor, v, target)
    requires target == TargetVersion(migrations) && GapFrom(migrations, cursor, target).None?
    ensures GapFrom(migrations, v, target).None?
    decreases target - cursor
  {
    if cursor != v {
      FromAnyOnTheWay(migrations, FirstFrom(migrations, cursor).value.to, v, target, ran);
    }
  }

  /** A data root at any version the chain passes is brought to the target. */
  lemma {:induction false} AnyVersionOnTheWayRuns(migrations: seq<Migration>, v: int)
    requires SoundChain(migrations) && v <= TargetVersion(migrations)
    requires OnTheWay(migrations, BASE_VERSION, v, TargetVersion(migrations))
    ensures var outcome := RunSpec(migrations, v, TargetVersion(migrations));
            outcome.Ran? && Joined(outcome.steps, v, TargetVersion(migrations))
  {
    var target := TargetVersion(migrations);
    FromAnyOnTheWay(migrations, BASE_VERSION, v, target, []);
    if v < target {
      WalksAgree(migrations, v, target, []);
      NeverPastTarget(migrations, v, []);
      WalkJoins(migrations, v, v, target, []);
    }
  }

  /**
   * Run towards another version than the chain's target, a sound chain gets there exactly when
   * it passes that version.
   */
  lemma {:induction false} StopsAtIff(
    migrations: seq<Migration>, cursor: int, current: int, target: int, ran: seq<Migration>)
    requires GapFrom(migrations, cursor, target).None? && cursor <= current <= target
    ensures WalkFrom(migrations, cursor, current, ran).Ran? <==> OnTheWay(migrations, cursor, current, target)
    decreases current - cursor
  {
    if cursor < current {
      var next := FirstFrom(migrations, cursor).value;
      if next.to <= current {
        StopsAtIff(migrations, next.to, current, target, ran + [next]);
      } else {
        NeverBack(migrations, next.to, current, target);
      }
    }
  }

  lemma {:induction false} NeverBack(migrations: seq<Migration>, cursor: int, v: int, target: int)
    requires v < cursor
    ensures !OnTheWay(migrations, cursor, v, target)
    decreases target - cursor
  {
    if cursor < target && FirstFrom(migrations, cursor).Some? && FirstFrom(migrations, cursor).value.to > cursor {
      NeverBack(migrations, FirstFrom(migrations, cursor).value.to, v, target);
    }
  }

  // --- When the steps are single ----------------------------------------------------------

  /** Some migration leaves every version `cursor` can pass below the target. */
  ghost predicate LeadsOn(migrations: seq<Migration>, cursor: int, target: int) {
    forall w :: w < target && OnTheWay(migrations, cursor, w, target) ==> FirstFrom(migrations, w).Some?
  }

  lemma {:induction false} NoGapIff(migrations: seq<Migration>, cursor: int, target: int)
    requires AllAdvance(migrations)
    ensures GapFrom(migrations, cursor, target).None? <==> LeadsOn(migrations, cursor, target)
    decreases target - cursor
  {
    if cursor >= target {
      assert forall w :: OnTheWay(migrations, cursor, w, target) ==> w == cursor;
    } else {
      assert OnTheWay(migrations, cursor, cursor, target);
      if FirstFrom(migrations, cursor).Some? {
        var to := FirstFrom(migrations, cursor).value.to;
        NoGapIff(migrations, to, target);
        forall w ensures OnTheWay(migrations, cursor, w, target) <==> w == cursor || OnTheWay(migrations, to, w, target) {
        }
      }
    }
  }

  lemma {:induction false} RunsIffNoGap(migrations: seq<Migration>, v: int)
    requires AllAdvance(migrations) && v <= TargetVersion(migrations)
    ensures RunSpec(migrations, v, TargetVersion(migrations)).Ran? <==>
            GapFrom(migrations, v, TargetVersion(migrations)).None?
  {
    var target := TargetVersion(migrations);
    if v < target {
      WalksAgree(migrations, v, target, []);
      NeverPastTarget(migrations, v, []);
    }
  }

  /** One version can be brought to the target exactly when no version it passes on the way is a dead end. */
  lemma {:induction false} VersionRunsIff(migrations: seq<Migration>, v: int)
    requires AllAdvance(migrations) && v <= TargetVersion(migrations)
    ensures RunSpec(migrations, v, TargetVersion(migrations)).Ran? <==>
            LeadsOn(migrations, v, TargetVersion(migrations))
  {
    RunsIffNoGap(migrations, v);
    NoGapIff(migrations, v, TargetVersion(migrations));
  }

  /** Some migration leaves each version from `v` up to the target. */
  ghost predicate EachIsLeft(migrations: seq<Migration>, v: int, target: int) {
    forall w :: v <= w < target ==> FirstFrom(migrations, w).Some?
  }

  lemma {:induction false} EachLeftHasNoGap(migrations: seq<Migration>, v: int, target: int)
    requires AllAdvance(migrations) && EachIsLeft(migrations, v, target)
    ensures GapFrom(migrations, v, target).None?
    decreases target - v
  {
    if v < target {
      EachLeftHasNoGap(migrations, FirstFrom(migrations, v).value.to, target);
    }
  }

  /**
   * A sound chain brings every version from the base to its target exactly when
   * each version below the target has a migration leaving it.
   */
  lemma {:induction false} EveryVersionRunsIff(migrations: seq<Migration>)
    requires SoundChain(migrations)
    ensures (forall v :: BASE_VERSION <= v <= TargetVersion(migrations) ==>
               RunSpec(migrations, v, TargetVersion(migrations)).Ran?) <==>
            EachIsLeft(migrations, BASE_VERSION, TargetVersion(migrations))
  {
    var target := TargetVersion(migrations);
    if EachIsLeft(migrations, BASE_VERSION, target) {
      forall v | BASE_VERSION <= v <= target ensures RunSpec(migrations, v, target).Ran? {
        RunsIffNoGap(migrations, v);
        EachLeftHasNoGap(migrations, v, target);
      }
    } else {
      var w :| BASE_VERSION <= w < target && FirstFrom(migrations, w).None?;
      RunsIffNoGap(migrations, w);
      assert !RunSpec(migrations, w, target).Ran?;
    }
  }

  predicate Single(m: Migration) {
    m.to == m.from + 1
  }

  ghost predicate AllSingle(steps: seq<Migration>) {
    forall i :: 0 <= i < |steps| ==> Single(steps[i])
  }

  ghost predicate AllForward(steps: seq<Migration>) {
    forall i :: 0 <= i < |steps| ==> steps[i].from < steps[i].to
  }

  lemma {:induction false} JoinedSpan(steps: seq<Migration>, from: int, to: int)
    requires Joined(steps, from, to) && AllForward(steps)
    ensures |steps| <= to - from
    ensures |steps| == to - from <==> AllSingle(steps)
  {
    if steps != [] {
      var rest := steps[1..];
      assert forall i :: 0 <= i < |rest| ==> rest[i] == steps[i + 1];
      assert AllForward(rest);
      JoinedSpan(rest, steps[0].to, to);
      assert AllSingle(steps) <==> Single(steps[0]) && AllSingle(rest) by {
        assert forall i :: 0 < i < |steps| ==> steps[i] == rest[i - 1];
      }
    }
  }

  /** The steps a sound chain takes from the base are single exactly when there are target minus base of them. */
  lemma {:induction false} StepsAreSingleIff(migrations: seq<Migration>)
    requires SoundChain(migrations)
    ensures var outcome := RunSpec(migrations, BASE_VERSION, TargetVersion(migrations));
            && outcome.Ran? && |outcome.steps| <= TargetVersion(migrations) - BASE_VERSION
            && (|outcome.steps| == TargetVersion(migrations) - BASE_VERSION <==> AllSingle(outcome.steps))
  {
    var target := TargetVersion(migrations);
    SoundChainsRun(migrations);
    if BASE_VERSION < target {
      WalkJoins(migrations, BASE_VERSION, BASE_VERSION, target, []);
    }
    var steps := RunSpec(migrations, BASE_VERSION, target).steps;
    assert forall i :: 0 <= i < |steps| ==> steps[i] in steps;
    JoinedSpan(steps, BASE_VERSION, target);
  }

  // A chain that jumps a version is sound: nothing asks for single steps.

  const JUMP := [Migration(1, 3, "jump")]

  lemma {:induction false} JumpsAreSound()
    ensures SoundChain(JUMP) && RunSpec(JUMP, BASE_VERSION, TargetVersion(JUMP)) == Ran(JUMP)
    ensures RunSpec(JUMP, 2, TargetVersion(JUMP)) == NoMigrationFrom(2)
  {
    assert JUMP[..0] == [];
    assert TargetVersion(JUMP) == 3;
    assert JUMP[1..] == [];
    assert FirstFrom(JUMP, 1) == Some(JUMP[0]);
    assert [] + [JUMP[0]] == JUMP;
  }
}
