/** What each turn of the allotment does. */
module LoopTurns {
  // src/bootstrap/loop-context.ts: at every turn the first hit that is still free is shown if both
  // budgets allow it, and ends the allotment if they do not; turns go by pass and then by loop.

  import opened Prelude
  import opened LoopContext
  import opened LoopBounds

  /** The hit shown next for a loop: the first of its candidates that is not shown yet. */
  lemma {:induction false} FirstFreeIsFirst(candidates: seq<Hit>, log: seq<Shown>)
    ensures match FirstFree(candidates, log)
            case None => forall k :: 0 <= k < |candidates| ==> Taken(log, candidates[k].ref)
            case Some(hit) =>
              exists k :: 0 <= k < |candidates| && candidates[k] == hit && !Taken(log, hit.ref)
                && forall j :: 0 <= j < k ==> Taken(log, candidates[j].ref)
  {
    if candidates != [] {
      if Taken(log, candidates[0].ref) {
        FirstFreeIsFirst(candidates[1..], log);
        assert forall j :: 0 < j < |candidates| ==> candidates[j] == candidates[1..][j - 1];
        if FirstFree(candidates, log).Some? {
          var hit := FirstFree(candidates, log).value;
          var k :| 0 <= k < |candidates[1..]| && candidates[1..][k] == hit && !Taken(log, hit.ref)
            && forall j :: 0 <= j < k ==> Taken(log, candidates[1..][j].ref);
          assert candidates[k + 1] == hit;
        }
      } else {
        assert candidates[0] == FirstFree(candidates, log).value;
      }
    }
  }

  /** What a hit costs: its line with the newline, counted part by part. */
  lemma {:induction false} CostIs(hit: Hit, slug: string)
    ensures Cost(hit, slug) ==
            13 + |hit.ref| + |hit.title.GetOr(hit.ref)|
            + (if hit.readIf.Some? then 12 + |hit.readIf.value| else 0)
            + (if hit.initiative.Some? && hit.initiative.value != slug then 10 + |hit.initiative.value| else 0)
  {
    assert |"    see: "| == 9 && |" (read if: "| == 11 && |"[from `"| == 7 && |"`] "| == 3;
  }

  /** The allotment comes to loop `i` in `pass`, and the loop has as many hits as passes went by. */
  ghost predicate TurnComes(loops: seq<string>, found: seq<seq<Hit>>, slug: string, pass: nat, i: nat)
    requires |found| == |loops| && i < |loops|
  {
    var here := Arrival(loops, found, slug, pass, i);
    here.goOn && |OfLoop(here.next.log, loops[i])| == pass
  }

  /** Where it is not a loop's turn nothing changes. */
  lemma {:induction false} NoTurnNoChange(loops: seq<string>, found: seq<seq<Hit>>, slug: string, pass: nat, i: nat)
    requires |found| == |loops| && i < |loops| && !TurnComes(loops, found, slug, pass, i)
    ensures Arrival(loops, found, slug, pass, i + 1) == Arrival(loops, found, slug, pass, i)
  {
  }

  lemma {:induction false} TurnIsTaken(loops: seq<string>, found: seq<seq<Hit>>, slug: string, pass: nat, i: nat)
    requires |found| == |loops| && i < |loops| && TurnComes(loops, found, slug, pass, i)
    ensures Arrival(loops, found, slug, pass, i + 1) ==
            AllocateOne(loops[i], found[i], Arrival(loops, found, slug, pass, i).next, slug)
  {
  }

  // --- The budgets at a turn ----------------------------------------------------------

  /** What is left of the budgets is what the hits shown have not used. */
  ghost predicate Budgeted(a: Allocation, slug: string) {
    a.hits + |a.log| == 6 && 0 <= a.chars == 1200 - CostSum(a.log, slug)
  }

  lemma {:induction false} TurnKeepsBudget(loop: string, candidates: seq<Hit>, a: Allocation, slug: string)
    requires Budgeted(a, slug)
    ensures Budgeted(AllocateOne(loop, candidates, a, slug).next, slug)
  {
    var free := FirstFree(candidates, a.log);
    if free.Some? {
      LogSnoc(a.log, Shown(loop, free.value, |OfLoop(a.log, loop)| + 1), loop, slug);
    }
  }

  lemma {:induction false} NextIsBudgeted(loops: seq<string>, found: seq<seq<Hit>>, slug: string, pass: nat, i: nat)
    requires |found| == |loops| && i < |loops| && Budgeted(Arrival(loops, found, slug, pass, i).next, slug)
    ensures Budgeted(Arrival(loops, found, slug, pass, i + 1).next, slug)
  {
    if TurnComes(loops, found, slug, pass, i) {
      TurnIsTaken(loops, found, slug, pass, i);
      TurnKeepsBudget(loops[i], found[i], Arrival(loops, found, slug, pass, i).next, slug);
    } else {
      NoTurnNoChange(loops, found, slug, pass, i);
    }
  }

  lemma {:induction false} ArrivalIsBudgeted(
    loops: seq<string>, found: seq<seq<Hit>>, slug: string, pass: nat, i: nat)
    requires |found| == |loops| && i <= |loops|
    ensures Budgeted(Arrival(loops, found, slug, pass, i).next, slug)
    decreases pass, i
  {
    if i > 0 {
      ArrivalIsBudgeted(loops, found, slug, pass, i - 1);
      NextIsBudgeted(loops, found, slug, pass, i - 1);
    } else if pass > 0 {
      ArrivalIsBudgeted(loops, found, slug, pass - 1, |loops|);
    }
  }

  // --- Nothing shown is taken back --------------------------------------------------------

  lemma {:induction false} PassGrows(
    loops: seq<string>, found: seq<seq<Hit>>, slug: string, pass: nat, i: nat, a: Allocation)
    requires |found| == |loops|
    ensures a.log <= PassFrom(loops, found, slug, pass, i, a).next.log
    decreases |loops| - i
  {
    if i < |loops| {
      if |OfLoop(a.log, loops[i])| != pass {
        PassGrows(loops, found, slug, pass, i + 1, a);
      } else {
        PassGrows(loops, found, slug, pass, i + 1, AllocateOne(loops[i], found[i], a, slug).next);
      }
    }
  }

  lemma {:induction false} RoundsGrow(
    loops: seq<string>, found: seq<seq<Hit>>, slug: string, pass: nat, i: nat, a: Allocation)
    requires |found| == |loops|
    ensures a.log <= RoundsFrom(loops, found, slug, pass, i, a).log
    decreases HITS_PER_LOOP - pass
  {
    if pass < HITS_PER_LOOP {
      PassGrows(loops, found, slug, pass, i, a);
      RoundsGrow(loops, found, slug, pass + 1, 0, PassFrom(loops, found, slug, pass, i, a).next);
    }
  }

  lemma {:induction false} ArrivalIsShown(loops: seq<string>, found: seq<seq<Hit>>, slug: string, pass: nat, i: nat)
    requires |found| == |loops| && i <= |loops| && pass < HITS_PER_LOOP
    ensures Arrival(loops, found, slug, pass, i).next.log <= Eager(loops, found, slug)
    ensures !Arrival(loops, found, slug, pass, i).goOn ==>
              Arrival(loops, found, slug, pass, i).next.log == Eager(loops, found, slug)
  {
    ArrivalsAreEager(loops, found, slug, pass, i);
    RoundsGrow(loops, found, slug, pass, i, Arrival(loops, found, slug, pass, i).next);
  }

  /** Six hits may be shown, and 1200 characters used. */
  ghost predicate Fits(log: seq<Shown>, hit: Hit, slug: string) {
    |log| < 6 && CostSum(log, slug) + Cost(hit, slug) <= 1200
  }

  lemma {:induction false} OneTurn(loop: string, candidates: seq<Hit>, a: Allocation, slug: string)
    requires Budgeted(a, slug)
    ensures var turn := AllocateOne(loop, candidates, a, slug);
            match FirstFree(candidates, a.log)
            case None => turn == Turn(true, a)
            case Some(hit) =>
              if Fits(a.log, hit, slug)
              then turn.goOn && turn.next.log == a.log + [Shown(loop, hit, |OfLoop(a.log, loop)| + 1)]
              else turn == Turn(false, a)
  {
  }

  // --- One turn -----------------------------------------------------------------------------

  /**
   * A turn: with no free hit nothing is shown and the allotment goes on; the first
   * free hit is shown next, under this loop, if it fits; if not, the allotment is over.
   */
  lemma {:induction false} TurnShows(loops: seq<string>, found: seq<seq<Hit>>, slug: string, pass: nat, i: nat)
    requires |found| == |loops| && i < |loops| && pass < HITS_PER_LOOP && TurnComes(loops, found, slug, pass, i)
    ensures var log, next := Arrival(loops, found, slug, pass, i).next.log, Arrival(loops, found, slug, pass, i + 1);
            match FirstFree(found[i], log)
            case None => next.goOn && next.next.log == log
            case Some(hit) =>
              if Fits(log, hit, slug)
              then next.goOn && next.next.log == log + [Shown(loops[i], hit, pass + 1)]
                   && log + [Shown(loops[i], hit, pass + 1)] <= Eager(loops, found, slug)
              else Eager(loops, found, slug) == log
  {
    var here := Arrival(loops, found, slug, pass, i).next;
    ArrivalIsBudgeted(loops, found, slug, pass, i);
    TurnIsTaken(loops, found, slug, pass, i);
    OneTurn(loops[i], found[i], here, slug);
    ArrivalIsShown(loops, found, slug, pass, i + 1);
  }

  // --- The order of the turns -----------------------------------------------------------------

  /** The hits shown in a pass up to loop `i`: one for each of the loops at `at`, in their order. */
  ghost predicate ShownInOrder(
    loops: seq<string>, before: seq<Shown>, log: seq<Shown>, pass: nat, i: nat, at: seq<nat>) {
    && before <= log && |log| == |before| + |at| && i <= |loops|
    && (forall a, b :: 0 <= a < b < |at| ==> at[a] < at[b])
    && forall k :: 0 <= k < |at| ==>
         at[k] < i && log[|before| + k].loop == loops[at[k]] && log[|before| + k].rank == pass + 1
  }

  lemma {:induction false} OneMoreShown(
    loops: seq<string>, before: seq<Shown>, log: seq<Shown>, pass: nat, i: nat, at: seq<nat>, x: Shown)
    requires i < |loops| && ShownInOrder(loops, before, log, pass, i, at)
    requires x.loop == loops[i] && x.rank == pass + 1
    ensures ShownInOrder(loops, before, log + [x], pass, i + 1, at + [i])
  {
  }

  /** The log stays, or one hit is added under this loop. */
  ghost predicate MovesOn(log: seq<Shown>, next: seq<Shown>, loop: string, pass: nat) {
    || next == log
    || (log <= next && |next| == |log| + 1 && next[|log|].loop == loop && next[|log|].rank == pass + 1)
  }

  lemma {:induction false} LogMovesOn(loops: seq<string>, found: seq<seq<Hit>>, slug: string, pass: nat, i: nat)
    requires |found| == |loops| && i < |loops|
    ensures MovesOn(LogAt(loops, found, slug, pass, i), LogAt(loops, found, slug, pass, i + 1), loops[i], pass)
  {
  }

  lemma {:induction false} ExtendOrder(
    loops: seq<string>, before: seq<Shown>, log: seq<Shown>, next: seq<Shown>, pass: nat, i: nat, was: seq<nat>)
    returns (at: seq<nat>)
    requires i < |loops| && ShownInOrder(loops, before, log, pass, i, was) && MovesOn(log, next, loops[i], pass)
    ensures ShownInOrder(loops, before, next, pass, i + 1, at)
  {
    at := was;
    if next != log {
      assert next == log + [next[|log|]];
      OneMoreShown(loops, before, log, pass, i, was, next[|log|]);
      at := was + [i];
    }
  }

  /** What is shown when the allotment comes to loop `i` in `pass`. */
  ghost function LogAt(loops: seq<string>, found: seq<seq<Hit>>, slug: string, pass: nat, i: nat): seq<Shown>
    requires |found| == |loops| && i <= |loops|
  {
    Arrival(loops, found, slug, pass, i).next.log
  }

  ghost predicate PassOrdered(
    loops: seq<string>, found: seq<seq<Hit>>, slug: string, pass: nat, i: nat, at: seq<nat>)
    requires |found| == |loops| && i <= |loops|
  {
    ShownInOrder(loops, LogAt(loops, found, slug, pass, 0), LogAt(loops, found, slug, pass, i), pass, i, at)
  }

  lemma {:induction false} NextInOrder(
    loops: seq<string>, found: seq<seq<Hit>>, slug: string, pass: nat, i: nat, was: seq<nat>)
    returns (at: seq<nat>)
    requires |found| == |loops| && i < |loops| && PassOrdered(loops, found, slug, pass, i, was)
    ensures PassOrdered(loops, found, slug, pass, i + 1, at)
  {
    var log, next := LogAt(loops, found, slug, pass, i), LogAt(loops, found, slug, pass, i + 1);
    LogMovesOn(loops, found, slug, pass, i);
    at := ExtendOrder(loops, LogAt(loops, found, slug, pass, 0), log, next, pass, i, was);
  }

  lemma {:induction false} NoneInOrder(loops: seq<string>, log: seq<Shown>, pass: nat)
    ensures ShownInOrder(loops, log, log, pass, 0, [])
  {
  }

  /** Each pass shows its hits in the order of the loops. */
  lemma {:induction false} PassInOrder(loops: seq<string>, found: seq<seq<Hit>>, slug: string, pass: nat, i: nat)
    returns (at: seq<nat>)
    requires |found| == |loops| && i <= |loops|
    ensures PassOrdered(loops, found, slug, pass, i, at)
  {
    if i == 0 {
      at := [];
      NoneInOrder(loops, LogAt(loops, found, slug, pass, 0), pass);
    } else {
      at := PassInOrder(loops, found, slug, pass, i - 1);
      at := NextInOrder(loops, found, slug, pass, i - 1, at);
    }
  }

  /**
   * The whole list: first one hit each for some of the loops, in their order, and then
   * a second one each for some of them, in their order.
   */
  lemma {:induction false} ShownByPassAndLoop(loops: seq<string>, found: seq<seq<Hit>>, slug: string)
    returns (first: seq<Shown>, one: seq<nat>, two: seq<nat>)
    requires |found| == |loops|
    ensures ShownInOrder(loops, [], first, 0, |loops|, one)
    ensures ShownInOrder(loops, first, Eager(loops, found, slug), 1, |loops|, two)
  {
    one := PassInOrder(loops, found, slug, 0, |loops|);
    two := PassInOrder(loops, found, slug, 1, |loops|);
    first := Arrival(loops, found, slug, 0, |loops|).next.log;
    ArrivalsAreEager(loops, found, slug, 1, |loops|);
    EndIsEager(loops, found, slug);
  }

  lemma {:induction false} EndIsEager(loops: seq<string>, found: seq<seq<Hit>>, slug: string)
    requires |found| == |loops|
    ensures Arrival(loops, found, slug, 1, |loops|).next.log == Eager(loops, found, slug)
  {
    var end := Arrival(loops, found, slug, 1, |loops|);
    ArrivalsAreEager(loops, found, slug, 1, |loops|);
    assert PassFrom(loops, found, slug, 1, |loops|, end.next) == Turn(true, end.next);
    assert RoundsFrom(loops, found, slug, 2, 0, end.next) == end.next;
  }

  // --- Who is asked ------------------------------------------------------------------

  /** It is loop `i`'s turn in `pass`, with fewer than six hits shown and fewer than 1200 characters used. */
  ghost predicate TurnWithRoom(loops: seq<string>, found: seq<seq<Hit>>, slug: string, pass: nat, i: nat)
    requires |found| == |loops| && i < |loops|
  {
    var log := Arrival(loops, found, slug, pass, i).next.log;
    TurnComes(loops, found, slug, pass, i) && |log| < 6 && CostSum(log, slug) < 1200
  }

  lemma {:induction false} HasTurnIff(loops: seq<string>, found: seq<seq<Hit>>, slug: string, pass: nat, i: nat)
    requires |found| == |loops| && i < |loops|
    ensures HasTurn(loops, found, slug, pass, i) <==> TurnWithRoom(loops, found, slug, pass, i)
  {
    ArrivalIsBudgeted(loops, found, slug, pass, i);
  }

  /** A loop is asked exactly when one of its two turns comes with room left. */
  lemma {:induction false} AskedIff(loops: seq<string>, found: seq<seq<Hit>>, slug: string, i: nat)
    requires |found| == |loops| && i < |loops|
    ensures GetsTurn(loops, found, slug, i) <==>
            TurnWithRoom(loops, found, slug, 0, i) || TurnWithRoom(loops, found, slug, 1, i)
  {
    HasTurnIff(loops, found, slug, 0, i);
    HasTurnIff(loops, found, slug, 1, i);
  }
}
