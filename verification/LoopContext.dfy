/** Hits for open loops. */
module LoopContext {
  // src/bootstrap/loop-context.ts: a budgeted round robin that queries a loop only when its turn
  // comes. The eager version, which knows every loop's candidates up front, is a function; the lazy
  // one is a method that keeps what is still to come equal to it.

  import opened Prelude

  const HITS_PER_LOOP: nat := 2
  const HITS_TOTAL: nat := 6
  const CHARS_TOTAL: nat := 1200
  const CANDIDATES_PER_LOOP: nat := HITS_TOTAL + HITS_PER_LOOP - 1

  datatype Hit = Hit(ref: string, initiative: Option<string>, title: Option<string>, readIf: Option<string>)

  function RenderSeeLine(hit: Hit, slug: string): string {
    var foreign := if hit.initiative.Some? && hit.initiative.value != slug
                   then "[from `" + hit.initiative.value + "`] " else "";
    var readIf := if hit.readIf.Some? then " (read if: " + hit.readIf.value + ")" else "";
    "    see: " + foreign + hit.ref + " \"" + hit.title.GetOr(hit.ref) + "\"" + readIf
  }

  function Cost(hit: Hit, slug: string): (c: nat)
    ensures c >= 1
  {
    |RenderSeeLine(hit, slug)| + 1
  }

  /** One rendered hit: the loop it is shown under, and its 1-based rank there. */
  datatype Shown = Shown(loop: string, hit: Hit, rank: nat)

  /** Everything allocated so far, in order, and what is left of the two budgets. */
  datatype Allocation = Allocation(log: seq<Shown>, hits: nat, chars: int)

  const START: Allocation := Allocation([], HITS_TOTAL, CHARS_TOTAL)

  function OfLoop(log: seq<Shown>, loop: string): seq<Shown> {
    if log == [] then []
    else OfLoop(log[..|log| - 1], loop) + (if log[|log| - 1].loop == loop then [log[|log| - 1]] else [])
  }

  predicate Taken(log: seq<Shown>, ref: string) {
    exists i :: 0 <= i < |log| && log[i].hit.ref == ref
  }

  /** candidates.find((c) => !taken.has(c.ref)) */
  function FirstFree(candidates: seq<Hit>, log: seq<Shown>): (r: Option<Hit>)
    ensures r.Some? ==> r.value in candidates && !Taken(log, r.value.ref)
    ensures r.None? <==> forall c :: c in candidates ==> Taken(log, c.ref)
  {
    if candidates == [] then None
    else if !Taken(log, candidates[0].ref) then Some(candidates[0])
    else FirstFree(candidates[1..], log)
  }

  datatype Turn = Turn(goOn: bool, next: Allocation)

  /** One loop's turn; goOn is false once a hit does not fit, which ends the allocation. */
  function AllocateOne(loop: string, candidates: seq<Hit>, a: Allocation, slug: string): Turn {
    match FirstFree(candidates, a.log)
    case None => Turn(true, a)
    case Some(hit) =>
      var cost := Cost(hit, slug);
      if a.hits == 0 || cost > a.chars then Turn(false, a)
      else
        Turn(true, Allocation(a.log + [Shown(loop, hit, |OfLoop(a.log, loop)| + 1)], a.hits - 1, a.chars - cost))
  }

  /** The turns of one pass from loop `i` on: only loops with exactly `pass` hits take part. */
  function PassFrom(loops: seq<string>, found: seq<seq<Hit>>, slug: string, pass: nat, i: nat, a: Allocation): Turn
    requires |found| == |loops|
    decreases |loops| - i
  {
    if i >= |loops| then Turn(true, a)
    else if |OfLoop(a.log, loops[i])| != pass then PassFrom(loops, found, slug, pass, i + 1, a)
    else
      var turn := AllocateOne(loops[i], found[i], a, slug);
      if turn.goOn then PassFrom(loops, found, slug, pass, i + 1, turn.next) else turn
  }

  /** The passes from `pass`, loop `i` on. */
  function RoundsFrom(
    loops: seq<string>, found: seq<seq<Hit>>, slug: string, pass: nat, i: nat, a: Allocation): Allocation
    requires |found| == |loops|
    decreases HITS_PER_LOOP - pass
  {
    if pass >= HITS_PER_LOOP then a
    else
      var turn := PassFrom(loops, found, slug, pass, i, a);
      if turn.goOn then RoundsFrom(loops, found, slug, pass + 1, 0, turn.next) else turn.next
  }

  /** The eager version: every loop's candidates known up front, then the round robin. */
  function Eager(loops: seq<string>, found: seq<seq<Hit>>, slug: string): seq<Shown>
    requires |found| == |loops|
  {
    RoundsFrom(loops, found, slug, 0, 0, START).log
  }

  // --- Stopping early -----------------------------------------------------------

  predicate Spent(a: Allocation) {
    a.hits == 0 || a.chars <= 0
  }

  lemma {:induction false} SpentPass(
    loops: seq<string>, found: seq<seq<Hit>>, slug: string, pass: nat, i: nat, a: Allocation)
    requires |found| == |loops| && Spent(a)
    ensures PassFrom(loops, found, slug, pass, i, a).next == a
    decreases |loops| - i
  {
    if i < |loops| {
      SpentPass(loops, found, slug, pass, i + 1, a);
    }
  }

  /** Once either budget is gone the eager version changes nothing more. */
  lemma {:induction false} SpentRounds(
    loops: seq<string>, found: seq<seq<Hit>>, slug: string, pass: nat, i: nat, a: Allocation)
    requires |found| == |loops| && Spent(a)
    ensures RoundsFrom(loops, found, slug, pass, i, a) == a
    decreases HITS_PER_LOOP - pass
  {
    if pass < HITS_PER_LOOP {
      SpentPass(loops, found, slug, pass, i, a);
      SpentRounds(loops, found, slug, pass + 1, 0, a);
    }
  }

  // --- Where the round robin has budget left -----------------------------------------

  /** How the eager round robin comes to loop `i` in `pass`: what is allocated by then, or that it ended before. */
  function Arrival(loops: seq<string>, found: seq<seq<Hit>>, slug: string, pass: nat, i: nat): Turn
    requires |found| == |loops| && i <= |loops|
    decreases pass, i
  {
    if i == 0 then (if pass == 0 then Turn(true, START) else Arrival(loops, found, slug, pass - 1, |loops|))
    else
      var before := Arrival(loops, found, slug, pass, i - 1);
      if !before.goOn || |OfLoop(before.next.log, loops[i - 1])| != pass then before
      else AllocateOne(loops[i - 1], found[i - 1], before.next, slug)
  }

  /** In `pass` it is loop `i`'s turn, and both budgets have something left. */
  ghost predicate HasTurn(loops: seq<string>, found: seq<seq<Hit>>, slug: string, pass: nat, i: nat)
    requires |found| == |loops| && i < |loops|
  {
    var here := Arrival(loops, found, slug, pass, i);
    here.goOn && |OfLoop(here.next.log, loops[i])| == pass && !Spent(here.next)
  }

  predicate Over(t: Turn) {
    !t.goOn || Spent(t.next)
  }

  /** Once it ended or a budget is gone, that stays so. */
  lemma {:induction false} StaysOver(
    loops: seq<string>, found: seq<seq<Hit>>, slug: string, pass: nat, i: nat, later: nat, j: nat)
    requires |found| == |loops| && i <= |loops| && j <= |loops|
    requires pass < later || (pass == later && i <= j)
    requires Over(Arrival(loops, found, slug, pass, i))
    ensures Over(Arrival(loops, found, slug, later, j))
    decreases later, j
  {
    if (later, j) != (pass, i) {
      if j == 0 {
        StaysOver(loops, found, slug, pass, i, later - 1, |loops|);
      } else {
        StaysOver(loops, found, slug, pass, i, later, j - 1);
      }
    }
  }

  /** The turns a loop has had with budget left before loop `i` of `pass` is reached. */
  ghost predicate HadTurn(loops: seq<string>, found: seq<seq<Hit>>, slug: string, pass: nat, i: nat, j: nat)
    requires |found| == |loops| && j < |loops|
  {
    exists q: nat :: (q < pass || (q == pass && j < i)) && HasTurn(loops, found, slug, q, j)
  }

  /** Loop `j` ever gets a turn with budget left. */
  ghost predicate GetsTurn(loops: seq<string>, found: seq<seq<Hit>>, slug: string, j: nat)
    requires |found| == |loops| && j < |loops|
  {
    HadTurn(loops, found, slug, HITS_PER_LOOP, 0, j)
  }

  /** The loops queried by the time loop `i` of `pass` is reached are those that had a turn. */
  ghost predicate QueriedWere(
    loops: seq<string>, found: seq<seq<Hit>>, slug: string, pass: nat, i: nat, queried: seq<nat>)
    requires |found| == |loops|
  {
    forall j :: 0 <= j < |loops| ==> (j in queried <==> HadTurn(loops, found, slug, pass, i, j))
  }

  lemma {:induction false} OverEndsTurns(
    loops: seq<string>, found: seq<seq<Hit>>, slug: string, pass: nat, i: nat, j: nat)
    requires |found| == |loops| && i <= |loops| && j < |loops| && pass < HITS_PER_LOOP
    requires Over(Arrival(loops, found, slug, pass, i))
    ensures HadTurn(loops, found, slug, pass, i, j) <==> GetsTurn(loops, found, slug, j)
  {
    if GetsTurn(loops, found, slug, j) {
      var q: nat :| q < HITS_PER_LOOP && HasTurn(loops, found, slug, q, j);
      if !(q < pass || (q == pass && j < i)) {
        StaysOver(loops, found, slug, pass, i, q, j);
        assert false;
      }
    }
  }

  lemma {:induction false} AllOver(
    loops: seq<string>, found: seq<seq<Hit>>, slug: string, pass: nat, i: nat, queried: seq<nat>)
    requires |found| == |loops| && i <= |loops| && pass < HITS_PER_LOOP
    requires Over(Arrival(loops, found, slug, pass, i)) && QueriedWere(loops, found, slug, pass, i, queried)
    ensures QueriedWere(loops, found, slug, HITS_PER_LOOP, 0, queried)
  {
    forall j | 0 <= j < |loops| ensures j in queried <==> HadTurn(loops, found, slug, HITS_PER_LOOP, 0, j) {
      OverEndsTurns(loops, found, slug, pass, i, j);
    }
  }

  /** Going past loop `i`, which is among the queried now exactly when it was or has its turn here. */
  lemma {:induction false} QueriedNext(
    loops: seq<string>, found: seq<seq<Hit>>, slug: string, pass: nat, i: nat, was: seq<nat>, queried: seq<nat>)
    requires |found| == |loops| && i < |loops| && QueriedWere(loops, found, slug, pass, i, was)
    requires forall j :: j in queried <==> j in was || (j == i && HasTurn(loops, found, slug, pass, i))
    ensures QueriedWere(loops, found, slug, pass, i + 1, queried)
  {
    forall j | 0 <= j < |loops| ensures j in queried <==> HadTurn(loops, found, slug, pass, i + 1, j) {
      assert j in was <==> HadTurn(loops, found, slug, pass, i, j);
      if HadTurn(loops, found, slug, pass, i + 1, j) {
        var q: nat :| (q < pass || (q == pass && j < i + 1)) && HasTurn(loops, found, slug, q, j);
      }
    }
  }

  lemma {:induction false} QueriedNextPass(
    loops: seq<string>, found: seq<seq<Hit>>, slug: string, pass: nat, queried: seq<nat>)
    requires |found| == |loops| && QueriedWere(loops, found, slug, pass, |loops|, queried)
    ensures QueriedWere(loops, found, slug, pass + 1, 0, queried)
  {
    forall j | 0 <= j < |loops| ensures j in queried <==> HadTurn(loops, found, slug, pass + 1, 0, j) {
      assert j in queried <==> HadTurn(loops, found, slug, pass, |loops|, j);
    }
  }

  /** The arrivals are the states the eager version goes through. */
  lemma {:induction false} ArrivalsAreEager(
    loops: seq<string>, found: seq<seq<Hit>>, slug: string, pass: nat, i: nat)
    requires |found| == |loops| && i <= |loops| && pass < HITS_PER_LOOP
    ensures var here := Arrival(loops, found, slug, pass, i);
            (if here.goOn then RoundsFrom(loops, found, slug, pass, i, here.next) else here.next).log ==
            Eager(loops, found, slug)
    decreases pass, i
  {
    if i > 0 {
      ArrivalsAreEager(loops, found, slug, pass, i - 1);
    } else if pass > 0 {
      ArrivalsAreEager(loops, found, slug, pass - 1, |loops|);
    }
  }

  /** Where the lazy version is at loop `i` of `pass`: what it holds and whom it has asked. */
  ghost predicate OnTheWay(
    loops: seq<string>, found: seq<seq<Hit>>, slug: string, pass: nat, i: nat, a: Allocation, queried: seq<nat>)
    requires |found| == |loops| && i <= |loops|
  {
    && RoundsFrom(loops, found, slug, pass, i, a).log == Eager(loops, found, slug)
    && Arrival(loops, found, slug, pass, i) == Turn(true, a)
    && QueriedWere(loops, found, slug, pass, i, queried)
  }

  ghost predicate AtTheEnd(
    loops: seq<string>, found: seq<seq<Hit>>, slug: string, log: seq<Shown>, queried: seq<nat>)
    requires |found| == |loops|
  {
    log == Eager(loops, found, slug) && QueriedWere(loops, found, slug, HITS_PER_LOOP, 0, queried)
  }

  lemma {:induction false} SkipTurn(
    loops: seq<string>, found: seq<seq<Hit>>, slug: string, pass: nat, i: nat, a: Allocation, queried: seq<nat>)
    requires |found| == |loops| && i < |loops| && pass < HITS_PER_LOOP
    requires OnTheWay(loops, found, slug, pass, i, a, queried) && |OfLoop(a.log, loops[i])| != pass
    ensures OnTheWay(loops, found, slug, pass, i + 1, a, queried)
  {
    QueriedNext(loops, found, slug, pass, i, queried, queried);
  }

  lemma {:induction false} StopSpent(
    loops: seq<string>, found: seq<seq<Hit>>, slug: string, pass: nat, i: nat, a: Allocation, queried: seq<nat>)
    requires |found| == |loops| && i < |loops| && pass < HITS_PER_LOOP
    requires OnTheWay(loops, found, slug, pass, i, a, queried) && Spent(a)
    ensures AtTheEnd(loops, found, slug, a.log, queried)
  {
    SpentRounds(loops, found, slug, pass, i, a);
    AllOver(loops, found, slug, pass, i, queried);
  }

  lemma {:induction false} TakeTurn(
    loops: seq<string>, found: seq<seq<Hit>>, slug: string, pass: nat, i: nat, a: Allocation, was: seq<nat>,
    queried: seq<nat>)
    requires |found| == |loops| && i < |loops| && pass < HITS_PER_LOOP
    requires OnTheWay(loops, found, slug, pass, i, a, was) && |OfLoop(a.log, loops[i])| == pass && !Spent(a)
    requires forall j :: j in queried <==> j in was || j == i
    ensures var turn := AllocateOne(loops[i], found[i], a, slug);
            if turn.goOn then OnTheWay(loops, found, slug, pass, i + 1, turn.next, queried)
            else AtTheEnd(loops, found, slug, a.log, queried)
  {
    assert HasTurn(loops, found, slug, pass, i);
    QueriedNext(loops, found, slug, pass, i, was, queried);
    TurnInRound(loops, found, slug, pass, i, a);
    TurnArrives(loops, found, slug, pass, i, a);
    if !AllocateOne(loops[i], found[i], a, slug).goOn {
      AllOver(loops, found, slug, pass, i + 1, queried);
    }
  }

  lemma {:induction false} TurnInRound(
    loops: seq<string>, found: seq<seq<Hit>>, slug: string, pass: nat, i: nat, a: Allocation)
    requires |found| == |loops| && i < |loops| && pass < HITS_PER_LOOP && |OfLoop(a.log, loops[i])| == pass
    ensures var turn := AllocateOne(loops[i], found[i], a, slug);
            && RoundsFrom(loops, found, slug, pass, i, a) ==
               (if turn.goOn then RoundsFrom(loops, found, slug, pass, i + 1, turn.next) else turn.next)
            && (!turn.goOn ==> turn.next == a)
  {
  }

  lemma {:induction false} TurnArrives(
    loops: seq<string>, found: seq<seq<Hit>>, slug: string, pass: nat, i: nat, a: Allocation)
    requires |found| == |loops| && i < |loops|
    requires Arrival(loops, found, slug, pass, i) == Turn(true, a) && |OfLoop(a.log, loops[i])| == pass
    ensures Arrival(loops, found, slug, pass, i + 1) == AllocateOne(loops[i], found[i], a, slug)
  {
  }

  lemma {:induction false} NextPass(
    loops: seq<string>, found: seq<seq<Hit>>, slug: string, pass: nat, a: Allocation, queried: seq<nat>)
    requires |found| == |loops| && pass < HITS_PER_LOOP
    requires OnTheWay(loops, found, slug, pass, |loops|, a, queried)
    ensures OnTheWay(loops, found, slug, pass + 1, 0, a, queried)
  {
    QueriedNextPass(loops, found, slug, pass, queried);
  }

  // --- The lazy version ----------------------------------------------------------

  datatype Degradation = Degradation(source: string, reason: string, message: string)

  /** What the retriever does for one loop; throwing counts as no hits. */
  datatype Answer = Found(hits: seq<Hit>, degraded: seq<Degradation>) | Threw(message: string)

  function HitsOf(answer: Answer): seq<Hit> {
    match answer
    case Found(hits, _) => hits
    case Threw(_) => []
  }

  function NotesOf(answer: Answer): seq<Degradation> {
    match answer
    case Found(_, degraded) => degraded
    case Threw(message) => [Degradation("loop-retriever", "error", message)]
  }

  function AllHits(loops: seq<string>, retriever: nat -> Answer): (r: seq<seq<Hit>>)
    ensures |r| == |loops|
  {
    seq(|loops|, i requires 0 <= i < |loops| => HitsOf(retriever(i)))
  }

  predicate Known(degraded: seq<Degradation>, d: Degradation) {
    exists i :: 0 <= i < |degraded| && degraded[i].source == d.source && degraded[i].message == d.message
  }

  /** Every notice of a queried loop is known, and no other. */
  ghost predicate Noted(retriever: nat -> Answer, queried: seq<nat>, degraded: seq<Degradation>) {
    && (forall i, d :: i in queried && d in NotesOf(retriever(i)) ==> Known(degraded, d))
    && (forall d :: d in degraded ==> exists i :: i in queried && d in NotesOf(retriever(i)))
    && OnceEach(degraded)
  }

  /** No two notices have source and message in common. */
  ghost predicate OnceEach(degraded: seq<Degradation>) {
    forall i, j :: 0 <= i < j < |degraded| ==>
      degraded[i].source != degraded[j].source || degraded[i].message != degraded[j].message
  }

  /** A loop whose retriever threw has left a notice of its message, and one that answered each of its own. */
  lemma {:induction false} NoticesAre(
    retriever: nat -> Answer, queried: seq<nat>, degraded: seq<Degradation>, i: nat)
    requires Noted(retriever, queried, degraded) && i in queried
    ensures match retriever(i)
            case Threw(message) =>
              exists k :: 0 <= k < |degraded| && degraded[k].source == "loop-retriever" && degraded[k].message == message
            case Found(_, notes) =>
              forall d :: d in notes ==>
                exists k :: 0 <= k < |degraded| && degraded[k].source == d.source && degraded[k].message == d.message
  {
    match retriever(i)
    case Threw(message) =>
      var d := Degradation("loop-retriever", "error", message);
      assert d in NotesOf(retriever(i));
      assert Known(degraded, d);
    case Found(_, notes) =>
      forall d | d in notes
        ensures exists k :: 0 <= k < |degraded| && degraded[k].source == d.source && degraded[k].message == d.message
      {
        assert d in NotesOf(retriever(i));
        assert Known(degraded, d);
      }
  }

  lemma {:induction false} NotedGrows(
    retriever: nat -> Answer, queried: seq<nat>, degraded: seq<Degradation>, more: seq<Degradation>, i: nat)
    requires Noted(retriever, queried, degraded) && degraded <= more && OnceEach(more)
    requires forall d :: d in NotesOf(retriever(i)) ==> Known(more, d)
    requires forall d :: d in more ==> d in degraded || d in NotesOf(retriever(i))
    ensures Noted(retriever, queried + [i], more)
  {
    forall d | d in more ensures exists j :: j in queried + [i] && d in NotesOf(retriever(j)) {
      if d in degraded {
        var j :| j in queried && d in NotesOf(retriever(j));
        assert j in queried + [i];
      } else {
        assert i in queried + [i];
      }
    }
    forall d | Known(degraded, d) ensures Known(more, d) {
      var k :| 0 <= k < |degraded| && degraded[k].source == d.source && degraded[k].message == d.message;
      assert more[k] == degraded[k];
    }
  }

  method AddDegraded(degraded: seq<Degradation>, more: seq<Degradation>) returns (all: seq<Degradation>)
    ensures degraded <= all
    ensures forall d :: d in more ==> Known(all, d)
    ensures forall d :: d in all ==> d in degraded || d in more
    ensures OnceEach(degraded) ==> OnceEach(all)
  {
    all := degraded;
    for i := 0 to |more|
      invariant degraded <= all
      invariant OnceEach(degraded) ==> OnceEach(all)
      invariant forall j :: 0 <= j < i ==> Known(all, more[j])
      invariant forall d :: d in all ==> d in degraded || d in more
    {
      if !Known(all, more[i]) {
        ghost var was := all;
        all := all + [more[i]];
        assert all[|was|] == more[i];
        forall j | 0 <= j < i ensures Known(all, more[j]) {
          var k :| 0 <= k < |was| && was[k].source == more[j].source && was[k].message == more[j].message;
          assert all[k] == was[k];
        }
      }
    }
  }

  /** What has been asked so far: each loop once, its answer kept and its notices known. */
  ghost predicate Bookkept(
    found: seq<seq<Hit>>, retriever: nat -> Answer, candidates: map<nat, seq<Hit>>, queried: seq<nat>,
    degraded: seq<Degradation>)
  {
    && (forall j :: j in candidates <==> j in queried)
    && (forall j :: j in candidates ==> j < |found| && candidates[j] == found[j])
    && Distinct(queried)
    && Noted(retriever, queried, degraded)
  }

  lemma {:induction false} BookkeepOne(
    found: seq<seq<Hit>>, retriever: nat -> Answer, candidates: map<nat, seq<Hit>>, queried: seq<nat>,
    degraded: seq<Degradation>, i: nat, more: seq<Degradation>)
    requires Bookkept(found, retriever, candidates, queried, degraded)
    requires i < |found| && i !in candidates
    requires degraded <= more && OnceEach(more) && forall d :: d in NotesOf(retriever(i)) ==> Known(more, d)
    requires forall d :: d in more ==> d in degraded || d in NotesOf(retriever(i))
    ensures Bookkept(found, retriever, candidates[i := found[i]], queried + [i], more)
  {
    NotedGrows(retriever, queried, degraded, more, i);
  }

  /** queryLoop: the hits of one loop, none if the retriever throws, and its notices kept. */
  method QueryLoop(retriever: nat -> Answer, i: nat, degraded: seq<Degradation>)
    returns (hits: seq<Hit>, more: seq<Degradation>)
    ensures hits == HitsOf(retriever(i))
    ensures degraded <= more && forall d :: d in NotesOf(retriever(i)) ==> Known(more, d)
    ensures forall d :: d in more ==> d in degraded || d in NotesOf(retriever(i))
    ensures OnceEach(degraded) ==> OnceEach(more)
  {
    match retriever(i) {
      case Found(found, notes) =>
        more := AddDegraded(degraded, notes);
        hits := found;
      case Threw(message) =>
        more := AddDegraded(degraded, [Degradation("loop-retriever", "error", message)]);
        hits := [];
    }
  }

  /** A loop's candidates are asked for when they are first needed. */
  method QueryOnce(
    ghost found: seq<seq<Hit>>, retriever: nat -> Answer, i: nat, candidates: map<nat, seq<Hit>>, queried: seq<nat>,
    degraded: seq<Degradation>)
    returns (candidates': map<nat, seq<Hit>>, queried': seq<nat>, degraded': seq<Degradation>)
    requires i < |found| && found[i] == HitsOf(retriever(i))
    requires Bookkept(found, retriever, candidates, queried, degraded)
    ensures Bookkept(found, retriever, candidates', queried', degraded')
    ensures i in candidates' && candidates'[i] == found[i]
    ensures forall j :: j in queried' <==> j in queried || j == i
  {
    candidates', queried', degraded' := candidates, queried, degraded;
    if i !in candidates {
      var hits, more := QueryLoop(retriever, i, degraded);
      BookkeepOne(found, retriever, candidates, queried, degraded, i, more);
      candidates', queried', degraded' := candidates[i := hits], queried + [i], more;
    }
  }

  /**
   * relatedForLoops: the hits are those of querying every loop up front, and a
   * loop is queried, once, exactly when the round robin gives it a turn with
   * budget left.
   */
  method RelatedForLoops(loops: seq<string>, slug: string, retriever: nat -> Answer)
    returns (log: seq<Shown>, degraded: seq<Degradation>, queried: seq<nat>)
    ensures log == Eager(loops, AllHits(loops, retriever), slug)
    ensures Distinct(queried) && forall i :: i in queried ==> i < |loops|
    ensures forall i :: 0 <= i < |loops| ==>
              (i in queried <==> GetsTurn(loops, AllHits(loops, retriever), slug, i))
    ensures Noted(retriever, queried, degraded)
  {
    ghost var found := AllHits(loops, retriever);
    var a := START;
    var candidates: map<nat, seq<Hit>> := map[];
    degraded, queried := [], [];
    for pass := 0 to HITS_PER_LOOP
      invariant OnTheWay(loops, found, slug, pass, 0, a, queried)
      invariant Bookkept(found, retriever, candidates, queried, degraded)
    {
      for i := 0 to |loops|
        invariant OnTheWay(loops, found, slug, pass, i, a, queried)
        invariant Bookkept(found, retriever, candidates, queried, degraded)
      {
        ghost var was := queried;
        if |OfLoop(a.log, loops[i])| != pass {
          SkipTurn(loops, found, slug, pass, i, a, queried);
          continue;
        }
        if Spent(a) {
          StopSpent(loops, found, slug, pass, i, a, queried);
          log := a.log;
          return;
        }
        candidates, queried, degraded := QueryOnce(found, retriever, i, candidates, queried, degraded);
        TakeTurn(loops, found, slug, pass, i, a, was, queried);
        var turn := AllocateOne(loops[i], candidates[i], a, slug);
        if !turn.goOn {
          log := a.log;
          return;
        }
        a := turn.next;
      }
      NextPass(loops, found, slug, pass, a, queried);
    }
    log := a.log;
  }
}
