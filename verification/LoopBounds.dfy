/** What every allotment of see-lines obeys. */
module LoopBounds {
  // Budgets, ranks, distinct refs and first turns, and how many candidates a loop must be asked for
  // (src/bootstrap/loop-context.ts).

  import opened Prelude
  import opened LoopContext

  // --- Budgets, ranks and distinct refs -----------------------------------------

  function CostSum(log: seq<Shown>, slug: string): nat {
    if log == [] then 0 else CostSum(log[..|log| - 1], slug) + Cost(log[|log| - 1].hit, slug)
  }

  ghost predicate RefsDistinct(log: seq<Shown>) {
    forall i, j :: 0 <= i < j < |log| ==> log[i].hit.ref != log[j].hit.ref
  }

  /** The rank of each entry is its 1-based place among its loop's entries. */
  ghost predicate Ranked(log: seq<Shown>) {
    forall k :: 0 <= k < |log| ==> log[k].rank == |OfLoop(log[..k], log[k].loop)| + 1
  }

  ghost predicate Sound(a: Allocation, slug: string) {
    && a.hits + |a.log| == HITS_TOTAL
    && a.chars >= 0 && a.chars + CostSum(a.log, slug) == CHARS_TOTAL
    && RefsDistinct(a.log) && Ranked(a.log)
  }

  ghost predicate RankIs(log: seq<Shown>, from: nat, rank: nat) {
    forall k :: from <= k < |log| ==> log[k].rank == rank
  }

  lemma {:induction false} LogSnoc(log: seq<Shown>, s: Shown, loop: string, slug: string)
    ensures CostSum(log + [s], slug) == CostSum(log, slug) + Cost(s.hit, slug)
    ensures OfLoop(log + [s], loop) == OfLoop(log, loop) + (if s.loop == loop then [s] else [])
  {
    assert (log + [s])[..|log|] == log;
  }

  lemma {:induction false} RankedSnoc(log: seq<Shown>, s: Shown)
    requires Ranked(log) && s.rank == |OfLoop(log, s.loop)| + 1
    ensures Ranked(log + [s])
  {
    var all := log + [s];
    forall k | 0 <= k < |all| ensures all[k].rank == |OfLoop(all[..k], all[k].loop)| + 1 {
      if k < |log| {
        assert all[..k] == log[..k];
      } else {
        assert all[..k] == log;
      }
    }
  }

  lemma {:induction false} TurnIsSound(loop: string, candidates: seq<Hit>, a: Allocation, slug: string)
    requires Sound(a, slug)
    ensures var next := AllocateOne(loop, candidates, a, slug).next;
            && Sound(next, slug) && a.log <= next.log && |next.log| <= |a.log| + 1
            && RankIs(next.log, |a.log|, |OfLoop(a.log, loop)| + 1)
            && forall k :: |a.log| <= k < |next.log| ==> next.log[k].hit in candidates
  {
    var free := FirstFree(candidates, a.log);
    if free.Some? {
      var s := Shown(loop, free.value, |OfLoop(a.log, loop)| + 1);
      LogSnoc(a.log, s, loop, slug);
      RankedSnoc(a.log, s);
    }
  }

  lemma {:induction false} PassIsSound(
    loops: seq<string>, found: seq<seq<Hit>>, slug: string, pass: nat, i: nat, a: Allocation)
    requires |found| == |loops| && Sound(a, slug)
    ensures var next := PassFrom(loops, found, slug, pass, i, a).next;
            Sound(next, slug) && a.log <= next.log && RankIs(next.log, |a.log|, pass + 1)
    decreases |loops| - i
  {
    if i < |loops| {
      if |OfLoop(a.log, loops[i])| != pass {
        PassIsSound(loops, found, slug, pass, i + 1, a);
      } else {
        TurnIsSound(loops[i], found[i], a, slug);
        var turn := AllocateOne(loops[i], found[i], a, slug);
        if turn.goOn {
          PassIsSound(loops, found, slug, pass, i + 1, turn.next);
          var next := PassFrom(loops, found, slug, pass, i, a).next;
          forall k | |a.log| <= k < |next.log| ensures next.log[k].rank == pass + 1 {
            if k < |turn.next.log| {
              assert next.log[k] == turn.next.log[k];
            }
          }
        }
      }
    }
  }

  // --- First turns come first ------------------------------------------------------

  /** Loop `i` has a hit already, or nothing left to take. */
  ghost predicate HadTurn(loops: seq<string>, found: seq<seq<Hit>>, log: seq<Shown>, i: nat)
    requires |found| == |loops| && i < |loops|
  {
    OfLoop(log, loops[i]) != [] || forall c :: c in found[i] ==> Taken(log, c.ref)
  }

  lemma {:induction false} OfLoopGrows(log: seq<Shown>, more: seq<Shown>, loop: string)
    requires log <= more && OfLoop(log, loop) != []
    ensures OfLoop(more, loop) != []
    decreases |more|
  {
    if |more| > |log| {
      OfLoopGrows(log, more[..|more| - 1], loop);
    } else {
      assert more == log;
    }
  }

  lemma {:induction false} HadTurnGrows(
    loops: seq<string>, found: seq<seq<Hit>>, log: seq<Shown>, more: seq<Shown>, i: nat)
    requires |found| == |loops| && i < |loops| && log <= more && HadTurn(loops, found, log, i)
    ensures HadTurn(loops, found, more, i)
  {
    if OfLoop(log, loops[i]) != [] {
      OfLoopGrows(log, more, loops[i]);
    } else {
      forall c | c in found[i] ensures Taken(more, c.ref) {
        var k :| 0 <= k < |log| && log[k].hit.ref == c.ref;
        assert more[k] == log[k];
      }
    }
  }

  lemma {:induction false} FirstPassServesAll(
    loops: seq<string>, found: seq<seq<Hit>>, slug: string, i: nat, a: Allocation, j: nat)
    requires |found| == |loops| && Sound(a, slug) && i <= j < |loops|
    requires PassFrom(loops, found, slug, 0, i, a).goOn
    ensures HadTurn(loops, found, PassFrom(loops, found, slug, 0, i, a).next.log, j)
    decreases |loops| - i
  {
    var end := PassFrom(loops, found, slug, 0, i, a).next;
    var after := if |OfLoop(a.log, loops[i])| != 0 then a else AllocateOne(loops[i], found[i], a, slug).next;
    TurnIsSound(loops[i], found[i], a, slug);
    if i == j {
      TurnServes(loops, found, slug, i, a);
      PassIsSound(loops, found, slug, 0, i + 1, after);
      HadTurnGrows(loops, found, after.log, end.log, i);
    } else {
      FirstPassServesAll(loops, found, slug, i + 1, after, j);
    }
  }

  lemma {:induction false} TurnServes(loops: seq<string>, found: seq<seq<Hit>>, slug: string, i: nat, a: Allocation)
    requires |found| == |loops| && i < |loops|
    requires |OfLoop(a.log, loops[i])| == 0 ==> AllocateOne(loops[i], found[i], a, slug).goOn
    ensures var after := if |OfLoop(a.log, loops[i])| != 0 then a else AllocateOne(loops[i], found[i], a, slug).next;
            HadTurn(loops, found, after.log, i)
  {
    var free := FirstFree(found[i], a.log);
    if |OfLoop(a.log, loops[i])| == 0 && free.Some? {
      LogSnoc(a.log, Shown(loops[i], free.value, 1), loops[i], slug);
    }
  }

  lemma {:induction false} StartIsSound(slug: string)
    ensures Sound(START, slug)
  {
  }

  /**
   * Every allocation: at most six hits and 1200 characters, no ref twice, ranks
   * in step; first hits all before second ones, and a second one only after every
   * loop has a hit or nothing left to take.
   */
  lemma {:induction false} AllocationBounds(
    loops: seq<string>, found: seq<seq<Hit>>, slug: string)
    returns (firsts: nat)
    requires |found| == |loops|
    ensures var log := Eager(loops, found, slug);
            && |log| <= HITS_TOTAL && CostSum(log, slug) <= CHARS_TOTAL
            && RefsDistinct(log) && Ranked(log)
            && firsts <= |log| && RankIs(log[..firsts], 0, 1) && RankIs(log, firsts, 2)
            && (firsts < |log| ==> forall i :: 0 <= i < |loops| ==> HadTurn(loops, found, log[..firsts], i))
  {
    StartIsSound(slug);
    var one := PassFrom(loops, found, slug, 0, 0, START);
    PassIsSound(loops, found, slug, 0, 0, START);
    firsts := |one.next.log|;
    assert one.next.log[..firsts] == one.next.log;
    if one.goOn {
      var two := PassFrom(loops, found, slug, 1, 0, one.next);
      PassIsSound(loops, found, slug, 1, 0, one.next);
      assert RoundsFrom(loops, found, slug, 1, 0, one.next) == two.next by {
        assert RoundsFrom(loops, found, slug, 2, 0, two.next) == two.next;
      }
      assert two.next.log[..firsts] == one.next.log;
      forall i | 0 <= i < |loops| ensures HadTurn(loops, found, one.next.log, i) {
        FirstPassServesAll(loops, found, slug, 0, START, i);
      }
    }
  }

  /** Under each loop the ranks read 1..k, and k is at most two. */
  lemma {:induction false} LoopRanks(log: seq<Shown>, loop: string, k: nat)
    requires Ranked(log) && k < |OfLoop(log, loop)|
    ensures OfLoop(log, loop)[k].rank == k + 1 && OfLoop(log, loop)[k] in log
    decreases |log|
  {
    var n := |log| - 1;
    var init := log[..n];
    assert Ranked(init) by {
      forall j | 0 <= j < n ensures init[j].rank == |OfLoop(init[..j], init[j].loop)| + 1 {
        assert init[..j] == log[..j];
      }
    }
    if k < |OfLoop(init, loop)| {
      LoopRanks(init, loop, k);
    } else {
      assert log[n].rank == |OfLoop(log[..n], log[n].loop)| + 1;
    }
  }

  lemma {:induction false} AtMostTwoPerLoop(loops: seq<string>, found: seq<seq<Hit>>, slug: string, loop: string)
    requires |found| == |loops|
    ensures |OfLoop(Eager(loops, found, slug), loop)| <= HITS_PER_LOOP
  {
    var log := Eager(loops, found, slug);
    var firsts := AllocationBounds(loops, found, slug);
    assert forall s :: s in log ==> s.rank <= HITS_PER_LOOP by {
      forall k | 0 <= k < |log| ensures log[k].rank <= HITS_PER_LOOP {
        assert k < firsts ==> log[..firsts][k] == log[k];
      }
    }
    if |OfLoop(log, loop)| > HITS_PER_LOOP {
      LoopRanks(log, loop, HITS_PER_LOOP);
    }
  }

  // --- How many candidates are enough ------------------------------------------------

  ghost predicate DistinctRefs(candidates: seq<Hit>) {
    forall i, j :: 0 <= i < j < |candidates| ==> candidates[i].ref != candidates[j].ref
  }

  function Cut(candidates: seq<Hit>, k: nat): seq<Hit> {
    if k < |candidates| then candidates[..k] else candidates
  }

  function CutAll(found: seq<seq<Hit>>, k: nat): (r: seq<seq<Hit>>)
    ensures |r| == |found|
  {
    seq(|found|, i requires 0 <= i < |found| => Cut(found[i], k))
  }

  /** Pigeonhole: n distinct refs, all taken, need n taken entries. */
  lemma {:induction false} AllTakenNeedsMany(candidates: seq<Hit>, log: seq<Shown>)
    requires DistinctRefs(candidates) && forall c :: c in candidates ==> Taken(log, c.ref)
    ensures |candidates| <= |log|
    decreases |log|
  {
    if candidates != [] {
      var n := |candidates| - 1;
      var last := candidates[n];
      var k :| 0 <= k < |log| && log[k].hit.ref == last.ref;
      var rest := log[..k] + log[k + 1..];
      forall c | c in candidates[..n] ensures Taken(rest, c.ref) {
        var i :| 0 <= i < n && candidates[i] == c;
        assert candidates[i].ref != candidates[n].ref;
        var j :| 0 <= j < |log| && log[j].hit.ref == c.ref;
        assert rest[if j < k then j else j - 1] == log[j];
      }
      AllTakenNeedsMany(candidates[..n], rest);
    }
  }

  lemma {:induction false} FirstFreeConcat(xs: seq<Hit>, ys: seq<Hit>, log: seq<Shown>)
    ensures FirstFree(xs + ys, log) == if FirstFree(xs, log).Some? then FirstFree(xs, log) else FirstFree(ys, log)
  {
    if xs == [] {
      assert xs + ys == ys;
    } else {
      assert (xs + ys)[1..] == xs[1..] + ys;
      FirstFreeConcat(xs[1..], ys, log);
    }
  }

  /** With fewer than k entries taken, the first k candidates decide. */
  lemma {:induction false} CutFindsSame(candidates: seq<Hit>, k: nat, log: seq<Shown>)
    requires DistinctRefs(candidates) && |log| < k
    ensures FirstFree(Cut(candidates, k), log) == FirstFree(candidates, log)
  {
    if k < |candidates| {
      assert candidates[..k] + candidates[k..] == candidates;
      FirstFreeConcat(candidates[..k], candidates[k..], log);
      if FirstFree(candidates[..k], log).None? {
        AllTakenNeedsMany(candidates[..k], log);
      }
    }
  }

  ghost predicate AllDistinct(found: seq<seq<Hit>>) {
    forall i :: 0 <= i < |found| ==> DistinctRefs(found[i])
  }

  /** A pass over cut lists ends where the pass over the full ones does, unless the hits are spent. */
  lemma {:induction false} CutPass(
    loops: seq<string>, found: seq<seq<Hit>>, slug: string, k: nat, pass: nat, i: nat, a: Allocation)
    requires |found| == |loops| && AllDistinct(found) && Sound(a, slug) && k >= HITS_TOTAL
    ensures var full, cut := PassFrom(loops, found, slug, pass, i, a), PassFrom(loops, CutAll(found, k), slug, pass, i, a);
            full.next == cut.next && (full.goOn == cut.goOn || Spent(full.next))
    decreases |loops| - i
  {
    if i < |loops| {
      if |OfLoop(a.log, loops[i])| != pass {
        CutPass(loops, found, slug, k, pass, i + 1, a);
      } else if a.hits == 0 {
        SpentPass(loops, found, slug, pass, i, a);
        SpentPass(loops, CutAll(found, k), slug, pass, i, a);
      } else {
        CutFindsSame(found[i], k, a.log);
        TurnIsSound(loops[i], found[i], a, slug);
        var turn := AllocateOne(loops[i], found[i], a, slug);
        if turn.goOn {
          CutPass(loops, found, slug, k, pass, i + 1, turn.next);
        }
      }
    }
  }

  lemma {:induction false} CutRounds(
    loops: seq<string>, found: seq<seq<Hit>>, slug: string, k: nat, pass: nat, a: Allocation)
    requires |found| == |loops| && AllDistinct(found) && Sound(a, slug) && k >= HITS_TOTAL
    ensures RoundsFrom(loops, found, slug, pass, 0, a) == RoundsFrom(loops, CutAll(found, k), slug, pass, 0, a)
    decreases HITS_PER_LOOP - pass
  {
    if pass < HITS_PER_LOOP {
      CutPass(loops, found, slug, k, pass, 0, a);
      PassIsSound(loops, found, slug, pass, 0, a);
      var full := PassFrom(loops, found, slug, pass, 0, a);
      if Spent(full.next) {
        SpentRounds(loops, found, slug, pass + 1, 0, full.next);
        SpentRounds(loops, CutAll(found, k), slug, pass + 1, 0, full.next);
      } else if full.goOn {
        CutRounds(loops, found, slug, k, pass + 1, full.next);
      }
    }
  }

  ghost predicate CutIsHarmless(k: nat) {
    forall loops, found, slug :: |found| == |loops| && AllDistinct(found) ==>
      Eager(loops, CutAll(found, k), slug) == Eager(loops, found, slug)
  }

  // A pool that shows too short a cut: k + 1 loops share the same k + 1 cheap hits.

  function Xs(n: nat): string {
    seq(n, _ => 'x')
  }

  function PoolHit(i: nat): Hit {
    Hit(Xs(i), None, None, None)
  }

  function Pool(n: nat): seq<Hit> {
    seq(n, i requires 0 <= i < n => PoolHit(i))
  }

  function LoopNames(n: nat): seq<string> {
    seq(n, i requires 0 <= i < n => Xs(i))
  }

  lemma {:induction false} PoolCost(i: nat, slug: string)
    ensures Cost(PoolHit(i), slug) == 2 * i + 13
    ensures DistinctRefs(Pool(i))
  {
    forall p, q | 0 <= p < q < |Pool(i)| ensures Pool(i)[p].ref != Pool(i)[q].ref {
      assert |Xs(p)| != |Xs(q)|;
    }
  }

  /** After the first i loops of the pool, the log shows the first i hits. */
  ghost predicate PoolLog(log: seq<Shown>, i: nat) {
    |log| == i && forall j :: 0 <= j < i ==> log[j].hit == PoolHit(j) && log[j].loop == Xs(j)
  }

  lemma {:induction false} PoolOfLoop(log: seq<Shown>, i: nat, n: nat)
    requires PoolLog(log, i) && i <= n
    ensures OfLoop(log, Xs(n)) == []
    decreases i
  {
    if i > 0 {
      assert |Xs(i - 1)| != |Xs(n)|;
      PoolOfLoop(log[..i - 1], i - 1, n);
    }
  }

  lemma {:induction false} PoolFirstFree(log: seq<Shown>, i: nat, n: nat)
    requires PoolLog(log, i)
    ensures FirstFree(Pool(n), log) == if i < n then Some(PoolHit(i)) else None
  {
    var pool := Pool(n);
    if i < n {
      assert pool == pool[..i] + ([pool[i]] + pool[i + 1..]);
      FirstFreeConcat(pool[..i], [pool[i]] + pool[i + 1..], log);
      forall c | c in pool[..i] ensures Taken(log, c.ref) {
        var j :| 0 <= j < i && pool[..i][j] == c;
        assert log[j].hit.ref == c.ref;
      }
      assert !Taken(log, pool[i].ref) by {
        forall j | 0 <= j < |log| ensures log[j].hit.ref != pool[i].ref {
          assert |Xs(j)| != |Xs(i)|;
        }
      }
      assert ([pool[i]] + pool[i + 1..])[0] == pool[i];
    } else {
      forall c | c in pool ensures Taken(log, c.ref) {
        var j :| 0 <= j < n && pool[j] == c;
        assert log[j].hit.ref == c.ref;
      }
    }
  }

  /** The budgets after i pool hits: enough for six. */
  ghost predicate PoolAlloc(a: Allocation, i: nat) {
    PoolLog(a.log, i) && a.hits == HITS_TOTAL - i && a.chars >= CHARS_TOTAL - 25 * i
  }

  lemma {:induction false} PoolTurn(a: Allocation, i: nat, n: nat, slug: string)
    requires PoolAlloc(a, i) && i <= 5
    ensures var turn := AllocateOne(Xs(i), Pool(n), a, slug);
            turn.goOn && if i < n then PoolAlloc(turn.next, i + 1) else turn.next == a
  {
    PoolFirstFree(a.log, i, n);
    PoolCost(i, slug);
  }

  /** From turn i, a shared pool of n > i hits gives loop j < n its own hit, later loops none. */
  lemma {:induction false} PoolPass(k: nat, n: nat, slug: string, i: nat, a: Allocation)
    requires k <= 5 && k <= n <= k + 1 && i <= n && PoolAlloc(a, i)
    ensures var turn := PassFrom(LoopNames(k + 1), seq(k + 1, _ => Pool(n)), slug, 0, i, a);
            turn.goOn && PoolAlloc(turn.next, n)
    decreases k + 1 - i
  {
    if i < k + 1 {
      PoolOfLoop(a.log, i, i);
      PoolTurn(a, i, n, slug);
      if i < n {
        PoolPass(k, n, slug, i + 1, AllocateOne(Xs(i), Pool(n), a, slug).next);
      } else {
        assert PassFrom(LoopNames(k + 1), seq(k + 1, _ => Pool(n)), slug, 0, i + 1, a) == Turn(true, a);
      }
    }
  }

  /** With k <= 5 the (k+1)-st loop's hit is lost when the lists are cut to k. */
  lemma {:induction false} ShortCutLoses(k: nat)
    requires k < HITS_TOTAL
    ensures !CutIsHarmless(k)
  {
    var loops, found := LoopNames(k + 1), seq(k + 1, _ => Pool(k + 1));
    PoolCost(k + 1, "");
    assert AllDistinct(found);
    CutPool(k);
    PoolPass(k, k + 1, "", 0, START);
    PoolKeeps(loops, found, k + 1);
    PoolNever(loops, CutAll(found, k), k);
    assert Eager(loops, found, "") != Eager(loops, CutAll(found, k), "");
  }

  lemma {:induction false} CutPool(k: nat)
    ensures CutAll(seq(k + 1, _ => Pool(k + 1)), k) == seq(k + 1, _ => Pool(k))
  {
    assert Cut(Pool(k + 1), k) == Pool(k);
  }

  /** The full lists show hit n - 1, the cut ones never do. */
  lemma {:induction false} PoolKeeps(loops: seq<string>, found: seq<seq<Hit>>, n: nat)
    requires |found| == |loops| && n > 0
    requires var turn := PassFrom(loops, found, "", 0, 0, START); turn.goOn && PoolAlloc(turn.next, n)
    ensures |Eager(loops, found, "")| >= n && Eager(loops, found, "")[n - 1].hit == PoolHit(n - 1)
  {
    StartIsSound("");
    PassIsSound(loops, found, "", 0, 0, START);
    var one := PassFrom(loops, found, "", 0, 0, START);
    PassIsSound(loops, found, "", 1, 0, one.next);
    var two := PassFrom(loops, found, "", 1, 0, one.next);
    assert RoundsFrom(loops, found, "", 1, 0, one.next) == two.next by {
      assert RoundsFrom(loops, found, "", 2, 0, two.next) == two.next;
    }
  }

  lemma {:induction false} PoolNever(loops: seq<string>, found: seq<seq<Hit>>, k: nat)
    requires |found| == |loops| && forall i :: 0 <= i < |found| ==> found[i] == Pool(k)
    ensures forall s :: s in Eager(loops, found, "") ==> s.hit != PoolHit(k)
  {
    StartIsSound("");
    OnlyCandidates(loops, found, k, 0, 0, START);
    var one := PassFrom(loops, found, "", 0, 0, START);
    PassIsSound(loops, found, "", 0, 0, START);
    OnlyCandidates(loops, found, k, 1, 0, one.next);
    var two := PassFrom(loops, found, "", 1, 0, one.next);
    assert RoundsFrom(loops, found, "", 2, 0, two.next) == two.next;
  }

  lemma {:induction false} LogStaysInPool(log: seq<Shown>, next: seq<Shown>, k: nat)
    requires log <= next && forall s :: s in log ==> s.hit != PoolHit(k)
    requires forall j :: |log| <= j < |next| ==> next[j].hit in Pool(k)
    ensures forall s :: s in next ==> s.hit != PoolHit(k)
  {
    forall j | 0 <= j < |next| ensures next[j].hit != PoolHit(k) {
      if j < |log| {
        assert next[j] == log[j];
      } else {
        var pool := Pool(k);
        var p :| 0 <= p < |pool| && pool[p] == next[j].hit;
        assert pool[p] == PoolHit(p) && |Xs(p)| != |Xs(k)|;
      }
    }
  }

  lemma {:induction false} OnlyCandidates(
    loops: seq<string>, found: seq<seq<Hit>>, k: nat, pass: nat, i: nat, a: Allocation)
    requires |found| == |loops| && forall j :: 0 <= j < |found| ==> found[j] == Pool(k)
    requires Sound(a, "") && forall s :: s in a.log ==> s.hit != PoolHit(k)
    ensures forall s :: s in PassFrom(loops, found, "", pass, i, a).next.log ==> s.hit != PoolHit(k)
    decreases |loops| - i
  {
    if i < |loops| {
      if |OfLoop(a.log, loops[i])| != pass {
        OnlyCandidates(loops, found, k, pass, i + 1, a);
      } else {
        TurnIsSound(loops[i], found[i], a, "");
        var turn := AllocateOne(loops[i], found[i], a, "");
        LogStaysInPool(a.log, turn.next.log, k);
        OnlyCandidates(loops, found, k, pass, i + 1, turn.next);
      }
    }
  }

  /** Cutting every list of distinct refs to k never changes the result exactly when k is at least six. */
  lemma {:induction false} CutIsHarmlessIff(k: nat)
    ensures CutIsHarmless(k) <==> k >= HITS_TOTAL
  {
    if k >= HITS_TOTAL {
      forall loops, found, slug | |found| == |loops| && AllDistinct(found)
        ensures Eager(loops, CutAll(found, k), slug) == Eager(loops, found, slug)
      {
        StartIsSound(slug);
        CutRounds(loops, found, slug, k, 0, START);
      }
    } else {
      ShortCutLoses(k);
    }
  }
}
