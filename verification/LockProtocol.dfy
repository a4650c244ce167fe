/** Several locks at once. */
module LockProtocol {
  // applyLocked in src/commands/focus.ts, unfocus.ts and pause.ts, withFileLock in src/utils/fs-
  // atomic.ts, as a state machine over any number of processes.

  import opened Prelude
  import opened LockOrder

  /**
   * Where a process is in its nested withFileLock calls. `top` is the number of
   * locks it had taken when it turned back: all of them, or fewer after a timeout.
   */
  datatype Phase =
    | Acquiring(next: nat)
    | Working
    | Releasing(left: nat, top: nat)
    | Finished(top: nat)
    | Crashed

  datatype Process = Process(order: seq<string>, phase: Phase)

  /** The processes, and the lock directory: which process holds each taken lock. */
  datatype System = System(procs: seq<Process>, owner: map<string, nat>)

  datatype Step =
    | Acquire(p: nat)
    | Enter(p: nat)
    | Work(p: nat)
    | GiveUp(p: nat)
    | Release(p: nat)
    | Leave(p: nat)
    | Crash(p: nat)
    | Expire(lock: string)
    | Reclaim(lock: string)

  predicate Live(s: System, p: nat) {
    p < |s.procs| && !s.procs[p].phase.Crashed?
  }

  predicate Waiting(s: System, p: nat) {
    && p < |s.procs| && s.procs[p].phase.Acquiring?
    && s.procs[p].phase.next < |s.procs[p].order|
  }

  function Wanted(s: System, p: nat): string
    requires Waiting(s, p)
  {
    s.procs[p].order[s.procs[p].phase.next]
  }

  /** Which steps can happen. Giving up needs a busy lock; a lock expires once its holder crashed,
      and may be reclaimed from a live one that did not refresh it in time. */
  predicate Enabled(s: System, step: Step) {
    match step
    case Acquire(p) => Waiting(s, p) && Wanted(s, p) !in s.owner
    case Enter(p) => p < |s.procs| && s.procs[p].phase == Acquiring(|s.procs[p].order|)
    case Work(p) => p < |s.procs| && s.procs[p].phase.Working?
    case GiveUp(p) => Waiting(s, p) && Wanted(s, p) in s.owner
    case Release(p) =>
      && p < |s.procs| && s.procs[p].phase.Releasing?
      && 0 < s.procs[p].phase.left <= |s.procs[p].order|
    case Leave(p) => p < |s.procs| && s.procs[p].phase.Releasing? && s.procs[p].phase.left == 0
    case Crash(p) => Live(s, p) && !s.procs[p].phase.Finished?
    case Expire(lock) => lock in s.owner && s.owner[lock] < |s.procs| && s.procs[s.owner[lock]].phase.Crashed?
    case Reclaim(lock) => lock in s.owner && Live(s, s.owner[lock])
  }

  /** The lock directory without `lock`, if it is `p` that holds it. */
  function Dropped(owner: map<string, nat>, lock: string, p: nat): map<string, nat> {
    if lock in owner && owner[lock] == p then owner - {lock} else owner
  }

  function Goto(s: System, p: nat, phase: Phase): System
    requires p < |s.procs|
  {
    s.(procs := s.procs[p := s.procs[p].(phase := phase)])
  }

  function Next(s: System, step: Step): System
    requires Enabled(s, step)
  {
    match step
    case Acquire(p) =>
      Goto(s, p, Acquiring(s.procs[p].phase.next + 1)).(owner := s.owner[Wanted(s, p) := p])
    case Enter(p) => Goto(s, p, Working)
    case Work(p) => Goto(s, p, Releasing(|s.procs[p].order|, |s.procs[p].order|))
    case GiveUp(p) => Goto(s, p, Releasing(s.procs[p].phase.next, s.procs[p].phase.next))
    case Release(p) =>
      var left := s.procs[p].phase.left - 1;
      Goto(s, p, Releasing(left, s.procs[p].phase.top)).(owner := Dropped(s.owner, s.procs[p].order[left], p))
    case Leave(p) => Goto(s, p, Finished(s.procs[p].phase.top))
    case Crash(p) => Goto(s, p, Crashed)
    case Expire(lock) => s.(owner := s.owner - {lock})
    case Reclaim(lock) => s.(owner := s.owner - {lock})
  }

  function Start(needs: seq<seq<string>>): System {
    System(seq(|needs|, p requires 0 <= p < |needs| => Process(SortSlugs(needs[p]), Acquiring(0))), map[])
  }

  /** `steps` can happen one after the other from `s`. */
  predicate Possible(s: System, steps: seq<Step>)
    decreases |steps|
  {
    steps == [] || (Enabled(s, steps[0]) && Possible(Next(s, steps[0]), steps[1..]))
  }

  function After(s: System, steps: seq<Step>): System
    requires Possible(s, steps)
    decreases |steps|
  {
    if steps == [] then s else After(Next(s, steps[0]), steps[1..])
  }

  // --- Locks held and processes agree -------------------------------------------

  /** How many locks, from the first, a live process holds. */
  function Held(proc: Process): nat {
    match proc.phase
    case Acquiring(next) => next
    case Working => |proc.order|
    case Releasing(left, _) => left
    case Finished(_) => 0
    case Crashed => 0
  }

  ghost predicate WellPlaced(proc: Process) {
    && Ascending(proc.order)
    && Held(proc) <= |proc.order|
    && (proc.phase.Releasing? ==> proc.phase.left <= proc.phase.top <= |proc.order|)
    && (proc.phase.Finished? ==> proc.phase.top <= |proc.order|)
  }

  /** What a live process owns is among the locks of its nested calls. */
  ghost predicate InItsPrefix(s: System, lock: string)
    requires lock in s.owner
  {
    s.owner[lock] < |s.procs|
    && var proc := s.procs[s.owner[lock]];
       WellPlaced(proc) && (proc.phase.Crashed? || lock in proc.order[..Held(proc)])
  }

  ghost predicate Inv(s: System) {
    && (forall p :: 0 <= p < |s.procs| ==> WellPlaced(s.procs[p]))
    && (forall lock :: lock in s.owner ==> InItsPrefix(s, lock))
  }

  /** A live process owns all locks of its nested calls. */
  ghost predicate OwnsItsPrefix(s: System, p: nat)
    requires p < |s.procs| && WellPlaced(s.procs[p])
  {
    forall lock :: lock in s.procs[p].order[..Held(s.procs[p])] ==> lock in s.owner && s.owner[lock] == p
  }

  /** No live process has lost a lock. */
  ghost predicate NoneLost(s: System)
    requires Inv(s)
  {
    forall p :: 0 <= p < |s.procs| && !s.procs[p].phase.Crashed? ==> OwnsItsPrefix(s, p)
  }

  lemma {:induction false} StartKeepsInv(needs: seq<seq<string>>)
    ensures Inv(Start(needs)) && NoneLost(Start(needs))
  {
    forall p | 0 <= p < |needs| ensures WellPlaced(Start(needs).procs[p]) {
      SortSlugsSorts(needs[p]);
    }
  }

  /** A lock of an ascending list is not among the locks before it. */
  lemma {:induction false} NotBefore(xs: seq<string>, k: nat)
    requires Ascending(xs) && k < |xs|
    ensures xs[k] !in xs[..k]
    ensures forall x :: x in xs[..k + 1] <==> x in xs[..k] || x == xs[k]
  {
    if xs[k] in xs[..k] {
      LessIsStrict(xs[k]);
    }
    assert xs[..k + 1] == xs[..k] + [xs[k]];
  }

  lemma {:induction false} StepKeepsPlaces(s: System, step: Step, p: nat)
    requires Inv(s) && Enabled(s, step) && p < |s.procs|
    ensures |Next(s, step).procs| == |s.procs| && WellPlaced(Next(s, step).procs[p])
  {
    assert WellPlaced(s.procs[p]);
  }

  lemma {:induction false} ReleaseKeepsHeld(s: System, p: nat, lock: string)
    requires Inv(s) && Enabled(s, Release(p)) && lock in Next(s, Release(p)).owner
    ensures InItsPrefix(Next(s, Release(p)), lock)
  {
    assert InItsPrefix(s, lock) && WellPlaced(s.procs[p]);
    NotBefore(s.procs[p].order, s.procs[p].phase.left - 1);
  }

  lemma {:induction false} AcquireKeepsHeld(s: System, p: nat, lock: string)
    requires Inv(s) && Enabled(s, Acquire(p)) && lock in Next(s, Acquire(p)).owner
    ensures InItsPrefix(Next(s, Acquire(p)), lock)
  {
    assert WellPlaced(s.procs[p]);
    NotBefore(s.procs[p].order, s.procs[p].phase.next);
    if lock != Wanted(s, p) {
      assert InItsPrefix(s, lock);
    }
  }

  lemma {:induction false} StepKeepsHeld(s: System, step: Step, lock: string)
    requires Inv(s) && Enabled(s, step) && lock in Next(s, step).owner
    ensures InItsPrefix(Next(s, step), lock)
  {
    match step
    case Acquire(p) => AcquireKeepsHeld(s, p, lock);
    case Release(p) => ReleaseKeepsHeld(s, p, lock);
    case _ => assert InItsPrefix(s, lock);
  }

  /** Whatever happens, reclaiming included, no lock is held outside its holder's nested calls. */
  lemma {:induction false} StepKeepsInv(s: System, step: Step)
    requires Inv(s) && Enabled(s, step)
    ensures |Next(s, step).procs| == |s.procs| && Inv(Next(s, step))
  {
    forall p | 0 <= p < |s.procs|
      ensures |Next(s, step).procs| == |s.procs| && WellPlaced(Next(s, step).procs[p])
    {
      StepKeepsPlaces(s, step, p);
    }
    forall lock | lock in Next(s, step).owner ensures InItsPrefix(Next(s, step), lock) {
      StepKeepsHeld(s, step, lock);
    }
  }

  lemma {:induction false} RunKeepsInv(s: System, steps: seq<Step>)
    requires Inv(s) && Possible(s, steps)
    ensures Inv(After(s, steps))
    decreases |steps|
  {
    if steps != [] {
      StepKeepsInv(s, steps[0]);
      RunKeepsInv(Next(s, steps[0]), steps[1..]);
    }
  }

  // --- Exclusion --------------------------------------------------------------------

  /** If `lock` is among the locks of p's nested calls and p is live, p owns it. */
  ghost predicate OwnsOne(s: System, p: nat, lock: string)
    requires p < |s.procs| && WellPlaced(s.procs[p])
  {
    !s.procs[p].phase.Crashed? && lock in s.procs[p].order[..Held(s.procs[p])] ==>
      lock in s.owner && s.owner[lock] == p
  }

  lemma {:induction false} AcquireKeepsOne(s: System, q: nat, p: nat, lock: string)
    requires Inv(s) && Enabled(s, Acquire(q)) && p < |s.procs| && WellPlaced(s.procs[p]) && OwnsOne(s, p, lock)
    requires var t := Next(s, Acquire(q)); |t.procs| == |s.procs| && WellPlaced(t.procs[p])
    ensures OwnsOne(Next(s, Acquire(q)), p, lock)
  {
    if p == q {
      NotBefore(s.procs[p].order, s.procs[p].phase.next);
    }
  }

  lemma {:induction false} ReleaseKeepsOne(s: System, q: nat, p: nat, lock: string)
    requires Inv(s) && Enabled(s, Release(q)) && p < |s.procs| && WellPlaced(s.procs[p]) && OwnsOne(s, p, lock)
    requires var t := Next(s, Release(q)); |t.procs| == |s.procs| && WellPlaced(t.procs[p])
    ensures OwnsOne(Next(s, Release(q)), p, lock)
  {
    if p == q {
      NotBefore(s.procs[p].order, s.procs[p].phase.left - 1);
    }
  }

  /** Only the reclaim of a lock takes that lock from a live process. */
  lemma {:induction false} StepKeepsOne(s: System, step: Step, p: nat, lock: string)
    requires Inv(s) && Enabled(s, step) && step != Reclaim(lock)
    requires p < |s.procs| && WellPlaced(s.procs[p]) && OwnsOne(s, p, lock)
    requires |Next(s, step).procs| == |s.procs| && WellPlaced(Next(s, step).procs[p])
    ensures OwnsOne(Next(s, step), p, lock)
  {
    match step
    case Acquire(q) => AcquireKeepsOne(s, q, p, lock);
    case Release(q) => ReleaseKeepsOne(s, q, p, lock);
    case _ =>
  }

  lemma {:induction false} StepKeepsPrefix(s: System, step: Step, p: nat)
    requires Inv(s) && NoneLost(s) && Enabled(s, step) && !step.Reclaim? && p < |s.procs|
    requires |Next(s, step).procs| == |s.procs| && WellPlaced(Next(s, step).procs[p])
    requires !Next(s, step).procs[p].phase.Crashed?
    ensures OwnsItsPrefix(Next(s, step), p)
  {
    var t := Next(s, step);
    assert WellPlaced(s.procs[p]);
    forall lock | lock in t.procs[p].order[..Held(t.procs[p])] ensures lock in t.owner && t.owner[lock] == p {
      assert !s.procs[p].phase.Crashed? ==> OwnsItsPrefix(s, p);
      StepKeepsOne(s, step, p, lock);
      assert OwnsOne(t, p, lock);
    }
  }

  /** A live process loses a lock exactly when one is reclaimed. */
  lemma {:induction false} LostIffReclaimed(s: System, step: Step)
    requires Inv(s) && NoneLost(s) && Enabled(s, step)
    ensures Inv(Next(s, step)) && (NoneLost(Next(s, step)) <==> !step.Reclaim?)
  {
    var t := Next(s, step);
    StepKeepsInv(s, step);
    if step.Reclaim? {
      var p := s.owner[step.lock];
      assert InItsPrefix(s, step.lock) && WellPlaced(s.procs[p]);
      assert t.procs[p] == s.procs[p] && step.lock !in t.owner;
      assert !OwnsItsPrefix(t, p);
    } else {
      forall p | 0 <= p < |t.procs| && !t.procs[p].phase.Crashed? ensures OwnsItsPrefix(t, p) {
        StepKeepsPrefix(s, step, p);
      }
    }
  }

  ghost predicate NeverReclaimed(steps: seq<Step>) {
    forall step :: step in steps ==> !step.Reclaim?
  }

  lemma {:induction false} RunLosesNone(s: System, steps: seq<Step>)
    requires Inv(s) && NoneLost(s) && Possible(s, steps) && NeverReclaimed(steps)
    ensures Inv(After(s, steps)) && NoneLost(After(s, steps))
    decreases |steps|
  {
    if steps != [] {
      assert steps[0] in steps;
      LostIffReclaimed(s, steps[0]);
      RunLosesNone(Next(s, steps[0]), steps[1..]);
    }
  }

  /** Over any run without a reclaim of this one lock, it stays with whom it belongs to. */
  lemma {:induction false} RunKeepsOne(s: System, steps: seq<Step>, p: nat, lock: string)
    requires Inv(s) && Possible(s, steps) && Reclaim(lock) !in steps
    requires p < |s.procs| && WellPlaced(s.procs[p]) && OwnsOne(s, p, lock)
    ensures var t := After(s, steps);
            |t.procs| == |s.procs| && WellPlaced(t.procs[p]) && OwnsOne(t, p, lock)
    decreases |steps|
  {
    if steps != [] {
      assert steps[0] in steps;
      StepKeepsInv(s, steps[0]);
      StepKeepsOne(s, steps[0], p, lock);
      RunKeepsOne(Next(s, steps[0]), steps[1..], p, lock);
    }
  }

  predicate AtWork(s: System, p: nat) {
    p < |s.procs| && s.procs[p].phase.Working?
  }

  /** A process at work owns each of its locks that was never reclaimed. */
  lemma {:induction false} WorkerOwns(needs: seq<seq<string>>, steps: seq<Step>, p: nat, lock: string)
    requires Possible(Start(needs), steps) && Reclaim(lock) !in steps && p < |needs| && lock in needs[p]
    requires AtWork(After(Start(needs), steps), p)
    ensures var s := After(Start(needs), steps); lock in s.owner && s.owner[lock] == p
  {
    var s := After(Start(needs), steps);
    StartKeepsInv(needs);
    OrdersStay(Start(needs), steps);
    SortSlugsSorts(needs[p]);
    assert WellPlaced(Start(needs).procs[p]);
    RunKeepsOne(Start(needs), steps, p, lock);
    assert s.procs[p].order[..|s.procs[p].order|] == s.procs[p].order;
  }

  /**
   * So long as one slug they share is not reclaimed, two processes are never both at
   * work: whatever crashes, times out or is reclaimed beside it.
   */
  lemma {:induction false} MutualExclusion(needs: seq<seq<string>>, steps: seq<Step>, p: nat, q: nat, lock: string)
    requires Possible(Start(needs), steps) && Reclaim(lock) !in steps
    requires p < |needs| && q < |needs| && p != q && lock in needs[p] && lock in needs[q]
    ensures var s := After(Start(needs), steps);
            |s.procs| == |needs| && !(AtWork(s, p) && AtWork(s, q))
  {
    var s := After(Start(needs), steps);
    OrdersStay(Start(needs), steps);
    if AtWork(s, p) && AtWork(s, q) {
      WorkerOwns(needs, steps, p, lock);
      WorkerOwns(needs, steps, q, lock);
    }
  }

  /** Each lock that is reclaimed is one of `slow`, those a live holder may be late to refresh. */
  ghost predicate ReclaimsAmong(steps: seq<Step>, slow: set<string>) {
    forall step :: step in steps && step.Reclaim? ==> step.lock in slow
  }

  /** What process `q` still wants is free, or may be reclaimed from a live process. */
  ghost predicate CanClimb(s: System, q: nat, slow: set<string>) {
    && q < |s.procs| && s.procs[q].phase.Acquiring?
    && forall k :: s.procs[q].phase.next <= k < |s.procs[q].order| && s.procs[q].order[k] in s.owner ==>
         Live(s, s.owner[s.procs[q].order[k]]) && s.procs[q].order[k] in slow
  }

  /** The steps lead from `s` to where `q` is at work and every other process is where it was. */
  ghost predicate GetsToWork(s: System, q: nat, slow: set<string>, steps: seq<Step>) {
    && q < |s.procs| && Possible(s, steps) && ReclaimsAmong(steps, slow)
    && After(s, steps).procs == s.procs[q := s.procs[q].(phase := Working)]
  }

  lemma {:induction false} StepThenWork(s: System, q: nat, slow: set<string>, step: Step, rest: seq<Step>)
    requires q < |s.procs| && Enabled(s, step) && (step.Reclaim? ==> step.lock in slow)
    requires GetsToWork(Next(s, step), q, slow, rest) && |Next(s, step).procs| == |s.procs|
    requires forall p :: 0 <= p < |s.procs| && p != q ==> Next(s, step).procs[p] == s.procs[p]
    requires Next(s, step).procs[q].order == s.procs[q].order
    ensures GetsToWork(s, q, slow, [step] + rest)
  {
    var steps := [step] + rest;
    assert steps[1..] == rest && steps[0] == step;
    assert After(s, steps) == After(Next(s, step), rest);
  }

  /** Where its locks are free, taken by the slow or its own, a process gets to work beside the others. */
  lemma {:induction false} ReclaimLetsIn(s: System, q: nat, slow: set<string>) returns (steps: seq<Step>)
    requires Inv(s) && CanClimb(s, q, slow)
    ensures GetsToWork(s, q, slow, steps)
    decreases |s.procs[q].order| - s.procs[q].phase.next, if Waiting(s, q) && Wanted(s, q) in s.owner then 1 else 0
  {
    assert WellPlaced(s.procs[q]);
    var step :=
      if !Waiting(s, q) then Enter(q) else if Wanted(s, q) in s.owner then Reclaim(Wanted(s, q)) else Acquire(q);
    var rest: seq<Step> := [];
    if Waiting(s, q) {
      StepKeepsInv(s, step);
      StaysClimbing(s, q, slow, step);
      rest := ReclaimLetsIn(Next(s, step), q, slow);
    }
    StepThenWork(s, q, slow, step, rest);
    steps := [step] + rest;
  }

  lemma {:induction false} StaysClimbing(s: System, q: nat, slow: set<string>, step: Step)
    requires Inv(s) && CanClimb(s, q, slow) && Waiting(s, q)
    requires step == if Wanted(s, q) in s.owner then Reclaim(Wanted(s, q)) else Acquire(q)
    ensures Enabled(s, step) && CanClimb(Next(s, step), q, slow)
  {
    assert WellPlaced(s.procs[q]);
    var k := s.procs[q].phase.next;
    forall i | k < i < |s.procs[q].order| ensures s.procs[q].order[i] != s.procs[q].order[k] {
      LessIsStrict(s.procs[q].order[k]);
    }
  }

  /** Of processes that still wait, none owns a lock: what is owned is in the order of the one that went on. */
  lemma {:induction false} OwnedByTheFirst(needs: seq<seq<string>>, s: System, p: nat, lock: string)
    requires Inv(s) && p < |needs| && lock in s.owner
    requires s.procs == Start(needs).procs[p := Start(needs).procs[p].(phase := Working)]
    ensures s.owner[lock] == p && lock in needs[p]
  {
    assert InItsPrefix(s, lock);
    SortSlugsSorts(needs[p]);
  }

  /** When each slug two processes share may be reclaimed, a run from the start has both at work. */
  lemma {:induction false} BothGetToWork(needs: seq<seq<string>>, p: nat, q: nat, slow: set<string>)
    returns (steps: seq<Step>)
    requires p < |needs| && q < |needs| && p != q
    requires forall lock :: lock in needs[p] && lock in needs[q] ==> lock in slow
    ensures Possible(Start(needs), steps) && ReclaimsAmong(steps, slow)
    ensures AtWork(After(Start(needs), steps), p) && AtWork(After(Start(needs), steps), q)
  {
    var start := Start(needs);
    StartKeepsInv(needs);
    var first := ReclaimLetsIn(start, p, slow);
    var s := After(start, first);
    RunKeepsInv(start, first);
    SortSlugsSorts(needs[q]);
    forall k | 0 <= k < |s.procs[q].order| && s.procs[q].order[k] in s.owner
      ensures Live(s, s.owner[s.procs[q].order[k]]) && s.procs[q].order[k] in slow
    {
      OwnedByTheFirst(needs, s, p, s.procs[q].order[k]);
    }
    var second := ReclaimLetsIn(s, q, slow);
    RunsJoin(start, first, second);
    steps := first + second;
  }

  lemma {:induction false} RunsJoin(s: System, first: seq<Step>, second: seq<Step>)
    requires Possible(s, first) && Possible(After(s, first), second)
    ensures Possible(s, first + second) && After(s, first + second) == After(After(s, first), second)
    decreases |first|
  {
    if first == [] {
      assert first + second == second;
    } else {
      RunsJoin(Next(s, first[0]), first[1..], second);
      assert (first + second)[1..] == first[1..] + second;
    }
  }

  /** No run that reclaims only slow locks has both processes at work. */
  ghost predicate Exclusive(needs: seq<seq<string>>, p: nat, q: nat, slow: set<string>) {
    forall steps :: Possible(Start(needs), steps) && ReclaimsAmong(steps, slow) ==>
      !(AtWork(After(Start(needs), steps), p) && AtWork(After(Start(needs), steps), q))
  }

  /** Two processes exclude each other exactly when they share a slug whose lock is never reclaimed. */
  lemma {:induction false} ExclusiveIff(needs: seq<seq<string>>, p: nat, q: nat, slow: set<string>)
    requires p < |needs| && q < |needs| && p != q
    ensures Exclusive(needs, p, q, slow) <==>
            exists lock :: lock in needs[p] && lock in needs[q] && lock !in slow
  {
    if lock :| lock in needs[p] && lock in needs[q] && lock !in slow {
      forall steps | Possible(Start(needs), steps) && ReclaimsAmong(steps, slow)
        ensures !(AtWork(After(Start(needs), steps), p) && AtWork(After(Start(needs), steps), q))
      {
        assert Reclaim(lock).lock !in slow;
        MutualExclusion(needs, steps, p, q, lock);
      }
    } else {
      var steps := BothGetToWork(needs, p, q, slow);
      assert AtWork(After(Start(needs), steps), p) && AtWork(After(Start(needs), steps), q);
    }
  }

  lemma {:induction false} OneThenRest(s: System, step: Step, rest: seq<Step>)
    requires Enabled(s, step) && Possible(Next(s, step), rest)
    ensures Possible(s, [step] + rest) && After(s, [step] + rest) == After(Next(s, step), rest)
  {
    assert ([step] + rest)[1..] == rest;
  }

  /** Two processes that need the same one slug: the first is late to refresh it, and both are at work. */
  lemma {:induction false} LateHolderIsJoined()
    ensures var steps := [Acquire(0), Enter(0), Reclaim("a"), Acquire(1), Enter(1)];
            && Possible(Start([["a"], ["a"]]), steps)
            && AtWork(After(Start([["a"], ["a"]]), steps), 0) && AtWork(After(Start([["a"], ["a"]]), steps), 1)
  {
    assert ["a"][..0] == [] && SortSlugs(["a"]) == ["a"];
    var s0 := Start([["a"], ["a"]]);
    assert s0 == System([Process(["a"], Acquiring(0)), Process(["a"], Acquiring(0))], map[]);
    var s1 := Next(s0, Acquire(0));
    var s2 := Next(s1, Enter(0));
    var s3 := Next(s2, Reclaim("a"));
    var s4 := Next(s3, Acquire(1));
    OneThenRest(s4, Enter(1), []);
    OneThenRest(s3, Acquire(1), [Enter(1)]);
    OneThenRest(s2, Reclaim("a"), [Acquire(1), Enter(1)]);
    OneThenRest(s1, Enter(0), [Reclaim("a"), Acquire(1), Enter(1)]);
    OneThenRest(s0, Acquire(0), [Enter(0), Reclaim("a"), Acquire(1), Enter(1)]);
  }

  lemma {:induction false} OrdersStay(s: System, steps: seq<Step>)
    requires Possible(s, steps)
    ensures |After(s, steps).procs| == |s.procs|
    ensures forall p :: 0 <= p < |s.procs| ==> After(s, steps).procs[p].order == s.procs[p].order
    decreases |steps|
  {
    if steps != [] {
      OrdersStay(Next(s, steps[0]), steps[1..]);
    }
  }

  // --- No deadlock ---------------------------------------------------------------

  ghost predicate AllOver(s: System) {
    && s.owner == map[]
    && forall p :: 0 <= p < |s.procs| ==> s.procs[p].phase.Finished? || s.procs[p].phase.Crashed?
  }

  /** A step other than a timeout, a crash or the loss of a live holder's lock. */
  predicate Ordinary(step: Step) {
    !step.GiveUp? && !step.Crash? && !step.Reclaim?
  }

  /** The waiting process, among the first n, whose wanted lock is the greatest. */
  lemma {:induction false} GreatestWaiter(s: System, n: nat) returns (best: Option<nat>)
    requires n <= |s.procs|
    ensures best.None? ==> forall q :: 0 <= q < n ==> !Waiting(s, q)
    ensures best.Some? ==> Waiting(s, best.value)
    ensures best.Some? ==> forall q :: 0 <= q < n && Waiting(s, q) ==> !Less(Wanted(s, best.value), Wanted(s, q))
  {
    best := None;
    for i := 0 to n
      invariant best.None? ==> forall q :: 0 <= q < i ==> !Waiting(s, q)
      invariant best.Some? ==> Waiting(s, best.value)
      invariant best.Some? ==> forall q :: 0 <= q < i && Waiting(s, q) ==> !Less(Wanted(s, best.value), Wanted(s, q))
    {
      if Waiting(s, i) {
        LessIsStrict(Wanted(s, i));
        if best.None? {
          best := Some(i);
        } else if Less(Wanted(s, best.value), Wanted(s, i)) {
          forall q | 0 <= q < i && Waiting(s, q) ensures !Less(Wanted(s, i), Wanted(s, q)) {
            if Less(Wanted(s, i), Wanted(s, q)) {
              LessIsTransitive(Wanted(s, best.value), Wanted(s, i), Wanted(s, q));
            }
          }
          best := Some(i);
        }
      }
    }
  }

  /** The holder of a busy lock waits, if it waits at all, for a greater one. */
  lemma {:induction false} HolderWaitsHigher(s: System, p: nat)
    requires Inv(s) && Waiting(s, p) && Wanted(s, p) in s.owner
    ensures var q := s.owner[Wanted(s, p)];
            q < |s.procs| && (Waiting(s, q) ==> Less(Wanted(s, p), Wanted(s, q)))
  {
    var q := s.owner[Wanted(s, p)];
    assert InItsPrefix(s, Wanted(s, p));
    if Waiting(s, q) {
      var order := s.procs[q].order;
      var i :| 0 <= i < Held(s.procs[q]) && order[..Held(s.procs[q])][i] == Wanted(s, p);
      assert order[i] == Wanted(s, p);
    }
  }

  /** Every reachable state with something left to do has an ordinary step that can happen. */
  lemma {:induction false} NeverStuck(s: System) returns (step: Step)
    requires Inv(s) && !AllOver(s)
    ensures Enabled(s, step) && Ordinary(step)
  {
    if p :| 0 <= p < |s.procs| && s.procs[p].phase.Working? {
      return Work(p);
    }
    if p :| 0 <= p < |s.procs| && s.procs[p].phase.Releasing? {
      assert WellPlaced(s.procs[p]);
      return if s.procs[p].phase.left == 0 then Leave(p) else Release(p);
    }
    if lock :| lock in s.owner && s.procs[s.owner[lock]].phase.Crashed? {
      return Expire(lock);
    }
    if p :| 0 <= p < |s.procs| && s.procs[p].phase.Acquiring? && !Waiting(s, p) {
      assert WellPlaced(s.procs[p]);
      return Enter(p);
    }
    var best := GreatestWaiter(s, |s.procs|);
    if best.Some? && Wanted(s, best.value) !in s.owner {
      return Acquire(best.value);
    }
    forall lock | lock in s.owner ensures Waiting(s, s.owner[lock]) {
      HolderIsLiveHolder(s, lock);
    }
    if best.Some? {
      HolderWaitsHigher(s, best.value);
    }
    assert false;
  }

  lemma {:induction false} HolderIsLiveHolder(s: System, lock: string)
    requires Inv(s) && lock in s.owner && s.owner[lock] < |s.procs| && !s.procs[s.owner[lock]].phase.Crashed?
    ensures !s.procs[s.owner[lock]].phase.Finished?
  {
    assert InItsPrefix(s, lock);
  }

  // --- Every run ends ----------------------------------------------------------------

  /** Bounds the steps a process can still take. */
  function Weight(proc: Process): int {
    match proc.phase
    case Acquiring(next) => 3 * |proc.order| - 2 * next + 3
    case Working => |proc.order| + 2
    case Releasing(left, _) => left + 1
    case Finished(_) => 0
    case Crashed => 0
  }

  function Weights(procs: seq<Process>): int {
    if procs == [] then 0 else Weight(procs[0]) + Weights(procs[1..])
  }

  function Measure(s: System): int {
    Weights(s.procs) + |s.owner|
  }

  lemma {:induction false} WeightsUpdate(procs: seq<Process>, p: nat, proc: Process)
    requires p < |procs|
    ensures Weights(procs[p := proc]) == Weights(procs) - Weight(procs[p]) + Weight(proc)
  {
    if p == 0 {
      assert procs[p := proc][1..] == procs[1..];
    } else {
      assert procs[p := proc][1..] == procs[1..][p - 1 := proc];
      WeightsUpdate(procs[1..], p - 1, proc);
    }
  }

  lemma {:induction false} WeightsPositive(procs: seq<Process>)
    requires forall p :: 0 <= p < |procs| ==> WellPlaced(procs[p])
    ensures Weights(procs) >= 0
  {
    if procs != [] {
      assert WellPlaced(procs[0]);
      WeightsPositive(procs[1..]);
    }
  }

  lemma {:induction false} RemoveShrinks(owner: map<string, nat>, lock: string)
    requires lock in owner
    ensures |owner - {lock}| == |owner| - 1
  {
    assert (owner - {lock}).Keys == owner.Keys - {lock};
    assert |(owner - {lock}).Keys| == |owner.Keys| - 1;
  }

  lemma {:induction false} AddGrows(owner: map<string, nat>, lock: string, p: nat)
    requires lock !in owner
    ensures |owner[lock := p]| == |owner| + 1
  {
    assert owner[lock := p] - {lock} == owner;
    RemoveShrinks(owner[lock := p], lock);
  }

  /** The lock directory gains a lock on Acquire, loses one on Expire and Reclaim, at most one on Release. */
  lemma {:induction false} OwnerChange(s: System, step: Step)
    requires Inv(s) && Enabled(s, step)
    ensures |Next(s, step).owner| <= |s.owner| +
      (if step.Acquire? then 1 else if step.Expire? || step.Reclaim? then -1 else 0)
  {
    match step
    case Expire(lock) => RemoveShrinks(s.owner, lock);
    case Reclaim(lock) => RemoveShrinks(s.owner, lock);
    case Acquire(p) => AddGrows(s.owner, Wanted(s, p), p);
    case Release(p) =>
      var lock := s.procs[p].order[s.procs[p].phase.left - 1];
      if lock in s.owner {
        RemoveShrinks(s.owner, lock);
      }
    case _ =>
  }

  lemma {:induction false} WeightChange(s: System, step: Step)
    requires Inv(s) && Enabled(s, step) && !step.Expire? && !step.Reclaim?
    ensures Weights(Next(s, step).procs) <= Weights(s.procs) - (if step.Acquire? then 2 else 1)
  {
    assert WellPlaced(s.procs[step.p]);
    WeightsUpdate(s.procs, step.p, Next(s, step).procs[step.p]);
  }

  lemma {:induction false} StepDecreases(s: System, step: Step)
    requires Inv(s) && Enabled(s, step)
    ensures 0 <= Measure(Next(s, step)) < Measure(s)
  {
    StepKeepsInv(s, step);
    WeightsPositive(Next(s, step).procs);
    OwnerChange(s, step);
    if !step.Expire? && !step.Reclaim? {
      WeightChange(s, step);
    }
  }

  /** No run is longer than the measure of where it starts. */
  lemma {:induction false} RunsAreShort(s: System, steps: seq<Step>)
    requires Inv(s) && Possible(s, steps)
    ensures |steps| + Measure(After(s, steps)) <= Measure(s) && Measure(After(s, steps)) >= 0
    decreases |steps|
  {
    if steps == [] {
      WeightsPositive(s.procs);
    } else {
      StepDecreases(s, steps[0]);
      StepKeepsInv(s, steps[0]);
      RunsAreShort(Next(s, steps[0]), steps[1..]);
    }
  }

  /** A run that can go no further has ended well: every process over, every lock free. */
  lemma {:induction false} ExhaustedRunsEndFree(needs: seq<seq<string>>, steps: seq<Step>)
    requires Possible(Start(needs), steps)
    ensures (forall step :: Ordinary(step) ==> !Enabled(After(Start(needs), steps), step))
      <==> AllOver(After(Start(needs), steps))
  {
    var s := After(Start(needs), steps);
    StartKeepsInv(needs);
    RunKeepsInv(Start(needs), steps);
    if !AllOver(s) {
      var step := NeverStuck(s);
      assert Ordinary(step) && Enabled(s, step);
    }
  }

  /** From every reachable state, ordinary steps alone can take every process to its end. */
  lemma {:induction false} AllCanFinish(s: System) returns (steps: seq<Step>)
    requires Inv(s)
    ensures Possible(s, steps) && AllOver(After(s, steps))
    ensures forall step :: step in steps ==> Ordinary(step)
    decreases Measure(s)
  {
    if AllOver(s) {
      return [];
    }
    var step := NeverStuck(s);
    StepDecreases(s, step);
    StepKeepsInv(s, step);
    WeightsPositive(s.procs);
    var rest := AllCanFinish(Next(s, step));
    steps := [step] + rest;
    assert steps[1..] == rest;
  }

  /** A process that is still on its way up works before it ends, unless it gives up or crashes. */
  lemma {:induction false} ClimbersGetToWork(s: System, steps: seq<Step>, p: nat)
    requires Inv(s) && Possible(s, steps) && p < |s.procs| && forall step :: step in steps ==> Ordinary(step)
    requires s.procs[p].phase.Acquiring? && p < |After(s, steps).procs| && After(s, steps).procs[p].phase.Finished?
    ensures Work(p) in steps
  {
    if Work(p) !in steps {
      StaysBelow(s, steps, p);
    }
  }

  lemma {:induction false} StaysBelow(s: System, steps: seq<Step>, p: nat)
    requires Possible(s, steps) && p < |s.procs| && Work(p) !in steps
    requires GiveUp(p) !in steps && Crash(p) !in steps
    requires s.procs[p].phase.Acquiring? || s.procs[p].phase.Working?
    ensures |After(s, steps).procs| == |s.procs|
    ensures After(s, steps).procs[p].phase.Acquiring? || After(s, steps).procs[p].phase.Working?
    decreases |steps|
  {
    if steps != [] {
      assert steps[0] in steps;
      StaysBelow(Next(s, steps[0]), steps[1..], p);
    }
  }

  // Why a process gives up: another one holds a lock it needs too.

  /** Each lock is held by a process that needs it, or did when it crashed. */
  ghost predicate HeldForUse(s: System) {
    forall lock :: lock in s.owner ==> s.owner[lock] < |s.procs| && lock in s.procs[s.owner[lock]].order
  }

  lemma {:induction false} StepKeepsUse(s: System, step: Step)
    requires HeldForUse(s) && Enabled(s, step)
    ensures HeldForUse(Next(s, step))
    ensures |Next(s, step).procs| == |s.procs|
    ensures forall p :: 0 <= p < |s.procs| ==> Next(s, step).procs[p].order == s.procs[p].order
  {
  }

  lemma {:induction false} BusyWithAnother(s: System, p: nat)
    requires Inv(s) && HeldForUse(s) && Enabled(s, GiveUp(p))
    ensures exists q: nat :: q < |s.procs| && q != p && exists lock :: lock in s.procs[p].order && lock in s.procs[q].order
  {
    var lock := Wanted(s, p);
    assert InItsPrefix(s, lock) && WellPlaced(s.procs[p]);
    NotBefore(s.procs[p].order, s.procs[p].phase.next);
    assert lock in s.procs[p].order && lock in s.procs[s.owner[lock]].order;
  }

  lemma {:induction false} LoneNeverGivesUp(s: System, steps: seq<Step>, p: nat)
    requires Inv(s) && HeldForUse(s) && Possible(s, steps) && p < |s.procs|
    requires forall q, lock :: 0 <= q < |s.procs| && q != p && lock in s.procs[p].order ==> lock !in s.procs[q].order
    ensures GiveUp(p) !in steps
    decreases |steps|
  {
    if steps != [] {
      if steps[0] == GiveUp(p) {
        BusyWithAnother(s, p);
      }
      StepKeepsInv(s, steps[0]);
      StepKeepsUse(s, steps[0]);
      LoneNeverGivesUp(Next(s, steps[0]), steps[1..], p);
    }
  }

  /** A process that shares no slug with another one never gives up: unless it crashes, it ends with its work done. */
  lemma {:induction false} LoneDoesItsWork(needs: seq<seq<string>>, steps: seq<Step>, p: nat)
    requires Possible(Start(needs), steps) && p < |needs|
    requires forall q, slug :: 0 <= q < |needs| && q != p && slug in needs[p] ==> slug !in needs[q]
    ensures GiveUp(p) !in steps
    ensures var s := After(Start(needs), steps);
            p < |s.procs| && (s.procs[p].phase.Finished? && Crash(p) !in steps ==> Work(p) in steps)
  {
    var start := Start(needs);
    StartKeepsInv(needs);
    forall q | 0 <= q < |needs| ensures forall slug :: slug in start.procs[q].order <==> slug in needs[q] {
      SortSlugsSorts(needs[q]);
    }
    LoneNeverGivesUp(start, steps, p);
    OrdersStay(start, steps);
    if Work(p) !in steps && Crash(p) !in steps {
      StaysBelow(start, steps, p);
    }
  }

  // Why the order matters: two processes that take two locks each the other way round.

  const CROSSED: System :=
    System([Process(["a", "b"], Acquiring(0)), Process(["b", "a"], Acquiring(0))], map[])

  lemma {:induction false} UnsortedOrdersDeadlock()
    ensures var steps := [Acquire(0), Acquire(1)];
            && Possible(CROSSED, steps) && !AllOver(After(CROSSED, steps))
            && forall step :: Ordinary(step) ==> !Enabled(After(CROSSED, steps), step)
  {
    var one := Next(CROSSED, Acquire(0));
    assert Possible(one, [Acquire(1)]);
    assert [Acquire(0), Acquire(1)][1..] == [Acquire(1)];
    var two := Next(one, Acquire(1));
    assert After(CROSSED, [Acquire(0), Acquire(1)]) == two;
    assert two.procs == [Process(["a", "b"], Acquiring(1)), Process(["b", "a"], Acquiring(1))];
  }

  // --- The nested calls ----------------------------------------------------------------

  datatype Event = Locked(slug: string) | Ran | Unlocked(slug: string)

  /**
   * What applyLocked does from lock `i` on when the first `top` locks are had: each
   * withFileLock wraps the rest, and unlocks even when the wrapped call throws.
   */
  function ApplyLocked(slugs: seq<string>, i: nat, top: nat): seq<Event>
    requires i <= top <= |slugs|
    decreases top - i
  {
    if i == top then (if top == |slugs| then [Ran] else [])
    else [Locked(slugs[i])] + ApplyLocked(slugs, i + 1, top) + [Unlocked(slugs[i])]
  }

  /** What one step of process `p` does. */
  function EventOf(s: System, step: Step, p: nat): seq<Event>
    requires Enabled(s, step)
  {
    match step
    case Acquire(q) => if p == q then [Locked(Wanted(s, p))] else []
    case Work(q) => if p == q then [Ran] else []
    case Release(q) => if p == q then [Unlocked(s.procs[p].order[s.procs[p].phase.left - 1])] else []
    case _ => []
  }

  function EventsOf(s: System, steps: seq<Step>, p: nat): seq<Event>
    requires Possible(s, steps)
    decreases |steps|
  {
    if steps == [] then [] else EventOf(s, steps[0], p) + EventsOf(Next(s, steps[0]), steps[1..], p)
  }

  function Unlocks(slugs: seq<string>, left: nat): seq<Event>
    requires left <= |slugs|
  {
    if left == 0 then [] else [Unlocked(slugs[left - 1])] + Unlocks(slugs, left - 1)
  }

  function Locks(slugs: seq<string>, from: nat, top: nat): seq<Event>
    requires from <= top <= |slugs|
    decreases top - from
  {
    if from == top then [] else [Locked(slugs[from])] + Locks(slugs, from + 1, top)
  }

  /** What a process has still to do when it will turn back after `top` locks. */
  function Remaining(proc: Process, top: nat): seq<Event>
    requires WellPlaced(proc) && top <= |proc.order|
    requires proc.phase.Acquiring? ==> proc.phase.next <= top
  {
    var run := if top == |proc.order| then [Ran] else [];
    match proc.phase
    case Acquiring(next) => Locks(proc.order, next, top) + run + Unlocks(proc.order, top)
    case Working => [Ran] + Unlocks(proc.order, |proc.order|)
    case Releasing(left, _) => Unlocks(proc.order, left)
    case Finished(_) => []
    case Crashed => []
  }

  function NestedUnlocks(slugs: seq<string>, i: nat, top: nat): seq<Event>
    requires i <= top <= |slugs|
    decreases top - i
  {
    if i == top then [] else NestedUnlocks(slugs, i + 1, top) + [Unlocked(slugs[i])]
  }

  lemma {:induction false} UnlocksAreNested(slugs: seq<string>, i: nat, top: nat)
    requires i <= top <= |slugs|
    ensures Unlocks(slugs, top) == NestedUnlocks(slugs, i, top) + Unlocks(slugs, i)
    decreases top - i
  {
    if i < top {
      UnlocksAreNested(slugs, i + 1, top);
      ConcatAssoc(NestedUnlocks(slugs, i + 1, top), [Unlocked(slugs[i])], Unlocks(slugs, i));
    }
  }

  lemma {:induction false} NestingUnrolled(slugs: seq<string>, i: nat, top: nat)
    requires i <= top <= |slugs|
    ensures ApplyLocked(slugs, i, top) ==
      Locks(slugs, i, top) + (if top == |slugs| then [Ran] else []) + NestedUnlocks(slugs, i, top)
    decreases top - i
  {
    if i < top {
      NestingUnrolled(slugs, i + 1, top);
    }
  }

  /** A process that ends does, in the order it does it, exactly what the nested calls prescribe. */
  lemma {:induction false} ProcessFollowsCalls(needs: seq<seq<string>>, steps: seq<Step>, p: nat)
    requires Possible(Start(needs), steps) && p < |needs|
    requires |After(Start(needs), steps).procs| == |needs| && After(Start(needs), steps).procs[p].phase.Finished?
    ensures var top := After(Start(needs), steps).procs[p].phase.top;
            && top <= |SortSlugs(needs[p])|
            && EventsOf(Start(needs), steps, p) == ApplyLocked(SortSlugs(needs[p]), 0, top)
  {
    var s := Start(needs);
    var top := After(s, steps).procs[p].phase.top;
    StartKeepsInv(needs);
    EventsRemain(s, steps, p, top);
    NestingUnrolled(SortSlugs(needs[p]), 0, top);
    UnlocksAreNested(SortSlugs(needs[p]), 0, top);
  }

  /** The number of locks at which the process turns back, once it has. */
  ghost predicate TurnsAt(proc: Process, top: nat) {
    match proc.phase
    case Acquiring(next) => next <= top <= |proc.order|
    case Working => top == |proc.order|
    case Releasing(_, t) => top == t <= |proc.order|
    case Finished(t) => top == t <= |proc.order|
    case Crashed => false
  }

  lemma {:induction false} LockFirst(me: Process, top: nat)
    requires WellPlaced(me) && me.phase.Acquiring? && me.phase.next < top <= |me.order|
    ensures var k := me.phase.next;
            Remaining(me, top) == [Locked(me.order[k])] + Remaining(me.(phase := Acquiring(k + 1)), top)
  {
    var k := me.phase.next;
    var run := if top == |me.order| then [Ran] else [];
    var rest := Locks(me.order, k + 1, top);
    ConcatAssoc([Locked(me.order[k])], rest, run);
    ConcatAssoc([Locked(me.order[k])], rest + run, Unlocks(me.order, top));
  }

  lemma {:induction false} OthersStay(s: System, step: Step, p: nat)
    requires Enabled(s, step) && p < |s.procs| && (step.Expire? || step.Reclaim? || step.p != p)
    ensures |Next(s, step).procs| == |s.procs| && Next(s, step).procs[p] == s.procs[p] && EventOf(s, step, p) == []
  {
  }

  lemma {:induction false} EventStep(s: System, step: Step, p: nat, top: nat)
    requires Inv(s) && Enabled(s, step) && Inv(Next(s, step)) && p < |s.procs| && p < |Next(s, step).procs|
    requires TurnsAt(Next(s, step).procs[p], top)
    ensures TurnsAt(s.procs[p], top)
    ensures Remaining(s.procs[p], top) == EventOf(s, step, p) + Remaining(Next(s, step).procs[p], top)
  {
    assert WellPlaced(s.procs[p]) && WellPlaced(Next(s, step).procs[p]);
    if step.Expire? || step.Reclaim? || step.p != p {
      OthersStay(s, step, p);
    } else if step.Release? {
      ReleaseEventStep(s, p, top);
    } else {
      OwnEventStep(s, step, p, top);
    }
  }

  lemma {:induction false} ReleaseEventStep(s: System, p: nat, top: nat)
    requires Enabled(s, Release(p)) && p < |Next(s, Release(p)).procs|
    requires WellPlaced(s.procs[p]) && WellPlaced(Next(s, Release(p)).procs[p])
    requires TurnsAt(Next(s, Release(p)).procs[p], top)
    ensures TurnsAt(s.procs[p], top)
    ensures Remaining(s.procs[p], top) ==
            EventOf(s, Release(p), p) + Remaining(Next(s, Release(p)).procs[p], top)
  {
    var me := s.procs[p];
    assert Next(s, Release(p)).procs[p] == me.(phase := Releasing(me.phase.left - 1, me.phase.top));
  }

  lemma {:induction false} AcquireEventStep(s: System, p: nat, top: nat)
    requires Enabled(s, Acquire(p)) && p < |Next(s, Acquire(p)).procs|
    requires WellPlaced(s.procs[p]) && TurnsAt(Next(s, Acquire(p)).procs[p], top)
    ensures TurnsAt(s.procs[p], top)
    ensures Remaining(s.procs[p], top) == EventOf(s, Acquire(p), p) + Remaining(Next(s, Acquire(p)).procs[p], top)
  {
    var me := s.procs[p];
    assert Next(s, Acquire(p)).procs[p] == me.(phase := Acquiring(me.phase.next + 1));
    LockFirst(me, top);
  }

  lemma {:induction false} OwnEventStep(s: System, step: Step, p: nat, top: nat)
    requires Enabled(s, step) && p < |s.procs| && p < |Next(s, step).procs|
    requires !step.Expire? && !step.Reclaim? && !step.Release? && step.p == p
    requires WellPlaced(s.procs[p]) && WellPlaced(Next(s, step).procs[p]) && TurnsAt(Next(s, step).procs[p], top)
    ensures TurnsAt(s.procs[p], top)
    ensures Remaining(s.procs[p], top) == EventOf(s, step, p) + Remaining(Next(s, step).procs[p], top)
  {
    match step
    case Acquire(_) => AcquireEventStep(s, p, top);
    case GiveUp(_) => assert Locks(s.procs[p].order, top, top) == [];
    case Enter(_) => assert Locks(s.procs[p].order, top, top) == [];
    case _ =>
  }

  lemma {:induction false} EventsRemain(s: System, steps: seq<Step>, p: nat, top: nat)
    requires Inv(s) && Possible(s, steps) && p < |s.procs| && p < |After(s, steps).procs|
    requires After(s, steps).procs[p].phase == Finished(top)
    ensures TurnsAt(s.procs[p], top)
    ensures EventsOf(s, steps, p) == Remaining(s.procs[p], top)
    decreases |steps|
  {
    if steps == [] {
      assert WellPlaced(s.procs[p]);
    } else {
      StepKeepsInv(s, steps[0]);
      EventsRemain(Next(s, steps[0]), steps[1..], p, top);
      EventStep(s, steps[0], p, top);
    }
  }
}
