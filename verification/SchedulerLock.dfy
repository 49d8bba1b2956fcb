/** The scheduler on top of the load-exclusive/store-exclusive lock: instructions of the lock and accesses of the
    scheduler interleave, and what the scheduler does is still a run of the machine with the atomic lock. */
module SchedulerLock {
  import Spinlock
  import opened Scheduler
  import opened SchedulerInv
  import opened SchedulerRuns

  /** The lock word with each core's place in the lock routines, and the scheduler. */
  datatype Full = Full(lk: Spinlock.State, sc: State)

  /** A core executes an instruction of a lock routine, or one of its own steps. */
  datatype Act = Instr(op: Spinlock.Move) | Code(move: Move)

  /** The two stores that change hands of the lock. */
  predicate Swings(op: Spinlock.Move) {
    op == Spinlock.Stlxr(true) || op.Stlr?
  }

  /** A core calls the lock routines where `_schedule` does, and goes on only when it has returned from them.  The
      atomic lock of the scheduler's state is not consulted. */
  predicate Can(f: Full, c: nat, a: Act) {
    && Sane(f.sc, c) && Spinlock.Fits(f.lk, c)
    && var pc := f.sc.cores[c].pc;
      match a
      case Instr(v) =>
        && Spinlock.Enabled(f.lk, c, v) && (v.Call? ==> v.retry && pc.Acquiring?)
        && (v.CallUnlock? ==> pc.Releasing?)
      case Code(v) =>
        && (v.Kernel? <==> pc != User) && !pc.Acquiring? && !pc.Releasing?
        && f.lk.pcs[c] == if InLock(pc) then Spinlock.Inside else Spinlock.Outside
  }

  /** The store that takes the lock moves the scheduler past `spin_lock`, the one that frees it past `spin_unlock`. */
  function After(f: Full, c: nat, a: Act): Full
    requires Can(f, c, a) && (a.Instr? && Swings(a.op) ==> f.sc.cores[c].pc != User)
  {
    match a
    case Instr(v) =>
      Full(Spinlock.Next(f.lk, c, v), if Swings(v) then KernelStep(f.sc, c, 0) else f.sc)
    case Code(v) => f.(sc := Next(f.sc, c, v))
  }

  /** Where a core may stand in the lock routines while the scheduler has it at `pc`. */
  predicate Agree(lk: Spinlock.Pc, pc: Pc) {
    if pc.Acquiring? then
      lk.Outside? || (lk.Load? && lk.retry) || (lk.Test? && lk.retry) || (lk.Store? && lk.retry)
      || (lk.Check? && lk.retry && lk.w2 != 0)
    else if pc.Releasing? then lk.Inside? || lk.Unlock?
    else if InLock(pc) then lk.Inside? || (lk.Check? && lk.w2 == 0)
    else lk.Outside?
  }

  ghost predicate Joined(f: Full) {
    && Inv(f.sc) && Spinlock.Inv(f.lk) && |f.lk.pcs| == |f.sc.cores| && Spinlock.Shows(f.lk, f.sc.lock)
    && forall c | 0 <= c < |f.sc.cores| :: Agree(f.lk.pcs[c], f.sc.cores[c].pc)
  }

  lemma InstrCan(f: Full, c: nat, v: Spinlock.Move)
    requires Joined(f) && Can(f, c, Instr(v)) && Swings(v)
    ensures Enabled(f.sc, c, Kernel(0)) && f.sc.cores[c].pc != User
    ensures KernelStep(f.sc, c, 0).lock == Spinlock.LockAfter(f.sc.lock, c, v)
  {
    assert Agree(f.lk.pcs[c], f.sc.cores[c].pc);
    Spinlock.Refines(f.lk, f.sc.lock, c, v);
  }

  /** A step of core `c` leaves the other cores' places alone. */
  lemma OthersAgree(f: Full, f': Full, c: nat)
    requires Joined(f) && c < |f.sc.cores| == |f'.sc.cores| == |f'.lk.pcs|
    requires forall d | 0 <= d < |f.sc.cores| && d != c :: f'.lk.pcs[d] == f.lk.pcs[d] && f'.sc.cores[d] == f.sc.cores[d]
    requires Agree(f'.lk.pcs[c], f'.sc.cores[c].pc)
    ensures forall d | 0 <= d < |f'.sc.cores| :: Agree(f'.lk.pcs[d], f'.sc.cores[d].pc)
  {
    forall d | 0 <= d < |f'.sc.cores|
      ensures Agree(f'.lk.pcs[d], f'.sc.cores[d].pc)
    {
      assert Agree(f.lk.pcs[d], f.sc.cores[d].pc);
    }
  }

  lemma LockFrame(s: Spinlock.State, c: nat, v: Spinlock.Move)
    requires Spinlock.Enabled(s, c, v)
    ensures |Spinlock.Next(s, c, v).pcs| == |s.pcs|
    ensures forall d | 0 <= d < |s.pcs| && d != c :: Spinlock.Next(s, c, v).pcs[d] == s.pcs[d]
  {}

  lemma InstrStep(f: Full, c: nat, v: Spinlock.Move)
    requires Joined(f) && Can(f, c, Instr(v))
    ensures Swings(v) ==> Enabled(f.sc, c, Kernel(0)) && f.sc.cores[c].pc != User
    ensures Joined(After(f, c, Instr(v)))
  {
    Spinlock.StepInv(f.lk, c, v);
    Spinlock.Refines(f.lk, f.sc.lock, c, v);
    LockFrame(f.lk, c, v);
    assert Agree(f.lk.pcs[c], f.sc.cores[c].pc);
    if Swings(v) {
      InstrCan(f, c, v);
      StepInv(f.sc, c, Kernel(0));
      StepFrame(f.sc, c, Kernel(0));
    }
    OthersAgree(f, After(f, c, Instr(v)), c);
  }

  lemma CodeStep(f: Full, c: nat, v: Move)
    requires Joined(f) && Can(f, c, Code(v))
    ensures Enabled(f.sc, c, v) && Joined(After(f, c, Code(v)))
  {
    StepInv(f.sc, c, v);
    StepFrame(f.sc, c, v);
    assert CoreInv(f.sc, c);
    assert Agree(f.lk.pcs[c], f.sc.cores[c].pc);
    OthersAgree(f, After(f, c, Code(v)), c);
  }

  /** Each act is a step of the scheduler with the atomic lock, or none. */
  lemma ActStep(f: Full, c: nat, a: Act)
    requires Joined(f) && Can(f, c, a)
    ensures a.Instr? && Swings(a.op) ==> f.sc.cores[c].pc != User
    ensures Joined(After(f, c, a))
    ensures var sc' := After(f, c, a).sc;
      sc' == f.sc || exists v :: Enabled(f.sc, c, v) && sc' == Next(f.sc, c, v)
  {
    match a
    case Instr(v) =>
      InstrStep(f, c, v);
      if Swings(v) {
        assert KernelStep(f.sc, c, 0) == Next(f.sc, c, Kernel(0));
      }
    case Code(v) => CodeStep(f, c, v);
  }

  // ----- runs

  predicate StartsJoined(f: Full) {
    Init(f.sc) && Spinlock.Init(f.lk) && |f.lk.pcs| == |f.sc.cores|
  }

  lemma StartJoined(f: Full)
    requires StartsJoined(f)
    ensures Joined(f)
  {
    InitInv(f.sc);
  }

  ghost predicate Possible(f: Full, run: seq<(nat, Act)>)
    requires Joined(f)
    decreases run
  {
    run == [] ||
    (Can(f, run[0].0, run[0].1) && (ActStep(f, run[0].0, run[0].1); Possible(After(f, run[0].0, run[0].1), run[1..])))
  }

  ghost function End(f: Full, run: seq<(nat, Act)>): (f': Full)
    requires Joined(f) && Possible(f, run)
    ensures Joined(f')
    decreases run
  {
    if run == [] then f else
      ActStep(f, run[0].0, run[0].1);
      End(After(f, run[0].0, run[0].1), run[1..])
  }

  /** Every run on the real lock is, for the scheduler, a run on the atomic one. */
  lemma {:induction false} Projects(f: Full, run: seq<(nat, Act)>) returns (steps: seq<(nat, Move)>)
    requires Joined(f) && Possible(f, run)
    ensures Allowed(f.sc, steps) && Final(f.sc, steps) == End(f, run).sc
    decreases run
  {
    if run == [] {
      steps := [];
    } else {
      var c := run[0].0;
      ActStep(f, c, run[0].1);
      var f' := After(f, c, run[0].1);
      var rest := Projects(f', run[1..]);
      if f'.sc == f.sc {
        steps := rest;
      } else {
        var v :| Enabled(f.sc, c, v) && f'.sc == Next(f.sc, c, v);
        steps := [(c, v)] + rest;
        assert steps[1..] == rest;
      }
    }
  }

  /** Over every interleaving of lock instructions and scheduler accesses: no task is on two cores, at most one core is
      in the locked section, and while the lock word is 0 the RUNNING tasks are exactly those on cores. */
  lemma SafeOnRealLock(f: Full, run: seq<(nat, Act)>)
    requires StartsJoined(f) && (StartJoined(f); Possible(f, run))
    ensures Joined(f)
    ensures var f' := End(f, run);
      && Injective(f'.sc)
      && (forall c, d | 0 <= c < |f'.sc.cores| && 0 <= d < |f'.sc.cores| ::
        InLock(f'.sc.cores[c].pc) && InLock(f'.sc.cores[d].pc) ==> c == d)
      && (f'.lk.lock == 0 ==> forall t | 0 <= t < |f'.sc.tasks| :: f'.sc.tasks[t].running <==> OnCore(f'.sc, t))
  {
    StartJoined(f);
    var f' := End(f, run);
    var steps := Projects(f, run);
    RunningExactly(f.sc, steps);
    forall c, d | 0 <= c < |f'.sc.cores| && 0 <= d < |f'.sc.cores| && InLock(f'.sc.cores[c].pc) && InLock(f'.sc.cores[d].pc)
      ensures c == d
    {
      assert CoreInv(f'.sc, c) && CoreInv(f'.sc, d);
    }
    if f'.lk.lock == 0 {
      assert f'.sc.lock == Spinlock.Free;
    }
  }

  // ----- the locked section is short

  /** The scheduler's own steps that a core still takes before it calls `spin_unlock`. */
  function StepsToRelease(pc: Pc, n: nat): int {
    match pc
    case Scanning(_, i, _) => n - i + 3
    case Parking(_, _, _) => 3
    case Waking(_, _, _) => 2
    case Moving(_, _, _) => 1
    case _ => 0
  }

  /** The acts that an owner of the lock still takes until the store that frees it: the test of its own store, the
      scheduler's steps, the call of `spin_unlock`, and that store. */
  function ActsToFree(lk: Spinlock.Pc, pc: Pc, n: nat): int {
    (if lk.Check? then 1 else 0) + StepsToRelease(pc, n) + if lk.Unlock? then 1 else 2
  }

  /** Core `c` owns the lock, from the store that took it on, in every state of the run. */
  ghost predicate OwnsThroughout(f: Full, run: seq<(nat, Act)>, c: nat)
    requires Joined(f) && Possible(f, run)
    decreases run
  {
    && c < |f.sc.cores| && Spinlock.Owns(f.lk, c)
    && (run == [] ||
      (ActStep(f, run[0].0, run[0].1); OwnsThroughout(After(f, run[0].0, run[0].1), run[1..], c)))
  }

  /** How many acts of a run are core `c`'s; losing the monitor is not its own doing. */
  function OwnActs(run: seq<(nat, Act)>, c: nat): nat {
    if run == [] then 0
    else (if run[0].0 == c && run[0].1 != Instr(Spinlock.LoseMonitor) then 1 else 0) + OwnActs(run[1..], c)
  }

  lemma OwnerInLock(f: Full, c: nat)
    requires Joined(f) && c < |f.sc.cores| && Spinlock.Owns(f.lk, c)
    ensures InLock(f.sc.cores[c].pc) && (f.lk.pcs[c].Unlock? ==> f.sc.cores[c].pc.Releasing?)
    ensures 1 <= ActsToFree(f.lk.pcs[c], f.sc.cores[c].pc, |f.sc.tasks|) <= |f.sc.tasks| + 5
  {
    assert Agree(f.lk.pcs[c], f.sc.cores[c].pc) && CoreInv(f.sc, c);
  }

  lemma OwnCode(f: Full, c: nat, v: Move)
    requires Joined(f) && Can(f, c, Code(v)) && Spinlock.Owns(f.lk, c)
    ensures var sc' := After(f, c, Code(v)).sc;
      c < |sc'.cores| && |sc'.tasks| == |f.sc.tasks|
      && StepsToRelease(sc'.cores[c].pc, |f.sc.tasks|) < StepsToRelease(f.sc.cores[c].pc, |f.sc.tasks|)
  {
    OwnerInLock(f, c);
    CodeStep(f, c, v);
    assert CoreInv(f.sc, c);
  }

  lemma OwnInstr(f: Full, c: nat, v: Spinlock.Move)
    requires Joined(f) && Can(f, c, Instr(v)) && Spinlock.Owns(f.lk, c)
    ensures v.LoseMonitor? || v == Spinlock.Cbnz || v.CallUnlock? || v.Stlr?
    ensures var p, q := f.lk.pcs[c], Spinlock.Next(f.lk, c, v).pcs[c];
      if v.LoseMonitor? then q == p else if v.Stlr? then q.Outside?
      else if v.CallUnlock? then p.Inside? && q.Unlock? else p.Check? && q.Inside?
  {
    OwnerInLock(f, c);
  }

  lemma OwnAct(f: Full, c: nat, a: Act)
    requires Joined(f) && Can(f, c, a) && Spinlock.Owns(f.lk, c)
    ensures a.Instr? && Swings(a.op) ==> f.sc.cores[c].pc != User
    ensures var f', n := After(f, c, a), |f.sc.tasks|;
      c < |f'.sc.cores| && |f'.sc.tasks| == n && (Spinlock.Owns(f'.lk, c) ==>
        ActsToFree(f'.lk.pcs[c], f'.sc.cores[c].pc, n) + (if a == Instr(Spinlock.LoseMonitor) then 0 else 1)
          <= ActsToFree(f.lk.pcs[c], f.sc.cores[c].pc, n))
  {
    ActStep(f, c, a);
    match a
    case Instr(v) =>
      OwnInstr(f, c, v);
      if v.Stlr? {
        StepFrame(f.sc, c, Kernel(0));
      }
    case Code(v) =>
      OwnCode(f, c, v);
  }

  lemma OtherAct(f: Full, d: nat, a: Act, c: nat)
    requires Joined(f) && Can(f, d, a) && c != d && c < |f.sc.cores|
    ensures a.Instr? && Swings(a.op) ==> f.sc.cores[d].pc != User
    ensures var f' := After(f, d, a);
      && c < |f'.sc.cores| && |f'.sc.tasks| == |f.sc.tasks|
      && f'.sc.cores[c] == f.sc.cores[c] && f'.lk.pcs[c] == f.lk.pcs[c]
  {
    ActStep(f, d, a);
    match a
    case Instr(v) =>
      LockFrame(f.lk, d, v);
      if Swings(v) {
        InstrCan(f, d, v);
        StepFrame(f.sc, d, Kernel(0));
      }
    case Code(v) =>
      CodeStep(f, d, v);
      StepFrame(f.sc, d, v);
  }

  /** A core that has taken the lock frees it within `task_count + 5` of its own instructions and accesses, whatever the
      others do. */
  lemma {:induction false} HoldsBriefly(f: Full, run: seq<(nat, Act)>, c: nat)
    requires Joined(f) && Possible(f, run) && OwnsThroughout(f, run, c)
    ensures OwnActs(run, c) < ActsToFree(f.lk.pcs[c], f.sc.cores[c].pc, |f.sc.tasks|) <= |f.sc.tasks| + 5
    decreases run
  {
    OwnerInLock(f, c);
    if run != [] {
      var d, a := run[0].0, run[0].1;
      ActStep(f, d, a);
      if d == c {
        OwnAct(f, c, a);
      } else {
        OtherAct(f, d, a, c);
      }
      assert Spinlock.Owns(After(f, d, a).lk, c);
      HoldsBriefly(After(f, d, a), run[1..], c);
    }
  }
}
