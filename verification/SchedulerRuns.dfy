/** Runs of the scheduler: safety, private registers for every task, and bounded waiting. */
module SchedulerRuns {
  import opened Counting
  import Spinlock
  import opened Scheduler
  import opened SchedulerInv

  predicate Allowed(s: State, run: seq<(nat, Move)>)
    decreases run
  {
    run == [] || (Enabled(s, run[0].0, run[0].1) && Allowed(Next(s, run[0].0, run[0].1), run[1..]))
  }

  function Final(s: State, run: seq<(nat, Move)>): State
    requires Allowed(s, run)
    decreases run
  {
    if run == [] then s else Final(Next(s, run[0].0, run[0].1), run[1..])
  }

  lemma {:induction false} RunInv(s: State, run: seq<(nat, Move)>)
    requires Inv(s) && Allowed(s, run)
    ensures Inv(Final(s, run))
    decreases run
  {
    if run != [] {
      StepInv(s, run[0].0, run[0].1);
      RunInv(Next(s, run[0].0, run[0].1), run[1..]);
    }
  }

  /** Over every interleaving no task is on two cores, and outside the lock the RUNNING tasks are those on cores. */
  lemma RunningExactly(s: State, run: seq<(nat, Move)>)
    requires Init(s) && Allowed(s, run)
    ensures var s' := Final(s, run);
      && Injective(s')
      && (s'.lock == Spinlock.Free ==> forall t | 0 <= t < |s'.tasks| :: s'.tasks[t].running <==> OnCore(s', t))
      && forall c | 0 <= c < |s'.cores| :: s'.cores[c].cur < |s'.tasks|
  {
    InitInv(s);
    RunInv(s, run);
    var s' := Final(s, run);
    forall c | 0 <= c < |s'.cores|
      ensures s'.cores[c].cur < |s'.tasks|
    {
      assert CoreInv(s', c);
    }
    if s'.lock == Spinlock.Free {
      forall t | 0 <= t < |s'.tasks|
        ensures s'.tasks[t].running <==> OnCore(s', t)
      {
        assert TaskInv(s', t);
      }
    }
  }

  /** Over every interleaving the scan ends at a task that waits and that no core runs; it never falls through to
      switch to the last task it looked at. */
  lemma ScanFinds(s: State, run: seq<(nat, Move)>, c: nat)
    requires Init(s) && Allowed(s, run) && c < |Final(s, run).cores|
    ensures var s' := Final(s, run);
      match s'.cores[c].pc
      case Scanning(_, i, _) => i < |s'.tasks|
      case Parking(_, _, target) => target < |s'.tasks| && !s'.tasks[target].running && !OnCore(s', target)
      case Releasing(_, next) => next == s'.cores[c].cur
      case Restoring(next) => next == s'.cores[c].cur
      case _ => true
  {
    InitInv(s);
    RunInv(s, run);
    assert CoreInv(Final(s, run), c);
    if Final(s, run).cores[c].pc.Parking? {
      assert TaskInv(Final(s, run), Final(s, run).cores[c].pc.target);
    }
  }

  // ----- every task sees a private set of registers

  /** The registers of the task that a core stands for. */
  function CoreRegs(s: State, c: nat): Regs
    requires Sane(s, c)
  {
    var core := s.cores[c];
    match core.pc
    case User => core.live
    case Releasing(_, _) => s.tasks[core.cur].ctx
    case Restoring(_) => s.tasks[core.cur].ctx
    case _ => core.frame
  }

  /** `vm[t]` are the registers of task `t`: held by its core if it is on one, and otherwise saved. */
  ghost predicate Virtual(s: State, vm: seq<Regs>) {
    && |vm| == |s.tasks|
    && (forall c | 0 <= c < |s.cores| :: Sane(s, c) && CoreRegs(s, c) == vm[s.cores[c].cur])
    && (forall t | 0 <= t < |s.tasks| && !OnCore(s, t) :: s.tasks[t].ctx == vm[t])
  }

  /** What one step does to the private registers: only the task of the stepping core may change them, in user code
      or by the result of its system call. */
  function VirtualNext(vm: seq<Regs>, core: Core, v: Move): (vm': seq<Regs>)
    requires core.cur < |vm|
    ensures |vm'| == |vm| && forall t | 0 <= t < |vm| && t != core.cur :: vm'[t] == vm[t]
  {
    if v.UserCode? then vm[core.cur := v.regs]
    else if v.Kernel? && core.pc.Answering? then vm[core.cur := vm[core.cur].(r0 := v.ret)]
    else vm
  }

  lemma SaneHere(s: State, c: nat)
    requires Inv(s) && c < |s.cores|
    ensures Sane(s, c)
  {
    assert CoreInv(s, c);
  }

  lemma VirtualHere(s: State, c: nat, v: Move, vm: seq<Regs>)
    requires Enabled(s, c, v) && CoreInv(s, c) && Sane(Next(s, c, v), c) && Virtual(s, vm)
    ensures var s' := Next(s, c, v); CoreRegs(s', c) == VirtualNext(vm, s.cores[c], v)[s'.cores[c].cur]
  {}

  /** A step touches no other core, and only the saved context of its own task. */
  lemma StepFrame(s: State, c: nat, v: Move)
    requires Enabled(s, c, v)
    ensures var s' := Next(s, c, v);
      && |s'.cores| == |s.cores| && |s'.tasks| == |s.tasks|
      && (forall d | 0 <= d < |s.cores| && d != c :: s'.cores[d] == s.cores[d])
      && (forall t | 0 <= t < |s.tasks| && t != s.cores[c].cur :: s'.tasks[t].ctx == s.tasks[t].ctx)
  {}

  lemma VirtualThere(s: State, c: nat, v: Move, vm: seq<Regs>, d: nat)
    requires Inv(s) && Enabled(s, c, v) && Virtual(s, vm) && d < |s.cores| && d != c
    ensures var s' := Next(s, c, v);
      Sane(s', d) && CoreRegs(s', d) == VirtualNext(vm, s.cores[c], v)[s'.cores[d].cur]
  {
    StepFrame(s, c, v);
    assert CoreInv(s, d) && s.cores[d].cur != s.cores[c].cur;
    SameRegs(s, Next(s, c, v), d);
  }

  lemma SameRegs(s: State, s': State, d: nat)
    requires Sane(s, d) && d < |s'.cores| && s'.cores[d] == s.cores[d]
    requires |s'.tasks| == |s.tasks| && s'.tasks[s.cores[d].cur].ctx == s.tasks[s.cores[d].cur].ctx
    ensures Sane(s', d) && CoreRegs(s', d) == CoreRegs(s, d)
  {}

  lemma VirtualOff(s: State, c: nat, v: Move, vm: seq<Regs>, t: nat)
    requires Inv(s) && Enabled(s, c, v) && Virtual(s, vm) && t < |s.tasks| && !OnCore(Next(s, c, v), t)
    ensures Next(s, c, v).tasks[t].ctx == VirtualNext(vm, s.cores[c], v)[t]
  {
    assert CoreInv(s, c);
    if s.cores[c].pc.Moving? {
      SwitchedImage(s, Next(s, c, v), c, s.cores[c].pc.target);
    } else {
      SameImage(s, Next(s, c, v), c);
      assert OnCore(s, s.cores[c].cur);
    }
  }

  /** Register state refines one private processor per task, although the frame is restored after the unlock. */
  lemma StepVirtual(s: State, c: nat, v: Move, vm: seq<Regs>)
    requires Inv(s) && Enabled(s, c, v) && Virtual(s, vm)
    ensures Virtual(Next(s, c, v), VirtualNext(vm, s.cores[c], v))
  {
    StepInv(s, c, v);
    SaneHere(Next(s, c, v), c);
    assert CoreInv(s, c);
    VirtualHere(s, c, v, vm);
    forall d | 0 <= d < |s.cores| && d != c {
      VirtualThere(s, c, v, vm, d);
    }
    forall t | 0 <= t < |s.tasks| && !OnCore(Next(s, c, v), t) {
      VirtualOff(s, c, v, vm, t);
    }
  }

  /** The private registers of all tasks after a run: a function of the run's own user code and system calls. */
  function VirtualRun(s: State, run: seq<(nat, Move)>, vm: seq<Regs>): (vm': seq<Regs>)
    requires Allowed(s, run) && |vm| == |s.tasks|
    ensures |vm'| == |vm|
    decreases run
  {
    if run == [] then vm
    else VirtualRun(Next(s, run[0].0, run[0].1), run[1..], VirtualNext(vm, s.cores[run[0].0], run[0].1))
  }

  lemma {:induction false} RunVirtual(s: State, run: seq<(nat, Move)>, vm: seq<Regs>)
    requires Inv(s) && Allowed(s, run) && Virtual(s, vm)
    ensures Virtual(Final(s, run), VirtualRun(s, run, vm))
    decreases run
  {
    if run != [] {
      StepInv(s, run[0].0, run[0].1);
      StepVirtual(s, run[0].0, run[0].1, vm);
      RunVirtual(Next(s, run[0].0, run[0].1), run[1..], VirtualNext(vm, s.cores[run[0].0], run[0].1));
    }
  }

  /** Every reachable state has private registers to start from. */
  lemma VirtualExists(s: State)
    requires Inv(s)
    ensures exists vm :: Virtual(s, vm)
  {
    forall c | 0 <= c < |s.cores| {
      SaneHere(s, c);
    }
    var vm := seq(|s.tasks|, t requires 0 <= t < |s.tasks| => RegsOf(s, t));
    forall c | 0 <= c < |s.cores|
      ensures s.cores[c].cur < |vm| && CoreRegs(s, c) == vm[s.cores[c].cur]
    {
      assert Sane(s, c) && OnCore(s, s.cores[c].cur);
      var d := CoreOf(s, s.cores[c].cur);
      assert d == c;
    }
    assert Virtual(s, vm);
  }

  ghost function RegsOf(s: State, t: nat): Regs
    requires forall c | 0 <= c < |s.cores| :: Sane(s, c)
    requires t < |s.tasks|
  {
    if OnCore(s, t) then CoreRegs(s, CoreOf(s, t)) else s.tasks[t].ctx
  }

  ghost function CoreOf(s: State, t: nat): (c: nat)
    requires OnCore(s, t)
    ensures c < |s.cores| && s.cores[c].cur == t
  {
    var c :| 0 <= c < |s.cores| && s.cores[c].cur == t;
    c
  }

  // ----- bounded waiting

  /** How many places `t` is after `a`, cyclically. */
  function Dist(a: nat, t: nat, n: nat): int {
    if t >= a then t - a else t - a + n
  }

  /** A bound on the timer ticks that core `c` may still take before task `t` gets a core. */
  function Left(s: State, c: nat, t: nat): int
    requires c < |s.cores| && s.cores[c].cur < |s.tasks|
  {
    var core := s.cores[c];
    (Dist(core.cur, t, |s.tasks|) - 1) * SYS_TASK_TICK + (if Choosing(core.pc) then 0 else s.tasks[core.cur].counter)
  }

  /** The number of timer ticks that core `c` takes in a run. */
  function Ticks(s: State, run: seq<(nat, Move)>, c: nat): nat
    requires Allowed(s, run)
    decreases run
  {
    if run == [] then 0
    else (if IsTick(s, run[0].0, c) then 1 else 0) + Ticks(Next(s, run[0].0, run[0].1), run[1..], c)
  }

  predicate IsTick(s: State, d: nat, c: nat) {
    d == c < |s.cores| && s.cores[c].pc.Ticking?
  }

  /** Task `t` is on no core in any state of the run. */
  ghost predicate OffAllCores(s: State, run: seq<(nat, Move)>, t: nat)
    requires Allowed(s, run)
    decreases run
  {
    !OnCore(s, t) && (run == [] || OffAllCores(Next(s, run[0].0, run[0].1), run[1..], t))
  }

  /** A task on no core means fewer cores than tasks. */
  lemma MoreTasks(s: State, t: nat)
    requires Inv(s) && t < |s.tasks| && !OnCore(s, t)
    ensures |s.cores| < |s.tasks|
  {
    var curs: seq<int> := seq(|s.cores|, c requires 0 <= c < |s.cores| => s.cores[c].cur);
    forall c | 0 <= c < |s.cores|
      ensures 0 <= curs[c] < |s.tasks| && curs[c] != t
    {
      assert CoreInv(s, c);
    }
    Pigeonhole(curs + [t], |s.tasks|);
  }

  /** The scan does not pass over a task that is on no core: the switch brings the core closer to it. */
  lemma Closer(s: State, a: nat, i: int, t: nat)
    requires a < |s.tasks| && t < |s.tasks| && 1 <= i < |s.tasks| && Passed(s, a, i) && !OnCore(s, t) && t != a
    ensures Dist(Ahead(a, i, |s.tasks|), t, |s.tasks|) == Dist(a, t, |s.tasks|) - i
  {
    var n := |s.tasks|;
    assert t == Ahead(a, Dist(a, t, n), n);
  }

  /** A switch does not add to what is left. */
  lemma LeftAtSwitch(s: State, c: nat, v: Move, t: nat)
    requires Enabled(s, c, v) && s.cores[c].pc.Moving? && CoreInv(s, c) && TaskInv(s, s.cores[c].pc.target)
    requires t < |s.tasks| && !OnCore(s, t) && s.cores[c].cur != t
    ensures Left(Next(s, c, v), c, t) <= Left(s, c, t)
  {
    Closer(s, s.cores[c].cur, s.cores[c].pc.i, t);
  }

  /** Any other step of the core itself uses up one unit if it is a tick, and never adds one. */
  lemma LeftOwn(s: State, c: nat, v: Move, t: nat)
    requires Enabled(s, c, v) && !s.cores[c].pc.Moving? && CoreInv(s, c) && |s.cores| < |s.tasks|
    requires Next(s, c, v).cores[c].cur == s.cores[c].cur
    ensures Left(Next(s, c, v), c, t) <= Left(s, c, t) - if IsTick(s, c, c) then 1 else 0
  {
    assert CurInv(s.tasks[s.cores[c].cur], s.cores[c]);
  }

  /** Another core's step changes nothing of it. */
  lemma LeftOther(s: State, d: nat, v: Move, c: nat, t: nat)
    requires Enabled(s, d, v) && c < |s.cores| && c != d && s.cores[c].cur < |s.tasks| && s.cores[c].cur != s.cores[d].cur
    ensures c < |Next(s, d, v).cores| && Next(s, d, v).cores[c] == s.cores[c] && |Next(s, d, v).tasks| == |s.tasks|
    ensures Left(Next(s, d, v), c, t) == Left(s, c, t)
  {}

  /** Each tick of core `c` uses up one unit, and no step of any core adds to what is left. */
  lemma StepLeft(s: State, d: nat, v: Move, c: nat, t: nat)
    requires Inv(s) && Enabled(s, d, v) && c < |s.cores| && t < |s.tasks| && !OnCore(s, t)
    ensures c < |Next(s, d, v).cores| && s.cores[c].cur < |s.tasks| == |Next(s, d, v).tasks|
    ensures Next(s, d, v).cores[c].cur < |s.tasks|
    ensures Left(Next(s, d, v), c, t) <= Left(s, c, t) - if IsTick(s, d, c) then 1 else 0
  {
    assert CoreInv(s, c) && CoreInv(s, d);
    if c != d {
      assert s.cores[c].cur != s.cores[d].cur;
      LeftOther(s, d, v, c, t);
    } else if s.cores[c].pc.Moving? {
      assert TaskInv(s, s.cores[c].pc.target);
      LeftAtSwitch(s, c, v, t);
    } else {
      MoreTasks(s, t);
      LeftOwn(s, c, v, t);
    }
  }

  /** Bounded waiting: from any reachable state, core `c` takes at most `SYS_TASK_TICK * (task_count - 1)` timer ticks
      while task `t` stays off all cores, whatever the other cores do. */
  lemma {:induction false} BoundedWaiting(s: State, run: seq<(nat, Move)>, c: nat, t: nat)
    requires Inv(s) && Allowed(s, run) && c < |s.cores| && t < |s.tasks| && OffAllCores(s, run, t)
    ensures s.cores[c].cur < |s.tasks| && Ticks(s, run, c) <= Left(s, c, t) <= SYS_TASK_TICK * (|s.tasks| - 1)
    decreases run
  {
    assert CoreInv(s, c);
    assert s.cores[c].cur != t;
    if run != [] {
      StepInv(s, run[0].0, run[0].1);
      StepLeft(s, run[0].0, run[0].1, c, t);
      BoundedWaiting(Next(s, run[0].0, run[0].1), run[1..], c, t);
    }
  }

  // ----- with which registers a task first runs

  /** Some core executes user code of task `t`. */
  ghost predicate InUser(s: State, t: nat) {
    exists c | 0 <= c < |s.cores| :: s.cores[c].cur == t && s.cores[c].pc == User
  }

  /** No core executes user code of task `t` in any state of the run before the last. */
  ghost predicate NotYetInUser(s: State, run: seq<(nat, Move)>, t: nat)
    requires Allowed(s, run)
    decreases run
  {
    run == [] || (!InUser(s, t) && NotYetInUser(Next(s, run[0].0, run[0].1), run[1..], t))
  }

  /** A core that stands for task `t` has just taken it over, and has done nothing for it yet but load its registers. */
  ghost predicate Arriving(s: State, t: nat) {
    forall c | 0 <= c < |s.cores| && s.cores[c].cur == t ::
      var pc := s.cores[c].pc; pc.Releasing? || pc.Restoring? || pc.Leaving? || pc == User
  }

  lemma StepArriving(s: State, c: nat, v: Move, vm: seq<Regs>, t: nat)
    requires Enabled(s, c, v) && Arriving(s, t) && !InUser(s, t) && t < |vm| == |s.tasks|
    ensures Arriving(Next(s, c, v), t) && VirtualNext(vm, s.cores[c], v)[t] == vm[t]
  {
    var s' := Next(s, c, v);
    StepFrame(s, c, v);
    forall d | 0 <= d < |s'.cores| && s'.cores[d].cur == t
      ensures var pc := s'.cores[d].pc; pc.Releasing? || pc.Restoring? || pc.Leaving? || pc == User
    {
      if d != c {
        assert s'.cores[d] == s.cores[d];
      }
    }
  }

  lemma {:induction false} RunArriving(s: State, run: seq<(nat, Move)>, vm: seq<Regs>, t: nat)
    requires Allowed(s, run) && Arriving(s, t) && NotYetInUser(s, run, t) && t < |vm| == |s.tasks|
    ensures VirtualRun(s, run, vm)[t] == vm[t]
    decreases run
  {
    if run != [] {
      var c, v := run[0].0, run[0].1;
      StepArriving(s, c, v, vm, t);
      StepFrame(s, c, v);
      RunArriving(Next(s, c, v), run[1..], VirtualNext(vm, s.cores[c], v), t);
    }
  }

  /** From the start on, a task numbered like a core first runs with the registers of that core's boot code, and every
      other task first runs with the context that was prepared for it. */
  lemma FirstRun(s: State, run: seq<(nat, Move)>, c: nat, t: nat)
    requires Init(s) && Allowed(s, run) && NotYetInUser(s, run, t) && t < |s.tasks|
    requires var s' := Final(s, run); c < |s'.cores| && s'.cores[c].cur == t && s'.cores[c].pc == User
    ensures Final(s, run).cores[c].live == if t < |s.cores| then s.cores[t].live else s.tasks[t].ctx
  {
    InitInv(s);
    if t < |s.cores| {
      assert InUser(s, t) by {
        assert s.cores[t].cur == t;
      }
    } else {
      VirtualExists(s);
      var vm :| Virtual(s, vm);
      assert !OnCore(s, t);
      RunArriving(s, run, vm, t);
      RunVirtual(s, run, vm);
      RunInv(s, run);
      SaneHere(Final(s, run), c);
    }
  }

  /** A task first runs with its prepared context if and only if its number is not that of a core, or the core's boot
      code happens to have these very registers. */
  lemma StartsAsPrepared(s: State, run: seq<(nat, Move)>, c: nat, t: nat)
    requires Init(s) && Allowed(s, run) && NotYetInUser(s, run, t) && t < |s.tasks|
    requires var s' := Final(s, run); c < |s'.cores| && s'.cores[c].cur == t && s'.cores[c].pc == User
    ensures Final(s, run).cores[c].live == s.tasks[t].ctx <==> t >= |s.cores| || s.cores[t].live == s.tasks[t].ctx
  {
    FirstRun(s, run, c, t);
  }

  /** Until it gets a core, a task keeps its context. */
  lemma {:induction false} KeepsContext(s: State, run: seq<(nat, Move)>, t: nat)
    requires Inv(s) && Allowed(s, run) && OffAllCores(s, run, t) && t < |s.tasks|
    ensures t < |Final(s, run).tasks| && Final(s, run).tasks[t].ctx == s.tasks[t].ctx
    decreases run
  {
    if run != [] {
      var c, v := run[0].0, run[0].1;
      assert CoreInv(s, c);
      assert OnCore(s, s.cores[c].cur);
      StepInv(s, c, v);
      StepFrame(s, c, v);
      KeepsContext(Next(s, c, v), run[1..], t);
    }
  }

  // ----- the prepared context of a task numbered like a core

  function Prepared(s: State, t: nat, ctx: Regs): State
    requires t < |s.tasks|
  {
    s.(tasks := s.tasks[t := s.tasks[t].(ctx := ctx)])
  }

  /** A step that neither saves nor restores task `t` does not depend on its context. */
  lemma StepElsewhere(s: State, c: nat, v: Move, t: nat, ctx: Regs)
    requires Enabled(s, c, v) && t < |s.tasks|
    requires var pc := s.cores[c].pc; (pc.Saving? ==> s.cores[c].cur != t) && (pc.Restoring? ==> pc.next != t)
    ensures Enabled(Prepared(s, t, ctx), c, v) && t < |Next(s, c, v).tasks|
    ensures Next(Prepared(s, t, ctx), c, v) == Prepared(Next(s, c, v), t, ctx)
  {
    var next, next' := Next(s, c, v), Next(Prepared(s, t, ctx), c, v);
    assert |next'.tasks| == |next.tasks| == |s.tasks|;
    assert forall i | 0 <= i < |s.tasks| :: next'.tasks[i] == Prepared(next, t, ctx).tasks[i];
    assert next'.tasks == Prepared(next, t, ctx).tasks;
  }

  /** Saving the registers of task `t` replaces its context, whatever it was. */
  lemma StepSaves(s: State, c: nat, v: Move, t: nat, ctx: Regs)
    requires Enabled(s, c, v) && s.cores[c].cur == t && s.cores[c].pc.Saving?
    ensures Enabled(Prepared(s, t, ctx), c, v) && Next(Prepared(s, t, ctx), c, v) == Next(s, c, v)
  {}

  /** `s'` differs from `s` at most in the context of task `t`, and only while the boot code runs under its number. */
  predicate Twins(s: State, s': State, t: nat) {
    && t < |s.cores| && t < |s.tasks| == |s'.tasks| && s' == Prepared(s, t, s'.tasks[t].ctx)
    && (s' == s || (s.cores[t].cur == t && (s.cores[t].pc == User || s.cores[t].pc.Saving?)))
  }

  lemma StepTwins(s: State, s': State, t: nat, c: nat, v: Move)
    requires Inv(s) && Twins(s, s', t) && Enabled(s, c, v)
    ensures Enabled(s', c, v) && Twins(Next(s, c, v), Next(s', c, v), t)
  {
    var ctx := s'.tasks[t].ctx;
    StepFrame(s, c, v);
    if s' == s {
      SameTwin(Next(s, c, v), t);
    } else if c == t && s.cores[c].pc.Saving? {
      StepSaves(s, c, v, t, ctx);
      SameTwin(Next(s, c, v), t);
    } else {
      assert CoreInv(s, c);
      assert c != t ==> s.cores[c].cur != s.cores[t].cur;
      StepElsewhere(s, c, v, t, ctx);
      TwinOf(Next(s, c, v), t, ctx);
    }
  }

  lemma SameTwin(s: State, t: nat)
    requires t < |s.cores| && t < |s.tasks|
    ensures Twins(s, s, t)
  {
    assert s.tasks[t := s.tasks[t].(ctx := s.tasks[t].ctx)] == s.tasks;
  }

  lemma TwinOf(s: State, t: nat, ctx: Regs)
    requires t < |s.cores| && t < |s.tasks| && s.cores[t].cur == t && (s.cores[t].pc == User || s.cores[t].pc.Saving?)
    ensures Twins(s, Prepared(s, t, ctx), t)
  {}

  lemma {:induction false} RunTwins(s: State, s': State, t: nat, run: seq<(nat, Move)>)
    requires Inv(s) && Twins(s, s', t) && Allowed(s, run)
    ensures Allowed(s', run) && Final(s', run).cores == Final(s, run).cores && Final(s', run).lock == Final(s, run).lock
    decreases run
  {
    if run != [] {
      var c, v := run[0].0, run[0].1;
      StepInv(s, c, v);
      StepTwins(s, s', t, c, v);
      RunTwins(Next(s, c, v), Next(s', c, v), t, run[1..]);
    }
  }

  /** What was prepared for a task numbered like a core is never used: with any other context in its place, every run
      is possible still, and gives all cores the same registers. */
  lemma NeverUsed(s: State, t: nat, ctx: Regs, run: seq<(nat, Move)>)
    requires Init(s) && t < |s.cores| && t < |s.tasks| && Allowed(s, run)
    ensures Allowed(Prepared(s, t, ctx), run) && Final(Prepared(s, t, ctx), run).cores == Final(s, run).cores
  {
    InitInv(s);
    RunTwins(s, Prepared(s, t, ctx), t, run);
  }

  /** Nor does any other context make more runs possible. */
  lemma NoOtherRuns(s: State, t: nat, ctx: Regs, run: seq<(nat, Move)>)
    requires Init(s) && t < |s.cores| && t < |s.tasks| && Allowed(Prepared(s, t, ctx), run)
    ensures Allowed(s, run)
  {
    var was := s.tasks[t].ctx;
    assert Prepared(Prepared(s, t, ctx), t, was).tasks == s.tasks;
    NeverUsed(Prepared(s, t, ctx), t, was, run);
  }
}
