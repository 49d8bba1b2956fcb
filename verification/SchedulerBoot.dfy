/** The scheduler's code as it runs on one core without interference, and how it starts. */
module SchedulerBoot {
  import Spinlock
  import opened Scheduler
  import opened SchedulerInv
  import opened SchedulerRuns

  const MAX_TASKS: nat := 64

  /** The distance to the first task after `a`, from the `i`th on, that does not run; `n` when all run. */
  function Gap(tasks: seq<Task>, a: nat, i: nat): (r: nat)
    requires 1 <= i <= |tasks|
    ensures i <= r <= |tasks|
    ensures r < |tasks| ==> !tasks[Ahead(a, r, |tasks|)].running
    ensures forall j | i <= j < r :: tasks[Ahead(a, j, |tasks|)].running
    decreases |tasks| - i
  {
    if i == |tasks| || !tasks[Ahead(a, i, |tasks|)].running then i else Gap(tasks, a, i + 1)
  }

  /** The tasks once the timer has interrupted task `t` with registers `regs`. */
  function Interrupted(tasks: seq<Task>, t: nat, regs: Regs): seq<Task>
    requires t < |tasks|
  {
    var counter := tasks[t].counter - 1;
    tasks[t := tasks[t].(ctx := regs, counter := if counter > 0 then counter else SYS_TASK_TICK)]
  }

  /** `t` waits and `u` runs. */
  function Switched(tasks: seq<Task>, t: nat, u: nat): seq<Task>
    requires t < |tasks| && u < |tasks|
  {
    var parked := tasks[t := tasks[t].(running := false)];
    parked[u := parked[u].(running := true)]
  }

  /** The whole timer interrupt on core `c`: the tick, and after the last one of a task the switch to the first task
      behind it, cyclically, that does not run. */
  function AfterTick(s: State, c: nat): State
    requires Sane(s, c) && |s.cores| <= |s.tasks|
  {
    var core, tasks := s.cores[c], Interrupted(s.tasks, s.cores[c].cur, s.cores[c].live);
    var gap := Gap(tasks, core.cur, 1);
    if s.tasks[core.cur].counter - 1 > 0 || |s.tasks| == |s.cores| then
      s.(tasks := tasks, cores := s.cores[c := core.(frame := core.live)])
    else
      var target := Ahead(core.cur, if gap < |tasks| then gap else gap - 1, |tasks|);
      var ctx := tasks[target].ctx;
      if gap < |tasks| then
        s.(tasks := Switched(tasks, core.cur, target), cores := s.cores[c := core.(cur := target, frame := ctx, live := ctx)])
      else
        s.(tasks := tasks, cores := s.cores[c := core.(frame := ctx, live := ctx)])
  }

  // ----- the same thing in the machine

  /** A run of core `c` alone. */
  predicate Alone(run: seq<(nat, Move)>, c: nat) {
    forall k | 0 <= k < |run| :: run[k].0 == c
  }

  /** `run` is a run of core `c` alone from `s` to `s'`. */
  predicate Leads(s: State, c: nat, run: seq<(nat, Move)>, s': State) {
    Allowed(s, run) && Final(s, run) == s' && Alone(run, c)
  }

  lemma First(s: State, c: nat, v: Move, rest: seq<(nat, Move)>, s': State)
    requires Enabled(s, c, v) && Leads(Next(s, c, v), c, rest, s')
    ensures Leads(s, c, [(c, v)] + rest, s')
  {
    assert ([(c, v)] + rest)[1..] == rest;
  }

  lemma Leave(s: State, c: nat) returns (run: seq<(nat, Move)>)
    requires Sane(s, c) && s.cores[c].pc.Leaving?
    ensures Leads(s, c, run, SetCore(s, c, s.cores[c].(pc := User, live := s.cores[c].frame)))
  {
    First(s, c, Kernel(0), [], Next(s, c, Kernel(0)));
    run := [(c, Kernel(0))] + [];
  }

  lemma Step(s: State, c: nat, mid: State, rest: seq<(nat, Move)>, s': State) returns (run: seq<(nat, Move)>)
    requires Enabled(s, c, Kernel(0)) && mid == KernelStep(s, c, 0) && Leads(mid, c, rest, s')
    ensures Leads(s, c, run, s')
  {
    First(s, c, Kernel(0), rest, s');
    run := [(c, Kernel(0))] + rest;
  }

  /** From the release of the lock to the return to user code. */
  lemma Resume(s: State, c: nat, prev: nat, target: nat) returns (run: seq<(nat, Move)>)
    requires Sane(s, c) && s.cores[c].pc == Releasing(prev, target) && target == s.cores[c].cur
    ensures var ctx := s.tasks[target].ctx;
      Leads(s, c, run, State(Spinlock.Free, s.tasks, s.cores[c := Core(User, target, ctx, ctx)]))
  {
    var core, ctx := s.cores[c], s.tasks[target].ctx;
    var s4 := State(Spinlock.Free, s.tasks, s.cores[c := core.(pc := Restoring(target))]);
    var s5 := State(Spinlock.Free, s.tasks, s.cores[c := core.(pc := Leaving, frame := ctx)]);
    var s6 := State(Spinlock.Free, s.tasks, s.cores[c := Core(User, target, ctx, ctx)]);
    run := Leave(s5, c);
    run := Step(s4, c, s5, run, s6);
    run := Step(s, c, s4, run, s6);
  }

  /** From the choice of a task to the return to user code. */
  lemma Switch(s: State, c: nat, prev: nat, i: int, target: nat) returns (run: seq<(nat, Move)>)
    requires Sane(s, c) && s.cores[c].pc == Parking(prev, i, target) && prev == s.cores[c].cur
    ensures var ctx := s.tasks[target].ctx;
      Leads(s, c, run, State(Spinlock.Free, Switched(s.tasks, prev, target), s.cores[c := Core(User, target, ctx, ctx)]))
  {
    var core, ctx, t1, t2 := s.cores[c], s.tasks[target].ctx, s.tasks[prev := s.tasks[prev].(running := false)],
      Switched(s.tasks, prev, target);
    var s1 := State(s.lock, t1, s.cores[c := core.(pc := Waking(prev, i, target))]);
    var s2 := State(s.lock, t2, s.cores[c := core.(pc := Moving(prev, i, target))]);
    var s3 := State(s.lock, t2, s.cores[c := core.(pc := Releasing(prev, target), cur := target)]);
    var s6 := State(Spinlock.Free, t2, s.cores[c := Core(User, target, ctx, ctx)]);
    run := Resume(s3, c, prev, target);
    run := Step(s2, c, s3, run, s6);
    run := Step(s1, c, s2, run, s6);
    run := Step(s, c, s1, run, s6);
  }

  /** From within the scan. */
  lemma Scan(s: State, c: nat, i: nat, next: int) returns (run: seq<(nat, Move)>)
    requires Sane(s, c) && s.cores[c].pc == Scanning(s.cores[c].cur, i, next)
    requires 1 <= i < |s.tasks| && Gap(s.tasks, s.cores[c].cur, i) < |s.tasks|
    ensures var cur := s.cores[c].cur; var target := Ahead(cur, Gap(s.tasks, cur, i), |s.tasks|);
      var ctx := s.tasks[target].ctx;
      Leads(s, c, run, State(Spinlock.Free, Switched(s.tasks, cur, target), s.cores[c := Core(User, target, ctx, ctx)]))
    decreases |s.tasks| - i
  {
    var cur, n := s.cores[c].cur, |s.tasks|;
    var candidate := Ahead(cur, i, n);
    var target := Ahead(cur, Gap(s.tasks, cur, i), n);
    var ctx := s.tasks[target].ctx;
    var s' := State(Spinlock.Free, Switched(s.tasks, cur, target), s.cores[c := Core(User, target, ctx, ctx)]);
    var mid := KernelStep(s, c, 0);
    if s.tasks[candidate].running {
      run := Scan(mid, c, i + 1, candidate);
    } else {
      run := Switch(mid, c, cur, i, candidate);
    }
    run := Step(s, c, mid, run, s');
  }

  /** In a reachable state with the lock free, the scan has a task to find. */
  lemma GapInside(s: State, c: nat)
    requires Inv(s) && c < |s.cores| < |s.tasks| && s.lock == Spinlock.Free
    ensures s.cores[c].cur < |s.tasks| && Gap(s.tasks, s.cores[c].cur, 1) < |s.tasks|
  {
    assert CoreInv(s, c);
    var cur, n := s.cores[c].cur, |s.tasks|;
    assert OnCore(s, cur);
    SomeWaits(s, cur);
    var i :| 1 <= i < n && !OnCore(s, Ahead(cur, i, n));
    assert TaskInv(s, Ahead(cur, i, n));
  }

  /** From the entry of `_schedule` on. */
  lemma Reschedule(s: State, c: nat) returns (run: seq<(nat, Move)>)
    requires Inv(s) && c < |s.cores| && s.cores[c].pc.Entering? && s.lock == Spinlock.Free
    ensures Sane(s, c) && |s.cores| <= |s.tasks|
    ensures |s.tasks| == |s.cores| ==> Leads(s, c, run, SetCore(s, c, s.cores[c].(pc := User, live := s.cores[c].frame)))
    ensures |s.tasks| > |s.cores| ==>
      var cur := s.cores[c].cur; var target := Ahead(cur, Gap(s.tasks, cur, 1), |s.tasks|); var ctx := s.tasks[target].ctx;
      Leads(s, c, run, s.(tasks := Switched(s.tasks, cur, target), cores := s.cores[c := Core(User, target, ctx, ctx)]))
  {
    SaneHere(s, c);
    var s1 := KernelStep(s, c, 0);
    if |s.tasks| == |s.cores| {
      run := Leave(s1, c);
      run := Step(s, c, s1, run, SetCore(s, c, s.cores[c].(pc := User, live := s.cores[c].frame)));
    } else {
      GapInside(s, c);
      var s2 := KernelStep(s1, c, 0);
      var cur := s.cores[c].cur;
      var target := Ahead(cur, Gap(s.tasks, cur, 1), |s.tasks|);
      var ctx := s.tasks[target].ctx;
      var s' := s.(tasks := Switched(s.tasks, cur, target), cores := s.cores[c := Core(User, target, ctx, ctx)]);
      run := Scan(s2, c, 1, -1);
      run := Step(s1, c, s2, run, s');
      run := Step(s, c, s1, run, s');
    }
  }

  /** The state after the tick: about to leave, or about to reschedule. */
  function TickedOnce(s: State, c: nat): State
    requires Sane(s, c)
  {
    var core := s.cores[c];
    s.(tasks := Interrupted(s.tasks, core.cur, core.live),
       cores := s.cores[c := core.(pc := if s.tasks[core.cur].counter > 1 then Leaving else Entering, frame := core.live)])
  }

  lemma FourSteps(s: State, c: nat)
    requires Sane(s, c) && s.cores[c].pc == User
    ensures Enabled(s, c, Trap(Timer)) && Enabled(Next(s, c, Trap(Timer)), c, Kernel(0))
    ensures var s2 := KernelStep(Next(s, c, Trap(Timer)), c, 0); Enabled(s2, c, Kernel(0))
    ensures var s3 := KernelStep(KernelStep(Next(s, c, Trap(Timer)), c, 0), c, 0);
      Enabled(s3, c, Kernel(0)) && KernelStep(s3, c, 0) == TickedOnce(s, c)
  {
    var core, cur, tasks := s.cores[c], s.cores[c].cur, s.tasks;
    var saved := core.(pc := Saving(Timer), frame := core.live);
    var t1 := tasks[cur := tasks[cur].(ctx := core.live)];
    var t2 := t1[cur := t1[cur].(counter := t1[cur].counter - 1)];
    var s1, s2, s3 := s.(cores := s.cores[c := saved]), State(s.lock, t1, s.cores[c := saved.(pc := Ticking)]),
      State(s.lock, t2, s.cores[c := saved.(pc := Scheduler.Ticked)]);
    assert Next(s, c, Trap(Timer)) == s1;
    assert KernelStep(s1, c, 0) == s2;
    assert KernelStep(s2, c, 0) == s3;
    assert KernelStep(s3, c, 0) == TickedOnce(s, c);
  }

  lemma Tick(s: State, c: nat, rest: seq<(nat, Move)>, s': State) returns (run: seq<(nat, Move)>)
    requires Inv(s) && Sane(s, c) && s.cores[c].pc == User && Leads(TickedOnce(s, c), c, rest, s')
    ensures Leads(s, c, run, s')
  {
    FourSteps(s, c);
    var s1 := Next(s, c, Trap(Timer));
    var s2 := KernelStep(s1, c, 0);
    var s3 := KernelStep(s2, c, 0);
    run := Step(s3, c, TickedOnce(s, c), rest, s');
    run := Step(s2, c, s3, run, s');
    run := Step(s1, c, s2, run, s');
    First(s, c, Trap(Timer), run, s');
    run := [(c, Trap(Timer))] + run;
  }

  lemma TickInv(s: State, c: nat)
    requires Inv(s) && Sane(s, c) && s.cores[c].pc == User
    ensures Inv(TickedOnce(s, c))
  {
    FourSteps(s, c);
    var s1 := Next(s, c, Trap(Timer));
    StepInv(s, c, Trap(Timer));
    StepInv(s1, c, Kernel(0));
    StepInv(KernelStep(s1, c, 0), c, Kernel(0));
    StepInv(KernelStep(KernelStep(s1, c, 0), c, 0), c, Kernel(0));
  }

  /** The machine's core `c`, undisturbed through a timer interrupt, does what the code computes. */
  lemma Undisturbed(s: State, c: nat) returns (run: seq<(nat, Move)>)
    requires Inv(s) && c < |s.cores| && s.cores[c].pc == User && s.lock == Spinlock.Free
    ensures Sane(s, c) && Leads(s, c, run, AfterTick(s, c)) && Inv(AfterTick(s, c))
  {
    SaneHere(s, c);
    TickInv(s, c);
    var s4, s' := TickedOnce(s, c), AfterTick(s, c);
    assert s4.cores[c := s'.cores[c]] == s'.cores;
    if s.tasks[s.cores[c].cur].counter > 1 {
      run := Leave(s4, c);
    } else {
      if |s.cores| < |s.tasks| {
        GapInside(s4, c);
      }
      run := Reschedule(s4, c);
    }
    run := Tick(s, c, run, s');
    RunInv(s, run);
  }

  /** `task_list`, the cores, and the scheduler's lock. */
  class Kernel {
    var lock: Spinlock.Lock
    var tasks: seq<Task>
    var cores: seq<Core>

    function View(): State
      reads this
    {
      State(lock, tasks, cores)
    }

    /** `schedule_init`, with `smp` cores in their boot code. */
    constructor (smp: nat, boot: Regs)
      ensures lock == Spinlock.Free && tasks == [] && cores == seq(smp, _ => Core(User, 0, boot, boot))
    {
      lock, tasks, cores := Spinlock.Free, [], seq(smp, _ => Core(User, 0, boot, boot));
    }

    /** `create_task`, with the entry point and stack of the task in `ctx`. */
    method CreateTask(ctx: Regs) returns (ok: bool)
      modifies this`tasks
      ensures ok <==> old(|tasks|) < MAX_TASKS
      ensures tasks == if ok then old(tasks) + [Task(false, SYS_TASK_TICK, ctx)] else old(tasks)
    {
      if |tasks| >= MAX_TASKS {
        return false;
      }
      tasks := tasks + [Task(false, SYS_TASK_TICK, ctx)];
      return true;
    }

    /** `schedule_init_local` on core `c`. */
    method InitLocal(c: nat)
      requires c < |cores| <= |tasks|
      modifies this`tasks, this`cores
      ensures tasks == old(tasks)[c := old(tasks)[c].(running := true)]
      ensures cores == old(cores)[c := old(cores)[c].(cur := c)]
    {
      cores := cores[c := cores[c].(cur := c)];
      tasks := tasks[c := tasks[c].(running := true)];
    }

    /** The start: the tasks are created, and then every core takes the task of its own number. */
    method Start(ctxs: seq<Regs>)
      requires lock == Spinlock.Free && tasks == [] && |cores| <= |ctxs| <= MAX_TASKS
      requires forall c | 0 <= c < |cores| :: cores[c].pc == User
      modifies this
      ensures Init(View()) && |tasks| == |ctxs| && |cores| == old(|cores|)
      ensures forall t | 0 <= t < |tasks| :: tasks[t].ctx == ctxs[t]
    {
      var n := |cores|;
      while |tasks| < |ctxs|
        invariant lock == Spinlock.Free && cores == old(cores) && |tasks| <= |ctxs|
        invariant forall t | 0 <= t < |tasks| :: tasks[t] == Task(false, SYS_TASK_TICK, ctxs[t])
      {
        var ok := CreateTask(ctxs[|tasks|]);
      }
      var c := 0;
      while c < n
        invariant 0 <= c <= n == |cores| && lock == Spinlock.Free && |tasks| == |ctxs|
        invariant forall d | 0 <= d < n :: cores[d].pc == User && (d < c ==> cores[d].cur == d)
        invariant forall t | 0 <= t < |tasks| :: tasks[t] == Task(t < c, SYS_TASK_TICK, ctxs[t])
      {
        InitLocal(c);
        c := c + 1;
      }
    }

    /** `_schedule` with a trap frame. */
    method Schedule(c: nat)
      requires c < |cores| <= |tasks| && cores[c].cur < |tasks| && lock == Spinlock.Free
      modifies this
      ensures lock == Spinlock.Free
      ensures var cur, n := old(cores[c].cur), |old(tasks)|;
        var gap := Gap(old(tasks), cur, 1);
        if n == |old(cores)| then tasks == old(tasks) && cores == old(cores)
        else if gap < n then
          var target := Ahead(cur, gap, n);
          && tasks == Switched(old(tasks), cur, target)
          && cores == old(cores)[c := old(cores)[c].(cur := target, frame := old(tasks)[target].ctx)]
        else
          tasks == old(tasks) && cores == old(cores)[c := old(cores)[c].(frame := old(tasks)[Ahead(cur, n - 1, n)].ctx)]
    {
      var n := |tasks|;
      if n == |cores| {
        return;
      }
      var curr := cores[c].cur;
      var next := -1;
      lock := Spinlock.HeldBy(c);
      var i := 1;
      while i < n
        invariant 1 <= i <= n && tasks == old(tasks) && cores == old(cores) && lock == Spinlock.HeldBy(c)
        invariant Gap(tasks, curr, 1) == Gap(tasks, curr, i)
        invariant next == if i == 1 then -1 else Ahead(curr, i - 1, n)
      {
        next := Ahead(curr, i, n);
        if !tasks[next].running {
          tasks := tasks[curr := tasks[curr].(running := false)];
          tasks := tasks[next := tasks[next].(running := true)];
          cores := cores[c := cores[c].(cur := next)];
          break;
        }
        i := i + 1;
      }
      lock := Spinlock.Free;
      if next == -1 {
        return;
      }
      cores := cores[c := cores[c].(frame := tasks[next].ctx)];
    }

    /** The trap, `handle_irq_exception`, and `timer_tick_schedule` up to the test of the counter. */
    method Tick(c: nat) returns (due: bool)
      requires c < |cores| <= |tasks| && cores[c].cur < |tasks|
      modifies this`tasks, this`cores
      ensures var core := old(cores[c]);
        && tasks == Interrupted(old(tasks), core.cur, core.live)
        && cores == old(cores)[c := core.(frame := core.live)] && (due <==> old(tasks[core.cur]).counter <= 1)
    {
      cores := cores[c := cores[c].(frame := cores[c].live)];
      var curr := cores[c].cur;
      tasks := tasks[curr := tasks[curr].(ctx := cores[c].frame)];
      tasks := tasks[curr := tasks[curr].(counter := tasks[curr].counter - 1)];
      due := tasks[curr].counter <= 0;
      if due {
        tasks := tasks[curr := tasks[curr].(counter := SYS_TASK_TICK)];
      }
    }

    /** The timer interrupt, to the return to user code. */
    method TimerInterrupt(c: nat)
      requires c < |cores| <= |tasks| && cores[c].cur < |tasks| && cores[c].pc == User && lock == Spinlock.Free
      modifies this
      ensures View() == AfterTick(old(View()), c)
    {
      var due := Tick(c);
      if due {
        Schedule(c);
      }
      cores := cores[c := cores[c].(live := cores[c].frame)];
    }
  }
}
