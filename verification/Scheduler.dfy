/** The round-robin scheduler on several cores, as an interleaving of single accesses to shared memory. */
module Scheduler {
  import Spinlock

  const SYS_TASK_TICK: int := 20

  /** A trap frame: `r[0]`, and all its other registers. */
  datatype Regs = Regs(r0: int, rest: seq<int>)

  datatype Task = Task(running: bool, counter: int, ctx: Regs)

  datatype Kind = Timer | OtherIrq | Svc

  /** Where a core stands.  `prev`, `i`, `next` are the local variables of `_schedule`; -1 is its initial `next_task_id`. */
  datatype Pc =
    | User
    | Saving(k: Kind)                          // exception.c:20, 76
    | Answering                                // exception.c:28-30
    | Ticking                                  // task.c:161
    | Ticked                                   // task.c:163-166
    | Entering                                 // task.c:106
    | Acquiring(prev: nat)                     // task.c:116
    | Scanning(prev: nat, i: int, next: int)   // task.c:117-121
    | Parking(prev: nat, i: int, target: nat)    // task.c:127
    | Waking(prev: nat, i: int, target: nat)     // task.c:128
    | Moving(prev: nat, i: int, target: nat)     // task.c:129
    | Releasing(prev: nat, next: int)          // task.c:133
    | Restoring(next: int)                     // task.c:134, 203
    | Leaving                                  // exception.S:112

  /** `live` are the registers of a core in user mode, `frame` the trap frame on its kernel stack. */
  datatype Core = Core(pc: Pc, cur: nat, live: Regs, frame: Regs)

  datatype State = State(lock: Spinlock.Lock, tasks: seq<Task>, cores: seq<Core>)

  /** A core runs user code, takes a trap, or executes its next kernel step (a system call returns `ret`). */
  datatype Move = UserCode(regs: Regs) | Trap(k: Kind) | Kernel(ret: int)

  /** All indices that the step needs are in range. */
  predicate Sane(s: State, c: nat) {
    c < |s.cores| && s.cores[c].cur < |s.tasks| &&
    match s.cores[c].pc
    case Scanning(prev, _, _) => prev < |s.tasks|
    case Parking(prev, _, target) => prev < |s.tasks| && target < |s.tasks|
    case Waking(prev, _, target) => prev < |s.tasks| && target < |s.tasks|
    case Moving(prev, _, target) => prev < |s.tasks| && target < |s.tasks|
    case Restoring(next) => 0 <= next < |s.tasks|
    case _ => true
  }

  predicate Enabled(s: State, c: nat, v: Move) {
    Sane(s, c) && (v.Kernel? <==> s.cores[c].pc != User) && (s.cores[c].pc.Acquiring? ==> s.lock == Spinlock.Free)
  }

  function SetCore(s: State, c: nat, core: Core): (s': State)
    requires c < |s.cores|
    ensures s' == s.(cores := s.cores[c := core])
  {
    s.(cores := s.cores[c := core])
  }

  function Goto(s: State, c: nat, pc: Pc): State
    requires c < |s.cores|
  {
    SetCore(s, c, s.cores[c].(pc := pc))
  }

  function SetTask(s: State, t: nat, task: Task): State
    requires t < |s.tasks|
  {
    s.(tasks := s.tasks[t := task])
  }

  function Next(s: State, c: nat, v: Move): State
    requires Enabled(s, c, v)
  {
    var core := s.cores[c];
    match v
    case UserCode(regs) => SetCore(s, c, core.(live := regs))
    case Trap(k) => SetCore(s, c, core.(pc := Saving(k), frame := core.live))
    case Kernel(ret) => KernelStep(s, c, ret)
  }

  function KernelStep(s: State, c: nat, ret: int): State
    requires Sane(s, c) && s.cores[c].pc != User
  {
    var core, n, smp := s.cores[c], |s.tasks|, |s.cores|;
    match core.pc
    case Saving(k) =>
      Goto(SetTask(s, core.cur, s.tasks[core.cur].(ctx := core.frame)), c,
        match k case Timer => Ticking case OtherIrq => Leaving case Svc => Answering)
    case Answering => SetCore(s, c, core.(pc := Leaving, frame := core.frame.(r0 := ret)))
    case Ticking => Goto(SetTask(s, core.cur, s.tasks[core.cur].(counter := s.tasks[core.cur].counter - 1)), c, Ticked)
    case Ticked =>
      if s.tasks[core.cur].counter > 0 then Goto(s, c, Leaving)
      else Goto(SetTask(s, core.cur, s.tasks[core.cur].(counter := SYS_TASK_TICK)), c, Entering)
    case Entering => Goto(s, c, if n == smp then Leaving else Acquiring(core.cur))
    case Acquiring(prev) => Goto(s, c, Scanning(prev, 1, -1)).(lock := Spinlock.HeldBy(c))
    case Scanning(prev, i, next) =>
      if i >= n then Goto(s, c, Releasing(prev, next))
      else
        var candidate := Ahead(prev, i, n);
        Goto(s, c, if s.tasks[candidate].running then Scanning(prev, i + 1, candidate) else Parking(prev, i, candidate))
    case Parking(prev, i, target) => Goto(SetTask(s, prev, s.tasks[prev].(running := false)), c, Waking(prev, i, target))
    case Waking(prev, i, target) => Goto(SetTask(s, target, s.tasks[target].(running := true)), c, Moving(prev, i, target))
    case Moving(prev, i, target) => SetCore(s, c, core.(pc := Releasing(prev, target), cur := target))
    case Releasing(prev, next) => Goto(s, c, if next == -1 then Leaving else Restoring(next)).(lock := Spinlock.Free)
    case Restoring(next) => SetCore(s, c, core.(pc := Leaving, frame := s.tasks[next].ctx))
    case Leaving => SetCore(s, c, core.(pc := User, live := core.frame))
    case User => s
  }

  /** The task `i` places after `a`, cyclically. */
  function Ahead(a: nat, i: int, n: nat): (r: nat)
    requires n > 0
    ensures r < n
    ensures a < n && 0 <= i <= n ==> r == if a + i < n then a + i else a + i - n
  {
    WrapOnce(a + i, n);
    (a + i) % n
  }

  lemma WrapOnce(x: int, n: nat)
    requires n > 0
    ensures 0 <= x < n ==> x % n == x
    ensures n <= x < 2 * n ==> x % n == x - n
  {
    if 0 <= x < n {
      Remainder(x, n, 0, x);
    } else if n <= x < 2 * n {
      Remainder(x, n, 1, x - n);
    }
  }

  lemma Remainder(x: int, n: nat, q: int, r: nat)
    requires n > 0 && x == q * n + r && r < n
    ensures x % n == r
  {
    Multiples(x / n - q, n);
    assert (x / n - q) * n == r - x % n;
  }

  lemma Multiples(d: int, n: nat)
    ensures d >= 1 ==> d * n >= n
    ensures d <= -1 ==> d * n <= 0 - n
  {}
}
