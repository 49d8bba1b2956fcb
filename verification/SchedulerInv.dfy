/** What every reachable state of the scheduler satisfies. */
module SchedulerInv {
  import opened Counting
  import Spinlock
  import opened Scheduler

  ghost predicate OnCore(s: State, t: nat) {
    exists c | 0 <= c < |s.cores| :: s.cores[c].cur == t
  }

  predicate InLock(pc: Pc) {
    pc.Scanning? || pc.Parking? || pc.Waking? || pc.Moving? || pc.Releasing?
  }

  predicate Choosing(pc: Pc) {
    pc.Entering? || pc.Acquiring? || pc.Scanning? || pc.Parking? || pc.Waking? || pc.Moving?
  }

  /** The tasks less than `i` places after `a` all run. */
  ghost predicate Passed(s: State, a: nat, i: int) {
    |s.tasks| > 0 && forall j | 1 <= j < i :: OnCore(s, Ahead(a, j, |s.tasks|))
  }

  ghost predicate Chosen(s: State, cur: nat, prev: nat, i: int, target: nat) {
    prev == cur && |s.cores| < |s.tasks| && 1 <= i < |s.tasks| && target == Ahead(cur, i, |s.tasks|)
    && !OnCore(s, target) && Passed(s, cur, i)
  }

  ghost predicate PcInv(s: State, pc: Pc, cur: nat) {
    match pc
    case Acquiring(prev) => prev == cur && |s.cores| < |s.tasks|
    case Scanning(prev, i, next) => prev == cur && |s.cores| < |s.tasks| && 1 <= i < |s.tasks| && Passed(s, cur, i)
    case Parking(prev, i, target) => Chosen(s, cur, prev, i, target)
    case Waking(prev, i, target) => Chosen(s, cur, prev, i, target)
    case Moving(prev, i, target) => Chosen(s, cur, prev, i, target)
    case Releasing(prev, next) => next == cur
    case Restoring(next) => next == cur
    case _ => true
  }

  /** The current task of a core: its counter, and the context saved on the way in. */
  predicate CurInv(task: Task, core: Core) {
    && (if core.pc.Ticked? then 0 <= task.counter < SYS_TASK_TICK else 1 <= task.counter <= SYS_TASK_TICK)
    && (Choosing(core.pc) ==> task.counter == SYS_TASK_TICK)
    && (Choosing(core.pc) || core.pc.Ticking? || core.pc.Ticked? ==> task.ctx == core.frame)
  }

  ghost predicate CoreInv(s: State, c: nat)
    requires c < |s.cores|
  {
    var core := s.cores[c];
    && core.cur < |s.tasks| && CurInv(s.tasks[core.cur], core) && PcInv(s, core.pc, core.cur)
    && (InLock(core.pc) <==> s.lock == Spinlock.HeldBy(c))
  }

  /** The RUNNING tasks: those on some core, but for the switch under way inside the lock. */
  ghost predicate Runs(s: State, t: nat) {
    if s.lock.HeldBy? && s.lock.c < |s.cores| && s.cores[s.lock.c].pc.Waking? then
      OnCore(s, t) && t != s.cores[s.lock.c].cur
    else if s.lock.HeldBy? && s.lock.c < |s.cores| && s.cores[s.lock.c].pc.Moving? then
      (OnCore(s, t) && t != s.cores[s.lock.c].cur) || t == s.cores[s.lock.c].pc.target
    else OnCore(s, t)
  }

  ghost predicate TaskInv(s: State, t: nat)
    requires t < |s.tasks|
  {
    (s.tasks[t].running <==> Runs(s, t)) && (!OnCore(s, t) ==> s.tasks[t].counter == SYS_TASK_TICK)
  }

  ghost predicate Injective(s: State) {
    forall c, d | 0 <= c < d < |s.cores| :: s.cores[c].cur != s.cores[d].cur
  }

  ghost predicate Inv(s: State) {
    && |s.cores| <= |s.tasks| && Injective(s) && (s.lock.HeldBy? ==> s.lock.c < |s.cores|)
    && (forall c | 0 <= c < |s.cores| :: CoreInv(s, c))
    && (forall t | 0 <= t < |s.tasks| :: TaskInv(s, t))
  }

  /** All cores have finished `schedule_init_local`: core `c` stands for task `c`, whatever its registers hold. */
  predicate Init(s: State) {
    && |s.cores| <= |s.tasks| && s.lock == Spinlock.Free
    && (forall c | 0 <= c < |s.cores| :: s.cores[c].cur == c && s.cores[c].pc == User)
    && (forall t | 0 <= t < |s.tasks| :: s.tasks[t].counter == SYS_TASK_TICK && (s.tasks[t].running <==> t < |s.cores|))
  }

  lemma InitInv(s: State)
    requires Init(s)
    ensures Inv(s)
  {
    forall t: nat | t < |s.tasks|
      ensures OnCore(s, t) <==> t < |s.cores|
    {
      if t < |s.cores| {
        assert s.cores[t].cur == t;
      }
    }
  }

  /** With fewer cores than tasks, the scan meets a task that is on no core. */
  lemma SomeWaits(s: State, a: nat)
    requires |s.cores| < |s.tasks| && a < |s.tasks| && OnCore(s, a)
    ensures exists i | 1 <= i < |s.tasks| :: !OnCore(s, Ahead(a, i, |s.tasks|))
  {
    var n, curs := |s.tasks|, seq(|s.cores|, c requires 0 <= c < |s.cores| => s.cores[c].cur);
    ElementsBound(curs);
    if Slots(n) <= Elements(curs) {
      SubsetSize(Slots(n), Elements(curs));
    }
    var t: nat :| t in Slots(n) && t !in Elements(curs);
    forall c | 0 <= c < |s.cores|
      ensures s.cores[c].cur != t
    {
      assert curs[c] in Elements(curs);
    }
    assert !OnCore(s, t);
    var i := if t >= a then t - a else t - a + n;
    assert t == Ahead(a, i, n);
  }

  lemma {:induction false} ElementsBound(p: seq<int>)
    ensures |Elements(p)| <= |p|
  {
    if p != [] {
      ElementsBound(p[1..]);
      assert Elements(p) == Elements(p[1..]) + {p[0]};
    }
  }

  // ----- every step keeps the invariant

  /** Inside the lock the tasks on the cores do not change under the holder. */
  lemma SameImage(s: State, s': State, c: nat)
    requires c < |s.cores| == |s'.cores| && s'.cores == s.cores[c := s'.cores[c]] && s'.cores[c].cur == s.cores[c].cur
    ensures forall t: nat :: OnCore(s', t) <==> OnCore(s, t)
  {
    forall t: nat
      ensures OnCore(s', t) <==> OnCore(s, t)
    {
      if d :| 0 <= d < |s.cores| && s.cores[d].cur == t {
        assert s'.cores[d].cur == t;
      }
      if d :| 0 <= d < |s'.cores| && s'.cores[d].cur == t {
        assert s.cores[d].cur == t;
      }
    }
  }

  /** A core's part of the invariant survives a step of another core that leaves its task and the image alone. */
  lemma OtherCore(s: State, s': State, d: nat)
    requires d < |s.cores| == |s'.cores| && |s.tasks| == |s'.tasks| && CoreInv(s, d) && s'.cores[d] == s.cores[d]
    requires (s.lock == Spinlock.HeldBy(d)) <==> (s'.lock == Spinlock.HeldBy(d))
    requires s'.tasks[s.cores[d].cur].counter == s.tasks[s.cores[d].cur].counter
    requires s'.tasks[s.cores[d].cur].ctx == s.tasks[s.cores[d].cur].ctx
    requires InLock(s.cores[d].pc) ==> forall t: nat :: OnCore(s', t) <==> OnCore(s, t)
    ensures CoreInv(s', d)
  {}

  /** A step of core `c` that switches no task: it is enough to look at `c` and at the tasks. */
  lemma Unswitched(s: State, s': State, c: nat)
    requires Inv(s) && c < |s.cores| == |s'.cores| && |s.tasks| == |s'.tasks|
    requires s'.cores == s.cores[c := s'.cores[c]] && s'.cores[c].cur == s.cores[c].cur
    requires forall d | 0 <= d < |s.cores| && d != c :: s.lock == Spinlock.HeldBy(d) <==> s'.lock == Spinlock.HeldBy(d)
    requires forall t | 0 <= t < |s.tasks| && t != s.cores[c].cur ::
      s'.tasks[t].counter == s.tasks[t].counter && s'.tasks[t].ctx == s.tasks[t].ctx
    requires s'.lock.HeldBy? ==> s'.lock.c < |s.cores|
    requires (forall t: nat :: OnCore(s', t) <==> OnCore(s, t)) ==> CoreInv(s', c)
    requires forall t | 0 <= t < |s.tasks| :: s'.tasks[t].running <==> Runs(s', t)
    ensures Inv(s')
  {
    SameImage(s, s', c);
    forall d | 0 <= d < |s.cores| && d != c
      ensures CoreInv(s', d)
    {
      assert CoreInv(s, d);
      assert s.cores[d].cur != s.cores[c].cur;
      OtherCore(s, s', d);
    }
    forall t | 0 <= t < |s.tasks|
      ensures TaskInv(s', t)
    {
      assert TaskInv(s, t);
    }
    assert Injective(s');
  }

  /** A step outside the lock, or one that leaves the lock and the RUNNING flags alone. */
  lemma StepOutside(s: State, c: nat, v: Move)
    requires Inv(s) && Enabled(s, c, v)
    requires var pc := s.cores[c].pc; !pc.Acquiring? && !InLock(pc)
    ensures Inv(Next(s, c, v))
  {
    var s' := Next(s, c, v);
    assert CoreInv(s, c);
    SameImage(s, s', c);
    forall t | 0 <= t < |s.tasks|
      ensures s'.tasks[t].running <==> Runs(s', t)
    {
      assert TaskInv(s, t);
    }
    Unswitched(s, s', c);
  }

  lemma StepAcquire(s: State, c: nat, v: Move)
    requires Inv(s) && Enabled(s, c, v) && s.cores[c].pc.Acquiring?
    ensures Inv(Next(s, c, v))
  {
    var s' := Next(s, c, v);
    assert CoreInv(s, c);
    SameImage(s, s', c);
    forall t | 0 <= t < |s.tasks|
      ensures s'.tasks[t].running <==> Runs(s', t)
    {
      assert TaskInv(s, t);
    }
    Unswitched(s, s', c);
  }

  /** The scan stops at a task that is on no core, after tasks that all are, and never runs off its end. */
  lemma StepScan(s: State, c: nat, v: Move)
    requires Inv(s) && Enabled(s, c, v) && s.cores[c].pc.Scanning?
    ensures Inv(Next(s, c, v))
  {
    var s', n := Next(s, c, v), |s.tasks|;
    assert CoreInv(s, c);
    var cur, i := s.cores[c].cur, s.cores[c].pc.i;
    SameImage(s, s', c);
    assert TaskInv(s, Ahead(cur, i, n));
    SomeWaits(s, cur);
    forall t | 0 <= t < n
      ensures s'.tasks[t].running <==> Runs(s', t)
    {
      assert TaskInv(s, t);
    }
    Unswitched(s, s', c);
  }

  lemma StepFlags(s: State, c: nat, v: Move)
    requires Inv(s) && Enabled(s, c, v) && (s.cores[c].pc.Parking? || s.cores[c].pc.Waking?)
    ensures Inv(Next(s, c, v))
  {
    var s' := Next(s, c, v);
    assert CoreInv(s, c);
    SameImage(s, s', c);
    forall t | 0 <= t < |s.tasks|
      ensures s'.tasks[t].running <==> Runs(s', t)
    {
      assert TaskInv(s, t);
    }
    Unswitched(s, s', c);
  }

  lemma StepRelease(s: State, c: nat, v: Move)
    requires Inv(s) && Enabled(s, c, v) && s.cores[c].pc.Releasing?
    ensures Inv(Next(s, c, v))
  {
    var s' := Next(s, c, v);
    assert CoreInv(s, c);
    SameImage(s, s', c);
    forall t | 0 <= t < |s.tasks|
      ensures s'.tasks[t].running <==> Runs(s', t)
    {
      assert TaskInv(s, t);
    }
    Unswitched(s, s', c);
  }

  /** The switch itself: one task leaves the image and one enters it. */
  lemma SwitchedImage(s: State, s': State, c: nat, target: nat)
    requires Injective(s) && c < |s.cores| == |s'.cores| && s'.cores == s.cores[c := s'.cores[c]] && s'.cores[c].cur == target
    ensures forall t: nat :: OnCore(s', t) <==> t == target || (OnCore(s, t) && t != s.cores[c].cur)
  {
    forall t: nat
      ensures OnCore(s', t) <==> t == target || (OnCore(s, t) && t != s.cores[c].cur)
    {
      if t == target {
        assert s'.cores[c].cur == t;
      } else if d :| 0 <= d < |s.cores| && s.cores[d].cur == t {
        assert d != c ==> s'.cores[d].cur == t;
        assert s.cores[c].cur != t ==> d != c;
        assert d != c ==> s.cores[d].cur != s.cores[c].cur;
      } else if d :| 0 <= d < |s'.cores| && s'.cores[d].cur == t {
        assert s.cores[d].cur == t;
      }
    }
  }

  lemma StepMove(s: State, c: nat, v: Move)
    requires Inv(s) && Enabled(s, c, v) && s.cores[c].pc.Moving?
    ensures Inv(Next(s, c, v))
  {
    var s', target := Next(s, c, v), s.cores[c].pc.target;
    assert CoreInv(s, c);
    SwitchedImage(s, s', c, target);
    forall d | 0 <= d < |s.cores| && d != c
      ensures CoreInv(s', d) && s'.cores[d].cur != target
    {
      assert CoreInv(s, d);
      assert s.cores[d].cur == target ==> OnCore(s, target);
      OtherCore(s, s', d);
    }
    forall t | 0 <= t < |s.tasks|
      ensures TaskInv(s', t)
    {
      assert TaskInv(s, t);
    }
    assert CoreInv(s', c) by {
      assert TaskInv(s, target);
    }
  }

  lemma StepInv(s: State, c: nat, v: Move)
    requires Inv(s) && Enabled(s, c, v)
    ensures Inv(Next(s, c, v))
  {
    match s.cores[c].pc
    case Acquiring(_) => StepAcquire(s, c, v);
    case Scanning(_, _, _) => StepScan(s, c, v);
    case Parking(_, _, _) => StepFlags(s, c, v);
    case Waking(_, _, _) => StepFlags(s, c, v);
    case Moving(_, _, _) => StepMove(s, c, v);
    case Releasing(_, _) => StepRelease(s, c, v);
    case _ => StepOutside(s, c, v);
  }
}
