/** The load-exclusive/store-exclusive spin lock as an interleaving of single instructions. */
module Spinlock {

  /** Where a core stands; `retry` tells `spin_lock` from `spin_trylock`. */
  datatype Pc =
    | Outside
    | Load(retry: bool)
    | Test(retry: bool, w2: int)
    | Store(retry: bool)
    | Check(retry: bool, w2: int)
    | Inside
    | Refused
    | Unlock

  /** The lock word, and for each core its position and whether its exclusive monitor covers the lock word. */
  datatype State = State(lock: int, pcs: seq<Pc>, monitor: seq<bool>)

  /** What one core does next.  A store-exclusive may fail even with the monitor set, and the monitor may be lost
      at any time. */
  datatype Move = Call(retry: bool) | Ldaxr | Cbnz | Stlxr(ok: bool) | CallUnlock | Stlr | Return | LoseMonitor

  predicate Fits(s: State, c: nat) {
    c < |s.pcs| == |s.monitor|
  }

  predicate Enabled(s: State, c: nat, v: Move) {
    Fits(s, c) &&
    match v
    case Call(_) => s.pcs[c] == Outside
    case Ldaxr => s.pcs[c].Load?
    case Cbnz => s.pcs[c].Test? || s.pcs[c].Check?
    case Stlxr(ok) => s.pcs[c].Store? && (ok ==> s.monitor[c])
    case CallUnlock => s.pcs[c] == Inside
    case Stlr => s.pcs[c] == Unlock
    case Return => s.pcs[c] == Refused
    case LoseMonitor => true
  }

  function Clear(n: nat): (r: seq<bool>)
    ensures |r| == n && forall i | 0 <= i < n :: !r[i]
  {
    seq(n, _ => false)
  }

  function Next(s: State, c: nat, v: Move): State
    requires Enabled(s, c, v)
  {
    match v
    case Call(retry) => s.(pcs := s.pcs[c := Load(retry)])
    case Ldaxr => s.(pcs := s.pcs[c := Test(s.pcs[c].retry, s.lock)], monitor := s.monitor[c := true])
    case Cbnz =>
      var t := s.pcs[c];
      if t.w2 != 0 then s.(pcs := s.pcs[c := if t.retry then Load(true) else Refused])
      else s.(pcs := s.pcs[c := if t.Test? then Store(t.retry) else Inside])
    case Stlxr(ok) =>
      if ok then State(1, s.pcs[c := Check(s.pcs[c].retry, 0)], Clear(|s.monitor|))
      else s.(pcs := s.pcs[c := Check(s.pcs[c].retry, 1)], monitor := s.monitor[c := false])
    case CallUnlock => s.(pcs := s.pcs[c := Unlock])
    case Stlr => State(0, s.pcs[c := Outside], Clear(|s.monitor|)[c := s.monitor[c]])
    case Return => s.(pcs := s.pcs[c := Outside])
    case LoseMonitor => s.(monitor := s.monitor[c := false])
  }

  /** From the store that took the lock to the store that gives it back. */
  predicate Owns(s: State, c: nat) {
    c < |s.pcs| && (s.pcs[c].Inside? || s.pcs[c].Unlock? || (s.pcs[c].Check? && s.pcs[c].w2 == 0))
  }

  /** A core's own part of the invariant: while the monitor holds, the lock word is what the core loaded. */
  predicate CoreInv(lock: int, pc: Pc, monitor: bool) {
    && (pc.Test? && monitor ==> pc.w2 == lock)
    && (pc.Store? && monitor ==> lock == 0)
  }

  ghost predicate Inv(s: State) {
    && |s.pcs| == |s.monitor| && (s.lock == 0 || s.lock == 1)
    && (forall c | 0 <= c < |s.pcs| :: CoreInv(s.lock, s.pcs[c], s.monitor[c]))
    && (forall c, d: nat | Owns(s, c) && Owns(s, d) :: c == d)
    && (s.lock == 1 <==> exists c: nat :: Owns(s, c))
  }

  predicate Init(s: State) {
    s.lock == 0 && |s.pcs| == |s.monitor| && forall c | 0 <= c < |s.pcs| :: s.pcs[c] == Outside
  }

  lemma StepInv(s: State, c: nat, v: Move)
    requires Inv(s) && Enabled(s, c, v)
    ensures Inv(Next(s, c, v))
  {
    var s' := Next(s, c, v);
    assert forall d: nat | d != c :: Owns(s', d) == Owns(s, d);
    if v == Stlxr(true) {
      assert Owns(s', c);
    } else if v == Stlr {
      assert Owns(s, c);
    } else {
      assert Owns(s', c) == Owns(s, c);
      if d: nat :| Owns(s, d) {
        assert Owns(s', d);
      }
    }
  }

  // ----- runs

  predicate Allowed(s: State, run: seq<(nat, Move)>)
    decreases run
  {
    run == [] || (Enabled(s, run[0].0, run[0].1) && Allowed(Next(s, run[0].0, run[0].1), run[1..]))
  }

  function Final(s: State, run: seq<(nat, Move)>): State
    requires Allowed(s, run)
    decreases run
  {
    if run == [] then s else Final(Next(s, run[0].0, run[0].1), run[1..])
  }

  lemma {:induction false} RunInv(s: State, run: seq<(nat, Move)>)
    requires Inv(s) && Allowed(s, run)
    ensures Inv(Final(s, run))
    decreases run
  {
    if run != [] {
      StepInv(s, run[0].0, run[0].1);
      RunInv(Next(s, run[0].0, run[0].1), run[1..]);
    }
  }

  /** Over every interleaving, at most one core is inside, and the lock word is 1 exactly when one owns the lock. */
  lemma MutualExclusion(s: State, run: seq<(nat, Move)>)
    requires Init(s) && Allowed(s, run)
    ensures var s' := Final(s, run);
      && (forall c, d: nat | Owns(s', c) && Owns(s', d) :: c == d)
      && (s'.lock == 1 <==> exists c: nat :: Owns(s', c)) && (s'.lock == 0 || s'.lock == 1)
  {
    RunInv(s, run);
  }

  // ----- the lock as its users see it

  datatype Lock = Free | HeldBy(c: nat)

  ghost predicate Shows(s: State, l: Lock) {
    match l
    case Free => forall c: nat :: !Owns(s, c)
    case HeldBy(c) => Owns(s, c)
  }

  /** The atomic lock: a free one may be taken, and its holder may give it back. */
  function LockAfter(l: Lock, c: nat, v: Move): Lock {
    if v == Stlxr(true) then HeldBy(c) else if v == Stlr then Free else l
  }

  /** Every instruction is a step of the atomic lock: it is taken only when free and freed only by its holder. */
  lemma Refines(s: State, l: Lock, c: nat, v: Move)
    requires Inv(s) && Enabled(s, c, v) && Shows(s, l)
    ensures Shows(Next(s, c, v), LockAfter(l, c, v))
    ensures v == Stlxr(true) ==> l == Free
    ensures v == Stlr ==> l == HeldBy(c)
  {
    StepInv(s, c, v);
    var s' := Next(s, c, v);
    assert forall d: nat | d != c :: Owns(s', d) == Owns(s, d);
    assert Owns(s', c) == if v == Stlxr(true) then true else if v == Stlr then false else Owns(s, c);
    if v == Stlr {
      assert Owns(s, c);
    }
    if l.HeldBy? {
      assert s.lock == 1;
    }
  }

  lemma One(s: State, c: nat, v: Move, run: seq<(nat, Move)>)
    requires Enabled(s, c, v) && Allowed(Next(s, c, v), run)
    ensures Allowed(s, [(c, v)] + run) && Final(s, [(c, v)] + run) == Final(Next(s, c, v), run)
  {
    assert ([(c, v)] + run)[1..] == run;
  }

  /** A core that meets a free lock and is not disturbed gets it in four instructions. */
  lemma Undisturbed(s: State, c: nat)
    requires Inv(s) && Fits(s, c) && s.pcs[c].Load? && s.lock == 0
    ensures var run: seq<(nat, Move)> := [(c, Ldaxr)] + ([(c, Cbnz)] + ([(c, Stlxr(true))] + ([(c, Cbnz)] + [])));
      Allowed(s, run) && Fits(Final(s, run), c) && Final(s, run).pcs[c] == Inside
  {
    var s1 := Next(s, c, Ldaxr);
    var s2 := Next(s1, c, Cbnz);
    var s3 := Next(s2, c, Stlxr(true));
    One(s3, c, Cbnz, []);
    One(s2, c, Stlxr(true), [(c, Cbnz)] + []);
    One(s1, c, Cbnz, [(c, Stlxr(true))] + ([(c, Cbnz)] + []));
    One(s, c, Ldaxr, [(c, Cbnz)] + ([(c, Stlxr(true))] + ([(c, Cbnz)] + [])));
  }
}
