/** Injecting a virtual interrupt into the GIC's list registers. */
module Vgic {

  const GICH_LR_NUM: nat := 4

  // ----- the list-register word (section 5.3 of ARM IHI 0048B)

  /** `gic_make_virtual_hardware_interrupt` */
  function MakeHardware(vector: bv32, pintvec: bv32, pri: bv32, grp1: bool): bv32 {
    0x9000_0000 | ((pri & 0xf8) << 20) | (vector & 0x1ff) | ((pintvec & 0x1ff) << 10) | ((if grp1 then 1 else 0) << 30)
  }

  /** `gic_lr_read_pri` */
  function Pri(lr: bv32): nat {
    ((lr & 0x0f80_0000) >> 20) as nat
  }

  /** `gic_lr_read_vid` */
  function Vid(lr: bv32): bv32 {
    lr & 0x1ff
  }

  /** The fields that hardware sees: virtual and physical id, priority, state, group and the hardware bit. */
  datatype Fields = Fields(vid: bv32, pid: bv32, priority: bv32, state: bv32, group: bv32, hw: bv32)

  function Decode(lr: bv32): Fields {
    Fields(lr & 0x3ff, (lr >> 10) & 0x3ff, (lr >> 23) & 0x1f, (lr >> 28) & 0x3, (lr >> 30) & 0x1, lr >> 31)
  }

  /** The word is a pending hardware interrupt with the upper five bits of the priority and nine bits of each id. */
  lemma MakeDecodes(vector: bv32, pintvec: bv32, pri: bv32, grp1: bool)
    ensures Decode(MakeHardware(vector, pintvec, pri, grp1)) ==
      Fields(vector & 0x1ff, pintvec & 0x1ff, (pri >> 3) & 0x1f, 1, if grp1 then 1 else 0, 1)
    ensures Pri(MakeHardware(vector, pintvec, pri, grp1)) == (pri & 0xf8) as nat
    ensures Vid(MakeHardware(vector, pintvec, pri, grp1)) == vector & 0x1ff
  {}

  /** The id arrives intact exactly when it is below 512, although the field would hold ids up to 1023. */
  lemma VidIntact(vector: bv32, pri: bv32, grp1: bool)
    ensures Decode(MakeHardware(vector, vector, pri, grp1)).vid == vector <==> vector < 512
  {}

  /** Interrupt 512 would arrive as interrupt 0. */
  lemma VidLost()
    ensures Decode(MakeHardware(512, 512, 0, false)).vid == 0
  {}

  // ----- the injection pass

  datatype Option = None | Some(lr: bv32)

  /** No register before `i` is empty. */
  predicate FullBelow(empty: seq<bool>, i: nat) {
    i <= |empty| && forall k | 0 <= k < i :: !empty[k]
  }

  // What a pass over registers `s` does with a word `m`: at each register the more urgent of the register's entry and
  // the carried one stays, and the other is carried on.

  function Carried(s: seq<bv32>, m: bv32): bv32 {
    if s == [] then m
    else
      var x, c := s[|s| - 1], Carried(s[..|s| - 1], m);
      if Pri(x) > Pri(c) then x else c
  }

  function Kept(s: seq<bv32>, m: bv32): (r: seq<bv32>)
    ensures |r| == |s|
  {
    if s == [] then []
    else
      var x, c := s[|s| - 1], Carried(s[..|s| - 1], m);
      Kept(s[..|s| - 1], m) + [if Pri(x) > Pri(c) then c else x]
  }

  /** One register: either it takes what is carried and its entry is carried on, or it keeps its entry. */
  lemma Carry(a: seq<bv32>, was: seq<bv32>, x: bv32, mask: bv32, mask0: bv32)
    requires multiset(a) + multiset{mask} == multiset(was) + multiset{mask0}
    ensures multiset(a + [mask]) + multiset{x} == multiset(was + [x]) + multiset{mask0}
    ensures multiset(a + [x]) + multiset{mask} == multiset(was + [x]) + multiset{mask0}
  {}

  /** The pass loses nothing and invents nothing. */
  lemma {:induction false} PassKeeps(s: seq<bv32>, m: bv32)
    ensures multiset(Kept(s, m)) + multiset{Carried(s, m)} == multiset(s) + multiset{m}
  {
    if s != [] {
      var init, x := s[..|s| - 1], s[|s| - 1];
      PassKeeps(init, m);
      assert s == init + [x];
      Carry(Kept(init, m), init, x, Carried(init, m), m);
    }
  }

  /** What is carried in the end is least urgent of all: its priority field is the numeric maximum. */
  lemma {:induction false} CarriedMax(s: seq<bv32>, m: bv32, x: bv32)
    requires x in s || x == m
    ensures Pri(x) <= Pri(Carried(s, m))
  {
    if s != [] {
      if x != s[|s| - 1] {
        CarriedMax(s[..|s| - 1], m, x);
      }
      if x == s[|s| - 1] {
        CarriedMax(s[..|s| - 1], m, m);
      }
    }
  }

  /** An entry at least as urgent as the injected one stays where it is. */
  lemma {:induction false} UrgentStays(s: seq<bv32>, m: bv32, k: nat)
    requires k < |s| && Pri(s[k]) <= Pri(m)
    ensures Kept(s, m)[k] == s[k]
  {
    CarriedMax(s[..|s| - 1], m, m);
    if k < |s| - 1 {
      UrgentStays(s[..|s| - 1], m, k);
    }
  }

  /** With no register free, exactly one entry is dropped, and none is less urgent; if it is the injected one, nothing
      else changes. */
  lemma DropsOneMax(s: seq<bv32>, m: bv32)
    ensures multiset(Kept(s, m)) + multiset{Carried(s, m)} == multiset(s) + multiset{m}
    ensures forall x | x in s || x == m :: Pri(x) <= Pri(Carried(s, m))
    ensures Pri(Carried(s, m)) == Pri(m) ==> Kept(s, m) == s
  {
    PassKeeps(s, m);
    forall x | x in s || x == m
      ensures Pri(x) <= Pri(Carried(s, m))
    {
      CarriedMax(s, m, x);
    }
    if Pri(Carried(s, m)) == Pri(m) {
      forall k | 0 <= k < |s|
        ensures Kept(s, m)[k] == s[k]
      {
        assert s[k] in s;
        UrgentStays(s, m, k);
      }
    }
  }

  /** With register `f` the first free one, no entry is lost: the others and the injected one fill registers 0 to `f`. */
  lemma FreeLosesNone(s: seq<bv32>, f: nat, m: bv32)
    requires f < |s|
    ensures multiset(Kept(s[..f], m) + [Carried(s[..f], m)] + s[f + 1..]) == multiset(s[..f]) + multiset(s[f + 1..]) + multiset{m}
  {
    PassKeeps(s[..f], m);
  }

  /** The loop of `vgic_inject`, for an interrupt word and a snapshot of the empty registers. */
  method Inject(lr: array<bv32>, empty: seq<bool>, mask0: bv32) returns (dropped: Option, ghost slot: nat)
    requires lr.Length == |empty|
    modifies lr
    ensures slot <= lr.Length && FullBelow(empty, slot) && (dropped == None <==> slot < lr.Length)
    ensures lr[..slot] == Kept(old(lr[..slot]), mask0)
    ensures dropped == None ==> empty[slot] && lr[slot] == Carried(old(lr[..slot]), mask0)
    ensures dropped == None ==> forall k | slot < k < lr.Length :: lr[k] == old(lr[k])
    ensures dropped != None ==> dropped == Some(Carried(old(lr[..slot]), mask0))
  {
    var mask, pri := mask0, Pri(mask0);
    var i := 0;
    ghost var s := lr[..];
    while i < lr.Length
      invariant 0 <= i <= lr.Length && FullBelow(empty, i) && pri == Pri(mask) && mask == Carried(s[..i], mask0)
      invariant lr[..i] == Kept(s[..i], mask0)
      invariant forall k | i <= k < lr.Length :: lr[k] == s[k]
    {
      ghost var kept := lr[..i];
      if empty[i] {
        lr[i] := mask;
        assert lr[..i] == kept && s[..i] == old(lr[..i]);
        return None, i;
      }
      var prev := lr[i];
      assert s[..i + 1][..i] == s[..i];
      if Pri(prev) > pri {
        lr[i] := mask;
        mask := prev;
        pri := Pri(prev);
      }
      assert lr[..i + 1] == kept + [lr[i]];
      i := i + 1;
    }
    assert s[..i] == old(lr[..i]);
    return Some(mask), i;
  }

  /** `vgic_inject`: its own interrupt has priority 0, so it loses to nothing; it drops an entry exactly when no register
      is free, and that entry has priority 0 only if every register holds such an entry. */
  method InjectVector(lr: array<bv32>, empty: seq<bool>, vector: bv32) returns (dropped: Option)
    requires lr.Length == |empty| == GICH_LR_NUM
    modifies lr
    ensures dropped == None <==> exists k | 0 <= k < GICH_LR_NUM :: empty[k]
    ensures dropped != None ==> forall k | 0 <= k < GICH_LR_NUM :: Pri(old(lr[k])) <= Pri(dropped.lr)
    ensures dropped != None && Pri(dropped.lr) == 0 ==> lr[..] == old(lr[..])
  {
    var mask := MakeHardware(vector, vector, 0, false);
    ghost var slot;
    MakeDecodes(vector, vector, 0, false);
    DropsOneMax(lr[..], mask);
    ghost var s := lr[..];
    assert forall k | 0 <= k < GICH_LR_NUM :: lr[k] == s[k] && s[k] in s;
    dropped, slot := Inject(lr, empty, mask);
    if dropped != None {
      assert lr[..slot] == lr[..] && s[..slot] == s;
    }
  }
}
