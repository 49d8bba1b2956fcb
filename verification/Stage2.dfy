/** The guest's stage-2 page table: how it is built, and what the hardware's table walk makes of it. */
module Stage2 {

  const PAGE: nat := 4096
  const ENTRIES: nat := 512
  const L1_SIZE: nat := 4
  const L2_SIZE: nat := L1_SIZE * ENTRIES
  const L3_SIZE: nat := L2_SIZE * ENTRIES
  const GUEST_RAM_START: nat := 0x4000_0000
  const GUEST_RAM_END: nat := 0x8000_0000
  const MMIO_AREA_GICD: nat := 0x800_0000
  const MMIO_AREA_GICC: nat := 0x801_0000
  const MMIO_ARREA: nat := 0x5000_0000

  /** The fields of a descriptor that the code sets. */
  datatype Desc = Desc(valid: bool, table: bool, mattr: nat, read: bool, write: bool, sh: nat, af: bool, base: nat, xn: bool) {
    predicate InRange() {
      mattr < 16 && sh < 4 && base < 0x10_0000_0000
    }
  }

  function Bit(b: bool): nat {
    if b then 1 else 0
  }

  /** The 64-bit word of `lpae_p2m_t`; the address of a page or table enters through `base`. */
  function Pack(d: Desc): nat {
    Bit(d.valid) + 2 * Bit(d.table) + 4 * d.mattr + 64 * Bit(d.read) + 128 * Bit(d.write) + 256 * d.sh
    + 1024 * Bit(d.af) + 4096 * d.base + 0x40_0000_0000_0000 * Bit(d.xn)
  }

  /** The fields as the hardware decodes them from a word. */
  function Unpack(w: nat): Desc {
    Desc(w % 2 == 1, w / 2 % 2 == 1, w / 4 % 16, w / 64 % 2 == 1, w / 128 % 2 == 1, w / 256 % 4, w / 1024 % 2 == 1,
      w / 4096 % 0x10_0000_0000, w / 0x40_0000_0000_0000 % 2 == 1)
  }

  lemma PackUnpack(d: Desc)
    requires d.InRange()
    ensures Unpack(Pack(d)) == d
  {
    Fields(Pack(d), Bit(d.valid), Bit(d.table), d.mattr, Bit(d.read), Bit(d.write), d.sh, Bit(d.af), d.base, Bit(d.xn));
  }

  lemma Fields(w: nat, a: nat, b: nat, c: nat, d: nat, e: nat, f: nat, af: nat, base: nat, xn: nat)
    requires a < 2 && b < 2 && c < 16 && d < 2 && e < 2 && f < 4 && af < 2 && base < 0x10_0000_0000 && xn < 2
    requires w == a + 2 * b + 4 * c + 64 * d + 128 * e + 256 * f + 1024 * af + 4096 * base + 0x40_0000_0000_0000 * xn
    ensures w % 2 == a && w / 2 % 2 == b && w / 4 % 16 == c && w / 64 % 2 == d && w / 128 % 2 == e && w / 256 % 4 == f
    ensures w / 1024 % 2 == af && w / 4096 % 0x10_0000_0000 == base && w / 0x40_0000_0000_0000 % 2 == xn
  {
    LowFields(w, a, b, c, d, e, f, af + 4 * (base + 0x400_0000_0000 * xn));
    HighFields(w, af, base, xn);
  }

  /** The fields above bit 9: one of 1 bit, the address, and the bit 54. */
  lemma HighFields(w: nat, af: nat, base: nat, xn: nat)
    requires af < 2 && base < 0x10_0000_0000 && xn < 2 && w / 1024 == af + 4 * (base + 0x400_0000_0000 * xn)
    ensures w / 1024 % 2 == af && w / 4096 % 0x10_0000_0000 == base && w / 0x40_0000_0000_0000 % 2 == xn
  {
    var hi := base + 0x400_0000_0000 * xn;
    Quarter(w, w / 1024, af, hi);
    Top(hi, base, xn);
    Above(w, hi, xn);
  }

  lemma Quarter(w: nat, x: nat, af: nat, hi: nat)
    requires af < 2 && 1024 * x <= w < 1024 * x + 1024 && x == af + 4 * hi
    ensures x % 2 == af && w / 4096 == hi
  {
    assert x == af + 2 * (2 * hi);
    assert 4096 * hi <= w < 4096 * hi + 4096;
  }

  lemma Top(hi: nat, base: nat, xn: nat)
    requires base < 0x10_0000_0000 && xn < 2 && hi == base + 0x400_0000_0000 * xn
    ensures hi % 0x10_0000_0000 == base
  {
    if xn == 0 {
    } else {
      assert hi == base + 0x10_0000_0000 * 0x40;
    }
  }

  lemma Above(w: nat, hi: nat, xn: nat)
    requires w / 4096 == hi && xn < 2 && 0x400_0000_0000 * xn <= hi < 0x400_0000_0000 * (xn + 1)
    ensures w / 0x40_0000_0000_0000 % 2 == xn
  {
    assert 0x40_0000_0000_0000 * xn <= w < 0x40_0000_0000_0000 * (xn + 1);
  }

  /** Peeling fields of 1, 1, 4, 1, 1 and 2 bits off the low end of a word. */
  lemma LowFields(w: nat, a: nat, b: nat, c: nat, d: nat, e: nat, f: nat, g: nat)
    requires a < 2 && b < 2 && c < 16 && d < 2 && e < 2 && f < 4
    requires w == a + 2 * (b + 2 * (c + 16 * (d + 2 * (e + 2 * (f + 4 * g)))))
    ensures w % 2 == a && w / 2 % 2 == b && w / 4 % 16 == c && w / 64 % 2 == d && w / 128 % 2 == e && w / 256 % 4 == f
    ensures w / 1024 == g
  {
    var w1 := b + 2 * (c + 16 * (d + 2 * (e + 2 * (f + 4 * g))));
    var w2 := c + 16 * (d + 2 * (e + 2 * (f + 4 * g)));
    var w3 := d + 2 * (e + 2 * (f + 4 * g));
    var w4 := e + 2 * (f + 4 * g);
    assert w / 2 == w1 && w % 2 == a;
    assert w1 / 2 == w2 && w / 4 == w2;
    assert w2 / 16 == w3 && w / 64 == w3;
    assert w3 / 2 == w4 && w / 128 == w4;
    assert w4 / 2 == f + 4 * g && w / 256 == f + 4 * g;
  }

  /** `bits |= addr` on a word whose address field is clear adds the address. */
  lemma OrIsSum(w: bv64, a: bv64)
    requires w & a == 0
    ensures w | a == w + a
  {}

  function InMemory(gpa: nat): bool {
    GUEST_RAM_START <= gpa < GUEST_RAM_END
  }

  function TableDesc(addr: nat): Desc {
    Desc(true, true, 0, false, false, 0, false, addr / PAGE, false)
  }

  /** The descriptor of the page at `gpa`. */
  function PageDesc(gpa: nat): Desc {
    var ram := InMemory(gpa);
    Desc(true, true, if ram then 0xF else 0x1, true, true, if ram then 0x3 else 0x0, true, gpa / PAGE, !ram)
  }

  // ----- the tables in physical memory, and the walk of VMSAv8-64 (section D5.3 of ARM DDI 0487)

  datatype Tables = Tables(l1Base: nat, l2Base: nat, l3Base: nat, l1: seq<nat>, l2: seq<nat>, l3: seq<nat>)

  datatype Option<T> = None | Some(value: T)

  /** The 64-bit word at a physical address, as far as the tables reach. */
  function Read(t: Tables, addr: nat): Option<nat> {
    if t.l1Base <= addr < t.l1Base + 8 * |t.l1| && (addr - t.l1Base) % 8 == 0 then Some(t.l1[(addr - t.l1Base) / 8])
    else if t.l2Base <= addr < t.l2Base + 8 * |t.l2| && (addr - t.l2Base) % 8 == 0 then Some(t.l2[(addr - t.l2Base) / 8])
    else if t.l3Base <= addr < t.l3Base + 8 * |t.l3| && (addr - t.l3Base) % 8 == 0 then Some(t.l3[(addr - t.l3Base) / 8])
    else None
  }

  /** A table descriptor leads to the table at its base address; anything else is a fault. */
  function NextTable(t: Tables, addr: nat): Option<nat> {
    match Read(t, addr)
    case Some(w) => if Unpack(w).valid && Unpack(w).table then Some(Unpack(w).base * PAGE) else None
    case None => None
  }

  /** What the walk finds: the address of the level-3 word, and its descriptor. */
  datatype Leaf = Leaf(slot: nat, desc: Desc) {
    function Output(ipa: nat): nat {
      desc.base * PAGE + ipa % PAGE
    }
  }

  /** The outcome at the level-3 word `w` at address `slot`. */
  function EndOfWalk(w: nat, slot: nat): Option<Leaf> {
    if Unpack(w).valid && Unpack(w).table then Some(Leaf(slot, Unpack(w))) else None
  }

  /** The walk from level 1, with one index for each table. */
  function WalkBy(t: Tables, i1: nat, i2: nat, i3: nat): Option<Leaf> {
    match NextTable(t, t.l1Base + 8 * i1)
    case None => None
    case Some(l2) =>
      match NextTable(t, l2 + 8 * i2)
      case None => None
      case Some(l3) =>
        match Read(t, l3 + 8 * i3)
        case Some(w) => EndOfWalk(w, l3 + 8 * i3)
        case None => None
  }

  /** Bits 31-30, 29-21 and 20-12 of a 32-bit address index the three tables. */
  function Walk(t: Tables, ipa: nat): Option<Leaf> {
    WalkBy(t, ipa / 0x4000_0000, ipa / 0x20_0000 % ENTRIES, ipa / PAGE % ENTRIES)
  }

  /** `get_ept_entry`: the address of the word for a page, without a walk. */
  function EntryAddr(t: Tables, gpa: nat): nat {
    t.l3Base + 8 * (gpa / PAGE)
  }

  /** Where the three tables lie. */
  predicate LaidOut(t: Tables) {
    && |t.l1| == L1_SIZE && |t.l2| == L2_SIZE && |t.l3| == L3_SIZE
    && t.l2Base == (t.l1Base + 8 * L1_SIZE + 4096) / 4096 * 4096 && t.l3Base == t.l2Base + 8 * L2_SIZE
    && t.l3Base + 8 * L3_SIZE <= 0x1_0000_0000_0000
  }

  /** Entry `i` of a table is a descriptor for page `i` after `next`. */
  predicate Points(table: seq<nat>, i: nat, next: nat)
    requires i < |table|
  {
    table[i] == Pack(TableDesc(next + PAGE * i))
  }

  /** The upper levels point to the tables below them, in order. */
  ghost predicate Linked(t: Tables) {
    && LaidOut(t)
    && (forall i | 0 <= i < L1_SIZE :: Points(t.l1, i, t.l2Base))
    && forall i | 0 <= i < L2_SIZE :: Points(t.l2, i, t.l3Base)
  }

  /** The tables as `guest_ept_init` leaves them. */
  ghost predicate Built(t: Tables) {
    Linked(t) && forall i | 0 <= i < L3_SIZE :: t.l3[i] == Pack(PageDesc(PAGE * i))
  }

  lemma ReadAt(t: Tables, i: nat)
    requires LaidOut(t)
    ensures i < L1_SIZE ==> Read(t, t.l1Base + 8 * i) == Some(t.l1[i])
    ensures i < L2_SIZE ==> Read(t, t.l2Base + 8 * i) == Some(t.l2[i])
    ensures i < L3_SIZE ==> Read(t, t.l3Base + 8 * i) == Some(t.l3[i])
  {
    assert t.l1Base + 8 * L1_SIZE <= t.l2Base;
  }

  /** An aligned address survives in a table descriptor. */
  lemma TableAt(base: nat, i: nat)
    requires base % PAGE == 0 && base + PAGE * i < 0x1_0000_0000_0000
    ensures var d := Unpack(Pack(TableDesc(base + PAGE * i))); d.valid && d.table && d.base * PAGE == base + PAGE * i
  {
    Aligned(base + PAGE * i);
    PackUnpack(TableDesc(base + PAGE * i));
  }

  lemma Aligned(a: nat)
    requires a % PAGE == 0 && a < 0x1_0000_0000_0000
    ensures a / PAGE * PAGE == a && a / PAGE < 0x10_0000_0000
  {}

  lemma FirstLevel(t: Tables, i: nat)
    requires Linked(t) && i < L1_SIZE
    ensures NextTable(t, t.l1Base + 8 * i) == Some(t.l2Base + PAGE * i)
  {
    assert Points(t.l1, i, t.l2Base);
    ReadAt(t, i);
    TableAt(t.l2Base, i);
  }

  lemma SecondLevel(t: Tables, addr: nat, i: nat)
    requires Linked(t) && i < L2_SIZE && addr == t.l2Base + 8 * i
    ensures NextTable(t, addr) == Some(t.l3Base + PAGE * i)
  {
    assert Points(t.l2, i, t.l3Base);
    ReadAt(t, i);
    TableAt(t.l3Base, i);
  }

  /** The indices of the walk are the digits, base 512, of the page number. */
  lemma Digits(ipa: nat)
    requires ipa < 0x1_0000_0000
    ensures ipa / PAGE == ENTRIES * (ipa / 0x20_0000) + ipa / PAGE % ENTRIES
    ensures ipa / 0x20_0000 == ENTRIES * (ipa / 0x4000_0000) + ipa / 0x20_0000 % ENTRIES
    ensures ipa / 0x4000_0000 < L1_SIZE
  {}

  lemma ThirdLevel(t: Tables, addr: nat, i: nat)
    requires LaidOut(t) && i < L3_SIZE && addr == t.l3Base + 8 * i
    ensures Read(t, addr) == Some(t.l3[i])
  {
    ReadAt(t, i);
  }

  lemma WalkDigits(t: Tables, i1: nat, i2: nat, i3: nat, j: nat, k: nat)
    requires Linked(t) && i1 < L1_SIZE && i2 < ENTRIES && i3 < ENTRIES && j == ENTRIES * i1 + i2 && k == ENTRIES * j + i3
    ensures k < L3_SIZE
    ensures WalkBy(t, i1, i2, i3) == EndOfWalk(t.l3[k], t.l3Base + 8 * k)
  {
    var l2, l3 := t.l2Base + PAGE * i1, t.l3Base + PAGE * j;
    var a2, a3 := l2 + 8 * i2, t.l3Base + 8 * k;
    FirstLevel(t, i1);
    SecondLevel(t, a2, j);
    ThirdLevel(t, a3, k);
    WalkSteps(t, i1, i2, i3, l2, a2, l3, a3, t.l3[k]);
  }

  lemma WalkSteps(t: Tables, i1: nat, i2: nat, i3: nat, l2: nat, a2: nat, l3: nat, a3: nat, w: nat)
    requires NextTable(t, t.l1Base + 8 * i1) == Some(l2) && a2 == l2 + 8 * i2
    requires NextTable(t, a2) == Some(l3) && a3 == l3 + 8 * i3
    requires Read(t, a3) == Some(w)
    ensures WalkBy(t, i1, i2, i3) == EndOfWalk(w, a3)
  {}

  /** The three-level walk ends at the very word that `get_ept_entry` addresses by page number. */
  lemma WalkReaches(t: Tables, ipa: nat)
    requires Linked(t) && ipa < 0x1_0000_0000
    ensures ipa / PAGE < L3_SIZE && Walk(t, ipa) == EndOfWalk(t.l3[ipa / PAGE], EntryAddr(t, ipa))
  {
    Digits(ipa);
    WalkDigits(t, ipa / 0x4000_0000, ipa / 0x20_0000 % ENTRIES, ipa / PAGE % ENTRIES, ipa / 0x20_0000, ipa / PAGE);
  }

  lemma SamePage(ipa: nat)
    ensures PAGE * (ipa / PAGE) / PAGE == ipa / PAGE && ipa / PAGE * PAGE + ipa % PAGE == ipa
    ensures InMemory(PAGE * (ipa / PAGE)) == InMemory(ipa)
  {}

  /** Every guest address below 4 GiB is mapped to itself, readable and writable, with the attributes of RAM or of a
      device. */
  lemma IdentityMapped(t: Tables, ipa: nat)
    requires Built(t) && ipa < 0x1_0000_0000
    ensures match Walk(t, ipa)
      case None => false
      case Some(leaf) =>
        && leaf.slot == EntryAddr(t, ipa) && leaf.Output(ipa) == ipa && leaf.desc.read && leaf.desc.write && leaf.desc.af
        && (leaf.desc.mattr == if InMemory(ipa) then 0xF else 0x1) && leaf.desc.xn == !InMemory(ipa)
        && leaf.desc.sh == if InMemory(ipa) then 0x3 else 0x0
  {
    WalkReaches(t, ipa);
    SamePage(ipa);
    PackUnpack(PageDesc(PAGE * (ipa / PAGE)));
  }

  // ----- building the tables

  lemma OrAddress(d: Desc, a: nat)
    requires d.base == 0 && a % PAGE == 0
    ensures Pack(d) + a == Pack(d.(base := a / PAGE))
  {}

  /** The word for the table at `addr`, as the code puts it together. */
  lemma OrTable(addr: nat)
    requires addr % PAGE == 0
    ensures Pack(Desc(true, true, 0, false, false, 0, false, 0, false)) + addr == Pack(TableDesc(addr))
  {
    OrAddress(Desc(true, true, 0, false, false, 0, false, 0, false), addr);
  }

  /** `entry->p2m.read = 0; entry->p2m.write = 0;` */
  function NoAccess(w: nat): nat {
    var r := w - 64 * (w / 64 % 2);
    r - 128 * (r / 128 % 2)
  }

  /** Clearing the two bits touches no other field. */
  lemma NoAccessDesc(d: Desc)
    requires d.InRange()
    ensures NoAccess(Pack(d)) == Pack(d.(read := false, write := false))
  {
    AccessBits(d);
    var r := d.(read := false);
    AccessBits(r);
    BitCleared(d);
  }

  lemma BitCleared(d: Desc)
    ensures Pack(d.(read := false)) == Pack(d) - 64 * Bit(d.read)
    ensures Pack(d.(read := false, write := false)) == Pack(d) - 64 * Bit(d.read) - 128 * Bit(d.write)
  {}

  lemma AccessBits(d: Desc)
    requires d.InRange()
    ensures Pack(d) / 64 % 2 == Bit(d.read) && Pack(d) / 128 % 2 == Bit(d.write)
  {
    PackUnpack(d);
    assert Unpack(Pack(d)).read == d.read && Unpack(Pack(d)).write == d.write;
  }

  predicate Revoked(page: nat) {
    || MMIO_AREA_GICD / PAGE <= page < MMIO_AREA_GICD / PAGE + 16
    || MMIO_AREA_GICC / PAGE <= page < MMIO_AREA_GICC / PAGE + 16
    || page == MMIO_ARREA / PAGE
  }

  function GuardedDesc(page: nat): Desc {
    if Revoked(page) then PageDesc(PAGE * page).(read := false, write := false) else PageDesc(PAGE * page)
  }

  /** The tables when the guest starts. */
  ghost predicate Guarded(t: Tables) {
    Linked(t) && forall i | 0 <= i < L3_SIZE :: t.l3[i] == Pack(GuardedDesc(i))
  }

  /** Every guest address is still mapped to itself, and exactly the revoked pages can be neither read nor written. */
  lemma GuardedMapped(t: Tables, ipa: nat)
    requires Guarded(t) && ipa < 0x1_0000_0000
    ensures match Walk(t, ipa)
      case None => false
      case Some(leaf) =>
        && leaf.slot == EntryAddr(t, ipa) && leaf.Output(ipa) == ipa
        && leaf.desc.read == !Revoked(ipa / PAGE) && leaf.desc.write == !Revoked(ipa / PAGE)
        && (leaf.desc.mattr == if InMemory(ipa) then 0xF else 0x1) && leaf.desc.xn == !InMemory(ipa)
  {
    WalkReaches(t, ipa);
    SamePage(ipa);
    PackUnpack(GuardedDesc(ipa / PAGE));
  }

  /** They are 33 pages: the distributor, the CPU interface and one page of RAM. */
  lemma RevokedPages()
    ensures |set p: nat | p < L3_SIZE && Revoked(p)| == 33
  {
    var gic := Interval(MMIO_AREA_GICD / PAGE, 32);
    assert (set p: nat | p < L3_SIZE && Revoked(p)) == gic + {MMIO_ARREA / PAGE};
  }

  function Interval(a: nat, n: nat): (r: set<nat>)
    ensures |r| == n && forall p :: p in r <==> a <= p < a + n
  {
    if n == 0 then {} else Interval(a, n - 1) + {a + n - 1}
  }

  class Ept {
    const l1Base: nat
    const l1: array<nat>
    const l2: array<nat>
    const l3: array<nat>

    /** The roots that `guest_ept_init` computes from the address of `ept_L1`. */
    function L2Root(): nat {
      (l1Base + 8 * L1_SIZE + 4096) / 4096 * 4096
    }

    function L3Root(): nat {
      L2Root() + 8 * L2_SIZE
    }

    ghost predicate Valid() {
      && l1.Length == L1_SIZE && l2.Length == L2_SIZE && l3.Length == L3_SIZE
      && l1 != l2 && l1 != l3 && l2 != l3 && L3Root() + 8 * L3_SIZE <= 0x1_0000_0000_0000
    }

    ghost function View(): Tables
      reads l1, l2, l3
    {
      Tables(l1Base, L2Root(), L3Root(), l1[..], l2[..], l3[..])
    }

    constructor (l1Base: nat)
      requires l1Base < 0x1000_0000_0000
      ensures Valid() && this.l1Base == l1Base && fresh(l1) && fresh(l2) && fresh(l3)
    {
      this.l1Base := l1Base;
      l1 := new nat[L1_SIZE](_ => 0);
      l2 := new nat[L2_SIZE](_ => 0);
      l3 := new nat[L3_SIZE](_ => 0);
    }

    /** The innermost loop of `guest_ept_init`: one level-3 table. */
    method FillPages(first: nat, gpa: nat) returns (gpa': nat)
      requires Valid() && first + ENTRIES <= L3_SIZE && gpa == PAGE * first
      modifies l3
      ensures gpa' == PAGE * (first + ENTRIES)
      ensures forall i | 0 <= i < L3_SIZE ::
        l3[i] == if first <= i < first + ENTRIES then Pack(PageDesc(PAGE * i)) else old(l3[i])
    {
      gpa' := gpa;
      var i3 := 0;
      while i3 < ENTRIES
        invariant 0 <= i3 <= ENTRIES && gpa' == PAGE * (first + i3)
        invariant forall i | 0 <= i < L3_SIZE ::
          l3[i] == if first <= i < first + i3 then Pack(PageDesc(PAGE * i)) else old(l3[i])
      {
        var entry := Desc(true, true, 0xF, true, true, 0x3, true, 0, false);
        if InMemory(gpa') {
          entry := entry.(sh := 0x3, mattr := 0xF);
        } else {
          entry := entry.(mattr := 0x1, sh := 0x0, xn := true);
        }
        OrAddress(entry, gpa');
        l3[first + i3] := Pack(entry) + gpa';
        gpa' := gpa' + 4 * 1024;
        i3 := i3 + 1;
      }
    }

    /** The middle loop: one level-2 table and the level-3 tables below it. */
    method FillTables(i1: nat, gpa: nat) returns (gpa': nat)
      requires Valid() && i1 < L1_SIZE && gpa == PAGE * (ENTRIES * ENTRIES * i1)
      modifies l2, l3
      ensures gpa' == PAGE * (ENTRIES * ENTRIES * (i1 + 1))
      ensures forall i | 0 <= i < L2_SIZE ::
        l2[i] == if ENTRIES * i1 <= i < ENTRIES * (i1 + 1) then Pack(TableDesc(L3Root() + PAGE * i)) else old(l2[i])
      ensures forall i | 0 <= i < L3_SIZE ::
        l3[i] == if ENTRIES * ENTRIES * i1 <= i < ENTRIES * ENTRIES * (i1 + 1) then Pack(PageDesc(PAGE * i)) else old(l3[i])
    {
      gpa' := gpa;
      var i2 := 0;
      while i2 < ENTRIES
        invariant 0 <= i2 <= ENTRIES && gpa' == PAGE * (ENTRIES * ENTRIES * i1 + ENTRIES * i2)
        invariant forall i | 0 <= i < L2_SIZE ::
          l2[i] == if ENTRIES * i1 <= i < ENTRIES * i1 + i2 then Pack(TableDesc(L3Root() + PAGE * i)) else old(l2[i])
        invariant forall i | 0 <= i < L3_SIZE ::
          l3[i] == if ENTRIES * ENTRIES * i1 <= i < ENTRIES * ENTRIES * i1 + ENTRIES * i2 then Pack(PageDesc(PAGE * i))
                   else old(l3[i])
      {
        var first := ENTRIES * ENTRIES * i1 + ENTRIES * i2;
        var table := L3Root() + 8 * first;
        OrTable(table);
        l2[ENTRIES * i1 + i2] := Pack(Desc(true, true, 0, false, false, 0, false, 0, false)) + table;
        gpa' := FillPages(first, gpa');
        i2 := i2 + 1;
      }
    }

    /** `guest_ept_init` */
    method Init()
      requires Valid()
      modifies l1, l2, l3
      ensures Built(View())
    {
      var gpa := 0;
      var i1 := 0;
      while i1 < L1_SIZE
        invariant 0 <= i1 <= L1_SIZE && gpa == PAGE * (ENTRIES * ENTRIES * i1)
        invariant forall i | 0 <= i < i1 :: l1[i] == Pack(TableDesc(L2Root() + PAGE * i))
        invariant forall i | 0 <= i < ENTRIES * i1 :: l2[i] == Pack(TableDesc(L3Root() + PAGE * i))
        invariant forall i | 0 <= i < ENTRIES * ENTRIES * i1 :: l3[i] == Pack(PageDesc(PAGE * i))
      {
        var table := L2Root() + 8 * (ENTRIES * i1);
        OrTable(table);
        l1[i1] := Pack(Desc(true, true, 0, false, false, 0, false, 0, false)) + table;
        gpa := FillTables(i1, gpa);
        i1 := i1 + 1;
      }
    }

    /** `mmio_map_gicd` and `mmio_map_gicc` */
    method MmioMap(area: nat)
      requires Valid() && area % PAGE == 0 && area / PAGE + 16 <= L3_SIZE
      modifies l3
      ensures forall i | 0 <= i < L3_SIZE ::
        l3[i] == if area / PAGE <= i < area / PAGE + 16 then NoAccess(old(l3[i])) else old(l3[i])
    {
      var i := 0;
      while i < 16
        invariant 0 <= i <= 16
        invariant forall k | 0 <= k < L3_SIZE ::
          l3[k] == if area / PAGE <= k < area / PAGE + i then NoAccess(old(l3[k])) else old(l3[k])
      {
        var page := (area + 0x1000 * i) / PAGE;
        l3[page] := NoAccess(l3[page]);
        i := i + 1;
      }
    }

    /** The table as `hyper_main` prepares it. */
    method Setup()
      requires Valid()
      modifies l1, l2, l3
      ensures Guarded(View())
    {
      Init();
      ghost var t := View();
      MmioMap(MMIO_AREA_GICD);
      MmioMap(MMIO_AREA_GICC);
      l3[MMIO_ARREA / PAGE] := NoAccess(l3[MMIO_ARREA / PAGE]);
      forall i | 0 <= i < L3_SIZE
        ensures l3[i] == Pack(GuardedDesc(i))
      {
        NoAccessDesc(PageDesc(PAGE * i));
      }
    }
  }
}
