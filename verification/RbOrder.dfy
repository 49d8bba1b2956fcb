/** Key order, and the sorted entry sequences a tree stands for. */
module RbOrder {
  import opened RbShape

  /** The `comp` callback: positive when its second argument sorts after its first. */
  type Comp = (Word, Word) -> int

  /** Holds of any keys: naming three keys makes `TotalPreorder` speak about them. */
  ghost predicate Triple(a: Word, b: Word, c: Word) {
    true
  }

  ghost predicate TotalPreorder(comp: Comp) {
    && (forall a, b :: comp(a, b) > 0 <==> comp(b, a) < 0)
    && (forall a, b, c {:trigger Triple(a, b, c)} :: comp(a, b) >= 0 && comp(b, c) >= 0 ==> comp(a, c) >= 0)
  }

  ghost predicate Sorted(comp: Comp, s: seq<Entry>) {
    forall i, j | 0 <= i < j < |s| :: comp(s[i].key, s[j].key) >= 0
  }

  /** All keys of `s` sort strictly before `k`. */
  ghost predicate AllBefore(comp: Comp, s: seq<Entry>, k: Word) {
    forall i | 0 <= i < |s| :: comp(s[i].key, k) > 0
  }

  ghost predicate NoneBefore(comp: Comp, s: seq<Entry>, k: Word) {
    forall i | 0 <= i < |s| :: comp(s[i].key, k) <= 0
  }

  /** `s` with `e` put in front of the first entry that does not sort strictly before it. */
  function Placed(comp: Comp, s: seq<Entry>, e: Entry): seq<Entry> {
    if s == [] || comp(s[0].key, e.key) <= 0 then [e] + s else [s[0]] + Placed(comp, s[1..], e)
  }

  lemma {:induction false} PlacedBetween(comp: Comp, a: seq<Entry>, b: seq<Entry>, e: Entry)
    requires AllBefore(comp, a, e.key) && NoneBefore(comp, b, e.key)
    ensures Placed(comp, a + b, e) == a + [e] + b
  {
    if a == [] {
      assert a + b == b;
    } else {
      assert (a + b)[1..] == a[1..] + b;
      PlacedBetween(comp, a[1..], b, e);
    }
  }

  /** What precedes a key that sorts before `k` sorts before `k` too. */
  lemma BeforeToo(comp: Comp, a: Word, b: Word, k: Word)
    requires TotalPreorder(comp) && comp(a, b) >= 0 && comp(b, k) > 0
    ensures comp(a, k) > 0
  {
    assert Triple(k, a, b);
  }

  lemma NorAfter(comp: Comp, a: Word, b: Word, k: Word)
    requires TotalPreorder(comp) && comp(a, b) >= 0 && comp(a, k) <= 0
    ensures comp(b, k) <= 0
  {
    assert Triple(k, a, b);
  }

  /** In a sorted sequence, an entry separates those before it from those after it. */
  lemma SortedAround(comp: Comp, a: seq<Entry>, l: seq<Entry>, e: Entry, r: seq<Entry>, b: seq<Entry>)
    requires Sorted(comp, a + (l + [e] + r) + b)
    ensures forall i | 0 <= i < |l| :: comp(l[i].key, e.key) >= 0
    ensures forall i | 0 <= i < |r| :: comp(e.key, r[i].key) >= 0
    ensures forall i | 0 <= i < |a| :: comp(a[i].key, e.key) >= 0
    ensures forall i | 0 <= i < |b| :: comp(e.key, b[i].key) >= 0
  {
    var s := a + (l + [e] + r) + b;
    var k := |a| + |l|;
    assert s[k] == e;
    assert forall i | 0 <= i < |a| :: s[i] == a[i];
    assert forall i | 0 <= i < |l| :: s[|a| + i] == l[i];
    assert forall i | 0 <= i < |r| :: s[k + 1 + i] == r[i];
    assert forall i | 0 <= i < |b| :: s[k + 1 + |r| + i] == b[i];
  }

  /** A first entry not after any other keeps a sequence sorted. */
  lemma SortedCons(comp: Comp, x: Entry, s: seq<Entry>)
    requires Sorted(comp, s) && forall i | 0 <= i < |s| :: comp(x.key, s[i].key) >= 0
    ensures Sorted(comp, [x] + s)
  {}

  lemma OldOrNew(t: seq<Entry>, s: seq<Entry>, e: Entry, x: Entry)
    requires multiset(t) == multiset(s) + multiset{e} && x in t
    ensures x == e || x in s
  {
    assert x in multiset(t);
  }

  /** Placing keeps a sequence sorted and adds exactly the one entry. */
  lemma {:induction false} PlacedKeeps(comp: Comp, s: seq<Entry>, e: Entry)
    requires TotalPreorder(comp) && Sorted(comp, s)
    ensures Sorted(comp, Placed(comp, s, e))
    ensures multiset(Placed(comp, s, e)) == multiset(s) + multiset{e}
  {
    if s == [] {
    } else if comp(s[0].key, e.key) <= 0 {
      forall i | 0 <= i < |s|
        ensures comp(e.key, s[i].key) >= 0
      {
        assert Triple(e.key, s[0].key, s[i].key);
      }
      SortedCons(comp, e, s);
    } else {
      var t := Placed(comp, s[1..], e);
      PlacedKeeps(comp, s[1..], e);
      assert s == [s[0]] + s[1..];
      forall i | 0 <= i < |t|
        ensures comp(s[0].key, t[i].key) >= 0
      {
        OldOrNew(t, s[1..], e, t[i]);
      }
      SortedCons(comp, s[0], t);
    }
  }
}
