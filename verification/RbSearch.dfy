/** Searching and deleting, in terms of the sorted entries. */
module RbSearch {
  import opened Pointers
  import opened RbShape
  import opened RbOrder

  /** The place, in key order, of the entry that `rbtree_search` stops at; -1 when it finds none. */
  function FoundIndex(comp: Comp, t: Tree, key: Word): (k: int)
    ensures -1 <= k < |Inorder(t)|
  {
    if !t.Node? then -1
    else if comp(t.e.key, key) == 0 then |Inorder(t.left)|
    else if comp(t.e.key, key) > 0 then
      var k := FoundIndex(comp, t.right, key);
      if k < 0 then -1 else |Inorder(t.left)| + 1 + k
    else FoundIndex(comp, t.left, key)
  }

  /** Whether the node that the search stops at has a left child. */
  predicate FoundHasLeft(comp: Comp, t: Tree, key: Word) {
    t.Node? &&
    if comp(t.e.key, key) == 0 then t.left != Nil
    else FoundHasLeft(comp, if comp(t.e.key, key) > 0 then t.right else t.left, key)
  }

  function Height(t: Tree): nat {
    if !t.Node? then 0
    else 1 + if Height(t.left) < Height(t.right) then Height(t.right) else Height(t.left)
  }

  function Pow2(n: nat): nat {
    if n == 0 then 1 else 2 * Pow2(n - 1)
  }

  /** In a sorted tree the search finds an entry exactly when there is one with an equal key. */
  lemma {:induction false} SearchComplete(comp: Comp, t: Tree, key: Word)
    requires TotalPreorder(comp) && Sorted(comp, Inorder(t))
    ensures FoundIndex(comp, t, key) >= 0 ==> comp(Inorder(t)[FoundIndex(comp, t, key)].key, key) == 0
    ensures FoundIndex(comp, t, key) < 0 ==> forall i | 0 <= i < |Inorder(t)| :: comp(Inorder(t)[i].key, key) != 0
  {
    if t.Node? {
      SortedParts(comp, Inorder(t.left), t.e, Inorder(t.right));
      SidesOf(comp, Inorder(t.left), t.e, Inorder(t.right), key);
      SearchComplete(comp, t.left, key);
      SearchComplete(comp, t.right, key);
    }
  }

  /** An entry before `key` has only such entries before it, one after `key` only such entries after it. */
  lemma SidesOf(comp: Comp, l: seq<Entry>, e: Entry, r: seq<Entry>, key: Word)
    requires TotalPreorder(comp) && Sorted(comp, l + [e] + r)
    ensures comp(e.key, key) > 0 ==> forall i | 0 <= i < |l| :: comp(l[i].key, key) > 0
    ensures comp(e.key, key) < 0 ==> forall i | 0 <= i < |r| :: comp(r[i].key, key) < 0
  {
    assert [] + (l + [e] + r) + [] == l + [e] + r;
    SortedAround(comp, [], l, e, r, []);
    if comp(e.key, key) > 0 {
      forall i | 0 <= i < |l|
        ensures comp(l[i].key, key) > 0
      {
        BeforeToo(comp, l[i].key, e.key, key);
      }
    }
    if comp(e.key, key) < 0 {
      forall i | 0 <= i < |r|
        ensures comp(r[i].key, key) < 0
      {
        assert Triple(e.key, r[i].key, key);
      }
    }
  }

  lemma SortedParts(comp: Comp, l: seq<Entry>, e: Entry, r: seq<Entry>)
    requires Sorted(comp, l + [e] + r)
    ensures Sorted(comp, l) && Sorted(comp, r)
  {
    var s := l + [e] + r;
    assert forall i | 0 <= i < |l| :: s[i] == l[i];
    assert forall i | 0 <= i < |r| :: s[|l| + 1 + i] == r[i];
  }

  /** A red-black tree of black height `h` has at least `2^h - 1` entries. */
  lemma {:induction false} BlackHeightBound(t: Tree)
    requires Balanced(t)
    ensures Pow2(BlackHeight(t)) <= |Inorder(t)| + 1
  {
    if t.Node? {
      BlackHeightBound(t.left);
      BlackHeightBound(t.right);
    }
  }

  lemma {:induction false} HeightAtMost(t: Tree)
    requires Balanced(t)
    ensures Height(t) <= 2 * BlackHeight(t) + (if ColorOf(t) == Red then 1 else 0)
  {
    if t.Node? {
      HeightAtMost(t.left);
      HeightAtMost(t.right);
    }
  }

  lemma {:induction false} Pow2Monotone(a: nat, b: nat)
    requires a <= b
    ensures Pow2(a) <= Pow2(b)
    decreases b
  {
    if a < b {
      Pow2Monotone(a, b - 1);
    }
  }

  /** The height of a red-black tree of `n` entries is logarithmic in `n`. */
  lemma HeightBound(t: Tree)
    requires RedBlack(t)
    ensures Pow2(Height(t) / 2) <= |Inorder(t)| + 1
  {
    HeightAtMost(t);
    BlackHeightBound(t);
    Pow2Monotone(Height(t) / 2, BlackHeight(t));
  }

  // ----- what deletion leaves

  /** The entries after a deletion that finds place `i`.  When the found node has a left child (`pred`), the entry
      before it disappears, but the found node takes over only its key. */
  function Deleted(s: seq<Entry>, i: nat, pred: bool): seq<Entry>
    requires i < |s| && (pred ==> i > 0)
  {
    if pred then s[..i - 1] + [Entry(s[i - 1].key, s[i].val)] + s[i + 1..] else s[..i] + s[i + 1..]
  }

  /** What is left of `a + (l + [e] + r) + b` when `e` is deleted. */
  function Without(a: seq<Entry>, l: seq<Entry>, e: Entry, r: seq<Entry>, b: seq<Entry>): seq<Entry> {
    if l == [] then a + r + b else a + l[..|l| - 1] + [Entry(l[|l| - 1].key, e.val)] + r + b
  }

  lemma DeletedParts(s: seq<Entry>, a: seq<Entry>, l: seq<Entry>, e: Entry, r: seq<Entry>, b: seq<Entry>, pred: bool)
    requires s == a + (l + [e] + r) + b && (pred <==> l != [])
    ensures |a| + |l| < |s| && (pred ==> |a| + |l| > 0) && Deleted(s, |a| + |l|, pred) == Without(a, l, e, r, b)
  {
    var i := |a| + |l|;
    assert s[i] == e && s[i + 1..] == r + b;
    if l == [] {
      assert s[..i] == a;
    } else {
      assert s[i - 1] == l[|l| - 1] && s[..i - 1] == a + l[..|l| - 1];
    }
  }

  function Keys(s: seq<Entry>): seq<Word> {
    seq(|s|, i requires 0 <= i < |s| => s[i].key)
  }

  function Vals(s: seq<Entry>): seq<Word> {
    seq(|s|, i requires 0 <= i < |s| => s[i].val)
  }

  /** The keys lose exactly the found one. */
  lemma DeletedKeys(s: seq<Entry>, i: nat, pred: bool)
    requires i < |s| && (pred ==> i > 0)
    ensures Keys(Deleted(s, i, pred)) == Keys(s)[..i] + Keys(s)[i + 1..]
    ensures multiset(Keys(Deleted(s, i, pred))) == multiset(Keys(s)) - multiset{s[i].key}
  {
    KeysWithout(Keys(s), Deleted(s, i, pred), i);
    WithoutOne(Keys(s), i);
  }

  lemma KeysWithout(k: seq<Word>, d: seq<Entry>, i: nat)
    requires i < |k| == |d| + 1 && forall j | 0 <= j < |d| :: d[j].key == k[if j < i then j else j + 1]
    ensures Keys(d) == k[..i] + k[i + 1..]
  {}

  lemma WithoutOne(k: seq<Word>, i: nat)
    requires i < |k|
    ensures multiset(k[..i] + k[i + 1..]) == multiset(k) - multiset{k[i]}
  {
    assert multiset(k) == multiset(k[..i] + k[i + 1..]) + multiset{k[i]} by {
      assert k == k[..i] + ([k[i]] + k[i + 1..]);
    }
  }

  /** The values lose the one at the found place, or the one before it. */
  lemma DeletedVals(s: seq<Entry>, i: nat, pred: bool)
    requires i < |s| && (pred ==> i > 0)
    ensures var j := if pred then i - 1 else i; Vals(Deleted(s, i, pred)) == Vals(s)[..j] + Vals(s)[j + 1..]
  {}

  lemma DeletedSorted(comp: Comp, s: seq<Entry>, i: nat, pred: bool)
    requires i < |s| && (pred ==> i > 0) && Sorted(comp, s)
    ensures Sorted(comp, Deleted(s, i, pred))
  {
    var d := Deleted(s, i, pred);
    assert forall j | 0 <= j < |d| :: d[j].key == s[if j < i then j else j + 1].key;
  }

  /** Deletion is to remove one entry whose key equals the searched one. */
  ghost predicate RemovesOne(comp: Comp, s: seq<Entry>, s': seq<Entry>, key: Word) {
    exists e :: e in s && comp(e.key, key) == 0 && multiset(s') == multiset(s) - multiset{e}
  }

  /** Taking `e` out of a pair cannot leave a third entry. */
  lemma OneOfTwo(rest: multiset<Entry>, a: Entry, b: Entry, x: Entry, e: Entry)
    requires rest + multiset{x} == (rest + multiset{a, b}) - multiset{e}
    ensures x == a || x == b
  {
    assert (rest + multiset{x})[x] == rest[x] + 1;
    assert (rest + multiset{a, b})[x] == rest[x] + multiset{a, b}[x];
  }

  /** Deletion removes one such entry exactly when the found node has no left child, or that entry and the one
      before it share the value or the key. */
  lemma DeletedEntries(comp: Comp, s: seq<Entry>, i: nat, pred: bool, key: Word)
    requires i < |s| && (pred ==> i > 0) && comp(s[i].key, key) == 0
    ensures RemovesOne(comp, s, Deleted(s, i, pred), key)
       <==> !pred || s[i - 1].val == s[i].val || s[i - 1].key == s[i].key
  {
    var d := Deleted(s, i, pred);
    if !pred {
      assert s == s[..i] + [s[i]] + s[i + 1..];
      assert multiset(d) == multiset(s) - multiset{s[i]} && s[i] in s;
    } else {
      DeletedEntriesPred(comp, s, i, key);
    }
  }

  lemma DeletedEntriesPred(comp: Comp, s: seq<Entry>, i: nat, key: Word)
    requires 0 < i < |s| && comp(s[i].key, key) == 0
    ensures RemovesOne(comp, s, Deleted(s, i, true), key) <==> s[i - 1].val == s[i].val || s[i - 1].key == s[i].key
  {
    var d, a, b := Deleted(s, i, true), s[i - 1], s[i];
    var x := Entry(a.key, b.val);
    var rest := PredRest(s, i);
    if a.val == b.val {
      assert multiset(d) == multiset(s) - multiset{b} && b in s;
    }
    if a.key == b.key {
      assert multiset(d) == multiset(s) - multiset{a} && a in s;
    }
    if RemovesOne(comp, s, d, key) {
      var e :| e in s && comp(e.key, key) == 0 && multiset(d) == multiset(s) - multiset{e};
      OneOfTwo(rest, a, b, x, e);
    }
  }

  /** The entries that neither the found node nor the one before it holds. */
  lemma PredRest(s: seq<Entry>, i: nat) returns (rest: multiset<Entry>)
    requires 0 < i < |s|
    ensures multiset(s) == rest + multiset{s[i - 1], s[i]}
    ensures multiset(Deleted(s, i, true)) == rest + multiset{Entry(s[i - 1].key, s[i].val)}
  {
    rest := multiset(s[..i - 1]) + multiset(s[i + 1..]);
    assert s == s[..i - 1] + [s[i - 1]] + [s[i]] + s[i + 1..];
  }

  /** A two-entry tree, key 1 below key 2, in which the search for 2 finds a node with a left child. */
  lemma TwoEntries(comp: Comp, a: Ptr, b: Ptr)
    requires comp(2, 2) == 0
    ensures var t := Node(a, Black, Entry(2, 20), Node(b, Red, Entry(1, 10), Nil, Nil), Nil);
      && RedBlack(t) && Inorder(t) == [Entry(1, 10), Entry(2, 20)]
      && FoundIndex(comp, t, 2) == 1 && FoundHasLeft(comp, t, 2)
  {
    assert Inorder(Node(b, Red, Entry(1, 10), Nil, Nil)) == [Entry(1, 10)];
  }

  /** Deleting 2 from those entries loses the wrong value: key 1 stays, with the value of key 2. */
  lemma ValueLost(comp: Comp)
    requires forall x, y :: comp(x, y) == y - x
    ensures var s := [Entry(1, 10), Entry(2, 20)];
      Sorted(comp, s) && Deleted(s, 1, true) == [Entry(1, 20)] && !RemovesOne(comp, s, [Entry(1, 20)], 2)
  {
    DeletedEntries(comp, [Entry(1, 10), Entry(2, 20)], 1, true, 2);
  }
}
