/** Any sequence of insertions and deletions on any trees, against plain unordered bags. */
module RbRuns {
  import opened Pointers
  import opened RbShape
  import opened RbOrder
  import opened RbSearch
  import opened RbTree
  import opened RbForest

  /** Tree `i` gets an entry, is searched for a key, or, if it holds an equal key, loses one. */
  datatype Op = Put(i: nat, e: Entry) | Get(i: nat, key: Word) | Del(i: nat, key: Word)

  /** How many entries have a key equal to `k`. */
  function Count(comp: Comp, s: seq<Entry>, k: Word): nat {
    if s == [] then 0 else (if comp(s[0].key, k) == 0 then 1 else 0) + Count(comp, s[1..], k)
  }

  function Hit(comp: Comp, a: Word, k: Word): nat {
    if comp(a, k) == 0 then 1 else 0
  }

  // ----- the bags

  /** `b` without its first entry whose key equals `key`. */
  function Removed(comp: Comp, b: seq<Entry>, key: Word): seq<Entry> {
    if b == [] then []
    else if comp(b[0].key, key) == 0 then b[1..]
    else [b[0]] + Removed(comp, b[1..], key)
  }

  function Total(bags: seq<seq<Entry>>): nat {
    if bags == [] then 0 else Total(bags[..|bags| - 1]) + |bags[|bags| - 1]|
  }

  /** What an operation does to bags that together hold at most `size` entries. */
  function BagStep(size: nat, comps: seq<Comp>, bags: seq<seq<Entry>>, op: Op): seq<seq<Entry>>
    requires |bags| == |comps| && op.i < |bags|
  {
    match op
    case Put(i, e) => if Total(bags) < size then bags[i := bags[i] + [e]] else bags
    case Get(_, _) => bags
    case Del(i, key) => bags[i := Removed(comps[i], bags[i], key)]
  }

  function BagRun(size: nat, comps: seq<Comp>, bags: seq<seq<Entry>>, ops: seq<Op>): seq<seq<Entry>>
    requires |bags| == |comps| && forall k | 0 <= k < |ops| :: ops[k].i < |bags|
    decreases |ops|
  {
    if ops == [] then bags else BagRun(size, comps, BagStep(size, comps, bags, ops[0]), ops[1..])
  }

  /** Whether an operation finds room for its entry, or an equal key. */
  function Answer(size: nat, comps: seq<Comp>, bags: seq<seq<Entry>>, op: Op): bool
    requires |bags| == |comps| && op.i < |bags|
  {
    match op
    case Put(_, _) => Total(bags) < size
    case Get(i, key) => Count(comps[i], bags[i], key) > 0
    case Del(i, key) => Count(comps[i], bags[i], key) > 0
  }

  function Answers(size: nat, comps: seq<Comp>, bags: seq<seq<Entry>>, ops: seq<Op>): seq<bool>
    requires |bags| == |comps| && forall k | 0 <= k < |ops| :: ops[k].i < |bags|
    decreases |ops|
  {
    if ops == [] then []
    else [Answer(size, comps, bags, ops[0])] + Answers(size, comps, BagStep(size, comps, bags, ops[0]), ops[1..])
  }

  /** As many entries, and as many with any given key. */
  ghost predicate Like(comp: Comp, s: seq<Entry>, b: seq<Entry>) {
    |s| == |b| && forall k :: Count(comp, s, k) == Count(comp, b, k)
  }

  ghost predicate AllLike(comps: seq<Comp>, trees: seq<seq<Entry>>, bags: seq<seq<Entry>>) {
    |trees| == |bags| == |comps| && forall i | 0 <= i < |trees| :: Like(comps[i], trees[i], bags[i])
  }

  // ----- counting

  lemma {:induction false} CountConcat(comp: Comp, a: seq<Entry>, b: seq<Entry>, k: Word)
    ensures Count(comp, a + b, k) == Count(comp, a, k) + Count(comp, b, k)
  {
    if a == [] {
      assert a + b == b;
    } else {
      assert (a + b)[1..] == a[1..] + b;
      CountConcat(comp, a[1..], b, k);
    }
  }

  lemma {:induction false} CountPlaced(comp: Comp, s: seq<Entry>, e: Entry, k: Word)
    ensures Count(comp, Placed(comp, s, e), k) == Count(comp, s, k) + Hit(comp, e.key, k)
    ensures |Placed(comp, s, e)| == |s| + 1
  {
    if s == [] || comp(s[0].key, e.key) <= 0 {
      assert ([e] + s)[1..] == s;
    } else {
      CountPlaced(comp, s[1..], e, k);
      assert ([s[0]] + Placed(comp, s[1..], e))[1..] == Placed(comp, s[1..], e);
    }
  }

  lemma CountSplit(comp: Comp, s: seq<Entry>, i: nat, k: Word)
    requires i < |s|
    ensures Count(comp, s, k) == Count(comp, s[..i], k) + Hit(comp, s[i].key, k) + Count(comp, s[i + 1..], k)
  {
    assert s == s[..i] + ([s[i]] + s[i + 1..]);
    assert ([s[i]] + s[i + 1..])[1..] == s[i + 1..];
    CountConcat(comp, s[..i], [s[i]] + s[i + 1..], k);
  }

  lemma CountDeleted(comp: Comp, s: seq<Entry>, i: nat, pred: bool, k: Word)
    requires i < |s| && (pred ==> i > 0)
    ensures Count(comp, Deleted(s, i, pred), k) == Count(comp, s, k) - Hit(comp, s[i].key, k)
    ensures |Deleted(s, i, pred)| == |s| - 1
  {
    CountSplit(comp, s, i, k);
    if pred {
      var x, a, b := Entry(s[i - 1].key, s[i].val), s[..i - 1], s[i + 1..];
      CountSplit(comp, s[..i], i - 1, k);
      assert s[..i][..i - 1] == a && s[..i][i..] == [];
      CountSplit(comp, a + [x] + b, i - 1, k);
      assert (a + [x] + b)[..i - 1] == a && (a + [x] + b)[i..] == b;
    } else {
      CountConcat(comp, s[..i], s[i + 1..], k);
    }
  }

  /** Equal keys are equal to the same keys. */
  lemma SameHits(comp: Comp, a: Word, b: Word, k: Word)
    requires TotalPreorder(comp) && comp(a, b) == 0
    ensures Hit(comp, a, k) == Hit(comp, b, k)
  {
    assert Triple(a, b, k) && Triple(b, a, k) && Triple(k, a, b) && Triple(k, b, a);
  }

  lemma {:induction false} CountRemoved(comp: Comp, b: seq<Entry>, key: Word, k: Word)
    requires TotalPreorder(comp)
    ensures Count(comp, b, key) > 0 ==>
      Count(comp, Removed(comp, b, key), k) == Count(comp, b, k) - Hit(comp, key, k) && |Removed(comp, b, key)| == |b| - 1
    ensures Count(comp, b, key) == 0 ==> Removed(comp, b, key) == b
  {
    if b != [] {
      if comp(b[0].key, key) == 0 {
        SameHits(comp, b[0].key, key, k);
      } else {
        CountRemoved(comp, b[1..], key, k);
        assert ([b[0]] + Removed(comp, b[1..], key))[1..] == Removed(comp, b[1..], key);
      }
    }
  }

  lemma {:induction false} CountPositive(comp: Comp, s: seq<Entry>, k: Word, i: nat)
    requires i < |s| && comp(s[i].key, k) == 0
    ensures Count(comp, s, k) > 0
  {
    CountSplit(comp, s, i, k);
  }

  lemma {:induction false} CountZero(comp: Comp, s: seq<Entry>, k: Word)
    requires forall i | 0 <= i < |s| :: comp(s[i].key, k) != 0
    ensures Count(comp, s, k) == 0
  {
    if s != [] {
      CountZero(comp, s[1..], k);
    }
  }

  // ----- one operation on one tree

  lemma LikePut(comp: Comp, s: seq<Entry>, b: seq<Entry>, e: Entry)
    requires Like(comp, s, b)
    ensures Like(comp, Placed(comp, s, e), b + [e])
  {
    CountPlaced(comp, s, e, e.key);
    forall k
      ensures Count(comp, Placed(comp, s, e), k) == Count(comp, b + [e], k)
    {
      CountPlaced(comp, s, e, k);
      CountConcat(comp, b, [e], k);
      assert [e][1..] == [];
    }
  }

  lemma LikeDel(comp: Comp, s: seq<Entry>, b: seq<Entry>, key: Word, i: nat, pred: bool)
    requires TotalPreorder(comp) && Like(comp, s, b) && i < |s| && (pred ==> i > 0) && comp(s[i].key, key) == 0
    ensures Like(comp, Deleted(s, i, pred), Removed(comp, b, key)) && Count(comp, b, key) > 0
  {
    CountPositive(comp, s, key, i);
    CountDeleted(comp, s, i, pred, key);
    CountRemoved(comp, b, key, key);
    forall k
      ensures Count(comp, Deleted(s, i, pred), k) == Count(comp, Removed(comp, b, key), k)
    {
      CountDeleted(comp, s, i, pred, k);
      CountRemoved(comp, b, key, k);
      SameHits(comp, s[i].key, key, k);
    }
  }

  lemma LikeNone(comp: Comp, s: seq<Entry>, b: seq<Entry>, key: Word)
    requires TotalPreorder(comp) && Like(comp, s, b) && forall i | 0 <= i < |s| :: comp(s[i].key, key) != 0
    ensures Removed(comp, b, key) == b && Count(comp, b, key) == 0
  {
    CountZero(comp, s, key);
    CountRemoved(comp, b, key, key);
  }

  // ----- the forest

  ghost function Comps(trees: seq<RbTree>): (r: seq<Comp>)
    ensures |r| == |trees| && forall i | 0 <= i < |r| :: r[i] == trees[i].comp
  {
    seq(|trees|, i requires 0 <= i < |trees| => trees[i].comp)
  }

  ghost function Orders(shapes: seq<Tree>): (r: seq<seq<Entry>>)
    ensures |r| == |shapes| && forall i | 0 <= i < |r| :: r[i] == Inorder(shapes[i])
  {
    seq(|shapes|, i requires 0 <= i < |shapes| => Inorder(shapes[i]))
  }

  lemma {:induction false} TotalEntries(comps: seq<Comp>, shapes: seq<Tree>, bags: seq<seq<Entry>>)
    requires AllLike(comps, Orders(shapes), bags)
    ensures Total(bags) == Entries(shapes)
  {
    if shapes != [] {
      var n := |shapes| - 1;
      assert Like(comps[n], Orders(shapes)[n], bags[n]);
      assert Orders(shapes[..n]) == Orders(shapes)[..n];
      TotalEntries(comps[..n], shapes[..n], bags[..n]);
    }
  }

  /** Only tree `i` differs. */
  ghost predicate OnlyAt(shapes: seq<Tree>, shapes': seq<Tree>, i: nat) {
    |shapes'| == |shapes| && forall j | 0 <= j < |shapes| && j != i :: shapes'[j] == shapes[j]
  }

  lemma OneLike(comps: seq<Comp>, shapes: seq<Tree>, shapes': seq<Tree>, bags: seq<seq<Entry>>, i: nat, b: seq<Entry>)
    requires AllLike(comps, Orders(shapes), bags) && OnlyAt(shapes, shapes', i) && i < |shapes|
    requires Like(comps[i], Inorder(shapes'[i]), b)
    ensures AllLike(comps, Orders(shapes'), bags[i := b])
  {
    forall j | 0 <= j < |shapes|
      ensures Like(comps[j], Orders(shapes')[j], bags[i := b][j])
    {
      assert Like(comps[j], Orders(shapes)[j], bags[j]);
    }
  }

  lemma PutStep(size: nat, comps: seq<Comp>, shapes: seq<Tree>, shapes': seq<Tree>, bags: seq<seq<Entry>>, i: nat, e: Entry)
    requires AllLike(comps, Orders(shapes), bags) && OnlyAt(shapes, shapes', i) && i < |shapes|
    requires Inorder(shapes'[i]) ==
      if Entries(shapes) < size then Placed(comps[i], Inorder(shapes[i]), e) else Inorder(shapes[i])
    ensures AllLike(comps, Orders(shapes'), BagStep(size, comps, bags, Put(i, e)))
    ensures Answer(size, comps, bags, Put(i, e)) <==> Entries(shapes) < size
  {
    assert Like(comps[i], Orders(shapes)[i], bags[i]);
    TotalEntries(comps, shapes, bags);
    if Entries(shapes) < size {
      LikePut(comps[i], Inorder(shapes[i]), bags[i], e);
      OneLike(comps, shapes, shapes', bags, i, bags[i] + [e]);
    } else {
      OneLike(comps, shapes, shapes', bags, i, bags[i]);
      assert bags[i := bags[i]] == bags;
    }
  }

  /** The search finds a key if and only if the bag has an equal one. */
  lemma GetStep(comps: seq<Comp>, shapes: seq<Tree>, bags: seq<seq<Entry>>, i: nat, key: Word)
    requires AllLike(comps, Orders(shapes), bags) && i < |shapes|
    requires TotalPreorder(comps[i]) && Sorted(comps[i], Inorder(shapes[i]))
    ensures FoundIndex(comps[i], shapes[i], key) >= 0 <==> Count(comps[i], bags[i], key) > 0
  {
    var comp, s := comps[i], Inorder(shapes[i]);
    assert Like(comp, Orders(shapes)[i], bags[i]);
    SearchComplete(comp, shapes[i], key);
    if FoundIndex(comp, shapes[i], key) < 0 {
      CountZero(comp, s, key);
    } else {
      CountPositive(comp, s, key, FoundIndex(comp, shapes[i], key));
    }
  }

  lemma DelStep(size: nat, comps: seq<Comp>, shapes: seq<Tree>, shapes': seq<Tree>, bags: seq<seq<Entry>>, i: nat, key: Word)
    requires AllLike(comps, Orders(shapes), bags) && OnlyAt(shapes, shapes', i) && i < |shapes|
    requires TotalPreorder(comps[i]) && Sorted(comps[i], Inorder(shapes[i]))
    requires var k, pred := FoundIndex(comps[i], shapes[i], key), FoundHasLeft(comps[i], shapes[i], key);
      if k < 0 then shapes'[i] == shapes[i]
      else (pred ==> k > 0) && Inorder(shapes'[i]) == Deleted(Inorder(shapes[i]), k, pred)
    ensures AllLike(comps, Orders(shapes'), BagStep(size, comps, bags, Del(i, key)))
  {
    var comp, s := comps[i], Inorder(shapes[i]);
    assert Like(comp, Orders(shapes)[i], bags[i]);
    SearchComplete(comp, shapes[i], key);
    var k := FoundIndex(comp, shapes[i], key);
    if k < 0 {
      LikeNone(comp, s, bags[i], key);
    } else {
      LikeDel(comp, s, bags[i], key, k, FoundHasLeft(comp, shapes[i], key));
    }
    OneLike(comps, shapes, shapes', bags, i, Removed(comp, bags[i], key));
  }

  /** `Forest.Insert` leaves the other trees alone. */
  method InsertOnly(f: Forest, tree: RbTree, e: Entry, ghost i: nat) returns (ok: bool)
    requires f.Valid() && i < |f.trees| && f.trees[i] == tree
    modifies f, tree, f.pool.Repr, f.links.Repr
    ensures f.Valid() && f.trees == old(f.trees) && OnlyAt(old(f.Shapes()), f.Shapes(), i)
    ensures ok <==> Entries(old(f.Shapes())) < f.pool.size
    ensures Inorder(tree.shape) == if ok then Placed(tree.comp, old(Inorder(tree.shape)), e) else old(Inorder(tree.shape))
  {
    f.LiveEntries();
    ok := f.Insert(tree, e.key, e.val, i);
  }

  /** An insertion, as a caller makes it. */
  method PerformPut(f: Forest, tree: RbTree, e: Entry, ghost i: nat, ghost bags: seq<seq<Entry>>) returns (ok: bool)
    requires f.Valid() && i < |f.trees| && f.trees[i] == tree && AllLike(Comps(f.trees), Orders(f.Shapes()), bags)
    modifies f, tree, f.pool.Repr, f.links.Repr
    ensures f.Valid() && f.trees == old(f.trees)
    ensures ok == Answer(f.pool.size, Comps(f.trees), bags, Put(i, e))
    ensures AllLike(Comps(f.trees), Orders(f.Shapes()), BagStep(f.pool.size, Comps(f.trees), bags, Put(i, e)))
  {
    ghost var shapes := f.Shapes();
    ok := InsertOnly(f, tree, e, i);
    PutStep(f.pool.size, Comps(f.trees), shapes, f.Shapes(), bags, i, e);
  }

  method Present(f: Forest, tree: RbTree, key: Word, ghost i: nat) returns (b: bool)
    requires f.Valid() && i < |f.trees| && f.trees[i] == tree
    ensures b <==> FoundIndex(tree.comp, tree.shape, key) >= 0
    ensures TotalPreorder(tree.comp) && Sorted(tree.comp, Inorder(tree.shape))
  {
    assert f.TreeIn(tree, i, f.place);
    var found;
    ghost var steps, c, t;
    found, steps, c, t := tree.Search(key);
    b := found != NULL;
  }

  /** `Forest.Delete` leaves the other trees alone. */
  method DeleteOnly(f: Forest, tree: RbTree, key: Word, ghost i: nat)
    requires f.Valid() && i < |f.trees| && f.trees[i] == tree && FoundIndex(tree.comp, tree.shape, key) >= 0
    modifies f, tree, f.pool.Repr, f.links.Repr
    ensures f.Valid() && f.trees == old(f.trees) && OnlyAt(old(f.Shapes()), f.Shapes(), i)
    ensures var k, pred := old(FoundIndex(tree.comp, tree.shape, key)), old(FoundHasLeft(tree.comp, tree.shape, key));
      (pred ==> k > 0) && Inorder(tree.shape) == Deleted(old(Inorder(tree.shape)), k, pred)
  {
    f.Delete(tree, key, i);
  }

  /** A deletion, as a caller makes it: after a search for the key. */
  method DeleteFound(f: Forest, tree: RbTree, key: Word, ghost i: nat) returns (found: bool)
    requires f.Valid() && i < |f.trees| && f.trees[i] == tree
    modifies f, tree, f.pool.Repr, f.links.Repr
    ensures f.Valid() && f.trees == old(f.trees)
    ensures TotalPreorder(tree.comp) && Sorted(tree.comp, old(Inorder(tree.shape)))
    ensures found <==> old(FoundIndex(tree.comp, tree.shape, key)) >= 0
    ensures var k, pred := old(FoundIndex(tree.comp, tree.shape, key)), old(FoundHasLeft(tree.comp, tree.shape, key));
      if k < 0 then tree.shape == old(tree.shape)
      else (pred ==> k > 0) && Inorder(tree.shape) == Deleted(old(Inorder(tree.shape)), k, pred)
    ensures OnlyAt(old(f.Shapes()), f.Shapes(), i)
  {
    found := Present(f, tree, key, i);
    if found {
      DeleteOnly(f, tree, key, i);
    }
  }

  method PerformDel(f: Forest, tree: RbTree, key: Word, ghost i: nat, ghost bags: seq<seq<Entry>>) returns (found: bool)
    requires f.Valid() && i < |f.trees| && f.trees[i] == tree && AllLike(Comps(f.trees), Orders(f.Shapes()), bags)
    modifies f, tree, f.pool.Repr, f.links.Repr
    ensures f.Valid() && f.trees == old(f.trees)
    ensures found == Answer(f.pool.size, Comps(f.trees), bags, Del(i, key))
    ensures AllLike(Comps(f.trees), Orders(f.Shapes()), BagStep(f.pool.size, Comps(f.trees), bags, Del(i, key)))
  {
    ghost var shapes := f.Shapes();
    found := DeleteFound(f, tree, key, i);
    GetStep(Comps(f.trees), shapes, bags, i, key);
    DelStep(f.pool.size, Comps(f.trees), shapes, f.Shapes(), bags, i, key);
  }

  method PerformGet(f: Forest, tree: RbTree, key: Word, ghost i: nat, ghost bags: seq<seq<Entry>>) returns (found: bool)
    requires f.Valid() && i < |f.trees| && f.trees[i] == tree && AllLike(Comps(f.trees), Orders(f.Shapes()), bags)
    ensures found == Answer(f.pool.size, Comps(f.trees), bags, Get(i, key))
  {
    found := Present(f, tree, key, i);
    GetStep(Comps(f.trees), f.Shapes(), bags, i, key);
  }

  method Perform(f: Forest, op: Op, ghost bags: seq<seq<Entry>>) returns (ok: bool)
    requires f.Valid() && op.i < |f.trees| && AllLike(Comps(f.trees), Orders(f.Shapes()), bags)
    modifies f, f.trees, f.pool.Repr, f.links.Repr
    ensures f.Valid() && f.trees == old(f.trees)
    ensures ok == Answer(f.pool.size, Comps(f.trees), bags, op)
    ensures AllLike(Comps(f.trees), Orders(f.Shapes()), BagStep(f.pool.size, Comps(f.trees), bags, op))
  {
    match op
    case Put(i, e) => ok := PerformPut(f, f.trees[i], e, i, bags);
    case Get(i, key) => ok := PerformGet(f, f.trees[i], key, i, bags);
    case Del(i, key) => ok := PerformDel(f, f.trees[i], key, i, bags);
  }

  /** Over any sequence of insertions, searches and deletions, on any number of trees that share the pool: the library
      answers like plain bags that together hold at most as many entries as the pool has nodes, and holds as many
      entries with any key as they do. */
  method Run(f: Forest, ops: seq<Op>, ghost bags0: seq<seq<Entry>>) returns (answers: seq<bool>)
    requires f.Valid() && AllLike(Comps(f.trees), Orders(f.Shapes()), bags0)
    requires forall k | 0 <= k < |ops| :: ops[k].i < |f.trees|
    modifies f, f.trees, f.pool.Repr, f.links.Repr
    ensures f.Valid() && f.trees == old(f.trees)
    ensures answers == Answers(f.pool.size, Comps(f.trees), bags0, ops)
    ensures AllLike(Comps(f.trees), Orders(f.Shapes()), BagRun(f.pool.size, Comps(f.trees), bags0, ops))
  {
    ghost var bags, comps, size := bags0, Comps(f.trees), f.pool.size;
    var k := 0;
    answers := [];
    while k < |ops|
      invariant 0 <= k <= |ops| && f.Valid() && f.trees == old(f.trees) && |bags| == |bags0|
      invariant AllLike(comps, Orders(f.Shapes()), bags)
      invariant BagRun(size, comps, bags, ops[k..]) == BagRun(size, comps, bags0, ops)
      invariant answers + Answers(size, comps, bags, ops[k..]) == Answers(size, comps, bags0, ops)
    {
      OneMore(size, comps, bags, ops, k, answers);
      var ok := Perform(f, ops[k], bags);
      answers := answers + [ok];
      bags := BagStep(size, comps, bags, ops[k]);
      k := k + 1;
    }
  }

  lemma OneMore(size: nat, comps: seq<Comp>, bags: seq<seq<Entry>>, ops: seq<Op>, k: nat, answers: seq<bool>)
    requires |bags| == |comps| && k < |ops| && forall j | 0 <= j < |ops| :: ops[j].i < |bags|
    ensures var bags' := BagStep(size, comps, bags, ops[k]);
      && BagRun(size, comps, bags, ops[k..]) == BagRun(size, comps, bags', ops[k + 1..])
      && answers + Answers(size, comps, bags, ops[k..])
        == answers + [Answer(size, comps, bags, ops[k])] + Answers(size, comps, bags', ops[k + 1..])
  {
    assert ops[k..][1..] == ops[k + 1..];
  }

  function Empty(n: nat): (bags: seq<seq<Entry>>)
    ensures |bags| == n && forall i | 0 <= i < n :: bags[i] == []
  {
    seq(n, _ => [])
  }

  /** Trees with these orders in a new pool, all empty. */
  method Plain(size: nat, comps: seq<Comp>) returns (f: Forest)
    requires |comps| <= TREE_POOL_NUM && forall i | 0 <= i < |comps| :: TotalPreorder(comps[i])
    ensures fresh(f) && fresh(f.trees) && fresh(f.pool.Repr) && fresh(f.links.Repr)
    ensures f.Valid() && f.pool.size == size && Comps(f.trees) == comps
    ensures AllLike(comps, Orders(f.Shapes()), Empty(|comps|))
  {
    f := new Forest(size);
    while |f.trees| < |comps|
      invariant fresh(f) && fresh(f.trees) && fresh(f.pool.Repr) && fresh(f.links.Repr)
      invariant f.Valid() && f.pool.size == size && |f.trees| <= |comps|
      invariant forall i | 0 <= i < |f.trees| :: f.trees[i].comp == comps[i] && f.trees[i].shape == Nil
      decreases |comps| - |f.trees|
    {
      var t := f.AllocTree(comps[|f.trees|]);
    }
    assert Comps(f.trees) == comps;
  }

  /** From `rbtree_init` on: the answers to any sequence of operations are those of bags that start empty. */
  method FromStart(size: nat, comps: seq<Comp>, ops: seq<Op>) returns (f: Forest, answers: seq<bool>)
    requires |comps| <= TREE_POOL_NUM && forall i | 0 <= i < |comps| :: TotalPreorder(comps[i])
    requires forall k | 0 <= k < |ops| :: ops[k].i < |comps|
    ensures fresh(f) && fresh(f.trees) && fresh(f.pool.Repr) && fresh(f.links.Repr)
    ensures f.Valid() && f.pool.size == size && Comps(f.trees) == comps
    ensures answers == Answers(size, comps, Empty(|comps|), ops)
    ensures AllLike(comps, Orders(f.Shapes()), BagRun(size, comps, Empty(|comps|), ops))
  {
    f := Plain(size, comps);
    answers := Run(f, ops, Empty(|comps|));
  }
}
