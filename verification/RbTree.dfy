/** The red-black tree object: insertion, search and deletion, and what they do to the sorted entries. */
module RbTree {
  import opened Pointers
  import opened RbShape
  import opened RbNodes
  import opened RbMoves
  import opened RbBalance
  import opened RbInsert
  import opened RbOrder
  import opened RbRounds
  import opened RbDelete
  import opened RbErase
  import opened RbSearch
  import opened RbUnlink

  /** The nodes of `m` below `head` form the red-black search tree `t`. */
  ghost predicate IsTree(m: Mem, comp: Comp, t: Tree, head: Ptr) {
    TreeAt(m, t, head, NULL) && Sep(t) && Clean(t) && RedBlack(t) && Sorted(comp, Inorder(t))
  }

  /** The end of a repair: the whole tree is red-black again. */
  lemma WholeAgain(m: Mem, c: Ctx, t: Tree, root: Ptr)
    requires Repairing(m, c, t, root)
    requires t.color == Red ==> !c.Top? && c.color == Black
    ensures TreeAt(m, Plug(c, t), root, NULL) && Sep(Plug(c, t)) && Clean(Plug(c, t)) && RedBlack(Plug(c, t))
    ensures Ids(Plug(c, t)) == CtxIds(c) + Ids(t)
  {
    PlugAt(m, c, t, t.id, root);
    PlugApart(c, t);
    PlugRedBlack(c, t);
  }

  /** Only the root has no parent; below another node the repair goes on. */
  lemma RootReached(m: Mem, c: Ctx, t: Tree, r: Ptr, root: Ptr)
    requires t.Node? && t.id == r && FocusAt(m, c, t, r, if c.Top? then r else root)
    requires Balanced(t) && Clean(t) && Accepts(c, BlackHeight(t))
    ensures m.In(r) && (m.par[r] == NULL <==> c.Top?)
    ensures !c.Top? ==> Repairing(m, c, t, root)
  {
    if !c.Top? {
      WhichSide(m, c, t, r, root);
    }
  }

  /** The root turns black. */
  lemma RootPainted(m: Mem, m': Mem, t: Tree, r: Ptr)
    requires t.Node? && FocusAt(m, Top, t, r, r) && m.In(r) && m' == m.(color := m.color[r := Black])
    requires Balanced(t) && Clean(t)
    ensures var t' := t.(color := Black);
      Repairing(m', Top, t', r) && Inorder(t') == Inorder(t) && Ids(t') == Ids(t) && SameBut(m, m', {r})
  {
    PaintTree(m, m', t, r, NULL, Black);
    Unfold(t);
    Unfold(t.(color := Black));
  }

  lemma RootIs(t: Tree)
    requires t.Node?
    ensures t.id in Ids(t)
  {}

  /** Going towards `key` keeps all smaller entries before the position and no smaller one after it. */
  lemma StepOrder(comp: Comp, c: Ctx, t: Tree, key: Word)
    requires TotalPreorder(comp) && t.Node? && Sorted(comp, Inorder(Plug(c, t)))
    requires AllBefore(comp, Before(c), key) && NoneBefore(comp, After(c), key)
    ensures var c' := Below(c, t, if comp(t.e.key, key) > 0 then R else L);
      AllBefore(comp, Before(c'), key) && NoneBefore(comp, After(c'), key)
  {
    var l, r := Inorder(t.left), Inorder(t.right);
    PlugInorder(c, t);
    SortedAround(comp, Before(c), l, t.e, r, After(c));
    if comp(t.e.key, key) > 0 {
      StepAfter(comp, Before(c), l, t.e, key);
    } else {
      StepBefore(comp, t.e, r, After(c), key);
    }
  }

  lemma StepAfter(comp: Comp, a: seq<Entry>, l: seq<Entry>, e: Entry, key: Word)
    requires TotalPreorder(comp) && AllBefore(comp, a, key) && comp(e.key, key) > 0
    requires forall i | 0 <= i < |l| :: comp(l[i].key, e.key) >= 0
    ensures AllBefore(comp, a + (l + [e]), key)
  {
    forall i | 0 <= i < |l|
      ensures comp(l[i].key, key) > 0
    {
      BeforeToo(comp, l[i].key, e.key, key);
    }
  }

  lemma StepBefore(comp: Comp, e: Entry, r: seq<Entry>, b: seq<Entry>, key: Word)
    requires TotalPreorder(comp) && NoneBefore(comp, b, key) && comp(e.key, key) <= 0
    requires forall i | 0 <= i < |r| :: comp(e.key, r[i].key) >= 0
    ensures NoneBefore(comp, ([e] + r) + b, key)
  {
    forall i | 0 <= i < |r|
      ensures comp(r[i].key, key) <= 0
    {
      NorAfter(comp, e.key, r[i].key, key);
    }
  }

  /** The memory with the new node filled in, its parent link pointing to `tmp`. */
  ghost function Filled(m: Mem, tar: Ptr, e: Entry, tmp: Ptr): Mem
    requires m.In(tar)
  {
    m.(entry := m.entry[tar := e], color := m.color[tar := Red], par := m.par[tar := tmp],
       left := m.left[tar := NULL], right := m.right[tar := NULL])
  }

  ghost function Hanging(m: Mem, tar: Ptr, tmp: Ptr, s: Side): Mem
    requires m.In(tmp)
  {
    if s == L then m.(left := m.left[tmp := tar]) else m.(right := m.right[tmp := tar])
  }

  function Leaf(tar: Ptr, e: Entry): Tree {
    Node(tar, Red, e, Nil, Nil)
  }

  /** A node outside the tree may be written freely. */
  lemma FilledFocus(m: Mem, c: Ctx, t: Tree, p: Ptr, root: Ptr, tar: Ptr, e: Entry, tmp: Ptr)
    requires FocusAt(m, c, t, p, root) && m.In(tar) && tar !in CtxIds(c) && tar !in Ids(t)
    ensures FocusAt(Filled(m, tar, e, tmp), c, t, p, root)
    ensures SameBut(m, Filled(m, tar, e, tmp), {tar})
  {
    KeepTree(m, Filled(m, tar, e, tmp), t, p, ParentOf(c));
    KeepCtx(m, Filled(m, tar, e, tmp), c, p, root);
  }

  /** A leaf hung below the node in focus. */
  lemma HangingFocus(m: Mem, c: Ctx, t: Tree, tar: Ptr, e: Entry, s: Side, root: Ptr)
    requires t.Node? && FocusAt(m, c, t, t.id, root) && m.In(t.id)
    requires Child(t, s) == Nil && tar !in CtxIds(c) && tar !in Ids(t)
    requires TreeAt(m, Leaf(tar, e), tar, t.id)
    ensures FocusAt(Hanging(m, tar, t.id, s), Below(c, t, s), Leaf(tar, e), tar, root)
    ensures SameBut(m, Hanging(m, tar, t.id, s), {t.id})
    ensures CtxIds(Below(c, t, s)) + Ids(Leaf(tar, e)) == CtxIds(c) + Ids(t) + {tar}
  {
    var m' := Hanging(m, tar, t.id, s);
    OpenNode(m, t, s.Other(), ParentOf(c));
    HangingFrame(m, tar, t.id, s);
    KeepOff(m, m', Child(t, s.Other()), Link(m, t.id, s.Other()), t.id, {t.id});
    KeepOff(m, m', Leaf(tar, e), tar, t.id, {t.id});
    BelowIds(c, t, s, tar, e);
    KeepCtxOff(m, m', c, t.id, root, {t.id});
    BelowAt(m', c, t, s, root);
  }

  lemma HangingFrame(m: Mem, tar: Ptr, tmp: Ptr, s: Side)
    requires m.In(tmp)
    ensures var m' := Hanging(m, tar, tmp, s);
      && SameBut(m, m', {tmp}) && m'.In(tmp) && m'.entry == m.entry && m'.par == m.par && m'.color == m.color
      && Link(m', tmp, s) == tar && Link(m', tmp, s.Other()) == Link(m, tmp, s.Other())
  {}

  /** The nodes around and below a free place, when a new leaf is put there. */
  lemma BelowIds(c: Ctx, t: Tree, s: Side, tar: Ptr, e: Entry)
    requires t.Node? && Apart(c, t) && Child(t, s) == Nil && tar !in CtxIds(c) && tar !in Ids(t)
    ensures Apart(Below(c, t, s), Leaf(tar, e)) && t.id !in CtxIds(c) && t.id != tar
    ensures CtxIds(Below(c, t, s)) + Ids(Leaf(tar, e)) == CtxIds(c) + Ids(t) + {tar}
  {
    Unfold(t);
    assert Ids(Leaf(tar, e)) == {tar};
  }

  /** The leaf that the descent adds puts its entry where `Placed` does. */
  lemma NewLeaf(comp: Comp, c: Ctx, tar: Ptr, e: Entry)
    requires AllBefore(comp, Before(c), e.key) && NoneBefore(comp, After(c), e.key)
    ensures Inorder(Plug(c, Leaf(tar, e))) == Placed(comp, Inorder(Plug(c, Nil)), e)
  {
    PlugInorder(c, Leaf(tar, e));
    PlugInorder(c, Nil);
    LeafBetween(comp, Before(c), After(c), Inorder(Leaf(tar, e)), Inorder(Nil), e);
  }

  lemma LeafBetween(comp: Comp, a: seq<Entry>, b: seq<Entry>, one: seq<Entry>, none: seq<Entry>, e: Entry)
    requires AllBefore(comp, a, e.key) && NoneBefore(comp, b, e.key) && one == [] + [e] + [] && none == []
    ensures a + one + b == Placed(comp, a + none + b, e)
  {
    PlacedBetween(comp, a, b, e);
    assert a + none + b == a + b;
    assert one == [e];
  }

  /** Where the descent ends, the new leaf brings its entry to the right place. */
  lemma GrownOrder(comp: Comp, c: Ctx, t: Tree, s: Side, tar: Ptr, e: Entry)
    requires TotalPreorder(comp) && t.Node? && Sorted(comp, Inorder(Plug(c, t))) && Child(t, s) == Nil
    requires AllBefore(comp, Before(c), e.key) && NoneBefore(comp, After(c), e.key)
    requires s == if comp(t.e.key, e.key) > 0 then R else L
    ensures Inorder(Plug(Below(c, t, s), Leaf(tar, e))) == Placed(comp, Inorder(Plug(c, t)), e)
  {
    StepOrder(comp, c, t, e.key);
    NewLeaf(comp, Below(c, t, s), tar, e);
    PlugBelow(c, t, s);
  }

  /** All that the descent and the attachment achieve. */
  lemma Grown(m: Mem, comp: Comp, whole: Tree, c: Ctx, t: Tree, tar: Ptr, e: Entry, s: Side, root: Ptr)
    returns (c': Ctx, leaf: Tree)
    requires TotalPreorder(comp) && Sep(whole) && Sorted(comp, Inorder(whole)) && Plug(c, t) == whole
    requires t.Node? && FocusAt(m, c, t, t.id, root) && Sound(c, t) && Child(t, s) == Nil
    requires m.In(t.id) && m.In(tar) && tar !in Ids(whole)
    requires AllBefore(comp, Before(c), e.key) && NoneBefore(comp, After(c), e.key)
    requires s == if comp(t.e.key, e.key) > 0 then R else L
    ensures var m' := Hanging(Filled(m, tar, e, t.id), tar, t.id, s);
      Repairing(m', c', leaf, root) && SameBut(m, m', Ids(whole) + {tar})
    ensures leaf.id == tar && Inorder(Plug(c', leaf)) == Placed(comp, Inorder(whole), e)
    ensures CtxIds(c') + Ids(leaf) == Ids(whole) + {tar}
  {
    c', leaf := Below(c, t, s), Leaf(tar, e);
    PlugApart(c, t);
    GrownReady(m, c, t, tar, e, s, root);
    GrownOrder(comp, c, t, s, tar, e);
    Unfold(t);
  }

  lemma PlugBelow(c: Ctx, t: Tree, s: Side)
    requires t.Node?
    ensures Plug(Below(c, t, s), Child(t, s)) == Plug(c, t)
  {}

  /** After the descent and the attachment, the new red leaf is all that may need repair. */
  lemma GrownReady(m: Mem, c: Ctx, t: Tree, tar: Ptr, e: Entry, s: Side, root: Ptr)
    requires t.Node? && FocusAt(m, c, t, t.id, root) && Sound(c, t)
    requires m.In(t.id) && m.In(tar) && Child(t, s) == Nil && tar !in CtxIds(c) && tar !in Ids(t)
    ensures var m' := Hanging(Filled(m, tar, e, t.id), tar, t.id, s);
      Repairing(m', Below(c, t, s), Leaf(tar, e), root) && SameBut(m, m', {t.id, tar})
    ensures CtxIds(Below(c, t, s)) + Ids(Leaf(tar, e)) == CtxIds(c) + Ids(t) + {tar}
  {
    StepDown(m, c, t, t.id, root, s);
    FilledFocus(m, c, t, t.id, root, tar, e, t.id);
    HangingFocus(Filled(m, tar, e, t.id), c, t, tar, e, s, root);
  }

  /** Where the repair of a deletion may stop. */
  lemma EraseEnd(m: Mem, c: Ctx, t: Tree, d: Ptr, p: Ptr, root: Ptr)
    requires FocusAt(m, c, t, p, root) && m.In(p) && t != Nil
    requires Settled(c, t, d) || (Deficient(c, t, d) && m.par[p] == NULL)
    ensures RedBlack(Plug(c, t)) && CtxClean(c)
  {
    if Settled(c, t, d) {
      PlugRedBlack(c, t);
      AcceptsClean(c, BlackHeight(t));
    } else {
      if !c.Top? {
        WhichSide(m, c, t, p, root);
      }
    }
  }

  /** The chosen leaf no longer counts: what is left is one black node short, if the leaf was black. */
  lemma LeafDoomed(m: Mem, c: Ctx, leaf: Tree, d: Ptr, root: Ptr)
    requires LeafReady(m, c, leaf, d, root, Before(c) + After(c))
    ensures m.In(d) && FocusAt(m, c, Doomed(d), d, root)
    ensures if m.color[d] == Black then Deficient(c, Doomed(d), d) else Settled(c, Doomed(d), d)
    ensures Ids(Doomed(d)) == Ids(leaf) == {d}
  {
    Unfold(leaf);
    OpenNode(m, leaf, L, ParentOf(c));
    OpenNode(m, leaf, R, ParentOf(c));
    RootIn(m, leaf.left, m.left[d], d);
    RootIn(m, leaf.right, m.right[d], d);
  }

  /** The repair kept entries and nodes; without the leaf the tree is what the position `c` alone makes. */
  lemma LeafOut(c: Ctx, d: Ptr, c1: Ctx, t1: Tree, c2: Ctx)
    requires Carries(c, Doomed(d), c1, t1) && RedBlack(Plug(c1, t1)) && !c.Top? && d !in CtxIds(c)
    requires CtxClean(c2) && Apart(c2, Doomed(d)) && Plug(c2, Doomed(d)) == Plug(c1, t1)
    requires CtxIds(c2) + {d} == CtxIds(c1) + Ids(t1)
    ensures !c2.Top? && CtxIds(c2) == CtxIds(c) && Inorder(Plug(c2, Nil)) == Before(c) + After(c)
    ensures RedBlack(Plug(c2, Nil)) && Clean(Plug(c2, Nil)) && Sep(Plug(c2, Nil)) && Ids(Plug(c2, Nil)) == CtxIds(c)
  {
    LeafGone(c2, d);
    HoleOrder(c, d);
    SameButOne(CtxIds(c2), CtxIds(c), d);
    assert c.id in CtxIds(c);
  }

  /** After the repair: where the doomed leaf is, and what taking it off its parent leaves. */
  lemma UnlinkReady(m: Mem, c: Ctx, d: Ptr, c1: Ctx, t1: Tree, p: Ptr, root: Ptr) returns (rest: Tree)
    requires FocusAt(m, c1, t1, p, root) && DoomedOnly(t1, d) && CtxClean(c1) && RedBlack(Plug(c1, t1))
    requires Carries(c, Doomed(d), c1, t1) && !c.Top? && d !in CtxIds(c)
    ensures Inorder(rest) == Before(c) + After(c) && Ids(rest) == CtxIds(c)
    ensures RedBlack(rest) && Clean(rest) && Sep(rest)
    ensures m.In(d) && m.In(m.par[d]) && SameBut(m, Replaced(m, m.par[d], d, NULL), CtxIds(c))
    ensures TreeAt(Replaced(m, m.par[d], d, NULL), rest, root, NULL)
  {
    var c2 := FindDoomed(m, c1, t1, p, root, d);
    rest := Plug(c2, Nil);
    LeafOut(c, d, c1, t1, c2);
    Unlinked(m, c2, d, root);
  }

  lemma HoleOrder(c: Ctx, d: Ptr)
    ensures Inorder(Plug(c, Doomed(d))) == Before(c) + After(c) && Ids(Doomed(d)) == {d}
  {
    PlugInorder(c, Doomed(d));
  }

  lemma SameButOne(a: set<Ptr>, b: set<Ptr>, d: Ptr)
    requires a + {d} == b + {d} && d !in a && d !in b
    ensures a == b
  {
    assert a == (a + {d}) - {d};
    assert b == (b + {d}) - {d};
  }

  /** The entries left when the node in focus is deleted. */
  ghost function Left(c: Ctx, t: Tree): seq<Entry>
    requires t.Node?
  {
    Without(Before(c), Inorder(t.left), t.e, Inorder(t.right), After(c))
  }

  lemma LeftIs(c: Ctx, t: Tree, s: seq<Entry>)
    requires t.Node? && Clean(t.left) && s == Before(c) + (Inorder(t.left) + [t.e] + Inorder(t.right)) + After(c)
    ensures var i, pred := |Before(c)| + |Inorder(t.left)|, t.left != Nil;
      i < |s| && (pred ==> i > 0) && Deleted(s, i, pred) == Left(c, t)
  {
    LeftNotEmpty(t.left);
    DeletedParts(s, Before(c), Inorder(t.left), t.e, Inorder(t.right), After(c), t.left != Nil);
  }

  lemma LeftNotEmpty(t: Tree)
    requires Clean(t)
    ensures Inorder(t) == [] <==> t == Nil
  {}

  /** A childless node is the root exactly when it is the whole tree. */
  lemma LoneLeaf(m: Mem, c: Ctx, t: Tree, head: Ptr)
    requires t.Node? && FocusAt(m, c, t, t.id, head) && Sound(c, t) && t.left == Nil && t.right == Nil
    ensures t.id == head <==> c.Top?
    ensures LeafReady(m, c, t, t.id, head, Before(c) + After(c)) && Left(c, t) == Before(c) + After(c)
    ensures c.Top? ==> Left(c, t) == [] && CtxIds(c) + Ids(t) - {t.id} == {}
  {
    assert Before(c) + [] + After(c) == Before(c) + After(c);
    if !c.Top? {
      RootOutside(m, c, t.id, head);
    }
  }

  /** The root of a tree is above every proper position. */
  lemma {:induction false} RootOutside(m: Mem, c: Ctx, p: Ptr, root: Ptr)
    requires CtxAt(m, c, p, root) && !c.Top?
    ensures root in CtxIds(c)
  {
    if !c.up.Top? {
      RootOutside(m, c.up, c.id, root);
    }
  }

  lemma ErasedIds(c: Ctx, leaf: Tree, d: Ptr)
    requires leaf.Node? && leaf.id == d && leaf.left == Nil && leaf.right == Nil && d !in CtxIds(c)
    ensures CtxIds(c) + Ids(leaf) - {d} == CtxIds(c) && CtxIds(c) + {d} == CtxIds(c) + Ids(leaf)
  {
    Unfold(leaf);
  }

  /** The search has come down to `t`: what it finds there is what it finds in the whole tree. */
  ghost predicate Seeking(comp: Comp, whole: Tree, key: Word, c: Ctx, t: Tree, steps: nat) {
    && Plug(c, t) == whole && steps + Height(t) <= Height(whole)
    && FoundIndex(comp, whole, key) == (if FoundIndex(comp, t, key) < 0 then -1 else |Before(c)| + FoundIndex(comp, t, key))
    && FoundHasLeft(comp, whole, key) == FoundHasLeft(comp, t, key)
  }

  lemma SeekDown(comp: Comp, whole: Tree, key: Word, c: Ctx, t: Tree, steps: nat, s: Side)
    requires t.Node? && Seeking(comp, whole, key, c, t, steps)
    requires if comp(t.e.key, key) > 0 then s == R else comp(t.e.key, key) < 0 && s == L
    ensures Seeking(comp, whole, key, Below(c, t, s), Child(t, s), steps + 1)
  {
    PlugBelow(c, t, s);
  }

  lemma SeekEnd(comp: Comp, whole: Tree, key: Word, c: Ctx, t: Tree, steps: nat)
    requires Seeking(comp, whole, key, c, t, steps)
    ensures t == Nil ==> FoundIndex(comp, whole, key) < 0
    ensures t.Node? && comp(t.e.key, key) == 0 ==>
      && FoundIndex(comp, whole, key) == |Before(c)| + |Inorder(t.left)| && steps + 1 <= Height(whole)
      && (FoundHasLeft(comp, whole, key) <==> t.left != Nil)
  {}

  lemma LeftWhenNone(c: Ctx, t: Tree)
    requires t.Node? && t.left == Nil
    ensures Left(c, t) == Before(c) + Inorder(t.right) + After(c)
  {}

  lemma LeftWhenSome(c: Ctx, t: Tree)
    requires t.Node? && |Inorder(t.left)| > 0
    ensures var l := Inorder(t.left);
      Left(c, t) == Before(c) + l[..|l| - 1] + [Entry(l[|l| - 1].key, t.e.val)] + Inorder(t.right) + After(c)
  {}

  class RbTree {
    const pool: NodePool
    const comp: Comp
    var head: Ptr
    ghost var shape: Tree

    ghost predicate Valid()
      reads this, pool.Repr
    {
      pool.Valid() && TotalPreorder(comp) && IsTree(pool.View(), comp, shape, head)
    }

    constructor (pool: NodePool, comp: Comp)
      requires pool.Valid() && TotalPreorder(comp)
      ensures this.pool == pool && this.comp == comp && Valid() && shape == Nil
    {
      this.pool := pool;
      this.comp := comp;
      head := NULL;
      shape := Nil;
    }

    /** The guard of the repair loop: a red node below a red node. */
    method Clash(cur: Ptr, ghost c: Ctx, ghost t: Tree) returns (b: bool)
      requires pool.Valid() && Repairing(pool.View(), c, t, head) && t.id == cur
      ensures b <==> RedRed(c, t)
    {
      if !c.Top? {
        WhichSide(pool.View(), c, t, cur, head);
      }
      b := pool.color[cur] == Red && pool.color[pool.par[cur]] == Red;
    }

    /** The root test after a round: a node without a parent becomes the head and turns black. */
    method FixRoot(r: Ptr, ghost c: Ctx, ghost t: Tree) returns (ghost t': Tree)
      requires pool.Valid() && t.Node? && t.id == r && FocusAt(pool.View(), c, t, r, if c.Top? then r else head)
      requires Balanced(t) && Clean(t) && Accepts(c, BlackHeight(t))
      modifies this`head, pool.color
      ensures Repairing(pool.View(), c, t', head) && t'.id == r
      ensures Inorder(Plug(c, t')) == Inorder(Plug(c, t)) && Ids(t') == Ids(t)
      ensures SameBut(old(pool.View()), pool.View(), {r})
    {
      ghost var m := pool.View();
      t' := t;
      RootReached(m, c, t, r, head);
      if pool.par[r] == NULL {
        head := r;
        pool.Paint(r, Black);
        RootPainted(m, pool.View(), t, r);
        t' := t.(color := Black);
      }
    }

    /** The body of the repair loop: one round, and the root test after it. */
    method Step(cur: Ptr, ghost c: Ctx, ghost t: Tree) returns (r: Ptr, ghost t': Tree)
      requires pool.Valid() && Repairing(pool.View(), c, t, head) && t.id == cur && RedRed(c, t)
      modifies this`head, pool.Repr
      ensures !c.up.Top? && Repairing(pool.View(), c.up.up, t', head) && t'.id == r
      ensures Inorder(Plug(c.up.up, t')) == Inorder(Plug(c, t)) && CtxIds(c.up.up) + Ids(t') == CtxIds(c) + Ids(t)
      ensures SameBut(old(pool.View()), pool.View(), CtxIds(c) + Ids(t))
    {
      ghost var m, root := pool.View(), head;
      ghost var up;
      r, up := Rise(pool, cur, c, t, head);
      assert head == root;
      ghost var m1 := pool.View();
      RootIs(up);
      t' := FixRoot(r, c.up.up, up);
      SameTwice(m, m1, pool.View(), CtxIds(c) + Ids(t), {r}, CtxIds(c) + Ids(t));
    }

    /** The repair loop of `rbtree_insert`. */
    method Repair(tar: Ptr, ghost c: Ctx, ghost t: Tree)
      requires pool.Valid() && Repairing(pool.View(), c, t, head) && t.id == tar
      modifies this`head, this`shape, pool.Repr
      ensures TreeAt(pool.View(), shape, head, NULL) && Sep(shape) && Clean(shape) && RedBlack(shape)
      ensures Inorder(shape) == Inorder(Plug(c, t)) && Ids(shape) == CtxIds(c) + Ids(t)
      ensures SameBut(old(pool.View()), pool.View(), CtxIds(c) + Ids(t))
    {
      var cur := tar;
      ghost var cc, tt := c, t;
      var clash := Clash(cur, cc, tt);
      while clash
        invariant Repairing(pool.View(), cc, tt, head) && tt.id == cur
        invariant clash <==> RedRed(cc, tt)
        invariant Inorder(Plug(cc, tt)) == Inorder(Plug(c, t))
        invariant CtxIds(cc) + Ids(tt) == CtxIds(c) + Ids(t)
        invariant SameBut(old(pool.View()), pool.View(), CtxIds(c) + Ids(t))
        decreases cc
      {
        ghost var m, up := pool.View(), cc.up.up;
        cur, tt := Step(cur, cc, tt);
        cc := up;
        SameTwice(old(pool.View()), m, pool.View(), CtxIds(c) + Ids(t), CtxIds(c) + Ids(t), CtxIds(c) + Ids(t));
        clash := Clash(cur, cc, tt);
      }
      WholeAgain(pool.View(), cc, tt, head);
      shape := Plug(cc, tt);
    }

    /** The descent of `rbtree_insert`: right below a key that sorts before the new one, left otherwise. */
    method Descend(key: Word) returns (tmp: Ptr, goRight: bool, ghost c: Ctx, ghost t: Tree)
      requires Valid() && head != NULL
      ensures 0 <= tmp < pool.size && t.Node? && t.id == tmp && Plug(c, t) == shape
      ensures FocusAt(pool.View(), c, t, tmp, head) && Sound(c, t)
      ensures goRight == (comp(t.e.key, key) > 0) && (if goRight then t.right else t.left) == Nil
      ensures AllBefore(comp, Before(c), key) && NoneBefore(comp, After(c), key)
    {
      tmp := head;
      c, t := Top, shape;
      RootIn(pool.View(), shape, head, NULL);
      while true
        invariant t.Node? && t.id == tmp && 0 <= tmp < pool.size && Plug(c, t) == shape
        invariant FocusAt(pool.View(), c, t, tmp, head) && Sound(c, t)
        invariant AllBefore(comp, Before(c), key) && NoneBefore(comp, After(c), key)
        decreases t
      {
        goRight := comp(pool.entry[tmp].key, key) > 0;
        var next;
        if goRight {
          next := pool.right[tmp];
        } else {
          next := pool.left[tmp];
        }
        StepDown(pool.View(), c, t, tmp, head, if goRight then R else L);
        if next == NULL {
          break;
        }
        StepOrder(comp, c, t, key);
        c, t := Below(c, t, if goRight then R else L), Child(t, if goRight then R else L);
        tmp := next;
      }
    }

    /** The new node becomes a red leaf below the free child link that the descent found. */
    method Attach(tar: Ptr, key: Word, val: Word, tmp: Ptr, goRight: bool)
      requires pool.Valid() && 0 <= tar < pool.size && 0 <= tmp < pool.size
      modifies pool.Repr
      ensures pool.View() ==
        Hanging(Filled(old(pool.View()), tar, Entry(key, val), tmp), tar, tmp, if goRight then R else L)
      ensures head == old(head)
    {
      pool.entry[tar] := Entry(key, val);
      pool.left[tar] := NULL;
      pool.right[tar] := NULL;
      pool.color[tar] := Red;
      pool.par[tar] := tmp;
      if goRight {
        pool.right[tmp] := tar;
      } else {
        pool.left[tmp] := tar;
      }
    }

    /** The first node of an empty tree. */
    method InsertFirst(tar: Ptr, key: Word, val: Word)
      requires Valid() && 0 <= tar < pool.size && head == NULL
      modifies this`head, this`shape, pool.Repr
      ensures Valid() && shape == Node(tar, Black, Entry(key, val), Nil, Nil)
      ensures SameBut(old(pool.View()), pool.View(), {tar})
    {
      pool.entry[tar] := Entry(key, val);
      pool.left[tar] := NULL;
      pool.right[tar] := NULL;
      pool.par[tar] := NULL;
      pool.color[tar] := Black;
      head := tar;
      shape := Node(tar, Black, Entry(key, val), Nil, Nil);
    }

    /** The descent, and the new leaf where it ends. */
    method Grow(tar: Ptr, key: Word, val: Word) returns (ghost c: Ctx, ghost leaf: Tree)
      requires Valid() && 0 <= tar < pool.size && tar !in Ids(shape) && head != NULL
      modifies pool.Repr
      ensures Repairing(pool.View(), c, leaf, head) && leaf.id == tar
      ensures Inorder(Plug(c, leaf)) == Placed(comp, Inorder(old(shape)), Entry(key, val))
      ensures CtxIds(c) + Ids(leaf) == Ids(old(shape)) + {tar}
      ensures SameBut(old(pool.View()), pool.View(), Ids(old(shape)) + {tar})
    {
      var tmp, goRight;
      ghost var t;
      tmp, goRight, c, t := Descend(key);
      c, leaf := Grown(pool.View(), comp, shape, c, t, tar, Entry(key, val), if goRight then R else L, head);
      Attach(tar, key, val, tmp, goRight);
    }

    /** The first leaf below an existing node, and the repair. */
    method InsertBelow(tar: Ptr, key: Word, val: Word)
      requires Valid() && 0 <= tar < pool.size && tar !in Ids(shape) && head != NULL
      modifies this`head, this`shape, pool.Repr
      ensures TreeAt(pool.View(), shape, head, NULL) && Sep(shape) && Clean(shape) && RedBlack(shape)
      ensures Inorder(shape) == Placed(comp, old(Inorder(shape)), Entry(key, val))
      ensures Ids(shape) == old(Ids(shape)) + {tar}
      ensures SameBut(old(pool.View()), pool.View(), Ids(shape))
    {
      ghost var m, ids := pool.View(), Ids(shape) + {tar};
      ghost var c, leaf := Grow(tar, key, val);
      ghost var m1 := pool.View();
      Repair(tar, c, leaf);
      SameTwice(m, m1, pool.View(), ids, ids, ids);
    }

    /** Everything `rbtree_insert` does once it has a node. */
    method InsertNode(tar: Ptr, key: Word, val: Word)
      requires Valid() && 0 <= tar < pool.size && tar !in Ids(shape)
      modifies this`head, this`shape, pool.Repr
      ensures Valid()
      ensures Inorder(shape) == Placed(comp, old(Inorder(shape)), Entry(key, val))
      ensures Ids(shape) == old(Ids(shape)) + {tar}
      ensures SameBut(old(pool.View()), pool.View(), Ids(shape))
    {
      PlacedKeeps(comp, Inorder(shape), Entry(key, val));
      RootIn(pool.View(), shape, head, NULL);
      if head == NULL {
        InsertFirst(tar, key, val);
      } else {
        InsertBelow(tar, key, val);
      }
    }

    /** `rbtree_search`: a node with an equal key, after at most `height` comparisons; `NULL` when there is none. */
    method Search(key: Word) returns (r: Ptr, ghost steps: nat, ghost c: Ctx, ghost t: Tree)
      requires Valid()
      ensures (r == NULL <==> FoundIndex(comp, shape, key) < 0) && steps <= Height(shape)
      ensures r != NULL ==>
        && 0 <= r < pool.size && t.Node? && t.id == r && comp(t.e.key, key) == 0 && pool.entry[r] == t.e
        && Plug(c, t) == shape && FocusAt(pool.View(), c, t, r, head) && Sound(c, t)
        && FoundIndex(comp, shape, key) == |Before(c)| + |Inorder(t.left)|
        && (FoundHasLeft(comp, shape, key) <==> t.left != Nil)
    {
      r, steps, c, t := head, 0, Top, shape;
      RootIn(pool.View(), shape, head, NULL);
      while r != NULL
        invariant FocusAt(pool.View(), c, t, r, head) && Sound(c, t)
        invariant r == NULL <==> t == Nil
        invariant t.Node? ==> t.id == r && 0 <= r < pool.size
        invariant Seeking(comp, shape, key, c, t, steps)
        decreases t
      {
        ghost var s := if comp(t.e.key, key) > 0 then R else L;
        StepDown(pool.View(), c, t, r, head, s);
        SeekEnd(comp, shape, key, c, t, steps);
        var cmp := comp(pool.entry[r].key, key);
        if cmp == 0 {
          steps := steps + 1;
          return;
        }
        SeekDown(comp, shape, key, c, t, steps, s);
        steps := steps + 1;
        if cmp > 0 {
          r := pool.right[r];
        } else {
          r := pool.left[r];
        }
        c, t := Below(c, t, s), Child(t, s);
      }
      SeekEnd(comp, shape, key, c, t, steps);
    }

    /** The repair loop of `rbtree_delete`, from the leaf `d` that is to go. */
    method EraseLoop(d: Ptr, ghost c: Ctx, ghost leaf: Tree, ghost root: Ptr)
      returns (ghost c': Ctx, ghost t': Tree, ghost p: Ptr)
      requires pool.Valid() && LeafReady(pool.View(), c, leaf, d, root, Before(c) + After(c)) && 0 <= d < pool.size
      modifies pool.Repr
      ensures FocusAt(pool.View(), c', t', p, root) && DoomedOnly(t', d) && CtxClean(c') && RedBlack(Plug(c', t'))
      ensures Carries(c, Doomed(d), c', t') && head == old(head)
      ensures SameBut(old(pool.View()), pool.View(), CtxIds(c) + {d})
    {
      ghost var m0 := pool.View();
      var tar := d;
      var flag := pool.color[d] == Black;
      ghost var cc, tt := c, Doomed(d);
      LeafDoomed(m0, c, leaf, d, root);
      while flag && pool.par[tar] != NULL
        invariant FocusAt(pool.View(), cc, tt, tar, root) && 0 <= tar < pool.size && tt != Nil
        invariant if flag then Deficient(cc, tt, d) else Settled(cc, tt, d)
        invariant Carries(c, Doomed(d), cc, tt)
        invariant SameBut(m0, pool.View(), CtxIds(c) + {d})
        decreases flag, Urgency(cc)
      {
        ghost var m := pool.View();
        ghost var was := cc;
        tar, flag, cc, tt := EraseRound(pool, tar, cc, tt, d, root);
        SameTwice(m0, m, pool.View(), CtxIds(c) + {d}, CtxIds(c) + {d}, CtxIds(c) + {d});
      }
      EraseEnd(pool.View(), cc, tt, d, tar, root);
      c', t', p := cc, tt, tar;
    }

    /** The first half of `rbtree_node_free`: the leaf comes off its parent. */
    method Unlink(d: Ptr)
      requires pool.Valid() && 0 <= d < pool.size && (pool.par[d] == NULL || 0 <= pool.par[d] < pool.size)
      modifies pool.left, pool.right
      ensures pool.View() == Replaced(old(pool.View()), old(pool.par[d]), d, NULL) && head == old(head)
    {
      if pool.par[d] != NULL {
        if pool.left[pool.par[d]] == d {
          pool.left[pool.par[d]] := NULL;
        } else {
          pool.right[pool.par[d]] := NULL;
        }
      }
    }

    /** From the chosen leaf to the end of `rbtree_delete`, when the tree keeps other nodes. */
    method EraseLeaf(d: Ptr, ghost c: Ctx, ghost leaf: Tree)
      requires pool.Valid() && LeafReady(pool.View(), c, leaf, d, head, Before(c) + After(c)) && 0 <= d < pool.size && !c.Top?
      modifies this`shape, pool.Repr
      ensures TreeAt(pool.View(), shape, head, NULL) && Sep(shape) && Clean(shape) && RedBlack(shape)
      ensures Inorder(shape) == Before(c) + After(c) && Ids(shape) == CtxIds(c) && d !in CtxIds(c)
      ensures SameBut(old(pool.View()), pool.View(), CtxIds(c) + {d})
    {
      ghost var m := pool.View();
      ghost var c1, t1, p := EraseLoop(d, c, leaf, head);
      ghost var m1 := pool.View();
      shape := UnlinkReady(m1, c, d, c1, t1, p, head);
      Unlink(d);
      SameTwice(m, m1, pool.View(), CtxIds(c) + {d}, CtxIds(c), CtxIds(c) + {d});
    }

    /** The choice of the leaf: the first half of `rbtree_delete`, for a found node that is not a leaf. */
    method Choose(tar: Ptr, ghost c: Ctx, ghost t: Tree) returns (d: Ptr, ghost c': Ctx, ghost leaf: Tree)
      requires pool.Valid() && 0 <= tar < pool.size && t.Node? && t.id == tar
      requires FocusAt(pool.View(), c, t, tar, head) && Sound(c, t)
      requires t.left != Nil || t.right != Nil
      modifies pool.entry
      ensures 0 <= d < pool.size && LeafReady(pool.View(), c', leaf, d, head, Before(c') + After(c')) && !c'.Top?
      ensures Before(c') + After(c') == Left(c, t) && CtxIds(c') + Ids(leaf) == CtxIds(c) + Ids(t)
      ensures SameBut(old(pool.View()), pool.View(), CtxIds(c) + Ids(t))
    {
      StepDown(pool.View(), c, t, tar, head, L);
      if pool.left[tar] == NULL {
        LeftWhenNone(c, t);
        d, c', leaf := ChooseRight(pool, tar, c, t, head);
      } else {
        d, c', leaf := ChoosePred(pool, tar, c, t, head);
        LeftWhenSome(c, t);
      }
    }

    /** `rbtree_delete` once the node is found. */
    method DeleteFound(tar: Ptr, ghost c: Ctx, ghost t: Tree) returns (d: Ptr)
      requires pool.Valid() && 0 <= tar < pool.size && t.Node? && t.id == tar
      requires FocusAt(pool.View(), c, t, tar, head) && Sound(c, t)
      modifies this`head, this`shape, pool.Repr
      ensures TreeAt(pool.View(), shape, head, NULL) && Sep(shape) && Clean(shape) && RedBlack(shape)
      ensures Inorder(shape) == Left(c, t)
      ensures 0 <= d < pool.size && d in CtxIds(c) + Ids(t) && Ids(shape) == CtxIds(c) + Ids(t) - {d}
      ensures SameBut(old(pool.View()), pool.View(), CtxIds(c) + Ids(t))
    {
      ghost var m, c', leaf := pool.View(), c, t;
      StepDown(m, c, t, tar, head, L);
      StepDown(m, c, t, tar, head, R);
      if pool.left[tar] == NULL && pool.right[tar] == NULL {
        LoneLeaf(m, c, t, head);
        d := tar;
        if tar == head {
          head := NULL;
          shape := Nil;
          return;
        }
      } else {
        d, c', leaf := Choose(tar, c, t);
      }
      ghost var m1 := pool.View();
      EraseLeaf(d, c', leaf);
      ErasedIds(c', leaf, d);
      SameTwice(m, m1, pool.View(), CtxIds(c) + Ids(t), CtxIds(c') + {d}, CtxIds(c) + Ids(t));
    }

    /** `rbtree_delete`; the freed node is returned. */
    method DeleteNode(key: Word) returns (d: Ptr)
      requires Valid() && FoundIndex(comp, shape, key) >= 0
      modifies this`head, this`shape, pool.Repr
      ensures Valid() && 0 <= d < pool.size && d in old(Ids(shape)) && Ids(shape) == old(Ids(shape)) - {d}
      ensures old(FoundHasLeft(comp, shape, key) ==> FoundIndex(comp, shape, key) > 0)
      ensures Inorder(shape) ==
        Deleted(old(Inorder(shape)), old(FoundIndex(comp, shape, key)), old(FoundHasLeft(comp, shape, key)))
      ensures SameBut(old(pool.View()), pool.View(), old(Ids(shape)))
    {
      var tar;
      ghost var steps, c, t;
      tar, steps, c, t := Search(key);
      PlugApart(c, t);
      PlugInorder(c, t);
      LeftIs(c, t, Inorder(shape));
      DeletedSorted(comp, Inorder(shape), |Before(c)| + |Inorder(t.left)|, t.left != Nil);
      d := DeleteFound(tar, c, t);
    }
  }
}
