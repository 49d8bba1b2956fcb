/** Choosing the leaf to delete, and taking it out at the end. */
module RbUnlink {
  import opened Pointers
  import opened RbShape
  import opened RbNodes
  import opened RbMoves
  import opened RbBalance
  import opened RbRounds
  import opened RbDelete

  // ----- the doomed leaf leaves

  ghost predicate CtxClean(c: Ctx) {
    c.Top? || (Clean(c.sib) && CtxClean(c.up))
  }

  lemma {:induction false} AcceptsClean(c: Ctx, h: nat)
    requires Accepts(c, h)
    ensures CtxClean(c)
  {
    if !c.Top? {
      AcceptsClean(c.up, h + Step(c.color));
    }
  }

  /** Where the doomed leaf hangs. */
  lemma {:induction false} FindDoomed(m: Mem, c: Ctx, t: Tree, p: Ptr, root: Ptr, d: Ptr) returns (c': Ctx)
    requires FocusAt(m, c, t, p, root) && DoomedOnly(t, d) && CtxClean(c)
    ensures FocusAt(m, c', Doomed(d), d, root) && CtxClean(c') && Plug(c', Doomed(d)) == Plug(c, t)
    ensures CtxIds(c') + {d} == CtxIds(c) + Ids(t)
    decreases t
  {
    if t.Doomed? {
      c' := c;
    } else {
      var s := if DoomedOnly(t.left, d) && Clean(t.right) then L else R;
      FocusDown(m, c, t, p, root, s);
      c' := FindDoomed(m, Below(c, t, s), Child(t, s), Link(m, p, s), root, d);
      Unfold(t);
    }
  }

  /** Subtrees of the same black height and colour are interchangeable. */
  lemma {:induction false} PlugSwap(c: Ctx, t: Tree, t': Tree)
    requires BlackHeight(t) == BlackHeight(t') && ColorOf(t) == ColorOf(t') && (Balanced(t) <==> Balanced(t'))
    ensures RedBlack(Plug(c, t)) <==> RedBlack(Plug(c, t'))
  {
    if !c.Top? {
      PlugSwap(c.up, Here(c, t), Here(c, t'));
    }
  }

  lemma {:induction false} PlugClean(c: Ctx, t: Tree)
    requires CtxClean(c) && Clean(t)
    ensures Clean(Plug(c, t))
  {
    if !c.Top? {
      PlugClean(c.up, Here(c, t));
    }
  }

  /** Without the doomed leaf the tree is a clean red-black tree with the same entries. */
  lemma LeafGone(c: Ctx, d: Ptr)
    requires CtxClean(c) && RedBlack(Plug(c, Doomed(d))) && Apart(c, Doomed(d))
    ensures RedBlack(Plug(c, Nil)) && Clean(Plug(c, Nil)) && Sep(Plug(c, Nil))
    ensures Inorder(Plug(c, Nil)) == Inorder(Plug(c, Doomed(d)))
    ensures Ids(Plug(c, Nil)) == CtxIds(c) && d !in CtxIds(c)
  {
    PlugSwap(c, Doomed(d), Nil);
    PlugClean(c, Nil);
    PlugApart(c, Nil);
    PlugInorder(c, Nil);
    PlugInorder(c, Doomed(d));
  }

  /** The tests of `rbtree_node_free` take the leaf off its parent. */
  lemma Unlinked(m: Mem, c: Ctx, d: Ptr, root: Ptr)
    requires FocusAt(m, c, Doomed(d), d, root) && !c.Top?
    ensures m.In(c.id) && TreeAt(Replaced(m, c.id, d, NULL), Plug(c, Nil), root, NULL)
    ensures SameBut(m, Replaced(m, c.id, d, NULL), CtxIds(c))
  {
    AroundReplaced(m, c, Doomed(d), d, NULL, root);
    PlugAt(Replaced(m, c.id, d, NULL), c, Nil, NULL, root);
  }

  // ----- the largest entry below a node

  function SpineCtx(c: Ctx, t: Tree): Ctx
    decreases t
  {
    if t.Node? && t.right.Node? then SpineCtx(Below(c, t, R), t.right) else c
  }

  function SpineEnd(t: Tree): Tree {
    if t.Node? && t.right.Node? then SpineEnd(t.right) else t
  }

  lemma CleanEnd(t: Tree)
    requires t.Node? && Clean(t) && !t.right.Node?
    ensures t.right == Nil
  {
    assert Clean(t.right);
  }

  lemma SpineStop(c: Ctx, t: Tree)
    requires t.Node? && !t.right.Node?
    ensures SpineCtx(c, t) == c && SpineEnd(t) == t
  {}

  lemma {:induction false} SpineFocus(m: Mem, c: Ctx, t: Tree, p: Ptr, root: Ptr)
    requires t.Node? && FocusAt(m, c, t, p, root) && Sound(c, t)
    ensures var c', e := SpineCtx(c, t), SpineEnd(t);
      e.Node? && e.right == Nil && FocusAt(m, c', e, e.id, root) && Sound(c', e) && CtxIds(c') + Ids(e) == CtxIds(c) + Ids(t)
    decreases t
  {
    if t.right.Node? {
      FocusDown(m, c, t, p, root, R);
      SpineFocus(m, Below(c, t, R), t.right, m.right[p], root);
      BelowChild(c, t, R);
    } else {
      SpineStop(c, t);
      CleanEnd(t);
    }
  }

  lemma BelowChild(c: Ctx, t: Tree, s: Side)
    requires t.Node?
    ensures CtxIds(Below(c, t, s)) + Ids(Child(t, s)) == CtxIds(c) + Ids(t)
  {
    Unfold(t);
  }

  lemma {:induction false} SpineOrder(c: Ctx, t: Tree)
    requires t.Node? && Clean(t)
    ensures After(SpineCtx(c, t)) == After(c)
    ensures SpineEnd(t).Node?
    ensures Before(SpineCtx(c, t)) + (Inorder(SpineEnd(t).left) + [SpineEnd(t).e]) == Before(c) + Inorder(t)
    decreases t
  {
    if t.right.Node? {
      SpineOrder(Below(c, t, R), t.right);
      assert Before(c) + (Inorder(t.left) + [t.e]) + Inorder(t.right) == Before(c) + Inorder(t);
    } else {
      assert Inorder(t) == Inorder(t.left) + [t.e];
    }
  }

  /** A node with one child has a red leaf there. */
  lemma OnlyChild(t: Tree, s: Side)
    requires t.Node? && Balanced(t) && Clean(t) && Child(t, s.Other()) == Nil && Child(t, s) != Nil
    ensures var k := Child(t, s); k.Node? && k.color == Red && k.left == Nil && k.right == Nil && t.color == Black
  {
    var k := Child(t, s);
    assert k.Node? && BlackHeight(k) == 0;
    BalancedNode(k);
  }

  /** A new entry at the node in focus. */
  lemma EntryFocus(m: Mem, m': Mem, c: Ctx, t: Tree, root: Ptr, e: Entry)
    requires t.Node? && FocusAt(m, c, t, t.id, root) && m.In(t.id) && m' == m.(entry := m.entry[t.id := e])
    ensures FocusAt(m', c, t.(e := e), t.id, root)
  {
    OpenNode(m, t, L, ParentOf(c));
    OpenNode(m, t, R, ParentOf(c));
    Unfold(t);
    KeepTree(m, m', t.left, m.left[t.id], t.id);
    KeepTree(m, m', t.right, m.right[t.id], t.id);
    KeepCtx(m, m', c, t.id, root);
  }

  // ----- choosing the leaf

  /** `d` is a leaf in a sound position; its removal leaves the entries `s`. */
  ghost predicate LeafReady(m: Mem, c: Ctx, leaf: Tree, d: Ptr, root: Ptr, s: seq<Entry>) {
    && leaf.Node? && leaf.id == d && leaf.left == Nil && leaf.right == Nil
    && FocusAt(m, c, leaf, d, root) && Sound(c, leaf) && Before(c) + After(c) == s
  }

  lemma LeafOrder(c: Ctx, t: Tree, s: Side, e: Entry)
    requires t.Node? && Child(t, s.Other()) == Nil && t.e == e
    ensures Before(Below(c, t, s)) + After(Below(c, t, s)) == Before(c) + [e] + After(c)
  {
    if s == L {
      assert [e] + [] == [e];
    } else {
      assert [] + [e] == [e];
    }
  }

  lemma LeafEntries(t: Tree)
    requires t.Node? && t.left == Nil && t.right == Nil
    ensures Inorder(t) == [t.e]
  {}

  /** `t` with the entry of its child on side `s`. */
  function Raised(t: Tree, s: Side): Tree
    requires t.Node? && Child(t, s).Node?
  {
    t.(e := Child(t, s).e)
  }

  /** The only child of a node is a leaf, ready once its entry has moved up. */
  lemma LeafUp(m: Mem, m': Mem, c: Ctx, t: Tree, root: Ptr, s: Side)
    requires t.Node? && FocusAt(m, c, t, t.id, root) && Sound(c, t) && m.In(t.id)
    requires Child(t, s.Other()) == Nil && Child(t, s).Node? && Child(t, s).left == Nil && Child(t, s).right == Nil
    requires m' == m.(entry := m.entry[t.id := Child(t, s).e])
    ensures LeafReady(m', Below(c, Raised(t, s), s), Child(t, s), Child(t, s).id, root,
      Before(c) + Inorder(Child(t, s)) + After(c))
    ensures CtxIds(Below(c, Raised(t, s), s)) + Ids(Child(t, s)) == CtxIds(c) + Ids(t)
  {
    EntryFocus(m, m', c, t, root, Child(t, s).e);
    RaisedSound(c, t, s);
    StepDown(m', c, Raised(t, s), t.id, root, s);
    LeafOrder(c, Raised(t, s), s, Child(t, s).e);
    LeafEntries(Child(t, s));
    BelowChild(c, Raised(t, s), s);
    SameIds(t, s);
  }

  lemma RaisedSound(c: Ctx, t: Tree, s: Side)
    requires t.Node? && Child(t, s).Node? && Sound(c, t)
    ensures Sound(c, Raised(t, s)) && Child(Raised(t, s), s) == Child(t, s)
  {}

  lemma SameIds(t: Tree, s: Side)
    requires t.Node? && Child(t, s).Node?
    ensures Ids(Raised(t, s)) == Ids(t)
  {}

  /** The found node has only a right child: it takes over that leaf's entry. */
  method ChooseRight(pool: NodePool, tar: Ptr, ghost c: Ctx, ghost t: Tree, ghost root: Ptr)
    returns (d: Ptr, ghost c': Ctx, ghost leaf: Tree)
    requires pool.Valid() && t.Node? && t.id == tar && FocusAt(pool.View(), c, t, tar, root) && Sound(c, t)
    requires t.left == Nil && t.right != Nil && 0 <= tar < pool.size
    modifies pool.entry
    ensures LeafReady(pool.View(), c', leaf, d, root, Before(c) + Inorder(t.right) + After(c)) && !c'.Top?
    ensures CtxIds(c') + Ids(leaf) == CtxIds(c) + Ids(t)
    ensures SameBut(old(pool.View()), pool.View(), Ids(t))
  {
    ghost var m := pool.View();
    OnlyChild(t, R);
    StepDown(m, c, t, tar, root, R);
    d := pool.right[tar];
    OpenNode(m, t.right, L, tar);
    pool.entry[tar] := pool.entry[d];
    c', leaf := Below(c, Raised(t, R), R), t.right;
    LeafUp(m, pool.View(), c, t, root, R);
    Unfold(t);
  }

  /** The loop that finds the largest entry below a node. */
  method FindMax(pool: NodePool, start: Ptr, ghost c: Ctx, ghost t: Tree, ghost root: Ptr) returns (mx: Ptr)
    requires pool.Valid() && t.Node? && FocusAt(pool.View(), c, t, start, root) && Sound(c, t)
    ensures SpineEnd(t).Node? && mx == SpineEnd(t).id
  {
    mx := start;
    ghost var cc, tt := c, t;
    StepDown(pool.View(), cc, tt, mx, root, R);
    while pool.right[mx] != NULL
      invariant tt.Node? && tt.id == mx && 0 <= mx < pool.size && FocusAt(pool.View(), cc, tt, mx, root) && Sound(cc, tt)
      invariant SpineEnd(tt) == SpineEnd(t)
      decreases tt
    {
      StepDown(pool.View(), cc, tt, mx, root, R);
      mx := pool.right[mx];
      cc, tt := Below(cc, tt, R), tt.right;
    }
    StepDown(pool.View(), cc, tt, mx, root, R);
  }

  /** The largest node below the found one: itself the leaf, or it takes over the entry of its left leaf. */
  method ChooseMax(pool: NodePool, mx: Ptr, ghost c: Ctx, ghost t: Tree, ghost root: Ptr)
    returns (d: Ptr, ghost c': Ctx, ghost leaf: Tree)
    requires pool.Valid() && t.Node? && t.id == mx && FocusAt(pool.View(), c, t, mx, root) && Sound(c, t)
    requires t.right == Nil && 0 <= mx < pool.size && !c.Top?
    modifies pool.entry
    ensures LeafReady(pool.View(), c', leaf, d, root, Before(c) + Inorder(t.left) + After(c)) && !c'.Top?
    ensures CtxIds(c') + Ids(leaf) == CtxIds(c) + Ids(t)
    ensures SameBut(old(pool.View()), pool.View(), Ids(t))
  {
    ghost var m := pool.View();
    StepDown(m, c, t, mx, root, L);
    if pool.left[mx] != NULL {
      OnlyChild(t, L);
      d := pool.left[mx];
      OpenNode(m, t.left, L, mx);
      pool.entry[mx] := pool.entry[d];
      c', leaf := Below(c, Raised(t, L), L), t.left;
      LeafUp(m, pool.View(), c, t, root, L);
      Unfold(t);
    } else {
      d, c', leaf := mx, c, t;
      assert Before(c) + [] + After(c) == Before(c) + After(c);
    }
  }

  lemma LastOf(u: seq<Entry>, x: Entry, b: seq<Entry>, l: seq<Entry>)
    requires u + [x] == b + l && |l| > 0
    ensures x == l[|l| - 1] && u == b + l[..|l| - 1]
  {
    assert x == (b + l)[|u|];
    assert u == (b + l)[..|u|];
  }

  lemma OneLess(b: seq<Entry>, i: seq<Entry>, x: Entry, b0: seq<Entry>, l: seq<Entry>, a: seq<Entry>)
    requires b + (i + [x]) == b0 + l && |l| > 0
    ensures x == l[|l| - 1] && b + i + a == b0 + l[..|l| - 1] + a
  {
    assert b + (i + [x]) == b + i + [x];
    LastOf(b + i, x, b0, l);
  }

  lemma Flatten(b: seq<Entry>, y: Entry, r: seq<Entry>, a: seq<Entry>)
    ensures b + (([y] + r) + a) == b + [y] + r + a
  {}

  lemma SpineSome(t: Tree)
    requires t.Node?
    ensures |Inorder(t)| > 0
  {}

  /** The entries once the found node has taken the key of the one before it, and that one is gone. */
  lemma PredOrder(c: Ctx, t: Tree, t1: Tree, cs: Ctx, e: Tree)
    requires t.Node? && t.left.Node? && Clean(t.left) && t1.Node? && t1 == t.(e := t1.e)
    requires cs == SpineCtx(Below(c, t1, L), t.left) && e == SpineEnd(t.left)
    ensures e.Node? && |Inorder(t.left)| > 0 && e.e == Inorder(t.left)[|Inorder(t.left)| - 1]
    ensures Before(cs) + Inorder(e.left) + After(cs)
         == Before(c) + Inorder(t.left)[..|Inorder(t.left)| - 1] + [t1.e] + Inorder(t.right) + After(c)
  {
    var l := Inorder(t.left);
    SpineSome(t.left);
    SpineOrder(Below(c, t1, L), t.left);
    OneLess(Before(cs), Inorder(e.left), e.e, Before(c), l, After(cs));
    Flatten(Before(c) + l[..|l| - 1], t1.e, Inorder(t.right), After(c));
  }

  /** `t` with the key, but not the value, of the largest entry below its left child. */
  function KeyTaken(t: Tree): Tree
    requires t.Node? && SpineEnd(t.left).Node?
  {
    t.(e := Entry(SpineEnd(t.left).e.key, t.e.val))
  }

  /** The found node has a left child: the key, but not the value, of the entry before it is copied over. */
  method TakeKey(pool: NodePool, tar: Ptr, ghost c: Ctx, ghost t: Tree, ghost root: Ptr) returns (mx: Ptr)
    requires pool.Valid() && t.Node? && t.id == tar && FocusAt(pool.View(), c, t, tar, root) && Sound(c, t)
    requires t.left != Nil && 0 <= tar < pool.size
    modifies pool.entry
    ensures var e := SpineEnd(t.left); t.left.Node? && e.Node? && e.id == mx && e.right == Nil && 0 <= mx < pool.size
    ensures var e, cs := SpineEnd(t.left), SpineCtx(Below(c, KeyTaken(t), L), t.left);
      FocusAt(pool.View(), cs, e, mx, root) && Sound(cs, e) && CtxIds(cs) + Ids(e) == CtxIds(c) + Ids(t)
    ensures SameBut(old(pool.View()), pool.View(), {tar})
  {
    ghost var m := pool.View();
    StepDown(m, c, t, tar, root, L);
    mx := FindMax(pool, pool.left[tar], Below(c, t, L), t.left, root);
    SpineNode(m, c, t, root);
    pool.entry[tar] := Entry(pool.entry[mx].key, pool.entry[tar].val);
    SpineReady(m, pool.View(), c, t, root);
    Unfold(t);
  }

  lemma SpineNode(m: Mem, c: Ctx, t: Tree, root: Ptr)
    requires t.Node? && t.left.Node? && FocusAt(m, c, t, t.id, root) && Sound(c, t)
    ensures var e := SpineEnd(t.left); e.Node? && e.right == Nil && m.In(e.id) && m.entry[e.id] == e.e
    ensures m.In(t.id) && m.entry[t.id] == t.e
  {
    StepDown(m, c, t, t.id, root, L);
    SpineFocus(m, Below(c, t, L), t.left, t.left.id, root);
  }

  /** Once the key is copied, the end of the spine is the node to go on from. */
  lemma SpineReady(m: Mem, m': Mem, c: Ctx, t: Tree, root: Ptr)
    requires t.Node? && t.left.Node? && FocusAt(m, c, t, t.id, root) && Sound(c, t) && m.In(t.id) && SpineEnd(t.left).Node?
    requires m' == m.(entry := m.entry[t.id := KeyTaken(t).e])
    ensures var e, cs := SpineEnd(t.left), SpineCtx(Below(c, KeyTaken(t), L), t.left);
      FocusAt(m', cs, e, e.id, root) && Sound(cs, e) && CtxIds(cs) + Ids(e) == CtxIds(c) + Ids(t)
  {
    var t1 := KeyTaken(t);
    EntryFocus(m, m', c, t, root, t1.e);
    assert Sound(c, t1) && Ids(t1) == Ids(t);
    StepDown(m', c, t1, t.id, root, L);
    BelowChild(c, t1, L);
    SpineFocus(m', Below(c, t1, L), t.left, t.left.id, root);
  }

  method ChoosePred(pool: NodePool, tar: Ptr, ghost c: Ctx, ghost t: Tree, ghost root: Ptr)
    returns (d: Ptr, ghost c': Ctx, ghost leaf: Tree)
    requires pool.Valid() && t.Node? && t.id == tar && FocusAt(pool.View(), c, t, tar, root) && Sound(c, t)
    requires t.left != Nil && 0 <= tar < pool.size
    modifies pool.entry
    ensures |Inorder(t.left)| > 0 && !c'.Top?
    ensures var l := Inorder(t.left);
      LeafReady(pool.View(), c', leaf, d, root,
        Before(c) + l[..|l| - 1] + [Entry(l[|l| - 1].key, t.e.val)] + Inorder(t.right) + After(c))
    ensures CtxIds(c') + Ids(leaf) == CtxIds(c) + Ids(t)
    ensures SameBut(old(pool.View()), pool.View(), CtxIds(c) + Ids(t))
  {
    ghost var m := pool.View();
    var mx := TakeKey(pool, tar, c, t, root);
    ghost var m1, e, cs := pool.View(), SpineEnd(t.left), SpineCtx(Below(c, KeyTaken(t), L), t.left);
    PredOrder(c, t, KeyTaken(t), cs, e);
    SpineBelow(Below(c, KeyTaken(t), L), t.left);
    d, c', leaf := ChooseMax(pool, mx, cs, e, root);
    SameTwice(m, m1, pool.View(), {tar}, Ids(e), CtxIds(c) + Ids(t));
  }

  lemma {:induction false} SpineBelow(c: Ctx, t: Tree)
    requires !c.Top?
    ensures !SpineCtx(c, t).Top?
    decreases t
  {
    if t.Node? && t.right.Node? {
      SpineBelow(Below(c, t, R), t.right);
    }
  }
}
