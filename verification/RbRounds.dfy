/** One round of the insertion repair on linked nodes. */
module RbRounds {
  import opened Pointers
  import opened RbShape
  import opened RbNodes
  import opened RbMoves
  import opened RbBalance
  import opened RbInsert

  /** Position `c`, held by `p` below `root`, is filled with `t`. */
  ghost predicate FocusAt(m: Mem, c: Ctx, t: Tree, p: Ptr, root: Ptr) {
    TreeAt(m, t, p, ParentOf(c)) && CtxAt(m, c, p, root) && Apart(c, t)
  }

  /** Position `c` one level further down, on side `s` of `t`. */
  function Below(c: Ctx, t: Tree, s: Side): Ctx
    requires t.Node?
  {
    if s == L then InLeft(c, t.id, t.color, t.e, t.right) else InRight(c, t.id, t.color, t.e, t.left)
  }

  lemma FocusDown(m: Mem, c: Ctx, t: Tree, p: Ptr, root: Ptr, s: Side)
    requires t.Node? && FocusAt(m, c, t, p, root)
    ensures m.In(p) && FocusAt(m, Below(c, t, s), Child(t, s), Link(m, p, s), root)
    ensures Plug(Below(c, t, s), Child(t, s)) == Plug(c, t)
  {
    OpenNode(m, t, s, ParentOf(c));
    OpenNode(m, t, s.Other(), ParentOf(c));
  }

  /** A balanced, clean subtree that fits its position. */
  ghost predicate Sound(c: Ctx, t: Tree) {
    Balanced(t) && Clean(t) && Accepts(c, BlackHeight(t)) && (Above(c) == Red ==> ColorOf(t) == Black)
  }

  /** Going down one level keeps the focus sound, and the link followed tells whether there is a child. */
  lemma StepDown(m: Mem, c: Ctx, t: Tree, p: Ptr, root: Ptr, s: Side)
    requires t.Node? && FocusAt(m, c, t, p, root) && Sound(c, t)
    ensures m.In(p) && FocusAt(m, Below(c, t, s), Child(t, s), Link(m, p, s), root)
    ensures Sound(Below(c, t, s), Child(t, s)) && Plug(Below(c, t, s), Child(t, s)) == Plug(c, t)
    ensures Link(m, p, s) == NULL <==> Child(t, s) == Nil
    ensures Child(t, s) != Nil ==> Child(t, s).Node? && Child(t, s).id == Link(m, p, s) && m.In(Link(m, p, s))
  {
    FocusDown(m, c, t, p, root, s);
    SoundDown(c, t, s);
    RootIn(m, Child(t, s), Link(m, p, s), p);
  }

  lemma SoundDown(c: Ctx, t: Tree, s: Side)
    requires t.Node? && Sound(c, t)
    ensures Sound(Below(c, t, s), Child(t, s))
  {}

  lemma FocusUp(m: Mem, c: Ctx, t: Tree, p: Ptr, root: Ptr)
    requires FocusAt(m, c, t, p, root) && !c.Top?
    ensures m.In(c.id) && FocusAt(m, c.up, Parented(c, c.color, t), c.id, root)
  {
    Unfold(Parented(c, c.color, t));
  }

  /** Painting the node above the position moves the focus there. */
  lemma PaintUp(m: Mem, m': Mem, c: Ctx, t: Tree, p: Ptr, root: Ptr, col: Color)
    requires FocusAt(m, c, t, p, root) && !c.Top? && m.In(c.id) && m' == m.(color := m.color[c.id := col])
    ensures FocusAt(m', c.up, Parented(c, col, t), c.id, root)
  {
    KeepTree(m, m', t, p, c.id);
    KeepTree(m, m', c.sib, if c.InLeft? then m.right[c.id] else m.left[c.id], c.id);
    KeepCtx(m, m', c.up, c.id, root);
    Unfold(Parented(c, col, t));
  }

  lemma PaintTree(m: Mem, m': Mem, t: Tree, p: Ptr, par: Ptr, col: Color)
    requires TreeAt(m, t, p, par) && Sep(t) && t.Node? && m.In(p) && m' == m.(color := m.color[p := col])
    ensures TreeAt(m', t.(color := col), p, par)
  {
    KeepTree(m, m', t.left, m.left[p], p);
    KeepTree(m, m', t.right, m.right[p], p);
  }

  /** Painting the node in focus. */
  lemma PaintRoot(m: Mem, m': Mem, c: Ctx, t: Tree, root: Ptr, col: Color)
    requires t.Node? && FocusAt(m, c, t, t.id, root) && m.In(t.id) && m' == m.(color := m.color[t.id := col])
    ensures FocusAt(m', c, t.(color := col), t.id, root)
  {
    PaintTree(m, m', t, t.id, ParentOf(c), col);
    Unfold(t);
    Unfold(t.(color := col));
    KeepCtx(m, m', c, t.id, root);
  }

  /** Painting a child of the node in focus. */
  lemma PaintChild(m: Mem, m': Mem, c: Ctx, g: Tree, s: Side, root: Ptr, col: Color)
    requires g.Node? && Child(g, s).Node? && FocusAt(m, c, g, g.id, root) && m.In(Child(g, s).id)
    requires m' == m.(color := m.color[Child(g, s).id := col])
    ensures FocusAt(m', c, Relabelled(g, s, Child(g, s).(color := col), g.e, g.color), g.id, root)
  {
    var u := Child(g, s);
    OpenNode(m, g, s, ParentOf(c));
    OpenNode(m, g, s.Other(), ParentOf(c));
    Unfold(u);
    Unfold(u.(color := col));
    Unfold(Relabelled(g, s, u.(color := col), g.e, g.color));
    assert Ids(u) <= Ids(g);
    KeepTree(m, m', Child(g, s.Other()), Link(m, g.id, s.Other()), g.id);
    PaintTree(m, m', u, u.id, g.id, col);
    KeepCtx(m, m', c, g.id, root);
  }

  /** Changes elsewhere leave a subtree and what surrounds a position as they are. */
  lemma KeepOff(m: Mem, m': Mem, t: Tree, p: Ptr, par: Ptr, ids: set<Ptr>)
    requires TreeAt(m, t, p, par) && SameBut(m, m', ids) && ids !! Ids(t)
    ensures TreeAt(m', t, p, par)
  {
    KeepTree(m, m', t, p, par);
  }

  lemma KeepCtxOff(m: Mem, m': Mem, c: Ctx, p: Ptr, root: Ptr, ids: set<Ptr>)
    requires CtxAt(m, c, p, root) && SameBut(m, m', ids) && ids !! CtxIds(c)
    ensures CtxAt(m', c, p, root)
  {
    KeepCtx(m, m', c, p, root);
  }

  /** The position on side `s` of a node whose position is `c`. */
  lemma BelowAt(m: Mem, c: Ctx, t: Tree, s: Side, root: Ptr)
    requires t.Node? && Holds(m, t.id, t.e, t.color, ParentOf(c)) && CtxAt(m, c, t.id, root)
    requires TreeAt(m, Child(t, s.Other()), Link(m, t.id, s.Other()), t.id)
    ensures CtxAt(m, Below(c, t, s), Link(m, t.id, s), root)
  {}

  /** The position's node is a child of the node above it, on the side the context says. */
  lemma WhichSide(m: Mem, c: Ctx, t: Tree, p: Ptr, root: Ptr)
    requires FocusAt(m, c, t, p, root) && !c.Top? && t != Nil
    ensures m.In(c.id) && m.In(p) && m.par[p] == c.id && m.color[c.id] == c.color
    ensures c.InLeft? <==> m.left[c.id] == p
    ensures c.InRight? <==> m.right[c.id] == p
    ensures TreeAt(m, c.sib, if c.InLeft? then m.right[c.id] else m.left[c.id], c.id)
  {
    RootIn(m, t, p, c.id);
    RootIn(m, c.sib, if c.InLeft? then m.right[c.id] else m.left[c.id], c.id);
  }

  /** Changes inside the subtree leave what surrounds it. */
  lemma AroundKept(m: Mem, m': Mem, c: Ctx, t: Tree, t': Tree, p: Ptr, root: Ptr)
    requires FocusAt(m, c, t, p, root) && SameBut(m, m', Ids(t))
    requires TreeAt(m', t', p, ParentOf(c)) && Apart(c, t')
    ensures FocusAt(m', c, t', p, root)
  {
    forall i | i in CtxIds(c)
      ensures SameNode(m, m', i)
    {
    }
    KeepCtx(m, m', c, p, root);
  }

  /** Giving the surrounding node another child moves the position to that child. */
  lemma AroundReplaced(m: Mem, c: Ctx, t: Tree, g: Ptr, p: Ptr, root: Ptr)
    requires FocusAt(m, c, t, g, root) && t != Nil && (c.Top? || m.In(c.id))
    ensures CtxAt(Replaced(m, ParentOf(c), g, p), c, p, if c.Top? then p else root)
  {
    if !c.Top? {
      WhichSide(m, c, t, g, root);
      var m' := Replaced(m, c.id, g, p);
      KeepTree(m, m', c.sib, if c.InLeft? then m.right[c.id] else m.left[c.id], c.id);
      KeepCtx(m, m', c.up, c.id, root);
    }
  }

  /** The two tests of `rotate`: which child of its parent the node is, and its parent of the grandparent. */
  lemma WhichShape(m: Mem, c: Ctx, t: Tree, root: Ptr)
    requires !c.Top? && !c.up.Top? && t.Node?
    requires FocusAt(m, c.up.up, Painted(c, t), c.up.id, root)
    ensures m.In(t.id) && m.In(c.id) && m.In(c.up.id) && m.par[t.id] == c.id && m.par[c.id] == c.up.id
    ensures m.par[c.up.id] == ParentOf(c.up.up)
    ensures c.up.InLeft? <==> m.left[c.up.id] == c.id
    ensures c.InLeft? <==> m.left[c.id] == t.id
    ensures c.InRight? <==> m.right[c.id] == t.id
  {
    var g, p := Painted(c, t), Parented(c, Black, t);
    var s, s' := if c.up.InLeft? then L else R, if c.InLeft? then L else R;
    assert p == Child(g, s) && t == Child(p, s');
    OpenNode(m, g, s, ParentOf(c.up.up));
    OpenNode(m, g, s.Other(), ParentOf(c.up.up));
    OpenNode(m, p, s', c.up.id);
    OpenNode(m, p, s'.Other(), c.up.id);
  }

  /** What the repair finds beside the parent. */
  lemma WhichUncle(m: Mem, c: Ctx, t: Tree, root: Ptr)
    requires !c.Top? && !c.up.Top? && t.Node? && Clean(c.up.sib)
    requires FocusAt(m, c.up.up, Painted(c, t), c.up.id, root)
    ensures m.In(c.up.id)
    ensures var u, sib := if c.up.InLeft? then m.right[c.up.id] else m.left[c.up.id], c.up.sib;
      (u == NULL <==> sib == Nil) && (sib.Node? ==> sib.id == u && m.In(u) && m.color[u] == sib.color)
  {
    OpenNode(m, Painted(c, t), if c.up.InLeft? then R else L, ParentOf(c.up.up));
  }

  /** When the grandparent's place is taken by another node, the rest of the tree follows. */
  lemma AroundRisen(m: Mem, m': Mem, c: Ctx, g: Tree, g': Tree, root: Ptr)
    requires g.Node? && g'.Node? && FocusAt(m, c, g, g.id, root) && (c.Top? || m.In(c.id))
    requires SameBut(Replaced(m, ParentOf(c), g.id, g'.id), m', Ids(g))
    requires TreeAt(m', g', g'.id, ParentOf(c)) && Apart(c, g')
    ensures FocusAt(m', c, g', g'.id, if c.Top? then g'.id else root)
    ensures SameBut(m, m', CtxIds(c) + Ids(g))
  {
    var m1 := Replaced(m, ParentOf(c), g.id, g'.id);
    AroundReplaced(m, c, g, g.id, g'.id, root);
    forall i | i in CtxIds(c)
      ensures SameNode(m1, m', i)
    {
    }
    KeepCtx(m1, m', c, g'.id, if c.Top? then g'.id else root);
    forall i | i !in CtxIds(c) + Ids(g)
      ensures SameNode(m, m', i)
    {
      assert SameNode(m1, m', i);
    }
  }

  /** `rotate`: takes the red node, its parent already black and its grandparent already red. */
  method Rotate(pool: NodePool, tar: Ptr, ghost c: Ctx, ghost t: Tree, ghost root: Ptr) returns (r: Ptr)
    requires pool.Valid() && !c.Top? && !c.up.Top? && t.Node? && t.id == tar
    requires FocusAt(pool.View(), c.up.up, Painted(c, t), c.up.id, root)
    modifies pool.Repr
    ensures Rotated(c, t).id == r
    ensures FocusAt(pool.View(), c.up.up, Rotated(c, t), r, if c.up.up.Top? then r else root)
    ensures SameBut(old(pool.View()), pool.View(), CtxIds(c.up.up) + Ids(Painted(c, t)))
  {
    ghost var m, g, up := pool.View(), Painted(c, t), ParentOf(c.up.up);
    WhichShape(m, c, t, root);
    var par := pool.par[tar];
    var gpar := pool.par[par];
    r := gpar;
    if pool.left[gpar] == par {
      if pool.left[par] == tar {
        NodesLL(g);
        TurnLL(pool, gpar, par, g, up);
        AroundRisen(m, pool.View(), c.up.up, g, TurnedLL(g), root);
        r := par;
      } else {
        NodesLR(g);
        TurnLR(pool, gpar, par, tar, g, up);
        AroundKept(m, pool.View(), c.up.up, g, TurnedLR(g), gpar, root);
      }
    } else {
      if pool.right[par] == tar {
        NodesRR(g);
        TurnRR(pool, gpar, par, tar, g, up);
        AroundKept(m, pool.View(), c.up.up, g, TurnedRR(g), gpar, root);
      } else {
        NodesRL(g);
        TurnRL(pool, gpar, par, tar, g, up);
        AroundKept(m, pool.View(), c.up.up, g, TurnedRL(g), gpar, root);
      }
    }
  }

  /** The state of the insertion repair: `t`, red or black, is where two red nodes may meet. */
  ghost predicate Repairing(m: Mem, c: Ctx, t: Tree, root: Ptr) {
    && t.Node? && FocusAt(m, c, t, t.id, root)
    && Balanced(t) && Clean(t) && Accepts(c, BlackHeight(t)) && (c.Top? ==> t.color == Black)
  }

  /** Both paintings at the start of a round. */
  method PaintPair(pool: NodePool, tar: Ptr, ghost c: Ctx, ghost t: Tree, ghost root: Ptr)
    requires pool.Valid() && t.Node? && t.id == tar && !c.Top? && !c.up.Top?
    requires FocusAt(pool.View(), c, t, tar, root)
    modifies pool.Repr
    ensures FocusAt(pool.View(), c.up.up, Painted(c, t), c.up.id, root)
    ensures SameBut(old(pool.View()), pool.View(), {c.id, c.up.id})
  {
    ghost var m := pool.View();
    TwoUp(m, c, t, tar, root);
    pool.Paint(pool.par[tar], Black);
    ghost var m1 := pool.View();
    pool.Paint(pool.par[pool.par[tar]], Red);
    PairPainted(m, m1, pool.View(), c, t, tar, root);
  }

  /** The two nodes above the position. */
  lemma TwoUp(m: Mem, c: Ctx, t: Tree, p: Ptr, root: Ptr)
    requires FocusAt(m, c, t, p, root) && t != Nil && !c.Top? && !c.up.Top?
    ensures m.In(p) && m.In(c.id) && m.In(c.up.id) && m.par[p] == c.id && m.par[c.id] == c.up.id
  {
    WhichSide(m, c, t, p, root);
    FocusUp(m, c, t, p, root);
    WhichSide(m, c.up, Parented(c, c.color, t), c.id, root);
  }

  lemma PairPainted(m: Mem, m1: Mem, m2: Mem, c: Ctx, t: Tree, p: Ptr, root: Ptr)
    requires FocusAt(m, c, t, p, root) && !c.Top? && !c.up.Top? && m.In(c.id) && m.In(c.up.id)
    requires m1 == m.(color := m.color[c.id := Black]) && m2 == m1.(color := m1.color[c.up.id := Red])
    ensures FocusAt(m2, c.up.up, Painted(c, t), c.up.id, root) && SameBut(m, m2, {c.id, c.up.id})
  {
    PaintUp(m, m1, c, t, p, root, Black);
    PaintUp(m1, m2, c.up, Parented(c, Black, t), c.id, root, Red);
  }

  method PaintUncle(pool: NodePool, u: Ptr, ghost c: Ctx, ghost t: Tree, ghost s: Side, ghost root: Ptr)
    requires pool.Valid() && t.Node? && !c.Top? && !c.up.Top? && s == (if c.up.InLeft? then R else L)
    requires FocusAt(pool.View(), c.up.up, Painted(c, t), c.up.id, root)
    requires c.up.sib.Node? && c.up.sib.id == u && c.up.sib.color == Red && 0 <= u < pool.size
    modifies pool.color
    ensures FocusAt(pool.View(), c.up.up, Repaired(c, t), c.up.id, root)
    ensures SameBut(old(pool.View()), pool.View(), {u})
  {
    ghost var m := pool.View();
    pool.Paint(u, Black);
    PaintChild(m, pool.View(), c.up.up, Painted(c, t), s, root, Black);
  }

  lemma RoundIds(c: Ctx, t: Tree)
    requires !c.Top? && !c.up.Top?
    ensures CtxIds(c.up.up) + Ids(Painted(c, t)) <= CtxIds(c) + Ids(t)
    ensures {c.id, c.up.id} <= CtxIds(c) + Ids(t)
    ensures c.up.sib.Node? ==> {c.up.sib.id} <= CtxIds(c) + Ids(t)
  {
    Unfold(Painted(c, t));
    Unfold(Parented(c, Black, t));
  }

  lemma SameTwice(m: Mem, m1: Mem, m2: Mem, a: set<Ptr>, b: set<Ptr>, ids: set<Ptr>)
    requires SameBut(m, m1, a) && SameBut(m1, m2, b) && a <= ids && b <= ids
    ensures SameBut(m, m2, ids)
  {
    forall i | i !in ids
      ensures SameNode(m, m2, i)
    {
      assert SameNode(m, m1, i) && SameNode(m1, m2, i);
    }
  }

  method Uncle(pool: NodePool, tar: Ptr, ghost c: Ctx, ghost t: Tree, ghost root: Ptr) returns (gpar: Ptr, uncle: Ptr)
    requires pool.Valid() && t.Node? && t.id == tar && !c.Top? && !c.up.Top? && Clean(c.up.sib)
    requires FocusAt(pool.View(), c.up.up, Painted(c, t), c.up.id, root)
    ensures gpar == c.up.id && (uncle == NULL <==> c.up.sib == Nil)
    ensures uncle != NULL ==>
      c.up.sib.Node? && c.up.sib.id == uncle && 0 <= uncle < pool.size && pool.color[uncle] == c.up.sib.color
  {
    WhichShape(pool.View(), c, t, root);
    WhichUncle(pool.View(), c, t, root);
    var par := pool.par[tar];
    gpar := pool.par[par];
    if pool.left[gpar] == par {
      uncle := pool.right[gpar];
    } else {
      uncle := pool.left[gpar];
    }
  }

  /** One round: the body of the repair loop of `rbtree_insert`, but for the root test. */
  method Round(pool: NodePool, tar: Ptr, ghost c: Ctx, ghost t: Tree, ghost root: Ptr) returns (r: Ptr)
    requires pool.Valid() && t.Node? && t.id == tar && !c.Top? && !c.up.Top?
    requires FocusAt(pool.View(), c, t, tar, root) && Clean(c.up.sib)
    modifies pool.Repr
    ensures Repaired(c, t).Node? && Repaired(c, t).id == r
    ensures FocusAt(pool.View(), c.up.up, Repaired(c, t), r, if c.up.up.Top? then r else root)
    ensures SameBut(old(pool.View()), pool.View(), CtxIds(c) + Ids(t))
  {
    ghost var m0 := pool.View();
    PaintPair(pool, tar, c, t, root);
    ghost var m := pool.View();
    r := Branch(pool, tar, c, t, root);
    RoundIds(c, t);
    SameTwice(m0, m, pool.View(), {c.id, c.up.id}, CtxIds(c) + Ids(t), CtxIds(c) + Ids(t));
  }

  /** The test of the uncle's colour and what depends on it. */
  method Branch(pool: NodePool, tar: Ptr, ghost c: Ctx, ghost t: Tree, ghost root: Ptr) returns (r: Ptr)
    requires pool.Valid() && t.Node? && t.id == tar && !c.Top? && !c.up.Top? && Clean(c.up.sib)
    requires FocusAt(pool.View(), c.up.up, Painted(c, t), c.up.id, root)
    modifies pool.Repr
    ensures Repaired(c, t).Node? && Repaired(c, t).id == r
    ensures FocusAt(pool.View(), c.up.up, Repaired(c, t), r, if c.up.up.Top? then r else root)
    ensures SameBut(old(pool.View()), pool.View(), CtxIds(c) + Ids(t))
  {
    RoundIds(c, t);
    var gpar, uncle := Uncle(pool, tar, c, t, root);
    ghost var m := pool.View();
    if uncle != NULL && pool.color[uncle] == Red {
      FocusRoot(m, c.up.up, Painted(c, t), c.up.id, root);
      PaintUncle(pool, uncle, c, t, if c.up.InLeft? then R else L, root);
      r := gpar;
    } else {
      r := Rotate(pool, tar, c, t, root);
    }
  }

  lemma FocusRoot(m: Mem, c: Ctx, t: Tree, p: Ptr, root: Ptr)
    requires FocusAt(m, c, t, p, root)
    ensures c.Top? ==> root == p
  {}

  /** One round, seen from outside: the focus rises two levels and the subtree below fits again. */
  method Rise(pool: NodePool, tar: Ptr, ghost c: Ctx, ghost t: Tree, ghost root: Ptr) returns (r: Ptr, ghost t': Tree)
    requires pool.Valid() && Repairing(pool.View(), c, t, root) && t.id == tar && RedRed(c, t)
    modifies pool.Repr
    ensures !c.up.Top? && t'.Node? && t'.id == r
    ensures FocusAt(pool.View(), c.up.up, t', r, if c.up.up.Top? then r else root)
    ensures Balanced(t') && Clean(t') && Accepts(c.up.up, BlackHeight(t'))
    ensures Inorder(Plug(c.up.up, t')) == Inorder(Plug(c, t)) && CtxIds(c.up.up) + Ids(t') == CtxIds(c) + Ids(t)
    ensures SameBut(old(pool.View()), pool.View(), CtxIds(c) + Ids(t))
  {
    RepairedFits(c, t);
    RepairedKeeps(c, t);
    r := Round(pool, tar, c, t, root);
    t' := Repaired(c, t);
  }
}
