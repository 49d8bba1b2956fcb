/** One round of the deletion repair on linked nodes. */
module RbErase {
  import opened Pointers
  import opened RbShape
  import opened RbNodes
  import opened RbMoves
  import opened RbBalance
  import opened RbRounds
  import opened RbDelete

  function BlackAbove(c: Ctx): nat {
    if c.Top? then 0 else BlackAbove(c.up) + Step(c.color)
  }

  /** Falls with every round that leaves the position deficient: a red sibling lowers the position, but below a
      red node. */
  function Urgency(c: Ctx): nat {
    2 * BlackAbove(c) + if !c.Top? && c.color == Black then 1 else 0
  }

  lemma UrgencyFalls(c: Ctx)
    requires !c.Top? && c.color == Black
    ensures Urgency(c.up) < Urgency(c)
    ensures c.sib.Node? && c.sib.color == Red ==> Urgency(Lowered(c)) < Urgency(c)
  {
    if c.sib.Node? && c.sib.color == Red {
      assert BlackAbove(Lowered(c).up) == BlackAbove(c.up) + 1;
    }
  }

  /** What the repair reads around a deficient position. */
  lemma SiblingAt(m: Mem, c: Ctx, t: Tree, d: Ptr, p: Ptr, root: Ptr)
    requires FocusAt(m, c, t, p, root) && Deficient(c, t, d) && !c.Top?
    ensures c.sib.Node? && m.In(c.id) && m.In(p) && m.In(c.sib.id) && m.par[p] == c.id && m.color[c.id] == c.color
    ensures c.InLeft? <==> m.left[c.id] == p
    ensures c.InLeft? ==> m.right[c.id] == c.sib.id
    ensures c.InRight? ==> m.left[c.id] == c.sib.id
    ensures m.color[c.sib.id] == c.sib.color
    ensures m.left[c.sib.id] == NULL || m.In(m.left[c.sib.id])
    ensures m.right[c.sib.id] == NULL || m.In(m.right[c.sib.id])
    ensures ColorOf(c.sib.left) == Red <==> m.left[c.sib.id] != NULL && m.color[m.left[c.sib.id]] == Red
    ensures ColorOf(c.sib.right) == Red <==> m.right[c.sib.id] != NULL && m.color[m.right[c.sib.id]] == Red
    ensures c.sib.left.Node? ==> c.sib.left.id == m.left[c.sib.id]
    ensures c.sib.right.Node? ==> c.sib.right.id == m.right[c.sib.id]
  {
    HasSibling(c, t, d);
    WhichSide(m, c, t, p, root);
    assert TreeAt(m, c.sib, c.sib.id, c.id);
    assert Clean(c.sib.left) && Clean(c.sib.right);
  }

  /** Black sibling `v` with red near child `w`: both sides of the source do what `rotate` does to such a shape. */
  method NearCase(pool: NodePool, onLeft: bool, tmp: Ptr, v: Ptr, w: Ptr,
                  ghost c: Ctx, ghost t: Tree, ghost p: Ptr, ghost root: Ptr)
    requires pool.Valid() && !c.Top? && c.sib.Node? && Near(c).Node? && onLeft == c.InLeft?
    requires tmp == c.id && v == c.sib.id && w == Near(c).id
    requires FocusAt(pool.View(), c, t, p, root)
    modifies pool.Repr
    ensures FocusAt(pool.View(), c.up, NearFixed(c, t), c.id, root)
    ensures SameBut(old(pool.View()), pool.View(), Ids(Here(c, t)))
  {
    ghost var m, h := pool.View(), Here(c, t);
    FocusUp(m, c, t, p, root);
    if onLeft {
      NodesRL(h);
      TurnRL(pool, tmp, v, w, h, ParentOf(c.up));
    } else {
      NodesLR(h);
      TurnLR(pool, tmp, v, w, h, ParentOf(c.up));
    }
    AroundKept(m, pool.View(), c.up, h, NearFixed(c, t), tmp, root);
  }

  /** Sibling `v` with child `w` away from the position: black with red `w` (`far`), or red. */
  method SpinCase(pool: NodePool, onLeft: bool, tmp: Ptr, v: Ptr, w: Ptr, far: bool,
                  ghost c: Ctx, ghost t: Tree, ghost p: Ptr, ghost root: Ptr)
    requires pool.Valid() && !c.Top? && c.sib.Node? && Far(c).Node? && onLeft == c.InLeft? && t != Nil
    requires tmp == c.id && v == c.sib.id && w == Far(c).id
    requires FocusAt(pool.View(), c, t, p, root)
    modifies pool.Repr
    ensures FocusAt(pool.View(), c.up, Spun(c, t, far), c.id, root)
    ensures SameBut(old(pool.View()), pool.View(), Ids(Here(c, t)))
  {
    ghost var m, h := pool.View(), Here(c, t);
    FocusUp(m, c, t, p, root);
    if onLeft {
      NodesSpinL(h, far);
      TurnSpinL(pool, tmp, v, w, h, ParentOf(c.up), far);
    } else {
      NodesSpinR(h, far);
      TurnSpinR(pool, tmp, v, w, h, ParentOf(c.up), far);
    }
    AroundKept(m, pool.View(), c.up, h, Spun(c, t, far), tmp, root);
  }

  /** Black sibling `v` without a red child. */
  method FadeCase(pool: NodePool, tmp: Ptr, v: Ptr,
                  ghost c: Ctx, ghost t: Tree, ghost p: Ptr, ghost root: Ptr) returns (flag: bool)
    requires pool.Valid() && !c.Top? && c.sib.Node? && tmp == c.id && v == c.sib.id && p != NULL
    requires FocusAt(pool.View(), c, t, p, root)
    modifies pool.color
    ensures FocusAt(pool.View(), c.up, Faded(c, t), c.id, root) && flag == (c.color == Black)
    ensures SameBut(old(pool.View()), pool.View(), Ids(Here(c, t)))
  {
    ghost var m := pool.View();
    FocusUp(m, c, t, p, root);
    FadedNodes(m, c, t, root);
    pool.Paint(v, Red);
    ghost var m1 := pool.View();
    flag := pool.color[tmp] == Black;
    pool.Paint(tmp, Black);
    FadedFocus(m, m1, pool.View(), c, t, root);
  }

  lemma FadedNodes(m: Mem, c: Ctx, t: Tree, root: Ptr)
    requires !c.Top? && c.sib.Node? && FocusAt(m, c.up, Here(c, t), c.id, root)
    ensures m.In(c.id) && m.In(c.sib.id) && c.id != c.sib.id && m.color[c.id] == c.color
    ensures c.id in Ids(Here(c, t)) && c.sib.id in Ids(Here(c, t))
  {
    var h, s := Here(c, t), if c.InLeft? then R else L;
    OpenNode(m, h, s, ParentOf(c.up));
    Unfold(h);
  }

  /** First the sibling turns red, then the node above it black. */
  lemma FadedFocus(m: Mem, m1: Mem, m2: Mem, c: Ctx, t: Tree, root: Ptr)
    requires !c.Top? && c.sib.Node? && FocusAt(m, c.up, Here(c, t), c.id, root)
    requires m.In(c.id) && m.In(c.sib.id)
    requires m1 == m.(color := m.color[c.sib.id := Red]) && m2 == m1.(color := m1.color[c.id := Black])
    ensures FocusAt(m2, c.up, Faded(c, t), c.id, root)
  {
    var h, s := Here(c, t), if c.InLeft? then R else L;
    var h1 := Relabelled(h, s, c.sib.(color := Red), h.e, h.color);
    PaintChild(m, m1, c.up, h, s, root, Red);
    assert Faded(c, t) == h1.(color := Black);
    PaintRoot(m1, m2, c.up, h1, root, Black);
  }

  /** What one round leaves behind: the position higher up, or lowered below a red node. */
  ghost predicate Onward(m: Mem, m': Mem, c: Ctx, t: Tree, d: Ptr, root: Ptr, c': Ctx, t': Tree, r: Ptr, flag: bool) {
    && FocusAt(m', c', t', r, root) && Carries(c, t, c', t') && SameBut(m, m', CtxIds(c) + Ids(t))
    && t' != Nil && (if flag then Deficient(c', t', d) && Urgency(c') < Urgency(c) else Settled(c', t', d))
  }

  lemma HereIds(c: Ctx, t: Tree)
    requires !c.Top?
    ensures Ids(Here(c, t)) <= CtxIds(c) + Ids(t)
  {
    Unfold(Here(c, t));
  }

  /** After spinning a red sibling the position is one level lower. */
  lemma LoweredFocus(m: Mem, c: Ctx, t: Tree, p: Ptr, root: Ptr)
    requires !c.Top? && c.sib.Node? && Far(c).Node? && t != Nil
    requires t.Node? ==> t.id == p
    requires t.Doomed? ==> t.gone == p
    requires FocusAt(m, c.up, Spun(c, t, false), c.id, root)
    ensures FocusAt(m, Lowered(c), t, p, root)
  {
    var s := if c.InLeft? then L else R;
    var h := Spun(c, t, false);
    FocusDown(m, c.up, h, c.id, root, s);
    FocusDown(m, Below(c.up, h, s), Child(h, s), c.sib.id, root, s);
  }

  /** One round: the body of the loop of `rbtree_delete`. */
  method EraseRound(pool: NodePool, tar: Ptr, ghost c: Ctx, ghost t: Tree, ghost d: Ptr, ghost root: Ptr)
    returns (r: Ptr, flag: bool, ghost c': Ctx, ghost t': Tree)
    requires pool.Valid() && !c.Top? && FocusAt(pool.View(), c, t, tar, root) && Deficient(c, t, d)
    modifies pool.Repr
    ensures Onward(old(pool.View()), pool.View(), c, t, d, root, c', t', r, flag)
  {
    SiblingAt(pool.View(), c, t, d, tar, root);
    HereIds(c, t);
    var tmp := pool.par[tar];
    var onLeft := pool.left[tmp] == tar;
    var v := if onLeft then pool.right[tmp] else pool.left[tmp];
    var near := if onLeft then pool.left[v] else pool.right[v];
    var far := if onLeft then pool.right[v] else pool.left[v];
    if pool.color[v] == Black {
      r := tmp;
      c' := c.up;
      if near != NULL && pool.color[near] == Red {
        flag := false;
        NearCase(pool, onLeft, tmp, v, near, c, t, tar, root);
        t' := NearFixed(c, t);
        NearFits(c, t, d);
      } else if far != NULL && pool.color[far] == Red {
        flag := false;
        SpinCase(pool, onLeft, tmp, v, far, true, c, t, tar, root);
        t' := Spun(c, t, true);
        FarFits(c, t, d);
      } else {
        flag := FadeCase(pool, tmp, v, c, t, tar, root);
        t' := Faded(c, t);
        FadedFits(c, t, d);
        if flag {
          UrgencyFalls(c);
        }
      }
    } else {
      r, flag := tar, true;
      LoweredFits(c, t, d);
      UrgencyFalls(c);
      SpinCase(pool, onLeft, tmp, v, far, false, c, t, tar, root);
      LoweredFocus(pool.View(), c, t, tar, root);
      c', t' := Lowered(c), t;
    }
  }
}
