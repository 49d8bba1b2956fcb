/** One round of the insertion repair, as a function on trees. */
module RbInsert {
  import opened RbShape
  import opened RbMoves
  import opened RbBalance

  /** The node above position `c`, with colour `col` and `t` in the position. */
  function Parented(c: Ctx, col: Color, t: Tree): Tree
    requires !c.Top?
  {
    if c.InLeft? then Node(c.id, col, c.e, t, c.sib) else Node(c.id, col, c.e, c.sib, t)
  }

  /** A red node `t` below a red node. */
  ghost predicate RedRed(c: Ctx, t: Tree) {
    && !c.Top? && c.color == Red && t.Node? && t.color == Red
    && Balanced(t) && Clean(t) && Accepts(c, BlackHeight(t))
  }

  /** The grandparent's subtree, the parent painted black and the grandparent red. */
  function Painted(c: Ctx, t: Tree): Tree
    requires !c.Top? && !c.up.Top?
  {
    Parented(c.up, Red, Parented(c, Black, t))
  }

  /** What `rotate` makes of it. */
  function Rotated(c: Ctx, t: Tree): Tree
    requires !c.Top? && !c.up.Top? && t.Node?
  {
    if c.up.InLeft? then
      if c.InLeft? then TurnedLL(Painted(c, t)) else TurnedLR(Painted(c, t))
    else
      if c.InRight? then TurnedRR(Painted(c, t)) else TurnedRL(Painted(c, t))
  }

  /** What one round makes of the grandparent's subtree. */
  function Repaired(c: Ctx, t: Tree): Tree
    requires !c.Top? && !c.up.Top? && t.Node?
  {
    if ColorOf(c.up.sib) == Red then
      Parented(c.up.(sib := c.up.sib.(color := Black)), Red, Parented(c, Black, t))
    else
      Rotated(c, t)
  }

  /** The round leaves a balanced subtree that fits where the grandparent's was. */
  lemma RepairedFits(c: Ctx, t: Tree)
    requires RedRed(c, t)
    ensures !c.up.Top? && c.up.color == Black
    ensures var r := Repaired(c, t); r.Node? && Balanced(r) && Clean(r) && Accepts(c.up.up, BlackHeight(r))
  {
    var h := BlackHeight(t);
    assert Accepts(c.up, h) && Accepts(c.up.up, h + 1);
    var g, r := Painted(c, t), Repaired(c, t);
    if ColorOf(c.up.sib) == Red {
      assert Balanced(Parented(c, Black, t)) && BlackHeight(Parented(c, Black, t)) == h + 1;
      assert Balanced(c.up.sib.(color := Black));
    } else if c.up.InLeft? {
      if c.InLeft? { EntriesLL(g); } else { EntriesLR(g); }
      assert Balanced(r.left) && Balanced(r.right);
    } else {
      if c.InRight? { EntriesRR(g); } else { EntriesRL(g); }
      assert Balanced(r.left) && Balanced(r.right);
    }
  }

  /** The round moves no entry to another place in the order, and keeps the nodes of the tree. */
  lemma RepairedKeeps(c: Ctx, t: Tree)
    requires RedRed(c, t) && !c.up.Top?
    ensures Inorder(Plug(c.up.up, Repaired(c, t))) == Inorder(Plug(c, t))
    ensures Apart(c, t) ==> Apart(c.up.up, Repaired(c, t))
    ensures CtxIds(c.up.up) + Ids(Repaired(c, t)) == CtxIds(c) + Ids(t)
  {
    var g, r, o := Painted(c, t), Repaired(c, t), Parented(c.up, c.up.color, Parented(c, c.color, t));
    assert Plug(c, t) == Plug(c.up.up, o);
    Unfold(o);
    Unfold(g);
    Unfold(r);
    Unfold(Parented(c, c.color, t));
    Unfold(Parented(c, Black, t));
    if ColorOf(c.up.sib) == Red {
      Unfold(c.up.sib);
      Unfold(c.up.sib.(color := Black));
    } else if c.up.InLeft? {
      if c.InLeft? { EntriesLL(g); NodesLL(g); } else { EntriesLR(g); NodesLR(g); }
    } else {
      if c.InRight? { EntriesRR(g); NodesRR(g); } else { EntriesRL(g); NodesRL(g); }
    }
    assert Inorder(r) == Inorder(o) && Ids(r) == Ids(o) && (Sep(o) ==> Sep(r));
    PlugInorder(c.up.up, r);
    PlugInorder(c.up.up, o);
    PlugApart(c.up.up, r);
    PlugApart(c.up.up, o);
    PlugApart(c, t);
  }
}
