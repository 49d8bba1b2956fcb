/** The deletion repair, as functions on trees. */
module RbDelete {
  import opened Pointers
  import opened RbShape
  import opened RbMoves
  import opened RbBalance
  import opened RbInsert

  /** `t` is clean but for the doomed leaf `d`. */
  ghost predicate DoomedOnly(t: Tree, d: Ptr) {
    match t
    case Nil => false
    case Doomed(x) => x == d
    case Node(_, _, _, l, r) => (DoomedOnly(l, d) && Clean(r)) || (Clean(l) && DoomedOnly(r, d))
  }

  /** Subtree `t` is balanced but one black node short of what its position wants. */
  ghost predicate Deficient(c: Ctx, t: Tree, d: Ptr) {
    DoomedOnly(t, d) && Balanced(t) && ColorOf(t) == Black && Accepts(c, BlackHeight(t) + 1)
  }

  /** Subtree `t` fits its position. */
  ghost predicate Settled(c: Ctx, t: Tree, d: Ptr) {
    DoomedOnly(t, d) && Balanced(t) && Accepts(c, BlackHeight(t)) && (Above(c) == Red ==> ColorOf(t) == Black)
  }

  /** The subtree of the node above, as it is. */
  function Here(c: Ctx, t: Tree): Tree
    requires !c.Top?
  {
    Parented(c, c.color, t)
  }

  /** The child of the sibling on the side of the position. */
  function Near(c: Ctx): Tree
    requires !c.Top? && c.sib.Node?
  {
    if c.InLeft? then c.sib.left else c.sib.right
  }

  function Far(c: Ctx): Tree
    requires !c.Top? && c.sib.Node?
  {
    if c.InLeft? then c.sib.right else c.sib.left
  }

  /** Black sibling with a red near child. */
  function NearFixed(c: Ctx, t: Tree): Tree
    requires !c.Top? && c.sib.Node? && Near(c).Node?
  {
    if c.InLeft? then TurnedRL(Here(c, t)) else TurnedLR(Here(c, t))
  }

  /** Black sibling with a red far child, or (not `far`) red sibling. */
  function Spun(c: Ctx, t: Tree, far: bool): Tree
    requires !c.Top? && c.sib.Node? && Far(c).Node?
  {
    if c.InLeft? then TurnedSpinL(Here(c, t), far) else TurnedSpinR(Here(c, t), far)
  }

  /** Black sibling with black children: it turns red, and the node above black. */
  function Faded(c: Ctx, t: Tree): Tree
    requires !c.Top? && c.sib.Node?
  {
    Parented(c.(sib := c.sib.(color := Red)), Black, t)
  }

  /** The position once a red sibling has been spun above it. */
  function Lowered(c: Ctx): Ctx
    requires !c.Top? && c.sib.Node?
  {
    if c.InLeft? then
      InLeft(InLeft(c.up, c.id, c.color, c.sib.e, Far(c)), c.sib.id, c.sib.color, c.e, Near(c))
    else
      InRight(InRight(c.up, c.id, c.color, c.sib.e, Far(c)), c.sib.id, c.sib.color, c.e, Near(c))
  }

  /** `t'` above is a rearrangement of what was there. */
  ghost predicate Carries(c: Ctx, t: Tree, c': Ctx, t': Tree) {
    && Inorder(Plug(c', t')) == Inorder(Plug(c, t))
    && CtxIds(c') + Ids(t') == CtxIds(c) + Ids(t)
    && (Apart(c, t) ==> Apart(c', t'))
  }

  lemma CarriesUp(c: Ctx, t: Tree, t': Tree)
    requires !c.Top? && SameNodes(Here(c, t), t') && Inorder(t') == Inorder(Here(c, t))
    ensures Carries(c, t, c.up, t')
  {
    var h := Here(c, t);
    assert Plug(c, t) == Plug(c.up, h);
    Unfold(h);
    PlugInorder(c.up, t');
    PlugInorder(c.up, h);
  }

  /** A deficient position has a sibling; a red sibling has two children. */
  lemma HasSibling(c: Ctx, t: Tree, d: Ptr)
    requires Deficient(c, t, d) && !c.Top?
    ensures c.sib.Node? && Clean(c.sib)
    ensures c.sib.color == Red ==> Near(c).Node? && Far(c).Node? && c.color == Black
  {}

  /** One level of the balance definitions. */
  lemma BalancedNode(t: Tree)
    requires t.Node? && Balanced(t)
    ensures Balanced(t.left) && Balanced(t.right) && BlackHeight(t.left) == BlackHeight(t.right)
    ensures BlackHeight(t) == BlackHeight(t.left) + Step(t.color)
    ensures t.color == Red ==> ColorOf(t.left) == Black && ColorOf(t.right) == Black
    ensures Clean(t) ==> Clean(t.left) && Clean(t.right)
  {}

  lemma NearFits(c: Ctx, t: Tree, d: Ptr)
    requires Deficient(c, t, d) && !c.Top? && c.sib.Node? && c.sib.color == Black && ColorOf(Near(c)) == Red
    ensures Settled(c.up, NearFixed(c, t), d) && Carries(c, t, c.up, NearFixed(c, t))
  {
    var h, r := Here(c, t), NearFixed(c, t);
    BalancedNode(c.sib);
    BalancedNode(Near(c));
    if c.InLeft? { EntriesRL(h); NodesRL(h); } else { EntriesLR(h); NodesLR(h); }
    CarriesUp(c, t, r);
    assert Balanced(r.left) && Balanced(r.right);
    assert if c.InLeft? then DoomedOnly(r.left, d) else DoomedOnly(r.right, d);
  }

  lemma FarFits(c: Ctx, t: Tree, d: Ptr)
    requires Deficient(c, t, d) && !c.Top? && c.sib.Node? && c.sib.color == Black
    requires ColorOf(Near(c)) == Black && ColorOf(Far(c)) == Red
    ensures Settled(c.up, Spun(c, t, true), d) && Carries(c, t, c.up, Spun(c, t, true))
  {
    var h, r := Here(c, t), Spun(c, t, true);
    BalancedNode(c.sib);
    BalancedNode(Far(c));
    if c.InLeft? { EntriesSpinL(h, true); NodesSpinL(h, true); } else { EntriesSpinR(h, true); NodesSpinR(h, true); }
    CarriesUp(c, t, r);
    assert Balanced(r.left) && Balanced(r.right);
    assert if c.InLeft? then DoomedOnly(r.left, d) else DoomedOnly(r.right, d);
  }

  lemma FadedFits(c: Ctx, t: Tree, d: Ptr)
    requires Deficient(c, t, d) && !c.Top? && c.sib.Node? && c.sib.color == Black
    requires ColorOf(Near(c)) == Black && ColorOf(Far(c)) == Black
    ensures Carries(c, t, c.up, Faded(c, t))
    ensures c.color == Black ==> Deficient(c.up, Faded(c, t), d)
    ensures c.color == Red ==> Settled(c.up, Faded(c, t), d)
  {
    var h, r := Here(c, t), Faded(c, t);
    Unfold(h);
    Unfold(r);
    Unfold(c.sib);
    Unfold(c.sib.(color := Red));
    CarriesUp(c, t, r);
    assert Balanced(c.sib.(color := Red));
  }

  lemma LoweredFits(c: Ctx, t: Tree, d: Ptr)
    requires Deficient(c, t, d) && !c.Top? && c.sib.Node? && c.sib.color == Red
    ensures Near(c).Node? && Far(c).Node?
    ensures Deficient(Lowered(c), t, d) && Carries(c, t, Lowered(c), t)
    ensures Plug(Lowered(c), t) == Plug(c.up, Spun(c, t, false))
    ensures Lowered(c).color == Red && Lowered(c).up.color == Black && Lowered(c).up.up == c.up && c.color == Black
  {
    HasSibling(c, t, d);
    var h, r := Here(c, t), Spun(c, t, false);
    if c.InLeft? { EntriesSpinL(h, false); NodesSpinL(h, false); } else { EntriesSpinR(h, false); NodesSpinR(h, false); }
    CarriesUp(c, t, r);
    PlugApart(c.up, r);
    PlugApart(Lowered(c), t);
    assert Accepts(Lowered(c).up, BlackHeight(t) + 1);
  }
}
