/** The four shapes of `rotate` and the two single rotations of deletion, on trees. */
module RbMoves {
  import opened Pointers
  import opened RbShape
  import opened RbNodes

  datatype Side = L | R {
    function Other(): Side { if this == L then R else L }
  }

  function Child(t: Tree, s: Side): Tree
    requires t.Node?
  {
    if s == L then t.left else t.right
  }

  function Link(m: Mem, p: Ptr, s: Side): Ptr
    requires 0 <= p < |m.left| && p < |m.right|
  {
    if s == L then m.left[p] else m.right[p]
  }

  /** Subtree `s` hangs at `r` below `par`, and holds none of the nodes `others`. */
  ghost predicate Hung(m: Mem, s: Tree, r: Ptr, par: Ptr, others: set<Ptr>) {
    && TreeAt(m, s, r, par) && Sep(s)
    && (r == NULL || (m.In(r) && r in Ids(s)))
    && forall i | i in others && i != NULL :: i !in Ids(s)
  }

  lemma Graft(m: Mem, m': Mem, s: Tree, r: Ptr, was: Ptr, par: Ptr, others: set<Ptr>)
    requires Hung(m, s, r, was, others)
    requires SameBut(m, m', others + {r}) && Moved(m, m', r, par)
    ensures TreeAt(m', s, r, par)
  {
    MoveTree(m, m', s, r, was, par);
  }

  lemma OpenNode(m: Mem, t: Tree, s: Side, up: Ptr)
    requires t.Node? && TreeAt(m, t, t.id, up) && Sep(t)
    ensures Holds(m, t.id, t.e, t.color, up)
    ensures TreeAt(m, Child(t, s), Link(m, t.id, s), t.id)
    ensures Sep(Child(t, s)) && Ids(Child(t, s)) <= Ids(t) && t.id !in Ids(Child(t, s))
    ensures Ids(Child(t, s)) !! Ids(Child(t, s.Other()))
    ensures Link(m, t.id, s) != NULL ==> Link(m, t.id, s) in Ids(Child(t, s)) && m.In(Link(m, t.id, s))
  {}

  /** Down a chain `g`, `p`, `t`: the links, and the sibling of `p`. */
  lemma ChainTop(m: Mem, g: Tree, s: Side, p: Tree, s': Side, t: Tree, up: Ptr)
    requires g.Node? && p == Child(g, s) && p.Node? && t == Child(p, s') && t.Node?
    requires TreeAt(m, g, g.id, up) && Sep(g)
    ensures Trio(|m.entry|, g.id, p.id, t.id)
    ensures m.Sized(|m.entry|) && Link(m, g.id, s) == p.id && Link(m, p.id, s') == t.id
    ensures Holds(m, g.id, g.e, g.color, up) && Holds(m, p.id, p.e, p.color, g.id) && Holds(m, t.id, t.e, t.color, p.id)
    ensures var ra, rb := Link(m, g.id, s.Other()), Link(m, p.id, s'.Other());
      && Hung(m, Child(g, s.Other()), ra, g.id, {g.id, p.id, t.id, rb, m.left[t.id], m.right[t.id]})
      && Off(|m.entry|, ra, g.id, p.id, t.id)
  {
    OpenNode(m, g, s, up);
    OpenNode(m, g, s.Other(), up);
    OpenNode(m, p, s', g.id);
    OpenNode(m, p, s'.Other(), g.id);
    OpenNode(m, t, L, p.id);
    OpenNode(m, t, R, p.id);
  }

  /** The sibling of `t`. */
  lemma ChainMiddle(m: Mem, g: Tree, s: Side, p: Tree, s': Side, t: Tree, up: Ptr)
    requires g.Node? && p == Child(g, s) && p.Node? && t == Child(p, s') && t.Node?
    requires TreeAt(m, g, g.id, up) && Sep(g)
    ensures Trio(|m.entry|, g.id, p.id, t.id)
    ensures var ra, rb := Link(m, g.id, s.Other()), Link(m, p.id, s'.Other());
      && Hung(m, Child(p, s'.Other()), rb, p.id, {g.id, p.id, t.id, ra, m.left[t.id], m.right[t.id]})
      && Off(|m.entry|, rb, g.id, p.id, t.id)
  {
    OpenNode(m, g, s, up);
    OpenNode(m, g, s.Other(), up);
    OpenNode(m, p, s', g.id);
    OpenNode(m, p, s'.Other(), g.id);
    OpenNode(m, t, L, p.id);
    OpenNode(m, t, R, p.id);
  }

  /** A subtree of `t`. */
  lemma ChainEnd(m: Mem, g: Tree, s: Side, p: Tree, s': Side, t: Tree, s'': Side, up: Ptr)
    requires g.Node? && p == Child(g, s) && p.Node? && t == Child(p, s') && t.Node?
    requires TreeAt(m, g, g.id, up) && Sep(g)
    ensures Trio(|m.entry|, g.id, p.id, t.id)
    ensures var ra, rb := Link(m, g.id, s.Other()), Link(m, p.id, s'.Other());
      && Hung(m, Child(t, s''), Link(m, t.id, s''), t.id, {g.id, p.id, t.id, ra, rb, Link(m, t.id, s''.Other())})
      && Off(|m.entry|, Link(m, t.id, s''), g.id, p.id, t.id)
  {
    OpenNode(m, g, s, up);
    OpenNode(m, g, s.Other(), up);
    OpenNode(m, p, s', g.id);
    OpenNode(m, p, s'.Other(), g.id);
    OpenNode(m, t, s'', p.id);
    OpenNode(m, t, s''.Other(), p.id);
  }

  /** Everything the memory shows of a chain `g`, `p`, `t` and the four subtrees hanging from it. */
  ghost predicate Chained(m: Mem, g: Tree, s: Side, p: Tree, s': Side, t: Tree, up: Ptr) {
    && g.Node? && p == Child(g, s) && p.Node? && t == Child(p, s') && t.Node?
    && Trio(|m.entry|, g.id, p.id, t.id) && m.Sized(|m.entry|)
    && Link(m, g.id, s) == p.id && Link(m, p.id, s') == t.id
    && Holds(m, g.id, g.e, g.color, up) && Holds(m, p.id, p.e, p.color, g.id) && Holds(m, t.id, t.e, t.color, p.id)
    && var ra, rb, rc, rd := Link(m, g.id, s.Other()), Link(m, p.id, s'.Other()), m.left[t.id], m.right[t.id];
    && Hung(m, Child(g, s.Other()), ra, g.id, {g.id, p.id, t.id, rb, rc, rd})
    && Hung(m, Child(p, s'.Other()), rb, p.id, {g.id, p.id, t.id, ra, rc, rd})
    && Hung(m, t.left, rc, t.id, {g.id, p.id, t.id, ra, rb, rd})
    && Hung(m, t.right, rd, t.id, {g.id, p.id, t.id, ra, rb, rc})
  }

  lemma ChainAt(m: Mem, g: Tree, s: Side, p: Tree, s': Side, t: Tree, up: Ptr)
    requires g.Node? && p == Child(g, s) && p.Node? && t == Child(p, s') && t.Node?
    requires TreeAt(m, g, g.id, up) && Sep(g)
    ensures Chained(m, g, s, p, s', t, up)
  {
    ChainTop(m, g, s, p, s', t, up);
    ChainMiddle(m, g, s, p, s', t, up);
    ChainEnd(m, g, s, p, s', t, L, up);
    ChainEnd(m, g, s, p, s', t, R, up);
  }

  ghost predicate HookAt(m: Mem, r: Ptr, par: Ptr) {
    m.In(r) ==> m.par[r] == par
  }

  /** The links of a chain point to different nodes, each with the right parent link. */
  lemma ChainRoots(m: Mem, g: Tree, s: Side, p: Tree, s': Side, t: Tree, up: Ptr)
    requires Chained(m, g, s, p, s', t, up)
    ensures Roots(|m.entry|, g.id, p.id, t.id,
              Link(m, g.id, s.Other()), Link(m, p.id, s'.Other()), m.left[t.id], m.right[t.id])
    ensures HookAt(m, Link(m, g.id, s.Other()), g.id) && HookAt(m, Link(m, p.id, s'.Other()), p.id)
    ensures HookAt(m, m.left[t.id], t.id) && HookAt(m, m.right[t.id], t.id)
  {}

  /** All nodes of a chain, and the roots below it, are nodes of the tree. */
  lemma ChainInside(m: Mem, g: Tree, s: Side, p: Tree, s': Side, t: Tree, up: Ptr)
    requires Chained(m, g, s, p, s', t, up)
    ensures g.id in Ids(g) && p.id in Ids(g) && t.id in Ids(g)
    ensures m.In(Link(m, g.id, s.Other())) ==> Link(m, g.id, s.Other()) in Ids(g)
    ensures m.In(Link(m, p.id, s'.Other())) ==> Link(m, p.id, s'.Other()) in Ids(g)
    ensures m.In(m.left[t.id]) ==> m.left[t.id] in Ids(g)
    ensures m.In(m.right[t.id]) ==> m.right[t.id] in Ids(g)
  {
    assert Ids(t) <= Ids(p) <= Ids(g);
  }

  /** Relabelling a chain and then rewiring it changes no node outside the tree. */
  lemma Inside(m: Mem, m1: Mem, m2: Mem, g: Tree, s: Side, p: Tree, s': Side, t: Tree, up: Ptr,
               x: Row, y: Row, z: Row, a: Hook, b: Hook, c: Hook, d: Hook)
    requires Chained(m, g, s, p, s', t, up)
    requires m1.par == m.par && m1.left == m.left && m1.right == m.right && SameBut(m, m1, {g.id, p.id, t.id})
    requires Rewired(m1, m2, x, y, z, a, b, c, d)
    requires x.id == g.id && y.id == p.id && z.id == t.id
    requires a.root == Link(m, g.id, s.Other()) && b.root == Link(m, p.id, s'.Other())
    requires c.root == m.left[t.id] && d.root == m.right[t.id]
    ensures SameBut(m, m2, Ids(g))
  {
    ChainInside(m, g, s, p, s', t, up);
    forall i | i !in Ids(g)
      ensures SameNode(m, m2, i)
    {
      assert SameNode(m, m1, i);
    }
  }

  /** A block of updates at the chain carries the upper subtrees to their new parents. */
  lemma RegraftSides(m: Mem, m': Mem, g: Tree, s: Side, p: Tree, s': Side, t: Tree, up: Ptr,
                x: Row, y: Row, z: Row, a: Hook, b: Hook, c: Hook, d: Hook)
    requires Chained(m, g, s, p, s', t, up) && Rewired(m, m', x, y, z, a, b, c, d)
    requires x.id == g.id && y.id == p.id && z.id == t.id
    requires a.root == Link(m, g.id, s.Other()) && b.root == Link(m, p.id, s'.Other())
    requires c.root == m.left[t.id] && d.root == m.right[t.id]
    ensures TreeAt(m', Child(g, s.Other()), a.root, a.par)
    ensures TreeAt(m', Child(p, s'.Other()), b.root, b.par)
  {
    var gi, pi, ti := g.id, p.id, t.id;
    Graft(m, m', Child(g, s.Other()), a.root, gi, a.par, {gi, pi, ti, b.root, c.root, d.root});
    Graft(m, m', Child(p, s'.Other()), b.root, pi, b.par, {gi, pi, ti, a.root, c.root, d.root});
  }

  /** So it does the subtrees of `t`. */
  lemma RegraftEnds(m: Mem, m': Mem, g: Tree, s: Side, p: Tree, s': Side, t: Tree, up: Ptr,
                x: Row, y: Row, z: Row, a: Hook, b: Hook, c: Hook, d: Hook)
    requires Chained(m, g, s, p, s', t, up) && Rewired(m, m', x, y, z, a, b, c, d)
    requires x.id == g.id && y.id == p.id && z.id == t.id
    requires a.root == Link(m, g.id, s.Other()) && b.root == Link(m, p.id, s'.Other())
    requires c.root == m.left[t.id] && d.root == m.right[t.id]
    ensures TreeAt(m', t.left, c.root, c.par)
    ensures TreeAt(m', t.right, d.root, d.par)
  {
    var gi, pi, ti := g.id, p.id, t.id;
    Graft(m, m', t.left, c.root, ti, c.par, {gi, pi, ti, a.root, b.root, d.root});
    Graft(m, m', t.right, d.root, ti, d.par, {gi, pi, ti, a.root, b.root, c.root});
  }

  lemma Regraft(m: Mem, m': Mem, g: Tree, s: Side, p: Tree, s': Side, t: Tree, up: Ptr,
                x: Row, y: Row, z: Row, a: Hook, b: Hook, c: Hook, d: Hook)
    requires Chained(m, g, s, p, s', t, up) && Rewired(m, m', x, y, z, a, b, c, d)
    requires x.id == g.id && y.id == p.id && z.id == t.id
    requires a.root == Link(m, g.id, s.Other()) && b.root == Link(m, p.id, s'.Other())
    requires c.root == m.left[t.id] && d.root == m.right[t.id]
    ensures TreeAt(m', Child(g, s.Other()), a.root, a.par)
    ensures TreeAt(m', Child(p, s'.Other()), b.root, b.par)
    ensures TreeAt(m', t.left, c.root, c.par)
    ensures TreeAt(m', t.right, d.root, d.par)
  {
    RegraftSides(m, m', g, s, p, s', t, up, x, y, z, a, b, c, d);
    RegraftEnds(m, m', g, s, p, s', t, up, x, y, z, a, b, c, d);
  }

  /** `t` with child `kid` on side `s`, entry `e` and colour `c`. */
  function Relabelled(t: Tree, s: Side, kid: Tree, e: Entry, c: Color): Tree
    requires t.Node?
  {
    if s == L then Node(t.id, c, e, kid, t.right) else Node(t.id, c, e, t.left, kid)
  }

  lemma HungKept(m: Mem, m': Mem, s: Tree, r: Ptr, par: Ptr, others: set<Ptr>, x: Ptr, y: Ptr, z: Ptr)
    requires Hung(m, s, r, par, others) && {x, y, z} <= others && NULL !in {x, y, z}
    requires SameBut(m, m', {x, y, z})
    ensures Hung(m', s, r, par, others)
  {
    KeepTree(m, m', s, r, par);
  }

  /** Entries and colours along a chain may change without touching what hangs from it. */
  lemma RelabelChain(m: Mem, m': Mem, g: Tree, s: Side, p: Tree, s': Side, t: Tree, up: Ptr)
    requires Chained(m, g, s, p, s', t, up)
    requires m'.par == m.par && m'.left == m.left && m'.right == m.right && SameBut(m, m', {g.id, p.id, t.id})
    ensures
      var t' := t.(e := m'.entry[t.id], color := m'.color[t.id]);
      var p' := Relabelled(p, s', t', m'.entry[p.id], m'.color[p.id]);
      var g' := Relabelled(g, s, p', m'.entry[g.id], m'.color[g.id]);
      Chained(m', g', s, p', s', t', up)
  {
    var ra, rb := Link(m, g.id, s.Other()), Link(m, p.id, s'.Other());
    var rc, rd := m.left[t.id], m.right[t.id];
    var gi, pi, ti := g.id, p.id, t.id;
    HungKept(m, m', Child(g, s.Other()), ra, gi, {gi, pi, ti, rb, rc, rd}, gi, pi, ti);
    HungKept(m, m', Child(p, s'.Other()), rb, pi, {gi, pi, ti, ra, rc, rd}, gi, pi, ti);
    HungKept(m, m', t.left, rc, ti, {gi, pi, ti, ra, rb, rd}, gi, pi, ti);
    HungKept(m, m', t.right, rd, ti, {gi, pi, ti, ra, rb, rc}, gi, pi, ti);
  }

  ghost predicate RowAt(m1: Mem, m2: Mem, x: Row) {
    m1.In(x.id) && Holds(m2, x.id, m1.entry[x.id], m1.color[x.id], x.par) && m2.left[x.id] == x.left && m2.right[x.id] == x.right
  }

  /** Relabelling and rewiring a chain: where the four subtrees end up, and what stays untouched. */
  lemma Rewire(m: Mem, m1: Mem, m2: Mem, g: Tree, s: Side, p: Tree, s': Side, t: Tree, up: Ptr,
               x: Row, y: Row, z: Row, a: Hook, b: Hook, c: Hook, d: Hook)
    requires Chained(m, g, s, p, s', t, up)
    requires m1.par == m.par && m1.left == m.left && m1.right == m.right && SameBut(m, m1, {g.id, p.id, t.id})
    requires Rewired(m1, m2, x, y, z, a, b, c, d)
    requires x.id == g.id && y.id == p.id && z.id == t.id
    requires a.root == Link(m, g.id, s.Other()) && b.root == Link(m, p.id, s'.Other())
    requires c.root == m.left[t.id] && d.root == m.right[t.id]
    ensures TreeAt(m2, Child(g, s.Other()), a.root, a.par)
    ensures TreeAt(m2, Child(p, s'.Other()), b.root, b.par)
    ensures TreeAt(m2, t.left, c.root, c.par)
    ensures TreeAt(m2, t.right, d.root, d.par)
    ensures RowAt(m1, m2, x) && RowAt(m1, m2, y) && RowAt(m1, m2, z)
    ensures SameBut(m, m2, Ids(g))
  {
    RelabelChain(m, m1, g, s, p, s', t, up);
    var t1 := t.(e := m1.entry[t.id], color := m1.color[t.id]);
    var p1 := Relabelled(p, s', t1, m1.entry[p.id], m1.color[p.id]);
    var g1 := Relabelled(g, s, p1, m1.entry[g.id], m1.color[g.id]);
    Regraft(m1, m2, g1, s, p1, s', t1, up, x, y, z, a, b, c, d);
    Inside(m, m1, m2, g, s, p, s', t, up, x, y, z, a, b, c, d);
  }

  /** The entries and colours that `m1` shows at the nodes of a chain, whose links are as in `m`. */
  ghost predicate Shows(m: Mem, m1: Mem, g: Tree, p: Tree, t: Tree, eg: Entry, ep: Entry, et: Entry, cg: Color, cp: Color, ct: Color) {
    && g.Node? && p.Node? && t.Node? && m1.In(g.id) && m1.In(p.id) && m1.In(t.id)
    && m1.par == m.par && m1.left == m.left && m1.right == m.right && SameBut(m, m1, {g.id, p.id, t.id})
    && m1.entry[g.id] == eg && m1.entry[p.id] == ep && m1.entry[t.id] == et
    && m1.color[g.id] == cg && m1.color[p.id] == cp && m1.color[t.id] == ct
  }

  /** The node that row `x` describes, above the subtrees `a` and `b`. */
  function RowTree(m1: Mem, x: Row, a: Tree, b: Tree): Tree
    requires 0 <= x.id < |m1.color| && x.id < |m1.entry|
  {
    Node(x.id, m1.color[x.id], m1.entry[x.id], a, b)
  }

  /** A node above two others, from its row and theirs. */
  lemma Reassembled(m1: Mem, m2: Mem, x: Row, y: Row, z: Row, a: Tree, b: Tree, c: Tree, d: Tree)
    requires RowAt(m1, m2, x) && RowAt(m1, m2, y) && RowAt(m1, m2, z)
    requires x.left == y.id && x.right == z.id && y.par == x.id && z.par == x.id
    requires TreeAt(m2, a, y.left, y.id) && TreeAt(m2, b, y.right, y.id)
    requires TreeAt(m2, c, z.left, z.id) && TreeAt(m2, d, z.right, z.id)
    ensures TreeAt(m2, RowTree(m1, x, RowTree(m1, y, a, b), RowTree(m1, z, c, d)), x.id, x.par)
  {
    assert TreeAt(m2, RowTree(m1, y, a, b), y.id, x.id);
    assert TreeAt(m2, RowTree(m1, z, c, d), z.id, x.id);
  }

  // ----- the shapes

  predicate Grand(g: Tree, s: Side, s': Side) {
    g.Node? && Child(g, s).Node? && Child(Child(g, s), s').Node?
  }

  /** Right, right: the entries go round, `t` becomes the left child and `p` a red right child. */
  function TurnedRR(g: Tree): Tree
    requires Grand(g, R, R)
  {
    var p, t := g.right, g.right.right;
    Node(g.id, Black, p.e, Node(t.id, t.color, g.e, g.left, p.left), Node(p.id, Red, t.e, t.left, t.right))
  }

  lemma ValuesRR(m: Mem, m1: Mem, g: Tree, p: Tree, t: Tree, up: Ptr)
    requires g.Node? && p.Node? && t.Node? && Trio(|m.entry|, g.id, p.id, t.id) && m.Sized(|m.entry|)
    requires Holds(m, g.id, g.e, g.color, up) && Holds(m, p.id, p.e, p.color, g.id) && Holds(m, t.id, t.e, t.color, p.id)
    requires m1 == m.(entry := m.entry[g.id := p.e][p.id := t.e][t.id := g.e], color := m.color[g.id := Black][p.id := Red])
    ensures Shows(m, m1, g, p, t, p.e, t.e, g.e, Black, Red, t.color)
  {}

  lemma AfterRR(m: Mem, m1: Mem, m2: Mem, g: Tree, p: Tree, t: Tree, up: Ptr)
    requires Chained(m, g, R, p, R, t, up)
    requires Shows(m, m1, g, p, t, p.e, t.e, g.e, Black, Red, t.color)
    requires Rewired(m1, m2, Row(g.id, up, t.id, p.id),
               Row(p.id, g.id, m.left[t.id], m.right[t.id]), Row(t.id, g.id, m.left[g.id], m.left[p.id]),
               Hook(m.left[g.id], t.id), Hook(m.left[p.id], t.id), Hook(m.left[t.id], p.id), Hook(m.right[t.id], p.id))
    ensures TreeAt(m2, TurnedRR(g), g.id, up) && SameBut(m, m2, Ids(g))
  {
    Rewire(m, m1, m2, g, R, p, R, t, up,
      Row(g.id, up, t.id, p.id), Row(p.id, g.id, m.left[t.id], m.right[t.id]),
      Row(t.id, g.id, m.left[g.id], m.left[p.id]),
      Hook(m.left[g.id], t.id), Hook(m.left[p.id], t.id), Hook(m.left[t.id], p.id), Hook(m.right[t.id], p.id));
    Reassembled(m1, m2, Row(g.id, up, t.id, p.id), Row(t.id, g.id, m.left[g.id], m.left[p.id]),
      Row(p.id, g.id, m.left[t.id], m.right[t.id]), g.left, p.left, t.left, t.right);
  }

  method TurnRR(pool: NodePool, g: Ptr, p: Ptr, t: Ptr, ghost tree: Tree, ghost up: Ptr)
    requires pool.Valid() && Grand(tree, R, R) && g == tree.id && p == tree.right.id && t == tree.right.right.id
    requires TreeAt(pool.View(), tree, g, up) && Sep(tree)
    modifies pool.Repr
    ensures TreeAt(pool.View(), TurnedRR(tree), g, up)
    ensures SameBut(old(pool.View()), pool.View(), Ids(tree))
  {
    ghost var m := pool.View();
    ChainAt(m, tree, R, tree.right, R, tree.right.right, up);
    ChainRoots(m, tree, R, tree.right, R, tree.right.right, up);
    pool.CycleEntries(g, p, t);
    pool.Paint(g, Black);
    pool.Paint(p, Red);
    ghost var m1 := pool.View();
    ValuesRR(m, m1, tree, tree.right, tree.right.right, up);
    pool.LinksRR(g, p, t);
    AfterRR(m, m1, pool.View(), tree, tree.right, tree.right.right, up);
  }

  /** Right, left: `t` goes between `g` and its left subtree, with the entry of `g`. */
  function TurnedRL(g: Tree): Tree
    requires Grand(g, R, L)
  {
    var p, t := g.right, g.right.left;
    Node(g.id, g.color, t.e, Node(t.id, Black, g.e, g.left, t.left), Node(p.id, p.color, p.e, t.right, p.right))
  }

  lemma ValuesRL(m: Mem, m1: Mem, g: Tree, p: Tree, t: Tree, up: Ptr)
    requires g.Node? && p.Node? && t.Node? && Trio(|m.entry|, g.id, p.id, t.id) && m.Sized(|m.entry|)
    requires Holds(m, g.id, g.e, g.color, up) && Holds(m, p.id, p.e, p.color, g.id) && Holds(m, t.id, t.e, t.color, p.id)
    requires m1 == m.(entry := m.entry[g.id := t.e][t.id := g.e], color := m.color[t.id := Black])
    ensures Shows(m, m1, g, p, t, t.e, p.e, g.e, g.color, p.color, Black)
  {}

  lemma AfterRL(m: Mem, m1: Mem, m2: Mem, g: Tree, p: Tree, t: Tree, up: Ptr)
    requires Chained(m, g, R, p, L, t, up)
    requires Shows(m, m1, g, p, t, t.e, p.e, g.e, g.color, p.color, Black)
    requires Rewired(m1, m2, Row(g.id, up, t.id, p.id),
               Row(p.id, g.id, m.right[t.id], m.right[p.id]), Row(t.id, g.id, m.left[g.id], m.left[t.id]),
               Hook(m.left[g.id], t.id), Hook(m.right[p.id], p.id), Hook(m.left[t.id], t.id), Hook(m.right[t.id], p.id))
    ensures TreeAt(m2, TurnedRL(g), g.id, up) && SameBut(m, m2, Ids(g))
  {
    Rewire(m, m1, m2, g, R, p, L, t, up,
      Row(g.id, up, t.id, p.id), Row(p.id, g.id, m.right[t.id], m.right[p.id]),
      Row(t.id, g.id, m.left[g.id], m.left[t.id]),
      Hook(m.left[g.id], t.id), Hook(m.right[p.id], p.id), Hook(m.left[t.id], t.id), Hook(m.right[t.id], p.id));
    Reassembled(m1, m2, Row(g.id, up, t.id, p.id), Row(t.id, g.id, m.left[g.id], m.left[t.id]),
      Row(p.id, g.id, m.right[t.id], m.right[p.id]), g.left, t.left, t.right, p.right);
  }

  method TurnRL(pool: NodePool, g: Ptr, p: Ptr, t: Ptr, ghost tree: Tree, ghost up: Ptr)
    requires pool.Valid() && Grand(tree, R, L) && g == tree.id && p == tree.right.id && t == tree.right.left.id
    requires TreeAt(pool.View(), tree, g, up) && Sep(tree)
    modifies pool.Repr
    ensures TreeAt(pool.View(), TurnedRL(tree), g, up)
    ensures SameBut(old(pool.View()), pool.View(), Ids(tree))
  {
    ghost var m := pool.View();
    ChainAt(m, tree, R, tree.right, L, tree.right.left, up);
    ChainRoots(m, tree, R, tree.right, L, tree.right.left, up);
    pool.Paint(t, Black);
    pool.SwapEntries(g, t);
    ghost var m1 := pool.View();
    ValuesRL(m, m1, tree, tree.right, tree.right.left, up);
    pool.LinksRL(g, p, t);
    AfterRL(m, m1, pool.View(), tree, tree.right, tree.right.left, up);
  }

  /** Left, right: the mirror image. */
  function TurnedLR(g: Tree): Tree
    requires Grand(g, L, R)
  {
    var p, t := g.left, g.left.right;
    Node(g.id, g.color, t.e, Node(p.id, p.color, p.e, p.left, t.left), Node(t.id, Black, g.e, t.right, g.right))
  }

  lemma ValuesLR(m: Mem, m1: Mem, g: Tree, p: Tree, t: Tree, up: Ptr)
    requires g.Node? && p.Node? && t.Node? && Trio(|m.entry|, g.id, p.id, t.id) && m.Sized(|m.entry|)
    requires Holds(m, g.id, g.e, g.color, up) && Holds(m, p.id, p.e, p.color, g.id) && Holds(m, t.id, t.e, t.color, p.id)
    requires m1 == m.(entry := m.entry[g.id := t.e][t.id := g.e], color := m.color[t.id := Black])
    ensures Shows(m, m1, g, p, t, t.e, p.e, g.e, g.color, p.color, Black)
  {}

  lemma AfterLR(m: Mem, m1: Mem, m2: Mem, g: Tree, p: Tree, t: Tree, up: Ptr)
    requires Chained(m, g, L, p, R, t, up)
    requires Shows(m, m1, g, p, t, t.e, p.e, g.e, g.color, p.color, Black)
    requires Rewired(m1, m2, Row(g.id, up, p.id, t.id),
               Row(p.id, g.id, m.left[p.id], m.left[t.id]), Row(t.id, g.id, m.right[t.id], m.right[g.id]),
               Hook(m.right[g.id], t.id), Hook(m.left[p.id], p.id), Hook(m.left[t.id], p.id), Hook(m.right[t.id], t.id))
    ensures TreeAt(m2, TurnedLR(g), g.id, up) && SameBut(m, m2, Ids(g))
  {
    Rewire(m, m1, m2, g, L, p, R, t, up,
      Row(g.id, up, p.id, t.id), Row(p.id, g.id, m.left[p.id], m.left[t.id]),
      Row(t.id, g.id, m.right[t.id], m.right[g.id]),
      Hook(m.right[g.id], t.id), Hook(m.left[p.id], p.id), Hook(m.left[t.id], p.id), Hook(m.right[t.id], t.id));
    Reassembled(m1, m2, Row(g.id, up, p.id, t.id), Row(p.id, g.id, m.left[p.id], m.left[t.id]),
      Row(t.id, g.id, m.right[t.id], m.right[g.id]), p.left, t.left, t.right, g.right);
  }

  method TurnLR(pool: NodePool, g: Ptr, p: Ptr, t: Ptr, ghost tree: Tree, ghost up: Ptr)
    requires pool.Valid() && Grand(tree, L, R) && g == tree.id && p == tree.left.id && t == tree.left.right.id
    requires TreeAt(pool.View(), tree, g, up) && Sep(tree)
    modifies pool.Repr
    ensures TreeAt(pool.View(), TurnedLR(tree), g, up)
    ensures SameBut(old(pool.View()), pool.View(), Ids(tree))
  {
    ghost var m := pool.View();
    ChainAt(m, tree, L, tree.left, R, tree.left.right, up);
    ChainRoots(m, tree, L, tree.left, R, tree.left.right, up);
    pool.Paint(t, Black);
    pool.SwapEntries(g, t);
    ghost var m1 := pool.View();
    ValuesLR(m, m1, tree, tree.left, tree.left.right, up);
    pool.LinksLR(g, p, t);
    AfterLR(m, m1, pool.View(), tree, tree.left, tree.left.right, up);
  }

  /** Left, left: the one shape that moves nodes; `p` rises above `g`. */
  function TurnedLL(g: Tree): Tree
    requires Grand(g, L, L)
  {
    var p, t := g.left, g.left.left;
    Node(p.id, p.color, p.e, t, Node(g.id, g.color, g.e, p.right, g.right))
  }

  lemma AfterLL(m: Mem, m1: Mem, m2: Mem, g: Tree, p: Tree, t: Tree, up: Ptr)
    requires Chained(m, g, L, p, L, t, up)
    requires m1 == m
    requires Rewired(m1, m2, Row(g.id, p.id, m.right[p.id], m.right[g.id]),
               Row(p.id, up, t.id, g.id), Row(t.id, p.id, m.left[t.id], m.right[t.id]),
               Hook(m.right[g.id], g.id), Hook(m.right[p.id], g.id), Hook(m.left[t.id], t.id), Hook(m.right[t.id], t.id))
    ensures TreeAt(m2, TurnedLL(g), p.id, up) && SameBut(m, m2, Ids(g))
  {
    Rewire(m, m1, m2, g, L, p, L, t, up,
      Row(g.id, p.id, m.right[p.id], m.right[g.id]), Row(p.id, up, t.id, g.id),
      Row(t.id, p.id, m.left[t.id], m.right[t.id]),
      Hook(m.right[g.id], g.id), Hook(m.right[p.id], g.id), Hook(m.left[t.id], t.id), Hook(m.right[t.id], t.id));
    Reassembled(m1, m2, Row(p.id, up, t.id, g.id), Row(t.id, p.id, m.left[t.id], m.right[t.id]),
      Row(g.id, p.id, m.right[p.id], m.right[g.id]), t.left, t.right, p.right, g.right);
  }

  /** Another child for the node above leaves the tree below alone. */
  lemma ReplacedTree(m: Mem, t: Tree, up: Ptr, p: Ptr)
    requires t.Node? && TreeAt(m, t, t.id, up) && (up == NULL || up !in Ids(t))
    ensures TreeAt(Replaced(m, up, t.id, p), t, t.id, up)
  {
    KeepTree(m, Replaced(m, up, t.id, p), t, t.id, up);
  }

  method TurnLL(pool: NodePool, g: Ptr, p: Ptr, ghost tree: Tree, ghost up: Ptr)
    requires pool.Valid() && Grand(tree, L, L) && g == tree.id && p == tree.left.id
    requires TreeAt(pool.View(), tree, g, up) && Sep(tree) && (up == NULL || (0 <= up < pool.size && up !in Ids(tree)))
    modifies pool.Repr
    ensures TreeAt(pool.View(), TurnedLL(tree), p, up)
    ensures SameBut(Replaced(old(pool.View()), up, g, p), pool.View(), Ids(tree))
  {
    ghost var m := pool.View();
    pool.ReplaceChild(pool.par[g], g, p);
    ghost var m1 := pool.View();
    ReplacedTree(m, tree, up, p);
    ChainAt(m1, tree, L, tree.left, L, tree.left.left, up);
    ChainRoots(m1, tree, L, tree.left, L, tree.left.left, up);
    pool.LinksLL(g, p, tree.left.left.id);
    AfterLL(m1, m1, pool.View(), tree, tree.left, tree.left.left, up);
  }

  /** Right child `p` becomes the left child with the entry of `g`; `t`, black if `far`, becomes the right child. */
  function TurnedSpinL(g: Tree, far: bool): Tree
    requires Grand(g, R, R)
  {
    var p, t := g.right, g.right.right;
    Node(g.id, g.color, p.e, Node(p.id, p.color, g.e, g.left, p.left), t.(color := if far then Black else t.color))
  }

  /** The entries of `g` and `p` change places; if `far`, `t` turns black. */
  method SpinNodes(pool: NodePool, g: Ptr, p: Ptr, t: Ptr, far: bool)
    requires pool.Valid() && Trio(pool.size, g, p, t)
    modifies pool.entry, pool.color
    ensures var m := old(pool.View());
      pool.View() == m.(entry := m.entry[g := m.entry[p]][p := m.entry[g]],
                        color := m.color[t := if far then Black else m.color[t]])
  {
    pool.SwapEntries(g, p);
    if far {
      pool.Paint(t, Black);
    } else {
      assert pool.color[..] == old(pool.color[..])[t := old(pool.color[t])];
    }
  }

  lemma ValuesSpinL(m: Mem, m1: Mem, g: Tree, p: Tree, t: Tree, up: Ptr, far: bool)
    requires g.Node? && p.Node? && t.Node? && Trio(|m.entry|, g.id, p.id, t.id) && m.Sized(|m.entry|)
    requires Holds(m, g.id, g.e, g.color, up) && Holds(m, p.id, p.e, p.color, g.id) && Holds(m, t.id, t.e, t.color, p.id)
    requires m1 == m.(entry := m.entry[g.id := p.e][p.id := g.e], color := m.color[t.id := if far then Black else t.color])
    ensures Shows(m, m1, g, p, t, p.e, g.e, t.e, g.color, p.color, if far then Black else t.color)
  {}

  lemma AfterSpinL(m: Mem, m1: Mem, m2: Mem, g: Tree, p: Tree, t: Tree, up: Ptr, far: bool)
    requires Chained(m, g, R, p, R, t, up)
    requires Shows(m, m1, g, p, t, p.e, g.e, t.e, g.color, p.color, if far then Black else t.color)
    requires Rewired(m1, m2, Row(g.id, up, p.id, t.id),
               Row(p.id, g.id, m.left[g.id], m.left[p.id]), Row(t.id, g.id, m.left[t.id], m.right[t.id]),
               Hook(m.left[g.id], p.id), Hook(m.left[p.id], p.id), Hook(m.left[t.id], t.id), Hook(m.right[t.id], t.id))
    ensures TreeAt(m2, TurnedSpinL(g, far), g.id, up) && SameBut(m, m2, Ids(g))
  {
    Rewire(m, m1, m2, g, R, p, R, t, up,
      Row(g.id, up, p.id, t.id), Row(p.id, g.id, m.left[g.id], m.left[p.id]),
      Row(t.id, g.id, m.left[t.id], m.right[t.id]),
      Hook(m.left[g.id], p.id), Hook(m.left[p.id], p.id), Hook(m.left[t.id], t.id), Hook(m.right[t.id], t.id));
    Reassembled(m1, m2, Row(g.id, up, p.id, t.id), Row(p.id, g.id, m.left[g.id], m.left[p.id]),
      Row(t.id, g.id, m.left[t.id], m.right[t.id]), g.left, p.left, t.left, t.right);
  }

  method TurnSpinL(pool: NodePool, g: Ptr, p: Ptr, t: Ptr, ghost tree: Tree, ghost up: Ptr, far: bool)
    requires pool.Valid() && Grand(tree, R, R) && g == tree.id && p == tree.right.id && t == tree.right.right.id
    requires TreeAt(pool.View(), tree, g, up) && Sep(tree) && tree.left != Nil
    modifies pool.Repr
    ensures TreeAt(pool.View(), TurnedSpinL(tree, far), g, up)
    ensures SameBut(old(pool.View()), pool.View(), Ids(tree))
  {
    ghost var m := pool.View();
    ChainAt(m, tree, R, tree.right, R, tree.right.right, up);
    ChainRoots(m, tree, R, tree.right, R, tree.right.right, up);
    SpinNodes(pool, g, p, t, far);
    ghost var m1 := pool.View();
    ValuesSpinL(m, m1, tree, tree.right, tree.right.right, up, far);
    pool.LinksSpinL(g, p, t);
    AfterSpinL(m, m1, pool.View(), tree, tree.right, tree.right.right, up, far);
  }

  /** The mirror image of `TurnedSpinL`. */
  function TurnedSpinR(g: Tree, far: bool): Tree
    requires Grand(g, L, L)
  {
    var p, t := g.left, g.left.left;
    Node(g.id, g.color, p.e, t.(color := if far then Black else t.color), Node(p.id, p.color, g.e, p.right, g.right))
  }

  lemma ValuesSpinR(m: Mem, m1: Mem, g: Tree, p: Tree, t: Tree, up: Ptr, far: bool)
    requires g.Node? && p.Node? && t.Node? && Trio(|m.entry|, g.id, p.id, t.id) && m.Sized(|m.entry|)
    requires Holds(m, g.id, g.e, g.color, up) && Holds(m, p.id, p.e, p.color, g.id) && Holds(m, t.id, t.e, t.color, p.id)
    requires m1 == m.(entry := m.entry[g.id := p.e][p.id := g.e], color := m.color[t.id := if far then Black else t.color])
    ensures Shows(m, m1, g, p, t, p.e, g.e, t.e, g.color, p.color, if far then Black else t.color)
  {}

  lemma AfterSpinR(m: Mem, m1: Mem, m2: Mem, g: Tree, p: Tree, t: Tree, up: Ptr, far: bool)
    requires Chained(m, g, L, p, L, t, up)
    requires Shows(m, m1, g, p, t, p.e, g.e, t.e, g.color, p.color, if far then Black else t.color)
    requires Rewired(m1, m2, Row(g.id, up, t.id, p.id),
               Row(p.id, g.id, m.right[p.id], m.right[g.id]), Row(t.id, g.id, m.left[t.id], m.right[t.id]),
               Hook(m.right[g.id], p.id), Hook(m.right[p.id], p.id), Hook(m.left[t.id], t.id), Hook(m.right[t.id], t.id))
    ensures TreeAt(m2, TurnedSpinR(g, far), g.id, up) && SameBut(m, m2, Ids(g))
  {
    Rewire(m, m1, m2, g, L, p, L, t, up,
      Row(g.id, up, t.id, p.id), Row(p.id, g.id, m.right[p.id], m.right[g.id]),
      Row(t.id, g.id, m.left[t.id], m.right[t.id]),
      Hook(m.right[g.id], p.id), Hook(m.right[p.id], p.id), Hook(m.left[t.id], t.id), Hook(m.right[t.id], t.id));
    Reassembled(m1, m2, Row(g.id, up, t.id, p.id), Row(t.id, g.id, m.left[t.id], m.right[t.id]),
      Row(p.id, g.id, m.right[p.id], m.right[g.id]), t.left, t.right, p.right, g.right);
  }

  method TurnSpinR(pool: NodePool, g: Ptr, p: Ptr, t: Ptr, ghost tree: Tree, ghost up: Ptr, far: bool)
    requires pool.Valid() && Grand(tree, L, L) && g == tree.id && p == tree.left.id && t == tree.left.left.id
    requires TreeAt(pool.View(), tree, g, up) && Sep(tree) && tree.right != Nil
    modifies pool.Repr
    ensures TreeAt(pool.View(), TurnedSpinR(tree, far), g, up)
    ensures SameBut(old(pool.View()), pool.View(), Ids(tree))
  {
    ghost var m := pool.View();
    ChainAt(m, tree, L, tree.left, L, tree.left.left, up);
    ChainRoots(m, tree, L, tree.left, L, tree.left.left, up);
    SpinNodes(pool, g, p, t, far);
    ghost var m1 := pool.View();
    ValuesSpinR(m, m1, tree, tree.left, tree.left.left, up, far);
    pool.LinksSpinR(g, p, t);
    AfterSpinR(m, m1, pool.View(), tree, tree.left, tree.left.left, up, far);
  }
}
