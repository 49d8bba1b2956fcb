/** Red-black trees as values, and what it means for linked nodes to represent one.

    A `Tree` names the node that holds each position, so that a tree value together with
    `TreeAt` pins down every field of every node of the linked structure.  A `Ctx` is the
    rest of the tree seen from one of its positions. */
module RbShape {
  import opened Pointers

  /** A `void *` of the source: an uninterpreted machine word. */
  type Word = int

  datatype Color = Red | Black

  datatype Entry = Entry(key: Word, val: Word)

  /** The fields of all pool nodes, column by column; `key` and `val` share one. */
  datatype Mem = Mem(entry: seq<Entry>, par: seq<Ptr>, left: seq<Ptr>, right: seq<Ptr>, color: seq<Color>) {
    ghost predicate Sized(n: nat) {
      |entry| == |par| == |left| == |right| == |color| == n
    }

    ghost predicate In(p: Ptr) {
      0 <= p < |entry| && Sized(|entry|)
    }
  }

  /** `Doomed` is the leaf that deletion keeps linked while it repairs the tree: a node without
      children that no longer counts as part of the tree. */
  datatype Tree =
    | Nil
    | Doomed(gone: Ptr)
    | Node(id: Ptr, color: Color, e: Entry, left: Tree, right: Tree)

  datatype Ctx =
    | Top
    | InLeft(up: Ctx, id: Ptr, color: Color, e: Entry, sib: Tree)
    | InRight(up: Ctx, id: Ptr, color: Color, e: Entry, sib: Tree)

  function Plug(c: Ctx, t: Tree): Tree {
    match c
    case Top => t
    case InLeft(up, id, col, e, sib) => Plug(up, Node(id, col, e, t, sib))
    case InRight(up, id, col, e, sib) => Plug(up, Node(id, col, e, sib, t))
  }

  // ----- contents

  function Inorder(t: Tree): seq<Entry> {
    match t
    case Node(_, _, e, l, r) => Inorder(l) + [e] + Inorder(r)
    case _ => []
  }

  function Before(c: Ctx): seq<Entry> {
    match c
    case Top => []
    case InLeft(up, _, _, _, _) => Before(up)
    case InRight(up, _, _, e, sib) => Before(up) + (Inorder(sib) + [e])
  }

  function After(c: Ctx): seq<Entry> {
    match c
    case Top => []
    case InLeft(up, _, _, e, sib) => ([e] + Inorder(sib)) + After(up)
    case InRight(up, _, _, _, _) => After(up)
  }

  lemma Regroup(a: seq<Entry>, l: seq<Entry>, e: Entry, r: seq<Entry>, b: seq<Entry>)
    ensures a + (l + [e] + r) + b == a + l + (([e] + r) + b)
    ensures a + (l + [e] + r) + b == (a + (l + [e])) + r + b
  {}

  lemma {:induction false} PlugInorder(c: Ctx, t: Tree)
    ensures Inorder(Plug(c, t)) == Before(c) + Inorder(t) + After(c)
  {
    match c
    case Top =>
      assert Inorder(t) == [] + Inorder(t) + [];
    case InLeft(up, id, col, e, sib) =>
      PlugInorder(up, Node(id, col, e, t, sib));
      Regroup(Before(up), Inorder(t), e, Inorder(sib), After(up));
    case InRight(up, id, col, e, sib) =>
      PlugInorder(up, Node(id, col, e, sib, t));
      Regroup(Before(up), Inorder(sib), e, Inorder(t), After(up));
  }

  // ----- the nodes of a tree, each in one position only

  ghost function Ids(t: Tree): set<Ptr> {
    match t
    case Nil => {}
    case Doomed(id) => {id}
    case Node(id, _, _, l, r) => {id} + Ids(l) + Ids(r)
  }

  ghost function CtxIds(c: Ctx): set<Ptr> {
    match c
    case Top => {}
    case InLeft(up, id, _, _, sib) => {id} + Ids(sib) + CtxIds(up)
    case InRight(up, id, _, _, sib) => {id} + Ids(sib) + CtxIds(up)
  }

  ghost predicate Sep(t: Tree) {
    match t
    case Node(id, _, _, l, r) =>
      id !in Ids(l) && id !in Ids(r) && Ids(l) !! Ids(r) && Sep(l) && Sep(r)
    case _ => true
  }

  ghost predicate CtxSep(c: Ctx) {
    c.Top? ||
    (c.id !in Ids(c.sib) && c.id !in CtxIds(c.up) && Ids(c.sib) !! CtxIds(c.up) && Sep(c.sib) && CtxSep(c.up))
  }

  /** Position `c` filled with `t` mentions no node twice. */
  ghost predicate Apart(c: Ctx, t: Tree) {
    CtxSep(c) && Sep(t) && CtxIds(c) !! Ids(t)
  }

  lemma {:induction false} PlugApart(c: Ctx, t: Tree)
    ensures Ids(Plug(c, t)) == CtxIds(c) + Ids(t)
    ensures Apart(c, t) <==> Sep(Plug(c, t))
  {
    match c
    case Top =>
    case InLeft(up, id, col, e, sib) => PlugApart(up, Node(id, col, e, t, sib));
    case InRight(up, id, col, e, sib) => PlugApart(up, Node(id, col, e, sib, t));
  }

  // ----- red-black balance

  function ColorOf(t: Tree): Color {
    if t.Node? then t.color else Black
  }

  function Step(c: Color): nat {
    if c == Black then 1 else 0
  }

  function BlackHeight(t: Tree): nat {
    match t
    case Node(_, col, _, l, _) => BlackHeight(l) + Step(col)
    case _ => 0
  }

  /** Equal black counts on all paths and no red child of a red node. */
  ghost predicate Balanced(t: Tree) {
    match t
    case Node(_, col, _, l, r) =>
      && Balanced(l) && Balanced(r)
      && BlackHeight(l) == BlackHeight(r)
      && (col == Red ==> ColorOf(l) == Black && ColorOf(r) == Black)
    case _ => true
  }

  /** No doomed leaf. */
  ghost predicate Clean(t: Tree) {
    match t
    case Nil => true
    case Doomed(_) => false
    case Node(_, _, _, l, r) => Clean(l) && Clean(r)
  }

  /** The colour of the node above the position; the root position wants a black node. */
  function Above(c: Ctx): Color {
    if c.Top? then Red else c.color
  }

  /** Filling `c` with a balanced tree of black height `h`, black if below a red node, gives a
      red-black tree. */
  ghost predicate Accepts(c: Ctx, h: nat) {
    c.Top? ||
    (&& Balanced(c.sib) && Clean(c.sib) && BlackHeight(c.sib) == h
     && (c.color == Red ==> ColorOf(c.sib) == Black && Above(c.up) == Black)
     && Accepts(c.up, h + Step(c.color)))
  }

  ghost predicate RedBlack(t: Tree) {
    Balanced(t) && ColorOf(t) == Black
  }

  lemma {:induction false} PlugRedBlack(c: Ctx, t: Tree)
    requires Accepts(c, BlackHeight(t)) && Balanced(t)
    requires Above(c) == Red ==> ColorOf(t) == Black
    ensures RedBlack(Plug(c, t))
    ensures Clean(t) ==> Clean(Plug(c, t))
  {
    match c
    case Top =>
    case InLeft(up, id, col, e, sib) => PlugRedBlack(up, Node(id, col, e, t, sib));
    case InRight(up, id, col, e, sib) => PlugRedBlack(up, Node(id, col, e, sib, t));
  }

  // ----- linked nodes

  /** Node `p` holds the given fields. */
  ghost predicate Holds(m: Mem, p: Ptr, e: Entry, color: Color, par: Ptr) {
    m.In(p) && m.entry[p] == e && m.color[p] == color && m.par[p] == par
  }

  /** The nodes reached from `p`, whose parent link is `par`, are laid out as `t`. */
  ghost predicate TreeAt(m: Mem, t: Tree, p: Ptr, par: Ptr) {
    match t
    case Nil => p == NULL
    case Doomed(id) => p == id && m.In(p) && m.par[p] == par && m.left[p] == NULL && m.right[p] == NULL
    case Node(id, col, e, l, r) =>
      && p == id && Holds(m, p, e, col, par)
      && TreeAt(m, l, m.left[p], p) && TreeAt(m, r, m.right[p], p)
  }

  function ParentOf(c: Ctx): Ptr {
    if c.Top? then NULL else c.id
  }

  /** The nodes around the position held by `hole` are laid out as `c`, below `root`. */
  ghost predicate CtxAt(m: Mem, c: Ctx, hole: Ptr, root: Ptr) {
    match c
    case Top => hole == root
    case InLeft(up, id, col, e, sib) =>
      && Holds(m, id, e, col, ParentOf(up)) && m.left[id] == hole
      && TreeAt(m, sib, m.right[id], id) && CtxAt(m, up, id, root)
    case InRight(up, id, col, e, sib) =>
      && Holds(m, id, e, col, ParentOf(up)) && m.right[id] == hole
      && TreeAt(m, sib, m.left[id], id) && CtxAt(m, up, id, root)
  }

  lemma {:induction false} PlugAt(m: Mem, c: Ctx, t: Tree, p: Ptr, root: Ptr)
    requires TreeAt(m, t, p, ParentOf(c)) && CtxAt(m, c, p, root)
    ensures TreeAt(m, Plug(c, t), root, NULL)
  {
    match c
    case Top =>
    case InLeft(up, id, col, e, sib) => PlugAt(m, up, Node(id, col, e, t, sib), id, root);
    case InRight(up, id, col, e, sib) => PlugAt(m, up, Node(id, col, e, sib, t), id, root);
  }

  ghost predicate SameSize(m: Mem, m': Mem) {
    m.Sized(|m.entry|) && m'.Sized(|m.entry|)
  }

  /** The node in slot `p` is the same in both memories, its parent link aside. */
  ghost predicate SameBody(m: Mem, m': Mem, p: Ptr)
    requires SameSize(m, m') && 0 <= p < |m.entry|
  {
    m'.entry[p] == m.entry[p] && m'.color[p] == m.color[p]
    && m'.left[p] == m.left[p] && m'.right[p] == m.right[p]
  }

  ghost predicate SameNode(m: Mem, m': Mem, p: Ptr) {
    SameSize(m, m') && (0 <= p < |m.entry| ==> SameBody(m, m', p) && m'.par[p] == m.par[p])
  }

  ghost predicate Same(m: Mem, m': Mem, ids: set<Ptr>) {
    SameSize(m, m') && forall i | i in ids :: SameNode(m, m', i)
  }

  lemma {:induction false} KeepTree(m: Mem, m': Mem, t: Tree, p: Ptr, par: Ptr)
    requires TreeAt(m, t, p, par) && Same(m, m', Ids(t))
    ensures TreeAt(m', t, p, par)
  {
    assert p in Ids(t) ==> SameNode(m, m', p);
    if t.Node? {
      KeepTree(m, m', t.left, m.left[p], p);
      KeepTree(m, m', t.right, m.right[p], p);
    }
  }

  /** A subtree hung below another node: only the parent link of its root changes. */
  lemma MoveTree(m: Mem, m': Mem, t: Tree, p: Ptr, was: Ptr, par: Ptr)
    requires TreeAt(m, t, p, was)
    requires Sep(t)
    requires Same(m, m', Ids(t) - {p})
    requires 0 <= p < |m.entry| ==> SameBody(m, m', p) && m'.par[p] == par
    ensures TreeAt(m', t, p, par)
  {
    if t.Node? {
      KeepTree(m, m', t.left, m.left[p], p);
      KeepTree(m, m', t.right, m.right[p], p);
    }
  }

  lemma {:induction false} KeepCtx(m: Mem, m': Mem, c: Ctx, hole: Ptr, root: Ptr)
    requires CtxAt(m, c, hole, root) && Same(m, m', CtxIds(c))
    ensures CtxAt(m', c, hole, root)
  {
    match c
    case Top =>
    case InLeft(up, id, _, _, sib) =>
      KeepTree(m, m', sib, m.right[id], id);
      KeepCtx(m, m', up, id, root);
    case InRight(up, id, _, _, sib) =>
      KeepTree(m, m', sib, m.left[id], id);
      KeepCtx(m, m', up, id, root);
  }

  lemma RootIn(m: Mem, t: Tree, p: Ptr, par: Ptr)
    requires TreeAt(m, t, p, par)
    ensures t == Nil <==> p == NULL
    ensures p != NULL ==> p in Ids(t) && m.In(p)
  {}
}
