/** The rotations as functions on trees: contents, node sets and balance. */
module RbBalance {
  import opened RbShape
  import opened RbMoves

  /** One level of the definitions. */
  lemma Unfold(t: Tree)
    requires t.Node?
    ensures Inorder(t) == Inorder(t.left) + [t.e] + Inorder(t.right)
    ensures Ids(t) == {t.id} + Ids(t.left) + Ids(t.right)
    ensures Clean(t) <==> Clean(t.left) && Clean(t.right)
    ensures Sep(t) <==>
      && t.id !in Ids(t.left) && t.id !in Ids(t.right) && Ids(t.left) !! Ids(t.right) && Sep(t.left) && Sep(t.right)
  {}

  /** `t'` holds the entries of `t` in the same order. */
  ghost predicate SameEntries(t: Tree, t': Tree) {
    Inorder(t') == Inorder(t) && (Clean(t) ==> Clean(t'))
  }

  /** `t'` holds the nodes of `t`, each once. */
  ghost predicate SameNodes(t: Tree, t': Tree) {
    Ids(t') == Ids(t) && (Sep(t) ==> Sep(t'))
  }

  lemma EntriesRR(g: Tree)
    requires Grand(g, R, R)
    ensures SameEntries(g, TurnedRR(g))
  {
    var p, t, u := g.right, g.right.right, TurnedRR(g);
    Unfold(g);
    Unfold(p);
    Unfold(t);
    Unfold(u);
    Unfold(u.left);
    Unfold(u.right);
    assert Inorder(u) == Inorder(g.left) + [g.e] + Inorder(p.left) + [p.e] + (Inorder(t.left) + [t.e] + Inorder(t.right));
  }

  lemma NodesRR(g: Tree)
    requires Grand(g, R, R)
    ensures SameNodes(g, TurnedRR(g))
  {
    var p, t, u := g.right, g.right.right, TurnedRR(g);
    Unfold(g);
    Unfold(p);
    Unfold(t);
    Unfold(u);
    Unfold(u.left);
    Unfold(u.right);
  }

  /** The middle part of a sequence, cut at `t`. */
  lemma SplitRL(a: seq<Entry>, g: Entry, b: seq<Entry>, t: Entry, c: seq<Entry>, p: Entry, d: seq<Entry>)
    ensures (a + [g] + b) + [t] + (c + [p] + d) == a + [g] + ((b + [t] + c) + [p] + d)
  {}

  lemma SplitLR(a: seq<Entry>, p: Entry, b: seq<Entry>, t: Entry, c: seq<Entry>, g: Entry, d: seq<Entry>)
    ensures (a + [p] + b) + [t] + (c + [g] + d) == (a + [p] + (b + [t] + c)) + [g] + d
  {}

  lemma EntriesRL(g: Tree)
    requires Grand(g, R, L)
    ensures SameEntries(g, TurnedRL(g))
  {
    var p, t, u := g.right, g.right.left, TurnedRL(g);
    Unfold(g);
    Unfold(p);
    Unfold(t);
    Unfold(u);
    Unfold(u.left);
    Unfold(u.right);
    SplitRL(Inorder(g.left), g.e, Inorder(t.left), t.e, Inorder(t.right), p.e, Inorder(p.right));
  }

  lemma NodesRL(g: Tree)
    requires Grand(g, R, L)
    ensures SameNodes(g, TurnedRL(g))
  {
    var p, t, u := g.right, g.right.left, TurnedRL(g);
    Unfold(g);
    Unfold(p);
    Unfold(t);
    Unfold(u);
    Unfold(u.left);
    Unfold(u.right);
  }

  lemma EntriesLR(g: Tree)
    requires Grand(g, L, R)
    ensures SameEntries(g, TurnedLR(g))
  {
    var p, t, u := g.left, g.left.right, TurnedLR(g);
    Unfold(g);
    Unfold(p);
    Unfold(t);
    Unfold(u);
    Unfold(u.left);
    Unfold(u.right);
    SplitLR(Inorder(p.left), p.e, Inorder(t.left), t.e, Inorder(t.right), g.e, Inorder(g.right));
  }

  lemma NodesLR(g: Tree)
    requires Grand(g, L, R)
    ensures SameNodes(g, TurnedLR(g))
  {
    var p, t, u := g.left, g.left.right, TurnedLR(g);
    Unfold(g);
    Unfold(p);
    Unfold(t);
    Unfold(u);
    Unfold(u.left);
    Unfold(u.right);
  }

  lemma EntriesLL(g: Tree)
    requires Grand(g, L, L)
    ensures SameEntries(g, TurnedLL(g))
  {
    var p, t, u := g.left, g.left.left, TurnedLL(g);
    Unfold(g);
    Unfold(p);
    Unfold(t);
    Unfold(u);
    Unfold(u.right);
    assert Inorder(u) == Inorder(t) + [p.e] + Inorder(p.right) + [g.e] + Inorder(g.right);
  }

  lemma NodesLL(g: Tree)
    requires Grand(g, L, L)
    ensures SameNodes(g, TurnedLL(g))
  {
    var p, t, u := g.left, g.left.left, TurnedLL(g);
    Unfold(g);
    Unfold(p);
    Unfold(t);
    Unfold(u);
    Unfold(u.right);
  }

  lemma EntriesSpinL(g: Tree, far: bool)
    requires Grand(g, R, R)
    ensures SameEntries(g, TurnedSpinL(g, far))
  {
    var p, t, u := g.right, g.right.right, TurnedSpinL(g, far);
    Unfold(g);
    Unfold(p);
    Unfold(t);
    Unfold(u);
    Unfold(u.left);
    Unfold(u.right);
    assert Inorder(u) == Inorder(g.left) + [g.e] + Inorder(p.left) + [p.e] + Inorder(t);
  }

  lemma NodesSpinL(g: Tree, far: bool)
    requires Grand(g, R, R)
    ensures SameNodes(g, TurnedSpinL(g, far))
  {
    var p, t, u := g.right, g.right.right, TurnedSpinL(g, far);
    Unfold(g);
    Unfold(p);
    Unfold(t);
    Unfold(u);
    Unfold(u.left);
    Unfold(u.right);
  }

  lemma EntriesSpinR(g: Tree, far: bool)
    requires Grand(g, L, L)
    ensures SameEntries(g, TurnedSpinR(g, far))
  {
    var p, t, u := g.left, g.left.left, TurnedSpinR(g, far);
    Unfold(g);
    Unfold(p);
    Unfold(t);
    Unfold(u);
    Unfold(u.left);
    Unfold(u.right);
    assert Inorder(u) == Inorder(t) + [p.e] + Inorder(p.right) + [g.e] + Inorder(g.right);
  }

  lemma NodesSpinR(g: Tree, far: bool)
    requires Grand(g, L, L)
    ensures SameNodes(g, TurnedSpinR(g, far))
  {
    var p, t, u := g.left, g.left.left, TurnedSpinR(g, far);
    Unfold(g);
    Unfold(p);
    Unfold(t);
    Unfold(u);
    Unfold(u.left);
    Unfold(u.right);
  }
}
