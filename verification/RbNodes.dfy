/** The static pool of tree nodes, and the blocks of field updates that relink them. */
module RbNodes {
  import opened Pointers
  import opened RbShape

  /** Two or three nodes in different pool slots. */
  ghost predicate Pair(n: nat, x: Ptr, y: Ptr) {
    0 <= x < n && 0 <= y < n && x != y
  }

  ghost predicate Trio(n: nat, g: Ptr, p: Ptr, t: Ptr) {
    Pair(n, g, p) && Pair(n, g, t) && Pair(n, p, t)
  }

  /** A link to a subtree: `NULL` or a slot other than those of the three nodes. */
  ghost predicate Off(n: nat, r: Ptr, g: Ptr, p: Ptr, t: Ptr) {
    (r == NULL || 0 <= r < n) && r != g && r != p && r != t
  }

  ghost predicate Apart2(n: nat, r: Ptr, s: Ptr) {
    0 <= r < n ==> r != s
  }

  /** Four links that leave the nodes `g`, `p`, `t` and lead to different nodes. */
  ghost predicate Roots(n: nat, g: Ptr, p: Ptr, t: Ptr, a: Ptr, b: Ptr, c: Ptr, d: Ptr) {
    && Trio(n, g, p, t)
    && Off(n, a, g, p, t) && Off(n, b, g, p, t) && Off(n, c, g, p, t) && Off(n, d, g, p, t)
    && Apart2(n, a, b) && Apart2(n, a, c) && Apart2(n, a, d) && Apart2(n, b, c) && Apart2(n, b, d) && Apart2(n, c, d)
  }

  /** The node at `r`, if any, has only a new parent link. */
  ghost predicate Moved(m: Mem, m': Mem, r: Ptr, par: Ptr) {
    SameSize(m, m') && (0 <= r < |m.entry| ==> SameBody(m, m', r) && m'.par[r] == par)
  }

  ghost predicate SameBut(m: Mem, m': Mem, ids: set<Ptr>) {
    SameSize(m, m') && forall i | i !in ids :: SameNode(m, m', i)
  }

  /** The links that a block of updates leaves at one node. */
  datatype Row = Row(id: Ptr, par: Ptr, left: Ptr, right: Ptr)

  /** A subtree root and the parent link that a block of updates leaves there. */
  datatype Hook = Hook(root: Ptr, par: Ptr)

  /** From `m` to `m'` only links changed: those of three nodes and the parent links of four subtrees. */
  ghost predicate Rewired(m: Mem, m': Mem, x: Row, y: Row, z: Row, a: Hook, b: Hook, c: Hook, d: Hook) {
    && SameSize(m, m') && m'.entry == m.entry && m'.color == m.color
    && forall i | 0 <= i < |m.entry| ::
      && m'.left[i] == (if i == x.id then x.left else if i == y.id then y.left else if i == z.id then z.left else m.left[i])
      && m'.right[i] == (if i == x.id then x.right else if i == y.id then y.right else if i == z.id then z.right else m.right[i])
      && m'.par[i] == (if i == x.id then x.par else if i == y.id then y.par else if i == z.id then z.par
              else if i == a.root then a.par else if i == b.root then b.par
              else if i == c.root then c.par else if i == d.root then d.par else m.par[i])
  }

  /** Node `up`, if any, gets child `p` in place of child `g`. */
  ghost function Replaced(m: Mem, up: Ptr, g: Ptr, p: Ptr): Mem {
    if !m.In(up) then m
    else if m.left[up] == g then m.(left := m.left[up := p])
    else m.(right := m.right[up := p])
  }

  class NodePool {
    const size: nat
    const entry: array<Entry>
    const par: array<Ptr>
    const left: array<Ptr>
    const right: array<Ptr>
    const color: array<Color>

    ghost predicate Valid() {
      && entry.Length == par.Length == left.Length == right.Length == color.Length == size
      && left != par && right != par && right != left
      && entry as object !in {par, left, right} && color as object !in {entry as object, par, left, right}
    }

    ghost const Repr: set<object> := {entry, par, left, right, color}

    constructor (size: nat)
      ensures Valid() && this.size == size
      ensures fresh(Repr)
    {
      this.size := size;
      entry := new Entry[size](_ => Entry(0, 0));
      par, left, right := new Ptr[size](_ => 0), new Ptr[size](_ => 0), new Ptr[size](_ => 0);
      color := new Color[size](_ => Red);
    }

    ghost function View(): (m: Mem)
      reads Repr
    {
      Mem(entry[..], par[..], left[..], right[..], color[..])
    }

    method Paint(x: Ptr, c: Color)
      requires Valid() && 0 <= x < size
      modifies color
      ensures View() == old(View()).(color := old(color[..])[x := c])
    {
      color[x] := c;
    }

    /** `if (c) c->par = p;` */
    method Adopt(c: Ptr, p: Ptr)
      requires Valid() && (c == NULL || 0 <= c < size)
      modifies par
      ensures forall i | 0 <= i < size :: par[i] == if i == c then p else old(par[i])
    {
      if c != NULL {
        par[c] := p;
      }
    }

    method SwapEntries(x: Ptr, y: Ptr)
      requires Valid() && Pair(size, x, y)
      modifies entry
      ensures View() == old(View()).(entry := old(entry[..][x := entry[y]][y := entry[x]]))
    {
      var xentry := entry[x];
      entry[x] := entry[y];
      entry[y] := xentry;
    }

    /** The entries of three nodes move round: `x` takes that of `y`, `y` that of `z`, `z` that of `x`. */
    method CycleEntries(x: Ptr, y: Ptr, z: Ptr)
      requires Valid() && Trio(size, x, y, z)
      modifies entry
      ensures View() == old(View()).(entry := old(entry[..][x := entry[y]][y := entry[z]][z := entry[x]]))
    {
      var xentry := entry[x];
      entry[x] := entry[y];
      entry[y] := entry[z];
      entry[z] := xentry;
    }

    /** Right child `p` with right child `t`: `t` becomes the left child of `g`, between `g` and `p`. */
    method LinksRR(g: Ptr, p: Ptr, t: Ptr)
      requires Valid() && Trio(size, g, p, t)
      requires Roots(size, g, p, t, left[g], left[p], left[t], right[t])
      modifies left, right, par
      ensures var m := old(View());
        Rewired(m, View(), Row(g, m.par[g], t, m.right[g]), Row(p, m.par[p], m.left[t], m.right[t]),
          Row(t, g, m.left[g], m.left[p]),
          Hook(m.left[g], t), Hook(m.left[p], t), Hook(m.left[t], p), Hook(m.right[t], p))
    {
      right[p] := right[t];
      Adopt(right[p], p);
      right[t] := left[p];
      Adopt(right[t], t);
      left[p] := left[t];
      Adopt(left[p], p);
      left[t] := left[g];
      Adopt(left[t], t);
      left[g] := t;
      par[left[g]] := g;
    }

    /** Right child `p` with left child `t`: `t` becomes the left child of `g`. */
    method LinksRL(g: Ptr, p: Ptr, t: Ptr)
      requires Valid() && Trio(size, g, p, t) && par[t] == p && (left[t] != NULL ==> 0 <= left[t] < size && par[left[t]] == t)
      requires Roots(size, g, p, t, left[g], right[p], left[t], right[t])
      requires right[p] != NULL ==> par[right[p]] == p
      modifies left, right, par
      ensures var m := old(View());
        Rewired(m, View(), Row(g, m.par[g], t, m.right[g]), Row(p, m.par[p], m.right[t], m.right[p]),
          Row(t, g, m.left[g], m.left[t]),
          Hook(m.left[g], t), Hook(m.right[p], p), Hook(m.left[t], t), Hook(m.right[t], p))
    {
      left[p] := right[t];
      Adopt(left[p], p);
      right[t] := left[t];
      left[t] := left[g];
      Adopt(left[t], t);
      left[g] := t;
      par[left[g]] := g;
    }

    /** Left child `p` with right child `t`: `t` becomes the right child of `g`. */
    method LinksLR(g: Ptr, p: Ptr, t: Ptr)
      requires Valid() && Trio(size, g, p, t) && (right[t] != NULL ==> 0 <= right[t] < size && par[right[t]] == t)
      requires Roots(size, g, p, t, right[g], left[p], left[t], right[t])
      requires left[p] != NULL ==> par[left[p]] == p
      modifies left, right, par
      ensures var m := old(View());
        Rewired(m, View(), Row(g, m.par[g], m.left[g], t), Row(p, m.par[p], m.left[p], m.left[t]),
          Row(t, g, m.right[t], m.right[g]),
          Hook(m.right[g], t), Hook(m.left[p], p), Hook(m.left[t], p), Hook(m.right[t], t))
    {
      right[p] := left[t];
      Adopt(right[p], p);
      left[t] := right[t];
      right[t] := right[g];
      Adopt(right[t], t);
      right[g] := t;
      par[right[g]] := g;
    }

    /** Right child `v` of `x` becomes its left child, above the old left subtree. */
    method LinksSpinL(x: Ptr, v: Ptr, ghost w: Ptr)
      requires Valid() && Trio(size, x, v, w) && right[x] == v && right[v] == w
      requires Roots(size, x, v, w, left[x], left[v], left[w], right[w]) && left[x] != NULL
      requires par[v] == x && (left[v] != NULL ==> par[left[v]] == v)
      requires (left[w] != NULL ==> par[left[w]] == w) && (right[w] != NULL ==> par[right[w]] == w)
      modifies left, right, par
      ensures var m := old(View());
        Rewired(m, View(), Row(x, m.par[x], v, w), Row(v, x, m.left[x], m.left[v]), Row(w, x, m.left[w], m.right[w]),
          Hook(m.left[x], v), Hook(m.left[v], v), Hook(m.left[w], w), Hook(m.right[w], w))
    {
      right[x] := right[v];
      par[right[x]] := x;
      right[v] := left[v];
      left[v] := left[x];
      par[left[v]] := v;
      left[x] := v;
      par[left[x]] := x;
    }

    /** The mirror image of `LinksSpinL`. */
    method LinksSpinR(x: Ptr, v: Ptr, ghost w: Ptr)
      requires Valid() && Trio(size, x, v, w) && left[x] == v && left[v] == w
      requires Roots(size, x, v, w, right[x], right[v], left[w], right[w]) && right[x] != NULL
      requires par[v] == x && (right[v] != NULL ==> par[right[v]] == v)
      requires (left[w] != NULL ==> par[left[w]] == w) && (right[w] != NULL ==> par[right[w]] == w)
      modifies left, right, par
      ensures var m := old(View());
        Rewired(m, View(), Row(x, m.par[x], w, v), Row(v, x, m.right[v], m.right[x]), Row(w, x, m.left[w], m.right[w]),
          Hook(m.right[x], v), Hook(m.right[v], v), Hook(m.left[w], w), Hook(m.right[w], w))
    {
      left[x] := left[v];
      par[left[x]] := x;
      left[v] := right[v];
      right[v] := right[x];
      par[right[v]] := v;
      right[x] := v;
      par[right[x]] := x;
    }

    /** The node above `g`, if any, gets `p` as its child instead. */
    method ReplaceChild(up: Ptr, g: Ptr, p: Ptr)
      requires Valid() && (up == NULL || 0 <= up < size)
      modifies left, right
      ensures View() == Replaced(old(View()), up, g, p)
    {
      if up != NULL {
        if left[up] == g {
          left[up] := p;
        } else {
          right[up] := p;
        }
      }
    }

    /** Left child `p` rises above `g`, which becomes its right child. */
    method LinksLL(g: Ptr, p: Ptr, ghost t: Ptr)
      requires Valid() && Trio(size, g, p, t) && left[g] == p && left[p] == t && par[t] == p
      requires Roots(size, g, p, t, right[g], right[p], left[t], right[t])
      requires right[g] != NULL ==> par[right[g]] == g
      requires (left[t] != NULL ==> par[left[t]] == t) && (right[t] != NULL ==> par[right[t]] == t)
      modifies left, right, par
      ensures var m := old(View());
        Rewired(m, View(), Row(g, p, m.right[p], m.right[g]), Row(p, m.par[g], t, g), Row(t, p, m.left[t], m.right[t]),
          Hook(m.right[g], g), Hook(m.right[p], g), Hook(m.left[t], t), Hook(m.right[t], t))
    {
      par[p] := par[g];
      par[g] := p;
      left[g] := right[p];
      Adopt(right[p], g);
      right[p] := g;
    }
  }
}
