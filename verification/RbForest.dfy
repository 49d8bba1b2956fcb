/** All trees of the library together: they share one node pool and one queue of freed nodes. */
module RbForest {
  import opened Counting
  import opened Pointers
  import opened RbShape
  import opened RbNodes
  import opened RbOrder
  import opened RbSearch
  import opened RbTree
  import Queue

  const TREE_POOL_NUM: nat := 16

  /** Where a pool slot is: exactly one of never handed out, freed, or in tree `i`. */
  datatype Place = Fresh | Freed | InTree(i: nat)

  /** The slots from `used` on are fresh, and the freed ones are, once each, those on the free queue. */
  ghost predicate Shared(used: nat, free: seq<Ptr>, place: seq<Place>) {
    && used <= |place| && Distinct(free)
    && (forall x | 0 <= x < |place| :: place[x] == Fresh <==> used <= x)
    && (forall x | 0 <= x < |place| :: place[x] == Freed <==> x in free)
    && forall k | 0 <= k < |free| :: 0 <= free[k] < |place|
  }

  ghost function SlotsOf(place: seq<Place>, i: nat): set<Ptr> {
    set x | 0 <= x < |place| && place[x] == InTree(i)
  }

  ghost function Live(place: seq<Place>): set<Ptr> {
    set x | 0 <= x < |place| && place[x].InTree?
  }

  /** Conservation: live nodes, freed nodes and fresh slots make up the pool. */
  lemma Conservation(used: nat, free: seq<Ptr>, place: seq<Place>)
    requires Shared(used, free, place)
    ensures |Live(place)| + |free| + (|place| - used) == |place|
  {
    DistinctSize(free);
    assert Live(place) !! Elements(free);
    assert Live(place) + Elements(free) == Slots(used);
  }

  function Entries(shapes: seq<Tree>): nat {
    if shapes == [] then 0 else Entries(shapes[..|shapes| - 1]) + |Inorder(shapes[|shapes| - 1])|
  }

  ghost function LiveBelow(place: seq<Place>, n: nat): set<Ptr> {
    set x | 0 <= x < |place| && place[x].InTree? && place[x].i < n
  }

  /** The slots in trees are as many as the entries of all trees. */
  lemma {:induction false} EntriesLive(shapes: seq<Tree>, place: seq<Place>)
    requires forall i | 0 <= i < |shapes| :: |Inorder(shapes[i])| == |SlotsOf(place, i)|
    ensures Entries(shapes) == |LiveBelow(place, |shapes|)|
  {
    if shapes == [] {
      assert LiveBelow(place, 0) == {};
    } else {
      var n := |shapes| - 1;
      EntriesLive(shapes[..n], place);
      assert LiveBelow(place, n + 1) == LiveBelow(place, n) + SlotsOf(place, n);
      assert LiveBelow(place, n) !! SlotsOf(place, n);
    }
  }

  /** Every node of a tree holds one entry. */
  lemma {:induction false} EntryPerNode(t: Tree)
    requires Clean(t) && Sep(t)
    ensures |Ids(t)| == |Inorder(t)|
  {
    if t.Node? {
      EntryPerNode(t.left);
      EntryPerNode(t.right);
      assert Ids(t) == {t.id} + (Ids(t.left) + Ids(t.right));
    }
  }

  /** A fresh slot, or the first free one, moves to tree `i`. */
  lemma TakeSlot(used: nat, free: seq<Ptr>, place: seq<Place>, i: nat, r: Ptr)
    requires Shared(used, free, place)
    requires if free == [] then r == used < |place| else r == free[0]
    ensures 0 <= r < |place| && !place[r].InTree?
    ensures Shared(if free == [] then used + 1 else used, if free == [] then [] else free[1..], place[r := InTree(i)])
  {
    if free != [] {
      assert free == [free[0]] + free[1..];
      assert r !in free[1..];
    }
  }

  /** A node that leaves its tree goes to the end of the free queue. */
  lemma GiveSlot(used: nat, free: seq<Ptr>, place: seq<Place>, d: Ptr)
    requires Shared(used, free, place) && 0 <= d < |place| && place[d].InTree?
    ensures d !in free && Shared(used, free + [d], place[d := Freed])
  {}

  lemma OneLess(place: seq<Place>, d: Ptr)
    requires 0 <= d < |place| && place[d].InTree?
    ensures |Live(place[d := Freed])| == |Live(place)| - 1
  {
    assert Live(place) == Live(place[d := Freed]) + {d};
  }

  /** A change to tree `i` and to the place of slot `x` leaves tree `j` as it was. */
  lemma OtherTree(m: Mem, m': Mem, comp: Comp, t: Tree, head: Ptr, ids: set<Ptr>,
                  place: seq<Place>, x: Ptr, p: Place, i: nat, j: nat)
    requires IsTree(m, comp, t, head) && Ids(t) == SlotsOf(place, j) && i != j
    requires SameBut(m, m', ids) && ids <= SlotsOf(place, i) + {x}
    requires 0 <= x < |place| && place[x] != InTree(j) && p != InTree(j)
    ensures IsTree(m', comp, t, head) && Ids(t) == SlotsOf(place[x := p], j)
  {
    KeepTree(m, m', t, head, NULL);
    SlotsMoved(place, x, p, j);
  }

  /** Moving slot `x` changes the slots of the trees it leaves and joins only. */
  lemma SlotsMoved(place: seq<Place>, x: Ptr, p: Place, i: nat)
    requires 0 <= x < |place|
    ensures SlotsOf(place[x := p], i) == SlotsOf(place, i) - {x} + (if p == InTree(i) then {x} else {})
  {}

  class Forest {
    const pool: NodePool
    const links: Queue.LinkHeap
    const ls: Queue.Ends
    var used: nat
    var trees: seq<RbTree>
    ghost var free: seq<Ptr>
    ghost var place: seq<Place>

    /** The pool and its free queue. */
    ghost predicate Stocked()
      reads `used, `free, `place, links.Repr
    {
      && pool.Valid() && links.Valid() && links.size == pool.size + 2 && ls == Queue.Ends(pool.size, pool.size + 1)
      && this !in pool.Repr && this !in links.Repr && pool.Repr !! links.Repr && Queue.Holds(links.View(), ls, free)
      && |place| == pool.size && Shared(used, free, place)
    }

    /** The trees: tree `i` consists of the nodes placed there. */
    ghost predicate Planted()
      reads `trees, `place, trees, pool.Repr
    {
      && pool.Valid() && this !in pool.Repr && |place| == pool.size && |trees| <= TREE_POOL_NUM
      && (forall i, j | 0 <= i < j < |trees| :: trees[i] != trees[j])
      && (forall i {:trigger TreeIn(trees[i], i, place)} | 0 <= i < |trees| :: TreeIn(trees[i], i, place))
      && forall x | 0 <= x < |place| && place[x].InTree? :: place[x].i < |trees|
    }

    ghost predicate TreeIn(t: RbTree, i: nat, place: seq<Place>)
      reads t, pool.Repr
    {
      && t !in pool.Repr && t !in links.Repr && t.pool == pool && TotalPreorder(t.comp)
      && IsTree(pool.View(), t.comp, t.shape, t.head) && Ids(t.shape) == SlotsOf(place, i)
    }

    ghost predicate Valid()
      reads this, trees, pool.Repr, links.Repr
    {
      Stocked() && Planted()
    }

    ghost function Shapes(): (s: seq<Tree>)
      reads this, trees
      ensures |s| == |trees| && forall i | 0 <= i < |s| :: s[i] == trees[i].shape
    {
      seq(|trees|, i requires 0 <= i < |trees| reads this, trees => trees[i].shape)
    }

    /** The slots in trees are as many as the entries of all trees. */
    lemma LiveEntries()
      requires Planted()
      ensures |Live(place)| == Entries(Shapes())
    {
      forall i | 0 <= i < |trees|
        ensures |Inorder(trees[i].shape)| == |SlotsOf(place, i)|
      {
        assert TreeIn(trees[i], i, place);
        EntryPerNode(trees[i].shape);
      }
      EntriesLive(Shapes(), place);
      assert Live(place) == LiveBelow(place, |trees|);
    }

    /** `rbtree_init`, over a pool of `size` zeroed nodes. */
    constructor (size: nat)
      ensures Valid() && pool.size == size && trees == [] && used == 0 && free == []
      ensures fresh(pool.Repr) && fresh(links.Repr)
    {
      var p := new NodePool(size);
      var l := new Queue.LinkHeap(size + 2);
      var q := Queue.Ends(size, size + 1);
      l.Init(q);
      pool, links, ls, used, trees, free, place := p, l, q, 0, [], [], seq(size, _ => Fresh);
    }

    /** `rbtree_alloc`; the caller may ask for as many trees as `tree_pool` holds. */
    method AllocTree(comp: Comp) returns (t: RbTree)
      requires Valid() && |trees| < TREE_POOL_NUM && TotalPreorder(comp)
      modifies this`trees
      ensures Valid() && trees == old(trees) + [t] && fresh(t) && t.comp == comp && t.shape == Nil
    {
      t := new RbTree(pool, comp);
      assert SlotsOf(place, |trees|) == {};
      trees := trees + [t];
      forall i | 0 <= i < |trees|
        ensures TreeIn(trees[i], i, place)
      {
        if i < |trees| - 1 {
          assert old(TreeIn(trees[i], i, place));
        }
      }
    }

    /** `rbtree_node_alloc`: the first freed node if there is one, else the next fresh one. */
    method AllocNode() returns (r: Ptr)
      requires Stocked()
      modifies this`used, this`free, links.Repr
      ensures Planted() == old(Planted())
      ensures pool.Valid() && links.Valid() && Queue.Holds(links.View(), ls, free)
      ensures var full := old(free) == [] && old(used) == pool.size;
        && r == (if full then NULL else if old(free) == [] then old(used) else old(free)[0])
        && used == (if full || old(free) != [] then old(used) else old(used) + 1)
        && free == (if old(free) == [] then [] else old(free)[1..])
    {
      var empty := links.IsEmpty(ls, free);
      if empty {
        if used >= pool.size {
          return NULL;
        }
        r := used;
        used := used + 1;
      } else {
        r := links.Pop(ls, free);
        free := free[1..];
      }
    }

    /** The part of `rbtree_insert` that follows the allocation of node `tar`. */
    method Plant(tree: RbTree, tar: Ptr, key: Word, val: Word, ghost i: nat)
      requires Planted() && i < |trees| && trees[i] == tree && 0 <= tar < pool.size && !place[tar].InTree?
      modifies this`place, tree`head, tree`shape, pool.Repr
      ensures Planted() && place == old(place)[tar := InTree(i)]
      ensures Inorder(tree.shape) == Placed(tree.comp, old(Inorder(tree.shape)), Entry(key, val))
    {
      ghost var m := pool.View();
      assert TreeIn(tree, i, place);
      tree.InsertNode(tar, key, val);
      place := place[tar := InTree(i)];
      SlotsMoved(old(place), tar, InTree(i), i);
      forall j | 0 <= j < |trees| && j != i
        ensures TreeIn(trees[j], j, place)
      {
        assert old(TreeIn(trees[j], j, place));
        OtherTree(m, pool.View(), trees[j].comp, trees[j].shape, trees[j].head, Ids(tree.shape),
          old(place), tar, InTree(i), i, j);
      }
    }

    /** `rbtree_insert`: it fails, and changes nothing, only when every node of the pool holds an entry; the source then
        aborts. */
    method Insert(tree: RbTree, key: Word, val: Word, ghost i: nat) returns (ok: bool)
      requires Valid() && i < |trees| && trees[i] == tree
      modifies this`used, this`free, this`place, tree`head, tree`shape, pool.Repr, links.Repr
      ensures Stocked() && Planted()
      ensures ok <==> |old(Live(place))| < pool.size
      ensures Inorder(tree.shape) ==
        if ok then Placed(tree.comp, old(Inorder(tree.shape)), Entry(key, val)) else old(Inorder(tree.shape))
    {
      Conservation(used, free, place);
      assert TreeIn(tree, i, place);
      var tar := AllocNode();
      if tar == NULL {
        return false;
      }
      TakeSlot(old(used), old(free), place, i, tar);
      Plant(tree, tar, key, val, i);
      return true;
    }

    /** The part of `rbtree_delete` that precedes the return of its node to the queue. */
    method Uproot(tree: RbTree, key: Word, ghost i: nat) returns (d: Ptr)
      requires Planted() && i < |trees| && trees[i] == tree && FoundIndex(tree.comp, tree.shape, key) >= 0
      modifies this`place, tree`head, tree`shape, pool.Repr
      ensures 0 <= d < pool.size && old(place)[d].InTree? && Planted() && place == old(place)[d := Freed]
      ensures old(FoundHasLeft(tree.comp, tree.shape, key) ==> FoundIndex(tree.comp, tree.shape, key) > 0)
      ensures Inorder(tree.shape) == Deleted(old(Inorder(tree.shape)),
        old(FoundIndex(tree.comp, tree.shape, key)), old(FoundHasLeft(tree.comp, tree.shape, key)))
    {
      ghost var m := pool.View();
      assert TreeIn(tree, i, place);
      d := tree.DeleteNode(key);
      place := place[d := Freed];
      SlotsMoved(old(place), d, Freed, i);
      forall j | 0 <= j < |trees| && j != i
        ensures TreeIn(trees[j], j, place)
      {
        assert old(TreeIn(trees[j], j, place));
        OtherTree(m, pool.View(), trees[j].comp, trees[j].shape, trees[j].head, old(Ids(tree.shape)),
          old(place), d, Freed, i, j);
      }
    }

    /** The second half of `rbtree_node_free`: a node that left its tree goes to the free queue. */
    method FreeNode(d: Ptr, ghost was: seq<Place>)
      requires links.Valid() && links.size == pool.size + 2 && ls == Queue.Ends(pool.size, pool.size + 1)
      requires this !in links.Repr && Queue.Holds(links.View(), ls, free)
      requires |was| == pool.size && Shared(used, free, was) && 0 <= d < pool.size && was[d].InTree?
      modifies this`free, links.Repr
      ensures Queue.Holds(links.View(), ls, free) && Shared(used, free, was[d := Freed])
    {
      GiveSlot(used, free, was, d);
      links.Enque(ls, d, free);
      free := free + [d];
    }

    /** `rbtree_delete`: the node it gives up goes to the free queue. */
    method Delete(tree: RbTree, key: Word, ghost i: nat)
      requires Valid() && i < |trees| && trees[i] == tree && FoundIndex(tree.comp, tree.shape, key) >= 0
      modifies this`free, this`place, tree`head, tree`shape, pool.Repr, links.Repr
      ensures Valid() && |Live(place)| == |old(Live(place))| - 1
      ensures old(FoundHasLeft(tree.comp, tree.shape, key) ==> FoundIndex(tree.comp, tree.shape, key) > 0)
      ensures Inorder(tree.shape) == Deleted(old(Inorder(tree.shape)),
        old(FoundIndex(tree.comp, tree.shape, key)), old(FoundHasLeft(tree.comp, tree.shape, key)))
    {
      var d := Uproot(tree, key, i);
      FreeNode(d, old(place));
      OneLess(old(place), d);
    }
  }
}
