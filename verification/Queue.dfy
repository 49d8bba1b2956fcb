/** The sentinel queue: links updated in place, and the sequence of nodes that they represent. */
module Queue {
  import opened Counting
  import opened Pointers

  /** The `prev` and `next` links of all queue nodes. */
  datatype Links = Links(prev: seq<Ptr>, next: seq<Ptr>) {
    ghost predicate In(p: Ptr) {
      0 <= p < |prev| && |prev| == |next|
    }
  }

  /** A `queue_t`: its two sentinel nodes. */
  datatype Ends = Ends(head: Ptr, tail: Ptr)

  /** Following `next` along `w` one way and `prev` the other way gives the same nodes. */
  ghost predicate Threaded(m: Links, w: seq<Ptr>) {
    (forall i | 0 <= i < |w| :: m.In(w[i])) &&
    forall i | 0 <= i < |w| - 1 :: m.next[w[i]] == w[i + 1] && m.prev[w[i + 1]] == w[i]
  }

  /** The nodes between the ends of queue `q` are, in order, `s`. */
  ghost predicate Holds(m: Links, q: Ends, s: seq<Ptr>) {
    Threaded(m, Whole(q, s)) && m.prev[Whole(q, s)[0]] == NULL && m.next[Whole(q, s)[|s| + 1]] == NULL
  }

  function Whole(q: Ends, s: seq<Ptr>): (w: seq<Ptr>)
    ensures |w| == |s| + 2 && w[0] == q.head && w[|s| + 1] == q.tail
    ensures forall i | 0 <= i < |s| :: w[i + 1] == s[i]
  {
    [q.head] + s + [q.tail]
  }

  /** `prev` inverse to `next` rules out any repetition behind a first node that has no `prev`. */
  lemma {:induction false} NoCycle(m: Links, w: seq<Ptr>, i: nat, j: nat)
    requires Threaded(m, w) && i < j < |w| && m.prev[w[0]] == NULL
    ensures w[i] != w[j]
  {
    assert m.prev[w[j - 1 + 1]] == w[j - 1];
    if i > 0 {
      assert m.prev[w[i - 1 + 1]] == w[i - 1];
      NoCycle(m, w, i - 1, j - 1);
    }
  }

  lemma HoldsDistinct(m: Links, q: Ends, s: seq<Ptr>)
    requires Holds(m, q, s)
    ensures Distinct(Whole(q, s)) && Distinct(s) && q.head !in s && q.tail !in s && q.head != q.tail
  {
    var w := Whole(q, s);
    forall i, j | 0 <= i < j < |w|
      ensures w[i] != w[j]
    {
      NoCycle(m, w, i, j);
    }
    assert forall i, j | 0 <= i < j < |s| :: s[i] == w[i + 1] && s[j] == w[j + 1];
    assert forall i | 0 <= i < |s| :: w[0] != s[i] && w[|s| + 1] != s[i];
  }

  /** The links determine the nodes of a queue. */
  lemma HoldsOne(m: Links, q: Ends, s: seq<Ptr>, s': seq<Ptr>)
    requires Holds(m, q, s) && Holds(m, q, s')
    ensures s == s'
  {
    var w, w' := Whole(q, s), Whole(q, s');
    SamePath(m, w, w', |w| - 1);
    SamePath(m, w', w, |w'| - 1);
    forall i | 0 <= i < |s|
      ensures s[i] == s'[i]
    {
      SamePath(m, w, w', i + 1);
    }
  }

  /** A path that starts like `w` and never leaves from a null link is a prefix of any path that ends in one. */
  lemma {:induction false} SamePath(m: Links, p: seq<Ptr>, w: seq<Ptr>, k: nat)
    requires Threaded(m, p) && Threaded(m, w) && k < |p| && w != [] && p[0] == w[0] && m.next[w[|w| - 1]] == NULL
    ensures k < |w| && p[k] == w[k]
  {
    if k > 0 {
      SamePath(m, p, w, k - 1);
      assert m.next[p[k - 1]] == p[k - 1 + 1];
      assert k < |w| ==> m.next[w[k - 1]] == w[k - 1 + 1];
    }
  }

  // ----- what each relinking does to the links

  function Removed(m: Links, que: Ptr): Links
    requires 0 <= que < |m.prev| == |m.next| && 0 <= m.prev[que] < |m.prev| && 0 <= m.next[que] < |m.prev|
  {
    Links(m.prev[m.next[que] := m.prev[que]][que := NULL], m.next[m.prev[que] := m.next[que]][que := NULL])
  }

  function Inserted(m: Links, que: Ptr, prev: Ptr, next: Ptr): Links
    requires |m.prev| == |m.next| && 0 <= que < |m.prev| && 0 <= prev < |m.prev| && 0 <= next < |m.prev|
  {
    Links(m.prev[next := que][que := prev], m.next[que := next][prev := que])
  }

  /** `queue_insert` and `queue_insert_prev` differ only when the node is its own new neighbour. */
  function InsertedBefore(m: Links, que: Ptr, prev: Ptr, next: Ptr): (r: Links)
    requires |m.prev| == |m.next| && 0 <= que < |m.prev| && 0 <= prev < |m.prev| && 0 <= next < |m.prev|
    ensures que != prev && que != next ==> r == Inserted(m, que, prev, next)
  {
    Links(m.prev[que := prev][next := que], m.next[prev := que][que := next])
  }

  /** From `m` to `m'` only nodes in `w` changed their links. */
  ghost predicate OnlyIn(m: Links, m': Links, w: seq<Ptr>) {
    |m'.prev| == |m.prev| && |m'.next| == |m.next| &&
    forall i | m.In(i) && i !in w :: m'.prev[i] == m.prev[i] && m'.next[i] == m.next[i]
  }

  /** `queue_remove` takes one place out of the sequence. */
  lemma RemovedHolds(m: Links, q: Ends, s: seq<Ptr>, k: nat)
    requires Holds(m, q, s) && k < |s|
    ensures m.In(s[k]) && m.In(m.prev[s[k]]) && m.In(m.next[s[k]])
    ensures Holds(Removed(m, s[k]), q, s[..k] + s[k + 1..]) && OnlyIn(m, Removed(m, s[k]), Whole(q, s))
  {
    var w := Whole(q, s);
    HoldsDistinct(m, q, s);
    Neighbours(m, w, k);
    RemovedThreaded(m, w, k + 1);
    WholeWithout(q, s, k);
  }

  lemma Neighbours(m: Links, w: seq<Ptr>, k: nat)
    requires Threaded(m, w) && k + 2 < |w|
    ensures m.In(w[k]) && m.In(w[k + 1]) && m.In(w[k + 2])
    ensures m.prev[w[k + 1]] == w[k] && m.next[w[k + 1]] == w[k + 2]
  {
    assert m.next[w[k]] == w[k + 1] && m.prev[w[k + 1]] == w[k];
  }

  lemma WholeWithout(q: Ends, s: seq<Ptr>, k: nat)
    requires k < |s|
    ensures Whole(q, s[..k] + s[k + 1..]) == Whole(q, s)[..k + 1] + Whole(q, s)[k + 2..]
  {}

  lemma FirstOut(m: Links, q: Ends, s: seq<Ptr>)
    requires Holds(m, q, s) && s != []
    ensures m.In(s[0]) && m.In(m.prev[s[0]]) && m.In(m.next[s[0]])
    ensures Holds(Removed(m, s[0]), q, s[1..]) && OnlyIn(m, Removed(m, s[0]), Whole(q, s))
  {
    DropFirst(s);
    RemovedHolds(m, q, s, 0);
  }

  lemma DropFirst(s: seq<Ptr>)
    requires s != []
    ensures s[..0] + s[0 + 1..] == s[1..]
  {}

  lemma RemovedThreaded(m: Links, w: seq<Ptr>, k: nat)
    requires Threaded(m, w) && Distinct(w) && 0 < k < |w| - 1
    requires m.prev[w[k]] == w[k - 1] && m.next[w[k]] == w[k + 1]
    ensures Threaded(Removed(m, w[k]), w[..k] + w[k + 1..]) && OnlyIn(m, Removed(m, w[k]), w)
    ensures Removed(m, w[k]).prev[w[0]] == m.prev[w[0]] && Removed(m, w[k]).next[w[|w| - 1]] == m.next[w[|w| - 1]]
  {
    var m', v := Removed(m, w[k]), w[..k] + w[k + 1..];
    forall i | 0 <= i < |v| - 1
      ensures m'.next[v[i]] == v[i + 1] && m'.prev[v[i + 1]] == v[i]
    {
      if i == k - 1 {
      } else {
        var j := if i < k then i else i + 1;
        assert v[i] == w[j] && v[i + 1] == w[j + 1];
        assert m.next[w[j]] == w[j + 1] && m.prev[w[j + 1]] == w[j];
      }
    }
  }

  /** Linking a new node between two neighbours puts it into the sequence there. */
  lemma InsertedHolds(m: Links, q: Ends, s: seq<Ptr>, k: nat, que: Ptr)
    requires Holds(m, q, s) && k <= |s| && m.In(que) && que !in Whole(q, s)
    ensures var w := Whole(q, s); m.next[w[k]] == w[k + 1] && m.prev[w[k + 1]] == w[k]
    ensures var w := Whole(q, s); var m' := Inserted(m, que, w[k], w[k + 1]);
      Holds(m', q, s[..k] + [que] + s[k..]) && OnlyIn(m, m', w + [que])
  {
    var w := Whole(q, s);
    HoldsDistinct(m, q, s);
    InsertedThreaded(m, w, k, que);
    WholeSplit(q, s, k, que);
  }

  lemma WholeSplit(q: Ends, s: seq<Ptr>, k: nat, que: Ptr)
    requires k <= |s|
    ensures Whole(q, s[..k] + [que] + s[k..]) == Whole(q, s)[..k + 1] + [que] + Whole(q, s)[k + 1..]
  {
    var w := Whole(q, s);
    assert w[..k + 1] == [q.head] + s[..k];
    assert w[k + 1..] == s[k..] + [q.tail];
    Around(q.head, s[..k], que, s[k..], q.tail);
  }

  lemma Around(h: Ptr, a: seq<Ptr>, x: Ptr, b: seq<Ptr>, t: Ptr)
    ensures [h] + (a + [x] + b) + [t] == ([h] + a) + [x] + (b + [t])
  {}

  lemma InsertedThreaded(m: Links, w: seq<Ptr>, k: nat, que: Ptr)
    requires Threaded(m, w) && Distinct(w) && k < |w| - 1 && m.In(que) && que !in w
    ensures var m' := Inserted(m, que, w[k], w[k + 1]);
      && Threaded(m', w[..k + 1] + [que] + w[k + 1..]) && OnlyIn(m, m', w + [que])
      && m'.prev[w[0]] == m.prev[w[0]] && m'.next[w[|w| - 1]] == m.next[w[|w| - 1]]
  {
    var m', v := Inserted(m, que, w[k], w[k + 1]), w[..k + 1] + [que] + w[k + 1..];
    forall i | 0 <= i < |v| - 1
      ensures m'.next[v[i]] == v[i + 1] && m'.prev[v[i + 1]] == v[i]
    {
      if i == k || i == k + 1 {
      } else {
        var j := if i < k then i else i - 1;
        assert v[i] == w[j] && v[i + 1] == w[j + 1];
        assert m.next[w[j]] == w[j + 1] && m.prev[w[j + 1]] == w[j];
      }
    }
  }

  /** A queue none of whose nodes changed is still the same queue. */
  lemma KeepQueue(m: Links, m': Links, q: Ends, s: seq<Ptr>, w: seq<Ptr>)
    requires Holds(m, q, s) && OnlyIn(m, m', w) && forall p | p in Whole(q, s) :: p !in w
    ensures Holds(m', q, s)
  {
    var v := Whole(q, s);
    forall i | 0 <= i < |v| - 1
      ensures m'.next[v[i]] == v[i + 1] && m'.prev[v[i + 1]] == v[i]
    {
      assert v[i] in v && v[i + 1] in v;
    }
    assert v[0] in v && v[|s| + 1] in v;
  }

  class LinkHeap {
    const size: nat
    const prev: array<Ptr>
    const next: array<Ptr>
    ghost const Repr: set<object> := {prev, next}

    ghost predicate Valid() {
      prev.Length == next.Length == size && prev != next
    }

    constructor (size: nat)
      ensures Valid() && this.size == size && fresh(Repr)
    {
      this.size := size;
      prev, next := new Ptr[size](_ => NULL), new Ptr[size](_ => NULL);
    }

    ghost function View(): Links
      reads Repr
    {
      Links(prev[..], next[..])
    }

    /** `queue_remove` */
    method Remove(que: Ptr)
      requires Valid() && 0 <= que < size && 0 <= prev[que] < size && 0 <= next[que] < size
      modifies Repr
      ensures View() == Removed(old(View()), que)
    {
      next[prev[que]] := next[que];
      prev[next[que]] := prev[que];
      prev[que] := NULL;
      next[que] := NULL;
    }

    /** `queue_insert`; without a node or a place it does nothing. */
    method Insert(que: Ptr, p: Ptr)
      requires Valid() && (que == NULL || 0 <= que < size) && (p == NULL || (0 <= p < size && 0 <= next[p] < size))
      modifies Repr
      ensures View() == if que == NULL || p == NULL then old(View()) else Inserted(old(View()), que, p, old(next[p]))
    {
      if que == NULL || p == NULL {
        return;
      }
      next[que] := next[p];
      prev[next[que]] := que;
      prev[que] := p;
      next[p] := que;
    }

    /** `queue_insert_prev` */
    method InsertPrev(que: Ptr, n: Ptr)
      requires Valid() && (que == NULL || 0 <= que < size) && (n == NULL || (0 <= n < size && 0 <= prev[n] < size))
      modifies Repr
      ensures View() == if que == NULL || n == NULL then old(View()) else InsertedBefore(old(View()), que, old(prev[n]), n)
    {
      if que == NULL || n == NULL {
        return;
      }
      prev[que] := prev[n];
      next[prev[que]] := que;
      next[que] := n;
      prev[n] := que;
    }

    /** `queue_list_init` */
    method Init(q: Ends)
      requires Valid() && 0 <= q.head < size && 0 <= q.tail < size && q.head != q.tail
      modifies Repr
      ensures Holds(View(), q, []) && OnlyIn(old(View()), View(), [q.head, q.tail])
    {
      prev[q.head] := NULL;
      next[q.head] := q.tail;
      prev[q.tail] := q.head;
      next[q.tail] := NULL;
    }

    /** `queue_list_enque` */
    method Enque(q: Ends, que: Ptr, ghost s: seq<Ptr>)
      requires Valid() && Holds(View(), q, s) && (que == NULL || (0 <= que < size && que !in Whole(q, s)))
      modifies Repr
      ensures Holds(View(), q, if que == NULL then s else s + [que])
      ensures OnlyIn(old(View()), View(), Whole(q, s) + [que])
    {
      ghost var w := Whole(q, s);
      assert View().prev[w[|s| + 1]] == w[|s|] && View().next[w[|s|]] == w[|s| + 1];
      if que != NULL {
        InsertedHolds(View(), q, s, |s|, que);
        assert s[..|s|] + [que] + s[|s|..] == s + [que];
      }
      Insert(que, prev[q.tail]);
    }

    /** `queue_list_is_empty` */
    method IsEmpty(q: Ends, ghost s: seq<Ptr>) returns (b: bool)
      requires Valid() && Holds(View(), q, s)
      ensures b <==> s == []
    {
      ghost var w := Whole(q, s);
      assert View().next[w[0]] == w[1];
      assert s != [] ==> View().next[w[1]] == w[2];
      b := next[next[q.head]] == NULL;
    }

    /** `queue_list_top` */
    method Peek(q: Ends, ghost s: seq<Ptr>) returns (que: Ptr)
      requires Valid() && Holds(View(), q, s)
      ensures que == if s == [] then NULL else s[0]
      ensures s != [] ==> 0 <= que < size
    {
      ghost var w := Whole(q, s);
      assert View().next[w[0]] == w[1];
      var b := IsEmpty(q, s);
      if b {
        return NULL;
      }
      que := next[q.head];
    }

    /** `queue_list_pop` */
    method Pop(q: Ends, ghost s: seq<Ptr>) returns (que: Ptr)
      requires Valid() && Holds(View(), q, s)
      modifies Repr
      ensures que == if s == [] then NULL else s[0]
      ensures Holds(View(), q, if s == [] then [] else s[1..]) && OnlyIn(old(View()), View(), Whole(q, s))
    {
      que := Peek(q, s);
      if que == NULL {
        return;
      }
      FirstOut(View(), q, s);
      Remove(que);
    }

    /** `queue_list_check`, on links that are null or lead to some node, but are otherwise arbitrary. */
    method Check(q: Ends) returns (b: bool)
      requires Valid() && 0 <= q.head < size && 0 <= q.tail < size && q.head != q.tail
      requires forall i | 0 <= i < size :: (next[i] == NULL || 0 <= next[i] < size) && (prev[i] == NULL || 0 <= prev[i] < size)
      ensures b <==> exists s :: Holds(View(), q, s)
    {
      var tmp := q.head;
      ghost var path := [tmp];
      if prev[tmp] != NULL || next[q.tail] != NULL {
        return false;
      }
      var good := true;
      while good && next[tmp] != NULL
        invariant good && path != [] && path[0] == q.head && path[|path| - 1] == tmp && Threaded(View(), path)
        decreases size - |path|
      {
        Bounded(View(), path);
        if prev[next[tmp]] != tmp {
          forall s | Holds(View(), q, s) {
            Mutual(View(), q, s, path);
          }
          return false;
        }
        tmp := next[tmp];
        path := path + [tmp];
        Bounded(View(), path);
        good := next[prev[tmp]] == tmp;
      }
      ReachesEnd(View(), q, path);
      b := good && q.tail == tmp;
    }

    /** `queue_list_find` */
    method Find(q: Ends, que: Ptr, ghost s: seq<Ptr>) returns (b: bool)
      requires Valid() && Holds(View(), q, s)
      ensures b <==> que in s
    {
      ghost var w, k := Whole(q, s), 0;
      assert View().next[w[0]] == w[1];
      HoldsDistinct(View(), q, s);
      var tmp := next[q.head];
      while tmp != q.tail
        invariant 0 <= k <= |s| && tmp == w[k + 1] && que !in s[..k]
        decreases |s| - k
      {
        if tmp == que {
          return true;
        }
        assert View().next[w[k + 1]] == w[k + 2];
        k := k + 1;
        tmp := next[tmp];
      }
      assert s[..k] == s;
      return false;
    }
  }

  /** No more nodes than slots can be met without repetition. */
  lemma Bounded(m: Links, path: seq<Ptr>)
    requires Threaded(m, path) && path != [] && m.prev[path[0]] == NULL
    ensures |path| <= |m.prev|
  {
    forall i, j | 0 <= i < j < |path|
      ensures path[i] != path[j]
    {
      NoCycle(m, path, i, j);
    }
    assert forall i | 0 <= i < |path| :: m.In(path[i]);
    Pigeonhole(path, |m.prev|);
  }

  /** On a queue, a node with a successor is that successor's predecessor. */
  lemma Mutual(m: Links, q: Ends, s: seq<Ptr>, path: seq<Ptr>)
    requires Holds(m, q, s) && Threaded(m, path) && path != [] && path[0] == q.head
    requires m.next[path[|path| - 1]] != NULL
    ensures var x := path[|path| - 1]; m.In(m.next[x]) && m.prev[m.next[x]] == x
  {
    var w, k := Whole(q, s), |path| - 1;
    SamePath(m, path, w, k);
    assert m.next[w[k]] == w[k + 1] && m.In(w[k + 1]);
  }

  /** A path of mutual links that cannot continue is the whole queue exactly when it ends at the tail. */
  lemma ReachesEnd(m: Links, q: Ends, path: seq<Ptr>)
    requires Threaded(m, path) && path != [] && path[0] == q.head && m.prev[q.head] == NULL
    requires m.next[path[|path| - 1]] == NULL && m.In(q.tail) && m.next[q.tail] == NULL && q.head != q.tail
    ensures path[|path| - 1] == q.tail <==> exists s :: Holds(m, q, s)
  {
    forall s | Holds(m, q, s)
      ensures path[|path| - 1] == q.tail
    {
      SamePath(m, path, Whole(q, s), |path| - 1);
      SamePath(m, Whole(q, s), path, |s| + 1);
    }
    if path[|path| - 1] == q.tail {
      assert Whole(q, path[1..|path| - 1]) == path;
      assert Holds(m, q, path[1..|path| - 1]);
    }
  }
}
