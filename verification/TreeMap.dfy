/** The map object of src/map.c: the AA tree, its size, and deletions put off while an iteration is
    open. The abstract value is the finite map M; a key deleted during an iteration leaves M at
    once and the tree only when the outermost iteration closes. */
module TreeMap {
  import opened AaTree
  import N = AaNodes

  /* ---------- a tree as a finite map with some keys put down for deletion ---------- */

  /** The entries of the walk that are not put down are exactly the pairs of `m`; the ones that
      are have lost their data. */
  ghost predicate Holds(m: map<Key, Ptr>, s: seq<Entry>, dead: set<Key>) {
    (forall k :: k in m ==> k !in dead && Entry(k, m[k]) in s) &&
    (forall e :: e in s ==> if e.key in dead then e.data == NULL else e.key in m && m[e.key] == e.data) &&
    (forall k :: k in dead ==> Entry(k, NULL) in s)
  }

  ghost predicate Models(t: Tree, m: map<Key, Ptr>, dead: set<Key>) {
    Bst(t) && Holds(m, InOrder(t), dead)
  }

  /** The search answers for the map. */
  lemma ModelsFind(t: Tree, m: map<Key, Ptr>, dead: set<Key>, k: Key)
    requires Models(t, m, dead)
    ensures N.Find(t, k).Leaf? <==> k !in m && k !in dead
    ensures k in m ==> N.Find(t, k).data == m[k]
    ensures k in dead ==> k !in m && N.Find(t, k).data == NULL
  {
    N.FindInOrder(t, k);
    if k in m {
      assert Entry(k, m[k]) in InOrder(t);
    }
    if k in dead {
      assert Entry(k, NULL) in InOrder(t);
    }
  }

  lemma UpdatedIn(s: seq<Entry>, s': seq<Entry>, k: Key, d: Ptr)
    requires N.Updated(s, s', k, d)
    ensures forall e :: e in s' ==> (e.key != k && e in s) || (e == Entry(k, d) && !Absent(s, k))
    ensures forall e :: e in s && e.key != k ==> e in s'
    ensures !Absent(s, k) ==> Entry(k, d) in s'
    ensures Sorted(s) ==> Sorted(s')
  {
    forall e | e in s && e.key != k
      ensures e in s'
    {
      var i :| 0 <= i < |s| && s[i] == e;
      assert s'[i] == e;
    }
    if !Absent(s, k) {
      var i :| 0 <= i < |s| && s[i].key == k;
      assert s'[i] == Entry(k, d);
    }
    assert forall i :: 0 <= i < |s| ==> s'[i].key == s[i].key;
  }

  /** New data for a live key. */
  lemma ModelsSet(t: Tree, m: map<Key, Ptr>, dead: set<Key>, k: Key, d: Ptr)
    requires Models(t, m, dead) && k in m
    ensures Models(N.SetData(t, k, d), m[k := d], dead)
  {
    N.SetDataWalk(t, k, d);
    UpdatedIn(InOrder(t), InOrder(N.SetData(t, k, d)), k, d);
  }

  /** A new key. */
  lemma ModelsNew(t: Tree, m: map<Key, Ptr>, dead: set<Key>, x: Tree)
    requires Models(t, m, dead) && x.Bin? && x.left.Leaf? && x.right.Leaf? && x.key !in m && x.key !in dead
    ensures Models(Insert(t, x), m[x.key := x.data], dead)
  {
    hide Absent, Inserted, InOrder, Insert, N.Find, Sorted, Holds;
    ModelsFind(t, m, dead, x.key);
    N.FindInOrder(t, x.key);
    InsertWalk(t, x);
    InsertedSorted(InOrder(t), Entry(x.key, x.data));
    HoldsNew(m, InOrder(t), InOrder(Insert(t, x)), dead, Entry(x.key, x.data));
  }

  lemma HoldsNew(m: map<Key, Ptr>, s: seq<Entry>, s': seq<Entry>, dead: set<Key>, e: Entry)
    requires Holds(m, s, dead) && e.key !in m && e.key !in dead
    requires forall x :: x in s' <==> x in s || x == e
    ensures Holds(m[e.key := e.data], s', dead)
  {
  }

  /** A key is put down for deletion, once or again: it loses its data. */
  lemma ModelsDead(t: Tree, m: map<Key, Ptr>, dead: set<Key>, k: Key)
    requires Models(t, m, dead) && (k in m || k in dead)
    ensures Models(N.SetData(t, k, NULL), m - {k}, dead + {k})
  {
    ModelsFind(t, m, dead, k);
    N.FindInOrder(t, k);
    N.SetDataWalk(t, k, NULL);
    UpdatedIn(InOrder(t), InOrder(N.SetData(t, k, NULL)), k, NULL);
  }

  /** aa_delete takes a key out of the tree, live, put down, or not there at all. */
  lemma ModelsRemoved(t: Tree, m: map<Key, Ptr>, dead: set<Key>, k: Key)
    requires Models(t, m, dead)
    ensures Models(Delete(t, k), m - {k}, dead - {k})
  {
    hide Removed, Absent, Delete, InOrder;
    DeleteWalk(t, k);
    RemovedSorted(InOrder(t), k);
  }

  lemma WithoutKey(m: map<Key, Ptr>, k: Key)
    ensures k !in m ==> m - {k} == m
    ensures k in m ==> |m - {k}| == |m| - 1
  {
    assert (m - {k}).Keys == m.Keys - {k};
  }

  lemma WithKey(m: map<Key, Ptr>, k: Key, d: Ptr)
    ensures |m[k := d]| == |m| + if k in m then 0 else 1
  {
    assert m[k := d].Keys == m.Keys + {k};
  }

  /* ---------- the object ---------- */

  ghost function ToSet(ks: seq<Key>): set<Key> {
    set k | k in ks
  }

  lemma InSet(ks: seq<Key>, k: Key)
    ensures k in ToSet(ks) <==> k in ks
  {
  }

  lemma ToSetAdd(ks: seq<Key>, k: Key)
    ensures ToSet(ks + [k]) == ToSet(ks) + {k}
  {
  }

  const WORD := 0x1_0000_0000

  /** The 32-bit unsigned counter. */
  function Wrap(x: int): int {
    x % WORD
  }

  lemma WrapStep(x: int)
    ensures Wrap(Wrap(x) + 1) == Wrap(x + 1) && Wrap(Wrap(x) - 1) == Wrap(x - 1)
  {
  }

  class UMap {
    var root: Node?
    var size: int
    var iterdepth: nat
    var pending: seq<Key>
    ghost var t: Tree
    ghost var M: map<Key, Ptr>
    ghost var drift: nat  // deletions of keys already deleted in the same iteration

    ghost predicate Tied()
      reads this, N.Nodes(t)
    {
      N.Rep(root, t) && N.Distinct(t)
    }

    ghost predicate Valid()
      reads this, N.Nodes(t)
    {
      Tied() && Models(t, M, ToSet(pending)) && (iterdepth == 0 ==> pending == []) &&
      size == Wrap(|M| - drift)
    }

    /** size is the number of keys as long as no key has been deleted twice within one iteration;
        every such repetition leaves it one lower for good. */
    lemma SizeIsCount()
      requires Valid() && |M| < WORD && drift < WORD
      ensures size == |M| <==> drift == 0
    {
    }

    /** Nothing has changed in the shape of the tree: iterations can go on. */
    twostate predicate SameLinks()
      reads this, N.Nodes(t)
    {
      root == old(root) && N.Nodes(t) == old(N.Nodes(t)) &&
      forall n :: n in N.Nodes(t) ==>
        old(allocated(n)) && n.left == old(n.left) && n.right == old(n.right) && n.key == old(n.key)
    }

    constructor ()
      ensures Valid() && M == map[] && iterdepth == 0 && t == Leaf && drift == 0
    {
      root, size, iterdepth, pending := null, 0, 0, [];
      t, M, drift := Leaf, map[], 0;
    }

    method Get(k: Key) returns (d: Ptr)
      requires Valid()
      ensures d == if k in M then M[k] else NULL
    {
      ModelsFind(t, M, ToSet(pending), k);
      var n := N.Fetch(root, k, t);
      d := if n == null then NULL else n.data;
    }

    /** u_map_set; inside an iteration it aborts the program before it changes anything. */
    method Set(k: Key, d: Ptr) returns (aborted: bool)
      requires Valid()
      modifies this, N.Nodes(t)
      ensures aborted == (old(iterdepth) > 0) && Valid()
      ensures aborted ==> unchanged(this) && SameLinks()
      ensures !aborted ==> M == old(M)[k := d] && iterdepth == 0 && drift == old(drift) && pending == []
      ensures forall n :: n in N.Nodes(t) && n !in old(N.Nodes(t)) ==> fresh(n)
    {
      hide Models, Wrap, N.Nodes, N.Rep, N.Distinct, N.SetData, N.Find, Insert;
      assert Tied() && allocated(N.Nodes(t));
      ghost var dead := ToSet(pending);
      ModelsFind(t, M, dead, k);
      WithKey(M, k, d);
      var n := N.Fetch(root, k, t);
      aborted := iterdepth > 0;
      if aborted {
        return;
      }
      if n != null {
        ModelsSet(t, M, dead, k, d);
        M := M[k := d];
        StoreData(n, k, d);
      } else {
        WrapStep(|M| - drift);
        size := Wrap(size + 1);
        M := M[k := d];
        ghost var x := AddNode(k, d);
        ModelsNew(old(t), old(M), dead, x);
      }
    }

    /** n->data = d, for the node the search found. */
    method StoreData(n: Node, k: Key, d: Ptr)
      requires Tied() && N.Find(t, k).Bin? && n == N.Find(t, k).node
      modifies this`t, N.Nodes(t)`data
      ensures Tied() && t == N.SetData(old(t), k, d) && N.Nodes(t) == old(N.Nodes(t))
    {
      N.PutData(root, n, k, d, t);
      t := N.SetData(t, k, d);
    }

    /** A new node of level 1. */
    method AddNode(k: Key, d: Ptr) returns (ghost x: Tree)
      requires Tied()
      modifies this`t, this`root, N.Nodes(t)
      ensures x.Bin? && x.left.Leaf? && x.right.Leaf? && x.key == k && x.data == d
      ensures Tied() && t == Insert(old(t), x)
      ensures forall n :: n in N.Nodes(t) && n !in old(N.Nodes(t)) ==> fresh(n)
    {
      assert N.Rep(root, t) && allocated(N.Nodes(t));
      var n := new Node(k, d, 1);
      x := Bin(n, Leaf, k, d, 1, Leaf);
      assert N.Rep(root, t) && N.Rep(n, x);
      root := N.Insert(root, n, t, x);
      t := Insert(t, x);
    }

    /** u_map_del: the data go at once; the node goes at once, or when the iterations are over. */
    method Del(k: Key) returns (data: Ptr)
      requires Valid()
      modifies this, N.Nodes(t)
      ensures Valid() && M == old(M) - {k} && iterdepth == old(iterdepth)
      ensures data == if k in old(M) then old(M)[k] else NULL
      ensures drift == old(drift) + if k in old(pending) then 1 else 0
      ensures pending == old(pending) + if iterdepth > 0 && (k in old(M) || k in old(pending)) then [k] else []
      ensures iterdepth > 0 ==> SameLinks()
      ensures N.Nodes(t) <= old(N.Nodes(t))
    {
      hide Models, Wrap, N.Nodes, N.Rep, N.Distinct, N.SetData, N.Find, Insert;
      assert Tied() && allocated(N.Nodes(t));
      ModelsFind(t, M, ToSet(pending), k);
      WithoutKey(M, k);
      var n := N.Fetch(root, k, t);
      if n == null {
        return NULL;
      }
      data := n.data;
      if iterdepth > 0 {
        DelLater(n, k);
      } else {
        DelNow(n, k);
      }
    }

    method DelLater(n: Node, k: Key)
      requires Valid() && iterdepth > 0 && N.Find(t, k).Bin? && n == N.Find(t, k).node
      requires k in M || k in pending
      modifies this, N.Nodes(t)`data
      ensures Valid() && M == old(M) - {k} && iterdepth == old(iterdepth) && SameLinks()
      ensures drift == old(drift) + if k in old(pending) then 1 else 0
      ensures pending == old(pending) + [k]
    {
      hide Models, Wrap, N.Nodes, N.Rep, N.Distinct, N.SetData, N.Find, Delete, ToSet;
      assert Tied() && allocated(N.Nodes(t));
      ghost var dead := ToSet(pending);
      InSet(pending, k);
      ModelsFind(t, M, dead, k);
      ModelsDead(t, M, dead, k);
      PutDown(k);
      hide Tied;
      StoreData(n, k, NULL);
    }

    /** The count and the list of keys to delete. */
    method PutDown(k: Key)
      requires size == Wrap(|M| - drift) && (k in M || k in pending) && (k in pending ==> k !in M)
      modifies this`size, this`drift, this`M, this`pending
      ensures size == Wrap(|M| - drift) && M == old(M) - {k} && pending == old(pending) + [k]
      ensures drift == old(drift) + if k in old(pending) then 1 else 0
      ensures ToSet(pending) == ToSet(old(pending)) + {k}
    {
      WrapStep(|M| - drift);
      WithoutKey(M, k);
      ToSetAdd(pending, k);
      hide Wrap, ToSet;
      size := Wrap(size - 1);
      drift := if k in pending then drift + 1 else drift;
      M := M - {k};
      pending := pending + [k];
    }

    method DelNow(n: Node, k: Key)
      requires Valid() && iterdepth == 0 && k in M && N.Find(t, k).Bin? && n == N.Find(t, k).node
      modifies this, N.Nodes(t)
      ensures Valid() && M == old(M) - {k} && iterdepth == 0 && drift == old(drift) && pending == []
      ensures N.Nodes(t) <= old(N.Nodes(t))
    {
      hide Models, Wrap, N.Nodes, N.Rep, N.Distinct, N.SetData, N.Find, Delete, ToSet;
      assert Tied() && allocated(N.Nodes(t));
      ghost var dead := ToSet(pending);
      InSet(pending, k);
      ModelsDead(t, M, dead, k);
      CountDown(k);
      hide Tied;
      StoreData(n, k, NULL);
      ModelsRemoved(t, M, dead + {k}, k);
      WithoutKey(M, k);
      assert dead + {k} - {k} == dead;
      RemoveNode(k);
    }

    method CountDown(k: Key)
      requires size == Wrap(|M| - drift) && k in M
      modifies this`size, this`M
      ensures size == Wrap(|M| - drift) && M == old(M) - {k}
    {
      WrapStep(|M| - drift);
      WithoutKey(M, k);
      hide Wrap;
      size := Wrap(size - 1);
      M := M - {k};
    }

    /** map->root = aa_delete(map, map->root, key) */
    method RemoveNode(k: Key)
      requires Tied()
      modifies this`root, this`t, N.Nodes(t)
      ensures Tied() && t == Delete(old(t), k) && N.Nodes(t) <= old(N.Nodes(t))
    {
      root := N.Delete(root, k, t);
      t := Delete(t, k);
    }

    /** The start of u_map_each and u_map_each_start. */
    method BeginEach()
      requires Valid()
      modifies this`iterdepth, this`pending
      ensures Valid() && iterdepth == old(iterdepth) + 1 && pending == old(pending)
    {
      assert Tied() && allocated(N.Nodes(t));
      if iterdepth == 0 {
        pending := [];
      }
      iterdepth := iterdepth + 1;
    }

    /** The end of u_map_each and u_map_each_next: the outermost iteration carries out what the
        iterations put down, and the tree then holds the keys of M and no others. */
    method EndEach()
      requires Valid() && iterdepth > 0
      modifies this, N.Nodes(t)
      ensures Valid() && M == old(M) && iterdepth == old(iterdepth) - 1 && drift == old(drift)
      ensures pending == if iterdepth == 0 then [] else old(pending)
      ensures iterdepth == 0 ==> Models(t, M, {})
      ensures N.Nodes(t) <= old(N.Nodes(t))
    {
      assert Tied() && allocated(N.Nodes(t));
      iterdepth := iterdepth - 1;
      if iterdepth == 0 {
        DeletePending();
      }
    }

    method DeletePending()
      requires Tied() && Models(t, M, ToSet(pending))
      modifies this`root, this`t, this`pending, N.Nodes(t)
      ensures Tied() && Models(t, M, {}) && pending == [] && N.Nodes(t) <= old(N.Nodes(t))
    {
      hide Models, N.Nodes, N.Rep, N.Distinct, Delete;
      ghost var dead := ToSet(pending);
      forall k | k in pending
        ensures k !in M
      {
        ModelsFind(t, M, dead, k);
      }
      while pending != []
        invariant Tied() && Models(t, M, dead) && dead <= ToSet(pending)
        invariant forall k :: k in pending ==> k !in M
        invariant N.Nodes(t) <= old(N.Nodes(t))
        decreases |pending|
      {
        assert Tied() && allocated(N.Nodes(t));
        var k := pending[0];
        ModelsRemoved(t, M, dead, k);
        WithoutKey(M, k);
        dead := dead - {k};
        pending := pending[1..];
        RemoveNode(k);
      }
      assert dead == {};
    }
  }
}
