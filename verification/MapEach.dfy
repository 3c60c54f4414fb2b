/** Iteration over the map of src/map.c: the recursive u_map_each with a callback, and the queue of
    u_map_each_start and u_map_each_next. In both the body may delete any keys, the current one
    included, while the iteration is open; `del` says which it deletes at each key. */
module MapEach {
  import opened Common
  import opened AaTree
  import opened TreeMap
  import N = AaNodes

  /** The keys of a tree in order. */
  ghost function Keys(t: Tree): seq<Key> {
    if t.Leaf? then [] else Keys(t.left) + [t.key] + Keys(t.right)
  }

  lemma {:induction false} KeysOfWalk(t: Tree)
    ensures |Keys(t)| == |InOrder(t)| && forall i :: 0 <= i < |Keys(t)| ==> Keys(t)[i] == InOrder(t)[i].key
  {
    if t.Bin? {
      KeysOfWalk(t.left);
      KeysOfWalk(t.right);
    }
  }

  /** Outside any other iteration the tree holds each key of the map once, in ascending order. */
  lemma KeysOfMap(t: Tree, m: map<Key, Ptr>)
    requires Models(t, m, {})
    ensures forall i, j :: 0 <= i < j < |Keys(t)| ==> Keys(t)[i] < Keys(t)[j]
    ensures forall k :: k in Keys(t) <==> k in m
  {
    KeysOfWalk(t);
    forall k
      ensures k in Keys(t) <==> k in m
    {
      if k in Keys(t) {
        var i :| 0 <= i < |Keys(t)| && Keys(t)[i] == k;
        assert InOrder(t)[i] in InOrder(t);
      }
      if k in m {
        var i :| 0 <= i < |InOrder(t)| && InOrder(t)[i] == Entry(k, m[k]);
        assert Keys(t)[i] == k;
      }
    }
  }

  /** Every key some visit deleted. */
  ghost function Gone(visited: seq<Key>, del: Key -> seq<Key>): set<Key> {
    set i, k | 0 <= i < |visited| && k in del(visited[i]) :: k
  }

  lemma GoneConcat(a: seq<Key>, b: seq<Key>, del: Key -> seq<Key>)
    ensures Gone(a + b, del) == Gone(a, del) + Gone(b, del)
  {
    forall k | k in Gone(a, del)
      ensures k in Gone(a + b, del)
    {
      var i :| 0 <= i < |a| && k in del(a[i]);
      assert (a + b)[i] == a[i];
    }
    forall k | k in Gone(b, del)
      ensures k in Gone(a + b, del)
    {
      var i :| 0 <= i < |b| && k in del(b[i]);
      assert (a + b)[|a| + i] == b[i];
    }
  }

  ghost function DataOf(m: map<Key, Ptr>, k: Key): Ptr {
    if k in m then m[k] else NULL
  }

  /** The data handed over with each key when the visits so far have deleted what they have. */
  ghost function Handed(visited: seq<Key>, m: map<Key, Ptr>, del: Key -> seq<Key>): seq<Ptr> {
    if visited == [] then []
    else [DataOf(m, visited[0])] + Handed(visited[1..], m - ToSet(del(visited[0])), del)
  }

  lemma {:induction false} HandedConcat(a: seq<Key>, b: seq<Key>, m: map<Key, Ptr>, del: Key -> seq<Key>)
    ensures Handed(a + b, m, del) == Handed(a, m, del) + Handed(b, m - Gone(a, del), del)
  {
    if a == [] {
      assert a + b == b && m - Gone(a, del) == m;
      NoneHanded(m, del);
    } else {
      hide Gone, Handed, DataOf, ToSet;
      var k := a[0];
      HandedConcat(a[1..], b, m - ToSet(del(k)), del);
      assert a + b == [k] + (a[1..] + b) && a == [k] + a[1..];
      HandedCons(k, a[1..] + b, m, del);
      HandedCons(k, a[1..], m, del);
      GoneConcat([k], a[1..], del);
      GoneAt(k, del);
      MinusTwice(m, ToSet(del(k)), Gone(a[1..], del));
      var m' := m - ToSet(del(k));
      Assoc([DataOf(m, k)], Handed(a[1..], m', del), Handed(b, m' - Gone(a[1..], del), del));
    }
  }

  lemma HandedCons(k: Key, rest: seq<Key>, m: map<Key, Ptr>, del: Key -> seq<Key>)
    ensures Handed([k] + rest, m, del) == [DataOf(m, k)] + Handed(rest, m - ToSet(del(k)), del)
  {
    assert ([k] + rest)[1..] == rest;
  }

  /** A key is handed over with the data it had at the start, unless an earlier visit deleted it:
      then with NULL. */
  lemma {:induction false} HandedAt(visited: seq<Key>, m: map<Key, Ptr>, del: Key -> seq<Key>, i: nat)
    requires i < |visited|
    ensures |Handed(visited, m, del)| == |visited|
    ensures Handed(visited, m, del)[i] == if visited[i] in Gone(visited[..i], del) then NULL else DataOf(m, visited[i])
    decreases i
  {
    HandedLength(visited, m, del);
    var k := visited[0];
    var m' := m - ToSet(del(k));
    if i == 0 {
      assert visited[..0] == [];
    } else {
      hide Gone;
      HandedAt(visited[1..], m', del, i - 1);
      assert visited[..i] == [k] + visited[1..][..i - 1];
      GoneConcat([k], visited[1..][..i - 1], del);
      GoneAt(k, del);
    }
  }

  lemma {:induction false} HandedLength(visited: seq<Key>, m: map<Key, Ptr>, del: Key -> seq<Key>)
    ensures |Handed(visited, m, del)| == |visited|
  {
    if visited != [] {
      HandedLength(visited[1..], m - ToSet(del(visited[0])), del);
    }
  }

  /** When no visit deletes a key whose turn is yet to come, as when each deletes only its own, every
      key is handed over with the data it had at the start. */
  lemma HandedAlive(visited: seq<Key>, m: map<Key, Ptr>, del: Key -> seq<Key>)
    requires forall i, j :: 0 <= i < j < |visited| ==> visited[j] !in del(visited[i])
    ensures |Handed(visited, m, del)| == |visited|
    ensures forall i :: 0 <= i < |visited| ==> Handed(visited, m, del)[i] == DataOf(m, visited[i])
  {
    HandedLength(visited, m, del);
    forall i | 0 <= i < |visited|
      ensures Handed(visited, m, del)[i] == DataOf(m, visited[i])
    {
      HandedAt(visited, m, del, i);
    }
  }

  /** Links and keys below the vertices of `u` are as `u` says; the data may have changed. */
  ghost predicate Linked(u: Tree)
    reads N.Nodes(u)`left, N.Nodes(u)`right, N.Nodes(u)`key
  {
    forall v :: v in N.Vertices(u) ==>
      v.Bin? && v.node in N.Nodes(u) &&
      v.node.left == N.Root(v.left) && v.node.right == N.Root(v.right) && v.node.key == v.key
  }

  lemma LinkedParts(u: Tree)
    requires u.Bin? && Linked(u)
    ensures u.node.left == N.Root(u.left) && u.node.right == N.Root(u.right) && u.node.key == u.key
    ensures N.Nodes(u.left) <= N.Nodes(u) && N.Nodes(u.right) <= N.Nodes(u) && u.node in N.Nodes(u)
    ensures Linked(u.left) && Linked(u.right)
  {
    assert u in N.Vertices(u);
    VertexNodes(u.left);
    VertexNodes(u.right);
  }

  lemma {:induction false} VertexNodes(u: Tree)
    ensures forall v :: v in N.Vertices(u) && v.Bin? ==> v.node in N.Nodes(u)
  {
    if u.Bin? {
      VertexNodes(u.left);
      VertexNodes(u.right);
    }
  }

  lemma RepLinked(p: Node?, t: Tree)
    requires N.Rep(p, t)
    ensures Linked(t) && p == N.Root(t)
  {
    N.VerticesFit(p, t);
    forall v | v in N.Vertices(t)
      ensures v.Bin? && v.node.left == N.Root(v.left) && v.node.right == N.Root(v.right) && v.node.key == v.key
    {
      assert N.Fits(v, null, 0);
    }
  }

  /** What one open iteration may rely on across anything done in its body. */
  twostate predicate Kept(m: UMap)
    reads m, N.Nodes(m.t)
  {
    m.Valid() && m.iterdepth == old(m.iterdepth) && m.SameLinks()
  }

  lemma MinusTwice(m: map<Key, Ptr>, a: set<Key>, b: set<Key>)
    ensures m - a - b == m - (a + b)
  {
  }

  lemma ToSetStep(ks: seq<Key>, i: nat)
    requires i < |ks|
    ensures ToSet(ks[..i + 1]) == ToSet(ks[..i]) + {ks[i]}
  {
    assert ks[..i + 1] == ks[..i] + [ks[i]];
  }

  /** The body of the loop: delete the keys of `ks`, one after another. */
  method DeleteThese(m: UMap, ks: seq<Key>)
    requires m.Valid() && m.iterdepth > 0
    modifies m, N.Nodes(m.t)
    ensures Kept(m) && m.M == old(m.M) - ToSet(ks)
  {
    hide Models, N.Nodes, N.Rep, N.Distinct, UMap.Tied, Wrap;
    assert m.Tied() && allocated(N.Nodes(m.t));
    for i := 0 to |ks|
      invariant Kept(m) && m.M == old(m.M) - ToSet(ks[..i])
    {
      var d := m.Del(ks[i]);
      ToSetStep(ks, i);
      MinusTwice(old(m.M), ToSet(ks[..i]), {ks[i]});
    }
    assert ks[..|ks|] == ks;
  }

  /** u_map_each_n: left, callback, right. Every key of the subtree is visited once, in order,
      also when an earlier callback has deleted it: then the data handed over are NULL. */
  method EachN(m: UMap, n: Node?, ghost u: Tree, del: Key -> seq<Key>) returns (visited: seq<Key>, data: seq<Ptr>)
    requires m.Valid() && m.iterdepth > 0
    requires Linked(u) && n == N.Root(u) && N.Nodes(u) <= N.Nodes(m.t)
    modifies m, N.Nodes(m.t)
    ensures Kept(m) && visited == Keys(u) && m.M == old(m.M) - Gone(visited, del)
    ensures data == Handed(visited, old(m.M), del)
    decreases u
  {
    hide Models, Gone, Linked, Keys, Handed, DataOf, N.Nodes, N.Vertices, N.Rep, N.Distinct;
    assert m.Tied() && allocated(N.Nodes(m.t));
    if n == null {
      visited, data := [], [];
      NoneGone(u, del);
      NoneHanded(m.M, del);
      return;
    }
    LinkedParts(u);
    var left, dataLeft := EachN(m, n.left, u.left, del);
    assert Linked(u);
    LinkedParts(u);
    var k, d := n.key, n.data;
    DataNow(m, n);
    DeleteThese(m, del(k));
    assert Linked(u);
    LinkedParts(u);
    var right, dataRight := EachN(m, n.right, u.right, del);
    visited, data := left + [k] + right, dataLeft + [d] + dataRight;
    HandedAround(left, k, right, old(m.M), del);
    GoneAround(left, k, right, del);
    MinusTwice(old(m.M), Gone(left, del), ToSet(del(k)));
    MinusTwice(old(m.M), Gone(left, del) + ToSet(del(k)), Gone(right, del));
    KeysAround(u);
  }

  lemma GoneAround(a: seq<Key>, k: Key, b: seq<Key>, del: Key -> seq<Key>)
    ensures Gone(a + [k] + b, del) == Gone(a, del) + ToSet(del(k)) + Gone(b, del)
  {
    hide Gone;
    GoneConcat(a + [k], b, del);
    GoneConcat(a, [k], del);
    GoneAt(k, del);
  }

  lemma HandedAround(a: seq<Key>, k: Key, b: seq<Key>, m: map<Key, Ptr>, del: Key -> seq<Key>)
    ensures Handed(a + [k] + b, m, del) ==
            Handed(a, m, del) + [DataOf(m - Gone(a, del), k)] + Handed(b, m - Gone(a, del) - ToSet(del(k)), del)
  {
    hide Gone;
    HandedConcat(a + [k], b, m, del);
    HandedConcat(a, [k], m, del);
    GoneConcat(a, [k], del);
    GoneAt(k, del);
    MinusTwice(m, Gone(a, del), ToSet(del(k)));
    HandedOne(k, m - Gone(a, del), del);
  }

  lemma HandedOne(k: Key, m: map<Key, Ptr>, del: Key -> seq<Key>)
    ensures Handed([k], m, del) == [DataOf(m, k)]
  {
    assert [k][1..] == [];
  }

  lemma NoneHanded(m: map<Key, Ptr>, del: Key -> seq<Key>)
    ensures Handed([], m, del) == []
  {
  }

  lemma KeysAround(u: Tree)
    requires u.Bin?
    ensures Keys(u) == Keys(u.left) + [u.key] + Keys(u.right)
  {
  }

  lemma NoneGone(u: Tree, del: Key -> seq<Key>)
    ensures Gone([], del) == {} && (u.Leaf? ==> Keys(u) == [])
  {
  }

  lemma GoneAt(k: Key, del: Key -> seq<Key>)
    ensures Gone([k], del) == ToSet(del(k))
  {
    forall x | x in del(k)
      ensures x in Gone([k], del)
    {
      assert x in del([k][0]);
    }
  }

  /** u_map_each: the callback sees every key the tree held at the start, once and in order, each with
      the data it still has, and when the outermost iteration returns the tree holds exactly the keys
      not deleted. */
  method Each(m: UMap, del: Key -> seq<Key>) returns (visited: seq<Key>, data: seq<Ptr>)
    requires m.Valid()
    modifies m, N.Nodes(m.t)
    ensures m.Valid() && m.iterdepth == old(m.iterdepth) && visited == Keys(old(m.t))
    ensures m.M == old(m.M) - Gone(visited, del) && data == Handed(visited, old(m.M), del)
    ensures m.iterdepth == 0 ==> Models(m.t, m.M, {})
    ensures old(m.iterdepth) == 0 ==>
              (forall i, j :: 0 <= i < j < |visited| ==> visited[i] < visited[j]) &&
              (forall k :: k in visited <==> k in old(m.M))
  {
    hide Models, Gone, Keys, Handed, N.Rep, N.Distinct;
    assert m.Tied() && allocated(N.Nodes(m.t));
    assert old(m.iterdepth) == 0 ==> ToSet(m.pending) == {};
    if m.iterdepth == 0 {
      KeysOfMap(m.t, m.M);
    }
    m.BeginEach();
    RepLinked(m.root, m.t);
    visited, data := EachN(m, m.root, m.t, del);
    m.EndEach();
  }

  /* ---------- the queue ---------- */

  lemma InParts(l: seq<Entry>, e: Entry, r: seq<Entry>)
    ensures forall x :: x in l + [e] + r <==> x in l || x == e || x in r
  {
  }

  /** A node of the tree carries an entry of its walk. */
  lemma {:induction false} NodeEntry(p: Node?, t: Tree, n: Node)
    requires N.Rep(p, t) && n in N.Nodes(t)
    ensures Entry(n.key, n.data) in InOrder(t)
  {
    InParts(InOrder(t.left), Entry(t.key, t.data), InOrder(t.right));
    if n in N.Nodes(t.left) {
      NodeEntry(p.left, t.left, n);
    } else if n in N.Nodes(t.right) {
      NodeEntry(p.right, t.right, n);
    }
  }

  /** All keys below the queued vertices. */
  ghost function Queued(todo: seq<Tree>): multiset<Key> {
    if todo == [] then multiset{} else Queued(todo[..|todo| - 1]) + multiset(Keys(todo[|todo| - 1]))
  }

  lemma {:induction false} QueuedHead(todo: seq<Tree>)
    requires todo != []
    ensures Queued(todo) == multiset(Keys(todo[0])) + Queued(todo[1..])
  {
    hide Keys;
    var n := |todo| - 1;
    if n > 0 {
      QueuedHead(todo[..n]);
      assert todo[..n][1..] == todo[1..][..n - 1];
    }
  }

  lemma QueuedAdd(todo: seq<Tree>, u: Tree)
    ensures Queued(todo + [u]) == Queued(todo) + multiset(Keys(u))
  {
    assert (todo + [u])[..|todo|] == todo;
  }

  lemma KeysMultiset(u: Tree)
    requires u.Bin?
    ensures multiset(Keys(u)) == multiset(Keys(u.left)) + multiset{u.key} + multiset(Keys(u.right))
  {
  }

  /** A queued node is the root of a part of the tree. */
  ghost predicate Waiting(m: UMap, n: Node, u: Tree)
    reads m, N.Nodes(m.t)
  {
    u.Bin? && n == u.node && N.Nodes(u) <= N.Nodes(m.t) && Linked(u)
  }

  class EachState {
    var list: seq<Node>
    ghost var todo: seq<Tree>

    /** The queue holds the roots of subtrees not yet visited. */
    ghost predicate Open(m: UMap)
      reads this, m, N.Nodes(m.t)
    {
      m.Valid() && m.iterdepth > 0 && |list| == |todo| && forall i :: 0 <= i < |todo| ==> Waiting(m, list[i], todo[i])
    }

    constructor ()
    {
      list, todo := [], [];
    }

    /** u_map_each_start */
    method Start(m: UMap)
      requires m.Valid()
      modifies this, m`iterdepth, m`pending
      ensures Open(m) && m.iterdepth == old(m.iterdepth) + 1
      ensures Queued(todo) == multiset(Keys(m.t))
    {
      hide Models, N.Rep, N.Distinct, Linked, Keys, Queued;
      assert m.Tied() && allocated(N.Nodes(m.t));
      list, todo := [], [];
      NothingQueued(todo);
      m.BeginEach();
      RepLinked(m.root, m.t);
      TryQueue(m, m.root, m.t);
    }


    /** try_queue: null children are not queued. */
    method TryQueue(m: UMap, n: Node?, ghost u: Tree)
      requires Open(m) && Linked(u) && n == N.Root(u) && N.Nodes(u) <= N.Nodes(m.t)
      modifies this
      ensures Open(m) && Queued(todo) == old(Queued(todo)) + multiset(Keys(u))
    {
      hide Models, N.Nodes, N.Rep, N.Distinct, Linked, Keys, Queued, Wrap;
      assert m.Tied() && allocated(N.Nodes(m.t));
      assert n != null ==> Waiting(m, n, u);
      QueuedAdd(todo, u);
      NothingBelow(u);
      hide UMap.Valid, UMap.Tied, Waiting;
      if n != null {
        list, todo := list + [n], todo + [u];
      }
    }
  
    /** u_map_each_next: the head of the queue with the data it has now, NULL if an earlier pass
        deleted it; at the end the iteration closes. */
    method Next(m: UMap) returns (more: bool, k: Key, v: Ptr)
      requires Open(m)
      modifies this, m, N.Nodes(m.t)
      ensures more ==> Open(m) && m.M == old(m.M) && Kept(m)
      ensures more ==> old(Queued(todo)) == multiset{k} + Queued(todo)
      ensures more ==> v == DataOf(m.M, k)
      ensures !more ==> old(Queued(todo)) == multiset{} && m.Valid() && m.M == old(m.M)
      ensures !more ==> m.iterdepth == old(m.iterdepth) - 1 && (m.iterdepth == 0 ==> Models(m.t, m.M, {}))
      ensures N.Nodes(m.t) <= old(N.Nodes(m.t))
    {
      hide Models, N.Nodes, N.Rep, N.Distinct, Linked, Keys, Queued, DataOf;
      assert m.Tied() && allocated(N.Nodes(m.t));
      if list == [] {
        NothingQueued(todo);
        m.EndEach();
        return false, 0, NULL;
      }
      more := true;
      hide Waiting;
      k, v := Take(m);
    }

    /** The head of the queue, whose children are queued. */
    method Take(m: UMap) returns (k: Key, v: Ptr)
      requires Open(m) && list != []
      modifies this
      ensures Open(m) && old(Queued(todo)) == multiset{k} + Queued(todo) && v == DataOf(m.M, k)
    {
      hide Models, N.Nodes, N.Rep, N.Distinct, Linked, Keys, Queued, DataOf;
      assert m.Tied() && allocated(N.Nodes(m.t));
      ghost var u;
      var n;
      n, u := Dequeue(m);
      k, v := n.key, n.data;
      DataNow(m, n);
      KeysMultiset(u);
      hide UMap.Valid, UMap.Tied, Waiting;
      TryQueue(m, n.left, u.left);
      TryQueue(m, n.right, u.right);
    }

    /** try_dequeue */
    method Dequeue(m: UMap) returns (n: Node, ghost u: Tree)
      requires Open(m) && list != []
      modifies this
      ensures Open(m) && old(Queued(todo)) == multiset(Keys(u)) + Queued(todo)
      ensures u.Bin? && n == u.node && n.key == u.key && n in N.Nodes(m.t)
      ensures n.left == N.Root(u.left) && Linked(u.left) && N.Nodes(u.left) <= N.Nodes(m.t)
      ensures n.right == N.Root(u.right) && Linked(u.right) && N.Nodes(u.right) <= N.Nodes(m.t)
    {
      hide Models, N.Nodes, N.Rep, N.Distinct, Linked, Keys, Queued;
      assert m.Tied() && allocated(N.Nodes(m.t));
      n, u := list[0], todo[0];
      assert Waiting(m, list[0], todo[0]);
      LinkedParts(u);
      QueuedHead(todo);
      hide UMap.Valid, UMap.Tied, Waiting;
      list, todo := list[1..], todo[1..];
    }
  }

  lemma NothingBelow(u: Tree)
    ensures N.Root(u) == null <==> u.Leaf?
    ensures u.Leaf? ==> multiset(Keys(u)) == multiset{}
  {
  }

  lemma NothingQueued(todo: seq<Tree>)
    ensures Queued([]) == multiset{} && (todo == [] ==> Queued(todo) == multiset{})
  {
  }

  /** The U_MAP_EACH loop with a body that deletes: every key the tree held at the start is
      delivered exactly once, with the data it still has, and what is left of the map is what the body
      did not delete. */
  method ForEach(m: UMap, del: Key -> seq<Key>) returns (visited: seq<Key>, data: seq<Ptr>)
    requires m.Valid()
    modifies m, N.Nodes(m.t)
    ensures m.Valid() && m.iterdepth == old(m.iterdepth)
    ensures multiset(visited) == old(multiset(Keys(m.t)))
    ensures m.M == old(m.M) - Gone(visited, del) && data == Handed(visited, old(m.M), del)
    ensures m.iterdepth == 0 ==> Models(m.t, m.M, {})
  {
    hide Models, N.Nodes, N.Rep, N.Distinct, Linked, Keys, Queued, Gone, Wrap;
    assert m.Tied() && allocated(N.Nodes(m.t));
    var st := new EachState();
    assert m.Tied();
    st.Start(m);
    hide UMap.Valid, UMap.Tied, EachState.Open, ToSet, Handed, DataOf;
    visited, data := [], [];
    NoneGone(Leaf, del);
    NoneHanded(m.M, del);
    while true
      invariant fresh(st) && st.Open(m) && N.Nodes(m.t) == old(N.Nodes(m.t))
      invariant m.iterdepth == old(m.iterdepth) + 1
      invariant multiset(visited) + Queued(st.todo) == old(multiset(Keys(m.t)))
      invariant m.M == old(m.M) - Gone(visited, del) && data == Handed(visited, old(m.M), del)
      decreases |Queued(st.todo)|
    {
      var more, k, v := Pass(st, m, del);
      if !more {
        break;
      }
      GoneConcat(visited, [k], del);
      GoneAt(k, del);
      MinusTwice(old(m.M), Gone(visited, del), ToSet(del(k)));
      HandedConcat(visited, [k], old(m.M), del);
      HandedOne(k, old(m.M) - Gone(visited, del), del);
      visited, data := visited + [k], data + [v];
    }
  }

  /** One pass of the loop: the next key and the body. */
  method Pass(st: EachState, m: UMap, del: Key -> seq<Key>) returns (more: bool, k: Key, v: Ptr)
    requires st.Open(m)
    modifies st, m, N.Nodes(m.t)
    ensures more ==> st.Open(m) && m.M == old(m.M) - ToSet(del(k)) && m.iterdepth == old(m.iterdepth)
    ensures more ==> N.Nodes(m.t) == old(N.Nodes(m.t)) && v == DataOf(old(m.M), k)
    ensures more ==> old(Queued(st.todo)) == multiset{k} + Queued(st.todo)
    ensures !more ==> old(Queued(st.todo)) == multiset{} && m.Valid() && m.M == old(m.M)
    ensures !more ==> m.iterdepth == old(m.iterdepth) - 1 && (m.iterdepth == 0 ==> Models(m.t, m.M, {}))
    ensures N.Nodes(m.t) <= old(N.Nodes(m.t))
  {
    hide Models, N.Nodes, N.Rep, N.Distinct, Linked, Keys, Queued;
    more, k, v := st.Next(m);
    if more {
      assert m.Tied() && allocated(N.Nodes(m.t));
      label found:
      DeleteThese(m, del(k));
      forall i | 0 <= i < |st.todo|
        ensures Waiting(m, st.list[i], st.todo[i])
      {
        assert old@found(Waiting(m, st.list[i], st.todo[i]));
        assert N.Nodes(st.todo[i]) <= N.Nodes(m.t) && Linked(st.todo[i]);
      }
    }
  }

  lemma DataNow(m: UMap, n: Node)
    requires m.Valid() && n in N.Nodes(m.t)
    ensures n.data == DataOf(m.M, n.key)
  {
    NodeEntry(m.root, m.t, n);
  }
}
