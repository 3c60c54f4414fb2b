/** The in-place code of src/map.c: rotations that rewrite child pointers and levels, an insertion
    and a deletion that recurse through them, and the search loop. Each is proved to turn a heap
    that represents a tree into one that represents the tree AaTree computes. */
module AaNodes {
  import T = AaTree
  import opened AaTree

  /** The nodes a tree lives in. */
  ghost function Nodes(t: Tree): set<Node> {
    if t.Leaf? then {} else Nodes(t.left) + {t.node} + Nodes(t.right)
  }

  /** No node is in two places. */
  ghost predicate Distinct(t: Tree) {
    t.Bin? ==>
      Distinct(t.left) && Distinct(t.right) && Nodes(t.left) !! Nodes(t.right) &&
      t.node !in Nodes(t.left) && t.node !in Nodes(t.right)
  }

  /** The heap below `p` is the tree `t`. */
  ghost predicate Rep(p: Node?, t: Tree)
    reads Nodes(t)
  {
    if t.Leaf? then p == null
    else
      p == t.node && p.key == t.key && p.data == t.data && p.level == t.level &&
      Rep(p.left, t.left) && Rep(p.right, t.right)
  }

  /* ---------- the rotations keep the nodes ---------- */

  lemma SkewNodes(t: Tree)
    requires Distinct(t)
    ensures Distinct(T.Skew(t)) && Nodes(T.Skew(t)) == Nodes(t)
  {
  }

  lemma SplitNodes(t: Tree)
    requires Distinct(t)
    ensures Distinct(T.Split(t)) && Nodes(T.Split(t)) == Nodes(t)
  {
  }

  method Skew(n: Node?, ghost t: Tree) returns (m: Node?)
    requires Rep(n, t) && Distinct(t)
    modifies Nodes(t)
    ensures Rep(m, T.Skew(t)) && Distinct(T.Skew(t)) && Nodes(T.Skew(t)) == Nodes(t)
  {
    SkewNodes(t);
    if n == null {
      return null;
    }
    if n.left == null {
      return n;
    }
    if n.left.level == n.level {
      m := n.left;
      n.left := m.right;
      m.right := n;
      return m;
    }
    return n;
  }

  method Split(n: Node?, ghost t: Tree) returns (m: Node?)
    requires Rep(n, t) && Distinct(t)
    modifies Nodes(t)
    ensures Rep(m, T.Split(t)) && Distinct(T.Split(t)) && Nodes(T.Split(t)) == Nodes(t)
  {
    SplitNodes(t);
    if n == null {
      return null;
    }
    assert Rep(n.right, t.right);
    assert n.right != null ==> Rep(n.right.left, t.right.left) && Rep(n.right.right, t.right.right);
    if n.right == null || n.right.right == null {
      return n;
    }
    if n.level == n.right.right.level {
      m := n.right;
      n.right := m.left;
      m.left := n;
      m.level := m.level + 1;
      return m;
    }
    return n;
  }

  /* ---------- insertion ---------- */

  lemma {:induction false} InsertNodes(t: Tree, x: Tree)
    requires Distinct(t) && Distinct(x) && x.Bin? && Nodes(x) !! Nodes(t)
    ensures Distinct(T.Insert(t, x)) && Nodes(T.Insert(t, x)) == Nodes(t) + Nodes(x)
  {
    if t.Bin? {
      var u;
      if t.key < x.key {
        InsertNodes(t.right, x);
        u := t.(right := T.Insert(t.right, x));
      } else {
        InsertNodes(t.left, x);
        u := t.(left := T.Insert(t.left, x));
      }
      SkewNodes(u);
      SplitNodes(T.Skew(u));
    }
  }

  method InsertInRight(tree: Node, n: Node, ghost t: Tree, ghost x: Tree)
    requires Rep(tree, t) && Distinct(t)
    requires x.Bin? && x.left.Leaf? && x.right.Leaf? && Rep(n, x) && n !in Nodes(t)
    modifies Nodes(t) + {n}
    ensures var u := t.(right := T.Insert(t.right, x)); Rep(tree, u) && Distinct(u) && Nodes(u) == Nodes(t) + {n}
    decreases t, 0
  {
    hide T.Insert;
    InsertNodes(t.right, x);
    assert Rep(tree.left, t.left) && allocated(Nodes(t.left));
    var c := Insert(tree.right, n, t.right, x);
    assert Rep(tree.left, t.left);
    tree.right := c;
  }

  method InsertInLeft(tree: Node, n: Node, ghost t: Tree, ghost x: Tree)
    requires Rep(tree, t) && Distinct(t)
    requires x.Bin? && x.left.Leaf? && x.right.Leaf? && Rep(n, x) && n !in Nodes(t)
    modifies Nodes(t) + {n}
    ensures var u := t.(left := T.Insert(t.left, x)); Rep(tree, u) && Distinct(u) && Nodes(u) == Nodes(t) + {n}
    decreases t, 0
  {
    hide T.Insert;
    InsertNodes(t.left, x);
    assert Rep(tree.right, t.right) && allocated(Nodes(t.right));
    var c := Insert(tree.left, n, t.left, x);
    assert Rep(tree.right, t.right);
    tree.left := c;
  }

  method Insert(tree: Node?, n: Node, ghost t: Tree, ghost x: Tree) returns (r: Node?)
    requires Rep(tree, t) && Distinct(t)
    requires x.Bin? && x.left.Leaf? && x.right.Leaf? && Rep(n, x) && n !in Nodes(t)
    modifies Nodes(t) + {n}
    ensures Rep(r, T.Insert(t, x)) && Distinct(T.Insert(t, x)) && Nodes(T.Insert(t, x)) == Nodes(t) + {n}
    decreases t, 1
  {
    if tree == null {
      return n;
    }
    hide T.Skew, T.Split, Distinct;
    ghost var u;
    if tree.key < n.key {
      InsertInRight(tree, n, t, x);
      u := t.(right := T.Insert(t.right, x));
    } else {
      InsertInLeft(tree, n, t, x);
      u := t.(left := T.Insert(t.left, x));
    }
    r := Skew(tree, u);
    r := Split(r, T.Skew(u));
  }

  /* ---------- search ---------- */

  ghost function Find(t: Tree, k: Key): (r: Tree)
    ensures r.Bin? ==> r.key == k
    ensures Nodes(r) <= Nodes(t)
  {
    if t.Leaf? || t.key == k then t
    else if t.key < k then Find(t.right, k) else Find(t.left, k)
  }

  /** dumb_fetch: the ordinary search loop. */
  method Fetch(root: Node?, k: Key, ghost t: Tree) returns (n: Node?)
    requires Rep(root, t)
    ensures n == null <==> Find(t, k).Leaf?
    ensures n != null ==> n == Find(t, k).node && n in Nodes(t) && n.key == k && n.data == Find(t, k).data
  {
    n := root;
    ghost var u := t;
    while n != null
      invariant Rep(n, u) && Nodes(u) <= Nodes(t)
      invariant Find(u, k) == Find(t, k)
      decreases u
    {
      if n.key == k {
        break;
      }
      if n.key < k {
        n, u := n.right, u.right;
      } else {
        n, u := n.left, u.left;
      }
    }
  }

  /** In a search tree the search finds the key when it is there. */
  lemma {:induction false} FindInOrder(t: Tree, k: Key)
    requires Bst(t)
    ensures Find(t, k).Leaf? <==> Absent(InOrder(t), k)
    ensures Find(t, k).Bin? ==> Entry(k, Find(t, k).data) in InOrder(t)
  {
    if t.Bin? {
      hide Bst;
      BstSplit(t);
      var l, e, r := InOrder(t.left), Entry(t.key, t.data), InOrder(t.right);
      AroundAbsent(l, e, r, k);
      if t.key < k {
        FindInOrder(t.right, k);
      } else if k < t.key {
        FindInOrder(t.left, k);
      } else {
        assert (l + [e] + r)[|l|] == e;
      }
    }
  }

  lemma AroundAbsent(l: seq<Entry>, e: Entry, r: seq<Entry>, k: Key)
    requires Below(l, e.key) && Above(r, e.key)
    ensures Absent(l + [e] + r, k) <==> if e.key < k then Absent(r, k) else if k < e.key then Absent(l, k) else false
  {
    var s := l + [e] + r;
    assert forall i :: 0 <= i < |l| ==> s[i] == l[i];
    assert s[|l|] == e;
    assert forall i :: 0 <= i < |r| ==> s[|l| + 1 + i] == r[i];
  }

  /* ---------- deletion ---------- */

  method DecreaseLevel(tree: Node, ghost t: Tree)
    requires Rep(tree, t) && Distinct(t)
    modifies Nodes(t)
    ensures Rep(tree, T.DecreaseLevel(t)) && Distinct(T.DecreaseLevel(t)) && Nodes(T.DecreaseLevel(t)) == Nodes(t)
  {
    var shouldBe;
    var l, r := tree.left, tree.right;
    if l == null {
      shouldBe := if r != null then r.level else 0;
    } else if r == null {
      shouldBe := l.level;
    } else {
      shouldBe := if l.level < r.level then l.level else r.level;
    }
    shouldBe := shouldBe + 1;
    if shouldBe < tree.level {
      tree.level := shouldBe;
      if r != null && shouldBe < r.level {
        r.level := shouldBe;
      }
    }
  }

  /** tree->child[RIGHT] = skew(tree->child[RIGHT]), and the two steps like it. */
  method SkewRight(tree: Node, ghost t: Tree)
    requires Rep(tree, t) && Distinct(t)
    modifies Nodes(t)
    ensures Rep(tree, T.SkewRight(t)) && Distinct(T.SkewRight(t)) && Nodes(T.SkewRight(t)) == Nodes(t)
  {
    assert Rep(tree.left, t.left) && allocated(Nodes(t.left));
    var c := Skew(tree.right, t.right);
    assert Rep(tree.left, t.left);
    tree.right := c;
  }

  method SkewRightRight(tree: Node, ghost t: Tree)
    requires Rep(tree, t) && Distinct(t)
    modifies Nodes(t)
    ensures Rep(tree, T.SkewRightRight(t)) && Distinct(T.SkewRightRight(t)) && Nodes(T.SkewRightRight(t)) == Nodes(t)
  {
    if tree.right != null {
      assert Rep(tree.left, t.left) && allocated(Nodes(t.left));
      SkewRight(tree.right, t.right);
      assert Rep(tree.left, t.left);
    }
  }

  method SplitRight(tree: Node, ghost t: Tree)
    requires Rep(tree, t) && Distinct(t)
    modifies Nodes(t)
    ensures Rep(tree, T.SplitRight(t)) && Distinct(T.SplitRight(t)) && Nodes(T.SplitRight(t)) == Nodes(t)
  {
    assert Rep(tree.left, t.left) && allocated(Nodes(t.left));
    var c := Split(tree.right, t.right);
    assert Rep(tree.left, t.left);
    tree.right := c;
  }

  /** decrease_level and the five rotations that end aa_delete. */
  method Fixup(tree: Node, ghost t: Tree) returns (r: Node)
    requires Rep(tree, t) && Distinct(t)
    modifies Nodes(t)
    ensures Rep(r, T.Fixup(t)) && Distinct(T.Fixup(t)) && Nodes(T.Fixup(t)) == Nodes(t)
  {
    hide T.DecreaseLevel, T.Skew, T.SkewRight, T.SkewRightRight, T.Split, T.SplitRight, Distinct, Nodes;
    FixupKeepsOrder(t);
    DecreaseLevel(tree, t);
    ghost var a := T.DecreaseLevel(t);
    r := Skew(tree, a);
    ghost var b := T.Skew(a);
    SkewRight(r, b);
    ghost var c := T.SkewRight(b);
    SkewRightRight(r, c);
    ghost var d := T.SkewRightRight(c);
    r := Split(r, d);
    SplitRight(r, T.Split(d));
  }

  /* next(): from a child as far as it goes the other way. */

  method NextRight(tree: Node, ghost t: Tree) returns (n: Node)
    requires Rep(tree, t) && t.right.Bin?
    ensures n == FirstNode(t.right) && n.key == First(t.right).key && n.data == First(t.right).data
    ensures n in Nodes(t.right)
  {
    n := tree.right;
    ghost var u := t.right;
    while n.left != null
      invariant u.Bin? && Rep(n, u) && Nodes(u) <= Nodes(t.right)
      invariant First(u) == First(t.right) && FirstNode(u) == FirstNode(t.right)
      decreases u
    {
      n, u := n.left, u.left;
    }
  }

  method NextLeft(tree: Node, ghost t: Tree) returns (n: Node)
    requires Rep(tree, t) && t.left.Bin?
    ensures n == LastNode(t.left) && n.key == Last(t.left).key && n.data == Last(t.left).data
    ensures n in Nodes(t.left)
  {
    n := tree.left;
    ghost var u := t.left;
    while n.right != null
      invariant u.Bin? && Rep(n, u) && Nodes(u) <= Nodes(t.left)
      invariant Last(u) == Last(t.left) && LastNode(u) == LastNode(t.left)
      decreases u
    {
      n, u := n.right, u.right;
    }
  }

  ghost function FirstNode(t: Tree): (n: Node)
    requires t.Bin?
    ensures n in Nodes(t)
  {
    if t.left.Leaf? then t.node else FirstNode(t.left)
  }

  ghost function LastNode(t: Tree): (n: Node)
    requires t.Bin?
    ensures n in Nodes(t)
  {
    if t.right.Leaf? then t.node else LastNode(t.right)
  }

  lemma {:induction false} RenameFirstNodes(t: Tree, k: Key)
    requires t.Bin? && Distinct(t)
    ensures Distinct(RenameFirst(t, k)) && Nodes(RenameFirst(t, k)) == Nodes(t)
  {
    if t.left.Bin? {
      RenameFirstNodes(t.left, k);
    }
  }

  lemma {:induction false} RenameLastNodes(t: Tree, k: Key)
    requires t.Bin? && Distinct(t)
    ensures Distinct(RenameLast(t, k)) && Nodes(RenameLast(t, k)) == Nodes(t)
  {
    if t.right.Bin? {
      RenameLastNodes(t.right, k);
    }
  }

  /* Overwriting one key. The recursive Rep is unfolded into a statement about every vertex, which
     a heap update transforms directly, and folded again into the renamed tree. */

  ghost function Vertices(t: Tree): set<Tree> {
    if t.Leaf? then {} else {t} + Vertices(t.left) + Vertices(t.right)
  }

  ghost function Root(t: Tree): Node? {
    if t.Leaf? then null else t.node
  }

  /** The node of v has the fields v says, but for the key of `m`, which is `k`. */
  ghost predicate Fits(v: Tree, m: Node?, k: Key)
    requires v.Bin?
    reads v.node
  {
    v.node.left == Root(v.left) && v.node.right == Root(v.right) &&
    v.node.data == v.data && v.node.level == v.level &&
    v.node.key == if v.node == m then k else v.key
  }

  lemma {:induction false} VerticesFit(p: Node?, t: Tree)
    requires Rep(p, t)
    ensures p == Root(t) && forall v :: v in Vertices(t) ==> v.Bin? && v.node in Nodes(t) && Fits(v, null, 0)
  {
    if t.Bin? {
      VerticesFit(p.left, t.left);
      VerticesFit(p.right, t.right);
    }
  }

  lemma {:induction false} FitUnchanged(t: Tree, m: Node, k: Key)
    requires m !in Nodes(t) && forall v :: v in Vertices(t) ==> v.Bin? && Fits(v, m, k)
    ensures Rep(Root(t), t)
  {
    if t.Bin? {
      assert t in Vertices(t);
      FitUnchanged(t.left, m, k);
      FitUnchanged(t.right, m, k);
    }
  }

  lemma {:induction false} FitRenamedFirst(t: Tree, k: Key)
    requires t.Bin? && Distinct(t) && forall v :: v in Vertices(t) ==> v.Bin? && Fits(v, FirstNode(t), k)
    ensures Rep(t.node, RenameFirst(t, k))
  {
    assert t in Vertices(t);
    if t.left.Bin? {
      FitRenamedFirst(t.left, k);
    }
    FitUnchanged(t.right, FirstNode(t), k);
  }

  lemma {:induction false} FitRenamedLast(t: Tree, k: Key)
    requires t.Bin? && Distinct(t) && forall v :: v in Vertices(t) ==> v.Bin? && Fits(v, LastNode(t), k)
    ensures Rep(t.node, RenameLast(t, k))
  {
    assert t in Vertices(t);
    if t.right.Bin? {
      FitRenamedLast(t.right, k);
    }
    FitUnchanged(t.left, LastNode(t), k);
  }

  /** n_key(n, k) on the neighbour found by next(). */
  method OverwriteFirst(p: Node, n: Node, k: Key, ghost t: Tree)
    requires t.Bin? && Rep(p, t) && Distinct(t) && n == FirstNode(t)
    modifies n`key
    ensures Rep(p, RenameFirst(t, k))
  {
    VerticesFit(p, t);
    n.key := k;
    assert forall v :: v in Vertices(t) ==> Fits(v, n, k);
    FitRenamedFirst(t, k);
  }

  method OverwriteLast(p: Node, n: Node, k: Key, ghost t: Tree)
    requires t.Bin? && Rep(p, t) && Distinct(t) && n == LastNode(t)
    modifies n`key
    ensures Rep(p, RenameLast(t, k))
  {
    VerticesFit(p, t);
    n.key := k;
    assert forall v :: v in Vertices(t) ==> Fits(v, n, k);
    FitRenamedLast(t, k);
  }

  /* ---------- aa_delete ---------- */

  lemma {:induction false} DeleteNodes(t: Tree, k: Key)
    requires Distinct(t)
    ensures Distinct(T.Delete(t, k)) && Nodes(T.Delete(t, k)) <= Nodes(t)
    decreases Size(t)
  {
    hide T.Fixup;
    if t.Bin? {
      if t.key < k {
        DeleteNodes(t.right, k);
        FixupNodes(t.(right := T.Delete(t.right, k)));
      } else if k < t.key {
        DeleteNodes(t.left, k);
        FixupNodes(t.(left := T.Delete(t.left, k)));
      } else if t.left.Leaf? && t.right.Leaf? {
      } else if t.left.Leaf? {
        RenameFirstNodes(t.right, k);
        DeleteNodes(RenameFirst(t.right, k), k);
        FixupNodes(t.(key := First(t.right).key, data := First(t.right).data,
                      right := T.Delete(RenameFirst(t.right, k), k)));
      } else {
        RenameLastNodes(t.left, k);
        DeleteNodes(RenameLast(t.left, k), k);
        FixupNodes(t.(key := Last(t.left).key, data := Last(t.left).data,
                      left := T.Delete(RenameLast(t.left, k), k)));
      }
    }
  }

  lemma FixupNodes(t: Tree)
    requires t.Bin? && Distinct(t)
    ensures Distinct(T.Fixup(t)) && Nodes(T.Fixup(t)) == Nodes(t)
  {
    var a := T.DecreaseLevel(t);
    assert Distinct(a) && Nodes(a) == Nodes(t);
    SkewNodes(a);
    var b := T.Skew(a);
    SkewNodes(b.right);
    var c := T.SkewRight(b);
    assert Distinct(c) && Nodes(c) == Nodes(b);
    if c.right.Bin? {
      SkewNodes(c.right.right);
    }
    var d := T.SkewRightRight(c);
    assert Distinct(d) && Nodes(d) == Nodes(c);
    SplitNodes(d);
    FixupKeepsOrder(t);
    SplitNodes(T.Split(d).right);
  }

  /** tree->child[RIGHT] = aa_delete(map, tree->child[RIGHT], k), and the other side. */
  method DeleteInRight(tree: Node, k: Key, ghost t: Tree)
    requires Rep(tree, t) && Distinct(t)
    modifies Nodes(t)
    ensures var u := t.(right := T.Delete(t.right, k)); Rep(tree, u) && Distinct(u) && Nodes(u) <= Nodes(t)
    decreases Size(t), 0
  {
    hide T.Delete;
    DeleteNodes(t.right, k);
    assert Rep(tree.left, t.left) && allocated(Nodes(t.left));
    var c := DeleteNode(tree.right, k, t.right);
    assert Rep(tree.left, t.left);
    tree.right := c;
  }

  method DeleteInLeft(tree: Node, k: Key, ghost t: Tree)
    requires Rep(tree, t) && Distinct(t)
    modifies Nodes(t)
    ensures var u := t.(left := T.Delete(t.left, k)); Rep(tree, u) && Distinct(u) && Nodes(u) <= Nodes(t)
    decreases Size(t), 0
  {
    hide T.Delete;
    DeleteNodes(t.left, k);
    assert Rep(tree.right, t.right) && allocated(Nodes(t.right));
    var c := DeleteNode(tree.left, k, t.left);
    assert Rep(tree.right, t.right);
    tree.left := c;
  }

  /** The doomed root as the neighbour's key and data, the neighbour with the doomed key. */
  ghost function SwappedFirst(t: Tree, k: Key): Tree
    requires t.Bin? && t.right.Bin?
  {
    t.(key := First(t.right).key, data := First(t.right).data, right := RenameFirst(t.right, k))
  }

  ghost function SwappedLast(t: Tree, k: Key): Tree
    requires t.Bin? && t.left.Bin?
  {
    t.(key := Last(t.left).key, data := Last(t.left).data, left := RenameLast(t.left, k))
  }

  method SwapFirst(tree: Node, k: Key, ghost t: Tree)
    requires Rep(tree, t) && Distinct(t) && t.right.Bin?
    modifies Nodes(t)
    ensures var u := SwappedFirst(t, k); Rep(tree, u) && Distinct(u) && Nodes(u) == Nodes(t) && Size(u) == Size(t)
  {
    hide RenameFirst, First;
    assert Rep(tree.left, t.left) && Rep(tree.right, t.right);
    assert allocated(Nodes(t.left)) && allocated(Nodes(t.right));
    RenameFirstNodes(t.right, k);
    var n := NextRight(tree, t);
    assert n != tree;
    tree.key := n.key;
    tree.data := n.data;
    assert Rep(tree.right, t.right) && Rep(tree.left, t.left);
    OverwriteFirst(tree.right, n, k, t.right);
    assert Rep(tree.left, t.left);
  }

  method SwapLast(tree: Node, k: Key, ghost t: Tree)
    requires Rep(tree, t) && Distinct(t) && t.left.Bin?
    modifies Nodes(t)
    ensures var u := SwappedLast(t, k); Rep(tree, u) && Distinct(u) && Nodes(u) == Nodes(t) && Size(u) == Size(t)
  {
    hide RenameLast, Last;
    assert Rep(tree.left, t.left) && Rep(tree.right, t.right);
    assert allocated(Nodes(t.left)) && allocated(Nodes(t.right));
    RenameLastNodes(t.left, k);
    var n := NextLeft(tree, t);
    assert n != tree;
    tree.key := n.key;
    tree.data := n.data;
    assert Rep(tree.right, t.right) && Rep(tree.left, t.left);
    OverwriteLast(tree.left, n, k, t.left);
    assert Rep(tree.right, t.right);
  }

  lemma {:induction false} NodesCount(t: Tree)
    requires Distinct(t)
    ensures |Nodes(t)| == |InOrder(t)|
  {
    if t.Bin? {
      NodesCount(t.left);
      NodesCount(t.right);
      Disjoint3(Nodes(t.left), t.node, Nodes(t.right));
    }
  }

  lemma Disjoint3(a: set<Node>, n: Node, b: set<Node>)
    requires a !! b && n !in a && n !in b
    ensures |a + {n} + b| == |a| + 1 + |b|
  {
    assert a + {n} + b == (a + {n}) + b && (a + {n}) !! b;
    assert |a + {n}| == |a| + 1;
  }

  /** From a search tree one node leaves when its key is deleted, and none when the key is not there. */
  lemma OneLeaves(t: Tree, k: Key)
    requires Bst(t) && Distinct(t) && Distinct(T.Delete(t, k)) && Nodes(T.Delete(t, k)) <= Nodes(t)
    ensures |Nodes(t) - Nodes(T.Delete(t, k))| == if Absent(InOrder(t), k) then 0 else 1
  {
    hide T.Delete, Removed, InOrder, Nodes, Distinct, Absent;
    DeleteWalk(t, k);
    RemovedSorted(InOrder(t), k);
    NodesCount(t);
    NodesCount(T.Delete(t, k));
    var a, b := Nodes(t), Nodes(T.Delete(t, k));
    assert a == b + (a - b);
  }

  /** aa_delete: the heap after it is the tree AaTree.Delete computes. */
  method DeleteNode(tree: Node?, k: Key, ghost t: Tree) returns (r: Node?)
    requires Rep(tree, t) && Distinct(t)
    modifies Nodes(t)
    ensures Rep(r, T.Delete(t, k)) && Distinct(T.Delete(t, k)) && Nodes(T.Delete(t, k)) <= Nodes(t)
    decreases Size(t), 1
  {
    hide T.Fixup, RenameFirst, RenameLast, First, Last;
    if tree == null {
      return null;
    }
    ghost var u;
    if tree.key != k {
      if tree.key < k {
        DeleteInRight(tree, k, t);
        u := t.(right := T.Delete(t.right, k));
      } else {
        DeleteInLeft(tree, k, t);
        u := t.(left := T.Delete(t.left, k));
      }
    } else {
      if tree.left == null && tree.right == null {
        return null;
      }
      if tree.left == null {
        SwapFirst(tree, k, t);
        u := SwappedFirst(t, k);
        DeleteInRight(tree, k, u);
        u := u.(right := T.Delete(u.right, k));
      } else {
        SwapLast(tree, k, t);
        u := SwappedLast(t, k);
        DeleteInLeft(tree, k, u);
        u := u.(left := T.Delete(u.left, k));
      }
    }
    r := Fixup(tree, u);
  }

  /** And from a search tree exactly one node leaves, the leaf in which the doomed key ended up, if the
      key was there. */
  method Delete(tree: Node?, k: Key, ghost t: Tree) returns (r: Node?)
    requires Rep(tree, t) && Distinct(t)
    modifies Nodes(t)
    ensures Rep(r, T.Delete(t, k)) && Distinct(T.Delete(t, k)) && Nodes(T.Delete(t, k)) <= Nodes(t)
    ensures Bst(t) ==> |Nodes(t) - Nodes(T.Delete(t, k))| == if Absent(InOrder(t), k) then 0 else 1
  {
    r := DeleteNode(tree, k, t);
    hide T.Delete, Rep, Distinct, Nodes, InOrder, Bst;
    if Bst(t) {
      OneLeaves(t, k);
    }
  }

  /* ---------- overwriting the data of one key ---------- */

  ghost function SetData(t: Tree, k: Key, d: Ptr): Tree {
    if t.Leaf? then Leaf
    else if t.key == k then t.(data := d)
    else if t.key < k then t.(right := SetData(t.right, k, d))
    else t.(left := SetData(t.left, k, d))
  }

  /** Exactly the entry of k changes. */
  ghost predicate Updated(s: seq<Entry>, s': seq<Entry>, k: Key, d: Ptr) {
    |s'| == |s| && forall i :: 0 <= i < |s| ==> s'[i] == if s[i].key == k then Entry(k, d) else s[i]
  }

  lemma UpdatedRight(l: seq<Entry>, e: Entry, r: seq<Entry>, r': seq<Entry>, k: Key, d: Ptr)
    requires Below(l, e.key) && e.key < k && Updated(r, r', k, d)
    ensures Updated(l + [e] + r, l + [e] + r', k, d)
  {
    var s, s' := l + [e] + r, l + [e] + r';
    forall i | 0 <= i < |s|
      ensures s'[i] == if s[i].key == k then Entry(k, d) else s[i]
    {
      assert i > |l| ==> s[i] == r[i - |l| - 1] && s'[i] == r'[i - |l| - 1];
    }
  }

  lemma UpdatedLeft(l: seq<Entry>, l': seq<Entry>, e: Entry, r: seq<Entry>, k: Key, d: Ptr)
    requires Above(r, e.key) && k < e.key && Updated(l, l', k, d)
    ensures Updated(l + [e] + r, l' + [e] + r, k, d)
  {
    var s, s' := l + [e] + r, l' + [e] + r;
    forall i | 0 <= i < |s|
      ensures s'[i] == if s[i].key == k then Entry(k, d) else s[i]
    {
      assert i > |l| ==> s[i] == r[i - |l| - 1] && s'[i] == r[i - |l| - 1];
    }
  }

  lemma UpdatedHere(l: seq<Entry>, e: Entry, r: seq<Entry>, d: Ptr)
    requires Below(l, e.key) && Above(r, e.key)
    ensures Updated(l + [e] + r, l + [Entry(e.key, d)] + r, e.key, d)
  {
  }

  lemma {:induction false} SetDataWalk(t: Tree, k: Key, d: Ptr)
    requires Bst(t)
    ensures Updated(InOrder(t), InOrder(SetData(t, k, d)), k, d)
  {
    if t.Bin? {
      BstSplit(t);
      hide Bst, Updated, Below, Above;
      var l, e, r := InOrder(t.left), Entry(t.key, t.data), InOrder(t.right);
      if t.key < k {
        SetDataWalk(t.right, k, d);
        UpdatedRight(l, e, r, InOrder(SetData(t.right, k, d)), k, d);
      } else if k < t.key {
        SetDataWalk(t.left, k, d);
        UpdatedLeft(l, InOrder(SetData(t.left, k, d)), e, r, k, d);
      } else {
        UpdatedHere(l, e, r, d);
      }
    }
  }

  lemma {:induction false} SetDataNodes(t: Tree, k: Key, d: Ptr)
    requires Distinct(t)
    ensures Distinct(SetData(t, k, d)) && Nodes(SetData(t, k, d)) == Nodes(t)
  {
    if t.Bin? {
      SetDataNodes(t.left, k, d);
      SetDataNodes(t.right, k, d);
    }
  }

  ghost predicate FitsData(v: Tree, m: Node, d: Ptr)
    requires v.Bin?
    reads v.node
  {
    v.node.left == Root(v.left) && v.node.right == Root(v.right) &&
    v.node.key == v.key && v.node.level == v.level &&
    v.node.data == if v.node == m then d else v.data
  }

  lemma {:induction false} FitSameData(t: Tree, m: Node, d: Ptr)
    requires m !in Nodes(t) && forall v :: v in Vertices(t) ==> v.Bin? && FitsData(v, m, d)
    ensures Rep(Root(t), t)
  {
    if t.Bin? {
      assert t in Vertices(t);
      FitSameData(t.left, m, d);
      FitSameData(t.right, m, d);
    }
  }

  lemma {:induction false} FitSetData(t: Tree, k: Key, d: Ptr)
    requires Distinct(t) && Find(t, k).Bin?
    requires forall v :: v in Vertices(t) ==> v.Bin? && FitsData(v, Find(t, k).node, d)
    ensures Rep(Root(t), SetData(t, k, d))
  {
    assert t in Vertices(t);
    var m := Find(t, k).node;
    if t.key < k {
      FitSetData(t.right, k, d);
      FitSameData(t.left, m, d);
    } else if k < t.key {
      FitSetData(t.left, k, d);
      FitSameData(t.right, m, d);
    } else {
      FitSameData(t.left, m, d);
      FitSameData(t.right, m, d);
    }
  }

  /** n->data = d on the node the search found. */
  method PutData(p: Node?, n: Node, k: Key, d: Ptr, ghost t: Tree)
    requires Rep(p, t) && Distinct(t) && Find(t, k).Bin? && n == Find(t, k).node
    modifies n`data
    ensures Rep(p, SetData(t, k, d)) && Distinct(SetData(t, k, d)) && Nodes(SetData(t, k, d)) == Nodes(t)
  {
    VerticesFit(p, t);
    SetDataNodes(t, k, d);
    n.data := d;
    assert forall v :: v in Vertices(t) ==> FitsData(v, n, d);
    FitSetData(t, k, d);
  }
}
