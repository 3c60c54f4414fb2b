/** The AA tree of src/map.c as a function on trees. A Tree carries the identity of the node each
    of its vertices lives in, so that the rotations below can say which node ends up where; the
    in-place code in AaNodes.dfy is proved to do exactly this to the heap.

    Keys are addresses compared as integers, data are addresses with 0 for NULL. */
module AaTree {

  type Key = int
  type Ptr = nat
  const NULL: Ptr := 0

  class Node {
    var key: Key
    var data: Ptr
    var level: int
    var left: Node?
    var right: Node?

    constructor (key: Key, data: Ptr, level: int)
      ensures this.key == key && this.data == data && this.level == level
      ensures left == null && right == null
    {
      this.key, this.data, this.level, left, right := key, data, level, null, null;
    }
  }

  datatype Tree = Leaf | Bin(node: Node, left: Tree, key: Key, data: Ptr, level: int, right: Tree)

  /* ---------- what a tree means ---------- */

  datatype Entry = Entry(key: Key, data: Ptr)

  ghost function InOrder(t: Tree): seq<Entry> {
    if t.Leaf? then [] else InOrder(t.left) + [Entry(t.key, t.data)] + InOrder(t.right)
  }

  predicate Below(s: seq<Entry>, k: Key) {
    forall i :: 0 <= i < |s| ==> s[i].key < k
  }

  predicate Above(s: seq<Entry>, k: Key) {
    forall i :: 0 <= i < |s| ==> k < s[i].key
  }

  ghost predicate Sorted(s: seq<Entry>) {
    forall i, j :: 0 <= i < j < |s| ==> s[i].key < s[j].key
  }

  ghost predicate Bst(t: Tree) {
    Sorted(InOrder(t))
  }

  ghost function Size(t: Tree): nat {
    if t.Leaf? then 0 else Size(t.left) + 1 + Size(t.right)
  }

  /** A sorted walk splits at the root, and can be put together there. */
  lemma BstSplit(t: Tree)
    requires t.Bin?
    ensures Bst(t) <==> Bst(t.left) && Bst(t.right) && Below(InOrder(t.left), t.key) && Above(InOrder(t.right), t.key)
  {
    var l, x, r := InOrder(t.left), Entry(t.key, t.data), InOrder(t.right);
    var s := l + [x] + r;
    assert forall i :: 0 <= i < |l| ==> s[i] == l[i];
    assert s[|l|] == x;
    assert forall i :: 0 <= i < |r| ==> s[|l| + 1 + i] == r[i];
    if Bst(t) {
      forall i | 0 <= i < |l| ensures l[i].key < t.key { assert s[i].key < s[|l|].key; }
      forall i | 0 <= i < |r| ensures t.key < r[i].key { assert s[|l|].key < s[|l| + 1 + i].key; }
      forall i, j | 0 <= i < j < |r| ensures r[i].key < r[j].key {
        assert s[|l| + 1 + i].key < s[|l| + 1 + j].key;
      }
    }
  }

  /* ---------- rotations ---------- */

  ghost function Skew(t: Tree): Tree {
    if t.Bin? && t.left.Bin? && t.left.level == t.level then
      var m := t.left;
      m.(right := t.(left := m.right))
    else t
  }

  ghost function Split(t: Tree): Tree {
    if t.Bin? && t.right.Bin? && t.right.right.Bin? && t.level == t.right.right.level then
      var m := t.right;
      m.(left := t.(right := m.left), level := m.level + 1)
    else t
  }

  lemma SkewKeepsOrder(t: Tree)
    ensures InOrder(Skew(t)) == InOrder(t) && Size(Skew(t)) == Size(t)
    ensures t.Bin? ==> Skew(t).Bin?
  {
    if Skew(t) != t {
      var m := t.left;
      var u := t.(left := m.right);
      assert InOrder(u) == InOrder(m.right) + [Entry(t.key, t.data)] + InOrder(t.right);
    }
  }

  lemma SplitKeepsOrder(t: Tree)
    ensures InOrder(Split(t)) == InOrder(t) && Size(Split(t)) == Size(t)
    ensures t.Bin? ==> Split(t).Bin?
  {
    if Split(t) != t {
      var m := t.right;
      var u := t.(right := m.left);
      assert InOrder(u) == InOrder(t.left) + [Entry(t.key, t.data)] + InOrder(m.left);
    }
  }

  /* ---------- insertion ---------- */

  /** The sorted walk with one more entry. */
  ghost function Inserted(s: seq<Entry>, e: Entry): seq<Entry> {
    if s == [] then [e]
    else if s[0].key < e.key then [s[0]] + Inserted(s[1..], e)
    else [e] + s
  }

  lemma {:induction false} InsertedConcat(a: seq<Entry>, x: Entry, b: seq<Entry>, e: Entry)
    requires Below(a, x.key) && e.key != x.key
    ensures Inserted(a + [x] + b, e) ==
            if x.key < e.key then a + [x] + Inserted(b, e) else Inserted(a, e) + [x] + b
  {
    var s := a + [x] + b;
    if a == [] {
      assert s == [x] + b;
    } else {
      assert s[0] == a[0] && s[1..] == a[1..] + [x] + b;
      InsertedConcat(a[1..], x, b, e);
    }
  }

  /** aa_insert: descend to a leaf, hang the new node there, skew and split on the way back. */
  ghost function Insert(t: Tree, x: Tree): Tree
    requires x.Bin?
  {
    if t.Leaf? then x
    else Split(Skew(if t.key < x.key then t.(right := Insert(t.right, x)) else t.(left := Insert(t.left, x))))
  }

  predicate Absent(s: seq<Entry>, k: Key) {
    forall i :: 0 <= i < |s| ==> s[i].key != k
  }

  lemma AbsentParts(a: seq<Entry>, x: Entry, b: seq<Entry>, k: Key)
    requires Absent(a + [x] + b, k)
    ensures Absent(a, k) && x.key != k && Absent(b, k)
  {
    var s := a + [x] + b;
    assert s[|a|] == x;
    assert forall i :: 0 <= i < |a| ==> s[i] == a[i];
    assert forall i :: 0 <= i < |b| ==> s[|a| + 1 + i] == b[i];
  }

  /** Insertion puts exactly the new entry into the in-order walk, at its place. */
  lemma {:induction false} InsertWalk(t: Tree, x: Tree)
    requires Bst(t) && x.Bin? && x.left.Leaf? && x.right.Leaf? && Absent(InOrder(t), x.key)
    ensures InOrder(Insert(t, x)) == Inserted(InOrder(t), Entry(x.key, x.data))
    ensures Size(Insert(t, x)) == Size(t) + 1
  {
    if t.Bin? {
      hide Skew, Split, Inserted, Bst, Absent;
      var l, e, r := InOrder(t.left), Entry(t.key, t.data), InOrder(t.right);
      AbsentParts(l, e, r, x.key);
      BstSplit(t);
      InsertedConcat(l, e, r, Entry(x.key, x.data));
      var u;
      if t.key < x.key {
        InsertWalk(t.right, x);
        u := t.(right := Insert(t.right, x));
      } else {
        InsertWalk(t.left, x);
        u := t.(left := Insert(t.left, x));
      }
      SkewKeepsOrder(u);
      SplitKeepsOrder(Skew(u));
    } else {
      assert InOrder(x) == [Entry(x.key, x.data)];
    }
  }

  /** Inserting a new key keeps the walk sorted and adds just that entry. */
  lemma {:induction false} InsertedSorted(s: seq<Entry>, e: Entry)
    requires Sorted(s) && Absent(s, e.key)
    ensures Sorted(Inserted(s, e)) && |Inserted(s, e)| == |s| + 1
    ensures forall x :: x in Inserted(s, e) <==> x in s || x == e
  {
    if s != [] && s[0].key < e.key {
      var u := Inserted(s[1..], e);
      InsertedSorted(s[1..], e);
      assert s == [s[0]] + s[1..];
      forall j | 0 <= j < |u|
        ensures s[0].key < u[j].key
      {
        assert u[j] in u;
      }
    } else if s != [] {
      assert forall i :: 0 <= i < |s| ==> e.key < s[i].key;
    }
  }

  /* ---------- balance, for trees built by insertion ---------- */

  function Level(t: Tree): int {
    if t.Leaf? then 0 else t.level
  }

  /** The AA rules: a left child is one level down, a right child at most one, a right grandchild
      at least one; so a vertex above level 1 has two children. */
  predicate Aa(t: Tree) {
    t.Bin? ==>
      Aa(t.left) && Aa(t.right) &&
      Level(t.left) == t.level - 1 &&
      t.level - 1 <= Level(t.right) <= t.level &&
      (t.right.Bin? ==> Level(t.right.right) < t.level)
  }

  /** A horizontal right link. */
  predicate Double(t: Tree) {
    t.Bin? && Level(t.right) == t.level
  }

  /** How a tree may change by one insertion: it obeys the rules, and its level grows by at most
      one, only where there was a horizontal link, and then the new root has none. */
  predicate GrownFrom(u: Tree, t: Tree) {
    Aa(u) && u.Bin? &&
    (Level(u) == Level(t) || (Level(u) == Level(t) + 1 && (t.Leaf? || Double(t)) && !Double(u)))
  }

  lemma GrowLeft(t: Tree, l: Tree)
    requires t.Bin? && Aa(t) && t.level >= 1 && GrownFrom(l, t.left)
    ensures GrownFrom(Split(Skew(t.(left := l))), t)
  {
    var u := Skew(t.(left := l));
    if Level(l) == t.level {
      assert Aa(t.(left := l.right)) || Double(t);
      assert u.left == l.left && u.right == t.(left := l.right);
    }
  }

  lemma RightBelow(t: Tree, r: Tree)
    requires t.Bin? && Aa(t) && Aa(r) && Level(r) == t.level - 1
    ensures Aa(t.(right := r))
  {
  }

  lemma GrowRight(t: Tree, r: Tree)
    requires t.Bin? && Aa(t) && t.level >= 1 && GrownFrom(r, t.right)
    ensures GrownFrom(Split(Skew(t.(right := r))), t)
  {
    var u := t.(right := r);
    assert Skew(u) == u;
    if Level(r) == t.level && r.right.Bin? && r.right.level == t.level {
      assert Split(u) == r.(left := t.(right := r.left), level := r.level + 1);
      RightBelow(t, r.left);
    } else {
      assert Split(u) == u;
    }
  }

  /** Insertion keeps the rules. */
  lemma {:induction false} InsertBalanced(t: Tree, x: Tree)
    requires Aa(t) && Fresh(x)
    ensures GrownFrom(Insert(t, x), t)
  {
    if t.Bin? {
      LevelBounds(t.left);
      hide Aa, GrownFrom, Skew, Split;
      AaChildren(t);
      if t.key < x.key {
        InsertBalanced(t.right, x);
        GrowRight(t, Insert(t.right, x));
      } else {
        InsertBalanced(t.left, x);
        GrowLeft(t, Insert(t.left, x));
      }
    }
  }

  lemma AaChildren(t: Tree)
    requires Aa(t) && t.Bin?
    ensures Aa(t.left) && Aa(t.right) && Level(t.left) == t.level - 1
  {
  }

  ghost function Height(t: Tree): nat {
    if t.Leaf? then 0 else 1 + if Height(t.left) < Height(t.right) then Height(t.right) else Height(t.left)
  }

  function Pow2(n: nat): nat {
    if n == 0 then 1 else 2 * Pow2(n - 1)
  }

  /** The rules bound the height by the level and the level by the size. */
  lemma {:induction false} LevelBounds(t: Tree)
    requires Aa(t)
    ensures Level(t) >= 0 && Pow2(Level(t)) <= Size(t) + 1
    ensures Height(t) <= 2 * Level(t) - if t.Bin? && !Double(t) then 1 else 0
  {
    if t.Bin? {
      LevelBounds(t.left);
      LevelBounds(t.right);
      if Double(t) {
        Pow2Monotone(t.level - 1, t.level);
      }
    }
  }

  lemma {:induction false} Pow2Monotone(a: nat, b: nat)
    requires a <= b
    ensures Pow2(a) <= Pow2(b)
    decreases b - a
  {
    if a < b {
      Pow2Monotone(a, b - 1);
    }
  }

  /** A new vertex: no children, level 1. */
  predicate Fresh(x: Tree) {
    x.Bin? && x.left.Leaf? && x.right.Leaf? && x.level == 1
  }

  /** A run of insertions of new keys into the empty map. */
  ghost function InsertAll(xs: seq<Tree>): Tree
    requires forall i :: 0 <= i < |xs| ==> Fresh(xs[i])
  {
    if xs == [] then Leaf
    else
      assert Fresh(xs[|xs| - 1]);
      Insert(InsertAll(xs[..|xs| - 1]), xs[|xs| - 1])
  }

  /** Any run of n insertions gives a tree obeying the rules whose height is at most twice the
      binary logarithm of n + 1: m is that logarithm as soon as n + 1 < 2 to the m + 1. */
  lemma {:induction false} InsertOnlyHeight(xs: seq<Tree>, m: nat)
    requires forall i :: 0 <= i < |xs| ==> Fresh(xs[i])
    requires |xs| + 1 < Pow2(m + 1)
    ensures Aa(InsertAll(xs)) && Height(InsertAll(xs)) <= 2 * m
  {
    var t := InsertAll(xs);
    InsertAllBalanced(xs);
    LevelBounds(t);
    if t.Bin? && t.level > m {
      Pow2Monotone(m + 1, t.level);
    }
  }

  lemma {:induction false} InsertAllBalanced(xs: seq<Tree>)
    requires forall i :: 0 <= i < |xs| ==> Fresh(xs[i])
    ensures Aa(InsertAll(xs)) && Size(InsertAll(xs)) == |xs|
  {
    if xs != [] {
      var n := |xs| - 1;
      InsertAllBalanced(xs[..n]);
      InsertBalanced(InsertAll(xs[..n]), xs[n]);
      InsertSize(InsertAll(xs[..n]), xs[n]);
    }
  }

  lemma {:induction false} InsertSize(t: Tree, x: Tree)
    requires Fresh(x)
    ensures Size(Insert(t, x)) == Size(t) + 1
  {
    if t.Bin? {
      var u;
      if t.key < x.key {
        InsertSize(t.right, x);
        u := t.(right := Insert(t.right, x));
      } else {
        InsertSize(t.left, x);
        u := t.(left := Insert(t.left, x));
      }
      SkewKeepsOrder(u);
      SplitKeepsOrder(Skew(u));
    }
  }

  /* ---------- deletion ---------- */

  /** decrease_level: with one child missing the level of the other one counts. */
  ghost function DecreaseLevel(t: Tree): Tree
    requires t.Bin?
  {
    var l, r := t.left, t.right;
    var shouldBe := 1 + if l.Leaf? then (if r.Bin? then r.level else 0)
                        else if r.Leaf? then l.level
                        else if l.level < r.level then l.level else r.level;
    if shouldBe < t.level then
      t.(level := shouldBe, right := if r.Bin? && shouldBe < r.level then r.(level := shouldBe) else r)
    else t
  }

  /** The three skews and two splits after a deletion. */
  ghost function SkewRight(t: Tree): Tree
    requires t.Bin?
  {
    t.(right := Skew(t.right))
  }

  ghost function SkewRightRight(t: Tree): Tree
    requires t.Bin?
  {
    if t.right.Bin? then t.(right := t.right.(right := Skew(t.right.right))) else t
  }

  ghost function SplitRight(t: Tree): Tree
    requires t.Bin?
  {
    t.(right := Split(t.right))
  }

  ghost function Fixup(t: Tree): (u: Tree)
    requires t.Bin?
    ensures u.Bin?
  {
    FixupKeepsOrder(t);
    SplitRight(Split(SkewRightRight(SkewRight(Skew(DecreaseLevel(t))))))
  }

  lemma DecreaseKeepsOrder(t: Tree)
    requires t.Bin?
    ensures var a := DecreaseLevel(t); a.Bin? && InOrder(a) == InOrder(t) && Size(a) == Size(t)
  {
    var a := DecreaseLevel(t);
    assert a.left == t.left && a.node == t.node && a.key == t.key && a.data == t.data;
    assert InOrder(a.right) == InOrder(t.right) && Size(a.right) == Size(t.right);
  }

  lemma FixupKeepsOrder(t: Tree)
    requires t.Bin?
    ensures Skew(DecreaseLevel(t)).Bin?
    ensures var s := SkewRightRight(SkewRight(Skew(DecreaseLevel(t))));
            Split(s).Bin? && InOrder(SplitRight(Split(s))) == InOrder(t) && Size(SplitRight(Split(s))) == Size(t)
  {
    var a := DecreaseLevel(t);
    DecreaseKeepsOrder(t);
    SkewKeepsOrder(a);
    var b := Skew(a);
    SkewKeepsOrder(b.right);
    var c := SkewRight(b);
    assert InOrder(c) == InOrder(b) && Size(c) == Size(b);
    var d := SkewRightRight(c);
    if c.right.Bin? {
      SkewKeepsOrder(c.right.right);
      assert InOrder(d.right) == InOrder(c.right) && Size(d.right) == Size(c.right);
    }
    assert InOrder(d) == InOrder(c) && Size(d) == Size(c);
    SplitKeepsOrder(d);
    var e := Split(d);
    SplitKeepsOrder(e.right);
  }

  /** The leftmost and the rightmost vertex: what next() finds under a child. */
  ghost function First(t: Tree): Entry
    requires t.Bin?
  {
    if t.left.Leaf? then Entry(t.key, t.data) else First(t.left)
  }

  ghost function Last(t: Tree): Entry
    requires t.Bin?
  {
    if t.right.Leaf? then Entry(t.key, t.data) else Last(t.right)
  }

  /** That vertex with its key overwritten. */
  ghost function RenameFirst(t: Tree, k: Key): (u: Tree)
    requires t.Bin?
    ensures u.Bin? && Size(u) == Size(t)
    ensures InOrder(t) == [First(t)] + InOrder(t)[1..]
    ensures InOrder(u) == [Entry(k, First(t).data)] + InOrder(t)[1..]
  {
    if t.left.Leaf? then t.(key := k) else t.(left := RenameFirst(t.left, k))
  }

  ghost function RenameLast(t: Tree, k: Key): (u: Tree)
    requires t.Bin?
    ensures u.Bin? && Size(u) == Size(t)
    ensures InOrder(t) != [] && var n := |InOrder(t)| - 1;
            InOrder(t) == InOrder(t)[..n] + [Last(t)] && InOrder(u) == InOrder(t)[..n] + [Entry(k, Last(t).data)]
  {
    if t.right.Leaf? then t.(key := k) else t.(right := RenameLast(t.right, k))
  }

  /** aa_delete: a doomed vertex with children takes over its neighbour's key and data, the
      neighbour gets the doomed key, and the deletion goes on below. */
  ghost function Delete(t: Tree, k: Key): Tree
    decreases Size(t)
  {
    if t.Leaf? then Leaf
    else if t.key < k then Fixup(t.(right := Delete(t.right, k)))
    else if k < t.key then Fixup(t.(left := Delete(t.left, k)))
    else if t.left.Leaf? && t.right.Leaf? then Leaf
    else if t.left.Leaf? then
      Fixup(t.(key := First(t.right).key, data := First(t.right).data, right := Delete(RenameFirst(t.right, k), k)))
    else
      Fixup(t.(key := Last(t.left).key, data := Last(t.left).data, left := Delete(RenameLast(t.left, k), k)))
  }

  /** The walk without the entries of one key. */
  ghost function Removed(s: seq<Entry>, k: Key): seq<Entry> {
    if s == [] then [] else (if s[0].key == k then [] else [s[0]]) + Removed(s[1..], k)
  }

  lemma {:induction false} RemovedConcat(a: seq<Entry>, b: seq<Entry>, k: Key)
    ensures Removed(a + b, k) == Removed(a, k) + Removed(b, k)
  {
    if a == [] {
      assert a + b == b;
    } else {
      assert (a + b)[1..] == a[1..] + b;
      RemovedConcat(a[1..], b, k);
    }
  }

  lemma {:induction false} RemovedAbsent(s: seq<Entry>, k: Key)
    requires Absent(s, k)
    ensures Removed(s, k) == s
  {
    if s != [] {
      RemovedAbsent(s[1..], k);
      assert s == [s[0]] + s[1..];
    }
  }

  lemma RemovedAround(a: seq<Entry>, x: Entry, b: seq<Entry>, k: Key)
    ensures Removed(a + [x] + b, k) == Removed(a, k) + (if x.key == k then [] else [x]) + Removed(b, k)
  {
    RemovedConcat(a + [x], b, k);
    RemovedConcat(a, [x], k);
    assert Removed([x], k) == if x.key == k then [] else [x];
  }

  lemma ReplaceHead(s: seq<Entry>, e: Entry)
    requires s != [] && Sorted(s) && Above(s, e.key)
    ensures Sorted([e] + s[1..]) && Removed([e] + s[1..], e.key) == s[1..]
  {
    assert forall i :: 0 <= i < |s[1..]| ==> s[1..][i] == s[i + 1];
    RemovedConcat([e], s[1..], e.key);
    RemovedAbsent(s[1..], e.key);
  }

  lemma ReplaceLast(s: seq<Entry>, e: Entry)
    requires s != [] && Sorted(s) && Below(s, e.key)
    ensures Sorted(s[..|s| - 1] + [e]) && Removed(s[..|s| - 1] + [e], e.key) == s[..|s| - 1]
  {
    RemovedConcat(s[..|s| - 1], [e], e.key);
    RemovedAbsent(s[..|s| - 1], e.key);
  }

  /** Below a doomed root: the neighbour renamed to k keeps the subtree a search tree, and taking
      k out of it takes out the neighbour's entry. */
  lemma RenamedFirst(t: Tree, k: Key)
    requires t.Bin? && Bst(t) && Above(InOrder(t), k)
    ensures Bst(RenameFirst(t, k))
    ensures [First(t)] + Removed(InOrder(RenameFirst(t, k)), k) == InOrder(t)
  {
    hide RenameFirst, First, InOrder, Removed;
    var u := RenameFirst(t, k);
    ReplaceHead(InOrder(t), Entry(k, First(t).data));
  }

  lemma RenamedLast(t: Tree, k: Key)
    requires t.Bin? && Bst(t) && Below(InOrder(t), k)
    ensures Bst(RenameLast(t, k))
    ensures Removed(InOrder(RenameLast(t, k)), k) + [Last(t)] == InOrder(t)
  {
    hide RenameLast, Last, InOrder, Removed;
    var u := RenameLast(t, k);
    ReplaceLast(InOrder(t), Entry(k, Last(t).data));
  }

  /** Deletion takes exactly the entry of k out of the in-order walk, whatever the levels are and
      however often the key travelled down; every other key keeps its data and its place. */
  lemma {:induction false} DeleteWalk(t: Tree, k: Key)
    requires Bst(t)
    ensures InOrder(Delete(t, k)) == Removed(InOrder(t), k)
    decreases Size(t)
  {
    hide Fixup, RenameFirst, RenameLast, First, Last, Removed, Bst;
    if t.Leaf? {
      RemovedAbsent([], k);
    } else {
      BstSplit(t);
      var l, e, r := InOrder(t.left), Entry(t.key, t.data), InOrder(t.right);
      RemovedAround(l, e, r, k);
      if t.key < k {
        DeleteWalk(t.right, k);
        RemovedAbsent(l, k);
        FixupWalk(t.(right := Delete(t.right, k)));
      } else if k < t.key {
        DeleteWalk(t.left, k);
        RemovedAbsent(r, k);
        FixupWalk(t.(left := Delete(t.left, k)));
      } else {
        RemovedAbsent(l, k);
        RemovedAbsent(r, k);
        if t.left.Leaf? && t.right.Leaf? {
        } else if t.left.Leaf? {
          var f, u := First(t.right), RenameFirst(t.right, k);
          RenamedFirst(t.right, k);
          DeleteWalk(u, k);
          FixupWalk(t.(key := f.key, data := f.data, right := Delete(u, k)));
        } else {
          var f, u := Last(t.left), RenameLast(t.left, k);
          RenamedLast(t.left, k);
          DeleteWalk(u, k);
          FixupWalk(t.(key := f.key, data := f.data, left := Delete(u, k)));
        }
      }
    }
  }

  lemma FixupWalk(t: Tree)
    requires t.Bin?
    ensures InOrder(Fixup(t)) == InOrder(t.left) + [Entry(t.key, t.data)] + InOrder(t.right)
  {
    FixupKeepsOrder(t);
  }

  lemma RemovedAt(s: seq<Entry>, k: Key, i: nat)
    requires Sorted(s) && i < |s| && s[i].key == k
    ensures Removed(s, k) == s[..i] + s[i + 1..]
  {
    hide Removed;
    assert s == s[..i] + [s[i]] + s[i + 1..];
    RemovedAround(s[..i], s[i], s[i + 1..], k);
    RemovedAbsent(s[..i], k);
    RemovedAbsent(s[i + 1..], k);
  }

  /** What is left stays sorted; nothing of k remains and nothing else is lost. */
  lemma RemovedSorted(s: seq<Entry>, k: Key)
    requires Sorted(s)
    ensures Sorted(Removed(s, k))
    ensures forall x :: x in Removed(s, k) <==> x in s && x.key != k
    ensures |Removed(s, k)| == |s| - if Absent(s, k) then 0 else 1
  {
    hide Removed;
    if Absent(s, k) {
      RemovedAbsent(s, k);
    } else {
      var i :| 0 <= i < |s| && s[i].key == k;
      RemovedAt(s, k, i);
      Without(s, i);
    }
  }

  lemma Without(s: seq<Entry>, i: nat)
    requires Sorted(s) && i < |s|
    ensures Sorted(s[..i] + s[i + 1..])
    ensures forall x :: x in s[..i] + s[i + 1..] <==> x in s && x.key != s[i].key
  {
    var u := s[..i] + s[i + 1..];
    assert forall j :: 0 <= j < |u| ==> u[j] == if j < i then s[j] else s[j + 1];
    forall x | x in s && x.key != s[i].key
      ensures x in u
    {
      var j :| 0 <= j < |s| && s[j] == x;
      assert u[if j < i then j else j - 1] == x;
    }
  }
}
