/** Whole runs of the map of src/map.c against a plain finite map: any interleaving of lookups,
    insertions, deletions and nested iterations that the source allows. */
module MapRuns {
  import opened Common
  import opened AaTree
  import opened TreeMap
  import N = AaNodes

  datatype Op = Get(k: Key) | Set(k: Key, d: Ptr) | Del(k: Key) | Begin | End

  /** The plain map, how many iterations are open, what they have put down for deletion, and how often
      a key was deleted that was already put down. */
  datatype Plain = Plain(m: map<Key, Ptr>, depth: nat, deleted: set<Key>, again: nat)

  /** u_map_set aborts inside an iteration, and an iteration ends only once. */
  predicate Allowed(p: Plain, op: Op) {
    match op
    case Set(_, _) => p.depth == 0
    case End => p.depth > 0
    case _ => true
  }

  function Step(p: Plain, op: Op): Plain
    requires Allowed(p, op)
  {
    match op
    case Get(_) => p
    case Set(k, d) => p.(m := p.m[k := d])
    case Del(k) =>
      p.(m := p.m - {k}, deleted := if p.depth > 0 && k in p.m then p.deleted + {k} else p.deleted,
         again := if k in p.deleted then p.again + 1 else p.again)
    case Begin => p.(depth := p.depth + 1)
    case End => p.(depth := p.depth - 1, deleted := if p.depth == 1 then {} else p.deleted)
  }

  /** What an operation answers, and the size the map reports after it: the number of keys, less one
      for each deletion of a key already put down, as a 32-bit counter. */
  datatype Reply = Reply(value: Ptr, size: int)

  function Answer(p: Plain, op: Op): Reply
    requires Allowed(p, op)
  {
    Reply(ValueOf(p, op), Wrap(|Step(p, op).m| - Step(p, op).again))
  }

  /** What a lookup or a deletion returns. */
  function ValueOf(p: Plain, op: Op): Ptr {
    if (op.Get? || op.Del?) && op.k in p.m then p.m[op.k] else NULL
  }

  predicate AllowedRun(p: Plain, ops: seq<Op>)
    decreases |ops|
  {
    ops == [] || (Allowed(p, ops[0]) && AllowedRun(Step(p, ops[0]), ops[1..]))
  }

  function Replies(p: Plain, ops: seq<Op>): seq<Reply>
    requires AllowedRun(p, ops)
    decreases |ops|
  {
    if ops == [] then [] else [Answer(p, ops[0])] + Replies(Step(p, ops[0]), ops[1..])
  }

  ghost predicate Agrees(m: UMap, p: Plain)
    reads m, N.Nodes(m.t)
  {
    m.Valid() && m.M == p.m && m.iterdepth == p.depth && ToSet(m.pending) == p.deleted && m.drift == p.again
  }

  /** The operation itself. */
  method Call(m: UMap, op: Op, ghost p: Plain) returns (value: Ptr)
    requires Agrees(m, p) && Allowed(p, op)
    modifies m, N.Nodes(m.t)
    ensures Agrees(m, Step(p, op)) && value == ValueOf(p, op)
    ensures forall n :: n in N.Nodes(m.t) && n !in old(N.Nodes(m.t)) ==> fresh(n)
  {
    assert m.Tied() && allocated(N.Nodes(m.t));
    hide Agrees, Step, N.Nodes, ValueOf;
    match op {
      case Get(k) => value := DoGet(m, k, p);
      case Set(k, d) => value := DoSet(m, k, d, p);
      case Del(k) => value := DoDel(m, k, p);
      case Begin => value := DoBegin(m, p);
      case End => value := DoEnd(m, p);
    }
  }

  method DoGet(m: UMap, k: Key, ghost p: Plain) returns (value: Ptr)
    requires Agrees(m, p)
    ensures Agrees(m, Step(p, Get(k))) && value == ValueOf(p, Get(k))
  {
    assert m.Tied() && allocated(N.Nodes(m.t));
    hide Agrees, N.Nodes;
    value := m.Get(k);
  }

  method DoSet(m: UMap, k: Key, d: Ptr, ghost p: Plain) returns (value: Ptr)
    requires Agrees(m, p) && Allowed(p, Set(k, d))
    modifies m, N.Nodes(m.t)
    ensures Agrees(m, Step(p, Set(k, d))) && value == ValueOf(p, Set(k, d))
    ensures forall n :: n in N.Nodes(m.t) && n !in old(N.Nodes(m.t)) ==> fresh(n)
  {
    NotOpen(m);
    hide UMap.Valid, ToSet, N.Nodes;
    var _ := m.Set(k, d);
    value := NULL;
  }

  method DoBegin(m: UMap, ghost p: Plain) returns (value: Ptr)
    requires Agrees(m, p)
    modifies m`iterdepth, m`pending
    ensures Agrees(m, Step(p, Begin)) && value == ValueOf(p, Begin)
  {
    hide UMap.Valid, ToSet, N.Nodes;
    m.BeginEach();
    value := NULL;
  }

  method DoEnd(m: UMap, ghost p: Plain) returns (value: Ptr)
    requires Agrees(m, p) && Allowed(p, End)
    modifies m, N.Nodes(m.t)
    ensures Agrees(m, Step(p, End)) && value == ValueOf(p, End)
    ensures N.Nodes(m.t) <= old(N.Nodes(m.t))
  {
    NotOpen(m);
    hide UMap.Valid, ToSet, N.Nodes;
    m.EndEach();
    value := NULL;
  }

  method Do(m: UMap, op: Op, ghost p: Plain) returns (r: Reply)
    requires Agrees(m, p) && Allowed(p, op)
    modifies m, N.Nodes(m.t)
    ensures Agrees(m, Step(p, op)) && r == Answer(p, op)
    ensures forall n :: n in N.Nodes(m.t) && n !in old(N.Nodes(m.t)) ==> fresh(n)
  {
    hide Step, N.Nodes, ValueOf, UMap.Valid, Wrap, ToSet;
    var value := Call(m, op, p);
    SizeIs(m);
    r := Reply(value, m.size);
  }

  lemma SizeIs(m: UMap)
    requires m.Valid()
    ensures m.size == Wrap(|m.M| - m.drift)
  {
  }

  /** Outside iterations nothing is put down. */
  lemma NotOpen(m: UMap)
    requires m.Valid()
    ensures m.iterdepth == 0 ==> m.pending == []
    ensures ToSet([]) == {}
  {
  }

  method DoDel(m: UMap, k: Key, ghost p: Plain) returns (value: Ptr)
    requires Agrees(m, p)
    modifies m, N.Nodes(m.t)
    ensures Agrees(m, Step(p, Del(k))) && value == ValueOf(p, Del(k))
    ensures N.Nodes(m.t) <= old(N.Nodes(m.t))
  {
    hide Models, N.Nodes, N.Rep, N.Distinct, ToSet;
    assert m.Tied() && allocated(N.Nodes(m.t));
    InSet(m.pending, k);
    ToSetAdd(m.pending, k);
    DeletedLive(m, k);
    assert m.pending + [] == m.pending;
    hide UMap.Valid, UMap.Tied;
    value := m.Del(k);
    AlreadyIn(p.deleted, k);
  }

  lemma AlreadyIn(s: set<Key>, k: Key)
    ensures k in s ==> s + {k} == s
  {
  }

  lemma DeletedLive(m: UMap, k: Key)
    requires m.Valid()
    ensures k in ToSet(m.pending) ==> k !in m.M
    ensures m.iterdepth == 0 ==> ToSet(m.pending) == {} && m.pending == []
  {
    ModelsFind(m.t, m.M, ToSet(m.pending), k);
  }

  /** At every moment of every run that does not abort the map answers what the plain map answers;
      the size it reports is that of the plain map less the repeated deletions; when the last
      iteration has closed, the tree holds exactly the plain map. */
  method Run(m: UMap, ops: seq<Op>, ghost p: Plain) returns (rs: seq<Reply>, ghost end: Plain)
    requires Agrees(m, p) && AllowedRun(p, ops)
    modifies m, N.Nodes(m.t)
    ensures rs == Replies(p, ops) && Agrees(m, end)
    ensures m.iterdepth == 0 ==> Models(m.t, end.m, {})
  {
    rs, end := [], p;
    ghost var nodes := N.Nodes(m.t);
    for i := 0 to |ops|
      invariant Agrees(m, end) && AllowedRun(end, ops[i..])
      invariant Replies(p, ops) == rs + Replies(end, ops[i..])
      invariant forall n :: n in N.Nodes(m.t) && n !in nodes ==> fresh(n)
    {
      hide Agrees, Step, Answer, Allowed, AllowedRun, Replies, N.Nodes;
      NextOp(end, ops, i);
      var r := Do(m, ops[i], end);
      Assoc(rs, [r], Replies(Step(end, ops[i]), ops[i + 1..]));
      rs, end := rs + [r], Step(end, ops[i]);
    }
    assert ops[|ops|..] == [];
    NotOpen(m);
  }

  lemma NextOp(p: Plain, ops: seq<Op>, i: nat)
    requires i < |ops| && AllowedRun(p, ops[i..])
    ensures Allowed(p, ops[i]) && AllowedRun(Step(p, ops[i]), ops[i + 1..])
    ensures Replies(p, ops[i..]) == [Answer(p, ops[i])] + Replies(Step(p, ops[i]), ops[i + 1..])
  {
    assert ops[i..][0] == ops[i] && ops[i..][1..] == ops[i + 1..];
  }

  /** The plain map after the first operations. */
  function After(p: Plain, ops: seq<Op>, i: nat): Plain
    requires AllowedRun(p, ops) && i <= |ops|
    decreases |ops|
  {
    if i == 0 then p else After(Step(p, ops[0]), ops[1..], i - 1)
  }

  /** In every run each reply's value is that of the plain map, and each size is the number of its keys
      if and only if no key has been deleted twice in an iteration until then. */
  lemma SizeExact(p: Plain, ops: seq<Op>, i: nat)
    requires AllowedRun(p, ops) && i < |ops| && |p.m| + |ops| < WORD && p.again + |ops| < WORD
    ensures |Replies(p, ops)| == |ops| && Allowed(After(p, ops, i), ops[i])
    ensures Replies(p, ops)[i].value == ValueOf(After(p, ops, i), ops[i])
    ensures Replies(p, ops)[i].size == |After(p, ops, i + 1).m| <==> After(p, ops, i + 1).again == 0
  {
    hide Replies, After, Step, Wrap, Allowed, AllowedRun;
    ReplyIs(p, ops, i);
    AfterBounds(p, ops, i + 1);
    SizeWraps(|After(p, ops, i + 1).m|, After(p, ops, i + 1).again);
  }

  lemma {:induction false} ReplyIs(p: Plain, ops: seq<Op>, i: nat)
    requires AllowedRun(p, ops) && i < |ops|
    ensures |Replies(p, ops)| == |ops| && Allowed(After(p, ops, i), ops[i])
    ensures Replies(p, ops)[i] == Answer(After(p, ops, i), ops[i])
    ensures After(p, ops, i + 1) == Step(After(p, ops, i), ops[i])
    decreases |ops|
  {
    hide Step, Answer, Allowed;
    RepliesLength(p, ops);
    if i > 0 {
      ReplyIs(Step(p, ops[0]), ops[1..], i - 1);
    }
  }

  lemma {:induction false} AfterBounds(p: Plain, ops: seq<Op>, i: nat)
    requires AllowedRun(p, ops) && i <= |ops|
    ensures |After(p, ops, i).m| <= |p.m| + i && After(p, ops, i).again <= p.again + i
    decreases |ops|
  {
    if i > 0 {
      hide Step, Allowed;
      StepBounds(p, ops[0]);
      AfterBounds(Step(p, ops[0]), ops[1..], i - 1);
    }
  }

  lemma {:induction false} RepliesLength(p: Plain, ops: seq<Op>)
    requires AllowedRun(p, ops)
    ensures |Replies(p, ops)| == |ops|
    decreases |ops|
  {
    if ops != [] {
      hide Step, Answer, Allowed;
      RepliesLength(Step(p, ops[0]), ops[1..]);
    }
  }

  lemma StepBounds(p: Plain, op: Op)
    requires Allowed(p, op)
    ensures |Step(p, op).m| <= |p.m| + 1 && Step(p, op).again <= p.again + 1
  {
    match op
    case Set(k, d) => WithKey(p.m, k, d);
    case Del(k) => WithoutKey(p.m, k);
    case _ =>
  }

  lemma SizeWraps(n: nat, again: nat)
    requires n < WORD && again < WORD
    ensures Wrap(n - again) == n <==> again == 0
  {
  }

  /** The condition on deletions is needed: every second deletion of a key in one iteration makes
      the size wrong. */
  method DeleteTwice(m: UMap, k: Key)
    requires m.Valid() && m.drift == 0 && m.iterdepth > 0 && k in m.M && |m.M| < WORD
    modifies m, N.Nodes(m.t)
    ensures m.Valid() && m.M == old(m.M) - {k} && m.size != |m.M|
  {
    hide Models, N.Nodes, N.Rep, N.Distinct, Wrap;
    assert m.Tied() && allocated(N.Nodes(m.t));
    WithoutKey(m.M, k);
    var d := m.Del(k);
    assert k in m.pending;
    d := m.Del(k);
    WithoutKey(m.M, k);
    m.SizeIsCount();
  }
}
