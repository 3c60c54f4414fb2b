/** Whole runs of the registry of src/msg.c: modules register and unregister their commands in any
    order. Per name the registry holds just the list that a plain account of the run gives. */
module CommandRuns {
  import opened Commands

  /** The commands of every name, the latest first, and those that were ever registered. */
  datatype Plain = Plain(lists: map<string, seq<Cmd>>, loaded: set<Cmd>)

  ghost function Of(m: map<string, seq<Cmd>>, name: string): seq<Cmd> {
    if name in m then m[name] else []
  }

  ghost predicate Same(m: map<string, seq<Cmd>>, k: map<string, seq<Cmd>>) {
    forall n {:trigger Of(m, n)} {:trigger Of(k, n)} :: Of(m, n) == Of(k, n)
  }

  lemma SamePut(m: map<string, seq<Cmd>>, k: map<string, seq<Cmd>>, name: string, s: seq<Cmd>)
    requires Same(m, k)
    ensures Same(m[name := s], k[name := s])
  {
    var m', k' := m[name := s], k[name := s];
    forall n
      ensures Of(m', n) == Of(k', n)
    {
      assert Of(m, n) == Of(k, n);
    }
  }

  ghost predicate AllIn(m: map<string, seq<Cmd>>, pool: set<Cmd>) {
    forall n, i {:trigger Of(m, n)[i]} :: 0 <= i < |Of(m, n)| ==> Of(m, n)[i] in pool
  }

  lemma AllInPut(m: map<string, seq<Cmd>>, pool: set<Cmd>, name: string, s: seq<Cmd>)
    requires AllIn(m, pool) && forall i :: 0 <= i < |s| ==> s[i] in pool
    ensures AllIn(m[name := s], pool)
  {
    forall n, i {:trigger Of(m[name := s], n)[i]} | 0 <= i < |Of(m[name := s], n)|
      ensures Of(m[name := s], n)[i] in pool
    {
      assert n != name ==> Of(m[name := s], n) == Of(m, n);
    }
  }

  datatype Op = Reg(c: Cmd) | Unreg(c: Cmd)

  /** A command is taken if it was never registered and answers to no source that one of its name
      does. */
  ghost predicate Taken(p: Plain, c: Cmd) {
    c !in p.loaded && forall i :: 0 <= i < |Of(p.lists, c.name)| ==> !Overlap(Of(p.lists, c.name)[i].mask, c.mask)
  }

  ghost function Without(s: seq<Cmd>, c: Cmd): seq<Cmd> {
    if s == [] then [] else if s[0] == c then s[1..] else [s[0]] + Without(s[1..], c)
  }

  ghost function Step(p: Plain, op: Op): Plain {
    match op
    case Reg(c) => if Taken(p, c) then Plain(p.lists[c.name := Cons(c, Of(p.lists, c.name))], p.loaded + {c}) else p
    case Unreg(c) => p.(lists := p.lists[c.name := Without(Of(p.lists, c.name), c)])
  }

  ghost function AllSteps(p: Plain, ops: seq<Op>): Plain {
    if ops == [] then p else Step(AllSteps(p, ops[..|ops| - 1]), ops[|ops| - 1])
  }

  ghost predicate Marked(pool: set<Cmd>, loaded: set<Cmd>)
    reads pool`loaded
  {
    forall c :: c in pool ==> (c.loaded <==> c in loaded)
  }

  /** The registry holds just these lists, of commands of the pool, and the marks are as they should. */
  ghost predicate Agrees(r: Registry, pool: set<Cmd>, p: Plain)
    reads r, r.known, pool
  {
    r.Valid() && Same(r.chains, p.lists) && AllIn(r.chains, pool) && Marked(pool, p.loaded)
  }

  /** Where a command is in a list. */
  lemma {:induction false} WithoutIs(s: seq<Cmd>, c: Cmd, k: nat)
    requires k < |s| && s[k] == c && forall i, j :: 0 <= i < j < |s| ==> s[i] != s[j]
    ensures Without(s, c) == Drop(s, k)
  {
    if k > 0 {
      assert s[0] != s[k];
      WithoutIs(s[1..], c, k - 1);
    }
  }

  /** The head of a chain is one of the pool. */
  lemma Head(r: Registry, pool: set<Cmd>, name: string)
    requires r.Valid() && AllIn(r.chains, pool)
    ensures name in r.table ==> r.table[name] in pool
    ensures r.Of(name) == Of(r.chains, name)
  {
    r.OfName(name);
    if name in r.table {
      assert Of(r.chains, name)[0] in pool;
    }
  }

  /** What is registered is marked. */
  lemma FirstLoaded(r: Registry, c: Cmd, s: seq<Cmd>)
    requires r.Valid() && Of(r.chains, c.name) == Cons(c, s)
    ensures c.loaded
  {
    r.OfName(c.name);
    assert r.Of(c.name)[0] == c;
  }

  /** What u_cmd_reg checks. */
  ghost predicate Free(r: Registry, c: Cmd)
    reads r`chains, c`loaded
  {
    !c.loaded && forall i :: 0 <= i < |r.Of(c.name)| ==> !Overlap(r.Of(c.name)[i].mask, c.mask)
  }

  /** It is what the account says. */
  lemma TakenIs(r: Registry, pool: set<Cmd>, c: Cmd, p: Plain)
    requires Agrees(r, pool, p) && c in pool
    ensures Taken(p, c) <==> Free(r, c)
    ensures r.Of(c.name) == Of(r.chains, c.name) == Of(p.lists, c.name)
  {
    var s := Of(p.lists, c.name);
    assert Of(r.chains, c.name) == s && r.Of(c.name) == s;
    assert c.loaded <==> c in p.loaded;
    hide Overlap, Registry.Valid, AllIn, Of, Same, Marked;
  }

  /** u_cmd_reg, with the new chains as a map. */
  method Register(r: Registry, c: Cmd, ghost s: seq<Cmd>) returns (ok: bool)
    requires r.Valid() && s == r.Of(c.name)
    modifies r, c, Only(if c.name in r.table then r.table[c.name] else null)`prev
    ensures r.Valid() && ok == old(Free(r, c)) && c.loaded == (old(c.loaded) || ok)
    ensures r.chains == if ok then old(r.chains)[c.name := Cons(c, s)] else old(r.chains)
  {
    ghost var was := r.chains;
    hide Registry.Valid, Overlap, Cons;
    ok := r.Reg(c);
    if ok {
      Here(was, c.name, Cons(c, s));
      FirstLoaded(r, c, s);
    }
  }

  method DoReg(r: Registry, pool: set<Cmd>, c: Cmd, ghost p: Plain) returns (ok: bool)
    requires Agrees(r, pool, p) && c in pool
    modifies r, pool
    ensures Agrees(r, pool, Step(p, Reg(c))) && ok == Taken(p, c)
  {
    TakenIs(r, pool, c, p);
    Room(r, pool, c, p);
    hide Registry.Valid, Same, AllIn, Taken, Free, Cons, Of;
    ok := Register(r, c, Of(r.chains, c.name));
  }

  /** What putting the command in does to the lists. */
  lemma Room(r: Registry, pool: set<Cmd>, c: Cmd, p: Plain)
    requires Agrees(r, pool, p) && c in pool
    ensures c.name in r.table ==> r.table[c.name] in pool
    ensures var s := Cons(c, Of(r.chains, c.name));
            Same(r.chains[c.name := s], p.lists[c.name := s]) && AllIn(r.chains[c.name := s], pool)
  {
    Head(r, pool, c.name);
    hide Registry.Valid, Same, AllIn, Cons, Marked;
    SamePut(r.chains, p.lists, c.name, Cons(c, Of(r.chains, c.name)));
    ConsIn(r.chains, pool, c);
    AllInPut(r.chains, pool, c.name, Cons(c, Of(r.chains, c.name)));
  }

  lemma Here(m: map<string, seq<Cmd>>, name: string, s: seq<Cmd>)
    ensures Of(m[name := s], name) == s
  {
  }

  lemma ConsIn(m: map<string, seq<Cmd>>, pool: set<Cmd>, c: Cmd)
    requires AllIn(m, pool) && c in pool
    ensures forall i :: 0 <= i < |Cons(c, Of(m, c.name))| ==> Cons(c, Of(m, c.name))[i] in pool
  {
    var s := Of(m, c.name);
    forall i | 0 <= i < |Cons(c, s)|
      ensures Cons(c, s)[i] in pool
    {
      assert i > 0 ==> Cons(c, s)[i] == s[i - 1];
    }
  }

  /** What is known of a registered command. */
  lemma Registered(r: Registry, pool: set<Cmd>, c: Cmd) returns (k: nat)
    requires r.Valid() && AllIn(r.chains, pool) && c in Of(r.chains, c.name)
    ensures k < |r.Of(c.name)| && r.Of(c.name)[k] == c && r.Of(c.name) == Of(r.chains, c.name)
    ensures Only(c.next) + Only(c.prev) <= pool
    ensures Without(Of(r.chains, c.name), c) == Drop(Of(r.chains, c.name), k)
  {
    var s := r.Of(c.name);
    assert s == Of(r.chains, c.name);
    k :| 0 <= k < |s| && s[k] == c;
    r.OfName(c.name);
    hide Linked, Ranked, Disjoint, Registry.Valid, Drop, Without;
    Registry.Distinct(s, r.stamp);
    WithoutIs(s, c, k);
    NeighboursIn(s, k, pool);
  }

  lemma NeighboursIn(s: seq<Cmd>, k: nat, pool: set<Cmd>)
    requires Linked(s) && k < |s| && forall i :: 0 <= i < |s| ==> s[i] in pool
    ensures Only(s[k].next) + Only(s[k].prev) <= pool
  {
    assert s[k].next == At(s, k + 1) && s[k].prev == At(s, k - 1);
  }

  /** u_cmd_unreg, with the new chains as a map. */
  method Unregister(r: Registry, c: Cmd, ghost k: nat, ghost s: seq<Cmd>)
    requires r.Valid() && s == r.Of(c.name) && k < |s| && s[k] == c
    modifies r`chains, r`table, Only(c.next)`prev, Only(c.prev)`next
    ensures r.Valid() && forall n {:trigger Of(r.chains, n)} ::
      Of(r.chains, n) == if n == c.name then Drop(s, k) else Of(old(r.chains), n)
  {
    hide Registry.Valid, Drop;
    ghost var was := r.chains;
    r.Unreg(c, k);
    forall n
      ensures Of(r.chains, n) == if n == c.name then Drop(s, k) else Of(was, n)
    {
      assert r.Of(n) == Of(r.chains, n) && old(r.Of(n)) == Of(was, n);
    }
  }

  /** u_cmd_unreg, of a registered command. */
  method DoUnreg(r: Registry, pool: set<Cmd>, c: Cmd, ghost p: Plain)
    requires Agrees(r, pool, p) && c in pool && c in Of(p.lists, c.name)
    modifies r, pool
    ensures Agrees(r, pool, Step(p, Unreg(c)))
  {
    assert Of(r.chains, c.name) == Of(p.lists, c.name);
    ghost var k := Registered(r, pool, c);
    ghost var s, was := Of(r.chains, c.name), r.chains;
    hide Registry.Valid, Same, AllIn, Drop, Without, Of;
    Unregister(r, c, k, s);
    Dropped(was, r.chains, p.lists, c.name, k, pool);
  }

  lemma Dropped(was: map<string, seq<Cmd>>, now: map<string, seq<Cmd>>, lists: map<string, seq<Cmd>>, name: string, k: nat,
                pool: set<Cmd>)
    requires Same(was, lists) && AllIn(was, pool) && k < |Of(was, name)|
    requires forall n {:trigger Of(now, n)} :: Of(now, n) == if n == name then Drop(Of(was, name), k) else Of(was, n)
    ensures Same(now, lists[name := Drop(Of(was, name), k)]) && AllIn(now, pool)
  {
    hide Drop;
    var lists' := lists[name := Drop(Of(was, name), k)];
    forall n
      ensures Of(now, n) == Of(lists', n)
    {
      assert Of(was, n) == Of(lists, n);
    }
    DropIn(was, pool, name, k);
    forall n, i {:trigger Of(now, n)[i]} | 0 <= i < |Of(now, n)|
      ensures Of(now, n)[i] in pool
    {
      assert n != name ==> Of(was, n)[i] in pool;
    }
  }

  lemma DropIn(m: map<string, seq<Cmd>>, pool: set<Cmd>, name: string, k: nat)
    requires AllIn(m, pool) && k < |Of(m, name)|
    ensures forall i :: 0 <= i < |Drop(Of(m, name), k)| ==> Drop(Of(m, name), k)[i] in pool
  {
    var s := Of(m, name);
    forall i | 0 <= i < |Drop(s, k)|
      ensures Drop(s, k)[i] in pool
    {
      assert Drop(s, k)[i] == s[if i < k then i else i + 1];
    }
  }

  /* ---------- a run ---------- */

  /** A new registry and commands without a mark agree with an account of nothing. */
  lemma Begins(r: Registry, pool: set<Cmd>)
    requires r.Valid() && r.chains == map[] && forall c :: c in pool ==> !c.loaded
    ensures Agrees(r, pool, Plain(map[], {}))
  {
  }

  /** Commands of the pool only, and only registered ones are unregistered. */
  ghost predicate AllowedRun(p: Plain, pool: set<Cmd>, ops: seq<Op>) {
    forall k :: 0 <= k < |ops| ==> Allowed(AllSteps(p, ops[..k]), pool, ops[k])
  }

  ghost predicate Allowed(p: Plain, pool: set<Cmd>, op: Op) {
    op.c in pool && (op.Unreg? ==> op.c in Of(p.lists, op.c.name))
  }

  /** What the account answers: whether a command to be registered is taken. */
  ghost predicate Answer(p: Plain, op: Op) {
    op.Reg? ==> Taken(p, op.c)
  }

  ghost function Answers(p: Plain, ops: seq<Op>): seq<bool> {
    if ops == [] then []
    else
      var init := ops[..|ops| - 1];
      Answers(p, init) + [Answer(AllSteps(p, init), ops[|ops| - 1])]
  }

  lemma {:induction false} AnswerAt(p: Plain, ops: seq<Op>, k: nat)
    requires k < |ops|
    ensures |Answers(p, ops)| == |ops| && Answers(p, ops)[k] == Answer(AllSteps(p, ops[..k]), ops[k])
  {
    hide Answer, AllSteps;
    AnswersLength(p, ops);
    AnswersLength(p, ops[..|ops| - 1]);
    if k < |ops| - 1 {
      AnswerAt(p, ops[..|ops| - 1], k);
      assert ops[..|ops| - 1][..k] == ops[..k];
    }
  }

  lemma {:induction false} AnswersLength(p: Plain, ops: seq<Op>)
    ensures |Answers(p, ops)| == |ops|
  {
    if ops != [] {
      hide Answer, AllSteps;
      AnswersLength(p, ops[..|ops| - 1]);
    }
  }

  method Do(r: Registry, pool: set<Cmd>, op: Op, ghost p: Plain) returns (ok: bool)
    requires Agrees(r, pool, p) && Allowed(p, pool, op)
    modifies r, pool
    ensures Agrees(r, pool, Step(p, op)) && ok == Answer(p, op)
  {
    hide Agrees, Taken, Step, Of;
    ok := true;
    match op {
      case Reg(c) => ok := DoReg(r, pool, c, p);
      case Unreg(c) => DoUnreg(r, pool, c, p);
    }
  }

  lemma NextStep(p: Plain, ops: seq<Op>, i: nat)
    requires i < |ops|
    ensures AllSteps(p, ops[..i + 1]) == Step(AllSteps(p, ops[..i]), ops[i])
    ensures Answers(p, ops[..i + 1]) == Answers(p, ops[..i]) + [Answer(AllSteps(p, ops[..i]), ops[i])]
  {
    hide Step, Answer;
    assert ops[..i + 1][..i] == ops[..i];
  }

  /** In every run the registry takes and refuses what the plain account does, and holds its lists. */
  method Run(r: Registry, pool: set<Cmd>, ops: seq<Op>, ghost p: Plain) returns (oks: seq<bool>)
    requires Agrees(r, pool, p) && AllowedRun(p, pool, ops)
    modifies r, pool
    ensures Agrees(r, pool, AllSteps(p, ops)) && oks == Answers(p, ops)
  {
    oks := [];
    assert ops[..0] == [];
    for i := 0 to |ops|
      invariant Agrees(r, pool, AllSteps(p, ops[..i])) && oks == Answers(p, ops[..i])
    {
      NextStep(p, ops, i);
      assert Allowed(AllSteps(p, ops[..i]), pool, ops[i]);
      hide Agrees, Answer, Answers, Step, AllSteps, Allowed, AllowedRun;
      var ok := Do(r, pool, ops[i], AllSteps(p, ops[..i]));
      oks := oks + [ok];
    }
    assert ops[..|ops|] == ops;
  }

  /** A mark is never taken away. */
  lemma {:induction false} LoadedStays(p: Plain, ops: seq<Op>, i: nat, j: nat)
    requires i <= j <= |ops|
    ensures AllSteps(p, ops[..i]).loaded <= AllSteps(p, ops[..j]).loaded
  {
    if i < j {
      LoadedStays(p, ops, i, j - 1);
      assert ops[..j][..j - 1] == ops[..j - 1];
    }
  }

  /** So over any run a command is taken at most once, whatever is unregistered in between. */
  lemma TakenOnce(p: Plain, ops: seq<Op>, i: nat, j: nat)
    requires i < j < |ops| && ops[i].Reg? && ops[j] == ops[i] && Taken(AllSteps(p, ops[..i]), ops[i].c)
    ensures !Taken(AllSteps(p, ops[..j]), ops[j].c)
  {
    assert ops[..i + 1][..i] == ops[..i];
    LoadedStays(p, ops, i + 1, j);
  }
}
