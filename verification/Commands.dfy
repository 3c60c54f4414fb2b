/** The command registry of src/msg.c: for every name a doubly linked chain of handlers whose source
    masks do not overlap, headed in a table. */
module Commands {
  import opened Common

  /** An unsigned long of source bits. */
  type Mask = bv64

  class Cmd {
    const name: string
    const mask: Mask
    var loaded: bool
    var next: Cmd?
    var prev: Cmd?
    /** When the command was put in; a chain has the latest first. */
    ghost var rank: nat

    constructor (name: string, mask: Mask)
      ensures this.name == name && this.mask == mask && !loaded && next == null && prev == null
    {
      this.name, this.mask, loaded, next, prev, rank := name, mask, false, null, null, 0;
    }
  }

  ghost function At(s: seq<Cmd>, i: int): Cmd? {
    if 0 <= i < |s| then s[i] else null
  }

  ghost function Cons(c: Cmd, s: seq<Cmd>): seq<Cmd> {
    [c] + s
  }

  /** A chain without its `k`-th command. */
  ghost function Drop(s: seq<Cmd>, k: nat): seq<Cmd>
    requires k < |s|
  {
    s[..k] + s[k + 1..]
  }

  lemma DropIn(s: seq<Cmd>, k: nat, head: Cmd, known: set<Cmd>)
    requires k < |s| && |s| > 1 && head == (if k == 0 then s[1] else s[0]) && forall i :: 0 <= i < |s| ==> s[i] in known
    ensures Drop(s, k) != [] && Drop(s, k)[0] == head && forall i :: 0 <= i < |Drop(s, k)| ==> Drop(s, k)[i] in known
  {
  }

  lemma Dropped(s: seq<Cmd>, k: nat)
    requires k < |s|
    ensures |Drop(s, k)| == |s| - 1
  {
  }

  ghost function Only(c: Cmd?): set<Cmd> {
    if c == null then {} else {c}
  }

  /** A well-formed doubly linked list. */
  ghost predicate Linked(s: seq<Cmd>)
    reads s`next, s`prev
  {
    (forall i {:trigger s[i].next} :: 0 <= i < |s| ==> s[i].next == At(s, i + 1)) &&
    (forall i {:trigger s[i].prev} :: 0 <= i < |s| ==> s[i].prev == At(s, i - 1))
  }

  ghost predicate Ranked(s: seq<Cmd>, stamp: nat)
    reads s`rank
  {
    (forall i, j :: 0 <= i < j < |s| ==> s[i].rank > s[j].rank) && forall i :: 0 <= i < |s| ==> s[i].rank < stamp
  }

  function Or(a: Mask, b: Mask): Mask {
    a | b
  }

  predicate Overlap(a: Mask, b: Mask) {
    a & b != 0
  }

  ghost predicate Disjoint(s: seq<Cmd>) {
    forall i, j :: 0 <= i < j < |s| ==> !Overlap(s[i].mask, s[j].mask)
  }

  ghost predicate Chain(s: seq<Cmd>, name: string, stamp: nat)
    reads s
  {
    s != [] && Linked(s) && Ranked(s, stamp) && Disjoint(s) && Named(s, name)
  }

  ghost predicate Named(s: seq<Cmd>, name: string)
    reads s`loaded
  {
    forall i :: 0 <= i < |s| ==> s[i].name == name && s[i].loaded
  }

  class Registry {
    /** all_commands */
    var table: map<string, Cmd>
    ghost var chains: map<string, seq<Cmd>>
    /** Every command that was ever registered. */
    ghost var known: set<Cmd>
    ghost var stamp: nat

    ghost predicate Listed()
      reads `table, `chains, `known
    {
      table.Keys == chains.Keys &&
      (forall n :: n in chains ==> chains[n] != [] && table[n] == chains[n][0]) &&
      forall n, i :: n in chains && 0 <= i < |chains[n]| ==> chains[n][i] in known
    }

    ghost predicate Valid()
      reads this, known
    {
      Listed() && forall n :: n in chains ==> Chain(chains[n], n, stamp)
    }

    /** The chain of a name, perhaps empty. */
    ghost function Of(name: string): seq<Cmd>
      reads `chains
    {
      if name in chains then chains[name] else []
    }

    constructor ()
      ensures Valid() && chains == map[]
    {
      table, chains, known, stamp := map[], map[], {}, 0;
    }

    lemma OfName(name: string)
      requires Valid()
      ensures Of(name) != [] ==> Chain(Of(name), name, stamp) && name in table && table[name] == Of(name)[0]
      ensures Of(name) == [] ==> name !in table
      ensures Named(Of(name), name)
      ensures (if name in table then table[name] else null) == At(Of(name), 0)
      ensures Linked(Of(name)) && Ranked(Of(name), stamp) && Disjoint(Of(name))
    {
    }

    /** The loop of reg_one: whether a registered command of that name answers to one of the
        sources. */
    method Overlaps(cmd: Cmd) returns (found: bool)
      requires Valid()
      ensures found <==> exists i :: 0 <= i < |Of(cmd.name)| && Overlap(Of(cmd.name)[i].mask, cmd.mask)
    {
      OfName(cmd.name);
      hide Ranked, Disjoint, Overlap;
      var cur := if cmd.name in table then table[cmd.name] else null;
      ghost var s, i := Of(cmd.name), 0;
      while cur != null
        invariant 0 <= i <= |s| && cur == At(s, i)
        invariant forall j :: 0 <= j < i ==> !Overlap(s[j].mask, cmd.mask)
        decreases |s| - i
      {
        if Overlap(cur.mask, cmd.mask) {
          return true;
        }
        cur := cur.next;
        i := i + 1;
      }
      return false;
    }

    /** A command goes before the head of a chain. */
    static method Push(cmd: Cmd, at: Cmd?, ghost s: seq<Cmd>)
      requires Linked(s) && at == At(s, 0) && forall i :: 0 <= i < |s| ==> s[i] != cmd && (i > 0 ==> s[i] != s[0])
      modifies cmd`loaded, cmd`next, cmd`prev, Only(at)`prev
      ensures Linked(Cons(cmd, s)) && cmd.loaded
    {
      cmd.loaded := true;
      cmd.next := at;
      cmd.prev := null;
      if at != null {
        at.prev := cmd;
      }
    }

    ghost method Rank(cmd: Cmd, s: seq<Cmd>)
      requires Valid() && Ranked(s, stamp) && forall i :: 0 <= i < |s| ==> s[i] != cmd
      requires forall n, i :: n in chains && 0 <= i < |chains[n]| ==> chains[n][i] != cmd
      modifies cmd`rank, this`stamp
      ensures Valid() && Ranked(Cons(cmd, s), stamp)
    {
      cmd.rank := stamp;
      forall n | n in chains
        ensures Chain(chains[n], n, stamp + 1)
      {
        Later(chains[n], n, stamp);
      }
      hide Chain;
      stamp := stamp + 1;
    }

    /** Neither the command nor the head of its chain is in another chain. */
    lemma Ready(cmd: Cmd, s: seq<Cmd>)
      requires Valid() && !cmd.loaded && s == Of(cmd.name)
      ensures Linked(s) && Ranked(s, stamp) && Disjoint(s) && Named(s, cmd.name)
      ensures forall i :: 0 <= i < |s| ==> s[i] != cmd && (i > 0 ==> s[i] != s[0])
      ensures forall n, i :: n in chains && 0 <= i < |chains[n]| ==> chains[n][i] != cmd
      ensures forall n, i :: n in chains && n != cmd.name && 0 <= i < |chains[n]| ==> chains[n][i] != At(s, 0)
    {
      hide Linked, Disjoint;
      OfName(cmd.name);
    }

    static lemma Whole(s: seq<Cmd>, cmd: Cmd, stamp: nat)
      requires Linked(Cons(cmd, s)) && Ranked(Cons(cmd, s), stamp) && Disjoint(Cons(cmd, s)) && cmd.loaded
      requires Named(s, cmd.name)
      ensures Chain(Cons(cmd, s), cmd.name, stamp)
    {
      hide Linked, Ranked, Disjoint;
    }

    /** What the new chain has to keep apart. */
    static lemma Apart(cmd: Cmd, s: seq<Cmd>)
      requires Disjoint(s) && forall i :: 0 <= i < |s| ==> !Overlap(s[i].mask, cmd.mask)
      ensures Disjoint(Cons(cmd, s))
    {
      OverlapBoth();
      hide Overlap;
    }

    /** The command and the chain behind it become one chain. */
    method Prepare(cmd: Cmd, at: Cmd?, ghost s: seq<Cmd>)
      requires Valid() && !cmd.loaded && s == Of(cmd.name) && at == At(s, 0)
      requires forall i :: 0 <= i < |s| ==> !Overlap(s[i].mask, cmd.mask)
      modifies this`stamp, cmd, Only(at)`prev
      ensures Listed() && forall n :: n in chains && n != cmd.name ==> Chain(chains[n], n, stamp)
      ensures Chain(Cons(cmd, s), cmd.name, stamp)
    {
      Ready(cmd, s);
      hide Overlap, Linked, Ranked, Disjoint, Listed, Cons, Named;
      Rank(cmd, s);
      hide Chain;
      Front(cmd, at, s, stamp);
    }

    static method Front(cmd: Cmd, at: Cmd?, ghost s: seq<Cmd>, ghost stamp: nat)
      requires Linked(s) && Ranked(Cons(cmd, s), stamp) && Disjoint(s) && Named(s, cmd.name) && at == At(s, 0)
      requires forall i :: 0 <= i < |s| ==> s[i] != cmd && (i > 0 ==> s[i] != s[0])
      requires forall i :: 0 <= i < |s| ==> !Overlap(s[i].mask, cmd.mask)
      modifies cmd`loaded, cmd`next, cmd`prev, Only(at)`prev
      ensures Chain(Cons(cmd, s), cmd.name, stamp)
    {
      hide Overlap, Linked, Ranked, Disjoint, Named, Chain;
      Push(cmd, at, s);
      Apart(cmd, s);
      Whole(s, cmd, stamp);
    }

    /** The part of reg_one that puts the command in. */
    method Add(cmd: Cmd)
      requires Valid() && !cmd.loaded
      requires forall i :: 0 <= i < |Of(cmd.name)| ==> !Overlap(Of(cmd.name)[i].mask, cmd.mask)
      modifies this, cmd, Only(if cmd.name in table then table[cmd.name] else null)`prev
      ensures Valid() && chains == old(chains)[cmd.name := Cons(cmd, old(Of(cmd.name)))]
    {
      OfName(cmd.name);
      hide Overlap, Chain, Listed, Of, Cons;
      Prepare(cmd, if cmd.name in table then table[cmd.name] else null, Of(cmd.name));
      Install(cmd);
    }

    /** reg_one: refused when the sources overlap, or when the command was ever registered before. */
    method Reg(cmd: Cmd) returns (ok: bool)
      requires Valid()
      modifies this, cmd, Only(if cmd.name in table then table[cmd.name] else null)`prev
      ensures Valid()
      ensures ok <==>
        !old(cmd.loaded) && forall i :: 0 <= i < |old(Of(cmd.name))| ==> !Overlap(old(Of(cmd.name))[i].mask, cmd.mask)
      ensures chains == if ok then old(chains)[cmd.name := Cons(cmd, old(Of(cmd.name)))] else old(chains)
      ensures !ok ==> unchanged(cmd)
    {
      hide Overlap, Chain;
      var found := Overlaps(cmd);
      if found || cmd.loaded {
        return false;
      }
      Add(cmd);
      return true;
    }

    /** All but one name is as it should be. */
    ghost predicate ListedBut(name: string)
      reads `table, `chains, `known
    {
      (forall n :: n != name ==> (n in table <==> n in chains)) &&
      (forall n :: n in chains && n != name ==> chains[n] != [] && table[n] == chains[n][0]) &&
      forall n, i :: n in chains && n != name && 0 <= i < |chains[n]| ==> chains[n][i] in known
    }

    lemma ButOne(name: string)
      requires Listed()
      ensures ListedBut(name) && forall i :: 0 <= i < |Of(name)| ==> Of(name)[i] in known
    {
    }

    ghost method SetChain(name: string, s: seq<Cmd>)
      requires ListedBut(name) && forall n :: n in chains && n != name ==> Chain(chains[n], n, stamp)
      requires s != [] && name in table && table[name] == s[0] && Chain(s, name, stamp)
      requires forall i :: 0 <= i < |s| ==> s[i] in known
      modifies this`chains
      ensures Valid() && chains == old(chains)[name := s]
      ensures Of(name) == s && forall n :: n != name ==> Of(n) == old(Of(n))
    {
      hide Chain;
      chains := chains[name := s];
    }

    ghost method ClearChain(name: string)
      requires ListedBut(name) && forall n :: n in chains && n != name ==> Chain(chains[n], n, stamp)
      requires name !in table
      modifies this`chains
      ensures Valid() && Of(name) == [] && forall n :: n != name ==> Of(n) == old(Of(n))
    {
      hide Chain;
      chains := chains - {name};
    }

    /** The new head goes into the table. */
    method Install(cmd: Cmd)
      requires Listed() && forall n :: n in chains && n != cmd.name ==> Chain(chains[n], n, stamp)
      requires Chain(Cons(cmd, Of(cmd.name)), cmd.name, stamp)
      modifies this`chains, this`known, this`table
      ensures Valid() && chains == old(chains)[cmd.name := Cons(cmd, old(Of(cmd.name)))]
    {
      hide Chain;
      ButOne(cmd.name);
      known := known + {cmd};
      table := table[cmd.name := cmd];
      SetChain(cmd.name, Cons(cmd, Of(cmd.name)));
    }

    lemma Later(s: seq<Cmd>, name: string, stamp: nat)
      requires Chain(s, name, stamp)
      ensures Chain(s, name, stamp + 1)
    {
    }

    /** The neighbours are linked past a command. */
    static method CutOut(cmd: Cmd, ghost s: seq<Cmd>, ghost k: nat)
      requires Linked(s) && k < |s| && s[k] == cmd && forall i, j :: 0 <= i < j < |s| ==> s[i] != s[j]
      modifies Only(cmd.next)`prev, Only(cmd.prev)`next
      ensures Linked(Drop(s, k)) && unchanged(cmd)
    {
      assert cmd.next == At(s, k + 1) && cmd.prev == At(s, k - 1) by {
        assert s[k].next == At(s, k + 1) && s[k].prev == At(s, k - 1);
      }
      if cmd.next != null {
        cmd.next.prev := cmd.prev;
      }
      if cmd.prev != null {
        cmd.prev.next := cmd.next;
      }
      ghost var t := Drop(s, k);
      forall i | 0 <= i < |t|
        ensures t[i].next == At(t, i + 1) && t[i].prev == At(t, i - 1)
      {
        var j := if i < k then i else i + 1;
        assert t[i] == s[j];
      }
    }

    static lemma StillChain(s: seq<Cmd>, k: nat, name: string, stamp: nat)
      requires Ranked(s, stamp) && Disjoint(s) && Named(s, name) && k < |s|
      ensures Ranked(Drop(s, k), stamp) && Disjoint(Drop(s, k)) && Named(Drop(s, k), name)
    {
      hide Overlap;
      var t := Drop(s, k);
      forall i, j | 0 <= i < j < |t|
        ensures t[i].rank > t[j].rank && !Overlap(t[i].mask, t[j].mask)
      {
        var m, n := if i < k then i else i + 1, if j < k then j else j + 1;
        assert t[i] == s[m] && t[j] == s[n];
      }
      forall i | 0 <= i < |t|
        ensures t[i].rank < stamp && t[i].name == name && t[i].loaded
      {
        assert t[i] == s[if i < k then i else i + 1];
      }
    }

    static lemma Distinct(s: seq<Cmd>, stamp: nat)
      requires Ranked(s, stamp)
      ensures forall i, j :: 0 <= i < j < |s| ==> s[i] != s[j]
    {
    }

    /** What is left of a chain is a chain. */
    static method Snip(cmd: Cmd, ghost s: seq<Cmd>, ghost k: nat, ghost stamp: nat)
      requires Chain(s, cmd.name, stamp) && k < |s| && s[k] == cmd
      modifies Only(cmd.next)`prev, Only(cmd.prev)`next
      ensures unchanged(cmd) && (Drop(s, k) == [] || Chain(Drop(s, k), cmd.name, stamp))
    {
      Distinct(s, stamp);
      StillChain(s, k, cmd.name, stamp);
      hide Overlap, Linked, Ranked, Disjoint, Named, Drop, At;
      CutOut(cmd, s, k);
    }

    /** The commands of the other names. */
    ghost function OtherCmds(name: string): set<Cmd>
      reads `chains
    {
      set n, i | n in chains && n != name && 0 <= i < |chains[n]| :: chains[n][i]
    }

    ghost predicate OtherChains(name: string)
      reads `chains, `stamp, OtherCmds(name)
    {
      forall n :: n in chains && n != name ==> Chain(chains[n], n, stamp)
    }

    /** What is known of a chain that a command is taken out of. */
    lemma Leaving(cmd: Cmd, s: seq<Cmd>, k: nat)
      requires Valid() && s == Of(cmd.name) && k < |s| && s[k] == cmd
      ensures Chain(s, cmd.name, stamp) && cmd.next == At(s, k + 1) && cmd.prev == At(s, k - 1)
      ensures OtherChains(cmd.name) && cmd.prev !in OtherCmds(cmd.name) && cmd.next !in OtherCmds(cmd.name)
    {
      hide Disjoint;
      OfName(cmd.name);
      assert s[k].next == At(s, k + 1) && s[k].prev == At(s, k - 1);
      forall c | c in OtherCmds(cmd.name)
        ensures c.name != cmd.name
      {
        var n, i :| n in chains && n != cmd.name && 0 <= i < |chains[n]| && chains[n][i] == c;
        assert Chain(chains[n], n, stamp);
      }
    }

    /** The command leaves its chain. */
    method TakeOut(cmd: Cmd, ghost s: seq<Cmd>, ghost k: nat)
      requires Valid() && s == Of(cmd.name) && k < |s| && s[k] == cmd
      modifies Only(cmd.next)`prev, Only(cmd.prev)`next
      ensures Listed() && forall n :: n in chains && n != cmd.name ==> Chain(chains[n], n, stamp)
      ensures Drop(s, k) == [] || Chain(Drop(s, k), cmd.name, stamp)
      ensures cmd.next == At(s, k + 1) && cmd.prev == At(s, k - 1)
    {
      Leaving(cmd, s, k);
      assert Listed();
      hide Chain, Listed, At, Drop, Of, Valid, OtherCmds, OtherChains;
      Snip(cmd, s, k, stamp);
      EachOther(cmd.name);
    }

    lemma EachOther(name: string)
      requires OtherChains(name)
      ensures forall n :: n in chains && n != name ==> Chain(chains[n], n, stamp)
    {
    }

    /** The table after a command has left its chain. */
    method Retable(cmd: Cmd, ghost s: seq<Cmd>, ghost k: nat)
      requires Listed() && s == Of(cmd.name) && k < |s| && cmd.next == At(s, k + 1) && cmd.prev == At(s, k - 1)
      modifies this`table
      ensures ListedBut(cmd.name) && forall i :: 0 <= i < |s| ==> s[i] in known
      ensures if |s| == 1 then cmd.name !in table
              else cmd.name in table && table[cmd.name] == if k == 0 then s[1] else s[0]
    {
      ButOne(cmd.name);
      assert cmd.name in table && table[cmd.name] == s[0];
      if cmd.prev == null {
        table := table - {cmd.name};
        if cmd.next != null {
          table := table[cmd.name := cmd.next];
        }
      }
    }

    method Withdraw(cmd: Cmd, ghost s: seq<Cmd>, ghost k: nat)
      requires Listed() && forall n :: n in chains && n != cmd.name ==> Chain(chains[n], n, stamp)
      requires s == Of(cmd.name) && k < |s| && cmd.next == At(s, k + 1) && cmd.prev == At(s, k - 1)
      requires Drop(s, k) == [] || Chain(Drop(s, k), cmd.name, stamp)
      modifies this`chains, this`table
      ensures Valid() && Of(cmd.name) == Drop(s, k) && forall n :: n != cmd.name ==> Of(n) == old(Of(n))
    {
      Dropped(s, k);
      hide Chain, Drop, Listed, ListedBut, Of, At;
      Retable(cmd, s, k);
      if |s| == 1 {
        ClearChain(cmd.name);
      } else {
        DropIn(s, k, table[cmd.name], known);
        SetChain(cmd.name, Drop(s, k));
      }
    }

    /** u_cmd_unreg, of a registered command. It stays marked as loaded. */
    method Unreg(cmd: Cmd, ghost k: nat)
      requires Valid() && k < |Of(cmd.name)| && Of(cmd.name)[k] == cmd
      modifies this`chains, this`table, Only(cmd.next)`prev, Only(cmd.prev)`next
      ensures Valid() && Of(cmd.name) == Drop(old(Of(cmd.name)), k)
      ensures forall n :: n != cmd.name ==> Of(n) == old(Of(n))
    {
      ghost var s := Of(cmd.name);
      hide Chain, Listed, Drop, Of;
      TakeOut(cmd, s, k);
      Withdraw(cmd, s, k);
    }

    /** The loop of find_command: the first of the chain that answers to the sources, and what the
        ones up to it answer to. */
    static method Walk(head: Cmd?, mask: Mask, ghost s: seq<Cmd>) returns (cmd: Cmd?, tested: Mask, ghost i: nat)
      requires Linked(s) && head == At(s, 0)
      ensures i <= |s| && cmd == At(s, i) && forall j :: 0 <= j < i ==> !Overlap(s[j].mask, mask)
      ensures cmd != null ==> Overlap(cmd.mask, mask)
      ensures tested == Union(s[..if i < |s| then i + 1 else i])
    {
      UnionNone(s);
      hide Overlap, Or, Union;
      cmd, tested, i := head, 0, 0;
      while cmd != null
        invariant 0 <= i <= |s| && cmd == At(s, i) && tested == Union(s[..i])
        invariant forall j :: 0 <= j < i ==> !Overlap(s[j].mask, mask)
        decreases |s| - i
      {
        UnionNext(s, i);
        tested := Or(tested, cmd.mask);
        if Overlap(cmd.mask, mask) {
          return;
        }
        cmd := cmd.next;
        i := i + 1;
      }
    }

    /** The walk over the chain of a name. */
    method Among(name: string, mask: Mask) returns (cmd: Cmd?, tested: Mask)
      requires Valid()
      ensures if cmd != null then cmd in Of(name) && Overlap(cmd.mask, mask)
        else tested == Union(Of(name)) && forall i :: 0 <= i < |Of(name)| ==> !Overlap(Of(name)[i].mask, mask)
    {
      OfName(name);
      hide Ranked, Disjoint, Overlap, Union, Chain;
      ghost var i;
      ghost var s := Of(name);
      cmd, tested, i := Walk(if name in table then table[name] else null, mask, s);
      if cmd == null {
        assert s[..i] == s;
      } else {
        assert s[i] in s;
      }
    }

    /** The name a command is looked up by: all numerics have one. */
    static method LookUpAs(command: string) returns (name: string)
      ensures name ==
        if |command| == 3 && forall i :: 0 <= i < 3 ==> '0' <= command[i] <= '9' then "###" else command
    {
      name := command;
      if |command| == 3 && IsDigit(command[0]) && IsDigit(command[1]) && IsDigit(command[2]) {
        name := "###";
      }
    }

    /** find_command. A numeric is looked up as ###; nobody can ask for that name itself. When
        nothing is found, `tested` tells what sources the commands of that name have. */
    method Find(command: string, mask: Mask) returns (cmd: Cmd?, tested: Mask)
      requires Valid()
      ensures var name :=
          if |command| == 3 && forall i :: 0 <= i < 3 ==> '0' <= command[i] <= '9' then "###" else command;
        if command == "###" then cmd == null && tested == 0
        else if cmd != null then cmd in Of(name) && Overlap(cmd.mask, mask)
        else tested == Union(Of(name)) && forall i :: 0 <= i < |Of(name)| ==> !Overlap(Of(name)[i].mask, mask)
    {
      if command == "###" {
        return null, 0;
      }
      hide Overlap, Union, Of, Valid;
      var name := LookUpAs(command);
      cmd, tested := Among(name, mask);
    }

    /** A command that was unregistered cannot be registered again: nothing ever clears its mark. */
    method RegAgain(cmd: Cmd, ghost k: nat) returns (ok: bool)
      requires Valid() && k < |Of(cmd.name)| && Of(cmd.name)[k] == cmd
      modifies this, cmd, known
      ensures Valid() && !ok && Of(cmd.name) == Drop(old(Of(cmd.name)), k)
    {
      OfName(cmd.name);
      Leaving(cmd, Of(cmd.name), k);
      Neighbours(cmd, k);
      hide Chain, Listed, Linked, Ranked, Disjoint, Drop;
      assert cmd.loaded;
      Unreg(cmd, k);
      HeadKnown(cmd.name);
      ok := Reg(cmd);
    }

    lemma Neighbours(cmd: Cmd, k: nat)
      requires Valid() && k < |Of(cmd.name)| && Of(cmd.name)[k] == cmd
      ensures Only(cmd.next) + Only(cmd.prev) <= known
    {
      hide Ranked, Disjoint;
      ghost var s := Of(cmd.name);
      assert s[k].next == At(s, k + 1) && s[k].prev == At(s, k - 1);
    }

    lemma HeadKnown(name: string)
      requires Valid()
      ensures name in table ==> table[name] in known
    {
      hide Chain;
    }
  }

  ghost function Union(s: seq<Cmd>): Mask {
    if s == [] then 0 else Or(Union(s[..|s| - 1]), s[|s| - 1].mask)
  }

  lemma UnionNone(s: seq<Cmd>)
    ensures Union(s[..0]) == 0
  {
  }

  lemma UnionNext(s: seq<Cmd>, i: nat)
    requires i < |s|
    ensures Union(s[..i + 1]) == Or(Union(s[..i]), s[i].mask)
  {
    hide Or;
    assert s[..i + 1][..i] == s[..i];
  }

  lemma OverlapBoth()
    ensures forall a, b :: Overlap(a, b) == Overlap(b, a)
  {
  }

  /** One bit and no other. */
  predicate Single(m: Mask) {
    m != 0 && m & (m - 1) == 0
  }

  /** The mask has all bits of the other. */
  predicate Has(a: Mask, m: Mask) {
    a & m == m
  }

  function And(a: Mask, b: Mask): Mask {
    a & b
  }

  function LowestOf(x: Mask): Mask {
    x & (0 - x)
  }

  lemma LowestSingle(x: Mask)
    requires x != 0
    ensures Single(LowestOf(x))
  {
  }

  lemma LowestHad(x: Mask)
    ensures Has(x, LowestOf(x))
  {
  }

  lemma HadByBoth(a: Mask, b: Mask, m: Mask)
    requires Has(And(a, b), m)
    ensures Has(a, m) && Has(b, m)
  {
  }

  lemma OverlapAnd(a: Mask, b: Mask)
    ensures Overlap(a, b) <==> And(a, b) != 0
  {
  }

  lemma BothHave(a: Mask, b: Mask, m: Mask)
    requires Single(m) && Has(a, m) && Has(b, m)
    ensures Overlap(a, b)
  {
  }

  /** Two masks overlap when they have a source bit in common, whatever other bits they have. */
  lemma OverlapIs(a: Mask, b: Mask)
    ensures Overlap(a, b) <==> exists m :: Single(m) && Has(a, m) && Has(b, m)
  {
    hide Overlap, Single, Has, LowestOf, And;
    OverlapAnd(a, b);
    if Overlap(a, b) {
      var m := LowestOf(And(a, b));
      LowestSingle(And(a, b));
      LowestHad(And(a, b));
      HadByBoth(a, b, m);
    }
    if m :| Single(m) && Has(a, m) && Has(b, m) {
      BothHave(a, b, m);
    }
  }

  /** For a single source at most one command of a chain answers, so which one is found does not
      depend on the order in which the chain was built. */
  lemma OneAnswer(s: seq<Cmd>, t: seq<Cmd>, m: Mask, c: Cmd, d: Cmd)
    requires Disjoint(s) && Single(m) && forall x :: x in t ==> x in s
    requires c in s && d in t && Overlap(c.mask, m) && Overlap(d.mask, m)
    ensures c == d
  {
    hide Overlap, Single;
    var i :| 0 <= i < |s| && s[i] == c;
    var j :| 0 <= j < |s| && s[j] == d;
    Shared(c.mask, d.mask, m);
    Shared(d.mask, c.mask, m);
    assert !(i < j) && !(j < i);
  }

  /** Two masks that hold the same bit overlap. */
  lemma Shared(a: Mask, b: Mask, m: Mask)
    requires Single(m) && Overlap(a, m) && Overlap(b, m)
    ensures Overlap(a, b)
  {
  }
}
