/** The mode engine as the source runs it: u_mode_process of src/mode.c walking the mode string and
    the parameter vector, the callbacks of src/chan.c changing the channel in place, and the stacker
    of modules/core/mode.c writing the delta into its two 512-byte buffers. Everything is proved
    equal to the functions of ModeSpec.dfy, about which ModeDelta.dfy proves the delta faithful. */
module ModeEngine {
  import opened Hostmask
  import S = ModeSpec
  import opened ModeSpec
  import opened ModeDelta

  /* ---------- the delta as text ---------- */

  /** The data buffer: every parameter behind a space. */
  function Data(items: seq<Item>): string {
    if items == [] then ""
    else Data(items[..|items| - 1]) + ParamText(items[|items| - 1])
  }

  function ParamText(i: Item): string {
    if i.param.Some? then " " + i.param.value else ""
  }

  function LastSign(prev: Option<bool>, items: seq<Item>): Option<bool> {
    if items == [] then prev else Some(items[|items| - 1].on)
  }

  /** What a change adds to the characters. */
  function CharText(prev: Option<bool>, i: Item): string {
    (if prev == Some(i.on) then "" else Sign(i.on)) + [i.ch]
  }

  lemma NoChars()
    ensures Compact(0, true, [])
  {
  }

  lemma CharsCons(prev: Option<bool>, i: Item, rest: seq<Item>)
    ensures Chars(prev, [i] + rest) == CharText(prev, i) + Chars(Some(i.on), rest)
  {
    assert ([i] + rest)[1..] == rest;
  }

  lemma {:induction false} CharsAppend(prev: Option<bool>, items: seq<Item>, i: Item)
    ensures Chars(prev, items + [i]) == Chars(prev, items) + CharText(LastSign(prev, items), i)
    decreases |items|
  {
    if items == [] {
      CharsCons(prev, i, []);
      assert items + [i] == [i] + [];
    } else {
      hide Chars, CharText;
      var h, rest := items[0], items[1..];
      assert items == [h] + rest && items + [i] == [h] + (rest + [i]);
      CharsCons(prev, h, rest);
      CharsCons(prev, h, rest + [i]);
      CharsAppend(Some(h.on), rest, i);
      assert LastSign(Some(h.on), rest) == LastSign(prev, items);
    }
  }

  lemma DataAppend(items: seq<Item>, i: Item)
    ensures Data(items + [i]) == Data(items) + ParamText(i)
  {
    assert (items + [i])[..|items|] == items;
  }

  lemma {:induction false} DataGrows(a: seq<Item>, b: seq<Item>)
    ensures |Data(a)| <= |Data(a + b)|
    decreases |b|
  {
    if b == [] {
      assert a + b == a;
    } else {
      var n := |b| - 1;
      DataGrows(a, b[..n]);
      assert a + b == (a + b[..n]) + [b[n]];
      DataAppend(a + b[..n], b[n]);
    }
  }

  /* ---------- the stacker ---------- */

  class StackBuf {
    var on: int  // -1 before anything is printed, then 0 or 1
    const cbuf: array<char>
    var c: nat
    const dbuf: array<char>
    var d: nat
    ghost var items: seq<Item>

    ghost predicate Valid()
      reads this, cbuf, dbuf
    {
      cbuf.Length == 512 && dbuf.Length == 512 && cbuf != dbuf && c < 512 && d < 512 &&
      on == (match LastSign(None, items) case None => -1 case Some(b) => if b then 1 else 0) &&
      cbuf[..c] == Chars(None, items) && dbuf[..d] == Data(items)
    }

    /** The next change fits both buffers. */
    ghost predicate Room(i: Item)
      reads this
    {
      c + 2 < 512 && d + |ParamText(i)| < 512
    }

    constructor ()
      ensures Valid() && items == [] && fresh(cbuf) && fresh(dbuf)
    {
      on, c, d, items := -1, 0, 0, [];
      cbuf := new char[512];
      dbuf := new char[512];
    }

    /** cmode_stacker_buf_init */
    method Init()
      requires Valid()
      modifies this, cbuf, dbuf
      ensures Valid() && items == []
    {
      on, c, d, items := -1, 0, 0, [];
      cbuf[0] := '\0';
      dbuf[0] := '\0';
    }

    /** The character half of cmode_stacker_buf_put. */
    method PutChar(onNow: bool, ch: char)
      requires cbuf.Length == 512 && c + 2 < 512
      modifies this`on, this`c, cbuf
      ensures on == (if onNow then 1 else 0) && old(c) < c <= old(c) + 2
      ensures cbuf[..c] == old(cbuf[..c]) + ((if old(on) == on then "" else Sign(onNow)) + [ch])
    {
      if on != (if onNow then 1 else 0) {
        cbuf[c] := if onNow then '+' else '-';
        c := c + 1;
        on := if onNow then 1 else 0;
      }
      cbuf[c] := ch;
      c := c + 1;
      cbuf[c] := '\0';
    }

    /** The parameter half, an snprintf that has room. */
    method PutParam(param: string)
      requires dbuf.Length == 512 && d + 1 + |param| < 512
      modifies this`d, dbuf
      ensures d == old(d) + 1 + |param| && dbuf[..d] == old(dbuf[..d]) + (" " + param)
    {
      dbuf[d] := ' ';
      forall j | 0 <= j < |param| {
        dbuf[d + 1 + j] := param[j];
      }
      d := d + 1 + |param|;
    }

    /** cmode_stacker_buf_put */
    method Put(i: Item)
      requires Valid() && Room(i)
      modifies this, cbuf, dbuf
      ensures Valid() && items == old(items) + [i] && c <= old(c) + 2
    {
      hide Chars, Data;
      CharsAppend(None, items, i);
      DataAppend(items, i);
      PutChar(i.on, i.ch);
      if i.param.Some? {
        PutParam(i.param.value);
      } else {
        assert dbuf[..d] + ParamText(i) == dbuf[..d];
      }
      dbuf[d] := '\0';
      items := items + [i];
    }
  }

  /* ---------- the copy with nicks ---------- */

  /** The change as local users see it. */
  function Nicked(w: World, i: Item): Item {
    if i.isUser && i.param.Some? then i.(param := Some(w.nick(i.param.value))) else i
  }

  function AllNicked(w: World, items: seq<Item>): (r: seq<Item>)
    ensures |r| == |items|
  {
    seq(|items|, j requires 0 <= j < |items| => Nicked(w, items[j]))
  }

  lemma NickedConcat(w: World, a: seq<Item>, b: seq<Item>)
    ensures AllNicked(w, a + b) == AllNicked(w, a) + AllNicked(w, b)
  {
  }

  lemma NickedAppend(w: World, items: seq<Item>, i: Item)
    ensures AllNicked(w, items + [i]) == AllNicked(w, items) + [Nicked(w, i)]
  {
  }

  lemma {:induction false} CharsNicked(w: World, prev: Option<bool>, items: seq<Item>)
    ensures Chars(prev, AllNicked(w, items)) == Chars(prev, items)
    decreases |items|
  {
    if items != [] {
      assert AllNicked(w, items)[1..] == AllNicked(w, items[1..]);
      CharsNicked(w, Some(items[0].on), items[1..]);
    }
  }

  /** Both data buffers hold the changes, with their terminators. */
  predicate Fit(w: World, items: seq<Item>) {
    |Data(items)| < 512 && |Data(AllNicked(w, items))| < 512
  }

  lemma FitPrefix(w: World, a: seq<Item>, b: seq<Item>)
    requires Fit(w, a + b)
    ensures Fit(w, a)
  {
    hide Data;
    NickedConcat(w, a, b);
    DataGrows(a, b);
    DataGrows(AllNicked(w, a), AllNicked(w, b));
  }

  /** The buffer for local users and the one for servers. */
  class Stacker {
    const u: StackBuf
    const s: StackBuf

    ghost function Objects(): set<object> {
      {u, u.cbuf, u.dbuf, s, s.cbuf, s.dbuf}
    }

    ghost predicate Valid(w: World)
      reads Objects()
    {
      u.Valid() && s.Valid() && u != s && u.items == AllNicked(w, s.items) &&
      u.cbuf != s.cbuf && u.cbuf != s.dbuf && u.dbuf != s.cbuf && u.dbuf != s.dbuf
    }

    ghost predicate Room(w: World, i: Item)
      reads u, s
    {
      s.Room(i) && u.Room(Nicked(w, i))
    }

    constructor (ghost w: World)
      ensures Valid(w) && s.items == [] && fresh(Objects())
    {
      u := new StackBuf();
      s := new StackBuf();
    }

    /** What the buffers hold. */
    lemma Shows(w: World)
      requires Valid(w)
      ensures s.cbuf[..s.c] == Chars(None, s.items) && s.dbuf[..s.d] == Data(s.items)
      ensures u.cbuf[..u.c] == Chars(None, s.items) && u.dbuf[..u.d] == Data(AllNicked(w, s.items))
    {
      hide Chars, Data;
      CharsNicked(w, None, s.items);
    }

    lemma HasRoomIs(w: World, i: Item)
      requires Valid(w) && HasRoom(w, s.items, i)
      ensures Room(w, i)
    {
      hide Chars, Data;
      CharsNicked(w, None, s.items);
    }

    /** cmode_stacker_start */
    method Start(ghost w: World)
      requires Valid(w)
      modifies Objects()
      ensures Valid(w) && s.items == []
    {
      hide Chars, Data;
      u.Init();
      s.Init();
    }

    /** The four put functions: what the servers get and, for a member, the nick beside it. */
    method Put(w: World, i: Item)
      requires Valid(w) && Room(w, i)
      modifies Objects()
      ensures Valid(w) && s.items == old(s.items) + [i] && s.c <= old(s.c) + 2
    {
      hide Chars, Data;
      NickedAppend(w, s.items, i);
      u.Put(Nicked(w, i));
      s.Put(i);
    }
  }

  /* ---------- the channel ---------- */

  datatype Listent = Listent(mask: string, setter: string, time: int)

  function Masks(l: seq<Listent>): (m: seq<string>)
    ensures |m| == |l|
  {
    seq(|l|, i requires 0 <= i < |l| => l[i].mask)
  }

  class Channel {
    var mode: Bits
    var key: Option<string>
    var limit: int
    var forward: Option<string>
    var ban: seq<Listent>
    var quiet: seq<Listent>
    var banex: seq<Listent>
    var invex: seq<Listent>
    var status: map<User, Bits>

    ghost function View(): Chan
      reads this
    {
      Chan(mode, key, limit, forward, Lists(Masks(ban), Masks(quiet), Masks(banex), Masks(invex)), status)
    }

    /** cmode_get_list */
    function Entries(ch: char): (l: seq<Listent>)
      reads this
      ensures Masks(l) == GetList(View().lists, ch)
    {
      if ch == 'b' then ban else if ch == 'q' then quiet else if ch == 'e' then banex else invex
    }

    method PutEntries(ch: char, l: seq<Listent>)
      modifies this
      ensures View() == old(View()).(lists := SetList(old(View()).lists, ch, Masks(l)))
    {
      if ch == 'b' {
        ban := l;
      } else if ch == 'q' {
        quiet := l;
      } else if ch == 'e' {
        banex := l;
      } else {
        invex := l;
      }
    }
  }

  /* ---------- u_modes ---------- */

  class Modes {
    const w: World
    const who: Setter
    const setterName: string
    const now: int
    const target: Channel
    const stack: Stacker
    var errors: set<Error>
    var unk: string

    ghost predicate Valid()
      reads this, target, stack.Objects()
    {
      stack.Valid(w) && |w.tab| == 128
    }

    constructor (w: World, who: Setter, setterName: string, now: int, target: Channel, stack: Stacker)
      requires stack.Valid(w) && |w.tab| == 128
      ensures Valid() && this.w == w && this.who == who && this.target == target && this.stack == stack
    {
      this.w, this.who, this.setterName, this.now, this.target, this.stack := w, who, setterName, now, target, stack;
      errors, unk := {}, "";
    }

    /** What the stacker must have room for. */
    ghost predicate RoomFor(e: Effect)
      reads this, stack.u, stack.s
    {
      e.out.Some? ==> stack.Room(w, e.out.value)
    }

    /** One mode has had exactly the effect `e`. */
    twostate predicate Took(e: Effect)
      reads this, target, stack.Objects()
    {
      Valid() && target.View() == e.chan && errors == Note(old(errors), e.err) &&
      stack.s.items == old(stack.s.items) + (if e.out.Some? then [e.out.value] else []) &&
      stack.s.c <= old(stack.s.c) + (if e.out.Some? then 2 else 0)
    }

    method Fail(e: Error)
      modifies this`errors
      ensures errors == old(errors) + {e}
    {
      errors := errors + {e};
    }

    /** u_mode_has_access */
    method Access() returns (ok: bool)
      modifies this`errors
      ensures ok == HasAccess(who) && errors == if ok then old(errors) else old(errors) + {NoAccess}
    {
      ok := who.access || who.force;
      if !ok {
        Fail(NoAccess);
      }
    }

    method DoStatus(on: bool, ch: char, bits: Bits, param: Option<string>) returns (used: bool)
      requires Valid() && RoomFor(S.DoStatus(w, who, target.View(), on, ch, bits, param))
      modifies this`errors, target, stack.Objects()
      ensures var e := S.DoStatus(w, who, old(target.View()), on, ch, bits, param); Took(e) && used == e.used
    {
      hide Stacker.Valid, Stacker.Room;
      var ok := Access();
      if !ok {
        return true;
      }
      if param.None? {
        Fail(MissingParam);
        return true;
      }
      var u := w.userByRef(param.value);
      if u.None? || u.value !in target.status {
        return true;
      }
      stack.Put(w, Item(on, ch, Some(u.value), true));
      target.status := target.status[u.value := Turn(target.status[u.value], bits, on)];
      return true;
    }

    method DoFlag(on: bool, ch: char, flag: Bits)
      requires Valid() && RoomFor(S.DoFlag(who, target.View(), on, ch, flag))
      modifies this`errors, target, stack.Objects()
      ensures Took(S.DoFlag(who, old(target.View()), on, ch, flag))
    {
      hide Stacker.Valid, Stacker.Room;
      var ok := Access();
      if ok {
        if on && !AnyOf(target.mode, flag) {
          stack.Put(w, Item(true, ch, None));
          target.mode := Turn(target.mode, flag, true);
        } else if !on && AnyOf(target.mode, flag) {
          stack.Put(w, Item(false, ch, None));
          target.mode := Turn(target.mode, flag, false);
        }
      }
    }

    /** The loop over the list. */
    method FindMask(list: seq<Listent>, mask: string) returns (i: nat)
      ensures i == Place(Masks(list), mask)
    {
      i := 0;
      while i < |list| && list[i].mask != mask
        invariant i <= |list| && i <= Place(Masks(list), mask)
      {
        assert Masks(list)[i] == list[i].mask;
        i := i + 1;
      }
      if i < |list| {
        assert Masks(list)[i] == list[i].mask;
      }
    }

    /** The change is printed and the list is now `l`. */
    twostate predicate Relisted(on: bool, ch: char, mask: string, l: seq<string>)
      reads this, target, stack.Objects()
    {
      Valid() && stack.s.items == old(stack.s.items) + [Item(on, ch, Some(mask))] && stack.s.c <= old(stack.s.c) + 2 &&
      target.View() == old(target.View()).(lists := SetList(old(target.View()).lists, ch, l)) && errors == old(errors)
    }

    method DropEntry(ch: char, list: seq<Listent>, i: nat)
      requires Valid() && i < |list| && list == target.Entries(ch)
      requires stack.Room(w, Item(false, ch, Some(list[i].mask)))
      modifies target, stack.Objects()
      ensures Relisted(false, ch, list[i].mask, Masks(list)[..i] + Masks(list)[i + 1..])
    {
      hide Stacker.Valid, Stacker.Room;
      stack.Put(w, Item(false, ch, Some(list[i].mask)));
      MasksWithout(list, i);
      target.PutEntries(ch, list[..i] + list[i + 1..]);
    }

    method AddEntry(ch: char, list: seq<Listent>, mask: string)
      requires Valid() && list == target.Entries(ch)
      requires stack.Room(w, Item(true, ch, Some(mask)))
      modifies target, stack.Objects()
      ensures Relisted(true, ch, mask, Masks(list) + [mask])
    {
      hide Stacker.Valid, Stacker.Room;
      var entry := Listent(mask, setterName, now);
      stack.Put(w, Item(true, ch, Some(entry.mask)));
      MasksPlus(list, entry);
      target.PutEntries(ch, list + [entry]);
    }

    method DoList(on: bool, ch: char, param: Option<string>) returns (used: bool)
      requires Valid() && RoomFor(S.DoList(who, target.View(), on, ch, param))
      modifies this`errors, target, stack.Objects()
      ensures var e := S.DoList(who, old(target.View()), on, ch, param); Took(e) && used == e.used
    {
      hide Fix, Place, GetList, SetList, Stacker.Valid, Stacker.Room, Channel.View;
      if param.None? {
        return false;
      }
      var ok := Access();
      if !ok {
        return true;
      }
      var list := target.Entries(ch);
      var mask := Fix(param.value);
      var i := FindMask(list, mask);
      if i < |list| {
        if !on {
          DropEntry(ch, list, i);
        }
      } else if on {
        if |list| >= MAX_BAN_LIST {
          Fail(ListFull);
          return true;
        }
        AddEntry(ch, list, Cut(mask, 255));
      }
      return true;
    }

    method CbForward(on: bool, ch: char, arg: Option<string>) returns (used: bool)
      requires Valid() && RoomFor(DoExternal(w, who, target.View(), on, ch, Forward, arg))
      modifies this`errors, target, stack.Objects()
      ensures var e := DoExternal(w, who, old(target.View()), on, ch, Forward, arg); Took(e) && used == e.used
    {
      hide Stacker.Valid, Stacker.Room;
      var ok := Access();
      if !ok {
        return on;
      }
      if !on {
        if target.forward.Some? {
          target.forward := None;
          stack.Put(w, Item(false, ch, None));
        }
        return false;
      }
      if arg.None? {
        return false;
      }
      var tc := w.lookup(arg.value);
      if tc.NoChannel? && !who.force {
        return true;
      }
      if !tc.NoChannel? && who.user.Some? && !who.force {
        var isOp := if tc.ThisChannel?
                    then who.user.value in target.status && AnyOf(target.status[who.user.value], w.opBits)
                    else tc.setterIsOp;
        if !isOp {
          return true;
        }
      }
      target.forward := arg;
      stack.Put(w, Item(true, ch, arg));
      return true;
    }

    method CbKey(on: bool, ch: char, arg: Option<string>) returns (used: bool)
      requires Valid() && RoomFor(DoExternal(w, who, target.View(), on, ch, Key, arg))
      modifies this`errors, target, stack.Objects()
      ensures var e := DoExternal(w, who, old(target.View()), on, ch, Key, arg); Took(e) && used == e.used
    {
      hide Stacker.Valid, Stacker.Room;
      var ok := Access();
      if !ok {
        return true;
      }
      if !on {
        if target.key.Some? {
          target.key := None;
          stack.Put(w, Item(false, ch, Some("*")));
        }
        return true;
      }
      if arg.None? {
        return false;
      }
      target.key := arg;
      stack.Put(w, Item(true, ch, target.key));
      return true;
    }

    method CbLimit(on: bool, ch: char, arg: Option<string>) returns (used: bool)
      requires Valid() && RoomFor(DoExternal(w, who, target.View(), on, ch, Limit, arg))
      modifies this`errors, target, stack.Objects()
      ensures var e := DoExternal(w, who, old(target.View()), on, ch, Limit, arg); Took(e) && used == e.used
    {
      hide Stacker.Valid, Stacker.Room;
      var ok := Access();
      if !ok {
        return on;
      }
      if !on {
        if target.limit > 0 {
          stack.Put(w, Item(false, ch, None));
        }
        target.limit := -1;
        return false;
      }
      if arg.None? {
        return false;
      }
      var lim := Atoi(arg.value);
      if lim < 1 {
        return true;
      }
      target.limit := lim;
      stack.Put(w, Item(true, ch, Some(Decimal(lim))));
      return true;
    }

    /** The switch of u_mode_process. */
    method Apply(on: bool, info: Info, param: Option<string>) returns (used: bool)
      requires Valid() && RoomFor(Do(w, who, target.View(), on, info, param))
      modifies this`errors, target, stack.Objects()
      ensures var e := Do(w, who, old(target.View()), on, info, param); Took(e) && used == e.used
    {
      hide S.DoStatus, S.DoFlag, S.DoList, Stacker.Valid, Stacker.Room;
      used := false;
      match info.kind
      case ModeExternal(fn) =>
        match fn {
          case Forward => used := CbForward(on, info.ch, param);
          case Key => used := CbKey(on, info.ch, param);
          case Limit => used := CbLimit(on, info.ch, param);
          case JoinThrottle => used := on;
          case NoFunction => Fail(UnknownChar);
        }
      case ModeStatus(bits) =>
        used := DoStatus(on, info.ch, bits, param);
      case ModeFlag(flag) =>
        FlagUsesNothing(who, target.View(), on, info.ch, flag);
        DoFlag(on, info.ch, flag);
      case ModeList =>
        used := DoList(on, info.ch, param);
    }

    /** One character that is not a sign: what the body of the loop does with it. */
    method One(on: bool, c: char, param: Option<string>) returns (used: bool)
      requires Valid() && RoomFor(Char(w, who, target.View(), on, c, param))
      modifies this`errors, this`unk, target, stack.Objects()
      ensures var e := Char(w, who, old(target.View()), on, c, param);
              Took(e) && used == e.used && unk == old(unk) + if Unknown(w, who, on, c) then [c] else ""
    {
      hide Do, Stacker.Valid, Stacker.Room;
      used := false;
      var found := FindInfo(w.tab, c);
      if found.None? {
        Fail(UnknownChar);
        unk := unk + [c];
        return;
      }
      var info := found.value;
      if !who.force {
        if info.operOnly && !who.oper {
          Fail(NotOper);
          return;
        }
        if info.noSet && on {
          return;
        }
        if info.noReset && !on {
          return;
        }
      }
      used := Apply(on, info, param);
      if info.kind == ModeExternal(NoFunction) {
        unk := unk + [c];
      }
    }

    lemma NextHasRoom(r: Run, c: char, param: Option<string>)
      requires Valid() && r.chan == target.View() && r.out == stack.s.items
      requires var e := Char(w, who, r.chan, r.on, c, param); e.out.Some? ==> HasRoom(w, r.out, e.out.value)
      ensures RoomFor(Char(w, who, target.View(), r.on, c, param))
    {
      hide Stacker.Valid, Stacker.Room, HasRoom, Char;
      var e := Char(w, who, r.chan, r.on, c, param);
      if e.out.Some? {
        stack.HasRoomIs(w, e.out.value);
      }
    }

    /** Where the run is: the state of the loop as a value. */
    ghost function Now(on: bool, params: seq<string>): Run
      reads this, target, stack.s
    {
      Run(target.View(), on, params, errors, unk, stack.s.items)
    }

    /** A turn of the loop, for the character at `i`. */
    method NextChar(c: char, on: bool, params: seq<string>, p: nat, ghost i: nat, ghost rest: string)
        returns (on': bool, p': nat)
      requires Valid() && p <= |params| && i < MAX_MODES && Compact(i, on, stack.s.items)
      requires Fit(w, ProcessAll(w, who, ProcessChar(w, who, Now(on, params[p..]), c), rest).out)
      modifies this`errors, this`unk, target, stack.Objects()
      ensures Valid() && p' <= |params| && Compact(i + 1, on', stack.s.items)
      ensures Now(on', params[p'..]) == ProcessChar(w, who, old(Now(on, params[p..])), c)
    {
      hide Chars, Data, ProcessChar, Char, Unknown, Compact, Fit, HasRoom, Stacker.Valid, Stacker.Room, RoomFor;
      ghost var r := Now(on, params[p..]);
      CharIs(w, who, r, c);
      CompactStep(w, who, r, c, i);
      on', p' := on, p;
      if c == '+' || c == '-' {
        on' := c == '+';
      } else {
        var param := if p < |params| then Some(params[p]) else None;
        Fits(w, who, r, c, rest, i);
        NextHasRoom(r, c, param);
        var used := One(on, c, param);
        if used && p < |params| {
          p' := p + 1;
        }
      }
    }

    /** u_mode_process: the parameters are `params`, the mode string itself apart. */
    method Process(modes: string, params: seq<string>) returns (rc: int)
      requires Valid() && Fit(w, S.Process(w, who, target.View(), modes, params).out)
      modifies this`errors, this`unk, target, stack.Objects()
      ensures rc == if |modes| > MAX_MODES then -1 else 0
      ensures var r := S.Process(w, who, old(target.View()), modes, params);
              target.View() == r.chan && errors == r.errors && unk == r.unknown &&
              (rc == 0 ==>
                 stack.Valid(w) && stack.s.cbuf[..stack.s.c] == Chars(None, r.out) &&
                 stack.s.dbuf[..stack.s.d] == Data(r.out) && stack.u.cbuf[..stack.u.c] == Chars(None, r.out) &&
                 stack.u.dbuf[..stack.u.d] == Data(AllNicked(w, r.out)))
    {
      hide Chars, Data, ProcessChar, Compact, Fit, Stacker.Valid;
      unk := "";
      errors := {};
      if |modes| > MAX_MODES {
        return -1;
      }
      stack.Start(w);
      ghost var done := ProcessAll(w, who, Start(target.View(), params), modes);
      NoChars();
      var i, on, p := 0, true, 0;
      while i < |modes|
        invariant i <= |modes| && 0 <= p <= |params| && Valid() && Compact(i, on, stack.s.items)
        invariant done == ProcessAll(w, who, Now(on, params[p..]), modes[i..])
      {
        assert modes[i..][1..] == modes[i + 1..];
        on, p := NextChar(modes[i], on, params, p, i, modes[i + 1..]);
        i := i + 1;
      }
      assert modes[i..] == "";
      stack.Shows(w);
      return 0;
    }
  }

  lemma FlagUsesNothing(who: Setter, s: Chan, on: bool, ch: char, flag: Bits)
    ensures !S.DoFlag(who, s, on, ch, flag).used
  {
  }

  /** The effect of a character that is not a sign, whether it is known or not. */
  function Char(w: World, who: Setter, s: Chan, on: bool, c: char, param: Option<string>): Effect
    requires |w.tab| == 128
  {
    var found := FindInfo(w.tab, c);
    if found.None? then Failed(s, false, UnknownChar)
    else
      var barred := Barred(who, on, found.value);
      if barred.Some? then Effect(s, false, None, barred.value)
      else Do(w, who, s, on, found.value, param)
  }

  predicate Unknown(w: World, who: Setter, on: bool, c: char)
    requires |w.tab| == 128
  {
    var found := FindInfo(w.tab, c);
    found.None? || (Barred(who, on, found.value).None? && found.value.kind == ModeExternal(NoFunction))
  }

  lemma CharIs(w: World, who: Setter, r: Run, c: char)
    requires |w.tab| == 128
    ensures c in "+-" ==> ProcessChar(w, who, r, c) == r.(on := c == '+')
    ensures c !in "+-" ==>
      var e := Char(w, who, r.chan, r.on, c, if r.params == [] then None else Some(r.params[0]));
      ProcessChar(w, who, r, c) ==
        Run(e.chan, r.on, if e.used && r.params != [] then r.params[1..] else r.params, Note(r.errors, e.err),
            r.unknown + (if Unknown(w, who, r.on, c) then [c] else ""),
            r.out + if e.out.Some? then [e.out.value] else [])
  {
    hide Do;
  }

  /** So many characters at most are printed after `i` of the mode string: a sign costs one only
      where the mode string had one. */
  ghost predicate Compact(i: nat, on: bool, items: seq<Item>) {
    |Chars(None, items)| <= i + if LastSign(None, items) == Some(on) then 1 else 0
  }

  lemma CompactStep(w: World, who: Setter, r: Run, c: char, i: nat)
    requires |w.tab| == 128 && Compact(i, r.on, r.out)
    ensures var r' := ProcessChar(w, who, r, c); Compact(i + 1, r'.on, r'.out)
  {
    hide Chars, ProcessChar;
    CharIs(w, who, r, c);
    if c in "+-" {
      return;
    }
    CharPrintsOne(w, who, r, c);
    ItemSign(w, who, r, c);
    var out := ProcessChar(w, who, r.(out := []), c).out;
    if out == [] {
      assert r.out + out == r.out;
    } else {
      assert out == [out[0]];
      CharsAppend(None, r.out, out[0]);
    }
  }

  /** What is printed now is part of what is printed in the end, so it fits when that does. */
  lemma Fits(w: World, who: Setter, r: Run, c: char, rest: string, i: nat)
    requires |w.tab| == 128 && c !in "+-" && Compact(i, r.on, r.out) && i < MAX_MODES
    requires Fit(w, ProcessAll(w, who, ProcessChar(w, who, r, c), rest).out)
    ensures var e := Char(w, who, r.chan, r.on, c, if r.params == [] then None else Some(r.params[0]));
            e.out.Some? ==> HasRoom(w, r.out, e.out.value)
  {
    hide Data, ProcessChar, Char, Unknown, Fit, Compact, HasRoom;
    CharIs(w, who, r, c);
    var r' := ProcessChar(w, who, r, c);
    PrintedIsOut(w, who, r', rest);
    FitPrefix(w, r'.out, Printed(w, who, r', rest));
    var e := Char(w, who, r.chan, r.on, c, if r.params == [] then None else Some(r.params[0]));
    if e.out.Some? {
      FitIsRoom(w, r.out, e.out.value, i, r.on);
    }
  }

  /** One more change fits the buffers that hold these. */
  ghost predicate HasRoom(w: World, items: seq<Item>, i: Item) {
    |Data(items)| + |ParamText(i)| < 512 && |Data(AllNicked(w, items))| + |ParamText(Nicked(w, i))| < 512 &&
    |Chars(None, items)| + 2 < 512
  }

  lemma FitIsRoom(w: World, items: seq<Item>, i: Item, n: nat, on: bool)
    requires Fit(w, items + [i]) && Compact(n, on, items) && n < MAX_MODES
    ensures HasRoom(w, items, i)
  {
    hide Data, Chars;
    NickedAppend(w, items, i);
    DataAppend(items, i);
    DataAppend(AllNicked(w, items), Nicked(w, i));
  }

  /* ---------- when the data buffer is too small ---------- */

  /** Every parameter printed from `r` on leaves both data, with their terminators, inside the
      buffers: snprintf returns the length it would have needed, so the first one that does not takes
      the write position past the end. */
  predicate AllFit(w: World, who: Setter, r: Run, s: string)
    requires |w.tab| == 128
    decreases |s|
  {
    s != "" ==> Fit(w, ProcessChar(w, who, r, s[0]).out) && AllFit(w, who, ProcessChar(w, who, r, s[0]), s[1..])
  }

  /** The buffers hold out exactly when the whole data fit, those with the uids and those with the
      nicks, so that is all that Process asks for. */
  lemma {:induction false} AllFitExact(w: World, who: Setter, r: Run, s: string)
    requires |w.tab| == 128 && Fit(w, r.out)
    ensures AllFit(w, who, r, s) <==> Fit(w, ProcessAll(w, who, r, s).out)
    decreases |s|
  {
    if s != "" {
      hide Fit, ProcessChar;
      var r' := ProcessChar(w, who, r, s[0]);
      if Fit(w, r'.out) {
        AllFitExact(w, who, r', s[1..]);
      } else {
        PrintedIsOut(w, who, r', s[1..]);
        if Fit(w, ProcessAll(w, who, r', s[1..]).out) {
          FitPrefix(w, r'.out, Printed(w, who, r', s[1..]));
        }
      }
    }
  }

  predicate HasKey(w: World) {
    |w.tab| == 128 && w.tab['k' as int] == Some(Info('k', ModeExternal(Key), false, false, false))
  }

  predicate HasOp(w: World) {
    |w.tab| == 128 && w.tab['o' as int] == Some(Info('o', ModeStatus(w.opBits), false, false, false))
  }

  /** Three keys in one mode string overrun them when they have 509 characters together. */
  lemma ThreeKeysOverrun(w: World, who: Setter, s: Chan, a: string, b: string, c: string)
    requires HasKey(w) && HasAccess(who)
    ensures |Data(S.Process(w, who, s, "+kkk", [a, b, c]).out)| == 3 + |a| + |b| + |c|
    ensures AllFit(w, who, Start(s, [a, b, c]), "+kkk") <==> |a| + |b| + |c| < 509
  {
    var r := Start(s, [a, b, c]);
    NoData(w);
    AllFitExact(w, who, r, "+kkk");
    hide ProcessChar, Data, AllNicked;
    var r0 := ProcessChar(w, who, r, '+');
    var r1 := ProcessChar(w, who, r0, 'k');
    var r2 := ProcessChar(w, who, r1, 'k');
    var r3 := ProcessChar(w, who, r2, 'k');
    assert ProcessAll(w, who, r, "+kkk") == r3 by {
      assert "+kkk"[1..] == "kkk" && "kkk"[1..] == "kk" && "kk"[1..] == "k" && "k"[1..] == "";
    }
    SignChar(w, who, r);
    KeyChar(w, who, r0, a);
    assert r1.params == [b, c];
    KeyChar(w, who, r1, b);
    assert r2.params == [c];
    KeyChar(w, who, r2, c);
  }

  /** Two keys and two members: what the servers get fits, and the copy with the nicks overruns its
      buffer, when the nicks are long enough. */
  lemma NicksOverrun(w: World, who: Setter, s: Chan, a: string, b: string, u: User, v: User)
    requires HasKey(w) && HasOp(w) && HasAccess(who) && u in s.status && v in s.status
    requires w.userByRef(u) == Some(u) && w.userByRef(v) == Some(v)
    requires |a| == 255 && |b| == 230 && |u| == |v| == 9 && |w.nick(u)| == |w.nick(v)| == 20
    ensures var out := S.Process(w, who, s, "+kkoo", [a, b, u, v]).out;
            |Data(out)| == 507 && |Data(AllNicked(w, out))| == 529
    ensures !AllFit(w, who, Start(s, [a, b, u, v]), "+kkoo")
  {
    var r := Start(s, [a, b, u, v]);
    NoData(w);
    AllFitExact(w, who, r, "+kkoo");
    hide ProcessChar, Data, AllNicked, HasKey, HasOp;
    var r0 := ProcessChar(w, who, r, '+');
    var r1 := ProcessChar(w, who, r0, 'k');
    var r2 := ProcessChar(w, who, r1, 'k');
    var r3 := ProcessChar(w, who, r2, 'o');
    var r4 := ProcessChar(w, who, r3, 'o');
    assert ProcessAll(w, who, r, "+kkoo") == r4 by {
      assert "+kkoo"[1..] == "kkoo" && "kkoo"[1..] == "koo" && "koo"[1..] == "oo" && "oo"[1..] == "o" && "o"[1..] == "";
    }
    SignChar(w, who, r);
    KeyChar(w, who, r0, a);
    assert r1.params == [b, u, v];
    KeyChar(w, who, r1, b);
    assert r2.params == [u, v];
    OpChar(w, who, r2, u);
    assert r3.params == [v];
    OpChar(w, who, r3, v);
  }

  lemma NoData(w: World)
    ensures Data([]) == "" && AllNicked(w, []) == []
  {
  }

  lemma SignChar(w: World, who: Setter, r: Run)
    requires |w.tab| == 128 && r.on
    ensures ProcessChar(w, who, r, '+') == r
  {
  }

  lemma KeyChar(w: World, who: Setter, r: Run, key: string)
    requires HasKey(w) && HasAccess(who) && r.on && r.params != [] && r.params[0] == key
    ensures var r' := ProcessChar(w, who, r, 'k');
            r'.on && r'.params == r.params[1..] && r'.chan.status == r.chan.status &&
            |Data(r'.out)| == |Data(r.out)| + 1 + |key| &&
            |Data(AllNicked(w, r'.out))| == |Data(AllNicked(w, r.out))| + 1 + |key|
  {
    hide Data;
    var i := Item(true, 'k', Some(key));
    DataAppend(r.out, i);
    NickedAppend(w, r.out, i);
    DataAppend(AllNicked(w, r.out), i);
  }

  lemma OpChar(w: World, who: Setter, r: Run, u: User)
    requires HasOp(w) && HasAccess(who) && r.on && r.params != [] && r.params[0] == u
    requires u in r.chan.status && w.userByRef(u) == Some(u)
    ensures var r' := ProcessChar(w, who, r, 'o');
            r'.on && r'.params == r.params[1..] && r'.chan.status.Keys == r.chan.status.Keys &&
            |Data(r'.out)| == |Data(r.out)| + 1 + |u| &&
            |Data(AllNicked(w, r'.out))| == |Data(AllNicked(w, r.out))| + 1 + |w.nick(u)|
  {
    hide Data, Turn;
    var i := Item(true, 'o', Some(u), true);
    DataAppend(r.out, i);
    NickedAppend(w, r.out, i);
    DataAppend(AllNicked(w, r.out), Nicked(w, i));
  }

  lemma MasksPlus(l: seq<Listent>, e: Listent)
    ensures Masks(l + [e]) == Masks(l) + [e.mask]
  {
  }

  lemma MasksWithout(l: seq<Listent>, i: nat)
    requires i < |l|
    ensures Masks(l[..i] + l[i + 1..]) == Masks(l)[..i] + Masks(l)[i + 1..]
  {
  }
}
