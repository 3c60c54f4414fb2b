/** What one mode string does to a channel (src/mode.c with the channel callbacks of src/chan.c) and
    what is printed for the other servers (modules/core/mode.c), as functions on values. The main
    result: the printed changes are a faithful delta. */
module ModeSpec {
  import opened Hostmask
  import opened Common

  type User = string   // a uid
  type Bits = bv32

  const MAX_MODES := 256
  const MAX_BAN_LIST := 50

  /* ---------- the table of modes ---------- */

  datatype External = Forward | Key | Limit | JoinThrottle | NoFunction
  datatype Kind = ModeExternal(fn: External) | ModeStatus(bits: Bits) | ModeFlag(flag: Bits) | ModeList
  datatype Info = Info(ch: char, kind: Kind, operOnly: bool, noSet: bool, noReset: bool)

  /** The 128 slots; an unused slot has no character. */
  type Table = seq<Option<Info>>

  /** Every mode sits in the slot of its own character; list modes are the four lists there are. */
  ghost predicate WellFormed(tab: Table) {
    |tab| == 128 &&
    forall i :: 0 <= i < 128 && tab[i].Some? ==>
      tab[i].value.ch as int == i && i != 0 && tab[i].value.ch !in "+-" &&
      (tab[i].value.kind.ModeList? ==> tab[i].value.ch in "bqeI")
  }

  /** find_info: the low seven bits of the character choose the slot. */
  function FindInfo(tab: Table, c: char): Option<Info>
    requires |tab| == 128
  {
    tab[c as int % 128]
  }

  /* ---------- the channel and its surroundings ---------- */

  datatype Lists = Lists(ban: seq<string>, quiet: seq<string>, banex: seq<string>, invex: seq<string>)

  datatype Chan = Chan(
    mode: Bits, key: Option<string>, limit: int, forward: Option<string>, lists: Lists, status: map<User, Bits>)

  function GetList(ls: Lists, c: char): seq<string> {
    if c == 'b' then ls.ban else if c == 'q' then ls.quiet else if c == 'e' then ls.banex else ls.invex
  }

  function SetList(ls: Lists, c: char, l: seq<string>): Lists {
    if c == 'b' then ls.(ban := l) else if c == 'q' then ls.(quiet := l)
    else if c == 'e' then ls.(banex := l) else ls.(invex := l)
  }

  /** u_chan_get on the name given to +f, and whether the setter is an operator there; when it is
      the channel being changed, that depends on its current statuses. */
  datatype Target = NoChannel | ThisChannel | OtherChannel(setterIsOp: bool)

  /** Who sets the modes: `force` is MODE_FORCE_ALL, `access` a non-NULL access pointer. */
  datatype Setter = Setter(force: bool, access: bool, oper: bool, user: Option<User>)

  /** What the callbacks look up elsewhere; nothing of it changes while a mode string is processed. */
  datatype World = World(
    tab: Table, opBits: Bits, lookup: string -> Target, userByRef: string -> Option<User>, nick: User -> string)

  function HasAccess(who: Setter): bool {
    who.access || who.force
  }

  /* ---------- numbers ---------- */

  /** The value of the leading digits. */
  function Digits(s: string, acc: int): int {
    if s == "" || !IsDigit(s[0]) then acc else Digits(s[1..], acc * 10 + (s[0] as int - '0' as int))
  }

  /** atoi as the C library computes it: white space, a sign, digits; the value saturates at the
      width of a long and is then cut to 32 bits. */
  function Saturate(x: int): int {
    if x > 0x7fff_ffff_ffff_ffff then 0x7fff_ffff_ffff_ffff
    else if x < -0x8000_0000_0000_0000 then -0x8000_0000_0000_0000 else x
  }

  function ToInt32(x: int): (r: int)
    ensures -0x8000_0000 <= r < 0x8000_0000
  {
    (x + 0x8000_0000) % 0x1_0000_0000 - 0x8000_0000
  }

  function Atoi(s: string): (r: int)
    ensures -0x8000_0000 <= r < 0x8000_0000
  {
    if s != "" && IsSpace(s[0]) then Atoi(s[1..])
    else if s != "" && s[0] == '-' then ToInt32(Saturate(-Digits(s[1..], 0)))
    else ToInt32(Saturate(Digits(if s != "" && s[0] == '+' then s[1..] else s, 0)))
  }

  /** %d of a positive number. */
  function Decimal(n: int): (s: string)
    requires n >= 0
    ensures s != "" && forall i :: 0 <= i < |s| ==> IsDigit(s[i])
  {
    (if n < 10 then "" else Decimal(n / 10)) + [('0' as int + n % 10) as char]
  }

  lemma {:induction false} DigitsConcat(a: string, b: string, acc: int)
    requires forall i :: 0 <= i < |a| ==> IsDigit(a[i])
    ensures Digits(a + b, acc) == Digits(b, Digits(a, acc))
  {
    if a == "" {
      assert a + b == b;
    } else {
      assert (a + b)[1..] == a[1..] + b;
      DigitsConcat(a[1..], b, acc * 10 + (a[0] as int - '0' as int));
    }
  }

  lemma {:induction false} DigitsOfDecimal(n: int)
    requires n >= 0
    ensures Digits(Decimal(n), 0) == n
  {
    var last := [('0' as int + n % 10) as char];
    if n < 10 {
      assert Decimal(n) == last && last[1..] == "";
    } else {
      DigitsOfDecimal(n / 10);
      DigitsConcat(Decimal(n / 10), last, 0);
      assert last[1..] == "";
    }
  }

  /** A printed limit reads back as itself. */
  lemma AtoiOfDecimal(n: int)
    requires 1 <= n < 0x8000_0000
    ensures Atoi(Decimal(n)) == n
  {
    DigitsOfDecimal(n);
    assert IsDigit(Decimal(n)[0]);
  }

  /* ---------- one mode ---------- */

  /** A printed change; `isUser` tells that the parameter is a uid. */
  datatype Item = Item(on: bool, ch: char, param: Option<string>, isUser: bool := false)

  /** The errors a mode string can collect. */
  datatype Error = UnknownChar | NoAccess | NotOper | MissingParam | ListFull

  /** The effect of one mode: the new channel, whether the parameter is used up, what is printed,
      and the error if there is one. */
  datatype Effect = Effect(chan: Chan, used: bool, out: Option<Item>, err: Option<Error>)

  function Nothing(s: Chan, used: bool): Effect {
    Effect(s, used, None, None)
  }

  function Failed(s: Chan, used: bool, e: Error): Effect {
    Effect(s, used, None, Some(e))
  }

  /** |= and &= ~ of a mask, and whether any bit of it is set. */
  function Turn(had: Bits, bits: Bits, on: bool): Bits {
    if on then had | bits else had & !bits
  }

  predicate AnyOf(had: Bits, bits: Bits) {
    had & bits != 0
  }

  function DoStatus(w: World, who: Setter, s: Chan, on: bool, ch: char, bits: Bits, param: Option<string>): Effect {
    if !HasAccess(who) then Failed(s, true, NoAccess)
    else if param.None? then Failed(s, true, MissingParam)
    else
      var u := w.userByRef(param.value);
      if u.None? || u.value !in s.status then Nothing(s, true)
      else
        var had := s.status[u.value];
        Effect(s.(status := s.status[u.value := Turn(had, bits, on)]),
               true, Some(Item(on, ch, Some(u.value), true)), None)
  }

  function DoFlag(who: Setter, s: Chan, on: bool, ch: char, flag: Bits): Effect {
    if !HasAccess(who) then Failed(s, false, NoAccess)
    else if on != AnyOf(s.mode, flag) then
      Effect(s.(mode := Turn(s.mode, flag, on)), false, Some(Item(on, ch, None)), None)
    else Nothing(s, false)
  }

  /** The place of the first equal mask. */
  function Place(l: seq<string>, m: string): (i: nat)
    ensures i <= |l| && (i < |l| ==> l[i] == m)
    ensures forall j :: 0 <= j < i ==> l[j] != m
  {
    if l == [] then 0 else if l[0] == m then 0 else 1 + Place(l[1..], m)
  }

  /** The list entry keeps 255 characters, but is compared with the whole mask. */
  function DoList(who: Setter, s: Chan, on: bool, ch: char, param: Option<string>): Effect {
    if param.None? then Nothing(s, false)
    else if !HasAccess(who) then Failed(s, true, NoAccess)
    else
      var l, mask := GetList(s.lists, ch), Fix(param.value);
      var i := Place(l, mask);
      if i < |l| then
        if on then Nothing(s, true)
        else Effect(s.(lists := SetList(s.lists, ch, l[..i] + l[i + 1..])), true, Some(Item(on, ch, Some(mask))), None)
      else if !on then Nothing(s, true)
      else if |l| >= MAX_BAN_LIST then Failed(s, true, ListFull)
      else
        var kept := Cut(mask, 255);
        Effect(s.(lists := SetList(s.lists, ch, l + [kept])), true, Some(Item(on, ch, Some(kept))), None)
  }

  function MayForward(w: World, who: Setter, s: Chan, arg: string): bool {
    who.force ||
    match w.lookup(arg)
    case NoChannel => false
    case ThisChannel => who.user.None? || (who.user.value in s.status && AnyOf(s.status[who.user.value], w.opBits))
    case OtherChannel(isOp) => who.user.None? || isOp
  }

  function DoExternal(w: World, who: Setter, s: Chan, on: bool, ch: char, fn: External, param: Option<string>): Effect {
    match fn
    case NoFunction => Failed(s, false, UnknownChar)
    case JoinThrottle => Nothing(s, on)
    case Forward =>
      if !HasAccess(who) then Failed(s, on, NoAccess)
      else if !on then
        if s.forward.Some? then Effect(s.(forward := None), false, Some(Item(on, ch, None)), None) else Nothing(s, false)
      else if param.None? then Nothing(s, false)
      else if !MayForward(w, who, s, param.value) then Nothing(s, true)
      else Effect(s.(forward := param), true, Some(Item(on, ch, param)), None)
    case Key =>
      if !HasAccess(who) then Failed(s, true, NoAccess)
      else if !on then
        if s.key.Some? then Effect(s.(key := None), true, Some(Item(on, ch, Some("*"))), None) else Nothing(s, true)
      else if param.None? then Nothing(s, false)
      else Effect(s.(key := param), true, Some(Item(on, ch, param)), None)
    case Limit =>
      if !HasAccess(who) then Failed(s, on, NoAccess)
      else if !on then
        Effect(s.(limit := -1), false, if s.limit > 0 then Some(Item(on, ch, None)) else None, None)
      else if param.None? then Nothing(s, false)
      else
        var lim := Atoi(param.value);
        if lim < 1 then Nothing(s, true)
        else Effect(s.(limit := lim), true, Some(Item(on, ch, Some(Decimal(lim)))), None)
  }

  function Do(w: World, who: Setter, s: Chan, on: bool, info: Info, param: Option<string>): Effect {
    match info.kind
    case ModeExternal(fn) => DoExternal(w, who, s, on, info.ch, fn, param)
    case ModeStatus(bits) => DoStatus(w, who, s, on, info.ch, bits, param)
    case ModeFlag(flag) => DoFlag(who, s, on, info.ch, flag)
    case ModeList => DoList(who, s, on, info.ch, param)
  }

  /** The checks before a mode is looked at; a mode that fails one is skipped with its parameter
      left for the next. */
  function Barred(who: Setter, on: bool, info: Info): Option<Option<Error>> {
    if who.force then None
    else if info.operOnly && !who.oper then Some(Some(NotOper))
    else if (info.noSet && on) || (info.noReset && !on) then Some(None)
    else None
  }

  /* ---------- a whole mode string ---------- */

  /** Where the processing of a mode string is: the sign, the parameters left, what has been
      collected. */
  datatype Run = Run(chan: Chan, on: bool, params: seq<string>, errors: set<Error>, unknown: string, out: seq<Item>)

  function Note(errors: set<Error>, e: Option<Error>): set<Error> {
    if e.Some? then errors + {e.value} else errors
  }

  function ProcessChar(w: World, who: Setter, r: Run, c: char): Run
    requires |w.tab| == 128
  {
    if c == '+' || c == '-' then r.(on := c == '+')
    else
      var found := FindInfo(w.tab, c);
      if found.None? then r.(errors := r.errors + {UnknownChar}, unknown := r.unknown + [c])
      else
        var info := found.value;
        var barred := Barred(who, r.on, info);
        if barred.Some? then r.(errors := Note(r.errors, barred.value))
        else
          var e := Do(w, who, r.chan, r.on, info, if r.params == [] then None else Some(r.params[0]));
          Run(e.chan, r.on, if e.used && r.params != [] then r.params[1..] else r.params,
              Note(r.errors, e.err),
              if info.kind == ModeExternal(NoFunction) then r.unknown + [c] else r.unknown,
              r.out + if e.out.Some? then [e.out.value] else [])
  }

  function ProcessAll(w: World, who: Setter, r: Run, s: string): Run
    requires |w.tab| == 128
    decreases |s|
  {
    if s == "" then r else ProcessAll(w, who, ProcessChar(w, who, r, s[0]), s[1..])
  }

  function Start(s: Chan, params: seq<string>): Run {
    Run(s, true, params, {}, "", [])
  }

  /** u_mode_process: over-long strings are refused whole. */
  function Process(w: World, who: Setter, s: Chan, modes: string, params: seq<string>): Run
    requires |w.tab| == 128
  {
    if |modes| > MAX_MODES then Start(s, params) else ProcessAll(w, who, Start(s, params), modes)
  }
}
