/** What the modes mean for a channel, said on its fields and on the mode table alone: which part of
    the channel a character of the mode string changes, and to what; and over a whole mode string, that
    the last change of a part decides. */
module ModeMeaning {
  import opened Common
  import opened Hostmask
  import opened ModeSpec
  import opened ModeDelta

  /* ---------- what can change ---------- */

  /** Some bits of a member's status, some flag bits, the key, the forward, the limit, the copies of an
      entry of one of the lists. */
  datatype Part =
    | StatusPart(u: User, b: Bits)
    | FlagPart(b: Bits)
    | KeyPart
    | ForwardPart
    | LimitPart
    | EntryPart(ch: char, entry: string)

  datatype Shown = Mask(b: Bits) | Has(yes: bool) | Text(t: Option<string>) | Number(n: int) | Copies(k: nat)

  /** The characters of the ban, quiet, exception and invitation lists. */
  predicate IsList(ch: char) {
    ch in "bqeI"
  }

  function ListOf(c: Chan, ch: char): seq<string> {
    match ch
    case 'b' => c.lists.ban
    case 'q' => c.lists.quiet
    case 'e' => c.lists.banex
    case _ => c.lists.invex
  }

  /** The bits of `b` that are set in `a`. */
  function Both(a: Bits, b: Bits): Bits {
    a & b
  }

  function Not(b: Bits): Bits {
    !b
  }

  /** The bits of `a` that are not in `b`. */
  function Others(a: Bits, b: Bits): Bits {
    Both(a, Not(b))
  }

  function Show(c: Chan, part: Part): Shown {
    match part
    case StatusPart(u, b) => Mask(if u in c.status then Both(c.status[u], b) else 0)
    case FlagPart(b) => Has(Both(c.mode, b) != 0)
    case KeyPart => Text(c.key)
    case ForwardPart => Text(c.forward)
    case LimitPart => Number(c.limit)
    case EntryPart(ch, e) => Copies(multiset(ListOf(c, ch))[e])
  }

  /* ---------- which character changes it ---------- */

  /** The mode of a character: the low seven bits choose the slot. */
  function ModeOf(w: World, c: char): Option<Info>
    requires |w.tab| == 128
  {
    if c == '+' || c == '-' then None else w.tab[c as int % 128]
  }

  /** The setter may use the mode, in this direction, on this channel. */
  predicate MayUse(who: Setter, on: bool, info: Info) {
    who.force || (who.access && (info.operOnly ==> who.oper) && (on ==> !info.noSet) && (!on ==> !info.noReset))
  }

  /** The setter is an operator of the channel named, or is not held to it. */
  predicate MayName(w: World, who: Setter, c: Chan, name: string) {
    who.force ||
    (w.lookup(name) != NoChannel &&
     (who.user == None || w.lookup(name) == OtherChannel(true) ||
      (w.lookup(name) == ThisChannel && who.user.value in c.status && Both(c.status[who.user.value], w.opBits) != 0)))
  }

  /** A mask that is not in the list goes in while there are fewer than fifty entries; one that is there
      goes out. */
  predicate Goes(on: bool, l: seq<string>, mask: string) {
    if on then mask !in l && |l| < 50 else mask in l
  }

  /** An entry that goes in keeps 255 characters; one that goes out is the mask itself. */
  function Entry(on: bool, mask: string): string {
    if on && |mask| > 255 then mask[..255] else mask
  }

  /** The list without the first of the entries that are the mask. */
  function Without(l: seq<string>, mask: string): seq<string> {
    if l == [] then [] else if l[0] == mask then l[1..] else [l[0]] + Without(l[1..], mask)
  }

  function ListThen(on: bool, l: seq<string>, mask: string): seq<string> {
    if !Goes(on, l, mask) then l else if on then l + [Entry(on, mask)] else Without(l, mask)
  }

  predicate Changes(w: World, who: Setter, r: Run, c: char, part: Part)
    requires |w.tab| == 128
  {
    ModeOf(w, c).Some? && MayUse(who, r.on, ModeOf(w, c).value) &&
    var info := ModeOf(w, c).value;
    match part
    case StatusPart(u, b) =>
      info.kind.ModeStatus? && Both(info.kind.bits, b) != 0 &&
      r.params != [] && w.userByRef(r.params[0]) == Some(u) && u in r.chan.status
    case FlagPart(b) => info.kind.ModeFlag? && Both(info.kind.flag, b) != 0
    case KeyPart => info.kind == ModeExternal(Key) && (r.on ==> r.params != [])
    case ForwardPart =>
      info.kind == ModeExternal(Forward) && (r.on ==> r.params != [] && MayName(w, who, r.chan, r.params[0]))
    case LimitPart => info.kind == ModeExternal(Limit) && (r.on ==> r.params != [] && Atoi(r.params[0]) >= 1)
    case EntryPart(ch, e) =>
      info.kind.ModeList? && info.ch == ch && r.params != [] &&
      Goes(r.on, ListOf(r.chan, ch), Fix(r.params[0])) && e == Entry(r.on, Fix(r.params[0]))
  }

  /** The mode stands for all of these bits, or for just this flag. */
  predicate Covers(info: Info, part: Part) {
    (part.StatusPart? && info.kind.ModeStatus? ==> Both(info.kind.bits, part.b) == part.b) &&
    (part.FlagPart? && info.kind.ModeFlag? ==> info.kind.flag == part.b)
  }

  /** What it is changed to. */
  function Becomes(w: World, who: Setter, r: Run, c: char, part: Part): Shown
    requires |w.tab| == 128 && Changes(w, who, r, c, part)
  {
    match part
    case StatusPart(u, b) => Mask(if r.on then b else 0)
    case FlagPart(b) => Has(r.on)
    case KeyPart => Text(if r.on then Some(r.params[0]) else None)
    case ForwardPart => Text(if r.on then Some(r.params[0]) else None)
    case LimitPart => Number(if r.on then Atoi(r.params[0]) else -1)
    case EntryPart(ch, e) => Copies(Show(r.chan, part).k + if r.on then 1 else -1)
  }

  /* ---------- one character ---------- */

  lemma SetAll(had: Bits, bits: Bits, b: Bits)
    requires Both(bits, b) == b
    ensures Both(Turn(had, bits, true), b) == b
  {
  }

  lemma SetNone(had: Bits, bits: Bits, b: Bits)
    requires Both(bits, b) == 0
    ensures Both(Turn(had, bits, true), b) == Both(had, b)
  {
  }

  lemma ClearAll(had: Bits, bits: Bits, b: Bits)
    requires Both(bits, b) == b
    ensures Both(Turn(had, bits, false), b) == 0
  {
  }

  lemma ClearNone(had: Bits, bits: Bits, b: Bits)
    requires Both(bits, b) == 0
    ensures Both(Turn(had, bits, false), b) == Both(had, b)
  {
  }

  lemma Turns(had: Bits, bits: Bits, b: Bits, on: bool)
    ensures Both(bits, b) == b ==> Both(Turn(had, bits, on), b) == if on then b else 0
    ensures Both(bits, b) == 0 ==> Both(Turn(had, bits, on), b) == Both(had, b)
  {
    hide Both, Turn;
    if Both(bits, b) == b {
      if on {
        SetAll(had, bits, b);
      } else {
        ClearAll(had, bits, b);
      }
    }
    if Both(bits, b) == 0 {
      if on {
        SetNone(had, bits, b);
      } else {
        ClearNone(had, bits, b);
      }
    }
  }

  lemma BothIs(a: Bits, b: Bits)
    ensures AnyOf(a, b) <==> Both(a, b) != 0
  {
  }

  lemma BothSelf(a: Bits)
    ensures Both(a, a) == a
  {
  }

  lemma StatusDoes(w: World, who: Setter, s: Chan, on: bool, ch: char, bits: Bits, param: Option<string>, u: User, b: Bits)
    ensures var s' := DoStatus(w, who, s, on, ch, bits, param).chan;
            var hit := (who.access || who.force) && param.Some? && w.userByRef(param.value) == Some(u) && u in s.status;
            (hit && Both(bits, b) == b ==> Show(s', StatusPart(u, b)) == Mask(if on then b else 0)) &&
            (!hit || Both(bits, b) == 0 ==> Show(s', StatusPart(u, b)) == Show(s, StatusPart(u, b))) &&
            s' == s.(status := s'.status) && s'.status.Keys == s.status.Keys
  {
    if u in s.status {
      Turns(s.status[u], bits, b, on);
    }
    hide Both, Turn;
  }

  lemma FlagDoes(who: Setter, s: Chan, on: bool, ch: char, flag: Bits, b: Bits)
    ensures var s' := DoFlag(who, s, on, ch, flag).chan; var access := who.access || who.force;
            (access && flag == b && b != 0 ==> Show(s', FlagPart(b)) == Has(on)) &&
            (!access || Both(flag, b) == 0 ==> Show(s', FlagPart(b)) == Show(s, FlagPart(b))) &&
            s' == s.(mode := s'.mode)
  {
    Turns(s.mode, flag, b, on);
    BothIs(s.mode, flag);
    BothSelf(flag);
    hide Both, Turn, AnyOf;
  }

  lemma MayNameIs(w: World, who: Setter, s: Chan, name: string)
    ensures MayForward(w, who, s, name) == MayName(w, who, s, name)
  {
    if who.user.Some? && who.user.value in s.status {
      BothIs(s.status[who.user.value], w.opBits);
    }
    hide Both, AnyOf;
  }

  lemma ExternalDoes(w: World, who: Setter, s: Chan, on: bool, ch: char, fn: External, param: Option<string>)
    ensures var s' := DoExternal(w, who, s, on, ch, fn, param).chan; var access := who.access || who.force;
            s' == s.(key := s'.key, forward := s'.forward, limit := s'.limit) &&
            s'.key == (if fn.Key? && access && !on then None
                       else if fn.Key? && access && param.Some? then param else s.key) &&
            s'.forward == (if fn.Forward? && access && !on then None
                           else if fn.Forward? && access && param.Some? && MayName(w, who, s, param.value) then param
                           else s.forward) &&
            s'.limit == (if fn.Limit? && access && !on then -1
                         else if fn.Limit? && access && param.Some? && Atoi(param.value) >= 1 then Atoi(param.value)
                         else s.limit)
  {
    if param.Some? {
      MayNameIs(w, who, s, param.value);
    }
    hide Atoi, MayForward, MayName, Decimal;
  }

  lemma {:induction false} WithoutIs(l: seq<string>, mask: string)
    requires mask in l
    ensures Place(l, mask) < |l| && l[..Place(l, mask)] + l[Place(l, mask) + 1..] == Without(l, mask)
  {
    if l[0] != mask {
      WithoutIs(l[1..], mask);
      var k := Place(l[1..], mask);
      assert l[..k + 1] == [l[0]] + l[1..][..k];
    }
  }

  lemma {:induction false} CountsLess(l: seq<string>, mask: string, e: string)
    requires mask in l
    ensures multiset(Without(l, mask))[e] == multiset(l)[e] - if e == mask then 1 else 0
  {
    assert l == [l[0]] + l[1..];
    if l[0] != mask {
      CountsLess(l[1..], mask, e);
    }
  }

  lemma Counted(l: seq<string>, on: bool, mask: string, e: string)
    ensures multiset(ListThen(on, l, mask))[e] ==
            multiset(l)[e] + if Goes(on, l, mask) && e == Entry(on, mask) then if on then 1 else -1 else 0
  {
    if !on && mask in l {
      CountsLess(l, mask, e);
    }
    hide Without;
  }

  lemma ListOfIs(s: Chan, ch: char, x: char, l: seq<string>)
    requires IsList(ch) && IsList(x)
    ensures ListOf(s, ch) == GetList(s.lists, ch)
    ensures ListOf(s.(lists := SetList(s.lists, ch, l)), x) == if x == ch then l else ListOf(s, x)
  {
  }

  /** A list mode: the mask goes at the end of the list of its character or is taken out of it, and no
      other list is touched. */
  lemma ListDoes(who: Setter, s: Chan, on: bool, ch: char, param: Option<string>, x: char)
    requires IsList(ch) && IsList(x)
    ensures var s' := DoList(who, s, on, ch, param).chan;
            s' == s.(lists := s'.lists) &&
            ListOf(s', x) ==
              if (who.access || who.force) && param.Some? && ch == x then ListThen(on, ListOf(s, x), Fix(param.value))
              else ListOf(s, x)
  {
    if param.Some? {
      var l, mask := GetList(s.lists, ch), Fix(param.value);
      var i := Place(l, mask);
      if mask in l {
        WithoutIs(l, mask);
      }
      hide Fix, Place, ListOf, GetList, SetList, Without;
      ListOfIs(s, ch, x, l + [Cut(mask, 255)]);
      if i < |l| {
        ListOfIs(s, ch, x, l[..i] + l[i + 1..]);
      }
      ListOfIs(s, x, x, []);
    }
  }

  /** A character uses its mode or leaves the channel alone. */
  lemma UsesMode(w: World, who: Setter, r: Run, c: char)
    requires |w.tab| == 128
    ensures var r' := ProcessChar(w, who, r, c);
            if ModeOf(w, c).Some? && (who.force || ((ModeOf(w, c).value.operOnly ==> who.oper) &&
               (r.on ==> !ModeOf(w, c).value.noSet) && (!r.on ==> !ModeOf(w, c).value.noReset)))
            then
              r'.chan == Do(w, who, r.chan, r.on, ModeOf(w, c).value, if r.params == [] then None else Some(r.params[0])).chan
            else r'.chan == r.chan
  {
    hide Do;
  }

  lemma EntryDoes(who: Setter, s: Chan, on: bool, ch: char, param: Option<string>, x: char, e: string)
    requires IsList(ch) && IsList(x)
    ensures var l, s' := ListOf(s, x), DoList(who, s, on, ch, param).chan;
            var hit := (who.access || who.force) && param.Some? && ch == x;
            Show(s', EntryPart(x, e)) == Copies(multiset(l)[e] +
              if hit && Goes(on, l, Fix(param.value)) && e == Entry(on, Fix(param.value)) then if on then 1 else -1 else 0)
  {
    hide Fix, ListOf, DoList, Goes, Entry, ListThen;
    ListDoes(who, s, on, ch, param, x);
    if param.Some? {
      Counted(ListOf(s, x), on, Fix(param.value), e);
    }
  }

  /** The part is as the character says, or as it was. */
  ghost predicate Follows(w: World, who: Setter, r: Run, c: char, part: Part, s': Chan)
    requires |w.tab| == 128
  {
    if Changes(w, who, r, c, part)
    then Covers(ModeOf(w, c).value, part) ==> Show(s', part) == Becomes(w, who, r, c, part)
    else Show(s', part) == Show(r.chan, part)
  }

  function Param(r: Run): Option<string> {
    if r.params == [] then None else Some(r.params[0])
  }

  lemma CharStatus(w: World, who: Setter, r: Run, c: char, part: Part)
    requires |w.tab| == 128 && ModeOf(w, c).Some? && ModeOf(w, c).value.kind.ModeStatus?
    requires who.access || who.force ==> MayUse(who, r.on, ModeOf(w, c).value)
    ensures var info := ModeOf(w, c).value;
            Follows(w, who, r, c, part, DoStatus(w, who, r.chan, r.on, info.ch, info.kind.bits, Param(r)).chan)
  {
    var info := ModeOf(w, c).value;
    hide DoStatus, Both, ModeOf;
    if part.StatusPart? {
      StatusDoes(w, who, r.chan, r.on, info.ch, info.kind.bits, Param(r), part.u, part.b);
    } else {
      StatusDoes(w, who, r.chan, r.on, info.ch, info.kind.bits, Param(r), "", 0);
    }
  }

  lemma CharFlag(w: World, who: Setter, r: Run, c: char, part: Part)
    requires |w.tab| == 128 && ModeOf(w, c).Some? && ModeOf(w, c).value.kind.ModeFlag?
    requires who.access || who.force ==> MayUse(who, r.on, ModeOf(w, c).value)
    ensures var info := ModeOf(w, c).value;
            Follows(w, who, r, c, part, DoFlag(who, r.chan, r.on, info.ch, info.kind.flag).chan)
  {
    var info := ModeOf(w, c).value;
    var b := if part.FlagPart? then part.b else 0;
    NoBits(info.kind.flag);
    hide DoFlag, Both, ModeOf;
    FlagDoes(who, r.chan, r.on, info.ch, info.kind.flag, b);
  }

  lemma NoBits(a: Bits)
    ensures Both(a, 0) == 0
  {
  }

  lemma CharExternal(w: World, who: Setter, r: Run, c: char, part: Part)
    requires |w.tab| == 128 && ModeOf(w, c).Some? && ModeOf(w, c).value.kind.ModeExternal?
    requires who.access || who.force ==> MayUse(who, r.on, ModeOf(w, c).value)
    ensures var info := ModeOf(w, c).value;
            Follows(w, who, r, c, part, DoExternal(w, who, r.chan, r.on, info.ch, info.kind.fn, Param(r)).chan)
  {
    var info := ModeOf(w, c).value;
    hide DoExternal, Both, ModeOf, MayName, Atoi;
    ExternalDoes(w, who, r.chan, r.on, info.ch, info.kind.fn, Param(r));
  }

  lemma CharEntry(w: World, who: Setter, r: Run, c: char, part: Part)
    requires |w.tab| == 128 && ModeOf(w, c).Some? && ModeOf(w, c).value.kind.ModeList? && part.EntryPart?
    requires who.access || who.force ==> MayUse(who, r.on, ModeOf(w, c).value)
    requires IsList(ModeOf(w, c).value.ch) && IsList(part.ch)
    ensures Follows(w, who, r, c, part, DoList(who, r.chan, r.on, ModeOf(w, c).value.ch, Param(r)).chan)
  {
    hide DoList, Both, ModeOf, ListOf, Fix, Goes, Entry, ListThen, IsList;
    EntryDoes(who, r.chan, r.on, ModeOf(w, c).value.ch, Param(r), part.ch, part.entry);
  }

  lemma CharList(w: World, who: Setter, r: Run, c: char, part: Part)
    requires |w.tab| == 128 && ModeOf(w, c).Some? && ModeOf(w, c).value.kind.ModeList?
    requires who.access || who.force ==> MayUse(who, r.on, ModeOf(w, c).value)
    requires IsList(ModeOf(w, c).value.ch) && (part.EntryPart? ==> IsList(part.ch))
    ensures Follows(w, who, r, c, part, DoList(who, r.chan, r.on, ModeOf(w, c).value.ch, Param(r)).chan)
  {
    hide DoList, Both, ModeOf, ListOf, Fix, Goes, Entry, ListThen, IsList;
    if part.EntryPart? {
      CharEntry(w, who, r, c, part);
    } else {
      ListDoes(who, r.chan, r.on, ModeOf(w, c).value.ch, Param(r), ModeOf(w, c).value.ch);
    }
  }

  lemma NoAccess(w: World, who: Setter, r: Run, c: char, part: Part)
    requires |w.tab| == 128 && (ModeOf(w, c).Some? ==> !MayUse(who, r.on, ModeOf(w, c).value))
    ensures Follows(w, who, r, c, part, r.chan)
  {
    hide MayUse;
  }

  lemma ModeMeans(w: World, who: Setter, r: Run, c: char, part: Part)
    requires |w.tab| == 128 && ModeOf(w, c).Some? && (part.EntryPart? ==> IsList(part.ch))
    requires ModeOf(w, c).value.kind.ModeList? ==> IsList(ModeOf(w, c).value.ch)
    requires who.access || who.force ==> MayUse(who, r.on, ModeOf(w, c).value)
    ensures Follows(w, who, r, c, part, Do(w, who, r.chan, r.on, ModeOf(w, c).value, Param(r)).chan)
  {
    hide DoStatus, DoFlag, DoList, DoExternal, Follows, ModeOf, MayUse;
    match ModeOf(w, c).value.kind {
      case ModeExternal(_) => CharExternal(w, who, r, c, part);
      case ModeStatus(_) => CharStatus(w, who, r, c, part);
      case ModeFlag(_) => CharFlag(w, who, r, c, part);
      case ModeList => CharList(w, who, r, c, part);
    }
  }

  /** What a character of the mode string does to any part of the channel: it is changed as the mode and
      the sign say if the setter may, the parameter is there and is good, and else it stays. */
  lemma CharMeans(w: World, who: Setter, r: Run, c: char, part: Part)
    requires WellFormed(w.tab) && (part.EntryPart? ==> IsList(part.ch))
    ensures Changes(w, who, r, c, part) && Covers(ModeOf(w, c).value, part) ==>
            Show(ProcessChar(w, who, r, c).chan, part) == Becomes(w, who, r, c, part)
    ensures !Changes(w, who, r, c, part) ==> Show(ProcessChar(w, who, r, c).chan, part) == Show(r.chan, part)
  {
    UsesMode(w, who, r, c);
    ListsAreFour(w, c);
    var s' := ProcessChar(w, who, r, c).chan;
    assert Follows(w, who, r, c, part, s') by {
      hide ProcessChar, WellFormed, Do, Follows, ModeOf;
      if s' == r.chan && (ModeOf(w, c).None? || !MayUse(who, r.on, ModeOf(w, c).value)) {
        NoAccess(w, who, r, c, part);
      } else {
        ModeMeans(w, who, r, c, part);
      }
    }
    hide ProcessChar, WellFormed, Changes, Covers, Becomes, Show, ModeOf;
  }

  lemma ListsAreFour(w: World, c: char)
    requires WellFormed(w.tab)
    ensures |w.tab| == 128
    ensures ModeOf(w, c).Some? && ModeOf(w, c).value.kind.ModeList? ==> IsList(ModeOf(w, c).value.ch)
  {
  }

  /* ---------- each kind of mode on the fields ---------- */

  /** The character stands for this mode, and the setter may use it in this direction. */
  predicate Stands(w: World, who: Setter, on: bool, c: char, info: Info)
    requires |w.tab| == 128
  {
    c != '+' && c != '-' && w.tab[c as int % 128] == Some(info) &&
    (who.force || (who.access && (info.operOnly ==> who.oper) && (on ==> !info.noSet) && (!on ==> !info.noReset)))
  }

  lemma StandsDoes(w: World, who: Setter, r: Run, c: char, info: Info)
    requires |w.tab| == 128 && Stands(w, who, r.on, c, info)
    ensures ProcessChar(w, who, r, c).chan == Do(w, who, r.chan, r.on, info, Param(r)).chan
    ensures who.access || who.force
  {
    hide Do;
    UsesMode(w, who, r, c);
  }

  lemma NoneInNot(b: Bits)
    ensures Both(b, Not(b)) == 0
  {
  }

  lemma TurnedBits(had: Bits, bits: Bits, on: bool)
    ensures Both(Turn(had, bits, on), bits) == if on then bits else 0
    ensures Others(Turn(had, bits, on), bits) == Others(had, bits)
  {
    hide Turn, Both, Not;
    BothSelf(bits);
    Turns(had, bits, bits, on);
    NoneInNot(bits);
    Turns(had, bits, Not(bits), on);
  }

  /** A status mode on a member: '+' gives him all of its bits, '-' takes all of them, and no other bit,
      no other member and nothing else of the channel changes. */
  lemma StatusMode(w: World, who: Setter, r: Run, c: char, info: Info, u: User)
    requires |w.tab| == 128 && Stands(w, who, r.on, c, info) && info.kind.ModeStatus?
    requires r.params != [] && w.userByRef(r.params[0]) == Some(u) && u in r.chan.status
    ensures var c', bits, had := ProcessChar(w, who, r, c).chan, info.kind.bits, r.chan.status[u];
            u in c'.status && c' == r.chan.(status := r.chan.status[u := c'.status[u]]) &&
            Both(c'.status[u], bits) == (if r.on then bits else 0) && Others(c'.status[u], bits) == Others(had, bits)
  {
    hide ProcessChar, Stands, Turn, Both, Others;
    StandsDoes(w, who, r, c, info);
    TurnedBits(r.chan.status[u], info.kind.bits, r.on);
  }

  /** A flag mode: the flag is set by '+' and cleared by '-', and nothing else changes. */
  lemma FlagMode(w: World, who: Setter, r: Run, c: char, info: Info)
    requires |w.tab| == 128 && Stands(w, who, r.on, c, info) && info.kind.ModeFlag? && info.kind.flag != 0
    ensures var c', flag := ProcessChar(w, who, r, c).chan, info.kind.flag;
            c' == r.chan.(mode := c'.mode) && (Both(c'.mode, flag) != 0 <==> r.on) &&
            Others(c'.mode, flag) == Others(r.chan.mode, flag)
  {
    hide ProcessChar, Stands, Turn, Both, Others, AnyOf;
    StandsDoes(w, who, r, c, info);
    BothIs(r.chan.mode, info.kind.flag);
    TurnedBits(r.chan.mode, info.kind.flag, r.on);
  }

  /** The key and the limit: '+' takes the parameter, for the limit the number it writes if that is
      positive; '-' clears them. */
  lemma KeyAndLimit(w: World, who: Setter, r: Run, c: char, info: Info)
    requires |w.tab| == 128 && Stands(w, who, r.on, c, info) && (r.on ==> r.params != [])
    ensures info.kind == ModeExternal(Key) ==>
            ProcessChar(w, who, r, c).chan == r.chan.(key := if r.on then Some(r.params[0]) else None)
    ensures info.kind == ModeExternal(Limit) ==>
            ProcessChar(w, who, r, c).chan ==
              if !r.on then r.chan.(limit := -1)
              else if Atoi(r.params[0]) >= 1 then r.chan.(limit := Atoi(r.params[0])) else r.chan
  {
    hide ProcessChar, Stands, Atoi, Decimal;
    StandsDoes(w, who, r, c, info);
  }

  /** The forward: '+' takes the name of a channel that exists and where the setter is an operator,
      unless no user sets it; a server that is told everything takes any name. */
  lemma ForwardMode(w: World, who: Setter, r: Run, c: char, info: Info)
    requires |w.tab| == 128 && Stands(w, who, r.on, c, info) && info.kind == ModeExternal(Forward)
    requires r.on ==> r.params != []
    ensures ProcessChar(w, who, r, c).chan ==
            if !r.on then r.chan.(forward := None)
            else if MayName(w, who, r.chan, r.params[0]) then r.chan.(forward := Some(r.params[0])) else r.chan
  {
    hide ProcessChar, Stands, MayName, MayForward;
    StandsDoes(w, who, r, c, info);
    ExternalDoes(w, who, r.chan, r.on, info.ch, Forward, Param(r));
  }

  /** A list mode: a mask that the list does not have goes to its end, cut to 255 characters, unless
      there are fifty already; one that it has is taken out at its first place; no other list and
      nothing else of the channel changes. */
  lemma ListMode(w: World, who: Setter, r: Run, c: char, info: Info, x: char)
    requires WellFormed(w.tab) && Stands(w, who, r.on, c, info) && info.kind.ModeList? && r.params != [] && IsList(x)
    ensures var c', l, mask := ProcessChar(w, who, r, c).chan, ListOf(r.chan, x), Fix(r.params[0]);
            c' == r.chan.(lists := c'.lists) &&
            if x != info.ch then ListOf(c', x) == l
            else if r.on then
              ListOf(c', x) == if mask in l || |l| >= 50 then l else l + [if |mask| <= 255 then mask else mask[..255]]
            else if mask !in l then ListOf(c', x) == l
            else exists i :: 0 <= i < |l| && l[i] == mask && mask !in l[..i] && ListOf(c', x) == l[..i] + l[i + 1..]
  {
    hide ProcessChar, Stands, ListOf, Fix, Without, WellFormed, IsList, DoList, ModeOf;
    ListsAreFour(w, c);
    StandsDoes(w, who, r, c, info);
    StandsMode(w, who, r.on, c, info);
    ListDoes(who, r.chan, r.on, info.ch, Param(r), x);
    var l, mask := ListOf(r.chan, x), Fix(r.params[0]);
    if mask in l {
      WithoutIs(l, mask);
      var i := Place(l, mask);
      assert l[i] == mask && mask !in l[..i];
    }
  }

  lemma StandsMode(w: World, who: Setter, on: bool, c: char, info: Info)
    requires |w.tab| == 128 && Stands(w, who, on, c, info)
    ensures ModeOf(w, c) == Some(info)
  {
  }
}
