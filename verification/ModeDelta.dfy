/** The mode string printed while one is processed is a faithful delta: a server that processes it
    with all checks off, or refuses nothing of it, starting from the same channel, ends with the same
    channel, uses up exactly the printed parameters, and prints the same string again. */
module ModeDelta {
  import opened Hostmask
  import opened ModeSpec
  import opened Common

  /* ---------- the printed text ---------- */

  function Sign(on: bool): string {
    if on then "+" else "-"
  }

  /** The mode characters: a sign whenever it differs from the last one printed. */
  function Chars(prev: Option<bool>, items: seq<Item>): string
    decreases |items|
  {
    if items == [] then ""
    else (if prev == Some(items[0].on) then "" else Sign(items[0].on)) + [items[0].ch] +
         Chars(Some(items[0].on), items[1..])
  }

  /** The parameters, in the order of the modes they belong to. */
  function Params(items: seq<Item>): seq<string> {
    if items == [] then []
    else (if items[0].param.Some? then [items[0].param.value] else []) + Params(items[1..])
  }

  /** What processing `s` from `r` on prints. */
  function Printed(w: World, who: Setter, r: Run, s: string): seq<Item>
    requires |w.tab| == 128
    decreases |s|
  {
    if s == "" then []
    else ProcessChar(w, who, r.(out := []), s[0]).out + Printed(w, who, ProcessChar(w, who, r, s[0]), s[1..])
  }

  lemma {:induction false} PrintedIsOut(w: World, who: Setter, r: Run, s: string)
    requires |w.tab| == 128
    ensures ProcessAll(w, who, r, s).out == r.out + Printed(w, who, r, s)
    decreases |s|
  {
    if s != "" {
      hide ProcessChar;
      var r' := ProcessChar(w, who, r, s[0]);
      CharPrintsOne(w, who, r, s[0]);
      PrintedIsOut(w, who, r', s[1..]);
      Assoc(r.out, ProcessChar(w, who, r.(out := []), s[0]).out, Printed(w, who, r', s[1..]));
    }
  }

  /* ---------- what it takes ---------- */

  /** A limit is absent or positive: so it is created and so every mode leaves it. */
  predicate Sane(s: Chan) {
    s.limit == -1 || 1 <= s.limit < 0x8000_0000
  }

  /** The printed change of one list mode says the same to the other server, if it prints one. An
      entry keeps 255 characters of the mask: of them no stray '@' may begin the ident, and completed
      once more they may not be in the list already. What a removal prints is the whole entry. */
  predicate MaskRepeats(who: Setter, s: Chan, on: bool, ch: char, p: string) {
    DoList(who, s, on, ch, Some(p)).out.Some? ==>
      if on then !StrayWithin(p, 255) && Fix(Cut(Fix(p), 255)) !in GetList(s.lists, ch) else !StrayWithin(p, 511)
  }

  /** So it is for every mask that is kept whole and has no stray '@'. */
  predicate PlainMask(p: string) {
    |Fix(p)| <= 255 && !StrayAt(p)
  }

  lemma PlainMaskRepeats(who: Setter, s: Chan, on: bool, ch: char, p: string)
    requires PlainMask(p)
    ensures MaskRepeats(who, s, on, ch, p)
  {
    hide StrayAt;
    KeptAgain(p);
    FixAgain(p);
    hide Fix;
  }

  /** A list mode that is let through and has a parameter. */
  predicate TakesMask(w: World, who: Setter, r: Run, c: char)
    requires |w.tab| == 128
  {
    c !in "+-" && FindInfo(w.tab, c).Some? && FindInfo(w.tab, c).value.kind.ModeList? && r.params != [] &&
    Barred(who, r.on, FindInfo(w.tab, c).value).None?
  }

  /** Every mask that a list mode of the string takes repeats. */
  predicate MasksRepeat(w: World, who: Setter, r: Run, s: string)
    requires |w.tab| == 128
    decreases |s|
  {
    s != "" ==>
      (TakesMask(w, who, r, s[0]) ==>
         MaskRepeats(who, r.chan, r.on, FindInfo(w.tab, s[0]).value.ch, r.params[0])) &&
      MasksRepeat(w, who, ProcessChar(w, who, r, s[0]), s[1..])
  }

  /** The other server: the same modes, access to the channel, and it finds every member by uid. */
  ghost predicate Replica(w: World, s: Chan, w': World, who': Setter) {
    w'.tab == w.tab && HasAccess(who') && forall u :: u in s.status ==> w'.userByRef(u) == Some(u)
  }

  /** With checks off every change is taken; with checks on one may be refused for its mode or, if it
      sets a forward, for the channel it names. */
  predicate Accepts(w': World, who': Setter, c: Chan, i: Item)
    requires |w'.tab| == 128
  {
    who'.force ||
    (FindInfo(w'.tab, i.ch).Some? &&
     var info := FindInfo(w'.tab, i.ch).value;
     Barred(who', i.on, info).None? &&
     (info.kind == ModeExternal(Forward) && i.on && i.param.Some? ==> MayForward(w', who', c, i.param.value)))
  }

  /** The other server refuses no printed change of the string. */
  predicate AllAccepted(w: World, who: Setter, r: Run, s: string, w': World, who': Setter)
    requires |w.tab| == 128 && |w'.tab| == 128
    decreases |s|
  {
    s != "" ==>
      var out := ProcessChar(w, who, r.(out := []), s[0]).out;
      (out != [] ==> Accepts(w', who', r.chan, out[0])) &&
      AllAccepted(w, who, ProcessChar(w, who, r, s[0]), s[1..], w', who')
  }

  lemma {:induction false} ForceAccepts(w: World, who: Setter, r: Run, s: string, w': World, who': Setter)
    requires |w.tab| == 128 && |w'.tab| == 128 && who'.force
    ensures AllAccepted(w, who, r, s, w', who')
    decreases |s|
  {
    if s != "" {
      hide ProcessChar;
      ForceAccepts(w, who, ProcessChar(w, who, r, s[0]), s[1..], w', who');
    }
  }

  /* ---------- one mode ---------- */

  /** A mode that prints nothing changes nothing. */
  lemma SilentStep(w: World, who: Setter, s: Chan, on: bool, info: Info, param: Option<string>)
    requires Sane(s) && Do(w, who, s, on, info, param).out.None?
    ensures Do(w, who, s, on, info, param).chan == s
  {
    hide Fix, Place, Atoi, MayForward;
  }

  /** The effect `e` of a mode prints a change that the other server repeats: without a parameter
      whatever parameter comes next, which it leaves, with one by using it. */
  ghost predicate Repeats(e: Effect, on: bool, info: Info, w': World, who': Setter, s: Chan) {
    e.out.Some? && e.err.None? && e.out.value.on == on && e.out.value.ch == info.ch &&
    info.kind != ModeExternal(NoFunction) &&
    var i := e.out.value;
    (i.param.Some? ==> Do(w', who', s, on, info, i.param) == Effect(e.chan, true, Some(i), None)) &&
    (i.param.None? ==> forall q :: Do(w', who', s, on, info, q) == Effect(e.chan, false, Some(i), None))
  }

  lemma LoudList(w: World, who: Setter, s: Chan, on: bool, info: Info, param: Option<string>, w': World, who': Setter)
    requires Replica(w, s, w', who') && info.kind.ModeList?
    requires param.Some? ==> MaskRepeats(who, s, on, info.ch, param.value)
    requires Do(w, who, s, on, info, param).out.Some?
    ensures Repeats(Do(w, who, s, on, info, param), on, info, w', who', s)
  {
    hide Fix, Place, StrayWithin;
    if param.Some? {
      KeptAgain(param.value);
      FixAgain(param.value);
    }
  }

  lemma LoudExternal(w: World, who: Setter, s: Chan, on: bool, info: Info, param: Option<string>, w': World, who': Setter)
    requires Sane(s) && Replica(w, s, w', who') && info.kind.ModeExternal?
    requires info.kind.fn.Forward? && on && param.Some? ==> MayForward(w', who', s, param.value)
    requires Do(w, who, s, on, info, param).out.Some?
    ensures Repeats(Do(w, who, s, on, info, param), on, info, w', who', s)
  {
    hide Atoi, Decimal, MayForward;
    if info.kind.fn.Limit? && on && param.Some? && Atoi(param.value) >= 1 {
      AtoiOfDecimal(Atoi(param.value));
    }
  }

  lemma LoudStatus(w: World, who: Setter, s: Chan, on: bool, info: Info, param: Option<string>, w': World, who': Setter)
    requires Replica(w, s, w', who') && info.kind.ModeStatus?
    requires Do(w, who, s, on, info, param).out.Some?
    ensures Repeats(Do(w, who, s, on, info, param), on, info, w', who', s)
  {
    hide Turn, AnyOf;
  }

  lemma LoudFlag(w: World, who: Setter, s: Chan, on: bool, info: Info, param: Option<string>, w': World, who': Setter)
    requires Replica(w, s, w', who') && info.kind.ModeFlag?
    requires Do(w, who, s, on, info, param).out.Some?
    ensures Repeats(Do(w, who, s, on, info, param), on, info, w', who', s)
  {
    hide Turn, AnyOf;
  }

  lemma PrintsItself(w: World, who: Setter, s: Chan, on: bool, info: Info, param: Option<string>)
    requires Do(w, who, s, on, info, param).out.Some?
    ensures var i := Do(w, who, s, on, info, param).out.value;
            i.on == on && i.ch == info.ch && (info.kind == ModeExternal(Forward) && on && param.Some? ==> i.param == param)
  {
    hide Fix, Place, Atoi, MayForward, Turn, AnyOf, Decimal;
  }

  lemma LoudStep(w: World, who: Setter, s: Chan, on: bool, info: Info, param: Option<string>, w': World, who': Setter)
    requires Sane(s) && Replica(w, s, w', who') && |w.tab| == 128 && FindInfo(w.tab, info.ch) == Some(info)
    requires info.kind.ModeList? && param.Some? ==> MaskRepeats(who, s, on, info.ch, param.value)
    requires Do(w, who, s, on, info, param).out.Some?
    requires Accepts(w', who', s, Do(w, who, s, on, info, param).out.value)
    ensures Repeats(Do(w, who, s, on, info, param), on, info, w', who', s)
  {
    PrintsItself(w, who, s, on, info, param);
    assert w'.tab == w.tab;
    hide MaskRepeats, Do, Repeats, Replica, Sane, MayForward;
    match info.kind {
      case ModeExternal(_) =>
        assert info.kind.fn.Forward? ==> info.kind == ModeExternal(Forward);
        LoudExternal(w, who, s, on, info, param, w', who');
      case ModeStatus(_) =>
        LoudStatus(w, who, s, on, info, param, w', who');
      case ModeFlag(_) =>
        LoudFlag(w, who, s, on, info, param, w', who');
      case ModeList =>
        LoudList(w, who, s, on, info, param, w', who');
    }
  }

  lemma StepKeeps(w: World, who: Setter, s: Chan, on: bool, info: Info, param: Option<string>)
    requires Sane(s)
    ensures Sane(Do(w, who, s, on, info, param).chan)
    ensures Do(w, who, s, on, info, param).chan.status.Keys == s.status.Keys
  {
    hide DoExternal, DoStatus, DoFlag, DoList, Sane;
    match info.kind {
      case ModeExternal(fn) =>
        ExternalKeeps(w, who, s, on, info.ch, fn, param);
      case ModeStatus(bits) =>
        StatusKeeps(w, who, s, on, info.ch, bits, param);
      case ModeFlag(flag) =>
        FlagKeeps(who, s, on, info.ch, flag);
      case ModeList =>
        ListKeeps(who, s, on, info.ch, param);
    }
  }

  lemma ExternalKeeps(w: World, who: Setter, s: Chan, on: bool, ch: char, fn: External, param: Option<string>)
    requires Sane(s)
    ensures Sane(DoExternal(w, who, s, on, ch, fn, param).chan)
    ensures DoExternal(w, who, s, on, ch, fn, param).chan.status == s.status
  {
    hide Atoi, MayForward;
  }

  lemma StatusKeeps(w: World, who: Setter, s: Chan, on: bool, ch: char, bits: Bits, param: Option<string>)
    requires Sane(s)
    ensures Sane(DoStatus(w, who, s, on, ch, bits, param).chan)
    ensures DoStatus(w, who, s, on, ch, bits, param).chan.status.Keys == s.status.Keys
  {
    hide Turn;
  }

  lemma FlagKeeps(who: Setter, s: Chan, on: bool, ch: char, flag: Bits)
    requires Sane(s)
    ensures Sane(DoFlag(who, s, on, ch, flag).chan) && DoFlag(who, s, on, ch, flag).chan.status == s.status
  {
    hide Turn, AnyOf;
  }

  lemma ListKeeps(who: Setter, s: Chan, on: bool, ch: char, param: Option<string>)
    requires Sane(s)
    ensures Sane(DoList(who, s, on, ch, param).chan) && DoList(who, s, on, ch, param).chan.status == s.status
  {
    hide Fix, Place, GetList, SetList;
  }

  /* ---------- the whole string ---------- */

  /** One character that prints: what is read back for it. */
  lemma CharRepeated(w: World, who: Setter, r: Run, c: char, w': World, who': Setter, q: Run)
    requires WellFormed(w.tab) && Sane(r.chan) && Replica(w, r.chan, w', who')
    requires MasksRepeat(w, who, r, [c]) && ProcessChar(w, who, r.(out := []), c).out != []
    requires |w'.tab| == 128 && Accepts(w', who', r.chan, ProcessChar(w, who, r.(out := []), c).out[0])
    requires var i := ProcessChar(w, who, r.(out := []), c).out[0];
             q.chan == r.chan && q.on == i.on && (i.param.Some? ==> q.params != [] && q.params[0] == i.param.value)
    ensures var r', i := ProcessChar(w, who, r, c), ProcessChar(w, who, r.(out := []), c).out[0];
            r'.out == r.out + [i] && ProcessChar(w, who, r.(out := []), c).out == [i] && i.ch !in "+-" &&
            ProcessChar(w', who', q, i.ch) ==
              q.(chan := r'.chan, params := if i.param.Some? then q.params[1..] else q.params, out := q.out + [i])
  {
    hide Do, MaskRepeats, Sane, MasksRepeat, Replica, Accepts;
    var info := FindInfo(w.tab, c).value;
    var param := if r.params == [] then None else Some(r.params[0]);
    HeadRepeats(w, who, r, c);
    ReplicaTable(w, r.chan, w', who');
    assert FindInfo(w.tab, info.ch) == Some(info) && info.ch !in "+-";
    LoudStep(w, who, r.chan, r.on, info, param, w', who');
    NotBarred(w', who', r.chan, Do(w, who, r.chan, r.on, info, param).out.value);
  }

  lemma NotBarred(w': World, who': Setter, c: Chan, i: Item)
    requires |w'.tab| == 128 && Accepts(w', who', c, i) && FindInfo(w'.tab, i.ch).Some?
    ensures Barred(who', i.on, FindInfo(w'.tab, i.ch).value).None?
  {
  }

  lemma HeadRepeats(w: World, who: Setter, r: Run, c: char)
    requires |w.tab| == 128 && MasksRepeat(w, who, r, [c])
    ensures TakesMask(w, who, r, c) ==>
            MaskRepeats(who, r.chan, r.on, FindInfo(w.tab, c).value.ch, r.params[0])
  {
    hide MaskRepeats, ProcessChar;
  }

  lemma Unfold(w: World, who: Setter, r: Run, s: string)
    requires |w.tab| == 128 && s != ""
    ensures Printed(w, who, r, s) ==
            ProcessChar(w, who, r.(out := []), s[0]).out + Printed(w, who, ProcessChar(w, who, r, s[0]), s[1..])
    ensures MasksRepeat(w, who, r, s) ==>
            MasksRepeat(w, who, r, [s[0]]) && MasksRepeat(w, who, ProcessChar(w, who, r, s[0]), s[1..])
    ensures ProcessAll(w, who, r, s) == ProcessAll(w, who, ProcessChar(w, who, r, s[0]), s[1..])
  {
    hide MaskRepeats, ProcessChar;
    assert [s[0]][1..] == "";
  }

  lemma HeadAccepted(w: World, who: Setter, r: Run, s: string, w': World, who': Setter)
    requires |w.tab| == 128 && |w'.tab| == 128 && s != "" && AllAccepted(w, who, r, s, w', who')
    ensures ProcessChar(w, who, r.(out := []), s[0]).out != [] ==>
            Accepts(w', who', r.chan, ProcessChar(w, who, r.(out := []), s[0]).out[0])
    ensures AllAccepted(w, who, ProcessChar(w, who, r, s[0]), s[1..], w', who')
  {
    hide ProcessChar, Accepts;
  }

  /** Reading back a printed sign and a mode character. */
  lemma ReadItem(w: World, who: Setter, q: Run, prev: Option<bool>, i: Item, rest: seq<Item>)
    requires |w.tab| == 128 && (prev.Some? ==> q.on == prev.value) && i.ch !in "+-"
    ensures ProcessAll(w, who, q, Chars(prev, [i] + rest)) ==
            ProcessAll(w, who, ProcessChar(w, who, q.(on := i.on), i.ch), Chars(Some(i.on), rest))
  {
    var s := Chars(prev, [i] + rest);
    assert ([i] + rest)[1..] == rest;
    if prev == Some(i.on) {
      assert s == [i.ch] + Chars(Some(i.on), rest);
      assert s[1..] == Chars(Some(i.on), rest);
      assert q.(on := i.on) == q;
    } else {
      assert s == Sign(i.on) + [i.ch] + Chars(Some(i.on), rest);
      assert ProcessChar(w, who, q, s[0]) == q.(on := i.on);
      assert s[1..] == [i.ch] + Chars(Some(i.on), rest);
      assert s[1..][1..] == Chars(Some(i.on), rest);
    }
  }

  /** Reading the printed text of `items` from `q` on gives the channel `final`, uses exactly the
      parameters there are, prints `items` again and meets no error. */
  ghost predicate ReadsBack(w: World, who: Setter, q: Run, prev: Option<bool>, items: seq<Item>, final: Chan)
    requires |w.tab| == 128
  {
    var z := ProcessAll(w, who, q, Chars(prev, items));
    z.chan == final && z.params == [] && z.out == q.out + items && z.errors == q.errors && z.unknown == q.unknown
  }

  lemma ReadsBackItem(w: World, who: Setter, q: Run, q': Run, prev: Option<bool>, i: Item, rest: seq<Item>, final: Chan)
    requires |w.tab| == 128 && (prev.Some? ==> q.on == prev.value) && i.ch !in "+-"
    requires q' == ProcessChar(w, who, q.(on := i.on), i.ch)
    requires q'.out == q.out + [i] && q'.errors == q.errors && q'.unknown == q.unknown
    requires ReadsBack(w, who, q', Some(i.on), rest, final)
    ensures ReadsBack(w, who, q, prev, [i] + rest, final)
  {
    hide ProcessChar, ProcessAll, Chars;
    ReadItem(w, who, q, prev, i, rest);
    assert q.out + [i] + rest == q.out + ([i] + rest);
  }

  lemma ReadsBackNothing(w: World, who: Setter, q: Run, prev: Option<bool>)
    requires |w.tab| == 128 && q.params == []
    ensures ReadsBack(w, who, q, prev, [], q.chan)
  {
  }

  /** The induction: the reader `q` has the same channel, the parameters of what is still to be
      printed, and the sign last printed. */
  lemma {:induction false} Replays(w: World, who: Setter, r: Run, s: string, w': World, who': Setter, q: Run, prev: Option<bool>)
    requires WellFormed(w.tab) && Sane(r.chan) && Replica(w, r.chan, w', who') && MasksRepeat(w, who, r, s)
    requires |w'.tab| == 128 && AllAccepted(w, who, r, s, w', who')
    requires q.chan == r.chan && q.params == Params(Printed(w, who, r, s)) && (prev.Some? ==> q.on == prev.value)
    ensures ReadsBack(w', who', q, prev, Printed(w, who, r, s), ProcessAll(w, who, r, s).chan)
    decreases |s|
  {
    ReplicaTable(w, r.chan, w', who');
    if s == "" {
      ReadsBackNothing(w', who', q, prev);
    } else {
      hide Do, MaskRepeats, Replica, Sane, ProcessChar, WellFormed, ReadsBack, Params, AllAccepted, MasksRepeat;
      var r', first := ProcessChar(w, who, r, s[0]), ProcessChar(w, who, r.(out := []), s[0]).out;
      var rest := Printed(w, who, r', s[1..]);
      Unfold(w, who, r, s);
      HeadAccepted(w, who, r, s, w', who');
      CharKeeps(w, who, r, s[0], w', who');
      if first == [] {
        assert first + rest == rest;
        Replays(w, who, r', s[1..], w', who', q, prev);
      } else {
        CharPrintsOne(w, who, r, s[0]);
        assert first == [first[0]];
        ReplaysItem(w, who, r, s, w', who', q, prev, first[0], rest);
      }
    }
  }

  lemma {:induction false} ReplaysItem(w: World, who: Setter, r: Run, s: string, w': World, who': Setter, q: Run,
                                       prev: Option<bool>, i: Item, rest: seq<Item>)
    requires WellFormed(w.tab) && Sane(r.chan) && Replica(w, r.chan, w', who') && MasksRepeat(w, who, r, s)
    requires |w'.tab| == 128 && AllAccepted(w, who, r, s, w', who')
    requires s != "" && ProcessChar(w, who, r.(out := []), s[0]).out == [i]
    requires rest == Printed(w, who, ProcessChar(w, who, r, s[0]), s[1..])
    requires q.chan == r.chan && q.params == Params([i] + rest) && (prev.Some? ==> q.on == prev.value)
    ensures |w'.tab| == 128
    ensures ReadsBack(w', who', q, prev, [i] + rest, ProcessAll(w, who, r, s).chan)
    decreases |s|, 0
  {
    ReplicaTable(w, r.chan, w', who');
    hide Do, MaskRepeats, Replica, Sane, ProcessChar, WellFormed, ReadsBack, Params, AllAccepted, MasksRepeat, Accepts;
    var q1, r' := q.(on := i.on), ProcessChar(w, who, r, s[0]);
    Unfold(w, who, r, s);
    HeadAccepted(w, who, r, s, w', who');
    CharKeeps(w, who, r, s[0], w', who');
    ParamsHead(i, rest);
    CharRepeated(w, who, r, s[0], w', who', q1);
    var q' := ProcessChar(w', who', q1, i.ch);
    Replays(w, who, r', s[1..], w', who', q', Some(i.on));
    ReadsBackItem(w', who', q, q', prev, i, rest, ProcessAll(w, who, r, s).chan);
  }

  lemma ReplicaTable(w: World, s: Chan, w': World, who': Setter)
    requires WellFormed(w.tab) && Replica(w, s, w', who')
    ensures |w'.tab| == 128 && w'.tab == w.tab && HasAccess(who')
  {
  }

  lemma ParamsHead(i: Item, rest: seq<Item>)
    ensures Params([i] + rest) == (if i.param.Some? then [i.param.value] else []) + Params(rest)
  {
    assert ([i] + rest)[1..] == rest;
  }

  lemma CharPrintsOne(w: World, who: Setter, r: Run, c: char)
    requires |w.tab| == 128
    ensures var out := ProcessChar(w, who, r.(out := []), c).out;
            ProcessChar(w, who, r, c).out == r.out + out && |out| <= 1
  {
    hide Do;
  }

  lemma CharKeeps(w: World, who: Setter, r: Run, c: char, w': World, who': Setter)
    requires |w.tab| == 128 && Sane(r.chan) && Replica(w, r.chan, w', who')
    ensures var r' := ProcessChar(w, who, r, c);
            Sane(r'.chan) && Replica(w, r'.chan, w', who') &&
            (ProcessChar(w, who, r.(out := []), c).out == [] ==> r'.chan == r.chan)
  {
    hide Do, Sane;
    if c !in "+-" && FindInfo(w.tab, c).Some? {
      var param := if r.params == [] then None else Some(r.params[0]);
      StepKeeps(w, who, r.chan, r.on, FindInfo(w.tab, c).value, param);
      if Do(w, who, r.chan, r.on, FindInfo(w.tab, c).value, param).out.None? {
        SilentStep(w, who, r.chan, r.on, FindInfo(w.tab, c).value, param);
      }
    }
  }

  /* ---------- the theorem ---------- */

  /** What the other servers get: the characters and the parameters. */
  function Delta(w: World, who: Setter, s: Chan, modes: string, params: seq<string>): (string, seq<string>)
    requires |w.tab| == 128
  {
    var out := Process(w, who, s, modes, params).out;
    (Chars(None, out), Params(out))
  }

  /** Whatever the modes and parameters, whoever set them and whatever was refused on the way, as long
      as the masks that were printed repeat: the delta that was printed, processed from the same
      channel with MODE_FORCE_ALL, or with access alone if nothing of it is refused, gives the same
      channel, uses its parameters in step and prints itself again. The one exception is a delta
      longer than a mode string may be: it is refused whole, so it is faithful only if nothing
      changed. */
  lemma FaithfulDelta(w: World, who: Setter, s: Chan, modes: string, params: seq<string>, w': World, who': Setter)
    requires WellFormed(w.tab) && Sane(s) && Replica(w, s, w', who')
    requires MasksRepeat(w, who, Start(s, params), modes)
    requires |w'.tab| == 128 && (who'.force || AllAccepted(w, who, Start(s, params), modes, w', who'))
    ensures |w'.tab| == 128
    ensures var r, d := Process(w, who, s, modes, params), Delta(w, who, s, modes, params);
            var z := Process(w', who', s, d.0, d.1);
            (|d.0| <= MAX_MODES ==>
               z.chan == r.chan && z.params == [] && z.out == r.out && z.errors == {} && z.unknown == "") &&
            (z.chan == r.chan <==> |d.0| <= MAX_MODES || r.chan == s)
  {
    ReplicaTable(w, s, w', who');
    var r0 := Start(s, params);
    hide Do, MaskRepeats, Replica, Sane, ProcessChar, WellFormed;
    if who'.force {
      ForceAccepts(w, who, r0, modes, w', who');
    }
    hide AllAccepted, MasksRepeat;
    if |modes| <= MAX_MODES {
      PrintedIsOut(w, who, r0, modes);
      var items := Printed(w, who, r0, modes);
      assert [] + items == items;
      Replays(w, who, r0, modes, w', who', Start(s, Params(items)), None);
    }
  }

  /** The delta is at most one character longer than the mode string, and only if that did not
      begin with a sign; so a string of at most 255 characters always has a faithful delta. */
  lemma {:induction false} DeltaLength(w: World, who: Setter, r: Run, s: string, prev: Option<bool>)
    requires |w.tab| == 128
    ensures |Chars(prev, Printed(w, who, r, s))| <= |s| + (if prev == Some(r.on) || (s != "" && s[0] in "+-") then 0 else 1)
    decreases |s|
  {
    if s != "" {
      hide Do;
      var r', first := ProcessChar(w, who, r, s[0]), ProcessChar(w, who, r.(out := []), s[0]).out;
      var rest := Printed(w, who, r', s[1..]);
      if s[0] in "+-" {
        assert [] + rest == rest;
        DeltaLength(w, who, r', s[1..], prev);
      } else {
        ItemSign(w, who, r, s[0]);
        CharPrintsOne(w, who, r, s[0]);
        if first == [] {
          assert first + rest == rest;
          DeltaLength(w, who, r', s[1..], prev);
        } else {
          assert (first + rest)[1..] == rest;
          DeltaLength(w, who, r', s[1..], Some(r.on));
        }
      }
    }
  }

  lemma ItemSign(w: World, who: Setter, r: Run, c: char)
    requires |w.tab| == 128 && c !in "+-"
    ensures var out := ProcessChar(w, who, r.(out := []), c).out;
            ProcessChar(w, who, r, c).on == r.on && (out != [] ==> out[0].on == r.on)
  {
  }

  lemma ShortEnough(w: World, who: Setter, s: Chan, modes: string, params: seq<string>)
    requires |w.tab| == 128
    requires |modes| < MAX_MODES || (modes != "" && modes[0] in "+-")
    ensures |Delta(w, who, s, modes, params).0| <= MAX_MODES
  {
    hide ProcessChar;
    if |modes| <= MAX_MODES {
      PrintedIsOut(w, who, Start(s, params), modes);
      assert [] + Printed(w, who, Start(s, params), modes) == Printed(w, who, Start(s, params), modes);
      DeltaLength(w, who, Start(s, params), modes, None);
    }
  }

  /* ---------- where the delta is not faithful ---------- */

  /** Every entry of the lists is one that an entry can hold: so lists are created, and so every mode
      leaves them. */
  predicate Short(l: seq<string>) {
    forall i :: 0 <= i < |l| ==> |l[i]| <= 255
  }

  predicate ShortLists(ls: Lists) {
    Short(ls.ban) && Short(ls.quiet) && Short(ls.banex) && Short(ls.invex)
  }

  lemma ShortKept(w: World, who: Setter, s: Chan, on: bool, info: Info, param: Option<string>)
    requires ShortLists(s.lists)
    ensures ShortLists(Do(w, who, s, on, info, param).chan.lists)
  {
    if info.kind.ModeList? {
      ShortAfterList(who, s, on, info.ch, param);
    } else {
      hide ShortLists;
      OthersKeepLists(w, who, s, on, info, param);
    }
  }

  lemma OthersKeepLists(w: World, who: Setter, s: Chan, on: bool, info: Info, param: Option<string>)
    requires !info.kind.ModeList?
    ensures Do(w, who, s, on, info, param).chan.lists == s.lists
  {
    hide Atoi, MayForward, Turn, AnyOf, Decimal;
  }

  lemma ShortAfterList(who: Setter, s: Chan, on: bool, ch: char, param: Option<string>)
    requires ShortLists(s.lists)
    ensures ShortLists(DoList(who, s, on, ch, param).chan.lists)
  {
    var l := GetList(s.lists, ch);
    if param.Some? {
      var i, kept := Place(l, Fix(param.value)), Cut(Fix(param.value), 255);
      hide Fix, Place;
      ShortGet(s.lists, ch);
      ShortSet(s.lists, ch, l + [kept]);
      if i < |l| {
        ShortSet(s.lists, ch, l[..i] + l[i + 1..]);
      }
      hide Short, ShortLists, Cut, GetList, SetList;
    }
  }

  lemma ShortGet(ls: Lists, ch: char)
    requires ShortLists(ls)
    ensures Short(GetList(ls, ch))
  {
    hide Short;
  }

  lemma ShortSet(ls: Lists, ch: char, l: seq<string>)
    requires ShortLists(ls) && Short(l)
    ensures ShortLists(SetList(ls, ch, l))
  {
    hide Short;
  }

  /** Exactly when an added mask, of any length, is repeated: the other server adds the same entry if
      and only if no stray '@' is in what is kept of it and the list does not have that, completed,
      already. With entries that an entry can hold the latter is a mask with all three parts. */
  lemma AddedExact(w: World, who: Setter, s: Chan, info: Info, p: string, w': World, who': Setter)
    requires HasAccess(who') && info.kind.ModeList? && Do(w, who, s, true, info, Some(p)).out.Some?
    ensures var e, l, kept := Do(w, who, s, true, info, Some(p)), GetList(s.lists, info.ch), Cut(Fix(p), 255);
            e.out == Some(Item(true, info.ch, Some(kept))) &&
            (Do(w', who', s, true, info, Some(kept)).chan == e.chan <==> !StrayWithin(p, 255) && Fix(kept) !in l) &&
            (Short(l) ==> (Do(w', who', s, true, info, Some(kept)).chan == e.chan <==>
               !StrayWithin(p, 255) && !(Complete(kept) && kept in l)))
  {
    hide Fix, StrayWithin, Complete;
    KeptAgain(p);
    var l, kept := GetList(s.lists, info.ch), Cut(Fix(p), 255);
    var e, z := Do(w, who, s, true, info, Some(p)), Do(w', who', s, true, info, Some(kept));
    assert GetList(e.chan.lists, info.ch) == l + [kept];
    assert GetList(z.chan.lists, info.ch) == if Fix(kept) in l then l else l + [Cut(Fix(kept), 255)];
    if z.chan == e.chan {
      assert (l + [Cut(Fix(kept), 255)])[|l|] == (l + [kept])[|l|];
    }
    CompleteExact(kept);
    assert Short(l) && Fix(kept) in l ==> |Fix(kept)| <= 255;
  }

  /** Exactly when a removal is repeated: the other server removes the same entry if and only if no
      stray '@' is within the 511 characters of the mask. */
  lemma RemovedExact(w: World, who: Setter, s: Chan, info: Info, p: string, w': World, who': Setter)
    requires HasAccess(who') && info.kind.ModeList? && Do(w, who, s, false, info, Some(p)).out.Some?
    ensures var e := Do(w, who, s, false, info, Some(p));
            e.out == Some(Item(false, info.ch, Some(Fix(p)))) &&
            (Do(w', who', s, false, info, Some(Fix(p))).chan == e.chan <==> !StrayWithin(p, 511))
  {
    hide Fix, StrayWithin;
    FixAgain(p);
    var l, mask := GetList(s.lists, info.ch), Fix(p);
    var e, z := Do(w, who, s, false, info, Some(p)), Do(w', who', s, false, info, Some(mask));
    var i, j := Place(l, mask), Place(l, Fix(mask));
    assert GetList(e.chan.lists, info.ch) == l[..i] + l[i + 1..];
    if Fix(mask) != mask {
      if j < |l| {
        assert GetList(z.chan.lists, info.ch) == l[..j] + l[j + 1..];
        OtherRemoved(l, i, j);
      } else {
        assert |l[..i] + l[i + 1..]| != |l|;
      }
    }
  }

  /** Taking out two different entries at their first places leaves two different lists. */
  lemma OtherRemoved(l: seq<string>, i: nat, j: nat)
    requires i < |l| && j < |l| && l[i] != l[j] && l[i] !in l[..i] && l[j] !in l[..j]
    ensures l[..i] + l[i + 1..] != l[..j] + l[j + 1..]
  {
    var a, b := l[..i] + l[i + 1..], l[..j] + l[j + 1..];
    if i < j {
      assert a[j - 1] == l[j] && b[j - 1] == l[j - 1];
    } else {
      assert b[i - 1] == l[i] && a[i - 1] == l[i - 1];
    }
  }

  /** What a printed change does, forced on another server, to the channel `c`. */
  function Forced(w': World, who': Setter, c: Chan, i: Item): Chan
    requires |w'.tab| == 128
  {
    var q := Run(c, i.on, if i.param.Some? then [i.param.value] else [], {}, "", []);
    ProcessChar(w', who', q, i.ch).chan
  }

  /** The other server, doing each change as it is printed, has the channel of this one after every
      character. */
  predicate InStep(w: World, who: Setter, r: Run, s: string, w': World, who': Setter)
    requires |w.tab| == 128 && |w'.tab| == 128
    decreases |s|
  {
    s != "" ==>
      var out, r' := ProcessChar(w, who, r.(out := []), s[0]).out, ProcessChar(w, who, r, s[0]);
      (out != [] ==> Forced(w', who', r.chan, out[0]) == r'.chan) && InStep(w, who, r', s[1..], w', who')
  }

  /** So what FaithfulDelta asks of the masks is exactly what keeps the two servers in step, over every
      mode string, list by list and change by change. */
  lemma {:induction false} InStepExact(w: World, who: Setter, r: Run, s: string, w': World, who': Setter)
    requires WellFormed(w.tab) && Sane(r.chan) && Replica(w, r.chan, w', who') && who'.force
    ensures |w'.tab| == 128 && (InStep(w, who, r, s, w', who') <==> MasksRepeat(w, who, r, s))
    decreases |s|
  {
    ReplicaTable(w, r.chan, w', who');
    if s != "" {
      hide Do, MaskRepeats, Replica, Sane, ProcessChar, WellFormed, TakesMask, Forced;
      CharKeeps(w, who, r, s[0], w', who');
      CharInStep(w, who, r, s[0], w', who');
      InStepExact(w, who, ProcessChar(w, who, r, s[0]), s[1..], w', who');
    }
  }

  lemma CharInStep(w: World, who: Setter, r: Run, c: char, w': World, who': Setter)
    requires WellFormed(w.tab) && Sane(r.chan) && Replica(w, r.chan, w', who') && who'.force
    ensures |w'.tab| == 128
    ensures var out := ProcessChar(w, who, r.(out := []), c).out;
            (out != [] ==> Forced(w', who', r.chan, out[0]) == ProcessChar(w, who, r, c).chan) <==>
            (TakesMask(w, who, r, c) ==> MaskRepeats(who, r.chan, r.on, FindInfo(w.tab, c).value.ch, r.params[0]))
  {
    ReplicaTable(w, r.chan, w', who');
    hide Do, MaskRepeats, Sane, Replica, ProcessChar, Forced, Barred;
    LetThrough(w, who, r, c);
    if c !in "+-" && FindInfo(w.tab, c).Some? && Barred(who, r.on, FindInfo(w.tab, c).value).None? {
      var info := FindInfo(w.tab, c).value;
      var param := if r.params == [] then None else Some(r.params[0]);
      var e := Do(w, who, r.chan, r.on, info, param);
      assert FindInfo(w.tab, info.ch) == Some(info) && info.ch !in "+-";
      hide WellFormed;
      if e.out.Some? {
        if info.kind.ModeList? {
          MaskExact(w, who, r.chan, r.on, info, param, w', who');
        } else {
          LoudStep(w, who, r.chan, r.on, info, param, w', who');
        }
        ForcedIs(w', who', r.chan, e.out.value, info);
      } else if info.kind.ModeList? && param.Some? {
        QuietMask(w, who, r.chan, r.on, info, param.value);
      }
    }
  }

  /** A character either does what its mode does or prints nothing. */
  lemma LetThrough(w: World, who: Setter, r: Run, c: char)
    requires |w.tab| == 128
    ensures var out := ProcessChar(w, who, r.(out := []), c).out;
            if c !in "+-" && FindInfo(w.tab, c).Some? && Barred(who, r.on, FindInfo(w.tab, c).value).None? then
              var param := if r.params == [] then None else Some(r.params[0]);
              var e := Do(w, who, r.chan, r.on, FindInfo(w.tab, c).value, param);
              out == (if e.out.Some? then [e.out.value] else []) && ProcessChar(w, who, r, c).chan == e.chan
            else out == []
  {
    hide Do, Barred;
  }

  lemma ForcedIs(w': World, who': Setter, c: Chan, i: Item, info: Info)
    requires |w'.tab| == 128 && who'.force && FindInfo(w'.tab, i.ch) == Some(info) && i.ch !in "+-"
    ensures Forced(w', who', c, i) == Do(w', who', c, i.on, info, i.param).chan
  {
    hide Do;
  }

  lemma QuietMask(w: World, who: Setter, s: Chan, on: bool, info: Info, p: string)
    requires info.kind.ModeList? && Do(w, who, s, on, info, Some(p)).out.None?
    ensures MaskRepeats(who, s, on, info.ch, p)
  {
    hide Fix, Place, StrayWithin;
  }

  /** Added or removed: the two exact conditions in one. */
  lemma MaskExact(w: World, who: Setter, s: Chan, on: bool, info: Info, param: Option<string>, w': World, who': Setter)
    requires HasAccess(who') && info.kind.ModeList? && Do(w, who, s, on, info, param).out.Some?
    ensures param.Some?
    ensures var e := Do(w, who, s, on, info, param); var i := e.out.value;
            i.on == on && i.ch == info.ch && i.param.Some? &&
            (Do(w', who', s, on, info, i.param).chan == e.chan <==> MaskRepeats(who, s, on, info.ch, param.value))
  {
    assert param.Some?;
    hide Fix, Place, StrayWithin, Cut;
    if on {
      AddedExact(w, who, s, info, param.value, w', who');
    } else {
      RemovedExact(w, who, s, info, param.value, w', who');
    }
  }

  /** A ban whose completed mask begins its ident with '@' is printed as it is stored, but the
      other server completes it once more and stores something else. */
  lemma StrayMaskLost(w: World, who: Setter, s: Chan, info: Info, w': World, who': Setter)
    requires HasAccess(who) && who'.force && info.kind.ModeList? && info.ch == 'b' && s.lists.ban == []
    ensures var e := Do(w, who, s, true, info, Some("x@y!@w"));
            e.out == Some(Item(true, 'b', Some("x!@w@y"))) && e.chan.lists.ban == ["x!@w@y"] &&
            Do(w', who', s, true, info, Some("x!@w@y")).chan.lists.ban == ["x!*@w@y"]
  {
    hide Fix;
    StrayAtGrows();
    hide IndexOf, Split, Joined;
    assert |"x!@w@y"| == 6 && |"x!*@w@y"| == 7;
  }

  /** A mask longer than an entry is compared whole and kept short, so it is added beside its own
      short form; the other server sees only the short form, which it already has. */
  lemma LongMaskDoubled(w: World, who: Setter, s: Chan, info: Info, p: string, w': World, who': Setter)
    requires HasAccess(who) && who'.force && info.kind.ModeList?
    requires var l, kept := GetList(s.lists, info.ch), Cut(Fix(p), 255);
             |Fix(p)| > 255 && |l| < MAX_BAN_LIST && Short(l) && Complete(kept) && kept in l
    ensures var e, l, kept := Do(w, who, s, true, info, Some(p)), GetList(s.lists, info.ch), Cut(Fix(p), 255);
            e.out == Some(Item(true, info.ch, Some(kept))) && GetList(e.chan.lists, info.ch) == l + [kept] &&
            Do(w', who', s, true, info, Some(kept)).chan == s
  {
    hide Fix, Complete;
    CompleteExact(Cut(Fix(p), 255));
    assert Place(GetList(s.lists, info.ch), Fix(p)) == |GetList(s.lists, info.ch)|;
  }

  function Ws(n: nat): (s: string)
    ensures |s| == n
  {
    seq(n, _ => 'w')
  }

  lemma CutWs(head: string, n: nat, room: nat)
    requires |head| <= room < |head| + n
    ensures Cut(head + Ws(n), room) == head + Ws(room - |head|)
  {
  }

  /** A long mask that is doubled. */
  lemma LongMaskAt(w: World, who: Setter, s: Chan, info: Info, w': World, who': Setter)
    requires HasAccess(who) && who'.force && info.kind.ModeList? && info.ch == 'b' && s.lists.ban == ["x!y@" + Ws(251)]
    ensures var kept, p := "x!y@" + Ws(251), "x!y@" + Ws(300);
            Do(w, who, s, true, info, Some(p)).chan.lists.ban == [kept, kept] &&
            Do(w, who, s, true, info, Some(p)).out == Some(Item(true, 'b', Some(kept))) &&
            Do(w', who', s, true, info, Some(kept)).chan == s
  {
    var kept, p := "x!y@" + Ws(251), "x!y@" + Ws(300);
    CompleteAt(300);
    CompleteAt(251);
    CutWs("x!y@", 300, 255);
    hide Ws, Fix, Complete, Cut, Do;
    CompleteExact(p);
    BanDoubled(w, who, s, info, p, kept, w', who');
  }

  lemma BanDoubled(w: World, who: Setter, s: Chan, info: Info, p: string, kept: string, w': World, who': Setter)
    requires HasAccess(who) && who'.force && info.kind.ModeList? && info.ch == 'b' && s.lists.ban == [kept]
    requires Fix(p) == p && |p| > 255 && Cut(p, 255) == kept && Complete(kept)
    ensures Do(w, who, s, true, info, Some(p)).chan.lists.ban == [kept, kept]
    ensures Do(w, who, s, true, info, Some(p)).out == Some(Item(true, 'b', Some(kept)))
    ensures Do(w', who', s, true, info, Some(kept)).chan == s
  {
    assert |kept| <= 255;
    hide Fix, Complete, Cut, Do;
    assert GetList(s.lists, info.ch) == [kept];
    LongMaskDoubled(w, who, s, info, p, w', who');
    assert [kept] + [kept] == [kept, kept];
  }

  lemma CompleteAt(n: nat)
    requires 0 < n
    ensures Complete("x!y@" + Ws(n))
  {
    var m := "x!y@" + Ws(n);
    FirstIndex(m, '!', 1);
    FirstIndex(m, '@', 3);
  }

  /** A long mask whose stray '@' is in what is kept of it: the two servers store different bans. */
  lemma LongStrayAt(w: World, who: Setter, s: Chan, info: Info, w': World, who': Setter)
    requires HasAccess(who) && who'.force && info.kind.ModeList? && info.ch == 'b' && s.lists.ban == []
    ensures var p, kept := "x@y!@" + Ws(300), "x!@" + Ws(252);
            Do(w, who, s, true, info, Some(p)).chan.lists.ban == [kept] &&
            Do(w', who', s, true, info, Some(kept)).chan.lists.ban == ["x!*@" + Ws(251)]
  {
    LongStrayText();
    hide Fix, Ws, Cut;
  }

  lemma LongStrayText()
    ensures var p, kept := "x@y!@" + Ws(300), "x!@" + Ws(252);
            Cut(Fix(p), 255) == kept && Cut(Fix(kept), 255) == "x!*@" + Ws(251)
  {
    var p, kept := "x@y!@" + Ws(300), "x!@" + Ws(252);
    FirstIndex(p, '!', 3);
    FirstIndex(p, '@', 1);
    FirstIndex(kept, '!', 1);
    FirstIndex(kept, '@', 2);
    hide IndexOf;
    assert Split(p) == Parts("x", "@" + Ws(300), "y");
    assert Split(kept) == Parts("x", "", Ws(252));
    hide Split;
    assert Joined(Split(p)) == "x!@" + Ws(300) + "@y";
    assert Joined(Split(kept)) == "x!*@" + Ws(252);
    hide Joined;
    assert Cut(Fix(p), 255) == kept;
    assert Cut(Fix(kept), 255) == "x!*@" + Ws(251);
  }
}
