/** What the delta of ModeDelta.dfy does without its hypotheses: on a server that checks what it is
    told, and with masks that do not repeat. */
module ModeReplay {
  import opened Common
  import opened Hostmask
  import opened ModeSpec
  import opened ModeDelta

  /* ---------- change by change ---------- */

  /** The other server at a printed change: its sign and its parameter. */
  function Reader(c: Chan, i: Item): Run {
    Run(c, i.on, if i.param.Some? then [i.param.value] else [], {}, "", [])
  }

  /** From the channel `c` the printed change gives the channel `c'` and is printed again. */
  predicate Echoes(w': World, who': Setter, c: Chan, i: Item, c': Chan)
    requires |w'.tab| == 128
  {
    var z := ProcessChar(w', who', Reader(c, i), i.ch);
    z.chan == c' && z.out == [i]
  }

  predicate AllEcho(w: World, who: Setter, r: Run, s: string, w': World, who': Setter)
    requires |w.tab| == 128 && |w'.tab| == 128
    decreases |s|
  {
    s != "" ==>
      var out, r' := ProcessChar(w, who, r.(out := []), s[0]).out, ProcessChar(w, who, r, s[0]);
      (out != [] ==> Echoes(w', who', r.chan, out[0], r'.chan)) && AllEcho(w, who, r', s[1..], w', who')
  }

  /** With checks on or off: every printed change does on the other server what it did here, and is
      printed there again, if and only if none is refused and every mask meets its condition. */
  lemma {:induction false} EchoExact(w: World, who: Setter, r: Run, s: string, w': World, who': Setter)
    requires WellFormed(w.tab) && Sane(r.chan) && Replica(w, r.chan, w', who')
    ensures |w'.tab| == 128
    ensures AllEcho(w, who, r, s, w', who') <==> MasksRepeat(w, who, r, s) && AllAccepted(w, who, r, s, w', who')
    decreases |s|
  {
    ReplicaTable(w, r.chan, w', who');
    if s != "" {
      hide Do, MaskRepeats, Replica, Sane, ProcessChar, WellFormed, TakesMask, Echoes, Accepts;
      CharKeeps(w, who, r, s[0], w', who');
      CharEchoes(w, who, r, s[0], w', who');
      EchoExact(w, who, ProcessChar(w, who, r, s[0]), s[1..], w', who');
    }
  }

  lemma CharEchoes(w: World, who: Setter, r: Run, c: char, w': World, who': Setter)
    requires WellFormed(w.tab) && Sane(r.chan) && Replica(w, r.chan, w', who')
    ensures |w'.tab| == 128
    ensures var out := ProcessChar(w, who, r.(out := []), c).out;
            (out != [] ==> Echoes(w', who', r.chan, out[0], ProcessChar(w, who, r, c).chan)) <==>
            (out != [] ==> Accepts(w', who', r.chan, out[0])) &&
            (TakesMask(w, who, r, c) ==> MaskRepeats(who, r.chan, r.on, FindInfo(w.tab, c).value.ch, r.params[0]))
  {
    ReplicaTable(w, r.chan, w', who');
    hide Do, MaskRepeats, Sane, Replica, ProcessChar, Echoes, Barred, Accepts;
    LetThrough(w, who, r, c);
    if c !in "+-" && FindInfo(w.tab, c).Some? && Barred(who, r.on, FindInfo(w.tab, c).value).None? {
      var info := FindInfo(w.tab, c).value;
      var param := if r.params == [] then None else Some(r.params[0]);
      var e := Do(w, who, r.chan, r.on, info, param);
      assert FindInfo(w.tab, info.ch) == Some(info) && info.ch !in "+-";
      hide WellFormed;
      if e.out.Some? {
        OneEchoes(w, who, r.chan, r.on, info, param, w', who');
      } else if info.kind.ModeList? && param.Some? {
        QuietMask(w, who, r.chan, r.on, info, param.value);
      }
    }
  }

  lemma OneEchoes(w: World, who: Setter, s: Chan, on: bool, info: Info, param: Option<string>, w': World, who': Setter)
    requires |w.tab| == 128 && FindInfo(w.tab, info.ch) == Some(info) && info.ch !in "+-"
    requires Sane(s) && Replica(w, s, w', who') && Do(w, who, s, on, info, param).out.Some?
    ensures |w'.tab| == 128
    ensures var e := Do(w, who, s, on, info, param);
            Echoes(w', who', s, e.out.value, e.chan) <==>
            Accepts(w', who', s, e.out.value) &&
            (info.kind.ModeList? && param.Some? ==> MaskRepeats(who, s, on, info.ch, param.value))
  {
    assert w'.tab == w.tab && HasAccess(who');
    var e := Do(w, who, s, on, info, param);
    var i := e.out.value;
    hide Do, MaskRepeats, Sane, Replica, Echoes, Barred, Accepts;
    PrintsItself(w, who, s, on, info, param);
    EchoIs(w', who', s, i, info, e.chan);
    if Accepts(w', who', s, i) {
      NotBarred(w', who', s, i);
      if info.kind.ModeList? {
        MaskExact(w, who, s, on, info, param, w', who');
      }
      if info.kind.ModeList? && param.Some? ==> MaskRepeats(who, s, on, info.ch, param.value) {
        LoudStep(w, who, s, on, info, param, w', who');
      }
    } else {
      RefusedIsSilent(w', who', s, i, info);
    }
  }

  /** A printed change at the other server, taken or barred. */
  lemma EchoIs(w': World, who': Setter, c: Chan, i: Item, info: Info, c': Chan)
    requires |w'.tab| == 128 && FindInfo(w'.tab, i.ch) == Some(info) && i.ch !in "+-"
    ensures Echoes(w', who', c, i, c') <==>
            Barred(who', i.on, info).None? &&
            Do(w', who', c, i.on, info, i.param).chan == c' && Do(w', who', c, i.on, info, i.param).out == Some(i)
  {
    var q := Reader(c, i);
    assert q.(out := []) == q && (i.param.Some? ==> q.params == [i.param.value]);
    LetThrough(w', who', q, i.ch);
    hide Do, Barred, ProcessChar;
    if Barred(who', i.on, info).None? {
      var e := Do(w', who', c, i.on, info, i.param);
      assert e.out.Some? ==> [e.out.value][0] == e.out.value;
    }
  }

  /** What is not accepted is barred, or a forward that prints nothing. */
  lemma RefusedIsSilent(w': World, who': Setter, c: Chan, i: Item, info: Info)
    requires |w'.tab| == 128 && FindInfo(w'.tab, i.ch) == Some(info) && !Accepts(w', who', c, i)
    ensures Barred(who', i.on, info).Some? || Do(w', who', c, i.on, info, i.param).out.None?
  {
    hide Barred, MayForward;
  }

  /* ---------- all but the lists ---------- */

  const ANYONE := Setter(true, true, true, None)

  /** The lists after one change, forced. */
  function ListAfter(ls: Lists, i: Item): Lists {
    DoList(ANYONE, Chan(0, None, -1, None, ls, map[]), i.on, i.ch, i.param).chan.lists
  }

  function AfterOne(w: World, ls: Lists, i: Item): Lists
    requires |w.tab| == 128
  {
    if FindInfo(w.tab, i.ch).Some? && FindInfo(w.tab, i.ch).value.kind.ModeList? then ListAfter(ls, i) else ls
  }

  /** The lists after the list changes among these, one after the other. */
  function Relist(w: World, ls: Lists, items: seq<Item>): Lists
    requires |w.tab| == 128
    decreases |items|
  {
    if items == [] then ls else Relist(w, AfterOne(w, ls, items[0]), items[1..])
  }

  /** A list mode looks at the lists only, and changes nothing else. */
  lemma ListOnly(who: Setter, c: Chan, on: bool, ch: char, p: string)
    requires HasAccess(who)
    ensures var e := DoList(who, c, on, ch, Some(p));
            e.chan == c.(lists := ListAfter(c.lists, Item(on, ch, Some(p)))) && e.used
  {
    hide Fix, Place;
  }

  lemma SameListAfter(ls: Lists, i: Item)
    requires i.param.Some?
    ensures ListAfter(ls, i) == ListAfter(ls, Item(i.on, i.ch, i.param))
  {
  }

  /** The effect, but on a channel with other lists. */
  function WithLists(e: Effect, ls: Lists): Effect {
    e.(chan := e.chan.(lists := ls))
  }

  /** Any other mode does the same whatever the lists hold. */
  lemma LiftLists(w: World, who: Setter, c: Chan, ls: Lists, on: bool, info: Info, param: Option<string>)
    requires !info.kind.ModeList?
    ensures Do(w, who, c.(lists := ls), on, info, param) == WithLists(Do(w, who, c, on, info, param), ls)
  {
    hide DoExternal, DoStatus, DoFlag, DoList, WithLists;
    match info.kind {
      case ModeExternal(fn) =>
        LiftExternal(w, who, c, ls, on, info.ch, fn, param);
      case ModeStatus(bits) =>
        LiftStatus(w, who, c, ls, on, info.ch, bits, param);
      case ModeFlag(flag) =>
        LiftFlag(who, c, ls, on, info.ch, flag);
    }
  }

  lemma LiftExternal(w: World, who: Setter, c: Chan, ls: Lists, on: bool, ch: char, fn: External, param: Option<string>)
    ensures DoExternal(w, who, c.(lists := ls), on, ch, fn, param) == WithLists(DoExternal(w, who, c, on, ch, fn, param), ls)
  {
    hide Atoi, Decimal, MayForward;
    ForwardLift(w, who, c, ls, param);
  }

  lemma ForwardLift(w: World, who: Setter, c: Chan, ls: Lists, param: Option<string>)
    ensures param.Some? ==> MayForward(w, who, c.(lists := ls), param.value) == MayForward(w, who, c, param.value)
  {
    hide AnyOf;
  }

  lemma LiftStatus(w: World, who: Setter, c: Chan, ls: Lists, on: bool, ch: char, bits: Bits, param: Option<string>)
    ensures DoStatus(w, who, c.(lists := ls), on, ch, bits, param) == WithLists(DoStatus(w, who, c, on, ch, bits, param), ls)
  {
    hide Turn;
  }

  lemma LiftFlag(who: Setter, c: Chan, ls: Lists, on: bool, ch: char, flag: Bits)
    ensures DoFlag(who, c.(lists := ls), on, ch, flag) == WithLists(DoFlag(who, c, on, ch, flag), ls)
  {
    hide Turn, AnyOf;
  }

  /** One character that prints: what is read back for it when the lists may differ. */
  lemma CharReplayed(w: World, who: Setter, r: Run, c: char, w': World, who': Setter, q: Run, i: Item)
    requires WellFormed(w.tab) && Sane(r.chan) && Replica(w, r.chan, w', who') && |w'.tab| == 128
    requires ProcessChar(w, who, r.(out := []), c).out == [i] && Accepts(w', who', r.chan, i)
    requires q.chan == r.chan.(lists := q.chan.lists) && q.on == i.on
    requires i.param.Some? ==> q.params != [] && q.params[0] == i.param.value
    ensures var r', q' := ProcessChar(w, who, r, c), ProcessChar(w', who', q, i.ch);
            i.ch !in "+-" && q'.on == i.on && q'.chan == r'.chan.(lists := AfterOne(w, q.chan.lists, i)) &&
            q'.params == if i.param.Some? then q.params[1..] else q.params
  {
    ReplicaTable(w, r.chan, w', who');
    hide Do, Sane, Replica, Accepts, Barred, ProcessChar, AfterOne, FindInfo, WellFormed;
    var info, param := WhichMode(w, who, r, c, i);
    NotBarred(w', who', r.chan, i);
    ReadChar(w', who', q, i, info);
    ModeReplayed(w, who, r.chan, r.on, info, param, w', who', q.chan, if q.params == [] then None else Some(q.params[0]));
  }

  /** The mode that has printed the change. */
  lemma WhichMode(w: World, who: Setter, r: Run, c: char, i: Item) returns (info: Info, param: Option<string>)
    requires WellFormed(w.tab) && ProcessChar(w, who, r.(out := []), c).out == [i]
    ensures FindInfo(w.tab, i.ch) == Some(info) && i.ch == info.ch && i.ch !in "+-" && i.on == r.on
    ensures Do(w, who, r.chan, r.on, info, param).out == Some(i)
    ensures ProcessChar(w, who, r, c).chan == Do(w, who, r.chan, r.on, info, param).chan
  {
    hide Do, Barred, ProcessChar;
    LetThrough(w, who, r, c);
    info := FindInfo(w.tab, c).value;
    param := if r.params == [] then None else Some(r.params[0]);
    PrintsItself(w, who, r.chan, r.on, info, param);
  }

  /** The mode itself, on a channel with other lists. */
  lemma ModeReplayed(w: World, who: Setter, s: Chan, on: bool, info: Info, param: Option<string>, w': World, who': Setter,
                     c: Chan, p: Option<string>)
    requires |w.tab| == 128 && FindInfo(w.tab, info.ch) == Some(info) && Sane(s) && Replica(w, s, w', who')
    requires Do(w, who, s, on, info, param).out.Some? && |w'.tab| == 128
    requires var i := Do(w, who, s, on, info, param).out.value;
             Accepts(w', who', s, i) && i.ch == info.ch && i.on == on && (i.param.Some? ==> p == i.param)
    requires c == s.(lists := c.lists)
    ensures var e, z := Do(w, who, s, on, info, param), Do(w', who', c, on, info, p);
            z.chan == e.chan.(lists := AfterOne(w, c.lists, e.out.value)) && z.used == e.out.value.param.Some?
  {
    assert HasAccess(who');
    hide Do, Sane, Replica, Accepts, ListAfter;
    var i := Do(w, who, s, on, info, param).out.value;
    if info.kind.ModeList? {
      ListChange(w, who, s, on, info, param);
      ListOnly(who', c, on, info.ch, i.param.value);
      SameListAfter(c.lists, i);
      DoIsList(w', who', c, on, info, i.param);
    } else {
      LoudStep(w, who, s, on, info, param, w', who');
      LiftLists(w', who', s, c.lists, on, info, p);
    }
  }

  lemma ReadChar(w': World, who': Setter, q: Run, i: Item, info: Info)
    requires |w'.tab| == 128 && FindInfo(w'.tab, i.ch) == Some(info) && i.ch !in "+-" && q.on == i.on
    requires Barred(who', i.on, info).None?
    ensures var e, q' := Do(w', who', q.chan, i.on, info, if q.params == [] then None else Some(q.params[0])),
                         ProcessChar(w', who', q, i.ch);
            q'.on == q.on && q'.chan == e.chan && q'.params == if e.used && q.params != [] then q.params[1..] else q.params
  {
    hide Do, Barred;
  }

  lemma DoIsList(w: World, who: Setter, c: Chan, on: bool, info: Info, param: Option<string>)
    requires info.kind.ModeList?
    ensures Do(w, who, c, on, info, param) == DoList(who, c, on, info.ch, param)
  {
    hide DoList;
  }

  /** A printed list change has a parameter and leaves the rest of the channel. */
  lemma ListChange(w: World, who: Setter, c: Chan, on: bool, info: Info, param: Option<string>)
    requires info.kind.ModeList? && Do(w, who, c, on, info, param).out.Some?
    ensures var e := Do(w, who, c, on, info, param);
            e.out.value.param.Some? && e.chan == c.(lists := e.chan.lists)
  {
    hide Fix, Place;
  }

  /** Reading the printed text of `items` from `q` on ends with the channel `final` and uses exactly
      the parameters there are. */
  ghost predicate LeadsTo(w: World, who: Setter, q: Run, prev: Option<bool>, items: seq<Item>, final: Chan)
    requires |w.tab| == 128
  {
    var z := ProcessAll(w, who, q, Chars(prev, items));
    z.chan == final && z.params == []
  }

  lemma LeadsToItem(w: World, who: Setter, q: Run, prev: Option<bool>, i: Item, rest: seq<Item>, final: Chan)
    requires |w.tab| == 128 && (prev.Some? ==> q.on == prev.value) && i.ch !in "+-"
    requires LeadsTo(w, who, ProcessChar(w, who, q.(on := i.on), i.ch), Some(i.on), rest, final)
    ensures LeadsTo(w, who, q, prev, [i] + rest, final)
  {
    hide ProcessChar, ProcessAll, Chars;
    ReadItem(w, who, q, prev, i, rest);
  }

  lemma LeadsNowhere(w: World, who: Setter, q: Run, prev: Option<bool>)
    requires |w.tab| == 128 && q.params == []
    ensures LeadsTo(w, who, q, prev, [], q.chan)
  {
  }

  lemma RelistHead(w: World, ls: Lists, i: Item, rest: seq<Item>)
    requires |w.tab| == 128
    ensures Relist(w, ls, [i] + rest) == Relist(w, AfterOne(w, ls, i), rest) && Relist(w, ls, []) == ls
  {
    assert ([i] + rest)[1..] == rest;
  }

  /** The reader has the same channel but for the lists, and keeps so. */
  lemma {:induction false} ReplaysLists(w: World, who: Setter, r: Run, s: string, w': World, who': Setter, q: Run,
                                        prev: Option<bool>)
    requires WellFormed(w.tab) && Sane(r.chan) && Replica(w, r.chan, w', who') && |w'.tab| == 128
    requires AllAccepted(w, who, r, s, w', who') && q.chan == r.chan.(lists := q.chan.lists)
    requires q.params == Params(Printed(w, who, r, s)) && (prev.Some? ==> q.on == prev.value)
    ensures LeadsTo(w', who', q, prev, Printed(w, who, r, s),
                    ProcessAll(w, who, r, s).chan.(lists := Relist(w, q.chan.lists, Printed(w, who, r, s))))
    decreases |s|
  {
    if s == "" {
      LeadsNowhere(w', who', q, prev);
    } else {
      hide Do, Replica, Sane, ProcessChar, WellFormed, LeadsTo, Params, AllAccepted, Accepts, Relist, AfterOne;
      var r', first := ProcessChar(w, who, r, s[0]), ProcessChar(w, who, r.(out := []), s[0]).out;
      var rest := Printed(w, who, r', s[1..]);
      Unfold(w, who, r, s);
      HeadAccepted(w, who, r, s, w', who');
      CharKeeps(w, who, r, s[0], w', who');
      if first == [] {
        assert first + rest == rest;
        ReplaysLists(w, who, r', s[1..], w', who', q, prev);
      } else {
        CharPrintsOne(w, who, r, s[0]);
        var i := first[0];
        assert first == [i];
        var q1 := q.(on := i.on);
        ParamsHead(i, rest);
        RelistHead(w, q.chan.lists, i, rest);
        CharReplayed(w, who, r, s[0], w', who', q1, i);
        ReplaysLists(w, who, r', s[1..], w', who', ProcessChar(w', who', q1, i.ch), Some(i.on));
        LeadsToItem(w', who', q, prev, i, rest,
                    ProcessAll(w, who, r', s[1..]).chan.(lists := Relist(w, AfterOne(w, q.chan.lists, i), rest)));
      }
    }
  }

  /** For every mask there is: all but the lists of the channel always arrives, and the lists that
      arrive are those the printed changes make of the old ones. So the delta is faithful in the end
      exactly when that gives the lists there are here; a later mode can make up for a mask that
      does not repeat. */
  lemma EndExact(w: World, who: Setter, s: Chan, modes: string, params: seq<string>, w': World, who': Setter)
    requires WellFormed(w.tab) && Sane(s) && Replica(w, s, w', who')
    requires |w'.tab| == 128 && (who'.force || AllAccepted(w, who, Start(s, params), modes, w', who'))
    ensures var r, d := Process(w, who, s, modes, params), Delta(w, who, s, modes, params);
            var z := Process(w', who', s, d.0, d.1);
            (|d.0| <= MAX_MODES ==>
               z.params == [] && z.chan == r.chan.(lists := Relist(w, s.lists, r.out)) &&
               (z.chan == r.chan <==> Relist(w, s.lists, r.out) == r.chan.lists)) &&
            (|d.0| > MAX_MODES ==> z.chan == s)
  {
    var r0 := Start(s, params);
    assert |w.tab| == 128;
    hide Do, Replica, Sane, ProcessChar, WellFormed, Relist;
    if who'.force {
      ForceAccepts(w, who, r0, modes, w', who');
    }
    hide AllAccepted;
    if |modes| <= MAX_MODES {
      PrintedIsOut(w, who, r0, modes);
      var items := Printed(w, who, r0, modes);
      assert [] + items == items;
      ReplaysLists(w, who, r0, modes, w', who', Start(s, Params(items)), None);
    } else {
      NothingRelisted(w, s.lists);
    }
  }

  lemma NothingRelisted(w: World, ls: Lists)
    requires |w.tab| == 128
    ensures Relist(w, ls, []) == ls && Chars(None, []) == "" && Params([]) == []
  {
  }

  /** A mask that does not repeat, made up for: it is added and removed again. The servers disagree in
      between and agree in the end. */
  lemma MadeUp(w: World, who: Setter, s: Chan, w': World, who': Setter)
    requires |w.tab| == 128 && w.tab['b' as int] == Some(Info('b', ModeList, false, false, false))
    requires HasAccess(who) && w'.tab == w.tab && who'.force && s.lists.ban == []
    ensures var p := "x@y!@w"; var r := Start(s, [p, p]);
            var d := Delta(w, who, s, "+b-b", [p, p]);
            !MasksRepeat(w, who, r, "+b-b") && d == ("+b-b", ["x!@w@y", "x!@w@y"]) &&
            Process(w, who, s, "+b-b", [p, p]).chan == s && Process(w', who', s, d.0, d.1).chan == s
  {
    var p, k, k' := "x@y!@w", "x!@w@y", "x!*@w@y";
    StrayAtGrows();
    AddRemove(w, who, s, p, k);
    AddRemove(w', who', s, k, k');
    var out := [Item(true, 'b', Some(k)), Item(false, 'b', Some(k))];
    DeltaText(k);
    StrayIs();
    StrayFails(w, who, Start(s, [p, p]), p);
    hide Process, ProcessChar, Chars, Params, Fix, MasksRepeat, StrayWithin;
    assert Process(w, who, s, "+b-b", [p, p]).out == out;
  }

  lemma DeltaText(k: string)
    ensures var out := [Item(true, 'b', Some(k)), Item(false, 'b', Some(k))];
            Chars(None, out) == "+b-b" && Params(out) == [k, k]
  {
    var a, b := Item(true, 'b', Some(k)), Item(false, 'b', Some(k));
    assert [a, b] == [a] + [b] && [b] == [b] + [] && [b][1..] == [] && [a, b][1..] == [b];
    assert Chars(Some(true), [b]) == "-b";
    ParamsHead(a, [b]);
    ParamsHead(b, []);
  }

  lemma StrayIs()
    ensures StrayWithin("x@y!@w", 255)
  {
    FirstIndex("x@y!@w", '!', 3);
    FirstIndex("x@y!@w", '@', 1);
  }

  lemma StrayFails(w: World, who: Setter, r: Run, p: string)
    requires |w.tab| == 128 && w.tab['b' as int] == Some(Info('b', ModeList, false, false, false))
    requires HasAccess(who) && r.on && r.chan.lists.ban == [] && r.params == [p, p] && StrayWithin(p, 255)
    ensures !MasksRepeat(w, who, r, "+b-b")
  {
    var t := "b-b";
    assert "+b-b"[1..] == t && t[0] == 'b';
    assert ProcessChar(w, who, r, '+') == r;
    assert TakesMask(w, who, r, 'b');
    hide ProcessChar, Fix, StrayWithin;
    assert !MaskRepeats(who, r.chan, r.on, 'b', p);
    hide MaskRepeats;
    assert !MasksRepeat(w, who, r, t);
    assert !MasksRepeat(w, who, ProcessChar(w, who, r, '+'), "+b-b"[1..]);
  }

  /** Adding a mask to the empty list and removing it. */
  lemma AddRemove(w: World, who: Setter, s: Chan, p: string, k: string)
    requires |w.tab| == 128 && w.tab['b' as int] == Some(Info('b', ModeList, false, false, false))
    requires HasAccess(who) && s.lists.ban == [] && Fix(p) == k && |k| <= 255
    ensures var r := Process(w, who, s, "+b-b", [p, p]);
            r.chan == s && r.out == [Item(true, 'b', Some(k)), Item(false, 'b', Some(k))]
  {
    var a, b := Item(true, 'b', Some(k)), Item(false, 'b', Some(k));
    var r0 := Start(s, [p, p]);
    var r1 := Run(s.(lists := s.lists.(ban := [k])), true, [p], {}, "", [a]);
    assert [p, p][1..] == [p] && [p][1..] == [] && [] + [a] == [a] && [a] + [b] == [a, b];
    AddBan(w, who, r0, p, k);
    DropBan(w, who, r1.(on := false), p, k);
    FourChars(w, who, r0, r1);
    hide ProcessChar, ProcessAll, Fix;
  }

  lemma FourChars(w: World, who: Setter, r0: Run, r1: Run)
    requires |w.tab| == 128 && r0.on && ProcessChar(w, who, r0, 'b') == r1
    ensures ProcessAll(w, who, r0, "+b-b") == ProcessChar(w, who, r1.(on := false), 'b')
  {
    assert "+b-b"[1..] == "b-b" && "b-b"[1..] == "-b" && "-b"[1..] == "b" && "b"[1..] == "";
    assert ProcessChar(w, who, r0, '+') == r0 && ProcessChar(w, who, r1, '-') == r1.(on := false);
    hide ProcessChar;
    assert ProcessAll(w, who, r0, "+b-b") == ProcessAll(w, who, r0, "b-b");
    assert ProcessAll(w, who, r0, "b-b") == ProcessAll(w, who, r1, "-b");
    assert ProcessAll(w, who, r1, "-b") == ProcessAll(w, who, r1.(on := false), "b");
  }

  lemma AddBan(w: World, who: Setter, r: Run, p: string, k: string)
    requires |w.tab| == 128 && w.tab['b' as int] == Some(Info('b', ModeList, false, false, false))
    requires HasAccess(who) && r.on && r.params != [] && r.params[0] == p && Fix(p) == k && |k| <= 255
    requires r.chan.lists.ban == []
    ensures ProcessChar(w, who, r, 'b') ==
            r.(chan := r.chan.(lists := r.chan.lists.(ban := [k])), params := r.params[1..],
               out := r.out + [Item(true, 'b', Some(k))])
  {
    hide Fix;
  }

  lemma DropBan(w: World, who: Setter, r: Run, p: string, k: string)
    requires |w.tab| == 128 && w.tab['b' as int] == Some(Info('b', ModeList, false, false, false))
    requires HasAccess(who) && !r.on && r.params != [] && r.params[0] == p && Fix(p) == k
    requires r.chan.lists.ban == [k]
    ensures ProcessChar(w, who, r, 'b') ==
            r.(chan := r.chan.(lists := r.chan.lists.(ban := [])), params := r.params[1..],
               out := r.out + [Item(false, 'b', Some(k))])
  {
    hide Fix;
  }

  /** With checks on, a forward to a channel that the other server does not know is refused there. */
  lemma ForwardRefused(w: World, who: Setter, s: Chan, f: string, w': World, who': Setter)
    requires |w.tab| == 128 && w.tab['f' as int] == Some(Info('f', ModeExternal(Forward), false, false, false))
    requires HasAccess(who) && MayForward(w, who, s, f) && s.forward != Some(f)
    requires w'.tab == w.tab && who'.access && !who'.force && w'.lookup(f) == NoChannel
    ensures var e := Do(w, who, s, true, w.tab['f' as int].value, Some(f));
            e.chan.forward == Some(f) && e.out == Some(Item(true, 'f', Some(f))) &&
            !Accepts(w', who', s, e.out.value) && Forced(w', who', s, e.out.value) == s
  {
  }
}
