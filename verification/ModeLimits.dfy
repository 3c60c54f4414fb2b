/** A mode string at the length limit whose delta is over it: why the theorem of ModeDelta.dfy needs
    the length of the delta and not only that of the mode string. */
module ModeLimits {
  import opened Hostmask
  import opened ModeSpec
  import opened ModeDelta

  const N_BIT: Bits := 0x10
  const T_BIT: Bits := 0x80

  /** +n and +t as src/chan.c defines them. */
  predicate HasFlags(w: World) {
    |w.tab| == 128 &&
    w.tab['n' as int] == Some(Info('n', ModeFlag(N_BIT), false, false, false)) &&
    w.tab['t' as int] == Some(Info('t', ModeFlag(T_BIT), false, false, false))
  }

  /** Processing `s` with the flags `mode` and the sign `on` prints `items` and ends with `final`,
      whatever was collected before. */
  ghost predicate Shows(w: World, who: Setter, c: Chan, mode: Bits, on: bool, s: string, items: seq<Item>, final: Bits)
    requires |w.tab| == 128
  {
    forall r: Run :: r.chan == c.(mode := mode) && r.on == on ==>
      ProcessAll(w, who, r, s).out == r.out + items && ProcessAll(w, who, r, s).chan.mode == final
  }

  lemma ShowsEnd(w: World, who: Setter, c: Chan, mode: Bits, on: bool)
    requires |w.tab| == 128
    ensures Shows(w, who, c, mode, on, "", [], mode)
  {
  }

  lemma ShowsSign(w: World, who: Setter, c: Chan, mode: Bits, on: bool, x: char, s: string, items: seq<Item>, final: Bits)
    requires |w.tab| == 128 && x in "+-" && Shows(w, who, c, mode, x == '+', s, items, final)
    ensures Shows(w, who, c, mode, on, [x] + s, items, final)
  {
    forall r: Run | r.chan == c.(mode := mode) && r.on == on
      ensures ProcessAll(w, who, r, [x] + s) == ProcessAll(w, who, r.(on := x == '+'), s)
    {
      assert ([x] + s)[1..] == s;
    }
  }

  lemma FlagChar(w: World, who: Setter, r: Run, x: char, bit: Bits)
    requires HasFlags(w) && HasAccess(who) && ((x == 'n' && bit == N_BIT) || (x == 't' && bit == T_BIT))
    requires r.on != AnyOf(r.chan.mode, bit)
    ensures ProcessChar(w, who, r, x) ==
            r.(chan := r.chan.(mode := Turn(r.chan.mode, bit, r.on)), out := r.out + [Item(r.on, x, None)])
  {
    hide Turn, AnyOf;
  }

  lemma ShowsFlag(w: World, who: Setter, c: Chan, mode: Bits, on: bool, x: char, bit: Bits, s: string,
                  items: seq<Item>, final: Bits)
    requires HasFlags(w) && HasAccess(who) && ((x == 'n' && bit == N_BIT) || (x == 't' && bit == T_BIT))
    requires on != AnyOf(mode, bit) && Shows(w, who, c, Turn(mode, bit, on), on, s, items, final)
    ensures Shows(w, who, c, mode, on, [x] + s, [Item(on, x, None)] + items, final)
  {
    HasTable(w);
    hide Turn, AnyOf, ProcessChar, HasFlags;
    var i := Item(on, x, None);
    forall r: Run | r.chan == c.(mode := mode) && r.on == on
      ensures ProcessAll(w, who, r, [x] + s).out == r.out + ([i] + items)
      ensures ProcessAll(w, who, r, [x] + s).chan.mode == final
    {
      assert ([x] + s)[1..] == s;
      FlagChar(w, who, r, x, bit);
      var r' := ProcessChar(w, who, r, x);
      assert r'.chan == c.(mode := Turn(mode, bit, on));
      assert r.out + [i] + items == r.out + ([i] + items);
    }
  }

  /** "-n+n" in front of a string, and k times. */
  function Round(s: string): string {
    ['-'] + (['n'] + (['+'] + (['n'] + s)))
  }

  function RoundItems(items: seq<Item>): seq<Item> {
    [Item(false, 'n', None)] + ([Item(true, 'n', None)] + items)
  }

  function Toggles(k: nat): string {
    if k == 0 then "" else Round(Toggles(k - 1))
  }

  function ToggleItems(k: nat): seq<Item> {
    if k == 0 then [] else RoundItems(ToggleItems(k - 1))
  }

  lemma ShowsRound(w: World, who: Setter, c: Chan, s: string, items: seq<Item>, final: Bits)
    requires HasFlags(w) && HasAccess(who) && Shows(w, who, c, N_BIT | T_BIT, true, s, items, final)
    ensures Shows(w, who, c, N_BIT | T_BIT, true, Round(s), RoundItems(items), final)
  {
    Flips();
    hide Turn, AnyOf, Shows, HasFlags;
    HasTable(w);
    ShowsFlag(w, who, c, T_BIT, true, 'n', N_BIT, s, items, final);
    ShowsSign(w, who, c, T_BIT, false, '+', ['n'] + s, [Item(true, 'n', None)] + items, final);
    ShowsFlag(w, who, c, N_BIT | T_BIT, false, 'n', N_BIT, ['+'] + (['n'] + s), [Item(true, 'n', None)] + items, final);
    ShowsSign(w, who, c, N_BIT | T_BIT, true, '-', ['n'] + (['+'] + (['n'] + s)), RoundItems(items), final);
  }

  lemma TogglesRound(k: nat, s: string, items: seq<Item>)
    requires k > 0
    ensures Toggles(k) + s == Round(Toggles(k - 1) + s)
    ensures ToggleItems(k) + items == RoundItems(ToggleItems(k - 1) + items)
  {
  }

  lemma {:induction false} ShowsToggles(w: World, who: Setter, c: Chan, k: nat, s: string, items: seq<Item>, final: Bits)
    requires HasFlags(w) && HasAccess(who) && Shows(w, who, c, N_BIT | T_BIT, true, s, items, final)
    ensures Shows(w, who, c, N_BIT | T_BIT, true, Toggles(k) + s, ToggleItems(k) + items, final)
  {
    if k == 0 {
      assert Toggles(k) + s == s && ToggleItems(k) + items == items;
    } else {
      hide Shows, HasFlags, Toggles, ToggleItems, Round, RoundItems;
      HasTable(w);
      ShowsToggles(w, who, c, k - 1, s, items, final);
      ShowsRound(w, who, c, Toggles(k - 1) + s, ToggleItems(k - 1) + items, final);
      TogglesRound(k, s, items);
    }
  }

  lemma HasTable(w: World)
    requires HasFlags(w)
    ensures |w.tab| == 128
  {
  }

  lemma Flips()
    ensures AnyOf(N_BIT | T_BIT, N_BIT) && Turn(N_BIT | T_BIT, N_BIT, false) == T_BIT
    ensures !AnyOf(T_BIT, N_BIT) && Turn(T_BIT, N_BIT, true) == N_BIT | T_BIT
    ensures AnyOf(T_BIT, T_BIT) && Turn(T_BIT, T_BIT, false) == 0
  {
  }

  lemma {:induction false} ToggleText(k: nat, tail: seq<Item>)
    ensures |Chars(Some(true), ToggleItems(k) + tail)| == 4 * k + |Chars(Some(true), tail)|
    ensures |Toggles(k)| == 4 * k
  {
    if k == 0 {
      assert ToggleItems(k) + tail == tail;
    } else {
      var more := ToggleItems(k - 1) + tail;
      var items := ToggleItems(k) + tail;
      assert items == [Item(false, 'n', None)] + ([Item(true, 'n', None)] + more);
      assert items[1..] == [Item(true, 'n', None)] + more && items[1..][1..] == more;
      ToggleText(k - 1, tail);
    }
  }

  const TAIL := [Item(false, 'n', None), Item(false, 't', None)]

  /** 256 characters: switch +n to and fro 63 times, then take +n and +t away. */
  const LONG := ['n'] + (Toggles(63) + "-nt")

  /** The end of the string takes both flags away. */
  lemma LongEnd(w: World, who: Setter, c: Chan)
    requires HasFlags(w) && HasAccess(who)
    ensures Shows(w, who, c, N_BIT | T_BIT, true, "-nt", TAIL, 0)
  {
    Flips();
    hide Turn, AnyOf, Shows, HasFlags;
    HasTable(w);
    ShowsEnd(w, who, c, 0, false);
    ShowsFlag(w, who, c, T_BIT, false, 't', T_BIT, "", [], 0);
    assert ['t'] + "" == "t" && [Item(false, 't', None)] + [] == [Item(false, 't', None)];
    ShowsFlag(w, who, c, N_BIT | T_BIT, false, 'n', N_BIT, "t", [Item(false, 't', None)], 0);
    assert ['n'] + "t" == "nt" && [Item(false, 'n', None)] + [Item(false, 't', None)] == TAIL;
    ShowsSign(w, who, c, N_BIT | T_BIT, true, '-', "nt", TAIL, 0);
    assert ['-'] + "nt" == "-nt";
  }

  lemma LongRun(w: World, who: Setter, c: Chan)
    requires HasFlags(w) && HasAccess(who) && c.mode == T_BIT
    ensures |LONG| == 256
    ensures Shows(w, who, c, T_BIT, true, LONG, [Item(true, 'n', None)] + (ToggleItems(63) + TAIL), 0)
  {
    Flips();
    hide Turn, AnyOf, Shows, HasFlags;
    HasTable(w);
    ToggleText(63, TAIL);
    LongEnd(w, who, c);
    ShowsToggles(w, who, c, 63, "-nt", TAIL, 0);
    ShowsFlag(w, who, c, T_BIT, true, 'n', N_BIT, Toggles(63) + "-nt", ToggleItems(63) + TAIL, 0);
  }

  /** The delta of that string needs a sign in front: 257 characters, refused whole, and the other
      server keeps +t. */
  lemma TooLongDelta(w: World, who: Setter, s: Chan, w': World, who': Setter)
    requires HasFlags(w) && HasAccess(who) && |w'.tab| == 128 && s.mode == T_BIT
    ensures var d := Delta(w, who, s, LONG, []);
            |LONG| == 256 && |d.0| == 257 && Process(w, who, s, LONG, []).chan.mode == 0 &&
            Process(w', who', s, d.0, d.1).chan.mode == T_BIT
  {
    LongRun(w, who, s);
    hide LONG, HasFlags, TAIL;
    var out := [Item(true, 'n', None)] + (ToggleItems(63) + TAIL);
    assert Start(s, []).chan == s.(mode := T_BIT);
    assert Process(w, who, s, LONG, []).out == [] + out == out;
    LongText();
  }

  lemma LongText()
    ensures |Chars(None, [Item(true, 'n', None)] + (ToggleItems(63) + TAIL))| == 257
  {
    var rest := ToggleItems(63) + TAIL;
    ToggleText(63, TAIL);
    assert ([Item(true, 'n', None)] + rest)[1..] == rest;
    assert TAIL[1..][1..] == [];
    assert |Chars(Some(true), TAIL)| == 3;
  }
}
