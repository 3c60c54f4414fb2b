/** What a whole mode string does, on the channel's fields: which sign and which parameter each of its
    characters gets, that the last change of any part of the channel decides, and what is complained of. */
module ModeOutcome {
  import opened Common
  import opened Hostmask
  import opened ModeSpec
  import opened ModeMeaning

  /* ---------- one character more ---------- */

  lemma {:induction false} ProcessSnoc(w: World, who: Setter, r: Run, s: string, c: char)
    requires |w.tab| == 128
    ensures ProcessAll(w, who, r, s + [c]) == ProcessChar(w, who, ProcessAll(w, who, r, s), c)
    decreases |s|
  {
    hide ProcessChar;
    if s == "" {
      assert s + [c] == [c] && [c][1..] == "";
    } else {
      assert (s + [c])[1..] == s[1..] + [c];
      ProcessSnoc(w, who, ProcessChar(w, who, r, s[0]), s[1..], c);
    }
  }

  /** Where the processing of the mode string is before its character i. */
  function Before(w: World, who: Setter, c: Chan, modes: string, params: seq<string>, i: nat): Run
    requires |w.tab| == 128 && i <= |modes| <= 256
  {
    Process(w, who, c, modes[..i], params)
  }

  lemma BeforeNext(w: World, who: Setter, c: Chan, modes: string, params: seq<string>, i: nat)
    requires |w.tab| == 128 && i < |modes| <= 256
    ensures Before(w, who, c, modes, params, i + 1) ==
            ProcessChar(w, who, Before(w, who, c, modes, params, i), modes[i])
  {
    hide ProcessChar, ProcessAll;
    assert modes[..i + 1] == modes[..i] + [modes[i]];
    ProcessSnoc(w, who, Start(c, params), modes[..i], modes[i]);
  }

  lemma BeforeEnds(w: World, who: Setter, c: Chan, modes: string, params: seq<string>)
    requires |w.tab| == 128 && |modes| <= 256
    ensures Before(w, who, c, modes, params, 0) == Run(c, true, params, {}, "", [])
    ensures Before(w, who, c, modes, params, |modes|) == Process(w, who, c, modes, params)
  {
    assert modes[..0] == "" && modes[..|modes|] == modes;
  }

  /* ---------- signs and parameters ---------- */

  /** The last sign before character i; a mode string begins as if with '+'. */
  function OnAt(modes: string, i: nat): bool
    requires i <= |modes|
  {
    i == 0 || if modes[i - 1] == '+' then true else if modes[i - 1] == '-' then false else OnAt(modes, i - 1)
  }

  /** A status, list or key mode takes a parameter with either sign, a forward, limit or join throttle
      with '+' only, and the rest never do; so does none the setter may not use in this direction. */
  predicate Takes(w: World, who: Setter, on: bool, c: char)
    requires |w.tab| == 128
  {
    var m := ModeOf(w, c);
    m.Some? && (who.force || ((m.value.operOnly ==> who.oper) && !(if on then m.value.noSet else m.value.noReset))) &&
    match m.value.kind
    case ModeFlag(_) => false
    case ModeStatus(_) => true
    case ModeList => true
    case ModeExternal(fn) => fn.Key? || (on && !fn.NoFunction?)
  }

  /** How many of the characters before i take a parameter. */
  function Taken(w: World, who: Setter, modes: string, i: nat): nat
    requires |w.tab| == 128 && i <= |modes|
  {
    if i == 0 then 0 else Taken(w, who, modes, i - 1) + if Takes(w, who, OnAt(modes, i - 1), modes[i - 1]) then 1 else 0
  }

  lemma DoTakes(w: World, who: Setter, s: Chan, on: bool, info: Info, param: Option<string>)
    requires param.Some?
    ensures Do(w, who, s, on, info, param).used <==>
            match info.kind
            case ModeFlag(_) => false
            case ModeStatus(_) => true
            case ModeList => true
            case ModeExternal(fn) => fn.Key? || (on && !fn.NoFunction?)
  {
    hide Fix, Place, Cut, Turn, AnyOf, Atoi, Decimal, MayForward, GetList, SetList;
  }

  lemma CharTakes(w: World, who: Setter, r: Run, c: char)
    requires |w.tab| == 128
    ensures var r' := ProcessChar(w, who, r, c);
            r'.on == (if c == '+' then true else if c == '-' then false else r.on) &&
            r'.params == if Takes(w, who, r.on, c) && r.params != [] then r.params[1..] else r.params
  {
    if ModeOf(w, c).Some? && r.params != [] {
      DoTakes(w, who, r.chan, r.on, ModeOf(w, c).value, Some(r.params[0]));
    }
    hide Do;
  }

  /** Whatever the channel is and whatever the modes do to it: a character stands under the last sign
      before it, and the parameter it gets is the first one not taken by the characters before it. */
  lemma {:induction false} Reached(w: World, who: Setter, c: Chan, modes: string, params: seq<string>, i: nat)
    requires |w.tab| == 128 && i <= |modes| <= 256
    ensures var r, n := Before(w, who, c, modes, params, i), Taken(w, who, modes, i);
            r.on == OnAt(modes, i) && r.params == if n <= |params| then params[n..] else []
  {
    hide Process, ProcessChar, Takes;
    if i == 0 {
      BeforeEnds(w, who, c, modes, params);
    } else {
      Reached(w, who, c, modes, params, i - 1);
      BeforeNext(w, who, c, modes, params, i - 1);
      CharTakes(w, who, Before(w, who, c, modes, params, i - 1), modes[i - 1]);
    }
  }

  /* ---------- the last change decides ---------- */

  predicate Sound(part: Part) {
    part.EntryPart? ==> IsList(part.ch)
  }

  /** Character i changes the part. */
  predicate ChangesAt(w: World, who: Setter, c: Chan, modes: string, params: seq<string>, i: nat, part: Part)
    requires |w.tab| == 128 && i < |modes| <= 256
  {
    Changes(w, who, Before(w, who, c, modes, params, i), modes[i], part)
  }

  lemma {:induction false} StaysFrom(w: World, who: Setter, c: Chan, modes: string, params: seq<string>, i: nat, part: Part)
    requires WellFormed(w.tab) && Sound(part) && i <= |modes| <= 256
    requires forall j :: i <= j < |modes| ==> !ChangesAt(w, who, c, modes, params, j, part)
    ensures Show(Process(w, who, c, modes, params).chan, part) == Show(Before(w, who, c, modes, params, i).chan, part)
    decreases |modes| - i
  {
    if i == |modes| {
      BeforeEnds(w, who, c, modes, params);
    } else {
      assert !ChangesAt(w, who, c, modes, params, i, part);
      hide Before, Process, ProcessChar, Changes, Show, WellFormed;
      StaysFrom(w, who, c, modes, params, i + 1, part);
      BeforeNext(w, who, c, modes, params, i);
      CharMeans(w, who, Before(w, who, c, modes, params, i), modes[i], part);
    }
  }

  /** After any mode string, every part of the channel is what the last character that changes it makes
      it, whatever came before. */
  lemma LastDecides(w: World, who: Setter, c: Chan, modes: string, params: seq<string>, i: nat, part: Part)
    requires WellFormed(w.tab) && Sound(part) && i < |modes| <= 256
    requires ChangesAt(w, who, c, modes, params, i, part) && Covers(ModeOf(w, modes[i]).value, part)
    requires forall j :: i < j < |modes| ==> !ChangesAt(w, who, c, modes, params, j, part)
    ensures Show(Process(w, who, c, modes, params).chan, part) ==
            Becomes(w, who, Before(w, who, c, modes, params, i), modes[i], part)
  {
    assert |w.tab| == 128;
    hide Before, Process, ProcessChar, Changes, Show, WellFormed, Covers, Becomes;
    StaysFrom(w, who, c, modes, params, i + 1, part);
    BeforeNext(w, who, c, modes, params, i);
    CharMeans(w, who, Before(w, who, c, modes, params, i), modes[i], part);
  }

  /** What no character changes is as it was; so is everything after a mode string that is too long. */
  lemma NoneStays(w: World, who: Setter, c: Chan, modes: string, params: seq<string>, part: Part)
    requires WellFormed(w.tab) && Sound(part)
    requires |modes| <= 256 ==> forall j :: 0 <= j < |modes| ==> !ChangesAt(w, who, c, modes, params, j, part)
    ensures Show(Process(w, who, c, modes, params).chan, part) == Show(c, part)
    ensures |modes| > 256 ==> Process(w, who, c, modes, params) == Run(c, true, params, {}, "", [])
  {
    if |modes| <= 256 {
      StaysFrom(w, who, c, modes, params, 0, part);
      BeforeEnds(w, who, c, modes, params);
    }
    hide Show;
  }

  /** Nobody joins or leaves by a mode string. */
  lemma {:induction false} MembersStay(w: World, who: Setter, c: Chan, modes: string, params: seq<string>, i: nat)
    requires |w.tab| == 128 && i <= |modes| <= 256
    ensures Before(w, who, c, modes, params, i).chan.status.Keys == c.status.Keys
  {
    hide Process, ProcessChar;
    if i == 0 {
      BeforeEnds(w, who, c, modes, params);
    } else {
      MembersStay(w, who, c, modes, params, i - 1);
      BeforeNext(w, who, c, modes, params, i - 1);
      CharKeepsMembers(w, who, Before(w, who, c, modes, params, i - 1), modes[i - 1]);
    }
  }

  lemma CharKeepsMembers(w: World, who: Setter, r: Run, c: char)
    requires |w.tab| == 128
    ensures ProcessChar(w, who, r, c).chan.status.Keys == r.chan.status.Keys
  {
    if ModeOf(w, c).Some? {
      var param := if r.params == [] then None else Some(r.params[0]);
      DoKeepsMembers(w, who, r.chan, r.on, ModeOf(w, c).value, param);
    }
    hide Do;
  }

  lemma DoKeepsMembers(w: World, who: Setter, s: Chan, on: bool, info: Info, param: Option<string>)
    ensures Do(w, who, s, on, info, param).chan.status.Keys == s.status.Keys
  {
    if info.kind.ModeStatus? {
      hide DoStatus, DoExternal, DoList, DoFlag;
      StatusDoes(w, who, s, on, info.ch, info.kind.bits, param, "", 0);
    } else {
      OthersKeepStatus(w, who, s, on, info, param);
      hide Do;
    }
  }

  lemma OthersKeepStatus(w: World, who: Setter, s: Chan, on: bool, info: Info, param: Option<string>)
    requires !info.kind.ModeStatus?
    ensures Do(w, who, s, on, info, param).chan.status == s.status
  {
    hide Fix, Place, Cut, Turn, AnyOf, Atoi, Decimal, MayForward, GetList, SetList;
  }

  /* ---------- what is complained of ---------- */

  function Complaint(w: World, who: Setter, r: Run, c: char): set<Error>
    requires |w.tab| == 128
  {
    if c == '+' || c == '-' then {}
    else if ModeOf(w, c).None? then {UnknownChar}
    else
      var info, access := ModeOf(w, c).value, who.access || who.force;
      if info.operOnly && !who.oper && !who.force then {NotOper}
      else if (if r.on then info.noSet else info.noReset) && !who.force then {}
      else if info.kind == ModeExternal(NoFunction) then {UnknownChar}
      else if info.kind == ModeExternal(JoinThrottle) || (info.kind.ModeList? && r.params == []) then {}
      else if !access then {NoAccess}
      else if info.kind.ModeStatus? && r.params == [] then {MissingParam}
      else if info.kind.ModeList? && r.on && Fix(r.params[0]) !in ListOf(r.chan, info.ch) && |ListOf(r.chan, info.ch)| >= 50
      then {ListFull} else {}
  }

  lemma DoReports(w: World, who: Setter, s: Chan, on: bool, info: Info, param: Option<string>)
    requires info.kind.ModeList? ==> IsList(info.ch)
    ensures var e := Do(w, who, s, on, info, param).err;
            e == if info.kind == ModeExternal(NoFunction) then Some(UnknownChar)
                 else if info.kind == ModeExternal(JoinThrottle) || (info.kind.ModeList? && param.None?) then None
                 else if !(who.access || who.force) then Some(NoAccess)
                 else if info.kind.ModeStatus? && param.None? then Some(MissingParam)
                 else if info.kind.ModeList? && on && Fix(param.value) !in ListOf(s, info.ch) &&
                         |ListOf(s, info.ch)| >= 50 then Some(ListFull) else None
  {
    if info.kind.ModeList? {
      ListOfIs(s, info.ch, info.ch, []);
    }
    hide Fix, Place, Cut, Turn, AnyOf, Atoi, Decimal, MayForward, GetList, SetList, ListOf;
  }

  /** Every kind of complaint has its one cause, and a character is called unknown when it has no mode or
      a mode that nothing handles. */
  lemma CharReports(w: World, who: Setter, r: Run, c: char)
    requires WellFormed(w.tab)
    ensures var r' := ProcessChar(w, who, r, c);
            r'.errors == r.errors + Complaint(w, who, r, c) &&
            r'.unknown == if UnknownChar in Complaint(w, who, r, c) then r.unknown + [c] else r.unknown
  {
    ListsAreFour(w, c);
    if ModeOf(w, c).Some? {
      DoReports(w, who, r.chan, r.on, ModeOf(w, c).value, if r.params == [] then None else Some(r.params[0]));
    }
    hide Do, WellFormed, IsList, ListOf, Fix;
  }

  /** What is complained of at the end is what some character of the mode string is complained of. */
  lemma {:induction false} ErrorsAre(w: World, who: Setter, c: Chan, modes: string, params: seq<string>, i: nat, e: Error)
    requires WellFormed(w.tab) && i <= |modes| <= 256
    ensures e in Before(w, who, c, modes, params, i).errors <==>
            exists j :: 0 <= j < i && e in Complaint(w, who, Before(w, who, c, modes, params, j), modes[j])
  {
    assert |w.tab| == 128;
    hide Process, ProcessChar, Complaint, WellFormed;
    if i == 0 {
      BeforeEnds(w, who, c, modes, params);
    } else {
      ErrorsAre(w, who, c, modes, params, i - 1, e);
      BeforeNext(w, who, c, modes, params, i - 1);
      CharReports(w, who, Before(w, who, c, modes, params, i - 1), modes[i - 1]);
    }
  }
}
