/** Ban masks in src/mode.c: fix_hostmask completes a mask to nick!ident@host, and the list entry
    keeps 255 characters of it. */
module Hostmask {

  datatype Option<T> = None | Some(value: T)

  /** strchr: the first place of a character. */
  function IndexOf(s: string, c: char): (i: nat)
    ensures i <= |s| && (i < |s| ==> s[i] == c)
    ensures forall j :: 0 <= j < i ==> s[j] != c
  {
    if s == "" then 0 else if s[0] == c then 0 else 1 + IndexOf(s[1..], c)
  }

  function Cut(s: string, n: nat): (r: string)
    ensures |r| <= n && (|s| <= n ==> r == s)
  {
    if |s| <= n then s else s[..n]
  }

  function OrStar(s: string): string {
    if s == "" then "*" else s
  }

  /** The three parts, in the order in which the two terminators are written into the mask: when
      '@' comes first, the ident reaches to the end and the host stops at the '!'. */
  datatype Parts = Parts(nick: string, ident: string, host: string)

  function Split(mask: string): Parts {
    var ex, at := IndexOf(mask, '!'), IndexOf(mask, '@');
    if ex == |mask| && at == |mask| then Parts(mask, "*", "*")
    else if ex == |mask| then Parts("*", mask[..at], mask[at + 1..])
    else if at == |mask| then Parts(mask[..ex], mask[ex + 1..], "*")
    else if ex < at then Parts(mask[..ex], mask[ex + 1..at], mask[at + 1..])
    else Parts(mask[..at], mask[ex + 1..], mask[at + 1..ex])
  }

  function Joined(p: Parts): string {
    OrStar(p.nick) + "!" + OrStar(p.ident) + "@" + OrStar(p.host)
  }

  /** fix_hostmask, with its 512-byte buffer. Extended bans are left alone. */
  function Fix(mask: string): (r: string)
    ensures |r| <= 511
  {
    if mask != "" && mask[0] == '$' then Cut(mask, 511) else Cut(Joined(Split(mask)), 511)
  }

  /** The ident a mask is given begins with '@': possible only when an '@' comes before the first
      '!' and another one follows it at once, as in "x@y!@w". */
  predicate StrayAt(mask: string) {
    var ex, at := IndexOf(mask, '!'), IndexOf(mask, '@');
    at < ex && ex + 1 < |mask| && mask[ex + 1] == '@' && mask[0] != '$'
  }

  /** A stray '@' that is still there when the completed mask is cut to so many characters. */
  predicate StrayWithin(mask: string, room: nat) {
    StrayAt(mask) && IndexOf(mask, '@') < room - 1
  }

  /** An extended ban, or a mask with all of its three parts. */
  predicate Complete(mask: string) {
    var ex, at := IndexOf(mask, '!'), IndexOf(mask, '@');
    mask != "" && (mask[0] == '$' || (0 < ex && ex + 1 < at && at + 1 < |mask|))
  }

  lemma FirstIndex(s: string, c: char, i: nat)
    requires i < |s| && s[i] == c && forall j :: 0 <= j < i ==> s[j] != c
    ensures IndexOf(s, c) == i
  {
  }

  /** The nick part holds neither separator. */
  lemma NickClean(mask: string)
    ensures '!' !in Split(mask).nick && '@' !in Split(mask).nick
  {
  }

  /** Where the separators of a completed mask are: the first '!' ends the nick, the first '@'
      behind it ends the ident. */
  lemma Separators(n: string, r: string)
    requires '!' !in n && '@' !in n
    ensures var m := n + "!" + r;
            IndexOf(m, '!') == |n| && IndexOf(m, '@') == |n| + 1 + IndexOf(r, '@')
  {
    var m, at := n + "!" + r, IndexOf(r, '@');
    FirstIndex(m, '!', |n|);
    if at < |r| {
      assert m[|n| + 1 + at] == r[at];
      FirstIndex(m, '@', |n| + 1 + at);
    } else {
      NoIndex(m, '@');
    }
  }

  lemma NoIndex(s: string, c: char)
    requires c !in s
    ensures IndexOf(s, c) == |s|
  {
    if IndexOf(s, c) < |s| {
      assert false;
    }
  }

  /* ---------- what each shape of mask is completed to ---------- */

  /** Nick, ident and host with their separators, a star for each that is empty, as much of it as the
      buffer holds. */
  function Full(nick: string, ident: string, host: string): string {
    var f := (if nick == "" then "*" else nick) + "!" + (if ident == "" then "*" else ident) + "@" +
             (if host == "" then "*" else host);
    if |f| <= 511 then f else f[..511]
  }

  predicate Bare(s: string) {
    '!' !in s && '@' !in s
  }

  /** Whatever the parts hold, the mask is completed to them. */
  lemma FixIs(mask: string, nick: string, ident: string, host: string)
    requires mask == "" || mask[0] != '$'
    requires Split(mask).nick == nick && OrStar(Split(mask).ident) == OrStar(ident)
    requires OrStar(Split(mask).host) == OrStar(host)
    ensures Fix(mask) == Full(nick, ident, host)
  {
    hide Split;
  }

  /** With no separator the mask is a nick. */
  lemma FixNick(nick: string)
    requires Bare(nick) && (nick == "" || nick[0] != '$')
    ensures Fix(nick) == Full(nick, "", "")
  {
    NoIndex(nick, '!');
    NoIndex(nick, '@');
    hide IndexOf, Fix, Full;
    FixIs(nick, nick, "", "");
  }

  /** With an '@' alone it is an ident and a host. */
  lemma FixUserHost(ident: string, host: string)
    requires Bare(ident) && '!' !in host && (ident == "" || ident[0] != '$')
    ensures Fix(ident + "@" + host) == Full("", ident, host)
  {
    var m := ident + "@" + host;
    NoIndex(m, '!');
    FirstIndex(m, '@', |ident|);
    hide IndexOf, Full, Fix;
    assert m[..|ident|] == ident && m[|ident| + 1..] == host;
    assert Split(m) == Parts("*", ident, host);
    hide Split;
    assert Fix(m) == Full("*", ident, host) by { FixIs(m, "*", ident, host); }
    StarNick(ident, host);
  }

  lemma StarNick(ident: string, host: string)
    ensures Full("*", ident, host) == Full("", ident, host)
  {
  }

  /** With a '!' alone it is a nick and an ident. */
  lemma FixNickUser(nick: string, ident: string)
    requires Bare(nick) && '@' !in ident && (nick == "" || nick[0] != '$')
    ensures Fix(nick + "!" + ident) == Full(nick, ident, "")
  {
    var m := nick + "!" + ident;
    FirstIndex(m, '!', |nick|);
    NoIndex(m, '@');
    hide IndexOf, Full, Fix;
    assert m[..|nick|] == nick && m[|nick| + 1..] == ident;
    assert Split(m) == Parts(nick, ident, "*");
    hide Split;
    FixIs(m, nick, ident, "");
  }

  /** With both in order it is a nick, an ident and a host. */
  lemma FixWhole(nick: string, ident: string, host: string)
    requires Bare(nick) && '@' !in ident && (nick == "" || nick[0] != '$')
    ensures Fix(nick + "!" + ident + "@" + host) == Full(nick, ident, host)
  {
    hide IndexOf, Full, Fix, Split;
    var m := nick + "!" + ident + "@" + host;
    WholeSplit(nick, ident, host);
    FixIs(m, nick, ident, host);
  }

  lemma WholeSplit(nick: string, ident: string, host: string)
    requires Bare(nick) && '@' !in ident
    ensures Split(nick + "!" + ident + "@" + host) == Parts(nick, ident, host)
  {
    hide IndexOf, Split;
    var m, at := nick + "!" + ident + "@" + host, |nick| + 1 + |ident|;
    FirstIndex(m, '!', |nick|);
    FirstIndex(m, '@', at);
    SplitClosed(m, |nick|, at);
    assert m[..|nick|] == nick && m[|nick| + 1..at] == ident && m[at + 1..] == host;
  }

  /** With the '@' first, what is between the two is the host and the rest the ident. */
  lemma FixCrossed(nick: string, host: string, ident: string)
    requires Bare(nick) && '!' !in host && (nick == "" || nick[0] != '$')
    ensures Fix(nick + "@" + host + "!" + ident) == Full(nick, ident, host)
  {
    var m, ex := nick + "@" + host + "!" + ident, |nick| + 1 + |host|;
    FirstIndex(m, '@', |nick|);
    FirstIndex(m, '!', ex);
    hide IndexOf, Full, Fix;
    assert m[..|nick|] == nick && m[ex + 1..] == ident && m[|nick| + 1..ex] == host;
    assert Split(m) == Parts(nick, ident, host);
    hide Split;
    FixIs(m, nick, ident, host);
  }

  /** An extended ban stays as it is. */
  lemma FixExtended(mask: string)
    requires mask != "" && mask[0] == '$'
    ensures Fix(mask) == if |mask| <= 511 then mask else mask[..511]
  {
  }

  /** A mask with its '!' splits at its separators. */
  lemma SplitClosed(m: string, ex: nat, at: nat)
    requires IndexOf(m, '!') == ex && IndexOf(m, '@') == at && ex < at < |m|
    ensures Split(m) == Parts(m[..ex], m[ex + 1..at], m[at + 1..])
  {
    hide IndexOf;
  }

  lemma SplitOpen(m: string, ex: nat)
    requires IndexOf(m, '!') == ex < |m| && IndexOf(m, '@') == |m|
    ensures Split(m) == Parts(m[..ex], m[ex + 1..], "*")
  {
    hide IndexOf;
  }

  /** It is put together again from its parts. */
  lemma Rejoin(m: string, ex: nat, at: nat)
    requires IndexOf(m, '!') == ex && IndexOf(m, '@') == at && 0 < ex && ex + 1 < at && at + 1 < |m|
    ensures Joined(Split(m)) == m
  {
    hide IndexOf, Split;
    SplitClosed(m, ex, at);
    Together(m, ex, at);
  }

  lemma Together(m: string, ex: nat, at: nat)
    requires ex < at < |m| && m[ex] == '!' && m[at] == '@'
    ensures m == m[..ex] + "!" + m[ex + 1..at] + "@" + m[at + 1..]
  {
    CutAround(m, at);
    CutAround(m[..at], ex);
  }

  lemma CutAround(m: string, i: nat)
    requires i < |m|
    ensures m == m[..i] + [m[i]] + m[i + 1..]
  {
  }

  /** An empty ident becomes a star. */
  lemma RejoinStar(m: string, ex: nat, at: nat)
    requires IndexOf(m, '!') == ex && IndexOf(m, '@') == at && 0 < ex && at == ex + 1 < |m|
    ensures at < |Joined(Split(m))| && Joined(Split(m))[at] == '*' && m[at] == '@'
  {
    hide IndexOf, Split;
    SplitClosed(m, ex, at);
    assert Joined(Split(m)) == m[..ex] + "!" + "*" + "@" + OrStar(m[at + 1..]);
    assert (m[..ex] + "!" + "*")[at] == '*';
  }

  /** A mask that ends in its ident or just behind the '@' is the start of what completing it
      gives. */
  lemma RejoinShort(m: string, ex: nat, at: nat)
    requires IndexOf(m, '!') == ex && IndexOf(m, '@') == at && 0 < ex < at && ex < |m|
    requires at == |m| || (at == |m| - 1 && at > ex + 1)
    ensures m <= Joined(Split(m))
  {
    hide IndexOf, Split, Joined;
    if at == |m| {
      SplitOpen(m, ex);
      CutAround(m, ex);
      StartsWith(m[..ex], m[ex + 1..]);
    } else {
      SplitClosed(m, ex, at);
      Together(m, ex, at);
      EndsEmpty(m[..ex], m[ex + 1..at], m[at + 1..]);
    }
  }

  lemma StartsWith(n: string, i: string)
    requires n != ""
    ensures n + "!" + i <= Joined(Parts(n, i, "*"))
  {
    assert Joined(Parts(n, i, "*")) == n + "!" + OrStar(i) + "@*";
  }

  lemma EndsEmpty(n: string, i: string, h: string)
    requires n != "" && i != "" && h == ""
    ensures n + "!" + i + "@" + h <= Joined(Parts(n, i, h))
  {
    assert Joined(Parts(n, i, h)) == n + "!" + i + "@" + "*";
  }

  /** A mask that has its '!', wherever it ends, is the start of what completing it gives, except
      that an empty ident becomes a star. */
  lemma RejoinStart(m: string, ex: nat, at: nat)
    requires IndexOf(m, '!') == ex && IndexOf(m, '@') == at && 0 < ex < at && ex < |m|
    ensures at > ex + 1 || at == |m| ==> m <= Joined(Split(m))
    ensures at == ex + 1 < |m| ==> at < |Joined(Split(m))| && Joined(Split(m))[at] == '*' && m[at] == '@'
  {
    hide IndexOf, Split, Joined;
    if at == ex + 1 < |m| {
      RejoinStar(m, ex, at);
    } else if at + 1 < |m| {
      Rejoin(m, ex, at);
    } else {
      RejoinShort(m, ex, at);
    }
  }

  /** A mask with its three parts is the one it is completed to, and no other of less than 511
      characters is. */
  lemma CompleteExact(mask: string)
    requires |mask| < 511
    ensures Fix(mask) == mask <==> Complete(mask)
  {
    if Fix(mask) == mask {
      FixedComplete(mask);
    } else if mask != "" && mask[0] != '$' && Complete(mask) {
      hide IndexOf, Split, Joined;
      Rejoin(mask, IndexOf(mask, '!'), IndexOf(mask, '@'));
    }
  }

  lemma FixedComplete(mask: string)
    requires |mask| < 511 && Fix(mask) == mask
    ensures Complete(mask)
  {
    if mask == "" || mask[0] != '$' {
      var p := Split(mask);
      NickClean(mask);
      IdentStart(mask);
      hide IndexOf, Split, Complete;
      assert mask == Joined(p);
      hide Fix, StrayAt;
      NoStray(mask, p);
      PartsComplete(OrStar(p.nick), OrStar(p.ident), OrStar(p.host));
    }
  }

  lemma NoStray(mask: string, p: Parts)
    requires mask == Joined(p) && '!' !in p.nick && '@' !in p.nick
    ensures !StrayAt(mask)
  {
    var n, r := OrStar(p.nick), OrStar(p.ident) + "@" + OrStar(p.host);
    assert mask == n + "!" + r;
    Separators(n, r);
    hide IndexOf;
  }

  lemma PartsComplete(n: string, i: string, h: string)
    requires n != "" && i != "" && h != "" && '!' !in n && '@' !in n && i[0] != '@'
    ensures Complete(n + "!" + i + "@" + h)
  {
    var r := i + "@" + h;
    Separators(n, r);
    assert n + "!" + i + "@" + h == n + "!" + r && r[|i|] == '@' && r[0] == i[0];
    assert 0 < IndexOf(r, '@') <= |i|;
    hide IndexOf;
  }

  /** A completed mask cut to some room is kept when it is completed and cut once more, unless its
      ident begins with an '@' that is within the room. */
  lemma JoinedAgain(p: Parts, room: nat)
    requires '!' !in p.nick && '@' !in p.nick && room >= 3
    ensures var m := Cut(Joined(p), room);
            Cut(Joined(Split(m)), room) == m <==> OrStar(p.ident)[0] != '@' || |OrStar(p.nick)| >= room - 1
  {
    var n, i, r := OrStar(p.nick), OrStar(p.ident), OrStar(p.ident) + "@" + OrStar(p.host);
    assert Joined(p) == n + "!" + r && '!' !in n && '@' !in n;
    hide IndexOf, Joined, Split;
    if |n| >= room {
      LongNick(n, "!" + r, room);
      assert n + ("!" + r) == n + "!" + r;
    } else {
      assert r[|i|] == '@' && r[0] == i[0];
      ShortNick(n, r, |i|, room);
    }
  }

  lemma LongNick(n: string, rest: string, room: nat)
    requires '!' !in n && '@' !in n && 0 < room <= |n|
    ensures var m := Cut(n + rest, room); Cut(Joined(Split(m)), room) == m
  {
    var m := Cut(n + rest, room);
    assert m == n[..room];
    NoIndex(m, '!');
    NoIndex(m, '@');
    hide IndexOf;
    assert m <= Joined(Split(m));
  }

  /** Where the separators of the cut mask are. */
  lemma CutSeparators(n: string, r: string, room: nat)
    requires '!' !in n && '@' !in n && |n| < room && r != ""
    ensures var m, at := Cut(n + "!" + r, room), IndexOf(r, '@');
            IndexOf(m, '!') == |n| && |n| < |m| <= room && (|m| < room ==> m == n + "!" + r) &&
            IndexOf(m, '@') == (if |n| + 1 + at < |m| then |n| + 1 + at else |m|) && (|n| < room - 1 ==> |n| + 1 < |m|)
  {
    var r' := Cut(r, room - |n| - 1);
    CutBehind(n, r, room);
    Separators(n, r');
    CutIndex(r, |r'|, '@');
    hide IndexOf, Cut;
  }

  lemma ShortNick(n: string, r: string, i: nat, room: nat)
    requires n != "" && '!' !in n && '@' !in n && |n| < room && 0 < i < |r| - 1 && r[i] == '@'
    ensures var m := Cut(n + "!" + r, room);
            Cut(Joined(Split(m)), room) == m <==> r[0] != '@' || |n| >= room - 1
  {
    var m, at := Cut(n + "!" + r, room), IndexOf(r, '@');
    CutSeparators(n, r, room);
    assert at == 0 <==> r[0] == '@';
    assert at <= i;
    hide IndexOf, Split, Joined, Cut;
    if r[0] == '@' && |n| < room - 1 {
      RejoinStar(m, |n|, |n| + 1);
      Differs(m, Joined(Split(m)), room, |n| + 1);
    } else if |m| < room {
      Rejoin(m, |n|, |n| + 1 + at);
      CutWhole(m, room);
    } else {
      RejoinStart(m, |n|, IndexOf(m, '@'));
      CutStart(m, Joined(Split(m)), room);
    }
  }

  lemma CutBehind(n: string, r: string, room: nat)
    requires |n| < room
    ensures var m, r' := Cut(n + "!" + r, room), Cut(r, room - |n| - 1);
            m == n + "!" + r' && r' == r[..|r'|] && |m| <= room && (|m| < room ==> r' == r) &&
            (|n| < room - 1 && r != "" ==> r' != "")
  {
  }

  lemma CutWhole(m: string, room: nat)
    requires |m| <= room
    ensures Cut(m, room) == m
  {
  }

  lemma CutStart(m: string, j: string, room: nat)
    requires m <= j && |m| == room
    ensures Cut(j, room) == m
  {
  }

  lemma Differs(m: string, j: string, room: nat, k: nat)
    requires k < |m| && k < |j| && k < room && m[k] != j[k]
    ensures Cut(j, room) != m
  {
    assert k < |Cut(j, room)| && Cut(j, room)[k] == j[k];
  }

  lemma CutIndex(s: string, k: nat, c: char)
    requires k <= |s|
    ensures IndexOf(s[..k], c) == if IndexOf(s, c) < k then IndexOf(s, c) else k
  {
    if IndexOf(s, c) < k {
      FirstIndex(s[..k], c, IndexOf(s, c));
    } else {
      NoIndex(s[..k], c);
    }
  }

  lemma CutTwice(s: string, a: nat, b: nat)
    requires a <= b
    ensures Cut(Cut(s, b), a) == Cut(s, a)
  {
  }

  /** A completed mask cut to some room is kept when it is completed again and cut, exactly when there
      is no stray '@' within the room. */
  lemma AgainExact(mask: string, room: nat)
    requires 3 <= room <= 511
    ensures Cut(Fix(Cut(Fix(mask), room)), room) == Cut(Fix(mask), room) <==> !StrayWithin(mask, room)
  {
    if mask == "" || mask[0] != '$' {
      var p := Split(mask);
      NickClean(mask);
      IdentStart(mask);
      JoinedStart(mask);
      hide IndexOf, Split, StrayAt, Joined;
      JoinedAgain(p, room);
      CutTwice(Joined(p), room, 511);
      CutTwice(Joined(Split(Cut(Joined(p), room))), room, 511);
    } else {
      CutTwice(mask, room, 511);
      assert Cut(Fix(mask), room) == Cut(mask, room);
    }
  }

  /** What a list entry keeps of a completed mask survives completion and storage again exactly when
      there is no stray '@' within its 255 characters. */
  lemma KeptAgain(mask: string)
    ensures Cut(Fix(Cut(Fix(mask), 255)), 255) == Cut(Fix(mask), 255) <==> !StrayWithin(mask, 255)
  {
    AgainExact(mask, 255);
  }

  /** What the ident can begin with. */
  lemma IdentStart(mask: string)
    requires mask == "" || mask[0] != '$'
    ensures OrStar(Split(mask).ident)[0] == '@' <==> StrayAt(mask)
    ensures StrayAt(mask) ==> |OrStar(Split(mask).nick)| == if IndexOf(mask, '@') == 0 then 1 else IndexOf(mask, '@')
  {
  }

  /** Completing a mask twice is completing it once exactly when there is no stray '@' within the
      buffer. */
  lemma FixAgain(mask: string)
    ensures Fix(Fix(mask)) == Fix(mask) <==> !StrayWithin(mask, 511)
  {
    AgainExact(mask, 511);
  }

  lemma JoinedStart(mask: string)
    requires mask == "" || mask[0] != '$'
    ensures Joined(Split(mask)) != "" && Joined(Split(mask))[0] != '$'
  {
    hide IndexOf;
    var p := Split(mask);
    assert Joined(p)[0] == OrStar(p.nick)[0];
  }

  /** The counterexample in full. */
  lemma StrayAtGrows()
    ensures Fix("x@y!@w") == "x!@w@y" && Fix("x!@w@y") == "x!*@w@y"
  {
    SplitStray();
    hide Split;
  }

  lemma SplitStray()
    ensures Split("x@y!@w") == Parts("x", "@w", "y") && Split("x!@w@y") == Parts("x", "", "w@y")
  {
    var a, b := "x@y!@w", "x!@w@y";
    FirstIndex(a, '!', 3);
    FirstIndex(a, '@', 1);
    FirstIndex(b, '!', 1);
    FirstIndex(b, '@', 2);
    hide IndexOf;
    assert a[..1] == "x" && a[4..] == "@w" && a[2..3] == "y";
    assert b[..1] == "x" && b[2..2] == "" && b[3..] == "w@y";
  }
}
