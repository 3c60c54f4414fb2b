/** The delta on the wire: the TMODE line that the stacker's buffers make, as much of it as a link
    takes (src/link.c), parsed by u_msg_parse (src/msg.c) on the other server, gives back the mode
    characters and the parameters. */
module ModeWire {
  import opened Hostmask
  import opened ModeSpec
  import opened ModeDelta
  import opened ModeReplay
  import opened Common
  import E = ModeEngine

  const MAXARGS := 15

  /* ---------- the argument part of u_msg_parse ---------- */

  /** Where the first word ends. */
  function WordLength(s: string): (n: nat)
    ensures n <= |s| && (forall i :: 0 <= i < n ==> !IsSpace(s[i])) && (n < |s| ==> IsSpace(s[n]))
  {
    if s == "" || IsSpace(s[0]) then 0 else 1 + WordLength(s[1..])
  }

  /** ws_skip */
  function WsSkip(s: string): (r: string)
    ensures |r| <= |s| && (r != "" ==> !IsSpace(r[0]))
  {
    SkipWhile(s, IsSpace)
  }

  /** The arguments of a line whose command is cut off: at most `n` words, one that begins with a
      colon being all of the rest. */
  function Args(s: string, n: nat): seq<string>
    decreases n
  {
    if n == 0 || s == "" then []
    else if s[0] == ':' then [s[1..]]
    else
      var k := WordLength(s);
      [s[..k]] + Args(WsSkip(s[k..]), n - 1)
  }

  /** A word and what ws_cut leaves behind it. */
  function Word(s: string): string {
    s[..WordLength(s)]
  }

  function Behind(s: string): string {
    WsSkip(s[WordLength(s)..])
  }

  /** The command is as it stands in the line, before it is put in upper case. */
  datatype Message = Message(source: Option<string>, command: string, argv: seq<string>)

  /** u_msg_parse; a line without a command is refused. */
  function Parse(line: string): Option<Message> {
    var s := WsSkip(line);
    if s == "" then None
    else if s[0] == ':' then
      var rest := Behind(s[1..]);
      if rest == "" then None
      else Some(Message(Some(Word(s[1..])), Word(rest), Args(Behind(rest), MAXARGS)))
    else Some(Message(None, Word(s), Args(Behind(s), MAXARGS)))
  }

  /** A word that is an argument as it stands. */
  predicate Plain(w: string) {
    w != "" && w[0] != ':' && forall i :: 0 <= i < |w| ==> !IsSpace(w[i])
  }

  predicate AllPlain(ws: seq<string>) {
    forall i :: 0 <= i < |ws| ==> Plain(ws[i])
  }

  /** Words, each behind a space. */
  function Spaced(ws: seq<string>): string {
    if ws == [] then "" else " " + ws[0] + Spaced(ws[1..])
  }

  lemma LengthIs(s: string, n: nat)
    requires n <= |s| && (forall i :: 0 <= i < n ==> !IsSpace(s[i])) && (n < |s| ==> IsSpace(s[n]))
    ensures WordLength(s) == n
  {
  }

  /** The first word and what follows it. */
  lemma ArgsCut(w: string, ws: seq<string>, n: nat)
    requires Plain(w) && n > 0
    ensures Args(w + Spaced(ws), n) == [w] + Args(WsSkip(Spaced(ws)), n - 1)
  {
    hide WsSkip;
    var s := w + Spaced(ws);
    assert s[..|w|] == w && s[|w|..] == Spaced(ws);
    LengthIs(s, |w|);
  }

  lemma SkipOne(w: string, rest: string)
    requires Plain(w)
    ensures WsSkip(" " + w + rest) == w + rest
  {
    var s := " " + w + rest;
    assert s[1..] == w + rest;
    SkipStep(s, IsSpace);
    SkipStep(w + rest, IsSpace);
  }

  lemma NoArgs(n: nat)
    ensures Args(WsSkip(Spaced([])), n) == [] && forall s :: Args(s, 0) == []
  {
  }

  lemma SpacedCons(w: string, ws: seq<string>)
    ensures Spaced([w] + ws) == " " + w + Spaced(ws)
  {
    assert ([w] + ws)[1..] == ws;
  }

  lemma ArgsStep(w: string, ws: seq<string>, n: nat)
    requires Plain(w) && n > 0
    ensures Args(WsSkip(Spaced([w] + ws)), n) == [w] + Args(WsSkip(Spaced(ws)), n - 1)
  {
    hide WsSkip, Args, Plain, Spaced;
    SpacedCons(w, ws);
    SkipOne(w, Spaced(ws));
    ArgsCut(w, ws, n);
  }

  /** Plain words read back as the arguments, up to the number there can be. */
  lemma {:induction false} ArgsOfSpaced(ws: seq<string>, n: nat)
    requires AllPlain(ws)
    ensures Args(WsSkip(Spaced(ws)), n) == if |ws| <= n then ws else ws[..n]
  {
    NoArgs(n);
    if ws != [] && n > 0 {
      PlainHead(ws);
      hide WsSkip, Args, Plain, Spaced, AllPlain;
      ArgsStep(ws[0], ws[1..], n);
      ArgsOfSpaced(ws[1..], n - 1);
      if |ws| > n {
        assert ws[..n] == [ws[0]] + ws[1..][..n - 1];
      }
    }
  }

  lemma PlainHead(ws: seq<string>)
    requires AllPlain(ws) && ws != []
    ensures Plain(ws[0]) && AllPlain(ws[1..]) && ws == [ws[0]] + ws[1..]
  {
    hide Plain;
  }

  /** Only plain words, and no more than there can be, read back as they were written. */
  lemma {:induction false} OnlyPlainReadBack(ws: seq<string>, n: nat)
    requires Args(WsSkip(Spaced(ws)), n) == ws
    ensures AllPlain(ws) && |ws| <= n
    decreases |ws|
  {
    if ws != [] {
      var w, rest := ws[0], ws[1..];
      assert ws == [w] + rest;
      SpacedCons(w, rest);
      FirstPlain(w, rest, n);
      hide WsSkip, Args, Plain, Spaced;
      ArgsStep(w, rest, n);
      assert ([w] + Args(WsSkip(Spaced(rest)), n - 1))[1..] == Args(WsSkip(Spaced(rest)), n - 1);
      OnlyPlainReadBack(rest, n - 1);
      forall i | 0 <= i < |ws|
        ensures Plain(ws[i])
      {
        assert i > 0 ==> ws[i] == rest[i - 1];
      }
    }
  }

  /** The first word of those that read back is plain. */
  lemma FirstPlain(w: string, rest: seq<string>, n: nat)
    requires Args(WsSkip(" " + w + Spaced(rest)), n) == [w] + rest
    ensures n > 0 && Plain(w)
  {
    var t := w + Spaced(rest);
    assert (" " + w + Spaced(rest))[1..] == t;
    var s := WsSkip(t);
    SkipStep(" " + w + Spaced(rest), IsSpace);
    assert WsSkip(" " + w + Spaced(rest)) == s;
    SkipStep(t, IsSpace);
    SkipSuffix(t, IsSpace);
    hide SkipWhile;
    assert s != "" && n > 0;
    if s[0] == ':' {
      TrailingIsShorter(s, w, rest, n);
    } else {
      var k := WordLength(s);
      assert Args(s, n)[0] == s[..k];
      hide WsSkip, Args, Spaced;
      assert w == s[..k] && w[0] == t[0];
    }
  }

  lemma TrailingIsShorter(s: string, w: string, rest: seq<string>, n: nat)
    requires n > 0 && s != "" && s[0] == ':' && Args(s, n) == [w] + rest
    ensures |w| < |s| && rest == []
  {
    assert Args(s, n) == [s[1..]];
    assert ([w] + rest)[0] == s[1..];
    assert |[w] + rest| == 1;
  }

  /** Words read back as they were written if and only if all are plain and there are not too many. */
  lemma ReadBackExact(ws: seq<string>, n: nat)
    ensures Args(WsSkip(Spaced(ws)), n) == ws <==> AllPlain(ws) && |ws| <= n
  {
    hide Args, WsSkip, Spaced, AllPlain;
    if AllPlain(ws) && |ws| <= n {
      ArgsOfSpaced(ws, n);
    } else if Args(WsSkip(Spaced(ws)), n) == ws {
      OnlyPlainReadBack(ws, n);
    }
  }

  /* ---------- the delta ---------- */

  lemma {:induction false} SpacedSnoc(ws: seq<string>, w: string)
    ensures Spaced(ws + [w]) == Spaced(ws) + " " + w
  {
    if ws == [] {
      assert ws + [w] == [w] && [w][1..] == [];
    } else {
      hide Spaced;
      var h, rest := ws[0], ws[1..];
      assert ws == [h] + rest && ws + [w] == [h] + (rest + [w]);
      SpacedSnoc(rest, w);
      SpacedCons(h, rest);
      SpacedCons(h, rest + [w]);
      assert " " + h + (Spaced(rest) + " " + w) == " " + h + Spaced(rest) + " " + w;
    }
  }

  lemma {:induction false} ParamsSnoc(items: seq<Item>, i: Item)
    ensures Params(items + [i]) == Params(items) + if i.param.Some? then [i.param.value] else []
    decreases |items|
  {
    if items == [] {
      assert items + [i] == [i] + [];
      ParamsHead(i, []);
    } else {
      var h, rest := items[0], items[1..];
      ParamsSnoc(rest, i);
      assert items == [h] + rest && items + [i] == [h] + (rest + [i]);
      ParamsHead(h, rest);
      ParamsHead(h, rest + [i]);
    }
  }

  /** The data buffer holds the parameters, each behind a space. */
  lemma {:induction false} DataIsSpaced(items: seq<Item>)
    ensures E.Data(items) == Spaced(Params(items))
  {
    if items != [] {
      hide Spaced, Params;
      var init, i := items[..|items| - 1], items[|items| - 1];
      DataIsSpaced(init);
      ParamsSnoc(init, i);
      assert init + [i] == items;
      if i.param.Some? {
        SpacedSnoc(Params(init), i.param.value);
      } else {
        assert Params(init) + [] == Params(init);
      }
    }
  }

  /* ---------- the length of a line ---------- */

  /** What is read from a line is no longer than the line: n words take the space between them too. */
  lemma {:induction false} ArgsSize(s: string, n: nat)
    ensures Args(s, n) != [] ==> |Spaced(Args(s, n))| - 1 <= |s|
    decreases n
  {
    if n > 0 && s != "" {
      if s[0] == ':' {
        SpacedOne(s[1..]);
      } else {
        var k := WordLength(s);
        var rest := WsSkip(s[k..]);
        var more := Args(rest, n - 1);
        ArgsSize(rest, n - 1);
        SkipLess(s[k..]);
        hide WsSkip, Args, WordLength;
        SpacedCons(s[..k], more);
        if more == [] {
          SpacedOne(s[..k]);
          assert [s[..k]] + more == [s[..k]];
        }
      }
    }
  }

  lemma SpacedOne(w: string)
    ensures Spaced([w]) == " " + w
  {
    assert [w][1..] == [];
  }

  /** If anything is left behind white space, that was not empty. */
  lemma SkipLess(s: string)
    ensures s != "" && IsSpace(s[0]) ==> |WsSkip(s)| < |s|
  {
    SkipStep(s, IsSpace);
  }

  lemma WordSize(s: string)
    ensures Behind(s) != "" ==> |Word(s)| + 1 + |Behind(s)| <= |s|
  {
    SkipLess(s[WordLength(s)..]);
    hide WsSkip;
  }

  /** A line is as long as the message it holds. */
  lemma ParseSize(line: string)
    requires Parse(line).Some? && Parse(line).value.source.Some? && Parse(line).value.argv != []
    ensures var m := Parse(line).value;
            1 + |m.source.value| + 1 + |m.command| + |Spaced(m.argv)| <= |line|
  {
    var s := WsSkip(line);
    var rest := Behind(s[1..]);
    WordSize(s[1..]);
    WordSize(rest);
    ArgsSize(Behind(rest), MAXARGS);
    NoText(MAXARGS);
    hide Behind, Word, WsSkip, Args;
  }

  lemma NoText(n: nat)
    ensures Args("", n) == []
  {
  }

  /** A line with a source, a command and words behind them. */
  lemma ParseLine(src: string, cmd: string, ws: seq<string>)
    requires Plain(src) && Plain(cmd) && ws != []
    ensures Parse(":" + src + " " + cmd + Spaced(ws)) == Some(Message(Some(src), cmd, Args(WsSkip(Spaced(ws)), MAXARGS)))
  {
    SpacedStart(ws);
    assert IsSpace(' ');
    LineText(src, cmd, Spaced(ws));
    hide Spaced;
    SourceThere(src, cmd, Spaced(ws));
  }

  lemma LineText(src: string, cmd: string, tail: string)
    ensures ":" + src + " " + cmd + tail == ":" + (src + (" " + (cmd + tail)))
  {
  }

  lemma SourceThere(src: string, cmd: string, tail: string)
    requires Plain(src) && Plain(cmd) && tail != "" && IsSpace(tail[0])
    ensures Parse(":" + (src + (" " + (cmd + tail)))) == Some(Message(Some(src), cmd, Args(WsSkip(tail), MAXARGS)))
  {
    var rest := cmd + tail;
    var back := src + (" " + rest);
    assert rest != "" && rest[0] == cmd[0] && !IsSpace(rest[0]) && IsSpace(' ') && !IsSpace(':');
    hide Args, SkipWhile, IsSpace;
    CutWord(src, " " + rest);
    CutWord(cmd, tail);
    SkipNone(":" + back);
    SkipNone(rest);
    SkipSpace(rest);
    hide Plain, Word, Behind;
    assert (":" + back)[1..] == back;
  }

  lemma SkipNone(s: string)
    requires s != "" && !IsSpace(s[0])
    ensures WsSkip(s) == s
  {
    SkipStep(s, IsSpace);
  }

  lemma SkipSpace(s: string)
    ensures WsSkip(" " + s) == WsSkip(s)
  {
    SkipStep(" " + s, IsSpace);
    assert (" " + s)[1..] == s;
  }

  lemma SpacedStart(ws: seq<string>)
    requires ws != []
    ensures Spaced(ws) != "" && Spaced(ws)[0] == ' '
  {
  }

  lemma CutWord(w: string, rest: string)
    requires Plain(w) && rest != "" && IsSpace(rest[0])
    ensures Word(w + rest) == w && Behind(w + rest) == WsSkip(rest)
  {
    var s := w + rest;
    LengthIs(s, |w|);
    assert s[..|w|] == w && s[|w|..] == rest;
    hide WsSkip, WordLength;
  }

  /* ---------- the line that carries the delta ---------- */

  /** u_link_vf formats a line into 510 bytes, the last of which is the terminator. */
  const LINE_MAX := 509

  /** The TMODE line: who set the modes, the time stamp, the channel and the two buffers. */
  function Line(src: string, ts: string, chan: string, items: seq<Item>): string {
    ":" + src + " TMODE " + ts + " " + chan + " " + Chars(None, items) + E.Data(items)
  }

  /** What leaves the server. (The line is first formatted into 1024 bytes, which cuts no more.) */
  function Sent(src: string, ts: string, chan: string, items: seq<Item>): string {
    Cut(Line(src, ts, chan, items), LINE_MAX)
  }

  /** The line has the form of ParseLine. */
  lemma LineIs(src: string, ts: string, chan: string, items: seq<Item>)
    ensures Line(src, ts, chan, items) ==
            ":" + src + " " + "TMODE" + Spaced([ts, chan, Chars(None, items)] + Params(items))
    ensures |Line(src, ts, chan, items)| ==
            1 + |src| + 1 + 5 + |Spaced([ts, chan, Chars(None, items)] + Params(items))|
  {
    hide Chars, Spaced, Params, E.Data;
    DataIsSpaced(items);
    Unspaced(ts, chan, Chars(None, items), Params(items));
    assert ":" + src + " " + "TMODE" == ":" + src + " TMODE";
    assert ":" + src + " TMODE" + " " == ":" + src + " TMODE ";
    Glue(":" + src + " TMODE", ts, chan, Chars(None, items), E.Data(items));
  }

  lemma Glue(f: string, a: string, b: string, c: string, t: string)
    ensures f + " " + a + " " + b + " " + c + t == f + (" " + a + (" " + b + " " + c + t))
  {
  }

  /** What leaves the server parses into what was put on the line if and only if every parameter is
      plain, there are at most twelve, and the whole line is no longer than a link takes. */
  lemma LineArgs(src: string, ts: string, chan: string, items: seq<Item>)
    requires Plain(src) && Plain(ts) && Plain(chan) && Plain(Chars(None, items))
    ensures Parse(Sent(src, ts, chan, items)) ==
              Some(Message(Some(src), "TMODE", [ts, chan, Chars(None, items)] + Params(items))) <==>
            AllPlain(Params(items)) && |Params(items)| + 3 <= MAXARGS && |Line(src, ts, chan, items)| <= LINE_MAX
  {
    var words := [ts, chan, Chars(None, items)] + Params(items);
    assert Plain("TMODE");
    LineIs(src, ts, chan, items);
    WordsPlain(ts, chan, Chars(None, items), Params(items));
    hide Chars, Args, Plain, Spaced, Params, Parse, Line, AllPlain, WsSkip;
    var sent := Sent(src, ts, chan, items);
    if Parse(sent) == Some(Message(Some(src), "TMODE", words)) {
      ParseSize(sent);
    }
    ParseLine(src, "TMODE", words);
    ReadBackExact(words, MAXARGS);
  }

  lemma WordsPlain(a: string, b: string, c: string, ws: seq<string>)
    requires Plain(a) && Plain(b) && Plain(c)
    ensures AllPlain([a, b, c] + ws) <==> AllPlain(ws)
  {
    hide Plain;
    assert forall i :: 0 <= i < |ws| ==> ([a, b, c] + ws)[i + 3] == ws[i];
  }

  lemma Unspaced(a: string, b: string, c: string, ws: seq<string>)
    ensures Spaced([a, b, c] + ws) == " " + a + (" " + b + " " + c + Spaced(ws))
  {
    SpacedCons(c, ws);
    SpacedCons(b, [c] + ws);
    SpacedCons(a, [b] + ([c] + ws));
    assert [a, b, c] + ws == [a] + ([b] + ([c] + ws));
  }

  /** End to end: what a mode string does to a channel, the line that leaves the server does to the
      same channel on the server that receives it, whether that checks what it is told and refuses
      none of it or checks nothing: to all but the lists in any case, and to the lists exactly when
      the printed changes make of the old ones what they are here, as they do when every mask
      repeats. */
  lemma Delivered(w: World, who: Setter, s: Chan, modes: string, params: seq<string>, w': World, who': Setter,
                  src: string, ts: string, chan: string)
    requires WellFormed(w.tab) && Sane(s) && Replica(w, s, w', who')
    requires |w'.tab| == 128 && (who'.force || AllAccepted(w, who, Start(s, params), modes, w', who'))
    requires Plain(src) && Plain(ts) && Plain(chan)
    requires var d := Delta(w, who, s, modes, params);
             Plain(d.0) && AllPlain(d.1) && |d.1| + 3 <= MAXARGS && |d.0| <= MAX_MODES
    requires |Line(src, ts, chan, Process(w, who, s, modes, params).out)| <= LINE_MAX
    ensures var r := Process(w, who, s, modes, params);
            var m := Parse(Sent(src, ts, chan, r.out));
            m.Some? && m.value.command == "TMODE" && |m.value.argv| >= 3 &&
            m.value.argv[0] == ts && m.value.argv[1] == chan &&
            var z := Process(w', who', s, m.value.argv[2], m.value.argv[3..]);
            z.chan == r.chan.(lists := Relist(w, s.lists, r.out)) &&
            (z.chan == r.chan <==> Relist(w, s.lists, r.out) == r.chan.lists) &&
            (MasksRepeat(w, who, Start(s, params), modes) ==> z.chan == r.chan)
  {
    assert |w.tab| == 128;
    hide Process, Chars, Params, Plain, Sane, Replica, MasksRepeat, AllAccepted, WellFormed, Parse, Line, Sent, Relist;
    EndExact(w, who, s, modes, params, w', who');
    if MasksRepeat(w, who, Start(s, params), modes) {
      FaithfulDelta(w, who, s, modes, params, w', who');
    }
    var r := Process(w, who, s, modes, params);
    LineArgs(src, ts, chan, r.out);
    assert ([ts, chan, Chars(None, r.out)] + Params(r.out))[3..] == Params(r.out);
  }

  /* ---------- where the line fails ---------- */

  /** What arrives of a key: all of the line is read up to the cut. */
  lemma KeyArrives(src: string, ts: string, chan: string, key: string)
    requires Plain(src) && Plain(ts) && Plain(chan) && key != "" && |src| + |ts| + |chan| + 13 < LINE_MAX
    ensures var sent := Sent(src, ts, chan, [Item(true, 'k', Some(key))]);
            var head := |src| + |ts| + |chan| + 13;
            |Line(src, ts, chan, [Item(true, 'k', Some(key))])| == head + |key| &&
            sent == ":" + src + " " + "TMODE" + Spaced([ts, chan, "+k", Cut(key, LINE_MAX - head)])
  {
    var items := [Item(true, 'k', Some(key))];
    var head := |src| + |ts| + |chan| + 13;
    var front := ":" + src + " TMODE " + ts + " " + chan + " +k ";
    KeyText(key);
    hide Chars, E.Data;
    KeyLine(src, ts, chan, key);
    assert Line(src, ts, chan, items) == front + key && |front| == head;
    CutFront(front, key, LINE_MAX);
    KeyLine(src, ts, chan, Cut(key, LINE_MAX - head));
  }

  lemma KeyText(key: string)
    ensures Chars(None, [Item(true, 'k', Some(key))]) == "+k" && E.Data([Item(true, 'k', Some(key))]) == " " + key
  {
    var out := [Item(true, 'k', Some(key))];
    assert out[1..] == [] && out[..0] == [];
    assert E.Data([]) == "";
  }

  lemma KeyLine(src: string, ts: string, chan: string, key: string)
    ensures var front := ":" + src + " TMODE " + ts + " " + chan + " +k ";
            front + key == ":" + src + " TMODE " + ts + " " + chan + " " + "+k" + (" " + key) &&
            front + key == ":" + src + " " + "TMODE" + Spaced([ts, chan, "+k", key])
  {
    SpacedOne(key);
    hide Spaced;
    Unspaced(ts, chan, "+k", [key]);
    assert [ts, chan, "+k"] + [key] == [ts, chan, "+k", key];
  }

  lemma CutFront(front: string, key: string, room: nat)
    requires |front| < room
    ensures Cut(front + key, room) == front + Cut(key, room - |front|)
  {
  }

  /** A key that begins with a colon is not plain: it is set here as it is, and arrives without the
      colon. */
  lemma ColonKey(w: World, who: Setter, s: Chan, w': World, who': Setter, src: string, ts: string, chan: string)
    requires E.HasKey(w) && HasAccess(who) && w'.tab == w.tab && who'.force
    requires Plain(src) && Plain(ts) && Plain(chan) && |src| + |ts| + |chan| + 13 < LINE_MAX - 2
    ensures var r := Process(w, who, s, "+k", [":p"]); var m := Parse(Sent(src, ts, chan, r.out));
            r.chan.key == Some(":p") && m == Some(Message(Some(src), "TMODE", [ts, chan, "+k", "p"])) &&
            Process(w', who', s, "+k", ["p"]).chan.key == Some("p")
  {
    hide Process, Parse, Sent, Args, WsSkip, Spaced;
    KeySet(w, who, s, ":p");
    KeySet(w', who', s, "p");
    KeyArrives(src, ts, chan, ":p");
    assert Cut(":p", LINE_MAX - (|src| + |ts| + |chan| + 13)) == ":p" && Plain("TMODE") && Plain("+k");
    ParseLine(src, "TMODE", [ts, chan, "+k", ":p"]);
    ThreeWords(ts, chan, "+k", ":p", MAXARGS);
    assert ":p"[1..] == "p";
  }

  /** A plain key that takes the line past what a link carries: it is set here whole, and arrives cut. */
  lemma LongKeyCut(w: World, who: Setter, s: Chan, key: string, w': World, who': Setter,
                   src: string, ts: string, chan: string)
    requires E.HasKey(w) && HasAccess(who) && w'.tab == w.tab && who'.force
    requires Plain(src) && Plain(ts) && Plain(chan) && Plain(key)
    requires |src| + |ts| + |chan| + 13 < LINE_MAX < |src| + |ts| + |chan| + 13 + |key|
    ensures var kept := key[..LINE_MAX - (|src| + |ts| + |chan| + 13)];
            var r := Process(w, who, s, "+k", [key]); var m := Parse(Sent(src, ts, chan, r.out));
            r.chan.key == Some(key) && m == Some(Message(Some(src), "TMODE", [ts, chan, "+k", kept])) &&
            Process(w', who', s, "+k", [kept]).chan.key == Some(kept) && kept != key
  {
    var kept := key[..LINE_MAX - (|src| + |ts| + |chan| + 13)];
    var words := [ts, chan, "+k", kept];
    assert Plain(kept) && Plain("TMODE") && Plain("+k");
    hide Process, Parse, Sent, Args, WsSkip, Spaced, Plain, E.HasKey, Line, AllPlain;
    assert AllPlain(words) by {
      FourPlain(ts, chan, "+k", kept);
    }
    KeySet(w, who, s, key);
    KeySet(w', who', s, kept);
    KeyArrives(src, ts, chan, key);
    assert Cut(key, LINE_MAX - (|src| + |ts| + |chan| + 13)) == kept;
    ParseLine(src, "TMODE", words);
    ArgsOfSpaced(words, MAXARGS);
  }

  lemma FourPlain(a: string, b: string, c: string, d: string)
    requires Plain(a) && Plain(b) && Plain(c) && Plain(d)
    ensures AllPlain([a, b, c, d])
  {
    hide Plain;
  }

  /** So a user's 500-character key arrives with 475. */
  lemma LongKeyAt(w: World, who: Setter, s: Chan, w': World, who': Setter, src: string, ts: string)
    requires E.HasKey(w) && HasAccess(who) && w'.tab == w.tab && who'.force
    requires Plain(src) && Plain(ts) && |src| == 9 && |ts| == 10
    ensures var r := Process(w, who, s, "+k", [Ws(500)]); var m := Parse(Sent(src, ts, "#c", r.out));
            r.chan.key == Some(Ws(500)) && m == Some(Message(Some(src), "TMODE", [ts, "#c", "+k", Ws(475)])) &&
            Process(w', who', s, "+k", [Ws(475)]).chan.key == Some(Ws(475))
  {
    assert Plain("#c") && Plain(Ws(500)) && Ws(500)[..475] == Ws(475);
    hide Process, Parse, Sent, Plain, Ws;
    LongKeyCut(w, who, s, Ws(500), w', who', src, ts, "#c");
  }

  /** Three words and a trailing argument. */
  lemma ThreeWords(a: string, b: string, c: string, d: string, n: nat)
    requires Plain(a) && Plain(b) && Plain(c) && d != "" && d[0] == ':' && n >= 4
    ensures Args(WsSkip(Spaced([a, b, c, d])), n) == [a, b, c, d[1..]]
  {
    SpacedOne(d);
    SkipStep(" " + d, IsSpace);
    assert (" " + d)[1..] == d && IsSpace(' ') && !IsSpace(':');
    SkipStep(d, IsSpace);
    assert Args(d, n - 3) == [d[1..]];
    hide Args, Plain, WsSkip, IsSpace, Spaced;
    ArgsStep(c, [d], n - 2);
    ArgsStep(b, [c] + [d], n - 1);
    ArgsStep(a, [b] + ([c] + [d]), n);
    assert [a, b, c, d] == [a] + ([b] + ([c] + [d]));
  }

  lemma KeySet(w: World, who: Setter, s: Chan, key: string)
    requires E.HasKey(w) && HasAccess(who)
    ensures var r := Process(w, who, s, "+k", [key]);
            r.chan == s.(key := Some(key)) && r.out == [Item(true, 'k', Some(key))]
  {
  }
}
