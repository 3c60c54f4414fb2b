/** Which lines of a stream reach the commands, said by the positions of white space, colons and line
    ends, and that these are the lines u_msg_parse finds a command in. */
module LineMeaning {
  import opened Common
  import opened Hostmask
  import L = LineFraming
  import W = ModeWire

  type Byte = L.Byte

  /** Space, tab, line feed, vertical tab, form feed, carriage return. */
  predicate White(b: int) {
    b == 32 || 9 <= b <= 13
  }

  /** The first character that is not white. */
  predicate FirstBlack(line: seq<int>, i: int) {
    0 <= i < |line| && !White(line[i]) && forall j :: 0 <= j < i ==> White(line[j])
  }

  /** White at j, and something not white behind it. */
  predicate Breaks(line: seq<int>, j: int, k: int) {
    0 <= j < k < |line| && White(line[j]) && !White(line[k])
  }

  /** A first word that does not begin with ':' (58), or a second word behind a source. */
  ghost predicate HasCommand(line: seq<int>) {
    exists i :: FirstBlack(line, i) && (line[i] != 58 || exists j, k :: i < j && Breaks(line, j, k))
  }

  lemma OneFirst(line: seq<int>, i: int, j: int)
    requires FirstBlack(line, i) && FirstBlack(line, j)
    ensures i == j
  {
  }

  /** White skipping stops at the first character that is not white. */
  lemma SkipsTo(line: seq<Byte>)
    ensures var s := SkipWhile(line, L.IsSpace);
            |s| <= |line| && s == line[|line| - |s|..] &&
            if s == [] then forall j :: 0 <= j < |line| ==> White(line[j]) else FirstBlack(line, |line| - |s|)
  {
    SkipSuffix(line, L.IsSpace);
    SkipPrefix(line, L.IsSpace);
  }

  /** What is left behind a word and the white space after it. */
  lemma BehindWord(line: seq<Byte>)
    ensures SkipWhile(SkipWhile(line, L.InWord), L.IsSpace) != [] <==> exists j, k :: Breaks(line, j, k)
  {
    var word := SkipWhile(line, L.InWord);
    SkipSuffix(line, L.InWord);
    SkipPrefix(line, L.InWord);
    var n := |line| - |word|;
    SkipsTo(word);
    var s := SkipWhile(word, L.IsSpace);
    hide SkipWhile;
    if s != [] {
      assert White(line[n]) && !White(line[n + (|word| - |s|)]);
      assert Breaks(line, n, n + (|word| - |s|));
    }
    if j, k :| Breaks(line, j, k) {
      assert j >= n && word[k - n] == line[k];
    }
  }

  /** What is behind a source, in the line and on its own. */
  lemma BreaksBehind(line: seq<Byte>, i: nat, rest: seq<Byte>)
    requires i < |line| && rest == line[i + 1..]
    ensures (exists j, k :: Breaks(rest, j, k)) <==> exists j, k :: i < j && Breaks(line, j, k)
  {
    if j, k :| Breaks(rest, j, k) {
      assert Breaks(line, j + i + 1, k + i + 1);
    }
    if j, k :| i < j && Breaks(line, j, k) {
      assert Breaks(rest, j - i - 1, k - i - 1);
    }
  }

  lemma BlankIs(line: seq<Byte>)
    ensures L.Blank(line) <==> !HasCommand(line)
  {
    var s := SkipWhile(line, L.IsSpace);
    SkipsTo(line);
    if s != [] {
      var i := |line| - |s|;
      assert s[1..] == line[i + 1..] && s[0] == line[i];
      BehindWord(s[1..]);
      BreaksBehind(line, i, s[1..]);
      hide SkipWhile, White, Breaks;
      if i' :| FirstBlack(line, i') {
        OneFirst(line, i, i');
      }
    }
    hide SkipWhile, White, Breaks;
  }

  /* ---------- the lines of a stream ---------- */

  /** Neither CR nor LF. */
  predicate Unbroken(part: seq<Byte>) {
    13 !in part && 10 !in part
  }

  /** A C string ends at its first NUL. */
  lemma {:induction false} CStrEnds(part: seq<Byte>, n: nat)
    requires n <= |part| && 0 !in part[..n] && (n < |part| ==> part[n] == 0)
    ensures L.CStr(part) == part[..n]
  {
    if n > 0 {
      assert part[1..][..n - 1] == part[..n][1..] && part[0] in part[..n];
      CStrEnds(part[1..], n - 1);
      assert part[..n] == [part[0]] + part[1..][..n - 1];
    }
  }

  /** Parts, each with a CR or LF behind it: `ends` tells which. */
  function Stream(parts: seq<seq<Byte>>, ends: seq<bool>): seq<Byte>
    requires |ends| == |parts|
  {
    if parts == [] then [] else parts[0] + [if ends[0] then 13 else 10] + Stream(parts[1..], ends[1..])
  }

  /** The parts that hold a command. */
  ghost function Commands(parts: seq<seq<Byte>>): seq<seq<Byte>> {
    if parts == [] then []
    else (if HasCommand(L.CStr(parts[0])) then [L.CStr(parts[0])] else []) + Commands(parts[1..])
  }

  /** Whatever is between the CRs and LFs of a stream, and whichever of them it is, what comes out is,
      in order, each part that has a command. What follows the last of them waits. */
  lemma {:induction false} StreamLines(parts: seq<seq<Byte>>, ends: seq<bool>, rest: seq<Byte>)
    requires |ends| == |parts| && Unbroken(rest) && forall i :: 0 <= i < |parts| ==> Unbroken(parts[i])
    ensures L.Lines(Stream(parts, ends) + rest) == Commands(parts)
    ensures L.Unended(Stream(parts, ends) + rest) == rest
  {
    hide HasCommand, L.Blank, L.CStr;
    if parts == [] {
      assert Stream(parts, ends) + rest == rest;
      L.NoLines(rest);
    } else {
      var line, more := parts[0], Stream(parts[1..], ends[1..]) + rest;
      var s := Stream(parts, ends) + rest;
      assert s == line + [if ends[0] then 13 else 10] + more;
      assert s[..|line|] == line && s[|line| + 1..] == more;
      BlankIs(L.CStr(line));
      StreamLines(parts[1..], ends[1..], rest);
      L.LinesCut(s, |line|);
      hide L.Lines, L.Unended;
    }
  }

  /** Every stream is such a stream. */
  lemma {:induction false} StreamOf(s: seq<Byte>) returns (parts: seq<seq<Byte>>, ends: seq<bool>, rest: seq<Byte>)
    ensures |ends| == |parts| && Unbroken(rest) && forall i :: 0 <= i < |parts| ==> Unbroken(parts[i])
    ensures s == Stream(parts, ends) + rest
    decreases |s|
  {
    var i := L.FirstEnd(s);
    if i == |s| {
      parts, ends, rest := [], [], s;
    } else {
      var more, moreEnds;
      more, moreEnds, rest := StreamOf(s[i + 1..]);
      parts, ends := [s[..i]] + more, [s[i] == 13] + moreEnds;
      assert parts[1..] == more && ends[1..] == moreEnds;
    }
  }

  /* ---------- the lines u_msg_parse takes ---------- */

  function Text(line: seq<Byte>): string {
    seq(|line|, i requires 0 <= i < |line| => line[i] as char)
  }

  lemma TextFrom(line: seq<Byte>, k: nat)
    requires k <= |line|
    ensures Text(line)[k..] == Text(line[k..])
  {
  }

  lemma {:induction false} TextSkips(line: seq<Byte>)
    ensures W.WsSkip(Text(line)) == Text(SkipWhile(line, L.IsSpace))
  {
    SkipStep(Text(line), Common.IsSpace);
    if line != [] && L.IsSpace(line[0]) {
      TextFrom(line, 1);
      TextSkips(line[1..]);
    }
  }

  lemma {:induction false} TextBehind(line: seq<Byte>)
    ensures Text(line)[W.WordLength(Text(line))..] == Text(SkipWhile(line, L.InWord))
  {
    TextFrom(line, 0);
    if line != [] && L.InWord(line[0]) {
      TextFrom(line, 1);
      TextBehind(line[1..]);
    }
  }

  /** The lines that reach the commands are those that u_msg_parse accepts. */
  lemma ParseTakes(line: seq<Byte>)
    ensures W.Parse(Text(line)).Some? <==> HasCommand(line)
  {
    BlankIs(line);
    var s := SkipWhile(line, L.IsSpace);
    TextSkips(line);
    if s != [] {
      TextFrom(s, 1);
      TextBehind(s[1..]);
      TextSkips(SkipWhile(s[1..], L.InWord));
    }
    hide SkipWhile, HasCommand, W.WsSkip, W.WordLength, W.Args;
  }
}
