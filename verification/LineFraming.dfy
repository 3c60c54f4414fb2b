/** How src/link.c cuts what arrives on a connection into lines: a buffer filled by reads of any
    size, emptied by dispatch_lines as far as the wait flags allow, and carried over a live
    upgrade that may happen inside any command. */
module LineFraming {
  import B = Base64
  import opened Common

  type Byte = B.Byte

  const IBUFSIZE := 2048

  /* ---------- lines of a stream ---------- */

  predicate IsEnd(b: Byte) {
    b == 13 || b == 10
  }

  predicate IsSpace(b: Byte) {
    Common.IsSpace(b as char)
  }

  predicate InWord(b: Byte) {
    !IsSpace(b)
  }

  /** u_msg_parse finds no command: nothing but white space, or nothing but a source. */
  predicate Blank(line: seq<Byte>) {
    var s := SkipWhile(line, IsSpace);
    s == [] || (s[0] == ':' as int && SkipWhile(SkipWhile(s[1..], InWord), IsSpace) == [])
  }

  /** A line as the C string it is handed on as. */
  function CStr(line: seq<Byte>): seq<Byte> {
    if line == [] || line[0] == 0 then [] else [line[0]] + CStr(line[1..])
  }

  lemma {:induction false} CStrWhole(line: seq<Byte>)
    ensures CStr(line) == line <==> 0 !in line
  {
    if line != [] && line[0] != 0 {
      CStrWhole(line[1..]);
      assert line == [line[0]] + line[1..];
    }
  }

  function Keep(line: seq<Byte>): seq<seq<Byte>> {
    if Blank(CStr(line)) then [] else [CStr(line)]
  }

  function FirstEnd(s: seq<Byte>): (i: nat)
    ensures i <= |s| && (i < |s| ==> IsEnd(s[i])) && forall j :: 0 <= j < i ==> !IsEnd(s[j])
  {
    if s == [] || IsEnd(s[0]) then 0 else 1 + FirstEnd(s[1..])
  }

  /** The nonblank lines of a stream. A run of CR and LF ends one line; what is between two of them
      is empty and so blank. */
  function Lines(s: seq<Byte>): seq<seq<Byte>>
    decreases |s|
  {
    var i := FirstEnd(s);
    if i == |s| then [] else Keep(s[..i]) + Lines(s[i + 1..])
  }

  /** What follows the last CR or LF. */
  function Unended(s: seq<Byte>): seq<Byte>
    decreases |s|
  {
    var i := FirstEnd(s);
    if i == |s| then s else Unended(s[i + 1..])
  }

  predicate Complete(s: seq<Byte>) {
    s == [] || IsEnd(s[|s| - 1])
  }

  lemma FirstEndIs(s: seq<Byte>, i: nat)
    requires i <= |s| && (i < |s| ==> IsEnd(s[i])) && forall j :: 0 <= j < i ==> !IsEnd(s[j])
    ensures FirstEnd(s) == i
  {
  }

  lemma LinesCut(s: seq<Byte>, i: nat)
    requires i < |s| && IsEnd(s[i]) && forall j :: 0 <= j < i ==> !IsEnd(s[j])
    ensures Lines(s) == Keep(s[..i]) + Lines(s[i + 1..]) && Unended(s) == Unended(s[i + 1..])
  {
    hide Keep;
    FirstEndIs(s, i);
  }

  /** The same for a stream that goes on. */
  lemma LinesCutLonger(a: seq<Byte>, b: seq<Byte>, i: nat)
    requires i < |a| && IsEnd(a[i]) && forall j :: 0 <= j < i ==> !IsEnd(a[j])
    ensures Lines(a + b) == Keep(a[..i]) + Lines(a[i + 1..] + b) && Unended(a + b) == Unended(a[i + 1..] + b)
  {
    hide Keep, Lines, Unended;
    LinesCut(a + b, i);
    assert (a + b)[..i] == a[..i] && (a + b)[i + 1..] == a[i + 1..] + b;
  }

  /** After a line end the rest of the stream is cut on its own. */
  lemma {:induction false} LinesAppend(a: seq<Byte>, b: seq<Byte>)
    requires Complete(a)
    ensures Lines(a + b) == Lines(a) + Lines(b) && Unended(a + b) == Unended(b)
    decreases |a|
  {
    if a == [] {
      assert a + b == b && Lines(a) == [];
    } else {
      hide Keep, Lines, Unended, FirstEnd;
      var i := FirstEnd(a);
      assert i < |a| by { assert IsEnd(a[|a| - 1]); }
      LinesCut(a, i);
      LinesCutLonger(a, b, i);
      LinesAppend(a[i + 1..], b);
      Assoc(Keep(a[..i]), Lines(a[i + 1..]), Lines(b));
    }
  }

  lemma NoLines(s: seq<Byte>)
    requires forall j :: 0 <= j < |s| ==> !IsEnd(s[j])
    ensures Lines(s) == [] && Unended(s) == s
  {
    FirstEndIs(s, |s|);
  }

  lemma EmptyIsBlank()
    ensures Keep([]) == []
  {
  }

  /** A run of line ends holds no line. */
  lemma {:induction false} LinesOfRun(s: seq<Byte>)
    requires forall j :: 0 <= j < |s| ==> IsEnd(s[j])
    ensures Lines(s) == []
  {
    if s != [] {
      hide Keep;
      FirstEndIs(s, 0);
      EmptyIsBlank();
      assert s[..0] == [];
      LinesOfRun(s[1..]);
    }
  }

  /* ---------- the same, split on whole runs ---------- */

  function DropRun(s: seq<Byte>): (r: seq<Byte>)
    ensures |r| <= |s| && (s != [] && IsEnd(s[0]) ==> |r| < |s|)
  {
    if s != [] && IsEnd(s[0]) then DropRun(s[1..]) else s
  }

  /** The stream split on its runs of CR and LF. */
  function Split(s: seq<Byte>): seq<seq<Byte>>
    decreases |s|
  {
    var i := FirstEnd(s);
    if i == |s| then [] else [s[..i]] + Split(DropRun(s[i..]))
  }

  function NonBlank(lines: seq<seq<Byte>>): seq<seq<Byte>> {
    if lines == [] then [] else Keep(lines[0]) + NonBlank(lines[1..])
  }

  lemma {:induction false} LinesAfterRun(s: seq<Byte>)
    ensures Lines(DropRun(s)) == Lines(s)
  {
    if s != [] && IsEnd(s[0]) {
      hide Keep, Lines;
      LinesAfterRun(s[1..]);
      LinesCut(s, 0);
      EmptyIsBlank();
      assert s[..0] == [];
    }
  }

  lemma {:induction false} LinesAreSplit(s: seq<Byte>)
    ensures Lines(s) == NonBlank(Split(s))
    decreases |s|
  {
    hide Keep;
    var i := FirstEnd(s);
    if i < |s| {
      var rest := DropRun(s[i..]);
      LinesAfterRun(s[i..]);
      LinesAfterRun(s[i + 1..]);
      assert s[i..][1..] == s[i + 1..];
      LinesAreSplit(rest);
      assert ([s[..i]] + Split(rest))[1..] == Split(rest);
    }
  }

  /** A line and the run that ends it. */
  lemma LinesOfOne(line: seq<Byte>, run: seq<Byte>)
    requires (forall j :: 0 <= j < |line| ==> !IsEnd(line[j])) && run != []
    requires forall j :: 0 <= j < |run| ==> IsEnd(run[j])
    ensures Lines(line + run) == Keep(line) && Complete(line + run)
  {
    hide Keep;
    var s := line + run;
    FirstEndIs(s, |line|);
    assert s[..|line|] == line && s[|line| + 1..] == run[1..];
    LinesOfRun(run[1..]);
  }

  /* ---------- a link ---------- */

  /** What the commands do to the wait flags is any function of how many were invoked. */
  type Pattern = nat -> bool

  class Link {
    const ibuf: array<Byte>
    var ibuflen: nat
    var ibufskip: nat
    var waiting: bool
    const pattern: Pattern
    /** The lines whose commands were invoked. */
    var log: seq<seq<Byte>>
    /** All that was read, and the part of it that has been dispatched. */
    ghost var received: seq<Byte>
    ghost var gone: seq<Byte>

    /** The state in which a command is invoked, once its line is in the log: what lies from
        ibufskip to ibuflen is exactly what is still to be dispatched. */
    ghost predicate Mid()
      reads this, ibuf
    {
      ibuf.Length == IBUFSIZE + 1 && ibufskip <= ibuflen <= IBUFSIZE &&
      received == gone + ibuf[ibufskip..ibuflen] && Complete(gone) && log == Lines(gone)
    }

    ghost predicate Valid()
      reads this, ibuf
    {
      Mid() && ibufskip == 0
    }

    ghost function Buffered(): seq<Byte>
      requires Mid()
      reads this, ibuf
    {
      ibuf[ibufskip..ibuflen]
    }

    constructor (pattern: Pattern)
      ensures Valid() && received == [] && this.pattern == pattern && fresh(ibuf)
    {
      ibuf := new Byte[IBUFSIZE + 1](_ => 0);
      this.pattern := pattern;
      ibuflen, ibufskip, waiting, log, received, gone := 0, 0, false, [], [], [];
    }

    /** memchr in the buffer. */
    method MemChr(b: nat, n: nat, c: Byte) returns (i: int)
      requires b + n <= ibuf.Length
      ensures i == -1 || b <= i < b + n
      ensures if i == -1 then forall k :: b <= k < b + n ==> ibuf[k] != c
              else ibuf[i] == c && forall k :: b <= k < i ==> ibuf[k] != c
    {
      i := b;
      while i < b + n
        invariant b <= i <= b + n && forall k :: b <= k < i ==> ibuf[k] != c
      {
        if ibuf[i] == c {
          return i;
        }
        i := i + 1;
      }
      return -1;
    }

    /** The closest line ending. */
    method Closest(b: nat, n: nat) returns (s: int)
      requires b + n <= ibuf.Length
      ensures s == -1 || b <= s < b + n
      ensures if s == -1 then forall k :: b <= k < b + n ==> !IsEnd(ibuf[k])
              else IsEnd(ibuf[s]) && forall k :: b <= k < s ==> !IsEnd(ibuf[k])
    {
      s := MemChr(b, n, 13);
      var p := MemChr(b, n, 10);
      if s == -1 || (p != -1 && p < s) {
        s := p;
      }
    }

    /** All contiguous line endings at `s` become NUL. */
    method Erase(s: nat) returns (p: nat)
      requires s < ibuflen < ibuf.Length && IsEnd(ibuf[s]) && ibuf[ibuflen] == 0
      modifies ibuf
      ensures s < p <= ibuflen && !IsEnd(ibuf[p]) && forall k :: s <= k < p ==> IsEnd(old(ibuf[k]))
      ensures forall k :: 0 <= k < ibuf.Length && !(s <= k < p) ==> ibuf[k] == old(ibuf[k])
    {
      p := s;
      while IsEnd(ibuf[p])
        invariant s <= p <= ibuflen && forall k :: s <= k < p ==> IsEnd(old(ibuf[k]))
        invariant forall k :: 0 <= k < ibuf.Length && !(s <= k < p) ==> ibuf[k] == old(ibuf[k])
        decreases ibuflen - p
      {
        ibuf[p] := 0;
        p := p + 1;
      }
    }

    /** u_cmd_invoke. What lies from ibufskip on is what an upgrade in the command would keep. */
    method Invoke(line: seq<Byte>)
      requires ibuf.Length == IBUFSIZE + 1 && ibufskip <= ibuflen <= IBUFSIZE
      requires received == gone + ibuf[ibufskip..ibuflen] && Complete(gone) && log + [line] == Lines(gone)
      modifies `log, `waiting
      ensures Mid() && log == old(log) + [line]
    {
      log := log + [line];
      waiting := pattern(|log|);
    }

    /** The line up to `s` and the run of line ends behind it leave the rest of the buffer as it
        was. */
    method Take(s: nat) returns (line: seq<Byte>, ghost run: seq<Byte>, p: nat)
      requires ibufskip <= s < ibuflen < ibuf.Length && ibuf[ibuflen] == 0
      requires IsEnd(ibuf[s]) && forall k :: ibufskip <= k < s ==> !IsEnd(ibuf[k])
      modifies ibuf
      ensures s < p <= ibuflen && ibuf[ibuflen] == 0
      ensures old(ibuf[ibufskip..ibuflen]) == line + run + ibuf[p..ibuflen]
      ensures (forall j :: 0 <= j < |line| ==> !IsEnd(line[j])) && run != [] && forall j :: 0 <= j < |run| ==> IsEnd(run[j])
    {
      line := ibuf[ibufskip..s];
      p := Erase(s);
      run := old(ibuf[s..p]);
      forall j | 0 <= j < |run|
        ensures IsEnd(run[j])
      {
        assert run[j] == old(ibuf[s + j]);
      }
    }

    /** One turn of the loop of dispatch_lines, once a line end is found. */
    method One(s: nat)
      requires Mid() && ibuflen < ibuf.Length && ibuf[ibuflen] == 0
      requires ibufskip <= s < ibuflen && IsEnd(ibuf[s]) && forall k :: ibufskip <= k < s ==> !IsEnd(ibuf[k])
      modifies this, ibuf
      ensures Mid() && received == old(received) && ibuflen == old(ibuflen) && ibuf[ibuflen] == 0
      ensures old(ibufskip) < ibufskip
    {
      hide Lines, Complete, Blank, IsEnd, CStr;
      var line, p;
      ghost var run;
      line, run, p := Take(s);
      ibufskip := p;
      Dispatched(gone, line, run);
      Assoc(gone, line + run, ibuf[p..ibuflen]);
      gone := gone + (line + run);
      if !Blank(CStr(line)) {
        Invoke(CStr(line));
      }
    }

    /** dispatch_lines */
    method DispatchLines()
      requires Valid()
      modifies this, ibuf
      ensures Valid() && received == old(received)
      ensures waiting || (Buffered() == Unended(received) && log == Lines(received))
    {
      hide Lines, Unended, Complete;
      var buf, buflen := 0, ibuflen;
      ibuf[buflen] := 0;
      assert ibuf[0..ibuflen] == old(ibuf[0..ibuflen]);
      while buflen > 0
        invariant Mid() && received == old(received) && ibuf[ibuflen] == 0
        invariant buf == ibufskip && buflen == ibuflen - buf
      {
        if waiting {
          break;
        }
        var s := Closest(buf, buflen);
        if s == -1 {
          break;
        }
        One(s);
        buf, buflen := ibufskip, ibuflen - ibufskip;
      }
      if !waiting {
        Rest();
      }
      Finish(buflen);
    }

    /** With no line end left in the buffer all lines are out. */
    lemma Rest()
      requires Mid() && forall k :: ibufskip <= k < ibuflen ==> !IsEnd(ibuf[k])
      ensures Buffered() == Unended(received) && log == Lines(received)
    {
      hide Lines, Unended, Complete;
      NoLines(Buffered());
      LinesAppend(gone, Buffered());
    }

    /** The rest of the buffer moves to its start. */
    method Finish(buflen: nat)
      requires Mid() && buflen == ibuflen - ibufskip
      modifies this`ibuflen, this`ibufskip, ibuf
      ensures Valid() && Buffered() == old(Buffered())
    {
      ghost var rest := Buffered();
      var from := ibuflen - buflen;
      forall k | 0 <= k < buflen {
        ibuf[k] := ibuf[from + k];
      }
      assert ibuf[0..buflen] == rest;
      ibuflen := buflen;
      ibufskip := 0;
    }

    /** Either the link waits, or every complete line is out and the buffer holds just the rest. */
    ghost predicate Settled()
      requires Mid()
      reads this, ibuf
    {
      waiting || (Buffered() == Unended(received) && log == Lines(received))
    }

    /** on_data_ready: of what the socket has, as much is read as fits; a full buffer is a flood. */
    method DataReady(avail: seq<Byte>) returns (taken: int)
      requires Valid() && Settled()
      modifies this, ibuf
      ensures Valid() && Settled()
      ensures taken == if old(ibuflen) == IBUFSIZE then -1 else Least(|avail|, IBUFSIZE - old(ibuflen))
      ensures taken == -1 ==> ibuflen == old(ibuflen)
      ensures received == old(received) + avail[..Least(|avail|, IBUFSIZE - old(ibuflen))]
    {
      hide Lines, Unended, Complete;
      if ibuflen == IBUFSIZE {
        return -1;
      }
      var sz := Least(|avail|, IBUFSIZE - ibuflen);
      if sz <= 0 {
        return sz;
      }
      ghost var buffered := Buffered();
      forall k | 0 <= k < sz {
        ibuf[ibuflen + k] := avail[k];
      }
      assert ibuf[0..ibuflen + sz] == buffered + avail[..sz];
      Assoc(gone, buffered, avail[..sz]);
      ibuflen := ibuflen + sz;
      received := received + avail[..sz];
      DispatchLines();
      return sz;
    }

    /** on_rdns_finish: the wait is over. */
    method ClearWait()
      requires Valid()
      modifies this, ibuf
      ensures Valid() && Settled() && received == old(received)
    {
      waiting := false;
      DispatchLines();
    }

    /** Any stream, divided into reads of any size, with waits begun and ended at any time, goes
        out as its lines in order; once nothing waits they are all out, and the buffer holds the
        unterminated tail. */
    method Session(stream: seq<Byte>, events: seq<Event>) returns (pos: nat, flooded: bool)
      requires Valid() && Settled()
      modifies this, ibuf
      ensures Valid() && Settled() && pos <= |stream| && received == old(received) + stream[..pos]
      ensures flooded ==> ibuflen == IBUFSIZE
    {
      hide Lines, Unended, Settled;
      pos, flooded := 0, false;
      for i := 0 to |events|
        invariant Valid() && Settled() && pos <= |stream| && received == old(received) + stream[..pos]
      {
        match events[i]
        case Read(n) =>
          var next := Least(pos + n, |stream|);
          var taken := DataReady(stream[pos..next]);
          if taken == -1 {
            flooded := true;
            return;
          }
          assert stream[pos..next][..taken] == stream[pos..pos + taken];
          assert stream[..pos + taken] == stream[..pos] + stream[pos..pos + taken];
          Assoc(old(received), stream[..pos], stream[pos..pos + taken]);
          pos := pos + taken;
        case StartWait =>
          StartWait();
        case EndWait =>
          ClearWait();
      }
    }

    /** on_rdns_start */
    method StartWait()
      requires Valid()
      modifies `waiting
      ensures Valid() && Settled()
    {
      waiting := true;
    }

    /* ---------- a live upgrade ---------- */

    /** u_link_to_json, the part about the buffer: all but what is dispatched. */
    method ToJson() returns (text: string)
      requires Mid()
      ensures text == B.Encoded(Buffered())
    {
      hide B.Encoded;
      var out := new char[B.InflateSize(ibuflen - ibufskip)];
      B.EncodedNothing();
      B.EncodedFits(Buffered(), ibuflen - ibufskip);
      assert [] + Buffered() == Buffered();
      var moved := B.Encode(ibuf[ibufskip..ibuflen], out, 0, []);
      text := out[..moved];
    }
  }

  datatype Event = Read(n: nat) | StartWait | EndWait

  /** An upgrade in the middle of a command, or between commands: the new process has the link in
      the same state, with the running command counted as done, exactly when no more than 2043
      bytes are left in the buffer; otherwise the link is lost. */
  method Upgrade(link: Link) returns (restored: Link?)
    requires link.Mid()
    ensures restored == null <==> |link.Buffered()| > 2043
    ensures restored != null ==>
      restored.Valid() && restored.received == link.received && restored.log == link.log &&
      restored.Buffered() == link.Buffered() && restored.waiting == link.waiting &&
      fresh(restored) && fresh(restored.ibuf)
  {
    hide B.Encoded, B.Decoded, Lines, Complete;
    var text := link.ToJson();
    B.LinkBufferLimit(link.Buffered());
    if B.DeflateSize(|text|) > IBUFSIZE {
      return null;
    }
    restored := new Link(link.pattern);
    var sz := B.Decode(text, restored.ibuf, 0);
    restored.ibuflen := sz;
    restored.ibuf[sz] := 0;
    restored.waiting, restored.log := link.waiting, link.log;
    restored.received, restored.gone := link.received, link.gone;
    assert restored.ibuf[0..sz] == link.Buffered();
  }

  /** After the restored link is flushed every line is out once: none of the stream read by the old
      process is lost or repeated. */
  method UpgradeAndFlush(link: Link) returns (restored: Link?)
    requires link.Mid()
    ensures restored == null <==> |link.Buffered()| > 2043
    ensures restored != null ==> restored.Valid() && restored.Settled() && restored.received == link.received
  {
    restored := Upgrade(link);
    if restored != null {
      restored.DispatchLines();
    }
  }

  /** A line and its end move from the buffer to what is dispatched. */
  lemma Dispatched(gone: seq<Byte>, line: seq<Byte>, run: seq<Byte>)
    requires Complete(gone) && (forall j :: 0 <= j < |line| ==> !IsEnd(line[j])) && run != []
    requires forall j :: 0 <= j < |run| ==> IsEnd(run[j])
    ensures Complete(gone + (line + run)) && Lines(gone + (line + run)) == Lines(gone) + Keep(line)
  {
    hide Lines, Keep, Complete;
    LinesOfOne(line, run);
    LinesAppend(gone, line + run);
    CompleteAppend(gone, line + run);
  }

  lemma CompleteAppend(a: seq<Byte>, b: seq<Byte>)
    requires Complete(b) && b != []
    ensures Complete(a + b)
  {
  }
}
