/** src/strop.c: words wrapped into lines as they come, the caller offering a word again until no
    line comes back, and strings split at delimiters. */
module WordWrap {
  import H = Hostmask
  import opened Common

  type Option<T> = H.Option<T>

  const WRAP_MAX := 1024

  /* ---------- what the caller's loop makes of the words ---------- */

  /** Whole lines, and the line that is not finished. */
  datatype Wrapped = Wrapped(lines: seq<string>, cur: string)

  /** One word after an unfinished line. A word too long for a line of its own is cut; a word as
      long as the line takes it whole. */
  function Feed(width: nat, cur: string, word: string): Wrapped
    requires width >= 1
    decreases |word| + |cur|
  {
    if |cur| + |word| + 1 <= width then Wrapped([], if cur == "" then word else cur + " " + word)
    else if cur != "" then
      var r := Feed(width, "", word);
      Wrapped([cur] + r.lines, r.cur)
    else
      var r := Feed(width, "", word[width..]);
      Wrapped([word[..width]] + r.lines, r.cur)
  }

  function FeedAll(width: nat, words: seq<string>): Wrapped
    requires width >= 1
  {
    if words == [] then Wrapped([], "")
    else
      var p := FeedAll(width, words[..|words| - 1]);
      var r := Feed(width, p.cur, words[|words| - 1]);
      Wrapped(p.lines + r.lines, r.cur)
  }

  function Finish(w: Wrapped): seq<string> {
    if w.cur == "" then w.lines else w.lines + [w.cur]
  }

  /** All lines. */
  function Wrap(width: nat, words: seq<string>): seq<string>
    requires width >= 1
  {
    Finish(FeedAll(width, words))
  }

  /* ---------- the wrapper ---------- */

  class Wrapper {
    var again: Option<string>
    const buf: array<char>
    var sz: nat
    const width: nat

    ghost predicate Valid()
      reads this, buf
    {
      buf.Length == WRAP_MAX + 1 && width <= WRAP_MAX && sz <= width && (again.Some? ==> sz == 0)
    }

    ghost function Cur(): string
      requires Valid()
      reads this, buf
    {
      buf[..sz]
    }

    /** u_strop_wrap_start */
    constructor (width: nat)
      ensures Valid() && Cur() == "" && again == H.None && fresh(buf)
      ensures this.width == if width > WRAP_MAX then WRAP_MAX else width
    {
      buf := new char[WRAP_MAX + 1];
      again, sz := H.None, 0;
      this.width := if width > WRAP_MAX then WRAP_MAX else width;
    }

    /** snprintf at a place in the buffer, with room. */
    method Print(at: nat, s: string)
      requires at + |s| < buf.Length
      modifies buf
      ensures buf[..at + |s|] == old(buf[..at]) + s
    {
      forall k | 0 <= k < |s| {
        buf[at + k] := s[k];
      }
      buf[at + |s|] := '\0';
    }

    /** The rest of a word that is being offered. */
    ghost function Rest(word: string): string
      reads `again
    {
      if again.Some? then again.value else word
    }

    /** u_strop_wrap_word: no line means the word is taken, a line means it is to be offered again.
        With a width of zero the offers would never end. */
    method Word(word: string) returns (line: Option<string>)
      requires Valid()
      modifies this`again, this`sz, buf
      ensures Valid()
      ensures line.None? ==> again.None? && |old(Cur())| + |old(Rest(word))| + 1 <= width
      ensures line.Some? ==> Cur() == ""
      ensures width >= 1 ==>
        var all := Feed(width, old(Cur()), old(Rest(word)));
        if line.None? then all == Wrapped([], Cur())
        else
          var r := Feed(width, "", Rest(word));
          all == Wrapped([line.value] + r.lines, r.cur) && |Rest(word)| < |old(Rest(word))| + |old(Cur())|
      ensures width == 0 ==> line == H.Some("") && Rest(word) == old(Rest(word))
    {
      var w := word;
      if again.Some? {
        w := again.value;
        again := H.None;
      }
      var n := |w|;
      if sz + n + 1 > width {
        if sz == 0 {
          Print(0, w[..width]);
          line := H.Some(buf[..width]);
          assert line.value == w[..width] && old(Cur()) == "";
          again := H.Some(w[width..]);
        } else {
          line := H.Some(buf[..sz]);
          assert line.value == old(Cur()) != "";
        }
        sz := 0;
        return;
      }
      var text := (if sz != 0 then " " else "") + w;
      Print(sz, text);
      sz := sz + |text|;
      line := H.None;
    }

    /** u_strop_wrap_word without a word: what is left. */
    method Flush() returns (line: Option<string>)
      requires Valid()
      modifies this`sz
      ensures Valid() && Cur() == ""
      ensures line == if old(Cur()) == "" then H.None else H.Some(old(Cur()))
    {
      line := if sz != 0 then H.Some(buf[..sz]) else H.None;
      sz := 0;
    }
  }

  /** The loop of the callers. */
  method WrapWords(width: nat, words: seq<string>) returns (lines: seq<string>)
    requires 1 <= width
    ensures lines == Wrap(if width > WRAP_MAX then WRAP_MAX else width, words)
  {
    hide Feed;
    var w := new Wrapper(width);
    lines := [];
    for i := 0 to |words|
      invariant w.Valid() && w.again.None? && fresh(w.buf)
      invariant FeedAll(w.width, words[..i]) == Wrapped(lines, w.Cur())
    {
      assert words[..i + 1][..i] == words[..i];
      ghost var before, goal := lines, Feed(w.width, w.Cur(), words[i]);
      var line := w.Word(words[i]);
      while line.Some?
        invariant w.Valid() && fresh(w.buf)
        invariant line.None? ==> w.again.None? && before + goal.lines == lines && goal.cur == w.Cur()
        invariant line.Some? ==>
          (w.Cur() == "" &&
           var r := Feed(w.width, "", w.Rest(words[i]));
           before + goal.lines == lines + [line.value] + r.lines && goal.cur == r.cur)
        decreases line.Some?, |w.Rest(words[i])|
      {
        lines := lines + [line.value];
        line := w.Word(words[i]);
      }
    }
    assert words[..|words|] == words;
    var last := w.Flush();
    if last.Some? {
      lines := lines + [last.value];
    }
  }

  /* ---------- what the lines are ---------- */

  lemma {:induction false} FeedFits(width: nat, cur: string, word: string)
    requires width >= 1 && |cur| <= width
    ensures var r := Feed(width, cur, word); |r.cur| <= width && forall l :: l in r.lines ==> 0 < |l| <= width
    decreases |word| + |cur|
  {
    if |cur| + |word| + 1 > width {
      FeedFits(width, "", if cur != "" then word else word[width..]);
    }
  }

  lemma {:induction false} FeedAllFits(width: nat, words: seq<string>)
    requires width >= 1
    ensures var r := FeedAll(width, words); |r.cur| <= width && forall l :: l in r.lines ==> 0 < |l| <= width
  {
    if words != [] {
      hide Feed;
      FeedAllFits(width, words[..|words| - 1]);
      FeedFits(width, FeedAll(width, words[..|words| - 1]).cur, words[|words| - 1]);
    }
  }

  /** No line is empty, and none is longer than the width. */
  lemma LinesFit(width: nat, words: seq<string>)
    requires width >= 1
    ensures forall l :: l in Wrap(width, words) ==> 0 < |l| <= width
  {
    FeedAllFits(width, words);
  }

  function NoSpaces(s: string): string {
    if s == "" then "" else NoSpaces(s[..|s| - 1]) + if s[|s| - 1] == ' ' then "" else [s[|s| - 1]]
  }

  lemma {:induction false} NoSpacesAppend(a: string, b: string)
    ensures NoSpaces(a + b) == NoSpaces(a) + NoSpaces(b)
  {
    if b == "" {
      assert a + b == a;
    } else {
      var c, x := b[..|b| - 1], b[|b| - 1];
      NoSpacesAppend(a, c);
      assert (a + b)[..|a + b| - 1] == a + c;
    }
  }

  lemma {:induction false} NoSpacesPlain(s: string)
    requires ' ' !in s
    ensures NoSpaces(s) == s
  {
    if s != "" {
      NoSpacesPlain(s[..|s| - 1]);
    }
  }

  /** The lines without their spaces, in a row. */
  function Bare(lines: seq<string>): string {
    NoSpaces(Flat(lines))
  }

  lemma BareAppend(a: seq<string>, b: seq<string>)
    ensures Bare(a + b) == Bare(a) + Bare(b)
  {
    hide NoSpaces, Flat;
    FlatAppend(a, b);
    NoSpacesAppend(Flat(a), Flat(b));
  }

  lemma BareOne(l: string)
    ensures Bare([l]) == NoSpaces(l) && Bare([]) == ""
  {
    FlatSnoc([], l);
    assert [] + [l] == [l];
    assert Flat<char>([]) + l == l;
  }

  /** A word taken in is all there, spaces apart. */
  lemma {:induction false} FeedKeeps(width: nat, cur: string, word: string)
    requires width >= 1
    ensures var r := Feed(width, cur, word); Bare(r.lines) + NoSpaces(r.cur) == NoSpaces(cur) + NoSpaces(word)
    decreases |word| + |cur|
  {
    NothingBare();
    hide NoSpaces, Bare;
    if |cur| + |word| + 1 <= width {
      NoSpacesAppend(cur + " ", word);
      NoSpacesAppend(cur, " ");
    } else {
      var line := if cur != "" then cur else word[..width];
      var rest := if cur != "" then word else word[width..];
      var q := Feed(width, "", rest);
      FeedKeeps(width, "", rest);
      BareAppend([line], q.lines);
      BareOne(line);
      Assoc(NoSpaces(line), Bare(q.lines), NoSpaces(q.cur));
      if cur == "" {
        NoSpacesAppend(line, rest);
        assert word == line + rest;
      }
    }
  }

  lemma NothingBare()
    ensures NoSpaces("") == "" && NoSpaces(" ") == "" && Bare([]) == ""
  {
    assert " "[..0] == "";
  }

  lemma {:induction false} FeedAllKeeps(width: nat, words: seq<string>)
    requires width >= 1
    ensures var r := FeedAll(width, words); Bare(r.lines) + NoSpaces(r.cur) == Bare(words)
  {
    if words == [] {
      NothingBare();
    } else {
      hide NoSpaces, Bare, Feed;
      var init, word := words[..|words| - 1], words[|words| - 1];
      var p := FeedAll(width, init);
      var r := Feed(width, p.cur, word);
      FeedAllKeeps(width, init);
      FeedKeeps(width, p.cur, word);
      BareAppend(p.lines, r.lines);
      Assoc(Bare(p.lines), Bare(r.lines), NoSpaces(r.cur));
      Assoc(Bare(p.lines), NoSpaces(p.cur), NoSpaces(word));
      BareAppend(init, [word]);
      BareOne(word);
      assert words == init + [word];
    }
  }

  /** Nothing is lost or reordered: without their spaces the lines together are the words
      together, for any words and any width. */
  lemma NothingLost(width: nat, words: seq<string>)
    requires width >= 1
    ensures Bare(Wrap(width, words)) == Bare(words)
    ensures ' ' !in Flat(words) ==> Bare(Wrap(width, words)) == Flat(words)
  {
    if ' ' !in Flat(words) {
      NoSpacesPlain(Flat(words));
    }
    NothingBare();
    hide NoSpaces, Bare, FeedAll;
    var r := FeedAll(width, words);
    FeedAllKeeps(width, words);
    BareAppend(r.lines, [r.cur]);
    BareOne(r.cur);
  }

  /** A word on its own line is cut into whole lines as long as it does not fit, with no space put in,
      and what is left of it, less than a line, begins the next. */
  lemma {:induction false} LongWord(width: nat, word: string)
    requires width >= 1
    ensures var r := Feed(width, "", word);
            Flat(r.lines) + r.cur == word && |r.cur| < width && forall i :: 0 <= i < |r.lines| ==> |r.lines[i]| == width
    decreases |word|
  {
    if |word| + 1 > width {
      var rest := word[width..];
      LongWord(width, rest);
      var r := Feed(width, "", rest);
      FlatCons(word[..width], r.lines);
      hide Flat, Feed;
      assert word == word[..width] + rest;
      Assoc(word[..width], Flat(r.lines), r.cur);
    }
  }

  /* ---------- splitting ---------- */

  /** The tokens between runs of delimiters. */
  function Tokens(s: string, delims: string): seq<string>
    decreases |s|
  {
    if s == "" then []
    else if s[0] in delims then Tokens(s[1..], delims)
    else
      var n := TokenLength(s, delims);
      [s[..n]] + Tokens(s[n..], delims)
  }

  function TokenLength(s: string, delims: string): (n: nat)
    ensures n <= |s| && (forall i :: 0 <= i < n ==> s[i] !in delims) && (n < |s| ==> s[n] in delims)
    ensures s != "" && s[0] !in delims ==> n > 0
  {
    if s == "" || s[0] in delims then 0 else 1 + TokenLength(s[1..], delims)
  }

  /** A delimiter ends what is before it and begins anew behind it; between delimiters there is one
      token, or none where there is nothing. This says of every string what its tokens are. */
  lemma {:induction false} TokensCut(a: string, d: char, b: string, delims: string)
    requires d in delims
    ensures Tokens(a + [d] + b, delims) == Tokens(a, delims) + Tokens(b, delims)
    ensures (forall i :: 0 <= i < |a| ==> a[i] !in delims) ==> Tokens(a, delims) == if a == "" then [] else [a]
    decreases |a|
  {
    var s := a + [d] + b;
    if a == "" {
      assert s[1..] == b;
    } else if a[0] in delims {
      assert s[1..] == a[1..] + [d] + b;
      TokensCut(a[1..], d, b, delims);
    } else {
      var n := TokenLength(a, delims);
      LengthIs(s, delims, n);
      assert s[..n] == a[..n] && s[n..] == a[n..] + [d] + b;
      TokensCut(a[n..], d, b, delims);
      Assoc([a[..n]], Tokens(a[n..], delims), Tokens(b, delims));
      assert n == |a| ==> a[..n] == a && a[n..] == "";
    }
  }

  class Splitter {
    const text: array<char>
    var s: nat
    const delims: string

    ghost predicate Valid()
      reads this, text
    {
      s < text.Length && text[text.Length - 1] == '\0' && '\0' !in text[s..text.Length - 1]
    }

    /** What is still to be split. */
    ghost function Rest(): string
      requires Valid()
      reads this, text
    {
      text[s..text.Length - 1]
    }

    /** u_strop_split_start, on a string that ends in NUL. */
    constructor (text: array<char>, delims: string)
      requires text.Length > 0 && text[text.Length - 1] == '\0' && '\0' !in text[..text.Length - 1]
      ensures Valid() && Rest() == text[..text.Length - 1] && this.text == text && this.delims == delims
    {
      this.text, s, this.delims := text, 0, delims;
    }

    method SkipDelims() returns (t: nat)
      requires Valid()
      ensures s <= t < text.Length && (text[t] == '\0' || text[t] !in delims)
      ensures Tokens(Rest(), delims) == Tokens(text[t..text.Length - 1], delims)
    {
      t := s;
      ghost var end := text.Length - 1;
      while text[t] != '\0' && text[t] in delims
        invariant s <= t <= end
        invariant Tokens(text[s..end], delims) == Tokens(text[t..end], delims)
        decreases end - t
      {
        assert text[t..end][1..] == text[t + 1..end];
        t := t + 1;
      }
    }

    method Scan(t: nat) returns (u: nat)
      requires Valid() && s <= t < text.Length
      ensures t <= u < text.Length && forall k :: t <= k < u ==> text[k] !in delims
      ensures text[u] == '\0' <==> u == text.Length - 1
      ensures text[u] == '\0' || text[u] in delims
    {
      u := t;
      while text[u] != '\0' && text[u] !in delims
        invariant t <= u < text.Length && forall k :: t <= k < u ==> text[k] !in delims
        decreases text.Length - u
      {
        u := u + 1;
      }
      Inside(u);
    }

    lemma Inside(u: nat)
      requires Valid() && s <= u < text.Length
      ensures text[u] == '\0' <==> u == text.Length - 1
    {
      if u < text.Length - 1 {
        assert text[u] in text[s..text.Length - 1];
      }
    }

    /** u_strop_split_next: the delimiter behind the token becomes NUL. */
    method Next() returns (token: Option<string>)
      requires Valid()
      modifies this, text
      ensures Valid()
      ensures Tokens(old(Rest()), delims) == (if token.None? then [] else [token.value] + Tokens(Rest(), delims))
      ensures token.Some? ==> |Rest()| < |old(Rest())|
    {
      hide Tokens, TokenLength;
      var t := SkipDelims();
      var u := Scan(t);
      Inside(t);
      ghost var end := text.Length - 1;
      ghost var rest := text[t..end];
      TokenIs(rest, delims, u - t);
      assert rest[..u - t] == text[t..u] && rest[u - t..] == text[u..end];
      if text[t] != '\0' {
        token := H.Some(text[t..u]);
      } else {
        token := H.None;
        NoTokens(delims);
      }
      if text[u] != '\0' {
        assert rest[u - t + 1..] == text[u + 1..end];
        text[u] := '\0';
        u := u + 1;
      }
      s := u;
    }
  }

  lemma NoTokens(delims: string)
    ensures Tokens("", delims) == []
  {
  }

  lemma TokenIs(s: string, delims: string, n: nat)
    requires n <= |s| && (forall i :: 0 <= i < n ==> s[i] !in delims) && (n < |s| ==> s[n] in delims)
    ensures TokenLength(s, delims) == n
    ensures n > 0 ==> Tokens(s, delims) == [s[..n]] + Tokens(s[n..], delims)
    ensures n < |s| ==> Tokens(s[n..], delims) == Tokens(s[n + 1..], delims)
  {
    LengthIs(s, delims, n);
    if n < |s| {
      assert s[n..][1..] == s[n + 1..];
    }
  }

  lemma {:induction false} LengthIs(s: string, delims: string, n: nat)
    requires n <= |s| && (forall i :: 0 <= i < n ==> s[i] !in delims) && (n < |s| ==> s[n] in delims)
    ensures TokenLength(s, delims) == n
  {
    if n > 0 {
      LengthIs(s[1..], delims, n - 1);
    }
  }
}
