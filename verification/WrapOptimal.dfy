/** When every word fits a line, the greedy wrapping of src/strop.c splits back into the words, and no
    packing of the words in their order takes fewer lines. */
module WrapOptimal {
  import opened Common
  import opened WordWrap

  /** Words in a row with a space between them. */
  function Join(g: seq<string>): string {
    if g == [] then "" else if |g| == 1 then g[0] else Join(g[..|g| - 1]) + " " + g[|g| - 1]
  }

  function Joined(gs: seq<seq<string>>): (lines: seq<string>)
    ensures |lines| == |gs| && forall i :: 0 <= i < |gs| ==> lines[i] == Join(gs[i])
  {
    seq(|gs|, i requires 0 <= i < |gs| => Join(gs[i]))
  }

  predicate Fits(width: nat, w: string) {
    0 < |w| <= width && ' ' !in w
  }

  /** Words that fit: not empty, without spaces, no longer than a line. */
  predicate Fitting(width: nat, words: seq<string>) {
    forall i :: 0 <= i < |words| ==> Fits(width, words[i])
  }

  /* ---------- the lines as groups of words ---------- */

  datatype Grouped = Grouped(done: seq<seq<string>>, cur: seq<string>)

  function FeedGroup(width: nat, g: seq<string>, w: string): Grouped
    decreases |g|
  {
    if |Join(g)| + |w| + 1 <= width then Grouped([], g + [w])
    else if g != [] then
      var r := FeedGroup(width, [], w);
      Grouped([g] + r.done, r.cur)
    else Grouped([[w]], [])
  }

  function GroupAll(width: nat, words: seq<string>): Grouped {
    if words == [] then Grouped([], [])
    else
      var p := GroupAll(width, words[..|words| - 1]);
      var r := FeedGroup(width, p.cur, words[|words| - 1]);
      Grouped(p.done + r.done, r.cur)
  }

  function Groups(width: nat, words: seq<string>): seq<seq<string>> {
    var r := GroupAll(width, words);
    if r.cur == [] then r.done else r.done + [r.cur]
  }

  lemma JoinSnoc(g: seq<string>, w: string)
    ensures Join(g + [w]) == if g == [] then w else Join(g) + " " + w
  {
    if g == [] {
      assert g + [w] == [w];
    } else {
      assert (g + [w])[..|g|] == g;
    }
  }

  lemma JoinEmpty(width: nat, g: seq<string>)
    requires Fitting(width, g)
    ensures Join(g) == "" <==> g == []
  {
    if |g| == 1 {
      assert Fits(width, g[0]);
    }
  }

  lemma JoinedSnoc(gs: seq<seq<string>>, g: seq<string>)
    ensures Joined(gs + [g]) == Joined(gs) + [Join(g)]
  {
  }

  lemma JoinedAppend(gs: seq<seq<string>>, hs: seq<seq<string>>)
    ensures Joined(gs + hs) == Joined(gs) + Joined(hs)
  {
    hide Join;
  }

  lemma FeedIsGroupAlone(width: nat, w: string)
    requires width >= 1 && Fits(width, w)
    ensures var f, r := Feed(width, "", w), FeedGroup(width, [], w);
            f.lines == Joined(r.done) && f.cur == Join(r.cur) && Fitting(width, r.cur)
  {
    if |w| + 1 > width {
      assert w[..width] == w && w[width..] == "";
      assert Feed(width, "", "") == Wrapped([], "");
    }
  }

  /** Taking a word in builds the group as it builds the line. */
  lemma FeedIsGroup(width: nat, g: seq<string>, w: string)
    requires width >= 1 && Fitting(width, g) && Fits(width, w)
    ensures var f, r := Feed(width, Join(g), w), FeedGroup(width, g, w);
            f.lines == Joined(r.done) && f.cur == Join(r.cur) && Fitting(width, r.cur)
  {
    hide Join;
    JoinEmpty(width, g);
    JoinSnoc(g, w);
    FeedIsGroupAlone(width, w);
    if g == [] {
    } else if |Join(g)| + |w| + 1 > width {
      JoinedAppend([g], FeedGroup(width, [], w).done);
    }
  }

  lemma {:induction false} AllIsGroup(width: nat, words: seq<string>)
    requires width >= 1 && Fitting(width, words)
    ensures var f, r := FeedAll(width, words), GroupAll(width, words);
            f.lines == Joined(r.done) && f.cur == Join(r.cur) && Fitting(width, r.cur)
  {
    if words != [] {
      hide Feed, FeedGroup, Join, Fits, Joined;
      var init, word := words[..|words| - 1], words[|words| - 1];
      AllIsGroup(width, init);
      var p := GroupAll(width, init);
      FeedIsGroup(width, p.cur, word);
      JoinedAppend(p.done, FeedGroup(width, p.cur, word).done);
    }
  }

  lemma WrapIsGroups(width: nat, words: seq<string>)
    requires width >= 1 && Fitting(width, words)
    ensures Wrap(width, words) == Joined(Groups(width, words))
  {
    hide FeedAll, GroupAll, Join;
    AllIsGroup(width, words);
    var r := GroupAll(width, words);
    JoinEmpty(width, r.cur);
    JoinedSnoc(r.done, r.cur);
  }

  /** A group that is closed is not empty, and the word that comes next would not have fitted. */
  ghost predicate Maximal(width: nat, gs: seq<seq<string>>) {
    (forall i :: 0 <= i < |gs| ==> gs[i] != []) &&
    forall i, j :: 0 <= i < j < |gs| && j == i + 1 ==> |Join(gs[i])| + |gs[j][0]| + 1 > width
  }

  /** What is closed and what is open, as one list of groups. */
  function Whole(r: Grouped): seq<seq<string>> {
    if r.cur == [] then r.done else r.done + [r.cur]
  }

  /** With nothing open the last closed group was a word that fills its line. */
  ghost predicate Closed(width: nat, r: Grouped) {
    r.cur == [] && r.done != [] ==> |Join(r.done[|r.done| - 1])| >= width
  }

  lemma MaximalSnoc(width: nat, gs: seq<seq<string>>, g: seq<string>)
    requires Maximal(width, gs) && g != []
    requires gs != [] ==> |Join(gs[|gs| - 1])| + |g[0]| + 1 > width
    ensures Maximal(width, gs + [g])
  {
    hide Join;
    var all := gs + [g];
    forall i, j | 0 <= i < j < |all| && j == i + 1
      ensures |Join(all[i])| + |all[j][0]| + 1 > width
    {
      assert all[i] == gs[i];
      if j < |gs| {
        assert all[j] == gs[j];
      }
    }
  }

  /** A word is added to the last group or makes a group of its own. */
  lemma FeedMaximal(width: nat, p: Grouped, w: string)
    requires Maximal(width, Whole(p)) && Closed(width, p) && w != ""
    ensures var f := FeedGroup(width, p.cur, w); var r := Grouped(p.done + f.done, f.cur);
            Maximal(width, Whole(r)) && Closed(width, r) && Flat(Whole(r)) == Flat(Whole(p)) + [w]
  {
    hide Flat;
    var f := FeedGroup(width, p.cur, w);
    var r := Grouped(p.done + f.done, f.cur);
    JoinAlone(w);
    if p.cur != [] && |Join(p.cur)| + |w| + 1 <= width {
      assert p.done + f.done == p.done;
      Extended(width, p.done, p.cur, w);
    } else {
      hide Join;
      if p.cur == [] {
        assert p.done + [] == p.done && [] + [w] == [w];
      } else {
        var q := FeedGroup(width, [], w);
        assert p.done + ([p.cur] + q.done) == p.done + [p.cur] + q.done;
        assert [] + [w] == [w] && p.done + [p.cur] + [] == p.done + [p.cur];
      }
      assert Whole(r) == Whole(p) + [[w]];
      MaximalSnoc(width, Whole(p), [w]);
      FlatSnoc(Whole(p), [w]);
    }
  }

  lemma JoinAlone(w: string)
    ensures Join([w]) == w && Join([]) == ""
  {
  }

  lemma Extended(width: nat, done: seq<seq<string>>, g: seq<string>, w: string)
    requires Maximal(width, done + [g]) && g != []
    ensures Maximal(width, done + [g + [w]]) && Flat(done + [g + [w]]) == Flat(done + [g]) + [w]
  {
    hide Join, Flat;
    var a, b := done + [g], done + [g + [w]];
    forall i | 0 <= i < |b|
      ensures b[i] != []
    {
      assert a[i] != [];
    }
    forall i, j | 0 <= i < j < |b| && j == i + 1
      ensures |Join(b[i])| + |b[j][0]| + 1 > width
    {
      assert b[i] == a[i] && b[j][0] == a[j][0];
    }
    FlatSnoc(done, g);
    FlatSnoc(done, g + [w]);
    assert Flat(done) + (g + [w]) == Flat(done) + g + [w];
  }

  lemma NoGroups(width: nat)
    ensures var r := Grouped([], []); Maximal(width, Whole(r)) && Closed(width, r) && Flat(Whole(r)) == []
  {
  }

  /** The groups are the words in order, and all but the last are full. */
  lemma {:induction false} GroupsMaximal(width: nat, words: seq<string>)
    requires forall i :: 0 <= i < |words| ==> words[i] != ""
    ensures var r := GroupAll(width, words);
            Maximal(width, Whole(r)) && Closed(width, r) && Flat(Whole(r)) == words
  {
    NoGroups(width);
    hide FeedGroup, Flat, Maximal, Closed, Whole, Join;
    if words != [] {
      var init, word := words[..|words| - 1], words[|words| - 1];
      GroupsMaximal(width, init);
      FeedMaximal(width, GroupAll(width, init), word);
      assert init + [word] == words;
    }
  }

  /* ---------- splitting the lines ---------- */

  /** The words found again by splitting every line at its spaces. */
  function TokensOf(lines: seq<string>): seq<string> {
    if lines == [] then [] else TokensOf(lines[..|lines| - 1]) + Tokens(lines[|lines| - 1], " ")
  }

  lemma TokensOne(w: string)
    requires w != "" && ' ' !in w
    ensures Tokens(w, " ") == [w]
  {
    LengthIs(w, " ", |w|);
    assert w[..|w|] == w && w[|w|..] == "";
    assert Tokens("", " ") == [];
  }

  lemma TokensSkip(s: string)
    requires s != "" && s[0] == ' '
    ensures Tokens(s, " ") == Tokens(s[1..], " ")
  {
  }

  lemma TokensWord(s: string, n: nat)
    requires s != "" && s[0] != ' ' && n == TokenLength(s, " ")
    ensures 0 < n <= |s| && Tokens(s, " ") == [s[..n]] + Tokens(s[n..], " ")
  {
    hide Tokens;
    TokenIs(s, " ", n);
  }

  lemma TokensWordLonger(s: string, w: string, n: nat)
    requires s != "" && s[0] != ' ' && n == TokenLength(s, " ")
    ensures var t := s + " " + w;
            0 < n <= |s| && Tokens(t, " ") == [s[..n]] + Tokens(s[n..] + " " + w, " ")
  {
    hide Tokens;
    var t := s + " " + w;
    TokenIs(t, " ", n);
    assert t[..n] == s[..n] && t[n..] == s[n..] + " " + w;
  }

  lemma {:induction false} TokensSnoc(s: string, w: string)
    requires w != "" && ' ' !in w
    ensures Tokens(s + " " + w, " ") == Tokens(s, " ") + [w]
    decreases |s|
  {
    NoTokens(" ");
    TokensOne(w);
    hide Tokens, TokenLength;
    var t := s + " " + w;
    if s == "" {
      TokensSkip(t);
      assert t[1..] == w;
    } else if s[0] == ' ' {
      TokensSkip(s);
      TokensSkip(t);
      TokensSnoc(s[1..], w);
      assert t[1..] == s[1..] + " " + w;
    } else {
      var n := TokenLength(s, " ");
      TokensWord(s, n);
      TokensWordLonger(s, w, n);
      TokensSnoc(s[n..], w);
    }
  }

  lemma {:induction false} TokensJoin(width: nat, g: seq<string>)
    requires Fitting(width, g)
    ensures Tokens(Join(g), " ") == g
  {
    if g != [] {
      hide Tokens;
      var init, w := g[..|g| - 1], g[|g| - 1];
      assert Fits(width, w) && init + [w] == g;
      TokensJoin(width, init);
      JoinSnoc(init, w);
      if init == [] {
        TokensOne(w);
      } else {
        TokensSnoc(Join(init), w);
      }
    }
  }

  lemma {:induction false} TokensJoined(width: nat, gs: seq<seq<string>>)
    requires Fitting(width, Flat(gs))
    ensures TokensOf(Joined(gs)) == Flat(gs)
  {
    if gs != [] {
      hide Tokens, Join, Fits, Joined;
      var init, g := gs[..|gs| - 1], gs[|gs| - 1];
      assert gs == init + [g];
      FlatSnoc(init, g);
      FlatParts(width, Flat(init), g);
      TokensJoined(width, init);
      TokensJoin(width, g);
      JoinedSnoc(init, g);
    }
  }

  lemma FlatParts(width: nat, a: seq<string>, b: seq<string>)
    requires Fitting(width, a + b)
    ensures Fitting(width, a) && Fitting(width, b)
  {
    forall i | 0 <= i < |a|
      ensures Fits(width, a[i])
    {
      assert (a + b)[i] == a[i];
    }
    forall i | 0 <= i < |b|
      ensures Fits(width, b[i])
    {
      assert (a + b)[|a| + i] == b[i];
    }
  }

  /** Splitting the lines at their spaces gives the words back, when each fits a line. */
  lemma WrapSplits(width: nat, words: seq<string>)
    requires width >= 1 && Fitting(width, words)
    ensures TokensOf(Wrap(width, words)) == words
  {
    hide Wrap, Joined, TokensOf, GroupAll, Flat;
    WrapIsGroups(width, words);
    GroupsMaximal(width, words);
    TokensJoined(width, Groups(width, words));
  }

  /* ---------- no packing is shorter ---------- */

  /** The lengths of the words, each with a space behind it. */
  function Total(g: seq<string>): nat {
    if g == [] then 0 else Total(g[..|g| - 1]) + |g[|g| - 1]| + 1
  }

  lemma {:induction false} TotalAppend(a: seq<string>, b: seq<string>)
    ensures Total(a + b) == Total(a) + Total(b)
  {
    if b == [] {
      assert a + b == a;
    } else {
      var c, w := b[..|b| - 1], b[|b| - 1];
      TotalAppend(a, c);
      assert (a + b)[..|a + b| - 1] == a + c;
    }
  }

  lemma {:induction false} JoinLength(g: seq<string>)
    ensures |Join(g)| == if g == [] then 0 else Total(g) - 1
  {
    if |g| > 1 {
      JoinLength(g[..|g| - 1]);
    } else if |g| == 1 {
      assert g[..0] == [];
    }
  }

  /** A line that holds a whole full group and the word behind it is too long. */
  lemma TooLong(width: nat, p: seq<string>, before: seq<string>, g: seq<string>, w: string, after: seq<string>)
    requires p == before + g + [w] + after && g != [] && |Join(g)| + |w| + 1 > width
    ensures |Join(p)| > width
  {
    hide Join, Total;
    TotalAppend(before + g + [w], after);
    TotalAppend(before + g, [w]);
    TotalAppend(before, g);
    TotalOne(w);
    JoinLength(p);
    JoinLength(g);
  }

  lemma TotalOne(w: string)
    ensures Total([w]) == |w| + 1
  {
    assert [w][..0] == [];
  }

  ghost predicate Packing(width: nat, ps: seq<seq<string>>) {
    forall i :: 0 <= i < |ps| ==> |Join(ps[i])| <= width
  }

  /** Greedy stays ahead: full groups are no more than the lines of any packing that has those words,
      and perhaps some before them, to hold. */
  lemma {:induction false} StaysAhead(width: nat, gs: seq<seq<string>>, ps: seq<seq<string>>, before: seq<string>)
    requires Maximal(width, gs) && Packing(width, ps) && Flat(ps) == before + Flat(gs)
    ensures |gs| <= |ps|
    decreases |ps|
  {
    if gs == [] {
    } else {
      hide Join, Flat;
      FlatHead(gs);
      var g, rest := gs[0], Flat(gs[1..]);
      if ps == [] {
        NothingFlat();
      } else {
        FlatHead(ps);
        var p, others := ps[0], Flat(ps[1..]);
        Tails(width, gs, ps);
        Suffix(p, others, before, g, rest);
        if |p| <= |before| {
          StaysAhead(width, gs, ps[1..], before[|p|..]);
        } else if |p| <= |before| + |g| {
          StaysAhead(width, gs[1..], ps[1..], g[|p| - |before|..]);
        } else {
          assert before + (g + rest) == before + g + rest;
          Overfull(width, gs, p, before, others);
        }
      }
    }
  }

  lemma Suffix<T>(p: seq<T>, others: seq<T>, before: seq<T>, g: seq<T>, rest: seq<T>)
    requires p + others == before + (g + rest)
    ensures |p| <= |before| ==> others == before[|p|..] + (g + rest)
    ensures |before| <= |p| <= |before| + |g| ==> others == g[|p| - |before|..] + rest
  {
    assert others == (p + others)[|p|..];
  }

  lemma NothingFlat()
    ensures Flat<string>([]) == []
  {
  }

  lemma Tails(width: nat, gs: seq<seq<string>>, ps: seq<seq<string>>)
    requires Maximal(width, gs) && Packing(width, ps) && gs != [] && ps != []
    ensures Maximal(width, gs[1..]) && Packing(width, ps[1..])
  {
    hide Join;
    var s := gs[1..];
    forall i, j | 0 <= i < j < |s| && j == i + 1
      ensures |Join(s[i])| + |s[j][0]| + 1 > width
    {
      assert s[i] == gs[i + 1] && s[j] == gs[j + 1];
    }
  }

  /** A line of the packing cannot reach past a full group. */
  lemma Overfull(width: nat, gs: seq<seq<string>>, p: seq<string>, before: seq<string>, others: seq<string>)
    requires Maximal(width, gs) && gs != [] && |Join(p)| <= width
    requires p + others == before + gs[0] + Flat(gs[1..])
    ensures |p| <= |before| + |gs[0]|
  {
    hide Join, Flat;
    var g, rest := gs[0], Flat(gs[1..]);
    if |p| > |before| + |g| {
      NothingFlat();
      FlatHead(gs[1..]);
      var w := gs[1][0];
      assert gs[1..][0] == gs[1] && rest[0] == w;
      var k := |before| + |g|;
      assert p == (before + g + rest)[..|p|] == before + g + [w] + p[k + 1..];
      TooLong(width, p, before, g, w, p[k + 1..]);
    }
  }

  /** No packing of the words in their order, each line within the width, has fewer lines. */
  lemma WrapOptimal(width: nat, words: seq<string>, ps: seq<seq<string>>)
    requires width >= 1 && Fitting(width, words)
    requires Flat(ps) == words && forall i :: 0 <= i < |ps| ==> |Join(ps[i])| <= width
    ensures |Wrap(width, words)| <= |ps|
  {
    hide Wrap, Joined, GroupAll, Flat, Join;
    WrapIsGroups(width, words);
    GroupsMaximal(width, words);
    assert [] + words == words;
    StaysAhead(width, Groups(width, words), ps, []);
  }
}
