/** The wildcard matcher of src/util.c: matchmap walks the mask and the string with two
    cursors and remembers only the most recent star. MatchesFrom is the usual relation, in
    which every star may be tried at every length. A C string is a `string` here: its end is
    its length, so a cursor at the length reads the terminator. */
module Glob {

  type CaseMap = char -> char

  /** One mask character against one string character, for a mask character that is not '*'. */
  predicate CharMatches(m: char, c: char, fold: CaseMap) {
    fold(m) == fold(c) || m == '?'
  }

  /** The wildcard relation between the mask from `i` on and the string from `j` on: '*' stands
      for any run of characters, '?' for any one character, and any other character for itself
      up to the case map. */
  predicate MatchesFrom(mask: string, i: nat, s: string, j: nat, fold: CaseMap)
    requires i <= |mask| && j <= |s|
    decreases |mask| - i, |s| - j
  {
    if i == |mask| then
      j == |s|
    else if mask[i] == '*' then
      MatchesFrom(mask, i + 1, s, j, fold) || (j < |s| && MatchesFrom(mask, i, s, j + 1, fold))
    else
      j < |s| && CharMatches(mask[i], s[j], fold) && MatchesFrom(mask, i + 1, s, j + 1, fold)
  }

  predicate Matches(mask: string, s: string, fold: CaseMap) {
    MatchesFrom(mask, 0, s, 0, fold)
  }

  /** What follows the last star matches the string somewhere from `j` on. */
  ghost predicate MatchesLater(mask: string, i: nat, s: string, j: nat, fold: CaseMap)
    requires i <= |mask|
  {
    exists k :: j <= k <= |s| && MatchesFrom(mask, i, s, k, fold)
  }

  /** A star can stand for a prefix of every length. */
  lemma {:induction false} StarMatchesAnyPrefix(mask: string, i: nat, s: string, j: nat, fold: CaseMap)
    requires i < |mask| && mask[i] == '*' && j <= |s|
    ensures MatchesFrom(mask, i, s, j, fold) <==> MatchesLater(mask, i + 1, s, j, fold)
    decreases |s| - j
  {
    if j < |s| {
      StarMatchesAnyPrefix(mask, i, s, j + 1, fold);
    }
  }

  /** The mask from `i` up to `i'` is star-free and matches the string from `j` up to `j'`
      character by character. */
  predicate Segment(mask: string, i: nat, i': nat, s: string, j: nat, j': nat, fold: CaseMap)
    requires i <= i' <= |mask| && j <= j' <= |s|
  {
    i' - i == j' - j &&
    forall k :: i <= k < i' ==> mask[k] != '*' && CharMatches(mask[k], s[j + (k - i)], fold)
  }

  /** A star-free stretch of mask that fits can be stripped from both sides. */
  lemma {:induction false} StripSegment(mask: string, i: nat, i': nat, s: string, j: nat, j': nat, fold: CaseMap)
    requires i <= i' <= |mask| && j <= j' <= |s| && Segment(mask, i, i', s, j, j', fold)
    ensures MatchesFrom(mask, i, s, j, fold) <==> MatchesFrom(mask, i', s, j', fold)
    decreases i' - i
  {
    if i < i' {
      StripSegment(mask, i + 1, i', s, j + 1, j', fold);
    }
  }

  /** A star-free stretch of mask consumes exactly its own length. */
  lemma {:induction false} SegmentLength(mask: string, i: nat, i': nat, s: string, j: nat, fold: CaseMap)
    requires i <= i' <= |mask| && j <= |s| && MatchesFrom(mask, i, s, j, fold)
    requires forall k :: i <= k < i' ==> mask[k] != '*'
    ensures j + (i' - i) <= |s| && MatchesFrom(mask, i', s, j + (i' - i), fold)
    decreases i' - i
  {
    if i < i' {
      SegmentLength(mask, i + 1, i', s, j + 1, fold);
    }
  }

  /* ---------- the relation by the shape of the mask ---------- */

  /** A mask without stars matches the strings of its length that have the same characters up to the
      case map, '?' standing for any. */
  lemma {:induction false} StarFree(mask: string, s: string, fold: CaseMap)
    requires '*' !in mask
    ensures Matches(mask, s, fold) <==>
            |mask| == |s| && forall k :: 0 <= k < |mask| ==> mask[k] == '?' || fold(mask[k]) == fold(s[k])
  {
    if Matches(mask, s, fold) {
      SegmentLength(mask, 0, |mask|, s, 0, fold);
      SegmentFits(mask, 0, |mask|, s, 0, fold);
    }
    if |mask| == |s| && forall k :: 0 <= k < |mask| ==> mask[k] == '?' || fold(mask[k]) == fold(s[k]) {
      assert Segment(mask, 0, |mask|, s, 0, |s|, fold);
      StripSegment(mask, 0, |mask|, s, 0, |s|, fold);
    }
  }

  lemma {:induction false} SegmentFits(mask: string, i: nat, i': nat, s: string, j: nat, fold: CaseMap)
    requires i <= i' <= |mask| && j + (i' - i) <= |s| && MatchesFrom(mask, i, s, j, fold)
    requires forall k :: i <= k < i' ==> mask[k] != '*'
    ensures Segment(mask, i, i', s, j, j + (i' - i), fold)
    decreases i' - i
  {
    if i < i' {
      SegmentFits(mask, i + 1, i', s, j + 1, fold);
    }
  }

  /** Only what is left of the mask and of the string counts. */
  lemma {:induction false} FromSuffix(mask: string, i: nat, s: string, j: nat, m: string, n: nat, t: string, k: nat, fold: CaseMap)
    requires i <= |mask| && j <= |s| && n <= |m| && k <= |t| && mask[i..] == m[n..] && s[j..] == t[k..]
    ensures MatchesFrom(mask, i, s, j, fold) <==> MatchesFrom(m, n, t, k, fold)
    decreases |mask| - i, |s| - j
  {
    if i < |mask| {
      assert mask[i] == m[n] && mask[i + 1..] == m[n + 1..];
      if j < |s| {
        assert s[j] == t[k] && s[j + 1..] == t[k + 1..];
        FromSuffix(mask, i + 1, s, j + 1, m, n + 1, t, k + 1, fold);
        FromSuffix(mask, i, s, j + 1, m, n, t, k + 1, fold);
      }
      FromSuffix(mask, i + 1, s, j, m, n + 1, t, k, fold);
    }
  }

  /** A mask with a star matches the strings that begin with what its start matches and end with what
      its rest matches. With StarFree this says of every mask what it matches. */
  lemma FirstStar(start: string, rest: string, s: string, fold: CaseMap)
    requires '*' !in start
    ensures Matches(start + "*" + rest, s, fold) <==>
            exists k :: |start| <= k <= |s| && Matches(start, s[..|start|], fold) && Matches(rest, s[k..], fold)
  {
    var mask, n := start + "*" + rest, |start|;
    assert forall k :: 0 <= k < n ==> mask[k] == start[k];
    if n <= |s| {
      StarFree(start, s[..n], fold);
      forall k | n <= k <= |s|
        ensures MatchesFrom(mask, n + 1, s, k, fold) <==> Matches(rest, s[k..], fold)
      {
        assert mask[n + 1..] == rest[0..] && s[k..] == s[k..][0..];
        FromSuffix(mask, n + 1, s, k, rest, 0, s[k..], 0, fold);
      }
      StarMatchesAnyPrefix(mask, n, s, n, fold);
      if Matches(mask, s, fold) {
        SegmentFits(mask, 0, n, s, 0, fold);
        SegmentLength(mask, 0, n, s, 0, fold);
        var k :| n <= k <= |s| && MatchesFrom(mask, n + 1, s, k, fold);
        assert Matches(rest, s[k..], fold);
      }
      if k :| n <= k <= |s| && Matches(start, s[..n], fold) && Matches(rest, s[k..], fold) {
        assert Segment(mask, 0, n, s, 0, n, fold);
        StripSegment(mask, 0, n, s, 0, n, fold);
        assert MatchesLater(mask, n + 1, s, n, fold);
      }
    } else if Matches(mask, s, fold) {
      SegmentLength(mask, 0, n, s, 0, fold);
    }
  }

  /** What the cursors know about the answer: before any star the whole mask must match here;
      after a star, what follows it must match somewhere from the last restart on. */
  ghost predicate Pending(mask: string, mbt: nat, s: string, sbt: nat, fold: CaseMap)
    requires mbt <= |mask| && sbt <= |s|
  {
    if mbt == 0 then Matches(mask, s, fold) else MatchesLater(mask, mbt, s, sbt, fold)
  }

  /** Why forgetting all stars but the last is sound: once the segment before a star has matched
      at its first possible place, every full match can be moved to use that place. */
  lemma PassStar(mask: string, mbt: nat, m: nat, s: string, sbt: nat, at: nat, fold: CaseMap)
    requires mbt <= m < |mask| && mask[m] == '*' && sbt <= at <= |s|
    requires mbt == 0 ==> sbt == 0
    requires Segment(mask, mbt, m, s, sbt, at, fold)
    ensures Pending(mask, mbt, s, sbt, fold) <==> Pending(mask, m + 1, s, at, fold)
  {
    StripSegment(mask, mbt, m, s, sbt, at, fold);
    StarMatchesAnyPrefix(mask, m, s, at, fold);
    if MatchesLater(mask, mbt, s, sbt, fold) {
      var k :| sbt <= k <= |s| && MatchesFrom(mask, mbt, s, k, fold);
      SegmentLength(mask, mbt, m, s, k, fold);
      StarMatchesAnyPrefix(mask, m, s, k + (m - mbt), fold);
    }
  }

  /** The current attempt is dead: the mask is used up before the string, or the next mask
      character is neither a star nor a match. */
  predicate Dead(mask: string, m: nat, str: string, s: nat, fold: CaseMap)
    requires m <= |mask| && s < |str|
  {
    m < |mask| ==> mask[m] != '*' && !CharMatches(mask[m], str[s], fold)
  }

  /** After a dead attempt with no star seen the answer is no; otherwise only this start is lost. */
  lemma DeadAttempt(mask: string, mbt: nat, m: nat, str: string, sbt: nat, s: nat, fold: CaseMap)
    requires mbt <= m <= |mask| && sbt <= s < |str|
    requires mbt == 0 ==> sbt == 0
    requires Segment(mask, mbt, m, str, sbt, s, fold) && Dead(mask, m, str, s, fold)
    ensures mbt == 0 ==> !Pending(mask, mbt, str, sbt, fold)
    ensures mbt > 0 ==> (Pending(mask, mbt, str, sbt, fold) <==> Pending(mask, mbt, str, sbt + 1, fold))
  {
    StripSegment(mask, mbt, m, str, sbt, s, fold);
    assert !MatchesFrom(mask, mbt, str, sbt, fold);
  }

  /** The string ends inside the segment: no start, present or later, can succeed. */
  lemma RanOut(mask: string, mbt: nat, m: nat, str: string, sbt: nat, fold: CaseMap)
    requires mbt <= m < |mask| && sbt <= |str| && mask[m] != '*'
    requires mbt == 0 ==> sbt == 0
    requires Segment(mask, mbt, m, str, sbt, |str|, fold)
    ensures !Pending(mask, mbt, str, sbt, fold)
  {
    forall k | sbt <= k <= |str|
      ensures !MatchesFrom(mask, mbt, str, k, fold)
    {
      if MatchesFrom(mask, mbt, str, k, fold) {
        SegmentLength(mask, mbt, m + 1, str, k, fold);
        assert false;
      }
    }
  }

  /** The matcher decides the relation, for every mask, string and case map. */
  method MatchMap(mask: string, str: string, fold: CaseMap) returns (r: bool)
    ensures r <==> Matches(mask, str, fold)
  {
    var m, s := 0, 0;
    var mbt, sbt := 0, 0;
    while true
      invariant 0 <= mbt <= m <= |mask| && 0 <= sbt <= s <= |str|
      invariant mbt == 0 ==> sbt == 0
      invariant Segment(mask, mbt, m, str, sbt, s, fold)
      invariant Matches(mask, str, fold) <==> Pending(mask, mbt, str, sbt, fold)
      decreases |mask| - mbt, |str| - sbt, |mask| - m
    {
      var backtrack := false;
      if m == |mask| {
        if s == |str| {
          StripSegment(mask, mbt, m, str, sbt, s, fold);
          return true;
        }
        backtrack := true;
      } else if mask[m] == '*' {
        ghost var bt, sb := mbt, sbt;
        while m < |mask| && mask[m] == '*'
          invariant bt <= m <= |mask| && sb <= s
          invariant (m < |mask| && mask[m] == '*') || (0 < bt == m && sb == s)
          invariant bt == 0 ==> sb == 0
          invariant Segment(mask, bt, m, str, sb, s, fold)
          invariant Matches(mask, str, fold) <==> Pending(mask, bt, str, sb, fold)
        {
          PassStar(mask, bt, m, str, sb, s, fold);
          m := m + 1;
          bt, sb := m, s;
        }
        mbt, sbt := m, s;
      } else {
        if s == |str| {
          RanOut(mask, mbt, m, str, sbt, fold);
          return false;
        }
        if fold(mask[m]) != fold(str[s]) && mask[m] != '?' {
          backtrack := true;
        } else {
          m, s := m + 1, s + 1;
        }
      }
      if backtrack {
        DeadAttempt(mask, mbt, m, str, sbt, s, fold);
        if mbt == 0 {
          return false;
        }
        sbt := sbt + 1;
        m, s := mbt, sbt;
      }
    }
  }
}
