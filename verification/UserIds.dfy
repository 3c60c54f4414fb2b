/** The odometer of src/user.c that hands out the six characters of a local user's id, and its
    passage through an upgrade. */
module UserIds {
  import opened Common

  const ID_MAP := "ABCDEFGHIJKLMNOPQRSTUVWXYZ0123456789"
  const MODULUS := 36

  /* ---------- digits as numbers ---------- */

  predicate Digits(s: seq<int>) {
    forall i :: 0 <= i < |s| ==> 0 <= s[i] < MODULUS
  }

  function Power(n: nat): (p: nat)
    ensures p > 0
  {
    if n == 0 then 1 else MODULUS * Power(n - 1)
  }

  /** The number that the digits write, the most significant first. */
  function Value(s: seq<int>): int {
    if s == [] then 0 else MODULUS * Value(s[..|s| - 1]) + s[|s| - 1]
  }

  /** One step of the odometer. */
  function Inc(s: seq<int>): (r: seq<int>)
    ensures |r| == |s|
  {
    if s == [] then []
    else if s[|s| - 1] + 1 < MODULUS then s[..|s| - 1] + [s[|s| - 1] + 1]
    else Inc(s[..|s| - 1]) + [s[|s| - 1] + 1 - MODULUS]
  }

  lemma {:induction false} ValueBound(s: seq<int>)
    requires Digits(s)
    ensures 0 <= Value(s) < Power(|s|)
  {
    if s != [] {
      ValueBound(s[..|s| - 1]);
    }
  }

  /** It counts, modulo the number of digit strings. */
  lemma {:induction false} IncCounts(s: seq<int>)
    requires Digits(s)
    ensures Digits(Inc(s)) && Value(Inc(s)) == if Value(s) + 1 == Power(|s|) then 0 else Value(s) + 1
  {
    if s != [] {
      var t, d := s[..|s| - 1], s[|s| - 1];
      IncCounts(t);
      ValueBound(t);
      var r := Inc(s);
      assert r[..|r| - 1] == if d + 1 < MODULUS then t else Inc(t);
    }
  }

  /** The odometer after `k` steps. */
  function Steps(s: seq<int>, k: nat): (r: seq<int>)
    ensures |r| == |s|
  {
    if k == 0 then s else Inc(Steps(s, k - 1))
  }

  lemma {:induction false} StepsCount(s: seq<int>, k: nat)
    requires Digits(s) && k < Power(|s|)
    ensures Digits(Steps(s, k))
    ensures Value(Steps(s, k)) == Value(s) + k - if Value(s) + k < Power(|s|) then 0 else Power(|s|)
  {
    ValueBound(s);
    if k > 0 {
      StepsCount(s, k - 1);
      IncCounts(Steps(s, k - 1));
    }
  }

  /* ---------- ids ---------- */

  function Char(d: int): char
    requires 0 <= d < MODULUS
  {
    ID_MAP[d]
  }

  /** strchr finds it: a character of the map, or the terminator. */
  predicate Known(c: char) {
    'A' <= c <= 'Z' || '0' <= c <= '9' || c == '\0'
  }

  /** The characters of the digits. */
  function Id(s: seq<int>): (id: string)
    requires Digits(s)
    ensures |id| == |s| && forall i :: 0 <= i < |s| ==> id[i] == Char(s[i])
  {
    seq(|s|, i requires 0 <= i < |s| => Char(s[i]))
  }

  /** strchr in the map: the terminator counts as found, behind the last character. */
  function StrChr(c: char): (i: int)
    ensures -1 <= i <= MODULUS
  {
    if 'A' <= c <= 'Z' then c as int - 'A' as int
    else if '0' <= c <= '9' then c as int - '0' as int + 26
    else if c == '\0' then MODULUS
    else -1
  }

  /** The map, character by character. */
  lemma MapIs(i: int)
    requires 0 <= i < MODULUS
    ensures Char(i) == if i < 26 then ('A' as int + i) as char else ('0' as int + i - 26) as char
  {
  }

  lemma StrChrFinds(c: char)
    ensures 0 <= StrChr(c) < MODULUS ==> Char(StrChr(c)) == c
    ensures StrChr(c) == -1 <==> !Known(c)
  {
    hide Char;
    if 0 <= StrChr(c) < MODULUS {
      MapIs(StrChr(c));
    }
  }

  lemma CharFound(d: int)
    requires 0 <= d < MODULUS
    ensures StrChr(Char(d)) == d
  {
    hide Char;
    MapIs(d);
  }

  lemma IdInjective(s: seq<int>, t: seq<int>)
    requires Digits(s) && Digits(t) && |s| == |t| && Id(s) == Id(t)
    ensures s == t
  {
    hide Char, StrChr;
    forall i | 0 <= i < |s|
      ensures s[i] == t[i]
    {
      CharFound(s[i]);
      CharFound(t[i]);
      assert Id(s)[i] == Id(t)[i];
    }
  }

  /** Before it wraps around, the odometer does not repeat an id, wherever it starts: any two of 36^6
      ids in a row differ. */
  lemma IdsDiffer(s: seq<int>, j: nat, k: nat)
    requires Digits(s) && j < k < Power(|s|)
    ensures Digits(Steps(s, j)) && Digits(Steps(s, k)) && Id(Steps(s, j)) != Id(Steps(s, k))
  {
    hide Id;
    StepsCount(s, j);
    StepsCount(s, k);
    ValueBound(s);
    if Id(Steps(s, j)) == Id(Steps(s, k)) {
      IdInjective(Steps(s, j), Steps(s, k));
    }
  }

  lemma SixDigits()
    ensures Power(6) == 2176782336
  {
  }

  /* ---------- the counter ---------- */

  class Counter {
    const digits: array<int>

    ghost predicate Valid()
      reads digits
    {
      digits.Length == 6 && Digits(digits[..])
    }

    constructor ()
      ensures Valid() && digits[..] == [0, 0, 0, 0, 0, 0] && fresh(digits)
    {
      digits := new int[6](_ => 0);
    }

    /** The first loop of id_next. */
    method Show() returns (id: string)
      requires Valid()
      ensures id == Id(digits[..])
    {
      hide Char;
      id := "";
      for i := 0 to 6
        invariant |id| == i && forall j :: 0 <= j < i ==> id[j] == Char(digits[j])
      {
        id := id + [Char(digits[i])];
      }
      assert id == Id(digits[..]);
    }

    /** The second loop: a digit that overflows carries to the one before. */
    method Step()
      requires digits.Length == 6
      modifies digits
      ensures digits[..] == Inc(old(digits[..]))
    {
      hide Inc;
      ghost var s := digits[..];
      assert s[..6] == s && Inc(s) + [] == Inc(s);
      var i := 6;
      while i > 0
        invariant 0 <= i <= 6 && digits[..i] == s[..i]
        invariant Inc(s) == Inc(s[..i]) + digits[i..]
      {
        i := i - 1;
        Carry(s[..i + 1]);
        assert s[..i + 1][..i] == s[..i];
        ghost var rest := digits[i + 1..];
        digits[i] := digits[i] + 1;
        if digits[i] < MODULUS {
          assert digits[..] == s[..i] + [digits[i]] + rest;
          return;
        }
        digits[i] := digits[i] - MODULUS;
        assert digits[i..] == [digits[i]] + rest;
        Assoc(Inc(s[..i]), [digits[i]], rest);
      }
      NoCarry(s[..0]);
    }

    /** id_next */
    method IdNext() returns (id: string)
      requires Valid()
      modifies digits
      ensures Valid() && id == Id(old(digits[..])) && digits[..] == Inc(old(digits[..]))
    {
      IncCounts(digits[..]);
      id := Show();
      Step();
    }

    /** set_id_next_from_str: all six characters are looked up before any digit changes. */
    method SetIdNext(id: string) returns (rc: int)
      requires digits.Length == 6 && |id| == 6
      modifies digits
      ensures rc == if exists i :: 0 <= i < 6 && !Known(id[i]) then -1 else 0
      ensures rc < 0 ==> digits[..] == old(digits[..])
      ensures rc == 0 ==> forall i :: 0 <= i < 6 ==> digits[i] == StrChr(id[i])
    {
      hide Known, StrChr;
      var d := [];
      for i := 0 to 6
        invariant |d| == i && forall j :: 0 <= j < i ==> d[j] == StrChr(id[j]) && Known(id[j])
        invariant digits[..] == old(digits[..])
      {
        var x := StrChr(id[i]);
        StrChrFinds(id[i]);
        if x == -1 {
          return -1;
        }
        d := d + [x];
      }
      forall i | 0 <= i < 6 {
        digits[i] := d[i];
      }
      return 0;
    }
  }

  lemma Carry(s: seq<int>)
    requires s != []
    ensures var n := |s| - 1;
            Inc(s) == if s[n] + 1 < MODULUS then s[..n] + [s[n] + 1] else Inc(s[..n]) + [s[n] + 1 - MODULUS]
  {
  }

  lemma NoCarry(s: seq<int>)
    requires s == []
    ensures Inc(s) == []
  {
  }

  /** Setting the counter to an id makes that id the next. */
  lemma SetThenNext(s: seq<int>, t: seq<int>)
    requires Digits(s) && |s| == |t| && forall i :: 0 <= i < |s| ==> t[i] == StrChr(Id(s)[i])
    ensures t == s
  {
    hide Char, StrChr;
    forall i | 0 <= i < |s|
      ensures t[i] == s[i]
    {
      CharFound(s[i]);
    }
  }

  /** dump_user draws one more id and stores it; restore_user starts from it. So the new process
      goes on with exactly the ids that the old one had not handed out to anybody. */
  method Upgrade(had: Counter) returns (stored: string, restored: Counter, rc: int)
    requires had.Valid()
    modifies had.digits
    ensures fresh(restored) && fresh(restored.digits)
    ensures rc == 0 && restored.Valid() && restored.digits[..] == old(had.digits[..]) && stored == Id(old(had.digits[..]))
  {
    hide Char, StrChr, Known, Inc;
    ghost var s := had.digits[..];
    stored := had.IdNext();
    restored := new Counter();
    rc := restored.SetIdNext(stored);
    forall i | 0 <= i < 6
      ensures Known(stored[i])
    {
      CharFound(s[i]);
      StrChrFinds(Char(s[i]));
    }
    SetThenNext(s, restored.digits[..]);
  }

  lemma NoSteps(s: seq<int>)
    ensures Steps(s, 0) == s
  {
  }

  lemma MoreSteps(s: seq<int>, k: nat)
    ensures Steps(s, k + 1) == Inc(Steps(s, k))
  {
  }

  /** A run of ids. */
  method Draw(c: Counter, n: nat) returns (ids: seq<string>)
    requires c.Valid() && n <= Power(6)
    modifies c.digits
    ensures c.Valid() && |ids| == n && forall j, k :: 0 <= j < k < n ==> ids[j] != ids[k]
  {
    hide Inc, Steps, Power, Char;
    ghost var s := c.digits[..];
    ids := [];
    NoSteps(s);
    for i := 0 to n
      invariant c.Valid() && c.digits[..] == Steps(s, i) && |ids| == i
      invariant forall k :: 0 <= k < i ==> Digits(Steps(s, k)) && ids[k] == Id(Steps(s, k))
    {
      var id := c.IdNext();
      MoreSteps(s, i);
      ids := ids + [id];
    }
    forall j, k | 0 <= j < k < n
      ensures ids[j] != ids[k]
    {
      IdsDiffer(s, j, k);
    }
  }

  /* ---------- the life of a server ---------- */

  datatype Event = NewUser | LiveUpgrade

  function NewUsers(events: seq<Event>): (n: nat)
    ensures n <= |events|
  {
    if events == [] then 0 else NewUsers(events[..|events| - 1]) + if events[|events| - 1].NewUser? then 1 else 0
  }

  lemma {:induction false} NewUsersGrow(events: seq<Event>, i: nat)
    requires i <= |events|
    ensures NewUsers(events[..i]) <= NewUsers(events)
    ensures i < |events| ==> NewUsers(events[..i + 1]) == NewUsers(events[..i]) + if events[i].NewUser? then 1 else 0
  {
    if i < |events| {
      assert events[..i + 1][..i] == events[..i];
    }
    if i == |events| {
      assert events[..i] == events;
    } else {
      assert events[..|events| - 1][..i] == events[..i];
      NewUsersGrow(events[..|events| - 1], i);
    }
  }

  /** New users and upgrades in any order, from any counter: up to 36^6 users no id is given out
      twice, whichever process gave it out. */
  method Life(c: Counter, events: seq<Event>) returns (ids: seq<string>, last: Counter)
    requires c.Valid() && NewUsers(events) <= 2176782336
    modifies c.digits
    ensures last.Valid() && |ids| == NewUsers(events)
    ensures forall j, k :: 0 <= j < k < |ids| ==> ids[j] != ids[k]
  {
    hide Inc, Steps, Power, Char;
    ghost var s := c.digits[..];
    ids, last := [], c;
    NoSteps(s);
    for i := 0 to |events|
      invariant last.Valid() && (last == c || fresh(last.digits)) && |ids| == NewUsers(events[..i])
      invariant last.digits[..] == Steps(s, |ids|)
      invariant forall k :: 0 <= k < |ids| ==> Digits(Steps(s, k)) && ids[k] == Id(Steps(s, k))
    {
      hide NewUsers;
      NewUsersGrow(events, i);
      if events[i].NewUser? {
        var id := last.IdNext();
        MoreSteps(s, |ids|);
        ids := ids + [id];
      } else {
        var _, restored, _ := Upgrade(last);
        last := restored;
      }
    }
    assert events[..|events|] == events;
    SixDigits();
    forall j, k | 0 <= j < k < |ids|
      ensures ids[j] != ids[k]
    {
      IdsDiffer(s, j, k);
    }
  }
}
