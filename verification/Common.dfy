/** What several parts of the model use: facts about sequences, and two classes of characters. */
module Common {

  /** isdigit */
  predicate IsDigit(c: char) {
    '0' <= c <= '9'
  }

  /** isspace */
  predicate IsSpace(c: char) {
    c == ' ' || '\t' as int <= c as int <= '\r' as int
  }

  function Least(a: int, b: int): int {
    if a < b then a else b
  }

  lemma Assoc<T>(a: seq<T>, b: seq<T>, c: seq<T>)
    ensures a + (b + c) == a + b + c
  {
  }

  /** What is left once the first elements that `p` holds of are skipped. */
  function SkipWhile<T>(s: seq<T>, p: T -> bool): (r: seq<T>)
    ensures |r| <= |s| && (r != [] ==> !p(r[0]))
  {
    if s != [] && p(s[0]) then SkipWhile(s[1..], p) else s
  }

  lemma SkipStep<T>(s: seq<T>, p: T -> bool)
    ensures SkipWhile(s, p) == if s != [] && p(s[0]) then SkipWhile(s[1..], p) else s
  {
  }

  lemma {:induction false} SkipSuffix<T>(s: seq<T>, p: T -> bool)
    ensures s[|s| - |SkipWhile(s, p)|..] == SkipWhile(s, p)
  {
    if s != [] && p(s[0]) {
      SkipSuffix(s[1..], p);
    }
  }

  lemma {:induction false} SkipPrefix<T>(s: seq<T>, p: T -> bool)
    ensures forall i :: 0 <= i < |s| - |SkipWhile(s, p)| ==> p(s[i])
  {
    if s != [] && p(s[0]) {
      SkipPrefix(s[1..], p);
    }
  }

  /** The number that digits write in a base, the first one counting most. */
  function Number(d: seq<int>, base: int): int {
    if d == [] then 0 else Number(d[..|d| - 1], base) * base + d[|d| - 1]
  }

  lemma NumberSnoc(d: seq<int>, x: int, base: int)
    ensures Number(d + [x], base) == Number(d, base) * base + x
  {
    assert (d + [x])[..|d|] == d;
  }

  /* ---------- the parts of a sequence put together ---------- */

  function Flat<T>(w: seq<seq<T>>): seq<T> {
    if w == [] then [] else w[0] + Flat(w[1..])
  }

  lemma FlatCons<T>(b: seq<T>, w: seq<seq<T>>)
    ensures Flat([b] + w) == b + Flat(w)
  {
    assert ([b] + w)[1..] == w;
  }

  lemma FlatHead<T>(w: seq<seq<T>>)
    requires w != []
    ensures Flat(w) == w[0] + Flat(w[1..])
  {
  }

  lemma {:induction false} FlatAppend<T>(v: seq<seq<T>>, w: seq<seq<T>>)
    ensures Flat(v + w) == Flat(v) + Flat(w)
  {
    if v == [] {
      assert v + w == w;
    } else {
      hide Flat;
      var b, r := v[0], v[1..];
      assert v == [b] + r && v + w == [b] + (r + w);
      FlatCons(b, r);
      FlatCons(b, r + w);
      FlatAppend(r, w);
    }
  }

  lemma FlatOne<T>(b: seq<T>)
    ensures Flat([b]) == b
  {
    assert [b][1..] == [];
  }

  lemma FlatSnoc<T>(v: seq<seq<T>>, b: seq<T>)
    ensures Flat(v + [b]) == Flat(v) + b
  {
    hide Flat;
    FlatAppend(v, [b]);
    FlatOne(b);
  }

  lemma FlatPrefix<T>(w: seq<seq<T>>, i: nat)
    requires i < |w|
    ensures Flat(w[..i + 1]) == Flat(w[..i]) + w[i] && |Flat(w[..i + 1])| <= |Flat(w)|
  {
    hide Flat;
    assert w[..i + 1] == w[..i] + [w[i]];
    assert w == w[..i + 1] + w[i + 1..];
    FlatSnoc(w[..i], w[i]);
    FlatAppend(w[..i + 1], w[i + 1..]);
  }
}
