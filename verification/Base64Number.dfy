/** The base64 of Base64.dfy without its bit fields: the alphabet of section 4 of RFC 4648, and the
    number that the characters write in base 64 against the one that the bytes write in base 256. */
module Base64Number {
  import opened Common
  import opened Hostmask
  import opened Base64

  const UPPER := "ABCDEFGHIJKLMNOPQRSTUVWXYZ"
  const LOWER := "abcdefghijklmnopqrstuvwxyz"
  const DIGITS := "0123456789"
  const ALPHABET := UPPER + LOWER + DIGITS + "+/"

  lemma UpperIs(v: int)
    requires 0 <= v < 26
    ensures |UPPER| == 26 && Sextet(v) == UPPER[v]
  {
  }

  lemma LowerIs(v: int)
    requires 26 <= v < 52
    ensures |LOWER| == 26 && Sextet(v) == LOWER[v - 26]
  {
  }

  lemma DigitIs(v: int)
    requires 52 <= v < 62
    ensures |DIGITS| == 10 && Sextet(v) == DIGITS[v - 52]
  {
  }

  lemma SextetIs(v: int)
    requires 0 <= v < 64
    ensures |ALPHABET| == 64 && Sextet(v) == ALPHABET[v]
  {
    UpperIs(if v < 26 then v else 0);
    LowerIs(if 26 <= v < 52 then v else 26);
    DigitIs(if 52 <= v < 62 then v else 52);
    hide UPPER, LOWER, DIGITS;
  }

  /** Encoding looks a value up in the alphabet; decoding finds its place there, and takes what is not
      in the alphabet for zero. */
  lemma AlphabetPlaces(v: int, c: char)
    requires 0 <= v < 64
    ensures |ALPHABET| == 64 && Sextet(v) == ALPHABET[v] && IndexOf(ALPHABET, Sextet(v)) == v
    ensures SextetValue(c) == if c in ALPHABET then IndexOf(ALPHABET, c) else 0
  {
    hide UPPER, LOWER, DIGITS, ALPHABET, Sextet, SextetValue, IndexOf;
    PlaceOf(v);
    if c in ALPHABET {
      var i :| 0 <= i < |ALPHABET| && ALPHABET[i] == c;
      PlaceOf(i);
      SextetRoundTrip(i);
    } else {
      Elsewhere(c);
    }
  }

  lemma PlaceOf(v: int)
    requires 0 <= v < 64
    ensures |ALPHABET| == 64 && Sextet(v) == ALPHABET[v] && IndexOf(ALPHABET, Sextet(v)) == v
  {
    SextetIs(v);
    hide UPPER, LOWER, DIGITS, ALPHABET, Sextet, SextetValue;
    forall j | 0 <= j < v
      ensures ALPHABET[j] != ALPHABET[v]
    {
      SextetIs(j);
      SextetRoundTrip(j);
      SextetRoundTrip(v);
    }
    FirstIndex(ALPHABET, ALPHABET[v], v);
  }

  lemma Elsewhere(c: char)
    requires c !in ALPHABET
    ensures SextetValue(c) == 0
  {
    if SextetValue(c) != 0 {
      SextetIs(SextetValue(c));
    }
  }

  /* ---------- encoding ---------- */

  /** The places of the characters in the alphabet. */
  function Places(s: string): seq<int>
  {
    seq(|s|, i requires 0 <= i < |s| => IndexOf(ALPHABET, s[i]))
  }

  predicate InAlphabet(s: string) {
    forall i :: 0 <= i < |s| ==> s[i] in ALPHABET
  }

  lemma PlacesConcat(a: string, b: string)
    ensures Places(a + b) == Places(a) + Places(b)
    ensures InAlphabet(a) && InAlphabet(b) ==> InAlphabet(a + b)
  {
    hide UPPER, LOWER, DIGITS, ALPHABET, IndexOf;
  }

  lemma SextetPlaces(v: int)
    requires 0 <= v < 64
    ensures Places([Sextet(v)]) == [v] && InAlphabet([Sextet(v)])
  {
    PlaceOf(v);
    hide UPPER, LOWER, DIGITS, ALPHABET, Sextet, IndexOf;
  }

  /** One more character after some. */
  lemma OneMore(s: string, v: int)
    requires 0 <= v < 64 && InAlphabet(s)
    ensures InAlphabet(s + [Sextet(v)]) && Number(Places(s + [Sextet(v)]), 64) == Number(Places(s), 64) * 64 + v
  {
    hide UPPER, LOWER, DIGITS, ALPHABET, Sextet, IndexOf, InAlphabet, Number, Places;
    PlacesConcat(s, [Sextet(v)]);
    SextetPlaces(v);
    NumberSnoc(Places(s), v, 64);
  }

  lemma SomeChars(s: string, t: int, k: nat)
    requires 2 <= k <= 4
    ensures var s2, q := s + [Sextet(Part(t, 0))] + [Sextet(Part(t, 1))], s + Quartet(t, 4 - k)[..k];
            q == if k == 2 then s2 else if k == 3 then s2 + [Sextet(Part(t, 2))]
                 else s2 + [Sextet(Part(t, 2))] + [Sextet(Part(t, 3))]
  {
    hide Sextet, Part;
  }

  /** The first `k` characters of an unpadded quartet behind others. */
  lemma SomeMore(s: string, t: int, k: nat)
    requires 0 <= t < 16777216 && 2 <= k <= 4 && InAlphabet(s)
    ensures var q, n := Quartet(t, 4 - k)[..k], Number(Places(s), 64);
            InAlphabet(s + q) && Number(Places(s + q), 64) ==
              if k == 2 then n * 4096 + Part(t, 0) * 64 + Part(t, 1)
              else if k == 3 then n * 262144 + Part(t, 0) * 4096 + Part(t, 1) * 64 + Part(t, 2)
              else n * 16777216 + Part(t, 0) * 262144 + Part(t, 1) * 4096 + Part(t, 2) * 64 + Part(t, 3)
  {
    hide UPPER, LOWER, DIGITS, ALPHABET, Sextet, IndexOf, InAlphabet, Number, Places, Part, Quartet;
    var s1 := s + [Sextet(Part(t, 0))];
    var s2 := s1 + [Sextet(Part(t, 1))];
    var s3 := s2 + [Sextet(Part(t, 2))];
    var s4 := s3 + [Sextet(Part(t, 3))];
    SomeChars(s, t, k);
    OneMore(s, Part(t, 0));
    OneMore(s1, Part(t, 1));
    OneMore(s2, Part(t, 2));
    OneMore(s3, Part(t, 3));
  }

  /** Two, three or four characters more for one, two or three bytes more. */
  lemma QuartetNumber(s: string, bs: seq<Byte>, b0: Byte, b1: Byte, b2: Byte, pads: nat)
    requires pads <= 2 && (pads >= 1 ==> b2 == 0) && (pads == 2 ==> b1 == 0)
    requires InAlphabet(s) && Number(Places(s), 64) == Number(bs, 256)
    ensures var q := s + Quartet(Join(b0, b1, b2), pads)[..4 - pads];
            InAlphabet(q) && Times(pads, Number(bs + [b0, b1, b2][..3 - pads], 256)) == Number(Places(q), 64)
  {
    hide UPPER, LOWER, DIGITS, ALPHABET, InAlphabet, Number, Places, Part, Quartet;
    var t := Join(b0, b1, b2);
    PaddedParts(b0, b1);
    PartsJoin(t);
    BytesNumber(bs, b0, b1, b2, pads);
    SomeMore(s, t, 4 - pads);
  }

  lemma QuartetPads(t: int, pads: nat)
    requires pads <= 2
    ensures Quartet(t, pads)[4 - pads..] == seq(pads, _ => '=')
  {
    hide Sextet;
  }

  /** Behind two bytes left over there are two zero bits, behind one there are four. */
  function Times(pads: nat, n: int): int {
    if pads == 0 then n else if pads == 1 then n * 4 else n * 16
  }

  lemma BytesNumber(bs: seq<Byte>, b0: Byte, b1: Byte, b2: Byte, pads: nat)
    requires pads <= 2
    ensures Number(bs + [b0, b1, b2][..3 - pads], 256) ==
            if pads == 2 then Number(bs, 256) * 256 + b0
            else if pads == 1 then Number(bs, 256) * 65536 + b0 * 256 + b1
            else Number(bs, 256) * 16777216 + b0 * 65536 + b1 * 256 + b2
  {
    hide Number;
    NumberSnoc(bs, b0, 256);
    NumberSnoc(bs + [b0], b1, 256);
    NumberSnoc(bs + [b0] + [b1], b2, 256);
    assert bs + [b0, b1, b2][..1] == bs + [b0];
    assert bs + [b0, b1, b2][..2] == bs + [b0] + [b1];
    assert bs + [b0, b1, b2][..3] == bs + [b0] + [b1] + [b2];
  }

  lemma TripleNumber(s: string, bs: seq<Byte>, b0: Byte, b1: Byte, b2: Byte)
    requires InAlphabet(s) && Number(Places(s), 64) == Number(bs, 256)
    ensures var q := s + Quartet(Join(b0, b1, b2), 0);
            InAlphabet(q) && Number(Places(q), 64) == Number(bs + [b0, b1, b2], 256)
  {
    hide UPPER, LOWER, DIGITS, ALPHABET, InAlphabet, Number, Places, Quartet, Join;
    var q := Quartet(Join(b0, b1, b2), 0);
    assert q[..4] == q && [b0, b1, b2][..3] == [b0, b1, b2];
    QuartetNumber(s, bs, b0, b1, b2, 0);
  }

  lemma NothingYet(bs: seq<Byte>)
    ensures InAlphabet(Triples(bs, 0)) && Number(Places(Triples(bs, 0)), 64) == Number(bs[..0], 256) == 0
  {
  }

  lemma {:induction false} TriplesNumber(bs: seq<Byte>, n: nat)
    requires 3 * n <= |bs|
    ensures InAlphabet(Triples(bs, n)) && Number(Places(Triples(bs, n)), 64) == Number(bs[..3 * n], 256)
  {
    hide UPPER, LOWER, DIGITS, ALPHABET, InAlphabet, Number, Places, Quartet, Triples, Join;
    NothingYet(bs);
    if n > 0 {
      var b0, b1, b2 := bs[3 * n - 3], bs[3 * n - 2], bs[3 * n - 1];
      assert bs[..3 * n] == bs[..3 * n - 3] + [b0, b1, b2];
      NextTriple(bs, n - 1);
      TriplesNumber(bs, n - 1);
      TripleNumber(Triples(bs, n - 1), bs[..3 * n - 3], b0, b1, b2);
    }
  }

  /** An encoding is the number that the bytes write, made a multiple of 64 by two or four zero bits,
      written in base 64 with the characters of the alphabet as digits, and padded to whole quartets. */
  lemma EncodedNumber(bs: seq<Byte>)
    ensures var s, pads := Encoded(bs), if |bs| % 3 == 0 then 0 else 3 - |bs| % 3;
            |s| >= pads && s[|s| - pads..] == seq(pads, _ => '=') &&
            InAlphabet(s[..|s| - pads]) &&
            Number(Places(s[..|s| - pads]), 64) == Times(pads, Number(bs, 256))
  {
    hide UPPER, LOWER, DIGITS, ALPHABET, InAlphabet, Number, Places, Quartet, Triples, Encoded, Join;
    var n := |bs| / 3;
    TriplesNumber(bs, n);
    EncodedIs(bs, n);
    var s, at := Triples(bs, n), 3 * n;
    if |bs| == at {
      assert Encoded(bs) == s && bs[..at] == bs && s[..|s|] == s;
    } else if |bs| == at + 1 {
      TailNumber(s, bs, at, bs[at], 0, 2);
    } else {
      TailNumber(s, bs, at, bs[at], bs[at + 1], 1);
    }
  }

  lemma TailNumber(s: string, bs: seq<Byte>, at: nat, b0: Byte, b1: Byte, pads: nat)
    requires 1 <= pads <= 2 && |bs| == at + 3 - pads && bs[at] == b0
    requires if pads == 2 then b1 == 0 else b1 == bs[at + 1]
    requires InAlphabet(s) && Number(Places(s), 64) == Number(bs[..at], 256)
    ensures var e := s + Quartet(Join(b0, b1, 0), pads);
            e[|e| - pads..] == seq(pads, _ => '=') && InAlphabet(e[..|e| - pads]) &&
            Number(Places(e[..|e| - pads]), 64) == Times(pads, Number(bs, 256))
  {
    hide UPPER, LOWER, DIGITS, ALPHABET, InAlphabet, Number, Places, Quartet, Join, Times;
    QuartetPads(Join(b0, b1, 0), pads);
    QuartetNumber(s, bs[..at], b0, b1, 0, pads);
    var q := Quartet(Join(b0, b1, 0), pads);
    assert bs == bs[..at] + [b0, b1, 0][..3 - pads];
    var e := s + q;
    assert e[..|e| - pads] == s + q[..4 - pads] && e[|e| - pads..] == q[4 - pads..];
  }

  /* ---------- decoding ---------- */

  /** The places of the characters, those of no character of the alphabet being zero. */
  function PlacesOrZero(s: string): seq<int>
  {
    seq(|s|, i requires 0 <= i < |s| => if s[i] in ALPHABET then IndexOf(ALPHABET, s[i]) else 0)
  }

  lemma {:induction false} QuartetsNumber(s: string, n: nat)
    requires 4 * n <= |s| && '=' !in s
    ensures |Quartets(s, n)| == 3 * n && Number(Quartets(s, n), 256) == Number(PlacesOrZero(s[..4 * n]), 64)
  {
    hide Quartets, Bytes, QuartetValue, UPPER, LOWER, DIGITS, ALPHABET, Number, PlacesOrZero, Pads, QuartetBytes;
    NothingDecoded(s);
    if n > 0 {
      var q := s[4 * n - 4..4 * n];
      NoPads(q);
      NextQuartet(s, n - 1);
      assert s[..4 * n] == s[..4 * n - 4] + q;
      QuartetsNumber(s, n - 1);
      CharsNumber(s[..4 * n - 4], q);
      ValueNumber(Quartets(s, n - 1), q);
    }
  }

  lemma NothingDecoded(s: string)
    ensures Quartets(s, 0) == [] && Number([], 256) == 0 && Number(PlacesOrZero(s[..0]), 64) == 0
  {
  }

  lemma NextQuartet(s: string, n: nat)
    requires 4 * n + 4 <= |s| && Pads(s[4 * n..4 * n + 4], 0, 4) == 0
    ensures Quartets(s, n + 1) == Quartets(s, n) + Bytes(QuartetValue(s[4 * n..4 * n + 4]))
  {
    hide Pads, Bytes, QuartetValue;
  }

  lemma NoPads(q: string)
    requires |q| == 4 && '=' !in q
    ensures Pads(q, 0, 4) == 0
  {
    assert Pads(q, 0, 1) == 0 && Pads(q, 0, 2) == 0 && Pads(q, 0, 3) == 0;
  }

  lemma PlacesMore(s: string, c: char)
    ensures PlacesOrZero(s + [c]) == PlacesOrZero(s) + [SextetValue(c)]
  {
    AlphabetPlaces(0, c);
    hide UPPER, LOWER, DIGITS, ALPHABET, SextetValue, IndexOf;
  }

  lemma CharMore(s: string, c: char)
    ensures Number(PlacesOrZero(s + [c]), 64) == Number(PlacesOrZero(s), 64) * 64 + SextetValue(c)
  {
    hide PlacesOrZero, Number, SextetValue;
    PlacesMore(s, c);
    NumberSnoc(PlacesOrZero(s), SextetValue(c), 64);
  }

  lemma CharsNumber(s: string, q: string)
    requires |q| == 4
    ensures Number(PlacesOrZero(s + q), 64) == Number(PlacesOrZero(s), 64) * 16777216 + QuartetValue(q)
  {
    hide PlacesOrZero, Number, SextetValue;
    var s1 := s + [q[0]];
    var s2 := s1 + [q[1]];
    var s3 := s2 + [q[2]];
    CharMore(s, q[0]);
    CharMore(s1, q[1]);
    CharMore(s2, q[2]);
    CharMore(s3, q[3]);
    assert s + q == s3 + [q[3]];
  }

  lemma ValueNumber(bs: seq<Byte>, q: string)
    requires |q| == 4
    ensures Number(bs + Bytes(QuartetValue(q)), 256) == Number(bs, 256) * 16777216 + QuartetValue(q)
  {
    hide SextetValue, Number, Bytes;
    var t := QuartetValue(q);
    var b := Bytes(t);
    BytesNumber(bs, b[0], b[1], b[2], 0);
    assert [b[0], b[1], b[2]][..3] == b;
    BytesAdd(t);
  }

  lemma BytesAdd(t: int)
    requires 0 <= t < 16777216
    ensures Join(Bytes(t)[0], Bytes(t)[1], Bytes(t)[2]) == t
  {
    var x := t / 256;
    Shift8(t, x, t % 256);
    Shift8(x, x / 256, x % 256);
  }

  /** Decoding whole quartets without padding gives three bytes for each, which write in base 256 the
      number that the characters write in base 64. */
  lemma DecodedNumber(s: string)
    requires |s| % 4 == 0 && '=' !in s
    ensures |Decoded(s)| == |s| / 4 * 3 && Number(Decoded(s), 256) == Number(PlacesOrZero(s), 64)
  {
    hide UPPER, LOWER, DIGITS, ALPHABET, Number, Quartets, PlacesOrZero;
    var n := |s| / 4;
    assert 4 * n == |s| && s[..4 * n] == s;
    QuartetsNumber(s, n);
  }
}
