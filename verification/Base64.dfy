/** The base64 codec of src/util.c (section 4 of RFC 4648): an encoder that can be called piece
    by piece, reading its own state back from the padding it left in the buffer, and the decoder
    it uses for that. Shifts and masks on disjoint bits are written as arithmetic. */
module Base64 {

  type Byte = x: int | 0 <= x < 256

  /* ---------- the alphabet ---------- */

  /** The character of a six-bit value. */
  function Sextet(v: int): (c: char)
    requires 0 <= v < 64
  {
    if v < 26 then 'A' + v as char
    else if v < 52 then 'a' + (v - 26) as char
    else if v < 62 then '0' + (v - 52) as char
    else if v == 62 then '+' else '/'
  }

  /** The decoding table: '=' and characters outside the alphabet count as zero. */
  function SextetValue(c: char): (v: int)
    ensures 0 <= v < 64
  {
    if 'A' <= c <= 'Z' then c as int - 'A' as int
    else if 'a' <= c <= 'z' then c as int - 'a' as int + 26
    else if '0' <= c <= '9' then c as int - '0' as int + 52
    else if c == '+' then 62
    else if c == '/' then 63
    else 0
  }

  /** The table is injective, and padding is not in it. */
  lemma SextetRoundTrip(v: int)
    requires 0 <= v < 64
    ensures SextetValue(Sextet(v)) == v && Sextet(v) != '='
  {
  }

  /* ---------- three bytes as four sextets ---------- */

  function Join(b0: Byte, b1: Byte, b2: Byte): (t: int)
    ensures 0 <= t < 16777216
  {
    b0 * 65536 + b1 * 256 + b2
  }

  /** The `k`-th sextet of a 24-bit value, the high one first. */
  function Part(t: int, k: int): (v: int)
    requires 0 <= k < 4
    ensures 0 <= v < 64
    decreases 4 - k
  {
    if k == 3 then t % 64 else Part(t / 64, k + 1)
  }

  function Bytes(t: int): (b: seq<Byte>)
    ensures |b| == 3
  {
    [t / 256 / 256 % 256, t / 256 % 256, t % 256]
  }

  lemma PartsAre(t: int)
    ensures Part(t, 3) == t % 64 && Part(t, 2) == t / 64 % 64
    ensures Part(t, 1) == t / 64 / 64 % 64 && Part(t, 0) == t / 64 / 64 / 64 % 64
  {
    assert Part(t, 1) == Part(t / 64, 2) == Part(t / 64 / 64, 3);
    assert Part(t, 0) == Part(t / 64, 1) == Part(t / 64 / 64, 2);
  }

  lemma PartsJoin(t: int)
    requires 0 <= t < 16777216
    ensures Part(t, 0) * 262144 + Part(t, 1) * 4096 + Part(t, 2) * 64 + Part(t, 3) == t
  {
    hide Part;
    PartsAre(t);
  }

  lemma Shift6(t: int, x: int)
    requires t == 64 * x
    ensures t % 64 == 0 && t / 64 == x
  {
  }

  /** The padded positions hold no bits. */
  lemma PaddedParts(b0: Byte, b1: Byte)
    ensures Part(Join(b0, b1, 0), 3) == 0
    ensures Part(Join(b0, 0, 0), 2) == 0
  {
    Shift6(Join(b0, b1, 0), b0 * 1024 + b1 * 4);
    Shift6(Join(b0, 0, 0), b0 * 1024);
    Shift6(b0 * 1024, b0 * 16);
    assert Part(b0 * 1024, 3) == 0;
  }

  lemma Shift8(t: int, x: int, b: Byte)
    requires t == 256 * x + b
    ensures t % 256 == b && t / 256 == x
  {
  }

  lemma BytesJoin(b0: Byte, b1: Byte, b2: Byte)
    ensures Bytes(Join(b0, b1, b2)) == [b0, b1, b2]
  {
    Shift8(Join(b0, b1, b2), b0 * 256 + b1, b2);
    Shift8(b0 * 256 + b1, b0, b1);
    Shift8(b0, 0, b0);
  }

  /* ---------- the encoding as a function of the whole input ---------- */

  /** Four characters for the 24-bit value `t`, the last `pads` of them padding. */
  function Quartet(t: int, pads: nat): (q: string)
    requires pads <= 2
    ensures |q| == 4
  {
    [Sextet(Part(t, 0)), Sextet(Part(t, 1)),
     if pads == 2 then '=' else Sextet(Part(t, 2)), if pads >= 1 then '=' else Sextet(Part(t, 3))]
  }

  /** The encoding of the first `n` whole triples. */
  function Triples(bs: seq<Byte>, n: nat): (s: string)
    requires 3 * n <= |bs|
    ensures |s| == 4 * n
  {
    if n == 0 then ""
    else Triples(bs, n - 1) + Quartet(Join(bs[3 * n - 3], bs[3 * n - 2], bs[3 * n - 1]), 0)
  }

  /** The padded quartet of the one or two bytes left over from position `at` on. */
  function Tail(bs: seq<Byte>, at: nat): (s: string)
    requires at <= |bs| < at + 3
  {
    if |bs| == at then ""
    else if |bs| == at + 1 then Quartet(Join(bs[at], 0, 0), 2)
    else Quartet(Join(bs[at], bs[at + 1], 0), 1)
  }

  function Encoded(bs: seq<Byte>): (s: string)
  {
    Triples(bs, |bs| / 3) + Tail(bs, |bs| / 3 * 3)
  }

  /** The same with the number of triples given by its bounds. */
  lemma EncodedIs(bs: seq<Byte>, n: nat)
    requires 3 * n <= |bs| < 3 * n + 3
    ensures Encoded(bs) == Triples(bs, n) + Tail(bs, 3 * n)
    ensures |Encoded(bs)| == if |bs| == 3 * n then 4 * n else 4 * n + 4
  {
    hide Quartet, Triples, Join;
    assert |bs| / 3 == n;
  }

  lemma EncodedLength(bs: seq<Byte>)
    ensures |Encoded(bs)| == (|bs| + 2) / 3 * 4
  {
    hide Encoded, Triples, Tail;
    EncodedIs(bs, |bs| / 3);
    CeilDiv3(|bs|, |bs| / 3);
  }

  lemma CeilDiv3(len: nat, n: nat)
    requires 3 * n <= len < 3 * n + 3
    ensures (len + 2) / 3 == if len == 3 * n then n else n + 1
  {
  }

  /** There is always room for the quartet of a byte not yet written. */
  lemma Room(bs: seq<Byte>, n: nat)
    requires 3 * n < |bs|
    ensures 4 * n + 4 <= |Encoded(bs)|
  {
    hide Encoded, Triples, Tail;
    var m := |bs| / 3;
    EncodedIs(bs, m);
  }

  /** Whole triples encode independently of what follows. */
  lemma {:induction false} TriplesPrefix(a: seq<Byte>, b: seq<Byte>, n: nat)
    requires 3 * n <= |a|
    ensures Triples(a + b, n) == Triples(a, n)
  {
    if n > 0 {
      TriplesPrefix(a, b, n - 1);
    }
  }

  /* ---------- the decoding as a function of the whole input ---------- */

  function IsPad(c: char): int {
    if c == '=' then 1 else 0
  }

  /** The 24-bit value of a quartet of characters. */
  function QuartetValue(q: string): int
    requires |q| == 4
  {
    SextetValue(q[0]) * 262144 + SextetValue(q[1]) * 4096 + SextetValue(q[2]) * 64 + SextetValue(q[3])
  }

  /** How many of the `k` characters from `i` on are '=', counted modulo three. */
  function Pads(s: string, i: nat, k: nat): (n: int)
    requires i + k <= |s|
    ensures 0 <= n < 3
  {
    if k == 0 then 0 else (Pads(s, i, k - 1) + IsPad(s[i + k - 1])) % 3
  }

  /** The bytes a quartet stands for: three, less the padding. */
  function QuartetBytes(q: string): (b: seq<Byte>)
    requires |q| == 4
    ensures |b| == 3 - Pads(q, 0, 4)
  {
    Bytes(QuartetValue(q))[..3 - Pads(q, 0, 4)]
  }

  /** The bytes of the first `n` quartets. */
  function Quartets(s: string, n: nat): (b: seq<Byte>)
    requires 4 * n <= |s|
    ensures |b| <= 3 * n
  {
    if n == 0 then [] else Quartets(s, n - 1) + QuartetBytes(s[4 * n - 4..4 * n])
  }

  /** Every string decodes; an incomplete last quartet is dropped. */
  function Decoded(s: string): (b: seq<Byte>)
    ensures |b| <= |s| / 4 * 3
  {
    Quartets(s, |s| / 4)
  }

  /** What the decoder sees of a written quartet. */
  lemma QuartetChars(t: int, pads: nat)
    requires pads <= 2 && (pads >= 1 ==> Part(t, 3) == 0) && (pads == 2 ==> Part(t, 2) == 0)
    ensures var q := Quartet(t, pads);
            SextetValue(q[0]) == Part(t, 0) && SextetValue(q[1]) == Part(t, 1) &&
            SextetValue(q[2]) == Part(t, 2) && SextetValue(q[3]) == Part(t, 3)
    ensures var q := Quartet(t, pads);
            IsPad(q[0]) == IsPad(q[1]) == 0 && IsPad(q[2]) + IsPad(q[3]) == pads
  {
    SextetRoundTrip(Part(t, 0));
    SextetRoundTrip(Part(t, 1));
    SextetRoundTrip(Part(t, 2));
    SextetRoundTrip(Part(t, 3));
  }

  lemma PadsAtEnd(q: string)
    requires |q| == 4 && IsPad(q[0]) == IsPad(q[1]) == 0
    ensures Pads(q, 0, 4) == IsPad(q[2]) + IsPad(q[3])
  {
    assert Pads(q, 0, 1) == 0;
    assert Pads(q, 0, 2) == 0;
    assert Pads(q, 0, 3) == IsPad(q[2]);
  }

  /** A written quartet reads back. */
  lemma QuartetRoundTrip(b0: Byte, b1: Byte, b2: Byte, pads: nat)
    requires pads <= 2 && (pads >= 1 ==> b2 == 0) && (pads == 2 ==> b1 == 0)
    ensures QuartetBytes(Quartet(Join(b0, b1, b2), pads)) == [b0, b1, b2][..3 - pads]
  {
    hide Part, Join, Bytes, SextetValue, Quartet, IsPad, Pads;
    var t := Join(b0, b1, b2);
    PaddedParts(b0, b1);
    QuartetChars(t, pads);
    PadsAtEnd(Quartet(t, pads));
    PartsJoin(t);
    BytesJoin(b0, b1, b2);
  }

  lemma {:induction false} TriplesRoundTrip(bs: seq<Byte>, s: string, n: nat)
    requires 3 * n <= |bs| && 4 * n <= |s| && s[..4 * n] == Triples(bs, n)
    ensures Quartets(s, n) == bs[..3 * n]
  {
    hide Quartet, QuartetBytes, Join;
    if n > 0 {
      var q := Quartet(Join(bs[3 * n - 3], bs[3 * n - 2], bs[3 * n - 1]), 0);
      assert s[..4 * (n - 1)] == Triples(bs, n)[..4 * (n - 1)] == Triples(bs, n - 1);
      TriplesRoundTrip(bs, s, n - 1);
      assert s[4 * n - 4..4 * n] == s[..4 * n][4 * n - 4..] == q;
      QuartetRoundTrip(bs[3 * n - 3], bs[3 * n - 2], bs[3 * n - 1], 0);
      assert bs[..3 * n] == bs[..3 * (n - 1)] + [bs[3 * n - 3], bs[3 * n - 2], bs[3 * n - 1]];
    }
  }

  /** The padded last quartet reads back as the one or two bytes left over. */
  lemma TailRoundTrip(bs: seq<Byte>, at: nat)
    requires at < |bs| < at + 3
    ensures QuartetBytes(Tail(bs, at)) == bs[at..]
  {
    if |bs| == at + 1 {
      QuartetRoundTrip(bs[at], 0, 0, 2);
    } else {
      QuartetRoundTrip(bs[at], bs[at + 1], 0, 1);
    }
  }

  /** Decoding inverts encoding, for every byte sequence. */
  lemma RoundTrip(bs: seq<Byte>)
    ensures Decoded(Encoded(bs)) == bs
  {
    hide Quartet, QuartetBytes, Join, Tail, Triples;
    var s, n := Encoded(bs), |bs| / 3;
    EncodedIs(bs, n);
    assert s[..4 * n] == Triples(bs, n);
    TriplesRoundTrip(bs, s, n);
    if |bs| > 3 * n {
      assert s[4 * n..4 * n + 4] == Tail(bs, 3 * n);
      TailRoundTrip(bs, 3 * n);
      assert |s| / 4 == n + 1;
      assert Quartets(s, n + 1) == Quartets(s, n) + QuartetBytes(s[4 * n..4 * n + 4]);
    } else {
      assert |s| / 4 == n;
    }
  }

  /** Distinct inputs have distinct encodings. */
  lemma EncodedInjective(a: seq<Byte>, b: seq<Byte>)
    requires Encoded(a) == Encoded(b)
    ensures a == b
  {
    RoundTrip(a);
    RoundTrip(b);
  }

  /* ---------- the decoder ---------- */

  lemma {:induction false} PadsSlice(s: string, i: nat, k: nat)
    requires i + 4 <= |s| && k <= 4
    ensures Pads(s, i, k) == Pads(s[i..i + 4], 0, k)
  {
    if k > 0 {
      PadsSlice(s, i, k - 1);
    }
  }

  /** The four values and the padding count gathered for one quartet give its bytes. */
  lemma QuartetStep(s: string, n: nat, c: seq<int>, np: nat)
    requires 4 * n + 4 <= |s| && |c| == 4 && np == Pads(s, 4 * n, 4)
    requires forall k :: 0 <= k < 4 ==> c[k] == SextetValue(s[4 * n + k])
    ensures Quartets(s, n + 1) ==
            Quartets(s, n) + Bytes(c[0] * 262144 + c[1] * 4096 + c[2] * 64 + c[3])[..3 - np]
  {
    hide SextetValue, Bytes, Pads, QuartetValue;
    var q := s[4 * n..4 * n + 4];
    PadsSlice(s, 4 * n, 4);
    ValueSlice(s, 4 * n);
    assert QuartetBytes(q) == Bytes(QuartetValue(q))[..3 - np];
  }

  lemma ValueSlice(s: string, i: nat)
    requires i + 4 <= |s|
    ensures QuartetValue(s[i..i + 4]) ==
            SextetValue(s[i]) * 262144 + SextetValue(s[i + 1]) * 4096 +
            SextetValue(s[i + 2]) * 64 + SextetValue(s[i + 3])
  {
    hide SextetValue;
  }

  lemma StartDecode(s: string, i: nat)
    requires i <= |s|
    ensures Quartets(s, 0) == [] && Pads(s, i, 0) == 0
  {
  }

  lemma PadsStep(s: string, i: nat, k: nat)
    requires i + k < |s|
    ensures Pads(s, i, k + 1) == if s[i + k] == '=' then (Pads(s, i, k) + 1) % 3 else Pads(s, i, k)
    ensures s[i + k] == '=' ==> SextetValue(s[i + k]) == 0
  {
  }

  /** Nothing has changed outside this stretch. */
  ghost predicate SameBut<T>(was: seq<T>, now: seq<T>, lo: nat, hi: nat) {
    |was| == |now| && forall k :: 0 <= k < |was| && !(lo <= k < hi) ==> was[k] == now[k]
  }

  lemma SameButTwice<T>(a: seq<T>, b: seq<T>, c: seq<T>, lo: nat, hi: nat)
    requires SameBut(a, b, lo, hi) && SameBut(b, c, lo, hi)
    ensures SameBut(a, c, lo, hi)
  {
  }

  /** The sextets of the current quartet that have been read. */
  predicate Gathered(input: string, b: nat, c: seq<int>, nc: nat)
    requires b + nc <= |input|
  {
    |c| == 4 && nc <= 4 && forall k :: 0 <= k < nc ==> c[k] == SextetValue(input[b + k])
  }

  lemma Gather(input: string, b: nat, c: seq<int>, nc: nat)
    requires b + nc < |input| && nc < 4 && Gathered(input, b, c, nc)
    ensures |c| == 4
    ensures Gathered(input, b, c[nc := if input[b + nc] == '=' then 0 else SextetValue(input[b + nc])], nc + 1)
  {
    PadsStep(input, b, nc);
    hide SextetValue;
  }

  lemma NoneGathered(input: string, b: nat, c: seq<int>)
    requires b <= |input| && |c| == 4
    ensures Gathered(input, b, c, 0)
  {
  }

  /** What the loop has done after `n` quartets and `nc` characters more. */
  ghost predicate Midway(input: string, out: array<Byte>, at: nat, written: nat, n: nat, c: seq<int>, nc: nat, np: nat)
    reads out
  {
    4 * n + nc <= |input| && nc < 4 && Gathered(input, 4 * n, c, nc) && np == Pads(input, 4 * n, nc) &&
    written == |Quartets(input, n)| && at + written <= out.Length && out[at..at + written] == Quartets(input, n)
  }

  /** One character; the fourth of a quartet writes its bytes. */
  method DecodeChar(input: string, out: array<Byte>, at: nat, written: nat, ghost n: nat, c: seq<int>, nc: nat, np: nat, i: nat,
      ghost end: nat) returns (written': nat, ghost n': nat, c': seq<int>, nc': nat, np': nat)
    requires Midway(input, out, at, written, n, c, nc, np) && i == 4 * n + nc < |input|
    requires at + |input| / 4 * 3 == end <= out.Length
    modifies out
    ensures Midway(input, out, at, written', n', c', nc', np') && i + 1 == 4 * n' + nc'
    ensures SameBut(old(out[..]), out[..], at, end)
  {
    hide SextetValue, Pads, Quartets, Gathered, SameBut;
    written', n' := written, n;
    PadsStep(input, 4 * n, nc);
    Gather(input, 4 * n, c, nc);
    c' := c[nc := if input[i] == '=' then 0 else SextetValue(input[i])];
    np' := if input[i] == '=' then (np + 1) % 3 else np;
    nc' := nc + 1;
    if nc' < 4 {
      SameAll(out[..], at, end);
      return;
    }
    RoomLeft(input, n);
    PutBytes(input, out, at, written, c', np', n, end);
    written', n' := written + (3 - np'), n + 1;
    nc', np' := 0, 0;
    StartDecode(input, 4 * n');
    NoneGathered(input, 4 * n', c');
  }

  /** base64_decode: every quartet writes three bytes and then advances by fewer when padded, so
      nothing is written past three bytes a quartet. */
  method Decode(input: string, out: array<Byte>, at: nat) returns (written: nat)
    requires at + |input| / 4 * 3 <= out.Length
    modifies out
    ensures written == |Decoded(input)|
    ensures out[at..at + written] == Decoded(input)
    ensures forall k :: 0 <= k < out.Length && !(at <= k < at + |input| / 4 * 3) ==> out[k] == old(out[k])
  {
    hide Midway;
    written := 0;
    var nc, np := 0, 0;
    var c := [0, 0, 0, 0];
    ghost var n, end := 0, at + |input| / 4 * 3;
    DecodeStart(input, out, at, c);
    for i := 0 to |input|
      invariant 0 <= written && 0 <= n && 0 <= nc && 0 <= np && i == 4 * n + nc
      invariant Midway(input, out, at, written, n, c, nc, np) && SameBut(old(out[..]), out[..], at, end)
    {
      hide SameBut;
      ghost var was := out[..];
      written, n, c, nc, np := DecodeChar(input, out, at, written, n, c, nc, np, i, end);
      SameButTwice(old(out[..]), was, out[..], at, end);
    }
    DecodeEnd(input, out, at, written, n, c, nc, np);
  }

  lemma DecodeStart(input: string, out: array<Byte>, at: nat, c: seq<int>)
    requires |c| == 4 && at <= out.Length
    ensures Midway(input, out, at, 0, 0, c, 0, 0)
  {
    StartDecode(input, 0);
    NoneGathered(input, 0, c);
  }

  lemma DecodeEnd(input: string, out: array<Byte>, at: nat, written: nat, n: nat, c: seq<int>, nc: nat, np: nat)
    requires Midway(input, out, at, written, n, c, nc, np) && 4 * n + nc == |input|
    ensures written == |Decoded(input)| && at + written <= out.Length && out[at..at + written] == Decoded(input)
  {
    hide Gathered, Pads, Quartets;
    assert n == |input| / 4;
  }

  lemma SameAll<T>(a: seq<T>, lo: nat, hi: nat)
    ensures SameBut(a, a, lo, hi)
  {
  }

  lemma RoomLeft(input: string, n: nat)
    requires 4 * n + 4 <= |input|
    ensures |Quartets(input, n)| + 3 <= |input| / 4 * 3
  {
    hide Quartets;
    assert |Quartets(input, n)| <= 3 * n;
  }

  /** A quartet is complete: its bytes go behind the ones before. */
  method PutBytes(ghost input: string, out: array<Byte>, at: nat, written: nat, c: seq<int>, np: nat, ghost n: nat,
      ghost end: nat)
    requires 4 * n + 4 <= |input| && Gathered(input, 4 * n, c, 4) && np == Pads(input, 4 * n, 4)
    requires written == |Quartets(input, n)| && at + written + 3 <= end <= out.Length
    requires out[at..at + written] == Quartets(input, n)
    modifies out
    ensures |Quartets(input, n + 1)| == written + (3 - np)
    ensures out[at..at + written + (3 - np)] == Quartets(input, n + 1)
    ensures SameBut(old(out[..]), out[..], at, end)
  {
    hide SextetValue, Bytes, Pads, Quartets;
    QuartetStep(input, n, c, np);
    WriteTriple(out, at + written, c[0] * 262144 + c[1] * 4096 + c[2] * 64 + c[3], 3 - np, at);
  }

  /** ob[0], ob[1] and ob[2] are written whatever the padding; `keep` of them count. */
  method WriteTriple(out: array<Byte>, o: nat, triple: int, ghost keep: nat, ghost from: nat)
    requires from <= o && o + 3 <= out.Length && keep <= 3
    modifies out
    ensures forall k :: 0 <= k < out.Length && !(o <= k < o + 3) ==> out[k] == old(out[k])
    ensures out[from..o + keep] == old(out[from..o]) + Bytes(triple)[..keep]
  {
    out[o] := triple / 256 / 256 % 256;
    out[o + 1] := triple / 256 % 256;
    out[o + 2] := triple % 256;
  }

  /* ---------- the resumable encoder ---------- */

  /** The accumulator holding `k` bytes from position `at` on. */
  function Accumulated(bs: seq<Byte>, at: nat, k: nat): int
    requires at + k <= |bs| && k < 3
  {
    if k == 0 then 0 else if k == 1 then bs[at] else Join(0, bs[at], bs[at + 1])
  }

  method WriteQuartet(out: array<char>, o: nat, triple: int, pads: nat)
    requires o + 4 <= out.Length && pads <= 2
    modifies out
    ensures out[..o + 4] == old(out[..o]) + Quartet(triple, pads)
    ensures forall k :: 0 <= k < out.Length && !(o <= k < o + 4) ==> out[k] == old(out[k])
  {
    out[o] := Sextet(Part(triple, 0));
    out[o + 1] := Sextet(Part(triple, 1));
    if pads == 2 {
      out[o + 2] := '=';
    } else {
      out[o + 2] := Sextet(Part(triple, 2));
    }
    if pads >= 1 {
      out[o + 3] := '=';
    } else {
      out[o + 3] := Sextet(Part(triple, 3));
    }
  }

  /** The buffer ends in '=' exactly when bytes were left over, and its last quartet then decodes
      to exactly those bytes. */
  lemma Resume(bs: seq<Byte>, n: nat)
    requires 3 * n <= |bs| < 3 * n + 3
    ensures var s := Encoded(bs);
            if |bs| == 3 * n then |s| < 4 || s[|s| - 1] != '='
            else |s| >= 4 && s[|s| - 1] == '=' && Decoded(s[|s| - 4..]) == bs[3 * n..]
  {
    hide Encoded, Quartet, Decoded, Triples, Tail;
    var s := Encoded(bs);
    EncodedIs(bs, n);
    if |bs| == 3 * n {
      if n > 0 {
        NextTriple(bs, n - 1);
        LastChar(Join(bs[3 * n - 3], bs[3 * n - 2], bs[3 * n - 1]), 0);
      }
    } else {
      assert s[|s| - 4..] == Tail(bs, 3 * n);
      assert s[|s| - 1] == Tail(bs, 3 * n)[3];
      TailIsPadded(bs, 3 * n);
    }
  }

  lemma LastChar(t: int, pads: nat)
    requires pads <= 2
    ensures Quartet(t, pads)[3] == '=' <==> pads >= 1
  {
    hide Part;
    SextetRoundTrip(Part(t, 3));
  }

  lemma TailIsPadded(bs: seq<Byte>, at: nat)
    requires at < |bs| < at + 3
    ensures |Tail(bs, at)| == 4 && Tail(bs, at)[3] == '=' && Decoded(Tail(bs, at)) == bs[at..]
  {
    hide Quartet, QuartetBytes, Join;
    var q := Tail(bs, at);
    TailRoundTrip(bs, at);
    LastChar(Join(bs[at], 0, 0), 2);
    if |bs| == at + 2 {
      LastChar(Join(bs[at], bs[at + 1], 0), 1);
    }
    assert q[0..4] == q && Quartets(q, 1) == Quartets(q, 0) + QuartetBytes(q);
  }

  lemma AccumulateStep(bs: seq<Byte>, at: nat, k: nat)
    requires at + k < |bs| && k < 3
    ensures Accumulated(bs, at, k) * 256 + bs[at + k] ==
            if k < 2 then Accumulated(bs, at, k + 1) else Join(bs[at], bs[at + 1], bs[at + 2])
  {
  }

  lemma AccumulatedPrefix(a: seq<Byte>, b: seq<Byte>, at: nat, k: nat)
    requires at + k <= |a| && k < 3
    ensures Accumulated(a + b, at, k) == Accumulated(a, at, k)
  {
  }

  lemma EmptyAccumulator(bs: seq<Byte>, at: nat)
    requires at <= |bs|
    ensures Accumulated(bs, at, 0) == 0
  {
  }

  lemma AccumulatedTail(bs: seq<Byte>, at: nat, k: nat)
    requires at + k == |bs| && k < 3
    ensures k == 0 ==> Tail(bs, at) == ""
    ensures k == 1 ==> Tail(bs, at) == Quartet(Accumulated(bs, at, k) * 65536, 2)
    ensures k == 2 ==> Tail(bs, at) == Quartet(Accumulated(bs, at, k) * 256, 1)
  {
    hide Quartet;
  }

  lemma NextTriple(bs: seq<Byte>, n: nat)
    requires 3 * n + 3 <= |bs|
    ensures Triples(bs, n + 1) == Triples(bs, n) + Quartet(Join(bs[3 * n], bs[3 * n + 1], bs[3 * n + 2]), 0)
  {
    hide Quartet, Join;
  }

  /** The state in which the encoder resumes: where the next whole quartet goes, the accumulator
      and how many bytes it holds; `n` triples are already written for good. */
  method LoadState(out: array<char>, cur: nat, ghost before: seq<Byte>)
      returns (o: nat, triple: int, nb: nat, ghost n: nat)
    requires cur == |Encoded(before)| && cur <= out.Length && out[..cur] == Encoded(before)
    ensures 3 * n + nb == |before| && nb < 3
    ensures o == 4 * n && cur == (if nb == 0 then o else o + 4) && out[..o] == Triples(before, n)
    ensures triple == Accumulated(before, 3 * n, nb)
  {
    hide Decoded, Tail, Join, Triples, Encoded;
    o, triple, nb := cur, 0, 0;
    n := |before| / 3;
    Resume(before, n);
    EncodedIs(before, n);
    assert out[..4 * n] == Encoded(before)[..4 * n];
    if cur >= 4 && out[cur - 1] == '=' {
      o := cur - 4;
      var joinbuf := new Byte[3](_ => 0);
      assert out[o..cur] == Encoded(before)[o..];
      nb := Decode(out[o..cur], joinbuf, 0);
      ghost var jb := joinbuf[0..nb];
      for i := 0 to nb
        invariant joinbuf[0..nb] == jb
        invariant triple == Accumulated(before, 3 * n, i)
      {
        AccumulateStep(before, 3 * n, i);
        assert joinbuf[i] == jb[i] == before[3 * n + i];
        triple := triple * 256 + joinbuf[i];
      }
    }
  }

  /** Three bytes are complete: their quartet goes behind the ones before. */
  method PutTriple(out: array<char>, o: nat, triple: int, ghost all: seq<Byte>, ghost n: nat)
    requires 3 * n + 3 <= |all| && triple == Join(all[3 * n], all[3 * n + 1], all[3 * n + 2])
    requires o == 4 * n <= out.Length && out[..o] == Triples(all, n) && |Encoded(all)| <= out.Length
    modifies out
    ensures o + 4 <= out.Length && out[..o + 4] == Triples(all, n + 1)
    ensures forall i :: o + 4 <= i < out.Length ==> out[i] == old(out[i])
  {
    hide Quartet, Join, Triples, Encoded;
    NextTriple(all, n);
    Room(all, n);
    WriteQuartet(out, o, triple, 0);
  }

  /** The final switch: two bytes left over, one, or none. */
  method WriteTail(out: array<char>, o: nat, triple: int, nb: nat, ghost all: seq<Byte>, ghost n: nat)
      returns (k: nat)
    requires 3 * n + nb == |all| && nb < 3 && triple == Accumulated(all, 3 * n, nb)
    requires o == 4 * n <= out.Length && out[..o] == Triples(all, n)
    requires |Encoded(all)| <= out.Length
    modifies out
    ensures o + k == |Encoded(all)| && out[..o + k] == Encoded(all)
    ensures forall i :: o + k <= i < out.Length ==> out[i] == old(out[i])
  {
    hide Quartet, Join, Accumulated, Tail, Triples, Encoded;
    k := 0;
    AccumulatedTail(all, 3 * n, nb);
    EncodedIs(all, n);
    if nb == 2 {
      WriteQuartet(out, o, triple * 256, 1);
      k := 4;
    } else if nb == 1 {
      WriteQuartet(out, o, triple * 65536, 2);
      k := 4;
    }
  }

  /** base64_encode called on one more piece: from a buffer holding the encoding of what came
      before, it leaves the encoding of everything so far, touches nothing beyond it and returns
      how far the end moved. */
  method Encode(input: seq<Byte>, out: array<char>, cur: nat, ghost before: seq<Byte>) returns (moved: int)
    requires cur == |Encoded(before)| && cur <= out.Length && out[..cur] == Encoded(before)
    requires |Encoded(before + input)| <= out.Length
    modifies out
    ensures cur + moved == |Encoded(before + input)|
    ensures out[..cur + moved] == Encoded(before + input)
    ensures forall k :: cur <= k < out.Length && cur + moved <= k ==> out[k] == old(out[k])
  {
    hide Quartet, Join, Accumulated, Tail, Triples, Encoded;
    ghost var all := before + input;
    ghost var n;
    var o, triple, nb;
    o, triple, nb, n := LoadState(out, cur, before);
    TriplesPrefix(before, input, n);
    assert triple == Accumulated(all, 3 * n, nb) by { AccumulatedPrefix(before, input, 3 * n, nb); }
    var j := 0;
    for i := 0 to |input|
      invariant 3 * n + nb == |before| + i && 0 <= nb < 3
      invariant triple == Accumulated(all, 3 * n, nb)
      invariant o + j == 4 * n <= out.Length && out[..o + j] == Triples(all, n)
      invariant forall k :: cur <= k < out.Length && o + j <= k ==> out[k] == old(out[k])
    {
      AccumulateStep(all, 3 * n, nb);
      triple := triple * 256 + input[i];
      nb := nb + 1;
      if nb == 3 {
        PutTriple(out, o + j, triple, all, n);
        j, n := j + 4, n + 1;
        nb, triple := 0, 0;
        EmptyAccumulator(all, 3 * n);
      }
    }
    var k := WriteTail(out, o + j, triple, nb, all, n);
    moved := o + j + k - cur;
  }

  /* ---------- decoding block by block ---------- */

  lemma {:induction false} QuartetsPrefix(a: string, b: string, n: nat)
    requires 4 * n <= |a|
    ensures Quartets(a + b, n) == Quartets(a, n)
  {
    hide QuartetBytes;
    if n > 0 {
      QuartetsPrefix(a, b, n - 1);
      assert (a + b)[4 * n - 4..4 * n] == a[4 * n - 4..4 * n];
    }
  }

  lemma {:induction false} QuartetsConcat(a: string, b: string, m: nat, n: nat)
    requires |a| == 4 * m && 4 * n <= |b|
    ensures Quartets(a + b, m + n) == Quartets(a, m) + Quartets(b, n)
  {
    hide QuartetBytes, Quartets;
    if n == 0 {
      QuartetsPrefix(a, b, m);
      StartDecode(b, 0);
    } else {
      QuartetsConcat(a, b, m, n - 1);
      NextOfSecond(a, b, m, n - 1);
      NextQuartet(b, n - 1);
    }
  }

  lemma NextQuartet(s: string, n: nat)
    requires 4 * n + 4 <= |s|
    ensures Quartets(s, n + 1) == Quartets(s, n) + QuartetBytes(s[4 * n..4 * n + 4])
  {
    hide QuartetBytes;
  }

  lemma NextOfSecond(a: string, b: string, m: nat, n: nat)
    requires |a| == 4 * m && 4 * n + 4 <= |b|
    ensures Quartets(a + b, m + n + 1) == Quartets(a + b, m + n) + QuartetBytes(b[4 * n..4 * n + 4])
  {
    hide QuartetBytes, Quartets;
    NextQuartet(a + b, m + n);
    assert (a + b)[4 * (m + n)..4 * (m + n) + 4] == b[4 * n..4 * n + 4];
  }

  /** Text cut at a multiple of four characters decodes piece by piece. */
  lemma DecodedBlocks(a: string, b: string)
    requires |a| % 4 == 0
    ensures Decoded(a + b) == Decoded(a) + Decoded(b)
  {
    hide Quartets;
    var m, n := |a| / 4, |b| / 4;
    QuartetsConcat(a, b, m, n);
    assert |a + b| / 4 == m + n;
  }

  lemma DecodedNothing()
    ensures Decoded("") == []
  {
  }

  lemma EncodedNothing()
    ensures Encoded([]) == ""
  {
  }

  /* ---------- buffer sizes and byte strings in JSON ---------- */

  function InflateSize(len: nat): nat {
    (len + 2) / 3 * 4 + 1
  }

  /** A buffer of base64_inflate_size is enough for any part of the input. */
  lemma EncodedFits(bs: seq<Byte>, len: nat)
    requires |bs| <= len
    ensures |Encoded(bs)| < InflateSize(len)
  {
    hide Encoded;
    EncodedLength(bs);
  }

  function DeflateSize(len: nat): nat {
    len / 4 * 3 + 3
  }

  /** json_ogetb64: the decoded bytes, or nothing when the size estimate exceeds the buffer. */
  datatype Fetched = TooBig | Got(bytes: seq<Byte>)

  function GetB64(s: string, bufLen: nat): (r: Fetched) {
    if DeflateSize(|s|) > bufLen then TooBig else Got(Decoded(s))
  }

  /** The estimate is generous by up to five bytes, so a value that fits the buffer can be
      refused: what comes back is exactly what was stored, or nothing, and which of the two is
      decided by the length alone. */
  lemma GetB64RoundTrip(bs: seq<Byte>, bufLen: nat)
    ensures GetB64(Encoded(bs), bufLen) ==
            if (|bs| + 2) / 3 * 3 + 3 <= bufLen then Got(bs) else TooBig
  {
    hide Encoded, Decoded;
    RoundTrip(bs);
    EncodedLength(bs);
  }

  /** For the 2048-byte link buffer the real limit is 2043 bytes. */
  lemma LinkBufferLimit(bs: seq<Byte>)
    ensures GetB64(Encoded(bs), 2048) == if |bs| <= 2043 then Got(bs) else TooBig
  {
    hide GetB64, Encoded;
    GetB64RoundTrip(bs, 2048);
  }
}
