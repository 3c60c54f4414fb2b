/** The comparable stamps of src/cookie.c: a second and a count within it, compared by a
    difference that is cut to 32 bits on the way. */
module Cookies {

  const WORD := 0x1_0000_0000_0000_0000
  const HALF := 0x8000_0000

  /** An unsigned long. */
  type Word = x: int | 0 <= x < WORD

  datatype Cookie = Cookie(high: Word, low: Word)

  /** u_cookie_reset */
  const ZERO := Cookie(0, 0)

  /** u_cookie_inc */
  function Inc(ck: Cookie, now: Word): Cookie {
    if ck.high == now then Cookie(now, (ck.low + 1) % WORD) else Cookie(now, 0)
  }

  /** The unsigned difference as an int argument receives it. */
  function Int32(d: int): (r: int)
    ensures -HALF <= r < HALF
  {
    (d + HALF) % 0x1_0000_0000 - HALF
  }

  function Norm(x: int): int {
    if x < 0 then -1 else if x > 0 then 1 else 0
  }

  /** u_cookie_cmp */
  function Cmp(a: Cookie, b: Cookie): int {
    if a.high == b.high then Norm(Int32(a.low - b.low)) else Norm(Int32(a.high - b.high))
  }

  /** The order the stamps are meant to have. */
  predicate Before(a: Cookie, b: Cookie) {
    a.high < b.high || (a.high == b.high && a.low < b.low)
  }

  predicate UpTo(a: Cookie, b: Cookie) {
    a == b || Before(a, b)
  }

  lemma BeforeTransitive(a: Cookie, b: Cookie, c: Cookie)
    requires UpTo(a, b) && Before(b, c)
    ensures Before(a, c)
  {
  }

  /** How far a later stamp is ahead, in the component that decides. */
  function Gap(a: Cookie, b: Cookie): int {
    if a.high == b.high then b.low - a.low else b.high - a.high
  }

  lemma Cut(d: int)
    requires 0 < d
    ensures Int32(-d) < 0 <==> 0 < d % 0x1_0000_0000 <= HALF
    ensures Int32(d) > 0 <==> 0 < d % 0x1_0000_0000 < HALF
    ensures Int32(d) == 0 <==> d % 0x1_0000_0000 == 0
    ensures Int32(-d) == 0 <==> d % 0x1_0000_0000 == 0
  {
    var q, r := d / 0x1_0000_0000, d % 0x1_0000_0000;
    assert d == 0x1_0000_0000 * q + r;
    CutIs(d, q, r);
    if r == 0 {
      CutIs(-d, -q, 0);
    } else {
      CutIs(-d, -q - 1, 0x1_0000_0000 - r);
    }
  }

  lemma CutIs(d: int, q: int, r: int)
    requires d == 0x1_0000_0000 * q + r && 0 <= r < 0x1_0000_0000
    ensures Int32(d) == if r < HALF then r else r - 0x1_0000_0000
  {
    var s := if r < HALF then r + HALF else r - HALF;
    var k := if r < HALF then q else q + 1;
    assert d + HALF == 0x1_0000_0000 * k + s;
  }

  /** A comparison of two different stamps comes out right exactly when the gap, counted modulo
      2^32, is at most 2^31 (less, the other way round): once stamps are further apart the earlier
      one can compare as equal or later. */
  lemma CmpExact(a: Cookie, b: Cookie)
    requires Before(a, b)
    ensures Gap(a, b) > 0
    ensures Cmp(a, b) < 0 <==> 0 < Gap(a, b) % 0x1_0000_0000 <= HALF
    ensures Cmp(b, a) > 0 <==> 0 < Gap(a, b) % 0x1_0000_0000 < HALF
    ensures Cmp(a, b) == 0 <==> Gap(a, b) % 0x1_0000_0000 == 0
    ensures Cmp(b, a) == 0 <==> Gap(a, b) % 0x1_0000_0000 == 0
  {
    hide Int32;
    Cut(Gap(a, b));
  }

  lemma CmpSelf(a: Cookie)
    ensures Cmp(a, a) == 0
  {
  }

  predicate Near(a: Cookie, b: Cookie) {
    -HALF < Gap(a, b) < HALF
  }

  /** Stamps less than 2^31 apart compare as they should. */
  lemma CmpNear(a: Cookie, b: Cookie)
    requires Near(a, b)
    ensures Cmp(a, b) == if a == b then 0 else if Before(a, b) then -1 else 1
  {
    hide Cmp;
    if a == b {
      CmpSelf(a);
    } else if Before(a, b) {
      CmpExact(a, b);
      CmpRange(a, b);
    } else {
      CmpExact(b, a);
      CmpRange(a, b);
    }
  }

  lemma CmpRange(a: Cookie, b: Cookie)
    ensures -1 <= Cmp(a, b) <= 1
  {
  }

  /** With a clock that does not go back every increment makes a later stamp, of the present. */
  lemma IncLater(ck: Cookie, now: Word)
    requires ck.high <= now && ck.low < WORD - 1
    ensures Before(ck, Inc(ck, now)) && Inc(ck, now).high == now
    ensures Inc(ck, now).low <= ck.low + 1
  {
  }
}
