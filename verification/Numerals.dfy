/** What atoi and %d do with numbers, said by the digits and their places. */
module Numerals {
  import opened Common
  import opened ModeSpec

  predicate AllDigits(s: string) {
    forall i :: 0 <= i < |s| ==> '0' <= s[i] <= '9'
  }

  predicate AllBlank(s: string) {
    forall i :: 0 <= i < |s| ==> s[i] == ' ' || s[i] == '\t' || s[i] == '\n' || s[i] as int == 11 || s[i] as int == 12 || s[i] == '\r'
  }

  /** The digits as numbers. */
  function Values(s: string): (d: seq<int>)
    requires AllDigits(s)
    ensures |d| == |s| && forall i :: 0 <= i < |s| ==> d[i] == s[i] as int - 48
  {
    seq(|s|, i requires 0 <= i < |s| => s[i] as int - 48)
  }

  /** Digits is Number of the leading digits; nothing behind them counts. */
  lemma {:induction false} DigitsIs(ds: string, rest: string)
    requires AllDigits(ds) && (rest == "" || !('0' <= rest[0] <= '9'))
    ensures Digits(ds + rest, 0) == Number(Values(ds), 10)
  {
    DigitsConcat(ds, rest, 0);
    assert Digits(rest, Digits(ds, 0)) == Digits(ds, 0);
    DigitsNumber(ds);
  }

  lemma {:induction false} DigitsNumber(ds: string)
    requires AllDigits(ds)
    ensures Digits(ds, 0) == Number(Values(ds), 10)
  {
    if ds != "" {
      var k := |ds| - 1;
      var init, last := ds[..k], [ds[k]];
      assert ds == init + last;
      DigitsNumber(init);
      DigitsConcat(init, last, 0);
      assert Digits(last, Digits(init, 0)) == Digits(init, 0) * 10 + Values(ds)[k] by {
        assert last[1..] == "";
      }
      assert Values(ds) == Values(init) + [Values(ds)[k]];
      NumberSnoc(Values(init), Values(ds)[k], 10);
    }
  }

  lemma {:induction false} AtoiSkips(sp: string, s: string)
    requires AllBlank(sp)
    ensures Atoi(sp + s) == Atoi(s)
  {
    if sp == "" {
      assert sp + s == s;
    } else {
      assert (sp + s)[1..] == sp[1..] + s;
      AtoiSkips(sp[1..], s);
    }
  }

  predicate IsSign(sign: string) {
    sign == "" || sign == "+" || sign == "-"
  }

  function Signed(sign: string, n: int): int {
    if sign == "-" then -n else n
  }

  /** What is behind the digits is not one more of them, nor a sign or a blank that would be read first. */
  predicate Stops(sign: string, ds: string, rest: string) {
    rest == "" ||
    (!('0' <= rest[0] <= '9') && (sign == "" && ds == "" ==> rest[0] != '+' && rest[0] != '-' && !AllBlank(rest[..1])))
  }

  /** White space, at most one sign, digits, and anything that is not a digit behind them: atoi gives
      the number the digits write, negated behind '-'. From 2^31 on it gives what is left of it in 32
      bits, and from 2^63 on, where it saturates, -1, or 0 behind '-'. */
  lemma AtoiReads(sp: string, sign: string, ds: string, rest: string)
    requires AllBlank(sp) && IsSign(sign) && AllDigits(ds) && Stops(sign, ds, rest)
    ensures var v, r := Signed(sign, Number(Values(ds), 10)), Atoi(sp + (sign + (ds + rest)));
            -0x8000_0000 <= r < 0x8000_0000 &&
            (-0x8000_0000 <= v < 0x8000_0000 ==> r == v) &&
            (-0x8000_0000_0000_0000 <= v < 0x8000_0000_0000_0000 ==> (r - v) % 0x1_0000_0000 == 0) &&
            (v >= 0x8000_0000_0000_0000 ==> r == -1) && (v < -0x8000_0000_0000_0000 ==> r == 0)
  {
    AtoiSkips(sp, sign + (ds + rest));
    DigitsIs(ds, rest);
    AtoiSigned(sign, ds, rest);
    NarrowIs(Signed(sign, Number(Values(ds), 10)));
    hide Atoi, Digits, Number, Saturate, ToInt32, Stops, IsSign, AllBlank, Signed;
  }

  lemma AtoiSigned(sign: string, ds: string, rest: string)
    requires IsSign(sign) && AllDigits(ds) && Stops(sign, ds, rest)
    ensures Atoi(sign + (ds + rest)) == ToInt32(Saturate(Signed(sign, Digits(ds + rest, 0))))
  {
    hide Digits, Saturate, ToInt32;
    var s := ds + rest;
    if sign == "" {
      assert sign + s == s;
      assert s != "" ==> s[0] == if ds == "" then rest[0] else ds[0];
      assert s != "" && ds == "" ==> rest[..1] == [s[0]];
    } else {
      assert (sign + s)[1..] == s && (sign + s)[0] == sign[0];
    }
  }

  lemma NarrowIs(v: int)
    ensures var r := ToInt32(Saturate(v));
            -0x8000_0000 <= r < 0x8000_0000 &&
            (-0x8000_0000 <= v < 0x8000_0000 ==> r == v) &&
            (-0x8000_0000_0000_0000 <= v < 0x8000_0000_0000_0000 ==> (r - v) % 0x1_0000_0000 == 0) &&
            (v >= 0x8000_0000_0000_0000 ==> r == -1) && (v < -0x8000_0000_0000_0000 ==> r == 0)
  {
  }

  /** %d of a number: digits that write it, with no zero in front. */
  lemma {:induction false} DecimalWrites(n: nat)
    ensures AllDigits(Decimal(n)) && Number(Values(Decimal(n)), 10) == n
    ensures Decimal(n) != "" && (n > 0 ==> Decimal(n)[0] != '0') && (n == 0 ==> Decimal(n) == "0")
  {
    DigitsOfDecimal(n);
    assert Decimal(n) + "" == Decimal(n);
    DigitsNumber(Decimal(n));
    DecimalStarts(n);
  }

  lemma {:induction false} DecimalStarts(n: nat)
    ensures (n > 0 ==> Decimal(n)[0] != '0') && (n == 0 ==> Decimal(n) == "0")
  {
    if n >= 10 {
      DecimalStarts(n / 10);
    }
  }
}
