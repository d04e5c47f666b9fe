/** What the digits of a number mean, in base ten. */
module Numerals {
  import opened CString
  import opened JsonCodes
  import opened JsonParser
  import opened JsonSyntax
  import opened JsonComplete

  type digit = d: nat | d < 10

  /** The number that the digits stand for. */
  function Decimal(ds: seq<digit>): nat {
    if ds == [] then 0 else 10 * Decimal(ds[..|ds| - 1]) + ds[|ds| - 1]
  }

  function Zeros(n: nat): (ds: seq<digit>)
    ensures |ds| == n
  {
    seq(n, _ => 0)
  }

  /** Written 1 with n zeros behind it. */
  function OneAndZeros(n: nat): nat {
    Decimal([1] + Zeros(n))
  }

  /** The digits of a text. */
  function DigitsOf(t: Str): (ds: seq<digit>)
    requires AreDigits(t)
    ensures |ds| == Len(t)
  {
    if t.Nul? then [] else [t.c - 48] + DigitsOf(t.rest)
  }

  lemma DecimalNext(ds: seq<digit>, d: digit)
    ensures Decimal(ds + [d]) == 10 * Decimal(ds) + d
  {
    assert (ds + [d])[..|ds|] == ds;
  }

  lemma MoreZeros(ds: seq<digit>, n: nat)
    ensures Decimal(ds + Zeros(n + 1)) == 10 * Decimal(ds + Zeros(n))
  {
    assert ds + Zeros(n + 1) == ds + Zeros(n) + [0];
    DecimalNext(ds + Zeros(n), 0);
  }

  lemma OneAlone()
    ensures OneAndZeros(0) == 1
  {
    assert [1] + Zeros(0) == [] + [1];
    DecimalNext([], 1);
  }

  /** Zeros at the end multiply. */
  lemma {:induction false} ZerosMultiply(ds: seq<digit>, n: nat)
    ensures Decimal(ds + Zeros(n)) == Decimal(ds) * OneAndZeros(n)
  {
    if n == 0 {
      assert ds + Zeros(0) == ds;
      hide Decimal;
      OneAlone();
    } else {
      ZerosMultiply(ds, n - 1);
      MoreZeros(ds, n - 1);
      MoreZeros([1], n - 1);
      hide Decimal;
      TenTimes(Decimal(ds), OneAndZeros(n - 1));
    }
  }

  lemma TenTimes(d: nat, z: nat)
    ensures 10 * (d * z) == d * (10 * z)
  {
  }

  lemma {:induction false} DigitsValueIs(front: seq<digit>, t: Str)
    requires AreDigits(t)
    ensures DigitsValue(t, Decimal(front)) == Decimal(front + DigitsOf(t))
    decreases t
  {
    if t.Nul? {
      assert front + DigitsOf(t) == front;
    } else {
      DecimalNext(front, t.c - 48);
      DigitsValueIs(front + [t.c - 48], t.rest);
      assert front + DigitsOf(t) == front + [t.c - 48] + DigitsOf(t.rest);
    }
  }

  // ---- powers of ten ----

  lemma PowerNext(e: int)
    ensures Pow10(e + 1) == 10.0 * Pow10(e)
  {
  }

  lemma {:induction false} PowerShift(e: int, n: nat)
    ensures Pow10(e) * OneAndZeros(n) as real == Pow10(e + n)
  {
    hide Pow10, Decimal, Zeros;
    if n == 0 {
      OneAlone();
    } else {
      PowerShift(e, n - 1);
      MoreZeros([1], n - 1);
      hide OneAndZeros;
      PowerNext(e + n - 1);
      Tenfold(Pow10(e), OneAndZeros(n - 1));
    }
  }

  lemma Tenfold(p: real, n: nat)
    ensures p * (10 * n) as real == 10.0 * (p * n as real)
  {
    assert (10 * n) as real == 10.0 * n as real;
  }

  // ---- numbers ----

  /** What a number without its sign comes to, times 1 with as many zeros as it has digits behind the
      point and its negative exponent says, is the number that all its digits make with as many zeros
      behind them as its positive exponent says. */
  lemma NumberMeans(n: Num, k: Str)
    requires WfNum(n) && Follow(k)
    ensures var r, rest := ParseNumber(NumText(n, k)).0, ParseNumber(NumText(n, k)).1;
      var ds, places := DigitsOf(n.digits) + DigitsOf(n.frac), Len(n.frac);
      var x := if n.exp.Exp? then Decimal(DigitsOf(n.exp.digits)) else 0;
      var (up, down) := if n.exp.Exp? && n.exp.sign.MinusSign? then (0, x) else (x, 0);
      && rest == k
      && (if n.negative then -r else r) * OneAndZeros(places + down) as real == Decimal(ds + Zeros(up)) as real
  {
    hide ParseNumber, NumText, Decimal, OneAndZeros, DigitsValue, DigitsOf, Pow10, Zeros;
    var ds, places := DigitsOf(n.digits) + DigitsOf(n.frac), Len(n.frac);
    var x := if n.exp.Exp? then Decimal(DigitsOf(n.exp.digits)) else 0;
    var (up, down) := if n.exp.Exp? && n.exp.sign.MinusSign? then (0, x) else (x, 0);
    NumComplete(n, k);
    MantissaIs(n);
    if n.exp.Exp? { ExponentIs(n.exp); }
    ScaledMeans(Decimal(ds), up, down, places);
    ZerosMultiply(ds, up);
  }

  lemma MantissaIs(n: Num)
    requires WfNum(n)
    ensures DigitsValue(n.frac, DigitsValue(n.digits, 0)) == Decimal(DigitsOf(n.digits) + DigitsOf(n.frac))
  {
    DigitsValueIs([], n.digits);
    DigitsValueIs(DigitsOf(n.digits), n.frac);
    assert [] + DigitsOf(n.digits) == DigitsOf(n.digits);
  }

  lemma ExponentIs(x: Exponent)
    requires WfExp(x) && x.Exp?
    ensures DigitsValue(x.digits, 0) == Decimal(DigitsOf(x.digits))
  {
    DigitsValueIs([], x.digits);
    assert [] + DigitsOf(x.digits) == DigitsOf(x.digits);
  }

  lemma ScaledMeans(m: nat, up: nat, down: nat, places: nat)
    ensures Scaled(true, m, up - down - places) == -Scaled(false, m, up - down - places)
    ensures Scaled(false, m, up - down - places) * OneAndZeros(places + down) as real == (m * OneAndZeros(up)) as real
  {
    hide Pow10, OneAndZeros;
    var e := up - down - places;
    PowerShift(e, places + down);
    PowerShift(0, up);
    assert Pow10(0) == 1.0 by { PowerZero(); }
    Regroup(m as real, Pow10(e), OneAndZeros(places + down) as real);
  }

  lemma PowerZero()
    ensures Pow10(0) == 1.0
  {
  }

  lemma Regroup(m: real, p: real, t: real)
    ensures m * p * t == m * (p * t)
  {
  }
}
