/** The bits of a non-negative int, and pow2gt, which works on them. */
module Int32Bits {

  function Half(b: bv32): bv32 {
    b >> 1
  }

  predicate Odd(b: bv32) {
    b & 1 == 1
  }

  function Next(b: bv32): bv32 {
    b + 1
  }

  predicate AtMost(a: bv32, b: bv32) {
    a <= b
  }

  /** The 32 bits of n, which is counted up to modulo 2^32. */
  function Bits(n: nat): bv32 {
    if n == 0 then 0 else Next(Bits(n - 1))
  }

  lemma Halved(b: bv32)
    requires b != 0
    ensures Half(b) < b && Half(b) != 0xffff_ffff
  {
  }

  /** The number that the bits stand for. */
  function Value(b: bv32): (n: nat)
    decreases b
  {
    if b == 0 then 0 else
    Halved(b);
    2 * Value(Half(b)) + (if Odd(b) then 1 else 0)
  }

  lemma HalfOrder(a: bv32, b: bv32)
    requires AtMost(a, b)
    ensures AtMost(Half(a), Half(b))
    ensures Half(a) == Half(b) && Odd(a) ==> Odd(b)
  {
  }

  lemma SameParts(a: bv32, b: bv32)
    requires Half(a) == Half(b) && Odd(a) == Odd(b)
    ensures a == b
  {
  }

  lemma ZeroHalf()
    ensures Half(0) == 0 && !Odd(0)
  {
  }

  lemma Halves(b: bv32)
    ensures Value(b) == 2 * Value(Half(b)) + (if Odd(b) then 1 else 0)
  {
    hide Half, Odd;
    if b == 0 { ZeroHalf(); }
  }

  lemma {:induction false} ValueInjective(a: bv32, b: bv32)
    requires Value(a) == Value(b)
    ensures a == b
    decreases a
  {
    if a == 0 || b == 0 {
      ValueZero(a);
      ValueZero(b);
    } else {
      Halved(a);
      hide Half, Odd, Value;
      Halves(a);
      Halves(b);
      ValueInjective(Half(a), Half(b));
      SameParts(a, b);
    }
  }

  lemma {:induction false} ValueZero(b: bv32)
    ensures Value(b) == 0 <==> b == 0
    decreases b
  {
    if b != 0 {
      Halved(b);
      ValueZero(Half(b));
      if !Odd(b) && Half(b) == 0 {
        ZeroHalf();
        SameParts(b, 0);
      }
    }
  }

  lemma {:induction false} ValueOrder(a: bv32, b: bv32)
    requires AtMost(a, b)
    ensures Value(a) <= Value(b)
    decreases a
  {
    hide Half, Odd, AtMost, Value;
    HalfOrder(a, b);
    Halves(a);
    Halves(b);
    ValueZero(a);
    if a != 0 {
      Halved(a);
      ValueOrder(Half(a), Half(b));
      if Value(Half(a)) == Value(Half(b)) { ValueInjective(Half(a), Half(b)); }
    }
  }

  lemma ValueLess(a: bv32, b: bv32)
    requires AtMost(a, b) && a != b
    ensures Value(a) < Value(b)
  {
    hide AtMost, Value;
    ValueOrder(a, b);
    if Value(a) == Value(b) { ValueInjective(a, b); }
  }

  lemma NextParts(b: bv32)
    requires b != 0xffff_ffff
    ensures Odd(b) ==> Half(Next(b)) == Next(Half(b)) && !Odd(Next(b)) && b != 0
    ensures !Odd(b) ==> Half(Next(b)) == Half(b) && Odd(Next(b))
  {
  }

  lemma {:induction false} ValueNext(b: bv32)
    requires b != 0xffff_ffff
    ensures Value(Next(b)) == Value(b) + 1
    decreases b
  {
    hide Half, Odd, Next, Value;
    NextParts(b);
    Halves(b);
    Halves(Next(b));
    if Odd(b) {
      Halved(b);
      ValueNext(Half(b));
    }
  }

  lemma Twice(b: bv32)
    requires b <= 0x7fff_ffff
    ensures Value(b << 1) == 2 * Value(b)
  {
    assert Half(b << 1) == b && !Odd(b << 1);
    hide Half, Odd, Value;
    Halves(b << 1);
  }

  lemma Times32(b: bv32)
    requires b <= 0x07ff_ffff
    ensures Value(b << 5) == 32 * Value(b)
  {
    assert b << 5 == ((((b << 1) << 1) << 1) << 1) << 1;
    var c := b << 1;
    var d := c << 1;
    var e := d << 1;
    var f := e << 1;
    assert c <= 0x0fff_ffff;
    assert d <= 0x1fff_ffff;
    assert e <= 0x3fff_ffff;
    assert f <= 0x7fff_ffff;
    hide Value;
    Twice(b);
    Twice(c);
    Twice(d);
    Twice(e);
    Twice(f);
  }

  lemma Top()
    ensures Value(0x4000_0000) == 0x4000_0000
  {
    assert Value(1) == 1 by { Halves(1); }
    hide Value;
    Times32(1);
    Times32(0x20);
    Times32(0x400);
    Times32(0x8000);
    Times32(0x10_0000);
    Times32(0x200_0000);
  }

  lemma TopLess()
    ensures AtMost(0x4000_0000, 0xffff_ffff)
  {
  }

  /** Counting does not wrap around up to 2^30. */
  lemma {:induction false} ValueBits(n: nat)
    requires n <= 0x4000_0000
    ensures Value(Bits(n)) == n
  {
    hide Half, Odd, AtMost, Next, Value;
    if n == 0 {
      ValueZero(0);
    } else {
      ValueBits(n - 1);
      if Bits(n - 1) == 0xffff_ffff {
        Top();
        TopLess();
        ValueOrder(0x4000_0000, 0xffff_ffff);
        assert false;
      }
      ValueNext(Bits(n - 1));
    }
  }

  // ---- pow2gt ----

  predicate OneBit(b: bv32) {
    b != 0 && b & (b - 1) == 0
  }

  predicate PowerOfTwo(n: nat) {
    n == 1 || (n > 0 && n % 2 == 0 && PowerOfTwo(n / 2))
  }

  lemma OneBitHalf(b: bv32)
    requires OneBit(b)
    ensures Odd(b) ==> b == 1
    ensures !Odd(b) ==> OneBit(Half(b))
  {
  }

  lemma {:induction false} OneBitPower(b: bv32)
    requires OneBit(b)
    ensures PowerOfTwo(Value(b))
    decreases b
  {
    assert Value(1) == 1 by { Halves(1); }
    OneBitHalf(b);
    hide Half, Odd, OneBit, Value;
    Halves(b);
    Halved(b);
    if !Odd(b) { OneBitPower(Half(b)); }
  }

  /** pow2gt: the bits of x - 1 are smeared to the right until all below the highest one are set, and 1
      is added. */
  function Smear(x: bv32): bv32 {
    var y := x - 1;
    var y := y | (y >> 1);
    var y := y | (y >> 2);
    var y := y | (y >> 4);
    var y := y | (y >> 8);
    var y := y | (y >> 16);
    y + 1
  }

  predicate InRange(b: bv32) {
    1 <= b <= 0x4000_0000
  }

  lemma SmearOne(x: bv32)
    requires InRange(x)
    ensures OneBit(Smear(x))
  {
  }

  lemma SmearUp(x: bv32)
    requires InRange(x)
    ensures AtMost(x, Smear(x)) && AtMost(Half(Smear(x)), x) && Half(Smear(x)) != x
  {
  }

  lemma OutOfRange(b: bv32)
    requires !InRange(b)
    ensures b == 0 || (AtMost(0x4000_0000, b) && b != 0x4000_0000)
  {
  }

  lemma BitsInRange(n: nat)
    requires 1 <= n <= 0x4000_0000
    ensures InRange(Bits(n))
  {
    hide Value, Bits, InRange, AtMost;
    ValueBits(n);
    ValueZero(0);
    Top();
    if !InRange(Bits(n)) {
      OutOfRange(Bits(n));
      if Bits(n) != 0 { ValueLess(0x4000_0000, Bits(n)); }
    }
  }

  lemma SmearedValue(x: nat)
    requires 1 <= x <= 0x4000_0000
    ensures x <= Value(Smear(Bits(x))) < 2 * x && PowerOfTwo(Value(Smear(Bits(x))))
  {
    hide Half, Odd, AtMost, OneBit, Value, Smear, Bits, InRange;
    var b := Bits(x);
    BitsInRange(x);
    ValueBits(x);
    SmearOne(b);
    SmearUp(b);
    OneBitPower(Smear(b));
    ValueOrder(b, Smear(b));
    ValueLess(Half(Smear(b)), b);
    Halves(Smear(b));
  }

  /** pow2gt: the least power of two that is at least x. */
  method Pow2gt(x: nat) returns (r: nat)
    requires 1 <= x <= 0x4000_0000
    ensures x <= r < 2 * x && PowerOfTwo(r)
  {
    SmearedValue(x);
    hide Value, PowerOfTwo, Bits;
    var b := Bits(x) - 1;
    b := b | (b >> 1);
    b := b | (b >> 2);
    b := b | (b >> 4);
    b := b | (b >> 8);
    b := b | (b >> 16);
    assert b + 1 == Smear(Bits(x));
    r := Value(b + 1);
  }
}
