/** What the digits, the escapes and the numbers of a JSON text stand for, whoever reads or writes it. */
module JsonCodes {
  import opened CString

  function HexDigit(c: byte): (d: int)
    ensures -1 <= d < 16
    ensures 0 <= d ==> c != 0 && c != QUOTE && c != BSLASH
  {
    if 48 <= c <= 57 then c - 48
    else if 65 <= c <= 70 then c - 55
    else if 97 <= c <= 102 then c - 87
    else -1
  }

  function Hex4Value(a: byte, b: byte, c: byte, d: byte): int {
    ((HexDigit(a) * 16 + HexDigit(b)) * 16 + HexDigit(c)) * 16 + HexDigit(d)
  }

  /** What a backslash and c stand for, c not being u. */
  function Unescape(c: uchar): uchar {
    if c == 98 then 8
    else if c == 102 then 12
    else if c == 110 then LF
    else if c == 114 then CR
    else if c == 116 then TAB
    else c
  }

  /** RFC 3629 section 3; the bytes of u, in front of k. */
  function Utf8(u: int, k: Str): (r: Str)
    requires 0 < u < 0x110000
    ensures Len(r) == Utf8Len(u) + Len(k)
  {
    if u < 0x80 then Ch(u, k)
    else if u < 0x800 then Ch(0xC0 + u / 0x40, Continuation(u, k))
    else if u < 0x10000 then Ch(0xE0 + u / 0x40 / 0x40, Continuation(u / 0x40, Continuation(u, k)))
    else Ch(0xF0 + u / 0x40 / 0x40 / 0x40, Continuation(u / 0x40 / 0x40, Continuation(u / 0x40, Continuation(u, k))))
  }

  /** 10xxxxxx, with the low six bits of u. */
  function Continuation(u: nat, k: Str): (r: Str)
    ensures Len(r) == 1 + Len(k)
  {
    Ch(0x80 + u % 0x40, k)
  }

  function Utf8Len(u: int): nat {
    if u < 0x80 then 1 else if u < 0x800 then 2 else if u < 0x10000 then 3 else 4
  }

  predicate IsHighSurrogate(u: int) {
    0xD800 <= u <= 0xDBFF
  }

  predicate IsLowSurrogate(u: int) {
    0xDC00 <= u <= 0xDFFF
  }

  /** RFC 2781 section 2.2 */
  function FromSurrogates(hi: int, lo: int): (u: int)
    requires IsHighSurrogate(hi) && IsLowSurrogate(lo)
    ensures 0x10000 <= u < 0x110000
  {
    0x10000 + (hi % 0x400) * 0x400 + lo % 0x400
  }

  function Pow10(e: int): (r: real)
    ensures r > 0.0
    decreases if e < 0 then -e else e
  {
    if e == 0 then 1.0 else if e > 0 then 10.0 * Pow10(e - 1) else Pow10(e + 1) / 10.0
  }

  function Scaled(negative: bool, mantissa: nat, exponent: int): real {
    (if negative then -(mantissa as real) else mantissa as real) * Pow10(exponent)
  }
}
