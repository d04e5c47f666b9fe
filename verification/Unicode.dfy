/** \u escapes and UTF-8: RFC 3629 section 3 and RFC 2781 section 2.2. */
module Unicode {
  import opened CString
  import opened JsonCodes
  import opened JsonParser
  import opened JsonSyntax
  import opened JsonComplete

  /** A Unicode scalar value other than NUL. */
  type scalar = u: int | 0 < u < 0x110000 && !(0xD800 <= u <= 0xDFFF) witness 1

  function Encode(cs: seq<scalar>): Str {
    if cs == [] then Nul else Utf8(cs[0], Encode(cs[1..]))
  }

  predicate IsContinuation(s: Str) {
    s.Ch? && 0x80 <= s.c < 0xC0
  }

  /** A strict decoder: no overlong form, no surrogate, nothing above 0x10FFFF. */
  function DecodeUtf8(s: Str): Option<seq<scalar>> {
    if s.Nul? then Some([])
    else if s.c < 0x80 then Push(s.c, DecodeUtf8(s.rest))
    else if 0xC0 <= s.c < 0xE0 && IsContinuation(s.rest) then
      var u := (s.c - 0xC0) * 0x40 + (s.rest.c - 0x80);
      if u < 0x80 then None else Push(u, DecodeUtf8(s.rest.rest))
    else if 0xE0 <= s.c < 0xF0 && IsContinuation(s.rest) && IsContinuation(s.rest.rest) then
      var u := (s.c - 0xE0) * 0x1000 + (s.rest.c - 0x80) * 0x40 + (s.rest.rest.c - 0x80);
      if u < 0x800 || 0xD800 <= u <= 0xDFFF then None else Push(u, DecodeUtf8(s.rest.rest.rest))
    else if 0xF0 <= s.c < 0xF8
      && IsContinuation(s.rest) && IsContinuation(s.rest.rest) && IsContinuation(s.rest.rest.rest) then
      var u := (s.c - 0xF0) * 0x40000 + (s.rest.c - 0x80) * 0x1000 +
        (s.rest.rest.c - 0x80) * 0x40 + (s.rest.rest.rest.c - 0x80);
      if u < 0x10000 || u >= 0x110000 then None else Push(u, DecodeUtf8(s.rest.rest.rest.rest))
    else None
  }

  function Push(u: scalar, r: Option<seq<scalar>>): Option<seq<scalar>> {
    if r.None? then None else Some([u] + r.value)
  }

  lemma DecodeTwo(u: scalar, u1: nat, d0: nat, k: Str)
    requires 0x80 <= u < 0x800 && u == u1 * 0x40 + d0 && d0 < 0x40
    ensures DecodeUtf8(Ch(0xC0 + u1, Ch(0x80 + d0, k))) == Push(u, DecodeUtf8(k))
  {
    hide Push;
  }

  lemma DecodeThree(u: scalar, u2: nat, d1: nat, d0: nat, k: Str)
    requires 0x800 <= u < 0x10000 && u == u2 * 0x1000 + d1 * 0x40 + d0 && d0 < 0x40 && d1 < 0x40
    ensures DecodeUtf8(Ch(0xE0 + u2, Ch(0x80 + d1, Ch(0x80 + d0, k)))) == Push(u, DecodeUtf8(k))
  {
    hide Push;
  }

  lemma DecodeFour(u: scalar, u3: nat, d2: nat, d1: nat, d0: nat, k: Str)
    requires 0x10000 <= u && u == u3 * 0x40000 + d2 * 0x1000 + d1 * 0x40 + d0 && d0 < 0x40 && d1 < 0x40 && d2 < 0x40
    ensures DecodeUtf8(Ch(0xF0 + u3, Ch(0x80 + d2, Ch(0x80 + d1, Ch(0x80 + d0, k))))) == Push(u, DecodeUtf8(k))
  {
    hide Push;
  }

  lemma DecodeOne(u: scalar, k: Str)
    ensures DecodeUtf8(Utf8(u, k)) == Push(u, DecodeUtf8(k))
  {
    var u1, d0 := u / 0x40, u % 0x40;
    var u2, d1 := u1 / 0x40, u1 % 0x40;
    var u3, d2 := u2 / 0x40, u2 % 0x40;
    if u < 0x80 {
      Utf8Bytes(u, u1, u2, u3, d0, d1, d2, k);
    } else {
      hide Utf8, Continuation, DecodeUtf8, Push;
      Utf8Bytes(u, u1, u2, u3, d0, d1, d2, k);
      if u < 0x800 {
        DecodeTwo(u, u1, d0, k);
      } else if u < 0x10000 {
        DecodeThree(u, u2, d1, d0, k);
      } else {
        DecodeFour(u, u3, d2, d1, d0, k);
      }
    }
  }

  lemma Utf8Bytes(u: scalar, u1: nat, u2: nat, u3: nat, d0: nat, d1: nat, d2: nat, k: Str)
    requires u1 == u / 0x40 && u2 == u1 / 0x40 && u3 == u2 / 0x40
    requires d0 == u % 0x40 && d1 == u1 % 0x40 && d2 == u2 % 0x40
    ensures u < 0x80 ==> Utf8(u, k) == Ch(u, k)
    ensures 0x80 <= u < 0x800 ==> Utf8(u, k) == Ch(0xC0 + u1, Ch(0x80 + d0, k))
    ensures 0x800 <= u < 0x10000 ==> Utf8(u, k) == Ch(0xE0 + u2, Ch(0x80 + d1, Ch(0x80 + d0, k)))
    ensures 0x10000 <= u ==> Utf8(u, k) == Ch(0xF0 + u3, Ch(0x80 + d2, Ch(0x80 + d1, Ch(0x80 + d0, k))))
  {
  }

  /** The encoding loses nothing. */
  lemma {:induction false} EncodeDecode(cs: seq<scalar>)
    ensures DecodeUtf8(Encode(cs)) == Some(cs)
  {
    if cs != [] {
      hide DecodeUtf8, Utf8;
      EncodeDecode(cs[1..]);
      DecodeOne(cs[0], Encode(cs[1..]));
      assert cs == [cs[0]] + cs[1..];
    }
    assert DecodeUtf8(Nul) == Some([]);
  }

  // ---- \u escapes ----

  /** The scalar value that an escape is written for. */
  function CodePoint(u: Unit): (c: scalar)
    requires WfUnit(u) && (u.Uni? || u.Pair?)
  {
    if u.Uni? then HexValue(u.h) else FromSurrogates(HexValue(u.hi), HexValue(u.lo))
  }

  function CodePoints(us: seq<Unit>): seq<scalar>
    requires WfUnits(us) && AllEscapes(us)
  {
    if us == [] then [] else [CodePoint(us[0])] + CodePoints(us[1..])
  }

  predicate AllEscapes(us: seq<Unit>) {
    us == [] || ((us[0].Uni? || us[0].Pair?) && AllEscapes(us[1..]))
  }

  /** However the hexadecimal digits are spelled, parse_string yields the UTF-8 encoding of the
      escaped scalar values, and a UTF-8 decoder gets exactly those back. */
  lemma EscapesToUtf8(us: seq<Unit>, k: Str)
    requires WfUnits(us) && AllEscapes(us)
    ensures ParseString(Literal(us, k)) == ParsedString(Encode(CodePoints(us)), k)
    ensures DecodeUtf8(Encode(CodePoints(us))) == Some(CodePoints(us))
  {
    hide ParseString, Literal, Encode, DecodeUtf8, CodePoints, UnitsValue;
    LiteralComplete(us, k);
    UnitsEncode(us);
    EncodeDecode(CodePoints(us));
  }

  lemma {:induction false} UnitsEncode(us: seq<Unit>)
    requires WfUnits(us) && AllEscapes(us)
    ensures UnitsValue(us) == Encode(CodePoints(us))
    decreases us
  {
    if us != [] {
      hide Utf8, FromSurrogates;
      UnitsEncode(us[1..]);
    }
  }

  // ---- every scalar value can be escaped ----

  function HexOf(u: int): (h: Hex)
    requires 0 <= u < 0x10000
    ensures IsHex(h) && HexValue(h) == u
  {
    var u1, d0 := u / 16, u % 16;
    var u2, d1 := u1 / 16, u1 % 16;
    var u3, d2 := u2 / 16, u2 % 16;
    assert u == u1 * 16 + d0 && u1 == u2 * 16 + d1 && u2 == u3 * 16 + d2;
    Hex(HexDigitChar(u3), HexDigitChar(d2), HexDigitChar(d1), HexDigitChar(d0))
  }

  function HexDigitChar(d: int): (c: uchar)
    requires 0 <= d < 16
    ensures HexDigit(c) == d
  {
    if d < 10 then 48 + d else 55 + d
  }

  function EscapeScalar(u: scalar): (x: Unit)
    ensures WfUnit(x) && (x.Uni? || x.Pair?) && CodePoint(x) == u
  {
    hide *;
    if u < 0x10000 then
      BasicOf(u);
      Uni(HexOf(u))
    else
      SurrogatesOf(u);
      var v := u - 0x10000;
      Pair(HexOf(0xD800 + v / 0x400), HexOf(0xDC00 + v % 0x400))
  }

  lemma BasicOf(u: scalar)
    requires u < 0x10000
    ensures WfUnit(Uni(HexOf(u))) && CodePoint(Uni(HexOf(u))) == u
  {
    hide HexOf, IsHex, HexValue;
  }

  lemma SurrogatesOf(u: scalar)
    requires u >= 0x10000
    ensures var v := u - 0x10000;
      var x := Pair(HexOf(0xD800 + v / 0x400), HexOf(0xDC00 + v % 0x400));
      WfUnit(x) && CodePoint(x) == u
  {
    hide HexOf, IsHex, HexValue;
    var v := u - 0x10000;
    assert (0xD800 + v / 0x400) % 0x400 == v / 0x400 && (0xDC00 + v % 0x400) % 0x400 == v % 0x400;
  }

  function EscapeScalars(cs: seq<scalar>): (us: seq<Unit>)
    ensures WfUnits(us) && AllEscapes(us) && CodePoints(us) == cs
  {
    if cs == [] then [] else
    hide EscapeScalar;
    var us := [EscapeScalar(cs[0])] + EscapeScalars(cs[1..]);
    assert us[1..] == EscapeScalars(cs[1..]);
    us
  }

  /** Any sequence of scalar values, escaped one by one, is read as its UTF-8 encoding. */
  lemma EscapedScalars(cs: seq<scalar>, k: Str)
    ensures ParseString(Literal(EscapeScalars(cs), k)) == ParsedString(Encode(cs), k)
    ensures DecodeUtf8(Encode(cs)) == Some(cs)
  {
    hide *;
    EscapesToUtf8(EscapeScalars(cs), k);
  }

  // ---- what is rejected ----

  /** An escape without scalar value: NUL, a low surrogate, or a high surrogate that no escaped low
      surrogate follows. */
  predicate IsLoneEscape(h: Hex, k: Str)
    requires IsHex(h)
  {
    || HexValue(h) == 0
    || IsLowSurrogate(HexValue(h))
    || (IsHighSurrogate(HexValue(h))
        && !(Hd(k) == BSLASH && Hd(k.rest) == LETTER_U && IsLowSurrogate(Hex4(k.rest.rest))))
  }

  lemma LoneEscape(h: Hex, k: Str, end: Str)
    requires IsHex(h) && ScanEnd(k) == Some(end)
    ensures ScanEnd(Ch(LETTER_U, HexText(h, k))) == Some(end)
    ensures ParseUnicode(Ch(LETTER_U, HexText(h, k)), end).BadUnicode? <==> IsLoneEscape(h, k)
  {
    hide HexText, Hex4Value, HexDigit, FromSurrogates;
    HexComplete(h, k);
    if Hd(k) == BSLASH && Hd(k.rest) == LETTER_U && IsLowSurrogate(Hex4(k.rest.rest)) {
      ScanHex4(k.rest.rest);
    }
  }

  /** Lone and mismatched surrogates make parse_string fail wherever they stand in the literal. */
  lemma {:induction false} LoneEscapeRejected(us: seq<Unit>, h: Hex, k: Str)
    requires WfUnits(us) && IsHex(h) && IsLoneEscape(h, k)
    ensures ParseString(Ch(QUOTE, UnitsText(us, Ch(BSLASH, Ch(LETTER_U, HexText(h, k)))))) == BadString
  {
    var t := Ch(BSLASH, Ch(LETTER_U, HexText(h, k)));
    if ScanEnd(UnitsText(us, t)).Some? {
      RejectedBehind(us, h, k);
    }
  }

  lemma {:induction false} RejectedBehind(us: seq<Unit>, h: Hex, k: Str)
    requires WfUnits(us) && IsHex(h) && IsLoneEscape(h, k)
    requires ScanEnd(UnitsText(us, Ch(BSLASH, Ch(LETTER_U, HexText(h, k))))).Some?
    ensures var p := UnitsText(us, Ch(BSLASH, Ch(LETTER_U, HexText(h, k)))); Decode(p, ScanEnd(p).value) == None
    decreases us
  {
    hide HexText, Utf8, HexDigit, Hex4Value, FromSurrogates;
    var t := Ch(BSLASH, Ch(LETTER_U, HexText(h, k)));
    if us == [] {
      HexComplete(h, k);
      LoneEscape(h, k, ScanEnd(k).value);
    } else {
      var k1 := UnitsText(us[1..], t);
      UnitScan(us[0], k1);
      RejectedBehind(us[1..], h, k);
      UnitComplete(us[0], k1, ScanEnd(k1).value);
    }
  }

  /** 0 to 9, A to F and a to f. */
  predicate IsHexCode(c: byte) {
    48 <= c <= 57 || 65 <= c <= 70 || 97 <= c <= 102
  }

  predicate StartsWithHex(s: Str) {
    && IsHexCode(Hd(s)) && IsHexCode(Hd(s.rest)) && IsHexCode(Hd(s.rest.rest)) && IsHexCode(Hd(s.rest.rest.rest))
  }

  /** An escape without four hexadecimal digits makes parse_string fail wherever it stands. */
  lemma NoHexRejected(us: seq<Unit>, s: Str)
    requires WfUnits(us) && !StartsWithHex(s)
    ensures ParseString(Ch(QUOTE, UnitsText(us, Ch(BSLASH, Ch(LETTER_U, s))))) == BadString
  {
    if ScanEnd(UnitsText(us, Ch(BSLASH, Ch(LETTER_U, s)))).Some? { NoHexBehind(us, s); }
  }

  lemma {:induction false} NoHexBehind(us: seq<Unit>, s: Str)
    requires WfUnits(us) && !StartsWithHex(s) && ScanEnd(UnitsText(us, Ch(BSLASH, Ch(LETTER_U, s)))).Some?
    ensures var p := UnitsText(us, Ch(BSLASH, Ch(LETTER_U, s))); Decode(p, ScanEnd(p).value) == None
    decreases us
  {
    var t := Ch(BSLASH, Ch(LETTER_U, s));
    if us == [] {
      assert Hex4(s) == 0;
      assert ScanEnd(t) == ScanEnd(s) == ScanEnd(t.rest);
    } else {
      hide HexText, Utf8, HexDigit, Hex4Value, FromSurrogates, StartsWithHex;
      var k1 := UnitsText(us[1..], t);
      UnitScan(us[0], k1);
      NoHexBehind(us[1..], s);
      UnitComplete(us[0], k1, ScanEnd(k1).value);
    }
  }

  lemma UnitScan(u: Unit, k: Str)
    requires WfUnit(u)
    ensures ScanEnd(UnitText(u, k)) == ScanEnd(k)
  {
    hide HexText, Hex4Value, HexDigit;
    match u
    case Plain(_) =>
    case Esc(_) =>
    case Uni(h) => HexComplete(h, k);
    case Pair(hi, lo) =>
      HexComplete(lo, k);
      HexComplete(hi, Ch(BSLASH, Ch(LETTER_U, HexText(lo, k))));
  }
}
