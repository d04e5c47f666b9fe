/** What a character with a backslash in front of it stands for, in character codes. */
module Literals {
  import opened CString
  import opened JsonCodes
  import opened JsonParser
  import opened JsonSyntax
  import opened JsonComplete

  /** RFC 8259 section 7 without \u; the parser takes any other character for itself. */
  function Meaning(c: uchar): uchar {
    if c == 98 then 8
    else if c == 116 then 9
    else if c == 110 then 10
    else if c == 102 then 12
    else if c == 114 then 13
    else c
  }

  lemma Utf8Append(u: int, s: Str, k: Str)
    requires 0 < u < 0x110000
    ensures Append(Utf8(u, s), k) == Utf8(u, Append(s, k))
  {
    var t := Continuation(u, s);
    assert Append(t, k) == Continuation(u, Append(s, k));
    if u >= 0x800 {
      var t1 := Continuation(u / 0x40, t);
      assert Append(t1, k) == Continuation(u / 0x40, Append(t, k));
    }
  }

  lemma UnitAppend(u: Unit, s: Str, k: Str)
    requires WfUnit(u)
    ensures Append(UnitValue(u, s), k) == UnitValue(u, Append(s, k))
  {
    hide Utf8, HexDigit;
    match u
    case Uni(h) => Utf8Append(HexValue(h), s, k);
    case Pair(hi, lo) => Utf8Append(FromSurrogates(HexValue(hi), HexValue(lo)), s, k);
    case _ =>
  }

  lemma {:induction false} UnitsJoined(a: seq<Unit>, b: seq<Unit>)
    requires WfUnits(a) && WfUnits(b)
    ensures WfUnits(a + b) && UnitsValue(a + b) == Append(UnitsValue(a), UnitsValue(b))
    decreases a
  {
    if a == [] {
      assert a + b == b;
    } else {
      assert (a + b)[1..] == a[1..] + b;
      hide UnitValue, WfUnit;
      UnitsJoined(a[1..], b);
      UnitAppend(a[0], UnitsValue(a[1..]), UnitsValue(b));
    }
  }

  lemma OneEscape(c: uchar, b: seq<Unit>)
    requires WfUnits(b) && c != 117
    ensures WfUnits([Esc(c)] + b) && UnitsValue([Esc(c)] + b) == Ch(Meaning(c), UnitsValue(b))
  {
    assert ([Esc(c)] + b)[1..] == b;
  }

  /** Wherever an escape stands in a literal, parse_string puts what it stands for there. */
  lemma EscapeRead(a: seq<Unit>, c: uchar, b: seq<Unit>, k: Str)
    requires WfUnits(a) && WfUnits(b) && c != 117
    ensures WfUnits(a + ([Esc(c)] + b))
    ensures ParseString(Literal(a + ([Esc(c)] + b), k)) ==
      ParsedString(Append(UnitsValue(a), Ch(Meaning(c), UnitsValue(b))), k)
  {
    hide ParseString, Literal, WfUnits, UnitsValue, Append, Meaning;
    OneEscape(c, b);
    UnitsJoined(a, [Esc(c)] + b);
    LiteralComplete(a + ([Esc(c)] + b), k);
  }
}
