/** What the parser of cJSON.c computes, as functions of the text. */
module JsonParser {
  import opened CString
  import opened Json
  import opened JsonCodes

  /** A value and the text behind it. */
  datatype Parse = Fail | Done(v: Json, rest: Str)

  /** skip(): jumps over the characters up to 32. */
  function Skip(s: Str): (r: Str)
    ensures Len(r) <= Len(s)
    ensures r.Nul? || r.c > 32
  {
    if s.Ch? && s.c <= 32 then Skip(s.rest) else s
  }

  // ---- numbers ----

  /** A run of digits read after a number whose value is acc. */
  datatype Digits = Digits(value: nat, count: nat, rest: Str)

  function ParseDigits(s: Str, acc: nat): (r: Digits)
    ensures Len(r.rest) + r.count == Len(s)
    ensures IsDigit(Hd(s)) <==> r.count > 0
  {
    if IsDigit(Hd(s)) then
      var r := ParseDigits(s.rest, acc * 10 + (s.c as int - 48));
      r.(count := r.count + 1)
    else Digits(acc, 0, s)
  }

  /** parse_number. The grammar is lenient: the integer digits may be missing, and an exponent
      needs no digits. */
  function ParseNumber(s: Str): (r: (real, Str))
    ensures Len(r.1) <= Len(s)
    ensures Hd(s) == MINUS || IsDigit(Hd(s)) ==> Len(r.1) < Len(s)
  {
    var whole := ParseWhole(if Hd(s) == MINUS then s.rest else s);
    var frac := ParseFraction(whole.rest, whole.value);
    var exp := ParseExponent(frac.rest);
    (Scaled(Hd(s) == MINUS, frac.value, exp.0 - frac.count), exp.1)
  }

  function ParseWhole(s: Str): (r: Digits)
    ensures Len(r.rest) <= Len(s)
    ensures IsDigit(Hd(s)) ==> Len(r.rest) < Len(s)
  {
    var t := if Hd(s) == ZERO then s.rest else s;
    if 49 <= Hd(t) <= 57 then ParseDigits(t, 0) else Digits(0, 0, t)
  }

  /** A dot only counts with a digit behind it. */
  function ParseFraction(s: Str, n: nat): (r: Digits)
    ensures Len(r.rest) <= Len(s)
  {
    if Hd(s) == DOT && IsDigit(Hd(s.rest)) then ParseDigits(s.rest, n) else Digits(n, 0, s)
  }

  function ParseExponent(s: Str): (r: (int, Str))
    ensures Len(r.1) <= Len(s)
  {
    if Hd(s) != 101 && Hd(s) != 69 then (0, s)
    else if Hd(s.rest) == PLUS then
      var d := ParseDigits(s.rest.rest, 0); (d.value, d.rest)
    else if Hd(s.rest) == MINUS then
      var d := ParseDigits(s.rest.rest, 0); (-(d.value as int), d.rest)
    else
      var d := ParseDigits(s.rest, 0); (d.value, d.rest)
  }

  // ---- strings ----

  predicate IsHex4(s: Str) {
    && HexDigit(Hd(s)) >= 0 && HexDigit(Hd(s.rest)) >= 0
    && HexDigit(Hd(s.rest.rest)) >= 0 && HexDigit(Hd(s.rest.rest.rest)) >= 0
  }

  /** parse_hex4: 0 for anything but four hexadecimal digits. */
  function Hex4(s: Str): (h: int)
    ensures 0 <= h < 0x10000
    ensures h != 0 ==> IsHex4(s)
  {
    if IsHex4(s) then Hex4Value(s.c, s.rest.c, s.rest.rest.c, s.rest.rest.rest.c) else 0
  }

  /** The first pass of parse_string: stops at the closing quote or the terminator; None when the
      text ends in a backslash. */
  function ScanEnd(s: Str): (r: Option<Str>)
    ensures r.Some? ==> Len(r.value) <= Len(s) && (r.value.Nul? || r.value.c == QUOTE)
  {
    if s.Nul? || s.c == QUOTE then Some(s)
    else if s.c != BSLASH then ScanEnd(s.rest)
    else if s.rest.Nul? then None
    else ScanEnd(s.rest.rest)
  }

  /** The length the first pass counts, for the malloc(len + 1). */
  function ScanLen(s: Str): nat
    requires ScanEnd(s).Some?
  {
    if s.Nul? || s.c == QUOTE then 0
    else if s.c != BSLASH then 1 + ScanLen(s.rest)
    else 1 + ScanLen(s.rest.rest)
  }

  /** The code point of a \u escape and the text behind it. */
  datatype Unicode = BadUnicode | Unicode(u: int, next: Str)

  /** p points at the u of \u, in a literal that ends at end. The distance to end is compared
      before the surrogates are looked at. */
  function ParseUnicode(p: Str, end: Str): (r: Unicode)
    requires Hd(p) == LETTER_U && ScanEnd(p) == Some(end)
    ensures r.Unicode? ==> 0 < r.u < 0x110000 && ScanEnd(r.next) == Some(end)
    ensures r.Unicode? ==> Len(r.next) < Len(p) && Utf8Len(r.u) + ScanLen(r.next) <= ScanLen(p)
  {
    var u := Hex4(p.rest);
    if Len(p) <= Len(end) + 4 then BadUnicode
    else if IsLowSurrogate(u) || u == 0 then BadUnicode
    else
      ScanHex4(p.rest);
      var q := AfterHex4(p.rest);
      if !IsHighSurrogate(u) then Unicode(u, q) else ParseLowSurrogate(u, q, end)
  }

  /** q is right behind the high surrogate hi. */
  function ParseLowSurrogate(hi: int, q: Str, end: Str): (r: Unicode)
    requires IsHighSurrogate(hi) && ScanEnd(q) == Some(end)
    ensures r.Unicode? ==> 0x10000 <= r.u < 0x110000 && ScanEnd(r.next) == Some(end)
    ensures r.Unicode? ==> Len(r.next) < Len(q) && Utf8Len(r.u) + ScanLen(r.next) <= ScanLen(q)
  {
    if Len(q) < Len(end) + 5 then BadUnicode
    else if q.c != BSLASH || Hd(q.rest) != LETTER_U then BadUnicode
    else
      var lo := Hex4(q.rest.rest);
      if !IsLowSurrogate(lo) then BadUnicode else
      ScanHex4(q.rest.rest);
      Unicode(FromSurrogates(hi, lo), AfterHex4(q.rest.rest))
  }

  function AfterHex4(s: Str): (r: Str)
    requires IsHex4(s)
    ensures Len(r) == Len(s) - 4
  {
    assert Len(s.rest.rest) == 2 + Len(s.rest.rest.rest.rest);
    s.rest.rest.rest.rest
  }

  /** Four hexadecimal digits are four plain characters of the scan. */
  lemma ScanHex4(s: Str)
    requires IsHex4(s) && ScanEnd(s).Some?
    ensures ScanEnd(AfterHex4(s)) == ScanEnd(s)
    ensures ScanLen(s) == 4 + ScanLen(AfterHex4(s))
  {
    assert ScanEnd(s.rest.rest) == ScanEnd(s);
    assert ScanLen(s.rest.rest) == ScanLen(s) - 2;
  }

  /** The second pass of parse_string, from p: None when an escape is rejected. That the pass only
      ever stands where the scan stood, so that it stops exactly at end, and that what it still
      writes fits into what the scan still counts, is the agreement of the two passes. */
  function Decode(p: Str, end: Str): (r: Option<Str>)
    requires ScanEnd(p) == Some(end)
    ensures r.Some? ==> Len(r.value) <= ScanLen(p)
    decreases Len(p)
  {
    if Len(p) <= Len(end) then Some(Nul)
    else if p.c != BSLASH then
      var rest := Decode(p.rest, end);
      if rest.None? then None else Some(Ch(p.c, rest.value))
    else if p.rest.c != LETTER_U then
      assert Len(p.rest.rest) < Len(p.rest);
      var rest := Decode(p.rest.rest, end);
      if rest.None? then None else Some(Ch(Unescape(p.rest.c), rest.value))
    else
      var e := ParseUnicode(p.rest, end);
      if e.BadUnicode? then None else
      var rest := Decode(e.next, end);
      if rest.None? then None else Some(Utf8(e.u, rest.value))
  }

  datatype ParsedString = BadString | ParsedString(chars: Str, rest: Str)

  /** parse_string: a missing closing quote is tolerated when the text ends there. */
  function ParseString(s: Str): (r: ParsedString)
    ensures r.ParsedString? ==> Len(r.rest) < Len(s)
  {
    if Hd(s) != QUOTE then BadString else
    var scan := ScanEnd(s.rest);
    if scan.None? then BadString else
    var end := scan.value;
    var decoded := Decode(s.rest, end);
    if decoded.None? then BadString
    else ParsedString(decoded.value, if Hd(end) == QUOTE then end.rest else end)
  }

  // ---- values ----

  function ParseValue(s: Str): (r: Parse)
    ensures r.Done? ==> Len(r.rest) < Len(s)
    decreases Len(s), 3
  {
    if HasPrefix(s, NULL_TEXT) then Done(JNull, Drop(s, Len(NULL_TEXT)))
    else if HasPrefix(s, FALSE_TEXT) then Done(JBool(false), Drop(s, Len(FALSE_TEXT)))
    else if HasPrefix(s, TRUE_TEXT) then Done(JBool(true), Drop(s, Len(TRUE_TEXT)))
    else if Hd(s) == QUOTE then
      var r := ParseString(s);
      if r.BadString? then Fail else Done(JString(r.chars), r.rest)
    else if Hd(s) == MINUS || IsDigit(Hd(s)) then
      var r := ParseNumber(s);
      Done(JNumber(r.0), r.1)
    else if Hd(s) == LBRACK then ParseArray(s)
    else if Hd(s) == LBRACE then ParseObject(s)
    else Fail
  }

  function ParseArray(s: Str): (r: Parse)
    requires s.Ch?
    ensures r.Done? ==> Len(r.rest) < Len(s) && r.v.JArray?
    decreases Len(s), 2
  {
    var t := Skip(s.rest);
    if Hd(t) == RBRACK then Done(JArray([]), t.rest) else ParseElems(t)
  }

  /** The elements of an array, up to and including the closing bracket. */
  function ParseElems(s: Str): (r: Parse)
    ensures r.Done? ==> Len(r.rest) < Len(s) && r.v.JArray?
    decreases Len(s), 4
  {
    var first := ParseValue(Skip(s));
    if first.Fail? then Fail else
    var t := Skip(first.rest);
    if Hd(t) == COMMA then
      var rest := ParseElems(t.rest);
      if rest.Fail? then Fail else Done(JArray([first.v] + rest.v.elems), rest.rest)
    else if Hd(t) == RBRACK then Done(JArray([first.v]), t.rest)
    else Fail
  }

  function ParseObject(s: Str): (r: Parse)
    requires s.Ch?
    ensures r.Done? ==> Len(r.rest) < Len(s) && r.v.JObject?
    decreases Len(s), 2
  {
    var t := Skip(s.rest);
    if Hd(t) == RBRACE then Done(JObject([]), t.rest) else ParseMembers(t)
  }

  /** key ':' value, with white space around each. */
  function ParseMember(s: Str): (r: Option<(Member, Str)>)
    ensures r.Some? ==> Len(r.value.1) < Len(s)
    decreases Len(s), 4
  {
    var key := ParseString(Skip(s));
    if key.BadString? then None else
    var t := Skip(key.rest);
    if Hd(t) != COLON then None else
    var value := ParseValue(Skip(t.rest));
    if value.Fail? then None else Some((Member(key.chars, value.v), Skip(value.rest)))
  }

  /** The members of an object, up to and including the closing brace. */
  function ParseMembers(s: Str): (r: Parse)
    ensures r.Done? ==> Len(r.rest) < Len(s) && r.v.JObject?
    decreases Len(s), 5
  {
    var first := ParseMember(s);
    if first.None? then Fail else
    var t := first.value.1;
    if Hd(t) == COMMA then
      var rest := ParseMembers(t.rest);
      if rest.Fail? then Fail else Done(JObject([first.value.0] + rest.v.members), rest.rest)
    else if Hd(t) == RBRACE then Done(JObject([first.value.0]), t.rest)
    else Fail
  }

  /** cJSON_ParseWithOpts with require_null_terminated: the value of the whole text. */
  function ParseText(s: Str): Option<Json> {
    var r := ParseValue(Skip(s));
    if r.Fail? || Skip(r.rest).Ch? then None else Some(r.v)
  }
}
