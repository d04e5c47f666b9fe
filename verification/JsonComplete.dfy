/** The parser reads every well-formed syntax tree back: parsing its text yields its value and
    leaves what follows. */
module JsonComplete {
  import opened CString
  import opened Json
  import opened JsonCodes
  import opened JsonParser
  import opened JsonSyntax

  /** What may stand behind a value; in particular no character that continues a number. */
  predicate Follow(k: Str) {
    Hd(k) <= 32 || Hd(k) == COMMA || Hd(k) == RBRACK || Hd(k) == RBRACE
  }

  lemma {:induction false} SkipSpaces(w: Str, k: Str)
    requires IsSpaces(w)
    ensures Skip(Append(w, k)) == Skip(k)
    ensures Follow(k) ==> Follow(Append(w, k))
  {
    if w.Ch? { SkipSpaces(w.rest, k); }
  }

  lemma {:induction false} SkipTwice(s: Str)
    ensures Skip(Skip(s)) == Skip(s)
  {
    if s.Ch? { SkipTwice(s.rest); }
  }

  // ---- numbers ----

  lemma {:induction false} DigitsComplete(t: Str, k: Str, acc: nat)
    requires AreDigits(t) && !IsDigit(Hd(k))
    ensures ParseDigits(Append(t, k), acc) == Digits(DigitsValue(t, acc), Len(t), k)
  {
    if t.Ch? { DigitsComplete(t.rest, k, acc * 10 + (t.c as int - 48)); }
  }

  lemma ExpComplete(x: Exponent, k: Str)
    requires WfExp(x) && Follow(k)
    ensures ParseExponent(ExpText(x, k)) == (ExpValue(x), k)
    ensures Hd(ExpText(x, k)) != DOT && !IsDigit(Hd(ExpText(x, k)))
  {
    hide DigitsValue, ParseDigits, Append, AreDigits;
    if x.Exp? {
      DigitsComplete(x.digits, k, 0);
      DigitsNoSign(x.digits, k);
    }
  }

  lemma DigitsNoSign(digits: Str, k: Str)
    requires AreDigits(digits) && Follow(k)
    ensures Hd(Append(digits, k)) != PLUS && Hd(Append(digits, k)) != MINUS
  {
  }

  lemma FracComplete(frac: Str, k: Str, n: nat)
    requires AreDigits(frac) && Hd(k) != DOT && !IsDigit(Hd(k))
    ensures ParseFraction(FracText(frac, k), n) == Digits(DigitsValue(frac, n), Len(frac), k)
    ensures !IsDigit(Hd(FracText(frac, k)))
  {
    if frac.Ch? { DigitsComplete(frac, k, n); }
  }

  lemma WholeComplete(zero: bool, digits: Str, k: Str)
    requires AreDigits(digits) && Hd(digits) != ZERO && !IsDigit(Hd(k))
    ensures ParseWhole(WholeText(zero, digits, k)).value == DigitsValue(digits, 0)
    ensures ParseWhole(WholeText(zero, digits, k)).rest == k
  {
    DigitsComplete(digits, k, 0);
  }

  /** The characters at the seams of a number keep its parts apart. */
  lemma NumComplete(n: Num, k: Str)
    requires WfNum(n) && Follow(k)
    ensures ParseNumber(NumText(n, k)) == (NumValue(n), k)
    ensures Hd(NumText(n, k)) == MINUS || IsDigit(Hd(NumText(n, k)))
  {
    hide Scaled, DigitsValue;
    ExpComplete(n.exp, k);
    FracComplete(n.frac, ExpText(n.exp, k), DigitsValue(n.digits, 0));
    WholeComplete(n.zero, n.digits, FracText(n.frac, ExpText(n.exp, k)));
  }

  // ---- strings ----

  lemma HexComplete(h: Hex, k: Str)
    requires IsHex(h)
    ensures IsHex4(HexText(h, k)) && Hex4(HexText(h, k)) == HexValue(h)
    ensures AfterHex4(HexText(h, k)) == k && Len(HexText(h, k)) == 4 + Len(k)
    ensures ScanEnd(HexText(h, k)) == ScanEnd(k)
  {
    var t := Ch(h.c, Ch(h.d, k));
    assert ScanEnd(t) == ScanEnd(k) && Len(t) == 2 + Len(k);
  }

  /** One unit is one step of the second pass, and the scan goes over it as a whole. */
  lemma UnitComplete(u: Unit, k: Str, end: Str)
    requires WfUnit(u) && ScanEnd(k) == Some(end)
    ensures ScanEnd(UnitText(u, k)) == Some(end)
    ensures Len(UnitText(u, k)) > Len(end)
    ensures u.Plain? ==> Hd(UnitText(u, k)) != BSLASH
    ensures !u.Plain? ==> Hd(UnitText(u, k)) == BSLASH
    ensures u.Uni? ==>
      Hd(UnitText(u, k).rest) == LETTER_U && ParseUnicode(UnitText(u, k).rest, end) == Unicode(HexValue(u.h), k)
    ensures u.Pair? ==> Hd(UnitText(u, k).rest) == LETTER_U
    ensures u.Pair? ==>
      ParseUnicode(UnitText(u, k).rest, end) == Unicode(FromSurrogates(HexValue(u.hi), HexValue(u.lo)), k)
  {
    hide HexText, Hex4Value, HexDigit, FromSurrogates;
    match u
    case Plain(c) =>
    case Esc(c) =>
    case Uni(h) =>
      HexComplete(h, k);
    case Pair(hi, lo) =>
      var q := Ch(BSLASH, Ch(LETTER_U, HexText(lo, k)));
      HexComplete(lo, k);
      HexComplete(hi, q);
      assert ParseLowSurrogate(HexValue(hi), q, end) == Unicode(FromSurrogates(HexValue(hi), HexValue(lo)), k);
  }

  lemma {:induction false} UnitsComplete(us: seq<Unit>, k: Str)
    requires WfUnits(us) && (k.Nul? || k.c == QUOTE)
    ensures ScanEnd(UnitsText(us, k)) == Some(k)
    ensures Decode(UnitsText(us, k), k) == Some(UnitsValue(us))
    decreases us
  {
    if us != [] {
      hide Utf8;
      UnitsComplete(us[1..], k);
      UnitComplete(us[0], UnitsText(us[1..], k), k);
    }
  }

  lemma LiteralComplete(us: seq<Unit>, k: Str)
    requires WfUnits(us)
    ensures ParseString(Literal(us, k)) == ParsedString(UnitsValue(us), k)
  {
    UnitsComplete(us, Ch(QUOTE, k));
  }

  // ---- values ----

  lemma TextStart(x: Syntax, k: Str)
    requires Wf(x)
    ensures 32 < Hd(Text(x, k)) && Hd(Text(x, k)) != RBRACK && Hd(Text(x, k)) != RBRACE && Hd(Text(x, k)) != COMMA
    ensures Skip(Text(x, k)) == Text(x, k)
  {
  }

  lemma {:induction false} PrefixComplete(t: Str, k: Str)
    ensures HasPrefix(Append(t, k), t) && Drop(Append(t, k), Len(t)) == k
  {
    if t.Ch? { PrefixComplete(t.rest, k); }
  }

  lemma KeywordComplete(x: Syntax, k: Str)
    requires x.SNull? || x.STrue? || x.SFalse?
    ensures ParseValue(Text(x, k)) == Done(Value(x), k)
  {
    PrefixComplete(if x.SNull? then NULL_TEXT else if x.STrue? then TRUE_TEXT else FALSE_TEXT, k);
  }

  /** Which parser the first character selects, keywords apart. */
  lemma Dispatch(s: Str)
    ensures Hd(s) == QUOTE && ParseString(s).ParsedString? ==>
      ParseValue(s) == Done(JString(ParseString(s).chars), ParseString(s).rest)
    ensures Hd(s) == MINUS || IsDigit(Hd(s)) ==> ParseValue(s) == Done(JNumber(ParseNumber(s).0), ParseNumber(s).1)
    ensures Hd(s) == LBRACK ==> ParseValue(s) == ParseArray(s)
    ensures Hd(s) == LBRACE ==> ParseValue(s) == ParseObject(s)
  {
    hide ParseString, ParseNumber, ParseArray, ParseObject;
  }

  /** The main result, by induction on the tree. */
  lemma {:induction false} ValueComplete(x: Syntax, k: Str)
    requires Wf(x) && Follow(k)
    ensures ParseValue(Text(x, k)) == Done(Value(x), k)
    decreases x
  {
    hide ParseValue;
    Dispatch(Text(x, k));
    match x
    case SNull => KeywordComplete(x, k);
    case STrue => KeywordComplete(x, k);
    case SFalse => KeywordComplete(x, k);
    case SNum(num) => NumComplete(num, k);
    case SString(units) => LiteralComplete(units, k);
    case SEmptyArray(ws) => SkipSpaces(ws, Ch(RBRACK, k));
    case SArray(items) => ItemsComplete(items, k);
    case SEmptyObject(ws) => SkipSpaces(ws, Ch(RBRACE, k));
    case SObject(entries) => EntriesComplete(entries, k);
  }

  lemma {:induction false} ItemsComplete(items: Items, k: Str)
    requires WfItems(items)
    ensures ParseElems(ItemsText(items, k)) == Done(JArray(ItemsValue(items)), k)
    ensures ParseElems(Skip(ItemsText(items, k))) == ParseElems(ItemsText(items, k))
    ensures Hd(Skip(ItemsText(items, k))) != RBRACK
    decreases items
  {
    hide Wf, Text, Value;
    var tail := if items.LastItem? then Ch(RBRACK, k) else Ch(COMMA, ItemsText(items.more, k));
    var after := Append(items.w1, tail);
    if items.MoreItems? { ItemsComplete(items.more, k); }
    SkipSpaces(items.w1, tail);
    ValueComplete(items.v, after);
    TextStart(items.v, after);
    SkipSpaces(items.w0, Text(items.v, after));
    SkipTwice(ItemsText(items, k));
  }

  lemma {:induction false} EntriesComplete(entries: Entries, k: Str)
    requires WfEntries(entries)
    ensures ParseMembers(EntriesText(entries, k)) == Done(JObject(EntriesValue(entries)), k)
    ensures ParseMembers(Skip(EntriesText(entries, k))) == ParseMembers(EntriesText(entries, k))
    ensures Hd(Skip(EntriesText(entries, k))) != RBRACE
    decreases entries
  {
    hide EntryText;
    var tail := if entries.LastEntry? then Ch(RBRACE, k) else Ch(COMMA, EntriesText(entries.more, k));
    if entries.MoreEntries? { EntriesComplete(entries.more, k); }
    EntryComplete(entries.e, tail);
    SkipTwice(EntriesText(entries, k));
  }

  lemma EntryComplete(e: Entry, k: Str)
    requires WfEntry(e) && (Hd(k) == COMMA || Hd(k) == RBRACE)
    ensures ParseMember(EntryText(e, k)) == Some((EntryValue(e), k))
    ensures Hd(Skip(EntryText(e, k))) == QUOTE
    decreases e
  {
    hide Wf, Text, Value;
    var k3 := Append(e.w3, k);
    var k2 := Text(e.v, k3);
    var k1 := Ch(COLON, Append(e.w2, k2));
    SkipSpaces(e.w3, k);
    ValueComplete(e.v, k3);
    TextStart(e.v, k3);
    SkipSpaces(e.w2, k2);
    SkipSpaces(e.w1, k1);
    LiteralComplete(e.key, Append(e.w1, k1));
    SkipSpaces(e.w0, Literal(e.key, Append(e.w1, k1)));
  }

  /** Every rendering of a value parses to that value. */
  lemma TextComplete(s: Str, v: Json)
    requires Renders(s, v)
    ensures ParseText(s) == Some(v)
  {
    var w0, x, w1 :| IsSpaces(w0) && IsSpaces(w1) && Wf(x) && Value(x) == v && s == Append(w0, Text(x, w1));
    TextStart(x, w1);
    SkipSpaces(w0, Text(x, w1));
    SkipSpaces(w1, Nul);
    AppendNul(w1);
    ValueComplete(x, w1);
  }
}
