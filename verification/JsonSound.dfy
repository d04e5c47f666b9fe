/** The parser accepts nothing but well-formed syntax trees: what it consumed is the text of a
    tree that has the parsed value. */
module JsonSound {
  import opened CString
  import opened Json
  import opened JsonCodes
  import opened JsonParser
  import opened JsonSyntax
  import opened JsonComplete

  /** s is a string literal without closing quote, the one thing parse_value accepts that is no
      piece of a larger text. */
  predicate Unterminated(s: Str) {
    Hd(s) == QUOTE && ScanEnd(s.rest) == Some(Nul)
  }

  lemma {:induction false} SpacesSound(s: Str) returns (w: Str)
    ensures IsSpaces(w) && s == Append(w, Skip(s))
  {
    w := Nul;
    if s.Ch? && s.c <= 32 {
      w := SpacesSound(s.rest);
      w := Ch(s.c, w);
    }
  }

  // ---- numbers ----

  lemma {:induction false} DigitsSound(s: Str, acc: nat) returns (t: Str)
    ensures AreDigits(t) && s == Append(t, ParseDigits(s, acc).rest)
    ensures ParseDigits(s, acc) == Digits(DigitsValue(t, acc), Len(t), ParseDigits(s, acc).rest)
  {
    t := Nul;
    if IsDigit(Hd(s)) {
      t := DigitsSound(s.rest, acc * 10 + (s.c as int - 48));
      t := Ch(s.c, t);
    }
  }

  lemma ExpSound(s: Str) returns (x: Exponent)
    ensures WfExp(x) && s == ExpText(x, ParseExponent(s).1) && ExpValue(x) == ParseExponent(s).0
  {
    hide ParseDigits, DigitsValue;
    x := NoExp;
    if Hd(s) == 101 || Hd(s) == 69 {
      var sign := if Hd(s.rest) == PLUS then PlusSign else if Hd(s.rest) == MINUS then MinusSign else NoSign;
      var d := DigitsSound(if sign.NoSign? then s.rest else s.rest.rest, 0);
      x := Exp(s.c, sign, d);
    }
  }

  lemma FracSound(s: Str, n: nat) returns (t: Str)
    ensures AreDigits(t) && s == FracText(t, ParseFraction(s, n).rest)
    ensures ParseFraction(s, n) == Digits(DigitsValue(t, n), Len(t), ParseFraction(s, n).rest)
  {
    t := Nul;
    if Hd(s) == DOT && IsDigit(Hd(s.rest)) {
      t := DigitsSound(s.rest, n);
    }
  }

  lemma WholeSound(s: Str) returns (zero: bool, t: Str)
    ensures AreDigits(t) && Hd(t) != ZERO && s == WholeText(zero, t, ParseWhole(s).rest)
    ensures DigitsValue(t, 0) == ParseWhole(s).value
    ensures IsDigit(Hd(s)) ==> zero || t.Ch?
  {
    zero := Hd(s) == ZERO;
    var u := if zero then s.rest else s;
    t := Nul;
    if 49 <= Hd(u) <= 57 {
      t := DigitsSound(u, 0);
    }
  }

  lemma NumSound(s: Str) returns (n: Num)
    requires Hd(s) == MINUS || IsDigit(Hd(s))
    ensures WfNum(n) && s == NumText(n, ParseNumber(s).1) && NumValue(n) == ParseNumber(s).0
  {
    hide DigitsValue, Scaled, ParseWhole, ParseFraction, ParseExponent, WholeText, FracText, ExpText;
    var t := if Hd(s) == MINUS then s.rest else s;
    var zero, digits := WholeSound(t);
    var whole := ParseWhole(t);
    var frac := FracSound(whole.rest, whole.value);
    var exp := ExpSound(ParseFraction(whole.rest, whole.value).rest);
    n := Num(Hd(s) == MINUS, zero, digits, frac, exp);
  }

  // ---- strings ----

  lemma HexSound(s: Str) returns (h: Hex)
    requires IsHex4(s)
    ensures IsHex(h) && s == HexText(h, AfterHex4(s)) && HexValue(h) == Hex4(s)
  {
    h := Hex(s.c, s.rest.c, s.rest.rest.c, s.rest.rest.rest.c);
  }

  lemma UnicodeSound(p: Str, end: Str) returns (u: Unit)
    requires Hd(p) == LETTER_U && ScanEnd(p) == Some(end) && ParseUnicode(p, end).Unicode?
    ensures WfUnit(u) && Ch(BSLASH, p) == UnitText(u, ParseUnicode(p, end).next)
    ensures forall k :: UnitValue(u, k) == Utf8(ParseUnicode(p, end).u, k)
  {
    hide HexText, HexValue, Hex4, IsHex, AfterHex4, Utf8, FromSurrogates;
    var hi := HexSound(p.rest);
    u := Uni(hi);
    if IsHighSurrogate(HexValue(hi)) {
      var lo := HexSound(AfterHex4(p.rest).rest.rest);
      u := Pair(hi, lo);
    }
  }

  lemma {:induction false} UnitsSound(p: Str, end: Str) returns (us: seq<Unit>)
    requires ScanEnd(p) == Some(end) && Decode(p, end).Some?
    ensures WfUnits(us) && p == UnitsText(us, end) && Decode(p, end).value == UnitsValue(us)
    decreases Len(p)
  {
    us := [];
    if Len(p) <= Len(end) {
    } else {
      hide Utf8, ParseUnicode;
      var u, next;
      if p.c != BSLASH {
        u, next := Plain(p.c), p.rest;
      } else if p.rest.c != LETTER_U {
        u, next := Esc(p.rest.c), p.rest.rest;
        assert Len(p.rest.rest) < Len(p.rest);
      } else {
        u := UnicodeSound(p.rest, end);
        next := ParseUnicode(p.rest, end).next;
      }
      us := UnitsSound(next, end);
      us := UnitsCons(u, us, end);
    }
  }

  lemma UnitsCons(u: Unit, us: seq<Unit>, k: Str) returns (r: seq<Unit>)
    requires WfUnit(u) && WfUnits(us)
    ensures WfUnits(r) && UnitsText(r, k) == UnitText(u, UnitsText(us, k))
    ensures UnitsValue(r) == UnitValue(u, UnitsValue(us))
  {
    r := [u] + us;
    assert r[1..] == us;
  }

  lemma LiteralSound(s: Str) returns (us: seq<Unit>)
    requires ParseString(s).ParsedString? && !Unterminated(s)
    ensures WfUnits(us) && s == Literal(us, ParseString(s).rest) && UnitsValue(us) == ParseString(s).chars
  {
    hide Decode, ScanEnd, UnitsText, UnitsValue;
    var end := ScanEnd(s.rest).value;
    us := UnitsSound(s.rest, end);
    assert end.Ch? && end.c == QUOTE by { ScanStops(s.rest); }
  }

  lemma ScanStops(s: Str)
    requires ScanEnd(s).Some? && ScanEnd(s) != Some(Nul)
    ensures ScanEnd(s).value.Ch? && ScanEnd(s).value.c == QUOTE
  {
  }

  /** Behind an unterminated literal there is nothing. */
  lemma UnterminatedRest(s: Str)
    requires Unterminated(s)
    ensures ParseString(s).ParsedString? ==> ParseString(s).rest == Nul
    ensures ParseValue(s).Done? ==> ParseValue(s).rest == Nul
  {
  }

  // ---- values ----

  lemma {:induction false} PrefixSound(s: Str, t: Str)
    requires HasPrefix(s, t)
    ensures s == Append(t, Drop(s, Len(t)))
  {
    if t.Ch? { PrefixSound(s.rest, t.rest); }
  }

  lemma KeywordSound(s: Str) returns (x: Syntax)
    requires HasPrefix(s, NULL_TEXT) || HasPrefix(s, TRUE_TEXT) || HasPrefix(s, FALSE_TEXT)
    ensures ParseValue(s).Done? && Wf(x) && s == Text(x, ParseValue(s).rest) && Value(x) == ParseValue(s).v
    ensures !Unterminated(s)
  {
    hide Append, Drop;
    x := if HasPrefix(s, NULL_TEXT) then SNull else if HasPrefix(s, FALSE_TEXT) then SFalse else STrue;
    PrefixSound(s, if x.SNull? then NULL_TEXT else if x.STrue? then TRUE_TEXT else FALSE_TEXT);
  }

  /** What an accepted text without keyword starts with. */
  lemma DispatchSound(s: Str)
    requires ParseValue(s).Done?
    requires !HasPrefix(s, NULL_TEXT) && !HasPrefix(s, TRUE_TEXT) && !HasPrefix(s, FALSE_TEXT)
    ensures Hd(s) == QUOTE || Hd(s) == MINUS || IsDigit(Hd(s)) || Hd(s) == LBRACK || Hd(s) == LBRACE
    ensures Hd(s) == QUOTE ==> ParseString(s).ParsedString?
  {
    hide ParseString, ParseNumber, ParseArray, ParseObject;
  }

  lemma {:induction false} ValueSound(s: Str) returns (x: Syntax)
    requires ParseValue(s).Done? && !Unterminated(s)
    ensures Wf(x) && s == Text(x, ParseValue(s).rest) && Value(x) == ParseValue(s).v
    decreases Len(s), 1
  {
    hide ParseValue, HasPrefix, ParseNumber, ParseString, NumText, Literal;
    if HasPrefix(s, NULL_TEXT) || HasPrefix(s, TRUE_TEXT) || HasPrefix(s, FALSE_TEXT) {
      x := KeywordSound(s);
    } else {
      DispatchSound(s);
      Dispatch(s);
      if Hd(s) == QUOTE {
        var us := LiteralSound(s);
        x := SString(us);
      } else if Hd(s) == LBRACK {
        x := ArraySound(s);
      } else if Hd(s) == LBRACE {
        x := ObjectSound(s);
      } else {
        var n := NumSound(s);
        x := SNum(n);
      }
    }
  }

  lemma ArraySound(s: Str) returns (x: Syntax)
    requires Hd(s) == LBRACK && ParseArray(s).Done?
    ensures Wf(x) && s == Text(x, ParseArray(s).rest) && Value(x) == ParseArray(s).v
    decreases Len(s), 0
  {
    hide ParseElems, Append, ItemsText;
    var w := SpacesSound(s.rest);
    var t := Skip(s.rest);
    if Hd(t) == RBRACK {
      x := SEmptyArray(w);
    } else {
      var items := ItemsSound(t);
      x := SArray(Indent(w, items, ParseElems(t).rest));
    }
  }

  lemma ObjectSound(s: Str) returns (x: Syntax)
    requires Hd(s) == LBRACE && ParseObject(s).Done?
    ensures Wf(x) && s == Text(x, ParseObject(s).rest) && Value(x) == ParseObject(s).v
    decreases Len(s), 0
  {
    hide ParseMembers, Append, EntriesText;
    var w := SpacesSound(s.rest);
    var t := Skip(s.rest);
    if Hd(t) == RBRACE {
      x := SEmptyObject(w);
    } else {
      var entries := EntriesSound(t);
      x := SObject(IndentEntries(w, entries, ParseMembers(t).rest));
    }
  }

  /** More white space in front of the first item. */
  function Indent(w: Str, items: Items, ghost k: Str): (r: Items)
    requires IsSpaces(w) && WfItems(items)
    ensures WfItems(r) && ItemsValue(r) == ItemsValue(items)
    ensures ItemsText(r, k) == Append(w, ItemsText(items, k))
  {
    hide Text, Wf, Value;
    AppendSpaces(w, items.w0);
    match items
    case LastItem(w0, v, w1) =>
      AppendAssoc(w, w0, Text(v, Append(w1, Ch(RBRACK, k))));
      LastItem(Append(w, w0), v, w1)
    case MoreItems(w0, v, w1, more) =>
      AppendAssoc(w, w0, Text(v, Append(w1, Ch(COMMA, ItemsText(more, k)))));
      MoreItems(Append(w, w0), v, w1, more)
  }

  lemma {:induction false} AppendSpaces(w: Str, v: Str)
    requires IsSpaces(w) && IsSpaces(v)
    ensures IsSpaces(Append(w, v))
  {
    if w.Ch? { AppendSpaces(w.rest, v); }
  }

  function IndentEntries(w: Str, entries: Entries, ghost k: Str): (r: Entries)
    requires IsSpaces(w) && WfEntries(entries)
    ensures WfEntries(r) && EntriesValue(r) == EntriesValue(entries)
    ensures EntriesText(r, k) == Append(w, EntriesText(entries, k))
  {
    hide Text, Wf, Value;
    match entries
    case LastEntry(e) => LastEntry(IndentEntry(w, e, Ch(RBRACE, k)))
    case MoreEntries(e, more) => MoreEntries(IndentEntry(w, e, Ch(COMMA, EntriesText(more, k))), more)
  }

  function IndentEntry(w: Str, e: Entry, ghost k: Str): (r: Entry)
    requires IsSpaces(w) && WfEntry(e)
    ensures WfEntry(r) && EntryValue(r) == EntryValue(e)
    ensures EntryText(r, k) == Append(w, EntryText(e, k))
  {
    hide Text, Wf, Value;
    AppendSpaces(w, e.w0);
    AppendAssoc(w, e.w0, Literal(e.key, Append(e.w1, Ch(COLON, Append(e.w2, Text(e.v, Append(e.w3, k)))))));
    e.(w0 := Append(w, e.w0))
  }

  lemma {:induction false} ItemsSound(s: Str) returns (items: Items)
    requires ParseElems(s).Done?
    ensures WfItems(items) && s == ItemsText(items, ParseElems(s).rest) && ItemsValue(items) == ParseElems(s).v.elems
    decreases Len(s), 2
  {
    hide ParseValue, Append, Text, Wf, Value;
    var w0 := SpacesSound(s);
    var first := ParseValue(Skip(s));
    var w1 := SpacesSound(first.rest);
    var t := Skip(first.rest);
    if Unterminated(Skip(s)) { UnterminatedRest(Skip(s)); }
    var x := ValueSound(Skip(s));
    if Hd(t) == COMMA {
      var more := ItemsSound(t.rest);
      items := MoreItems(w0, x, w1, more);
    } else {
      items := LastItem(w0, x, w1);
    }
  }

  lemma MemberSound(s: Str) returns (e: Entry)
    requires ParseMember(s).Some? && ParseMember(s).value.1.Ch?
    ensures WfEntry(e) && s == EntryText(e, ParseMember(s).value.1) && EntryValue(e) == ParseMember(s).value.0
    decreases Len(s), 2
  {
    hide ParseValue, ParseString, Append, Literal, Text, Wf, Value;
    var w0 := SpacesSound(s);
    var key := ParseString(Skip(s));
    if Unterminated(Skip(s)) { UnterminatedRest(Skip(s)); }
    var us := LiteralSound(Skip(s));
    var w1 := SpacesSound(key.rest);
    var t := Skip(key.rest);
    var w2 := SpacesSound(t.rest);
    if Unterminated(Skip(t.rest)) { UnterminatedRest(Skip(t.rest)); }
    var x := ValueSound(Skip(t.rest));
    var w3 := SpacesSound(ParseValue(Skip(t.rest)).rest);
    e := Entry(w0, us, w1, w2, x, w3);
  }

  lemma {:induction false} EntriesSound(s: Str) returns (entries: Entries)
    requires ParseMembers(s).Done?
    ensures WfEntries(entries) && s == EntriesText(entries, ParseMembers(s).rest)
    ensures EntriesValue(entries) == ParseMembers(s).v.members
    decreases Len(s), 3
  {
    hide ParseMember, EntryText, WfEntry, EntryValue;
    var e := MemberSound(s);
    var t := ParseMember(s).value.1;
    if Hd(t) == COMMA {
      var more := EntriesSound(t.rest);
      entries := MoreEntries(e, more);
    } else {
      entries := LastEntry(e);
    }
  }

  /** A lone string literal that the end of the text cuts off before its closing quote. */
  ghost predicate RendersOpen(s: Str, v: Json) {
    exists w0: Str, us: seq<Unit> ::
      IsSpaces(w0) && WfUnits(us) && v == JString(UnitsValue(us)) && s == Append(w0, Ch(QUOTE, UnitsText(us, Nul)))
  }

  lemma OpenComplete(s: Str, v: Json)
    requires RendersOpen(s, v)
    ensures ParseText(s) == Some(v) && Unterminated(Skip(s))
  {
    var w0, us :|
      IsSpaces(w0) && WfUnits(us) && v == JString(UnitsValue(us)) && s == Append(w0, Ch(QUOTE, UnitsText(us, Nul)));
    SkipSpaces(w0, Ch(QUOTE, UnitsText(us, Nul)));
    UnitsComplete(us, Nul);
    Dispatch(Skip(s));
  }

  lemma OpenSound(s: Str)
    requires ParseText(s).Some? && Unterminated(Skip(s))
    ensures RendersOpen(s, ParseText(s).value)
  {
    hide Decode, ParseNumber, ParseArray, ParseObject;
    var w0 := SpacesSound(s);
    var us := UnitsSound(Skip(s).rest, Nul);
    assert s == Append(w0, Ch(QUOTE, UnitsText(us, Nul)));
  }

  /** The language and the meaning of the parser, in both directions and for every text. */
  lemma ParserMeetsGrammar(s: Str, v: Json)
    ensures ParseText(s) == Some(v) <==> Renders(s, v) || RendersOpen(s, v)
  {
    if ParseText(s) == Some(v) {
      if Unterminated(Skip(s)) { OpenSound(s); } else { ClosedSound(s); }
    }
    if Renders(s, v) { TextComplete(s, v); }
    if RendersOpen(s, v) { OpenComplete(s, v); }
  }

  lemma ClosedSound(s: Str)
    requires ParseText(s).Some? && !Unterminated(Skip(s))
    ensures Renders(s, ParseText(s).value)
  {
    hide ParseValue;
    var w0 := SpacesSound(s);
    var x := ValueSound(Skip(s));
    var w1 := SpacesSound(ParseValue(Skip(s)).rest);
    AppendNul(w1);
    assert s == Append(w0, Text(x, w1));
  }
}
