/** Printing followed by parsing gives the value back. */
module RoundTrip {
  import opened CString
  import opened Json
  import opened JsonParser
  import opened JsonSyntax
  import opened JsonComplete
  import opened JsonPrinter

  // ---- the syntax tree that the printer writes ----

  function UnitOf(c: uchar): (u: Unit)
    ensures WfUnit(u)
    ensures forall k :: UnitText(u, k) == PrintChar(c, k) && UnitValue(u, k) == Ch(c, k)
  {
    if !NeedsEscape(c) then Plain(c)
    else if ShortEscape(c).Some? then Esc(ShortEscape(c).value)
    else Uni(Hex(ZERO, ZERO, HexChar(c / 16), HexChar(c % 16)))
  }

  function UnitsOf(s: Str): (us: seq<Unit>)
    ensures WfUnits(us) && UnitsValue(us) == s
  {
    if s.Nul? then [] else [UnitOf(s.c)] + UnitsOf(s.rest)
  }

  lemma {:induction false} UnitsOfText(s: Str, k: Str)
    ensures UnitsText(UnitsOf(s), k) == PrintChars(s, k)
  {
    if s.Ch? { UnitsOfText(s.rest, k); }
  }

  function NatDigits(n: nat, k: Str): Str {
    if n == 0 then k else NatDigits(n / 10, Ch(48 + n % 10, k))
  }

  lemma {:induction false} NatDigitsText(n: nat, t: Str, k: Str)
    requires n > 0
    ensures Append(NatDigits(n, t), k) == PrintNat(n, Append(t, k))
  {
    if n >= 10 { NatDigitsText(n / 10, Ch(48 + n % 10, t), k); }
  }

  lemma {:induction false} NatDigitsValue(n: nat, t: Str)
    requires AreDigits(t)
    ensures AreDigits(NatDigits(n, t))
    ensures DigitsValue(NatDigits(n, t), 0) == DigitsValue(t, n)
    ensures n > 0 ==> NatDigits(n, t).Ch? && NatDigits(n, t).c != ZERO
  {
    if n > 0 {
      NatDigitsValue(n / 10, Ch(48 + n % 10, t));
    }
  }

  function NumOf(n: int): Num {
    Num(n < 0, n == 0, NatDigits(if n < 0 then -n else n, Nul), Nul, NoExp)
  }

  lemma NumOfText(n: int, k: Str)
    ensures WfNum(NumOf(n)) && NumText(NumOf(n), k) == PrintInt(n, k) && NumValue(NumOf(n)) == n as real
  {
    var m := if n < 0 then -n else n;
    NatDigitsValue(m, Nul);
    if n != 0 { NatDigitsText(m, Nul, k); }
  }

  function Layout(v: Json, depth: nat, fmt: bool): Syntax
    requires IntegersOnly(v)
    decreases v
  {
    match v
    case JNull => SNull
    case JBool(b) => if b then STrue else SFalse
    case JNumber(r) => SNum(NumOf(r.Floor))
    case JString(s) => SString(UnitsOf(s))
    case JArray(elems) => if elems == [] then SEmptyArray(Nul) else SArray(LayoutElems(elems, depth, fmt, Nul))
    case JObject(members) =>
      if members == [] then SEmptyObject(NewLine(fmt, depth)) else SObject(LayoutMembers(members, depth + 1, fmt))
  }

  function NewLine(fmt: bool, depth: nat): Str {
    if fmt then Ch(LF, Tabs(depth, Nul)) else Nul
  }

  /** w0 is the space behind the preceding comma. */
  function LayoutElems(vs: seq<Json>, depth: nat, fmt: bool, w0: Str): Items
    requires vs != [] && AllIntegers(vs)
    decreases vs
  {
    var x := Layout(vs[0], depth + 1, fmt);
    if |vs| == 1 then LastItem(w0, x, Nul)
    else MoreItems(w0, x, Nul, LayoutElems(vs[1..], depth, fmt, Only(fmt, SPACE, Nul)))
  }

  function LayoutMember(m: Member, depth: nat, fmt: bool, w3: Str): Entry
    requires IsIntegerMember(m)
    decreases m
  {
    Entry(NewLine(fmt, depth), UnitsOf(m.key), Nul, Only(fmt, TAB, Nul), Layout(m.value, depth, fmt), w3)
  }

  function LayoutMembers(ms: seq<Member>, depth: nat, fmt: bool): Entries
    requires ms != [] && AllIntegerMembers(ms) && depth > 0
    decreases ms
  {
    if |ms| == 1 then LastEntry(LayoutMember(ms[0], depth, fmt, NewLine(fmt, depth - 1)))
    else MoreEntries(LayoutMember(ms[0], depth, fmt, Nul), LayoutMembers(ms[1..], depth, fmt))
  }

  lemma {:induction false} TabsAppend(n: nat, k: Str)
    ensures Append(Tabs(n, Nul), k) == Tabs(n, k) && IsSpaces(Tabs(n, Nul))
  {
    if n > 0 { TabsAppend(n - 1, k); }
  }

  lemma NewLineAppend(fmt: bool, depth: nat, k: Str)
    ensures Append(NewLine(fmt, depth), k) == Only(fmt, LF, Indentation(fmt, depth, k))
    ensures IsSpaces(NewLine(fmt, depth))
  {
    TabsAppend(depth, k);
  }

  // ---- its text and its value ----

  lemma {:induction false} LayoutText(v: Json, depth: nat, fmt: bool, k: Str)
    requires IntegersOnly(v)
    ensures Wf(Layout(v, depth, fmt)) && Value(Layout(v, depth, fmt)) == v
    ensures Text(Layout(v, depth, fmt), k) == PrintValue(v, depth, fmt, k)
    decreases v
  {
    match v
    case JNull =>
    case JBool(b) =>
    case JNumber(r) => NumOfText(r.Floor, k);
    case JString(s) => UnitsOfText(s, Ch(QUOTE, k));
    case JArray(elems) => if elems != [] { LayoutElemsText(elems, depth, fmt, Nul, k); }
    case JObject(members) =>
      if members == [] { NewLineAppend(fmt, depth, Ch(RBRACE, k)); }
      else { LayoutMembersText(members, depth + 1, fmt, k); }
  }

  lemma {:induction false} LayoutElemsText(vs: seq<Json>, depth: nat, fmt: bool, w0: Str, k: Str)
    requires vs != [] && AllIntegers(vs) && IsSpaces(w0)
    ensures WfItems(LayoutElems(vs, depth, fmt, w0)) && ItemsValue(LayoutElems(vs, depth, fmt, w0)) == vs
    ensures ItemsText(LayoutElems(vs, depth, fmt, w0), k) == Append(w0, PrintElems(vs, depth, fmt, k))
    decreases vs
  {
    hide Layout, PrintValue, Text, Value, Wf;
    if |vs| == 1 {
      LayoutText(vs[0], depth + 1, fmt, Ch(RBRACK, k));
    } else {
      var sp := Only(fmt, SPACE, Nul);
      LayoutElemsText(vs[1..], depth, fmt, sp, k);
      LayoutText(vs[0], depth + 1, fmt, Ch(COMMA, Append(sp, PrintElems(vs[1..], depth, fmt, k))));
    }
  }

  lemma {:induction false} LayoutMemberText(m: Member, depth: nat, fmt: bool, w3: Str, k: Str)
    requires IsIntegerMember(m) && IsSpaces(w3)
    ensures WfEntry(LayoutMember(m, depth, fmt, w3)) && EntryValue(LayoutMember(m, depth, fmt, w3)) == m
    ensures EntryText(LayoutMember(m, depth, fmt, w3), k) == Only(fmt, LF, PrintMember(m, depth, fmt, Append(w3, k)))
    decreases m
  {
    hide Layout, PrintValue, Text, Value, Wf, UnitsText, PrintChars;
    var k2 := PrintValue(m.value, depth, fmt, Append(w3, k));
    var k1 := Ch(COLON, Only(fmt, TAB, k2));
    LayoutText(m.value, depth, fmt, Append(w3, k));
    assert Append(Only(fmt, TAB, Nul), k2) == Only(fmt, TAB, k2);
    UnitsOfText(m.key, Ch(QUOTE, k1));
    NewLineAppend(fmt, depth, PrintString(m.key, k1));
  }

  lemma {:induction false} LayoutMembersText(ms: seq<Member>, depth: nat, fmt: bool, k: Str)
    requires ms != [] && AllIntegerMembers(ms) && depth > 0
    ensures WfEntries(LayoutMembers(ms, depth, fmt)) && EntriesValue(LayoutMembers(ms, depth, fmt)) == ms
    ensures EntriesText(LayoutMembers(ms, depth, fmt), k) == Only(fmt, LF, PrintMembers(ms, depth, fmt, k))
    decreases ms
  {
    hide LayoutMember, PrintMember, WfEntry, EntryValue, EntryText;
    if |ms| == 1 {
      var w3 := NewLine(fmt, depth - 1);
      NewLineAppend(fmt, depth - 1, Ch(RBRACE, k));
      LayoutMemberText(ms[0], depth, fmt, w3, Ch(RBRACE, k));
    } else {
      LayoutMembersText(ms[1..], depth, fmt, k);
      LayoutMemberText(ms[0], depth, fmt, Nul, Ch(COMMA, EntriesText(LayoutMembers(ms[1..], depth, fmt), k)));
    }
  }

  /** Printed text, formatted or not, at any depth, is a rendering of the value... */
  lemma PrintRenders(v: Json, fmt: bool)
    requires IntegersOnly(v)
    ensures Renders(Print(v, fmt), v)
  {
    var x := Layout(v, 0, fmt);
    LayoutText(v, 0, fmt, Nul);
    assert Print(v, fmt) == Append(Nul, Text(x, Nul)) && IsSpaces(Nul);
  }

  /** ... so parsing it with require_null_terminated returns the value, with the order and the
      keys of its members. */
  lemma PrintThenParse(v: Json, fmt: bool)
    requires IntegersOnly(v)
    ensures ParseText(Print(v, fmt)) == Some(v)
  {
    PrintRenders(v, fmt);
    TextComplete(Print(v, fmt), v);
  }
}
