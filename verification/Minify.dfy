/** cJSON_Minify: what it leaves in the buffer, and that this parses like the original text. */
module Minify {
  import opened CString
  import opened Json
  import opened JsonParser
  import opened JsonSyntax
  import opened JsonComplete
  import opened JsonSound
  import opened JsonPrinter
  import opened RoundTrip

  function Prepend(c: uchar, t: Option<Str>): Option<Str> {
    if t.None? then None else Some(Ch(c, t.value))
  }

  predicate IsStripped(c: uchar) {
    c == SPACE || c == TAB || c == CR || c == LF
  }

  /** What is left of s; None when the read pointer would run past the terminator, inside a string
      literal or a block comment that is not closed. */
  function Minified(s: Str): Option<Str>
    decreases Len(s)
  {
    if s.Nul? then Some(Nul)
    else if IsStripped(s.c) then Minified(s.rest)
    else if s.c == SLASH && Hd(s.rest) == SLASH then Minified(SkipLine(s.rest))
    else if s.c == SLASH && Hd(s.rest) == STAR then
      var t := SkipBlock(s.rest);
      if t.None? then None else Minified(t.value)
    else if s.c == QUOTE then Prepend(QUOTE, MinifiedString(s.rest))
    else Prepend(s.c, Minified(s.rest))
  }

  function MinifiedString(s: Str): Option<Str>
    decreases Len(s)
  {
    if s.Nul? then None
    else if s.c == QUOTE then Prepend(QUOTE, Minified(s.rest))
    else if s.c != BSLASH then Prepend(s.c, MinifiedString(s.rest))
    else if s.rest.Nul? then None
    else assert Len(s.rest.rest) < Len(s.rest); Prepend(BSLASH, Prepend(s.rest.c, MinifiedString(s.rest.rest)))
  }

  /** To the end of the line. */
  function SkipLine(s: Str): (r: Str)
    ensures Len(r) <= Len(s)
  {
    if s.Nul? || s.c == LF then s else SkipLine(s.rest)
  }

  /** Behind the next star and slash; the opening star may serve as the closing one. */
  function SkipBlock(s: Str): (r: Option<Str>)
    ensures r.Some? ==> Len(r.value) < Len(s)
  {
    if s.Nul? then None
    else if s.c == STAR && Hd(s.rest) == SLASH then Some(s.rest.rest)
    else SkipBlock(s.rest)
  }

  // ---- on syntax trees ----

  function StripSpaces(w: Str): Str {
    if w.Nul? then w else if IsStripped(w.c) then StripSpaces(w.rest) else Ch(w.c, StripSpaces(w.rest))
  }

  function Strip(x: Syntax): Syntax
    decreases x
  {
    match x
    case SEmptyArray(ws) => SEmptyArray(StripSpaces(ws))
    case SArray(items) => SArray(StripItems(items))
    case SEmptyObject(ws) => SEmptyObject(StripSpaces(ws))
    case SObject(entries) => SObject(StripEntries(entries))
    case _ => x
  }

  function StripItems(items: Items): Items
    decreases items
  {
    match items
    case LastItem(w0, v, w1) => LastItem(StripSpaces(w0), Strip(v), StripSpaces(w1))
    case MoreItems(w0, v, w1, more) => MoreItems(StripSpaces(w0), Strip(v), StripSpaces(w1), StripItems(more))
  }

  function StripEntry(e: Entry): Entry
    decreases e
  {
    Entry(StripSpaces(e.w0), e.key, StripSpaces(e.w1), StripSpaces(e.w2), Strip(e.v), StripSpaces(e.w3))
  }

  function StripEntries(entries: Entries): Entries
    decreases entries
  {
    match entries
    case LastEntry(e) => LastEntry(StripEntry(e))
    case MoreEntries(e, more) => MoreEntries(StripEntry(e), StripEntries(more))
  }

  lemma {:induction false} StripSpacesWf(w: Str)
    requires IsSpaces(w)
    ensures IsSpaces(StripSpaces(w))
  {
    if w.Ch? { StripSpacesWf(w.rest); }
  }

  /** Only white space goes, so the value stays. */
  lemma {:induction false} StripValue(x: Syntax)
    requires Wf(x)
    ensures Wf(Strip(x)) && Value(Strip(x)) == Value(x)
    decreases x
  {
    match x
    case SEmptyArray(ws) => StripSpacesWf(ws);
    case SArray(items) => StripItemsValue(items);
    case SEmptyObject(ws) => StripSpacesWf(ws);
    case SObject(entries) => StripEntriesValue(entries);
    case _ =>
  }

  lemma {:induction false} StripItemsValue(items: Items)
    requires WfItems(items)
    ensures WfItems(StripItems(items)) && ItemsValue(StripItems(items)) == ItemsValue(items)
    decreases items
  {
    hide Wf, Value, Strip;
    StripSpacesWf(items.w0);
    StripValue(items.v);
    StripSpacesWf(items.w1);
    if items.MoreItems? { StripItemsValue(items.more); }
  }

  lemma StripEntryValue(e: Entry)
    requires WfEntry(e)
    ensures WfEntry(StripEntry(e)) && EntryValue(StripEntry(e)) == EntryValue(e)
    decreases e
  {
    hide Wf, Value, Strip;
    StripSpacesWf(e.w0);
    StripSpacesWf(e.w1);
    StripSpacesWf(e.w2);
    StripValue(e.v);
    StripSpacesWf(e.w3);
  }

  lemma {:induction false} StripEntriesValue(entries: Entries)
    requires WfEntries(entries)
    ensures WfEntries(StripEntries(entries)) && EntriesValue(StripEntries(entries)) == EntriesValue(entries)
    decreases entries
  {
    hide WfEntry, EntryValue, StripEntry;
    StripEntryValue(entries.e);
    if entries.MoreEntries? { StripEntriesValue(entries.more); }
  }

  // ---- on their text ----

  lemma {:induction false} MinifySpaces(w: Str, k: Str, m: Str)
    requires IsSpaces(w) && Minified(k) == Some(m)
    ensures Minified(Append(w, k)) == Some(Append(StripSpaces(w), m))
  {
    if w.Ch? { MinifySpaces(w.rest, k, m); }
  }

  lemma {:induction false} MinifyDigits(t: Str, k: Str, m: Str)
    requires AreDigits(t) && Minified(k) == Some(m)
    ensures Minified(Append(t, k)) == Some(Append(t, m))
  {
    if t.Ch? { MinifyDigits(t.rest, k, m); }
  }

  lemma MinifyExp(x: Exponent, k: Str, m: Str)
    requires WfExp(x) && Minified(k) == Some(m)
    ensures Minified(ExpText(x, k)) == Some(ExpText(x, m))
  {
    if x.Exp? {
      hide Append;
      MinifyDigits(x.digits, k, m);
      assert Minified(SignText(x.sign, Append(x.digits, k))) == Some(SignText(x.sign, Append(x.digits, m)));
    }
  }

  lemma MinifyNum(n: Num, k: Str, m: Str)
    requires WfNum(n) && Minified(k) == Some(m)
    ensures Minified(NumText(n, k)) == Some(NumText(n, m))
  {
    hide Append, ExpText;
    var k1, m1 := ExpText(n.exp, k), ExpText(n.exp, m);
    MinifyExp(n.exp, k, m);
    MinifyDigits(n.frac, k1, m1);
    var k2, m2 := FracText(n.frac, k1), FracText(n.frac, m1);
    assert Minified(k2) == Some(m2);
    MinifyDigits(n.digits, k2, m2);
    assert Minified(WholeText(n.zero, n.digits, k2)) == Some(WholeText(n.zero, n.digits, m2));
  }

  lemma MinifyHex(h: Hex, k: Str, m: Str)
    requires IsHex(h) && MinifiedString(k) == Some(m)
    ensures MinifiedString(HexText(h, k)) == Some(HexText(h, m))
  {
    var t := Ch(h.c, Ch(h.d, k));
    assert MinifiedString(t) == Some(Ch(h.c, Ch(h.d, m)));
  }

  lemma MinifyUnit(u: Unit, k: Str, m: Str)
    requires WfUnit(u) && MinifiedString(k) == Some(m)
    ensures MinifiedString(UnitText(u, k)) == Some(UnitText(u, m))
  {
    hide HexText;
    match u
    case Plain(c) =>
    case Esc(c) =>
    case Uni(h) => MinifyHex(h, k, m);
    case Pair(hi, lo) =>
      MinifyHex(lo, k, m);
      MinifyHex(hi, Ch(BSLASH, Ch(LETTER_U, HexText(lo, k))), Ch(BSLASH, Ch(LETTER_U, HexText(lo, m))));
  }

  lemma {:induction false} MinifyUnits(us: seq<Unit>, k: Str, m: Str)
    requires WfUnits(us) && MinifiedString(k) == Some(m)
    ensures MinifiedString(UnitsText(us, k)) == Some(UnitsText(us, m))
    decreases us
  {
    if us != [] {
      MinifyUnits(us[1..], k, m);
      MinifyUnit(us[0], UnitsText(us[1..], k), UnitsText(us[1..], m));
    }
  }

  lemma MinifyLiteral(us: seq<Unit>, k: Str, m: Str)
    requires WfUnits(us) && Minified(k) == Some(m)
    ensures Minified(Literal(us, k)) == Some(Literal(us, m))
  {
    MinifyUnits(us, Ch(QUOTE, k), Ch(QUOTE, m));
  }

  lemma MinifyKeyword(t: Str, k: Str, m: Str)
    requires t == NULL_TEXT || t == TRUE_TEXT || t == FALSE_TEXT
    requires Minified(k) == Some(m)
    ensures Minified(Append(t, k)) == Some(Append(t, m))
  {
    MinifyLetters(t, k, m);
  }

  predicate AreLetters(t: Str) {
    t.Nul? || (97 <= t.c <= 122 && AreLetters(t.rest))
  }

  lemma {:induction false} MinifyLetters(t: Str, k: Str, m: Str)
    requires AreLetters(t) && Minified(k) == Some(m)
    ensures Minified(Append(t, k)) == Some(Append(t, m))
  {
    if t.Ch? { MinifyLetters(t.rest, k, m); }
  }

  lemma MinifyBracket(c: uchar, k: Str, m: Str)
    requires c == LBRACK || c == LBRACE || c == RBRACK || c == RBRACE || c == COMMA
    requires Minified(k) == Some(m)
    ensures Minified(Ch(c, k)) == Some(Ch(c, m))
  {
  }

  /** Minifying the text of a tree gives the text of the stripped tree. */
  lemma {:induction false} MinifyText(x: Syntax, k: Str, m: Str)
    requires Wf(x) && Minified(k) == Some(m)
    ensures Minified(Text(x, k)) == Some(Text(Strip(x), m))
    decreases x
  {
    hide Append, NumText, Literal, Minified;
    match x
    case SNull => MinifyKeyword(NULL_TEXT, k, m);
    case STrue => MinifyKeyword(TRUE_TEXT, k, m);
    case SFalse => MinifyKeyword(FALSE_TEXT, k, m);
    case SNum(num) => MinifyNum(num, k, m);
    case SString(units) => MinifyLiteral(units, k, m);
    case SEmptyArray(ws) =>
      MinifyBracket(RBRACK, k, m);
      MinifySpaces(ws, Ch(RBRACK, k), Ch(RBRACK, m));
      MinifyBracket(LBRACK, Append(ws, Ch(RBRACK, k)), Append(StripSpaces(ws), Ch(RBRACK, m)));
    case SArray(items) =>
      MinifyItems(items, k, m);
      MinifyBracket(LBRACK, ItemsText(items, k), ItemsText(StripItems(items), m));
    case SEmptyObject(ws) =>
      MinifyBracket(RBRACE, k, m);
      MinifySpaces(ws, Ch(RBRACE, k), Ch(RBRACE, m));
      MinifyBracket(LBRACE, Append(ws, Ch(RBRACE, k)), Append(StripSpaces(ws), Ch(RBRACE, m)));
    case SObject(entries) =>
      MinifyEntries(entries, k, m);
      MinifyBracket(LBRACE, EntriesText(entries, k), EntriesText(StripEntries(entries), m));
  }

  lemma {:induction false} MinifyItems(items: Items, k: Str, m: Str)
    requires WfItems(items) && Minified(k) == Some(m)
    ensures Minified(ItemsText(items, k)) == Some(ItemsText(StripItems(items), m))
    decreases items
  {
    hide Append, Text, Strip, Wf;
    var k1 := if items.LastItem? then Ch(RBRACK, k) else Ch(COMMA, ItemsText(items.more, k));
    var m1 := if items.LastItem? then Ch(RBRACK, m) else Ch(COMMA, ItemsText(StripItems(items.more), m));
    if items.MoreItems? { MinifyItems(items.more, k, m); }
    assert Minified(k1) == Some(m1);
    var k2, m2 := Append(items.w1, k1), Append(StripSpaces(items.w1), m1);
    MinifySpaces(items.w1, k1, m1);
    MinifyText(items.v, k2, m2);
    MinifySpaces(items.w0, Text(items.v, k2), Text(Strip(items.v), m2));
  }

  lemma MinifyEntry(e: Entry, k: Str, m: Str)
    requires WfEntry(e) && Minified(k) == Some(m)
    ensures Minified(EntryText(e, k)) == Some(EntryText(StripEntry(e), m))
    decreases e
  {
    hide Append, Text, Strip, Wf, Literal;
    var k1, m1 := Append(e.w3, k), Append(StripSpaces(e.w3), m);
    MinifySpaces(e.w3, k, m);
    var k2, m2 := Text(e.v, k1), Text(Strip(e.v), m1);
    MinifyText(e.v, k1, m1);
    var k3, m3 := Ch(COLON, Append(e.w2, k2)), Ch(COLON, Append(StripSpaces(e.w2), m2));
    MinifySpaces(e.w2, k2, m2);
    assert Minified(k3) == Some(m3);
    var k4, m4 := Append(e.w1, k3), Append(StripSpaces(e.w1), m3);
    MinifySpaces(e.w1, k3, m3);
    MinifyLiteral(e.key, k4, m4);
    MinifySpaces(e.w0, Literal(e.key, k4), Literal(e.key, m4));
  }

  lemma {:induction false} MinifyEntries(entries: Entries, k: Str, m: Str)
    requires WfEntries(entries) && Minified(k) == Some(m)
    ensures Minified(EntriesText(entries, k)) == Some(EntriesText(StripEntries(entries), m))
    decreases entries
  {
    hide EntryText, StripEntry, WfEntry;
    if entries.LastEntry? {
      MinifyEntry(entries.e, Ch(RBRACE, k), Ch(RBRACE, m));
    } else {
      MinifyEntries(entries.more, k, m);
      MinifyEntry(entries.e, Ch(COMMA, EntriesText(entries.more, k)),
        Ch(COMMA, EntriesText(StripEntries(entries.more), m)));
    }
  }

  lemma {:induction false} MinifyOpenUnits(us: seq<Unit>)
    requires WfUnits(us)
    ensures MinifiedString(UnitsText(us, Nul)) == None
    decreases us
  {
    if us != [] {
      MinifyOpenUnits(us[1..]);
      var k := UnitsText(us[1..], Nul);
      match us[0]
      case Plain(_) =>
      case Esc(_) =>
      case Uni(h) => MinifyOpenHex(h, k);
      case Pair(hi, lo) =>
        MinifyOpenHex(lo, k);
        MinifyOpenHex(hi, Ch(BSLASH, Ch(LETTER_U, HexText(lo, k))));
    }
  }

  lemma MinifyOpenHex(h: Hex, k: Str)
    requires IsHex(h) && MinifiedString(k) == None
    ensures MinifiedString(HexText(h, k)) == None
  {
    assert MinifiedString(Ch(h.c, Ch(h.d, k))) == None;
  }

  lemma {:induction false} MinifySpacesNone(w: Str, k: Str)
    requires IsSpaces(w) && Minified(k) == None
    ensures Minified(Append(w, k)) == None
  {
    if w.Ch? { MinifySpacesNone(w.rest, k); }
  }

  /** The minifier stays inside the buffer on an accepted text exactly when the text is not a lone
      unterminated string literal, and then the text it leaves parses to the same value. */
  lemma MinifyKeepsMeaning(s: Str)
    requires ParseText(s).Some?
    ensures Minified(s).Some? <==> !Unterminated(Skip(s))
    ensures Minified(s).Some? ==> ParseText(Minified(s).value) == ParseText(s)
  {
    hide ParseText, Minified, Text, Append, Wf, Value;
    var v := ParseText(s).value;
    if Unterminated(Skip(s)) {
      OpenMinify(s, v);
    } else {
      ClosedSound(s);
      var w0, x, w1 :| IsSpaces(w0) && IsSpaces(w1) && Wf(x) && Value(x) == v && s == Append(w0, Text(x, w1));
      MinifyRendering(w0, x, w1);
    }
  }

  lemma OpenMinify(s: Str, v: Json)
    requires ParseText(s) == Some(v) && Unterminated(Skip(s))
    ensures Minified(s) == None
  {
    hide ParseText;
    OpenSound(s);
    var w0, us :|
      IsSpaces(w0) && WfUnits(us) && v == JString(UnitsValue(us)) && s == Append(w0, Ch(QUOTE, UnitsText(us, Nul)));
    MinifyOpenUnits(us);
    MinifySpacesNone(w0, Ch(QUOTE, UnitsText(us, Nul)));
  }

  lemma MinifyRendering(w0: Str, x: Syntax, w1: Str)
    requires IsSpaces(w0) && IsSpaces(w1) && Wf(x)
    ensures Minified(Append(w0, Text(x, w1))).Some?
    ensures ParseText(Minified(Append(w0, Text(x, w1))).value) == Some(Value(x))
  {
    hide ParseText, Text, Wf, Value, Strip;
    AppendNul(w1);
    var m1 := StripSpaces(w1);
    AppendNul(m1);
    MinifySpaces(w1, Nul, Nul);
    MinifyText(x, w1, m1);
    MinifySpaces(w0, Text(x, w1), Text(Strip(x), m1));
    StripSpacesWf(w0);
    StripSpacesWf(w1);
    StripValue(x);
    TextComplete(Append(StripSpaces(w0), Text(Strip(x), m1)), Value(x));
  }

  // ---- printed text ----

  lemma {:induction false} StripTabs(n: nat)
    ensures StripSpaces(Tabs(n, Nul)) == Nul
  {
    if n > 0 { StripTabs(n - 1); }
  }

  lemma {:induction false} StripLayout(v: Json, depth: nat, fmt: bool, depth': nat)
    requires IntegersOnly(v)
    ensures Strip(Layout(v, depth, fmt)) == Layout(v, depth', false)
    decreases v
  {
    match v
    case JArray(elems) => if elems != [] { StripLayoutElems(elems, depth, fmt, Nul, depth'); }
    case JObject(members) =>
      StripTabs(depth);
      if members != [] { StripLayoutMembers(members, depth + 1, fmt, depth' + 1); }
    case _ =>
  }

  lemma {:induction false} StripLayoutElems(vs: seq<Json>, depth: nat, fmt: bool, w0: Str, depth': nat)
    requires vs != [] && AllIntegers(vs) && StripSpaces(w0) == Nul
    ensures StripItems(LayoutElems(vs, depth, fmt, w0)) == LayoutElems(vs, depth', false, Nul)
    decreases vs
  {
    hide Layout, Strip;
    StripLayout(vs[0], depth + 1, fmt, depth' + 1);
    if |vs| > 1 { StripLayoutElems(vs[1..], depth, fmt, Only(fmt, SPACE, Nul), depth'); }
  }

  lemma {:induction false} StripLayoutMember(m: Member, depth: nat, fmt: bool, w3: Str, depth': nat)
    requires IsIntegerMember(m) && StripSpaces(w3) == Nul
    ensures StripEntry(LayoutMember(m, depth, fmt, w3)) == LayoutMember(m, depth', false, Nul)
    decreases m
  {
    hide Layout, Strip;
    StripTabs(depth);
    StripLayout(m.value, depth, fmt, depth');
  }

  lemma {:induction false} StripLayoutMembers(ms: seq<Member>, depth: nat, fmt: bool, depth': nat)
    requires ms != [] && AllIntegerMembers(ms) && depth > 0 && depth' > 0
    ensures StripEntries(LayoutMembers(ms, depth, fmt)) == LayoutMembers(ms, depth', false)
    decreases ms
  {
    hide LayoutMember, StripEntry;
    StripTabs(depth - 1);
    if |ms| == 1 {
      StripLayoutMember(ms[0], depth, fmt, NewLine(fmt, depth - 1), depth');
    } else {
      StripLayoutMember(ms[0], depth, fmt, Nul, depth');
      StripLayoutMembers(ms[1..], depth, fmt, depth');
    }
  }

  /** Minifying printed text gives the unformatted text, byte for byte. */
  lemma MinifyPrinted(v: Json, fmt: bool)
    requires IntegersOnly(v)
    ensures Minified(Print(v, fmt)) == Some(Print(v, false))
  {
    LayoutText(v, 0, fmt, Nul);
    LayoutText(v, 0, false, Nul);
    MinifyText(Layout(v, 0, fmt), Nul, Nul);
    StripLayout(v, 0, fmt, 0);
  }
}
