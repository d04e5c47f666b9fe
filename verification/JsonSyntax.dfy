/** The language the parser accepts, as a grammar that does not mention the parser: syntax trees
    that keep white space and spelling, the text of a tree and the value it stands for.
    RFC 8259 sections 2 to 7, with the leniencies of cJSON.c. Every text function takes the text k
    that follows. */
module JsonSyntax {
  import opened CString
  import opened Json
  import opened JsonCodes

  datatype Hex = Hex(a: uchar, b: uchar, c: uchar, d: uchar)

  /** A piece of a string literal. */
  datatype Unit =
    | Plain(c: uchar)              // itself
    | Esc(c: uchar)                // \c
    | Uni(h: Hex)                  // \uXXXX
    | Pair(hi: Hex, lo: Hex)       // \uXXXX\uXXXX, a surrogate pair

  /** A number: the digits may be missing, a leading zero may stand before them. */
  datatype Num = Num(negative: bool, zero: bool, digits: Str, frac: Str, exp: Exponent)

  datatype Exponent = NoExp | Exp(e: uchar, sign: Sign, digits: Str)

  datatype Sign = NoSign | PlusSign | MinusSign

  datatype Syntax =
    | SNull
    | STrue
    | SFalse
    | SNum(num: Num)
    | SString(units: seq<Unit>)
    | SEmptyArray(ws: Str)
    | SArray(items: Items)
    | SEmptyObject(ws: Str)
    | SObject(entries: Entries)

  datatype Items =
    | LastItem(w0: Str, v: Syntax, w1: Str)
    | MoreItems(w0: Str, v: Syntax, w1: Str, more: Items)

  datatype Entries =
    | LastEntry(e: Entry)
    | MoreEntries(e: Entry, more: Entries)

  datatype Entry = Entry(w0: Str, key: seq<Unit>, w1: Str, w2: Str, v: Syntax, w3: Str)

  // ---- text ----

  function HexText(h: Hex, k: Str): Str {
    Ch(h.a, Ch(h.b, Ch(h.c, Ch(h.d, k))))
  }

  function UnitText(u: Unit, k: Str): Str {
    match u
    case Plain(c) => Ch(c, k)
    case Esc(c) => Ch(BSLASH, Ch(c, k))
    case Uni(h) => Ch(BSLASH, Ch(LETTER_U, HexText(h, k)))
    case Pair(hi, lo) => Ch(BSLASH, Ch(LETTER_U, HexText(hi, Ch(BSLASH, Ch(LETTER_U, HexText(lo, k))))))
  }

  function UnitsText(us: seq<Unit>, k: Str): Str {
    if us == [] then k else UnitText(us[0], UnitsText(us[1..], k))
  }

  function Literal(us: seq<Unit>, k: Str): Str {
    Ch(QUOTE, UnitsText(us, Ch(QUOTE, k)))
  }

  function SignText(sign: Sign, k: Str): Str {
    match sign
    case NoSign => k
    case PlusSign => Ch(PLUS, k)
    case MinusSign => Ch(MINUS, k)
  }

  function ExpText(x: Exponent, k: Str): Str {
    if x.NoExp? then k else Ch(x.e, SignText(x.sign, Append(x.digits, k)))
  }

  function FracText(frac: Str, k: Str): Str {
    if frac.Nul? then k else Ch(DOT, Append(frac, k))
  }

  function WholeText(zero: bool, digits: Str, k: Str): Str {
    if zero then Ch(ZERO, Append(digits, k)) else Append(digits, k)
  }

  function NumText(n: Num, k: Str): Str {
    var t := WholeText(n.zero, n.digits, FracText(n.frac, ExpText(n.exp, k)));
    if n.negative then Ch(MINUS, t) else t
  }

  function Text(x: Syntax, k: Str): Str
    decreases x
  {
    match x
    case SNull => Append(NULL_TEXT, k)
    case STrue => Append(TRUE_TEXT, k)
    case SFalse => Append(FALSE_TEXT, k)
    case SNum(num) => NumText(num, k)
    case SString(units) => Literal(units, k)
    case SEmptyArray(ws) => Ch(LBRACK, Append(ws, Ch(RBRACK, k)))
    case SArray(items) => Ch(LBRACK, ItemsText(items, k))
    case SEmptyObject(ws) => Ch(LBRACE, Append(ws, Ch(RBRACE, k)))
    case SObject(entries) => Ch(LBRACE, EntriesText(entries, k))
  }

  function ItemsText(items: Items, k: Str): Str
    decreases items
  {
    match items
    case LastItem(w0, v, w1) => Append(w0, Text(v, Append(w1, Ch(RBRACK, k))))
    case MoreItems(w0, v, w1, more) => Append(w0, Text(v, Append(w1, Ch(COMMA, ItemsText(more, k)))))
  }

  function EntryText(e: Entry, k: Str): Str
    decreases e
  {
    Append(e.w0, Literal(e.key, Append(e.w1, Ch(COLON, Append(e.w2, Text(e.v, Append(e.w3, k)))))))
  }

  function EntriesText(entries: Entries, k: Str): Str
    decreases entries
  {
    match entries
    case LastEntry(e) => EntryText(e, Ch(RBRACE, k))
    case MoreEntries(e, more) => EntryText(e, Ch(COMMA, EntriesText(more, k)))
  }

  // ---- well-formedness ----

  predicate IsSpaces(w: Str) {
    w.Nul? || (w.c <= 32 && IsSpaces(w.rest))
  }

  predicate AreDigits(t: Str) {
    t.Nul? || (IsDigit(t.c) && AreDigits(t.rest))
  }

  function HexValue(h: Hex): int {
    Hex4Value(h.a, h.b, h.c, h.d)
  }

  predicate IsHex(h: Hex) {
    HexDigit(h.a) >= 0 && HexDigit(h.b) >= 0 && HexDigit(h.c) >= 0 && HexDigit(h.d) >= 0
  }

  /** \u0000 and surrogates outside a pair are not allowed. */
  predicate WfUnit(u: Unit) {
    match u
    case Plain(c) => c != QUOTE && c != BSLASH
    case Esc(c) => c != LETTER_U
    case Uni(h) => IsHex(h) && 0 < HexValue(h) && !IsHighSurrogate(HexValue(h)) && !IsLowSurrogate(HexValue(h))
    case Pair(hi, lo) => IsHex(hi) && IsHex(lo) && IsHighSurrogate(HexValue(hi)) && IsLowSurrogate(HexValue(lo))
  }

  predicate WfUnits(us: seq<Unit>) {
    us == [] || (WfUnit(us[0]) && WfUnits(us[1..]))
  }

  predicate WfExp(x: Exponent) {
    x.NoExp? || ((x.e == 101 || x.e == 69) && AreDigits(x.digits))
  }

  predicate WfNum(n: Num) {
    && AreDigits(n.digits) && Hd(n.digits) != ZERO
    && AreDigits(n.frac) && WfExp(n.exp)
    && (n.negative || n.zero || n.digits.Ch?)
  }

  predicate Wf(x: Syntax)
    decreases x
  {
    match x
    case SNum(num) => WfNum(num)
    case SString(units) => WfUnits(units)
    case SEmptyArray(ws) => IsSpaces(ws)
    case SArray(items) => WfItems(items)
    case SEmptyObject(ws) => IsSpaces(ws)
    case SObject(entries) => WfEntries(entries)
    case _ => true
  }

  predicate WfItems(items: Items)
    decreases items
  {
    && IsSpaces(items.w0) && Wf(items.v) && IsSpaces(items.w1)
    && (items.MoreItems? ==> WfItems(items.more))
  }

  predicate WfEntry(e: Entry)
    decreases e
  {
    IsSpaces(e.w0) && WfUnits(e.key) && IsSpaces(e.w1) && IsSpaces(e.w2) && Wf(e.v) && IsSpaces(e.w3)
  }

  predicate WfEntries(entries: Entries)
    decreases entries
  {
    WfEntry(entries.e) && (entries.MoreEntries? ==> WfEntries(entries.more))
  }

  // ---- values ----

  function UnitValue(u: Unit, k: Str): Str
    requires WfUnit(u)
  {
    match u
    case Plain(c) => Ch(c, k)
    case Esc(c) => Ch(Unescape(c), k)
    case Uni(h) => Utf8(HexValue(h), k)
    case Pair(hi, lo) => Utf8(FromSurrogates(HexValue(hi), HexValue(lo)), k)
  }

  function UnitsValue(us: seq<Unit>): Str
    requires WfUnits(us)
  {
    if us == [] then Nul else UnitValue(us[0], UnitsValue(us[1..]))
  }

  /** The number that the digits t continue after acc. */
  function DigitsValue(t: Str, acc: nat): nat
    requires AreDigits(t)
  {
    if t.Nul? then acc else DigitsValue(t.rest, acc * 10 + (t.c as int - 48))
  }

  function ExpValue(x: Exponent): int
    requires WfExp(x)
  {
    if x.NoExp? then 0 else if x.sign.MinusSign? then -(DigitsValue(x.digits, 0) as int) else DigitsValue(x.digits, 0)
  }

  function NumValue(n: Num): real
    requires WfNum(n)
  {
    Scaled(n.negative, DigitsValue(n.frac, DigitsValue(n.digits, 0)), ExpValue(n.exp) - Len(n.frac))
  }

  function Value(x: Syntax): Json
    requires Wf(x)
    decreases x
  {
    match x
    case SNull => JNull
    case STrue => JBool(true)
    case SFalse => JBool(false)
    case SNum(num) => JNumber(NumValue(num))
    case SString(units) => JString(UnitsValue(units))
    case SEmptyArray(ws) => JArray([])
    case SArray(items) => JArray(ItemsValue(items))
    case SEmptyObject(ws) => JObject([])
    case SObject(entries) => JObject(EntriesValue(entries))
  }

  function ItemsValue(items: Items): seq<Json>
    requires WfItems(items)
    decreases items
  {
    [Value(items.v)] + if items.MoreItems? then ItemsValue(items.more) else []
  }

  function EntryValue(e: Entry): Member
    requires WfEntry(e)
    decreases e
  {
    Member(UnitsValue(e.key), Value(e.v))
  }

  function EntriesValue(entries: Entries): seq<Member>
    requires WfEntries(entries)
    decreases entries
  {
    [EntryValue(entries.e)] + if entries.MoreEntries? then EntriesValue(entries.more) else []
  }

  /** s is a rendering of v: a tree for v with white space around it. */
  ghost predicate Renders(s: Str, v: Json) {
    exists w0: Str, x: Syntax, w1: Str ::
      IsSpaces(w0) && IsSpaces(w1) && Wf(x) && Value(x) == v && s == Append(w0, Text(x, w1))
  }
}
