/** The text that print_value of cJSON.c stands for, as a function of the value. Both printing
    strategies are proved to write it. Every function takes the text k that follows. */
module JsonPrinter {
  import opened CString
  import opened Json

  function HexChar(d: int): uchar
    requires 0 <= d < 16
  {
    if d < 10 then 48 + d else 87 + d
  }

  predicate NeedsEscape(c: uchar) {
    c < 32 || c == QUOTE || c == BSLASH
  }

  /** The letter of a short escape; None when \u00XX is needed. */
  function ShortEscape(c: uchar): Option<uchar> {
    if c == BSLASH then Some(BSLASH)
    else if c == QUOTE then Some(QUOTE)
    else if c == 8 then Some(98)
    else if c == 12 then Some(102)
    else if c == LF then Some(110)
    else if c == CR then Some(114)
    else if c == TAB then Some(116)
    else None
  }

  function PrintChar(c: uchar, k: Str): Str {
    if !NeedsEscape(c) then Ch(c, k)
    else if ShortEscape(c).Some? then Ch(BSLASH, Ch(ShortEscape(c).value, k))
    else Ch(BSLASH, Ch(LETTER_U, Ch(ZERO, Ch(ZERO, Ch(HexChar(c / 16), Ch(HexChar(c % 16), k))))))
  }

  function PrintChars(s: Str, k: Str): Str {
    if s.Nul? then k else PrintChar(s.c, PrintChars(s.rest, k))
  }

  function PrintString(s: Str, k: Str): Str {
    Ch(QUOTE, PrintChars(s, Ch(QUOTE, k)))
  }

  /** "%d" of a non-negative number. */
  function PrintNat(n: nat, k: Str): Str {
    if n < 10 then Ch(48 + n, k) else PrintNat(n / 10, Ch(48 + n % 10, k))
  }

  function PrintInt(n: int, k: Str): Str {
    if n < 0 then Ch(MINUS, PrintNat(-n, k)) else PrintNat(n, k)
  }

  function Tabs(n: nat, k: Str): Str {
    if n == 0 then k else Ch(TAB, Tabs(n - 1, k))
  }

  /** A character that only the formatted text has. */
  function Only(fmt: bool, c: uchar, k: Str): Str {
    if fmt then Ch(c, k) else k
  }

  function Indentation(fmt: bool, depth: nat, k: Str): Str {
    if fmt then Tabs(depth, k) else k
  }

  function PrintValue(v: Json, depth: nat, fmt: bool, k: Str): Str
    requires IntegersOnly(v)
    decreases v
  {
    match v
    case JNull => Append(NULL_TEXT, k)
    case JBool(b) => Append(if b then TRUE_TEXT else FALSE_TEXT, k)
    case JNumber(r) => PrintInt(r.Floor, k)
    case JString(s) => PrintString(s, k)
    case JArray(elems) => Ch(LBRACK, PrintElems(elems, depth, fmt, k))
    case JObject(members) =>
      if members == [] then Ch(LBRACE, Only(fmt, LF, Indentation(fmt, depth, Ch(RBRACE, k))))
      else Ch(LBRACE, Only(fmt, LF, PrintMembers(members, depth + 1, fmt, k)))
  }

  /** The elements, the commas between them and the closing bracket. */
  function PrintElems(vs: seq<Json>, depth: nat, fmt: bool, k: Str): Str
    requires AllIntegers(vs)
    decreases vs
  {
    if vs == [] then Ch(RBRACK, k)
    else if |vs| == 1 then PrintValue(vs[0], depth + 1, fmt, Ch(RBRACK, k))
    else PrintValue(vs[0], depth + 1, fmt, Ch(COMMA, Only(fmt, SPACE, PrintElems(vs[1..], depth, fmt, k))))
  }

  function PrintMember(m: Member, depth: nat, fmt: bool, k: Str): Str
    requires IsIntegerMember(m)
    decreases m
  {
    Indentation(fmt, depth, PrintString(m.key, Ch(COLON, Only(fmt, TAB, PrintValue(m.value, depth, fmt, k)))))
  }

  /** The members at depth, the commas between them and the closing brace. */
  function PrintMembers(ms: seq<Member>, depth: nat, fmt: bool, k: Str): Str
    requires ms != [] && AllIntegerMembers(ms) && depth > 0
    decreases ms
  {
    if |ms| == 1 then PrintMember(ms[0], depth, fmt, Only(fmt, LF, Indentation(fmt, depth - 1, Ch(RBRACE, k))))
    else PrintMember(ms[0], depth, fmt, Ch(COMMA, Only(fmt, LF, PrintMembers(ms[1..], depth, fmt, k))))
  }

  /** cJSON_Print (fmt) and cJSON_PrintUnformatted (!fmt). */
  function Print(v: Json, fmt: bool): Str
    requires IntegersOnly(v)
  {
    PrintValue(v, 0, fmt, Nul)
  }
}
