/** The characters of printed text, in character codes: what is escaped, and where white space stands. */
module PrintedText {
  import opened CString
  import opened Json
  import opened JsonPrinter

  // ---- escapes ----

  /** The text of one character of a string in front of k: RFC 8259 section 7. */
  function Escaped(c: uchar, k: Str): Str {
    if c >= 32 && c != 34 && c != 92 then Ch(c, k)
    else
      var letter: byte :=
        if c == 8 then 98 else if c == 9 then 116 else if c == 10 then 110 else if c == 12 then 102
        else if c == 13 then 114 else if c == 34 || c == 92 then c else 0;
      if letter != 0 then Ch(92, Ch(letter, k))
      else Ch(92, Ch(117, Ch(48, Ch(48, Ch(48 + c / 16, Ch(if c % 16 < 10 then 48 + c % 16 else 87 + c % 16, k))))))
  }

  /** Wherever a character stands in a string, its text stands there in the text of the string. */
  lemma {:induction false} CharPrinted(a: Str, c: uchar, b: Str, k: Str)
    ensures PrintChars(Append(a, Ch(c, b)), k) == PrintChars(a, Escaped(c, PrintChars(b, k)))
  {
    if a.Ch? { CharPrinted(a.rest, c, b, k); }
  }

  /** No control character but, in formatted text, line feeds and tabs. */
  predicate Clean(s: Str, fmt: bool) {
    s.Nul? || ((s.c >= 32 || (fmt && (s.c == 10 || s.c == 9))) && Clean(s.rest, fmt))
  }

  lemma CleanChar(c: uchar, fmt: bool, k: Str)
    requires Clean(k, fmt)
    ensures Clean(PrintChar(c, k), fmt)
  {
    if NeedsEscape(c) && ShortEscape(c).None? {
      var h, l := HexChar(c / 16), HexChar(c % 16);
      assert Clean(Ch(l, k), fmt);
      assert Clean(Ch(h, Ch(l, k)), fmt);
      assert Clean(Ch(ZERO, Ch(h, Ch(l, k))), fmt);
      assert Clean(Ch(ZERO, Ch(ZERO, Ch(h, Ch(l, k)))), fmt);
    }
  }

  lemma {:induction false} CleanChars(s: Str, fmt: bool, k: Str)
    requires Clean(k, fmt)
    ensures Clean(PrintChars(s, k), fmt)
  {
    if s.Ch? {
      CleanChars(s.rest, fmt, k);
      CleanChar(s.c, fmt, PrintChars(s.rest, k));
    }
  }

  /** A printed string has no control character at all. */
  lemma StringClean(s: Str)
    ensures Clean(PrintString(s, Nul), false)
  {
    CleanChars(s, false, Ch(QUOTE, Nul));
  }

  lemma {:induction false} CleanNat(n: nat, fmt: bool, k: Str)
    requires Clean(k, fmt)
    ensures Clean(PrintNat(n, k), fmt)
    decreases n
  {
    if n >= 10 { CleanNat(n / 10, fmt, Ch(48 + n % 10, k)); }
  }

  lemma {:induction false} CleanIndentation(fmt: bool, depth: nat, k: Str)
    requires Clean(k, fmt)
    ensures Clean(Indentation(fmt, depth, k), fmt)
    decreases depth
  {
    if fmt && depth > 0 { CleanIndentation(fmt, depth - 1, k); }
  }

  lemma CleanKeyword(t: Str, fmt: bool, k: Str)
    requires t == NULL_TEXT || t == TRUE_TEXT || t == FALSE_TEXT
    requires Clean(k, fmt)
    ensures Clean(Append(t, k), fmt)
  {
    var s := Append(t.rest.rest, k);
    assert Clean(Append(t.rest.rest.rest.rest, k), fmt);
    assert Clean(Append(t.rest.rest.rest, k), fmt);
    assert Clean(s, fmt);
  }

  lemma {:induction false} CleanValue(v: Json, depth: nat, fmt: bool, k: Str)
    requires IntegersOnly(v) && Clean(k, fmt)
    ensures Clean(PrintValue(v, depth, fmt, k), fmt)
    decreases v
  {
    match v
    case JNull => CleanKeyword(NULL_TEXT, fmt, k);
    case JBool(b) => CleanKeyword(if b then TRUE_TEXT else FALSE_TEXT, fmt, k);
    case JNumber(r) => CleanNat(if r.Floor < 0 then -r.Floor else r.Floor, fmt, k);
    case JString(s) => CleanChars(s, fmt, Ch(QUOTE, k));
    case JArray(elems) => CleanElems(elems, depth, fmt, k);
    case JObject(members) =>
      if members == [] { CleanIndentation(fmt, depth, Ch(RBRACE, k)); }
      else { CleanMembers(members, depth + 1, fmt, k); }
  }

  lemma {:induction false} CleanElems(vs: seq<Json>, depth: nat, fmt: bool, k: Str)
    requires AllIntegers(vs) && Clean(k, fmt)
    ensures Clean(PrintElems(vs, depth, fmt, k), fmt)
    decreases vs
  {
    if vs != [] {
      hide PrintValue;
      CleanElems(vs[1..], depth, fmt, k);
      var tail := if |vs| == 1 then Ch(RBRACK, k) else Ch(COMMA, Only(fmt, SPACE, PrintElems(vs[1..], depth, fmt, k)));
      assert Clean(tail, fmt);
      CleanValue(vs[0], depth + 1, fmt, tail);
    }
  }

  lemma CleanMember(m: Member, depth: nat, fmt: bool, k: Str)
    requires IsIntegerMember(m) && Clean(k, fmt)
    ensures Clean(PrintMember(m, depth, fmt, k), fmt)
    decreases m
  {
    hide PrintValue, PrintChars;
    var t := Ch(COLON, Only(fmt, TAB, PrintValue(m.value, depth, fmt, k)));
    CleanValue(m.value, depth, fmt, k);
    assert Clean(t, fmt);
    CleanChars(m.key, fmt, Ch(QUOTE, t));
    CleanIndentation(fmt, depth, PrintString(m.key, t));
  }

  lemma {:induction false} CleanMembers(ms: seq<Member>, depth: nat, fmt: bool, k: Str)
    requires ms != [] && AllIntegerMembers(ms) && depth > 0 && Clean(k, fmt)
    ensures Clean(PrintMembers(ms, depth, fmt, k), fmt)
    decreases ms
  {
    hide PrintMember;
    if |ms| == 1 {
      CleanIndentation(fmt, depth - 1, Ch(RBRACE, k));
      CleanMember(ms[0], depth, fmt, Only(fmt, LF, Indentation(fmt, depth - 1, Ch(RBRACE, k))));
    } else {
      CleanMembers(ms[1..], depth, fmt, k);
      CleanMember(ms[0], depth, fmt, Ch(COMMA, Only(fmt, LF, PrintMembers(ms[1..], depth, fmt, k))));
    }
  }

  /** Unformatted text has no control character, and formatted text only line feeds and tabs. */
  lemma PrintClean(v: Json, fmt: bool)
    requires IntegersOnly(v)
    ensures Clean(Print(v, fmt), fmt)
  {
    CleanValue(v, 0, fmt, Nul);
  }

  // ---- layout ----

  /** n tabs. */
  function Indented(n: nat, k: Str): Str {
    if n == 0 then k else Ch(9, Indented(n - 1, k))
  }

  /** White space put into a text without any, open being the brackets that are open, true for a brace:
      a line feed and as many tabs as braces and brackets are then open behind every opening brace, behind
      every comma between members and in front of every closing brace; a space behind every other comma
      and a tab behind every colon. */
  function Formatted(s: Str, open: seq<bool>): Str
    decreases Len(s)
  {
    if s.Nul? then Nul
    else if s.c == 34 then Ch(34, FormattedLiteral(s.rest, open))
    else if s.c == 91 then Ch(91, Formatted(s.rest, open + [false]))
    else if s.c == 93 then Ch(93, Formatted(s.rest, Outer(open)))
    else if s.c == 123 && Hd(s.rest) == 125 then
      assert Len(s.rest.rest) < Len(s.rest);
      Ch(123, Ch(10, Indented(|open|, Ch(125, Formatted(s.rest.rest, open)))))
    else if s.c == 123 then Ch(123, Ch(10, Indented(|open| + 1, Formatted(s.rest, open + [true]))))
    else if s.c == 125 then Ch(10, Indented(|Outer(open)|, Ch(125, Formatted(s.rest, Outer(open)))))
    else if s.c == 44 && open != [] && open[|open| - 1] then Ch(44, Ch(10, Indented(|open|, Formatted(s.rest, open))))
    else if s.c == 44 then Ch(44, Ch(32, Formatted(s.rest, open)))
    else if s.c == 58 then Ch(58, Ch(9, Formatted(s.rest, open)))
    else Ch(s.c, Formatted(s.rest, open))
  }

  function Outer(open: seq<bool>): seq<bool> {
    if open == [] then [] else open[..|open| - 1]
  }

  /** Nothing is put into a string literal. */
  function FormattedLiteral(s: Str, open: seq<bool>): Str
    decreases Len(s)
  {
    if s.Nul? then Nul
    else if s.c == 34 then Ch(34, Formatted(s.rest, open))
    else if s.c == 92 && s.rest.Ch? then
      assert Len(s.rest.rest) < Len(s.rest); Ch(92, Ch(s.rest.c, FormattedLiteral(s.rest.rest, open)))
    else Ch(s.c, FormattedLiteral(s.rest, open))
  }

  lemma {:induction false} TabsIndent(n: nat, k: Str)
    ensures Tabs(n, k) == Indented(n, k)
  {
    if n > 0 { TabsIndent(n - 1, k); }
  }

  lemma FormatChar(c: uchar, k: Str, open: seq<bool>)
    ensures FormattedLiteral(PrintChar(c, k), open) == PrintChar(c, FormattedLiteral(k, open))
  {
    if NeedsEscape(c) && ShortEscape(c).None? {
      var t := Ch(HexChar(c / 16), Ch(HexChar(c % 16), k));
      assert FormattedLiteral(t, open) == Ch(HexChar(c / 16), Ch(HexChar(c % 16), FormattedLiteral(k, open)));
      assert FormattedLiteral(Ch(ZERO, Ch(ZERO, t)), open) == Ch(ZERO, Ch(ZERO, FormattedLiteral(t, open)));
    }
  }

  lemma {:induction false} FormatChars(s: Str, k: Str, open: seq<bool>)
    ensures FormattedLiteral(PrintChars(s, k), open) == PrintChars(s, FormattedLiteral(k, open))
  {
    if s.Ch? {
      hide PrintChar;
      FormatChars(s.rest, k, open);
      FormatChar(s.c, PrintChars(s.rest, k), open);
    }
  }

  lemma FormatString(s: Str, k: Str, open: seq<bool>)
    ensures Formatted(PrintString(s, k), open) == PrintString(s, Formatted(k, open))
  {
    hide PrintChars;
    FormatChars(s, Ch(QUOTE, k), open);
  }

  /** Letters, digits and the minus sign. */
  predicate IsWord(t: Str) {
    t.Nul? || ((t.c == 45 || 48 <= t.c <= 57 || 97 <= t.c <= 122) && IsWord(t.rest))
  }

  lemma {:induction false} FormatWord(t: Str, k: Str, open: seq<bool>)
    requires IsWord(t)
    ensures Formatted(Append(t, k), open) == Append(t, Formatted(k, open))
  {
    if t.Ch? { FormatWord(t.rest, k, open); }
  }

  function TextOf(s: string): Str
    requires forall i :: 0 <= i < |s| ==> 0 < s[i] as int < 256
  {
    if s == "" then Nul else Ch(s[0] as int, TextOf(s[1..]))
  }

  lemma Keywords()
    ensures NULL_TEXT == TextOf("null") && TRUE_TEXT == TextOf("true") && FALSE_TEXT == TextOf("false")
    ensures IsWord(NULL_TEXT) && IsWord(TRUE_TEXT) && IsWord(FALSE_TEXT)
  {
    assert IsWord(NULL_TEXT.rest.rest) && IsWord(TRUE_TEXT.rest.rest);
    assert IsWord(FALSE_TEXT.rest.rest.rest);
    assert TextOf("ll") == Ch(108, Ch(108, Nul)) && TextOf("ue") == Ch(117, Ch(101, Nul));
    assert "null"[1..][1..] == "ll" && "true"[1..][1..] == "ue" && "false"[1..][1..] == "lse" && "lse"[1..] == "se";
    assert TextOf("se") == Ch(115, Ch(101, Nul));
  }

  lemma {:induction false} FormatNat(n: nat, k: Str, open: seq<bool>)
    ensures Formatted(PrintNat(n, k), open) == PrintNat(n, Formatted(k, open))
    decreases n
  {
    if n >= 10 { FormatNat(n / 10, Ch(48 + n % 10, k), open); }
  }

  lemma {:induction false} FormatValue(v: Json, depth: nat, k: Str, open: seq<bool>)
    requires IntegersOnly(v)
    ensures Formatted(PrintValue(v, depth, false, k), open) == PrintValue(v, |open|, true, Formatted(k, open))
    decreases v
  {
    hide PrintNat, Append, PrintString;
    match v
    case JNull => Keywords(); FormatWord(NULL_TEXT, k, open);
    case JBool(b) => Keywords(); FormatWord(if b then TRUE_TEXT else FALSE_TEXT, k, open);
    case JNumber(r) => FormatNat(if r.Floor < 0 then -r.Floor else r.Floor, k, open);
    case JString(s) => FormatString(s, k, open);
    case JArray(elems) => FormatElems(elems, depth, k, open + [false]);
    case JObject(members) =>
      if members == [] {
        TabsIndent(|open|, Ch(RBRACE, Formatted(k, open)));
      } else {
        NoBrace(members, depth + 1, k);
        FormatMembers(members, depth + 1, k, open + [true]);
      }
  }

  /** A member starts with its key. */
  lemma NoBrace(ms: seq<Member>, depth: nat, k: Str)
    requires ms != [] && AllIntegerMembers(ms) && depth > 0
    ensures Hd(PrintMembers(ms, depth, false, k)) == 34
  {
    hide PrintValue, PrintChars;
  }

  lemma {:induction false} FormatElems(vs: seq<Json>, depth: nat, k: Str, open: seq<bool>)
    requires AllIntegers(vs) && open != [] && !open[|open| - 1]
    ensures Formatted(PrintElems(vs, depth, false, k), open) ==
      PrintElems(vs, |open| - 1, true, Formatted(k, open[..|open| - 1]))
    decreases vs
  {
    if vs != [] {
      hide PrintValue;
      FormatElems(vs[1..], depth, k, open);
      FormatValue(vs[0], depth + 1,
        if |vs| == 1 then Ch(RBRACK, k) else Ch(COMMA, PrintElems(vs[1..], depth, false, k)), open);
    }
  }

  lemma FormatMember(m: Member, depth: nat, k: Str, open: seq<bool>)
    requires IsIntegerMember(m)
    ensures Indented(|open|, Formatted(PrintMember(m, depth, false, k), open)) ==
      PrintMember(m, |open|, true, Formatted(k, open))
    decreases m
  {
    hide PrintValue, PrintString;
    var t := Ch(COLON, PrintValue(m.value, depth, false, k));
    FormatValue(m.value, depth, k, open);
    FormatString(m.key, t, open);
    TabsIndent(|open|, PrintString(m.key, Formatted(t, open)));
  }

  lemma {:induction false} FormatMembers(ms: seq<Member>, depth: nat, k: Str, open: seq<bool>)
    requires ms != [] && AllIntegerMembers(ms) && depth > 0 && open != [] && open[|open| - 1]
    ensures Indented(|open|, Formatted(PrintMembers(ms, depth, false, k), open)) ==
      PrintMembers(ms, |open|, true, Formatted(k, open[..|open| - 1]))
    decreases ms
  {
    hide PrintMember;
    if |ms| == 1 {
      FormatMember(ms[0], depth, Ch(RBRACE, k), open);
      TabsIndent(|open| - 1, Ch(RBRACE, Formatted(k, open[..|open| - 1])));
    } else {
      FormatMembers(ms[1..], depth, k, open);
      FormatMember(ms[0], depth, Ch(COMMA, PrintMembers(ms[1..], depth, false, k)), open);
    }
  }

  /** cJSON_Print is cJSON_PrintUnformatted with white space put in: every member starts a line with as
      many tabs as braces and brackets are open there. */
  lemma PrintFormats(v: Json)
    requires IntegersOnly(v)
    ensures Print(v, true) == Formatted(Print(v, false), [])
  {
    FormatValue(v, 0, Nul, []);
  }
}
