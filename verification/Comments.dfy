/** What cJSON_Minify takes out: white space and comments outside string literals, in character codes. */
module Comments {
  import opened CString
  import opened Minify

  /** The end of s lies outside string literals and comments, and no slash of s could start one. */
  predicate Outside(s: Str)
    decreases Len(s)
  {
    s.Nul? ||
    if s.c == 34 then OutsideLiteral(s.rest)
    else (s.c == 47 ==> s.rest.Ch? && s.rest.c != 47 && s.rest.c != 42) && Outside(s.rest)
  }

  predicate OutsideLiteral(s: Str)
    decreases Len(s)
  {
    s.Ch? &&
    if s.c == 34 then Outside(s.rest)
    else if s.c == 92 then s.rest.Ch? && (assert Len(s.rest.rest) < Len(s.rest); OutsideLiteral(s.rest.rest))
    else OutsideLiteral(s.rest)
  }

  /** No star of s has a slash behind it. */
  predicate NotClosed(s: Str) {
    s.Nul? || ((s.c == 42 ==> Hd(s.rest) != 47) && NotClosed(s.rest))
  }

  predicate OneLine(s: Str) {
    s.Nul? || (s.c != 10 && OneLine(s.rest))
  }

  /** White space, a line comment, a block comment, or one whose opening star is the closing one. */
  datatype Gap = White(c: uchar) | Line(text: Str) | Block(text: Str) | Short

  predicate IsGap(g: Gap) {
    match g
    case White(c) => c == 9 || c == 10 || c == 13 || c == 32
    case Line(text) => OneLine(text)
    case Block(text) => Hd(text) != 47 && NotClosed(text)
    case Short => true
  }

  /** Its text, in front of k. */
  function GapText(g: Gap, k: Str): Str {
    match g
    case White(c) => Ch(c, k)
    case Line(text) => Ch(47, Ch(47, Append(text, Ch(10, k))))
    case Block(text) => Ch(47, Ch(42, Append(text, Ch(42, Ch(47, k)))))
    case Short => Ch(47, Ch(42, Ch(47, k)))
  }

  lemma {:induction false} LineSkipped(text: Str, k: Str)
    requires OneLine(text)
    ensures SkipLine(Append(text, Ch(10, k))) == Ch(10, k)
  {
    if text.Ch? { LineSkipped(text.rest, k); }
  }

  lemma {:induction false} BlockSkipped(text: Str, k: Str)
    requires NotClosed(text)
    ensures SkipBlock(Append(text, Ch(42, Ch(47, k)))) == Some(k)
  {
    if text.Ch? { BlockSkipped(text.rest, k); }
  }

  lemma GapMinified(g: Gap, k: Str)
    requires IsGap(g)
    ensures Minified(GapText(g, k)) == Minified(k)
  {
    match g
    case White(c) =>
    case Line(text) => LineSkipped(text, k);
    case Block(text) => BlockSkipped(text, k);
    case Short =>
  }

  lemma {:induction false} SameBehind(a: Str, k: Str, l: Str)
    requires Outside(a) && Minified(k) == Minified(l)
    ensures Minified(Append(a, k)) == Minified(Append(a, l))
    decreases Len(a)
  {
    if a.Ch? {
      if a.c == 34 { SameBehindLiteral(a.rest, k, l); } else { SameBehind(a.rest, k, l); }
    }
  }

  lemma {:induction false} SameBehindLiteral(a: Str, k: Str, l: Str)
    requires OutsideLiteral(a) && Minified(k) == Minified(l)
    ensures MinifiedString(Append(a, k)) == MinifiedString(Append(a, l))
    decreases Len(a)
  {
    if a.c == 34 {
      SameBehind(a.rest, k, l);
    } else if a.c == 92 {
      assert Len(a.rest.rest) < Len(a.rest);
      SameBehindLiteral(a.rest.rest, k, l);
    } else {
      SameBehindLiteral(a.rest, k, l);
    }
  }

  /** Wherever it stands outside a string literal, it does not matter to what is left. */
  lemma GapTakenOut(a: Str, g: Gap, k: Str)
    requires Outside(a) && IsGap(g)
    ensures Minified(Append(a, GapText(g, k))) == Minified(Append(a, k))
  {
    GapMinified(g, k);
    SameBehind(a, GapText(g, k), k);
  }

  lemma {:induction false} LineToEnd(text: Str)
    requires OneLine(text)
    ensures SkipLine(text) == Nul
  {
    if text.Ch? { LineToEnd(text.rest); }
  }

  /** A line comment may also end with the text. */
  lemma LastLineTakenOut(a: Str, text: Str)
    requires Outside(a) && OneLine(text)
    ensures Minified(Append(a, Ch(47, Ch(47, text)))) == Minified(a)
  {
    LineToEnd(text);
    SameBehind(a, Ch(47, Ch(47, text)), Nul);
    AppendNul(a);
  }

  /** Every other character stays. */
  lemma OthersStay(c: uchar, k: Str)
    requires !IsGap(White(c)) && c != 34 && (c == 47 ==> k.Nul? || (k.c != 47 && k.c != 42))
    ensures Minified(Ch(c, k)) == Prepend(c, Minified(k))
  {
  }
}
