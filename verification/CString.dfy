/** C strings. */
module CString {

  datatype Option<+T> = None | Some(value: T)

  /** One cell of a char buffer, read as an unsigned char. */
  type byte = x: int | 0 <= x < 256

  /** A character of a C string; a C string holds no NUL. */
  type uchar = x: int | 0 < x < 256 witness 1

  /** A C string, and equally a `const char *` into one: what a pointer can see is the rest of its
      string up to the terminator. Advancing a pointer is .rest, which Nul does not have, so every
      function and loop over a Str proves that it never moves past the terminator. */
  datatype Str = Nul | Ch(c: uchar, rest: Str)

  const TAB: uchar := 9
  const LF: uchar := 10
  const CR: uchar := 13
  const SPACE: uchar := 32
  const QUOTE: uchar := 34
  const STAR: uchar := 42
  const PLUS: uchar := 43
  const COMMA: uchar := 44
  const MINUS: uchar := 45
  const DOT: uchar := 46
  const SLASH: uchar := 47
  const ZERO: uchar := 48
  const COLON: uchar := 58
  const LBRACK: uchar := 91
  const BSLASH: uchar := 92
  const RBRACK: uchar := 93
  const LETTER_U: uchar := 117
  const LBRACE: uchar := 123
  const RBRACE: uchar := 125

  /** The character a pointer points to; the terminator at the end. */
  function Hd(s: Str): byte {
    if s.Nul? then 0 else s.c
  }

  /** strlen(s) */
  function Len(s: Str): nat {
    if s.Nul? then 0 else 1 + Len(s.rest)
  }

  function Append(s: Str, k: Str): (r: Str)
    ensures Len(r) == Len(s) + Len(k)
  {
    if s.Nul? then k else Ch(s.c, Append(s.rest, k))
  }

  lemma {:induction false} AppendAssoc(a: Str, b: Str, c: Str)
    ensures Append(Append(a, b), c) == Append(a, Append(b, c))
  {
    if a.Ch? { AppendAssoc(a.rest, b, c); }
  }

  lemma {:induction false} AppendNul(a: Str)
    ensures Append(a, Nul) == a
  {
    if a.Ch? { AppendNul(a.rest); }
  }

  /** t is a prefix of s: strncmp(s, t, strlen(t)) == 0. */
  predicate HasPrefix(s: Str, t: Str): (b: bool)
    ensures b ==> Len(t) <= Len(s)
  {
    t.Nul? || (s.Ch? && s.c == t.c && HasPrefix(s.rest, t.rest))
  }

  /** s + n */
  function Drop(s: Str, n: nat): (r: Str)
    requires n <= Len(s)
    ensures Len(r) == Len(s) - n
  {
    if n == 0 then s else Drop(s.rest, n - 1)
  }

  predicate IsDigit(c: byte) {
    48 <= c <= 57
  }

  /** tolower in the C locale. */
  function ToLower(c: byte): byte {
    if 65 <= c <= 90 then c + 32 else c
  }

  /** cJSON_strcasecmp(s, t) == 0 */
  predicate SameNoCase(s: Str, t: Str) {
    ToLower(Hd(s)) == ToLower(Hd(t)) && (s.Nul? || SameNoCase(s.rest, t.rest))
  }

  /** A capital letter of ASCII and its small letter, or the same character. */
  predicate SameLetter(c: byte, d: byte) {
    c == d || (65 <= c <= 90 && d == c + 32) || (65 <= d <= 90 && c == d + 32)
  }

  /** s[i] */
  function CharAt(s: Str, i: nat): uchar
    requires i < Len(s)
  {
    if i == 0 then s.c else CharAt(s.rest, i - 1)
  }

  /** The strings are as long and differ in the case of letters at most. */
  ghost predicate SameLetters(s: Str, t: Str) {
    Len(s) == Len(t) && forall i :: 0 <= i < Len(s) ==> SameLetter(CharAt(s, i), CharAt(t, i))
  }

  /** These are the strings that are equal up to case. */
  lemma {:induction false} SameNoCaseIs(s: Str, t: Str)
    ensures SameNoCase(s, t) <==> SameLetters(s, t)
  {
    if s.Ch? && t.Ch? {
      SameNoCaseIs(s.rest, t.rest);
      if SameNoCase(s, t) {
        forall i | 0 <= i < Len(s) ensures SameLetter(CharAt(s, i), CharAt(t, i)) {
          if i > 0 { assert SameLetter(CharAt(s.rest, i - 1), CharAt(t.rest, i - 1)); }
        }
      } else if Len(s) == Len(t) {
        var i: nat := 0;
        if SameLetter(s.c, t.c) {
          var k :| 0 <= k < Len(s.rest) && !SameLetter(CharAt(s.rest, k), CharAt(t.rest, k));
          i := k + 1;
        }
        assert !SameLetter(CharAt(s, i), CharAt(t, i));
      }
    }
  }

  lemma {:induction false} SameNoCaseBoth(s: Str, a: Str, b: Str)
    requires SameNoCase(a, b)
    ensures SameNoCase(s, a) <==> SameNoCase(s, b)
  {
    if s.Ch? && a.Ch? && b.Ch? { SameNoCaseBoth(s.rest, a.rest, b.rest); }
  }
}
