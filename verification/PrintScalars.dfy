/** How print_string_ptr and print_number write, wherever the room comes from. */
module PrintScalars {
  import opened CString
  import opened Buffer
  import opened Json
  import opened JsonPrinter
  import opened PrintLength
  import opened BufferWriting
  import opened Heap

  predicate NoEscape(s: Str) {
    s.Nul? || (!NeedsEscape(s.c) && NoEscape(s.rest))
  }

  lemma {:induction false} PlainText(s: Str, k: Str)
    requires NoEscape(s)
    ensures PrintChars(s, k) == Append(s, k)
  {
    if s.Ch? { PlainText(s.rest, k); }
  }

  /** The room one character takes. */
  function Width(c: uchar): nat {
    if !NeedsEscape(c) then 1 else if ShortEscape(c).Some? then 2 else 6
  }

  lemma CharWidth(c: uchar, k: Str)
    ensures Len(PrintChar(c, k)) == Width(c) + Len(k)
  {
    var digits := Ch(HexChar(c / 16), Ch(HexChar(c % 16), k));
    assert Len(digits) == 2 + Len(k);
    assert Len(Ch(ZERO, Ch(ZERO, digits))) == 4 + Len(k);
  }

  lemma {:induction false} CharsWidth(s: Str, k: Str)
    ensures Len(PrintChars(s, k)) == Len(PrintChars(s, Nul)) + Len(k)
  {
    CharsAppend(s, Nul, k);
  }

  /** The first passes of print_string_ptr: whether something needs an escape, and the length of
      the text between the quotes. The count is exact. */
  method CountString(str: array<byte>) returns (flag: bool, len: nat)
    requires IsText(str)
    ensures flag == !NoEscape(TextOf(str))
    ensures len + 2 == Len(PrintString(TextOf(str), Nul))
  {
    ghost var s := TextOf(str);
    CharsWidth(s, Ch(QUOTE, Nul));
    flag := false;
    var i := 0;
    while str[i] != 0
      invariant Terminated(str[..], i) && NoEscape(s) == (!flag && NoEscape(TextAt(str[..], i)))
      invariant i + Len(TextAt(str[..], i)) == Len(s)
      decreases str.Length - i
    {
      if (str[i] > 0 && str[i] < 32) || str[i] == QUOTE || str[i] == BSLASH {
        flag := true;
      }
      i := i + 1;
    }
    if !flag {
      PlainText(s, Nul);
      len := i;
      return;
    }
    len, i := 0, 0;
    while str[i] != 0
      invariant Terminated(str[..], i)
      invariant len + Len(PrintChars(TextAt(str[..], i), Nul)) == Len(PrintChars(s, Nul))
      decreases str.Length - i
    {
      var token := str[i];
      CharWidth(token, PrintChars(TextAt(str[..], i + 1), Nul));
      len := len + 1;
      if token == QUOTE || token == BSLASH || token == 8 || token == 12 || token == LF || token == CR || token == TAB {
        len := len + 1;
      } else if token < 32 {
        len := len + 5;
      }
      i := i + 1;
    }
  }

  /** One character of a string that needs escapes. */
  method PutEscaped(a: array<byte>, i: nat, c: uchar, ghost goal: Str, ghost k: Str) returns (j: nat)
    requires Writing(a[..], i, goal, PrintChar(c, k)) && i + Width(c) < a.Length
    modifies a
    ensures j == i + Width(c) && Writing(a[..], j, goal, k)
  {
    hide Writing;
    ghost var text := PrintChar(c, k);
    if c > 31 && c != QUOTE && c != BSLASH {
      j := Put(a, i, c, goal, text);
      return;
    }
    j := Put(a, i, BSLASH, goal, text);
    match c {
      case 92 => j := Put(a, j, BSLASH, goal, text.rest);
      case 34 => j := Put(a, j, QUOTE, goal, text.rest);
      case 8 => j := Put(a, j, 98, goal, text.rest);
      case 12 => j := Put(a, j, 102, goal, text.rest);
      case 10 => j := Put(a, j, 110, goal, text.rest);
      case 13 => j := Put(a, j, 114, goal, text.rest);
      case 9 => j := Put(a, j, 116, goal, text.rest);
      case _ => j := PutHex(a, j, c, goal, k);
    }
  }

  /** Behind a backslash: the letter u and four hexadecimal digits for a control character. */
  method PutHex(a: array<byte>, i: nat, token: byte, ghost goal: Str, ghost k: Str) returns (j: nat)
    requires i + 5 < a.Length
    requires Writing(a[..], i, goal,
      Ch(LETTER_U, Ch(ZERO, Ch(ZERO, Ch(HexChar(token / 16), Ch(HexChar(token % 16), k))))))
    modifies a
    ensures j == i + 5 && Writing(a[..], j, goal, k)
  {
    hide Writing;
    ghost var digits := Ch(ZERO, Ch(ZERO, Ch(HexChar(token / 16), Ch(HexChar(token % 16), k))));
    j := Put(a, i, LETTER_U, goal, Ch(LETTER_U, digits));
    j := Put(a, j, ZERO, goal, digits);
    j := Put(a, j, ZERO, goal, digits.rest);
    j := Put(a, j, HexChar(token / 16), goal, digits.rest.rest);
    j := Put(a, j, HexChar(token % 16), goal, Ch(HexChar(token % 16), k));
    PutNul(a, j, goal, k);
  }

  /** The last pass of print_string_ptr, flag being the outcome of the first; k follows the text. */
  method PutString(a: array<byte>, i: nat, str: array<byte>, flag: bool, ghost goal: Str, ghost k: Str) returns (j: nat)
    requires a != str && IsText(str) && flag == !NoEscape(TextOf(str))
    requires Writing(a[..], i, goal, PrintString(TextOf(str), k))
    requires i + Len(PrintString(TextOf(str), Nul)) < a.Length
    modifies a
    ensures j == i + old(Len(PrintString(TextOf(str), Nul))) && Writing(a[..], j, goal, k) && a[j] == 0
  {
    hide Writing, NeedsEscape, ShortEscape, Width;
    ghost var s, end := TextOf(str), Ch(QUOTE, k);
    CharsWidth(s, Ch(QUOTE, Nul));
    j := Put(a, i, QUOTE, goal, PrintString(s, k));
    if !flag {
      PlainText(s, end);
      PlainText(s, Nul);
      AppendNul(s);
      j := PutEntry(a, j, str, goal, end);
    } else {
      j := PutEscapedString(a, j, str, goal, end);
    }
    j := Put(a, j, QUOTE, goal, end);
    PutNul(a, j, goal, k);
  }

  method PutEscapedString(a: array<byte>, i: nat, str: array<byte>, ghost goal: Str, ghost end: Str) returns (j: nat)
    requires a != str && IsText(str) && Writing(a[..], i, goal, PrintChars(TextOf(str), end))
    requires i + Len(PrintChars(TextOf(str), Nul)) < a.Length
    modifies a
    ensures j == i + old(Len(PrintChars(TextOf(str), Nul))) && Writing(a[..], j, goal, end)
  {
    hide Writing, NeedsEscape, ShortEscape, Width, PrintChar;
    j := i;
    var q := 0;
    while str[q] != 0
      invariant Terminated(str[..], q) && Writing(a[..], j, goal, PrintChars(TextAt(str[..], q), end))
      invariant j + Len(PrintChars(TextAt(str[..], q), Nul)) == i + Len(PrintChars(TextOf(str), Nul))
      decreases str.Length - q
    {
      ghost var rest := TextAt(str[..], q + 1);
      CharWidth(str[q], PrintChars(rest, Nul));
      j := PutEscaped(a, j, str[q], goal, PrintChars(rest, end));
      q := q + 1;
    }
  }

  /** The loop that writes the tabs of an indentation. */
  method PutTabs(a: array<byte>, i: nat, n: nat, ghost goal: Str, ghost k: Str) returns (j: nat)
    requires Writing(a[..], i, goal, Tabs(n, k)) && i + n <= a.Length
    modifies a
    ensures j == i + n && Writing(a[..], j, goal, k)
  {
    hide Writing;
    j := i;
    for t := 0 to n
      invariant j == i + t && Writing(a[..], j, goal, Tabs(n - t, k))
    {
      j := Put(a, j, TAB, goal, Tabs(n - t, k));
    }
  }

  // ---- numbers ----

  lemma {:induction false} NatWidth(n: nat, d: nat)
    requires d > 0 && n < Power(d)
    ensures Len(PrintNat(n, Nul)) <= d
    decreases n
  {
    if n >= 10 {
      assert Power(d) == 10 * Power(d - 1);
      hide Power;
      NatWidth(n / 10, d - 1);
      NatMore(n);
    } else {
      assert Len(Ch(48 + n, Nul)) == 1;
    }
  }

  /** One digit more. */
  lemma NatMore(n: nat)
    requires n >= 10
    ensures Len(PrintNat(n, Nul)) == Len(PrintNat(n / 10, Nul)) + 1
  {
    NatAppend(n / 10, Nul, Ch(48 + n % 10, Nul));
    assert Len(Ch(48 + n % 10, Nul)) == 1;
  }

  /** 10^d */
  function Power(d: nat): nat {
    if d == 0 then 1 else 10 * Power(d - 1)
  }

  lemma ZeroText(k: Str)
    ensures PrintInt(0, k) == Append(Ch(ZERO, Nul), k)
  {
    assert Append(Nul, k) == k;
  }

  /** A 32-bit integer fits into the 21 bytes print_number provides. */
  lemma IntWidth(n: int)
    requires INT_MIN <= n <= INT_MAX
    ensures Len(PrintInt(n, Nul)) <= 11
  {
    var m := if n < 0 then -n else n;
    assert Power(10) == 10_000_000_000 by {
      assert Power(5) == 100_000;
      assert Power(8) == 100_000_000;
    }
    NatWidth(m, 10);
  }

  lemma NatFrom(n: nat, k: Str)
    ensures Len(PrintNat(n, k)) == Len(PrintNat(n, Nul)) + Len(k) && Len(PrintNat(n, Nul)) > 0
  {
    NatAppend(n, Nul, k);
    if n >= 10 { NatAppend(n / 10, Nul, Ch(48 + n % 10, Nul)); }
  }

  /** The digits of "%d". */
  method PutNat(a: array<byte>, i: nat, n: nat, ghost goal: Str, ghost k: Str) returns (j: nat)
    requires Writing(a[..], i, goal, PrintNat(n, k)) && i + Len(PrintNat(n, Nul)) <= a.Length
    modifies a
    ensures j == i + Len(PrintNat(n, Nul)) && Writing(a[..], j, goal, k)
    decreases n
  {
    hide Writing;
    j := i;
    ghost var last := Ch(48 + n % 10, k);
    if n >= 10 {
      NatFrom(n / 10, Ch(48 + n % 10, Nul));
      j := PutNat(a, i, n / 10, goal, last);
    }
    j := Put(a, j, 48 + n % 10, goal, last);
  }

  /** The decimal digits of an integer, behind a sign if it is negative, and a terminator. */
  method PutInt(a: array<byte>, i: nat, n: int, ghost goal: Str, ghost k: Str) returns (j: nat)
    requires Writing(a[..], i, goal, PrintInt(n, k)) && i + Len(PrintInt(n, Nul)) < a.Length
    modifies a
    ensures j == i + Len(PrintInt(n, Nul)) && Writing(a[..], j, goal, k) && a[j] == 0
  {
    hide Writing;
    j := i;
    if n < 0 {
      j := Put(a, j, MINUS, goal, PrintInt(n, k));
      j := PutNat(a, j, -n, goal, k);
    } else {
      j := PutNat(a, j, n, goal, k);
    }
    PutNul(a, j, goal, k);
  }
}
