/** What follows a printed text does not change it, and how long printed texts are. */
module PrintLength {
  import opened CString
  import opened Json
  import opened JsonPrinter

  lemma {:induction false} CharsAppend(s: Str, j: Str, k: Str)
    ensures PrintChars(s, Append(j, k)) == Append(PrintChars(s, j), k)
  {
    if s.Ch? {
      CharsAppend(s.rest, j, k);
      CharAppend(s.c, PrintChars(s.rest, j), k);
    }
  }

  lemma CharAppend(c: uchar, j: Str, k: Str)
    ensures PrintChar(c, Append(j, k)) == Append(PrintChar(c, j), k)
  {
    TwoAppend(HexChar(c / 16), HexChar(c % 16), j, k);
    var digits := Ch(HexChar(c / 16), Ch(HexChar(c % 16), j));
    TwoAppend(ZERO, ZERO, digits, k);
    TwoAppend(BSLASH, LETTER_U, Ch(ZERO, Ch(ZERO, digits)), k);
    if ShortEscape(c).Some? { TwoAppend(BSLASH, ShortEscape(c).value, j, k); }
  }

  lemma TwoAppend(a: uchar, b: uchar, j: Str, k: Str)
    ensures Append(Ch(a, Ch(b, j)), k) == Ch(a, Ch(b, Append(j, k)))
  {
    assert Append(Ch(b, j), k) == Ch(b, Append(j, k));
  }

  lemma {:induction false} NatAppend(n: nat, j: Str, k: Str)
    ensures PrintNat(n, Append(j, k)) == Append(PrintNat(n, j), k)
  {
    if n >= 10 { NatAppend(n / 10, Ch(48 + n % 10, j), k); }
  }

  lemma {:induction false} IndentationAppend(fmt: bool, n: nat, j: Str, k: Str)
    ensures Indentation(fmt, n, Append(j, k)) == Append(Indentation(fmt, n, j), k)
  {
    if n > 0 { IndentationAppend(fmt, n - 1, j, k); }
  }

  lemma {:induction false} ValueAppend(v: Json, depth: nat, fmt: bool, j: Str, k: Str)
    requires IntegersOnly(v)
    ensures PrintValue(v, depth, fmt, Append(j, k)) == Append(PrintValue(v, depth, fmt, j), k)
    decreases v
  {
    match v
    case JNull => AppendAssoc(NULL_TEXT, j, k);
    case JBool(b) => AppendAssoc(if b then TRUE_TEXT else FALSE_TEXT, j, k);
    case JNumber(r) => NatAppend(if r.Floor < 0 then -r.Floor else r.Floor, j, k);
    case JString(s) => CharsAppend(s, Ch(QUOTE, j), k);
    case JArray(elems) => ElemsAppend(elems, depth, fmt, j, k);
    case JObject(members) =>
      if members == [] {
        IndentationAppend(fmt, depth, Ch(RBRACE, j), k);
      } else {
        MembersAppend(members, depth + 1, fmt, j, k);
      }
  }

  lemma {:induction false} ElemsAppend(vs: seq<Json>, depth: nat, fmt: bool, j: Str, k: Str)
    requires AllIntegers(vs)
    ensures PrintElems(vs, depth, fmt, Append(j, k)) == Append(PrintElems(vs, depth, fmt, j), k)
    decreases vs
  {
    if |vs| == 1 {
      ValueAppend(vs[0], depth + 1, fmt, Ch(RBRACK, j), k);
    } else if |vs| > 1 {
      var rest := PrintElems(vs[1..], depth, fmt, j);
      ElemsAppend(vs[1..], depth, fmt, j, k);
      ValueAppend(vs[0], depth + 1, fmt, Ch(COMMA, Only(fmt, SPACE, rest)), k);
      assert Append(Ch(COMMA, Only(fmt, SPACE, rest)), k) == Ch(COMMA, Only(fmt, SPACE, Append(rest, k)));
    }
  }

  lemma {:induction false} MemberAppend(m: Member, depth: nat, fmt: bool, j: Str, k: Str)
    requires IsIntegerMember(m)
    ensures PrintMember(m, depth, fmt, Append(j, k)) == Append(PrintMember(m, depth, fmt, j), k)
    decreases m
  {
    var value := PrintValue(m.value, depth, fmt, j);
    var afterKey := Ch(COLON, Only(fmt, TAB, value));
    ValueAppend(m.value, depth, fmt, j, k);
    assert Append(afterKey, k) == Ch(COLON, Only(fmt, TAB, Append(value, k)));
    CharsAppend(m.key, Ch(QUOTE, afterKey), k);
    IndentationAppend(fmt, depth, PrintString(m.key, afterKey), k);
  }

  lemma {:induction false} MembersAppend(ms: seq<Member>, depth: nat, fmt: bool, j: Str, k: Str)
    requires ms != [] && AllIntegerMembers(ms) && depth > 0
    ensures PrintMembers(ms, depth, fmt, Append(j, k)) == Append(PrintMembers(ms, depth, fmt, j), k)
    decreases ms
  {
    if |ms| == 1 {
      var end := Indentation(fmt, depth - 1, Ch(RBRACE, j));
      IndentationAppend(fmt, depth - 1, Ch(RBRACE, j), k);
      MemberAppend(ms[0], depth, fmt, Only(fmt, LF, end), k);
    } else {
      var rest := PrintMembers(ms[1..], depth, fmt, j);
      MembersAppend(ms[1..], depth, fmt, j, k);
      MemberAppend(ms[0], depth, fmt, Ch(COMMA, Only(fmt, LF, rest)), k);
      assert Append(Ch(COMMA, Only(fmt, LF, rest)), k) == Ch(COMMA, Only(fmt, LF, Append(rest, k)));
    }
  }

  // ---- where a printer stands between two elements or members ----

  lemma {:induction false} IntegersFrom(vs: seq<Json>, i: nat)
    requires AllIntegers(vs) && i <= |vs|
    ensures AllIntegers(vs[i..]) && (i < |vs| ==> IntegersOnly(vs[i]))
    decreases i
  {
    if i == 0 {
      assert vs[0..] == vs;
    } else {
      IntegersFrom(vs[1..], i - 1);
      assert vs[1..][i - 1..] == vs[i..];
    }
  }

  lemma {:induction false} MembersFrom(ms: seq<Member>, i: nat)
    requires AllIntegerMembers(ms) && i <= |ms|
    ensures AllIntegerMembers(ms[i..]) && (i < |ms| ==> IntegersOnly(ms[i].value))
    decreases i
  {
    if i == 0 {
      assert ms[0..] == ms;
    } else {
      MembersFrom(ms[1..], i - 1);
      assert ms[1..][i - 1..] == ms[i..];
    }
  }

  /** The elements from the i-th on, and what follows them. */
  function ElemsFrom(vs: seq<Json>, i: nat, depth: nat, fmt: bool, k: Str): Str
    requires AllIntegers(vs) && i <= |vs|
  {
    IntegersFrom(vs, i);
    PrintElems(vs[i..], depth, fmt, k)
  }

  /** What follows the i-th element. */
  function ElemTail(vs: seq<Json>, i: nat, depth: nat, fmt: bool, k: Str): Str
    requires AllIntegers(vs) && i < |vs|
  {
    if i == |vs| - 1 then Ch(RBRACK, k) else Ch(COMMA, Only(fmt, SPACE, ElemsFrom(vs, i + 1, depth, fmt, k)))
  }

  lemma {:induction false} ElemStep(vs: seq<Json>, i: nat, depth: nat, fmt: bool, k: Str)
    requires AllIntegers(vs) && i <= |vs|
    ensures i == |vs| ==> ElemsFrom(vs, i, depth, fmt, k) == Ch(RBRACK, k)
    ensures i < |vs| ==> IntegersOnly(vs[i])
    ensures i < |vs| ==>
      ElemsFrom(vs, i, depth, fmt, k) == PrintValue(vs[i], depth + 1, fmt, ElemTail(vs, i, depth, fmt, k))
    ensures i == 0 ==> ElemsFrom(vs, i, depth, fmt, k) == PrintElems(vs, depth, fmt, k)
  {
    IntegersFrom(vs, i);
    assert vs[0..] == vs;
    if i + 1 < |vs| {
      IntegersFrom(vs, i + 1);
      assert vs[i..][1..] == vs[i + 1..];
    }
  }

  /** The members from the i-th on, and what follows them; depth is theirs. */
  function MembersRest(ms: seq<Member>, i: nat, depth: nat, fmt: bool, k: Str): Str
    requires AllIntegerMembers(ms) && i <= |ms| && depth > 0
  {
    if i == |ms| then Indentation(fmt, depth - 1, Ch(RBRACE, k)) else
    MembersFrom(ms, i);
    PrintMembers(ms[i..], depth, fmt, k)
  }

  /** What follows the i-th member. */
  function MemberTail(ms: seq<Member>, i: nat, depth: nat, fmt: bool, k: Str): Str
    requires AllIntegerMembers(ms) && i < |ms| && depth > 0
  {
    var rest := Only(fmt, LF, MembersRest(ms, i + 1, depth, fmt, k));
    if i == |ms| - 1 then rest else Ch(COMMA, rest)
  }

  lemma {:induction false} MemberStep(ms: seq<Member>, i: nat, depth: nat, fmt: bool, k: Str)
    requires AllIntegerMembers(ms) && i < |ms| && depth > 0
    ensures IntegersOnly(ms[i].value)
    ensures MembersRest(ms, i, depth, fmt, k) == PrintMember(ms[i], depth, fmt, MemberTail(ms, i, depth, fmt, k))
    ensures i == 0 ==> MembersRest(ms, i, depth, fmt, k) == PrintMembers(ms, depth, fmt, k)
  {
    MembersFrom(ms, i);
    assert ms[0..] == ms;
    if i + 1 < |ms| {
      MembersFrom(ms, i + 1);
      assert ms[i..][1..] == ms[i + 1..];
    }
  }

  // ---- the same in the pieces that the printers write ----

  lemma {:induction false} TabsLength(n: nat, k: Str)
    ensures Len(Tabs(n, k)) == n + Len(k)
  {
    if n > 0 { TabsLength(n - 1, k); }
  }

  /** Up to two characters in front of k. */
  function Opts(first: Option<uchar>, second: Option<uchar>, k: Str): Str {
    var rest := if second.Some? then Ch(second.value, k) else k;
    if first.Some? then Ch(first.value, rest) else rest
  }

  lemma {:induction false} ElemSeparator(vs: seq<Json>, j: nat, depth: nat, fmt: bool, k: Str)
    requires AllIntegers(vs) && j < |vs|
    ensures j < |vs| - 1 ==>
      ElemTail(vs, j, depth, fmt, k) ==
        Opts(Some(COMMA), if fmt then Some(SPACE) else None, ElemsFrom(vs, j + 1, depth, fmt, k))
    ensures j == |vs| - 1 ==> ElemTail(vs, j, depth, fmt, k) == ElemsFrom(vs, j + 1, depth, fmt, k)
  {
    hide ElemsFrom;
    ElemStep(vs, j + 1, depth, fmt, k);
  }

  lemma {:induction false} MembersEnd(ms: seq<Member>, depth: nat, fmt: bool, k: Str)
    requires AllIntegerMembers(ms) && depth > 0
    ensures MembersRest(ms, |ms|, depth, fmt, k) == Tabs(if fmt then depth - 1 else 0, Ch(RBRACE, k))
  {
  }

  lemma {:induction false} MemberPieces(ms: seq<Member>, j: nat, depth: nat, fmt: bool, k: Str)
    returns (after: Str, tail: Str)
    requires AllIntegerMembers(ms) && j < |ms| && depth > 0
    ensures MembersRest(ms, j, depth, fmt, k) ==
      Indentation(fmt, depth, PrintString(ms[j].key, Opts(Some(COLON), if fmt then Some(TAB) else None, after)))
    ensures IntegersOnly(ms[j].value) && after == PrintValue(ms[j].value, depth, fmt, tail)
    ensures tail ==
      Opts(if j + 1 < |ms| then Some(COMMA) else None, if fmt then Some(LF) else None,
           MembersRest(ms, j + 1, depth, fmt, k))
  {
    MemberStep(ms, j, depth, fmt, k);
    tail := MemberTail(ms, j, depth, fmt, k);
    after := PrintValue(ms[j].value, depth, fmt, tail);
  }

  lemma {:induction false} ObjectText(ms: seq<Member>, depth: nat, fmt: bool, k: Str)
    requires AllIntegerMembers(ms)
    ensures ms == [] ==>
      PrintValue(JObject(ms), depth, fmt, k) == Ch(LBRACE, Only(fmt, LF, Tabs(if fmt then depth else 0, Ch(RBRACE, k))))
    ensures ms != [] ==>
      PrintValue(JObject(ms), depth, fmt, k) ==
        Opts(Some(LBRACE), if fmt then Some(LF) else None, MembersRest(ms, 0, depth + 1, fmt, k))
  {
    if ms != [] { MemberStep(ms, 0, depth + 1, fmt, k); }
  }

  lemma {:induction false} StringAppend(s: Str, k: Str)
    ensures PrintString(s, k) == Append(PrintString(s, Nul), k)
  {
    assert Append(Ch(QUOTE, Nul), k) == Ch(QUOTE, k) by { assert Append(Nul, k) == k; }
    CharsAppend(s, Ch(QUOTE, Nul), k);
  }

  /** A member in terms of the strings its name and its value are printed into. */
  lemma {:induction false} MemberTexts(ms: seq<Member>, j: nat, depth: nat, fmt: bool, k: Str)
    returns (key: Str, colon: Str, text: Str, tail: Str)
    requires AllIntegerMembers(ms) && j < |ms| && depth > 0
    ensures IntegersOnly(ms[j].value)
    ensures key == PrintString(ms[j].key, Nul) && text == PrintValue(ms[j].value, depth, fmt, Nul)
    ensures MembersRest(ms, j, depth, fmt, k) == Indentation(fmt, depth, Append(key, colon))
    ensures colon == Opts(Some(COLON), if fmt then Some(TAB) else None, Append(text, tail))
    ensures tail ==
      Opts(if j + 1 < |ms| then Some(COMMA) else None, if fmt then Some(LF) else None,
           MembersRest(ms, j + 1, depth, fmt, k))
  {
    hide MembersRest, PrintValue, PrintString, AllIntegerMembers, IntegersOnly, Indentation;
    var after;
    after, tail := MemberPieces(ms, j, depth, fmt, k);
    key, text := PrintString(ms[j].key, Nul), PrintValue(ms[j].value, depth, fmt, Nul);
    colon := Opts(Some(COLON), if fmt then Some(TAB) else None, after);
    StringAppend(ms[j].key, colon);
    assert Append(Nul, tail) == tail;
    ValueAppend(ms[j].value, depth, fmt, Nul, tail);
  }
}
