/** The path language of util_cjson.c: ".key" and "[index]" steps, with "\" escapes in keys. */
module Path {
  import opened CString
  import opened Buffer
  import opened BufferWriting
  import opened Json
  import opened JsonPrinter

  // ---- what a path means ----

  /** The key at the start of a path, what follows it, and whether no escape lacks its character. */
  datatype Split = Split(key: Str, rest: Str, ok: bool)

  function SplitKey(s: Str): (r: Split)
    ensures Len(r.rest) <= Len(s)
  {
    if s.Nul? || s.c == DOT || s.c == LBRACK then Split(Nul, s, true)
    else if s.c == BSLASH then
      if s.rest.Nul? then Split(Nul, Nul, false)
      else var r := SplitKey(s.rest.rest); Split(Ch(s.rest.c, r.key), r.rest, r.ok)
    else var r := SplitKey(s.rest); Split(Ch(s.c, r.key), r.rest, r.ok)
  }

  /** atoi of digits, and what follows the bracket that closes them; None without one or with another
      character before it. No digits at all mean 0. */
  function SplitIndex(s: Str, n: nat): (r: Option<(nat, Str)>)
    ensures r.Some? ==> Len(r.value.1) < Len(s)
  {
    if s.Nul? then None
    else if s.c == RBRACK then Some((n, s.rest))
    else if IsDigit(s.c) then SplitIndex(s.rest, 10 * n + (s.c - 48))
    else None
  }

  // ---- steps and how they are written ----

  datatype Step = Key(name: Str) | Index(n: nat)

  predicate WfStep(s: Step) {
    match s
    case Key(name) => name.Ch?
    case Index(n) => n <= INT_MAX
  }

  predicate WfSteps(steps: seq<Step>) {
    forall i :: 0 <= i < |steps| ==> WfStep(steps[i])
  }

  function Escape(name: Str, k: Str): Str {
    if name.Nul? then k
    else if name.c == DOT || name.c == LBRACK || name.c == BSLASH then Ch(BSLASH, Ch(name.c, Escape(name.rest, k)))
    else Ch(name.c, Escape(name.rest, k))
  }

  function RenderStep(s: Step, k: Str): Str {
    match s
    case Key(name) => Ch(DOT, Escape(name, k))
    case Index(n) => Ch(LBRACK, PrintNat(n, Ch(RBRACK, k)))
  }

  function RenderSteps(steps: seq<Step>): Str {
    if steps == [] then Nul else RenderStep(steps[0], RenderSteps(steps[1..]))
  }

  /** The path of a list of steps; "." stands for none. */
  function Render(steps: seq<Step>): Str {
    if steps == [] then Ch(DOT, Nul) else RenderSteps(steps)
  }

  /** The text behind a step starts with a step or ends the path. */
  predicate Boundary(k: Str) {
    k.Nul? || k.c == DOT || k.c == LBRACK
  }

  lemma RenderedBoundary(steps: seq<Step>)
    ensures Boundary(RenderSteps(steps))
  {
  }

  /** Unescaping undoes escaping. */
  lemma {:induction false} SplitEscaped(name: Str, k: Str)
    requires Boundary(k)
    ensures SplitKey(Escape(name, k)) == Split(name, k, true)
  {
    if name.Ch? { SplitEscaped(name.rest, k); }
  }

  lemma {:induction false} SplitDigits(n: nat, k: Str)
    ensures SplitIndex(PrintNat(n, Ch(RBRACK, k)), 0) == Some((n, k))
  {
    SplitNat(n, Ch(RBRACK, k));
  }

  lemma {:induction false} SplitNat(n: nat, k: Str)
    ensures SplitIndex(PrintNat(n, k), 0) == SplitIndex(k, n)
    decreases n
  {
    if n >= 10 { SplitNat(n / 10, Ch(48 + n % 10, k)); }
  }

  // ---- the code that takes a step off a path ----

  /** strdup */
  method Duplicate(s: Str) returns (key: array<byte>)
    ensures fresh(key) && key.Length == Len(s) + 1 && HoldsText(key[..], 0, s)
  {
    key := new byte[Len(s) + 1];
    StrCpy(key, s);
    TextAtHolds(key[..], 0);
  }

  /** Everything between i and p has moved one to the left, and nothing else has changed. */
  ghost predicate Shifted(a: seq<byte>, b: seq<byte>, i: nat, p: nat) {
    i <= p < |a| == |b| && b[..i] == a[..i] && b[i..p] == a[i + 1..p + 1] && b[p..] == a[p..]
  }

  lemma {:induction false} ShiftedMore(a: seq<byte>, b: seq<byte>, i: nat, p: nat)
    requires Shifted(a, b, i, p) && p + 1 < |b|
    ensures p + 1 < |a| == |b| && Shifted(a, b[p := b[p + 1]], i, p + 1)
  {
    var c := b[p := b[p + 1]];
    assert b[p + 1] == b[p..][1] == a[p..][1] == a[p + 1];
    assert c[..i] == b[..i];
    assert c[i..p + 1] == b[i..p] + [a[p + 1]] == a[i + 1..p + 2];
    assert c[p + 1..] == b[p..][1..] == a[p..][1..] == a[p + 1..];
  }

  lemma {:induction false} ShiftedText(a: seq<byte>, b: seq<byte>, i: nat, r: Str)
    requires HoldsText(a, i, r) && r.Ch? && Shifted(a, b, i, i + Len(r))
    ensures HoldsText(b, i, r.rest)
  {
    var t := i + Len(r);
    HoldsTextSplit(a, i, r);
    assert a[i + 1..t] == a[i + 1..t + 1][..t - 1 - i] == b[i..t][..t - 1 - i] == b[i..t - 1];
    HoldsMoved(a, i + 1, b, i, r.rest);
    assert b[t - 1] == b[i..t][t - 1 - i] == a[i + 1..t + 1][t - 1 - i] == a[t];
    HoldsTextSplit(b, i, r.rest);
  }

  /** The do-while loop: everything behind i moves one to the left. */
  method ShiftLeft(key: array<byte>, i: nat, ghost r: Str)
    requires HoldsText(key[..], i, r) && r.Ch?
    modifies key
    ensures key[..i] == old(key[..i]) && HoldsText(key[..], i, r.rest)
  {
    hide Shifted, HoldsText;
    ghost var before, t := key[..], i + Len(r);
    NonZero(before, i, r);
    NotShifted(before, i);
    ShiftOne(key, i, i, before);
    var p := 1;
    while key[p + i] != 0
      invariant 1 <= p && p + i <= t < key.Length == |before| && Shifted(before, key[..], i, p + i)
      invariant key[p + i] == before[p + i]
      decreases t - p
    {
      ShiftOne(key, i, p + i, before);
      p := p + 1;
    }
    ShiftedAt(before, key[..], i, p + i);
    ShiftedText(before, key[..], i, r);
  }

  method ShiftOne(key: array<byte>, ghost i: nat, q: nat, ghost before: seq<byte>)
    requires q + 1 < key.Length && Shifted(before, key[..], i, q)
    modifies key
    ensures Shifted(before, key[..], i, q + 1) && q + 1 < |before| && key[q + 1] == before[q + 1]
  {
    hide Shifted;
    ghost var a := key[..];
    key[q] := key[q + 1];
    ShiftedMore(before, a, i, q);
    assert key[..] == a[q := a[q + 1]];
    ShiftedAt(before, key[..], i, q + 1);
  }

  lemma {:induction false} NotShifted(a: seq<byte>, i: nat)
    requires i < |a|
    ensures Shifted(a, a, i, i)
  {
  }

  lemma {:induction false} ShiftedAt(a: seq<byte>, b: seq<byte>, i: nat, p: nat)
    requires Shifted(a, b, i, p)
    ensures i <= p < |a| == |b| && b[p] == a[p] && b[..i] == a[..i]
  {
    assert b[p] == b[p..][0] == a[p..][0];
  }

  /** The first zero from i on is the terminator. */
  lemma {:induction false} NonZero(a: seq<byte>, i: nat, r: Str)
    requires HoldsText(a, i, r)
    ensures i + Len(r) < |a| && a[i + Len(r)] == 0 && forall q :: i <= q < i + Len(r) ==> a[q] != 0
  {
    HoldsTextSplit(a, i, r);
    HoldsNonZero(a, i, r);
  }

  lemma {:induction false} HoldsNonZero(a: seq<byte>, i: nat, s: Str)
    requires Holds(a, i, s) && i + Len(s) <= |a|
    ensures forall q :: i <= q < i + Len(s) ==> a[q] != 0
    decreases s
  {
    if s.Ch? { HoldsNonZero(a, i + 1, s.rest); }
  }

  /** In the middle of a key: w is the part that is done, r what is left of the raw text s. */
  ghost predicate Unescaping(a: seq<byte>, i: nat, keylen: nat, w: Str, r: Str, s: Str) {
    && Holds(a, 0, w) && Len(w) == i && HoldsText(a, i, r)
    && Append(w, SplitKey(r).key) == SplitKey(s).key && SplitKey(r).rest == SplitKey(s).rest && SplitKey(r).ok
    && i + keylen + Len(r) == Len(s) && Drop(s, i + keylen) == r
  }

  /** A character of the key has been passed. */
  lemma {:induction false} CharPassed(a: seq<byte>, i: nat, w: Str, c: uchar, r: Str)
    requires Holds(a, 0, w) && Len(w) == i && HoldsText(a, i, Ch(c, r))
    ensures Holds(a, 0, Append(w, Ch(c, Nul))) && Len(Append(w, Ch(c, Nul))) == i + 1 && HoldsText(a, i + 1, r)
    ensures forall k :: Append(Append(w, Ch(c, Nul)), k) == Append(w, Ch(c, k))
  {
    HoldsAppend(a, 0, w, Ch(c, Nul));
    forall k ensures Append(Append(w, Ch(c, Nul)), k) == Append(w, Ch(c, k)) {
      AppendAssoc(w, Ch(c, Nul), k);
      assert Append(Nul, k) == k;
    }
  }

  /** The loop that unescapes the key in place, up to the next step, and ends the string there; keylen
      is the length of the raw text it took. */
  method Unescape(key: array<byte>, ghost s: Str) returns (keylen: nat)
    requires HoldsText(key[..], 0, s) && SplitKey(s).ok
    modifies key
    ensures Terminated(key[..], 0) && TextAt(key[..], 0) == SplitKey(s).key
    ensures keylen <= Len(s) && Drop(s, keylen) == SplitKey(s).rest
  {
    hide Unescaping, HoldsText;
    var i := 0;
    keylen := 0;
    ghost var w, r := Nul, s;
    assert Unescaping(key[..], 0, 0, Nul, s, s) by { UnescapingStart(key[..], s); }
    UnescapingAt(key[..], i, keylen, w, r, s);
    while key[i] != 0
      invariant i < key.Length && key[i] == Hd(r) && Unescaping(key[..], i, keylen, w, r, s)
      decreases r
    {
      if key[i] == BSLASH {
        w, r := UnescapeOne(key, i, keylen, w, r, s);
        keylen := keylen + 1;
      } else if key[i] == DOT || key[i] == 0 || key[i] == LBRACK {
        EndKey(key, i, keylen, w, r, s);
        keylen := keylen + i;
        return;
      } else {
        w, r := KeepOne(key[..], i, keylen, w, r, s);
      }
      i := i + 1;
      UnescapingAt(key[..], i, keylen, w, r, s);
    }
    UnescapingEnd(key[..], i, keylen, w, r, s);
    keylen := keylen + i;
  }

  lemma {:induction false} UnescapingStart(a: seq<byte>, s: Str)
    requires HoldsText(a, 0, s) && SplitKey(s).ok
    ensures Unescaping(a, 0, 0, Nul, s, s)
  {
  }

  lemma {:induction false} UnescapingAt(a: seq<byte>, i: nat, keylen: nat, w: Str, r: Str, s: Str)
    requires Unescaping(a, i, keylen, w, r, s)
    ensures i < |a| && a[i] == Hd(r)
  {
  }

  /** A character that stands for itself. */
  lemma {:induction false} KeepOne(a: seq<byte>, i: nat, keylen: nat, w: Str, r: Str, s: Str) returns (w': Str, r': Str)
    requires Unescaping(a, i, keylen, w, r, s) && r.Ch? && r.c != BSLASH && r.c != DOT && r.c != LBRACK
    ensures Unescaping(a, i + 1, keylen, w', r', s) && r' == r.rest
  {
    w', r' := Append(w, Ch(r.c, Nul)), r.rest;
    CharPassed(a, i, w, r.c, r.rest);
    DropAt(s, i + keylen);
  }

  /** An escape: the backslash goes, and the character behind it stands for itself. */
  method UnescapeOne(key: array<byte>, i: nat, ghost keylen: nat, ghost w: Str, ghost r: Str, ghost s: Str)
    returns (ghost w': Str, ghost r': Str)
    requires Unescaping(key[..], i, keylen, w, r, s) && r.Ch? && r.c == BSLASH
    modifies key
    ensures r.rest.Ch? && r' == r.rest.rest && Unescaping(key[..], i + 1, keylen + 1, w', r', s)
  {
    ghost var before, c := key[..], r.rest.c;
    ShiftLeft(key, i, r);
    HoldsFrame(before, key[..], 0, w);
    w', r' := Append(w, Ch(c, Nul)), r.rest.rest;
    CharPassed(key[..], i, w, c, r');
    DropAt(s, i + keylen);
    DropAt(s, i + keylen + 1);
  }

  /** The next step begins: the key ends here. */
  method EndKey(key: array<byte>, i: nat, ghost keylen: nat, ghost w: Str, ghost r: Str, ghost s: Str)
    requires Unescaping(key[..], i, keylen, w, r, s) && i < key.Length && (r.Nul? || r.c == DOT || r.c == LBRACK)
    modifies key
    ensures Terminated(key[..], 0) && TextAt(key[..], 0) == SplitKey(s).key
    ensures i + keylen <= Len(s) && Drop(s, i + keylen) == SplitKey(s).rest
  {
    ghost var before := key[..];
    key[i] := 0;
    HoldsFrame(before, key[..], 0, w);
    HoldsTextSplit(key[..], 0, w);
    HoldsTextAt(key[..], 0, w);
    AppendNul(w);
  }

  lemma {:induction false} UnescapingEnd(a: seq<byte>, i: nat, keylen: nat, w: Str, r: Str, s: Str)
    requires Unescaping(a, i, keylen, w, r, s) && Hd(r) == 0
    ensures Terminated(a, 0) && TextAt(a, 0) == SplitKey(s).key
    ensures i + keylen <= Len(s) && Drop(s, i + keylen) == SplitKey(s).rest
  {
    HoldsTextSplit(a, 0, w);
    HoldsTextAt(a, 0, w);
    AppendNul(w);
  }

  /** atoi of a string of digits: up to the first character that is none. */
  method Atoi(key: array<byte>) returns (n: nat)
    requires Terminated(key[..], 0)
    ensures n == DigitsOf(TextAt(key[..], 0), 0)
  {
    var i := 0;
    n := 0;
    while IsDigit(key[i])
      invariant Terminated(key[..], i) && DigitsOf(TextAt(key[..], i), n) == DigitsOf(TextAt(key[..], 0), 0)
      decreases key.Length - i
    {
      n := 10 * n + (key[i] - 48);
      i := i + 1;
    }
  }

  function DigitsOf(s: Str, n: nat): nat {
    if s.Ch? && IsDigit(s.c) then DigitsOf(s.rest, 10 * n + (s.c - 48)) else n
  }

  /** The loop over the digits of an index, and its value: sub is -1 without a closing bracket or with
      another character before it. */
  method ReadIndex(key: array<byte>, ghost s: Str) returns (sub: int, i: nat)
    requires HoldsText(key[..], 0, s)
    modifies key
    ensures SplitIndex(s, 0).None? ==> sub == -1
    ensures SplitIndex(s, 0).Some? ==>
      sub == SplitIndex(s, 0).value.0 && i + 1 <= Len(s) && Drop(s, i + 1) == SplitIndex(s, 0).value.1
  {
    hide AllDigits, DigitsOf, Append;
    i, sub := 0, -1;
    assert AllDigits(Nul) && DigitsOf(Nul, 0) == 0 by { NoDigits(); }
    ghost var w, r, n: nat := Nul, s, 0;
    while key[i] != 0
      invariant HoldsText(key[..], i, r) && i <= Len(s) && Drop(s, i) == r && i + Len(r) == Len(s)
      invariant Holds(key[..], 0, w) && Len(w) == i && AllDigits(w) && DigitsOf(w, 0) == n
      invariant SplitIndex(r, n) == SplitIndex(s, 0)
      decreases r
    {
      if key[i] == RBRACK {
        DropAt(s, i);
        EndIndex(key, i, w);
        sub := Atoi(key);
        return;
      } else if !IsDigit(key[i]) {
        return;
      }
      DropAt(s, i);
      CharPassed(key[..], i, w, r.c, r.rest);
      OneMoreDigit(w, r.c);
      w, n := Append(w, Ch(r.c, Nul)), 10 * n + (r.c - 48);
      r := r.rest;
      i := i + 1;
    }
  }

  lemma NoDigits()
    ensures AllDigits(Nul) && DigitsOf(Nul, 0) == 0
  {
  }

  predicate AllDigits(s: Str) {
    s.Nul? || (IsDigit(s.c) && AllDigits(s.rest))
  }

  lemma {:induction false} DigitsAppend(w: Str, k: Str, n: nat)
    requires AllDigits(w)
    ensures DigitsOf(Append(w, k), n) == DigitsOf(k, DigitsOf(w, n))
    ensures AllDigits(k) ==> AllDigits(Append(w, k))
  {
    if w.Ch? { DigitsAppend(w.rest, k, 10 * n + (w.c - 48)); }
  }

  lemma {:induction false} OneMoreDigit(w: Str, c: uchar)
    requires AllDigits(w) && IsDigit(c)
    ensures AllDigits(Append(w, Ch(c, Nul))) && DigitsOf(Append(w, Ch(c, Nul)), 0) == 10 * DigitsOf(w, 0) + (c - 48)
  {
    assert AllDigits(Ch(c, Nul)) by { assert AllDigits(Nul); }
    DigitsAppend(w, Ch(c, Nul), 0);
  }

  /** The closing bracket: the digits in front of it become a string. */
  method EndIndex(key: array<byte>, i: nat, ghost w: Str)
    requires Holds(key[..], 0, w) && Len(w) == i < key.Length
    modifies key
    ensures Terminated(key[..], 0) && TextAt(key[..], 0) == w
  {
    ghost var before := key[..];
    key[i] := 0;
    HoldsFrame(before, key[..], 0, w);
    HoldsTextSplit(key[..], 0, w);
    HoldsTextAt(key[..], 0, w);
  }
}
