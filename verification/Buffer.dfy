/** C strings in memory: what a char array holds. */
module Buffer {
  import opened CString

  /** Some NUL stands at or behind i. */
  predicate Terminated(a: seq<byte>, i: nat)
    decreases |a| - i
  {
    i < |a| && (a[i] == 0 || Terminated(a, i + 1))
  }

  /** The C string that starts at i. */
  function TextAt(a: seq<byte>, i: nat): (s: Str)
    requires Terminated(a, i)
    ensures i + Len(s) < |a| && a[i + Len(s)] == 0
    decreases |a| - i
  {
    if a[i] == 0 then Nul else Ch(a[i], TextAt(a, i + 1))
  }

  /** The characters s stand at i, without a terminator of their own. */
  predicate Holds(a: seq<byte>, i: nat, s: Str)
    decreases s
  {
    s.Nul? || (i < |a| && a[i] == s.c && Holds(a, i + 1, s.rest))
  }

  /** s and its terminator stand at i. */
  predicate HoldsText(a: seq<byte>, i: nat, s: Str)
    decreases s
  {
    i < |a| && (if s.Nul? then a[i] == 0 else a[i] == s.c && HoldsText(a, i + 1, s.rest))
  }

  lemma {:induction false} HoldsTextAt(a: seq<byte>, i: nat, s: Str)
    requires HoldsText(a, i, s)
    ensures Terminated(a, i) && TextAt(a, i) == s
    decreases s
  {
    if s.Ch? { HoldsTextAt(a, i + 1, s.rest); }
  }

  lemma {:induction false} TextAtHolds(a: seq<byte>, i: nat)
    requires Terminated(a, i)
    ensures HoldsText(a, i, TextAt(a, i))
    decreases |a| - i
  {
    if a[i] != 0 { TextAtHolds(a, i + 1); }
  }

  lemma {:induction false} HoldsTextSplit(a: seq<byte>, i: nat, s: Str)
    ensures HoldsText(a, i, s) <==> Holds(a, i, s) && i + Len(s) < |a| && a[i + Len(s)] == 0
    decreases s
  {
    if s.Ch? { HoldsTextSplit(a, i + 1, s.rest); }
  }

  lemma {:induction false} HoldsAppend(a: seq<byte>, i: nat, s: Str, t: Str)
    ensures Holds(a, i, Append(s, t)) <==> Holds(a, i, s) && Holds(a, i + Len(s), t)
    decreases s
  {
    if s.Ch? { HoldsAppend(a, i + 1, s.rest, t); }
  }

  /** What stands at i depends on the cells it covers only. */
  lemma {:induction false} HoldsFrame(a: seq<byte>, b: seq<byte>, i: nat, s: Str)
    requires Holds(a, i, s)
    requires i + Len(s) <= |a| ==> i + Len(s) <= |b| && a[i..i + Len(s)] == b[i..i + Len(s)]
    ensures Holds(b, i, s)
    decreases s
  {
    HoldsBound(a, i, s);
    if s.Ch? {
      var e := i + Len(s);
      assert a[i] == a[i..e][0] == b[i..e][0] == b[i];
      assert a[i + 1..e] == a[i..e][1..] == b[i..e][1..] == b[i + 1..e];
      HoldsFrame(a, b, i + 1, s.rest);
    }
  }

  lemma {:induction false} HoldsBound(a: seq<byte>, i: nat, s: Str)
    requires Holds(a, i, s)
    ensures s.Ch? ==> i + Len(s) <= |a|
    decreases s
  {
    if s.Ch? { HoldsBound(a, i + 1, s.rest); }
  }

  lemma {:induction false} TextFrame(a: seq<byte>, b: seq<byte>, i: nat)
    requires Terminated(a, i) && |b| == |a| && forall k :: i <= k < |a| ==> a[k] == b[k]
    ensures Terminated(b, i) && TextAt(b, i) == TextAt(a, i)
    decreases |a| - i
  {
    if a[i] != 0 { TextFrame(a, b, i + 1); }
  }

  /** What stands at i in a stands at j in b, if the cells are the same. */
  lemma {:induction false} HoldsMoved(a: seq<byte>, i: nat, b: seq<byte>, j: nat, s: Str)
    requires Holds(a, i, s) && i + Len(s) <= |a| && j + Len(s) <= |b|
    requires a[i..i + Len(s)] == b[j..j + Len(s)]
    ensures Holds(b, j, s)
    decreases s
  {
    if s.Ch? {
      var n := Len(s);
      assert a[i] == a[i..i + n][0] == b[j..j + n][0] == b[j];
      assert a[i + 1..i + n] == a[i..i + n][1..] == b[j..j + n][1..] == b[j + 1..j + n];
      HoldsMoved(a, i + 1, b, j + 1, s.rest);
    }
  }

  /** strlen */
  method StrLen(a: array<byte>, i: nat) returns (n: nat)
    requires Terminated(a[..], i)
    ensures n == Len(TextAt(a[..], i))
  {
    n := 0;
    while a[i + n] != 0
      invariant Terminated(a[..], i + n)
      invariant n + Len(TextAt(a[..], i + n)) == Len(TextAt(a[..], i))
      decreases a.Length - (i + n)
    {
      n := n + 1;
    }
  }

  /** memcpy(dst + d, src + s, n) */
  method MemCpy(dst: array<byte>, d: nat, src: array<byte>, s: nat, n: nat)
    requires dst != src && d + n <= dst.Length && s + n <= src.Length
    modifies dst
    ensures dst[..d] == old(dst[..d]) && dst[d..d + n] == src[s..s + n] && dst[d + n..] == old(dst[d + n..])
  {
    var k := 0;
    while k < n
      invariant 0 <= k <= n
      invariant dst[..d] == old(dst[..d]) && dst[d..d + k] == src[s..s + k] && dst[d + k..] == old(dst[d + k..])
    {
      dst[d + k] := src[s + k];
      k := k + 1;
    }
  }
}
