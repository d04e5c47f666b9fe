/** Fresh copies of strings. */
module HeapStrings {
  import opened CString
  import opened Buffer
  import opened BufferWriting
  import opened Heap

  /** malloc of size bytes and strcpy of a string that is known. */
  method NewString(m: Memory, size: nat, s: Str) returns (copy: array?<byte>)
    requires Len(s) < size
    modifies m
    ensures copy == null ==> m.live == old(m.live) && m.failed
    ensures copy != null ==> fresh(copy) && m.live == old(m.live) + {copy} && m.failed == old(m.failed)
    ensures copy != null ==> IsText(copy) && TextOf(copy) == s
  {
    copy := m.Malloc(size);
    if copy != null {
      StrCpy(copy, s);
    }
  }

  /** cJSON_strdup of a string that is known. */
  method StrDup(m: Memory, s: Str) returns (copy: array?<byte>)
    modifies m
    ensures copy == null ==> m.live == old(m.live) && m.failed
    ensures copy != null ==> fresh(copy) && m.live == old(m.live) + {copy} && m.failed == old(m.failed)
    ensures copy != null ==> IsText(copy) && TextOf(copy) == s
  {
    copy := NewString(m, Len(s) + 1, s);
  }

  /** cJSON_strdup of a string in memory: strlen, malloc and memcpy of the string with its terminator. */
  method StrDupFrom(m: Memory, a: array<byte>) returns (copy: array?<byte>)
    requires IsText(a)
    modifies m
    ensures copy == null ==> m.live == old(m.live) && m.failed
    ensures copy != null ==> fresh(copy) && m.live == old(m.live) + {copy} && m.failed == old(m.failed)
    ensures copy != null ==> IsText(copy) && TextOf(copy) == TextOf(a)
  {
    var len := StrLen(a, 0);
    copy := m.Malloc(len + 1);
    if copy != null {
      MemCpy(copy, 0, a, 0, len + 1);
      WholeCopied(a[..], copy[..]);
    }
  }

  lemma {:induction false} WholeCopied(a: seq<byte>, b: seq<byte>)
    requires Terminated(a, 0) && |b| == Len(TextAt(a, 0)) + 1 && b[0..|b|] == a[0..|b|]
    ensures Terminated(b, 0) && TextAt(b, 0) == TextAt(a, 0)
  {
    var n, s := |b| - 1, TextAt(a, 0);
    TextAtHolds(a, 0);
    HoldsTextSplit(a, 0, s);
    assert b[0..n] == b[0..n + 1][..n] == a[0..n + 1][..n] == a[0..n];
    HoldsMoved(a, 0, b, 0, s);
    assert b[n] == b[0..n + 1][n] == a[0..n + 1][n] == a[n];
    HoldsTextSplit(b, 0, s);
    HoldsTextAt(b, 0, s);
  }
}
