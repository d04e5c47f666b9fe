/** Writing a text that is known beforehand, a piece at a time, into a char buffer. */
module BufferWriting {
  import opened CString
  import opened Buffer

  /** The k-th character of s. */
  function At(s: Str, k: nat): uchar
    requires k < Len(s)
  {
    if k == 0 then s.c else At(s.rest, k - 1)
  }

  /** The first i characters of goal stand at the start of a, and rest is what remains of goal. */
  ghost predicate Writing(a: seq<byte>, i: nat, goal: Str, rest: Str) {
    i <= |a| && i <= Len(goal) && Drop(goal, i) == rest && forall k :: 0 <= k < i ==> a[k] == At(goal, k)
  }

  lemma {:induction false} DropAt(s: Str, i: nat)
    requires i < Len(s)
    ensures Drop(s, i).Ch? && Drop(s, i).c == At(s, i) && Drop(s, i + 1) == Drop(s, i).rest
    decreases s
  {
    if i > 0 { DropAt(s.rest, i - 1); }
  }

  lemma {:induction false} WritingLength(a: seq<byte>, i: nat, goal: Str, rest: Str)
    requires Writing(a, i, goal, rest)
    ensures i + Len(rest) == Len(goal)
  {
  }

  /** Only what has been written matters. */
  lemma {:induction false} WritingFrame(a: seq<byte>, b: seq<byte>, i: nat, goal: Str, rest: Str)
    requires Writing(a, i, goal, rest) && i <= |b| && a[..i] == b[..i]
    ensures Writing(b, i, goal, rest)
  {
    forall k | 0 <= k < i ensures b[k] == At(goal, k) { assert b[k] == b[..i][k] == a[..i][k] == a[k]; }
  }

  lemma {:induction false} Start(a: seq<byte>, goal: Str)
    ensures Writing(a, 0, goal, goal)
  {
  }

  /** A terminator behind what has been written ends the string that starts at j. */
  lemma {:induction false} EndsAt(a: seq<byte>, j: nat, i: nat, goal: Str, rest: Str)
    requires Writing(a, i, goal, rest) && j <= i < |a| && a[i] == 0
    ensures Terminated(a, j) && j + Len(TextAt(a, j)) == i
    decreases i - j
  {
    if j < i { EndsAt(a, j + 1, i, goal, rest); }
  }

  lemma {:induction false} TextFrom(a: seq<byte>, j: nat, i: nat, goal: Str)
    requires Writing(a, i, goal, Nul) && j <= i < |a| && a[i] == 0
    ensures Terminated(a, j) && TextAt(a, j) == Drop(goal, j)
    decreases i - j
  {
    WritingLength(a, i, goal, Nul);
    if j < i {
      DropAt(goal, j);
      TextFrom(a, j + 1, i, goal);
    } else {
      assert Drop(goal, j) == Nul;
    }
  }

  /** The whole text has been written and terminated. */
  lemma {:induction false} Written(a: seq<byte>, i: nat, goal: Str)
    requires Writing(a, i, goal, Nul) && i < |a| && a[i] == 0
    ensures Terminated(a, 0) && TextAt(a, 0) == goal
  {
    TextFrom(a, 0, i, goal);
  }

  lemma {:induction false} WritingStep(a: seq<byte>, i: nat, goal: Str, rest: Str)
    requires Writing(a, i, goal, rest) && rest.Ch? && i < |a| && a[i] == rest.c
    ensures Writing(a, i + 1, goal, rest.rest)
  {
    WritingLength(a, i, goal, rest);
    DropAt(goal, i);
  }

  /** Writes one character and advances. */
  method Put(a: array<byte>, i: nat, c: uchar, ghost goal: Str, ghost rest: Str) returns (j: nat)
    requires Writing(a[..], i, goal, rest) && rest.Ch? && rest.c == c && i < a.Length
    modifies a
    ensures j == i + 1 && Writing(a[..], j, goal, rest.rest)
  {
    WritingLength(a[..], i, goal, rest);
    DropAt(goal, i);
    a[i] := c;
    j := i + 1;
  }

  /** Writes a terminator and stays in front of it. */
  method PutNul(a: array<byte>, i: nat, ghost goal: Str, ghost rest: Str)
    requires Writing(a[..], i, goal, rest) && i < a.Length
    modifies a
    ensures Writing(a[..], i, goal, rest) && a[i] == 0
  {
    a[i] := 0;
  }

  /** strcpy to the place reached; the terminator is not passed. */
  method PutText(a: array<byte>, i: nat, t: Str, ghost goal: Str, ghost k: Str) returns (j: nat)
    requires Writing(a[..], i, goal, Append(t, k)) && i + Len(t) < a.Length
    modifies a
    ensures j == i + Len(t) && Writing(a[..], j, goal, k) && a[j] == 0
  {
    j := i;
    var p := t;
    while p.Ch?
      invariant j + Len(p) == i + Len(t) && Writing(a[..], j, goal, Append(p, k))
      decreases p
    {
      j := Put(a, j, p.c, goal, Append(p, k));
      p := p.rest;
    }
    PutNul(a, j, goal, k);
  }

  /** strcpy to the start of a buffer. */
  method StrCpy(a: array<byte>, t: Str)
    requires Len(t) < a.Length
    modifies a
    ensures Terminated(a[..], 0) && TextAt(a[..], 0) == t
  {
    hide Writing;
    AppendNul(t);
    Start(a[..], t);
    var j := PutText(a, 0, t, t, Nul);
    Written(a[..], j, t);
  }

  /** Copies a string in memory, without its terminator, and advances behind the copy. */
  method PutEntry(a: array<byte>, i: nat, entry: array<byte>, ghost goal: Str, ghost k: Str) returns (j: nat)
    requires a != entry && Terminated(entry[..], 0)
    requires Writing(a[..], i, goal, Append(TextAt(entry[..], 0), k)) && i + Len(TextAt(entry[..], 0)) < a.Length
    modifies a
    ensures j == i + old(Len(TextAt(entry[..], 0))) && Writing(a[..], j, goal, k)
  {
    var tmplen := StrLen(entry, 0);
    ghost var before := a[..];
    MemCpy(a, i, entry, 0, tmplen);
    j := i + tmplen;
    Copied(before, a[..], i, entry[..], goal, k);
  }

  lemma {:induction false} Copied(a: seq<byte>, b: seq<byte>, i: nat, entry: seq<byte>, goal: Str, k: Str)
    requires Terminated(entry, 0) && |a| == |b|
    requires Writing(a, i, goal, Append(TextAt(entry, 0), k)) && i + Len(TextAt(entry, 0)) < |b|
    requires b[..i] == a[..i] && b[i..i + Len(TextAt(entry, 0))] == entry[0..Len(TextAt(entry, 0))]
    ensures Writing(b, i + Len(TextAt(entry, 0)), goal, k)
  {
    WritingFrame(a, b, i, goal, Append(TextAt(entry, 0), k));
    CopiedFrom(b, i, entry, 0, goal, k);
  }

  lemma {:induction false} CopiedFrom(b: seq<byte>, i: nat, entry: seq<byte>, l: nat, goal: Str, k: Str)
    requires Terminated(entry, l) && i + Len(TextAt(entry, l)) <= |b|
    requires Writing(b, i, goal, Append(TextAt(entry, l), k))
    requires b[i..i + Len(TextAt(entry, l))] == entry[l..l + Len(TextAt(entry, l))]
    ensures Writing(b, i + Len(TextAt(entry, l)), goal, k)
    decreases |entry| - l
  {
    hide Writing;
    if entry[l] != 0 {
      var n := Len(TextAt(entry, l));
      assert b[i] == b[i..i + n][0] == entry[l..l + n][0] == entry[l];
      assert b[i + 1..i + n] == b[i..i + n][1..] == entry[l..l + n][1..] == entry[l + 1..l + n];
      WritingStep(b, i, goal, Append(TextAt(entry, l), k));
      CopiedFrom(b, i + 1, entry, l + 1, goal, k);
    }
  }
}
