/** cJSON_Minify on the buffer itself. */
module MinifyInPlace {
  import opened CString
  import opened Buffer
  import opened Minify

  /** The first n cells hold w, and the text m still has to come. */
  ghost predicate Progress(a: seq<byte>, n: nat, w: Str, m: Str, goal: Str) {
    Holds(a, 0, w) && Len(w) == n && Append(w, m) == goal
  }

  /** Reading goes on at read, writing at write; rest is what reading from here will still write. */
  ghost predicate Invariant(a: seq<byte>, original: seq<byte>, read: nat, write: nat, rest: Option<Str>, w: Str,
                            goal: Str)
  {
    && write <= read < |a| == |original|
    && (forall k :: read <= k < |a| ==> a[k] == original[k])
    && Terminated(a, read)
    && rest.Some? && Progress(a, write, w, rest.value, goal)
  }

  function Extend(w: Str, c: uchar): (r: Str)
    ensures Len(r) == Len(w) + 1
  {
    assert Len(Ch(c, Nul)) == 1;
    Append(w, Ch(c, Nul))
  }

  /** A character that is kept moves to where writing goes on, and both pointers advance. */
  lemma {:induction false} CopyStep(a: seq<byte>, b: seq<byte>, original: seq<byte>, read: nat, write: nat,
                                    rest: Option<Str>, w: Str, goal: Str)
    requires Invariant(a, original, read, write, rest, w, goal)
    requires a[read] != 0 && rest.value.Ch? && rest.value.c == a[read]
    requires b == a[write := a[read]]
    ensures Invariant(b, original, read + 1, write + 1, Some(rest.value.rest), Extend(w, a[read]), goal)
    ensures TextAt(b, read + 1) == TextAt(a, read).rest
  {
    hide Progress;
    TextFrame(a, b, read + 1);
    ProgressStep(a, b, read, write, rest.value, w, goal);
  }

  lemma {:induction false} ProgressStep(a: seq<byte>, b: seq<byte>, read: nat, write: nat, rest: Str, w: Str, goal: Str)
    requires Progress(a, write, w, rest, goal) && write <= read < |a| && a[read] != 0
    requires rest.Ch? && rest.c == a[read] && b == a[write := a[read]]
    ensures Progress(b, write + 1, Extend(w, a[read]), rest.rest, goal)
  {
    var last := Ch(a[read], Nul);
    assert Holds(b, write, last);
    assert Append(last, rest.rest) == rest by { assert Append(Nul, rest.rest) == rest.rest; }
    hide Holds, Append;
    HoldsFrame(a, b, 0, w);
    HoldsAppend(b, 0, w, last);
    AppendAssoc(w, last, rest.rest);
  }

  /** Reading advances without writing. */
  lemma {:induction false} Advanced(a: seq<byte>, original: seq<byte>, read: nat, read': nat, write: nat,
                                    rest: Option<Str>, w: Str, goal: Str)
    requires Invariant(a, original, read, write, rest, w, goal) && read <= read' < |a| && Terminated(a, read')
    ensures Invariant(a, original, read', write, rest, w, goal)
  {
    hide Progress, Terminated;
  }

  lemma {:induction false} Bounds(a: seq<byte>, original: seq<byte>, read: nat, write: nat, rest: Option<Str>, w: Str,
                                  goal: Str)
    requires Invariant(a, original, read, write, rest, w, goal)
    ensures write <= read < |a| == |original| && Terminated(a, read) && rest.Some?
  {
    hide Progress, Terminated;
  }

  /** What stands at i and behind it. */
  lemma {:induction false} Ahead(a: seq<byte>, i: nat)
    requires Terminated(a, i) && a[i] != 0
    ensures i + 1 < |a| && Terminated(a, i + 1) && TextAt(a, i) == Ch(a[i], TextAt(a, i + 1))
    ensures Hd(TextAt(a, i + 1)) == a[i + 1] && Len(TextAt(a, i)) == 1 + Len(TextAt(a, i + 1))
  {
  }

  lemma {:induction false} MinifiedIs(s: Str)
    requires s.Ch?
    ensures IsStripped(s.c) ==> Minified(s) == Minified(s.rest)
    ensures s.c == SLASH && Hd(s.rest) == SLASH ==> Minified(s) == Minified(SkipLine(s.rest))
    ensures s.c == SLASH && Hd(s.rest) == STAR ==>
      Minified(s) == if SkipBlock(s.rest).None? then None else Minified(SkipBlock(s.rest).value)
    ensures s.c == QUOTE ==> Minified(s) == Prepend(QUOTE, MinifiedString(s.rest))
    ensures !IsStripped(s.c) && s.c != QUOTE && !(s.c == SLASH && (Hd(s.rest) == SLASH || Hd(s.rest) == STAR)) ==>
      Minified(s) == Prepend(s.c, Minified(s.rest))
  {
    hide SkipLine, SkipBlock, MinifiedString;
  }

  lemma {:induction false} MinifiedStringIs(s: Str)
    requires s.Ch? && MinifiedString(s).Some?
    ensures s.c == QUOTE ==> MinifiedString(s) == Prepend(QUOTE, Minified(s.rest)) && Minified(s.rest).Some?
    ensures s.c == BSLASH ==> s.rest.Ch? && MinifiedString(s.rest.rest).Some?
    ensures s.c == BSLASH ==> MinifiedString(s) == Prepend(BSLASH, Prepend(s.rest.c, MinifiedString(s.rest.rest)))
    ensures s.c != QUOTE && s.c != BSLASH ==> MinifiedString(s) == Prepend(s.c, MinifiedString(s.rest))
    ensures s.c != QUOTE && s.c != BSLASH ==> MinifiedString(s.rest).Some?
  {
    hide Minified;
  }

  /** The buffer ends up holding exactly what Minified says. The writes never overtake the reads,
      and the cells behind the terminator are left alone. */
  method MinifyBuffer(a: array<byte>)
    requires Terminated(a[..], 0)
    requires Minified(TextAt(a[..], 0)).Some?
    modifies a
    ensures Terminated(a[..], 0) && Minified(TextAt(old(a[..]), 0)) == Some(TextAt(a[..], 0))
    ensures Len(TextAt(a[..], 0)) <= Len(TextAt(old(a[..]), 0))
    ensures forall k :: Len(TextAt(old(a[..]), 0)) < k < a.Length ==> a[k] == old(a[k])
  {
    hide Minified, MinifiedString, Invariant, Terminated, TextAt, SkipLine, SkipBlock;
    var json: nat, into: nat := 0, 0;
    ghost var original := a[..];
    ghost var size := Len(TextAt(original, 0));
    ghost var goal := Minified(TextAt(original, 0)).value;
    ghost var w := Nul;
    Begun(original, goal);
    while a[json] != 0
      invariant json < a.Length && Terminated(a[..], json)
      invariant Invariant(a[..], original, json, into, Minified(TextAt(a[..], json)), w, goal)
      invariant json + Len(TextAt(a[..], json)) == size
      decreases a.Length - json
    {
      ghost var from, here := json, TextAt(a[..], json);
      Bounds(a[..], original, json, into, Minified(here), w, goal);
      var skipped;
      skipped, json := SkipOne(a, json);
      if skipped {
        Advanced(a[..], original, from, json, into, Minified(here), w, goal);
      } else if a[json] == QUOTE {
        json, into, w := CopyLiteral(a, original, json, into, w, goal);
      } else {
        Ahead(a[..], json);
        json, into, w := CopyOne(a, original, json, into, Minified(here), w, goal);
      }
    }
    Ended(a[..], original, json, into, w, goal);
    ghost var before := a[..];
    a[into] := 0;
    Finish(before, a[..], into, w);
    AppendNul(w);
  }

  /** The cases of the loop that write nothing: white space and comments. */
  method SkipOne(a: array<byte>, start: nat) returns (skipped: bool, json: nat)
    requires start < a.Length && Terminated(a[..], start) && a[start] != 0 && Minified(TextAt(a[..], start)).Some?
    ensures skipped ==> start < json < a.Length && Terminated(a[..], json)
    ensures skipped ==> Minified(TextAt(a[..], json)) == Minified(TextAt(a[..], start))
    ensures skipped ==> json + Len(TextAt(a[..], json)) == start + Len(TextAt(a[..], start))
    ensures !skipped ==> json == start
    ensures !skipped && a[start] != QUOTE ==>
      Minified(TextAt(a[..], start)) == Prepend(a[start], Minified(TextAt(a[..], start).rest))
  {
    hide Minified, MinifiedString, Terminated, TextAt, SkipLine, SkipBlock;
    Ahead(a[..], start);
    MinifiedIs(TextAt(a[..], start));
    skipped, json := true, start;
    if a[json] == SPACE {
      json := json + 1;
    } else if a[json] == TAB {
      json := json + 1;
    } else if a[json] == CR {
      json := json + 1;
    } else if a[json] == LF {
      json := json + 1;
    } else if a[json] == SLASH && a[json + 1] == SLASH {
      json := SkipLineFrom(a, json);
    } else if a[json] == SLASH && a[json + 1] == STAR {
      json := SkipBlockFrom(a, json);
    } else {
      skipped := false;
    }
  }

  lemma {:induction false} Begun(a: seq<byte>, goal: Str)
    requires Terminated(a, 0) && Minified(TextAt(a, 0)) == Some(goal)
    ensures Invariant(a, a, 0, 0, Some(goal), Nul, goal)
  {
    hide Minified, Terminated, TextAt;
    assert Append(Nul, goal) == goal;
  }

  lemma {:induction false} Ended(a: seq<byte>, original: seq<byte>, read: nat, write: nat, w: Str, goal: Str)
    requires read < |a| && a[read] == 0 && Terminated(a, read)
    requires Invariant(a, original, read, write, Minified(TextAt(a, read)), w, goal)
    ensures write <= read < |a| == |original| && Holds(a, 0, w) && Len(w) == write && w == goal
    ensures Len(TextAt(a, read)) == 0 && forall k :: read <= k < |a| ==> a[k] == original[k]
  {
    AppendNul(w);
  }

  /** A terminator behind what has been written. */
  lemma {:induction false} Finish(a: seq<byte>, b: seq<byte>, n: nat, w: Str)
    requires Holds(a, 0, w) && Len(w) == n < |a| && b == a[n := 0]
    ensures Terminated(b, 0) && TextAt(b, 0) == w
  {
    HoldsFrame(a, b, 0, w);
    HoldsTextSplit(b, 0, w);
    HoldsTextAt(b, 0, w);
  }

  method SkipLineFrom(a: array<byte>, start: nat) returns (json: nat)
    requires start < a.Length && a[start] == SLASH && Terminated(a[..], start + 1) && a[start + 1] == SLASH
    ensures start < json < a.Length && Terminated(a[..], json)
    ensures TextAt(a[..], json) == SkipLine(TextAt(a[..], start + 1))
    ensures json + Len(TextAt(a[..], json)) == start + Len(TextAt(a[..], start))
  {
    json := start;
    while a[json] != 0 && a[json] != LF
      invariant start <= json < a.Length && Terminated(a[..], json)
      invariant SkipLine(TextAt(a[..], json)) == SkipLine(TextAt(a[..], start))
      invariant json + Len(TextAt(a[..], json)) == start + Len(TextAt(a[..], start))
      decreases a.Length - json
    {
      json := json + 1;
    }
  }

  method SkipBlockFrom(a: array<byte>, start: nat) returns (json: nat)
    requires start < a.Length && a[start] == SLASH && Terminated(a[..], start + 1)
    requires SkipBlock(TextAt(a[..], start + 1)).Some?
    ensures start < json < a.Length && Terminated(a[..], json)
    ensures Some(TextAt(a[..], json)) == SkipBlock(TextAt(a[..], start + 1))
    ensures json + Len(TextAt(a[..], json)) == start + Len(TextAt(a[..], start))
  {
    json := start;
    while a[json] != 0 && !(a[json] == STAR && a[json + 1] == SLASH)
      invariant start <= json < a.Length && Terminated(a[..], json)
      invariant SkipBlock(TextAt(a[..], json)) == SkipBlock(TextAt(a[..], start + 1))
      invariant json + Len(TextAt(a[..], json)) == start + Len(TextAt(a[..], start))
      decreases a.Length - json
    {
      json := json + 1;
    }
    json := json + 2;
  }

  method CopyLiteral(a: array<byte>, ghost original: seq<byte>, json0: nat, into0: nat, ghost w0: Str, ghost goal: Str)
    returns (json: nat, into: nat, ghost w: Str)
    requires json0 < a.Length && Terminated(a[..], json0) && a[json0] == QUOTE
    requires Invariant(a[..], original, json0, into0, Minified(TextAt(a[..], json0)), w0, goal)
    modifies a
    ensures json0 < json < a.Length && Terminated(a[..], json)
    ensures Invariant(a[..], original, json, into, Minified(TextAt(a[..], json)), w, goal)
    ensures json + Len(TextAt(a[..], json)) == json0 + Len(TextAt(old(a[..]), json0))
  {
    hide Minified, MinifiedString, Invariant, Terminated, TextAt;
    Ahead(a[..], json0);
    MinifiedIs(TextAt(a[..], json0));
    Bounds(a[..], original, json0, into0, Minified(TextAt(a[..], json0)), w0, goal);
    json, into, w := CopyOne(a, original, json0, into0, Minified(TextAt(a[..], json0)), w0, goal);
    while a[json] != 0 && a[json] != QUOTE
      invariant json0 < json < a.Length && Terminated(a[..], json)
      invariant Invariant(a[..], original, json, into, MinifiedString(TextAt(a[..], json)), w, goal)
      invariant json + Len(TextAt(a[..], json)) == json0 + Len(TextAt(old(a[..]), json0))
      decreases a.Length - json
    {
      json, into, w := CopyUnit(a, original, json, into, w, goal);
    }
    ghost var here := TextAt(a[..], json);
    Bounds(a[..], original, json, into, MinifiedString(here), w, goal);
    NotAtEnd(a[..], json);
    Ahead(a[..], json);
    MinifiedStringIs(here);
    json, into, w := CopyOne(a, original, json, into, MinifiedString(here), w, goal);
  }

  lemma {:induction false} NotAtEnd(a: seq<byte>, i: nat)
    requires Terminated(a, i) && MinifiedString(TextAt(a, i)).Some?
    ensures a[i] != 0
  {
  }

  /** One turn of the loop over a literal: a character, or an escape with the character behind it. */
  method CopyUnit(a: array<byte>, ghost original: seq<byte>, json0: nat, into0: nat, ghost w0: Str, ghost goal: Str)
    returns (json: nat, into: nat, ghost w: Str)
    requires json0 < a.Length && Terminated(a[..], json0) && a[json0] != 0 && a[json0] != QUOTE
    requires Invariant(a[..], original, json0, into0, MinifiedString(TextAt(a[..], json0)), w0, goal)
    modifies a
    ensures json0 < json < a.Length && Terminated(a[..], json)
    ensures Invariant(a[..], original, json, into, MinifiedString(TextAt(a[..], json)), w, goal)
    ensures json + Len(TextAt(a[..], json)) == json0 + Len(TextAt(old(a[..]), json0))
  {
    hide Minified, MinifiedString, Invariant, Terminated, TextAt;
    json, into, w := json0, into0, w0;
    ghost var here := TextAt(a[..], json);
    ghost var rest := MinifiedString(here);
    Bounds(a[..], original, json, into, rest, w, goal);
    Ahead(a[..], json);
    MinifiedStringIs(here);
    if a[json] == BSLASH {
      json, into, w := CopyOne(a, original, json, into, rest, w, goal);
      rest := Some(rest.value.rest);
      Bounds(a[..], original, json, into, rest, w, goal);
      CharAt(a[..], json);
      Ahead(a[..], json);
    }
    json, into, w := CopyOne(a, original, json, into, rest, w, goal);
  }

  lemma {:induction false} CharAt(a: seq<byte>, i: nat)
    requires Terminated(a, i)
    ensures Hd(TextAt(a, i)) == a[i]
  {
  }

  method CopyOne(a: array<byte>, ghost original: seq<byte>, json0: nat, into0: nat, ghost rest: Option<Str>,
                 ghost w0: Str, ghost goal: Str)
    returns (json: nat, into: nat, ghost w: Str)
    requires json0 < a.Length && Terminated(a[..], json0) && a[json0] != 0
    requires Invariant(a[..], original, json0, into0, rest, w0, goal)
    requires rest.value.Ch? && rest.value.c == a[json0]
    modifies a
    ensures json == json0 + 1 < a.Length && into == into0 + 1 && Terminated(a[..], json)
    ensures Invariant(a[..], original, json, into, Some(rest.value.rest), w, goal)
    ensures TextAt(a[..], json) == TextAt(old(a[..]), json0).rest
  {
    ghost var before := a[..];
    a[into0] := a[json0];
    CopyStep(before, a[..], original, json0, into0, rest, w0, goal);
    json, into, w := json0 + 1, into0 + 1, Extend(w0, before[json0]);
  }
}
