/** The arrays in which the allocating printer collects the strings of the children of a node. */
module PrintEntries {
  import opened CString
  import opened Buffer
  import opened BufferWriting
  import opened Heap

  /** The strings from the i-th on. */
  ghost function OwnFrom(es: seq<array?<byte>>, i: nat): (r: set<object>)
    requires i <= |es|
    ensures forall j :: i <= j < |es| && es[j] != null ==> es[j] in r
    decreases |es| - i
  {
    if i == |es| then {} else Opt(es[i]) + OwnFrom(es, i + 1)
  }

  ghost predicate Distinct(es: seq<array?<byte>>, i: nat)
    requires i <= |es|
    decreases |es| - i
  {
    i == |es| || (Opt(es[i]) !! OwnFrom(es, i + 1) && Distinct(es, i + 1))
  }

  lemma {:induction false} OwnNothing(es: seq<array?<byte>>, i: nat)
    requires i <= |es| && forall j :: i <= j < |es| ==> es[j] == null
    ensures OwnFrom(es, i) == {} && Distinct(es, i)
    decreases |es| - i
  {
    if i < |es| { OwnNothing(es, i + 1); }
  }

  lemma {:induction false} OwnOneMore(es: seq<array?<byte>>, i: nat, n: nat, x: array<byte>)
    requires i <= n < |es| && es[n] == null && Distinct(es, i) && x !in OwnFrom(es, i)
    ensures OwnFrom(es[n := x], i) == OwnFrom(es, i) + {x} && Distinct(es[n := x], i)
    decreases n - i
  {
    if i < n {
      OwnOneMore(es, i + 1, n, x);
    } else {
      SameFrom(es, es[n := x], n + 1);
    }
  }

  lemma {:induction false} SameFrom(es: seq<array?<byte>>, fs: seq<array?<byte>>, i: nat)
    requires i <= |es| == |fs| && forall j :: i <= j < |es| ==> es[j] == fs[j]
    ensures OwnFrom(es, i) == OwnFrom(fs, i) && Distinct(es, i) == Distinct(fs, i)
    decreases |es| - i
  {
    if i < |es| { SameFrom(es, fs, i + 1); }
  }

  lemma {:induction false} OwnAllocated(es: seq<array?<byte>>, i: nat)
    requires i <= |es|
    ensures allocated(OwnFrom(es, i))
    decreases |es| - i
  {
    if i < |es| { OwnAllocated(es, i + 1); }
  }

  /** The first n entries hold the texts, and the others nothing yet. */
  ghost predicate Strings(es: seq<array?<byte>>, n: nat, texts: seq<Str>)
    reads OwnFrom(es, 0)
  {
    && n <= |es| == |texts| && Distinct(es, 0) && (forall i :: n <= i < |es| ==> es[i] == null)
    && forall i :: 0 <= i < n ==> es[i] != null && IsText(es[i]) && TextOf(es[i]) == texts[i]
  }

  lemma {:induction false} NoStrings(es: seq<array?<byte>>, texts: seq<Str>)
    requires |es| == |texts| && forall i :: 0 <= i < |es| ==> es[i] == null
    ensures Strings(es, 0, texts) && OwnFrom(es, 0) == {}
  {
    OwnNothing(es, 0);
  }

  lemma {:induction false} OneMoreString(es: seq<array?<byte>>, n: nat, texts: seq<Str>, x: array<byte>)
    requires Strings(es, n, texts) && n < |es| && x !in OwnFrom(es, 0) && IsText(x) && TextOf(x) == texts[n]
    ensures Strings(es[n := x], n + 1, texts) && OwnFrom(es[n := x], 0) == OwnFrom(es, 0) + {x}
  {
    OwnOneMore(es, 0, n, x);
  }

  /** The loop that frees what has been collected. */
  method FreeEntries(m: Memory, entries: array<array?<byte>>, ghost base: set<object>)
    requires Distinct(entries[..], 0) && OwnFrom(entries[..], 0) !! base && m.live == base + OwnFrom(entries[..], 0)
    modifies m
    ensures m.live == base && m.failed == old(m.failed)
  {
    ghost var es := entries[..];
    var i := 0;
    while i < entries.Length
      invariant i <= entries.Length && entries[..] == es && Distinct(es, i)
      invariant m.live == base + OwnFrom(es, i) && OwnFrom(es, i) !! base && m.failed == old(m.failed)
    {
      if entries[i] != null {
        m.Free(entries[i]);
      }
      i := i + 1;
    }
  }

  /** strlen */
  method StringLength(a: array<byte>) returns (n: nat)
    requires IsText(a)
    ensures n == Len(TextOf(a))
  {
    n := StrLen(a, 0);
  }

  // ---- an array of strings ----

  /** n strings have been collected; base is what else is allocated. */
  ghost predicate Collected(m: Memory, entries: array<array?<byte>>, n: nat, texts: seq<Str>, base: set<object>)
    reads m, entries, OwnFrom(entries[..], 0)
  {
    Strings(entries[..], n, texts) && m.live == base + OwnFrom(entries[..], 0) && OwnFrom(entries[..], 0) !! base
  }

  lemma {:induction false} CollectedNothing(m: Memory, entries: array<array?<byte>>, texts: seq<Str>, base: set<object>)
    requires entries.Length == |texts| && (forall i :: 0 <= i < entries.Length ==> entries[i] == null) && m.live == base
    ensures Collected(m, entries, 0, texts, base)
  {
    NoStrings(entries[..], texts);
  }

  /** A new string becomes the n-th entry. */
  method Collect(m: Memory, entries: array<array?<byte>>, n: nat, ret: array<byte>, ghost texts: seq<Str>,
                 ghost base: set<object>)
    requires n < entries.Length && Strings(entries[..], n, texts) && ret !in base + OwnFrom(entries[..], 0)
    requires OwnFrom(entries[..], 0) !! base && m.live == base + OwnFrom(entries[..], 0) + {ret}
    requires IsText(ret) && TextOf(ret) == texts[n]
    modifies entries
    ensures Collected(m, entries, n + 1, texts, base)
  {
    ghost var es := entries[..];
    OneMoreString(es, n, texts, ret);
    entries[n] := ret;
    assert entries[..] == es[n := ret];
  }

  method MallocText(m: Memory, len: nat, entries: array<array?<byte>>, ghost n: nat, ghost texts: seq<Str>,
                    ghost base: set<object>)
    returns (out: array?<byte>)
    requires Collected(m, entries, n, texts, base)
    modifies m
    ensures out == null ==> m.failed && Collected(m, entries, n, texts, base)
    ensures out != null ==> fresh(out) && out.Length == len && m.failed == old(m.failed)
    ensures out != null ==> Collected(m, entries, n, texts, base + {out}) && out !in OwnFrom(entries[..], 0)
  {
    OwnAllocated(entries[..], 0);
    hide OwnFrom, Distinct;
    out := m.Malloc(len);
  }

  method Release(m: Memory, entries: array<array?<byte>>, ghost n: nat, ghost texts: seq<Str>, ghost base: set<object>)
    requires Collected(m, entries, n, texts, base)
    modifies m
    ensures m.live == base && m.failed == old(m.failed)
  {
    FreeEntries(m, entries, base);
  }

  /** The strings from the i-th on are still there; base is what else is allocated. */
  ghost predicate Remaining(m: Memory, es: seq<array?<byte>>, i: nat, texts: seq<Str>, base: set<object>)
    requires i <= |es|
    reads m, OwnFrom(es, i)
  {
    && |es| == |texts| && Distinct(es, i) && m.live == base + OwnFrom(es, i) && OwnFrom(es, i) !! base
    && forall j :: i <= j < |es| ==> es[j] != null && IsText(es[j]) && TextOf(es[j]) == texts[j]
  }

  /** memcpy of the i-th string. */
  method CopyEntry(m: Memory, out: array<byte>, ptr: nat, e: array<byte>, ghost es: seq<array?<byte>>, ghost i: nat,
                   ghost texts: seq<Str>, ghost base: set<object>, ghost goal: Str, ghost k: Str)
    returns (j: nat)
    requires i < |es| && es[i] == e && Remaining(m, es, i, texts, base) && out in base
    requires Writing(out[..], ptr, goal, Append(texts[i], k)) && Len(goal) < out.Length
    modifies out
    ensures Writing(out[..], j, goal, k) && Remaining(m, es, i, texts, base)
  {
    hide Writing, OwnFrom, Distinct;
    assert e in OwnFrom(es, i);
    WritingLength(out[..], ptr, goal, Append(texts[i], k));
    j := PutEntry(out, ptr, e, goal, k);
  }

  /** cJSON_free of the i-th string. */
  method FreeEntry(m: Memory, e: array<byte>, ghost es: seq<array?<byte>>, ghost i: nat, ghost texts: seq<Str>,
                   ghost base: set<object>)
    requires i < |es| && es[i] == e && Remaining(m, es, i, texts, base)
    modifies m
    ensures Remaining(m, es, i + 1, texts, base) && m.failed == old(m.failed)
  {
    m.Free(e);
  }

  lemma {:induction false} AllRemaining(m: Memory, entries: array<array?<byte>>, n: nat, texts: seq<Str>,
                                        base: set<object>)
    requires Collected(m, entries, n, texts, base) && n == |texts|
    ensures entries.Length == n && Remaining(m, entries[..], 0, texts, base)
    ensures forall i :: 0 <= i < n ==> entries[i] != null
  {
  }

  lemma {:induction false} NoneRemaining(m: Memory, es: seq<array?<byte>>, texts: seq<Str>, base: set<object>)
    requires Remaining(m, es, |es|, texts, base)
    ensures m.live == base
  {
  }

  lemma {:induction false} RemainingFrame(m: Memory, es: seq<array?<byte>>, i: nat, texts: seq<Str>, base: set<object>,
                                          out: array<byte>)
    requires i <= |es| && Remaining(m, es, i, texts, base) && out in base
    ensures out !in OwnFrom(es, i) && allocated(OwnFrom(es, i))
  {
    OwnAllocated(es, i);
  }

  // ---- the names and the values of the members of an object ----

  ghost predicate Split(live: set<object>, base: set<object>, a: set<object>, b: set<object>) {
    live == base + a + b && a !! base && b !! base && a !! b
  }

  /** i names and j values have been collected; base is what else is allocated. */
  ghost predicate Pairs(m: Memory, names: array<array?<byte>>, i: nat, keys: seq<Str>, entries: array<array?<byte>>,
                        j: nat, texts: seq<Str>, base: set<object>)
    reads m, names, entries, OwnFrom(names[..], 0), OwnFrom(entries[..], 0)
  {
    && names != entries && Strings(names[..], i, keys) && Strings(entries[..], j, texts)
    && Split(m.live, base, OwnFrom(names[..], 0), OwnFrom(entries[..], 0))
  }

  lemma {:induction false} NoPairs(m: Memory, names: array<array?<byte>>, keys: seq<Str>, entries: array<array?<byte>>,
                                   texts: seq<Str>, base: set<object>)
    requires names != entries && names.Length == |keys| && entries.Length == |texts| && m.live == base
    requires forall i :: 0 <= i < names.Length ==> names[i] == null
    requires forall i :: 0 <= i < entries.Length ==> entries[i] == null
    ensures Pairs(m, names, 0, keys, entries, 0, texts, base)
  {
    NoStrings(names[..], keys);
    NoStrings(entries[..], texts);
  }

  /** A new string becomes the n-th entry. */
  method Store(a: array<array?<byte>>, n: nat, x: array<byte>, ghost texts: seq<Str>)
    requires n < a.Length && Strings(a[..], n, texts) && x !in OwnFrom(a[..], 0) && IsText(x) && TextOf(x) == texts[n]
    modifies a
    ensures Strings(a[..], n + 1, texts) && OwnFrom(a[..], 0) == old(OwnFrom(a[..], 0)) + {x}
  {
    ghost var es := a[..];
    OneMoreString(es, n, texts, x);
    a[n] := x;
    assert a[..] == es[n := x];
  }

  /** A new string x, allocated since, becomes the next name. */
  method StoreName(m: Memory, names: array<array?<byte>>, i: nat, x: array<byte>, ghost keys: seq<Str>,
                   entries: array<array?<byte>>, ghost j: nat, ghost texts: seq<Str>, ghost base: set<object>)
    requires names != entries && Strings(names[..], i, keys) && Strings(entries[..], j, texts)
    requires Split(m.live - {x}, base, OwnFrom(names[..], 0), OwnFrom(entries[..], 0))
    requires x in m.live && x !in base + OwnFrom(names[..], 0) + OwnFrom(entries[..], 0)
    requires i < names.Length && IsText(x) && TextOf(x) == keys[i]
    modifies names
    ensures Pairs(m, names, i + 1, keys, entries, j, texts, base)
  {
    hide OwnFrom, Distinct;
    Store(names, i, x, keys);
  }

  method StoreValue(m: Memory, names: array<array?<byte>>, ghost i: nat, ghost keys: seq<Str>,
                    entries: array<array?<byte>>, j: nat, x: array<byte>, ghost texts: seq<Str>,
                    ghost base: set<object>)
    requires names != entries && Strings(names[..], i, keys) && Strings(entries[..], j, texts)
    requires Split(m.live - {x}, base, OwnFrom(names[..], 0), OwnFrom(entries[..], 0))
    requires x in m.live && x !in base + OwnFrom(names[..], 0) + OwnFrom(entries[..], 0)
    requires j < entries.Length && IsText(x) && TextOf(x) == texts[j]
    modifies entries
    ensures Pairs(m, names, i, keys, entries, j + 1, texts, base)
  {
    hide OwnFrom, Distinct;
    Store(entries, j, x, texts);
  }

  /** The loop that frees the names and the values. */
  method FreePairs(m: Memory, names: array<array?<byte>>, ghost i0: nat, ghost keys: seq<Str>,
                   entries: array<array?<byte>>, ghost j0: nat, ghost texts: seq<Str>, ghost base: set<object>)
    requires Pairs(m, names, i0, keys, entries, j0, texts, base) && names.Length == entries.Length
    modifies m
    ensures m.live == base && m.failed == old(m.failed)
  {
    ghost var ns, es := names[..], entries[..];
    var i := 0;
    while i < entries.Length
      invariant i <= entries.Length && names[..] == ns && entries[..] == es && Distinct(ns, i) && Distinct(es, i)
      invariant Split(m.live, base, OwnFrom(ns, i), OwnFrom(es, i)) && m.failed == old(m.failed)
    {
      FreeOne(m, names[i], ns, es, i, base);
      FreeOther(m, entries[i], ns, es, i, base);
      i := i + 1;
    }
  }

  /** A name is freed unless it is missing, since its copy could not be made. */
  method FreeOne(m: Memory, n: array?<byte>, ghost ns: seq<array?<byte>>, ghost es: seq<array?<byte>>, ghost i: nat,
                 ghost base: set<object>)
    requires i < |ns| == |es| && ns[i] == n && Distinct(ns, i) && Split(m.live, base, OwnFrom(ns, i), OwnFrom(es, i))
    modifies m
    ensures Split(m.live, base, OwnFrom(ns, i + 1), OwnFrom(es, i)) && Distinct(ns, i + 1) && m.failed == old(m.failed)
  {
    if n != null {
      m.Free(n);
    }
  }

  method FreeOther(m: Memory, e: array?<byte>, ghost ns: seq<array?<byte>>, ghost es: seq<array?<byte>>, ghost i: nat,
                   ghost base: set<object>)
    requires i < |ns| == |es| && es[i] == e && Distinct(es, i)
    requires Split(m.live, base, OwnFrom(ns, i + 1), OwnFrom(es, i))
    modifies m
    ensures Split(m.live, base, OwnFrom(ns, i + 1), OwnFrom(es, i + 1))
    ensures Distinct(es, i + 1) && m.failed == old(m.failed)
  {
    if e != null {
      m.Free(e);
    }
  }

  method MallocPairsText(m: Memory, len: nat, names: array<array?<byte>>, ghost i: nat, ghost keys: seq<Str>,
                         entries: array<array?<byte>>, ghost j: nat, ghost texts: seq<Str>, ghost base: set<object>)
    returns (out: array?<byte>)
    requires Pairs(m, names, i, keys, entries, j, texts, base)
    modifies m
    ensures out == null ==> m.failed && Pairs(m, names, i, keys, entries, j, texts, base)
    ensures out != null ==> fresh(out) && out.Length == len && m.failed == old(m.failed)
    ensures out != null ==> Pairs(m, names, i, keys, entries, j, texts, base + {out})
  {
    OwnAllocated(entries[..], 0);
    OwnAllocated(names[..], 0);
    hide OwnFrom, Distinct;
    out := m.Malloc(len);
  }

  /** The names and values from the i-th on are still there; base is what else is allocated. */
  ghost predicate RemainingPairs(m: Memory, ns: seq<array?<byte>>, es: seq<array?<byte>>, i: nat, keys: seq<Str>,
                                 texts: seq<Str>, base: set<object>)
    requires i <= |ns| == |es|
    reads m, OwnFrom(ns, i), OwnFrom(es, i)
  {
    && |es| == |texts| == |keys| && Distinct(ns, i) && Distinct(es, i)
    && Split(m.live, base, OwnFrom(ns, i), OwnFrom(es, i))
    && (forall j :: i <= j < |ns| ==> ns[j] != null && IsText(ns[j]) && TextOf(ns[j]) == keys[j])
    && (forall j :: i <= j < |es| ==> es[j] != null && IsText(es[j]) && TextOf(es[j]) == texts[j])
  }

  lemma {:induction false} AllRemainingPairs(m: Memory, names: array<array?<byte>>, keys: seq<Str>,
                                             entries: array<array?<byte>>, texts: seq<Str>, base: set<object>)
    requires Pairs(m, names, |keys|, keys, entries, |texts|, texts, base) && |keys| == |texts|
    ensures names.Length == entries.Length == |keys| && RemainingPairs(m, names[..], entries[..], 0, keys, texts, base)
    ensures forall i :: 0 <= i < names.Length ==> names[i] != null
    ensures forall i :: 0 <= i < entries.Length ==> entries[i] != null
  {
  }

  lemma {:induction false} NoneRemainingPairs(m: Memory, ns: seq<array?<byte>>, es: seq<array?<byte>>, keys: seq<Str>,
                                              texts: seq<Str>, base: set<object>)
    requires |ns| == |es| && RemainingPairs(m, ns, es, |ns|, keys, texts, base)
    ensures m.live == base
  {
  }

  /** Writing to out leaves what remains alone. */
  lemma {:induction false} RemainingPairsApart(m: Memory, ns: seq<array?<byte>>, es: seq<array?<byte>>, i: nat,
                                               keys: seq<Str>, texts: seq<Str>, base: set<object>, out: array<byte>)
    requires i <= |ns| == |es| && RemainingPairs(m, ns, es, i, keys, texts, base) && out in base
    ensures out !in OwnFrom(ns, i) + OwnFrom(es, i) && allocated(OwnFrom(ns, i)) && allocated(OwnFrom(es, i))
  {
    OwnAllocated(ns, i);
    OwnAllocated(es, i);
  }

  method FreePair(m: Memory, n: array<byte>, e: array<byte>, ghost ns: seq<array?<byte>>, ghost es: seq<array?<byte>>,
                  ghost i: nat, ghost keys: seq<Str>, ghost texts: seq<Str>, ghost base: set<object>)
    requires i < |ns| == |es| && ns[i] == n && es[i] == e && RemainingPairs(m, ns, es, i, keys, texts, base)
    modifies m
    ensures RemainingPairs(m, ns, es, i + 1, keys, texts, base) && m.failed == old(m.failed)
  {
    m.Free(n);
    m.Free(e);
  }
}
