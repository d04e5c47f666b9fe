/** cJSON_Print and cJSON_PrintUnformatted: every value is printed into a string of its own, and an
    array or object puts the strings of its children together. */
module PrintAlloc {
  import opened CString
  import opened BufferWriting
  import opened Json
  import opened JsonPrinter
  import J = JsonPrinter
  import opened PrintLength
  import opened PrintEntries
  import opened PrintScalars
  import opened Heap
  import opened HeapViews
  import opened HeapStrings

  // ---- scalars ----

  /** print_string_ptr without a buffer. */
  method PrintStringPtr(m: Memory, str: array?<byte>) returns (out: array?<byte>)
    requires IsText(str)
    modifies m
    ensures out == null ==> m.live == old(m.live) && m.failed
    ensures out != null ==> fresh(out) && m.live == old(m.live) + {out} && m.failed == old(m.failed)
    ensures out != null ==> IsText(out) && TextOf(out) == PrintString(TextOf(str), Nul)
  {
    hide Writing, PrintChars, NeedsEscape, NoEscape;
    ghost var goal := PrintString(TextOf(str), Nul);
    if str == null {
      out := m.Malloc(3);
      if out != null {
        AppendNul(Ch(QUOTE, Ch(QUOTE, Nul)));
        EmptyString();
        Start(out[..], goal);
        var j := PutText(out, 0, Ch(QUOTE, Ch(QUOTE, Nul)), goal, Nul);
        Written(out[..], j, goal);
      }
      return;
    }
    var flag, len := CountString(str);
    out := m.Malloc(len + 3);
    if out != null {
      Start(out[..], goal);
      var j := PutString(out, 0, str, flag, goal, Nul);
      Written(out[..], j, goal);
    }
  }

  lemma EmptyString()
    ensures PrintString(Nul, Nul) == Ch(QUOTE, Ch(QUOTE, Nul))
  {
  }

  /** print_number without a buffer, for a number that is a 32-bit integer. */
  method PrintNumber(m: Memory, item: Node) returns (out: array?<byte>)
    requires IsInt32(item.valuedouble)
    modifies m
    ensures out == null ==> m.live == old(m.live) && m.failed
    ensures out != null ==> fresh(out) && m.live == old(m.live) + {out} && m.failed == old(m.failed)
    ensures out != null ==> IsText(out) && TextOf(out) == PrintInt(item.valuedouble.Floor, Nul)
  {
    hide Writing, PrintNat;
    var d := item.valuedouble;
    ghost var goal := PrintInt(d.Floor, Nul);
    if d == 0.0 {
      out := m.Malloc(2);
      if out != null {
        ZeroText(Nul);
        StrCpy(out, Ch(ZERO, Nul));
      }
      return;
    }
    out := m.Malloc(21);
    if out != null {
      IntWidth(d.Floor);
      Start(out[..], goal);
      var j := PutInt(out, 0, d.Floor, goal, Nul);
      Written(out[..], j, goal);
    }
  }

  // ---- values ----

  /** print_value without a buffer. */
  method PrintValue(m: Memory, item: Node, depth: nat, fmt: bool, ghost t: Tree, ghost v: Json)
    returns (out: array?<byte>)
    requires Shows(item, t, v) && IntegersOnly(v)
    modifies m
    ensures out == null ==> m.live == old(m.live) && m.failed
    ensures out != null ==> fresh(out) && m.live == old(m.live) + {out} && m.failed == old(m.failed)
    ensures out != null ==> IsText(out) && TextOf(out) == J.PrintValue(v, depth, fmt, Nul)
    decreases t, 2
  {
    hide Shows, PrintString, PrintInt, PrintElems, PrintMembers, Intact, Deep, DenMembers, Values, IsText, TextOf;
    ShowsKind(item, t, v);
    if item.kind == KArray {
      out := PrintArray(m, item, depth, fmt, t, DenMembers(t.kids), v.elems);
    } else if item.kind == KObject {
      out := PrintObject(m, item, depth, fmt, t, DenMembers(t.kids));
    } else {
      out := PrintLeaf(m, item, t, v);
    }
  }

  method PrintLeaf(m: Memory, item: Node, ghost t: Tree, ghost v: Json) returns (out: array?<byte>)
    requires Shows(item, t, v) && IntegersOnly(v) && item.kind != KArray && item.kind != KObject
    modifies m
    ensures out == null ==> m.live == old(m.live) && m.failed
    ensures out != null ==> fresh(out) && m.live == old(m.live) + {out} && m.failed == old(m.failed)
    ensures out != null ==> IsText(out) && TextOf(out) == J.PrintValue(v, 0, false, Nul)
  {
    hide Shows, PrintString, PrintInt, Intact, Deep, DenMembers, IsText, TextOf;
    ShowsKind(item, t, v);
    AppendNul(NULL_TEXT);
    AppendNul(FALSE_TEXT);
    AppendNul(TRUE_TEXT);
    match item.kind {
      case KNull => out := StrDup(m, NULL_TEXT);
      case KFalse => out := StrDup(m, FALSE_TEXT);
      case KTrue => out := StrDup(m, TRUE_TEXT);
      case KNumber => out := PrintNumber(m, item);
      case KString => out := PrintStringPtr(m, item.valuestring);
    }
  }

  // ---- arrays ----

  /** The texts of the elements. */
  ghost function ElemTexts(vs: seq<Json>, depth: nat, fmt: bool): (r: seq<Str>)
    requires AllIntegers(vs)
    ensures |r| == |vs|
    ensures forall i :: 0 <= i < |vs| ==> IntegersOnly(vs[i]) && r[i] == J.PrintValue(vs[i], depth, fmt, Nul)
  {
    if vs == [] then [] else
    assert forall i :: 0 < i < |vs| ==> vs[i] == vs[1..][i - 1];
    [J.PrintValue(vs[0], depth, fmt, Nul)] + ElemTexts(vs[1..], depth, fmt)
  }

  /** The lengths of the texts from the i-th on, and extra bytes for each. */
  function Total(texts: seq<Str>, extra: nat, i: nat): nat
    requires i <= |texts|
    decreases |texts| - i
  {
    if i == |texts| then 0 else Len(texts[i]) + extra + Total(texts, extra, i + 1)
  }

  /** The i-th text and what follows it. */
  lemma {:induction false} ElemText(vs: seq<Json>, i: nat, depth: nat, fmt: bool)
    requires AllIntegers(vs) && i < |vs|
    ensures ElemsFrom(vs, i, depth, fmt, Nul) ==
      Append(ElemTexts(vs, depth + 1, fmt)[i], ElemTail(vs, i, depth, fmt, Nul))
  {
    var tail := ElemTail(vs, i, depth, fmt, Nul);
    ElemStep(vs, i, depth, fmt, Nul);
    hide J.PrintValue, ElemsFrom, ElemTail, AllIntegers, IntegersOnly;
    assert Append(Nul, tail) == tail;
    assert ElemTexts(vs, depth + 1, fmt)[i] == J.PrintValue(vs[i], depth + 1, fmt, Nul);
    ValueAppend(vs[i], depth + 1, fmt, Nul, tail);
  }

  lemma TailLength(vs: seq<Json>, i: nat, depth: nat, fmt: bool)
    requires AllIntegers(vs) && i < |vs|
    ensures i + 1 < |vs| ==>
      Len(ElemTail(vs, i, depth, fmt, Nul)) == (if fmt then 2 else 1) + Len(ElemsFrom(vs, i + 1, depth, fmt, Nul))
    ensures i + 1 == |vs| ==> Len(ElemTail(vs, i, depth, fmt, Nul)) == 1
  {
    hide ElemsFrom, AllIntegers;
  }

  /** The length print_array adds up suffices for the text it composes. */
  lemma {:induction false} ArrayRoom(vs: seq<Json>, i: nat, depth: nat, fmt: bool)
    requires AllIntegers(vs) && i <= |vs|
    ensures Len(ElemsFrom(vs, i, depth, fmt, Nul)) <= 1 + Total(ElemTexts(vs, depth + 1, fmt), if fmt then 3 else 2, i)
    decreases |vs| - i
  {
    hide J.PrintValue, ElemsFrom, AllIntegers, ElemTexts, Append, ElemTail;
    ElemStep(vs, i, depth, fmt, Nul);
    if i < |vs| {
      ElemText(vs, i, depth, fmt);
      ArrayRoom(vs, i + 1, depth, fmt);
      TailLength(vs, i, depth, fmt);
    }
  }

  method PrintArray(m: Memory, item: Node, depth: nat, fmt: bool, ghost t: Tree, ghost ms: seq<Member>,
                    ghost vs: seq<Json>)
    returns (out: array?<byte>)
    requires t.node == item && Intact(t, ms) && Values(ms, vs) && |ms| == |vs| && AllIntegers(vs)
    modifies m
    ensures out == null ==> m.live == old(m.live) && m.failed
    ensures out != null ==> fresh(out) && m.live == old(m.live) + {out} && m.failed == old(m.failed)
    ensures out != null ==> IsText(out) && TextOf(out) == Ch(LBRACK, PrintElems(vs, depth, fmt, Nul))
    decreases t, 1
  {
    hide *;
    ElemStep(vs, 0, depth, fmt, Nul);
    DeepAllocated(t);
    NoMemoryBelow(t, m);
    var numentries := CountChildren(item, t, ms);
    if numentries == 0 {
      TwoLong(LBRACK, RBRACK);
      out := NewString(m, 3, Ch(LBRACK, Ch(RBRACK, Nul)));
      return;
    }
    var entries := m.MallocPointers(numentries);
    out := null;
    if entries != null {
      out := PrintFullArray(m, item, depth, fmt, entries, t, ms, vs);
      m.Free(entries);
    }
  }

  lemma TwoLong(a: uchar, b: uchar)
    ensures Len(Ch(a, Ch(b, Nul))) == 2
  {
    assert Len(Ch(b, Nul)) == 1;
  }

  /** print_array with an array for the strings of its elements; the caller frees that array. */
  method PrintFullArray(m: Memory, item: Node, depth: nat, fmt: bool, entries: array<array?<byte>>, ghost t: Tree,
                        ghost ms: seq<Member>, ghost vs: seq<Json>)
    returns (out: array?<byte>)
    requires t.node == item && Intact(t, ms) && Values(ms, vs) && |ms| == |vs| && AllIntegers(vs)
    requires entries.Length == |vs| && (forall i :: 0 <= i < entries.Length ==> entries[i] == null)
    requires entries !in Deep(t)
    modifies m, entries
    ensures out == null ==> m.live == old(m.live) && m.failed
    ensures out != null ==> fresh(out) && m.live == old(m.live) + {out} && m.failed == old(m.failed)
    ensures out != null ==> IsText(out) && TextOf(out) == Ch(LBRACK, ElemsFrom(vs, 0, depth, fmt, Nul))
    decreases t, 0, 3
  {
    hide Intact, Values, AllIntegers, ElemTexts, ElemsFrom, Deep, Collected, Total;
    ghost var base, texts := m.live, ElemTexts(vs, depth + 1, fmt);
    CollectedNothing(m, entries, texts, base);
    var fail, len;
    ghost var n;
    fail, len, n := CollectElems(m, item, depth, fmt, entries, t, ms, vs, texts, base);
    out := null;
    if !fail {
      out := MallocText(m, len, entries, n, texts, base);
    }
    if out == null {
      Release(m, entries, n, texts, base);
      return;
    }
    ArrayRoom(vs, 0, depth, fmt);
    ComposeArray(m, out, entries, depth, fmt, vs, texts, base + {out});
  }

  /** The loop that composes the text of an array and frees the strings it is made of, and the end. */
  method ComposeArray(m: Memory, out: array<byte>, entries: array<array?<byte>>, ghost depth: nat, fmt: bool,
                      ghost vs: seq<Json>, ghost texts: seq<Str>, ghost base: set<object>)
    requires AllIntegers(vs) && texts == ElemTexts(vs, depth + 1, fmt)
    requires Len(ElemsFrom(vs, 0, depth, fmt, Nul)) + 1 < out.Length
    requires Collected(m, entries, |vs|, texts, base) && out in base
    modifies m, out
    ensures m.live == base && m.failed == old(m.failed)
    ensures IsText(out) && TextOf(out) == Ch(LBRACK, ElemsFrom(vs, 0, depth, fmt, Nul))
  {
    hide Writing, AllIntegers, ElemTexts, ElemsFrom, ElemTail, Remaining, Collected;
    ghost var es, goal := entries[..], Ch(LBRACK, ElemsFrom(vs, 0, depth, fmt, Nul));
    AllRemaining(m, entries, |vs|, texts, base);
    Start(out[..], goal);
    var ptr := Put(out, 0, LBRACK, goal, goal);
    PutNul(out, ptr, goal, goal.rest);
    var i := 0;
    while i < entries.Length
      invariant 0 <= i <= entries.Length == |vs| && entries[..] == es
      invariant Remaining(m, es, i, texts, base) && m.failed == old(m.failed)
      invariant Writing(out[..], ptr, goal, ElemsFrom(vs, i, depth, fmt, Nul))
    {
      ptr := ComposeElem(m, out, ptr, entries[i], i, entries.Length, depth, fmt, vs, es, texts, base, goal);
      FreeEntry(m, entries[i], es, i, texts, base);
      i := i + 1;
    }
    NoneRemaining(m, es, texts, base);
    ElemStep(vs, i, depth, fmt, Nul);
    WritingLength(out[..], ptr, goal, Ch(RBRACK, Nul));
    ptr := Put(out, ptr, RBRACK, goal, Ch(RBRACK, Nul));
    PutNul(out, ptr, goal, Nul);
    Written(out[..], ptr, goal);
  }

  /** One element and what follows it. */
  method ComposeElem(m: Memory, out: array<byte>, ptr: nat, e: array<byte>, i: nat, numentries: nat, ghost depth: nat,
                     fmt: bool, ghost vs: seq<Json>, ghost es: seq<array?<byte>>, ghost texts: seq<Str>,
                     ghost base: set<object>, ghost goal: Str)
    returns (j: nat)
    requires AllIntegers(vs) && texts == ElemTexts(vs, depth + 1, fmt) && i < |es| == |vs| == numentries
    requires es[i] == e && Remaining(m, es, i, texts, base) && out in base
    requires Writing(out[..], ptr, goal, ElemsFrom(vs, i, depth, fmt, Nul)) && Len(goal) < out.Length
    modifies out
    ensures Remaining(m, es, i, texts, base) && Writing(out[..], j, goal, ElemsFrom(vs, i + 1, depth, fmt, Nul))
  {
    hide Writing, AllIntegers, ElemTexts, ElemsFrom, Remaining;
    ElemText(vs, i, depth, fmt);
    ElemStep(vs, i + 1, depth, fmt, Nul);
    ghost var tail, rest := ElemTail(vs, i, depth, fmt, Nul), ElemsFrom(vs, i + 1, depth, fmt, Nul);
    j := CopyEntry(m, out, ptr, e, es, i, texts, base, goal, tail);
    if i != numentries - 1 {
      WritingLength(out[..], j, goal, tail);
      RemainingFrame(m, es, i, texts, base, out);
      j := Put(out, j, COMMA, goal, tail);
      if fmt {
        j := Put(out, j, SPACE, goal, tail.rest);
      }
      PutNul(out, j, goal, rest);
    }
  }

  /** In the middle of collecting the strings of the children of t. */
  ghost predicate Gathering(m: Memory, entries: array<array?<byte>>, i: nat, texts: seq<Str>, base: set<object>,
                            t: Tree, ms: seq<Member>)
    reads m, entries, OwnFrom(entries[..], 0), t.node, Deep(t)
  {
    Intact(t, ms) && entries !in Deep(t) && Collected(m, entries, i, texts, base)
  }

  lemma {:induction false} GatheringNext(m: Memory, entries: array<array?<byte>>, i: nat, texts: seq<Str>,
                                         base: set<object>, t: Tree, ms: seq<Member>, k: nat)
    requires Gathering(m, entries, i, texts, base, t, ms)
    ensures |ms| == |t.kids| && t.node.child == if t.kids == [] then null else t.kids[0].node
    ensures k < |t.kids| ==> t.kids[k].node.next == if k + 1 < |t.kids| then t.kids[k + 1].node else null
    ensures Collected(m, entries, i, texts, base)
  {
    hide Intact, Collected, Nodes, Below, Deep;
    NextChild(t.node, t, ms, k);
  }

  /** The loop that prints the elements. */
  method CollectElems(m: Memory, item: Node, depth: nat, fmt: bool, entries: array<array?<byte>>, ghost t: Tree,
                      ghost ms: seq<Member>, ghost vs: seq<Json>, ghost texts: seq<Str>, ghost base: set<object>)
    returns (fail: bool, len: nat, ghost n: nat)
    requires t.node == item && Values(ms, vs) && |ms| == |vs|
    requires AllIntegers(vs) && texts == ElemTexts(vs, depth + 1, fmt)
    requires Gathering(m, entries, 0, texts, base, t, ms)
    modifies m, entries
    ensures Collected(m, entries, n, texts, base)
    ensures if fail then m.failed else n == |vs| && m.failed == old(m.failed)
    ensures !fail ==> len == 5 + Total(texts, if fmt then 3 else 2, 0)
    decreases t, 0, 2
  {
    hide Values, AllIntegers, ElemTexts, Gathering, Collected, Total;
    ghost var extra := if fmt then 3 else 2;
    GatheringNext(m, entries, 0, texts, base, t, ms, 0);
    len, fail := 5, false;
    var child, i := item.child, 0;
    n := i;
    while child != null
      invariant n == i <= |t.kids| && child == (if n < |t.kids| then t.kids[n].node else null)
      invariant Gathering(m, entries, n, texts, base, t, ms) && m.failed == old(m.failed)
      invariant len + Total(texts, extra, n) == 5 + Total(texts, extra, 0)
      decreases |t.kids| - n
    {
      TotalStep(texts, extra, n);
      var ret, plus := CollectElem(m, child, depth, fmt, entries, t, ms, vs, texts, base, i);
      if ret == null {
        GatheringNext(m, entries, n, texts, base, t, ms, 0);
        fail := true;
        return;
      }
      len := len + plus;
      GatheringNext(m, entries, n + 1, texts, base, t, ms, n);
      child := child.next;
      i := i + 1;
      n := i;
    }
    GatheringNext(m, entries, n, texts, base, t, ms, 0);
    TotalStep(texts, extra, n);
  }

  lemma TotalStep(texts: seq<Str>, extra: nat, i: nat)
    requires i <= |texts|
    ensures i == |texts| ==> Total(texts, extra, i) == 0
    ensures i < |texts| ==> Total(texts, extra, i) == Len(texts[i]) + extra + Total(texts, extra, i + 1)
  {
  }

  /** One element: its string becomes entries[i], and plus is what it adds to the length. */
  method CollectElem(m: Memory, child: Node, depth: nat, fmt: bool, entries: array<array?<byte>>, ghost t: Tree,
                     ghost ms: seq<Member>, ghost vs: seq<Json>, ghost texts: seq<Str>, ghost base: set<object>, i: nat)
    returns (ret: array?<byte>, plus: nat)
    requires i < |t.kids| == |ms| == |vs| && child == t.kids[i].node && Values(ms, vs) && AllIntegers(vs)
    requires texts == ElemTexts(vs, depth + 1, fmt) && Gathering(m, entries, i, texts, base, t, ms)
    modifies m, entries
    ensures ret == null ==> m.failed && Gathering(m, entries, i, texts, base, t, ms)
    ensures ret != null ==> m.failed == old(m.failed) && Gathering(m, entries, i + 1, texts, base, t, ms)
    ensures ret != null ==> plus == Len(texts[i]) + if fmt then 3 else 2
    decreases t, 0, 1
  {
    hide Intact, AllIntegers, ElemTexts, Deep, Shows, J.PrintValue, Collected;
    KidShows(t.node, t, ms, i);
    DeepAllocated(t);
    NoMemoryBelow(t, m);
    var len;
    ret, len := PrintInto(m, child, depth + 1, fmt, entries, i, t.kids[i], ms[i].value, texts, base);
    plus := len + 2 + (if fmt then 1 else 0);
  }

  /** The string of one element goes to its place among the entries, and its length is returned. */
  method PrintInto(m: Memory, child: Node, depth: nat, fmt: bool, entries: array<array?<byte>>, i: nat, ghost kid: Tree,
                   ghost v: Json, ghost texts: seq<Str>, ghost base: set<object>)
    returns (ret: array?<byte>, len: nat)
    requires Shows(child, kid, v) && IntegersOnly(v) && Collected(m, entries, i, texts, base) && i < |texts|
    requires texts[i] == J.PrintValue(v, depth, fmt, Nul)
    modifies m, entries
    ensures ret == null ==> m.failed && Collected(m, entries, i, texts, base)
    ensures ret != null ==>
      m.failed == old(m.failed) && Collected(m, entries, i + 1, texts, base) && len == Len(texts[i])
    decreases kid, 3
  {
    hide Shows, IsText, TextOf, J.PrintValue, IntegersOnly, OwnFrom, Distinct;
    len := 0;
    OwnAllocated(entries[..], 0);
    ret := PrintValue(m, child, depth, fmt, kid, v);
    if ret != null {
      Collect(m, entries, i, ret, texts, base);
      len := StringLength(ret);
    }
  }

  // ---- objects ----

  method PrintObject(m: Memory, item: Node, depth: nat, fmt: bool, ghost t: Tree, ghost ms: seq<Member>)
    returns (out: array?<byte>)
    requires t.node == item && Intact(t, ms) && AllIntegerMembers(ms)
    modifies m
    ensures out == null ==> m.live == old(m.live) && m.failed
    ensures out != null ==> fresh(out) && m.live == old(m.live) + {out} && m.failed == old(m.failed)
    ensures out != null ==> IsText(out) && TextOf(out) == J.PrintValue(JObject(ms), depth, fmt, Nul)
    decreases t, 1
  {
    hide *;
    ObjectText(ms, depth, fmt, Nul);
    DeepAllocated(t);
    NoMemoryBelow(t, m);
    var numentries := CountChildren(item, t, ms);
    if numentries == 0 {
      out := PrintEmptyObject(m, depth, fmt);
      return;
    }
    var entries := m.MallocPointers(numentries);
    out := null;
    if entries != null {
      var names := m.MallocPointers(numentries);
      if names != null {
        out := PrintFullObject(m, item, depth, fmt, names, entries, t, ms);
        m.Free(names);
      }
      m.Free(entries);
    }
  }

  /** An object without members: a fresh block with the two braces, and a line break and tabs between
      them when formatted. */
  method PrintEmptyObject(m: Memory, depth: nat, fmt: bool) returns (out: array?<byte>)
    modifies m
    ensures out == null ==> m.live == old(m.live) && m.failed
    ensures out != null ==> fresh(out) && m.live == old(m.live) + {out} && m.failed == old(m.failed)
    ensures out != null ==>
      IsText(out) && TextOf(out) == Ch(LBRACE, Only(fmt, LF, Tabs(if fmt then depth else 0, Ch(RBRACE, Nul))))
  {
    hide Writing;
    var n := if fmt then depth else 0;
    ghost var goal := Ch(LBRACE, Only(fmt, LF, Tabs(n, Ch(RBRACE, Nul))));
    TabsLength(n, Ch(RBRACE, Nul));
    out := m.Malloc(if fmt then depth + 4 else 3);
    if out != null {
      Start(out[..], goal);
      var ptr := Put(out, 0, LBRACE, goal, goal);
      if fmt {
        ptr := Put(out, ptr, LF, goal, goal.rest);
      }
      ptr := PutTabs(out, ptr, n, goal, Ch(RBRACE, Nul));
      ptr := Put(out, ptr, RBRACE, goal, Ch(RBRACE, Nul));
      PutNul(out, ptr, goal, Nul);
      Written(out[..], ptr, goal);
    }
  }

  ghost function NameTexts(ms: seq<Member>): (r: seq<Str>)
    ensures |r| == |ms| && forall i :: 0 <= i < |ms| ==> r[i] == PrintString(ms[i].key, Nul)
  {
    seq(|ms|, i requires 0 <= i < |ms| => PrintString(ms[i].key, Nul))
  }

  ghost function ValueTexts(ms: seq<Member>, depth: nat, fmt: bool): (r: seq<Str>)
    requires AllIntegerMembers(ms)
    ensures |r| == |ms|
    ensures forall i :: 0 <= i < |ms| ==>
      IntegersOnly(ms[i].value) && r[i] == J.PrintValue(ms[i].value, depth, fmt, Nul)
  {
    if ms == [] then [] else
    assert forall i :: 0 < i < |ms| ==> ms[i] == ms[1..][i - 1];
    assert IsIntegerMember(ms[0]);
    [J.PrintValue(ms[0].value, depth, fmt, Nul)] + ValueTexts(ms[1..], depth, fmt)
  }

  /** What the names and values from the i-th on add to the length. */
  function PairTotal(keys: seq<Str>, texts: seq<Str>, extra: nat, i: nat): nat
    requires i <= |keys| == |texts|
    decreases |keys| - i
  {
    if i == |keys| then 0 else Len(texts[i]) + Len(keys[i]) + extra + PairTotal(keys, texts, extra, i + 1)
  }

  /** print_object with arrays for the strings of its members, which the caller frees. */
  method PrintFullObject(m: Memory, item: Node, depth: nat, fmt: bool, names: array<array?<byte>>,
                         entries: array<array?<byte>>, ghost t: Tree, ghost ms: seq<Member>)
    returns (out: array?<byte>)
    requires t.node == item && Intact(t, ms) && AllIntegerMembers(ms)
    requires names != entries && names.Length == entries.Length == |ms|
    requires (forall i :: 0 <= i < names.Length ==> names[i] == null)
    requires (forall i :: 0 <= i < entries.Length ==> entries[i] == null)
    requires names !in Deep(t) && entries !in Deep(t)
    modifies m, names, entries
    ensures out == null ==> m.live == old(m.live) && m.failed
    ensures out != null ==> fresh(out) && m.live == old(m.live) + {out} && m.failed == old(m.failed)
    ensures out != null ==> IsText(out)
    ensures out != null ==>
      TextOf(out) == Opts(Some(LBRACE), if fmt then Some(LF) else None, MembersRest(ms, 0, depth + 1, fmt, Nul))
    decreases t, 0, 3
  {
    hide Intact, AllIntegerMembers, NameTexts, ValueTexts, MembersRest, Deep, Pairs, PairTotal, IsText, TextOf;
    ghost var base, keys, texts := m.live, NameTexts(ms), ValueTexts(ms, depth + 1, fmt);
    NoPairs(m, names, keys, entries, texts, base);
    var fail, len;
    ghost var i, j;
    fail, len, i, j := CollectMembers(m, item, depth + 1, fmt, names, entries, t, ms, keys, texts, base);
    out := null;
    if !fail {
      out := MallocPairsText(m, len, names, i, keys, entries, j, texts, base);
    }
    if out == null {
      FreePairs(m, names, i, keys, entries, j, texts, base);
      return;
    }
    ObjectRoom(ms, 0, depth + 1, fmt);
    ComposeObject(m, out, names, entries, depth + 1, fmt, ms, keys, texts, base + {out});
  }

  method CollectMembers(m: Memory, item: Node, depth: nat, fmt: bool, names: array<array?<byte>>,
                        entries: array<array?<byte>>, ghost t: Tree, ghost ms: seq<Member>, ghost keys: seq<Str>,
                        ghost texts: seq<Str>, ghost base: set<object>)
    returns (fail: bool, len: nat, ghost i: nat, ghost j: nat)
    requires t.node == item && AllIntegerMembers(ms) && depth > 0
    requires keys == NameTexts(ms) && texts == ValueTexts(ms, depth, fmt)
    requires Pairs(m, names, 0, keys, entries, 0, texts, base)
    requires Intact(t, ms) && names !in Deep(t) && entries !in Deep(t)
    modifies m, names, entries
    ensures Pairs(m, names, i, keys, entries, j, texts, base)
    ensures if fail then m.failed else i == j == |ms| && m.failed == old(m.failed)
    ensures !fail ==> len == 7 + (if fmt then depth else 0) + PairTotal(keys, texts, if fmt then 4 + depth else 2, 0)
    decreases t, 0, 2
  {
    hide *;
    GatheringPairsStart(m, names, keys, entries, texts, base, t, ms);
    fail, len := false, 7;
    var child, k := item.child, 0;
    i, j := 0, 0;
    if fmt {
      len := len + depth;
    }
    while child != null
      invariant i == j == k <= |t.kids| == |ms| && child == (if k < |t.kids| then t.kids[k].node else null)
      invariant GatheringPairs(m, names, k, keys, entries, k, texts, base, t, ms) && m.failed == old(m.failed)
      invariant len + PairTotal(keys, texts, if fmt then 4 + depth else 2, k) ==
        7 + (if fmt then depth else 0) + PairTotal(keys, texts, if fmt then 4 + depth else 2, 0)
      decreases |t.kids| - k
    {
      var ok, plus;
      ok, plus, i, j := CollectMember(m, child, depth, fmt, names, entries, t, ms, keys, texts, base, k);
      GatheringPairsNext(m, names, i, keys, entries, j, texts, base, t, ms, k);
      if !ok {
        fail := true;
        return;
      }
      PairTotalStep(keys, texts, if fmt then 4 + depth else 2, k);
      len := len + plus;
      child := child.next;
      k := k + 1;
    }
    PairTotalStep(keys, texts, if fmt then 4 + depth else 2, k);
    GatheringPairsNext(m, names, i, keys, entries, j, texts, base, t, ms, 0);
  }

  lemma PairTotalStep(keys: seq<Str>, texts: seq<Str>, extra: nat, i: nat)
    requires i <= |keys| == |texts|
    ensures i == |keys| ==> PairTotal(keys, texts, extra, i) == 0
    ensures i < |keys| ==>
      PairTotal(keys, texts, extra, i) == Len(texts[i]) + Len(keys[i]) + extra + PairTotal(keys, texts, extra, i + 1)
  {
  }

  /** In the middle of collecting the strings of the members of t. */
  ghost predicate GatheringPairs(m: Memory, names: array<array?<byte>>, i: nat, keys: seq<Str>,
                                 entries: array<array?<byte>>, j: nat, texts: seq<Str>, base: set<object>, t: Tree,
                                 ms: seq<Member>)
    reads m, names, entries, OwnFrom(names[..], 0), OwnFrom(entries[..], 0), t.node, Deep(t)
  {
    && Intact(t, ms) && names !in Deep(t) && entries !in Deep(t) && Pairs(m, names, i, keys, entries, j, texts, base)
    && |keys| == |texts| == |ms| == |t.kids|
  }

  lemma {:induction false} GatheringPairsStart(m: Memory, names: array<array?<byte>>, keys: seq<Str>,
                                               entries: array<array?<byte>>, texts: seq<Str>, base: set<object>,
                                               t: Tree, ms: seq<Member>)
    requires Pairs(m, names, 0, keys, entries, 0, texts, base)
    requires Intact(t, ms) && names !in Deep(t) && entries !in Deep(t)
    requires |keys| == |texts| == |ms|
    ensures GatheringPairs(m, names, 0, keys, entries, 0, texts, base, t, ms)
    ensures |ms| == |t.kids| && t.node.child == if t.kids == [] then null else t.kids[0].node
  {
    hide Intact, Pairs, Nodes, Below, Deep;
    NextChild(t.node, t, ms, 0);
  }

  lemma {:induction false} GatheringPairsNext(m: Memory, names: array<array?<byte>>, i: nat, keys: seq<Str>,
                                              entries: array<array?<byte>>, j: nat, texts: seq<Str>, base: set<object>,
                                              t: Tree, ms: seq<Member>, k: nat)
    requires GatheringPairs(m, names, i, keys, entries, j, texts, base, t, ms)
    ensures k < |t.kids| ==> t.kids[k].node.next == if k + 1 < |t.kids| then t.kids[k + 1].node else null
    ensures Pairs(m, names, i, keys, entries, j, texts, base)
  {
    hide Intact, Pairs, Nodes, Below, Deep;
    NextChild(t.node, t, ms, k);
  }

  /** One member: its strings become names[k] and entries[k], and plus is what it adds to the length.
      Without ok one of the two is missing. */
  method CollectMember(m: Memory, child: Node, depth: nat, fmt: bool, names: array<array?<byte>>,
                       entries: array<array?<byte>>, ghost t: Tree, ghost ms: seq<Member>, ghost keys: seq<Str>,
                       ghost texts: seq<Str>, ghost base: set<object>, k: nat)
    returns (ok: bool, plus: nat, ghost i: nat, ghost j: nat)
    requires k < |t.kids| && child == t.kids[k].node && AllIntegerMembers(ms)
    requires keys == NameTexts(ms) && texts == ValueTexts(ms, depth, fmt)
    requires GatheringPairs(m, names, k, keys, entries, k, texts, base, t, ms)
    modifies m, names, entries
    ensures GatheringPairs(m, names, i, keys, entries, j, texts, base, t, ms)
    ensures if ok then i == j == k + 1 && m.failed == old(m.failed) else m.failed
    ensures ok ==> plus == Len(texts[k]) + Len(keys[k]) + if fmt then 4 + depth else 2
    decreases t, 0, 1
  {
    hide AllIntegerMembers, ValueTexts, NameTexts, Shows, Intact, Deep, Nodes, Below, IsText, TextOf, Pairs;
    hide J.PrintValue, PrintString;
    KidShows(t.node, t, ms, k);
    DeepAllocated(t);
    NoMemoryBelow(t, m);
    plus := 0;
    var str, ret, keylen, len;
    str, keylen, i := NameInto(m, child.key, names, k, keys, entries, k, texts, base);
    ret, len, j := ValueInto(m, child, depth, fmt, names, i, keys, entries, k, t.kids[k], ms[k].value, texts, base);
    ok := str != null && ret != null;
    if ok {
      plus := len + keylen + 2 + (if fmt then 2 + depth else 0);
    }
  }

  /** The printed key of a member goes to its place among the names. */
  method NameInto(m: Memory, key: array?<byte>, names: array<array?<byte>>, k: nat, ghost keys: seq<Str>,
                  entries: array<array?<byte>>, ghost j: nat, ghost texts: seq<Str>, ghost base: set<object>)
    returns (str: array?<byte>, len: nat, ghost i: nat)
    requires Pairs(m, names, k, keys, entries, j, texts, base) && IsText(key)
    requires k < |keys| && keys[k] == PrintString(TextOf(key), Nul)
    modifies m, names
    ensures Pairs(m, names, i, keys, entries, j, texts, base)
    ensures str == null ==> i == k && m.failed
    ensures str != null ==> i == k + 1 && m.failed == old(m.failed) && len == Len(keys[k])
  {
    hide OwnFrom, Distinct, IsText, TextOf, PrintString;
    len, i := 0, k;
    OwnAllocated(names[..], 0);
    OwnAllocated(entries[..], 0);
    str := PrintStringPtr(m, key);
    if str != null {
      StoreName(m, names, k, str, keys, entries, j, texts, base);
      len := StringLength(str);
      i := k + 1;
    }
  }

  /** The printed value of a member goes to its place among the entries. */
  method ValueInto(m: Memory, child: Node, depth: nat, fmt: bool, names: array<array?<byte>>, ghost i: nat,
                   ghost keys: seq<Str>, entries: array<array?<byte>>, k: nat, ghost kid: Tree, ghost v: Json,
                   ghost texts: seq<Str>, ghost base: set<object>)
    returns (ret: array?<byte>, len: nat, ghost j: nat)
    requires Shows(child, kid, v) && IntegersOnly(v) && k < |texts| && texts[k] == J.PrintValue(v, depth, fmt, Nul)
    requires Pairs(m, names, i, keys, entries, k, texts, base)
    modifies m, entries
    ensures Pairs(m, names, i, keys, entries, j, texts, base)
    ensures ret == null ==> j == k && m.failed
    ensures ret != null ==> j == k + 1 && m.failed == old(m.failed) && len == Len(texts[k])
    decreases kid, 3
  {
    hide OwnFrom, Distinct, IsText, TextOf, J.PrintValue, Shows, IntegersOnly;
    len, j := 0, k;
    OwnAllocated(names[..], 0);
    OwnAllocated(entries[..], 0);
    ret := PrintValue(m, child, depth, fmt, kid, v);
    if ret != null {
      StoreValue(m, names, i, keys, entries, k, ret, texts, base);
      len := StringLength(ret);
      j := k + 1;
    }
  }

  /** The length print_object adds up suffices for the text it composes. */
  lemma {:induction false} ObjectRoom(ms: seq<Member>, i: nat, depth: nat, fmt: bool)
    requires AllIntegerMembers(ms) && i <= |ms| && depth > 0
    ensures Len(MembersRest(ms, i, depth, fmt, Nul)) <=
      (if fmt then depth else 1) + PairTotal(NameTexts(ms), ValueTexts(ms, depth, fmt), if fmt then 4 + depth else 2, i)
    decreases |ms| - i
  {
    hide MembersRest, AllIntegerMembers, NameTexts, ValueTexts, J.PrintValue, PrintString, PairTotal;
    PairTotalStep(NameTexts(ms), ValueTexts(ms, depth, fmt), if fmt then 4 + depth else 2, i);
    if i == |ms| {
      MembersEnd(ms, depth, fmt, Nul);
      TabsLength(if fmt then depth - 1 else 0, Ch(RBRACE, Nul));
    } else {
      MemberLength(ms, i, depth, fmt, NameTexts(ms)[i], ValueTexts(ms, depth, fmt)[i]);
      ObjectRoom(ms, i + 1, depth, fmt);
    }
  }

  lemma {:induction false} MemberLength(ms: seq<Member>, i: nat, depth: nat, fmt: bool, key: Str, text: Str)
    requires AllIntegerMembers(ms) && i < |ms| && depth > 0 && IntegersOnly(ms[i].value)
    requires key == PrintString(ms[i].key, Nul) && text == J.PrintValue(ms[i].value, depth, fmt, Nul)
    ensures Len(MembersRest(ms, i, depth, fmt, Nul)) <=
      Len(text) + Len(key) + (if fmt then 4 + depth else 2) + Len(MembersRest(ms, i + 1, depth, fmt, Nul))
  {
    hide MembersRest, AllIntegerMembers, J.PrintValue, PrintString, IntegersOnly, Append, Tabs;
    var key', colon, text', tail := MemberTexts(ms, i, depth, fmt, Nul);
    TabsLength(depth, Append(key, colon));
    OptsLength(Some(COLON), if fmt then Some(TAB) else None, Append(text, tail));
    OptsLength(if i + 1 < |ms| then Some(COMMA) else None, if fmt then Some(LF) else None,
      MembersRest(ms, i + 1, depth, fmt, Nul));
  }

  lemma OptsLength(first: Option<uchar>, second: Option<uchar>, k: Str)
    ensures Len(Opts(first, second, k)) == (if first.Some? then 1 else 0) + (if second.Some? then 1 else 0) + Len(k)
  {
  }

  /** The loop that composes the text of an object and frees the strings it is made of, and the end. */
  method ComposeObject(m: Memory, out: array<byte>, names: array<array?<byte>>, entries: array<array?<byte>>,
                       depth: nat, fmt: bool, ghost ms: seq<Member>, ghost keys: seq<Str>, ghost texts: seq<Str>,
                       ghost base: set<object>)
    requires AllIntegerMembers(ms) && depth > 0 && keys == NameTexts(ms) && texts == ValueTexts(ms, depth, fmt)
    requires Len(MembersRest(ms, 0, depth, fmt, Nul)) + 2 < out.Length
    requires Pairs(m, names, |ms|, keys, entries, |ms|, texts, base) && out in base
    modifies m, out
    ensures m.live == base && m.failed == old(m.failed) && IsText(out)
    ensures TextOf(out) == Opts(Some(LBRACE), if fmt then Some(LF) else None, MembersRest(ms, 0, depth, fmt, Nul))
  {
    hide Writing, AllIntegerMembers, NameTexts, ValueTexts, MembersRest, RemainingPairs, Pairs, Tabs, IsText, TextOf;
    ghost var ns, es := names[..], entries[..];
    ghost var goal := Opts(Some(LBRACE), if fmt then Some(LF) else None, MembersRest(ms, 0, depth, fmt, Nul));
    AllRemainingPairs(m, names, keys, entries, texts, base);
    RemainingPairsApart(m, ns, es, 0, keys, texts, base, out);
    var ptr := OpenObject(out, fmt, goal, MembersRest(ms, 0, depth, fmt, Nul));
    var i := 0;
    while i < entries.Length
      invariant 0 <= i <= entries.Length == names.Length == |ms| && names[..] == ns && entries[..] == es
      invariant RemainingPairs(m, ns, es, i, keys, texts, base) && m.failed == old(m.failed)
      invariant Writing(out[..], ptr, goal, MembersRest(ms, i, depth, fmt, Nul))
    {
      ptr := ComposeMember(m, out, ptr, names[i], entries[i], i, entries.Length, depth, fmt, ms, ns, es, keys, texts,
        base, goal);
      FreePair(m, names[i], entries[i], ns, es, i, keys, texts, base);
      i := i + 1;
    }
    NoneRemainingPairs(m, ns, es, keys, texts, base);
    MembersEnd(ms, depth, fmt, Nul);
    CloseObject(out, ptr, if fmt then depth - 1 else 0, goal);
  }

  method OpenObject(out: array<byte>, fmt: bool, ghost goal: Str, ghost rest: Str) returns (ptr: nat)
    requires goal == Opts(Some(LBRACE), if fmt then Some(LF) else None, rest) && Len(goal) < out.Length
    modifies out
    ensures Writing(out[..], ptr, goal, rest)
  {
    hide Writing;
    Start(out[..], goal);
    ptr := Put(out, 0, LBRACE, goal, goal);
    if fmt {
      ptr := Put(out, ptr, LF, goal, goal.rest);
    }
    PutNul(out, ptr, goal, rest);
  }

  method CloseObject(out: array<byte>, ptr: nat, tabs: nat, ghost goal: Str)
    requires Writing(out[..], ptr, goal, Tabs(tabs, Ch(RBRACE, Nul))) && Len(goal) < out.Length
    modifies out
    ensures IsText(out) && TextOf(out) == goal
  {
    hide Writing;
    TabsLength(tabs, Ch(RBRACE, Nul));
    WritingLength(out[..], ptr, goal, Tabs(tabs, Ch(RBRACE, Nul)));
    var end := PutTabs(out, ptr, tabs, goal, Ch(RBRACE, Nul));
    end := Put(out, end, RBRACE, goal, Ch(RBRACE, Nul));
    PutNul(out, end, goal, Nul);
    Written(out[..], end, goal);
  }

  /** One member and what follows it. */
  method ComposeMember(m: Memory, out: array<byte>, ptr: nat, name: array<byte>, entry: array<byte>, i: nat,
                       numentries: nat, depth: nat, fmt: bool, ghost ms: seq<Member>, ghost ns: seq<array?<byte>>,
                       ghost es: seq<array?<byte>>, ghost keys: seq<Str>, ghost texts: seq<Str>,
                       ghost base: set<object>, ghost goal: Str)
    returns (j: nat)
    requires AllIntegerMembers(ms) && depth > 0 && keys == NameTexts(ms) && texts == ValueTexts(ms, depth, fmt)
    requires i < |ns| == |es| == |ms| == numentries && ns[i] == name && es[i] == entry
    requires RemainingPairs(m, ns, es, i, keys, texts, base) && out in base
    requires Writing(out[..], ptr, goal, MembersRest(ms, i, depth, fmt, Nul)) && Len(goal) < out.Length
    modifies out
    ensures RemainingPairs(m, ns, es, i, keys, texts, base)
    ensures Writing(out[..], j, goal, MembersRest(ms, i + 1, depth, fmt, Nul))
  {
    hide Writing, AllIntegerMembers, NameTexts, ValueTexts, MembersRest, RemainingPairs, Tabs;
    ghost var key, colon, text, tail := MemberTexts(ms, i, depth, fmt, Nul);
    ghost var rest := MembersRest(ms, i + 1, depth, fmt, Nul);
    j := ptr;
    if fmt {
      TabsLength(depth, Append(key, colon));
      WritingLength(out[..], j, goal, Tabs(depth, Append(key, colon)));
      RemainingPairsApart(m, ns, es, i, keys, texts, base, out);
      j := PutTabs(out, j, depth, goal, Append(key, colon));
    }
    j := CopyNameAndColon(m, out, j, name, entry, i, fmt, ns, es, keys, texts, base, goal, colon, Append(text, tail));
    j := CopyValueAndEnd(m, out, j, name, entry, i, numentries, fmt, ns, es, keys, texts, base, goal, tail, rest);
  }

  method CopyNameAndColon(m: Memory, out: array<byte>, ptr: nat, name: array<byte>, entry: array<byte>, ghost i: nat,
                          fmt: bool, ghost ns: seq<array?<byte>>, ghost es: seq<array?<byte>>, ghost keys: seq<Str>,
                          ghost texts: seq<Str>, ghost base: set<object>, ghost goal: Str, ghost colon: Str,
                          ghost after: Str)
    returns (j: nat)
    requires i < |ns| == |es| && ns[i] == name && es[i] == entry
    requires RemainingPairs(m, ns, es, i, keys, texts, base) && out in base
    requires Writing(out[..], ptr, goal, Append(keys[i], colon)) && Len(goal) < out.Length
    requires colon == Opts(Some(COLON), if fmt then Some(TAB) else None, after)
    modifies out
    ensures RemainingPairs(m, ns, es, i, keys, texts, base) && Writing(out[..], j, goal, after)
  {
    hide Writing, OwnFrom, Distinct;
    RemainingPairsApart(m, ns, es, i, keys, texts, base, out);
    assert name in OwnFrom(ns, i);
    WritingLength(out[..], ptr, goal, Append(keys[i], colon));
    j := PutEntry(out, ptr, name, goal, colon);
    j := Put(out, j, COLON, goal, colon);
    if fmt {
      j := Put(out, j, TAB, goal, colon.rest);
    }
  }

  method CopyValueAndEnd(m: Memory, out: array<byte>, ptr: nat, name: array<byte>, entry: array<byte>, i: nat,
                         numentries: nat, fmt: bool, ghost ns: seq<array?<byte>>, ghost es: seq<array?<byte>>,
                         ghost keys: seq<Str>, ghost texts: seq<Str>, ghost base: set<object>, ghost goal: Str,
                         ghost tail: Str, ghost rest: Str)
    returns (j: nat)
    requires i < |ns| == |es| == numentries && ns[i] == name && es[i] == entry
    requires RemainingPairs(m, ns, es, i, keys, texts, base) && out in base
    requires Writing(out[..], ptr, goal, Append(texts[i], tail)) && Len(goal) < out.Length
    requires tail == Opts(if i + 1 < numentries then Some(COMMA) else None, if fmt then Some(LF) else None, rest)
    modifies out
    ensures RemainingPairs(m, ns, es, i, keys, texts, base) && Writing(out[..], j, goal, rest)
  {
    hide Writing, OwnFrom, Distinct;
    RemainingPairsApart(m, ns, es, i, keys, texts, base, out);
    assert entry in OwnFrom(es, i);
    WritingLength(out[..], ptr, goal, Append(texts[i], tail));
    j := PutEntry(out, ptr, entry, goal, tail);
    if i != numentries - 1 {
      j := Put(out, j, COMMA, goal, tail);
    }
    if fmt {
      j := Put(out, j, LF, goal, Opts(None, Some(LF), rest));
    }
    PutNul(out, j, goal, rest);
  }

  // ---- entry points ----

  /** cJSON_Print */
  method Print(m: Memory, item: Node, ghost t: Tree, ghost v: Json) returns (out: array?<byte>)
    requires Shows(item, t, v) && IntegersOnly(v)
    modifies m
    ensures out == null ==> m.live == old(m.live) && m.failed
    ensures out != null ==> fresh(out) && m.live == old(m.live) + {out} && m.failed == old(m.failed)
    ensures out != null ==> IsText(out) && TextOf(out) == J.Print(v, true)
  {
    out := PrintValue(m, item, 0, true, t, v);
  }

  /** cJSON_PrintUnformatted */
  method PrintUnformatted(m: Memory, item: Node, ghost t: Tree, ghost v: Json) returns (out: array?<byte>)
    requires Shows(item, t, v) && IntegersOnly(v)
    modifies m
    ensures out == null ==> m.live == old(m.live) && m.failed
    ensures out != null ==> fresh(out) && m.live == old(m.live) + {out} && m.failed == old(m.failed)
    ensures out != null ==> IsText(out) && TextOf(out) == J.Print(v, false)
  {
    out := PrintValue(m, item, 0, false, t, v);
  }
}
