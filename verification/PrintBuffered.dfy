/** cJSON_PrintBuffered: printing into one buffer that grows on demand. */
module PrintBuffered {
  import opened CString
  import opened Buffer
  import opened BufferWriting
  import opened Json
  import opened JsonPrinter
  import J = JsonPrinter
  import opened PrintLength
  import opened PrintScalars
  import opened Heap
  import opened HeapViews
  import Int32Bits

  /** Sizes up to here survive pow2gt in an int. */
  const MAX_SIZE := 0x4000_0000

  /** The slack of print_number, which asks for 21 bytes whatever the number. */
  const SLACK := 20

  /** struct printbuffer. */
  class PrintBuffer {
    var buffer: array?<byte>
    var length: nat
    var offset: nat

    constructor (buffer: array?<byte>, length: nat)
      ensures this.buffer == buffer && this.length == length && offset == 0
    {
      this.buffer, this.length, offset := buffer, length, 0;
    }

    /** The text in front of offset is what goal has in front of rest. */
    ghost predicate Has(goal: Str, rest: Str)
      reads this, if buffer == null then {} else {buffer}
    {
      buffer != null && length == buffer.Length && Writing(buffer[..], offset, goal, rest)
    }

    /** All of goal but k is in the buffer and terminated, although offset may lag behind. */
    ghost predicate Ends(goal: Str, k: Str)
      reads this, if buffer == null then {} else {buffer}
    {
      && buffer != null && length == buffer.Length && offset + Len(k) <= Len(goal) < buffer.Length + Len(k)
      && Writing(buffer[..], Len(goal) - Len(k), goal, k) && buffer[Len(goal) - Len(k)] == 0
    }

    /** ensure: room for needed bytes behind offset. A failure gives up the buffer. */
    method Ensure(m: Memory, needed: nat, ghost goal: Str, ghost rest: Str) returns (ok: bool)
      requires buffer != null ==> Has(goal, rest) && buffer in m.live && 0 < offset + needed <= MAX_SIZE
      modifies this, m
      ensures ok == (buffer != null) && (buffer == old(buffer) || buffer == null || fresh(buffer))
      ensures Moved(old(m.live), old(m.failed), old(buffer), m.live, m.failed, buffer)
      ensures ok ==> Has(goal, rest) && offset == old(offset) && offset + needed <= buffer.Length
    {
      if buffer == null {
        return false;
      }
      var total := needed + offset;
      if total <= length {
        return true;
      }
      var newsize := Int32Bits.Pow2gt(total);
      var newbuffer := m.Malloc(newsize);
      if newbuffer == null {
        m.Free(buffer);
        length, buffer := 0, null;
        return false;
      }
      MemCpy(newbuffer, 0, buffer, 0, length);
      assert newbuffer[..offset] == buffer[..offset] by {
        assert newbuffer[..offset] == newbuffer[0..0 + length][..offset];
        assert buffer[..offset] == buffer[0..0 + length][..offset];
      }
      WritingFrame(buffer[..], newbuffer[..], offset, goal, rest);
      m.Free(buffer);
      length, buffer := newsize, newbuffer;
      ok := true;
    }

    /** update: offset catches up with the text. */
    method Update(ghost goal: Str, ghost k: Str)
      requires buffer != null ==> Ends(goal, k)
      modifies this`offset
      ensures buffer != null ==> Has(goal, k)
    {
      if buffer == null {
        offset := 0;
      } else {
        EndsAt(buffer[..], offset, Len(goal) - Len(k), goal, k);
        var n := StrLen(buffer, offset);
        offset := offset + n;
      }
    }

    /** Up to two characters, for which room is ensured, and a terminator where spare leaves room for one;
        offset moves behind the characters. */
    method Emit(m: Memory, first: Option<uchar>, second: Option<uchar>, spare: nat, ghost goal: Str, ghost k: Str)
      returns (ok: bool)
      requires buffer != null ==> Has(goal, Opts(first, second, k)) && buffer in m.live && Len(goal) + SLACK <= MAX_SIZE
      requires spare <= 1 && (first.Some? || spare == 1)
      modifies this, if buffer == null then {} else {buffer}, m
      ensures ok == (buffer != null) && (buffer == old(buffer) || buffer == null || fresh(buffer))
      ensures Moved(old(m.live), old(m.failed), old(buffer), m.live, m.failed, buffer)
      ensures ok ==> Has(goal, k)
    {
      hide Writing;
      var len := (if first.Some? then 1 else 0) + (if second.Some? then 1 else 0);
      if buffer != null { Lengths(goal, Opts(first, second, k)); }
      ok := Ensure(m, len + spare, goal, Opts(first, second, k));
      if !ok {
        return;
      }
      var ptr := offset;
      if first.Some? {
        ptr := Put(buffer, ptr, first.value, goal, Opts(first, second, k));
      }
      if second.Some? {
        ptr := Put(buffer, ptr, second.value, goal, Opts(None, second, k));
      }
      if spare == 1 {
        PutNul(buffer, ptr, goal, k);
      }
      offset := offset + len;
    }

    /** Tabs, the closing bracket and a terminator, for which room is ensured; offset stays. */
    method Close(m: Memory, c: uchar, needed: nat, tabs: nat, ghost goal: Str, ghost k: Str) returns (ok: bool)
      requires buffer != null ==> Has(goal, Tabs(tabs, Ch(c, k))) && buffer in m.live && Len(goal) + SLACK <= MAX_SIZE
      requires needed == tabs + 2
      modifies this, if buffer == null then {} else {buffer}, m
      ensures ok == (buffer != null) && (buffer == old(buffer) || buffer == null || fresh(buffer))
      ensures Moved(old(m.live), old(m.failed), old(buffer), m.live, m.failed, buffer)
      ensures ok ==> Ends(goal, k)
    {
      hide Writing;
      TabsLength(tabs, Ch(c, k));
      if buffer != null { Lengths(goal, Tabs(tabs, Ch(c, k))); }
      ok := Ensure(m, needed, goal, Tabs(tabs, Ch(c, k)));
      if ok {
        var ptr := PutTabs(buffer, offset, tabs, goal, Ch(c, k));
        ptr := Put(buffer, ptr, c, goal, Ch(c, k));
        PutNul(buffer, ptr, goal, k);
      }
    }

    /** A text that is known, for which room is ensured; offset stays, and is returned. */
    method EmitText(m: Memory, needed: nat, t: Str, ghost goal: Str, ghost k: Str) returns (out: Option<nat>)
      requires buffer != null ==> Has(goal, Append(t, k)) && buffer in m.live && Len(goal) + SLACK <= MAX_SIZE
      requires Len(t) < needed <= Len(t) + SLACK
      modifies this, if buffer == null then {} else {buffer}, m
      ensures out.Some? == (buffer != null) && (buffer == old(buffer) || buffer == null || fresh(buffer))
      ensures Moved(old(m.live), old(m.failed), old(buffer), m.live, m.failed, buffer)
      ensures out.Some? ==> Ends(goal, k) && out.value == old(offset)
    {
      hide Writing;
      if buffer != null { Lengths(goal, Append(t, k)); }
      var ok := Ensure(m, needed, goal, Append(t, k));
      if !ok {
        return None;
      }
      var j := PutText(buffer, offset, t, goal, k);
      WritingLength(buffer[..], j, goal, k);
      out := Some(offset);
    }

    lemma {:induction false} Lengths(goal: Str, rest: Str)
      requires Has(goal, rest)
      ensures offset + Len(rest) == Len(goal)
    {
      WritingLength(buffer[..], offset, goal, rest);
    }
  }

  /** The allocator and the buffer before and after: the buffer is all that p owns; without a
      buffer some allocation has failed, and the buffer does not come back. */
  ghost predicate Moved(live: set<object>, failed: bool, buffer: array?<byte>, live': set<object>, failed': bool,
                        buffer': array?<byte>)
  {
    && live' == live - Opt(buffer) + Opt(buffer') && (buffer == null ==> buffer' == null)
    && failed' == (failed || (buffer' == null && buffer != null))
  }

  lemma Unmoved(live: set<object>, failed: bool, buffer: array?<byte>)
    requires buffer == null || buffer in live
    ensures Moved(live, failed, buffer, live, failed, buffer)
  {
  }

  lemma MovedOn(live: set<object>, failed: bool, buffer: array?<byte>, live': set<object>, failed': bool,
                buffer': array?<byte>, live'': set<object>, failed'': bool, buffer'': array?<byte>)
    requires Moved(live, failed, buffer, live', failed', buffer')
    requires Moved(live', failed', buffer', live'', failed'', buffer'')
    requires buffer' == buffer || buffer' == null || buffer' !in live
    ensures Moved(live, failed, buffer, live'', failed'', buffer'')
  {
  }

  /** print_string_ptr with a buffer. */
  method PrintStringPtr(m: Memory, str: array?<byte>, p: PrintBuffer, ghost goal: Str, ghost k: Str)
    returns (out: Option<nat>)
    requires IsText(str) && (str != null ==> str != p.buffer)
    requires p.buffer != null ==>
      p.Has(goal, PrintString(TextOf(str), k)) && p.buffer in m.live && Len(goal) + SLACK <= MAX_SIZE
    modifies p, if p.buffer == null then {} else {p.buffer}, m
    ensures out.Some? == (p.buffer != null) && (p.buffer == old(p.buffer) || p.buffer == null || fresh(p.buffer))
    ensures Moved(old(m.live), old(m.failed), old(p.buffer), m.live, m.failed, p.buffer)
    ensures out.Some? ==> p.Ends(goal, k) && out.value == old(p.offset)
  {
    hide Writing, PrintChars, NeedsEscape, NoEscape;
    if str == null {
      QuotesOnly(k);
      out := p.EmitText(m, 3, Ch(QUOTE, Ch(QUOTE, Nul)), goal, k);
      return;
    }
    var flag, len := CountString(str);
    ghost var text := PrintString(TextOf(str), k);
    StringWidth(TextOf(str), k);
    if p.buffer != null { p.Lengths(goal, text); }
    var ok := p.Ensure(m, len + 3, goal, text);
    if !ok {
      return None;
    }
    var j := PutString(p.buffer, p.offset, str, flag, goal, k);
    WritingLength(p.buffer[..], j, goal, k);
    out := Some(p.offset);
  }

  lemma QuotesOnly(k: Str)
    ensures PrintString(Nul, k) == Append(Ch(QUOTE, Ch(QUOTE, Nul)), k)
  {
    TwoAppend(QUOTE, QUOTE, Nul, k);
    assert Append(Nul, k) == k;
  }

  lemma StringWidth(s: Str, k: Str)
    ensures Len(PrintString(s, k)) == Len(PrintString(s, Nul)) + Len(k)
  {
    CharsWidth(s, Ch(QUOTE, k));
    CharsWidth(s, Ch(QUOTE, Nul));
  }

  /** print_number with a buffer, for a number that is a 32-bit integer. */
  method PrintNumber(m: Memory, item: Node, p: PrintBuffer, ghost goal: Str, ghost k: Str) returns (out: Option<nat>)
    requires IsInt32(item.valuedouble)
    requires p.buffer != null ==>
      p.Has(goal, PrintInt(item.valuedouble.Floor, k)) && p.buffer in m.live && Len(goal) + SLACK <= MAX_SIZE
    modifies p, if p.buffer == null then {} else {p.buffer}, m
    ensures out.Some? == (p.buffer != null) && (p.buffer == old(p.buffer) || p.buffer == null || fresh(p.buffer))
    ensures Moved(old(m.live), old(m.failed), old(p.buffer), m.live, m.failed, p.buffer)
    ensures out.Some? ==> p.Ends(goal, k) && out.value == old(p.offset)
  {
    hide Writing, PrintNat;
    var d := item.valuedouble;
    if d == 0.0 {
      ZeroText(k);
      out := p.EmitText(m, 2, Ch(ZERO, Nul), goal, k);
      return;
    }
    ghost var text := PrintInt(d.Floor, k);
    IntWidth(d.Floor);
    IntFrom(d.Floor, k);
    if p.buffer != null { p.Lengths(goal, text); }
    var ok := p.Ensure(m, 21, goal, text);
    if !ok {
      return None;
    }
    var j := PutInt(p.buffer, p.offset, d.Floor, goal, k);
    WritingLength(p.buffer[..], j, goal, k);
    out := Some(p.offset);
  }

  lemma IntFrom(n: int, k: Str)
    ensures Len(PrintInt(n, k)) == Len(PrintInt(n, Nul)) + Len(k) && Len(PrintInt(n, Nul)) > 0
  {
    NatFrom(if n < 0 then -n else n, k);
  }

  // ---- trees ----

  /** No part of the tree is written to. */
  ghost predicate Apart(p: PrintBuffer, t: Tree)
    reads p
  {
    p !in Deep(t) && (p.buffer != null ==> p.buffer !in Deep(t))
  }

  /** The allocator and the buffer when the printing of an item began. */
  datatype Begin = Begin(live: set<object>, failed: bool, buffer: array?<byte>)

  /** Between two steps of printing t: rest is still to be written. */
  ghost predicate Printing(m: Memory, p: PrintBuffer, b: Begin, t: Tree, ms: seq<Member>, goal: Str, rest: Str)
    reads m, p, if p.buffer == null then {} else {p.buffer}, t.node, Deep(t)
  {
    && Intact(t, ms) && Apart(p, t) && Moved(b.live, b.failed, b.buffer, m.live, m.failed, p.buffer)
    && (p.buffer == b.buffer || p.buffer == null || p.buffer !in b.live)
    && (p.buffer != null ==> p.Has(goal, rest) && p.buffer in m.live && Len(goal) + SLACK <= MAX_SIZE)
  }

  /** What the buffer holds, without the tree. */
  lemma Buffered(m: Memory, p: PrintBuffer, b: Begin, t: Tree, ms: seq<Member>, goal: Str, rest: Str)
    requires Printing(m, p, b, t, ms, goal, rest)
    ensures p.buffer != null ==> p.Has(goal, rest) && p.buffer in m.live && Len(goal) + SLACK <= MAX_SIZE
    ensures Moved(b.live, b.failed, b.buffer, m.live, m.failed, p.buffer)
    ensures p.buffer == b.buffer || p.buffer == null || p.buffer !in b.live
  {
  }

  lemma Opened(m: Memory, p: PrintBuffer, b: Begin, t: Tree, ms: seq<Member>, goal: Str, rest: Str)
    requires Printing(m, p, b, t, ms, goal, rest)
    ensures Intact(t, ms) && Apart(p, t) && m !in Deep(t) && allocated(Deep(t))
  {
    hide Intact, Apart, Moved, PrintBuffer.Has, Deep;
    DeepAllocated(t);
    NoMemoryBelow(t, m);
  }

  /** After a step that began with the allocator and the buffer as given. */
  lemma Resumed(m: Memory, p: PrintBuffer, b: Begin, t: Tree, ms: seq<Member>, goal: Str, rest: Str, s: Begin)
    requires Intact(t, ms) && Apart(p, t) && (p.buffer != null ==> p.Has(goal, rest))
    requires Moved(b.live, b.failed, b.buffer, s.live, s.failed, s.buffer)
    requires Moved(s.live, s.failed, s.buffer, m.live, m.failed, p.buffer)
    requires s.buffer == b.buffer || s.buffer == null || s.buffer !in b.live
    requires p.buffer == s.buffer || p.buffer == null || p.buffer !in s.live
    requires s.buffer != null ==> Len(goal) + SLACK <= MAX_SIZE
    ensures Printing(m, p, b, t, ms, goal, rest)
  {
    hide Intact, Apart, PrintBuffer.Has;
    MovedOn(b.live, b.failed, b.buffer, s.live, s.failed, s.buffer, m.live, m.failed, p.buffer);
  }

  /** Without a buffer it does not matter what is left. */
  lemma Broken(m: Memory, p: PrintBuffer, b: Begin, t: Tree, ms: seq<Member>, goal: Str, rest: Str, rest': Str)
    requires Printing(m, p, b, t, ms, goal, rest) && p.buffer == null
    ensures Printing(m, p, b, t, ms, goal, rest')
  {
  }

  lemma {:induction false} Between(m: Memory, p: PrintBuffer, b: Begin, t: Tree, ms: seq<Member>, goal: Str, rest: Str,
                                   j: nat)
    requires Printing(m, p, b, t, ms, goal, rest)
    ensures |ms| == |t.kids| && t.node.child == if t.kids == [] then null else t.kids[0].node
    ensures j < |t.kids| ==> t.kids[j].node.next == if j + 1 < |t.kids| then t.kids[j + 1].node else null
  {
    hide Intact, Nodes, Below, Deep;
    NextChild(t.node, t, ms, j);
  }

  lemma {:induction false} KidApart(m: Memory, p: PrintBuffer, t: Tree, ms: seq<Member>, j: nat)
    requires Intact(t, ms) && Apart(p, t) && j < |t.kids|
    ensures |ms| == |t.kids| && Shows(t.kids[j].node, t.kids[j], ms[j].value) && Apart(p, t.kids[j])
    ensures m !in Deep(t) && allocated(Deep(t))
    ensures t.kids[j].node.key == t.kids[j].key && IsText(t.kids[j].key) && ms[j].key == TextOf(t.kids[j].key)
    ensures t.kids[j].key == null || (t.kids[j].key in Deep(t) && t.kids[j].key != p.buffer)
  {
    hide Intact, Deep, Nodes, Below, Shows;
    KidShows(t.node, t, ms, j);
    DeepAllocated(t);
    NoMemoryBelow(t, m);
    assert t.kids[j].key != null ==> t.kids[j].key in Opt(t.kids[j].key);
  }

  /** The index a printer returns. print_object counts its tabs in the variable that holds it. */
  function Returned(v: Json, depth: nat, fmt: bool, offset: nat): nat {
    if v.JObject? && v.members != [] && fmt then depth else offset
  }

  /** print_value with a buffer. */
  method PrintValue(m: Memory, item: Node, depth: nat, fmt: bool, p: PrintBuffer, ghost t: Tree, ghost v: Json,
                    ghost goal: Str, ghost k: Str)
    returns (out: Option<nat>)
    requires Shows(item, t, v) && IntegersOnly(v) && Apart(p, t)
    requires p.buffer != null ==>
      p.Has(goal, J.PrintValue(v, depth, fmt, k)) && p.buffer in m.live && Len(goal) + SLACK <= MAX_SIZE
    modifies p, if p.buffer == null then {} else {p.buffer}, m
    ensures out.Some? == (p.buffer != null) && (p.buffer == old(p.buffer) || p.buffer == null || fresh(p.buffer))
    ensures Moved(old(m.live), old(m.failed), old(p.buffer), m.live, m.failed, p.buffer)
    ensures out.Some? ==> p.Ends(goal, k) && out.value == Returned(v, depth, fmt, old(p.offset))
    ensures Shows(item, t, v)
    decreases t, 2
  {
    hide Writing, Shows, PrintString, PrintInt, PrintElems, PrintMembers, Intact, Deep, Den, DenElems, DenMembers;
    hide Shape, Finished, Nodes, Below, PrintBuffer.Has, PrintBuffer.Ends, Values, Moved, IsText, TextOf;
    ShowsKind(item, t, v);
    DeepAllocated(t);
    NoMemoryBelow(t, m);
    if item.kind == KArray {
      out := PrintArray(m, item, depth, fmt, p, t, DenMembers(t.kids), v.elems, goal, k);
    } else if item.kind == KObject {
      out := PrintObject(m, item, depth, fmt, p, t, DenMembers(t.kids), goal, k);
    } else {
      out := PrintLeaf(m, item, p, t, v, goal, k);
    }
  }

  method PrintLeaf(m: Memory, item: Node, p: PrintBuffer, ghost t: Tree, ghost v: Json, ghost goal: Str, ghost k: Str)
    returns (out: Option<nat>)
    requires Shows(item, t, v) && IntegersOnly(v) && Apart(p, t) && item.kind != KArray && item.kind != KObject
    requires p.buffer != null ==>
      p.Has(goal, J.PrintValue(v, 0, false, k)) && p.buffer in m.live && Len(goal) + SLACK <= MAX_SIZE
    modifies p, if p.buffer == null then {} else {p.buffer}, m
    ensures out.Some? == (p.buffer != null) && (p.buffer == old(p.buffer) || p.buffer == null || fresh(p.buffer))
    ensures Moved(old(m.live), old(m.failed), old(p.buffer), m.live, m.failed, p.buffer)
    ensures out.Some? ==> p.Ends(goal, k) && out.value == old(p.offset)
  {
    hide Writing, Shows, PrintString, PrintInt, Intact, Deep, Moved, PrintBuffer.Ends, PrintBuffer.Has, TextOf;
    hide Append, Nodes, Below, IsText;
    ShowsKind(item, t, v);
    match item.kind {
      case KNull => out := p.EmitText(m, 5, NULL_TEXT, goal, k);
      case KFalse => out := p.EmitText(m, 6, FALSE_TEXT, goal, k);
      case KTrue => out := p.EmitText(m, 5, TRUE_TEXT, goal, k);
      case KNumber => out := PrintNumber(m, item, p, goal, k);
      case KString => out := PrintStringPtr(m, item.valuestring, p, goal, k);
    }
  }

  // ---- the steps of print_array and print_object ----

  /** Emit between two children. */
  method EmitBetween(m: Memory, first: Option<uchar>, second: Option<uchar>, spare: nat, p: PrintBuffer, ghost b: Begin,
                     ghost t: Tree, ghost ms: seq<Member>, ghost goal: Str, ghost k: Str)
    returns (ok: bool)
    requires Printing(m, p, b, t, ms, goal, Opts(first, second, k))
    requires spare <= 1 && (first.Some? || spare == 1)
    modifies p, if p.buffer == null then {} else {p.buffer}, m
    ensures Printing(m, p, b, t, ms, goal, k) && ok == (p.buffer != null)
    ensures p.buffer == old(p.buffer) || p.buffer == null || fresh(p.buffer)
  {
    hide Intact, Deep, PrintBuffer.Has, Nodes, Below;
    DeepAllocated(t);
    NoMemoryBelow(t, m);
    ok := p.Emit(m, first, second, spare, goal, k);
  }

  /** Close after the last child. */
  method CloseAfter(m: Memory, c: uchar, needed: nat, tabs: nat, p: PrintBuffer, ghost b: Begin, ghost t: Tree,
                    ghost ms: seq<Member>, ghost goal: Str, ghost k: Str)
    returns (ok: bool)
    requires Printing(m, p, b, t, ms, goal, Tabs(tabs, Ch(c, k))) && needed == tabs + 2
    modifies p, if p.buffer == null then {} else {p.buffer}, m
    ensures ok == (p.buffer != null) && (p.buffer == old(p.buffer) || p.buffer == null || fresh(p.buffer))
    ensures Moved(b.live, b.failed, b.buffer, m.live, m.failed, p.buffer)
    ensures ok ==> p.Ends(goal, k)
  {
    hide Printing, Moved, PrintBuffer.Has, PrintBuffer.Ends;
    Buffered(m, p, b, t, ms, goal, Tabs(tabs, Ch(c, k)));
    ghost var live, failed, buffer := m.live, m.failed, p.buffer;
    ok := p.Close(m, c, needed, tabs, goal, k);
    MovedOn(b.live, b.failed, b.buffer, live, failed, buffer, m.live, m.failed, p.buffer);
  }

  /** The j-th child is printed, and offset catches up. */
  method PrintKid(m: Memory, child: Node, depth: nat, fmt: bool, p: PrintBuffer, ghost b: Begin, ghost t: Tree,
                  ghost ms: seq<Member>, ghost j: nat, ghost goal: Str, ghost tail: Str)
    requires j < |t.kids| == |ms| && child == t.kids[j].node && IntegersOnly(ms[j].value)
    requires Printing(m, p, b, t, ms, goal, J.PrintValue(ms[j].value, depth, fmt, tail))
    modifies p, if p.buffer == null then {} else {p.buffer}, m
    ensures Printing(m, p, b, t, ms, goal, tail)
    ensures p.buffer == old(p.buffer) || p.buffer == null || fresh(p.buffer)
    decreases t, 0, 0
  {
    hide Printing, Intact, Deep, PrintBuffer.Has, PrintBuffer.Ends, J.PrintValue, IntegersOnly, Nodes, Below, Shows;
    hide Moved;
    ghost var s := Begin(m.live, m.failed, p.buffer);
    Opened(m, p, b, t, ms, goal, J.PrintValue(ms[j].value, depth, fmt, tail));
    Buffered(m, p, b, t, ms, goal, J.PrintValue(ms[j].value, depth, fmt, tail));
    KidApart(m, p, t, ms, j);
    var r := PrintValue(m, child, depth, fmt, p, t.kids[j], ms[j].value, goal, tail);
    p.Update(goal, tail);
    Resumed(m, p, b, t, ms, goal, tail, s);
  }

  // ---- arrays ----

  method PrintArray(m: Memory, item: Node, depth: nat, fmt: bool, p: PrintBuffer, ghost t: Tree, ghost ms: seq<Member>,
                    ghost vs: seq<Json>, ghost goal: Str, ghost k: Str)
    returns (out: Option<nat>)
    requires t.node == item && Intact(t, ms) && Apart(p, t) && Values(ms, vs) && |ms| == |vs| && AllIntegers(vs)
    requires p.buffer != null ==>
      p.Has(goal, Ch(LBRACK, PrintElems(vs, depth, fmt, k))) && p.buffer in m.live && Len(goal) + SLACK <= MAX_SIZE
    modifies p, if p.buffer == null then {} else {p.buffer}, m
    ensures out.Some? == (p.buffer != null) && (p.buffer == old(p.buffer) || p.buffer == null || fresh(p.buffer))
    ensures Moved(old(m.live), old(m.failed), old(p.buffer), m.live, m.failed, p.buffer)
    ensures out.Some? ==> p.Ends(goal, k) && out.value == old(p.offset)
    decreases t, 1
  {
    hide Intact, Apart, Deep, Nodes, Below, Values, PrintElems, PrintBuffer.Has, PrintBuffer.Ends, ElemsFrom;
    hide AllIntegers, Moved, IsText, TextOf, Shows;
    DeepAllocated(t);
    var numentries := CountChildren(item, t, ms);
    if numentries == 0 {
      NoElems(vs, depth, fmt, k);
      out := p.EmitText(m, 3, Ch(LBRACK, Ch(RBRACK, Nul)), goal, k);
      return;
    }
    SomeElems(vs, depth, fmt, k);
    Unmoved(m.live, m.failed, p.buffer);
    out := PrintFullArray(m, item, depth, fmt, p, Begin(m.live, m.failed, p.buffer), t, ms, vs, goal, k);
  }

  lemma NoElems(vs: seq<Json>, depth: nat, fmt: bool, k: Str)
    requires vs == []
    ensures Ch(LBRACK, PrintElems(vs, depth, fmt, k)) == Append(Ch(LBRACK, Ch(RBRACK, Nul)), k)
  {
    TwoAppend(LBRACK, RBRACK, Nul, k);
    assert Append(Nul, k) == k;
  }

  lemma SomeElems(vs: seq<Json>, depth: nat, fmt: bool, k: Str)
    requires AllIntegers(vs) && vs != []
    ensures PrintElems(vs, depth, fmt, k) == ElemsFrom(vs, 0, depth, fmt, k)
  {
    ElemStep(vs, 0, depth, fmt, k);
  }

  /** print_array with a buffer and at least one element. */
  method PrintFullArray(m: Memory, item: Node, depth: nat, fmt: bool, p: PrintBuffer, ghost b: Begin, ghost t: Tree,
                        ghost ms: seq<Member>, ghost vs: seq<Json>, ghost goal: Str, ghost k: Str)
    returns (out: Option<nat>)
    requires t.node == item && Values(ms, vs) && |ms| == |vs| && AllIntegers(vs)
    requires Printing(m, p, b, t, ms, goal, Ch(LBRACK, ElemsFrom(vs, 0, depth, fmt, k)))
    modifies p, if p.buffer == null then {} else {p.buffer}, m
    ensures out.Some? == (p.buffer != null) && (p.buffer == old(p.buffer) || p.buffer == null || fresh(p.buffer))
    ensures Moved(b.live, b.failed, b.buffer, m.live, m.failed, p.buffer)
    ensures out.Some? ==> p.Ends(goal, k) && out.value == old(p.offset)
    decreases t, 0, 3
  {
    hide Values, PrintBuffer.Has, PrintBuffer.Ends, ElemsFrom, AllIntegers, Printing, Moved;
    var i := p.offset;
    var ok := EmitBetween(m, Some(LBRACK), None, 0, p, b, t, ms, goal, ElemsFrom(vs, 0, depth, fmt, k));
    if ok {
      ok := PrintElements(m, item, depth, fmt, p, b, t, ms, vs, goal, k);
      if ok {
        ok := CloseAfter(m, RBRACK, 2, 0, p, b, t, ms, goal, k);
        return if ok then Some(i) else None;
      }
    }
    Moving(m, p, b, t, ms, goal);
    out := None;
  }

  lemma Moving(m: Memory, p: PrintBuffer, b: Begin, t: Tree, ms: seq<Member>, goal: Str)
    requires exists rest :: Printing(m, p, b, t, ms, goal, rest)
    ensures Moved(b.live, b.failed, b.buffer, m.live, m.failed, p.buffer)
  {
  }

  /** The loop over the elements. */
  method PrintElements(m: Memory, item: Node, depth: nat, fmt: bool, p: PrintBuffer, ghost b: Begin, ghost t: Tree,
                       ghost ms: seq<Member>, ghost vs: seq<Json>, ghost goal: Str, ghost k: Str)
    returns (ok: bool)
    requires t.node == item && Values(ms, vs) && |ms| == |vs| && AllIntegers(vs)
    requires Printing(m, p, b, t, ms, goal, ElemsFrom(vs, 0, depth, fmt, k))
    modifies p, if p.buffer == null then {} else {p.buffer}, m
    ensures Printing(m, p, b, t, ms, goal, Ch(RBRACK, k))
    ensures !ok ==> p.buffer == null
    ensures p.buffer == old(p.buffer) || p.buffer == null || fresh(p.buffer)
    decreases t, 0, 2
  {
    hide Values, PrintBuffer.Has, ElemsFrom, AllIntegers, Printing;
    Between(m, p, b, t, ms, goal, ElemsFrom(vs, 0, depth, fmt, k), 0);
    var child := item.child;
    ghost var j := 0;
    while child != null
      invariant j <= |t.kids| && child == (if j < |t.kids| then t.kids[j].node else null)
      invariant Printing(m, p, b, t, ms, goal, ElemsFrom(vs, j, depth, fmt, k))
      invariant p.buffer == old(p.buffer) || p.buffer == null || fresh(p.buffer)
      decreases |t.kids| - j
    {
      ok := PrintElement(m, child, depth, fmt, p, b, t, ms, vs, j, goal, k);
      if !ok {
        Broken(m, p, b, t, ms, goal, ElemsFrom(vs, j + 1, depth, fmt, k), Ch(RBRACK, k));
        return;
      }
      j := j + 1;
      Between(m, p, b, t, ms, goal, ElemsFrom(vs, j, depth, fmt, k), j - 1);
      child := child.next;
    }
    ElemStep(vs, j, depth, fmt, k);
    ok := true;
  }

  /** One element and what follows it; without a next sibling a failure goes unnoticed for now. */
  method PrintElement(m: Memory, child: Node, depth: nat, fmt: bool, p: PrintBuffer, ghost b: Begin, ghost t: Tree,
                      ghost ms: seq<Member>, ghost vs: seq<Json>, ghost j: nat, ghost goal: Str, ghost k: Str)
    returns (ok: bool)
    requires j < |t.kids| && child == t.kids[j].node && Values(ms, vs) && AllIntegers(vs) && |ms| == |vs| == |t.kids|
    requires Printing(m, p, b, t, ms, goal, ElemsFrom(vs, j, depth, fmt, k))
    modifies p, if p.buffer == null then {} else {p.buffer}, m
    ensures Printing(m, p, b, t, ms, goal, ElemsFrom(vs, j + 1, depth, fmt, k))
    ensures !ok ==> p.buffer == null
    ensures p.buffer == old(p.buffer) || p.buffer == null || fresh(p.buffer)
    decreases t, 0, 1
  {
    hide PrintBuffer.Has, ElemsFrom, ElemTail, AllIntegers, Printing, Opts, J.PrintValue, IntegersOnly, Moved;
    ElemStep(vs, j, depth, fmt, k);
    ElemSeparator(vs, j, depth, fmt, k);
    PrintKid(m, child, depth + 1, fmt, p, b, t, ms, j, goal, ElemTail(vs, j, depth, fmt, k));
    ok := true;
    Between(m, p, b, t, ms, goal, ElemTail(vs, j, depth, fmt, k), j);
    if child.next != null {
      ok := EmitBetween(m, Some(COMMA), if fmt then Some(SPACE) else None, 1, p, b, t, ms, goal,
        ElemsFrom(vs, j + 1, depth, fmt, k));
    }
  }

  // ---- objects ----

  method PrintObject(m: Memory, item: Node, depth: nat, fmt: bool, p: PrintBuffer, ghost t: Tree, ghost ms: seq<Member>,
                     ghost goal: Str, ghost k: Str)
    returns (out: Option<nat>)
    requires t.node == item && Intact(t, ms) && Apart(p, t) && AllIntegerMembers(ms)
    requires p.buffer != null ==>
      p.Has(goal, J.PrintValue(JObject(ms), depth, fmt, k)) && p.buffer in m.live && Len(goal) + SLACK <= MAX_SIZE
    modifies p, if p.buffer == null then {} else {p.buffer}, m
    ensures out.Some? == (p.buffer != null) && (p.buffer == old(p.buffer) || p.buffer == null || fresh(p.buffer))
    ensures Moved(old(m.live), old(m.failed), old(p.buffer), m.live, m.failed, p.buffer)
    ensures out.Some? ==> p.Ends(goal, k) && out.value == Returned(JObject(ms), depth, fmt, old(p.offset))
    decreases t, 1
  {
    hide Intact, Apart, Deep, Nodes, Below, PrintBuffer.Has, PrintBuffer.Ends, PrintMembers, MembersRest;
    hide AllIntegerMembers, Moved;
    DeepAllocated(t);
    var numentries := CountChildren(item, t, ms);
    ObjectText(ms, depth, fmt, k);
    if numentries == 0 {
      out := PrintEmptyObject(m, depth, fmt, p, goal, k);
      return;
    }
    Unmoved(m.live, m.failed, p.buffer);
    out := PrintFullObject(m, item, depth, fmt, p, Begin(m.live, m.failed, p.buffer), t, ms, goal, k);
  }

  /** An object without members: the two braces, and a line break and tabs between them when
      formatted. */
  method PrintEmptyObject(m: Memory, depth: nat, fmt: bool, p: PrintBuffer, ghost goal: Str, ghost k: Str)
    returns (out: Option<nat>)
    requires p.buffer != null ==> p.buffer in m.live && Len(goal) + SLACK <= MAX_SIZE
    requires p.buffer != null ==> p.Has(goal, Ch(LBRACE, Only(fmt, LF, Tabs(if fmt then depth else 0, Ch(RBRACE, k)))))
    modifies p, if p.buffer == null then {} else {p.buffer}, m
    ensures out.Some? == (p.buffer != null) && (p.buffer == old(p.buffer) || p.buffer == null || fresh(p.buffer))
    ensures Moved(old(m.live), old(m.failed), old(p.buffer), m.live, m.failed, p.buffer)
    ensures out.Some? ==> p.Ends(goal, k) && out.value == old(p.offset)
  {
    hide Writing;
    var n := if fmt then depth else 0;
    ghost var close := Tabs(n, Ch(RBRACE, k));
    ghost var text := Ch(LBRACE, Only(fmt, LF, close));
    TabsLength(n, Ch(RBRACE, k));
    if p.buffer != null { p.Lengths(goal, text); }
    var ok := p.Ensure(m, if fmt then depth + 4 else 3, goal, text);
    if !ok {
      return None;
    }
    out := Some(p.offset);
    var ptr := Put(p.buffer, p.offset, LBRACE, goal, text);
    if fmt {
      ptr := Put(p.buffer, ptr, LF, goal, text.rest);
    }
    ptr := PutTabs(p.buffer, ptr, n, goal, Ch(RBRACE, k));
    ptr := Put(p.buffer, ptr, RBRACE, goal, Ch(RBRACE, k));
    PutNul(p.buffer, ptr, goal, k);
    WritingLength(p.buffer[..], ptr, goal, k);
  }

  /** print_object with a buffer and at least one member. */
  method PrintFullObject(m: Memory, item: Node, depth: nat, fmt: bool, p: PrintBuffer, ghost b: Begin, ghost t: Tree,
                         ghost ms: seq<Member>, ghost goal: Str, ghost k: Str)
    returns (out: Option<nat>)
    requires t.node == item && AllIntegerMembers(ms)
    requires Printing(m, p, b, t, ms, goal,
      Opts(Some(LBRACE), if fmt then Some(LF) else None, MembersRest(ms, 0, depth + 1, fmt, k)))
    modifies p, if p.buffer == null then {} else {p.buffer}, m
    ensures out.Some? == (p.buffer != null) && (p.buffer == old(p.buffer) || p.buffer == null || fresh(p.buffer))
    ensures Moved(b.live, b.failed, b.buffer, m.live, m.failed, p.buffer)
    ensures out.Some? ==> p.Ends(goal, k) && out.value == if fmt then depth else old(p.offset)
    decreases t, 0, 4
  {
    hide PrintBuffer.Has, PrintBuffer.Ends, MembersRest, AllIntegerMembers, Printing, Moved, Tabs;
    var i := p.offset;
    var ok := EmitBetween(m, Some(LBRACE), if fmt then Some(LF) else None, 1, p, b, t, ms, goal,
      MembersRest(ms, 0, depth + 1, fmt, k));
    if ok {
      ok := PrintMembersLoop(m, item, depth + 1, fmt, p, b, t, ms, goal, k);
      if ok {
        var tabs := if fmt then depth else 0;
        if fmt {
          i := tabs;
        }
        ok := CloseAfter(m, RBRACE, tabs + 2, tabs, p, b, t, ms, goal, k);
        return if ok then Some(i) else None;
      }
    }
    Moving(m, p, b, t, ms, goal);
    out := None;
  }

  /** The loop over the members, which are at depth. */
  method PrintMembersLoop(m: Memory, item: Node, depth: nat, fmt: bool, p: PrintBuffer, ghost b: Begin, ghost t: Tree,
                          ghost ms: seq<Member>, ghost goal: Str, ghost k: Str)
    returns (ok: bool)
    requires t.node == item && AllIntegerMembers(ms) && depth > 0
    requires Printing(m, p, b, t, ms, goal, MembersRest(ms, 0, depth, fmt, k))
    modifies p, if p.buffer == null then {} else {p.buffer}, m
    ensures Printing(m, p, b, t, ms, goal, Tabs(if fmt then depth - 1 else 0, Ch(RBRACE, k)))
    ensures !ok ==> p.buffer == null
    ensures p.buffer == old(p.buffer) || p.buffer == null || fresh(p.buffer)
    decreases t, 0, 3
  {
    hide PrintBuffer.Has, MembersRest, AllIntegerMembers, Printing;
    Between(m, p, b, t, ms, goal, MembersRest(ms, 0, depth, fmt, k), 0);
    var child := item.child;
    ghost var j := 0;
    while child != null
      invariant j <= |t.kids| && child == (if j < |t.kids| then t.kids[j].node else null)
      invariant Printing(m, p, b, t, ms, goal, MembersRest(ms, j, depth, fmt, k))
      invariant p.buffer == old(p.buffer) || p.buffer == null || fresh(p.buffer)
      decreases |t.kids| - j
    {
      ghost var after, tail := MemberPieces(ms, j, depth, fmt, k);
      ok := PrintMemberStep(m, child, depth, fmt, p, b, t, ms, j, goal, after, tail,
        MembersRest(ms, j + 1, depth, fmt, k));
      if !ok {
        Broken(m, p, b, t, ms, goal, MembersRest(ms, j + 1, depth, fmt, k),
          Tabs(if fmt then depth - 1 else 0, Ch(RBRACE, k)));
        return;
      }
      j := j + 1;
      Between(m, p, b, t, ms, goal, MembersRest(ms, j, depth, fmt, k), j - 1);
      child := child.next;
    }
    MembersEnd(ms, depth, fmt, k);
    ok := true;
  }

  /** One member, its value with what follows being after, and what follows it being tail. */
  method PrintMemberStep(m: Memory, child: Node, depth: nat, fmt: bool, p: PrintBuffer, ghost b: Begin, ghost t: Tree,
                         ghost ms: seq<Member>, ghost j: nat, ghost goal: Str, ghost after: Str, ghost tail: Str,
                         ghost rest: Str)
    returns (ok: bool)
    requires j < |t.kids| == |ms| && child == t.kids[j].node && depth > 0 && IntegersOnly(ms[j].value)
    requires Printing(m, p, b, t, ms, goal,
                      Indentation(fmt, depth,
                        PrintString(ms[j].key, Opts(Some(COLON), if fmt then Some(TAB) else None, after))))
    requires after == J.PrintValue(ms[j].value, depth, fmt, tail)
    requires tail == Opts(if j + 1 < |ms| then Some(COMMA) else None, if fmt then Some(LF) else None, rest)
    modifies p, if p.buffer == null then {} else {p.buffer}, m
    ensures Printing(m, p, b, t, ms, goal, rest)
    ensures !ok ==> p.buffer == null
    ensures p.buffer == old(p.buffer) || p.buffer == null || fresh(p.buffer)
    decreases t, 0, 2
  {
    hide PrintBuffer.Has, IntegersOnly, Printing, Opts, Indentation, PrintString, J.PrintValue;
    ok := PrintName(m, child, depth, fmt, p, b, t, ms, j, goal, after);
    if !ok {
      Broken(m, p, b, t, ms, goal, after, rest);
      return;
    }
    ok := PrintMemberValue(m, child, depth, fmt, p, b, t, ms, j, goal, tail, rest);
  }

  /** The value of a member, the comma and the line break. */
  method PrintMemberValue(m: Memory, child: Node, depth: nat, fmt: bool, p: PrintBuffer, ghost b: Begin, ghost t: Tree,
                          ghost ms: seq<Member>, ghost j: nat, ghost goal: Str, ghost tail: Str, ghost rest: Str)
    returns (ok: bool)
    requires j < |t.kids| == |ms| && child == t.kids[j].node && IntegersOnly(ms[j].value)
    requires Printing(m, p, b, t, ms, goal, J.PrintValue(ms[j].value, depth, fmt, tail))
    requires tail == Opts(if j + 1 < |ms| then Some(COMMA) else None, if fmt then Some(LF) else None, rest)
    modifies p, if p.buffer == null then {} else {p.buffer}, m
    ensures Printing(m, p, b, t, ms, goal, rest) && ok == (p.buffer != null)
    ensures p.buffer == old(p.buffer) || p.buffer == null || fresh(p.buffer)
    decreases t, 0, 1
  {
    hide PrintBuffer.Has, IntegersOnly, Printing, Opts, J.PrintValue;
    PrintKid(m, child, depth, fmt, p, b, t, ms, j, goal, tail);
    Between(m, p, b, t, ms, goal, tail, j);
    ok := EmitBetween(m, if child.next != null then Some(COMMA) else None, if fmt then Some(LF) else None, 1, p, b, t,
      ms, goal, rest);
  }

  /** The indentation, the key and the colon of a member. */
  method PrintName(m: Memory, child: Node, depth: nat, fmt: bool, p: PrintBuffer, ghost b: Begin, ghost t: Tree,
                   ghost ms: seq<Member>, ghost j: nat, ghost goal: Str, ghost rest: Str)
    returns (ok: bool)
    requires j < |t.kids| == |ms| && child == t.kids[j].node && depth > 0
    requires Printing(m, p, b, t, ms, goal,
                      Indentation(fmt, depth,
                        PrintString(ms[j].key, Opts(Some(COLON), if fmt then Some(TAB) else None, rest))))
    modifies p, if p.buffer == null then {} else {p.buffer}, m
    ensures Printing(m, p, b, t, ms, goal, rest)
    ensures !ok ==> p.buffer == null
    ensures p.buffer == old(p.buffer) || p.buffer == null || fresh(p.buffer)
  {
    hide PrintBuffer.Has, Printing, Opts, PrintString, Tabs;
    ghost var colon := Opts(Some(COLON), if fmt then Some(TAB) else None, rest);
    ghost var name := PrintString(ms[j].key, colon);
    ok := true;
    if fmt {
      ok := EmitTabs(m, depth, p, b, t, ms, goal, name);
      if !ok {
        Broken(m, p, b, t, ms, goal, name, rest);
        return;
      }
    }
    PrintKey(m, child, p, b, t, ms, j, goal, colon);
    ok := EmitBetween(m, Some(COLON), if fmt then Some(TAB) else None, 0, p, b, t, ms, goal, rest);
  }

  /** The tabs in front of a key, for which room is ensured; offset moves behind them. */
  method EmitTabs(m: Memory, depth: nat, p: PrintBuffer, ghost b: Begin, ghost t: Tree, ghost ms: seq<Member>,
                  ghost goal: Str, ghost k: Str)
    returns (ok: bool)
    requires Printing(m, p, b, t, ms, goal, Tabs(depth, k)) && depth > 0
    modifies p, if p.buffer == null then {} else {p.buffer}, m
    ensures Printing(m, p, b, t, ms, goal, k) && ok == (p.buffer != null)
    ensures p.buffer == old(p.buffer) || p.buffer == null || fresh(p.buffer)
  {
    hide Intact, Deep, Nodes, Below, Writing;
    DeepAllocated(t);
    NoMemoryBelow(t, m);
    TabsLength(depth, k);
    if p.buffer != null { p.Lengths(goal, Tabs(depth, k)); }
    ok := p.Ensure(m, depth, goal, Tabs(depth, k));
    if ok {
      var ptr := PutTabs(p.buffer, p.offset, depth, goal, k);
      p.offset := p.offset + depth;
    }
  }

  /** The key of the j-th child is printed, and offset catches up. */
  method PrintKey(m: Memory, child: Node, p: PrintBuffer, ghost b: Begin, ghost t: Tree, ghost ms: seq<Member>,
                  ghost j: nat, ghost goal: Str, ghost tail: Str)
    requires j < |t.kids| == |ms| && child == t.kids[j].node
    requires Printing(m, p, b, t, ms, goal, PrintString(ms[j].key, tail))
    modifies p, if p.buffer == null then {} else {p.buffer}, m
    ensures Printing(m, p, b, t, ms, goal, tail)
    ensures p.buffer == old(p.buffer) || p.buffer == null || fresh(p.buffer)
  {
    hide Printing, Intact, Deep, PrintBuffer.Has, PrintBuffer.Ends, PrintString, Nodes, Below, Shows, IsText, TextOf;
    hide Moved;
    ghost var s := Begin(m.live, m.failed, p.buffer);
    Opened(m, p, b, t, ms, goal, PrintString(ms[j].key, tail));
    Buffered(m, p, b, t, ms, goal, PrintString(ms[j].key, tail));
    KidApart(m, p, t, ms, j);
    var r := PrintStringPtr(m, child.key, p, goal, tail);
    p.Update(goal, tail);
    Resumed(m, p, b, t, ms, goal, tail, s);
  }

  /** cJSON_PrintBuffered. The index it returns is where the text begins, and the text is the one
      that cJSON_Print and cJSON_PrintUnformatted return. */
  method PrintBuffered(m: Memory, item: Node, prebuffer: nat, fmt: bool, ghost t: Tree, ghost v: Json)
    returns (buffer: array?<byte>, out: Option<nat>)
    requires Shows(item, t, v) && IntegersOnly(v) && prebuffer >= 1
    requires Len(Print(v, fmt)) + SLACK <= MAX_SIZE
    modifies m
    ensures out.Some? == (buffer != null)
    ensures out.None? ==> m.live == old(m.live) && m.failed
    ensures out.Some? ==> fresh(buffer) && m.live == old(m.live) + {buffer} && m.failed == old(m.failed)
    ensures out.Some? ==> out.value == 0 && Terminated(buffer[..], 0) && TextAt(buffer[..], 0) == Print(v, fmt)
  {
    hide Shows, J.PrintValue, Writing, Deep, Nodes, Below, IntegersOnly;
    DeepAllocated(t);
    NoMemoryBelow(t, m);
    buffer := m.Malloc(prebuffer);
    var p := new PrintBuffer(buffer, prebuffer);
    ghost var goal := Print(v, fmt);
    if buffer != null { Start(buffer[..], goal); }
    out := PrintValue(m, item, 0, fmt, p, t, v, goal, Nul);
    buffer := p.buffer;
    if out.Some? {
      Written(buffer[..], Len(goal), goal);
    }
  }
}
