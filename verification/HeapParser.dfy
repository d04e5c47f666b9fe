/** The parser of cJSON.c, building nodes. */
module HeapParser {
  import opened CString
  import opened Buffer
  import opened Json
  import opened Heap
  import C = JsonCodes
  import P = JsonParser

  /** The bytes of a code point, written from the last one backwards. */
  method PutUtf8(out: array<byte>, n: nat, u: int) returns (next: nat)
    requires 0 < u < 0x110000 && n + C.Utf8Len(u) <= out.Length
    modifies out
    ensures next == n + C.Utf8Len(u)
    ensures Holds(out[..], n, C.Utf8(u, Nul))
    ensures forall k :: 0 <= k < n ==> out[k] == old(out[k])
  {
    var len := 4;
    if u < 0x80 {
      len := 1;
    } else if u < 0x800 {
      len := 2;
    } else if u < 0x10000 {
      len := 3;
    }
    var uc, ptr2 := u, n + len;
    if len >= 4 {
      ptr2 := ptr2 - 1;
      out[ptr2] := 0x80 + uc % 0x40;
      uc := uc / 0x40;
    }
    if len >= 3 {
      ptr2 := ptr2 - 1;
      out[ptr2] := 0x80 + uc % 0x40;
      uc := uc / 0x40;
    }
    if len >= 2 {
      ptr2 := ptr2 - 1;
      out[ptr2] := 0x80 + uc % 0x40;
      uc := uc / 0x40;
    }
    ptr2 := ptr2 - 1;
    out[ptr2] := (if len == 1 then 0 else if len == 2 then 0xC0 else if len == 3 then 0xE0 else 0xF0) + uc;
    next := n + len;
    assert out[..][n] == out[n];
    assert len > 1 ==> out[..][n + 1] == out[n + 1];
    assert len > 2 ==> out[..][n + 2] == out[n + 2];
    assert len > 3 ==> out[..][n + 3] == out[n + 3];
    assert len > 2 ==> Holds(out[..], n + 2, C.Utf8(u, Nul).rest.rest);
  }

  /** w stands in the first n cells, and finishing the second pass from ptr gives goal. */
  ghost predicate Decoding(out: seq<byte>, n: nat, w: Str, ptr: Str, end: Str, goal: Option<Str>) {
    && Holds(out, 0, w) && Len(w) == n
    && P.ScanEnd(ptr) == Some(end) && n + P.ScanLen(ptr) < |out|
    && goal == After(w, P.Decode(ptr, end))
  }

  function After(w: Str, rest: Option<Str>): Option<Str> {
    if rest.None? then None else Some(Append(w, rest.value))
  }

  /** The bytes d have been written behind w, for the part of the literal up to next. */
  lemma {:induction false} DecodeStep(a: seq<byte>, b: seq<byte>, n: nat, w: Str, d: Str, ptr: Str, next: Str, end: Str,
                                      goal: Option<Str>)
    requires Decoding(a, n, w, ptr, end, goal)
    requires |b| == |a| && (forall k :: 0 <= k < n ==> a[k] == b[k]) && Holds(b, n, d)
    requires P.ScanEnd(next) == Some(end) && Len(d) + P.ScanLen(next) <= P.ScanLen(ptr)
    requires P.Decode(ptr, end) == After(d, P.Decode(next, end))
    ensures Decoding(b, n + Len(d), Append(w, d), next, end, goal)
  {
    hide P.Decode, P.ScanEnd, P.ScanLen, Holds, Append;
    WrittenStays(a, b, n, w);
    HoldsAppend(b, 0, w, d);
    if P.Decode(next, end).Some? { AppendAssoc(w, d, P.Decode(next, end).value); }
  }

  lemma {:induction false} WrittenStays(a: seq<byte>, b: seq<byte>, n: nat, w: Str)
    requires Holds(a, 0, w) && Len(w) == n <= |a| == |b| && forall k :: 0 <= k < n ==> a[k] == b[k]
    ensures Holds(b, 0, w)
  {
    hide Holds, Len;
    assert a[0..n] == b[0..n];
    HoldsFrame(a, b, 0, w);
  }

  method PutChar(out: array<byte>, n: nat, c: byte)
    requires n < out.Length && c != 0
    modifies out
    ensures out[..] == old(out[..])[n := c] && Holds(out[..], n, Ch(c, Nul))
  {
    out[n] := c;
  }

  lemma {:induction false} Utf8Append(u: int, k: Str)
    requires 0 < u < 0x110000
    ensures Append(C.Utf8(u, Nul), k) == C.Utf8(u, k)
  {
    assert Append(C.Continuation(u, Nul), k) == C.Continuation(u, k);
    var d := C.Continuation(u / 0x40, C.Continuation(u, Nul));
    assert Append(d, k) == C.Continuation(u / 0x40, C.Continuation(u, k));
  }

  /** The first pass: finds the end of the literal and counts. */
  method Scan(str: Str) returns (end: Option<Str>, len: nat)
    requires str.Ch?
    ensures end == P.ScanEnd(str.rest)
    ensures end.Some? ==> len == P.ScanLen(str.rest)
  {
    var end_ptr := str.rest;
    len := 0;
    while Hd(end_ptr) != QUOTE && end_ptr.Ch?
      invariant P.ScanEnd(end_ptr) == P.ScanEnd(str.rest)
      invariant P.ScanEnd(end_ptr).Some? ==> len + P.ScanLen(end_ptr) == P.ScanLen(str.rest)
      decreases Len(end_ptr)
    {
      len := len + 1;
      assert end_ptr.rest.Ch? ==> Len(end_ptr.rest.rest) < Len(end_ptr.rest);
      var c := end_ptr.c;
      end_ptr := end_ptr.rest;
      if c == BSLASH {
        if end_ptr.Nul? {
          return None, len;
        }
        end_ptr := end_ptr.rest;
      }
    }
    end := Some(end_ptr);
  }

  /** One turn of the second pass. */
  method DecodeOne(out: array<byte>, n: nat, ptr: Str, end: Str, ghost w: Str, ghost goal: Option<Str>)
    returns (ok: bool, n': nat, ptr': Str, ghost w': Str)
    requires Decoding(out[..], n, w, ptr, end, goal) && Len(end) < Len(ptr)
    modifies out
    ensures ok ==> Decoding(out[..], n', w', ptr', end, goal) && Len(ptr') < Len(ptr)
    ensures !ok ==> goal == None
  {
    hide Decoding, P.Decode;
    Room(out[..], n, w, ptr, end, goal);
    if ptr.c == BSLASH && ptr.rest.c == LETTER_U {
      ok, n', ptr', w' := DecodeOneUnicode(out, n, ptr, end, w, goal);
      return;
    }
    ghost var before := out[..];
    var c := ptr.c;
    ptr' := ptr.rest;
    if c == BSLASH {
      DecodeEscape(ptr, end);
      assert Len(ptr.rest.rest) < Len(ptr.rest);
      var e := ptr.rest.c;
      c := if e == 98 then 8
        else if e == 102 then 12
        else if e == 110 then LF
        else if e == 114 then CR
        else if e == 116 then TAB
        else e;
      ptr' := ptr.rest.rest;
    } else {
      DecodePlain(ptr, end);
    }
    PutChar(out, n, c);
    ok, n', w' := true, n + 1, Append(w, Ch(c, Nul));
    DecodeStep(before, out[..], n, w, Ch(c, Nul), ptr, ptr', end, goal);
  }

  method DecodeOneUnicode(out: array<byte>, n: nat, ptr: Str, end: Str, ghost w: Str, ghost goal: Option<Str>)
    returns (ok: bool, n': nat, ptr': Str, ghost w': Str)
    requires Decoding(out[..], n, w, ptr, end, goal) && Len(end) < Len(ptr)
    requires ptr.c == BSLASH && ptr.rest.c == LETTER_U
    modifies out
    ensures ok ==> Decoding(out[..], n', w', ptr', end, goal) && Len(ptr') < Len(ptr)
    ensures !ok ==> goal == None
  {
    hide Decoding, P.Decode, P.ParseUnicode, C.Utf8;
    ghost var before := out[..];
    Room(before, n, w, ptr, end, goal);
    DecodeUnicode(ptr, end);
    n', ptr', w' := n, ptr, w;
    var u := ReadUnicode(ptr.rest, end);
    ok := u.Unicode?;
    if ok {
      n' := PutUtf8(out, n, u.u);
      ptr' := u.next;
      DecodeStep(before, out[..], n, w, C.Utf8(u.u, Nul), ptr, ptr', end, goal);
      w' := Append(w, C.Utf8(u.u, Nul));
    }
  }

  /** What one turn contributes to the decoded string. */
  lemma {:induction false} DecodePlain(ptr: Str, end: Str)
    requires P.ScanEnd(ptr) == Some(end) && Len(end) < Len(ptr) && ptr.c != BSLASH
    ensures P.ScanEnd(ptr.rest) == Some(end)
    ensures P.Decode(ptr, end) == After(Ch(ptr.c, Nul), P.Decode(ptr.rest, end))
  {
    hide C.Utf8, P.ParseUnicode;
    forall k ensures Append(Ch(ptr.c, Nul), k) == Ch(ptr.c, k) { assert Append(Nul, k) == k; }
  }

  lemma {:induction false} DecodeEscape(ptr: Str, end: Str)
    requires P.ScanEnd(ptr) == Some(end) && Len(end) < Len(ptr) && ptr.c == BSLASH && ptr.rest.c != LETTER_U
    ensures P.ScanEnd(ptr.rest.rest) == Some(end)
    ensures P.Decode(ptr, end) == After(Ch(C.Unescape(ptr.rest.c), Nul), P.Decode(ptr.rest.rest, end))
  {
    hide C.Utf8, P.ParseUnicode;
    assert Len(ptr.rest.rest) < Len(ptr.rest);
    var c := C.Unescape(ptr.rest.c);
    forall k ensures Append(Ch(c, Nul), k) == Ch(c, k) { assert Append(Nul, k) == k; }
  }

  lemma {:induction false} DecodeUnicode(ptr: Str, end: Str)
    requires P.ScanEnd(ptr) == Some(end) && Len(end) < Len(ptr) && ptr.c == BSLASH && ptr.rest.c == LETTER_U
    ensures P.ScanEnd(ptr.rest) == Some(end)
    ensures var e := P.ParseUnicode(ptr.rest, end);
      P.Decode(ptr, end) == if e.BadUnicode? then None else After(C.Utf8(e.u, Nul), P.Decode(e.next, end))
  {
    hide C.Utf8, P.ParseUnicode;
    var e := P.ParseUnicode(ptr.rest, end);
    if e.Unicode? && P.Decode(e.next, end).Some? { Utf8Append(e.u, P.Decode(e.next, end).value); }
  }

  lemma {:induction false} Room(a: seq<byte>, n: nat, w: Str, ptr: Str, end: Str, goal: Option<Str>)
    requires Decoding(a, n, w, ptr, end, goal)
    ensures P.ScanEnd(ptr) == Some(end) && n + P.ScanLen(ptr) < |a|
    ensures P.Decode(ptr, end) == None ==> goal == None
  {
  }

  /** The code point that the \u escape at p stands for. */
  method ReadUnicode(p: Str, end: Str) returns (r: P.Unicode)
    requires Hd(p) == LETTER_U && P.ScanEnd(p) == Some(end)
    ensures r == P.ParseUnicode(p, end)
  {
    var uc := P.Hex4(p.rest);
    if Len(p) <= Len(end) + 4 {
      return P.BadUnicode;
    }
    if 0xDC00 <= uc <= 0xDFFF || uc == 0 {
      return P.BadUnicode;
    }
    P.ScanHex4(p.rest);
    var q := p.rest.rest.rest.rest.rest;
    if 0xD800 <= uc <= 0xDBFF {
      if Len(q) < Len(end) + 5 {
        return P.BadUnicode;
      }
      if Hd(q) != BSLASH || Hd(q.rest) != LETTER_U {
        return P.BadUnicode;
      }
      var uc2 := P.Hex4(q.rest.rest);
      if uc2 < 0xDC00 || uc2 > 0xDFFF {
        return P.BadUnicode;
      }
      uc := 0x10000 + (uc % 0x400) * 0x400 + uc2 % 0x400;
      q := P.AfterHex4(q.rest.rest);
    }
    r := P.Unicode(uc, q);
  }

  /** parse_string. The block for the decoded string is allocated before the second pass can fail;
      item keeps it either way. */
  method ParseString(m: Memory, item: Node, str: Str) returns (end: Option<Str>)
    requires item.valuestring == null
    modifies item`valuestring, item`kind, m
    ensures item.valuestring != null ==> fresh(item.valuestring)
    ensures m.live == old(m.live) + Opt(item.valuestring)
    ensures old(m.failed) ==> m.failed
    ensures end.Some? ==> item.kind == KString && item.valuestring != null && IsText(item.valuestring)
    ensures end.Some? ==> P.ParseString(str) == P.ParsedString(TextOf(item.valuestring), end.value)
    ensures end.None? && !m.failed ==> P.ParseString(str) == P.BadString
  {
    if Hd(str) != QUOTE {
      return None;
    }
    var scan, len := Scan(str);
    if scan.None? {
      return None;
    }
    var end_ptr := scan.value;
    var out := m.Malloc(len + 1);
    if out == null {
      return None;
    }
    item.valuestring := out;
    item.kind := KString;
    var ptr, ptr2 := str.rest, 0;
    ghost var w, goal := Nul, P.Decode(str.rest, end_ptr);
    while Len(ptr) > Len(end_ptr)
      invariant item.valuestring == out && fresh(out) && item.kind == KString
      invariant m.live == old(m.live) + {out} && m.failed == old(m.failed)
      invariant Decoding(out[..], ptr2, w, ptr, end_ptr, goal)
      decreases Len(ptr)
    {
      var ok;
      ok, ptr2, ptr, w := DecodeOne(out, ptr2, ptr, end_ptr, w, goal);
      if !ok {
        return None;
      }
    }
    TerminateOut(out, ptr2, w, ptr, end_ptr, goal);
    end := Some(if Hd(ptr) == QUOTE then ptr.rest else ptr);
  }

  /** The decoded string is terminated; the second pass stands where the first one stopped. */
  method TerminateOut(out: array<byte>, n: nat, ghost w: Str, ghost ptr: Str, ghost end: Str, ghost goal: Option<Str>)
    requires Decoding(out[..], n, w, ptr, end, goal) && Len(ptr) <= Len(end)
    modifies out
    ensures Terminated(out[..], 0) && goal == Some(TextAt(out[..], 0)) && ptr == end
  {
    ghost var before := out[..];
    out[n] := 0;
    HoldsFrame(before, out[..], 0, w);
    HoldsTextSplit(out[..], 0, w);
    HoldsTextAt(out[..], 0, w);
    AppendNul(w);
  }

  // ---- numbers ----

  /** One of the digit loops of parse_number. */
  method ReadDigits(s: Str, start: nat) returns (n: nat, count: nat, num: Str)
    ensures P.Digits(n, count, num) == P.ParseDigits(s, start)
  {
    n, count, num := start, 0, s;
    while 48 <= Hd(num) <= 57
      invariant P.ParseDigits(s, start) == P.ParseDigits(num, n).(count := count + P.ParseDigits(num, n).count)
      decreases Len(num)
    {
      n, count, num := n * 10 + (num.c as int - 48), count + 1, num.rest;
    }
  }

  method ParseNumber(item: Node, s: Str) returns (num: Str)
    modifies item`valuedouble, item`kind
    ensures item.kind == KNumber && (item.valuedouble, num) == P.ParseNumber(s)
  {
    hide C.Scaled, P.ParseDigits, P.ParseExponent;
    num := s;
    var sign := false;
    if Hd(num) == MINUS {
      sign, num := true, num.rest;
    }
    ghost var whole := P.ParseWhole(num);
    if Hd(num) == ZERO {
      num := num.rest;
    }
    var n, count := 0, 0;
    if 49 <= Hd(num) <= 57 {
      n, count, num := ReadDigits(num, 0);
    }
    assert whole.value == n && whole.rest == num;
    ghost var frac := P.ParseFraction(num, n);
    var scale := 0;
    if Hd(num) == DOT && 48 <= Hd(num.rest) <= 57 {
      n, scale, num := ReadDigits(num.rest, n);
    }
    assert frac == P.Digits(n, scale, num);
    var subscale;
    subscale, num := ReadExponent(num);
    item.valuedouble := C.Scaled(sign, n, subscale - scale);
    item.kind := KNumber;
  }

  /** The exponent part of parse_number. */
  method ReadExponent(s: Str) returns (subscale: int, num: Str)
    ensures (subscale, num) == P.ParseExponent(s)
  {
    hide P.ParseDigits;
    subscale, num := 0, s;
    if Hd(num) == 101 || Hd(num) == 69 {
      var signsubscale, count := 1, 0;
      num := num.rest;
      if Hd(num) == PLUS {
        num := num.rest;
      } else if Hd(num) == MINUS {
        signsubscale, num := -1, num.rest;
      }
      subscale, count, num := ReadDigits(num, 0);
      subscale := if signsubscale == 1 then subscale else -subscale;
    }
  }

  // ---- values ----

  ghost function Leaf(n: Node, key: array?<byte>): Tree {
    Tree(n, null, key, true, true, [])
  }

  /** What is parsed behind an element. */
  function ElemsRest(s: Str): P.Parse {
    if Hd(s) == COMMA then P.ParseElems(s.rest)
    else if Hd(s) == RBRACK then P.Done(JArray([]), s.rest)
    else P.Fail
  }

  function Elems(vs: seq<Json>, r: P.Parse): P.Parse {
    if r.Done? && r.v.JArray? then P.Done(JArray(vs + r.v.elems), r.rest) else P.Fail
  }

  /** One element, with white space around it. */
  function ParseElem(s: Str): Option<(Json, Str)> {
    var r := P.ParseValue(P.Skip(s));
    if r.Fail? then None else Some((r.v, P.Skip(r.rest)))
  }

  lemma {:induction false} ElemsStep(vs: seq<Json>, s: Str)
    ensures var first := ParseElem(s);
      Elems(vs, P.ParseElems(s)) == if first.None? then P.Fail
        else Elems(vs + [first.value.0], ElemsRest(first.value.1))
    ensures Elems([], P.ParseElems(s)) == P.ParseElems(s)
  {
    hide P.ParseValue;
    var first := ParseElem(s);
    if first.Some? {
      var v := first.value.0;
      var r := ElemsRest(first.value.1);
      if r.Done? { assert vs + ([v] + r.v.elems) == (vs + [v]) + r.v.elems; }
      assert [v] + [] == [v];
    }
    var all := P.ParseElems(s);
    if all.Done? { assert [] + all.v.elems == all.v.elems; }
  }

  lemma ElemsNext(vs: seq<Json>, s: Str)
    requires Hd(s) == COMMA
    ensures var next := ParseElem(s.rest);
      Elems(vs, ElemsRest(s)) == if next.None? then P.Fail else Elems(vs + [next.value.0], ElemsRest(next.value.1))
  {
    ElemsStep(vs, s.rest);
    hide P.ParseElems, ParseElem, Elems;
  }

  /** parse_value by cases. */
  lemma {:induction false} Cases(s: Str)
    ensures HasPrefix(s, NULL_TEXT) ==> P.ParseValue(s) == P.Done(JNull, Drop(s, Len(NULL_TEXT)))
    ensures HasPrefix(s, FALSE_TEXT) ==> P.ParseValue(s) == P.Done(JBool(false), Drop(s, Len(FALSE_TEXT)))
    ensures HasPrefix(s, TRUE_TEXT) ==> P.ParseValue(s) == P.Done(JBool(true), Drop(s, Len(TRUE_TEXT)))
    ensures !HasPrefix(s, NULL_TEXT) && !HasPrefix(s, TRUE_TEXT) && !HasPrefix(s, FALSE_TEXT) ==>
      P.ParseValue(s) == NoKeyword(s)
  {
    hide P.ParseString, P.ParseNumber, P.ParseArray, P.ParseObject;
  }

  function NoKeyword(s: Str): P.Parse {
    if Hd(s) == QUOTE then
      var r := P.ParseString(s);
      if r.BadString? then P.Fail else P.Done(JString(r.chars), r.rest)
    else if Hd(s) == MINUS || IsDigit(Hd(s)) then P.Done(JNumber(P.ParseNumber(s).0), P.ParseNumber(s).1)
    else if Hd(s) == LBRACK then P.ParseArray(s)
    else if Hd(s) == LBRACE then P.ParseObject(s)
    else P.Fail
  }

  /** A node without children. */
  lemma {:induction false} LeafTree(t: Tree)
    requires t.kids == [] && t.owns && t.ownsKey && Opt(t.vs) !! Opt(t.key)
    requires t.node.child == null && t.node.valuestring == t.vs
    requires t.node.key == t.key && !t.node.isReference && !t.node.stringIsConst
    ensures Deep(t) == Opt(t.vs) + Opt(t.key) && Separate(t) && OwnsAll(t) && Shape(t)
    ensures t.node.kind != Invalid && IsText(t.vs) && IsText(t.key) ==> Finished(t)
    ensures t.node.kind == KArray ==> Den(t) == JArray([])
    ensures t.node.kind == KObject ==> Den(t) == JObject([])
  {
  }

  method ParseValue(m: Memory, item: Node, value: Str) returns (end: Option<Str>, ghost t: Tree)
    requires item.child == null && item.valuestring == null && !item.isReference && !item.stringIsConst
    requires Opt(item.key) <= m.live && IsText(item.key)
    modifies item`child, item`valuestring, item`kind, item`valuedouble, m
    ensures t.node == item && t.key == item.key && Shape(t) && Separate(t) && OwnsAll(t)
    ensures fresh(Deep(t) - Opt(t.key))
    ensures m.live == old(m.live) + Deep(t)
    ensures old(m.failed) ==> m.failed
    ensures end.Some? ==> Finished(t) && P.ParseValue(value) == P.Done(Den(t), end.value)
    ensures end.None? && !m.failed ==> P.ParseValue(value).Fail?
    decreases Len(value), 3
  {
    hide P.ParseValue, P.ParseString, P.ParseNumber, HasPrefix, Separate, OwnsAll, Deep, Nodes, Below, Shape, Links;
    Cases(value);
    if HasPrefix(value, NULL_TEXT) || HasPrefix(value, FALSE_TEXT) || HasPrefix(value, TRUE_TEXT) {
      end, t := ParseKeyword(item, value);
    } else if Hd(value) == QUOTE {
      end := ParseString(m, item, value);
      t := Tree(item, item.valuestring, item.key, true, true, []);
      LeafTree(t);
    } else if Hd(value) == MINUS || 48 <= Hd(value) <= 57 {
      var num := ParseNumber(item, value);
      end, t := Some(num), Leaf(item, item.key);
      LeafTree(t);
    } else if Hd(value) == LBRACK {
      end, t := ParseArray(m, item, value);
    } else if Hd(value) == LBRACE {
      end, t := ParseObject(m, item, value);
    } else {
      end, t := None, Leaf(item, item.key);
      LeafTree(t);
    }
  }

  method ParseKeyword(item: Node, value: Str) returns (end: Option<Str>, ghost t: Tree)
    requires HasPrefix(value, NULL_TEXT) || HasPrefix(value, FALSE_TEXT) || HasPrefix(value, TRUE_TEXT)
    requires item.child == null && item.valuestring == null && !item.isReference && !item.stringIsConst
    requires IsText(item.key)
    modifies item`kind
    ensures t == Leaf(item, item.key) && Shape(t) && Separate(t) && OwnsAll(t) && Deep(t) == Opt(item.key)
    ensures end.Some? && Finished(t) && P.ParseValue(value) == P.Done(Den(t), end.value)
  {
    hide P.ParseValue, HasPrefix, Drop, Separate, OwnsAll, Deep, Nodes, Below, Shape, Finished, TextOf;
    Cases(value);
    t := Leaf(item, item.key);
    if HasPrefix(value, NULL_TEXT) {
      item.kind := KNull;
      LeafTree(t);
      return Some(Drop(value, Len(NULL_TEXT))), t;
    }
    if HasPrefix(value, FALSE_TEXT) {
      item.kind := KFalse;
      LeafTree(t);
      return Some(Drop(value, Len(FALSE_TEXT))), t;
    }
    item.kind := KTrue;
    LeafTree(t);
    return Some(Drop(value, Len(TRUE_TEXT))), t;
  }

  /** A list of children under construction. */
  ghost predicate Growing(head: Node?, kids: seq<Tree>, tail: Node?)
    reads Nodes(kids), Below(kids)
  {
    Links(head, kids, tail) && AllSeparate(kids) && AllOwned(kids) && Shapes(kids)
  }

  ghost function Parent(item: Node, key: array?<byte>, kids: seq<Tree>): Tree {
    Tree(item, null, key, true, true, kids)
  }

  lemma {:induction false} ParentTree(item: Node, kids: seq<Tree>)
    requires Growing(item.child, kids, null) && item.valuestring == null && !item.isReference && !item.stringIsConst
    requires item !in Objs(kids) && Opt(item.key) !! Objs(kids)
    ensures var t := Parent(item, item.key, kids);
      Shape(t) && Separate(t) && OwnsAll(t) && Deep(t) == Opt(item.key) + Objs(kids)
    ensures item.kind != Invalid && IsText(item.key) && AllFinished(kids) ==> Finished(Parent(item, item.key, kids))
    ensures item.kind == KArray ==> Den(Parent(item, item.key, kids)) == JArray(DenElems(kids))
    ensures item.kind == KObject ==> Den(Parent(item, item.key, kids)) == JObject(DenMembers(kids))
  {
  }

  method ParseArray(m: Memory, item: Node, value: Str) returns (end: Option<Str>, ghost t: Tree)
    requires Hd(value) == LBRACK
    requires item.child == null && item.valuestring == null && !item.isReference && !item.stringIsConst
    requires Opt(item.key) <= m.live && IsText(item.key)
    modifies item`child, item`kind, m
    ensures t.node == item && t.key == item.key && Shape(t) && Separate(t) && OwnsAll(t)
    ensures fresh(Deep(t) - Opt(t.key))
    ensures m.live == old(m.live) + Deep(t)
    ensures old(m.failed) ==> m.failed
    ensures end.Some? ==> Finished(t) && P.ParseArray(value) == P.Done(Den(t), end.value)
    ensures end.None? && !m.failed ==> P.ParseArray(value).Fail?
    decreases Len(value), 2
  {
    hide Separate, OwnsAll, Deep, Objs, Nodes, Below, Links, Growing, AllFinished, Den, DenElems, DenMembers, Shape;
    hide Finished;
    hide P.ParseElems, TextOf, P.Skip;
    t := Leaf(item, item.key);
    item.kind := KArray;
    LeafTree(t);
    var s := P.Skip(value.rest);
    if Hd(s) == RBRACK {
      return Some(s.rest), t;
    }
    var child := m.NewNode();
    item.child := child;
    if child == null {
      return None, t;
    }
    var r;
    ghost var kids;
    r, kids := ParseElems(m, item, child, s);
    t := Parent(item, item.key, kids);
    ParentTree(item, kids);
    end := None;
    if r.Some? && Hd(r.value) == RBRACK {
      end := Some(r.value.rest);
      assert DenElems(kids) + [] == DenElems(kids);
    }
  }

  /** The elements, child0 being the node for the first one; r is what follows the last. */
  method ParseElems(m: Memory, item: Node, child0: Node, s: Str) returns (r: Option<Str>, ghost kids: seq<Tree>)
    requires child0 != item && item.child == child0 && child0 in m.live
    requires child0.next == null && child0.prev == null && child0.child == null
    requires child0.valuestring == null && child0.key == null
    requires !child0.isReference && !child0.stringIsConst
    modifies child0, m
    ensures Growing(child0, kids, null) && child0 in Objs(kids)
    ensures fresh(Objs(kids) - {child0})
    ensures m.live == old(m.live) + Objs(kids)
    ensures old(m.failed) ==> m.failed
    ensures r.Some? ==> AllFinished(kids) && Len(r.value) < Len(s) && Hd(r.value) != COMMA
    ensures r.Some? ==> P.ParseElems(s) == Elems(DenElems(kids), ElemsRest(r.value))
    ensures r.None? && !m.failed ==> P.ParseElems(s).Fail?
    decreases Len(s), 5
  {
    hide Separate, OwnsAll, Deep, Objs, Nodes, Below, Links, Growing, AllFinished, Den, DenElems, DenMembers;
    hide DenMember, Shape, Finished;
    hide P.ParseElems, ParseElem, Elems, ElemsRest, TextOf, IsText;
    var child := child0;
    ghost var t;
    ElemsStep([], s);
    r, t := ReadElem(m, child, s);
    kids := [t];
    Single(t);
    assert [] + [Den(t)] == [Den(t)];
    while r.Some? && Hd(r.value) == COMMA
      invariant kids != [] && child == kids[|kids| - 1].node
      invariant Growing(child0, kids, null) && child0 in Objs(kids)
      invariant fresh(Objs(kids) - {child0})
      invariant m.live == old(m.live) + Objs(kids)
      invariant old(m.failed) ==> m.failed
      invariant r.Some? ==> AllFinished(kids) && Len(r.value) < Len(s)
      invariant r.Some? ==> P.ParseElems(s) == Elems(DenElems(kids), ElemsRest(r.value))
      invariant r.None? && !m.failed ==> P.ParseElems(s).Fail?
      decreases if r.Some? then 1 + Len(r.value) else 0
    {
      ElemsNext(DenElems(kids), r.value);
      LastIn(kids);
      var new_item;
      new_item, r, kids := ReadNextElem(m, child0, child, kids, r.value.rest);
      if new_item == null {
        return None, kids;
      }
      child := new_item;
    }
  }

  /** One element, its node being there already. */
  method ReadElem(m: Memory, child: Node, s: Str) returns (r: Option<Str>, ghost t: Tree)
    requires child.child == null && child.valuestring == null
    requires child.key == null && !child.isReference && !child.stringIsConst
    modifies child`child, child`valuestring, child`kind, child`valuedouble, m
    ensures t.node == child && Shape(t) && Separate(t) && OwnsAll(t)
    ensures fresh(Deep(t)) && m.live == old(m.live) + Deep(t)
    ensures old(m.failed) ==> m.failed
    ensures r.Some? ==> Finished(t) && ParseElem(s) == Some((Den(t), r.value)) && Len(r.value) < Len(s)
    ensures r.None? && !m.failed ==> ParseElem(s).None?
    decreases Len(s), 4
  {
    hide Separate, OwnsAll, Deep, Nodes, Below, Links, P.ParseValue, Den, Shape, Finished;
    r, t := ParseValue(m, child, P.Skip(s));
    if r.Some? { r := Some(P.Skip(r.value)); }
  }

  /** A new node behind the last one, filled with the element at s. */
  method ReadNextElem(m: Memory, ghost head: Node, child: Node, ghost kids: seq<Tree>, s: Str)
    returns (new_item: Node?, r: Option<Str>, ghost kids': seq<Tree>)
    requires kids != [] && child == kids[|kids| - 1].node && Growing(head, kids, null)
    requires m !in Objs(kids) && Objs(kids) <= m.live
    modifies child`next, m
    ensures Growing(head, kids', null) && Objs(kids) <= Objs(kids')
    ensures fresh(Objs(kids') - Objs(kids)) && m.live == old(m.live) + Objs(kids')
    ensures new_item == null ==> r.None? && m.failed
    ensures new_item != null ==> kids' != [] && new_item == kids'[|kids'| - 1].node
    ensures old(m.failed) ==> m.failed
    ensures r.Some? ==> ParseElem(s).Some? && r.value == ParseElem(s).value.1 && Len(r.value) < Len(s)
    ensures r.Some? ==> DenElems(kids') == old(DenElems(kids)) + [ParseElem(s).value.0]
    ensures r.Some? && old(AllFinished(kids)) ==> AllFinished(kids')
    ensures r.None? && !m.failed ==> ParseElem(s).None?
    decreases Len(s), 5
  {
    hide Separate, OwnsAll, Deep, Nodes, Below, Links, Growing, AllFinished, Den, DenElems, DenMembers, DenMember;
    hide Shape, Finished;
    hide ParseElem, TextOf, IsText;
    r, kids' := None, kids;
    Allocated(kids);
    new_item := AppendNew(m, head, child, kids);
    if new_item == null {
      return;
    }
    ghost var t;
    r, t := ReadElem(m, new_item, s);
    Grow(head, kids, t);
    kids' := kids + [t];
  }

  lemma {:induction false} LastIn(kids: seq<Tree>)
    requires kids != []
    ensures kids[|kids| - 1].node in Objs(kids)
  {
    hide Below;
  }

  lemma {:induction false} Single(t: Tree)
    requires Shape(t) && Separate(t) && OwnsAll(t) && t.node.prev == null && t.node.next == null
    ensures Growing(t.node, [t], null) && Objs([t]) == Deep(t) + {t.node}
    ensures DenElems([t]) == [Den(t)] && DenMembers([t]) == [DenMember(t)]
    ensures Finished(t) ==> AllFinished([t])
  {
    hide Shape, Separate, OwnsAll, Deep, Den, DenMember, Finished, Nodes, Below, DenElems, DenMembers, AllSeparate;
    SingleObjs(t);
  }

  lemma {:induction false} SingleObjs(t: Tree)
    ensures Nodes([t]) == {t.node} && Below([t]) == Deep(t)
    ensures Separate(t) ==> AllSeparate([t])
  {
    hide Deep, Separate;
    assert [t][..0] == [];
  }

  /** A fresh node behind the last child. */
  method AppendNew(m: Memory, ghost head: Node, child: Node, ghost kids: seq<Tree>) returns (new_item: Node?)
    requires kids != [] && child == kids[|kids| - 1].node && Growing(head, kids, null)
    requires m !in Objs(kids)
    modifies child`next, m
    ensures Growing(head, kids, new_item)
    ensures old(AllFinished(kids)) ==> AllFinished(kids)
    ensures DenElems(kids) == old(DenElems(kids)) && DenMembers(kids) == old(DenMembers(kids))
    ensures new_item == null ==> m.live == old(m.live) && m.failed
    ensures new_item != null ==> fresh(new_item) && m.live == old(m.live) + {new_item} && m.failed == old(m.failed)
    ensures new_item != null ==>
      new_item.prev == child && new_item.next == null && new_item.child == null && new_item.kind == Invalid
    ensures new_item != null ==>
      !new_item.isReference && !new_item.stringIsConst && new_item.valuestring == null && new_item.key == null
  {
    hide Separate, OwnsAll, Deep, Nodes, Below, Links, Growing, AllFinished, Shape, Finished, Den, DenElems, DenMembers;
    Allocated(kids);
    new_item := m.NewNode();
    if new_item != null {
      new_item.prev := child;
      LinkBehind(head, child, kids, new_item);
    }
  }

  method LinkBehind(ghost head: Node, child: Node, ghost kids: seq<Tree>, new_item: Node)
    requires kids != [] && child == kids[|kids| - 1].node && Growing(head, kids, null)
    modifies child`next
    ensures child.next == new_item
    ensures Growing(head, kids, new_item)
    ensures old(AllFinished(kids)) ==> AllFinished(kids)
    ensures DenElems(kids) == old(DenElems(kids)) && DenMembers(kids) == old(DenMembers(kids))
  {
    hide AllSeparate, AllOwned, Below, Nodes, Shapes, AllFinished, DenElems, DenMembers, Links;
    SiblingsApart(kids);
    Allocated(kids);
    SetLastNext(head, kids, child, new_item);
  }

  method SetLastNext(ghost head: Node, ghost kids: seq<Tree>, child: Node, new_item: Node)
    requires kids != [] && child == kids[|kids| - 1].node && Links(head, kids, null) && AllSeparate(kids)
    modifies child`next
    ensures child.next == new_item && Links(head, kids, new_item)
  {
    hide AllSeparate, Below, Nodes;
    forall i | 0 <= i < |kids| - 1 ensures kids[i].node != child && kids[i].node.next == Behind(kids, i, new_item) {
      NodesDistinct(kids, i, |kids| - 1);
      assert kids[i].node.next == Behind(kids, i, null);
    }
    child.next := new_item;
  }

  /** The tree at the node behind the last child joins the list. */
  lemma {:induction false} Grow(head: Node, kids: seq<Tree>, t: Tree)
    requires kids != [] && Growing(head, kids, t.node)
    requires t.node.prev == kids[|kids| - 1].node && t.node.next == null
    requires Shape(t) && Separate(t) && OwnsAll(t) && (Deep(t) + {t.node}) !! Objs(kids)
    ensures Growing(head, kids + [t], null) && Objs(kids + [t]) == Objs(kids) + (Deep(t) + {t.node})
    ensures AllFinished(kids) && Finished(t) ==> AllFinished(kids + [t])
    ensures DenElems(kids + [t]) == DenElems(kids) + [Den(t)]
    ensures DenMembers(kids + [t]) == DenMembers(kids) + [DenMember(t)]
  {
    hide Deep, Separate, OwnsAll, AllSeparate, Shape, Links, Finished, Den, DenMember, Nodes, Below;
    GrowObjs(kids, t);
    LinksGrow(head, kids, t);
  }

  lemma {:induction false} LinksGrow(head: Node, kids: seq<Tree>, t: Tree)
    requires kids != [] && Links(head, kids, t.node)
    requires t.node.prev == kids[|kids| - 1].node && t.node.next == null
    ensures Links(head, kids + [t], null)
  {
    var ts := kids + [t];
    forall i | 0 <= i < |ts| ensures ts[i].node.prev == Before(ts, i) && ts[i].node.next == Behind(ts, i, null) {
      if i < |kids| { assert kids[i].node.prev == Before(kids, i) && kids[i].node.next == Behind(kids, i, t.node); }
    }
  }

  lemma {:induction false} GrowObjs(kids: seq<Tree>, t: Tree)
    ensures Nodes(kids + [t]) == Nodes(kids) + {t.node} && Below(kids + [t]) == Below(kids) + Deep(t)
    ensures AllSeparate(kids) && Separate(t) && Whole(t) !! Objs(kids) ==> AllSeparate(kids + [t])
  {
    assert (kids + [t])[..|kids|] == kids;
  }

  method ParseObject(m: Memory, item: Node, value: Str) returns (end: Option<Str>, ghost t: Tree)
    requires Hd(value) == LBRACE
    requires item.child == null && item.valuestring == null && !item.isReference && !item.stringIsConst
    requires Opt(item.key) <= m.live && IsText(item.key)
    modifies item`child, item`kind, m
    ensures t.node == item && t.key == item.key && Shape(t) && Separate(t) && OwnsAll(t)
    ensures fresh(Deep(t) - Opt(t.key))
    ensures m.live == old(m.live) + Deep(t)
    ensures old(m.failed) ==> m.failed
    ensures end.Some? ==> Finished(t) && P.ParseObject(value) == P.Done(Den(t), end.value)
    ensures end.None? && !m.failed ==> P.ParseObject(value).Fail?
    decreases Len(value), 2
  {
    hide Separate, OwnsAll, Deep, Objs, Nodes, Below, Links, Growing, AllFinished, Den, DenElems, DenMembers, Shape;
    hide Finished;
    hide P.ParseMembers, TextOf, P.Skip;
    t := Leaf(item, item.key);
    item.kind := KObject;
    LeafTree(t);
    var s := P.Skip(value.rest);
    if Hd(s) == RBRACE {
      return Some(s.rest), t;
    }
    var child := m.NewNode();
    item.child := child;
    if child == null {
      return None, t;
    }
    var r;
    ghost var kids;
    r, kids := ParseMembers(m, item, child, s);
    t := Parent(item, item.key, kids);
    ParentTree(item, kids);
    end := None;
    if r.Some? && Hd(r.value) == RBRACE {
      end := Some(r.value.rest);
      assert DenMembers(kids) + [] == DenMembers(kids);
    }
  }

  /** What is parsed behind a member. */
  function MembersRest(s: Str): P.Parse {
    if Hd(s) == COMMA then P.ParseMembers(s.rest)
    else if Hd(s) == RBRACE then P.Done(JObject([]), s.rest)
    else P.Fail
  }

  function Members(ms: seq<Member>, r: P.Parse): P.Parse {
    if r.Done? && r.v.JObject? then P.Done(JObject(ms + r.v.members), r.rest) else P.Fail
  }

  lemma {:induction false} MembersStep(ms: seq<Member>, s: Str)
    ensures var first := P.ParseMember(s);
      Members(ms, P.ParseMembers(s)) == if first.None? then P.Fail
        else Members(ms + [first.value.0], MembersRest(first.value.1))
    ensures Members([], P.ParseMembers(s)) == P.ParseMembers(s)
  {
    hide P.ParseMember;
    var first := P.ParseMember(s);
    if first.Some? {
      var v := first.value.0;
      var r := MembersRest(first.value.1);
      if r.Done? { assert ms + ([v] + r.v.members) == (ms + [v]) + r.v.members; }
      assert [v] + [] == [v];
    }
    var all := P.ParseMembers(s);
    if all.Done? { assert [] + all.v.members == all.v.members; }
  }

  lemma MembersNext(ms: seq<Member>, s: Str)
    requires Hd(s) == COMMA
    ensures var next := P.ParseMember(s.rest);
      Members(ms, MembersRest(s)) == if next.None? then P.Fail
        else Members(ms + [next.value.0], MembersRest(next.value.1))
  {
    MembersStep(ms, s.rest);
    hide P.ParseMembers, P.ParseMember, Members;
  }

  /** One member, its node being there already: the key is parsed as a string value and moved. */
  method ParseMember(m: Memory, child: Node, s: Str) returns (r: Option<Str>, ghost t: Tree)
    requires child.child == null && child.valuestring == null
    requires child.key == null && !child.isReference && !child.stringIsConst
    modifies child`child, child`valuestring, child`key, child`kind, child`valuedouble, m
    ensures t.node == child && Shape(t) && Separate(t) && OwnsAll(t)
    ensures fresh(Deep(t)) && m.live == old(m.live) + Deep(t)
    ensures old(m.failed) ==> m.failed
    ensures r.Some? ==> Finished(t) && P.ParseMember(s) == Some((DenMember(t), r.value))
    ensures r.None? && !m.failed ==> P.ParseMember(s).None?
    decreases Len(s), 4
  {
    hide Separate, OwnsAll, Deep, Nodes, Below, Links, P.ParseValue, P.ParseString, Den, Shape, Finished;
    var key := ParseString(m, child, P.Skip(s));
    if key.None? {
      t := Tree(child, child.valuestring, null, true, true, []);
      LeafTree(t);
      return None, t;
    }
    child.key := child.valuestring;
    child.valuestring := null;
    var value := P.Skip(key.value);
    if Hd(value) != COLON {
      t := Leaf(child, child.key);
      LeafTree(t);
      return None, t;
    }
    ghost var chars := TextOf(child.key);
    r, t := ParseValue(m, child, P.Skip(value.rest));
    if r.Some? { r := Some(P.Skip(r.value)); }
  }

  method ParseMembers(m: Memory, item: Node, child0: Node, s: Str) returns (r: Option<Str>, ghost kids: seq<Tree>)
    requires child0 != item && item.child == child0 && child0 in m.live
    requires child0.next == null && child0.prev == null && child0.child == null
    requires child0.valuestring == null && child0.key == null
    requires !child0.isReference && !child0.stringIsConst
    modifies child0, m
    ensures Growing(child0, kids, null) && child0 in Objs(kids)
    ensures fresh(Objs(kids) - {child0})
    ensures m.live == old(m.live) + Objs(kids)
    ensures old(m.failed) ==> m.failed
    ensures r.Some? ==> AllFinished(kids) && Len(r.value) < Len(s) && Hd(r.value) != COMMA
    ensures r.Some? ==> P.ParseMembers(s) == Members(DenMembers(kids), MembersRest(r.value))
    ensures r.None? && !m.failed ==> P.ParseMembers(s).Fail?
    decreases Len(s), 5
  {
    hide Separate, OwnsAll, Deep, Objs, Nodes, Below, Links, Growing, AllFinished, Den, DenElems, DenMembers;
    hide DenMember, Shape, Finished;
    hide P.ParseMembers, P.ParseMember, Members, MembersRest, TextOf, IsText;
    var child := child0;
    ghost var t;
    MembersStep([], s);
    r, t := ParseMember(m, child, s);
    kids := [t];
    Single(t);
    assert [] + [DenMember(t)] == [DenMember(t)];
    while r.Some? && Hd(r.value) == COMMA
      invariant kids != [] && child == kids[|kids| - 1].node
      invariant Growing(child0, kids, null) && child0 in Objs(kids)
      invariant fresh(Objs(kids) - {child0})
      invariant m.live == old(m.live) + Objs(kids)
      invariant old(m.failed) ==> m.failed
      invariant r.Some? ==> AllFinished(kids) && Len(r.value) < Len(s)
      invariant r.Some? ==> P.ParseMembers(s) == Members(DenMembers(kids), MembersRest(r.value))
      invariant r.None? && !m.failed ==> P.ParseMembers(s).Fail?
      decreases if r.Some? then 1 + Len(r.value) else 0
    {
      MembersNext(DenMembers(kids), r.value);
      LastIn(kids);
      var new_item;
      new_item, r, kids := ParseNextMember(m, child0, child, kids, r.value.rest);
      if new_item == null {
        return None, kids;
      }
      child := new_item;
    }
  }

  /** A new node behind the last one, filled with the member at s. */
  method ParseNextMember(m: Memory, ghost head: Node, child: Node, ghost kids: seq<Tree>, s: Str)
    returns (new_item: Node?, r: Option<Str>, ghost kids': seq<Tree>)
    requires kids != [] && child == kids[|kids| - 1].node && Growing(head, kids, null)
    requires m !in Objs(kids) && Objs(kids) <= m.live
    modifies child`next, m
    ensures Growing(head, kids', null) && Objs(kids) <= Objs(kids')
    ensures fresh(Objs(kids') - Objs(kids)) && m.live == old(m.live) + Objs(kids')
    ensures new_item == null ==> r.None? && m.failed
    ensures new_item != null ==> kids' != [] && new_item == kids'[|kids'| - 1].node
    ensures old(m.failed) ==> m.failed
    ensures r.Some? ==> P.ParseMember(s).Some? && r.value == P.ParseMember(s).value.1
    ensures r.Some? ==> DenMembers(kids') == old(DenMembers(kids)) + [P.ParseMember(s).value.0]
    ensures r.Some? && old(AllFinished(kids)) ==> AllFinished(kids')
    ensures r.None? && !m.failed ==> P.ParseMember(s).None?
    decreases Len(s), 5
  {
    hide Separate, OwnsAll, Deep, Nodes, Below, Links, Growing, AllFinished, Den, DenElems, DenMembers, DenMember;
    hide Shape, Finished;
    hide P.ParseMember, TextOf, IsText;
    r, kids' := None, kids;
    Allocated(kids);
    new_item := AppendNew(m, head, child, kids);
    if new_item == null {
      return;
    }
    ghost var t;
    r, t := ParseMember(m, new_item, s);
    Grow(head, kids, t);
    kids' := kids + [t];
  }
}
