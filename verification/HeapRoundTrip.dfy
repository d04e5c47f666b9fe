/** Printing a tree in memory and parsing the text back. */
module HeapRoundTrip {
  import opened CString
  import opened Buffer
  import opened Json
  import opened Heap
  import opened HeapViews
  import opened HeapDelete
  import J = JsonPrinter
  import P = JsonParser
  import PrintAlloc
  import PrintBuffered
  import RoundTrip

  /** cJSON_PrintBuffered and cJSON_ParseWithOpts of what it returns: unless an allocation fails, all
      of the text is consumed and the new tree denotes what the old one denotes. The text is freed. */
  method ParsePrintBuffered(m: Memory, item: Node, prebuffer: nat, fmt: bool, ghost t: Tree, ghost v: Json)
    returns (c: Node?, end: Str, ghost tree: Option<Tree>)
    requires Shows(item, t, v) && IntegersOnly(v) && prebuffer >= 1
    requires Len(J.Print(v, fmt)) + PrintBuffered.SLACK <= PrintBuffered.MAX_SIZE
    modifies m
    ensures c == null ==> m.live == old(m.live) && m.failed
    ensures c != null ==> tree.Some? && Shape(tree.value) && Separate(tree.value) && tree.value.node == c
    ensures c != null ==> Den(tree.value) == v && end == Nul && m.live == old(m.live) + Whole(tree.value)
  {
    hide Shows, IntegersOnly, Shape, Separate, OwnsAll, Finished, Den, Deep, P.ParseText, P.ParseValue, J.Print;
    tree, end := None, Nul;
    var buffer, out := PrintBuffered.PrintBuffered(m, item, prebuffer, fmt, t, v);
    if buffer == null {
      return null, Nul, None;
    }
    RoundTrip.PrintThenParse(v, fmt);
    c, end, tree := ParseWithOpts(m, TextAt(buffer[..], out.value), true);
    m.Free(buffer);
    if c != null { NoMemoryBelow(tree.value, m); }
  }

  /** The same for cJSON_Print and cJSON_PrintUnformatted. */
  method ParsePrinted(m: Memory, item: Node, fmt: bool, ghost t: Tree, ghost v: Json)
    returns (c: Node?, end: Str, ghost tree: Option<Tree>)
    requires Shows(item, t, v) && IntegersOnly(v)
    modifies m
    ensures c == null ==> m.live == old(m.live) && m.failed
    ensures c != null ==> tree.Some? && Shape(tree.value) && Separate(tree.value) && tree.value.node == c
    ensures c != null ==> Den(tree.value) == v && end == Nul && m.live == old(m.live) + Whole(tree.value)
  {
    hide Shows, IntegersOnly, Shape, Separate, OwnsAll, Finished, Den, Deep, P.ParseText, P.ParseValue, J.Print;
    tree, end, c := None, Nul, null;
    var out;
    if fmt {
      out := PrintAlloc.Print(m, item, t, v);
    } else {
      out := PrintAlloc.PrintUnformatted(m, item, t, v);
    }
    if out != null {
      RoundTrip.PrintThenParse(v, fmt);
      c, end, tree := ParseWithOpts(m, TextAt(out[..], 0), true);
      m.Free(out);
      if c != null { NoMemoryBelow(tree.value, m); }
    }
  }
}
