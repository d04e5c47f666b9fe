/** cJSON_Delete, and the parser's entry point, which cleans up with it. */
module HeapDelete {
  import opened CString
  import opened Heap
  import opened HeapParser
  import P = JsonParser

  /** What deleting the node frees. A reference does not own its value and its children, and a
      constant key is not owned either. */
  ghost function Own(t: Tree): set<object>
    decreases t, 1
  {
    {t.node} + OwnValue(t) + OwnKey(t)
  }

  ghost function OwnValue(t: Tree): set<object>
    decreases t, 0
  {
    if t.owns then Opt(t.vs) + OwnList(t.kids) else {}
  }

  ghost function OwnKey(t: Tree): set<object> {
    if t.ownsKey then Opt(t.key) else {}
  }

  ghost function OwnList(ts: seq<Tree>): set<object>
    decreases ts, 2
  {
    if ts == [] then {} else OwnList(ts[..|ts| - 1]) + Own(ts[|ts| - 1])
  }

  /** Nothing is owned twice. */
  ghost predicate OwnedOnce(t: Tree)
    decreases t, 0
  {
    && t.node !in OwnValue(t) + OwnKey(t) && OwnValue(t) !! OwnKey(t)
    && (t.owns ==> Opt(t.vs) !! OwnList(t.kids) && ListOwnedOnce(t.kids))
  }

  ghost predicate ListOwnedOnce(ts: seq<Tree>)
    decreases ts, 1
  {
    ts == [] ||
    (var last := ts[|ts| - 1];
     ListOwnedOnce(ts[..|ts| - 1]) && OwnedOnce(last) && Own(last) !! OwnList(ts[..|ts| - 1]))
  }

  lemma {:induction false} OwnPrefix(ts: seq<Tree>, i: nat)
    requires i < |ts|
    ensures OwnList(ts[..i + 1]) == OwnList(ts[..i]) + Own(ts[i]) && OwnList(ts[..i + 1]) <= OwnList(ts)
    ensures ListOwnedOnce(ts) ==> OwnedOnce(ts[i]) && Own(ts[i]) !! OwnList(ts[..i])
    decreases ts
  {
    hide Own, OwnedOnce;
    var n := |ts| - 1;
    assert ts[..i + 1][..i] == ts[..i];
    if i == n {
      assert ts[..i + 1] == ts;
    } else {
      OwnPrefix(ts[..n], i);
      assert ts[..n][..i + 1] == ts[..i + 1] && ts[..n][..i] == ts[..i];
    }
  }

  /** What is owned is reached, and reached once only; without references and constant keys all
      that is reached is owned. */
  lemma {:induction false} OwnWhole(t: Tree)
    ensures Own(t) <= Whole(t)
    ensures OwnsAll(t) ==> Own(t) == Whole(t)
    ensures Separate(t) ==> OwnedOnce(t)
    decreases t, 0
  {
    OwnObjs(t.kids);
  }

  lemma {:induction false} OwnObjs(ts: seq<Tree>)
    ensures OwnList(ts) <= Objs(ts)
    ensures AllOwned(ts) ==> OwnList(ts) == Objs(ts)
    ensures AllSeparate(ts) ==> ListOwnedOnce(ts)
    decreases ts, 1
  {
    if ts != [] {
      hide Own, OwnedOnce, Separate, Deep;
      var init := ts[..|ts| - 1];
      assert forall i :: 0 <= i < |init| ==> init[i] == ts[i];
      OwnObjs(init);
      OwnWhole(ts[|ts| - 1]);
    }
  }

  lemma {:induction false} OwnNothing()
    ensures OwnList([]) == {}
  {
  }

  /** What is left of a tree when it has been deleted: the constant keys that are met, and what the
      references that are met refer to. */
  ghost function Left(t: Tree): set<object>
    decreases t, 0
  {
    (if t.ownsKey then {} else Opt(t.key)) + if t.owns then LeftOf(t.kids) else Opt(t.vs) + Objs(t.kids)
  }

  ghost function LeftOf(ts: seq<Tree>): set<object>
    decreases ts, 1
  {
    if ts == [] then {} else LeftOf(ts[..|ts| - 1]) + Left(ts[|ts| - 1])
  }

  /** Nothing else is left, and nothing of it is freed. */
  lemma {:induction false} OwnAndLeft(t: Tree)
    ensures Whole(t) == Own(t) + Left(t) && (Separate(t) ==> Own(t) !! Left(t))
    decreases t, 0
  {
    hide OwnList, LeftOf, Nodes, Below;
    OwnAndLeftOf(t.kids);
  }

  lemma {:induction false} OwnAndLeftOf(ts: seq<Tree>)
    ensures Objs(ts) == OwnList(ts) + LeftOf(ts) && (AllSeparate(ts) ==> OwnList(ts) !! LeftOf(ts))
    decreases ts, 1
  {
    if ts != [] {
      hide Own, Left, Separate, Deep, Nodes, Below, AllSeparate, OwnList, LeftOf, Objs, Whole;
      var init, last := ts[..|ts| - 1], ts[|ts| - 1];
      OwnAndLeftOf(init);
      OwnAndLeft(last);
      OwnSnoc(ts);
      if AllSeparate(ts) {
        LastApart(ts);
        Apart(Objs(init), OwnList(init), LeftOf(init), Whole(last), Own(last), Left(last));
      }
    }
  }

  lemma {:induction false} OwnSnoc(ts: seq<Tree>)
    requires ts != []
    ensures Objs(ts) == Objs(ts[..|ts| - 1]) + Whole(ts[|ts| - 1])
    ensures LeftOf(ts) == LeftOf(ts[..|ts| - 1]) + Left(ts[|ts| - 1])
    ensures OwnList(ts) == OwnList(ts[..|ts| - 1]) + Own(ts[|ts| - 1])
  {
    hide Own, Left, Deep, Nodes, Below;
    NodesSnoc(ts);
  }

  lemma LastApart(ts: seq<Tree>)
    requires ts != [] && AllSeparate(ts)
    ensures AllSeparate(ts[..|ts| - 1]) && Separate(ts[|ts| - 1]) && Objs(ts[..|ts| - 1]) !! Whole(ts[|ts| - 1])
  {
    hide Deep, Nodes, Below, Separate;
    SeparateSnoc(ts);
  }

  lemma Apart(a: set<object>, own: set<object>, left: set<object>, b: set<object>, own': set<object>,
              left': set<object>)
    requires a == own + left && b == own' + left' && a !! b && own !! left && own' !! left'
    ensures own + own' !! left + left'
  {
  }

  /** Frees the list of trees that starts at c, each block once. */
  method Delete(m: Memory, c: Node?, ghost ts: seq<Tree>)
    requires Links(c, ts, null) && Shapes(ts)
    requires ListOwnedOnce(ts) && OwnList(ts) <= m.live
    modifies m
    ensures m.live == old(m.live) - OwnList(ts) && m.failed == old(m.failed)
    decreases ts
  {
    hide Own, OwnedOnce, Shape, OwnList, ListOwnedOnce, Nodes, Below, Deep;
    var cur := c;
    ghost var i := 0;
    NoMemory(ts, m);
    Allocated(ts);
    assert OwnList([]) == {} by { OwnNothing(); }
    assert ts[..0] == [];
    while cur != null
      invariant 0 <= i <= |ts| && cur == (if i < |ts| then ts[i].node else null)
      invariant m.live == old(m.live) - OwnList(ts[..i]) && m.failed == old(m.failed)
      invariant Links(c, ts, null) && Shapes(ts)
      decreases |ts| - i
    {
      var next := cur.next;
      OwnPrefix(ts, i);
      DeleteOne(m, cur, ts[i]);
      i := i + 1;
      cur := next;
    }
    assert ts[..i] == ts;
  }

  method DeleteOne(m: Memory, cur: Node, ghost t: Tree)
    requires t.node == cur && Shape(t) && OwnedOnce(t) && Own(t) <= m.live
    modifies m
    ensures m.live == old(m.live) - Own(t) && m.failed == old(m.failed)
    decreases t, 1
  {
    if !cur.isReference && cur.child != null {
      Delete(m, cur.child, t.kids);
    }
    if !cur.isReference && cur.valuestring != null {
      m.Free(cur.valuestring);
    }
    if !cur.stringIsConst && cur.key != null {
      m.Free(cur.key);
    }
    m.Free(cur);
  }

  /** cJSON_ParseWithOpts. Whatever allocation fails and however broken the text is, a failure
      leaves nothing allocated; a success leaves exactly what the returned root reaches. */
  method ParseWithOpts(m: Memory, value: Str, require_null_terminated: bool)
    returns (c: Node?, end: Str, ghost tree: Option<Tree>)
    modifies m
    ensures c == null ==> m.live == old(m.live)
    ensures c != null ==> tree.Some? && tree.value.node == c && c.next == null && c.prev == null && c.key == null
    ensures c != null ==> Shape(tree.value) && Separate(tree.value) && OwnsAll(tree.value) && Finished(tree.value)
    ensures c != null ==> fresh(Whole(tree.value)) && m.live == old(m.live) + Whole(tree.value)
    ensures c != null ==> var r := P.ParseValue(P.Skip(value));
      r.Done? && r.v == Den(tree.value) && end == if require_null_terminated then P.Skip(r.rest) else r.rest
    ensures c != null && require_null_terminated ==> P.ParseText(value) == Some(Den(tree.value)) && end == Nul
    ensures c == null && !m.failed ==>
      if require_null_terminated then P.ParseText(value) == None else P.ParseValue(P.Skip(value)).Fail?
  {
    hide Separate, OwnsAll, Deep, Own, Shape, Finished, Den, P.ParseValue;
    end, tree := value, None;
    c := m.NewNode();
    if c == null {
      return;
    }
    var r;
    ghost var t;
    r, t := ParseValue(m, c, P.Skip(value));
    if r.None? {
      Discard(m, c, t);
      c := null;
      return;
    }
    end := r.value;
    if require_null_terminated {
      end := P.Skip(end);
      if end.Ch? {
        Discard(m, c, t);
        c := null;
        return;
      }
    }
    tree := Some(t);
  }

  method Discard(m: Memory, c: Node, ghost t: Tree)
    requires t.node == c && Shape(t) && Separate(t) && OwnsAll(t) && c.next == null && c.prev == null
    requires Whole(t) <= m.live
    modifies m
    ensures m.live == old(m.live) - Whole(t) && m.failed == old(m.failed)
  {
    hide Shape, Separate, OwnsAll, Deep, Own, OwnedOnce;
    OwnWhole(t);
    assert [t][..0] == [];
    Delete(m, c, [t]);
  }
}
