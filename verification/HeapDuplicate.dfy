/** cJSON_Duplicate. */
module HeapDuplicate {
  import opened CString
  import opened Buffer
  import opened Json
  import opened Sequences
  import opened Heap
  import opened HeapDelete
  import opened HeapKeys
  import opened HeapLists
  import opened HeapOps
  import opened HeapStrings
  import opened HeapViews
  import HeapParser

  /** What a duplicate of t stands for. */
  ghost function Duplicated(t: Tree, recurse: bool): Tree {
    if recurse then t else t.(kids := [])
  }

  /** d is a complete tree of its own at n, which is in no list and a reference to nothing. */
  ghost predicate Copy(n: Node, d: Tree)
    reads n, d.node, Deep(d)
  {
    d.node == n && Shape(d) && Separate(d) && d.owns && n.next == null && n.prev == null
  }

  /** Copies of kids, hanging on head. */
  ghost predicate Chain(head: Node?, kids: seq<Tree>)
    reads Nodes(kids), Below(kids)
  {
    Links(head, kids, null) && AllSeparate(kids) && Shapes(kids)
  }

  /** The arrays are copies of the constant keys of the first n nodes of a tree, in preorder, and no two of
      them are the same. */
  ghost predicate Kept(arrays: seq<array<byte>>, list: seq<seq<Str>>, n: nat)
    reads arrays
  {
    n < |list| && NoRepeats(arrays) && HoldTexts(arrays, Concat(list[..n]))
  }

  /** A duplicate has the flags of the original, also that of a constant key, although it owns its copy
      of the key. Deleting the duplicate leaves those copies behind: they are Whole(copy) - Own(copy). A
      failure deletes what has been made of the duplicate and leaves them behind, too: n is the number of
      nodes that had been copied, in preorder, and kept are the copies of their constant keys. */
  method Duplicate(m: Memory, item: Node, recurse: bool, ghost t: Tree)
    returns (newitem: Node?, ghost copy: Option<Tree>, ghost kept: seq<array<byte>>, ghost n: nat)
    requires t.node == item && Shape(t) && Finished(t)
    modifies m
    ensures newitem == null ==> m.failed && fresh(kept) && m.live == old(m.live) + Elems(kept)
    ensures newitem == null ==> Kept(kept, KeyLists(Duplicated(t, recurse)), n)
    ensures newitem == null ==>
      (kept == [] <==> forall i :: 0 <= i < n ==> KeyLists(Duplicated(t, recurse))[i] == [])
    ensures newitem == null && NoConstantKey(t) ==> kept == []
    ensures newitem == null && (!recurse || t.kids == []) ==> kept == []
    ensures newitem != null ==> copy.Some? && Copy(newitem, copy.value) && Finished(copy.value)
    ensures newitem != null ==> fresh(newitem) && fresh(Whole(copy.value))
    ensures newitem != null ==> m.live == old(m.live) + Whole(copy.value) && m.failed == old(m.failed)
    ensures newitem != null ==> DenMember(copy.value) == DenMember(Duplicated(t, recurse))
    ensures newitem != null ==> Mirrors(copy.value, Duplicated(t, recurse))
    ensures newitem != null ==> KeysHold(copy.value, Concat(KeyLists(Duplicated(t, recurse))))
    ensures newitem != null ==> (Own(copy.value) == Whole(copy.value) <==> NoConstantKey(Duplicated(t, recurse)))
    ensures newitem != null && KeysOwned(t) ==> OwnsAll(copy.value)
    decreases t, 4
  {
    hide Shape, Finished, Separate, OwnsAll, Deep, Den, DenMember, Own, TextOf, IsText, Nodes, Below, Opt, Links;
    hide KeysOwned, NoConstantKey, Mirrors, KeyLists, KidLists, RootText, ConstantKeys, Kept, KeysHold, OwnsValues;
    hide Concat, Elems, Copy, Plain;
    DeepAllocated(t);
    NoMemoryBelow(t, m);
    ghost var d := t;
    copy, kept, n := None, [], 0;
    newitem, d := CopyNode(m, item, t);
    if newitem == null {
      NothingKept(t, recurse);
      return;
    }
    if recurse {
      var ok;
      ok, d, kept, n := CopyBelow(m, item, newitem, t, d);
      if !ok {
        newitem := null;
        assert fresh(kept) by { assert forall i :: 0 <= i < |kept| ==> kept[i] in kept; }
        return;
      }
    } else {
      Single(d, t);
    }
    copy := Some(d);
    Duplicates(newitem, d, t, recurse);
  }

  /** The part about the children. When it fails, the copy of a constant key of the root is lost. */
  method CopyBelow(m: Memory, item: Node, newitem: Node, ghost t: Tree, ghost d0: Tree)
    returns (ok: bool, ghost d: Tree, ghost kept: seq<array<byte>>, ghost n: nat)
    requires t.node == item && Shape(t) && Finished(t)
    requires Copy(newitem, d0) && Finished(d0) && d0.kids == [] && d0.owns && d0.ownsKey == t.ownsKey
    requires newitem.kind == item.kind && newitem.valuedouble == item.valuedouble
    requires TextOf(d0.vs) == TextOf(t.vs) && TextOf(d0.key) == TextOf(t.key) && (d0.key == null <==> t.key == null)
    requires Whole(d0) <= m.live && Whole(d0) !! Whole(t) && newitem !in Whole(t)
    modifies m, newitem`child
    ensures !ok ==> m.failed && m.live == old(m.live) - Whole(d0) + Elems(kept)
    ensures !ok ==> (forall a :: a in kept ==> a in Whole(d0) || fresh(a)) && Kept(kept, KeyLists(t), n)
    ensures !ok ==> (kept == [] <==> forall i :: 0 <= i < n ==> KeyLists(t)[i] == [])
    ensures !ok && (NoConstantKey(t) || t.kids == []) ==> kept == []
    ensures !ok && !t.ownsKey && t.key != null ==> kept != []
    ensures ok ==> Copy(newitem, d) && Finished(d) && Whole(d) == Whole(d0) + Objs(d.kids) && fresh(Objs(d.kids))
    ensures ok ==> kept == [] && m.live == old(m.live) + Objs(d.kids) && m.failed == old(m.failed)
    ensures ok ==> DenMember(d) == DenMember(t) && Mirrors(d, t) && KeysHold(d, Concat(KeyLists(t)))
    decreases t, 3
  {
    hide Shape, Finished, Separate, OwnsAll, Deep, Den, DenMember, Own, TextOf, IsText, Nodes, Below, Opt, Links;
    hide KeysOwned, NoConstantKey, Mirrors, KeyLists, KidLists, RootText, ConstantKeys, Kept, KeysHold, OwnsValues;
    hide Concat, Elems, Copy, Objs;
    KeyInside(t);
    DeepAllocated(t);
    NoMemoryBelow(t, m);
    ghost var root, lists := RootText(t), KidLists(t.kids);
    ok, d, kept, n := CopyChildren(m, item, newitem, t, d0, lists);
    InElems(kept);
    if ok {
      HeldAll(d, t);
    } else {
      kept, n := DropPart(m, newitem, d, kept, root, lists, n);
      KeptAll(t, kept, n);
      InElems(kept);
    }
  }

  lemma KeyInside(t: Tree)
    ensures Opt(t.key) <= Deep(t)
  {
    hide Nodes, Below;
  }

  lemma {:induction false} NothingKept(t: Tree, recurse: bool)
    ensures Kept([], KeyLists(Duplicated(t, recurse)), 0) && Elems<array<byte>>([]) == {}
  {
    hide KeyLists;
  }

  lemma {:induction false} KeptAll(t: Tree, kept: seq<array<byte>>, n: nat)
    requires Kept(kept, [RootText(t)] + Concat(KidLists(t.kids)), n)
    ensures Duplicated(t, true) == t && Kept(kept, KeyLists(Duplicated(t, true)), n)
    ensures kept == [] <==> forall i :: 0 <= i < n ==> KeyLists(Duplicated(t, true))[i] == []
    ensures NoConstantKey(t) || t.kids == [] ==> kept == []
    ensures n > 0 && !t.ownsKey && t.key != null ==> kept != []
  {
    hide Concat, RootText, NoConstantKey, KidLists;
    FirstKeys(t, n);
    if n > 0 && !t.ownsKey && t.key != null { RootKeyFirst(t); }
    if NoConstantKey(t) { NoFirstKeys(t, n); }
    if t.kids == [] {
      assert KidLists(t.kids) == [];
      assert n == 0 by { assert Concat<seq<Str>>([]) == [] by { ConcatNone<seq<Str>>(); } }
      ConcatNone<Str>();
    }
  }

  lemma {:induction false} RootKeyFirst(t: Tree)
    requires !t.ownsKey && t.key != null
    ensures KeyLists(t)[0] != []
  {
  }

  lemma {:induction false} HeldAll(d: Tree, t: Tree)
    requires KeysHold(d, RootText(t) + Concat(Concat(KidLists(t.kids))))
    ensures Duplicated(t, true) == t && KeysHold(d, Concat(KeyLists(t)))
  {
    hide Concat, RootText, KidLists, KeysHold;
    ConcatAppend([RootText(t)], Concat(KidLists(t.kids)));
    ConcatOne(RootText(t));
  }

  lemma {:induction false} Duplicates(n: Node, d: Tree, t: Tree, recurse: bool)
    requires Copy(n, d) && Mirrors(d, Duplicated(t, recurse))
    ensures Own(d) == Whole(d) <==> NoConstantKey(Duplicated(t, recurse))
    ensures KeysOwned(t) ==> OwnsAll(d)
  {
    hide Own, Whole, Shape, Separate, NoConstantKey, OwnsAll;
    DeletingCopy(d, Duplicated(t, recurse));
    MirrorOwns(d, Duplicated(t, recurse));
  }

  /** Deleting an unfinished copy leaves its constant keys. */
  method DropPart(m: Memory, c: Node, ghost d: Tree, ghost kept0: seq<array<byte>>, ghost root: seq<Str>,
                  ghost lists: seq<seq<seq<Str>>>, ghost n0: nat)
    returns (ghost kept: seq<array<byte>>, ghost n: nat)
    requires Copy(c, d) && OwnsValues(d) && Whole(d) + Elems(kept0) <= m.live && Elems(kept0) !! Whole(d)
    requires |d.kids| < |lists| && KeysHold(d, root + Concat(Concat(lists[..|d.kids|])))
    requires Kept(kept0, lists[|d.kids|], n0)
    modifies m
    ensures kept == ConstantKeys(d) + kept0 && Kept(kept, [root] + Concat(lists), n) && n > 0
    ensures Elems(kept) == Elems(ConstantKeys(d)) + Elems(kept0) && Elems(ConstantKeys(d)) <= Whole(d)
    ensures m.live == old(m.live) - Whole(d) + Elems(kept) && m.failed == old(m.failed)
  {
    hide Shape, Finished, Separate, OwnsAll, Deep, Den, DenMember, Own, TextOf, IsText, Nodes, Below;
    hide KeysOwned, NoConstantKey, Mirrors, ConstantKeys, Kept, KeysHold, OwnsValues, Concat, Elems;
    kept, n := ConstantKeys(d) + kept0, 1 + |Concat(lists[..|d.kids|])| + n0;
    KeptKeys(c, d);
    ElemsAppend(ConstantKeys(d), kept0);
    KeptMore(c, d, kept0, root, lists, n0);
    KeptArrays(kept, m);
    Drop(m, c, d);
  }

  lemma {:induction false} KeptKeys(c: Node, d: Tree)
    requires Copy(c, d) && OwnsValues(d)
    ensures Whole(d) == Own(d) + Elems(ConstantKeys(d)) && Own(d) !! Elems(ConstantKeys(d))
  {
    hide Own, Whole, Shape, Separate, OwnsValues, ConstantKeys, Elems;
    OwnAndKeys(d);
    OwnNoKeys(d);
  }

  /** The keys of a part of a copy, and what was kept of the child that could not be copied. */
  lemma {:induction false} KeptMore(c: Node, d: Tree, kept0: seq<array<byte>>, root: seq<Str>,
                                    lists: seq<seq<seq<Str>>>, n0: nat)
    requires Copy(c, d) && Elems(kept0) !! Whole(d)
    requires |d.kids| < |lists| && KeysHold(d, root + Concat(Concat(lists[..|d.kids|])))
    requires Kept(kept0, lists[|d.kids|], n0)
    ensures Kept(ConstantKeys(d) + kept0, [root] + Concat(lists), 1 + |Concat(lists[..|d.kids|])| + n0)
  {
    hide Shape, Separate, Deep, ConstantKeys, Elems, Concat, HoldTexts, NoRepeats;
    var k, keys := |d.kids|, ConstantKeys(d);
    var a, b := Concat(lists[..k]), lists[k][..n0];
    KeysOnce(d);
    KeysBelow(d);
    NoRepeatsAppend(keys, kept0);
    HoldMore(keys, root + Concat(a), kept0, Concat(b));
    ConcatPrefix(lists, k, n0);
    assert ([root] + Concat(lists))[..1 + |a| + n0] == [root] + (a + b);
    ConcatAppend([root], a + b);
    ConcatAppend(a, b);
    ConcatOne(root);
    assert root + Concat(a) + Concat(b) == root + (Concat(a) + Concat(b));
  }

  lemma {:induction false} Single(d: Tree, t: Tree)
    requires d.kids == [] && d.node.kind == t.node.kind && d.node.valuedouble == t.node.valuedouble
    requires TextOf(d.vs) == TextOf(t.vs) && TextOf(d.key) == TextOf(t.key) && Finished(d)
    requires d.owns && d.ownsKey == t.ownsKey && (d.key == null <==> t.key == null)
    ensures DenMember(d) == DenMember(Duplicated(t, false))
    ensures Mirrors(d, Duplicated(t, false)) && KeysHold(d, Concat(KeyLists(Duplicated(t, false))))
  {
    KeyHeld(d, t);
    ConcatNone<seq<Str>>();
    ConcatOne(RootText(t));
    assert KeyLists(Duplicated(t, false)) == [RootText(t)];
  }

  /** The key of a copied node. */
  lemma {:induction false} KeyHeld(d: Tree, t: Tree)
    requires d.kids == [] && TextOf(d.key) == TextOf(t.key) && IsText(d.key)
    requires d.ownsKey == t.ownsKey && (d.key == null <==> t.key == null)
    ensures KeysHold(d, RootText(t))
  {
  }

  // ---- one node ----

  /** A node without children. */
  ghost predicate Plain(n: Node, d: Tree)
    reads n
  {
    && d == Tree(n, n.valuestring, n.key, true, !n.stringIsConst, []) && !n.isReference
    && n.child == null && n.next == null && n.prev == null && Opt(d.vs) !! Opt(d.key)
  }

  lemma {:induction false} PlainCopy(n: Node, d: Tree)
    requires Plain(n, d)
    ensures d.kids == [] && Copy(n, d) && Whole(d) == {n} + Opt(d.vs) + Opt(d.key)
    ensures n.kind != Invalid && IsText(d.vs) && IsText(d.key) ==> Finished(d)
    ensures d.key == null ==> Own(d) == Whole(d)
  {
    OwnNothing();
  }

  lemma {:induction false} Strings(item: Node, t: Tree)
    requires t.node == item && Shape(t) && Finished(t)
    ensures item.valuestring == t.vs && item.key == t.key && item.stringIsConst == !t.ownsKey
    ensures item.kind != Invalid && IsText(t.vs) && IsText(t.key)
  {
  }

  /** The part before the children. */
  method CopyNode(m: Memory, item: Node, ghost t: Tree) returns (newitem: Node?, ghost d: Tree)
    requires t.node == item && Shape(t) && Finished(t)
    modifies m
    ensures newitem == null ==> m.failed && m.live == old(m.live)
    ensures newitem != null ==> Copy(newitem, d) && Finished(d) && d.kids == [] && d.owns && d.ownsKey == t.ownsKey
    ensures newitem != null ==>
      d.node == newitem && newitem.kind == item.kind && newitem.valuedouble == item.valuedouble
    ensures newitem != null ==> TextOf(d.vs) == TextOf(t.vs) && TextOf(d.key) == TextOf(t.key)
    ensures newitem != null ==> (d.key == null <==> t.key == null)
    ensures newitem != null ==> fresh(newitem) && fresh(Whole(d))
    ensures newitem != null ==> m.live == old(m.live) + Whole(d) && m.failed == old(m.failed)
  {
    hide Shape, Finished, Deep, Whole, Copy, Separate, Nodes, Below, Plain, TextOf, IsText;
    Strings(item, t);
    newitem, d := CopyValue(m, item, t);
    if newitem != null {
      var ok;
      ok, d := CopyKey(m, item, newitem, t, d);
      if ok {
        PlainCopy(newitem, d);
        IsPlain(newitem, d);
      } else {
        newitem := null;
      }
    }
  }

  lemma {:induction false} IsPlain(n: Node, d: Tree)
    requires Plain(n, d)
    ensures d.node == n && d.owns
  {
  }

  method CopyValue(m: Memory, item: Node, ghost t: Tree) returns (newitem: Node?, ghost d: Tree)
    requires item.valuestring == t.vs && IsText(t.vs) && item.stringIsConst == !t.ownsKey
    modifies m
    ensures newitem == null ==> m.failed && m.live == old(m.live)
    ensures newitem != null ==> fresh(newitem) && Plain(newitem, d) && d.key == null && d.ownsKey == t.ownsKey
    ensures newitem != null ==> newitem.kind == item.kind && newitem.valuedouble == item.valuedouble
    ensures newitem != null ==> fresh(Opt(d.vs)) && TextOf(d.vs) == TextOf(t.vs) && IsText(d.vs)
    ensures newitem != null ==> m.live == old(m.live) + {newitem} + Opt(d.vs) && m.failed == old(m.failed)
  {
    hide Deep, Whole, Copy, Separate;
    d := t;
    newitem := m.NewNode();
    if newitem == null {
      return;
    }
    newitem.kind, newitem.stringIsConst, newitem.valuedouble := item.kind, item.stringIsConst, item.valuedouble;
    d := Tree(newitem, null, null, true, t.ownsKey, []);
    if item.valuestring != null {
      newitem.valuestring := StrDupFrom(m, item.valuestring);
      if newitem.valuestring == null {
        PlainCopy(newitem, d);
        Drop(m, newitem, d);
        newitem := null;
        return;
      }
      d := d.(vs := newitem.valuestring);
    }
  }

  method CopyKey(m: Memory, item: Node, newitem: Node, ghost t: Tree, ghost d0: Tree) returns (ok: bool, ghost d: Tree)
    requires item.key == t.key && IsText(t.key)
    requires Plain(newitem, d0) && d0.key == null && {newitem} + Opt(d0.vs) <= m.live
    modifies m, newitem`key
    ensures !ok ==> m.failed && m.live == old(m.live) - {newitem} - Opt(d0.vs)
    ensures ok ==> d == d0.(key := d.key) && Plain(newitem, d)
    ensures ok ==>
      fresh(Opt(d.key)) && TextOf(d.key) == TextOf(t.key) && IsText(d.key) && (d.key == null <==> t.key == null)
    ensures ok ==> m.live == old(m.live) + Opt(d.key) && m.failed == old(m.failed)
  {
    hide Deep, Whole, Copy, Separate;
    ok, d := true, d0;
    if item.key != null {
      newitem.key := StrDupFrom(m, item.key);
      if newitem.key == null {
        PlainCopy(newitem, d0);
        Drop(m, newitem, d0);
        ok := false;
        return;
      }
      d := d0.(key := newitem.key);
    }
  }

  // ---- the children ----

  /** The loop over the children; without ok it stopped at one that could not be copied. */
  method CopyChildren(m: Memory, item: Node, newitem: Node, ghost t: Tree, ghost d0: Tree,
                      ghost lists: seq<seq<seq<Str>>>)
    returns (ok: bool, ghost d: Tree, ghost kept: seq<array<byte>>, ghost n: nat)
    requires t.node == item && Shape(t) && Finished(t) && lists == KidLists(t.kids)
    requires Copy(newitem, d0) && Finished(d0) && d0.kids == [] && d0.owns && d0.ownsKey == t.ownsKey
    requires newitem.kind == item.kind && newitem.valuedouble == item.valuedouble
    requires TextOf(d0.vs) == TextOf(t.vs) && TextOf(d0.key) == TextOf(t.key) && (d0.key == null <==> t.key == null)
    requires Whole(d0) <= m.live && Whole(d0) !! Whole(t)
    modifies m, newitem`child
    ensures Copy(newitem, d) && OwnsValues(d)
    ensures |d.kids| <= |lists| && KeysHold(d, RootText(t) + Concat(Concat(lists[..|d.kids|])))
    ensures Whole(d) == Whole(d0) + Objs(d.kids) && fresh(Objs(d.kids))
    ensures m.live == old(m.live) + Objs(d.kids) + Elems(kept) && fresh(kept) && Elems(kept) !! Whole(d)
    ensures ok ==> kept == [] && m.failed == old(m.failed) && lists[..|d.kids|] == lists
    ensures ok ==> Finished(d) && DenMember(d) == DenMember(t) && Mirrors(d, t)
    ensures !ok ==> m.failed && |d.kids| < |lists| && Kept(kept, lists[|d.kids|], n)
    decreases t, 2
  {
    hide Shape, Finished, Separate, OwnsAll, Deep, Den, DenMember, Own, TextOf, IsText, Nodes, Below, Chain;
    hide AllFinished, DenElems, DenMembers;
    hide KeysOwned, NoConstantKey, Mirrors, RootText, KidLists, ConstantKeys, HoldTexts, KeysHold, OwnsValues;
    hide Copied, Kept, MirrorsAll, AllKeysHold, AllOwnValues, Concat, Elems, Opt, Objs, Links, Copy, DenElems;
    Started(newitem, d0);
    Children(item, t);
    NoMemoryBelow(t, m);
    NoMemoryBelow(d0, m);
    KeyInside(t);
    KeyHeld(d0, t);
    ghost var kids;
    ok, kids, kept, n := CopyLoop(m, item, newitem, t, lists);
    d := d0.(kids := kids);
    IsCopied(newitem, kids, t.kids, DenMembers(t.kids), lists);
    Completed(newitem, d0, t, kids, RootText(t), Concat(Concat(lists[..|kids|])));
    InElems(kept);
    if ok {
      SameDen(d, t);
    }
  }

  /** kids, hanging below newitem, are copies of the first of ts, which denote ms. */
  ghost predicate Copied(newitem: Node, kids: seq<Tree>, ts: seq<Tree>, ms: seq<Member>, lists: seq<seq<seq<Str>>>)
    reads newitem, Nodes(kids), Below(kids)
  {
    && Chain(newitem.child, kids) && newitem !in Objs(kids) && AllFinished(kids)
    && |kids| <= |ms| == |ts| && DenMembers(kids) == ms[..|kids|]
    && MirrorsAll(kids, ts[..|kids|]) && |lists| == |ts| && AllKeysHold(kids, Concat(Concat(lists[..|kids|])))
  }

  lemma {:induction false} IsCopied(newitem: Node, kids: seq<Tree>, ts: seq<Tree>, ms: seq<Member>,
                                    lists: seq<seq<seq<Str>>>)
    requires Copied(newitem, kids, ts, ms, lists)
    ensures Chain(newitem.child, kids) && newitem !in Objs(kids) && AllFinished(kids)
    ensures |kids| <= |lists| == |ts| && AllKeysHold(kids, Concat(Concat(lists[..|kids|])))
    ensures |kids| <= |ms| == |ts| && DenMembers(kids) == ms[..|kids|] && MirrorsAll(kids, ts[..|kids|])
    ensures AllOwnValues(kids) && Nodes(kids) <= Objs(kids)
    ensures |kids| == |ts| ==> DenMembers(kids) == ms && MirrorsAll(kids, ts) && lists[..|kids|] == lists
  {
    hide Chain, AllFinished, AllKeysHold, Concat, DenMembers, MirrorsAll, Nodes, Below, AllOwnValues;
    MirrorsOwn(kids, ts[..|kids|]);
    if |kids| == |ts| { assert ts[..|kids|] == ts && ms[..|kids|] == ms; }
  }

  /** The original while its children are copied. */
  ghost predicate Original(t: Tree, ms: seq<Member>, lists: seq<seq<seq<Str>>>)
    reads t.node, Deep(t)
  {
    Intact(t, ms) && KidLists(t.kids) == lists
  }

  lemma {:induction false} IsOriginal(t: Tree, ms: seq<Member>, lists: seq<seq<seq<Str>>>)
    requires Original(t, ms, lists)
    ensures Shape(t) && Finished(t) && DenMembers(t.kids) == ms && KidLists(t.kids) == lists
  {
    hide Intact, KidLists;
    IntactMembers(t, ms);
  }

  method CopyLoop(m: Memory, item: Node, newitem: Node, ghost t: Tree, ghost lists: seq<seq<seq<Str>>>)
    returns (ok: bool, ghost kids: seq<Tree>, ghost kept: seq<array<byte>>, ghost n: nat)
    requires t.node == item && Shape(t) && Finished(t) && lists == KidLists(t.kids)
    requires newitem !in Whole(t) && newitem.child == null
    modifies m, newitem`child
    ensures Copied(newitem, kids, t.kids, DenMembers(t.kids), lists) && fresh(Objs(kids))
    ensures m.live == old(m.live) + Objs(kids) + Elems(kept) && fresh(kept) && Elems(kept) !! Objs(kids)
    ensures ok ==> kept == [] && m.failed == old(m.failed) && |kids| == |t.kids|
    ensures !ok ==> m.failed && |kids| < |t.kids| == |lists| && Kept(kept, lists[|kids|], n)
    ensures Original(t, old(DenMembers(t.kids)), lists)
    decreases t, 1
  {
    hide Shape, Finished, Separate, OwnsAll, Deep, Den, DenMember, Own, TextOf, IsText, Nodes, Below, Objs;
    hide DenMembers, Intact, Original, Copied, KidLists, Kept, Elems, Concat, HoldTexts, NoRepeats, Whole;
    hide Chain, AllFinished, MirrorsAll, AllKeysHold, DenElems, KeyLists, Opt, Links;
    assert allocated(Whole(t)) by { DeepAllocated(t); }
    ghost var ms := DenMembers(t.kids);
    Children(item, t);
    StartCopying(t, newitem, lists);
    kids, kept, n := [], [], 0;
    ElemsEmpty(kept);
    var cptr, nptr := item.child, null;
    while cptr != null
      invariant |kids| <= |t.kids| && cptr == (if |kids| < |t.kids| then t.kids[|kids|].node else null)
      invariant nptr == if kids == [] then null else kids[|kids| - 1].node
      invariant Copied(newitem, kids, t.kids, ms, lists) && Original(t, ms, lists) && fresh(Objs(kids))
      invariant m.live == old(m.live) + Objs(kids) && m.failed == old(m.failed) && kept == []
      decreases |t.kids| - |kids|
    {
      var newchild;
      ghost var added;
      NodesAreObjs(kids);
      newchild, kids, added, kept, n := CopyNext(m, item, cptr, newitem, nptr, kids, t, ms, lists);
      if newchild == null {
        IsOriginal(t, ms, lists);
        return false, kids, kept, n;
      }
      nptr, cptr := newchild, cptr.next;
    }
    IsOriginal(t, ms, lists);
    ok := true;
  }

  lemma {:induction false} StartCopying(t: Tree, newitem: Node, lists: seq<seq<seq<Str>>>)
    requires Shape(t) && Finished(t) && newitem.child == null && lists == KidLists(t.kids)
    ensures Original(t, DenMembers(t.kids), lists)
    ensures Copied(newitem, [], t.kids, DenMembers(t.kids), lists) && Objs([]) == {}
  {
    hide Shape, Finished, Intact, KidLists, Deep, Below, Nodes, Concat, Chain, AllKeysHold, DenMembers, AllFinished;
    IsIntact(t);
    NoCopies();
    assert t.kids[..0] == [] && lists[..0] == [];
  }

  lemma {:induction false} NoCopies()
    ensures Chain(null, []) && AllFinished([]) && DenMembers([]) == [] && Objs([]) == {}
    ensures AllKeysHold([], Concat(Concat<seq<Str>>([])))
  {
    ConcatNone<seq<Str>>();
    ConcatNone<Str>();
  }

  method CopyNext(m: Memory, ghost item: Node, cptr: Node, newitem: Node, nptr: Node?, ghost kids: seq<Tree>,
                  ghost t: Tree, ghost ms: seq<Member>, ghost lists: seq<seq<seq<Str>>>)
    returns (newchild: Node?, ghost kids': seq<Tree>, ghost added: set<object>, ghost kept: seq<array<byte>>,
             ghost n: nat)
    requires t.node == item && |kids| < |t.kids| && cptr == t.kids[|kids|].node
    requires nptr == if kids == [] then null else kids[|kids| - 1].node
    requires Copied(newitem, kids, t.kids, ms, lists) && Original(t, ms, lists) && {newitem} + Objs(kids) !! Whole(t)
    modifies m, newitem`child, Nodes(kids)`next
    ensures Copied(newitem, kids', t.kids, ms, lists) && Original(t, ms, lists)
    ensures newchild == null ==> m.failed && kids' == kids && m.live == old(m.live) + Elems(kept)
    ensures newchild == null ==> fresh(kept) && Elems(kept) !! Objs(kids)
    ensures newchild == null ==> |lists| == |t.kids| && Kept(kept, lists[|kids|], n)
    ensures newchild != null ==> |kids'| == |kids| + 1 && kids'[|kids|].node == newchild
    ensures newchild != null ==> Objs(kids') == Objs(kids) + added && fresh(added)
    ensures newchild != null ==> m.live == old(m.live) + added && m.failed == old(m.failed) && kept == []
    ensures cptr.next == Behind(t.kids, |kids|, null)
    decreases t, 0, 1
  {
    hide Shape, Finished, Separate, OwnsAll, Deep, Den, DenMember, Own, TextOf, IsText, Nodes, Below, Chain;
    hide AllFinished, DenElems, DenMembers, Intact, Original, Copied;
    hide KeysOwned, NoConstantKey, Mirrors, KidLists, KeyLists, ConstantKeys, HoldTexts, KeysHold, OwnsValues;
    hide MirrorsAll, AllKeysHold, Kept, Concat, Elems;
    ghost var ts := t.kids;
    IsOriginal(t, ms, lists);
    IsIntact(t);
    IsCopied(newitem, kids, ts, ms, lists);
    ChildAt(item, t, ms, |kids|);
    NodesAreObjs(kids);
    DeepAllocated(t);
    NoMemoryBelow(t, m);
    newchild, kids', added, kept, n := CopyChild(m, cptr, newitem, nptr, kids, t, lists);
    InElems(kept);
    IsOriginal(t, ms, lists);
    IsIntact(t);
    ChildAt(item, t, ms, |kids|);
    if newchild != null { MirrorsSnoc(kids, ts, kids'[|kids|]); }
    AreCopied(newitem, kids', ts, ms, lists);
  }

  lemma {:induction false} AreCopied(newitem: Node, kids: seq<Tree>, ts: seq<Tree>, ms: seq<Member>,
                                     lists: seq<seq<seq<Str>>>)
    requires Chain(newitem.child, kids) && newitem !in Objs(kids) && AllFinished(kids)
    requires |kids| <= |lists| == |ts| && AllKeysHold(kids, Concat(Concat(lists[..|kids|])))
    requires |kids| <= |ms| == |ts| && DenMembers(kids) == ms[..|kids|] && MirrorsAll(kids, ts[..|kids|])
    ensures Copied(newitem, kids, ts, ms, lists)
  {
    hide Chain, AllFinished, AllKeysHold, Concat, DenMembers, MirrorsAll, Objs;
  }

  lemma {:induction false} NodesAreObjs(ts: seq<Tree>)
    ensures Nodes(ts) <= Objs(ts) && allocated(Nodes(ts)) && allocated(Objs(ts))
  {
    hide Nodes;
    Allocated(ts);
  }

  lemma {:induction false} Completed(newitem: Node, d0: Tree, t: Tree, kids: seq<Tree>, root: seq<Str>,
                                     texts: seq<Str>)
    requires d0.node == newitem && newitem.next == null && newitem.prev == null
    requires d0.owns && d0.ownsKey == t.ownsKey && (d0.key == null <==> t.key == null) && d0.kids == []
    requires newitem.valuestring == d0.vs && newitem.key == d0.key
    requires newitem.isReference == !d0.owns && newitem.stringIsConst == !d0.ownsKey
    requires Separate(d0) && newitem !in Objs(kids) && Opt(d0.vs) + Opt(d0.key) !! Objs(kids)
    requires Chain(newitem.child, kids) && AllOwnValues(kids) && AllKeysHold(kids, texts) && KeysHold(d0, root)
    ensures var d := d0.(kids := kids);
      && Copy(newitem, d) && Whole(d) == {newitem} + Opt(d0.vs) + Opt(d0.key) + Objs(kids)
      && OwnsValues(d) && KeysHold(d, root + texts) && (MirrorsAll(kids, t.kids) ==> Mirrors(d, t))
    ensures newitem.kind != Invalid && IsText(d0.vs) && IsText(d0.key) && AllFinished(kids) ==>
      Finished(d0.(kids := kids))
  {
    hide Links, Shapes, AllSeparate, Nodes, Below, TextOf, IsText, HoldTexts;
    NewKids(d0, kids);
    assert ConstantKeys(d0.(kids := kids)) == ConstantKeys(d0) + ConstantKeysOf(kids);
    HoldMore(ConstantKeys(d0), root, ConstantKeysOf(kids), texts);
  }

  lemma {:induction false} SameDen(d: Tree, t: Tree)
    requires d.node.kind == t.node.kind && d.node.valuedouble == t.node.valuedouble
    requires TextOf(d.vs) == TextOf(t.vs) && TextOf(d.key) == TextOf(t.key)
    requires DenMembers(d.kids) == DenMembers(t.kids)
    ensures DenMember(d) == DenMember(t)
  {
    hide Nodes, Below, DenMembers, DenElems, TextOf;
    ElemsAreValues(d.kids);
    ElemsAreValues(t.kids);
    assert DenElems(d.kids) == DenElems(t.kids);
  }

  lemma {:induction false} Started(newitem: Node, d0: Tree)
    requires Copy(newitem, d0) && Finished(d0) && d0.kids == []
    ensures d0.node == newitem && newitem.next == null && newitem.prev == null && Separate(d0)
    ensures newitem.child == null && newitem.valuestring == d0.vs && newitem.key == d0.key
    ensures newitem.isReference == !d0.owns && newitem.stringIsConst == !d0.ownsKey
    ensures newitem.kind != Invalid && IsText(d0.vs) && IsText(d0.key)
    ensures Whole(d0) == {newitem} + Opt(d0.vs) + Opt(d0.key) && newitem !in Deep(d0) && allocated(Deep(d0))
  {
  }

  method CopyChild(m: Memory, cptr: Node, newitem: Node, nptr: Node?, ghost kids: seq<Tree>, ghost t: Tree,
                   ghost lists: seq<seq<seq<Str>>>)
    returns (newchild: Node?, ghost kids': seq<Tree>, ghost added: set<object>, ghost kept: seq<array<byte>>,
             ghost n: nat)
    requires |kids| < |t.kids| && cptr == t.kids[|kids|].node
    requires Shape(t.kids[|kids|]) && Finished(t.kids[|kids|])
    requires |lists| == |t.kids| && lists[|kids|] == KeyLists(t.kids[|kids|])
    requires nptr == if kids == [] then null else kids[|kids| - 1].node
    requires Chain(newitem.child, kids) && newitem !in Objs(kids)
    requires AllKeysHold(kids, Concat(Concat(lists[..|kids|])))
    modifies m, newitem`child, Nodes(kids)`next
    ensures Chain(newitem.child, kids') && newitem !in Objs(kids')
    ensures |kids'| <= |lists| && AllKeysHold(kids', Concat(Concat(lists[..|kids'|])))
    ensures newchild == null ==> m.failed && kids' == kids && m.live == old(m.live) + Elems(kept)
    ensures newchild == null ==> fresh(kept) && Kept(kept, lists[|kids|], n)
    ensures newchild == null ==>
      DenMembers(kids) == old(DenMembers(kids)) && AllFinished(kids) == old(AllFinished(kids))
    ensures newchild != null ==>
      |kids'| == |kids| + 1 && kids' == kids + [kids'[|kids|]] && kids'[|kids|].node == newchild
    ensures newchild != null ==> Mirrors(kids'[|kids|], t.kids[|kids|])
    ensures newchild != null ==> Objs(kids') == Objs(kids) + added && fresh(added)
    ensures newchild != null ==> m.live == old(m.live) + added && m.failed == old(m.failed) && kept == []
    ensures newchild != null ==> DenMembers(kids') == old(DenMembers(kids)) + [old(DenMember(t.kids[|kids|]))]
    ensures newchild != null && old(AllFinished(kids)) ==> AllFinished(kids')
    decreases t, 0, 0
  {
    hide Shape, Finished, Separate, OwnsAll, Deep, Den, DenMember, Own, TextOf, IsText, Nodes, Below, Chain, Shapes;
    hide AllFinished, DenElems, DenMembers, AllSeparate, Opt, Links;
    hide KeysOwned, NoConstantKey, Mirrors, KeyLists, ConstantKeys, HoldTexts, KeysHold, OwnsValues;
    hide AllKeysHold, Duplicated, Kept, Concat, Elems, Objs, Copy, NoRepeats, MirrorsAll, KidLists;
    ghost var kid := t.kids[|kids|];
    NodesAreObjs(kids);
    Allocated(kids);
    NoMemory(kids, m);
    DeepAllocated(kid);
    NoMemoryBelow(kid, m);
    ghost var copy;
    newchild, copy, kept, n := Duplicate(m, cptr, true, kid);
    IsDuplicated(kid);
    kids', added := kids, {};
    if newchild != null {
      ghost var c := copy.value;
      kept, added := [], Whole(c);
      Join(newitem, nptr, newchild, kids, c, Concat(Concat(lists[..|kids|])), Concat(lists[|kids|]));
      kids' := kids + [c];
      ConcatNext(lists, |kids|);
      ConcatAppend(Concat(lists[..|kids|]), lists[|kids|]);
    }
  }

  lemma {:induction false} IsDuplicated(t: Tree)
    ensures Duplicated(t, true) == t
  {
  }

  lemma KeptArrays(kept: seq<array<byte>>, m: Memory)
    ensures allocated(kept) && forall a :: a in kept ==> a as object != m
  {
  }

  lemma InElems(kept: seq<array<byte>>)
    ensures (kept == [] ==> Elems(kept) == {}) && forall a :: a in Elems(kept) <==> a in kept
  {
  }

  /** A copied child becomes the last child of newitem. */
  method Join(newitem: Node, nptr: Node?, newchild: Node, ghost kids: seq<Tree>, ghost c: Tree, ghost texts: seq<Str>,
              ghost more: seq<Str>)
    requires Chain(newitem.child, kids) && newitem !in Objs(kids)
    requires nptr == if kids == [] then null else kids[|kids| - 1].node
    requires Copy(newchild, c) && Finished(c) && Whole(c) !! Objs(kids) + {newitem}
    requires AllKeysHold(kids, texts) && KeysHold(c, more)
    modifies newitem`child, Nodes(kids)`next, newchild`prev
    ensures Chain(newitem.child, kids + [c]) && Objs(kids + [c]) == Objs(kids) + Whole(c)
    ensures DenMembers(kids + [c]) == old(DenMembers(kids)) + [old(DenMember(c))]
    ensures old(AllFinished(kids)) ==> AllFinished(kids + [c])
    ensures AllKeysHold(kids + [c], texts + more) && c.node == newchild
  {
    hide Separate, Links, Shapes, AllSeparate, Nodes, Below, Deep, AllFinished, Finished, DenMembers, Den, DenMember;
    hide Opt, TextOf, IsText;
    hide AllKeysHold, KeysHold;
    SiblingsApart(kids);
    Allocated(kids);
    DeepAllocated(c);
    assert c.node !in Deep(c) by { Parts(c); }
    LastChild(newitem.child, kids, nptr);
    if nptr != null {
      HeapParser.SetLastNext(newitem.child, kids, nptr, newchild);
      newchild.prev := nptr;
      HeapParser.LinksGrow(newitem.child, kids, c);
    } else {
      newitem.child := newchild;
      OnlyChild(newchild, c);
    }
    HoldSnoc(kids, c, texts, more);
    ShapesInserted(kids, |kids|, c);
    InsertedObjs(kids, |kids|, c);
    InsertedEnd(kids, c);
    InsertedEnd(DenMembers(kids), DenMember(c));
  }

  lemma {:induction false} LastChild(head: Node?, kids: seq<Tree>, last: Node?)
    requires Links(head, kids, null) && last == if kids == [] then null else kids[|kids| - 1].node
    ensures last != null ==> head != null
  {
  }

  lemma {:induction false} OnlyChild(n: Node, c: Tree)
    requires c.node == n && n.next == null && n.prev == null
    ensures Links(n, [] + [c], null)
  {
  }

  method Drop(m: Memory, c: Node, ghost d: Tree)
    requires Copy(c, d) && Own(d) <= m.live
    modifies m
    ensures m.live == old(m.live) - Own(d) && m.failed == old(m.failed)
  {
    hide Shape, Separate, Deep, Own, OwnedOnce;
    OwnWhole(d);
    assert [d][..0] == [];
    Delete(m, c, [d]);
  }

  // ---- an example ----

  /** The smallest tree with a constant key: a null under the key "k". After its duplicate has been
      deleted, the copy of the key is still allocated. */
  method ConstantKeyIsLost(m: Memory) returns (newitem: Node?, ghost lost: array?<byte>)
    modifies m
    ensures newitem != null ==> lost != null && fresh(lost) && m.live == old(m.live) + {lost}
  {
    hide Shape, Finished, Separate, Deep, Den, DenMember, Own, Nodes, Below, Mirrors, KeyLists, ConstantKeys;
    hide KeysHold, TextOf, IsText, Concat, Kept;
    var item := new Node();
    var key := new byte[][107, 0];
    item.kind, item.key, item.stringIsConst := KNull, key, true;
    ghost var t := Tree(item, null, key, true, false, []);
    ghost var copy, kept, n;
    OneNode(item, key, t);
    newitem, copy, kept, n := Duplicate(m, item, true, t);
    lost := null;
    if newitem != null {
      ghost var d := copy.value;
      OneConstantKey(d, t);
      lost := d.key;
      DeletingCopy(d, t);
      Drop(m, newitem, d);
    }
  }

  lemma {:induction false} OneNode(item: Node, key: array<byte>, t: Tree)
    requires key.Length == 2 && key[1] == 0 && item.kind != Invalid
    requires t == Tree(item, null, key, !item.isReference, !item.stringIsConst, [])
    requires item.child == null && item.valuestring == null && item.key == key
    ensures Shape(t) && Finished(t)
  {
    assert Terminated(key[..], 1);
  }

  lemma {:induction false} OneConstantKey(d: Tree, t: Tree)
    requires Mirrors(d, t) && t.kids == [] && !t.ownsKey && t.key != null
    ensures d.key != null && Elems(ConstantKeys(d)) == {d.key} && d.key in Whole(d)
  {
  }
}
