/** Keys with the flag cJSON_StringIsConst. Deleting a node leaves such a key alone. */
module HeapKeys {
  import opened CString
  import opened Sequences
  import opened Heap
  import opened HeapDelete

  /** No node of the tree has a constant key; a node without a key has none. */
  ghost predicate NoConstantKey(t: Tree)
    decreases t, 0
  {
    (t.ownsKey || t.key == null) && NoConstantKeys(t.kids)
  }

  ghost predicate NoConstantKeys(ts: seq<Tree>)
    decreases ts, 1
  {
    forall i :: 0 <= i < |ts| ==> NoConstantKey(ts[i])
  }

  /** No node has the flag, with or without a key. */
  ghost predicate KeysOwned(t: Tree)
    decreases t, 0
  {
    t.ownsKey && AllKeysOwned(t.kids)
  }

  ghost predicate AllKeysOwned(ts: seq<Tree>)
    decreases ts, 1
  {
    forall i :: 0 <= i < |ts| ==> KeysOwned(ts[i])
  }

  /** The constant keys of a tree, in preorder. */
  ghost function ConstantKeys(t: Tree): seq<array<byte>>
    decreases t, 1
  {
    RootKey(t) + ConstantKeysOf(t.kids)
  }

  ghost function RootKey(t: Tree): seq<array<byte>> {
    if t.ownsKey || t.key == null then [] else [t.key]
  }

  ghost function ConstantKeysOf(ts: seq<Tree>): seq<array<byte>>
    decreases ts, 2
  {
    if ts == [] then [] else ConstantKeysOf(ts[..|ts| - 1]) + ConstantKeys(ts[|ts| - 1])
  }

  /** What a node and its children contribute. */
  lemma KeySets(t: Tree)
    ensures Elems(ConstantKeys(t)) == Elems(RootKey(t)) + Elems(ConstantKeysOf(t.kids))
    ensures Elems(RootKey(t)) == if t.ownsKey then {} else Opt(t.key)
  {
    ElemsAppend(RootKey(t), ConstantKeysOf(t.kids));
  }

  lemma KeySetsOf(ts: seq<Tree>)
    requires ts != []
    ensures Elems(ConstantKeysOf(ts)) == Elems(ConstantKeysOf(ts[..|ts| - 1])) + Elems(ConstantKeys(ts[|ts| - 1]))
  {
    hide ConstantKeys, Elems;
    ElemsAppend(ConstantKeysOf(ts[..|ts| - 1]), ConstantKeys(ts[|ts| - 1]));
  }

  lemma {:induction false} NoKeys(t: Tree)
    ensures ConstantKeys(t) == [] <==> NoConstantKey(t)
    decreases t, 0
  {
    NoKeysOf(t.kids);
  }

  lemma {:induction false} NoKeysOf(ts: seq<Tree>)
    ensures ConstantKeysOf(ts) == [] <==> NoConstantKeys(ts)
    decreases ts, 1
  {
    if ts != [] {
      hide NoConstantKey, NoConstantKeys, ConstantKeys;
      NoKeysOf(ts[..|ts| - 1]);
      NoKeys(ts[|ts| - 1]);
      NoneSnoc(ts);
    }
  }

  lemma {:induction false} KeysBelow(t: Tree)
    ensures Elems(ConstantKeys(t)) <= Deep(t)
    decreases t, 0
  {
    hide Elems, ConstantKeysOf;
    KeySets(t);
    KeysBelowOf(t.kids);
  }

  lemma {:induction false} KeysBelowOf(ts: seq<Tree>)
    ensures Elems(ConstantKeysOf(ts)) <= Below(ts)
    decreases ts, 1
  {
    if ts == [] {
      assert ConstantKeysOf(ts) == [];
    } else {
      hide ConstantKeys, Deep, Elems, ConstantKeysOf;
      KeySetsOf(ts);
      KeysBelowOf(ts[..|ts| - 1]);
      KeysBelow(ts[|ts| - 1]);
    }
  }

  // ---- what deleting leaves ----

  /** No reference in the tree. */
  ghost predicate OwnsValues(t: Tree)
    decreases t, 0
  {
    t.owns && AllOwnValues(t.kids)
  }

  ghost predicate AllOwnValues(ts: seq<Tree>)
    decreases ts, 1
  {
    forall i :: 0 <= i < |ts| ==> OwnsValues(ts[i])
  }

  /** Deleting a tree without references frees all but the constant keys. */
  lemma {:induction false} OwnAndKeys(t: Tree)
    requires OwnsValues(t)
    ensures Whole(t) == Own(t) + Elems(ConstantKeys(t))
    decreases t, 0
  {
    hide Elems, ConstantKeysOf;
    KeySets(t);
    OwnAndKeysOf(t.kids);
  }

  lemma {:induction false} OwnAndKeysOf(ts: seq<Tree>)
    requires AllOwnValues(ts)
    ensures Objs(ts) == OwnList(ts) + Elems(ConstantKeysOf(ts))
    decreases ts, 1
  {
    if ts == [] {
      assert ConstantKeysOf(ts) == [];
    } else {
      hide Own, ConstantKeys, Deep, OwnsValues, Elems, ConstantKeysOf, Nodes, Below, Opt, Objs, Whole, OwnList;
      var init := ts[..|ts| - 1];
      assert forall i :: 0 <= i < |init| ==> init[i] == ts[i];
      OwnAndKeysOf(init);
      OwnAndKeys(ts[|ts| - 1]);
      KeySetsOf(ts);
      OwnSnoc(ts);
    }
  }

  lemma {:induction false} OwnNoKeys(t: Tree)
    requires Separate(t)
    ensures Own(t) !! Elems(ConstantKeys(t))
    decreases t, 0
  {
    KeySets(t);
    OwnNoKeysOf(t.kids);
    KeysBelowOf(t.kids);
    OwnObjs(t.kids);
    hide Below, Nodes, ConstantKeysOf, ConstantKeys, OwnList, Elems;
  }

  lemma {:induction false} OwnNoKeysOf(ts: seq<Tree>)
    requires AllSeparate(ts)
    ensures OwnList(ts) !! Elems(ConstantKeysOf(ts))
    decreases ts, 1
  {
    if ts != [] {
      hide Own, ConstantKeys, Separate, Deep, Nodes, Below, Elems, ConstantKeysOf;
      KeySetsOf(ts);
      var init, last := ts[..|ts| - 1], ts[|ts| - 1];
      OwnNoKeysOf(init);
      OwnNoKeys(last);
      OwnObjs(init);
      OwnWhole(last);
      KeysBelowOf(init);
      KeysBelow(last);
    }
  }

  // ---- copies ----

  /** d has the flags of t and no references, and keys at the same places. */
  ghost predicate Mirrors(d: Tree, t: Tree)
    decreases d, 0
  {
    d.owns && d.ownsKey == t.ownsKey && (d.key == null <==> t.key == null) && MirrorsAll(d.kids, t.kids)
  }

  ghost predicate MirrorsAll(ds: seq<Tree>, ts: seq<Tree>)
    decreases ds, 1
  {
    |ds| == |ts| && forall i :: 0 <= i < |ds| ==> Mirrors(ds[i], ts[i])
  }

  lemma {:induction false} MirrorOwns(d: Tree, t: Tree)
    requires Mirrors(d, t)
    ensures OwnsValues(d) && (NoConstantKey(d) <==> NoConstantKey(t)) && (OwnsAll(d) <==> KeysOwned(t))
    decreases d, 0
  {
    MirrorsOwn(d.kids, t.kids);
  }

  lemma {:induction false} MirrorsOwn(ds: seq<Tree>, ts: seq<Tree>)
    requires MirrorsAll(ds, ts)
    ensures AllOwnValues(ds) && (NoConstantKeys(ds) <==> NoConstantKeys(ts)) && (AllOwned(ds) <==> AllKeysOwned(ts))
    decreases ds, 1
  {
    hide Mirrors, OwnsValues, NoConstantKey, OwnsAll, KeysOwned;
    forall i | 0 <= i < |ds|
      ensures OwnsValues(ds[i]) && (NoConstantKey(ds[i]) <==> NoConstantKey(ts[i]))
      ensures (OwnsAll(ds[i]) <==> KeysOwned(ts[i]))
    {
      MirrorOwns(ds[i], ts[i]);
    }
  }

  lemma {:induction false} MirrorsSnoc(ds: seq<Tree>, ts: seq<Tree>, d: Tree)
    requires |ds| < |ts| && MirrorsAll(ds, ts[..|ds|]) && Mirrors(d, ts[|ds|])
    ensures MirrorsAll(ds + [d], ts[..|ds| + 1])
  {
    hide Mirrors;
  }

  /** Deleting a copy frees all of it exactly if the original has no constant key. */
  lemma {:induction false} DeletingCopy(d: Tree, t: Tree)
    requires Mirrors(d, t) && Separate(d)
    ensures Own(d) == Whole(d) - Elems(ConstantKeys(d))
    ensures Own(d) == Whole(d) <==> NoConstantKey(t)
  {
    hide Own, Whole, Mirrors, OwnsValues, Separate, ConstantKeys, Elems, NoConstantKey;
    MirrorOwns(d, t);
    OwnAndKeys(d);
    OwnNoKeys(d);
    NoKeys(d);
    ElemsEmpty(ConstantKeys(d));
  }

  /** In a separate tree no key occurs twice. */
  lemma {:induction false} KeysOnce(t: Tree)
    requires Separate(t)
    ensures NoRepeats(ConstantKeys(t))
    decreases t, 0
  {
    hide Elems, ConstantKeysOf;
    KeySets(t);
    KeysOnceOf(t.kids);
    KeysBelowOf(t.kids);
    NoRepeatsAppend(RootKey(t), ConstantKeysOf(t.kids));
  }

  lemma {:induction false} KeysOnceOf(ts: seq<Tree>)
    requires AllSeparate(ts)
    ensures NoRepeats(ConstantKeysOf(ts))
    decreases ts, 1
  {
    if ts != [] {
      hide ConstantKeys, Separate, Deep, Nodes, Below, Elems, NoRepeats;
      var init, last := ts[..|ts| - 1], ts[|ts| - 1];
      KeysOnceOf(init);
      KeysOnce(last);
      KeysBelowOf(init);
      KeysBelow(last);
      NoRepeatsAppend(ConstantKeysOf(init), ConstantKeys(last));
    } else {
      assert ConstantKeysOf(ts) == [];
    }
  }

  // ---- the texts of constant keys ----

  ghost function RootText(t: Tree): seq<Str>
    reads Opt(t.key)
  {
    if t.ownsKey || t.key == null then [] else [TextOf(t.key)]
  }

  /** For every node of t, in preorder, the text of its constant key, if it has one. */
  ghost function KeyLists(t: Tree): (r: seq<seq<Str>>)
    reads Deep(t)
    ensures r != [] && r[0] == RootText(t)
    decreases t, 0
  {
    [RootText(t)] + Concat(KidLists(t.kids))
  }

  ghost function KidLists(ts: seq<Tree>): (r: seq<seq<seq<Str>>>)
    reads Below(ts)
    ensures |r| == |ts| && forall i :: 0 <= i < |ts| ==> r[i] == KeyLists(ts[i])
    decreases ts, 1
  {
    hide Nodes, Below, Deep;
    if ts == [] then [] else
    NodesSnoc(ts);
    assert forall i :: 0 <= i < |ts| - 1 ==> ts[i] == ts[..|ts| - 1][i];
    KidLists(ts[..|ts| - 1]) + [KeyLists(ts[|ts| - 1])]
  }

  /** The arrays hold the texts, in that order. */
  ghost predicate HoldTexts(arrays: seq<array<byte>>, texts: seq<Str>)
    reads arrays
  {
    |arrays| == |texts| && forall i :: 0 <= i < |arrays| ==> IsText(arrays[i]) && TextOf(arrays[i]) == texts[i]
  }

  lemma {:induction false} HoldMore(a: seq<array<byte>>, s: seq<Str>, b: seq<array<byte>>, t: seq<Str>)
    requires HoldTexts(a, s) && HoldTexts(b, t)
    ensures HoldTexts(a + b, s + t)
  {
    hide IsText, TextOf;
  }

  /** The constant keys of d hold the texts. */
  ghost predicate KeysHold(d: Tree, texts: seq<Str>)
    reads Deep(d)
  {
    KeysIn(d);
    HoldTexts(ConstantKeys(d), texts)
  }

  ghost predicate AllKeysHold(ds: seq<Tree>, texts: seq<Str>)
    reads Below(ds)
  {
    KeysInAll(ds);
    HoldTexts(ConstantKeysOf(ds), texts)
  }

  lemma KeysIn(t: Tree)
    ensures forall a :: a in ConstantKeys(t) ==> a in Deep(t)
  {
    hide Deep, ConstantKeys;
    KeysBelow(t);
    assert forall a :: a in ConstantKeys(t) ==> a in Elems(ConstantKeys(t));
  }

  lemma KeysInAll(ts: seq<Tree>)
    ensures forall a :: a in ConstantKeysOf(ts) ==> a in Below(ts)
  {
    hide Below, ConstantKeysOf;
    KeysBelowOf(ts);
    assert forall a :: a in ConstantKeysOf(ts) ==> a in Elems(ConstantKeysOf(ts));
  }

  lemma {:induction false} HoldSnoc(ds: seq<Tree>, d: Tree, texts: seq<Str>, more: seq<Str>)
    requires AllKeysHold(ds, texts) && KeysHold(d, more)
    ensures AllKeysHold(ds + [d], texts + more)
  {
    hide ConstantKeys, HoldTexts;
    assert (ds + [d])[..|ds|] == ds;
    assert ConstantKeysOf(ds + [d]) == ConstantKeysOf(ds) + ConstantKeys(d);
    HoldMore(ConstantKeysOf(ds), texts, ConstantKeys(d), more);
  }

  /** No constant key but perhaps that of the last node in preorder. */
  ghost predicate NoKeyBeforeLast(t: Tree)
    reads Deep(t)
  {
    forall i :: 0 <= i < |KeyLists(t)| - 1 ==> KeyLists(t)[i] == []
  }

  /** Whether the first n nodes have no constant key, for n below the number of nodes. */
  lemma {:induction false} FirstKeys(t: Tree, n: nat)
    requires n < |KeyLists(t)|
    ensures Concat(KeyLists(t)[..n]) == [] <==> forall i :: 0 <= i < n ==> KeyLists(t)[i] == []
    ensures NoKeyBeforeLast(t) ==> Concat(KeyLists(t)[..n]) == []
    ensures n == |KeyLists(t)| - 1 && Concat(KeyLists(t)[..n]) == [] ==> NoKeyBeforeLast(t)
  {
    hide KeyLists;
    var all := KeyLists(t);
    ConcatEmpty(all[..n]);
    assert forall i :: 0 <= i < n ==> all[..n][i] == all[i];
  }

  lemma {:induction false} NoLists(t: Tree)
    ensures NoConstantKey(t) <==> Concat(KeyLists(t)) == []
    decreases t, 0
  {
    hide Concat, NoConstantKeys, KidLists;
    ConcatAppend([RootText(t)], Concat(KidLists(t.kids)));
    ConcatOne(RootText(t));
    NoListsOf(t.kids);
  }

  lemma {:induction false} NoListsOf(ts: seq<Tree>)
    ensures NoConstantKeys(ts) <==> Concat(Concat(KidLists(ts))) == []
    decreases ts, 1
  {
    if ts == [] {
      assert KidLists(ts) == [];
    } else {
      hide NoConstantKey, NoConstantKeys, KeyLists, KidLists, Concat, Below;
      var init, last := ts[..|ts| - 1], ts[|ts| - 1];
      NoListsOf(init);
      NoLists(last);
      NoneSnoc(ts);
      ListsSnoc(ts);
      ConcatAppend(Concat(KidLists(init)), KeyLists(last));
    }
  }

  lemma {:induction false} NoneSnoc(ts: seq<Tree>)
    requires ts != []
    ensures NoConstantKeys(ts) <==> NoConstantKeys(ts[..|ts| - 1]) && NoConstantKey(ts[|ts| - 1])
  {
    hide NoConstantKey;
    assert forall i :: 0 <= i < |ts| - 1 ==> ts[..|ts| - 1][i] == ts[i];
  }

  lemma {:induction false} ListsSnoc(ts: seq<Tree>)
    requires ts != []
    ensures Concat(KidLists(ts)) == Concat(KidLists(ts[..|ts| - 1])) + KeyLists(ts[|ts| - 1])
  {
    hide KeyLists, KidLists, Below;
    var init := ts[..|ts| - 1];
    assert forall i :: 0 <= i < |init| ==> init[i] == ts[i];
    assert KidLists(ts)[..|init|] == KidLists(init);
  }

  /** Without constant keys the first n nodes have none either. */
  lemma {:induction false} NoFirstKeys(t: Tree, n: nat)
    requires NoConstantKey(t) && n < |KeyLists(t)|
    ensures Concat(KeyLists(t)[..n]) == []
  {
    hide KeyLists, NoConstantKey;
    NoLists(t);
    ConcatEmpty(KeyLists(t));
    FirstKeys(t, n);
  }
}
