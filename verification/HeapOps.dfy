/** cJSON_AddItemToArray, cJSON_DetachItemFromArray, cJSON_InsertItemInArray and cJSON_ReplaceItemInArray,
    on whole trees. */
module HeapOps {
  import opened Sequences
  import opened Heap
  import opened HeapDelete
  import opened HeapLists

  /** p is the tree at parent, an array or object, and no part of it occurs twice. */
  ghost predicate Container(parent: Node, p: Tree)
    reads parent, p.node, Deep(p)
  {
    p.node == parent && Shape(p) && Separate(p)
  }

  /** x is the tree at item, which is in no list and has nothing in common with p. */
  ghost predicate Detached(item: Node, x: Tree, p: Tree)
    reads item, x.node, Deep(x)
  {
    x.node == item && Shape(x) && Separate(x) && item.next == null && item.prev == null && Whole(x) !! Whole(p)
  }

  // ---- what the list operations mean for the picture ----

  lemma {:induction false} ShapesWithout(ts: seq<Tree>, k: nat)
    requires k < |ts|
    ensures Shapes(ts) ==> Shapes(Without(ts, k))
    ensures AllFinished(ts) ==> AllFinished(Without(ts, k))
    ensures DenMembers(Without(ts, k)) == Without(DenMembers(ts), k)
  {
    hide Shape, Finished, Den, DenMember, DenMembers;
    forall j | 0 <= j < |ts| - 1
      ensures Without(ts, k)[j] == ts[if j < k then j else j + 1]
        ensures DenMembers(Without(ts, k))[j] == Without(DenMembers(ts), k)[j]
    {
      WithoutAt(ts, k, j);
      WithoutAt(DenMembers(ts), k, j);
    }
  }

  lemma {:induction false} ShapesInserted(ts: seq<Tree>, k: nat, x: Tree)
    requires k <= |ts|
    ensures Shapes(ts) && Shape(x) ==> Shapes(Inserted(ts, k, x))
    ensures AllFinished(ts) && Finished(x) ==> AllFinished(Inserted(ts, k, x))
    ensures DenMembers(Inserted(ts, k, x)) == Inserted(DenMembers(ts), k, DenMember(x))
  {
    hide Shape, Finished, Den, DenMember, DenMembers;
    forall j | 0 <= j <= |ts|
      ensures Inserted(ts, k, x)[j] == if j < k then ts[j] else if j == k then x else ts[j - 1]
        ensures DenMembers(Inserted(ts, k, x))[j] == Inserted(DenMembers(ts), k, DenMember(x))[j]
    {
      InsertedAt(ts, k, x, j);
      InsertedAt(DenMembers(ts), k, DenMember(x), j);
    }
  }

  lemma {:induction false} ShapesReplaced(ts: seq<Tree>, k: nat, x: Tree)
    requires k < |ts|
    ensures Shapes(ts) && Shape(x) ==> Shapes(ts[k := x])
    ensures AllFinished(ts) && Finished(x) ==> AllFinished(ts[k := x])
    ensures DenMembers(ts[k := x]) == DenMembers(ts)[k := DenMember(x)]
  {
    hide Shape, Finished, Den, DenMember, DenMembers;
  }

  /** A container whose children have been rearranged. */
  lemma {:induction false} NewKids(p: Tree, kids: seq<Tree>)
    requires p.node.valuestring == p.vs && p.node.key == p.key
    requires p.node.isReference == !p.owns && p.node.stringIsConst == !p.ownsKey
    requires Links(p.node.child, kids, null) && Shapes(kids) && AllSeparate(kids)
    requires p.node !in Opt(p.vs) + Opt(p.key) + Objs(kids)
    requires Opt(p.vs) !! Opt(p.key) && Opt(p.vs) + Opt(p.key) !! Objs(kids)
    ensures Shape(p.(kids := kids)) && Separate(p.(kids := kids))
    ensures Whole(p.(kids := kids)) == {p.node} + Opt(p.vs) + Opt(p.key) + Objs(kids)
  {
    hide Links, Shapes, AllSeparate, Nodes, Below;
  }

  lemma {:induction false} Parts(p: Tree)
    requires Separate(p)
    ensures p.node !in Opt(p.vs) + Opt(p.key) + Objs(p.kids)
    ensures Opt(p.vs) !! Opt(p.key) && Opt(p.vs) + Opt(p.key) !! Objs(p.kids)
    ensures AllSeparate(p.kids) && Whole(p) == {p.node} + Opt(p.vs) + Opt(p.key) + Objs(p.kids)
    ensures Nodes(p.kids) !! Below(p.kids) && p.node !in Deep(p) && allocated(Deep(p))
  {
    hide AllSeparate, Nodes, Below;
    SiblingsApart(p.kids);
    DeepAllocated(p);
  }

  lemma {:induction false} ContainerLinks(parent: Node, p: Tree)
    requires Container(parent, p)
    ensures Links(parent.child, p.kids, null)
    ensures allocated(Deep(p)) && allocated(Nodes(p.kids)) && allocated(Below(p.kids))
  {
    hide Nodes, Below;
    DeepAllocated(p);
    Allocated(p.kids);
  }

  /** What the surgery on a container touches, and what it leaves alone. */
  lemma {:induction false} Foreign(p: Tree, x: Tree)
    requires Separate(p) && Separate(x) && Whole(x) !! Whole(p)
    ensures x.node !in Nodes(p.kids) && x.node !in Below(p.kids) && x.node != p.node && x.node !in Deep(x)
    ensures p.node !in Deep(x) && Nodes(p.kids) !! Deep(x) && Whole(x) !! Objs(p.kids)
    ensures allocated(Deep(x))
  {
    hide Separate, Deep, Nodes, Below;
    Parts(p);
    Parts(x);
  }

  lemma {:induction false} KidAt(ts: seq<Tree>, k: nat)
    requires k < |ts|
    ensures Shapes(ts) ==> Shape(ts[k])
    ensures AllFinished(ts) ==> Finished(ts[k])
    ensures DenMembers(ts)[k] == DenMember(ts[k])
  {
    hide Shape, Finished;
  }

  lemma {:induction false} FinishedIs(p: Tree, kids: seq<Tree>)
    ensures Finished(p.(kids := kids)) <==> p.node.kind != Invalid && IsText(p.vs) && IsText(p.key) && AllFinished(kids)
  {
  }

  // ---- arrays ----

  /** cJSON_AddItemToArray: appends. */
  method AddItemToArray(parent: Node, item: Node, ghost p: Tree, ghost x: Tree)
    requires Container(parent, p) && Detached(item, x, p)
    modifies parent`child, Nodes(p.kids)`next, item`prev
    ensures Container(parent, p.(kids := p.kids + [x]))
    ensures DenMembers(p.kids + [x]) == old(DenMembers(p.kids)) + [old(DenMember(x))]
    ensures old(AllFinished(p.kids) && Finished(x)) ==> AllFinished(p.kids + [x])
    ensures old(Finished(p) && Finished(x)) ==> Finished(p.(kids := p.kids + [x]))
  {
    hide Separate, Links, Shapes, AllSeparate, Nodes, Below, Deep, AllFinished, Finished, DenMembers, Den, DenMember;
    hide Opt, Objs, Whole, IsText;
    Parts(p);
    Foreign(p, x);
    Allocated(p.kids);
    FinishedIs(p, p.kids);
    LinkLast(parent, item, p.kids, x);
    FinishedIs(p, p.kids + [x]);
    ShapesInserted(p.kids, |p.kids|, x);
    InsertedObjs(p.kids, |p.kids|, x);
    NewKids(p, Inserted(p.kids, |p.kids|, x));
    assert Inserted(p.kids, |p.kids|, x) == p.kids + [x];
  }

  lemma FirstOf(head: Node?, ts: seq<Tree>)
    requires Links(head, ts, null)
    ensures head == if ts == [] then null else ts[0].node
  {
  }

  /** The search loop that all operations by index share: a negative index means the first item. */
  method FindIndex(parent: Node, which: int, ghost ts: seq<Tree>) returns (c: Node?, ghost k: nat)
    requires Links(parent.child, ts, null)
    ensures k == (if which < 0 then 0 else which)
    ensures c == if k < |ts| then ts[k].node else null
  {
    hide Nodes, Below, Deep, Links;
    FirstOf(parent.child, ts);
    c := parent.child;
    var w := which;
    k := 0;
    while c != null && w > 0
      invariant Links(parent.child, ts, null) && k <= |ts| && c == (if k < |ts| then ts[k].node else null)
      invariant if which < 0 then k == 0 && w == which else w == which - k && w >= 0
      decreases |ts| - k
    {
      LinksAt(parent.child, ts, k);
      c := c.next;
      w := w - 1;
      k := k + 1;
    }
    k := if which < 0 then 0 else which;
  }

  /** cJSON_DetachItemFromArray: the item leaves with all that is below it. */
  method DetachItemFromArray(parent: Node, which: int, ghost p: Tree) returns (c: Node?, ghost k: nat)
    requires Container(parent, p)
    modifies parent`child, Nodes(p.kids)`next, Nodes(p.kids)`prev
    ensures k == if which < 0 then 0 else which
    ensures k >= |p.kids| ==> c == null && Container(parent, p)
    ensures k < |p.kids| ==> c != null && Container(parent, p.(kids := Without(p.kids, k)))
    ensures k < |p.kids| ==> Detached(c, p.kids[k], p.(kids := Without(p.kids, k)))
    ensures k < |p.kids| ==> DenMembers(Without(p.kids, k)) == Without(old(DenMembers(p.kids)), k)
    ensures k < |p.kids| ==> DenMember(p.kids[k]) == old(DenMember(p.kids[k]))
    ensures k >= |p.kids| ==> Finished(p) == old(Finished(p))
    ensures k < |p.kids| && old(Finished(p)) ==> Finished(p.(kids := Without(p.kids, k))) && Finished(p.kids[k])
  {
    hide Container, Detached, Links, Without, Deep, Nodes, Below, DenMembers, Finished;
    ContainerLinks(parent, p);
    c, k := FindIndex(parent, which, p.kids);
    if c != null {
      DetachAt(parent, c, p, k);
    }
  }

  method DetachAt(parent: Node, c: Node, ghost p: Tree, ghost k: nat)
    requires Container(parent, p) && k < |p.kids| && c == p.kids[k].node
    modifies parent`child, Nodes(p.kids)`next, Nodes(p.kids)`prev
    ensures Container(parent, p.(kids := Without(p.kids, k)))
    ensures Detached(c, p.kids[k], p.(kids := Without(p.kids, k)))
    ensures DenMembers(Without(p.kids, k)) == Without(old(DenMembers(p.kids)), k)
    ensures DenMember(p.kids[k]) == old(DenMember(p.kids[k]))
    ensures old(Finished(p)) ==> Finished(p.(kids := Without(p.kids, k))) && Finished(p.kids[k])
  {
    hide Separate, Links, Shapes, AllSeparate, Nodes, Below, Deep, AllFinished, Finished, DenMembers, Den, DenMember;
    hide Without, Opt, Objs, Whole, IsText;
    Parts(p);
    Allocated(p.kids);
    KidAt(p.kids, k);
    FinishedIs(p, p.kids);
    Unlink(parent, c, p.kids, k);
    FinishedIs(p, Without(p.kids, k));
    KidAt(p.kids, k);
    ShapesWithout(p.kids, k);
    WithoutObjs(p.kids, k);
    NewKids(p, Without(p.kids, k));
  }

  /** cJSON_InsertItemInArray: in front of the item at which, or at the end. */
  method InsertItemInArray(parent: Node, which: int, newitem: Node, ghost p: Tree, ghost x: Tree) returns (ghost k: nat)
    requires Container(parent, p) && Detached(newitem, x, p)
    modifies parent`child, Nodes(p.kids)`next, Nodes(p.kids)`prev, newitem`next, newitem`prev
    ensures k == if which < 0 then 0 else if which < |p.kids| then which else |p.kids|
    ensures Container(parent, p.(kids := Inserted(p.kids, k, x)))
    ensures DenMembers(Inserted(p.kids, k, x)) == Inserted(old(DenMembers(p.kids)), k, old(DenMember(x)))
    ensures old(Finished(p) && Finished(x)) ==> Finished(p.(kids := Inserted(p.kids, k, x)))
  {
    hide Container, Detached, Links, Inserted, Deep, Nodes, Below, DenMembers, Finished, AllFinished;
    ContainerLinks(parent, p);
    DeepAllocated(x);
    var c;
    c, k := FindIndex(parent, which, p.kids);
    if c == null {
      k := |p.kids|;
      InsertedEnd(p.kids, x);
      InsertedEnd(DenMembers(p.kids), DenMember(x));
      AddItemToArray(parent, newitem, p, x);
    } else {
      InsertAt(parent, c, newitem, p, k, x);
    }
  }

  method InsertAt(parent: Node, c: Node, newitem: Node, ghost p: Tree, ghost k: nat, ghost x: Tree)
    requires Container(parent, p) && k < |p.kids| && c == p.kids[k].node && Detached(newitem, x, p)
    modifies parent`child, Nodes(p.kids)`next, Nodes(p.kids)`prev, newitem`next, newitem`prev
    ensures Container(parent, p.(kids := Inserted(p.kids, k, x)))
    ensures DenMembers(Inserted(p.kids, k, x)) == Inserted(old(DenMembers(p.kids)), k, old(DenMember(x)))
    ensures old(Finished(p) && Finished(x)) ==> Finished(p.(kids := Inserted(p.kids, k, x)))
  {
    hide Separate, Links, Shapes, AllSeparate, Nodes, Below, Deep, AllFinished, Finished, DenMembers, Den, DenMember;
    hide Inserted, Opt, Objs, Whole, IsText;
    Parts(p);
    Foreign(p, x);
    Allocated(p.kids);
    FinishedIs(p, p.kids);
    LinkInFront(parent, c, newitem, p.kids, k, x);
    FinishedIs(p, Inserted(p.kids, k, x));
    ShapesInserted(p.kids, k, x);
    InsertedObjs(p.kids, k, x);
    NewKids(p, Inserted(p.kids, k, x));
  }

  /** cJSON_ReplaceItemInArray: the old item and all it owns is freed; without an item at which
      nothing happens. */
  method ReplaceItemInArray(m: Memory, parent: Node, which: int, newitem: Node, ghost p: Tree, ghost x: Tree)
    returns (ghost k: nat)
    requires Container(parent, p) && Detached(newitem, x, p)
    requires OwnList(p.kids) <= m.live
    modifies parent`child, Nodes(p.kids)`next, Nodes(p.kids)`prev, newitem`next, newitem`prev, m
    ensures k == if which < 0 then 0 else which
    ensures m.failed == old(m.failed)
    ensures k >= |p.kids| ==> Container(parent, p) && m.live == old(m.live)
    ensures k < |p.kids| ==> Container(parent, p.(kids := p.kids[k := x]))
    ensures k < |p.kids| ==> DenMembers(p.kids[k := x]) == old(DenMembers(p.kids))[k := old(DenMember(x))]
    ensures k < |p.kids| ==> m.live == old(m.live) - Own(p.kids[k])
    ensures k >= |p.kids| ==> Finished(p) == old(Finished(p))
    ensures k < |p.kids| && old(Finished(p) && Finished(x)) ==> Finished(p.(kids := p.kids[k := x]))
  {
    hide Container, Detached, Links, Deep, Nodes, Below, DenMembers, Own, Finished, Opt, Objs, Whole, TextOf, IsText;
    ContainerLinks(parent, p);
    DeepAllocated(x);
    var c;
    c, k := FindIndex(parent, which, p.kids);
    if c != null {
      ReplaceAt(parent, c, newitem, p, k, x);
      assert Own(p.kids[k]) <= m.live by { OwnPrefix(p.kids, k); }
      DeleteDetached(m, c, p.kids[k], parent, p.(kids := p.kids[k := x]));
    }
  }

  /** Deleting a detached item leaves the container as it is. */
  method DeleteDetached(m: Memory, c: Node, ghost t: Tree, ghost parent: Node, ghost p: Tree)
    requires Detached(c, t, p) && Container(parent, p) && Own(t) <= m.live
    modifies m
    ensures m.live == old(m.live) - Own(t) && m.failed == old(m.failed)
    ensures Container(parent, p) && DenMembers(p.kids) == old(DenMembers(p.kids)) && Finished(p) == old(Finished(p))
  {
    hide Shape, Separate, OwnsAll, Deep, Own, OwnedOnce, DenMembers, Nodes, Below, Finished;
    OwnWhole(t);
    Parts(p);
    Allocated(p.kids);
    DeepAllocated(p);
    NoMemory(p.kids, m);
    NoMemoryBelow(p, m);
    assert [t][..0] == [];
    Delete(m, c, [t]);
  }

  method ReplaceAt(parent: Node, c: Node, newitem: Node, ghost p: Tree, ghost k: nat, ghost x: Tree)
    requires Container(parent, p) && k < |p.kids| && c == p.kids[k].node && Detached(newitem, x, p)
    modifies parent`child, Nodes(p.kids)`next, Nodes(p.kids)`prev, newitem`next, newitem`prev
    ensures Container(parent, p.(kids := p.kids[k := x]))
    ensures Detached(c, p.kids[k], p.(kids := p.kids[k := x]))
    ensures DenMembers(p.kids[k := x]) == old(DenMembers(p.kids))[k := old(DenMember(x))]
    ensures old(Finished(p) && Finished(x)) ==> Finished(p.(kids := p.kids[k := x]))
  {
    hide Separate, Links, Shapes, AllSeparate, Nodes, Below, Deep, AllFinished, Finished, DenMembers, Den, DenMember;
    hide Opt, Objs, Whole, IsText;
    Parts(p);
    Foreign(p, x);
    Allocated(p.kids);
    KidAt(p.kids, k);
    FinishedIs(p, p.kids);
    LinkInstead(parent, c, newitem, p.kids, k, x);
    FinishedIs(p, p.kids[k := x]);
    KidAt(p.kids, k);
    ShapesReplaced(p.kids, k, x);
    ReplacedObjs(p.kids, k, x);
    ghost var kids := p.kids[k := x];
    NewKids(p, kids);
  }

  lemma {:induction false} ReplacedObjs(ts: seq<Tree>, k: nat, x: Tree)
    requires k < |ts| && AllSeparate(ts) && Separate(x) && Whole(x) !! Objs(ts)
    ensures AllSeparate(ts[k := x]) && Objs(ts[k := x]) == Objs(Without(ts, k)) + Whole(x)
    ensures Objs(ts) == Objs(Without(ts, k)) + Whole(ts[k]) && Separate(ts[k]) && Whole(ts[k]) !! Objs(Without(ts, k))
  {
    hide AllSeparate, Separate, Objs, Whole;
    WithoutObjs(ts, k);
    InsertedObjs(Without(ts, k), k, x);
    assert Inserted(Without(ts, k), k, x) == ts[k := x];
  }
}
