/** The list operations of cJSON.c on the children of a node. */
module HeapLists {
  import opened Sequences
  import opened Heap

  // ---- pictures ----

  lemma {:induction false} ObjsSnoc(ts: seq<Tree>)
    requires ts != []
    ensures Objs(ts) == Objs(ts[..|ts| - 1]) + Whole(ts[|ts| - 1])
    ensures AllSeparate(ts) <==>
      AllSeparate(ts[..|ts| - 1]) && Separate(ts[|ts| - 1]) && Whole(ts[|ts| - 1]) !! Objs(ts[..|ts| - 1])
  {
    hide Deep, Separate;
  }

  lemma {:induction false} WithoutObjs(ts: seq<Tree>, k: nat)
    requires k < |ts| && AllSeparate(ts)
    ensures Objs(ts) == Objs(Without(ts, k)) + Whole(ts[k])
    ensures AllSeparate(Without(ts, k)) && Separate(ts[k]) && Whole(ts[k]) !! Objs(Without(ts, k))
    decreases ts
  {
    hide Objs, Whole, Separate, AllSeparate;
    var n := |ts| - 1;
    ObjsSnoc(ts);
    if k == n {
      assert Without(ts, k) == ts[..n];
    } else {
      WithoutLast(ts, k);
      WithoutObjs(ts[..n], k);
      ObjsSnoc(Without(ts, k));
    }
  }

  lemma {:induction false} InsertedObjs(ts: seq<Tree>, k: nat, x: Tree)
    requires k <= |ts| && AllSeparate(ts) && Separate(x) && Whole(x) !! Objs(ts)
    ensures AllSeparate(Inserted(ts, k, x))
    ensures Objs(Inserted(ts, k, x)) == Objs(ts) + Whole(x)
    decreases ts
  {
    hide Objs, Whole, Separate, AllSeparate;
    var ts' := Inserted(ts, k, x);
    ObjsSnoc(ts');
    if k == |ts| {
      assert ts'[..|ts|] == ts;
    } else {
      InsertedLast(ts, k, x);
      ObjsSnoc(ts);
      InsertedObjs(ts[..|ts| - 1], k, x);
    }
  }

  // ---- pointer surgery ----

  lemma {:induction false} Distinct(ts: seq<Tree>)
    requires AllSeparate(ts)
    ensures forall i, j :: 0 <= i < |ts| && 0 <= j < |ts| && i != j ==> ts[i].node != ts[j].node
  {
    hide AllSeparate;
    forall i, j | 0 <= i < |ts| && 0 <= j < |ts| && i != j ensures ts[i].node != ts[j].node {
      if i < j { NodesDistinct(ts, i, j); } else { NodesDistinct(ts, j, i); }
    }
  }

  /** Which node of the list a neighbour is. */
  lemma {:induction false} Neighbours(ts: seq<Tree>, k: nat)
    requires k < |ts| && AllSeparate(ts)
    ensures forall i :: 0 <= i < |ts| ==> (ts[i].node == ts[k].node <==> i == k)
    ensures forall i :: 0 <= i < |ts| ==> (ts[i].node == Before(ts, k) <==> i == k - 1)
    ensures forall i :: 0 <= i < |ts| ==> (ts[i].node == Behind(ts, k, null) <==> i == k + 1)
    ensures ts[k].node in Nodes(ts) && (Before(ts, k) == null <==> k == 0)
    ensures Before(ts, k) != null ==> Before(ts, k) in Nodes(ts)
    ensures Behind(ts, k, null) != null ==> Behind(ts, k, null) in Nodes(ts)
  {
    hide AllSeparate;
    Distinct(ts);
  }

  lemma {:induction false} LinksAt(head: Node?, ts: seq<Tree>, k: nat)
    requires Links(head, ts, null) && k < |ts|
    ensures ts[k].node.prev == Before(ts, k) && ts[k].node.next == Behind(ts, k, null)
  {
  }

  lemma {:induction false} Unlinked(head: Node?, ts: seq<Tree>, k: nat)
    requires k < |ts|
    requires head == if k == 0 then Behind(ts, 0, null) else ts[0].node
    requires forall i :: 0 <= i < |ts| && i != k ==>
      ts[i].node.prev == if i == k + 1 then Before(ts, k) else Before(ts, i)
    requires forall i :: 0 <= i < |ts| && i != k ==>
      ts[i].node.next == if i == k - 1 then Behind(ts, k, null) else Behind(ts, i, null)
    ensures Links(head, Without(ts, k), null)
  {
    var ts' := Without(ts, k);
    assert |ts'| == |ts| - 1;
    if ts' != [] { WithoutAt(ts, k, 0); }
    forall j | 0 <= j < |ts'| ensures ts'[j].node.prev == Before(ts', j) && ts'[j].node.next == Behind(ts', j, null) {
      var i := if j < k then j else j + 1;
      WithoutAt(ts, k, j);
      if j > 0 { WithoutAt(ts, k, j - 1); }
      if j + 1 < |ts'| { WithoutAt(ts, k, j + 1); }
      hide Without;
      assert ts[i].node.prev == if i == k + 1 then Before(ts, k) else Before(ts, i);
    }
  }

  /** The body of cJSON_DetachItemFromArray behind the search loop. */
  method Unlink(parent: Node, c: Node, ghost ts: seq<Tree>, ghost k: nat)
    requires k < |ts| && c == ts[k].node && Links(parent.child, ts, null) && AllSeparate(ts)
    modifies parent`child, Nodes(ts)`next, Nodes(ts)`prev
    ensures Links(parent.child, Without(ts, k), null) && c.next == null && c.prev == null
  {
    hide AllSeparate, Nodes, Below, Without, Before, Behind;
    LinksAt(parent.child, ts, k);
    Neighbours(ts, k);
    if c.prev != null {
      c.prev.next := c.next;
    }
    if c.next != null {
      c.next.prev := c.prev;
    }
    if c == parent.child {
      parent.child := c.next;
    }
    c.prev, c.next := null, null;
    Unlinked(parent.child, ts, k);
  }

  lemma {:induction false} LinkedIn(head: Node?, ts: seq<Tree>, k: nat, x: Tree)
    requires k < |ts| && x.node.prev == Before(ts, k) && x.node.next == ts[k].node
    requires head == if k == 0 then x.node else ts[0].node
    requires forall i :: 0 <= i < |ts| ==> ts[i].node.prev == if i == k then x.node else Before(ts, i)
    requires forall i :: 0 <= i < |ts| ==> ts[i].node.next == if i == k - 1 then x.node else Behind(ts, i, null)
    ensures Links(head, Inserted(ts, k, x), null)
  {
    var ts' := Inserted(ts, k, x);
    InsertedAt(ts, k, x, 0);
    forall j | 0 <= j < |ts'| ensures ts'[j].node.prev == Before(ts', j) && ts'[j].node.next == Behind(ts', j, null) {
      InsertedAt(ts, k, x, j);
      if j > 0 { InsertedAt(ts, k, x, j - 1); }
      if j < |ts| { InsertedAt(ts, k, x, j + 1); }
      hide Inserted;
      if j != k {
        var i := if j < k then j else j - 1;
        assert ts[i].node.prev == if i == k then x.node else Before(ts, i);
      }
    }
  }

  /** The body of cJSON_InsertItemInArray behind the search loop, in front of c. */
  method LinkInFront(parent: Node, c: Node, newitem: Node, ghost ts: seq<Tree>, ghost k: nat, ghost x: Tree)
    requires k < |ts| && c == ts[k].node && Links(parent.child, ts, null) && AllSeparate(ts)
    requires x.node == newitem && newitem !in Nodes(ts)
    modifies parent`child, Nodes(ts)`next, Nodes(ts)`prev, newitem`next, newitem`prev
    ensures Links(parent.child, Inserted(ts, k, x), null)
  {
    hide AllSeparate, Nodes, Below, Inserted, Before, Behind;
    LinksAt(parent.child, ts, k);
    Neighbours(ts, k);
    newitem.next := c;
    newitem.prev := c.prev;
    c.prev := newitem;
    if c == parent.child {
      parent.child := newitem;
    } else {
      newitem.prev.next := newitem;
    }
    LinkedIn(parent.child, ts, k, x);
  }

  lemma {:induction false} LinkedBehind(head: Node?, ts: seq<Tree>, x: Tree)
    requires x.node.prev == (if ts == [] then null else ts[|ts| - 1].node) && x.node.next == null
    requires Links(head, ts, x.node)
    ensures Links(head, Inserted(ts, |ts|, x), null)
  {
    var ts' := Inserted(ts, |ts|, x);
    InsertedAt(ts, |ts|, x, 0);
    forall j | 0 <= j < |ts'| ensures ts'[j].node.prev == Before(ts', j) && ts'[j].node.next == Behind(ts', j, null) {
      InsertedAt(ts, |ts|, x, j);
      if j > 0 { InsertedAt(ts, |ts|, x, j - 1); }
      if j < |ts| { InsertedAt(ts, |ts|, x, j + 1); }
      hide Inserted;
      if j < |ts| { assert ts[j].node.prev == Before(ts, j); }
    }
  }

  /** The body of cJSON_AddItemToArray. */
  method LinkLast(parent: Node, item: Node, ghost ts: seq<Tree>, ghost x: Tree)
    requires Links(parent.child, ts, null) && AllSeparate(ts)
    requires x.node == item && item !in Nodes(ts) && item.prev == null && item.next == null
    modifies parent`child, Nodes(ts)`next, item`prev
    ensures Links(parent.child, Inserted(ts, |ts|, x), null)
  {
    hide AllSeparate, Nodes, Below, Inserted;
    Distinct(ts);
    var c := parent.child;
    if c == null {
      parent.child := item;
    } else {
      ghost var i := 0;
      while c.next != null
        invariant i < |ts| && c == ts[i].node
        decreases |ts| - i
      {
        c := c.next;
        i := i + 1;
      }
      c.next := item;
      item.prev := c;
    }
    LinkedBehind(parent.child, ts, x);
  }

  lemma {:induction false} Swapped(head: Node?, ts: seq<Tree>, k: nat, x: Tree)
    requires k < |ts| && x.node.prev == Before(ts, k) && x.node.next == Behind(ts, k, null)
    requires head == if k == 0 then x.node else ts[0].node
    requires forall i :: 0 <= i < |ts| && i != k ==> ts[i].node.prev == if i == k + 1 then x.node else Before(ts, i)
    requires forall i :: 0 <= i < |ts| && i != k ==>
      ts[i].node.next == if i == k - 1 then x.node else Behind(ts, i, null)
    ensures Links(head, ts[k := x], null)
  {
    var ts' := ts[k := x];
    forall i | 0 <= i < |ts'| ensures ts'[i].node.prev == Before(ts', i) && ts'[i].node.next == Behind(ts', i, null) {
      if i != k { assert ts'[i] == ts[i] && ts[i].node.prev == if i == k + 1 then x.node else Before(ts, i); }
    }
  }

  /** The body of cJSON_ReplaceItemInArray up to the deletion of the old item. */
  method LinkInstead(parent: Node, c: Node, newitem: Node, ghost ts: seq<Tree>, ghost k: nat, ghost x: Tree)
    requires k < |ts| && c == ts[k].node && Links(parent.child, ts, null) && AllSeparate(ts)
    requires x.node == newitem && newitem !in Nodes(ts)
    modifies parent`child, Nodes(ts)`next, Nodes(ts)`prev, newitem`next, newitem`prev
    ensures Links(parent.child, ts[k := x], null) && c.next == null && c.prev == null
  {
    hide AllSeparate, Nodes, Below, Links;
    OldIsOut(ts, k, x);
    newitem.next := c.next;
    newitem.prev := c.prev;
    LinkAround(parent, c, newitem, ts, k, x);
    c.next, c.prev := null, null;
  }

  lemma {:induction false} OldIsOut(ts: seq<Tree>, k: nat, x: Tree)
    requires k < |ts| && AllSeparate(ts) && x.node !in Nodes(ts)
    ensures ts[k].node !in Nodes(ts[k := x]) && ts[k].node != x.node && ts[k].node in Nodes(ts)
  {
    hide AllSeparate;
    Distinct(ts);
    NotThere(ts[k := x], ts[k].node);
  }

  lemma {:induction false} NotThere(ts: seq<Tree>, n: Node)
    requires forall i :: 0 <= i < |ts| ==> ts[i].node != n
    ensures n !in Nodes(ts)
  {
    if ts != [] { NotThere(ts[..|ts| - 1], n); }
  }

  /** The neighbours of c are made to point to newitem, which already points to them. */
  method LinkAround(parent: Node, c: Node, newitem: Node, ghost ts: seq<Tree>, ghost k: nat, ghost x: Tree)
    requires k < |ts| && c == ts[k].node && Links(parent.child, ts, null) && AllSeparate(ts)
    requires x.node == newitem && newitem !in Nodes(ts) && newitem.next == c.next && newitem.prev == c.prev
    modifies parent`child, Nodes(ts)`next, Nodes(ts)`prev
    ensures Links(parent.child, ts[k := x], null)
  {
    hide AllSeparate, Nodes, Below, Before, Behind;
    LinksAt(parent.child, ts, k);
    Neighbours(ts, k);
    if newitem.next != null {
      newitem.next.prev := newitem;
    }
    if c == parent.child {
      parent.child := newitem;
    } else {
      newitem.prev.next := newitem;
    }
    Swapped(parent.child, ts, k, x);
  }
}
