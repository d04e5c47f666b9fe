/** cJSON nodes and the strings they point to, as heap objects, and the allocator. */
module Heap {
  import opened CString
  import opened Buffer
  import opened Json

  /** type & 0xFF; Invalid is the 0 of a fresh node. */
  datatype Kind = Invalid | KFalse | KTrue | KNull | KNumber | KString | KArray | KObject

  /** struct cJSON. The two flags are the bits cJSON_IsReference and cJSON_StringIsConst of type. */
  class Node {
    var next: Node?
    var prev: Node?
    var child: Node?
    var kind: Kind
    var isReference: bool
    var stringIsConst: bool
    var valuestring: array?<byte>
    var valuedouble: real
    var key: array?<byte>

    /** cJSON_New_Item: all zero. */
    constructor ()
      ensures next == null && prev == null && child == null && kind == Invalid
      ensures !isReference && !stringIsConst && valuestring == null && key == null
    {
      next, prev, child, kind := null, null, null, Invalid;
      isReference, stringIsConst := false, false;
      valuestring, valuedouble, key := null, 0.0, null;
    }
  }

  /** A comparison of the whole type word, which is also about the two flags. */
  predicate TypeIs(n: Node, kind: Kind)
    reads n
  {
    n.kind == kind && !n.isReference && !n.stringIsConst
  }

  /** What malloc has handed out and free has not taken back. Only live blocks may be freed, so
      nothing is freed twice. Any allocation may fail; failed records that one did. */
  class Memory {
    ghost var live: set<object>
    ghost var failed: bool

    method NewNode() returns (n: Node?)
      modifies this
      ensures n == null ==> live == old(live) && failed
      ensures n != null ==> fresh(n) && live == old(live) + {n} && failed == old(failed)
      ensures n != null ==> n.next == null && n.prev == null && n.child == null && n.kind == Invalid
      ensures n != null ==> !n.isReference && !n.stringIsConst && n.valuestring == null && n.key == null
    {
      if * {
        n := new Node();
        live := live + {n};
      } else {
        n := null;
        failed := true;
      }
    }

    method Malloc(size: nat) returns (a: array?<byte>)
      modifies this
      ensures a == null ==> live == old(live) && failed
      ensures a != null ==> fresh(a) && a.Length == size && live == old(live) + {a} && failed == old(failed)
    {
      if * {
        a := new byte[size];
        live := live + {a};
      } else {
        a := null;
        failed := true;
      }
    }

    /** malloc and memset of an array of pointers. */
    method MallocPointers(n: nat) returns (a: array?<array?<byte>>)
      modifies this
      ensures a == null ==> live == old(live) && failed
      ensures a != null ==> fresh(a) && a.Length == n && live == old(live) + {a} && failed == old(failed)
      ensures a != null ==> forall i :: 0 <= i < n ==> a[i] == null
    {
      if * {
        a := new array?<byte>[n](_ => null);
        live := live + {a};
      } else {
        a := null;
        failed := true;
      }
    }

    method Free(ghost o: object)
      requires o in live
      modifies this
      ensures live == old(live) - {o} && failed == old(failed)
    {
      live := live - {o};
    }
  }

  // ---- the shape of a tree ----

  /** A picture of the tree at node: its strings, whether it owns them, and its children in order.
      Purely a specification device; Shape says that the heap looks like the picture. */
  datatype Tree = Tree(node: Node, vs: array?<byte>, key: array?<byte>, owns: bool, ownsKey: bool, kids: seq<Tree>)

  ghost function Opt(a: array?<byte>): set<object> {
    if a == null then {} else {a}
  }

  ghost function Nodes(ts: seq<Tree>): (r: set<Node>)
    ensures forall i :: 0 <= i < |ts| ==> ts[i].node in r
  {
    if ts == [] then {} else
    assert forall i :: 0 <= i < |ts| - 1 ==> ts[i] == ts[..|ts| - 1][i];
    Nodes(ts[..|ts| - 1]) + {ts[|ts| - 1].node}
  }

  /** What is reached from a node without the node itself. */
  ghost function Deep(t: Tree): (r: set<object>)
    ensures Opt(t.vs) <= r && Opt(t.key) <= r && Nodes(t.kids) <= r && Below(t.kids) <= r
    decreases t, 0
  {
    Opt(t.vs) + Opt(t.key) + Nodes(t.kids) + Below(t.kids)
  }

  ghost function Below(ts: seq<Tree>): (r: set<object>)
    ensures forall i :: 0 <= i < |ts| ==> Deep(ts[i]) <= r
    decreases ts, 1
  {
    if ts == [] then {} else
    assert forall i :: 0 <= i < |ts| - 1 ==> ts[i] == ts[..|ts| - 1][i];
    Below(ts[..|ts| - 1]) + Deep(ts[|ts| - 1])
  }

  ghost function Whole(t: Tree): set<object> {
    Deep(t) + {t.node}
  }

  ghost function Objs(ts: seq<Tree>): set<object> {
    Nodes(ts) + Below(ts)
  }

  ghost predicate IsText(a: array?<byte>)
    reads if a == null then {} else {a}
  {
    a != null ==> Terminated(a[..], 0)
  }

  ghost function TextOf(a: array?<byte>): Str
    reads if a == null then {} else {a}
  {
    if a != null && Terminated(a[..], 0) then TextAt(a[..], 0) else Nul
  }

  ghost function Before(ts: seq<Tree>, i: nat): Node?
    requires i < |ts|
  {
    if i == 0 then null else ts[i - 1].node
  }

  ghost function Behind(ts: seq<Tree>, i: nat, tail: Node?): Node?
    requires i < |ts|
  {
    if i == |ts| - 1 then tail else ts[i + 1].node
  }

  /** The nodes hang on head as a doubly linked list; the last one points to tail. */
  ghost predicate Links(head: Node?, ts: seq<Tree>, tail: Node?)
    reads Nodes(ts)`next, Nodes(ts)`prev
  {
    && head == (if ts == [] then tail else ts[0].node)
    && forall i :: 0 <= i < |ts| ==> ts[i].node.prev == Before(ts, i) && ts[i].node.next == Behind(ts, i, tail)
  }

  /** The heap below and in the node is as pictured; its place among its siblings is left open. */
  ghost predicate Shape(t: Tree)
    reads t.node`child, t.node`valuestring, t.node`key, t.node`isReference, t.node`stringIsConst, Deep(t)
    decreases t, 0
  {
    && t.node.valuestring == t.vs && t.node.key == t.key
    && t.node.isReference == !t.owns && t.node.stringIsConst == !t.ownsKey
    && Links(t.node.child, t.kids, null)
    && Shapes(t.kids)
  }

  ghost predicate Shapes(ts: seq<Tree>)
    reads Nodes(ts)`child, Nodes(ts)`valuestring, Nodes(ts)`key,
      Nodes(ts)`isReference, Nodes(ts)`stringIsConst, Below(ts)
    decreases ts, 1
  {
    forall i :: 0 <= i < |ts| ==> Shape(ts[i])
  }

  /** Every node has a type and every string is terminated; a failed parse leaves nodes without. */
  ghost predicate Finished(t: Tree)
    reads t.node`kind, Deep(t)
    decreases t, 0
  {
    t.node.kind != Invalid && IsText(t.vs) && IsText(t.key) && AllFinished(t.kids)
  }

  ghost predicate AllFinished(ts: seq<Tree>)
    reads Nodes(ts)`kind, Below(ts)
    decreases ts, 1
  {
    forall i :: 0 <= i < |ts| ==> Finished(ts[i])
  }

  /** No two places of the picture are the same object. */
  ghost predicate Separate(t: Tree)
    decreases t, 0
  {
    && t.node !in Deep(t) && Opt(t.vs) !! Opt(t.key) && Opt(t.vs) + Opt(t.key) !! Objs(t.kids)
    && AllSeparate(t.kids)
  }

  ghost predicate AllSeparate(ts: seq<Tree>)
    decreases ts, 1
  {
    ts == [] ||
    (var last := ts[|ts| - 1];
     AllSeparate(ts[..|ts| - 1]) && Separate(last) && Whole(last) !! Objs(ts[..|ts| - 1]))
  }

  /** A picture that exists shows existing objects only. */
  lemma {:induction false} Allocated(ts: seq<Tree>)
    ensures allocated(Nodes(ts)) && allocated(Below(ts))
    decreases ts
  {
    if ts != [] {
      hide Deep;
      Allocated(ts[..|ts| - 1]);
      DeepAllocated(ts[|ts| - 1]);
    }
  }

  lemma {:induction false} DeepAllocated(t: Tree)
    ensures allocated(Deep(t))
    decreases t
  {
    Allocated(t.kids);
  }

  /** The allocator is no part of a tree. */
  lemma {:induction false} NoMemory(ts: seq<Tree>, m: Memory)
    ensures m !in Below(ts) && m !in Objs(ts)
    decreases ts
  {
    if ts != [] {
      hide Deep;
      NoMemory(ts[..|ts| - 1], m);
      NoMemoryBelow(ts[|ts| - 1], m);
    }
  }

  lemma {:induction false} NoMemoryBelow(t: Tree, m: Memory)
    ensures m !in Deep(t)
    decreases t
  {
    NoMemory(t.kids, m);
  }

  /** Siblings are not below each other. */
  lemma {:induction false} SiblingsApart(ts: seq<Tree>)
    requires AllSeparate(ts)
    ensures Nodes(ts) !! Below(ts)
    decreases ts
  {
    if ts != [] {
      var init, last := ts[..|ts| - 1], ts[|ts| - 1];
      SiblingsApart(init);
      assert last.node !in Deep(last);
      hide *;
      assert Nodes(ts) == Nodes(init) + {last.node} by { NodesSnoc(ts); }
      assert Below(ts) == Below(init) + Deep(last) by { NodesSnoc(ts); }
      assert Deep(last) + {last.node} !! Nodes(init) + Below(init) by { SeparateSnoc(ts); }
    }
  }

  lemma {:induction false} NodesSnoc(ts: seq<Tree>)
    requires ts != []
    ensures Nodes(ts) == Nodes(ts[..|ts| - 1]) + {ts[|ts| - 1].node}
    ensures Below(ts) == Below(ts[..|ts| - 1]) + Deep(ts[|ts| - 1])
  {
    hide Deep;
  }

  lemma {:induction false} SnocInside(ts: seq<Tree>)
    requires ts != []
    ensures Nodes(ts[..|ts| - 1]) <= Nodes(ts) && Below(ts[..|ts| - 1]) <= Below(ts)
    ensures ts[|ts| - 1].node in Nodes(ts) && Deep(ts[|ts| - 1]) <= Below(ts)
  {
    hide Deep;
  }

  lemma {:induction false} SeparateSnoc(ts: seq<Tree>)
    requires ts != [] && AllSeparate(ts)
    ensures Deep(ts[|ts| - 1]) + {ts[|ts| - 1].node} !! Nodes(ts[..|ts| - 1]) + Below(ts[..|ts| - 1])
  {
    hide Deep, Nodes, Below;
  }

  lemma {:induction false} NodesDistinct(ts: seq<Tree>, i: nat, j: nat)
    requires AllSeparate(ts) && i < j < |ts|
    ensures ts[i].node != ts[j].node
    decreases ts
  {
    hide Deep, Nodes, Below, Separate;
    var init := ts[..|ts| - 1];
    assert ts[i] == init[i] && init[i].node in Nodes(init);
    if j < |init| {
      assert ts[j] == init[j];
      NodesDistinct(init, i, j);
    }
  }

  /** Neither references nor constant keys. */
  ghost predicate OwnsAll(t: Tree)
    decreases t, 0
  {
    t.owns && t.ownsKey && AllOwned(t.kids)
  }

  ghost predicate AllOwned(ts: seq<Tree>)
    decreases ts, 1
  {
    forall i :: 0 <= i < |ts| ==> OwnsAll(ts[i])
  }

  // ---- what a tree denotes ----

  ghost function Den(t: Tree): Json
    reads t.node`kind, t.node`valuedouble, Deep(t)
    decreases t, 0
  {
    match t.node.kind
    case Invalid => JNull
    case KNull => JNull
    case KFalse => JBool(false)
    case KTrue => JBool(true)
    case KNumber => JNumber(t.node.valuedouble)
    case KString => JString(TextOf(t.vs))
    case KArray => JArray(DenElems(t.kids))
    case KObject => JObject(DenMembers(t.kids))
  }

  ghost function DenElems(ts: seq<Tree>): (r: seq<Json>)
    reads Nodes(ts)`kind, Nodes(ts)`valuedouble, Below(ts)
    ensures |r| == |ts|
    ensures forall i :: 0 <= i < |ts| ==> r[i] == Den(ts[i])
    decreases ts, 3
  {
    hide Nodes, Below, Deep;
    if ts == [] then [] else
    SnocInside(ts);
    assert forall i :: 0 <= i < |ts| - 1 ==> ts[i] == ts[..|ts| - 1][i];
    DenElems(ts[..|ts| - 1]) + [Den(ts[|ts| - 1])]
  }

  ghost function DenMembers(ts: seq<Tree>): (r: seq<Member>)
    reads Nodes(ts)`kind, Nodes(ts)`valuedouble, Below(ts)
    ensures |r| == |ts|
    ensures forall i :: 0 <= i < |ts| ==> r[i] == DenMember(ts[i])
    decreases ts, 3
  {
    hide Nodes, Below, Deep;
    if ts == [] then [] else
    SnocInside(ts);
    assert forall i :: 0 <= i < |ts| - 1 ==> ts[i] == ts[..|ts| - 1][i];
    DenMembers(ts[..|ts| - 1]) + [DenMember(ts[|ts| - 1])]
  }

  ghost function DenMember(t: Tree): Member
    reads t.node`kind, t.node`valuedouble, Deep(t)
    decreases t, 2
  {
    Member(TextOf(t.key), Den(t))
  }
}
