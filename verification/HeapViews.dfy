/** Reading a tree: what its root and its children show. */
module HeapViews {
  import opened Json
  import opened Heap

  /** t is a complete tree whose children denote ms, keys included. */
  ghost predicate Intact(t: Tree, ms: seq<Member>)
    reads t.node, Deep(t)
  {
    Shape(t) && Finished(t) && DenMembers(t.kids) == ms
  }

  lemma {:induction false} IsIntact(t: Tree)
    requires Shape(t) && Finished(t)
    ensures Intact(t, DenMembers(t.kids))
  {
  }

  lemma {:induction false} IntactMembers(t: Tree, ms: seq<Member>)
    requires Intact(t, ms)
    ensures Shape(t) && Finished(t) && DenMembers(t.kids) == ms
  {
  }

  lemma {:induction false} Children(item: Node, t: Tree)
    requires t.node == item && Shape(t)
    ensures item.child == if t.kids == [] then null else t.kids[0].node
    ensures allocated(Deep(t)) && allocated(Nodes(t.kids)) && allocated(Below(t.kids))
    ensures Nodes(t.kids) <= Deep(t) && Below(t.kids) <= Deep(t)
  {
    hide Nodes, Below;
    Allocated(t.kids);
    DeepAllocated(t);
  }

  lemma {:induction false} ChildIs(item: Node, t: Tree, k: nat)
    requires t.node == item && Shape(t) && Finished(t) && k < |t.kids|
    ensures Shape(t.kids[k]) && Finished(t.kids[k]) && t.kids[k].node.next == Behind(t.kids, k, null)
    ensures DenMembers(t.kids)[k] == DenMember(t.kids[k])
    ensures Whole(t.kids[k]) <= Deep(t) && t.kids[k] in t.kids
  {
    hide Nodes, Below, DenMember, DenMembers;
  }

  lemma {:induction false} ChildAt(item: Node, t: Tree, ms: seq<Member>, k: nat)
    requires t.node == item && Intact(t, ms) && k < |t.kids|
    ensures |ms| == |t.kids| && ms[k] == DenMember(t.kids[k]) && ms[..k + 1] == ms[..k] + [DenMember(t.kids[k])]
    ensures Shape(t.kids[k]) && Finished(t.kids[k]) && t.kids[k].node.next == Behind(t.kids, k, null)
    ensures Whole(t.kids[k]) <= Deep(t) && t.kids[k] in t.kids
  {
    hide *;
    IntactMembers(t, ms);
    ChildIs(item, t, k);
  }

  /** t is the complete tree at item, and v is what it denotes. */
  ghost predicate Shows(item: Node, t: Tree, v: Json)
    reads t.node, Deep(t)
  {
    t.node == item && Shape(t) && Finished(t) && Den(t) == v
  }

  ghost predicate Values(ms: seq<Member>, vs: seq<Json>) {
    |ms| == |vs| && forall i :: 0 <= i < |ms| ==> ms[i].value == vs[i]
  }

  lemma {:induction false} ShowsKind(item: Node, t: Tree, v: Json)
    requires Shows(item, t, v)
    ensures match item.kind
      case Invalid => false
      case KNull => v == JNull
      case KFalse => v == JBool(false)
      case KTrue => v == JBool(true)
      case KNumber => v == JNumber(item.valuedouble)
      case KString => item.valuestring == t.vs && IsText(t.vs) && v == JString(TextOf(t.vs))
      case KArray => v.JArray? && |v.elems| == |DenMembers(t.kids)| && Values(DenMembers(t.kids), v.elems)
      case KObject => v == JObject(DenMembers(t.kids))
    ensures t.node == item && Intact(t, DenMembers(t.kids)) && Opt(t.vs) <= Deep(t)
  {
    hide Nodes, Below, Links, Shapes, AllFinished, DenElems, DenMembers, TextOf, IsText;
    ElemsAreValues(t.kids);
  }

  /** The values of the members of a list, whose keys they also have, are its elements. */
  lemma {:induction false} ElemsAreValues(ts: seq<Tree>)
    ensures Values(DenMembers(ts), DenElems(ts))
  {
    hide Den;
  }

  lemma {:induction false} KidShows(item: Node, t: Tree, ms: seq<Member>, k: nat)
    requires t.node == item && Intact(t, ms) && k < |t.kids|
    ensures |ms| == |t.kids| && Shows(t.kids[k].node, t.kids[k], ms[k].value)
    ensures t.kids[k].node.key == t.kids[k].key && IsText(t.kids[k].key) && ms[k].key == TextOf(t.kids[k].key)
    ensures t.kids[k].node.next == Behind(t.kids, k, null) && Whole(t.kids[k]) <= Deep(t) && t.kids[k] in t.kids
    ensures Opt(t.kids[k].key) <= Deep(t)
  {
    hide Nodes, Below, Intact, Links, Shapes, AllFinished, DenElems, DenMembers, Den, TextOf, IsText;
    ChildAt(item, t, ms, k);
  }

  /** Walking along the children. */
  lemma {:induction false} NextChild(item: Node, t: Tree, ms: seq<Member>, k: nat)
    requires t.node == item && Intact(t, ms)
    ensures |ms| == |t.kids| && item.child == if t.kids == [] then null else t.kids[0].node
    ensures k < |t.kids| ==> t.kids[k].node.next == if k + 1 < |t.kids| then t.kids[k + 1].node else null
  {
    hide Intact, Nodes, Below;
    IntactMembers(t, ms);
    Children(item, t);
    if k < |t.kids| { ChildAt(item, t, ms, k); }
  }

  /** The counting loop of both printers. */
  method CountChildren(item: Node, ghost t: Tree, ghost ms: seq<Member>) returns (n: nat)
    requires t.node == item && Intact(t, ms)
    ensures n == |t.kids| == |ms|
  {
    hide *;
    DeepAllocated(t);
    NextChild(item, t, ms, 0);
    n := 0;
    var child := item.child;
    while child != null
      invariant n <= |t.kids| && child == (if n < |t.kids| then t.kids[n].node else null) && Intact(t, ms)
      decreases |t.kids| - n
    {
      NextChild(item, t, ms, n);
      child := child.next;
      n := n + 1;
    }
  }
}
