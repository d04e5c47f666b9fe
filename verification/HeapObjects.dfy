/** The operations of cJSON.c that find an object member by its key, whatever its case. */
module HeapObjects {
  import opened CString
  import opened Buffer
  import opened Json
  import opened Heap
  import opened HeapDelete
  import opened HeapLists
  import opened HeapOps
  import opened HeapStrings
  import opened Sequences

  /** The children of an object: every one has a key. */
  ghost predicate Keyed(ts: seq<Tree>)
    reads Below(ts)
  {
    forall i :: 0 <= i < |ts| ==> ts[i].key != null && IsText(ts[i].key)
  }

  ghost predicate Named(t: Tree, name: Str)
    reads Opt(t.key)
  {
    t.key != null && SameNoCase(TextOf(t.key), name)
  }

  /** The first child from the i-th on that has the key name, whatever its case. A child without a key
      has no name, not even an empty one. */
  ghost function FirstNamed(ts: seq<Tree>, name: Str, i: nat): (r: nat)
    requires i <= |ts|
    reads Below(ts)
    ensures i <= r <= |ts| && (forall j :: i <= j < r ==> !Named(ts[j], name)) && (r < |ts| ==> Named(ts[r], name))
    decreases |ts| - i
  {
    if i == |ts| then i else
    assert Opt(ts[i].key) <= Deep(ts[i]) <= Below(ts);
    if Named(ts[i], name) then i else FirstNamed(ts, name, i + 1)
  }

  ghost predicate KeyTexts(ts: seq<Tree>)
    reads Below(ts)
  {
    forall i :: 0 <= i < |ts| ==> IsText(ts[i].key)
  }

  /** The texts of the keys tell which child that is, unless the empty key is searched and a child without
      a key stands in front of it: the texts do not distinguish a missing key from an empty one. */
  lemma {:induction false} FirstNamedIs(ts: seq<Tree>, name: Str)
    requires KeyTexts(ts)
    ensures FirstNamed(ts, name, 0) == FirstKey(DenMembers(ts), name) <==>
      name.Ch? || forall j :: 0 <= j < FirstNamed(ts, name, 0) ==> ts[j].key != null
  {
    hide Deep, Below, Nodes, DenMembers, Den;
    var i, ms := FirstNamed(ts, name, 0), DenMembers(ts);
    forall j | 0 <= j < |ts| ensures ms[j].key == TextOf(ts[j].key) { KidAt(ts, j); }
    if name.Ch? || forall j :: 0 <= j < i ==> ts[j].key != null {
      forall j | 0 <= j < i ensures !SameNoCase(ms[j].key, name) { assert !Named(ts[j], name); }
      FirstKeyUnique(ms, name, i);
    } else {
      var j :| 0 <= j < i && ts[j].key == null;
      assert SameNoCase(ms[j].key, name);
    }
  }

  /** The key of the child found agrees with the name in all but the case of letters, and no earlier key
      does. */
  lemma {:induction false} FirstNamedAgrees(ts: seq<Tree>, name: Str)
    ensures var i := FirstNamed(ts, name, 0);
      && (forall j :: 0 <= j < i ==> ts[j].key == null || !SameLetters(TextOf(ts[j].key), name))
      && (i < |ts| ==> ts[i].key != null && SameLetters(TextOf(ts[i].key), name))
  {
    hide SameNoCase, SameLetters, TextOf, Deep, Nodes, Below;
    var i := FirstNamed(ts, name, 0);
    forall j | 0 <= j < i ensures ts[j].key == null || !SameLetters(TextOf(ts[j].key), name) {
      assert !Named(ts[j], name);
      SameNoCaseIs(TextOf(ts[j].key), name);
    }
    if i < |ts| { SameNoCaseIs(TextOf(ts[i].key), name); }
  }

  /** A name in other letters finds the same child. */
  lemma {:induction false} AnyCase(ts: seq<Tree>, a: Str, b: Str, i: nat)
    requires SameLetters(a, b) && i <= |ts|
    ensures FirstNamed(ts, a, i) == FirstNamed(ts, b, i)
    decreases |ts| - i
  {
    if i < |ts| {
      hide SameNoCase, SameLetters, TextOf, Deep, Nodes, Below;
      AnyCase(ts, a, b, i + 1);
      SameNoCaseIs(a, b);
      SameNoCaseBoth(TextOf(ts[i].key), a, b);
    }
  }

  /** A complete object has terminated keys. */
  lemma {:induction false} FinishedKeys(t: Tree)
    requires Finished(t)
    ensures KeyTexts(t.kids)
  {
    hide Deep, Nodes, Below;
    forall i | 0 <= i < |t.kids| ensures IsText(t.kids[i].key) { assert Finished(t.kids[i]); }
  }

  /** cJSON_strcasecmp, asked whether it finds no difference. */
  method StrCaseEqual(a: array?<byte>, s: Str) returns (same: bool)
    requires IsText(a)
    ensures same == (a != null && SameNoCase(TextOf(a), s))
    ensures same == (a != null && SameLetters(TextOf(a), s))
  {
    hide SameLetters;
    SameNoCaseIs(TextOf(a), s);
    if a == null {
      return false;
    }
    var i, t := 0, s;
    while ToLower(a[i]) == ToLower(Hd(t))
      invariant Terminated(a[..], i)
      invariant SameNoCase(TextAt(a[..], i), t) == SameNoCase(TextOf(a), s)
      decreases a.Length - i
    {
      if a[i] == 0 {
        return true;
      }
      i, t := i + 1, t.rest;
    }
    same := false;
  }

  /** cJSON_GetObjectItem, and the search loop of the other operations: the first match and its index. */
  method GetObjectItem(parent: Node, name: Str, ghost p: Tree) returns (c: Node?, i: nat)
    requires p.node == parent && Shape(p) && KeyTexts(p.kids)
    ensures i == FirstNamed(p.kids, name, 0)
    ensures c == if i < |p.kids| then p.kids[i].node else null
  {
    hide Shape, KeyTexts, Links, Nodes, Below, Deep, Named, FirstNamed, SameNoCase, TextOf, IsText;
    ghost var ts := p.kids;
    DeepAllocated(p);
    KeyAt(parent, p, 0);
    c := parent.child;
    i := 0;
    while c != null
      invariant i <= |ts| && c == (if i < |ts| then ts[i].node else null)
      invariant Shape(p) && KeyTexts(ts) && FirstNamed(ts, name, i) == FirstNamed(ts, name, 0)
      decreases |ts| - i
    {
      KeyAt(parent, p, i);
      FirstFrom(ts, name, i);
      var same := StrCaseEqual(c.key, name);
      assert same == Named(ts[i], name) by { NamedIs(ts[i], name); }
      if same {
        break;
      }
      c := c.next;
      i := i + 1;
    }
    FirstFrom(ts, name, i);
  }

  lemma FirstFrom(ts: seq<Tree>, name: Str, i: nat)
    requires i <= |ts|
    ensures FirstNamed(ts, name, i) == if i == |ts| || Named(ts[i], name) then i else FirstNamed(ts, name, i + 1)
  {
    hide Named;
  }

  lemma NamedIs(t: Tree, name: Str)
    ensures Named(t, name) == (t.key != null && SameNoCase(TextOf(t.key), name))
  {
  }

  lemma {:induction false} KeyAt(parent: Node, p: Tree, i: nat)
    requires p.node == parent && Shape(p) && KeyTexts(p.kids)
    ensures parent.child == if p.kids == [] then null else p.kids[0].node
    ensures allocated(Below(p.kids)) && allocated(Nodes(p.kids))
    ensures i < |p.kids| ==> var kid := p.kids[i];
      kid.node.key == kid.key && IsText(kid.key) && kid.node.next == Behind(p.kids, i, null)
  {
    hide Deep, Nodes, Below;
    Allocated(p.kids);
    if i < |p.kids| {
      KidAt(p.kids, i);
      LinksAt(parent.child, p.kids, i);
      assert Shape(p.kids[i]);
    }
  }

  lemma {:induction false} NamedContainer(parent: Node, p: Tree, name: Str)
    requires Container(parent, p) && KeyTexts(p.kids)
    ensures p.node == parent && Shape(p)
    ensures Keyed(p.kids) || name.Ch? ==> FirstNamed(p.kids, name, 0) == FirstKey(DenMembers(p.kids), name)
  {
    FirstNamedIs(p.kids, name);
    hide Deep, Nodes, Below;
  }

  /** cJSON_DetachItemFromObject */
  method DetachItemFromObject(parent: Node, name: Str, ghost p: Tree) returns (c: Node?, ghost k: nat)
    requires Container(parent, p) && KeyTexts(p.kids)
    modifies parent`child, Nodes(p.kids)`next, Nodes(p.kids)`prev
    ensures k == old(FirstNamed(p.kids, name, 0))
    ensures old(Keyed(p.kids)) || name.Ch? ==> k == FirstKey(old(DenMembers(p.kids)), name)
    ensures k == |p.kids| ==> c == null && Container(parent, p)
    ensures k < |p.kids| ==> c != null && Container(parent, p.(kids := Without(p.kids, k)))
    ensures k < |p.kids| ==> Detached(c, p.kids[k], p.(kids := Without(p.kids, k)))
    ensures k < |p.kids| ==> DenMembers(Without(p.kids, k)) == Without(old(DenMembers(p.kids)), k)
    ensures k < |p.kids| ==> DenMember(p.kids[k]) == old(DenMember(p.kids[k]))
    ensures k == |p.kids| ==> Finished(p) == old(Finished(p))
    ensures k < |p.kids| && old(Finished(p)) ==> Finished(p.(kids := Without(p.kids, k))) && Finished(p.kids[k])
  {
    hide Container, Detached, Shape, KeyTexts, Keyed, Links, Without, Deep, Nodes, Below, DenMembers, Finished;
    ContainerLinks(parent, p);
    NamedContainer(parent, p, name);
    var i;
    c, i := GetObjectItem(parent, name, p);
    k := i;
    if c != null {
      c, k := DetachItemFromArray(parent, i, p);
    }
  }

  // ---- keys ----

  /** A key that is no part of the tree may become its key. */
  lemma {:induction false} Rekeyed(item: Node, x: Tree, p: Tree, key: array?<byte>)
    requires x.node == item && item.valuestring == x.vs
    requires item.isReference == !x.owns && item.stringIsConst == !x.ownsKey
    requires Links(item.child, x.kids, null) && Shapes(x.kids) && Separate(x)
    requires item.next == null && item.prev == null && item.key == key && Whole(x) !! Whole(p)
    requires key != null ==> key !in Whole(x) + Whole(p)
    ensures Detached(item, x.(key := key), p) && Den(x.(key := key)) == Den(x)
    ensures Finished(x) && IsText(key) ==> Finished(x.(key := key))
  {
    hide Links, Shapes, AllSeparate, Nodes, Below, DenElems, DenMembers;
    assert Deep(x.(key := key)) <= Deep(x) + Opt(key);
  }

  /** What an operation on the allocator and on the key of x leaves alone. */
  lemma {:induction false} Frames(m: Memory, parent: Node, p: Tree, item: Node, x: Tree)
    requires Container(parent, p) && Detached(item, x, p)
    ensures m !in Deep(p) && m !in Deep(x) && m !in Below(p.kids) && m !in Below(x.kids)
    ensures allocated(Deep(p)) && allocated(Below(p.kids)) && allocated(Nodes(p.kids)) && allocated(Deep(x))
    ensures parent !in Below(p.kids) && parent !in Deep(x)
    ensures item != parent && item !in Nodes(p.kids) && item !in Deep(p) && item !in Below(p.kids) && item !in Deep(x)
    ensures item.key == x.key && item == x.node && parent == p.node && Nodes(p.kids) !! Below(p.kids)
  {
    hide Links, Shapes, Separate, Nodes, Below;
    Parts(x);
    Parts(p);
    Allocated(p.kids);
    NoMemory(x.kids, m);
    NoMemory(p.kids, m);
    NoMemoryBelow(x, m);
    NoMemoryBelow(p, m);
    Foreign(p, x);
  }

  /** The item gets a copy of a name as its key. Nothing frees the key that was there. */
  method SetKey(m: Memory, item: Node, name: Str, ghost parent: Node, ghost p: Tree, ghost x: Tree)
    requires Detached(item, x, p) && Container(parent, p)
    modifies m, item`key
    ensures Detached(item, x.(key := item.key), p)
    ensures item.key == null ==> m.live == old(m.live) && m.failed
    ensures item.key != null ==> fresh(item.key) && m.live == old(m.live) + {item.key} && m.failed == old(m.failed)
    ensures item.key != null ==> IsText(item.key) && TextOf(item.key) == name
    ensures DenMember(x.(key := item.key)) == Member(if item.key == null then Nul else name, old(Den(x)))
    ensures Container(parent, p) && DenMembers(p.kids) == old(DenMembers(p.kids)) && Keyed(p.kids) == old(Keyed(p.kids))
    ensures Finished(p) == old(Finished(p)) && (old(Finished(x)) ==> Finished(x.(key := item.key)))
  {
    hide Links, Shapes, Separate, AllSeparate, Nodes, Below, Deep, Den, DenElems, DenMembers, Keyed, Finished, Opt;
    hide Objs;
    Frames(m, parent, p, item, x);
    Allocated(x.kids);
    var key := StrDup(m, name);
    item.key := key;
    Rekeyed(item, x, p, key);
  }

  /** cJSON_AddItemToObject: the item gets a copy of the key and becomes the last member. When the
      copy cannot be allocated it is added without a key. */
  method AddItemToObject(m: Memory, parent: Node, name: Str, item: Node, ghost p: Tree, ghost x: Tree)
    returns (ghost y: Tree)
    requires Container(parent, p) && Detached(item, x, p)
    requires Opt(x.key) <= m.live
    modifies parent`child, Nodes(p.kids)`next, item`prev, item`key, m
    ensures y == x.(key := item.key) && Container(parent, p.(kids := p.kids + [y]))
    ensures item.key == null ==> m.failed && m.live == old(m.live) - Opt(x.key)
    ensures item.key != null ==> fresh(item.key) && m.live == old(m.live) - Opt(x.key) + {item.key}
    ensures item.key != null && old(Keyed(p.kids)) ==> Keyed(p.kids + [y])
    ensures DenMembers(p.kids + [y]) ==
      old(DenMembers(p.kids)) + [Member(if item.key == null then Nul else name, old(Den(x)))]
    ensures old(Finished(p) && Finished(x)) ==> Finished(p.(kids := p.kids + [y]))
  {
    hide Container, Detached, Links, Shapes, AllSeparate, Nodes, Below, Deep, Den, DenElems, DenMembers, DenMember;
    hide Keyed, Finished;
    Frames(m, parent, p, item, x);
    ChangeKey(m, item, name, parent, p, x);
    y := x.(key := item.key);
    KeyedAppend(p.kids, y);
    AddItemToArray(parent, item, p, y);
    KeyedAppend(p.kids, y);
  }

  lemma {:induction false} KeyedAppend(ts: seq<Tree>, y: Tree)
    ensures Keyed(ts + [y]) <==> Keyed(ts) && y.key != null && IsText(y.key)
  {
    hide Deep, Below, Nodes;
    assert (ts + [y])[|ts|] == y;
    assert forall i :: 0 <= i < |ts| ==> (ts + [y])[i] == ts[i];
  }

  method ChangeKey(m: Memory, item: Node, name: Str, ghost parent: Node, ghost p: Tree, ghost x: Tree)
    requires Detached(item, x, p) && Container(parent, p) && Opt(x.key) <= m.live
    modifies m, item`key
    ensures Detached(item, x.(key := item.key), p)
    ensures item.key == null ==> m.live == old(m.live) - Opt(x.key) && m.failed
    ensures item.key != null ==>
      fresh(item.key) && m.live == old(m.live) - Opt(x.key) + {item.key} && m.failed == old(m.failed)
    ensures item.key != null ==> IsText(item.key) && TextOf(item.key) == name
    ensures DenMember(x.(key := item.key)) == Member(if item.key == null then Nul else name, old(Den(x)))
    ensures Container(parent, p) && DenMembers(p.kids) == old(DenMembers(p.kids)) && Keyed(p.kids) == old(Keyed(p.kids))
    ensures Finished(p) == old(Finished(p)) && (old(Finished(x)) ==> Finished(x.(key := item.key)))
  {
    hide Container, Detached, Links, Shapes, AllSeparate, Nodes, Below, Deep, Den, DenElems, DenMembers, DenMember;
    hide Keyed, Finished;
    Frames(m, parent, p, item, x);
    if item.key != null {
      m.Free(item.key);
    }
    SetKey(m, item, name, parent, p, x);
  }

  /** cJSON_ReplaceItemInObject: the first member with the key is freed, and the new one gets a copy
      of the key. Of all that belonged to the two trees, what is still allocated and no longer reached
      is what the old member did not own and the key that the new one had, which is not freed. */
  method ReplaceItemInObject(m: Memory, parent: Node, name: Str, newitem: Node, ghost p: Tree, ghost x: Tree)
    returns (ghost k: nat, ghost y: Tree)
    requires Container(parent, p) && Detached(newitem, x, p) && KeyTexts(p.kids)
    requires OwnList(p.kids) <= m.live
    modifies parent`child, Nodes(p.kids)`next, Nodes(p.kids)`prev, newitem`next, newitem`prev, newitem`key, m
    ensures k == old(FirstNamed(p.kids, name, 0))
    ensures old(Keyed(p.kids)) || name.Ch? ==> k == FirstKey(old(DenMembers(p.kids)), name)
    ensures k == |p.kids| ==> Container(parent, p) && m.live == old(m.live) && newitem.key == old(newitem.key)
    ensures k < |p.kids| ==> y == x.(key := newitem.key) && Container(parent, p.(kids := p.kids[k := y]))
    ensures k < |p.kids| ==>
      DenMembers(p.kids[k := y]) ==
        old(DenMembers(p.kids))[k := Member(if newitem.key == null then Nul else name, old(Den(x)))]
    ensures k < |p.kids| ==> m.live == old(m.live) - Own(p.kids[k]) + Opt(newitem.key)
    ensures k < |p.kids| && newitem.key == null ==> m.failed
    ensures k < |p.kids| && newitem.key != null ==> fresh(newitem.key)
    ensures k < |p.kids| ==>
      (Whole(p) + Whole(x)) * m.live - Whole(p.(kids := p.kids[k := y])) ==
        (Whole(p.kids[k]) - Own(p.kids[k]) + Opt(x.key)) * old(m.live)
    ensures k == |p.kids| ==> Finished(p) == old(Finished(p))
    ensures k < |p.kids| && old(Finished(p) && Finished(x)) ==> Finished(p.(kids := p.kids[k := y]))
  {
    hide Container, Detached, Links, Shapes, AllSeparate, Nodes, Below, Deep, Den, DenElems, DenMembers, DenMember;
    hide Keyed, Own, OwnList, Finished, Opt, Objs, Whole, TextOf, IsText;
    hide Shape, KeyTexts;
    Frames(m, parent, p, newitem, x);
    NamedContainer(parent, p, name);
    var c, i := GetObjectItem(parent, name, p);
    k, y := i, x;
    if c != null {
      k, y := ReplaceNamed(m, parent, i, name, newitem, p, x);
    }
  }

  /** The member at i, which has been found, is replaced. */
  method ReplaceNamed(m: Memory, parent: Node, i: nat, name: Str, newitem: Node, ghost p: Tree, ghost x: Tree)
    returns (ghost k: nat, ghost y: Tree)
    requires Container(parent, p) && Detached(newitem, x, p) && i < |p.kids|
    requires OwnList(p.kids) <= m.live
    modifies parent`child, Nodes(p.kids)`next, Nodes(p.kids)`prev, newitem`next, newitem`prev, newitem`key, m
    ensures k == i && y == x.(key := newitem.key) && Container(parent, p.(kids := p.kids[k := y]))
    ensures DenMembers(p.kids[k := y]) ==
      old(DenMembers(p.kids))[k := Member(if newitem.key == null then Nul else name, old(Den(x)))]
    ensures m.live == old(m.live) - Own(p.kids[k]) + Opt(newitem.key)
    ensures if newitem.key == null then m.failed else fresh(newitem.key)
    ensures (Whole(p) + Whole(x)) * m.live - Whole(p.(kids := p.kids[k := y])) ==
      (Whole(p.kids[k]) - Own(p.kids[k]) + Opt(x.key)) * old(m.live)
    ensures old(Finished(p) && Finished(x)) ==> Finished(p.(kids := p.kids[k := y]))
  {
    hide Container, Detached, Links, Shapes, AllSeparate, Nodes, Below, Deep, Den, DenElems, DenMembers, DenMember;
    hide Keyed, Own, OwnList, Finished, Separate, Whole, Objs;
    Frames(m, parent, p, newitem, x);
    OwnExists(p, i);
    BothSeparate(parent, p, newitem, x);
    SetKey(m, newitem, name, parent, p, x);
    y := x.(key := newitem.key);
    BothSeparate(parent, p, newitem, y);
    LeftBehind(newitem, p, x, y, i);
    ghost var kid := p.kids[i];
    k := ReplaceItemInArray(m, parent, i, newitem, p, y);
    Leak(Whole(p) + Whole(x), Whole(p.(kids := p.kids[i := y])), old(m.live), m.live, Own(kid), Whole(kid), Opt(x.key),
      Opt(y.key));
  }

  /** What is reached after the replacement, and what no longer is: the old member and the former key. */
  lemma {:induction false} LeftBehind(newitem: Node, p: Tree, x: Tree, y: Tree, k: nat)
    requires k < |p.kids| && Separate(p) && Separate(x) && Separate(y) && Whole(x) !! Whole(p)
    requires y == x.(key := y.key) && (y.key == null || y.key !in Whole(x)) && Whole(y) !! Whole(p)
    ensures (Whole(p) + Whole(x)) - Whole(p.(kids := p.kids[k := y])) == Whole(p.kids[k]) + Opt(x.key)
    ensures Opt(x.key) !! Own(p.kids[k]) && Own(p.kids[k]) <= Whole(p.kids[k])
    ensures Opt(y.key) !! Whole(p) + Whole(x)
  {
    hide Separate, Objs, Deep, Own, Whole, Opt;
    OwnWhole(p.kids[k]);
    KeyApart(p, x, k);
    ReplacedWhole(p, y, k);
    WholeRekeyed(x, y);
  }

  lemma {:induction false} WholeRekeyed(x: Tree, y: Tree)
    requires Separate(x) && y == x.(key := y.key) && (y.key == null || y.key !in Whole(x))
    ensures Whole(y) == Whole(x) - Opt(x.key) + Opt(y.key) && Opt(y.key) !! Whole(x)
  {
    hide Nodes, Below, AllSeparate;
  }

  lemma Leak(all: set<object>, now: set<object>, live: set<object>, live': set<object>, own: set<object>,
             kid: set<object>, key: set<object>, newKey: set<object>)
    requires all - now == kid + key && own <= kid && own !! key && newKey !! all && live' == live - own + newKey
    ensures all * live' - now == (kid - own + key) * live
  {
    assert all * live' - now == (all - now) * live' == (kid + key) * (live - own);
  }

  lemma {:induction false} ReplacedWhole(p: Tree, y: Tree, k: nat)
    requires k < |p.kids| && Separate(p) && Separate(y) && Whole(y) !! Whole(p)
    ensures Whole(p) - Whole(p.(kids := p.kids[k := y])) == Whole(p.kids[k])
    ensures Whole(y) <= Whole(p.(kids := p.kids[k := y])) <= Whole(p) + Whole(y)
  {
    hide Nodes, Below, Separate, AllSeparate;
    assert Whole(p.(kids := p.kids[k := y])) == {p.node} + Opt(p.vs) + Opt(p.key) + Objs(p.kids[k := y]);
    Parts(p);
    hide Deep, Whole, Objs, Opt;
    ReplacedObjs(p.kids, k, y);
  }

  lemma {:induction false} KeyApart(p: Tree, x: Tree, k: nat)
    requires k < |p.kids| && Separate(p) && Whole(x) !! Whole(p)
    ensures Opt(x.key) <= Whole(x) && Whole(p.kids[k]) <= Whole(p)
    ensures Opt(x.key) !! Whole(p.kids[k])
  {
    hide Nodes, Below, Separate;
  }

  lemma {:induction false} BothSeparate(parent: Node, p: Tree, item: Node, x: Tree)
    requires Container(parent, p) && Detached(item, x, p)
    ensures Separate(p) && Separate(x) && Whole(x) !! Whole(p) && allocated(Whole(p)) && allocated(Whole(x))
  {
    hide Separate, Deep;
    DeepAllocated(p);
    DeepAllocated(x);
  }

  lemma {:induction false} OwnExists(p: Tree, i: nat)
    requires i < |p.kids|
    ensures allocated(Own(p.kids[i]))
  {
    hide Deep, Nodes, Below, Own;
    Allocated(p.kids);
    OwnWhole(p.kids[i]);
  }

  /** cJSON_DeleteItemFromArray */
  method DeleteItemFromArray(m: Memory, parent: Node, which: int, ghost p: Tree) returns (ghost k: nat)
    requires Container(parent, p) && OwnList(p.kids) <= m.live
    modifies parent`child, Nodes(p.kids)`next, Nodes(p.kids)`prev, m
    ensures k == if which < 0 then 0 else which
    ensures k >= |p.kids| ==> Container(parent, p) && m.live == old(m.live)
    ensures k < |p.kids| ==> Container(parent, p.(kids := Without(p.kids, k)))
    ensures k < |p.kids| ==> DenMembers(Without(p.kids, k)) == Without(old(DenMembers(p.kids)), k)
    ensures k < |p.kids| ==> m.live == old(m.live) - Own(p.kids[k])
    ensures old(Finished(p)) ==> Finished(if k < |p.kids| then p.(kids := Without(p.kids, k)) else p)
  {
    hide Container, Detached, Links, Without, Deep, Nodes, Below, DenMembers, Own, OwnList, Finished;
    var c;
    c, k := DetachItemFromArray(parent, which, p);
    if c != null {
      DeleteTaken(m, c, parent, p, k);
    }
  }

  method DeleteTaken(m: Memory, c: Node, ghost parent: Node, ghost p: Tree, ghost k: nat)
    requires k < |p.kids| && OwnList(p.kids) <= m.live
    requires Detached(c, p.kids[k], p.(kids := Without(p.kids, k))) && Container(parent, p.(kids := Without(p.kids, k)))
    modifies m
    ensures m.live == old(m.live) - Own(p.kids[k])
    ensures Container(parent, p.(kids := Without(p.kids, k)))
    ensures DenMembers(Without(p.kids, k)) == old(DenMembers(Without(p.kids, k)))
    ensures Finished(p.(kids := Without(p.kids, k))) == old(Finished(p.(kids := Without(p.kids, k))))
  {
    hide Container, Detached, Links, Without, Deep, Nodes, Below, DenMembers, Own, OwnList, Finished;
    OwnPrefix(p.kids, k);
    DeleteDetached(m, c, p.kids[k], parent, p.(kids := Without(p.kids, k)));
  }

  /** cJSON_DeleteItemFromObject */
  method DeleteItemFromObject(m: Memory, parent: Node, name: Str, ghost p: Tree) returns (ghost k: nat)
    requires Container(parent, p) && KeyTexts(p.kids) && OwnList(p.kids) <= m.live
    modifies parent`child, Nodes(p.kids)`next, Nodes(p.kids)`prev, m
    ensures k == old(FirstNamed(p.kids, name, 0))
    ensures old(Keyed(p.kids)) || name.Ch? ==> k == FirstKey(old(DenMembers(p.kids)), name)
    ensures k == |p.kids| ==> Container(parent, p) && m.live == old(m.live)
    ensures k < |p.kids| ==> Container(parent, p.(kids := Without(p.kids, k)))
    ensures k < |p.kids| ==> DenMembers(Without(p.kids, k)) == Without(old(DenMembers(p.kids)), k)
    ensures k < |p.kids| ==> m.live == old(m.live) - Own(p.kids[k])
    ensures old(Finished(p)) ==> Finished(if k < |p.kids| then p.(kids := Without(p.kids, k)) else p)
  {
    hide Container, Detached, Links, Without, Deep, Nodes, Below, DenMembers, Own, OwnList, Finished;
    var c;
    c, k := DetachItemFromObject(parent, name, p);
    if c != null {
      DeleteTaken(m, c, parent, p, k);
    }
  }
}
