/** cJSON_lookup_obj of util_cjson.c. */
module Lookup {
  import opened CString
  import opened Buffer
  import opened Json
  import opened Path
  import opened Heap
  import opened HeapObjects
  import opened HeapViews

  // ---- what a lookup finds ----

  /** Broken stands for the paths the code does not expect: an index step at a node that does not
      exist, and a key that ends in a backslash. */
  datatype Outcome = Found(t: Tree) | NoItem | Default | Broken

  /** The lookup of a path at a node that does not exist. */
  function Nowhere(path: Str): Outcome {
    if path.Nul? then Default
    else if path.c == DOT then
      if path.rest.Nul? then NoItem
      else if SplitKey(path.rest).ok then Default
      else Broken
    else if path.c == LBRACK then Broken
    else Default
  }

  ghost function Outcomes(t: Tree, path: Str): Outcome
    reads t.node, Deep(t)
    decreases Len(path)
  {
    if path.Nul? then Default
    else if path.c == DOT then
      if path.rest.Nul? then Found(t) else
      var s := SplitKey(path.rest);
      var i := FirstNamed(t.kids, s.key, 0);
      if !s.ok then Broken
      else if i == |t.kids| then Default
      else if s.rest.Nul? then Found(t.kids[i])
      else assert Deep(t.kids[i]) <= Deep(t); Outcomes(t.kids[i], s.rest)
    else if path.c == LBRACK then
      if !TypeIs(t.node, KArray) then Default else
      var s := SplitIndex(path.rest, 0);
      if s.None? then Default else
      var (sub, rest) := s.value;
      if sub < |t.kids| then
        if rest.Nul? then Found(t.kids[sub])
        else assert Deep(t.kids[sub]) <= Deep(t); Outcomes(t.kids[sub], rest)
      else if rest.Nul? then NoItem
      else Nowhere(rest)
    else Default
  }

  ghost function Result(o: Outcome, deflt: Node?): Node? {
    match o
    case Found(t) => t.node
    case NoItem => null
    case _ => deflt
  }

  // ---- the meaning of steps ----

  /** The node that the steps lead to: the first child with the key, whatever its case, or the child
      of an array at the index. */
  ghost function Walk(t: Option<Tree>, steps: seq<Step>): Option<Tree>
    reads if t.None? then {} else {t.value.node} + Deep(t.value)
    decreases |steps|
  {
    if t.None? || steps == [] then t else
    var kids := t.value.kids;
    match steps[0]
    case Key(name) =>
      var i := FirstNamed(kids, name, 0);
      if i == |kids| then None else assert Deep(kids[i]) <= Deep(t.value); Walk(Some(kids[i]), steps[1..])
    case Index(n) =>
      if t.value.node.kind != KArray || n >= |kids| then None
      else assert Deep(kids[n]) <= Deep(t.value); Walk(Some(kids[n]), steps[1..])
  }

  /** No index step comes right behind an index that is out of range, at a node the code takes for an
      array. */
  ghost predicate Meets(t: Tree, steps: seq<Step>)
    reads t.node, Deep(t)
    decreases |steps|
  {
    steps == [] ||
    match steps[0]
    case Key(name) =>
      var i := FirstNamed(t.kids, name, 0);
      i == |t.kids| || (assert Deep(t.kids[i]) <= Deep(t); Meets(t.kids[i], steps[1..]))
    case Index(n) =>
      !TypeIs(t.node, KArray) ||
      if n < |t.kids| then assert Deep(t.kids[n]) <= Deep(t); Meets(t.kids[n], steps[1..])
      else |steps| == 1 || steps[1].Key?
  }

  /** No array at which the walk takes an index step has a flag. */
  ghost predicate Unflagged(t: Tree, steps: seq<Step>)
    reads t.node, Deep(t)
    decreases |steps|
  {
    steps == [] ||
    match steps[0]
    case Key(name) =>
      var i := FirstNamed(t.kids, name, 0);
      i == |t.kids| || (assert Deep(t.kids[i]) <= Deep(t); Unflagged(t.kids[i], steps[1..]))
    case Index(n) =>
      t.node.kind == KArray ==>
        && TypeIs(t.node, KArray)
        && (n < |t.kids| ==> (assert Deep(t.kids[n]) <= Deep(t); Unflagged(t.kids[n], steps[1..])))
  }

  ghost function AsNode(t: Option<Tree>): Node? {
    if t.None? then null else t.value.node
  }

  /** What the code gets to. */
  ghost function Reached(t: Tree, steps: seq<Step>): Option<Tree>
    reads t.node, Deep(t)
  {
    if Unflagged(t, steps) then Walk(Some(t), steps) else None
  }

  ghost function FoundTree(o: Outcome): Option<Tree> {
    if o.Found? then Some(o.t) else None
  }

  lemma {:induction false} ReachedStep(t: Tree, steps: seq<Step>)
    requires steps != []
    ensures Reached(t, []) == Some(t)
    ensures match steps[0]
      case Key(name) =>
        var i := FirstNamed(t.kids, name, 0);
        Reached(t, steps) == if i == |t.kids| then None else Reached(t.kids[i], steps[1..])
      case Index(n) =>
        Reached(t, steps) == if TypeIs(t.node, KArray) && n < |t.kids| then Reached(t.kids[n], steps[1..]) else None
  {
    hide FirstNamed, Nodes, Below;
  }

  lemma {:induction false} NowhereRendered(steps: seq<Step>)
    requires steps != [] && WfSteps(steps) && steps[0].Key?
    ensures Nowhere(RenderSteps(steps)) == Default
  {
    RenderedBoundary(steps[1..]);
    SplitEscaped(steps[0].name, RenderSteps(steps[1..]));
  }

  lemma {:induction false} KeyRendered(t: Tree, steps: seq<Step>)
    requires steps != [] && WfSteps(steps) && steps[0].Key?
    ensures var i := FirstNamed(t.kids, steps[0].name, 0);
      Outcomes(t, RenderSteps(steps)) ==
        if i == |t.kids| then Default
        else if |steps| == 1 then Found(t.kids[i])
        else Outcomes(t.kids[i], RenderSteps(steps[1..]))
  {
    RenderedBoundary(steps[1..]);
    SplitEscaped(steps[0].name, RenderSteps(steps[1..]));
  }

  lemma {:induction false} IndexRendered(t: Tree, steps: seq<Step>)
    requires steps != [] && WfSteps(steps) && steps[0].Index?
    ensures var n := steps[0].n;
      Outcomes(t, RenderSteps(steps)) ==
        if !TypeIs(t.node, KArray) then Default
        else if n < |t.kids| then
          (if |steps| == 1 then Found(t.kids[n]) else Outcomes(t.kids[n], RenderSteps(steps[1..])))
        else if |steps| == 1 then NoItem else Nowhere(RenderSteps(steps[1..]))
  {
    SplitDigits(steps[0].n, RenderSteps(steps[1..]));
  }

  lemma NowhereIndexed(steps: seq<Step>)
    requires steps != [] && steps[0].Index?
    ensures Nowhere(RenderSteps(steps)) == Broken
  {
  }

  lemma {:induction false} StepsRendered(t: Tree, steps: seq<Step>)
    requires steps != [] && WfSteps(steps)
    ensures Outcomes(t, RenderSteps(steps)).Broken? <==> !Meets(t, steps)
    ensures Meets(t, steps) ==> FoundTree(Outcomes(t, RenderSteps(steps))) == Reached(t, steps)
    decreases |steps|
  {
    hide Outcomes, RenderSteps, FirstNamed, Deep, Nodes, Below, TypeIs, Reached, Walk, Unflagged;
    ReachedStep(t, steps);
    match steps[0] {
      case Key(name) =>
        KeyRendered(t, steps);
        var i := FirstNamed(t.kids, name, 0);
        if i < |t.kids| {
          if |steps| > 1 { StepsRendered(t.kids[i], steps[1..]); } else { ReachedStep(t.kids[i], steps); }
        }
      case Index(n) =>
        IndexRendered(t, steps);
        if TypeIs(t.node, KArray) && n < |t.kids| && |steps| == 1 { ReachedStep(t.kids[n], steps); }
        if TypeIs(t.node, KArray) && |steps| > 1 {
          if n < |t.kids| {
            StepsRendered(t.kids[n], steps[1..]);
          } else if steps[1].Key? {
            NowhereRendered(steps[1..]);
          } else {
            NowhereIndexed(steps[1..]);
          }
        }
    }
  }

  /** The code expects a rendered list of steps exactly if no index step is taken at a node that does
      not exist. Then looking it up, with NULL as the default, walks the steps if and only if no array
      at which an index step is taken has a flag, or the walk leads nowhere. */
  lemma {:induction false} LookupWalks(t: Tree, steps: seq<Step>)
    requires WfSteps(steps)
    ensures Outcomes(t, Render(steps)).Broken? <==> !Meets(t, steps)
    ensures Meets(t, steps) ==> FoundTree(Outcomes(t, Render(steps))) == Reached(t, steps)
    ensures Meets(t, steps) ==>
      (Result(Outcomes(t, Render(steps)), null) == AsNode(Walk(Some(t), steps))
       <==> Unflagged(t, steps) || Walk(Some(t), steps).None?)
  {
    if steps != [] { StepsRendered(t, steps); }
  }

  /** The last step takes an index that is out of range, at a node the code takes for an array. */
  ghost predicate EndsBeyond(t: Tree, steps: seq<Step>)
    reads t.node, Deep(t)
    decreases |steps|
  {
    steps != [] &&
    match steps[0]
    case Key(name) =>
      var i := FirstNamed(t.kids, name, 0);
      i < |t.kids| && (assert Deep(t.kids[i]) <= Deep(t); EndsBeyond(t.kids[i], steps[1..]))
    case Index(n) =>
      && TypeIs(t.node, KArray)
      && if n < |t.kids| then assert Deep(t.kids[n]) <= Deep(t); EndsBeyond(t.kids[n], steps[1..]) else |steps| == 1
  }

  lemma {:induction false} BeyondRendered(t: Tree, steps: seq<Step>)
    requires steps != [] && WfSteps(steps) && Meets(t, steps)
    ensures Outcomes(t, RenderSteps(steps)).NoItem? <==> EndsBeyond(t, steps)
    decreases |steps|
  {
    hide Outcomes, RenderSteps, FirstNamed, Deep, Nodes, Below, TypeIs;
    if steps[0].Key? {
      KeyRendered(t, steps);
      var i := FirstNamed(t.kids, steps[0].name, 0);
      if i < |t.kids| && |steps| > 1 { BeyondRendered(t.kids[i], steps[1..]); }
    } else {
      IndexRendered(t, steps);
      if TypeIs(t.node, KArray) && |steps| > 1 {
        if steps[0].n < |t.kids| {
          BeyondRendered(t.kids[steps[0].n], steps[1..]);
        } else {
          NowhereRendered(steps[1..]);
        }
      }
    }
  }

  /** With any default: the lookup gives the node reached, NULL if the last step takes an index that is out
      of range, and the default for anything else that is not found. */
  lemma LookupDefaults(t: Tree, steps: seq<Step>, deflt: Node?)
    requires WfSteps(steps) && Meets(t, steps)
    ensures Result(Outcomes(t, Render(steps)), deflt) ==
      if Reached(t, steps).Some? then AsNode(Reached(t, steps))
      else if EndsBeyond(t, steps) then null else deflt
  {
    hide Outcomes, Reached, Meets, Walk, Unflagged, EndsBeyond, RenderSteps;
    LookupWalks(t, steps);
    if steps == [] { NoSteps(t); } else { BeyondRendered(t, steps); }
  }

  lemma NoSteps(t: Tree)
    ensures Outcomes(t, Render([])) == Found(t)
  {
  }

  /** The same steps, up to the case of letters in the keys. */
  ghost predicate SameSteps(a: seq<Step>, b: seq<Step>) {
    |a| == |b| && forall i :: 0 <= i < |a| ==> SameStep(a[i], b[i])
  }

  ghost predicate SameStep(a: Step, b: Step) {
    a == b || (a.Key? && b.Key? && SameLetters(a.name, b.name))
  }

  lemma {:induction false} StepsAnyCase(t: Tree, a: seq<Step>, b: seq<Step>)
    requires SameSteps(a, b)
    ensures Walk(Some(t), a) == Walk(Some(t), b)
    ensures (Meets(t, a) <==> Meets(t, b)) && (Unflagged(t, a) <==> Unflagged(t, b))
    decreases |a|
  {
    if a != [] {
      hide SameLetters, FirstNamed, Deep, Nodes, Below;
      assert SameStep(a[0], b[0]);
      assert SameSteps(a[1..], b[1..]);
      if a[0].Key? {
        AnyCaseKey(t, a[0].name, b[0].name);
        var i := FirstNamed(t.kids, a[0].name, 0);
        if i < |t.kids| { StepsAnyCase(t.kids[i], a[1..], b[1..]); }
      } else if a[0].n < |t.kids| {
        StepsAnyCase(t.kids[a[0].n], a[1..], b[1..]);
      }
    }
  }

  lemma AnyCaseKey(t: Tree, a: Str, b: Str)
    requires a == b || SameLetters(a, b)
    ensures FirstNamed(t.kids, a, 0) == FirstNamed(t.kids, b, 0)
  {
    if a != b { AnyCase(t.kids, a, b, 0); }
  }

  /** A path with keys in other letters finds the same node. */
  lemma LookupAnyCase(t: Tree, a: seq<Step>, b: seq<Step>)
    requires WfSteps(a) && WfSteps(b) && SameSteps(a, b)
    ensures Outcomes(t, Render(a)).Broken? <==> Outcomes(t, Render(b)).Broken?
    ensures Meets(t, a) ==> FoundTree(Outcomes(t, Render(a))) == FoundTree(Outcomes(t, Render(b)))
  {
    hide Outcomes, Walk, Meets, Unflagged, Render;
    LookupWalks(t, a);
    LookupWalks(t, b);
    StepsAnyCase(t, a, b);
  }

  // ---- the code ----

  /** cJSON_GetArrayItem: the child at the index, the first for a negative one. */
  method GetArrayItem(j: Node, item: int, ghost t: Tree) returns (c: Node?)
    requires t.node == j && Shape(t) && Finished(t)
    ensures var k := if item < 0 then 0 else item; c == if k < |t.kids| then t.kids[k].node else null
  {
    hide *;
    ghost var ms, k := DenMembers(t.kids), if item < 0 then 0 else item;
    IsIntact(t);
    DeepAllocated(t);
    NextChild(j, t, ms, 0);
    var i := item;
    c := j.child;
    while c != null && i > 0
      invariant i <= item && (item >= 0 ==> i >= 0) && (item < 0 ==> i == item)
      invariant (if item < 0 then 0 else item - i) <= |t.kids| && Intact(t, ms)
      invariant var n := if item < 0 then 0 else item - i; c == if n < |t.kids| then t.kids[n].node else null
    {
      NextChild(j, t, ms, item - i);
      i := i - 1;
      c := c.next;
    }
  }

  ghost function Expected(t: Option<Tree>, path: Str): Outcome
    reads if t.None? then {} else {t.value.node} + Deep(t.value)
  {
    if t.None? then Nowhere(path) else Outcomes(t.value, path)
  }

  /** The tree at j, which may be NULL. */
  ghost predicate Rooted(j: Node?, t: Option<Tree>)
    reads if t.None? then {} else {t.value.node} + Deep(t.value)
  {
    if t.None? then j == null else j == t.value.node && Shape(t.value) && Finished(t.value)
  }

  /** cJSON_lookup_obj, out being the specified outcome; what remains of the path bounds the recursion. */
  method LookupObj(j: Node?, path: Str, deflt: Node?, ghost t: Option<Tree>, ghost out: Outcome) returns (r: Node?)
    requires Rooted(j, t) && out == Expected(t, path) && !out.Broken?
    ensures r == Result(out, deflt)
    decreases Len(path), 1
  {
    if Hd(path) == DOT {
      if path.rest.Nul? {
        return j;
      }
      if j == null {
        var key, rest := TakeKey(path);
        return deflt;
      }
      r := LookupKey(j, path, deflt, t.value, out);
    } else if Hd(path) == LBRACK {
      r := LookupIndex(j, path, deflt, t.value, out);
    } else {
      r := deflt;
    }
  }

  /** The key at the start of the path in a buffer of its own, and path + keylen + 1. */
  method TakeKey(path: Str) returns (key: array<byte>, rest: Str)
    requires path.Ch? && SplitKey(path.rest).ok
    ensures fresh(key) && Terminated(key[..], 0) && TextAt(key[..], 0) == SplitKey(path.rest).key
    ensures rest == SplitKey(path.rest).rest
  {
    hide SplitKey;
    key := Path.Duplicate(path.rest);
    var keylen := Unescape(key, path.rest);
    rest := Drop(path, keylen + 1);
  }

  /** The index at the start of the path, and path + i + 2; sub is -1 if there is none. */
  method TakeIndex(path: Str) returns (sub: int, rest: Str)
    requires path.Ch?
    ensures SplitIndex(path.rest, 0).None? ==> sub == -1
    ensures SplitIndex(path.rest, 0).Some? ==> (sub, rest) == SplitIndex(path.rest, 0).value
  {
    hide SplitIndex;
    var key := Path.Duplicate(path.rest);
    var i;
    sub, i := ReadIndex(key, path.rest);
    rest := if sub == -1 then Nul else Drop(path, i + 2);
  }

  method LookupKey(j: Node, path: Str, deflt: Node?, ghost t: Tree, ghost out: Outcome) returns (r: Node?)
    requires Rooted(j, Some(t)) && out == Outcomes(t, path) && !out.Broken?
    requires path.Ch? && path.c == DOT && path.rest.Ch?
    ensures r == Result(out, deflt)
    decreases Len(path), 0
  {
    hide Rooted, Expected, Outcomes, Deep;
    var value, rest;
    ghost var kid;
    value, rest, kid := KeyStep(j, path, t, out);
    if value == null {
      return deflt;
    }
    if rest.Nul? {
      return value;
    }
    r := LookupObj(value, rest, deflt, Some(kid), out);
  }

  /** The child that the first key of the path leads to, and the rest of the path. */
  method KeyStep(j: Node, path: Str, ghost t: Tree, ghost out: Outcome)
    returns (value: Node?, rest: Str, ghost kid: Tree)
    requires Rooted(j, Some(t)) && out == Outcomes(t, path) && !out.Broken?
    requires path.Ch? && path.c == DOT && path.rest.Ch?
    ensures value == null ==> out == Default
    ensures value != null ==> value == kid.node && Rooted(value, Some(kid)) && Len(rest) < Len(path)
    ensures value != null ==> if rest.Nul? then out == Found(kid) else out == Expected(Some(kid), rest)
  {
    hide Rooted, Expected, SplitKey, Outcomes, Nowhere, FirstNamed, Deep, Below, Nodes, Shape, Finished;
    KeyExpected(j, t, path);
    DeepAllocated(t);
    var key;
    key, rest := TakeKey(path);
    value, kid := FindItem(j, key, t);
    KeyExpected(j, t, path);
    ExpectedIs(kid, rest);
  }

  /** cJSON_GetObjectItem of a key in a buffer. */
  method FindItem(j: Node, key: array<byte>, ghost t: Tree) returns (value: Node?, ghost kid: Tree)
    requires Rooted(j, Some(t)) && Terminated(key[..], 0)
    ensures var i := FirstNamed(t.kids, TextAt(key[..], 0), 0);
      if i == |t.kids| then value == null
      else value != null && kid == t.kids[i] && Rooted(value, Some(kid)) && value == kid.node
  {
    hide Outcomes, FirstNamed, Deep, Nodes, Below, Shape;
    FinishedKeys(t);
    DeepAllocated(t);
    var i;
    value, i := GetObjectItem(j, TextAt(key[..], 0), t);
    kid := t;
    if value != null {
      kid := t.kids[i];
      KidRooted(j, t, i);
    }
  }

  lemma {:induction false} KeyExpected(j: Node, t: Tree, path: Str)
    requires Rooted(j, Some(t)) && !Outcomes(t, path).Broken? && path.Ch? && path.c == DOT && path.rest.Ch?
    ensures SplitKey(path.rest).ok && Len(SplitKey(path.rest).rest) < Len(path)
    ensures var s := SplitKey(path.rest); var i := FirstNamed(t.kids, s.key, 0);
      Outcomes(t, path) ==
        if i == |t.kids| then Default else if s.rest.Nul? then Found(t.kids[i]) else Outcomes(t.kids[i], s.rest)
  {
    hide FirstNamed, Shape, SplitKey, Nodes, Below;
  }

  lemma {:induction false} ExpectedIs(t: Tree, path: Str)
    ensures Expected(Some(t), path) == Outcomes(t, path)
  {
  }

  lemma {:induction false} KidRooted(j: Node?, t: Tree, i: nat)
    requires Rooted(j, Some(t)) && i < |t.kids|
    ensures Rooted(t.kids[i].node, Some(t.kids[i]))
  {
    hide Deep, Nodes, Below;
    IsIntact(t);
    ChildAt(j, t, DenMembers(t.kids), i);
  }

  method LookupIndex(j: Node, path: Str, deflt: Node?, ghost t: Tree, ghost out: Outcome) returns (r: Node?)
    requires Rooted(j, Some(t)) && out == Outcomes(t, path) && !out.Broken? && path.Ch? && path.c == LBRACK
    ensures r == Result(out, deflt)
    decreases Len(path), 0
  {
    hide Rooted, Expected, Outcomes, Nowhere, Deep;
    var found, item, rest;
    ghost var kid;
    found, item, rest, kid := IndexStep(j, path, t, out);
    if !found {
      return deflt;
    }
    if rest.Nul? {
      return item;
    }
    r := LookupObj(item, rest, deflt, kid, out);
  }

  /** The child that the first index of the path leads to, if any, and the rest of the path; not found
      without an array or without an index. */
  method IndexStep(j: Node, path: Str, ghost t: Tree, ghost out: Outcome)
    returns (found: bool, item: Node?, rest: Str, ghost kid: Option<Tree>)
    requires Rooted(j, Some(t)) && out == Outcomes(t, path) && !out.Broken? && path.Ch? && path.c == LBRACK
    ensures !found ==> out == Default
    ensures found ==> Rooted(item, kid) && item == AsNode(kid) && Len(rest) < Len(path)
    ensures found ==>
      if rest.Nul? then out == (if kid.None? then NoItem else Found(kid.value)) else out == Expected(kid, rest)
  {
    hide Rooted, Expected, SplitIndex, Outcomes, Nowhere, Deep, Below, Nodes, Shape, Finished;
    IndexExpected(j, t, path);
    DeepAllocated(t);
    found, item, rest, kid := false, null, Nul, None;
    if !TypeIs(j, KArray) {
      return;
    }
    var sub;
    sub, rest := TakeIndex(path);
    if sub == -1 {
      return;
    }
    found := true;
    IndexExpected(j, t, path);
    item := GetArrayItem(j, sub, t);
    if item != null {
      kid := Some(t.kids[sub]);
      KidRooted(j, t, sub);
      ExpectedIs(t.kids[sub], rest);
    } else {
      NullRooted(rest);
    }
  }

  lemma NullRooted(path: Str)
    ensures Rooted(null, None) && Expected(None, path) == Nowhere(path)
  {
  }

  lemma {:induction false} IndexExpected(j: Node, t: Tree, path: Str)
    requires Rooted(j, Some(t)) && path.Ch? && path.c == LBRACK
    ensures t.node == j && Shape(t) && Finished(t)
    ensures !TypeIs(j, KArray) ==> Outcomes(t, path) == Default
    ensures SplitIndex(path.rest, 0).None? ==> Outcomes(t, path) == Default
    ensures TypeIs(j, KArray) && SplitIndex(path.rest, 0).Some? ==>
      var (sub, rest) := SplitIndex(path.rest, 0).value;
      Outcomes(t, path) ==
        if sub < |t.kids| then (if rest.Nul? then Found(t.kids[sub]) else Outcomes(t.kids[sub], rest))
        else if rest.Nul? then NoItem else Nowhere(rest)
  {
    hide SplitIndex, Nodes, Below, Nowhere;
  }

  // ---- the typed lookups ----

  /** The node that a lookup with NULL as the default finds is a complete tree. */
  lemma {:induction false} FoundRooted(j: Node?, t: Tree, path: Str)
    requires Rooted(j, Some(t)) && Outcomes(t, path).Found?
    ensures var u := Outcomes(t, path).t; Rooted(u.node, Some(u))
    decreases Len(path)
  {
    hide Rooted, FirstNamed, SplitKey, SplitIndex, Deep, Nodes, Below;
    if path.c == DOT && path.rest.Ch? {
      var s := SplitKey(path.rest);
      var i := FirstNamed(t.kids, s.key, 0);
      KidRooted(j, t, i);
      if s.rest.Ch? { FoundRooted(t.kids[i].node, t.kids[i], s.rest); }
    } else if path.c == LBRACK {
      var (sub, rest) := SplitIndex(path.rest, 0).value;
      KidRooted(j, t, sub);
      if rest.Ch? { FoundRooted(t.kids[sub].node, t.kids[sub], rest); }
    } else {
      RootOf(j, t);
    }
  }

  lemma RootOf(j: Node?, t: Tree)
    requires Rooted(j, Some(t))
    ensures j == t.node
  {
  }

  /** The value found, if there is one and its node has no flag. */
  ghost function Scalar(out: Outcome): Option<Json>
    reads if out.Found? then {out.t.node} + Deep(out.t) else {}
  {
    if out.Found? && !out.t.node.isReference && !out.t.node.stringIsConst then Some(Den(out.t)) else None
  }

  /** The lookup the typed ones begin with. */
  method LookupNode(self: Node?, path: Str, ghost t: Option<Tree>, ghost out: Outcome) returns (obj: Node?)
    requires Rooted(self, t) && out == Expected(t, path) && !out.Broken?
    ensures obj == null ==> !out.Found?
    ensures obj != null ==> out.Found? && out.t.node == obj && Rooted(obj, Some(out.t))
  {
    hide Rooted, Outcomes, Deep;
    if t.Some? { DeepAllocated(t.value); }
    obj := LookupObj(self, path, null, t, out);
    if t.Some? {
      if out.Found? { FoundRooted(self, t.value, path); }
    } else {
      assert !Nowhere(path).Found?;
    }
  }

  /** What the typed lookups see of a rendered list of steps: the value that the walk leads to, unless an
      array at which an index step is taken or the node that it leads to has a flag. */
  lemma ScalarWalks(t: Tree, steps: seq<Step>)
    requires WfSteps(steps) && Meets(t, steps)
    ensures var w := Walk(Some(t), steps);
      Scalar(Outcomes(t, Render(steps))) ==
        if Unflagged(t, steps) && w.Some? && !w.value.node.isReference && !w.value.node.stringIsConst
        then Some(Den(w.value)) else None
  {
    hide Outcomes, Walk, Meets, Unflagged, Den, Render;
    LookupWalks(t, steps);
  }

  /** What the type and the fields of a node say about its value. */
  lemma {:induction false} ScalarIs(obj: Node, t: Tree)
    requires Rooted(obj, Some(t))
    ensures TypeIs(obj, KNumber) <==> (Scalar(Found(t)).Some? && Scalar(Found(t)).value.JNumber?)
    ensures TypeIs(obj, KString) <==> Scalar(Found(t)).Some? && Scalar(Found(t)).value.JString?
    ensures TypeIs(obj, KFalse) <==> Scalar(Found(t)) == Some(JBool(false))
    ensures TypeIs(obj, KTrue) <==> Scalar(Found(t)) == Some(JBool(true))
    ensures TypeIs(obj, KNumber) ==> obj.valuedouble == Scalar(Found(t)).value.r
    ensures TypeIs(obj, KString) ==> obj.valuestring == t.vs && TextOf(t.vs) == Scalar(Found(t)).value.s
  {
    hide Nodes, Below, Links, Shapes, AllFinished;
  }

  /** cJSON_lookup_double */
  method LookupDouble(self: Node?, path: Str, deflt: real, ghost t: Option<Tree>, ghost out: Outcome) returns (r: real)
    requires Rooted(self, t) && out == Expected(t, path) && !out.Broken?
    ensures r == match Scalar(out) case Some(JNumber(x)) => x case _ => deflt
  {
    hide Rooted, Expected, Deep, Den;
    var obj := LookupNode(self, path, t, out);
    if obj == null {
      return deflt;
    }
    ScalarIs(obj, out.t);
    if !TypeIs(obj, KNumber) {
      return deflt;
    }
    r := obj.valuedouble;
  }

  /** cJSON_lookup_str; the string stays part of the tree. */
  method LookupStr(self: Node?, path: Str, deflt: array?<byte>, ghost t: Option<Tree>, ghost out: Outcome)
    returns (r: array?<byte>)
    requires Rooted(self, t) && out == Expected(t, path) && !out.Broken?
    ensures match Scalar(out)
      case Some(JString(s)) => r == out.t.vs && TextOf(r) == s
      case _ => r == deflt
  {
    hide Rooted, Expected, Deep, Den, TextOf;
    var obj := LookupNode(self, path, t, out);
    if obj == null {
      return deflt;
    }
    ScalarIs(obj, out.t);
    if !TypeIs(obj, KString) {
      return deflt;
    }
    r := obj.valuestring;
  }

  /** cJSON_lookup_bool, whose default may be neither 0 nor 1. */
  method LookupBool(self: Node?, path: Str, deflt: int, ghost t: Option<Tree>, ghost out: Outcome) returns (r: int)
    requires Rooted(self, t) && out == Expected(t, path) && !out.Broken?
    ensures r == match Scalar(out) case Some(JBool(b)) => (if b then 1 else 0) case _ => deflt
  {
    hide Rooted, Expected, Deep, Den;
    var obj := LookupNode(self, path, t, out);
    if obj == null {
      return deflt;
    }
    ScalarIs(obj, out.t);
    if TypeIs(obj, KFalse) {
      return 0;
    } else if TypeIs(obj, KTrue) {
      return 1;
    }
    r := deflt;
  }

  // ---- an example ----

  /** The path ".a[0]" in an object with an array of one element under the constant key "a": the walk
      leads to the element, and the lookup finds nothing. */
  method FlaggedArrayIsMissed() returns (r: Node?, ghost t: Tree, steps: seq<Step>)
    ensures steps == [Key(Ch(97, Nul)), Index(0)] && WfSteps(steps) && Meets(t, steps)
    ensures Walk(Some(t), steps).Some? && r == null
  {
    hide Walk, Meets;
    var obj := new Node();
    var arr := new Node();
    var elem := new Node();
    var key := new byte[][97, 0];
    obj.kind, arr.kind, elem.kind := KObject, KArray, KNull;
    obj.child, arr.child := arr, elem;
    arr.key, arr.stringIsConst := key, true;
    steps := [Key(Ch(97, Nul)), Index(0)];
    assert key[..] == [97, 0];
    t, r := Missed(obj, arr, elem, key, steps);
  }

  method Missed(obj: Node, ghost arr: Node, ghost elem: Node, ghost key: array<byte>, steps: seq<Step>)
    returns (ghost t: Tree, r: Node?)
    requires Flagged(obj, arr, elem, key) && steps == [Key(Ch(97, Nul)), Index(0)]
    ensures t == FlaggedTree(obj, arr, elem, key)
    ensures WfSteps(steps) && Meets(t, steps) && Walk(Some(t), steps).Some? && r == null
  {
    hide Rooted, Outcomes, Walk, Meets, Unflagged, Render, Flagged, FlaggedTree, Deep;
    t := FlaggedTree(obj, arr, elem, key);
    FlaggedShape(obj, arr, elem, key);
    FlaggedWalk(obj, arr, elem, key, steps);
    LookupWalks(t, steps);
    ExpectedIs(t, Render(steps));
    DeepAllocated(t);
    r := LookupObj(obj, Render(steps), null, Some(t), Outcomes(t, Render(steps)));
  }

  ghost function FlaggedTree(obj: Node, arr: Node, elem: Node, key: array<byte>): Tree {
    Tree(obj, null, null, true, true, [Tree(arr, null, key, true, false, [Tree(elem, null, null, true, true, [])])])
  }

  /** The three nodes as the example builds them. */
  ghost predicate Flagged(obj: Node, arr: Node, elem: Node, key: array<byte>)
    reads obj, arr, elem, key
  {
    && obj.kind == KObject && arr.kind == KArray && elem.kind == KNull
    && obj.child == arr && arr.child == elem && elem.child == null
    && obj.key == null && arr.key == key && elem.key == null && key[..] == [97, 0]
    && !obj.stringIsConst && arr.stringIsConst && !elem.stringIsConst
    && forall n :: n in {obj, arr, elem} ==> n.next == null && n.prev == null && n.valuestring == null && !n.isReference
  }

  lemma FlaggedShape(obj: Node, arr: Node, elem: Node, key: array<byte>)
    requires Flagged(obj, arr, elem, key)
    ensures Rooted(obj, Some(FlaggedTree(obj, arr, elem, key)))
  {
    assert Terminated(key[..], 1);
    var e := Tree(elem, null, null, true, true, []);
    var a := Tree(arr, null, key, true, false, [e]);
    assert Shape(e) && Finished(e);
    OnlyKid(a, e);
    OnlyKid(FlaggedTree(obj, arr, elem, key), a);
  }

  lemma {:induction false} OnlyKid(t: Tree, kid: Tree)
    requires t.kids == [kid] && Shape(kid) && Finished(kid) && kid.node.next == null && kid.node.prev == null
    requires t.node.child == kid.node && t.node.valuestring == t.vs && t.node.key == t.key
    requires t.node.isReference == !t.owns && t.node.stringIsConst == !t.ownsKey
    requires t.node.kind != Invalid && IsText(t.vs) && IsText(t.key)
    ensures Shape(t) && Finished(t)
  {
    assert forall i :: 0 <= i < |t.kids| ==> t.kids[i] == kid;
  }

  lemma FlaggedWalk(obj: Node, arr: Node, elem: Node, key: array<byte>, steps: seq<Step>)
    requires Flagged(obj, arr, elem, key) && steps == [Key(Ch(97, Nul)), Index(0)]
    ensures var t := FlaggedTree(obj, arr, elem, key);
      WfSteps(steps) && Meets(t, steps) && Walk(Some(t), steps).Some? && !Unflagged(t, steps)
  {
    var t := FlaggedTree(obj, arr, elem, key);
    var a := t.kids[0];
    var e := a.kids[0];
    FlaggedKey(obj, arr, elem, key);
    var rest := steps[1..];
    assert rest == [Index(0)] && rest[1..] == [];
    hide FirstNamed;
    assert Walk(Some(e), rest[1..]) == Some(e);
    assert Walk(Some(a), rest) == Some(e);
    assert Meets(a, rest) && !Unflagged(a, rest);
  }

  lemma FlaggedKey(obj: Node, arr: Node, elem: Node, key: array<byte>)
    requires Flagged(obj, arr, elem, key)
    ensures FirstNamed(FlaggedTree(obj, arr, elem, key).kids, Ch(97, Nul), 0) == 0
  {
    assert Terminated(key[..], 1) && TextAt(key[..], 1) == Nul;
    assert SameNoCase(Nul, Nul);
    assert SameNoCase(TextAt(key[..], 0), Ch(97, Nul));
  }
}
