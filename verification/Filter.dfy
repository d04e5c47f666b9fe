/** The receiver's filter: a packet whose serial is that of the packet before it is redundant. */
module Filter {

  /** What passes, prev being serial_prev. */
  function Passed(prev: nat, arrivals: seq<nat>): seq<nat>
    decreases arrivals
  {
    if arrivals == [] then []
    else if arrivals[0] == prev then Passed(prev, arrivals[1..])
    else [arrivals[0]] + Passed(arrivals[0], arrivals[1..])
  }

  /** serial_prev afterwards. */
  function Latest(prev: nat, arrivals: seq<nat>): nat {
    if arrivals == [] then prev else arrivals[|arrivals| - 1]
  }

  /** One more arrival. */
  lemma {:induction false} PassedSnoc(prev: nat, arrivals: seq<nat>, x: nat)
    ensures Passed(prev, arrivals + [x]) == Passed(prev, arrivals) + if x == Latest(prev, arrivals) then [] else [x]
    decreases arrivals
  {
    if arrivals == [] {
      assert [x][1..] == [];
    } else {
      assert (arrivals + [x])[1..] == arrivals[1..] + [x];
      PassedSnoc(arrivals[0], arrivals[1..], x);
    }
  }

  /** Of adjacent equal elements only the first is kept. */
  function Collapse(s: seq<nat>): seq<nat> {
    if s == [] then []
    else if |s| > 1 && s[|s| - 1] == s[|s| - 2] then Collapse(s[..|s| - 1])
    else Collapse(s[..|s| - 1]) + [s[|s| - 1]]
  }

  /** Exactly what the filter does: the arrivals behind a virtual prev, with adjacent equal serials
      collapsed, and that prev removed again. */
  lemma {:induction false} PassedCollapses(prev: nat, arrivals: seq<nat>)
    ensures Collapse([prev] + arrivals) == [prev] + Passed(prev, arrivals)
    decreases |arrivals|
  {
    var n := |arrivals|;
    if n == 0 {
      assert ([prev] + arrivals)[..0] == [];
    } else {
      var init, x := arrivals[..n - 1], arrivals[n - 1];
      PassedCollapses(prev, init);
      PassedSnoc(prev, init, x);
      assert arrivals == init + [x] && ([prev] + arrivals)[..n] == [prev] + init;
      assert ([prev] + arrivals)[n - 1] == Latest(prev, init);
    }
  }

  predicate NonDecreasing(s: seq<nat>) {
    forall i, j :: 0 <= i < j < |s| ==> s[i] <= s[j]
  }

  predicate Increasing(s: seq<nat>) {
    forall i, j :: 0 <= i < j < |s| ==> s[i] < s[j]
  }

  /** No two deliveries in a row share a serial. */
  lemma {:induction false} PassedAdjacent(prev: nat, arrivals: seq<nat>, i: nat)
    requires i < |Passed(prev, arrivals)|
    ensures Passed(prev, arrivals)[i] != if i == 0 then prev else Passed(prev, arrivals)[i - 1]
    decreases arrivals
  {
    if arrivals[0] == prev {
      PassedAdjacent(prev, arrivals[1..], i);
    } else if i > 0 {
      PassedAdjacent(arrivals[0], arrivals[1..], i - 1);
    }
  }

  /** Serials that never go back are delivered in strictly increasing order, and each that differs
      from prev is delivered. */
  lemma {:induction false} PassedIncreasing(prev: nat, arrivals: seq<nat>)
    requires NonDecreasing(arrivals) && (arrivals != [] ==> prev <= arrivals[0])
    ensures Increasing(Passed(prev, arrivals))
    ensures forall x :: x in Passed(prev, arrivals) <==> x in arrivals && x != prev
    decreases arrivals
  {
    if arrivals != [] {
      var head, tail := arrivals[0], arrivals[1..];
      assert arrivals == [head] + tail;
      hide NonDecreasing, Increasing;
      TailNonDecreasing(arrivals);
      PassedIncreasing(head, tail);
      if head != prev { ConsIncreasing(head, Passed(head, tail)); }
    }
  }

  lemma TailNonDecreasing(s: seq<nat>)
    requires s != [] && NonDecreasing(s)
    ensures NonDecreasing(s[1..]) && (forall x :: x in s[1..] ==> s[0] <= x) && (|s| > 1 ==> s[0] <= s[1..][0])
  {
  }

  lemma ConsIncreasing(head: nat, s: seq<nat>)
    requires Increasing(s) && forall x :: x in s ==> head < x
    ensures Increasing([head] + s)
  {
    assert forall i :: 0 <= i < |s| ==> s[i] in s;
  }

  function Range(lo: nat, hi: nat): (r: seq<nat>)
    requires lo <= hi
    ensures |r| == hi - lo && forall i :: 0 <= i < |r| ==> r[i] == lo + i
  {
    seq(hi - lo, i requires 0 <= i => lo + i)
  }

  lemma HasMember(s: seq<nat>)
    requires s != []
    ensures exists x :: x in s
  {
    assert s[0] in s;
  }

  lemma {:induction false} IncreasingRange(s: seq<nat>, lo: nat, hi: nat)
    requires lo <= hi && Increasing(s) && forall x :: x in s <==> lo <= x < hi
    ensures s == Range(lo, hi)
    decreases hi - lo
  {
    if s != [] { HasMember(s); }
    if lo < hi {
      assert lo in s && s[0] in s;
      assert s[0] == lo;
      assert s == [lo] + s[1..];
      assert forall i :: 0 <= i < |s[1..]| ==> s[0] < s[1..][i];
      assert forall x :: x in s <==> x == lo || x in s[1..];
      IncreasingRange(s[1..], lo + 1, hi);
    }
  }

  /** If serials 0 to n - 1 arrive in order and each at least once, 1 to n - 1 pass, once each. */
  lemma PassedAll(arrivals: seq<nat>, n: nat)
    requires n > 0 && NonDecreasing(arrivals) && forall x :: x in arrivals <==> 0 <= x < n
    ensures Passed(0, arrivals) == Range(1, n)
  {
    PassedIncreasing(0, arrivals);
    IncreasingRange(Passed(0, arrivals), 1, n);
  }
}
