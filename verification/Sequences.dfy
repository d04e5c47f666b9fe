/** Taking elements out of sequences, putting them in, and joining sequences. */
module Sequences {

  function Without<T>(s: seq<T>, k: nat): seq<T>
    requires k < |s|
  {
    s[..k] + s[k + 1..]
  }

  function Inserted<T>(s: seq<T>, k: nat, x: T): seq<T>
    requires k <= |s|
  {
    s[..k] + [x] + s[k..]
  }

  lemma {:induction false} WithoutAt<T>(s: seq<T>, k: nat, j: nat)
    requires k < |s| && j < |s| - 1
    ensures |Without(s, k)| == |s| - 1 && Without(s, k)[j] == if j < k then s[j] else s[j + 1]
  {
  }

  lemma {:induction false} InsertedAt<T>(s: seq<T>, k: nat, x: T, j: nat)
    requires k <= |s| && j <= |s|
    ensures |Inserted(s, k, x)| == |s| + 1
    ensures Inserted(s, k, x)[j] == if j < k then s[j] else if j == k then x else s[j - 1]
  {
  }

  lemma {:induction false} WithoutLast<T>(s: seq<T>, k: nat)
    requires k < |s| - 1
    ensures Without(s, k)[..|s| - 2] == Without(s[..|s| - 1], k) && Without(s, k)[|s| - 2] == s[|s| - 1]
  {
  }

  lemma {:induction false} InsertedLast<T>(s: seq<T>, k: nat, x: T)
    requires k < |s|
    ensures Inserted(s, k, x)[..|s|] == Inserted(s[..|s| - 1], k, x) && Inserted(s, k, x)[|s|] == s[|s| - 1]
  {
  }

  lemma {:induction false} InsertedEnd<T>(s: seq<T>, x: T)
    ensures Inserted(s, |s|, x) == s + [x]
  {
  }

  function Elems<T>(s: seq<T>): set<T> {
    set x | x in s
  }

  lemma ElemsEmpty<T>(s: seq<T>)
    ensures Elems(s) == {} <==> s == []
  {
    if s != [] { assert s[0] in Elems(s); }
  }

  predicate NoRepeats<T(==)>(s: seq<T>) {
    forall i, j :: 0 <= i < j < |s| ==> s[i] != s[j]
  }

  lemma {:induction false} ElemsAppend<T>(a: seq<T>, b: seq<T>)
    ensures Elems(a + b) == Elems(a) + Elems(b)
  {
  }

  lemma {:induction false} NoRepeatsAppend<T>(a: seq<T>, b: seq<T>)
    requires NoRepeats(a) && NoRepeats(b) && Elems(a) !! Elems(b)
    ensures NoRepeats(a + b)
  {
    forall i, j | 0 <= i < j < |a + b| ensures (a + b)[i] != (a + b)[j] {
      if i < |a| <= j { assert a[i] in Elems(a) && b[j - |a|] in Elems(b); }
    }
  }

  /** The sequences one behind the other. */
  function Concat<T>(ss: seq<seq<T>>): seq<T> {
    if ss == [] then [] else Concat(ss[..|ss| - 1]) + ss[|ss| - 1]
  }

  lemma {:induction false} ConcatLast<T>(ss: seq<seq<T>>, s: seq<T>)
    ensures Concat(ss + [s]) == Concat(ss) + s
  {
    assert (ss + [s])[..|ss|] == ss;
  }

  lemma {:induction false} ConcatAppend<T>(a: seq<seq<T>>, b: seq<seq<T>>)
    ensures Concat(a + b) == Concat(a) + Concat(b)
    decreases b
  {
    if b == [] {
      assert a + b == a;
    } else {
      hide Concat;
      var init, last := b[..|b| - 1], b[|b| - 1];
      ConcatAppend(a, init);
      ConcatLast(a + init, last);
      ConcatLast(init, last);
      assert a + b == (a + init) + [last] && b == init + [last];
    }
  }

  lemma ConcatNone<T>()
    ensures Concat<T>([]) == []
  {
  }

  lemma {:induction false} ConcatOne<T>(s: seq<T>)
    ensures Concat([s]) == s
  {
    assert [s][..0] == [];
  }

  lemma {:induction false} ConcatNext<T>(ss: seq<seq<T>>, k: nat)
    requires k < |ss|
    ensures Concat(ss[..k + 1]) == Concat(ss[..k]) + ss[k]
  {
    assert ss[..k + 1][..k] == ss[..k];
  }

  /** n elements of the k-th sequence behind all of those in front of it. */
  lemma {:induction false} ConcatPrefix<T>(ss: seq<seq<T>>, k: nat, n: nat)
    requires k < |ss| && n <= |ss[k]|
    ensures |Concat(ss[..k])| + |ss[k]| <= |Concat(ss)|
    ensures Concat(ss)[..|Concat(ss[..k])| + n] == Concat(ss[..k]) + ss[k][..n]
  {
    assert ss == ss[..k + 1] + ss[k + 1..];
    ConcatAppend(ss[..k + 1], ss[k + 1..]);
    ConcatNext(ss, k);
  }

  /** Nothing is joined exactly if every sequence is empty. */
  lemma {:induction false} ConcatEmpty<T>(ss: seq<seq<T>>)
    ensures Concat(ss) == [] <==> forall i :: 0 <= i < |ss| ==> ss[i] == []
  {
    if ss != [] {
      var n := |ss| - 1;
      ConcatEmpty(ss[..n]);
      assert forall i :: 0 <= i < n ==> ss[..n][i] == ss[i];
    }
  }
}
