/** in_cksum of carrier/simple_icmp4/simple_icmp4.c: the Internet checksum of RFC 1071. Words are read
    as the machine reads them, the low byte first. */
module Cksum {
  import opened CString
  import opened Json

  const WORD := 0x1_0000

  /** The i-th 16-bit word. */
  function Word(b: seq<byte>, i: nat): nat
    requires 2 * i + 1 < |b|
  {
    b[2 * i] as int + 256 * (b[2 * i + 1] as int)
  }

  /** The words from the i-th on, and the odd byte. */
  function Sum(b: seq<byte>, i: nat): (s: nat)
    decreases |b| - 2 * i
  {
    if 2 * i + 1 < |b| then Word(b, i) + Sum(b, i + 1)
    else if 2 * i < |b| then b[2 * i]
    else 0
  }

  /** s as a sum in ones' complement: s modulo 65535, where only a sum of zeros is 0. */
  function OnesSum(s: nat): (r: nat)
    ensures r < WORD && (r == 0 <==> s == 0)
  {
    if s == 0 then 0 else (s - 1) % 65535 + 1
  }

  /** The checksum that RFC 1071 defines. */
  function Checksum(b: seq<byte>, csum: nat): (r: nat)
    ensures r < WORD
  {
    65535 - OnesSum(csum + Sum(b, 0))
  }

  // ---- the code ----

  /** Nothing is lost in an int up to 65535 bytes. */
  lemma {:induction false} SumBound(b: seq<byte>, i: nat)
    requires 2 * i <= |b|
    ensures Sum(b, i) <= (|b| - 2 * i) / 2 * 65535 + 255
    decreases |b| - 2 * i
  {
    if 2 * i + 1 < |b| {
      SumBound(b, i + 1);
      OneWordLess(|b| - 2 * i);
    }
  }

  lemma OneWordLess(n: nat)
    requires n >= 2
    ensures n / 2 == (n - 2) / 2 + 1 && n / 2 * 65535 == (n - 2) / 2 * 65535 + 65535
  {
  }

  /** Folding the carries twice is enough. */
  lemma Folded(sum: nat)
    requires sum <= INT_MAX
    ensures var once := sum / WORD + sum % WORD; var twice := once + once / WORD;
      twice % WORD == OnesSum(sum)
  {
    var hi, lo := sum / WORD, sum % WORD;
    var once := hi + lo;
    var twice := once + once / WORD;
    assert sum == 65535 * hi + once;
    if once >= WORD {
      assert once / WORD == 1;
      SameOnes(sum, once - 65535, hi + 1);
    } else {
      assert once / WORD == 0;
      SameOnes(sum, once, hi);
    }
  }

  lemma SameOnes(s: nat, r: nat, q: nat)
    requires s == r + 65535 * q && r < WORD && (r == 0 ==> s == 0)
    ensures OnesSum(s) == r
  {
    if r > 0 { assert s - 1 == 65535 * q + (r - 1); }
  }

  method InCksum(addr: array<byte>, len: nat, csum: nat) returns (answer: nat)
    requires len == addr.Length <= 65535 && csum < WORD
    ensures answer == Checksum(addr[..], csum)
  {
    ghost var b := addr[..];
    SumBound(b, 0);
    var nleft := len;
    var w := 0;
    var sum := csum;
    while nleft > 1
      invariant nleft + 2 * w == len && sum + Sum(b, w) == csum + Sum(b, 0) <= INT_MAX
    {
      sum := sum + (addr[2 * w] as int + 256 * (addr[2 * w + 1] as int));
      w := w + 1;
      nleft := nleft - 2;
    }
    if nleft == 1 {
      sum := sum + addr[2 * w];
    }
    Folded(sum);
    sum := sum / WORD + sum % WORD;
    sum := sum + sum / WORD;
    answer := 65535 - sum % WORD;
  }

  // ---- what a checksum is for ----

  /** b with the 16-bit value v at the i-th word. */
  function Stored(b: seq<byte>, i: nat, v: nat): (c: seq<byte>)
    requires 2 * i + 1 < |b| && v < WORD
    ensures |c| == |b| && Word(c, i) == v
    ensures forall p :: 0 <= p < |b| && p / 2 != i ==> c[p] == b[p]
  {
    b[2 * i := v % 256][2 * i + 1 := v / 256]
  }

  lemma {:induction false} StoredSum(b: seq<byte>, i: nat, v: nat, j: nat)
    requires 2 * i + 1 < |b| && v < WORD && Word(b, i) == 0
    ensures Sum(Stored(b, i, v), j) == Sum(b, j) + if j <= i then v else 0
    decreases |b| - 2 * j
  {
    if 2 * j + 1 < |b| { StoredSum(b, i, v, j + 1); }
  }

  lemma OnesAdd(s: nat, v: nat)
    requires v == 65535 - OnesSum(s)
    ensures OnesSum(s + v) == 65535
  {
    if s == 0 {
      assert OnesSum(65535) == 65535;
    } else {
      var q := (s - 1) / 65535;
      assert s == 65535 * q + OnesSum(s);
      SameOnes(s + v, 65535, q);
    }
  }

  /** A buffer that carries its own checksum in a word that was zero sums to nothing. */
  lemma StoredChecksum(b: seq<byte>, i: nat, csum: nat)
    requires 2 * i + 1 < |b| && Word(b, i) == 0
    ensures Checksum(Stored(b, i, Checksum(b, csum)), csum) == 0
  {
    StoredSum(b, i, Checksum(b, csum), 0);
    OnesAdd(csum + Sum(b, 0), Checksum(b, csum));
  }

  // ---- what it is of a buffer ----

  /** The whole buffer as one number, the low byte first. */
  function Number(b: seq<byte>): nat {
    if b == [] then 0 else b[0] as int + 256 * Number(b[1..])
  }

  /** Adding up the words is casting out 65535. */
  lemma {:induction false} SumIsResidue(b: seq<byte>, i: nat) returns (q: nat)
    requires 2 * i <= |b|
    ensures Number(b[2 * i..]) == Sum(b, i) + 65535 * q
    ensures Sum(b, i) == 0 ==> Number(b[2 * i..]) == 0
    decreases |b| - 2 * i
  {
    var rest := b[2 * i..];
    if 2 * i + 1 < |b| {
      var q' := SumIsResidue(b, i + 1);
      assert rest[1..][1..] == b[2 * (i + 1)..];
      assert Number(rest) == b[2 * i] as int + 256 * Number(rest[1..]);
      assert Number(rest[1..]) == b[2 * i + 1] as int + 256 * Number(b[2 * (i + 1)..]);
      q := Number(b[2 * (i + 1)..]) + q';
    } else {
      q := 0;
      if 2 * i < |b| { assert rest == [b[2 * i]]; }
    }
  }

  /** The checksum is 65535 less the residue of the buffer, read as one number with the low byte first,
      and of the initial value modulo 65535; the residue is 65535 and not 0 unless both are 0. */
  lemma ChecksumIsResidue(b: seq<byte>, csum: nat)
    ensures var s, n := 65535 - Checksum(b, csum), csum + Number(b);
      s % 65535 == n % 65535 && (s == 0 <==> n == 0)
  {
    var q := SumIsResidue(b, 0);
    assert b[0..] == b;
    var s := csum + Sum(b, 0);
    if s > 0 {
      var d := (s - 1) / 65535;
      assert s == 65535 * d + OnesSum(s);
      SameResidue(csum + Number(b), OnesSum(s), d + q);
    }
  }

  lemma SameResidue(n: nat, s: nat, q: nat)
    requires n == s + 65535 * q
    ensures n % 65535 == s % 65535
  {
  }

  /** An odd byte counts like a word whose high byte is 0. */
  lemma ChecksumOdd(b: seq<byte>, csum: nat)
    requires |b| % 2 == 1
    ensures Checksum(b + [0], csum) == Checksum(b, csum)
  {
    SumOdd(b, 0);
  }

  lemma {:induction false} SumOdd(b: seq<byte>, i: nat)
    requires |b| % 2 == 1 && 2 * i < |b|
    ensures Sum(b + [0], i) == Sum(b, i)
    decreases |b| - 2 * i
  {
    if 2 * i + 1 < |b| {
      SumOdd(b, i + 1);
    } else {
      assert Sum(b + [0], i + 1) == 0;
    }
  }

  function SwapWord(v: nat): nat
    requires v < WORD
  {
    v / 256 + 256 * (v % 256)
  }

  /** The bytes of every word swapped. */
  function Swapped(b: seq<byte>): (c: seq<byte>)
    requires |b| % 2 == 0
    ensures |c| == |b|
  {
    seq(|b|, p requires 0 <= p < |b| => if p % 2 == 0 then b[p + 1] else b[p - 1])
  }

  /** Swapping is multiplication by 256 modulo 65535. */
  lemma {:induction false} SwappedSum(b: seq<byte>, i: nat) returns (q: int)
    requires |b| % 2 == 0 && 2 * i <= |b|
    ensures Sum(Swapped(b), i) == 256 * Sum(b, i) - 65535 * q
    ensures Sum(Swapped(b), i) == 0 <==> Sum(b, i) == 0
    decreases |b| - 2 * i
  {
    if 2 * i + 1 < |b| {
      var q' := SwappedSum(b, i + 1);
      q := q' + b[2 * i + 1];
    } else {
      q := 0;
    }
  }

  lemma OnesSwap(s: nat, t: nat, q: int)
    requires t == 256 * s - 65535 * q && (t == 0 <==> s == 0)
    ensures OnesSum(t) == SwapWord(OnesSum(s))
  {
    if s > 0 {
      var r := OnesSum(s);
      var d := (s - 1) / 65535;
      assert s == 65535 * d + r;
      var lo, hi := r % 256, r / 256;
      assert 256 * r == SwapWord(r) + 65535 * hi;
      assert t == SwapWord(r) + 65535 * (256 * d + hi - q);
      OnesUnique(t, SwapWord(r), 256 * d + hi - q);
    }
  }

  lemma OnesUnique(t: nat, r: nat, q: int)
    requires t > 0 && t == r + 65535 * q && 0 < r < WORD
    ensures OnesSum(t) == r
  {
    if q < 0 {
      assert false;
    }
    SameOnes(t, r, q);
  }

  /** RFC 1071 section 2 (B): on even lengths, swapping the bytes of every word, and of the initial
      value, swaps the bytes of the result. */
  lemma ChecksumSwapped(b: seq<byte>, csum: nat)
    requires |b| % 2 == 0 && csum < WORD
    ensures Checksum(Swapped(b), SwapWord(csum)) == SwapWord(Checksum(b, csum))
  {
    var q := SwappedSum(b, 0);
    assert SwapWord(csum) == 256 * csum - 65535 * (csum / 256);
    OnesSwap(csum + Sum(b, 0), SwapWord(csum) + Sum(Swapped(b), 0), q + csum / 256);
    var r := OnesSum(csum + Sum(b, 0));
    assert (65535 - r) / 256 == 255 - r / 256 && (65535 - r) % 256 == 255 - r % 256;
  }

  lemma {:induction false} PrefixSum(b: seq<byte>, n: nat, i: nat)
    requires n <= |b| && n % 2 == 0 && 2 * i <= n
    ensures Sum(b, i) == Sum(b[..n], i) + Sum(b[n..], 0)
    decreases n - 2 * i
  {
    if 2 * i < n {
      PrefixSum(b, n, i + 1);
    } else {
      SuffixSum(b, i, 0);
    }
  }

  lemma {:induction false} SuffixSum(b: seq<byte>, i: nat, j: nat)
    requires 2 * i <= |b|
    ensures Sum(b, i + j) == Sum(b[2 * i..], j)
    decreases |b| - 2 * (i + j)
  {
    if 2 * (i + j) + 1 < |b| { SuffixSum(b, i, j + 1); }
  }

  lemma OnesChain(s: nat, t: nat)
    ensures OnesSum(OnesSum(s) + t) == OnesSum(s + t)
  {
    if s > 0 {
      var q, r := (s - 1) / 65535, OnesSum(s);
      assert s == 65535 * q + r;
      var u := (r + t - 1) / 65535;
      assert r + t == 65535 * u + OnesSum(r + t);
      SameOnes(s + t, OnesSum(r + t), q + u);
    }
  }

  /** RFC 1071 section 2 (A): the sum of the whole is the sum of the rest, started with the
      complemented result of an even-length beginning. */
  lemma ChecksumChained(b: seq<byte>, n: nat, csum: nat)
    requires n <= |b| && n % 2 == 0
    ensures Checksum(b[n..], 65535 - Checksum(b[..n], csum)) == Checksum(b, csum)
  {
    PrefixSum(b, n, 0);
    OnesChain(csum + Sum(b[..n], 0), Sum(b[n..], 0));
  }
}
