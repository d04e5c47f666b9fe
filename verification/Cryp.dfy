/** cryp.c: the scrambler. A 64-bit word is the sequence of its bits, the lowest first, and lies in
    memory as eight bytes, the lowest first. */
module Cryp {
  import opened Arithmetic
  import opened CString

  type Word = w: seq<bool> | |w| == 64 witness seq(64, _ => false)
  type Octet = w: seq<bool> | |w| == 8 witness seq(8, _ => false)

  // ---- bits ----

  /** The lowest k bits of n. */
  function BitsOf(n: nat, k: nat): (w: seq<bool>)
    ensures |w| == k
  {
    if k == 0 then [] else [n % 2 == 1] + BitsOf(n / 2, k - 1)
  }

  function ValueOf(w: seq<bool>): nat {
    if w == [] then 0 else (if w[0] then 1 else 0) + 2 * ValueOf(w[1..])
  }

  function Power2(k: nat): (p: nat)
    ensures p > 0
  {
    if k == 0 then 1 else 2 * Power2(k - 1)
  }

  lemma {:induction false} ValueOfBits(n: nat, k: nat)
    requires n < Power2(k)
    ensures ValueOf(BitsOf(n, k)) == n
    decreases k
  {
    if k > 0 { ValueOfBits(n / 2, k - 1); }
  }

  lemma {:induction false} BitsOfValue(w: seq<bool>)
    ensures ValueOf(w) < Power2(|w|) && BitsOf(ValueOf(w), |w|) == w
  {
    if w != [] { BitsOfValue(w[1..]); }
  }

  lemma EightBits()
    ensures Power2(8) == 256
  {
    assert Power2(4) == 16;
  }

  /** The i-th bit of n, which the powers of two tell. */
  predicate HasBit(n: nat, i: nat) {
    n / Power2(i) % 2 == 1
  }

  lemma NextBit(n: nat, i: nat)
    requires i > 0
    ensures HasBit(n, i) == HasBit(n / 2, i - 1)
  {
    QuotientTwice(n, 2, Power2(i - 1));
  }

  lemma {:induction false} BitsOfAt(n: nat, k: nat, i: nat)
    requires i < k
    ensures BitsOf(n, k)[i] == HasBit(n, i)
    decreases k
  {
    hide HasBit, Power2, ValueOf;
    ghost var half := n / 2;
    if i > 0 {
      BitsOfAt(half, k - 1, i - 1);
      NextBit(n, i);
    } else {
      FirstBit(n);
    }
  }

  lemma FirstBit(n: nat)
    ensures HasBit(n, 0) == (n % 2 == 1)
  {
  }

  function ByteBits(b: byte): (w: Octet)
    ensures BitsByte(w) == b
  {
    EightBits();
    ValueOfBits(b, 8);
    BitsOf(b, 8)
  }

  function BitsByte(w: Octet): byte {
    EightBits();
    BitsOfValue(w);
    ValueOf(w)
  }

  lemma ByteBitsInverse(w: Octet)
    ensures ByteBits(BitsByte(w)) == w
  {
    BitsOfValue(w);
  }

  function Xor(a: seq<bool>, b: seq<bool>): (c: seq<bool>)
    requires |a| == |b|
    ensures |c| == |a| && forall i :: 0 <= i < |a| ==> c[i] == (a[i] != b[i])
  {
    seq(|a|, i requires 0 <= i < |a| => a[i] != b[i])
  }

  function Or(a: Word, b: Word): (c: Word)
    ensures forall i :: 0 <= i < 64 ==> c[i] == (a[i] || b[i])
  {
    seq(64, i requires 0 <= i < 64 => a[i] || b[i])
  }

  /** a << n */
  function ShiftLeft(a: Word, n: nat): (c: Word)
    ensures forall i :: 0 <= i < 64 ==> c[i] == (i >= n && a[i - n])
  {
    seq(64, i requires 0 <= i < 64 => i >= n && a[i - n])
  }

  /** a >> n */
  function ShiftRight(a: Word, n: nat): (c: Word)
    ensures forall i :: 0 <= i < 64 ==> c[i] == (i + n < 64 && a[i + n])
  {
    seq(64, i requires 0 <= i < 64 => i + n < 64 && a[i + n])
  }

  // ---- rotation ----

  /** loop_left_shift. C leaves a shift by 64 open; here nothing is left of the word. */
  function LoopLeftShift(a: Word, n: nat): Word {
    var n := n % 64;
    Or(ShiftLeft(a, n), ShiftRight(a, 64 - n))
  }

  /** a rotated to the left: its bit 0 becomes bit n mod 64. */
  function Rotated(a: Word, n: nat): (c: Word)
    ensures forall i :: 0 <= i < 64 ==> c[i] == a[(i - n) % 64]
  {
    seq(64, i requires 0 <= i < 64 => a[(i - n) % 64])
  }

  lemma Mod64(x: int, q: int)
    ensures (x + 64 * q) % 64 == x % 64
  {
    var d, r := x / 64, x % 64;
    assert x + 64 * q == 64 * (d + q) + r;
  }

  lemma FewerTurns(i: int, turns: nat)
    ensures (i - turns % 64) % 64 == (i - turns) % 64
  {
    Mod64(i - turns % 64, -(turns / 64));
    assert turns == 64 * (turns / 64) + turns % 64;
  }

  lemma TurnedIndex(i: nat, n: nat)
    requires i < 64
    ensures (i - n) % 64 == if i >= n % 64 then i - n % 64 else i + 64 - n % 64
  {
    FewerTurns(i, n);
    var d := i - n % 64;
    if d < 0 { Mod64(d, 1); }
  }

  lemma LoopLeftShiftRotates(a: Word, n: nat)
    ensures LoopLeftShift(a, n) == Rotated(a, n)
  {
    hide Rotated;
    forall i | 0 <= i < 64 ensures LoopLeftShift(a, n)[i] == Rotated(a, n)[i] {
      TurnedIndex(i, n);
    }
  }

  lemma RotatedTwice(a: Word, m: nat, n: nat)
    ensures Rotated(Rotated(a, m), n) == Rotated(a, m + n)
  {
    forall i | 0 <= i < 64 ensures Rotated(Rotated(a, m), n)[i] == Rotated(a, m + n)[i] {
      var q := (i - n) / 64;
      assert (i - n) % 64 == i - n - 64 * q;
      Mod64(i - n - m, -q);
    }
  }

  /** Rotations repeat after 64. */
  lemma RotatedMod(a: Word, n: nat, q: nat)
    ensures Rotated(a, n + 64 * q) == Rotated(a, n)
  {
    forall i | 0 <= i < 64 ensures Rotated(a, n + 64 * q)[i] == Rotated(a, n)[i] {
      Mod64(i - n, 0 - q);
    }
  }

  // ---- the key stream ----

  const SALT := 0x1027_e6f8_905c_76a3

  function Salted(magic: Word): Word {
    Xor(magic, BitsOf(SALT, 64))
  }

  /** magic64 when word 4k is scrambled. */
  function Key(magic: Word, k: nat): Word {
    if k == 0 then Salted(magic) else LoopLeftShift(Key(magic, k - 1), 4 * (k - 1))
  }

  /** How far the k-th key has been rotated in all: 0 + 4 + 8 + ... + 4(k - 1). */
  function Turns(k: nat): nat {
    if k == 0 then 0 else Turns(k - 1) + 4 * (k - 1)
  }

  lemma {:induction false} TurnsAre(k: nat)
    ensures Turns(k) == 2 * k * (k - 1)
  {
    if k > 0 {
      TurnsAre(k - 1);
      assert 2 * (k - 1) * (k - 2) + 4 * (k - 1) == 2 * k * (k - 1);
    }
  }

  lemma {:induction false} KeyRotates(magic: Word, k: nat)
    ensures Key(magic, k) == Rotated(Salted(magic), Turns(k))
  {
    hide Rotated, Salted, LoopLeftShift;
    if k == 0 {
      NotRotated(Salted(magic));
    } else {
      KeyRotates(magic, k - 1);
      LoopLeftShiftRotates(Key(magic, k - 1), 4 * (k - 1));
      RotatedTwice(Salted(magic), Turns(k - 1), 4 * (k - 1));
    }
  }

  lemma NotRotated(a: Word)
    ensures Rotated(a, 0) == a
  {
  }

  /** The key of word 4k is the salted magic rotated by 2k(k - 1). */
  lemma KeyIs(magic: Word, k: nat)
    ensures Key(magic, k) == Rotated(Salted(magic), (2 * k * (k - 1)) % 64)
  {
    hide Rotated, Salted, Key;
    KeyRotates(magic, k);
    TurnsAre(k);
    RotatedMod(Salted(magic), Turns(k) % 64, Turns(k) / 64);
    assert Turns(k) == Turns(k) % 64 + 64 * (Turns(k) / 64);
  }

  /** The key stream repeats after 32 keys, that is 128 words. */
  lemma KeyRepeats(magic: Word, k: nat)
    ensures Key(magic, k + 32) == Key(magic, k)
  {
    hide Rotated, Salted, Key, Turns;
    KeyRotates(magic, k);
    KeyRotates(magic, k + 32);
    TurnsRepeat(k);
    RotatedMod(Salted(magic), Turns(k), 2 * k + 31);
  }

  lemma {:induction false} TurnsRepeat(k: nat)
    ensures Turns(k + 32) == Turns(k) + 64 * (2 * k + 31)
  {
    if k == 0 {
      TurnsAre(32);
    } else {
      TurnsRepeat(k - 1);
    }
  }

  // ---- buffers ----

  /** Bits 8j to 8j + 7 of a word. */
  function Part(w: Word, j: nat): Octet
    requires j < 8
  {
    w[8 * j..8 * j + 8]
  }

  /** The i-th 64-bit word of a buffer. */
  function WordAt(b: seq<byte>, i: nat): (w: Word)
    requires 8 * i + 8 <= |b|
    ensures forall j :: 0 <= j < 8 ==> Part(w, j) == ByteBits(b[8 * i + j])
  {
    var w := seq(64, p requires 0 <= p < 64 => ByteBits(b[8 * i + p / 8])[p % 8]);
    assert forall j :: 0 <= j < 8 ==> w[8 * j..8 * j + 8] == ByteBits(b[8 * i + j]);
    w
  }

  function XorByte(b: byte, w: Octet): byte {
    BitsByte(Xor(ByteBits(b), w))
  }

  lemma XorByteTwice(b: byte, w: Octet)
    ensures XorByte(XorByte(b, w), w) == b
  {
    ByteBitsInverse(Xor(ByteBits(b), w));
    assert Xor(Xor(ByteBits(b), w), w) == ByteBits(b);
  }

  /** Whether the p-th of n bytes belongs to a word that is scrambled. */
  predicate Touched(p: nat, n: nat) {
    p / 8 % 4 == 0 && p / 8 < n / 8
  }

  /** The buffer after enc. */
  function Scramble(b: seq<byte>, magic: Word): (c: seq<byte>)
    ensures |c| == |b|
  {
    seq(|b|, p requires 0 <= p < |b| =>
      if Touched(p, |b|) then XorByte(b[p], Part(Key(magic, p / 32), p % 8)) else b[p])
  }

  /** Unscrambling what has been scrambled gives it back. */
  lemma DecEnc(b: seq<byte>, magic: Word)
    ensures Scramble(Scramble(b, magic), magic) == b
  {
    forall p | 0 <= p < |b| ensures Scramble(Scramble(b, magic), magic)[p] == b[p] {
      if Touched(p, |b|) { XorByteTwice(b[p], Part(Key(magic, p / 32), p % 8)); }
    }
  }

  lemma SameParts(a: Word, b: Word)
    requires forall j :: 0 <= j < 8 ==> Part(a, j) == Part(b, j)
    ensures a == b
  {
    forall i | 0 <= i < 64 ensures a[i] == b[i] {
      var j, p := i / 8, i % 8;
      PartAt(a, j, p);
      PartAt(b, j, p);
    }
  }

  lemma PartAt(w: Word, j: nat, p: nat)
    requires j < 8 && p < 8
    ensures Part(w, j)[p] == w[8 * j + p]
  {
  }

  /** Word 4k is combined with the key rotated by 2k(k - 1); every other word stays. */
  lemma ScrambledWord(b: seq<byte>, magic: Word, i: nat)
    requires 8 * i + 8 <= |b|
    ensures i % 4 != 0 ==> WordAt(Scramble(b, magic), i) == WordAt(b, i)
    ensures i % 4 == 0 ==> var k := i / 4;
      WordAt(Scramble(b, magic), i) == Xor(WordAt(b, i), Rotated(Salted(magic), (2 * k * (k - 1)) % 64))
  {
    hide WordAt, Rotated, Salted, Key, Scramble, Part, Xor, ByteBits;
    KeyIs(magic, i / 4);
    var goal := if i % 4 == 0 then Xor(WordAt(b, i), Key(magic, i / 4)) else WordAt(b, i);
    forall j | 0 <= j < 8 ensures Part(WordAt(Scramble(b, magic), i), j) == Part(goal, j) {
      ScrambledPart(b, magic, i, j);
    }
    SameParts(WordAt(Scramble(b, magic), i), goal);
  }

  lemma ScrambledPart(b: seq<byte>, magic: Word, i: nat, j: nat)
    requires 8 * i + 8 <= |b| && j < 8
    ensures Part(WordAt(Scramble(b, magic), i), j) ==
      Part(if i % 4 == 0 then Xor(WordAt(b, i), Key(magic, i / 4)) else WordAt(b, i), j)
  {
    hide WordAt, Key, Part, ByteBits, Rotated, Salted;
    var p := 8 * i + j;
    assert p / 8 == i && p % 8 == j && p / 32 == i / 4;
    if i % 4 == 0 {
      var key := Key(magic, i / 4);
      ByteBitsInverse(Xor(ByteBits(b[p]), Part(key, j)));
      PartXor(WordAt(b, i), key, j);
    }
  }

  /** What enc does, in the bits of bytes: bit i of word 4k is combined with bit j of the magic and bit j
      of the salt, j being i - 2k(k - 1) modulo 64. */
  lemma ScrambledBit(b: seq<byte>, magic: seq<byte>, k: nat, i: nat)
    requires |magic| == 8 && 32 * k + 8 <= |b| && i < 64
    ensures var j, p := (i - 2 * k * (k - 1)) % 64, 32 * k + i / 8;
      HasBit(Scramble(b, WordAt(magic, 0))[p], i % 8) ==
        (HasBit(b[p], i % 8) != (HasBit(magic[j / 8], j % 8) != HasBit(0x1027_e6f8_905c_76a3, j)))
  {
    hide WordAt, Rotated, Scramble, Xor, HasBit, BitsOf, Salted, Part, ByteBits, Key;
    var m, turns := WordAt(magic, 0), 2 * k * (k - 1);
    ScrambledWord(b, m, 4 * k);
    FewerTurns(i, turns);
    CombinedBit(Scramble(b, m), b, magic, 4 * k, turns % 64, i);
  }

  /** One bit of a word that has been combined with the salted magic rotated by t. */
  lemma CombinedBit(c: seq<byte>, b: seq<byte>, magic: seq<byte>, n: nat, t: nat, i: nat)
    requires |magic| == 8 && 8 * n + 8 <= |b| == |c| && i < 64
    requires WordAt(c, n) == Xor(WordAt(b, n), Rotated(Salted(WordAt(magic, 0)), t))
    ensures var j, p := (i - t) % 64, 8 * n + i / 8;
      HasBit(c[p], i % 8) == (HasBit(b[p], i % 8) != (HasBit(magic[j / 8], j % 8) != HasBit(0x1027_e6f8_905c_76a3, j)))
  {
    hide WordAt, HasBit, BitsOf, Salted, Part, ByteBits;
    WordBit(c, n, i);
    WordBit(b, n, i);
    SaltedBit(magic, (i - t) % 64);
  }

  lemma SaltedBit(magic: seq<byte>, j: nat)
    requires |magic| == 8 && j < 64
    ensures Salted(WordAt(magic, 0))[j] == (HasBit(magic[j / 8], j % 8) != HasBit(0x1027_e6f8_905c_76a3, j))
  {
    hide WordAt, HasBit, BitsOf;
    WordBit(magic, 0, j);
    BitsOfAt(SALT, 64, j);
  }

  lemma WordBit(b: seq<byte>, n: nat, i: nat)
    requires 8 * n + 8 <= |b| && i < 64
    ensures WordAt(b, n)[i] == HasBit(b[8 * n + i / 8], i % 8)
  {
    hide HasBit, BitsOf, ByteBits;
    var w := WordAt(b, n);
    assert w[i] == Part(w, i / 8)[i % 8];
    ByteBit(b[8 * n + i / 8], i % 8);
  }

  lemma ByteBit(x: byte, i: nat)
    requires i < 8
    ensures ByteBits(x)[i] == HasBit(x, i)
  {
    BitsOfAt(x, 8, i);
  }

  lemma PartXor(a: Word, b: Word, j: nat)
    requires j < 8
    ensures Part(Xor(a, b), j) == Xor(Part(a, j), Part(b, j))
  {
  }

  /** The bytes behind the last whole word stay. */
  lemma ScrambledTail(b: seq<byte>, magic: Word)
    ensures Scramble(b, magic)[|b| / 8 * 8..] == b[|b| / 8 * 8..]
  {
  }

  /** Scrambling a prefix does to its whole words what scrambling all does. */
  lemma ScrambledPrefix(b: seq<byte>, magic: Word, n: nat)
    requires n <= |b|
    ensures Scramble(b[..n], magic)[..n / 8 * 8] == Scramble(b, magic)[..n / 8 * 8]
  {
  }

  /** The i-th word of the buffer that starts at off is combined with the key, bit by bit. */
  method XorWord(mem: array<byte>, off: nat, i: nat, magic64: Word)
    requires off + 8 * i + 8 <= mem.Length
    modifies mem
    ensures forall p :: 0 <= p < mem.Length ==>
      mem[p] ==
        if p >= off && (p - off) / 8 == i then XorByte(old(mem[p]), Part(magic64, (p - off) % 8)) else old(mem[p])
  {
    for j := 0 to 8
      invariant forall p :: 0 <= p < mem.Length ==>
        mem[p] ==
          if p >= off && (p - off) / 8 == i && (p - off) % 8 < j then XorByte(old(mem[p]), Part(magic64, (p - off) % 8))
          else old(mem[p])
    {
      mem[off + 8 * i + j] := XorByte(mem[off + 8 * i + j], Part(magic64, j));
    }
  }

  /** enc: scrambles the bufsize bytes at off in place. */
  method Enc(mem: array<byte>, off: nat, bufsize: nat, magic: array<byte>)
    requires magic.Length == 8 && mem != magic && off + bufsize <= mem.Length
    modifies mem
    ensures mem[off..off + bufsize] == Scramble(old(mem[off..off + bufsize]), WordAt(magic[..], 0))
    ensures mem[..off] == old(mem[..off]) && mem[off + bufsize..] == old(mem[off + bufsize..])
  {
    hide WordAt, Key, LoopLeftShift, Salted, XorByte, Part, Touched, Xor, ByteBits, BitsByte, BitsOf, Rotated;
    ghost var m, b, before := WordAt(magic[..], 0), mem[off..off + bufsize], mem[..];
    var magic64 := Salted(WordAt(magic[..], 0));
    KeyStart(m);
    var len64 := bufsize / 8;
    var i := 0;
    while i < len64
      invariant i % 4 == 0 && magic64 == Key(m, i / 4)
      invariant forall p :: 0 <= p < mem.Length ==>
        mem[p] == if off <= p < off + bufsize && (p - off) / 8 < i then Scramble(b, m)[p - off] else before[p]
      decreases len64 - i
    {
      XorWord(mem, off, i, magic64);
      WordDone(b, m, i);
      KeyNext(m, i / 4);
      magic64 := LoopLeftShift(magic64, i);
      i := i + 4;
    }
    forall p | off <= p < off + bufsize ensures mem[p] == Scramble(b, m)[p - off] {
      if (p - off) / 8 >= i { TailDone(b, m, p - off); }
    }
    assert forall p :: 0 <= p < off || off + bufsize <= p < mem.Length ==> mem[p] == before[p];
    assert mem[..off] == before[..off];
    assert mem[off + bufsize..] == before[off + bufsize..];
  }

  lemma KeyStart(m: Word)
    ensures Key(m, 0) == Salted(m)
  {
  }

  lemma KeyNext(m: Word, k: nat)
    ensures Key(m, k + 1) == LoopLeftShift(Key(m, k), 4 * k)
  {
  }

  /** What a step of enc does to the four words from i on. */
  lemma WordDone(b: seq<byte>, m: Word, i: nat)
    requires i % 4 == 0 && i < |b| / 8
    ensures forall p :: 0 <= p < |b| && p / 8 == i ==> Scramble(b, m)[p] == XorByte(b[p], Part(Key(m, i / 4), p % 8))
    ensures forall p :: 0 <= p < |b| && i < p / 8 < i + 4 ==> Scramble(b, m)[p] == b[p]
  {
    hide Key, XorByte, Part;
    forall p | 0 <= p < |b| && p / 8 == i ensures p / 32 == i / 4 {}
    forall p | 0 <= p < |b| && i < p / 8 < i + 4 ensures !Touched(p, |b|) {}
  }

  lemma TailDone(b: seq<byte>, m: Word, p: nat)
    requires p < |b| && p / 8 >= |b| / 8
    ensures Scramble(b, m)[p] == b[p]
  {
  }

  /** dec */
  method Dec(mem: array<byte>, off: nat, bufsize: nat, magic: array<byte>)
    requires magic.Length == 8 && mem != magic && off + bufsize <= mem.Length
    modifies mem
    ensures mem[off..off + bufsize] == Scramble(old(mem[off..off + bufsize]), WordAt(magic[..], 0))
    ensures mem[..off] == old(mem[..off]) && mem[off + bufsize..] == old(mem[off + bufsize..])
  {
    Enc(mem, off, bufsize, magic);
  }
}
