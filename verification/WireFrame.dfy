/** struct pkt_st of carrier/simple_udp/simple_udp.c as bytes on the wire. */
module WireFrame {
  import opened Arithmetic
  import opened CString

  const HEADER := 19
  const CODE_DATA: byte := 0
  const TWO32 := 0x1_0000_0000
  const TWO64 := 0x1_0000_0000_0000_0000

  // ---- byte orders ----

  function Power256(n: nat): nat {
    if n == 0 then 1 else 256 * Power256(n - 1)
  }

  /** The n low bytes of x, the lowest first: how the machine stores it. */
  function Le(x: nat, n: nat): (b: seq<byte>)
    ensures |b| == n
  {
    if n == 0 then [] else [x % 256] + Le(x / 256, n - 1)
  }

  function FromLe(b: seq<byte>): nat {
    if b == [] then 0 else b[0] as int + 256 * FromLe(b[1..])
  }

  /** The same, the highest first: network byte order. */
  function Be(x: nat, n: nat): (b: seq<byte>)
    ensures |b| == n
  {
    if n == 0 then [] else Be(x / 256, n - 1) + [x % 256]
  }

  function FromBe(b: seq<byte>): nat {
    if b == [] then 0 else 256 * FromBe(b[..|b| - 1]) + b[|b| - 1] as int
  }

  lemma {:induction false} FromBeBe(x: nat, n: nat)
    requires x < Power256(n)
    ensures FromBe(Be(x, n)) == x
    decreases n
  {
    if n > 0 {
      FromBeBe(x / 256, n - 1);
      assert Be(x, n)[..n - 1] == Be(x / 256, n - 1);
    }
  }

  lemma {:induction false} LeFromLe(b: seq<byte>)
    ensures FromLe(b) < Power256(|b|) && Le(FromLe(b), |b|) == b
  {
    if b != [] { LeFromLe(b[1..]); }
  }

  lemma Powers()
    ensures Power256(2) == 0x1_0000 && Power256(4) == TWO32 && Power256(8) == TWO64
  {
    assert Power256(3) == 0x100_0000;
    assert Power256(6) == 0x1_0000_0000_0000;
  }

  // ---- htons and ntohu64 on a machine that stores the low byte first ----

  /** htons, which is ntohs: the two bytes change places. */
  function Htons(x: nat): nat
    requires x < 0x1_0000
  {
    x / 256 + 256 * (x % 256)
  }

  /** ntohl: the four bytes in reverse order. */
  function Ntohl(x: nat): (y: nat)
    requires x < TWO32
    ensures y < TWO32
  {
    Htons(x / 0x1_0000) + 0x1_0000 * Htons(x % 0x1_0000)
  }

  /** ntohu64, which is htonu64: the two halves change places, each in reverse order. */
  function Ntohu64(x: nat): (y: nat)
    requires x < TWO64
    ensures y < TWO64
  {
    Ntohl(x / TWO32) + TWO32 * Ntohl(x % TWO32)
  }

  lemma HtonsTwice(x: nat)
    requires x < 0x1_0000
    ensures Htons(x) < 0x1_0000 && Htons(Htons(x)) == x
  {
  }

  lemma NtohlTwice(x: nat)
    requires x < TWO32
    ensures Ntohl(Ntohl(x)) == x
  {
    hide Htons;
    HtonsTwice(x / 0x1_0000);
    HtonsTwice(x % 0x1_0000);
    var h, l := Htons(x / 0x1_0000), Htons(x % 0x1_0000);
    assert Ntohl(x) / 0x1_0000 == l && Ntohl(x) % 0x1_0000 == h;
  }

  /** Converting twice gives the number back. */
  lemma Ntohu64Twice(x: nat)
    requires x < TWO64
    ensures Ntohu64(Ntohu64(x)) == x
  {
    hide Ntohl;
    NtohlTwice(x / TWO32);
    NtohlTwice(x % TWO32);
    var h, l := Ntohl(x / TWO32), Ntohl(x % TWO32);
    assert Ntohu64(x) / TWO32 == l && Ntohu64(x) % TWO32 == h;
  }

  lemma LowByte(x: nat, q: nat)
    ensures (x + 256 * q) % 256 == x % 256 && (x + 256 * q) / 256 == x / 256 + q
  {
  }

  lemma {:induction false} LeJoin(x: nat, y: nat, m: nat, n: nat)
    requires x < Power256(m)
    ensures Le(x + Power256(m) * y, m + n) == Le(x, m) + Le(y, n)
    decreases m
  {
    if m == 0 {
      assert Le(x, m) == [];
    } else {
      var py := Power256(m - 1) * y;
      assert Power256(m) * y == 256 * py;
      LowByte(x, py);
      LeJoin(x / 256, y, m - 1, n);
      assert Le(x + 256 * py, m + n) == [x % 256] + Le(x / 256 + py, m + n - 1);
      assert Le(x, m) == [x % 256] + Le(x / 256, m - 1);
    }
  }

  lemma {:induction false} BeJoin(x: nat, y: nat, m: nat, n: nat)
    requires x < Power256(m)
    ensures Be(x + Power256(m) * y, m + n) == Be(y, n) + Be(x, m)
    decreases m
  {
    if m == 0 {
      assert Be(x, m) == [];
    } else {
      var py := Power256(m - 1) * y;
      assert Power256(m) * y == 256 * py;
      LowByte(x, py);
      BeJoin(x / 256, y, m - 1, n);
    }
  }

  lemma HtonsIsBe(x: nat)
    requires x < 0x1_0000
    ensures Le(Htons(x), 2) == Be(x, 2)
  {
    var h, l := x / 256, x % 256;
    assert Le(Htons(x), 2) == [h] + Le(l, 1) == [h, l];
    assert Be(x, 2) == Be(h, 1) + [l] == [h, l];
  }

  lemma NtohlIsBe(x: nat)
    requires x < TWO32
    ensures Le(Ntohl(x), 4) == Be(x, 4)
  {
    hide Htons, Le, Be;
    Powers();
    var h, l := x / 0x1_0000, x % 0x1_0000;
    HtonsTwice(h);
    HtonsIsBe(h);
    HtonsIsBe(l);
    LeJoin(Htons(h), Htons(l), 2, 2);
    BeJoin(l, h, 2, 2);
  }

  /** What htonu64 stores is big-endian. */
  lemma Ntohu64IsBe(x: nat)
    requires x < TWO64
    ensures Le(Ntohu64(x), 8) == Be(x, 8)
  {
    hide Ntohl, Le, Be;
    Powers();
    var h, l := x / TWO32, x % TWO32;
    NtohlIsBe(h);
    NtohlIsBe(l);
    LeJoin(Ntohl(h), Ntohl(l), 4, 4);
    BeJoin(l, h, 4, 4);
  }

  // ---- frames ----

  /** A frame; the sender leaves whatever is in magic. */
  function Frame(magic: seq<byte>, code: byte, serial: nat, data: seq<byte>): (f: seq<byte>)
    requires |magic| == 8
    ensures |f| == HEADER + |data|
  {
    magic + [code] + Be(serial, 8) + Be(|data|, 2) + data
  }

  function CodeOf(f: seq<byte>): byte
    requires |f| >= HEADER
  {
    f[8]
  }

  function SerialOf(f: seq<byte>): nat
    requires |f| >= HEADER
  {
    FromBe(f[9..17])
  }

  function LengthOf(f: seq<byte>): nat
    requires |f| >= HEADER
  {
    FromBe(f[17..19])
  }

  /** What the receiver finds in a frame is what the sender put into it. */
  lemma FrameRoundTrip(magic: seq<byte>, code: byte, serial: nat, data: seq<byte>)
    requires |magic| == 8 && serial < TWO64 && |data| < 0x1_0000
    ensures var f := Frame(magic, code, serial, data);
      CodeOf(f) == code && SerialOf(f) == serial && LengthOf(f) == |data| && f[HEADER..HEADER + |data|] == data
  {
    hide Be, FromBe;
    Powers();
    FromBeBe(serial, 8);
    FromBeBe(|data|, 2);
    var f := Frame(magic, code, serial, data);
    assert f[9..17] == Be(serial, 8);
    assert f[17..19] == Be(|data|, 2);
  }

  /** The i-th byte of a number, counted from the low end. */
  function ByteOf(x: nat, i: nat): byte {
    if i == 0 then x % 256 else ByteOf(x / 256, i - 1)
  }

  /** The i-th byte is the one that the powers of 256 tell. */
  lemma {:induction false} BytePower(x: nat, i: nat)
    ensures Power256(i) > 0 && ByteOf(x, i) == x / Power256(i) % 256
  {
    if i > 0 {
      BytePower(x / 256, i - 1);
      hide Power256, ByteOf;
      QuotientTwice(x, 256, Power256(i - 1));
      PowerStep(i);
      ByteStep(x, i);
    } else {
      assert x / 1 == x;
    }
  }

  lemma PowerStep(i: nat)
    requires i > 0
    ensures Power256(i) == 256 * Power256(i - 1)
  {
  }

  lemma ByteStep(x: nat, i: nat)
    requires i > 0
    ensures ByteOf(x, i) == ByteOf(x / 256, i - 1)
  {
  }

  lemma {:induction false} BeAt(x: nat, n: nat, i: nat)
    requires i < n
    ensures Be(x, n)[i] == ByteOf(x, n - 1 - i)
    decreases n
  {
    if i < n - 1 { BeAt(x / 256, n - 1, i); }
  }

  lemma FrameParts(magic: seq<byte>, code: byte, serial: nat, data: seq<byte>)
    requires |magic| == 8
    ensures var f := Frame(magic, code, serial, data);
      && f[..8] == magic && f[8] == code && f[9..17] == Be(serial, 8) && f[17..19] == Be(|data|, 2) && f[19..] == data
  {
    hide Be;
  }

  /** Where the bytes of a frame stand: the code at 8, the serial from 9 and the length from 17 on, both
      with the high byte first, and the data from 19 on. */
  lemma FrameBytes(magic: seq<byte>, code: byte, serial: nat, data: seq<byte>)
    requires |magic| == 8 && |data| < 0x1_0000
    ensures var f := Frame(magic, code, serial, data);
      && |f| == 19 + |data| && f[..8] == magic && f[8] == code && f[19..] == data
      && (forall i :: 9 <= i < 17 ==> f[i] == ByteOf(serial, 16 - i))
      && f[17] == |data| / 256 && f[18] == |data| % 256
  {
    hide Be, Frame, ByteOf;
    var f := Frame(magic, code, serial, data);
    FrameParts(magic, code, serial, data);
    forall i | 9 <= i < 17 ensures f[i] == ByteOf(serial, 16 - i) {
      BeAt(serial, 8, i - 9);
      assert f[i] == f[9..17][i - 9];
    }
    LengthBytes(|data|);
    assert f[17] == f[17..19][0] && f[18] == f[17..19][1];
  }

  lemma LengthBytes(n: nat)
    requires n < 0x1_0000
    ensures Be(n, 2)[0] == n / 256 && Be(n, 2)[1] == n % 256
  {
    assert Be(n / 256, 1) == [n / 256];
  }
}
