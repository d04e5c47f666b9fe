/** The sender and the receiver of carrier/simple_udp/simple_udp.c. */
module SimpleUdp {
  import opened CString
  import opened WireFrame

  /** A socket address. */
  type Addr = nat

  const BUFSIZE := 65536 + 4096

  /** What mod_init takes from the configuration; sockets are the addresses the sockets send from. */
  datatype Config = Config(remote: Option<Addr>, dupLevel: int, sockets: seq<Addr>)

  /** The peer address of context_st (None is peer_addr_len == 0), and the static and local variables
      that outlive a packet. */
  datatype Carrier = Carrier(peer: Option<Addr>, serial: nat, socketId: nat, serialPrev: nat)

  /** The outcome of one sendto. */
  datatype SendResult = Sent | Interrupted | Failed

  datatype Datagram = Datagram(from: Addr, to: Addr, bytes: seq<byte>)

  predicate Valid(cfg: Config, c: Carrier) {
    cfg.sockets != [] && c.socketId < |cfg.sockets| && c.serial < TWO64
  }

  function Initial(cfg: Config): Carrier {
    Carrier(cfg.remote, 0, 0, 0)
  }

  // ---- sending ----

  /** The socket after the results. */
  function SocketAfter(n: nat, id: nat, results: seq<SendResult>): (r: nat)
    requires id < n
    ensures r < n
    decreases results
  {
    if results == [] then id
    else SocketAfter(n, if results[0].Interrupted? then id else (id + 1) % n, results[1..])
  }

  /** The datagrams that leave. */
  function Leaving(cfg: Config, id: nat, to: Addr, frame: seq<byte>, results: seq<SendResult>): seq<Datagram>
    requires id < |cfg.sockets|
    decreases results
  {
    if results == [] then [] else
    var rest := Leaving(cfg, if results[0].Interrupted? then id else (id + 1) % |cfg.sockets|, to, frame, results[1..]);
    if results[0].Sent? then [Datagram(cfg.sockets[id], to, frame)] + rest else rest
  }

  predicate Accepts(c: Carrier, len: nat) {
    len <= 65535 && c.peer.Some?
  }

  /** mod_send_packet: the carrier afterwards and the datagrams sent. junk is what the buffer holds
      where the magic would be; results are the outcomes of the sendto calls. */
  function Sending(cfg: Config, c: Carrier, junk: seq<byte>, data: seq<byte>, results: seq<SendResult>)
    : (r: (Carrier, seq<Datagram>))
    requires Valid(cfg, c) && |junk| == 8
    ensures Valid(cfg, r.0)
  {
    if !Accepts(c, |data|) then (c, []) else
    (c.(serial := (c.serial + 1) % TWO64, socketId := SocketAfter(|cfg.sockets|, c.socketId, results)),
     Leaving(cfg, c.socketId, c.peer.value, Frame(junk, CODE_DATA, c.serial, data), results))
  }

  /** How many of the sendto calls send the datagram. */
  function Sends(results: seq<SendResult>): nat {
    if results == [] then 0 else (if results[0].Sent? then 1 else 0) + Sends(results[1..])
  }

  lemma {:induction false} LeavingCount(cfg: Config, id: nat, to: Addr, frame: seq<byte>, results: seq<SendResult>)
    requires id < |cfg.sockets|
    ensures |Leaving(cfg, id, to, frame, results)| == Sends(results)
    ensures forall d :: d in Leaving(cfg, id, to, frame, results) ==> d.to == to && d.bytes == frame
    decreases results
  {
    if results != [] {
      LeavingCount(cfg, if results[0].Interrupted? then id else (id + 1) % |cfg.sockets|, to, frame, results[1..]);
    }
  }

  // ---- receiving ----

  /** A datagram in the receive buffer, with all the data its header announces. */
  predicate Complete(ubuf: seq<byte>) {
    |ubuf| >= HEADER && HEADER + LengthOf(ubuf) <= |ubuf|
  }

  /** The body of the loop in thr_rcv for a datagram that is not empty: the carrier afterwards, and
      the data that is passed on. */
  function Receiving(c: Carrier, from: Addr, ubuf: seq<byte>): (r: (Carrier, Option<seq<byte>>))
    requires Complete(ubuf)
  {
    if CodeOf(ubuf) != CODE_DATA then (c, None)
    else if SerialOf(ubuf) == c.serialPrev then (c.(peer := Some(from)), None)
    else (c.(peer := Some(from), serialPrev := SerialOf(ubuf)), Some(ubuf[HEADER..HEADER + LengthOf(ubuf)]))
  }

  lemma OneAttempt(cfg: Config, id: nat, to: Addr, frame: seq<byte>, results: seq<SendResult>, i: nat)
    requires id < |cfg.sockets| && i < |results|
    ensures var next := if results[i].Interrupted? then id else (id + 1) % |cfg.sockets|;
      var rest := Leaving(cfg, next, to, frame, results[i + 1..]);
      && SocketAfter(|cfg.sockets|, id, results[i..]) == SocketAfter(|cfg.sockets|, next, results[i + 1..])
      && Leaving(cfg, id, to, frame, results[i..]) ==
        if results[i].Sent? then [Datagram(cfg.sockets[id], to, frame)] + rest else rest
  {
    assert results[i..][1..] == results[i + 1..];
  }

  lemma NoAttempt(cfg: Config, id: nat, to: Addr, frame: seq<byte>, results: seq<SendResult>)
    requires id < |cfg.sockets| && results == []
    ensures SocketAfter(|cfg.sockets|, id, results) == id && Leaving(cfg, id, to, frame, results) == []
  {
  }

  // ---- bytes written into a buffer ----

  /** b with the bytes at off. */
  function Patched(b: seq<byte>, off: nat, bytes: seq<byte>): (r: seq<byte>)
    requires off + |bytes| <= |b|
    ensures |r| == |b|
  {
    b[..off] + bytes + b[off + |bytes|..]
  }

  lemma PatchedMore(b: seq<byte>, off: nat, bytes: seq<byte>, i: nat)
    requires off + |bytes| <= |b| && i < |bytes|
    ensures Patched(b, off, bytes[..i + 1]) == Patched(b, off, bytes[..i])[off + i := bytes[i]]
  {
    assert bytes[..i + 1] == bytes[..i] + [bytes[i]];
  }

  /** Of the cells from i to j, those that lie apart from the bytes written stay. */
  lemma PatchedApart(b: seq<byte>, off: nat, bytes: seq<byte>, i: nat, j: nat)
    requires off + |bytes| <= |b| && i <= j <= |b| && (j <= off || off + |bytes| <= i)
    ensures Patched(b, off, bytes)[i..j] == b[i..j]
  {
    var r := Patched(b, off, bytes);
    forall k | i <= k < j ensures r[k] == b[k] {}
  }

  lemma PatchedThere(b: seq<byte>, off: nat, bytes: seq<byte>)
    requires off + |bytes| <= |b|
    ensures Patched(b, off, bytes)[off..off + |bytes|] == bytes
  {
  }

  lemma Fields(f: seq<byte>, n: nat)
    requires HEADER + n <= |f|
    ensures f[..HEADER + n] == f[0..8] + f[8..9] + f[9..17] + f[17..HEADER] + f[HEADER..HEADER + n]
  {
  }

  /** The four stores of the sender. */
  lemma Patches(b: seq<byte>, serial: seq<byte>, len: seq<byte>, data: seq<byte>)
    requires |serial| == 8 && |len| == 2 && HEADER + |data| <= |b|
    ensures var f := Patched(Patched(Patched(Patched(b, 8, [CODE_DATA]), 17, len), 9, serial), HEADER, data);
      f[..HEADER + |data|] == b[..8] + [CODE_DATA] + serial + len + data
  {
    hide Patched;
    var b1 := Patched(b, 8, [CODE_DATA]);
    var b2 := Patched(b1, 17, len);
    var b3 := Patched(b2, 9, serial);
    var f := Patched(b3, HEADER, data);
    assert f[0..8] == b[..8] by {
      PatchedApart(b, 8, [CODE_DATA], 0, 8);
      PatchedApart(b1, 17, len, 0, 8);
      PatchedApart(b2, 9, serial, 0, 8);
      PatchedApart(b3, HEADER, data, 0, 8);
    }
    assert f[8..9] == [CODE_DATA] by {
      PatchedThere(b, 8, [CODE_DATA]);
      PatchedApart(b1, 17, len, 8, 9);
      PatchedApart(b2, 9, serial, 8, 9);
      PatchedApart(b3, HEADER, data, 8, 9);
    }
    assert f[9..17] == serial by {
      PatchedThere(b2, 9, serial);
      PatchedApart(b3, HEADER, data, 9, 17);
    }
    assert f[17..HEADER] == len by {
      PatchedThere(b1, 17, len);
      PatchedApart(b2, 9, serial, 17, HEADER);
      PatchedApart(b3, HEADER, data, 17, HEADER);
    }
    PatchedThere(b3, HEADER, data);
    Fields(f, |data|);
  }

  // ---- the code ----

  class Context {
    var peer: Option<Addr>
    const sockets: seq<Addr>
    const dupLevel: int
    var serial: nat
    var socketId: nat
    var serialPrev: nat

    /** mod_init */
    constructor (cfg: Config)
      requires cfg.sockets != []
      ensures this.Conf(cfg.remote) == cfg && Value() == Initial(cfg) && Valid(cfg, Value())
    {
      peer, sockets, dupLevel := cfg.remote, cfg.sockets, cfg.dupLevel;
      serial, socketId, serialPrev := 0, 0, 0;
    }

    ghost function Conf(remote: Option<Addr>): Config {
      Config(remote, dupLevel, sockets)
    }

    ghost function Value(): Carrier
      reads this
    {
      Carrier(peer, serial, socketId, serialPrev)
    }

    /** mod_send_packet of the first len bytes of data; results are the outcomes that sendto will have. */
    method SendPacket(data: array<byte>, len: nat, results: seq<SendResult>, ghost remote: Option<Addr>)
      returns (ret: int, out: seq<Datagram>, ghost junk: seq<byte>)
      requires len <= data.Length && Valid(Conf(remote), Value())
      requires |results| == if dupLevel < 0 then 0 else dupLevel
      modifies this`serial, this`socketId
      ensures |junk| == 8 && Valid(Conf(remote), Value())
      ensures (Value(), out) == Sending(Conf(remote), old(Value()), junk, data[..len], results)
      ensures ret == if len <= 65535 && old(peer).Some? then 0 else -1
      ensures |out| == if ret == 0 then Sends(results) else 0
      ensures forall d :: d in out ==>
        Some(d.to) == old(peer) && d.bytes == Frame(junk, CODE_DATA, old(serial), data[..len])
    {
      hide Frame, Leaving, SocketAfter, Sends;
      junk := [0, 0, 0, 0, 0, 0, 0, 0];
      if len > 65535 {
        return -1, [], junk;
      }
      if peer.None? {
        return -1, [], junk;
      }
      var ubuf := new byte[BUFSIZE];
      junk := ubuf[..8];
      var n := FillFrame(ubuf, serial, data, len);
      LeavingCount(Conf(remote), socketId, peer.value, ubuf[..n], results);
      out := Transmit(ubuf, n, results, remote);
      serial := (serial + 1) % TWO64;
      ret := 0;
    }

    /** The loop over the duplicates. */
    method Transmit(ubuf: array<byte>, n: nat, results: seq<SendResult>, ghost remote: Option<Addr>)
      returns (out: seq<Datagram>)
      requires n <= ubuf.Length && socketId < |sockets| && peer.Some?
      requires |results| == if dupLevel < 0 then 0 else dupLevel
      modifies this`socketId
      ensures socketId == SocketAfter(|sockets|, old(socketId), results)
      ensures out == Leaving(Conf(remote), old(socketId), peer.value, ubuf[..n], results)
    {
      hide SocketAfter, Leaving;
      ghost var cfg, frame := Conf(remote), ubuf[..n];
      out := [];
      var i := 0;
      assert results[0..] == results;
      while i < dupLevel
        invariant 0 <= i <= |results| && socketId < |sockets|
        invariant SocketAfter(|sockets|, old(socketId), results) == SocketAfter(|sockets|, socketId, results[i..])
        invariant Leaving(cfg, old(socketId), peer.value, frame, results) ==
          out + Leaving(cfg, socketId, peer.value, frame, results[i..])
      {
        var ret := results[i];
        OneAttempt(cfg, socketId, peer.value, frame, results, i);
        if ret.Sent? {
          out := out + [Datagram(sockets[socketId], peer.value, ubuf[..n])];
        }
        if !ret.Interrupted? {
          socketId := (socketId + 1) % |sockets|;
        }
        i := i + 1;
      }
      NoAttempt(cfg, socketId, peer.value, frame, results[i..]);
    }

    /** The header fields and the data; n is the size of the datagram. */
    method FillFrame(ubuf: array<byte>, serial: nat, data: array<byte>, len: nat) returns (n: nat)
      requires ubuf.Length == BUFSIZE && ubuf != data && len <= data.Length && len <= 65535 && serial < TWO64
      modifies ubuf
      ensures n == HEADER + len && ubuf[..n] == Frame(old(ubuf[..8]), CODE_DATA, serial, data[..len])
    {
      hide Le, Be, Htons, Ntohu64, Patched;
      ghost var before := ubuf[..];
      HtonsTwice(len);
      Ntohu64IsBe(serial);
      HtonsIsBe(len);
      Store(ubuf, 8, [CODE_DATA]);
      Store(ubuf, 17, Le(Htons(len), 2));
      Store(ubuf, 9, Le(Ntohu64(serial), 8));
      Store(ubuf, HEADER, data[..len]);
      n := HEADER + len;
      Patches(before, Be(serial, 8), Be(len, 2), data[..len]);
      assert before[..8] == old(ubuf[..8]) && ubuf[..][..n] == ubuf[..n];
    }

    /** Bytes written at off. */
    method Store(ubuf: array<byte>, off: nat, bytes: seq<byte>)
      requires off + |bytes| <= ubuf.Length
      modifies ubuf
      ensures ubuf[..] == Patched(old(ubuf[..]), off, bytes)
    {
      ghost var before := ubuf[..];
      var i := 0;
      while i < |bytes|
        invariant 0 <= i <= |bytes|
        invariant ubuf[..] == Patched(before, off, bytes[..i])
      {
        PatchedMore(before, off, bytes, i);
        ubuf[off + i] := bytes[i];
        i := i + 1;
      }
      assert bytes[..i] == bytes;
    }

    /** A socket that is ready, len being the result of recvfrom: the buffer is looked at unless that is
        0, and a negative result leaves it as it was. deliver says whether on_recv is called with the
        dataLen bytes behind the header. */
    method Receive(ubuf: array<byte>, len: int, from: Addr) returns (deliver: bool, dataLen: nat)
      requires ubuf.Length == BUFSIZE
      modifies this`peer, this`serialPrev
      ensures HEADER + dataLen <= ubuf.Length
      ensures len == 0 ==> !deliver && Value() == old(Value())
      ensures Complete(ubuf[..])
      ensures len != 0 ==>
        (Value(), if deliver then Some(ubuf[HEADER..HEADER + dataLen]) else None) ==
          Receiving(old(Value()), from, ubuf[..])
      ensures len != 0 && ubuf[8] != CODE_DATA ==> !deliver && Value() == old(Value())
      ensures len != 0 && ubuf[8] == CODE_DATA ==>
        && peer == Some(from) && serialPrev == FromBe(ubuf[9..17]) && (deliver <==> serialPrev != old(serialPrev))
        && (deliver ==> dataLen == FromBe(ubuf[17..19]))
    {
      deliver, dataLen := false, 0;
      FieldsOf(ubuf[..]);
      assert ubuf[17..19] == ubuf[..][17..19] && ubuf[9..17] == ubuf[..][9..17];
      if len == 0 {
        return;
      }
      if ubuf[8] != CODE_DATA {
        return;
      }
      peer := Some(from);
      var l := Htons(FromLe(ubuf[17..19]));
      var s := Ntohu64(FromLe(ubuf[9..17]));
      if s == serialPrev {
        return;
      }
      serialPrev := s;
      deliver, dataLen := true, l;
    }
  }

  /** The fields of a header as the machine reads and converts them. */
  lemma FieldsOf(f: seq<byte>)
    requires |f| == BUFSIZE
    ensures FromLe(f[17..19]) < 0x1_0000 && Htons(FromLe(f[17..19])) == LengthOf(f)
    ensures FromLe(f[9..17]) < TWO64 && Ntohu64(FromLe(f[9..17])) == SerialOf(f)
    ensures LengthOf(f) < 0x1_0000 && Complete(f)
  {
    Powers();
    var l, x := f[17..19], f[9..17];
    LeFromLe(l);
    LeFromLe(x);
    var n, y := Htons(FromLe(l)), Ntohu64(FromLe(x));
    HtonsTwice(FromLe(l));
    Ntohu64Twice(FromLe(x));
    HtonsIsBe(n);
    Ntohu64IsBe(y);
    FromBeBe(n, 2);
    FromBeBe(y, 8);
  }
}
