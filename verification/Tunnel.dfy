/** The two threads of tunnel.c between the tun device and the carrier. */
module Tunnel {
  import opened CString
  import opened Cryp
  import opened WireFrame
  import opened SimpleUdp

  const PKTSIZE := 65536

  /** struct tunnel_statics */
  datatype Statics = Statics(pktsSent: nat, bytesSent: nat, pktsRecv: nat, bytesRecv: nat)

  /** One end of the tunnel; tun says whether the tun device is open. */
  datatype Endpoint = Endpoint(carrier: Carrier, tun: bool, statics: Statics)

  function Fresh(cfg: Config): Endpoint {
    Endpoint(Initial(cfg), false, Statics(0, 0, 0, 0))
  }

  /** A packet read from the tun device: scrambled, given to the carrier, and counted even if the
      carrier drops it. */
  function Reading(cfg: Config, magic: Word, e: Endpoint, junk: seq<byte>, packet: seq<byte>, results: seq<SendResult>)
    : (r: (Endpoint, seq<Datagram>))
    requires Valid(cfg, e.carrier) && |junk| == 8
    ensures Valid(cfg, r.0.carrier)
  {
    var (c, out) := Sending(cfg, e.carrier, junk, Scramble(packet, magic), results);
    var s := e.statics;
    (e.(carrier := c, statics := s.(pktsSent := s.pktsSent + 1, bytesSent := s.bytesSent + |packet|)), out)
  }

  /** A datagram that arrives: what is written to the tun device, if it is open. */
  function Arriving(magic: Word, e: Endpoint, from: Addr, ubuf: seq<byte>): (r: (Endpoint, Option<seq<byte>>))
    requires Complete(ubuf)
  {
    var (c, data) := Receiving(e.carrier, from, ubuf);
    var s := e.statics;
    if data.None? || !e.tun then (e.(carrier := c), None)
    else (e.(carrier := c, statics := s.(pktsRecv := s.pktsRecv + 1, bytesRecv := s.bytesRecv + |data.value|)),
          Some(Scramble(data.value, magic)))
  }

  /** struct tunnel_ctx */
  class TunnelCtx {
    const magic: array<byte>
    const carrier: Context
    var tun: bool
    var pktsSent: nat
    var bytesSent: nat
    var pktsRecv: nat
    var bytesRecv: nat

    constructor (magic: array<byte>, carrier: Context)
      ensures this.magic == magic && this.carrier == carrier
      ensures Value() == Endpoint(carrier.Value(), false, Statics(0, 0, 0, 0))
    {
      this.magic, this.carrier, tun := magic, carrier, false;
      pktsSent, bytesSent, pktsRecv, bytesRecv := 0, 0, 0, 0;
    }

    ghost function Value(): Endpoint
      reads this, carrier
    {
      Endpoint(carrier.Value(), tun, Statics(pktsSent, bytesSent, pktsRecv, bytesRecv))
    }

    /** One round of thr_tun_reader, len being the result of read. */
    method ReadPacket(buffer: array<byte>, len: int, results: seq<SendResult>, ghost remote: Option<Addr>)
      returns (out: seq<Datagram>, ghost junk: seq<byte>)
      requires buffer.Length == PKTSIZE && len <= PKTSIZE && magic.Length == 8 && buffer != magic
      requires Valid(carrier.Conf(remote), carrier.Value())
      requires |results| == if carrier.dupLevel < 0 then 0 else carrier.dupLevel
      modifies this`pktsSent, this`bytesSent, carrier`serial, carrier`socketId, buffer
      ensures |junk| == 8
      ensures len <= 0 ==> out == [] && Value() == old(Value())
      ensures len > 0 ==>
        (Value(), out) ==
          Reading(carrier.Conf(remote), WordAt(magic[..], 0), old(Value()), junk, old(buffer[..len]), results)
    {
      hide Scramble, WordAt, Frame;
      out, junk := [], [0, 0, 0, 0, 0, 0, 0, 0];
      if len <= 0 {
        return;
      }
      Dec(buffer, 0, len, magic);
      assert buffer[0..0 + len] == buffer[..len] && old(buffer[0..0 + len]) == old(buffer[..len]);
      var ret;
      ret, out, junk := carrier.SendPacket(buffer, len, results, remote);
      pktsSent := pktsSent + 1;
      bytesSent := bytesSent + len;
    }

    /** cb_recv of the len bytes at off; the bytes written to the tun device are returned. */
    method CbRecv(mem: array<byte>, off: nat, len: nat) returns (written: Option<seq<byte>>)
      requires off + len <= mem.Length && magic.Length == 8 && mem != magic
      modifies this`pktsRecv, this`bytesRecv, mem
      ensures !tun ==> written == None && Value() == old(Value())
      ensures tun ==> written == Some(Scramble(old(mem[off..off + len]), WordAt(magic[..], 0)))
      ensures tun ==>
        Value() == old(Value()).(statics := Statics(pktsSent, bytesSent, old(pktsRecv) + 1, old(bytesRecv) + len))
    {
      written := None;
      if tun {
        Dec(mem, off, len, magic);
        written := Some(mem[off..off + len]);
        pktsRecv := pktsRecv + 1;
        bytesRecv := bytesRecv + len;
      }
    }

    /** What recvfrom left in the receive buffer, len being its result: thr_rcv and, through on_recv,
        cb_recv. */
    method Receive(ubuf: array<byte>, len: int, from: Addr) returns (written: Option<seq<byte>>)
      requires ubuf.Length == BUFSIZE && magic.Length == 8 && ubuf != magic
      modifies this`pktsRecv, this`bytesRecv, carrier`peer, carrier`serialPrev, ubuf
      ensures old(Complete(ubuf[..]))
      ensures len == 0 ==> written == None && Value() == old(Value())
      ensures len != 0 ==> (Value(), written) == Arriving(WordAt(magic[..], 0), old(Value()), from, old(ubuf[..]))
    {
      hide Scramble, WordAt;
      var deliver, dataLen := carrier.Receive(ubuf, len, from);
      written := None;
      if deliver {
        written := CbRecv(ubuf, HEADER, dataLen);
      }
    }
  }

  /** What an earlier datagram has left behind this one in the buffer does not matter. */
  lemma StaleBytes(magic: Word, e: Endpoint, from: Addr, bytes: seq<byte>, stale: seq<byte>)
    requires Complete(bytes)
    ensures Complete(bytes + stale) && Arriving(magic, e, from, bytes + stale) == Arriving(magic, e, from, bytes)
  {
    hide Scramble, FromBe;
    var f := bytes + stale;
    assert f[9..17] == bytes[9..17] && f[17..19] == bytes[17..19];
    assert f[HEADER..HEADER + LengthOf(bytes)] == bytes[HEADER..HEADER + LengthOf(bytes)];
  }
}
