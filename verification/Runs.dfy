/** Whole runs of two tunnel endpoints and a network that loses datagrams. */
module Runs {
  import opened CString
  import opened Cryp
  import opened WireFrame
  import opened SimpleUdp
  import opened Tunnel
  import opened Filter
  import opened RoundRobin
  import opened Sequences

  type Packet = seq<byte>

  /** A datagram on its way; origin, which no endpoint sees, is the number of the packet among those
      that the sender has given a serial. */
  datatype Copy = Copy(origin: nat, datagram: Datagram)

  /** One direction of the tunnel and its history. */
  datatype Link = Link(
    read: seq<Packet>,      // the packets read from the sender's tun device
    framed: seq<nat>,       // which of them were given a serial
    flight: seq<Copy>,      // the datagrams on their way, oldest first
    arrived: seq<nat>,      // the origins of the datagrams that have arrived
    passed: seq<nat>,       // the origins of those that passed the filter
    delivered: seq<nat>,    // the origins of those that were written to the receiver's tun device
    written: seq<Packet>,   // what was written
    source: Option<Addr>,   // where the latest datagram came from
    attempts: seq<nat>)     // the sockets of the sendto calls that were not interrupted

  datatype Side = A | B

  datatype Event =
    | Read(side: Side, packet: Packet, junk: seq<byte>, results: seq<SendResult>)
    | Arrive(side: Side, index: nat)   // the index-th datagram on its way to side arrives
    | Lose(side: Side, index: nat)     // it is lost
    | Open(side: Side)
    | Close(side: Side)

  datatype World = World(a: Endpoint, b: Endpoint, toA: Link, toB: Link)

  datatype Ends = Ends(cfgA: Config, cfgB: Config, magicA: Word, magicB: Word)

  const NOTHING := Link([], [], [], [], [], [], [], None, [])

  function Start(ends: Ends): World {
    World(Fresh(ends.cfgA), Fresh(ends.cfgB), NOTHING, NOTHING)
  }

  // ---- the steps of one direction ----

  /** thr_tun_reader reads a packet. */
  function LinkRead(cfg: Config, magic: Word, s: Endpoint, l: Link, packet: Packet, junk: seq<byte>,
                    results: seq<SendResult>): (Endpoint, Link)
  {
    if !(Valid(cfg, s.carrier) && s.tun) then (s, l) else
    if !(0 < |packet| <= PKTSIZE && |junk| == 8 && |results| == Times(cfg)) then (s, l) else
    var (s', out) := Reading(cfg, magic, s, junk, packet, results);
    var l' := l.(read := l.read + [packet]);
    if !Accepts(s.carrier, |packet|) then (s', l') else
    (s', l'.(framed := l.framed + [|l.read|], flight := l.flight + Copies(|l.framed|, out),
             attempts := l.attempts + Attempts(|cfg.sockets|, s.carrier.socketId, results)))
  }

  /** How often a packet is sent. */
  function Times(cfg: Config): nat {
    if cfg.dupLevel < 0 then 0 else cfg.dupLevel
  }

  function Copies(origin: nat, out: seq<Datagram>): (r: seq<Copy>)
    ensures |r| == |out| && forall i :: 0 <= i < |r| ==> r[i] == Copy(origin, out[i])
  {
    seq(|out|, i requires 0 <= i < |out| => Copy(origin, out[i]))
  }

  /** A datagram arrives. */
  function LinkArrive(magic: Word, r: Endpoint, l: Link, i: nat): (Endpoint, Link) {
    if i >= |l.flight| || !Complete(l.flight[i].datagram.bytes) then (r, l) else
    var c := l.flight[i];
    var (r', written) := Arriving(magic, r, c.datagram.from, c.datagram.bytes);
    var passes := Receiving(r.carrier, c.datagram.from, c.datagram.bytes).1.Some?;
    (r', l.(flight := Without(l.flight, i), arrived := l.arrived + [c.origin], source := Some(c.datagram.from),
            passed := if passes then l.passed + [c.origin] else l.passed,
            delivered := if written.Some? then l.delivered + [c.origin] else l.delivered,
            written := if written.Some? then l.written + [written.value] else l.written))
  }

  function LinkLose(l: Link, i: nat): Link {
    if i >= |l.flight| then l else l.(flight := Without(l.flight, i))
  }

  // ---- runs ----

  function Step(ends: Ends, w: World, e: Event): World {
    match e
    case Read(A, packet, junk, results) =>
      var (a, l) := LinkRead(ends.cfgA, ends.magicA, w.a, w.toB, packet, junk, results);
      w.(a := a, toB := l)
    case Read(B, packet, junk, results) =>
      var (b, l) := LinkRead(ends.cfgB, ends.magicB, w.b, w.toA, packet, junk, results);
      w.(b := b, toA := l)
    case Arrive(B, i) =>
      var (b, l) := LinkArrive(ends.magicB, w.b, w.toB, i);
      w.(b := b, toB := l)
    case Arrive(A, i) =>
      var (a, l) := LinkArrive(ends.magicA, w.a, w.toA, i);
      w.(a := a, toA := l)
    case Lose(B, i) => w.(toB := LinkLose(w.toB, i))
    case Lose(A, i) => w.(toA := LinkLose(w.toA, i))
    case Open(A) => w.(a := w.a.(tun := true))
    case Open(B) => w.(b := w.b.(tun := true))
    case Close(A) => w.(a := w.a.(tun := false))
    case Close(B) => w.(b := w.b.(tun := false))
  }

  function Run(ends: Ends, events: seq<Event>): World
    decreases events
  {
    if events == [] then Start(ends) else Step(ends, Run(ends, events[..|events| - 1]), events[|events| - 1])
  }

  // ---- what every step keeps, in any order of arrival ----

  function Total(packets: seq<Packet>): nat {
    if packets == [] then 0 else Total(packets[..|packets| - 1]) + |packets[|packets| - 1]|
  }

  /** A copy on its way is the frame of its packet. */
  ghost predicate Carries(magic: Word, l: Link, c: Copy) {
    && c.origin < |l.framed| && l.framed[c.origin] < |l.read|
    && var packet, f := l.read[l.framed[c.origin]], c.datagram.bytes;
    && Complete(f) && CodeOf(f) == CODE_DATA && SerialOf(f) == c.origin % TWO64
    && LengthOf(f) == |packet| && f[HEADER..HEADER + |packet|] == Scramble(packet, magic)
  }

  function Serials(origins: seq<nat>): (r: seq<nat>)
    ensures |r| == |origins| && forall i :: 0 <= i < |r| ==> r[i] == origins[i] % TWO64
  {
    seq(|origins|, i requires 0 <= i < |origins| => origins[i] % TWO64)
  }

  /** The sender and what it has sent. */
  ghost predicate SenderInv(cfg: Config, magic: Word, s: Endpoint, l: Link) {
    && Valid(cfg, s.carrier) && s.carrier.serial == |l.framed| % TWO64
    && Increasing(l.framed) && (forall i :: 0 <= i < |l.framed| ==> l.framed[i] < |l.read|)
    && (forall i :: 0 <= i < |l.flight| ==> Carries(magic, l, l.flight[i]))
    && s.statics.pktsSent == |l.read| && s.statics.bytesSent == Total(l.read)
  }

  /** The sockets taken in turn. */
  ghost predicate TurnInv(cfg: Config, s: Endpoint, l: Link) {
    && cfg.sockets != [] && s.carrier.socketId == Turn(|cfg.sockets|, 0, |l.attempts|)
    && forall t :: 0 <= t < |l.attempts| ==> l.attempts[t] == Turn(|cfg.sockets|, 0, t)
  }

  /** The receiver's filter and what it knows of its peer. */
  ghost predicate FilterInv(cfg: Config, r: Endpoint, l: Link) {
    && r.carrier.serialPrev == Latest(0, Serials(l.arrived))
    && Serials(l.passed) == Passed(0, Serials(l.arrived))
    && (forall i :: 0 <= i < |l.arrived| ==> l.arrived[i] < |l.framed|)
    && r.carrier.peer == if l.source.Some? then l.source else cfg.remote
  }

  /** What the receiver has written, when both ends have the same magic. */
  ghost predicate DeliveryInv(r: Endpoint, l: Link) {
    && |l.delivered| == |l.written|
    && (forall i :: 0 <= i < |l.delivered| ==> DeliveredAt(l, i))
    && r.statics.pktsRecv == |l.written| && r.statics.bytesRecv == Total(l.written)
  }

  ghost predicate DeliveredAt(l: Link, i: nat)
    requires i < |l.delivered| == |l.written|
  {
    && l.delivered[i] < |l.framed| && l.framed[l.delivered[i]] < |l.read|
    && l.written[i] == l.read[l.framed[l.delivered[i]]]
  }

  ghost predicate Inv(ends: Ends, w: World) {
    && SenderInv(ends.cfgA, ends.magicA, w.a, w.toB) && TurnInv(ends.cfgA, w.a, w.toB)
    && FilterInv(ends.cfgB, w.b, w.toB)
    && SenderInv(ends.cfgB, ends.magicB, w.b, w.toA) && TurnInv(ends.cfgB, w.b, w.toA)
    && FilterInv(ends.cfgA, w.a, w.toA)
    && (ends.magicA == ends.magicB ==> DeliveryInv(w.b, w.toB) && DeliveryInv(w.a, w.toA))
  }

  lemma {:induction false} LeavingAll(cfg: Config, id: nat, to: Addr, frame: seq<byte>, results: seq<SendResult>)
    requires id < |cfg.sockets|
    ensures forall i :: 0 <= i < |Leaving(cfg, id, to, frame, results)| ==>
      Leaving(cfg, id, to, frame, results)[i].bytes == frame
    decreases results
  {
    if results != [] {
      LeavingAll(cfg, if results[0].Interrupted? then id else (id + 1) % |cfg.sockets|, to, frame, results[1..]);
    }
  }

  lemma TotalSnoc(packets: seq<Packet>, p: Packet)
    ensures Total(packets + [p]) == Total(packets) + |p|
  {
    assert (packets + [p])[..|packets|] == packets;
  }

  /** A new frame carries its packet, and the old ones still do. */
  lemma FramedCarries(magic: Word, l: Link, l': Link, packet: Packet, junk: seq<byte>, d: Datagram)
    requires |junk| == 8 && |packet| <= 65535
    requires l'.read == l.read + [packet] && l'.framed == l.framed + [|l.read|]
    requires d.bytes == Frame(junk, CODE_DATA, |l.framed| % TWO64, Scramble(packet, magic))
    ensures Carries(magic, l', Copy(|l.framed|, d))
  {
    FrameRoundTrip(junk, CODE_DATA, |l.framed| % TWO64, Scramble(packet, magic));
  }

  lemma StillCarries(magic: Word, l: Link, l': Link, c: Copy)
    requires Carries(magic, l, c) && l.read <= l'.read && l.framed <= l'.framed
    ensures Carries(magic, l', c)
  {
    hide Scramble, Complete;
  }

  lemma ReadKeepsSender(cfg: Config, magic: Word, s: Endpoint, l: Link, packet: Packet, junk: seq<byte>,
                        results: seq<SendResult>)
    requires SenderInv(cfg, magic, s, l)
    ensures var (s', l') := LinkRead(cfg, magic, s, l, packet, junk, results);
      SenderInv(cfg, magic, s', l')
  {
    hide Scramble, Carries, Leaving, Frame, Complete, Attempts;
    var (s', l') := LinkRead(cfg, magic, s, l, packet, junk, results);
    if (s', l') != (s, l) {
      TotalSnoc(l.read, packet);
      forall i | 0 <= i < |l'.flight| ensures Carries(magic, l', l'.flight[i]) {
        FlightCarries(cfg, magic, s, l, packet, junk, results, i);
      }
    }
  }

  /** The i-th datagram on its way after a packet has been read. */
  lemma FlightCarries(cfg: Config, magic: Word, s: Endpoint, l: Link, packet: Packet, junk: seq<byte>,
                      results: seq<SendResult>, i: nat)
    requires SenderInv(cfg, magic, s, l) && i < |LinkRead(cfg, magic, s, l, packet, junk, results).1.flight|
    ensures var l' := LinkRead(cfg, magic, s, l, packet, junk, results).1;
      Carries(magic, l', l'.flight[i])
  {
    hide Scramble, Carries, Leaving, Frame, Complete, Attempts, Increasing, Total, SocketAfter;
    var l' := LinkRead(cfg, magic, s, l, packet, junk, results).1;
    if i < |l.flight| {
      assert Carries(magic, l, l.flight[i]);
      StillCarries(magic, l, l', l.flight[i]);
    } else {
      var frame := Frame(junk, CODE_DATA, s.carrier.serial, Scramble(packet, magic));
      LeavingAll(cfg, s.carrier.socketId, s.carrier.peer.value, frame, results);
      FramedCarries(magic, l, l', packet, junk, l'.flight[i].datagram);
    }
  }

  lemma ReadKeepsTurn(cfg: Config, magic: Word, s: Endpoint, l: Link, packet: Packet, junk: seq<byte>,
                      results: seq<SendResult>)
    requires TurnInv(cfg, s, l)
    ensures var (s', l') := LinkRead(cfg, magic, s, l, packet, junk, results);
      TurnInv(cfg, s', l')
  {
    hide Scramble, Leaving, Frame, Complete, Attempts, Turn, SocketAfter;
    var n := |cfg.sockets|;
    if s.carrier.socketId < n { MoreTurns(n, l.attempts, results); }
  }

  lemma MoreTurns(n: nat, attempts: seq<nat>, results: seq<SendResult>)
    requires n > 0 && forall t :: 0 <= t < |attempts| ==> attempts[t] == Turn(n, 0, t)
    ensures var id := Turn(n, 0, |attempts|);
      var all := attempts + Attempts(n, id, results);
      SocketAfter(n, id, results) == Turn(n, 0, |all|) && forall t :: 0 <= t < |all| ==> all[t] == Turn(n, 0, t)
  {
    hide Attempts, Turn, SocketAfter;
    var k := |attempts|;
    var id := Turn(n, 0, k);
    var more := Attempts(n, id, results);
    AttemptsAt(n, id, results);
    TurnSplit(n, 0, k, |more|);
    forall t | 0 <= t < k + |more| ensures (attempts + more)[t] == Turn(n, 0, t) {
      if t >= k { TurnSplit(n, 0, k, t - k); }
    }
  }

  lemma ReadKeepsFilter(cfg: Config, magic: Word, s: Endpoint, l: Link, packet: Packet, junk: seq<byte>,
                        results: seq<SendResult>, cfgR: Config, r: Endpoint)
    requires FilterInv(cfgR, r, l)
    ensures FilterInv(cfgR, r, LinkRead(cfg, magic, s, l, packet, junk, results).1)
  {
    hide Reading, Accepts, Serials, Passed, Latest, Attempts;
  }

  lemma ReadKeepsDelivery(cfg: Config, magic: Word, s: Endpoint, l: Link, packet: Packet, junk: seq<byte>,
                          results: seq<SendResult>, r: Endpoint)
    requires DeliveryInv(r, l)
    ensures DeliveryInv(r, LinkRead(cfg, magic, s, l, packet, junk, results).1)
  {
    hide Reading, Accepts, Total, Attempts;
    var l' := LinkRead(cfg, magic, s, l, packet, junk, results).1;
    forall k | 0 <= k < |l'.delivered| ensures DeliveredAt(l', k) { assert DeliveredAt(l, k); }
  }

  /** An endpoint's sending does not touch its receiving. */
  lemma ReadKeepsOwn(cfg: Config, magic: Word, s: Endpoint, l: Link, packet: Packet, junk: seq<byte>,
                     results: seq<SendResult>, own: Link)
    requires FilterInv(cfg, s, own)
    ensures var (s', l') := LinkRead(cfg, magic, s, l, packet, junk, results);
      FilterInv(cfg, s', own) && (DeliveryInv(s, own) ==> DeliveryInv(s', own))
  {
    hide Scramble, Serials, Passed, Latest, Total, Leaving, Frame, Attempts;
  }

  lemma SerialsSnoc(origins: seq<nat>, o: nat)
    ensures Serials(origins + [o]) == Serials(origins) + [o % TWO64]
  {
  }

  /** What a datagram that carries its packet does to the receiver. */
  lemma ArrivalIs(magicS: Word, magic: Word, r: Endpoint, l: Link, c: Copy)
    requires Carries(magicS, l, c)
    ensures c.origin < |l.framed| && l.framed[c.origin] < |l.read| && Complete(c.datagram.bytes)
    ensures var (r', written) := Arriving(magic, r, c.datagram.from, c.datagram.bytes);
      var passes := c.origin % TWO64 != r.carrier.serialPrev;
      var packet := l.read[l.framed[c.origin]];
      && Receiving(r.carrier, c.datagram.from, c.datagram.bytes).1.Some? == passes
      && r'.carrier == r.carrier.(peer := Some(c.datagram.from), serialPrev := c.origin % TWO64)
      && r'.tun == r.tun && r'.statics.pktsSent == r.statics.pktsSent && r'.statics.bytesSent == r.statics.bytesSent
      && written.Some? == (passes && r.tun)
      && (written.Some? && magicS == magic ==> written.value == packet)
      && r'.statics.pktsRecv == r.statics.pktsRecv + (if written.Some? then 1 else 0)
      && r'.statics.bytesRecv == r.statics.bytesRecv + (if written.Some? then |packet| else 0)
  {
    hide Scramble, FromBe;
    if magicS == magic { DecEnc(l.read[l.framed[c.origin]], magic); }
  }

  lemma ArriveKeepsSender(cfg: Config, magicS: Word, s: Endpoint, magic: Word, r: Endpoint, l: Link, i: nat)
    requires SenderInv(cfg, magicS, s, l) && TurnInv(cfg, s, l)
    ensures var (r', l') := LinkArrive(magic, r, l, i);
      SenderInv(cfg, magicS, s, l') && TurnInv(cfg, s, l')
  {
    hide Scramble, Arriving, Receiving, Complete;
  }

  lemma ArriveKeepsFilter(cfg: Config, s: Endpoint, magicS: Word, magic: Word, cfgR: Config, r: Endpoint, l: Link,
                          i: nat)
    requires SenderInv(cfg, magicS, s, l) && FilterInv(cfgR, r, l)
    ensures var (r', l') := LinkArrive(magic, r, l, i);
      FilterInv(cfgR, r', l')
  {
    hide Scramble, Arriving, Receiving, Complete, Carries, Serials, Passed, Latest, Total, Increasing;
    if i < |l.flight| {
      var c := l.flight[i];
      assert Carries(magicS, l, c);
      ArrivalIs(magicS, magic, r, l, c);
      SerialsSnoc(l.arrived, c.origin);
      SerialsSnoc(l.passed, c.origin);
      PassedSnoc(0, Serials(l.arrived), c.origin % TWO64);
      LatestSnoc(0, Serials(l.arrived), c.origin % TWO64);
    }
  }

  lemma ArriveKeepsDelivery(cfg: Config, s: Endpoint, magic: Word, r: Endpoint, l: Link, i: nat)
    requires SenderInv(cfg, magic, s, l) && DeliveryInv(r, l)
    ensures var (r', l') := LinkArrive(magic, r, l, i);
      DeliveryInv(r', l')
  {
    hide Scramble, Arriving, Receiving, Complete, Carries, Total, Increasing;
    if i < |l.flight| {
      var c := l.flight[i];
      assert Carries(magic, l, c);
      ArrivalIs(magic, magic, r, l, c);
      TotalSnoc(l.written, l.read[l.framed[c.origin]]);
      var l' := LinkArrive(magic, r, l, i).1;
      forall k | 0 <= k < |l'.delivered| ensures DeliveredAt(l', k) {
        if k < |l.delivered| { assert DeliveredAt(l, k); }
      }
    }
  }

  lemma LatestSnoc(prev: nat, s: seq<nat>, x: nat)
    ensures Latest(prev, s + [x]) == x
  {
  }

  /** An endpoint's receiving does not touch its sending. */
  lemma ArriveKeepsOwn(cfg: Config, magicS: Word, magic: Word, r: Endpoint, l: Link, i: nat, own: Link)
    requires SenderInv(cfg, magicS, r, own) && TurnInv(cfg, r, own)
    ensures var r' := LinkArrive(magic, r, l, i).0;
      SenderInv(cfg, magicS, r', own) && TurnInv(cfg, r', own)
  {
    hide Scramble, Carries, Total, Increasing, Complete, SerialOf, CodeOf, LengthOf;
  }

  lemma StepKeeps(ends: Ends, w: World, e: Event)
    requires Inv(ends, w)
    ensures Inv(ends, Step(ends, w, e))
  {
    hide SenderInv, TurnInv, FilterInv, DeliveryInv, LinkRead, LinkArrive;
    match e
    case Read(A, packet, junk, results) =>
      ReadKeepsSender(ends.cfgA, ends.magicA, w.a, w.toB, packet, junk, results);
      ReadKeepsTurn(ends.cfgA, ends.magicA, w.a, w.toB, packet, junk, results);
      ReadKeepsFilter(ends.cfgA, ends.magicA, w.a, w.toB, packet, junk, results, ends.cfgB, w.b);
      ReadKeepsOwn(ends.cfgA, ends.magicA, w.a, w.toB, packet, junk, results, w.toA);
      if DeliveryInv(w.b, w.toB) { ReadKeepsDelivery(ends.cfgA, ends.magicA, w.a, w.toB, packet, junk, results, w.b); }
    case Read(B, packet, junk, results) =>
      ReadKeepsSender(ends.cfgB, ends.magicB, w.b, w.toA, packet, junk, results);
      ReadKeepsTurn(ends.cfgB, ends.magicB, w.b, w.toA, packet, junk, results);
      ReadKeepsFilter(ends.cfgB, ends.magicB, w.b, w.toA, packet, junk, results, ends.cfgA, w.a);
      ReadKeepsOwn(ends.cfgB, ends.magicB, w.b, w.toA, packet, junk, results, w.toB);
      if DeliveryInv(w.a, w.toA) { ReadKeepsDelivery(ends.cfgB, ends.magicB, w.b, w.toA, packet, junk, results, w.a); }
    case Arrive(B, i) =>
      ArriveKeepsSender(ends.cfgA, ends.magicA, w.a, ends.magicB, w.b, w.toB, i);
      ArriveKeepsFilter(ends.cfgA, w.a, ends.magicA, ends.magicB, ends.cfgB, w.b, w.toB, i);
      ArriveKeepsOwn(ends.cfgB, ends.magicB, ends.magicB, w.b, w.toB, i, w.toA);
      if ends.magicA == ends.magicB { ArriveKeepsDelivery(ends.cfgA, w.a, ends.magicB, w.b, w.toB, i); }
    case Arrive(A, i) =>
      ArriveKeepsSender(ends.cfgB, ends.magicB, w.b, ends.magicA, w.a, w.toA, i);
      ArriveKeepsFilter(ends.cfgB, w.b, ends.magicB, ends.magicA, ends.cfgA, w.a, w.toA, i);
      ArriveKeepsOwn(ends.cfgA, ends.magicA, ends.magicA, w.a, w.toA, i, w.toB);
      if ends.magicA == ends.magicB { ArriveKeepsDelivery(ends.cfgB, w.b, ends.magicA, w.a, w.toA, i); }
    case Lose(side, i) => LoseKeeps(ends, w, side, i);
    case Open(side) => SwitchKeeps(ends, w, side, true);
    case Close(side) => SwitchKeeps(ends, w, side, false);
  }

  lemma LoseKeeps(ends: Ends, w: World, side: Side, i: nat)
    requires Inv(ends, w)
    ensures Inv(ends, Step(ends, w, Lose(side, i)))
  {
    hide SenderInv, TurnInv, FilterInv, DeliveryInv;
    match side {
      case A => LinkLoseKeeps(ends.cfgB, ends.magicB, w.b, ends.cfgA, w.a, w.toA, i);
      case B => LinkLoseKeeps(ends.cfgA, ends.magicA, w.a, ends.cfgB, w.b, w.toB, i);
    }
  }

  lemma LinkLoseKeeps(cfg: Config, magic: Word, s: Endpoint, cfgR: Config, r: Endpoint, l: Link, i: nat)
    requires SenderInv(cfg, magic, s, l) && TurnInv(cfg, s, l) && FilterInv(cfgR, r, l)
    ensures var l' := LinkLose(l, i);
      && SenderInv(cfg, magic, s, l') && TurnInv(cfg, s, l') && FilterInv(cfgR, r, l')
      && (DeliveryInv(r, l) ==> DeliveryInv(r, l'))
  {
    hide Scramble, Complete, Serials, Passed, Latest, Total, Turn;
    var l' := LinkLose(l, i);
    forall k | 0 <= k < |l'.flight| ensures Carries(magic, l', l'.flight[k]) {
      var c := l.flight[if l' == l || k < i then k else k + 1];
      assert Carries(magic, l, c);
      StillCarries(magic, l, l', c);
    }
    if DeliveryInv(r, l) {
      forall k | 0 <= k < |l'.delivered| ensures DeliveredAt(l', k) { assert DeliveredAt(l, k); }
    }
  }

  lemma SwitchKeeps(ends: Ends, w: World, side: Side, on: bool)
    requires Inv(ends, w)
    ensures Inv(ends, Step(ends, w, if on then Open(side) else Close(side)))
  {
    hide Carries, Serials, Passed, Latest, Total, Turn, DeliveredAt;
  }

  /** The invariant holds throughout every run, whatever the order of arrival. */
  lemma {:induction false} RunKeeps(ends: Ends, events: seq<Event>)
    requires ends.cfgA.sockets != [] && ends.cfgB.sockets != []
    ensures Inv(ends, Run(ends, events))
    decreases events
  {
    if events == [] {
      StartKeeps(ends);
    } else {
      hide Inv, Step, Start;
      RunKeeps(ends, events[..|events| - 1]);
      StepKeeps(ends, Run(ends, events[..|events| - 1]), events[|events| - 1]);
    }
  }

  lemma StartKeeps(ends: Ends)
    requires ends.cfgA.sockets != [] && ends.cfgB.sockets != []
    ensures Inv(ends, Start(ends))
  {
  }
}
