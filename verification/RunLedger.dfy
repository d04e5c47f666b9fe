/** Which packets leave, what they look like on their way and which are written, over whole runs. */
module RunLedger {
  import opened CString
  import opened Cryp
  import opened WireFrame
  import opened SimpleUdp
  import opened Tunnel
  import opened Filter
  import opened RoundRobin
  import opened Runs
  import opened RunTheorems
  import opened Sequences

  /** The reader thread of the side gets a packet: its tun device is open, and there is one outcome for
      each of the duplicates that are sent. */
  ghost predicate Taken(ends: Ends, w: World, e: Event, side: Side) {
    e.Read? && e.side == side && TakenBy(ConfigOf(ends, side), At(w, side), e.packet, e.junk, e.results)
  }

  ghost predicate TakenBy(cfg: Config, s: Endpoint, packet: Packet, junk: seq<byte>, results: seq<SendResult>) {
    && s.tun && 0 < |packet| <= 65536 && |junk| == 8
    && |results| == if cfg.dupLevel < 0 then 0 else cfg.dupLevel
  }

  /** The packet also fits a frame, and the peer is known. */
  ghost predicate Sendable(ends: Ends, w: World, e: Event, side: Side) {
    Taken(ends, w, e, side) && |e.packet| <= 65535 && At(w, side).carrier.peer.Some?
  }

  /** A packet that is taken is read; it gets a frame, and as many copies of that leave as sendto calls
      succeed, exactly if it fits and the peer is known. */
  lemma LinkReadIs(cfg: Config, magic: Word, s: Endpoint, l: Link, packet: Packet, junk: seq<byte>,
                   results: seq<SendResult>)
    requires Valid(cfg, s.carrier)
    ensures var (s', l') := LinkRead(cfg, magic, s, l, packet, junk, results);
      var taken := TakenBy(cfg, s, packet, junk, results);
      var sendable := taken && |packet| <= 65535 && s.carrier.peer.Some?;
      && l'.read == (if taken then l.read + [packet] else l.read)
      && l'.framed == (if sendable then l.framed + [|l.read|] else l.framed)
      && l.flight <= l'.flight && |l'.flight| == |l.flight| + (if sendable then Sends(results) else 0)
      && (forall i :: |l.flight| <= i < |l'.flight| ==> l'.flight[i].origin == |l.framed|)
      && l'.arrived == l.arrived
  {
    hide Scramble, Frame, Leaving, Attempts, SocketAfter, Sends;
    if TakenBy(cfg, s, packet, junk, results) && |packet| <= 65535 && s.carrier.peer.Some? {
      LeavingCount(cfg, s.carrier.socketId, s.carrier.peer.value,
        Frame(junk, CODE_DATA, s.carrier.serial, Scramble(packet, magic)), results);
    }
  }

  /** How many datagrams an event takes off the way to the other side without delivering them. */
  function Losses(w: World, e: Event, side: Side): nat {
    if e.Lose? && e.side == Opposite(side) && e.index < |Towards(w, Opposite(side)).flight| then 1 else 0
  }

  /** What one event adds to what a side has read, framed and sent. */
  lemma StepReads(ends: Ends, w: World, e: Event, side: Side)
    requires Inv(ends, w)
    ensures var l, l' := Towards(w, Opposite(side)), Towards(Step(ends, w, e), Opposite(side));
      && l'.read == (if Taken(ends, w, e, side) then l.read + [e.packet] else l.read)
      && l'.framed == (if Sendable(ends, w, e, side) then l.framed + [|l.read|] else l.framed)
      && |l'.flight| + |l'.arrived| + Losses(w, e, side) ==
        |l.flight| + |l.arrived| + if Sendable(ends, w, e, side) then Sends(e.results) else 0
  {
    hide LinkRead, LinkArrive, Sends, TurnInv, FilterInv, DeliveryInv, Carries, Total, Increasing, TakenBy;
    var magic := if side.A? then ends.magicA else ends.magicB;
    match e
    case Read(_, packet, junk, results) =>
      if e.side == side {
        LinkReadIs(ConfigOf(ends, side), magic, At(w, side), Towards(w, Opposite(side)), packet, junk, results);
      }
    case Arrive(s, i) => if s != side { ArriveOne(ends, w, side, i); }
    case _ =>
  }

  lemma ArriveOne(ends: Ends, w: World, side: Side, i: nat)
    requires Inv(ends, w)
    ensures var l, l' := Towards(w, Opposite(side)), Towards(Step(ends, w, Arrive(Opposite(side), i)), Opposite(side));
      && l'.read == l.read && l'.framed == l.framed
      && |l'.flight| + |l'.arrived| == |l.flight| + |l.arrived|
  {
    hide SenderInv, TurnInv, FilterInv, DeliveryInv, Arriving, Receiving, Complete;
    if i < |Towards(w, Opposite(side)).flight| { FlightComplete(ends, w, side, i); }
  }

  lemma FlightComplete(ends: Ends, w: World, side: Side, i: nat)
    requires Inv(ends, w) && i < |Towards(w, Opposite(side)).flight|
    ensures Complete(Towards(w, Opposite(side)).flight[i].datagram.bytes)
  {
    hide Complete, Scramble;
    var l := Towards(w, Opposite(side));
    assert Carries(if side.A? then ends.magicA else ends.magicB, l, l.flight[i]);
  }

  // ---- whole runs ----

  /** The packets that the reader thread of a side got, in order. */
  ghost function Packets(ends: Ends, events: seq<Event>, side: Side): seq<Packet>
    decreases events
  {
    if events == [] then [] else
    var init, e := events[..|events| - 1], events[|events| - 1];
    Packets(ends, init, side) + if Taken(ends, Run(ends, init), e, side) then [e.packet] else []
  }

  /** The places among these of the packets that could be sent when they were read. */
  ghost function Places(ends: Ends, events: seq<Event>, side: Side): seq<nat>
    decreases events
  {
    if events == [] then [] else
    var init, e := events[..|events| - 1], events[|events| - 1];
    Places(ends, init, side) +
      if Sendable(ends, Run(ends, init), e, side) then [|Packets(ends, init, side)|] else []
  }

  /** How many sendto calls have sent a datagram. */
  ghost function SentCount(ends: Ends, events: seq<Event>, side: Side): nat
    decreases events
  {
    if events == [] then 0 else
    var init, e := events[..|events| - 1], events[|events| - 1];
    SentCount(ends, init, side) + if Sendable(ends, Run(ends, init), e, side) then Sends(e.results) else 0
  }

  ghost function LostCount(ends: Ends, events: seq<Event>, side: Side): nat
    decreases events
  {
    if events == [] then 0 else
    var init, e := events[..|events| - 1], events[|events| - 1];
    LostCount(ends, init, side) + Losses(Run(ends, init), e, side)
  }

  /** In any run, what a side has read is what its reader thread got, the packets with a serial are
      exactly those that fitted a frame and were read when the peer was known, and every datagram that
      sendto sent has arrived, is on its way or was lost. */
  lemma {:induction false} ReadOverRuns(ends: Ends, events: seq<Event>, side: Side)
    requires Ready(ends)
    ensures var l := Towards(Run(ends, events), Opposite(side));
      && l.read == Packets(ends, events, side) && l.framed == Places(ends, events, side)
      && SentCount(ends, events, side) == |l.arrived| + |l.flight| + LostCount(ends, events, side)
    decreases events
  {
    if events == [] {
      StartNothing(ends);
    } else {
      hide Inv, Run, Step, Taken, Sendable, Losses, Sends;
      var init, e := events[..|events| - 1], events[|events| - 1];
      ReadOverRuns(ends, init, side);
      RunKeeps(ends, init);
      RunStep(ends, events);
      StepReads(ends, Run(ends, init), e, side);
    }
  }

  /** In any run, exactly what was read has been counted. */
  lemma ReadCounted(ends: Ends, events: seq<Event>, side: Side)
    requires Ready(ends)
    ensures var l, s := Towards(Run(ends, events), Opposite(side)), At(Run(ends, events), side).statics;
      s.pktsSent == |l.read| && s.bytesSent == Total(l.read)
  {
    hide Run, TurnInv, FilterInv, DeliveryInv, Total, Carries;
    RunKeeps(ends, events);
  }

  /** In any run, a datagram on its way has the code of data, its serial and the length of its packet in
      front of the scrambled packet. */
  lemma OnTheWire(ends: Ends, events: seq<Event>, side: Side, i: nat)
    requires Ready(ends) && i < |Towards(Run(ends, events), Opposite(side)).flight|
    ensures var l := Towards(Run(ends, events), Opposite(side));
      var origin, f := l.flight[i].origin, l.flight[i].datagram.bytes;
      && origin < |l.framed| && l.framed[origin] < |l.read|
      && var packet := l.read[l.framed[origin]];
      && |f| >= 19 + |packet| && f[8] == 0 && FromBe(f[9..17]) == origin % 0x1_0000_0000_0000_0000
      && FromBe(f[17..19]) == |packet|
      && f[19..19 + |packet|] == Scramble(packet, if side.A? then ends.magicA else ends.magicB)
  {
    hide Run, Scramble, FromBe, TurnInv, FilterInv, DeliveryInv;
    RunKeeps(ends, events);
    var l := Towards(Run(ends, events), Opposite(side));
    assert Carries(if side.A? then ends.magicA else ends.magicB, l, l.flight[i]);
  }

  // ---- what is written ----

  /** A datagram arrives at the side. */
  ghost predicate Arrives(w: World, e: Event, side: Side) {
    e.Arrive? && e.side == side && e.index < |Towards(w, side).flight|
  }

  /** It is not redundant, and the tun device is open. */
  ghost predicate Writes(w: World, e: Event, side: Side) {
    && Arrives(w, e, side) && At(w, side).tun
    && Towards(w, side).flight[e.index].origin % TWO64 != At(w, side).carrier.serialPrev
  }

  lemma StepWrites(ends: Ends, w: World, e: Event, side: Side)
    requires Inv(ends, w)
    ensures var l, l' := Towards(w, side), Towards(Step(ends, w, e), side);
      && l'.arrived == (if Arrives(w, e, side) then l.arrived + [l.flight[e.index].origin] else l.arrived)
      && l'.delivered == (if Writes(w, e, side) then l.delivered + [l.flight[e.index].origin] else l.delivered)
  {
    hide Inv, Reading, Accepts, Attempts, Arriving, Receiving, Complete;
    if Arrives(w, e, side) { ArrivalWrites(ends, w, side, e.index); }
  }

  lemma ArrivalWrites(ends: Ends, w: World, side: Side, i: nat)
    requires Inv(ends, w) && i < |Towards(w, side).flight|
    ensures var c, r := Towards(w, side).flight[i], At(w, side);
      var magic := if side.A? then ends.magicA else ends.magicB;
      && Complete(c.datagram.bytes)
      && Arriving(magic, r, c.datagram.from, c.datagram.bytes).1.Some? ==
        (r.tun && c.origin % TWO64 != r.carrier.serialPrev)
  {
    hide Complete, Scramble, Arriving, Receiving, TurnInv, FilterInv, DeliveryInv;
    var l := Towards(w, side);
    var magicS, magicR := if side.A? then ends.magicB else ends.magicA, if side.A? then ends.magicA else ends.magicB;
    assert Carries(magicS, l, l.flight[i]);
    ArrivalIs(magicS, magicR, At(w, side), l, l.flight[i]);
  }

  /** The origins of the datagrams that arrived at a side, in order. */
  ghost function Arrivals(ends: Ends, events: seq<Event>, side: Side): seq<nat>
    decreases events
  {
    if events == [] then [] else
    var init, e := events[..|events| - 1], events[|events| - 1];
    var w := Run(ends, init);
    Arrivals(ends, init, side) + if Arrives(w, e, side) then [Towards(w, side).flight[e.index].origin] else []
  }

  /** Those of the ones that were not redundant when they arrived at an open device. */
  ghost function Deliveries(ends: Ends, events: seq<Event>, side: Side): seq<nat>
    decreases events
  {
    if events == [] then [] else
    var init, e := events[..|events| - 1], events[|events| - 1];
    var w := Run(ends, init);
    Deliveries(ends, init, side) + if Writes(w, e, side) then [Towards(w, side).flight[e.index].origin] else []
  }

  /** In any run, exactly the datagrams that were not redundant and arrived while the tun device was open
      have been written. */
  lemma {:induction false} WrittenOverRuns(ends: Ends, events: seq<Event>, side: Side)
    requires Ready(ends)
    ensures var l := Towards(Run(ends, events), side);
      l.arrived == Arrivals(ends, events, side) && l.delivered == Deliveries(ends, events, side)
    decreases events
  {
    if events == [] {
      StartNothing(ends);
    } else {
      hide Inv, Run, Step, Arrives, Writes;
      var init, e := events[..|events| - 1], events[|events| - 1];
      WrittenOverRuns(ends, init, side);
      RunKeeps(ends, init);
      RunStep(ends, events);
      StepWrites(ends, Run(ends, init), e, side);
    }
  }
}
