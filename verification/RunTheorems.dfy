/** What the tunnel promises over whole runs. */
module RunTheorems {
  import opened CString
  import opened Cryp
  import opened WireFrame
  import opened SimpleUdp
  import opened RoundRobin
  import opened Tunnel
  import opened Filter
  import opened Runs

  predicate Ready(ends: Ends) {
    ends.cfgA.sockets != [] && ends.cfgB.sockets != []
  }

  /** The direction towards a side. */
  function Towards(w: World, side: Side): Link {
    if side.A? then w.toA else w.toB
  }

  function At(w: World, side: Side): Endpoint {
    if side.A? then w.a else w.b
  }

  // ---- subsequences ----

  /** ys consists of the elements of xs at idx, in that order and none twice. */
  predicate Picks(idx: seq<nat>, ys: seq<Packet>, xs: seq<Packet>) {
    && |idx| == |ys| && Increasing(idx)
    && (forall k :: 0 <= k < |idx| ==> idx[k] < |xs| && ys[k] == xs[idx[k]])
  }

  ghost predicate Subsequence(ys: seq<Packet>, xs: seq<Packet>) {
    exists idx :: Picks(idx, ys, xs)
  }

  lemma {:induction false} PicksFewer(idx: seq<nat>, ys: seq<Packet>, xs: seq<Packet>)
    requires Picks(idx, ys, xs)
    ensures |ys| <= |xs| && Total(ys) <= Total(xs)
    decreases |xs|
  {
    if xs != [] {
      var n := |xs| - 1;
      if ys != [] && idx[|idx| - 1] == n {
        PicksFewer(idx[..|idx| - 1], ys[..|ys| - 1], xs[..n]);
      } else {
        PicksFewer(idx, ys, xs[..n]);
      }
    }
  }

  // ---- in-order networks ----

  /** Datagrams of one direction arrive in the order they were sent in, unless they are lost. */
  predicate InOrder(events: seq<Event>) {
    forall k :: 0 <= k < |events| ==> (events[k].Arrive? ==> events[k].index == 0)
  }

  function Origins(flight: seq<Copy>): (r: seq<nat>)
    ensures |r| == |flight| && forall i :: 0 <= i < |r| ==> r[i] == flight[i].origin
  {
    seq(|flight|, i requires 0 <= i < |flight| => flight[i].origin)
  }

  /** Origins only grow, along what has arrived and what is still on its way. */
  ghost predicate OrderInv(l: Link) {
    && NonDecreasing(l.arrived + Origins(l.flight))
    && Increasing(l.passed)
    && (l.passed != [] ==> l.arrived != [] && l.passed[|l.passed| - 1] <= l.arrived[|l.arrived| - 1])
    && Increasing(l.delivered)
    && (l.delivered != [] ==> l.passed != [] && l.delivered[|l.delivered| - 1] <= l.passed[|l.passed| - 1])
  }

  lemma IncreasingSnoc(s: seq<nat>, x: nat)
    requires Increasing(s) && (s != [] ==> s[|s| - 1] < x)
    ensures Increasing(s + [x])
  {
  }

  lemma ReadKeepsOrder(cfg: Config, magic: Word, s: Endpoint, l: Link, packet: Packet, junk: seq<byte>,
                       results: seq<SendResult>, cfgR: Config, r: Endpoint)
    requires SenderInv(cfg, magic, s, l) && FilterInv(cfgR, r, l) && OrderInv(l)
    ensures OrderInv(LinkRead(cfg, magic, s, l, packet, junk, results).1)
  {
    hide Scramble, Reading, Serials, Passed, Latest, Total, Attempts, Accepts, Increasing, NonDecreasing, Carries;
    var l' := LinkRead(cfg, magic, s, l, packet, junk, results).1;
    var all, more := l.arrived + Origins(l.flight), Origins(l'.flight)[|l.flight|..];
    forall k | 0 <= k < |l.flight| ensures l.flight[k].origin < |l.framed| {
      assert Carries(magic, l, l.flight[k]);
      CarriesOrigin(magic, l, l.flight[k]);
    }
    MoreOrigins(all, more, |l.framed|);
    assert Origins(l'.flight) == Origins(l.flight) + more;
    assert l'.arrived + Origins(l'.flight) == all + more;
  }

  lemma CarriesOrigin(magic: Word, l: Link, c: Copy)
    requires Carries(magic, l, c)
    ensures c.origin < |l.framed|
  {
  }

  lemma MoreOrigins(all: seq<nat>, more: seq<nat>, n: nat)
    requires NonDecreasing(all) && (forall k :: 0 <= k < |all| ==> all[k] <= n)
    requires forall k :: 0 <= k < |more| ==> more[k] == n
    ensures NonDecreasing(all + more)
  {
  }

  lemma ArriveKeepsOrder(cfg: Config, magicS: Word, s: Endpoint, magic: Word, cfgR: Config, r: Endpoint, l: Link)
    requires SenderInv(cfg, magicS, s, l) && FilterInv(cfgR, r, l) && OrderInv(l)
    ensures OrderInv(LinkArrive(magic, r, l, 0).1)
  {
    hide Scramble, Arriving, Receiving, Complete, Carries, Serials, Passed, Latest, Total, Increasing, NonDecreasing;
    hide OrderInv;
    if |l.flight| > 0 {
      var c := l.flight[0];
      assert Carries(magicS, l, c);
      ArrivalIs(magicS, magic, r, l, c);
      if l.arrived != [] { LatestSerial(l.arrived); }
      var passes := c.origin % TWO64 != r.carrier.serialPrev;
      OrderGrows(l, LinkArrive(magic, r, l, 0).1, passes, passes && r.tun);
    }
  }

  /** The oldest datagram on its way arrives; it passes only if its packet is not that of the one before it. */
  lemma OrderGrows(l: Link, l': Link, passes: bool, writes: bool)
    requires OrderInv(l) && l.flight != [] && (writes ==> passes)
    requires var o, n := l.flight[0].origin, |l.arrived|;
      && l'.flight == l.flight[1..] && l'.arrived == l.arrived + [o]
      && (passes && n > 0 ==> l.arrived[n - 1] != o)
      && l'.passed == (if passes then l.passed + [o] else l.passed)
      && l'.delivered == if writes then l.delivered + [o] else l.delivered
    ensures OrderInv(l')
  {
    hide Increasing, NonDecreasing;
    var all, o := l.arrived + Origins(l.flight), l.flight[0].origin;
    assert l'.arrived + Origins(l'.flight) == all;
    if l.arrived != [] { Adjacent(all, |l.arrived| - 1); }
    if passes { IncreasingSnoc(l.passed, o); }
    if writes { IncreasingSnoc(l.delivered, o); }
  }

  lemma Adjacent(s: seq<nat>, i: nat)
    requires NonDecreasing(s) && i + 1 < |s|
    ensures s[i] <= s[i + 1]
  {
  }

  lemma LatestSerial(origins: seq<nat>)
    requires origins != []
    ensures Latest(0, Serials(origins)) == origins[|origins| - 1] % TWO64
  {
  }

  lemma LoseKeepsOrder(l: Link, i: nat)
    requires OrderInv(l)
    ensures OrderInv(LinkLose(l, i))
  {
    hide Increasing;
    if i < |l.flight| {
      var l' := LinkLose(l, i);
      var all, fewer, n := l.arrived + Origins(l.flight), l'.arrived + Origins(l'.flight), |l.arrived|;
      assert forall k :: 0 <= k < |fewer| ==> fewer[k] == all[if k < n + i then k else k + 1];
    }
  }

  ghost predicate Ordered(w: World) {
    OrderInv(w.toA) && OrderInv(w.toB)
  }

  lemma StepKeepsOrder(ends: Ends, w: World, e: Event)
    requires Inv(ends, w) && Ordered(w) && (e.Arrive? ==> e.index == 0)
    ensures Ordered(Step(ends, w, e))
  {
    hide SenderInv, TurnInv, FilterInv, DeliveryInv, LinkRead, LinkArrive, OrderInv;
    match e
    case Read(A, packet, junk, results) =>
      ReadKeepsOrder(ends.cfgA, ends.magicA, w.a, w.toB, packet, junk, results, ends.cfgB, w.b);
    case Read(B, packet, junk, results) =>
      ReadKeepsOrder(ends.cfgB, ends.magicB, w.b, w.toA, packet, junk, results, ends.cfgA, w.a);
    case Arrive(B, i) => ArriveKeepsOrder(ends.cfgA, ends.magicA, w.a, ends.magicB, ends.cfgB, w.b, w.toB);
    case Arrive(A, i) => ArriveKeepsOrder(ends.cfgB, ends.magicB, w.b, ends.magicA, ends.cfgA, w.a, w.toA);
    case Lose(A, i) => LoseKeepsOrder(w.toA, i);
    case Lose(B, i) => LoseKeepsOrder(w.toB, i);
    case _ =>
  }

  lemma {:induction false} RunKeepsOrder(ends: Ends, events: seq<Event>)
    requires Ready(ends) && InOrder(events)
    ensures Ordered(Run(ends, events))
    decreases events
  {
    if events != [] {
      var init := events[..|events| - 1];
      hide Inv, Ordered, Step;
      RunKeeps(ends, init);
      RunKeepsOrder(ends, init);
      StepKeepsOrder(ends, Run(ends, init), events[|events| - 1]);
    } else {
      StartOrdered(ends);
    }
  }

  lemma StartOrdered(ends: Ends)
    ensures Ordered(Start(ends))
  {
  }

  // ---- fidelity ----

  lemma LinkFidelity(cfg: Config, magic: Word, s: Endpoint, r: Endpoint, l: Link)
    requires SenderInv(cfg, magic, s, l) && DeliveryInv(r, l) && OrderInv(l)
    ensures Subsequence(l.written, l.read)
    ensures r.statics.pktsRecv <= s.statics.pktsSent && r.statics.bytesRecv <= s.statics.bytesSent
  {
    hide Carries, Total, NonDecreasing;
    forall k | 0 <= k < |l.delivered|
      ensures l.delivered[k] < |l.framed| && l.framed[l.delivered[k]] < |l.read|
      ensures l.written[k] == l.read[l.framed[l.delivered[k]]]
    {
      assert DeliveredAt(l, k);
    }
    var idx: seq<nat> := seq(|l.delivered|, k requires 0 <= k < |l.delivered| => l.framed[l.delivered[k]]);
    assert Picks(idx, l.written, l.read);
    PicksFewer(idx, l.written, l.read);
  }

  /** On a lossy in-order network with equal magic, what is written at either end is a subsequence of
      what was read at the other: nothing invented, nothing repeated, order kept. So no end has ever
      counted more as received than the other has counted as sent. */
  lemma Fidelity(ends: Ends, events: seq<Event>)
    requires Ready(ends) && ends.magicA == ends.magicB && InOrder(events)
    ensures var w := Run(ends, events);
      && Subsequence(w.toB.written, w.toB.read) && Subsequence(w.toA.written, w.toA.read)
      && w.b.statics.pktsRecv <= w.a.statics.pktsSent && w.b.statics.bytesRecv <= w.a.statics.bytesSent
      && w.a.statics.pktsRecv <= w.b.statics.pktsSent && w.a.statics.bytesRecv <= w.b.statics.bytesSent
  {
    hide SenderInv, DeliveryInv, OrderInv, FilterInv, TurnInv, Subsequence, Run;
    RunKeeps(ends, events);
    RunKeepsOrder(ends, events);
    var w := Run(ends, events);
    LinkFidelity(ends.cfgA, ends.magicA, w.a, w.b, w.toB);
    LinkFidelity(ends.cfgB, ends.magicB, w.b, w.a, w.toA);
  }

  /** Without order: what is written was read, at the place its origin says. */
  lemma NothingInvented(ends: Ends, events: seq<Event>, side: Side, i: nat)
    requires Ready(ends) && ends.magicA == ends.magicB && i < |Towards(Run(ends, events), side).written|
    ensures Towards(Run(ends, events), side).written[i] in Towards(Run(ends, events), side).read
  {
    hide SenderInv, TurnInv, FilterInv, Run;
    RunKeeps(ends, events);
    assert DeliveredAt(Towards(Run(ends, events), side), i);
  }

  // ---- the filter ----

  /** In any run, reordering included, the serials that pass are the arrivals behind a virtual 0 with
      adjacent equal ones collapsed, and that 0 removed. */
  lemma FilterOverRuns(ends: Ends, events: seq<Event>, side: Side)
    requires Ready(ends)
    ensures var l := Towards(Run(ends, events), side);
      && Collapse([0] + Serials(l.arrived)) == [0] + Serials(l.passed)
      && (forall i :: 0 < i < |l.passed| ==> Serials(l.passed)[i] != Serials(l.passed)[i - 1])
      && (NonDecreasing(Serials(l.arrived)) ==> Increasing(Serials(l.passed)))
  {
    hide SenderInv, DeliveryInv, TurnInv, Run, Collapse, Passed, Increasing, NonDecreasing;
    RunKeeps(ends, events);
    var l := Towards(Run(ends, events), side);
    PassedCollapses(0, Serials(l.arrived));
    forall i | 0 < i < |l.passed| ensures Serials(l.passed)[i] != Serials(l.passed)[i - 1] {
      PassedAdjacent(0, Serials(l.arrived), i);
    }
    if NonDecreasing(Serials(l.arrived)) { PassedIncreasing(0, Serials(l.arrived)); }
  }

  // ---- loss ----

  /** The tun device of a side is open whenever a datagram arrives there. */
  ghost predicate OpenOnArrival(ends: Ends, events: seq<Event>, side: Side) {
    forall k :: 0 <= k < |events| && events[k].Arrive? && events[k].side == side ==>
      At(Run(ends, events[..k]), side).tun
  }

  lemma {:induction false} AllDelivered(ends: Ends, events: seq<Event>, side: Side)
    requires Ready(ends) && OpenOnArrival(ends, events, side)
    ensures Towards(Run(ends, events), side).delivered == Towards(Run(ends, events), side).passed
    decreases events
  {
    if events != [] {
      hide Inv, Run, Step, Towards, At;
      var n := |events| - 1;
      var init := events[..n];
      assert forall k :: 0 <= k < n ==> init[..k] == events[..k];
      AllDelivered(ends, init, side);
      RunKeeps(ends, init);
      RunStep(ends, events);
      StepDelivers(ends, Run(ends, init), side, events[n]);
    } else {
      StartNothing(ends);
    }
  }

  lemma StepDelivers(ends: Ends, w: World, side: Side, e: Event)
    requires Inv(ends, w) && Towards(w, side).delivered == Towards(w, side).passed
    requires e.Arrive? && e.side == side ==> At(w, side).tun
    ensures Towards(Step(ends, w, e), side).delivered == Towards(Step(ends, w, e), side).passed
  {
    hide SenderInv, TurnInv, FilterInv, DeliveryInv, Arriving, Receiving, Complete, Reading;
    if e.Arrive? && e.side == side && e.index < |Towards(w, side).flight| {
      FlightArrives(ends, w, side, e.index);
    }
  }

  lemma StartNothing(ends: Ends)
    ensures Run(ends, []) == Start(ends)
  {
  }

  lemma RunStep(ends: Ends, events: seq<Event>)
    requires events != []
    ensures Run(ends, events) == Step(ends, Run(ends, events[..|events| - 1]), events[|events| - 1])
  {
  }

  lemma FlightArrives(ends: Ends, w: World, side: Side, i: nat)
    requires Inv(ends, w) && At(w, side).tun && i < |Towards(w, side).flight|
    ensures var c, r := Towards(w, side).flight[i].datagram, At(w, side);
      var magic := if side.A? then ends.magicA else ends.magicB;
      Complete(c.bytes) && Arriving(magic, r, c.from, c.bytes).1.Some? == Receiving(r.carrier, c.from, c.bytes).1.Some?
  {
    hide Complete, Receiving, Scramble;
    var l := Towards(w, side);
    var magicS, magicR := if side.A? then ends.magicB else ends.magicA, if side.A? then ends.magicA else ends.magicB;
    assert Carries(magicS, l, l.flight[i]);
    ArrivalIs(magicS, magicR, At(w, side), l, l.flight[i]);
  }

  /** On an in-order network without wrap-around, the packets that pass the filter of a side are those
      of which a copy has arrived there, except the one with serial 0: each once, in serial order. If
      the tun device is open whenever something arrives, exactly these have been written. */
  lemma ArrivedOnce(ends: Ends, events: seq<Event>, side: Side)
    requires Ready(ends) && InOrder(events) && |Towards(Run(ends, events), side).framed| <= TWO64
    ensures var l := Towards(Run(ends, events), side);
      && Increasing(l.passed) && (forall k :: k in l.passed <==> k in l.arrived && k != 0)
      && (OpenOnArrival(ends, events, side) ==> l.delivered == l.passed)
  {
    hide Run, SenderInv, TurnInv, FilterInv, DeliveryInv, OrderInv, OpenOnArrival, Increasing;
    RunKeeps(ends, events);
    RunKeepsOrder(ends, events);
    LinkArrivedOnce(if side.A? then ends.cfgA else ends.cfgB, At(Run(ends, events), side),
      Towards(Run(ends, events), side));
    if OpenOnArrival(ends, events, side) { AllDelivered(ends, events, side); }
  }

  lemma LinkArrivedOnce(cfg: Config, r: Endpoint, l: Link)
    requires FilterInv(cfg, r, l) && OrderInv(l) && |l.framed| <= TWO64
    ensures Increasing(l.passed) && forall k :: k in l.passed <==> k in l.arrived && k != 0
  {
    hide OrderInv, Passed, Latest, Increasing, NonDecreasing;
    NoWrap(l.arrived);
    Ascending(l);
    PassedNoWrap(l);
    PassedIncreasing(0, l.arrived);
  }

  /** If a copy of every packet that was given a serial has arrived, every packet but the one with
      serial 0 has been written exactly once, in serial order. */
  lemma LossTolerance(ends: Ends, events: seq<Event>, side: Side)
    requires Ready(ends) && ends.magicA == ends.magicB && InOrder(events) && OpenOnArrival(ends, events, side)
    requires 0 < |Towards(Run(ends, events), side).framed| <= TWO64
    requires var l := Towards(Run(ends, events), side); forall k :: 0 <= k < |l.framed| ==> k in l.arrived
    ensures var l := Towards(Run(ends, events), side);
      && l.delivered == Range(1, |l.framed|) && |l.written| == |l.framed| - 1
      && forall k :: 1 <= k < |l.framed| ==> l.framed[k] < |l.read| && l.written[k - 1] == l.read[l.framed[k]]
  {
    hide Run, SenderInv, TurnInv, FilterInv, OrderInv, OpenOnArrival, Increasing;
    RunKeeps(ends, events);
    ArrivedOnce(ends, events, side);
    LinkComplete(if side.A? then ends.cfgA else ends.cfgB, At(Run(ends, events), side),
      Towards(Run(ends, events), side));
  }

  lemma LinkComplete(cfg: Config, r: Endpoint, l: Link)
    requires FilterInv(cfg, r, l) && DeliveryInv(r, l) && l.delivered == l.passed && 0 < |l.framed|
    requires Increasing(l.passed) && (forall k :: k in l.passed <==> k in l.arrived && k != 0)
    requires forall k :: 0 <= k < |l.framed| ==> k in l.arrived
    ensures l.delivered == Range(1, |l.framed|) && |l.written| == |l.framed| - 1
    ensures forall k :: 1 <= k < |l.framed| ==> l.framed[k] < |l.read| && l.written[k - 1] == l.read[l.framed[k]]
  {
    hide Passed, Latest, Total, Increasing, Serials;
    var n := |l.framed|;
    IncreasingRange(l.passed, 1, n);
    forall k | 1 <= k < n ensures l.framed[k] < |l.read| && l.written[k - 1] == l.read[l.framed[k]] {
      assert DeliveredAt(l, k - 1);
    }
  }

  lemma NoWrap(origins: seq<nat>)
    requires forall i :: 0 <= i < |origins| ==> origins[i] < TWO64
    ensures Serials(origins) == origins
  {
  }

  lemma Ascending(l: Link)
    requires OrderInv(l)
    ensures NonDecreasing(l.arrived)
  {
    var all := l.arrived + Origins(l.flight);
    assert forall i :: 0 <= i < |l.arrived| ==> l.arrived[i] == all[i];
  }

  lemma PassedNoWrap(l: Link)
    requires OrderInv(l) && forall i :: 0 <= i < |l.arrived| ==> l.arrived[i] < TWO64
    ensures Serials(l.passed) == l.passed
  {
    hide NonDecreasing;
    forall i | 0 <= i < |l.passed| ensures l.passed[i] < TWO64 {
      assert l.passed[i] <= l.passed[|l.passed| - 1];
    }
    NoWrap(l.passed);
  }

  // ---- the peer ----

  /** In any run the known peer is the source of the latest datagram that arrived, redundant ones
      included, and before that the configured address. */
  lemma PeerIs(ends: Ends, events: seq<Event>)
    requires Ready(ends)
    ensures var w := Run(ends, events);
      && w.b.carrier.peer == (if w.toB.source.Some? then w.toB.source else ends.cfgB.remote)
      && w.a.carrier.peer == (if w.toA.source.Some? then w.toA.source else ends.cfgA.remote)
  {
    RunKeeps(ends, events);
  }

  /** A known peer never becomes unknown, however a run goes on. */
  lemma {:induction false} PeerStays(ends: Ends, events: seq<Event>, more: seq<Event>)
    ensures var w, w' := Run(ends, events), Run(ends, events + more);
      && (w.a.carrier.peer.Some? ==> w'.a.carrier.peer.Some?)
      && (w.b.carrier.peer.Some? ==> w'.b.carrier.peer.Some?)
    decreases more
  {
    hide Run, Step;
    if more == [] {
      assert events + more == events;
    } else {
      var n, all := |more| - 1, events + more;
      PeerStays(ends, events, more[..n]);
      assert all[..|all| - 1] == events + more[..n];
      RunStep(ends, all);
      StepKeepsPeers(ends, Run(ends, events + more[..n]), all[|all| - 1]);
    }
  }

  lemma StepKeepsPeers(ends: Ends, w: World, e: Event)
    ensures var w' := Step(ends, w, e);
      && (w.a.carrier.peer.Some? ==> w'.a.carrier.peer.Some?)
      && (w.b.carrier.peer.Some? ==> w'.b.carrier.peer.Some?)
  {
    hide Complete, Scramble, Leaving, Frame, Attempts, Valid;
  }

  /** One read while the peer is unknown. */
  lemma UnknownPeerDrops(cfg: Config, magic: Word, s: Endpoint, l: Link, packet: Packet, junk: seq<byte>,
                         results: seq<SendResult>)
    requires s.carrier.peer.None?
    ensures var (s', l') := LinkRead(cfg, magic, s, l, packet, junk, results);
      s'.carrier == s.carrier && l'.flight == l.flight && l'.framed == l.framed && l'.attempts == l.attempts
  {
    hide Scramble;
  }

  function Opposite(side: Side): Side {
    if side.A? then B else A
  }

  function ConfigOf(ends: Ends, side: Side): Config {
    if side.A? then ends.cfgA else ends.cfgB
  }

  /** A passive end that nothing has reached is as it started, and has sent nothing. */
  predicate Waiting(ends: Ends, w: World, side: Side) {
    var out := Towards(w, Opposite(side));
    && At(w, side).carrier == Initial(ConfigOf(ends, side))
    && out.framed == [] && out.flight == [] && out.attempts == [] && out.arrived == []
  }

  /** In any run, a passive end that no datagram has reached has used no serial and no socket and sent
      no datagram, whatever it has read; packets read before discovery are dropped. */
  lemma {:induction false} PassiveWaits(ends: Ends, events: seq<Event>, side: Side)
    requires ConfigOf(ends, side).remote.None? && Towards(Run(ends, events), side).arrived == []
    ensures Waiting(ends, Run(ends, events), side)
    decreases events
  {
    hide Run, Step, Waiting;
    if events == [] {
      StartNothing(ends);
      StartWaits(ends, side);
    } else {
      var init, e := events[..|events| - 1], events[|events| - 1];
      RunStep(ends, events);
      ArrivedStays(ends, Run(ends, init), e, side);
      PassiveWaits(ends, init, side);
      StepWaits(ends, Run(ends, init), e, side);
    }
  }

  lemma StartWaits(ends: Ends, side: Side)
    ensures Waiting(ends, Start(ends), side)
  {
  }

  lemma ArrivedStays(ends: Ends, w: World, e: Event, side: Side)
    ensures Towards(Step(ends, w, e), side).arrived == [] ==> Towards(w, side).arrived == []
  {
    hide Complete, Scramble, Leaving, Frame, Attempts, Valid, Arriving, Receiving, Reading;
  }

  lemma StepWaits(ends: Ends, w: World, e: Event, side: Side)
    requires Waiting(ends, w, side) && ConfigOf(ends, side).remote.None?
    requires Towards(Step(ends, w, e), side).arrived == []
    ensures Waiting(ends, Step(ends, w, e), side)
  {
    hide Scramble, Leaving, Frame, Attempts, Receiving, Complete;
    match e
    case Read(A, packet, junk, results) =>
      if side.A? { UnknownPeerDrops(ends.cfgA, ends.magicA, w.a, w.toB, packet, junk, results); }
    case Read(B, packet, junk, results) =>
      if side.B? { UnknownPeerDrops(ends.cfgB, ends.magicB, w.b, w.toA, packet, junk, results); }
    case _ =>
  }

  /** If both ends are passive, no datagram ever exists. */
  lemma {:induction false} PassiveSilence(ends: Ends, events: seq<Event>)
    requires ends.cfgA.remote.None? && ends.cfgB.remote.None?
    ensures var w := Run(ends, events);
      && w.toA.flight == [] && w.toB.flight == [] && w.toA.arrived == [] && w.toB.arrived == []
      && w.a.carrier == Initial(ends.cfgA) && w.b.carrier == Initial(ends.cfgB)
    decreases events
  {
    if events != [] {
      var init, e := events[..|events| - 1], events[|events| - 1];
      PassiveSilence(ends, init);
      RunStep(ends, events);
      hide Run, Scramble;
      var w := Run(ends, init);
      match e
      case Read(A, packet, junk, results) =>
        UnknownPeerDrops(ends.cfgA, ends.magicA, w.a, w.toB, packet, junk, results);
      case Read(B, packet, junk, results) =>
        UnknownPeerDrops(ends.cfgB, ends.magicB, w.b, w.toA, packet, junk, results);
      case _ =>
    }
  }

  // ---- the sockets ----

  /** In any run the t-th sendto of an end that was not interrupted used socket t mod n, so that no
      socket was used more than once more than another. */
  lemma BalancedOverRuns(ends: Ends, events: seq<Event>, side: Side, i: nat, j: nat)
    requires Ready(ends) && i < Sockets(ends, side) && j < Sockets(ends, side)
    ensures var l := Towards(Run(ends, events), side);
      && (forall t :: 0 <= t < |l.attempts| ==> l.attempts[t] == t % Sockets(ends, side))
      && Count(l.attempts, i) <= Count(l.attempts, j) + 1
  {
    hide Run, Turn, SenderInv, FilterInv, DeliveryInv;
    RunKeeps(ends, events);
    var l, n := Towards(Run(ends, events), side), Sockets(ends, side);
    forall t | 0 <= t < |l.attempts| ensures l.attempts[t] == t % n { TurnIs(n, 0, t); }
    CountCyclic(n, l.attempts, i);
    CountCyclic(n, l.attempts, j);
  }

  /** How many sockets the end has that sends towards a side. */
  function Sockets(ends: Ends, side: Side): nat {
    if side.A? then |ends.cfgB.sockets| else |ends.cfgA.sockets|
  }
}
