/** How the duplicates are spread over the sockets. */
module RoundRobin {
  import opened CString
  import opened SimpleUdp

  /** The sockets of the attempts that were not interrupted. */
  function Attempts(n: nat, id: nat, results: seq<SendResult>): seq<nat>
    requires id < n
    decreases results
  {
    if results == [] then []
    else if results[0].Interrupted? then Attempts(n, id, results[1..])
    else [id] + Attempts(n, (id + 1) % n, results[1..])
  }

  /** The attempts that were not interrupted, and whether they went out. */
  function Outcomes(results: seq<SendResult>): seq<bool> {
    if results == [] then []
    else if results[0].Interrupted? then Outcomes(results[1..])
    else [results[0].Sent?] + Outcomes(results[1..])
  }

  function Chosen(cfg: Config, ids: seq<nat>, sent: seq<bool>, to: Addr, frame: seq<byte>): seq<Datagram>
    requires |ids| == |sent| && forall i :: 0 <= i < |ids| ==> ids[i] < |cfg.sockets|
  {
    if ids == [] then [] else
    var rest := Chosen(cfg, ids[1..], sent[1..], to, frame);
    if sent[0] then [Datagram(cfg.sockets[ids[0]], to, frame)] + rest else rest
  }

  /** The socket after t attempts. */
  function Turn(n: nat, id: nat, t: nat): (r: nat)
    requires id < n
    ensures r < n
  {
    if t == 0 then id else (Turn(n, id, t - 1) + 1) % n
  }

  lemma {:induction false} TurnSplit(n: nat, id: nat, s: nat, t: nat)
    requires id < n
    ensures Turn(n, Turn(n, id, s), t) == Turn(n, id, s + t)
  {
    if t > 0 { TurnSplit(n, id, s, t - 1); }
  }

  lemma {:induction false} TurnIs(n: nat, id: nat, t: nat)
    requires id < n
    ensures Turn(n, id, t) == (id + t) % n
  {
    if t == 0 {
      DivUnique(id, 0, id, n);
    } else {
      TurnIs(n, id, t - 1);
      Next(id + t - 1, n);
      Next((id + t - 1) % n, n);
      DivUnique((id + t - 1) % n, 0, (id + t - 1) % n, n);
    }
  }

  /** The t-th of these attempts uses the socket t turns on. */
  lemma {:induction false} AttemptsAt(n: nat, id: nat, results: seq<SendResult>)
    requires id < n
    ensures |Attempts(n, id, results)| == |Outcomes(results)|
    ensures forall t :: 0 <= t < |Attempts(n, id, results)| ==> Attempts(n, id, results)[t] == Turn(n, id, t)
    ensures SocketAfter(n, id, results) == Turn(n, id, |Attempts(n, id, results)|)
    decreases results
  {
    if results != [] {
      if results[0].Interrupted? {
        AttemptsAt(n, id, results[1..]);
      } else {
        assert Turn(n, id, 1) == (Turn(n, id, 0) + 1) % n == (id + 1) % n;
        var next := (id + 1) % n;
        var rest := Attempts(n, next, results[1..]);
        AttemptsAt(n, next, results[1..]);
        hide Turn;
        forall t | 0 <= t <= |rest| ensures Turn(n, next, t) == Turn(n, id, 1 + t) { TurnSplit(n, id, 1, t); }
        assert Attempts(n, id, results) == [id] + rest;
        assert Turn(n, id, 0) == id by { TurnZero(n, id); }
      }
    }
  }

  lemma TurnZero(n: nat, id: nat)
    requires id < n
    ensures Turn(n, id, 0) == id
  {
  }

  /** The datagrams that leave are those of the attempts that went out. */
  lemma {:induction false} LeavingIsChosen(cfg: Config, id: nat, to: Addr, frame: seq<byte>, results: seq<SendResult>)
    requires id < |cfg.sockets|
    ensures |Attempts(|cfg.sockets|, id, results)| == |Outcomes(results)|
    ensures forall i :: 0 <= i < |Outcomes(results)| ==> Attempts(|cfg.sockets|, id, results)[i] < |cfg.sockets|
    ensures Leaving(cfg, id, to, frame, results) ==
      Chosen(cfg, Attempts(|cfg.sockets|, id, results), Outcomes(results), to, frame)
    decreases results
  {
    if results != [] {
      LeavingIsChosen(cfg, if results[0].Interrupted? then id else (id + 1) % |cfg.sockets|, to, frame, results[1..]);
    }
  }

  /** The attempts of a run of sends, socketId starting at id. */
  function AllAttempts(n: nat, id: nat, sends: seq<seq<SendResult>>): seq<nat>
    requires id < n
    decreases sends
  {
    if sends == [] then [] else Attempts(n, id, sends[0]) + AllAttempts(n, SocketAfter(n, id, sends[0]), sends[1..])
  }

  lemma {:induction false} AllAttemptsAt(n: nat, id: nat, sends: seq<seq<SendResult>>, t: nat)
    requires id < n && t < |AllAttempts(n, id, sends)|
    ensures AllAttempts(n, id, sends)[t] == Turn(n, id, t)
    decreases sends
  {
    hide Turn;
    var k := |Attempts(n, id, sends[0])|;
    AttemptsAt(n, id, sends[0]);
    if t >= k {
      AllAttemptsAt(n, SocketAfter(n, id, sends[0]), sends[1..], t - k);
      TurnSplit(n, id, k, t - k);
    }
  }

  function Count(s: seq<nat>, j: nat): nat {
    if s == [] then 0 else Count(s[..|s| - 1], j) + if s[|s| - 1] == j then 1 else 0
  }

  lemma {:induction false} CountCyclic(n: nat, s: seq<nat>, j: nat)
    requires j < n && forall t :: 0 <= t < |s| ==> s[t] == t % n
    ensures Count(s, j) == |s| / n + if j < |s| % n then 1 else 0
    decreases |s|
  {
    if s != [] {
      var m := |s| - 1;
      CountCyclic(n, s[..m], j);
      assert s[m] == m % n;
      Next(m, n);
    } else {
      Next(0, n);
    }
  }

  lemma Next(m: nat, n: nat)
    requires n > 0
    ensures m % n + 1 < n ==> (m + 1) / n == m / n && (m + 1) % n == m % n + 1
    ensures m % n + 1 == n ==> (m + 1) / n == m / n + 1 && (m + 1) % n == 0
    ensures 0 / n == 0 && 0 % n == 0
  {
    var q, r := m / n, m % n;
    if r + 1 < n {
      DivUnique(m + 1, q, r + 1, n);
    } else {
      DivUnique(m + 1, q + 1, 0, n);
    }
    DivUnique(0, 0, 0, n);
  }

  lemma Multiple(n: nat, u: int)
    requires n > 0
    ensures u > 0 ==> n * u >= n
    ensures u < 0 ==> n * u <= -(n as int)
  {
  }

  lemma DivUnique(x: nat, q: nat, r: nat, n: nat)
    requires n > 0 && x == n * q + r && r < n
    ensures x / n == q && x % n == r
  {
    var u := x / n - q;
    assert n * u == r - x % n;
    Multiple(n, u);
  }

  /** After any run of sends the t-th attempt that was not interrupted used socket t mod n, and no
      socket has been used more than once more than another. */
  lemma Balanced(n: nat, sends: seq<seq<SendResult>>, i: nat, j: nat)
    requires i < n && j < n
    ensures forall t :: 0 <= t < |AllAttempts(n, 0, sends)| ==> AllAttempts(n, 0, sends)[t] == t % n
    ensures Count(AllAttempts(n, 0, sends), i) <= Count(AllAttempts(n, 0, sends), j) + 1
  {
    hide Turn;
    var s := AllAttempts(n, 0, sends);
    forall t | 0 <= t < |s| ensures s[t] == t % n {
      AllAttemptsAt(n, 0, sends, t);
      TurnIs(n, 0, t);
    }
    CountCyclic(n, s, i);
    CountCyclic(n, s, j);
  }
}
