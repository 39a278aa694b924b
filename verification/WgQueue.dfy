/** Messages waiting for a WireGuard session (`send_app` and `flush_pending_wg` in `src/shard.rs`).
    What the tunnel does with each packet is an arbitrary sequence of outcomes. */
module WgQueue {
  import opened Xor
  import opened Peers

  const PMTU_FLOOR: nat := 1200

  type Msg = seq<Byte>

  /** Result of one encapsulation: nothing to send, a handshake initiation, or the sealed packet. */
  datatype Outcome = Nothing | Initiation | Sealed

  /** The n-th encapsulation's outcome. */
  type Tunnel = nat -> Outcome

  /** What goes to the socket: a message in the clear, a sealed one, or a packet that carries none. */
  datatype Sent =
    | Clear(dest: SocketAddr, msg: Msg)
    | Encrypted(dest: SocketAddr, msg: Msg)
    | Control(dest: SocketAddr)
  {
    predicate Carries(to: SocketAddr)
    {
      !Control? && dest == to
    }
  }

  /** `calls` counts encapsulations; `accepted` lists, per destination, the messages taken on, and
      `open` those of them for which no tunnel was asked. */
  datatype Queues = Queues(
    pending: map<SocketAddr, seq<Msg>>,
    keys: set<SocketAddr>,
    wire: seq<Sent>,
    calls: nat,
    accepted: map<SocketAddr, seq<Msg>>,
    open: map<SocketAddr, seq<Msg>>)

  function Waiting(s: Queues, dest: SocketAddr): seq<Msg>
  {
    if dest in s.pending then s.pending[dest] else []
  }

  function TakenOn(s: Queues, dest: SocketAddr): seq<Msg>
  {
    if dest in s.accepted then s.accepted[dest] else []
  }

  function TakenOpen(s: Queues, dest: SocketAddr): seq<Msg>
  {
    if dest in s.open then s.open[dest] else []
  }

  /** Messages handed to the socket for `dest`, in order. */
  function Handed(wire: seq<Sent>, dest: SocketAddr): seq<Msg>
  {
    if wire == [] then []
    else
      var n := |wire| - 1;
      if wire[n].Carries(dest) then Handed(wire[..n], dest) + [wire[n].msg] else Handed(wire[..n], dest)
  }

  /** Those of them that went in the clear. */
  function HandedClear(wire: seq<Sent>, dest: SocketAddr): seq<Msg>
  {
    if wire == [] then []
    else
      var n := |wire| - 1;
      if wire[n].Clear? && wire[n].dest == dest then HandedClear(wire[..n], dest) + [wire[n].msg] else HandedClear(wire[..n], dest)
  }

  // ---------------------------------------------------------------- operations as functions

  /** Whether a message goes through the tunnel rather than in the clear. */
  predicate Encrypts(s: Queues, dest: SocketAddr, hasKey: bool, plaintext: bool)
  {
    !plaintext && (hasKey || dest in s.keys)
  }

  /** Whether the message itself goes out at once, in the clear or sealed. */
  predicate GoesOut(s: Queues, dest: SocketAddr, hasKey: bool, plaintext: bool, tunnel: Tunnel)
  {
    !Encrypts(s, dest, hasKey, plaintext) || tunnel(s.calls).Sealed?
  }

  /** The packet sent for a message that has to wait: the initiation, or whatever an empty
      encapsulation yields. */
  function Knock(s: Queues, dest: SocketAddr, tunnel: Tunnel): seq<Sent>
  {
    if tunnel(s.calls).Initiation? || !tunnel(s.calls + 1).Nothing? then [Control(dest)] else []
  }

  /** `send_app`, for a destination that is not reached over a relay. */
  function SendApp(s: Queues, dest: SocketAddr, hasKey: bool, msg: Msg, plaintext: bool, tunnel: Tunnel): Queues
  {
    if |msg| > PMTU_FLOOR then s
    else
      var accepted := s.accepted[dest := TakenOn(s, dest) + [msg]];
      if !Encrypts(s, dest, hasKey, plaintext) then
        Queues(s.pending, s.keys, s.wire + [Clear(dest, msg)], s.calls, accepted, s.open[dest := TakenOpen(s, dest) + [msg]])
      else if tunnel(s.calls).Sealed? then
        Queues(s.pending, s.keys, s.wire + [Encrypted(dest, msg)], s.calls + 1, accepted, s.open)
      else
        Queues(s.pending[dest := Waiting(s, dest) + [msg]], s.keys, s.wire + Knock(s, dest, tunnel),
               if tunnel(s.calls).Initiation? then s.calls + 1 else s.calls + 2, accepted, s.open)
  }

  /** How many waiting messages are sealed before the first one that is not. */
  function SealedRun(n: nat, from: nat, tunnel: Tunnel): (k: nat)
    ensures k <= n
    decreases n
  {
    if n == 0 || !tunnel(from).Sealed? then 0 else 1 + SealedRun(n - 1, from + 1, tunnel)
  }

  function AsSent(dest: SocketAddr, msg: Msg, clear: bool): Sent
  {
    if clear then Clear(dest, msg) else Encrypted(dest, msg)
  }

  function Messages(dest: SocketAddr, q: seq<Msg>, clear: bool): (r: seq<Sent>)
    ensures |r| == |q| && forall i :: 0 <= i < |q| ==> r[i] == AsSent(dest, q[i], clear)
  {
    seq(|q|, i requires 0 <= i < |q| => AsSent(dest, q[i], clear))
  }

  /** `flush_pending_wg`: a prefix of the queue goes out, the rest keeps waiting. */
  function Flush(s: Queues, dest: SocketAddr, tunnel: Tunnel): Queues
  {
    if dest !in s.pending then s
    else
      var q := s.pending[dest];
      var rest := s.pending - {dest};
      if dest !in s.keys then s.(pending := rest, wire := s.wire + Messages(dest, q, true))
      else
        var k := SealedRun(|q|, s.calls, tunnel);
        var sent := s.wire + Messages(dest, q[..k], false);
        if k == |q| then s.(pending := rest, wire := sent, calls := s.calls + k)
        else s.(pending := rest[dest := q[k..]],
                wire := if tunnel(s.calls + k).Initiation? then sent + [Control(dest)] else sent,
                calls := s.calls + k + 1)
  }

  // ---------------------------------------------------------------- the object

  class SessionQueue {
    var pending: map<SocketAddr, seq<Msg>>
    var keys: set<SocketAddr>
    var wire: seq<Sent>
    var calls: nat
    ghost var accepted: map<SocketAddr, seq<Msg>>
    ghost var open: map<SocketAddr, seq<Msg>>

    ghost function State(): Queues
      reads this
    {
      Queues(pending, keys, wire, calls, accepted, open)
    }

    constructor ()
      ensures State() == Queues(map[], {}, [], 0, map[], map[])
    {
      pending, keys, wire, calls, accepted, open := map[], {}, [], 0, map[], map[];
    }

    method Encapsulate(tunnel: Tunnel) returns (r: Outcome)
      modifies this
      ensures r == tunnel(old(calls)) && State() == old(State()).(calls := old(calls) + 1)
    {
      r := tunnel(calls);
      calls := calls + 1;
    }

    method Send(dest: SocketAddr, hasKey: bool, msg: Msg, plaintext: bool, tunnel: Tunnel)
      modifies this
      ensures State() == SendApp(old(State()), dest, hasKey, msg, plaintext, tunnel)
    {
      if |msg| > PMTU_FLOOR {
        return;
      }
      accepted := accepted[dest := TakenOn(State(), dest) + [msg]];
      if plaintext || !(hasKey || dest in keys) {
        open := open[dest := TakenOpen(State(), dest) + [msg]];
        wire := wire + [Clear(dest, msg)];
        return;
      }
      var r := Encapsulate(tunnel);
      var queue := if dest in pending then pending[dest] else [];
      match r
      case Sealed =>
        wire := wire + [Encrypted(dest, msg)];
      case Initiation =>
        pending := pending[dest := queue + [msg]];
        wire := wire + [Control(dest)];
      case Nothing =>
        pending := pending[dest := queue + [msg]];
        var again := Encapsulate(tunnel);
        if !again.Nothing? {
          wire := wire + [Control(dest)];
        }
    }

    method FlushQueue(dest: SocketAddr, tunnel: Tunnel)
      modifies this
      ensures State() == Flush(old(State()), dest, tunnel)
    {
      if dest !in pending {
        return;
      }
      var queue := pending[dest];
      pending := pending - {dest};
      if dest !in keys {
        wire := wire + Messages(dest, queue, true);
        return;
      }
      var k := SealWhilePossible(dest, queue, tunnel);
      if k < |queue| {
        pending := pending[dest := queue[k..]];
      } else {
        assert queue[..k] == queue;
      }
    }

    /** The loop of the flush: stops at the first message that is not sealed. */
    method SealWhilePossible(dest: SocketAddr, queue: seq<Msg>, tunnel: Tunnel) returns (k: nat)
      modifies this
      ensures k == SealedRun(|queue|, old(calls), tunnel)
      ensures State() == old(State()).(
                wire := old(wire) + Messages(dest, queue[..k], false) +
                        (if k < |queue| && tunnel(old(calls) + k).Initiation? then [Control(dest)] else []),
                calls := old(calls) + k + if k < |queue| then 1 else 0)
    {
      k := 0;
      while k < |queue|
        invariant 0 <= k <= |queue|
        invariant State() == old(State()).(wire := old(wire) + Messages(dest, queue[..k], false), calls := old(calls) + k)
        invariant SealedRun(|queue|, old(calls), tunnel) == k + SealedRun(|queue| - k, calls, tunnel)
      {
        var r := Encapsulate(tunnel);
        if r.Initiation? {
          wire := wire + [Control(dest)];
        }
        if !r.Sealed? {
          return;
        }
        assert Messages(dest, queue[..k + 1], false) == Messages(dest, queue[..k], false) + [Encrypted(dest, queue[k])];
        wire := wire + [Encrypted(dest, queue[k])];
        k := k + 1;
      }
    }
  }

  // ---------------------------------------------------------------- conservation

  lemma {:induction false} HandedAppend(a: seq<Sent>, b: seq<Sent>, dest: SocketAddr)
    ensures Handed(a + b, dest) == Handed(a, dest) + Handed(b, dest)
    ensures HandedClear(a + b, dest) == HandedClear(a, dest) + HandedClear(b, dest)
  {
    if b == [] {
      assert a + b == a;
    } else {
      var n := |b| - 1;
      assert (a + b)[..|a + b| - 1] == a + b[..n];
      HandedAppend(a, b[..n], dest);
    }
  }

  lemma {:induction false} HandedMessages(to: SocketAddr, q: seq<Msg>, clear: bool, dest: SocketAddr)
    ensures Handed(Messages(to, q, clear), dest) == if to == dest then q else []
    ensures HandedClear(Messages(to, q, clear), dest) == if to == dest && clear then q else []
  {
    if q != [] {
      var n := |q| - 1;
      assert Messages(to, q, clear)[..n] == Messages(to, q[..n], clear);
      HandedMessages(to, q[..n], clear, dest);
      assert q == q[..n] + [q[n]];
    }
  }

  /** Each message taken on for `dest` has been handed to the socket or is waiting, exactly once. */
  ghost predicate Conserved(s: Queues, dest: SocketAddr)
  {
    multiset(TakenOn(s, dest)) == multiset(Handed(s.wire, dest)) + multiset(Waiting(s, dest))
  }

  datatype Step =
    | DoSend(dest: SocketAddr, hasKey: bool, msg: Msg, plaintext: bool)
    | DoFlush(dest: SocketAddr)
    | LearnKey(dest: SocketAddr)

  function Next(s: Queues, step: Step, tunnel: Tunnel): Queues
  {
    match step
    case DoSend(dest, hasKey, msg, plaintext) => SendApp(s, dest, hasKey, msg, plaintext, tunnel)
    case DoFlush(dest) => Flush(s, dest, tunnel)
    case LearnKey(dest) => s.(keys := s.keys + {dest})
  }

  function Run(s: Queues, steps: seq<Step>, tunnel: Tunnel): Queues
    decreases |steps|
  {
    if steps == [] then s else Run(Next(s, steps[0], tunnel), steps[1..], tunnel)
  }

  const Idle: Queues := Queues(map[], {}, [], 0, map[], map[])

  lemma {:induction false} HandedMore(wire: seq<Sent>, x: Sent, dest: SocketAddr)
    ensures Handed(wire + [x], dest) == if x.Carries(dest) then Handed(wire, dest) + [x.msg] else Handed(wire, dest)
    ensures HandedClear(wire + [x], dest) ==
            if x.Clear? && x.dest == dest then HandedClear(wire, dest) + [x.msg] else HandedClear(wire, dest)
  {
    assert (wire + [x])[..|wire|] == wire;
  }

  /** What a send adds, as seen from one destination. */
  lemma {:induction false} SendEffect(s: Queues, to: SocketAddr, hasKey: bool, msg: Msg, plaintext: bool, tunnel: Tunnel, dest: SocketAddr)
    requires |msg| <= PMTU_FLOOR
    ensures var s' := SendApp(s, to, hasKey, msg, plaintext, tunnel);
            var direct := GoesOut(s, to, hasKey, plaintext, tunnel);
            && TakenOn(s', dest) == (if to == dest then TakenOn(s, dest) + [msg] else TakenOn(s, dest))
            && Handed(s'.wire, dest) == (if to == dest && direct then Handed(s.wire, dest) + [msg] else Handed(s.wire, dest))
            && Waiting(s', dest) == (if to == dest && !direct then Waiting(s, dest) + [msg] else Waiting(s, dest))
  {
    if GoesOut(s, to, hasKey, plaintext, tunnel) {
      HandedMore(s.wire, AsSent(to, msg, !Encrypts(s, to, hasKey, plaintext)), dest);
    } else if Knock(s, to, tunnel) != [] {
      HandedMore(s.wire, Control(to), dest);
    } else {
      assert s.wire + [] == s.wire;
    }
  }

  /** A flush sends a prefix of the queue, in order, and keeps exactly the remaining suffix. */
  lemma FlushSendsPrefix(s: Queues, to: SocketAddr, tunnel: Tunnel, dest: SocketAddr)
    ensures var s' := Flush(s, to, tunnel);
            var q := Waiting(s, dest);
            exists k :: 0 <= k <= |q| && Handed(s'.wire, dest) == Handed(s.wire, dest) + q[..k] && Waiting(s', dest) == q[k..]
    ensures TakenOn(Flush(s, to, tunnel), dest) == TakenOn(s, dest)
  {
    var s', q := Flush(s, to, tunnel), Waiting(s, dest);
    var k := if to != dest || dest !in s.pending then 0 else if dest !in s.keys then |q| else SealedRun(|q|, s.calls, tunnel);
    FlushEffect(s, to, tunnel, dest, k);
    assert Handed(s'.wire, dest) == Handed(s.wire, dest) + q[..k] && Waiting(s', dest) == q[k..];
  }

  lemma FlushEffect(s: Queues, to: SocketAddr, tunnel: Tunnel, dest: SocketAddr, k: nat)
    requires k == if to != dest || dest !in s.pending then 0
                  else if dest !in s.keys then |Waiting(s, dest)| else SealedRun(|Waiting(s, dest)|, s.calls, tunnel)
    ensures k <= |Waiting(s, dest)|
    ensures var s' := Flush(s, to, tunnel);
            && Handed(s'.wire, dest) == Handed(s.wire, dest) + Waiting(s, dest)[..k]
            && Waiting(s', dest) == Waiting(s, dest)[k..]
  {
    var s', q := Flush(s, to, tunnel), Waiting(s, dest);
    if to in s.pending {
      var p := s.pending[to];
      var j := if to !in s.keys then |p| else SealedRun(|p|, s.calls, tunnel);
      assert p[..|p|] == p && p[|p|..] == [];
      var sent := Messages(to, p[..j], to !in s.keys);
      HandedAppend(s.wire, sent, dest);
      HandedMessages(to, p[..j], to !in s.keys, dest);
      HandedMore(s.wire + sent, Control(to), dest);
      assert Handed(s.wire, dest) + [] == Handed(s.wire, dest);
    }
    assert q[..0] == [] && q[0..] == q;
  }

  lemma SendConserves(s: Queues, to: SocketAddr, hasKey: bool, msg: Msg, plaintext: bool, tunnel: Tunnel, dest: SocketAddr)
    requires Conserved(s, dest)
    ensures Conserved(SendApp(s, to, hasKey, msg, plaintext, tunnel), dest)
  {
    if |msg| <= PMTU_FLOOR {
      SendEffect(s, to, hasKey, msg, plaintext, tunnel, dest);
    }
  }

  lemma SplitQueue(h: seq<Msg>, q: seq<Msg>, k: nat)
    requires k <= |q|
    ensures (h + q[..k]) + q[k..] == h + q
    ensures multiset(h + q[..k]) + multiset(q[k..]) == multiset(h) + multiset(q)
  {
    assert q == q[..k] + q[k..];
    assert multiset(q[..k] + q[k..]) == multiset(q[..k]) + multiset(q[k..]);
  }

  lemma NextConserves(s: Queues, step: Step, tunnel: Tunnel, dest: SocketAddr)
    requires Conserved(s, dest)
    ensures Conserved(Next(s, step, tunnel), dest)
  {
    match step
    case DoSend(to, hasKey, msg, plaintext) => SendConserves(s, to, hasKey, msg, plaintext, tunnel, dest);
    case DoFlush(to) =>
      FlushSendsPrefix(s, to, tunnel, dest);
      var s', q := Flush(s, to, tunnel), Waiting(s, dest);
      var k :| 0 <= k <= |q| && Handed(s'.wire, dest) == Handed(s.wire, dest) + q[..k] && Waiting(s', dest) == q[k..];
      SplitQueue(Handed(s.wire, dest), q, k);
    case LearnKey(_) =>
  }

  lemma {:induction false} RunConserves(s: Queues, steps: seq<Step>, tunnel: Tunnel, dest: SocketAddr)
    requires Conserved(s, dest)
    ensures Conserved(Run(s, steps, tunnel), dest)
    decreases |steps|
  {
    if steps != [] {
      NextConserves(s, steps[0], tunnel, dest);
      RunConserves(Next(s, steps[0], tunnel), steps[1..], tunnel, dest);
    }
  }

  /** Over every run and whatever the tunnel does, no message is lost and none is sent twice. */
  lemma NoMessageLostOrDuplicated(steps: seq<Step>, tunnel: Tunnel, dest: SocketAddr)
    ensures var s := Run(Idle, steps, tunnel);
            multiset(TakenOn(s, dest)) == multiset(Handed(s.wire, dest)) + multiset(Waiting(s, dest))
  {
    RunConserves(Idle, steps, tunnel, dest);
  }

  // ---------------------------------------------------------------- order

  /** Messages leave in the order they were taken on. */
  ghost predicate InOrder(s: Queues, dest: SocketAddr)
  {
    Handed(s.wire, dest) + Waiting(s, dest) == TakenOn(s, dest)
  }

  lemma FlushKeepsOrder(s: Queues, to: SocketAddr, tunnel: Tunnel, dest: SocketAddr)
    requires InOrder(s, dest)
    ensures InOrder(Flush(s, to, tunnel), dest)
  {
    FlushSendsPrefix(s, to, tunnel, dest);
    var s', q := Flush(s, to, tunnel), Waiting(s, dest);
    var k :| 0 <= k <= |q| && Handed(s'.wire, dest) == Handed(s.wire, dest) + q[..k] && Waiting(s', dest) == q[k..];
    SplitQueue(Handed(s.wire, dest), q, k);
  }

  lemma {:induction false} Rotation(m: Msg, q: seq<Msg>)
    ensures [m] + q == q + [m] <==> forall x :: x in q ==> x == m
  {
    if q != [] {
      var rest := q[1..];
      Rotation(m, rest);
      assert q == [q[0]] + rest;
      if [m] + q == q + [m] {
        assert ([m] + q)[0] == (q + [m])[0];
        assert ([m] + q)[1..] == (q + [m])[1..];
        assert (q + [m])[1..] == rest + [m];
      }
      if forall x :: x in q ==> x == m {
        forall i | 0 <= i < |q| ensures q[i] == m {
          assert q[i] in q;
        }
        assert [m] + q == q + [m];
      }
    }
  }

  lemma Overtaking(h: seq<Msg>, q: seq<Msg>, m: Msg)
    ensures (h + [m]) + q == (h + q) + [m] <==> forall x :: x in q ==> x == m
  {
    Rotation(m, q);
    assert (h + [m]) + q == h + ([m] + q);
    assert (h + q) + [m] == h + (q + [m]);
    assert (h + ([m] + q))[|h|..] == [m] + q;
    assert (h + (q + [m]))[|h|..] == q + [m];
  }

  /** A send does not look at the queue. It keeps the order exactly if it does not pass a different
      message that is already waiting. */
  lemma SendKeepsOrderIff(s: Queues, dest: SocketAddr, hasKey: bool, msg: Msg, plaintext: bool, tunnel: Tunnel)
    requires InOrder(s, dest) && |msg| <= PMTU_FLOOR
    ensures InOrder(SendApp(s, dest, hasKey, msg, plaintext, tunnel), dest) <==>
            !GoesOut(s, dest, hasKey, plaintext, tunnel) || forall x :: x in Waiting(s, dest) ==> x == msg
  {
    SendEffect(s, dest, hasKey, msg, plaintext, tunnel, dest);
    var h, q := Handed(s.wire, dest), Waiting(s, dest);
    Overtaking(h, q, msg);
    assert h + (q + [msg]) == (h + q) + [msg];
  }

  /** The step sends a message to `dest` past a different one that is waiting. */
  predicate Overtakes(s: Queues, step: Step, tunnel: Tunnel, dest: SocketAddr)
  {
    && step.DoSend? && step.dest == dest && |step.msg| <= PMTU_FLOOR
    && GoesOut(s, dest, step.hasKey, step.plaintext, tunnel)
    && exists x :: x in Waiting(s, dest) && x != step.msg
  }

  lemma NextKeepsOrderIff(s: Queues, step: Step, tunnel: Tunnel, dest: SocketAddr)
    requires InOrder(s, dest)
    ensures InOrder(Next(s, step, tunnel), dest) <==> !Overtakes(s, step, tunnel, dest)
  {
    match step
    case DoSend(to, hasKey, msg, plaintext) =>
      if |msg| <= PMTU_FLOOR {
        if to == dest {
          SendKeepsOrderIff(s, dest, hasKey, msg, plaintext, tunnel);
        } else {
          SendEffect(s, to, hasKey, msg, plaintext, tunnel, dest);
        }
      }
    case DoFlush(to) => FlushKeepsOrder(s, to, tunnel, dest);
    case LearnKey(_) =>
  }

  ghost predicate InOrderThroughout(s: Queues, steps: seq<Step>, tunnel: Tunnel, dest: SocketAddr)
    decreases |steps|
  {
    InOrder(s, dest) && (steps == [] || InOrderThroughout(Next(s, steps[0], tunnel), steps[1..], tunnel, dest))
  }

  predicate NoneOvertakes(s: Queues, steps: seq<Step>, tunnel: Tunnel, dest: SocketAddr)
    decreases |steps|
  {
    steps == [] || (!Overtakes(s, steps[0], tunnel, dest) && NoneOvertakes(Next(s, steps[0], tunnel), steps[1..], tunnel, dest))
  }

  lemma {:induction false} RunKeepsOrderIff(s: Queues, steps: seq<Step>, tunnel: Tunnel, dest: SocketAddr)
    requires InOrder(s, dest)
    ensures InOrderThroughout(s, steps, tunnel, dest) <==> NoneOvertakes(s, steps, tunnel, dest)
    decreases |steps|
  {
    if steps != [] {
      NextKeepsOrderIff(s, steps[0], tunnel, dest);
      if !Overtakes(s, steps[0], tunnel, dest) {
        RunKeepsOrderIff(Next(s, steps[0], tunnel), steps[1..], tunnel, dest);
      }
    }
  }

  /** Over every run and whatever the tunnel does: the messages for a destination leave in the order
      they were taken on, throughout, if and only if no send passes a different waiting message. */
  lemma OrderKeptIffNoneOvertakes(steps: seq<Step>, tunnel: Tunnel, dest: SocketAddr)
    ensures InOrderThroughout(Idle, steps, tunnel, dest) <==> NoneOvertakes(Idle, steps, tunnel, dest)
  {
    RunKeepsOrderIff(Idle, steps, tunnel, dest);
  }

  /** An overtaking input: a message waits for the session, a later one goes out in the clear. */
  lemma LaterMessageOvertakes(dest: SocketAddr, first: Msg, second: Msg, tunnel: Tunnel)
    requires first != second && |first| <= PMTU_FLOOR && |second| <= PMTU_FLOOR && tunnel(0).Initiation?
    ensures !InOrder(Run(Idle, [DoSend(dest, true, first, false), DoSend(dest, false, second, true)], tunnel), dest)
  {
    var a, b := DoSend(dest, true, first, false), DoSend(dest, false, second, true);
    assert [a, b][1..] == [b] && [b][1..] == [];
    SendEffect(Idle, dest, true, first, false, tunnel, dest);
    var s := Next(Idle, a, tunnel);
    SendEffect(s, dest, false, second, true, tunnel, dest);
    var s' := Next(s, b, tunnel);
    assert Run(Idle, [a, b], tunnel) == Run(s, [b], tunnel);
    assert Run(s, [b], tunnel) == s';
    assert Handed(s'.wire, dest) + Waiting(s', dest) == [second, first] && TakenOn(s', dest) == [first, second];
  }

  // ---------------------------------------------------------------- what goes in the clear

  /** Only messages for which no tunnel was asked have gone in the clear. */
  ghost predicate Confidential(s: Queues, dest: SocketAddr)
  {
    HandedClear(s.wire, dest) == TakenOpen(s, dest)
  }

  /** The step flushes waiting messages to a destination whose key is not on file: a send may use a key
      its caller passes, a flush only looks at the file. */
  predicate Exposes(s: Queues, step: Step, dest: SocketAddr)
  {
    step == DoFlush(dest) && Waiting(s, dest) != [] && dest !in s.keys
  }

  /** What a flush sends in the clear: everything waiting if no key is on file, otherwise nothing. */
  lemma FlushClearIff(s: Queues, to: SocketAddr, tunnel: Tunnel, dest: SocketAddr)
    ensures HandedClear(Flush(s, to, tunnel).wire, dest) ==
            HandedClear(s.wire, dest) + if to == dest && dest !in s.keys then Waiting(s, dest) else []
    ensures TakenOpen(Flush(s, to, tunnel), dest) == TakenOpen(s, dest)
  {
    if to in s.pending {
      var p := s.pending[to];
      var j := if to !in s.keys then |p| else SealedRun(|p|, s.calls, tunnel);
      assert p[..|p|] == p;
      var sent := Messages(to, p[..j], to !in s.keys);
      HandedAppend(s.wire, sent, dest);
      HandedMessages(to, p[..j], to !in s.keys, dest);
      HandedMore(s.wire + sent, Control(to), dest);
    }
    assert HandedClear(s.wire, dest) + [] == HandedClear(s.wire, dest);
  }

  lemma SendClear(s: Queues, to: SocketAddr, hasKey: bool, msg: Msg, plaintext: bool, tunnel: Tunnel, dest: SocketAddr)
    ensures var s' := SendApp(s, to, hasKey, msg, plaintext, tunnel);
            var more := if |msg| <= PMTU_FLOOR && to == dest && !Encrypts(s, to, hasKey, plaintext) then [msg] else [];
            HandedClear(s'.wire, dest) == HandedClear(s.wire, dest) + more && TakenOpen(s', dest) == TakenOpen(s, dest) + more
  {
    assert HandedClear(s.wire, dest) + [] == HandedClear(s.wire, dest) && TakenOpen(s, dest) + [] == TakenOpen(s, dest);
    if |msg| <= PMTU_FLOOR {
      if GoesOut(s, to, hasKey, plaintext, tunnel) {
        HandedMore(s.wire, AsSent(to, msg, !Encrypts(s, to, hasKey, plaintext)), dest);
      } else if Knock(s, to, tunnel) != [] {
        HandedMore(s.wire, Control(to), dest);
      } else {
        assert s.wire + [] == s.wire;
      }
    }
  }

  /** How many more messages have gone in the clear than were meant to. */
  function Excess(s: Queues, dest: SocketAddr): int
  {
    |HandedClear(s.wire, dest)| - |TakenOpen(s, dest)|
  }

  lemma NextExcess(s: Queues, step: Step, tunnel: Tunnel, dest: SocketAddr)
    ensures Excess(Next(s, step, tunnel), dest) == Excess(s, dest) + if Exposes(s, step, dest) then |Waiting(s, dest)| else 0
    ensures Confidential(s, dest) && !Exposes(s, step, dest) ==> Confidential(Next(s, step, tunnel), dest)
  {
    match step
    case DoSend(to, hasKey, msg, plaintext) => SendClear(s, to, hasKey, msg, plaintext, tunnel, dest);
    case DoFlush(to) =>
      FlushClearIff(s, to, tunnel, dest);
      assert HandedClear(s.wire, dest) + [] == HandedClear(s.wire, dest);
    case LearnKey(_) =>
  }

  predicate NoneExposes(s: Queues, steps: seq<Step>, tunnel: Tunnel, dest: SocketAddr)
    decreases |steps|
  {
    steps == [] || (!Exposes(s, steps[0], dest) && NoneExposes(Next(s, steps[0], tunnel), steps[1..], tunnel, dest))
  }

  lemma {:induction false} RunExcess(s: Queues, steps: seq<Step>, tunnel: Tunnel, dest: SocketAddr)
    ensures Excess(Run(s, steps, tunnel), dest) >= Excess(s, dest)
    ensures !NoneExposes(s, steps, tunnel, dest) ==> Excess(Run(s, steps, tunnel), dest) > Excess(s, dest)
    ensures Confidential(s, dest) && NoneExposes(s, steps, tunnel, dest) ==> Confidential(Run(s, steps, tunnel), dest)
    decreases |steps|
  {
    if steps != [] {
      NextExcess(s, steps[0], tunnel, dest);
      RunExcess(Next(s, steps[0], tunnel), steps[1..], tunnel, dest);
    }
  }

  /** Over every run and whatever the tunnel does: nothing taken on for the tunnel has left in the clear,
      if and only if no flush met waiting messages without a key on file. */
  lemma ConfidentialIffNoneExposes(steps: seq<Step>, tunnel: Tunnel, dest: SocketAddr)
    ensures Confidential(Run(Idle, steps, tunnel), dest) <==> NoneExposes(Idle, steps, tunnel, dest)
  {
    RunExcess(Idle, steps, tunnel, dest);
  }

  /** The failing input: sent with a key the caller passed, kept waiting, flushed in the clear. */
  lemma QueuedMessageFlushedClear(dest: SocketAddr, msg: Msg, tunnel: Tunnel)
    requires |msg| <= PMTU_FLOOR && !tunnel(0).Sealed?
    ensures var s := Run(Idle, [DoSend(dest, true, msg, false), DoFlush(dest)], tunnel);
            HandedClear(s.wire, dest) == [msg] && TakenOpen(s, dest) == []
  {
    var a, b := DoSend(dest, true, msg, false), DoFlush(dest);
    assert [a, b][1..] == [b] && [b][1..] == [];
    var s := Next(Idle, a, tunnel);
    SendClear(Idle, dest, true, msg, false, tunnel, dest);
    SendEffect(Idle, dest, true, msg, false, tunnel, dest);
    FlushClearIff(s, dest, tunnel, dest);
    assert Run(Idle, [a, b], tunnel) == Run(s, [b], tunnel);
    assert Run(s, [b], tunnel) == Next(s, b, tunnel);
  }

  // ---------------------------------------------------------------- what a flush and a send achieve

  /** The sealed run is the longest: everything in it is sealed, and it ends at the end of the queue or
      at an encapsulation that is not. */
  lemma {:induction false} SealedRunIsLongest(n: nat, from: nat, tunnel: Tunnel)
    ensures var k := SealedRun(n, from, tunnel);
            && k <= n && (forall i :: from <= i < from + k ==> tunnel(i).Sealed?)
            && (k == n || !tunnel(from + k).Sealed?)
    decreases n
  {
    if n > 0 && tunnel(from).Sealed? {
      SealedRunIsLongest(n - 1, from + 1, tunnel);
    }
  }

  /** With a key on file, a flush seals and sends the waiting messages in order, up to the first
      encapsulation that does not yield a sealed packet; exactly the rest keeps waiting, and a handshake
      initiation yielded instead is sent. */
  lemma FlushSendsWhatIsSealed(s: Queues, dest: SocketAddr, tunnel: Tunnel)
    requires dest in s.pending && dest in s.keys
    ensures var s', q := Flush(s, dest, tunnel), s.pending[dest];
            exists k: nat {:trigger q[..k]} ::
              && k <= |q| && (forall i :: s.calls <= i < s.calls + k ==> tunnel(i).Sealed?)
              && (k == |q| || !tunnel(s.calls + k).Sealed?)
              && s'.wire == s.wire + Messages(dest, q[..k], false) +
                            (if k < |q| && tunnel(s.calls + k).Initiation? then [Control(dest)] else [])
              && Waiting(s', dest) == q[k..]
  {
    var q := s.pending[dest];
    var k := SealedRun(|q|, s.calls, tunnel);
    SealedRunIsLongest(|q|, s.calls, tunnel);
    assert q[..k] + q[k..] == q;
    var s' := Flush(s, dest, tunnel);
    assert s'.wire == s.wire + Messages(dest, q[..k], false) +
                      (if k < |q| && tunnel(s.calls + k).Initiation? then [Control(dest)] else []);
    assert Waiting(s', dest) == q[k..];
  }

  /** In particular, if the tunnel seals everything, nothing is left waiting and everything went out. */
  lemma OpenTunnelEmptiesQueue(s: Queues, dest: SocketAddr, tunnel: Tunnel)
    requires dest in s.pending && dest in s.keys && forall i :: tunnel(i).Sealed?
    ensures var s' := Flush(s, dest, tunnel);
            && Waiting(s', dest) == [] && s'.wire == s.wire + Messages(dest, s.pending[dest], false)
            && Handed(s'.wire, dest) == Handed(s.wire, dest) + s.pending[dest]
  {
    var q := s.pending[dest];
    SealedRunIsLongest(|q|, s.calls, tunnel);
    assert q[..|q|] == q;
    HandedAppend(s.wire, Messages(dest, q, false), dest);
    HandedMessages(dest, q, false, dest);
  }

  /** Without a key on file everything waiting goes out in the clear and nothing is left. */
  lemma FlushWithoutKey(s: Queues, dest: SocketAddr, tunnel: Tunnel)
    requires dest in s.pending && dest !in s.keys
    ensures var s' := Flush(s, dest, tunnel);
            Waiting(s', dest) == [] && s'.wire == s.wire + Messages(dest, s.pending[dest], true) && s'.calls == s.calls
  {
  }

  /** A message that has to wait knocks: a packet without a message goes out, unless the tunnel yields
      nothing twice. No other queue is touched. */
  lemma WaitingKnocks(s: Queues, dest: SocketAddr, hasKey: bool, msg: Msg, tunnel: Tunnel)
    requires |msg| <= 1200 && (hasKey || dest in s.keys) && !tunnel(s.calls).Sealed?
    ensures var s' := SendApp(s, dest, hasKey, msg, false, tunnel);
            && Waiting(s', dest) == Waiting(s, dest) + [msg]
            && (s'.wire == s.wire + [Control(dest)] <==> tunnel(s.calls).Initiation? || !tunnel(s.calls + 1).Nothing?)
            && (s'.wire == s.wire || s'.wire == s.wire + [Control(dest)])
            && forall d :: d != dest ==> Waiting(s', d) == Waiting(s, d)
  {
    var s' := SendApp(s, dest, hasKey, msg, false, tunnel);
    assert s'.wire == s.wire + Knock(s, dest, tunnel);
    assert |s.wire + Knock(s, dest, tunnel)| == |s.wire| + |Knock(s, dest, tunnel)|;
    assert s.wire + [] == s.wire;
  }

  /** A message longer than 1200 bytes is not taken on at all. */
  lemma TooLongIsDropped(s: Queues, dest: SocketAddr, hasKey: bool, msg: Msg, plaintext: bool, tunnel: Tunnel)
    ensures |msg| > 1200 <==> TakenOn(SendApp(s, dest, hasKey, msg, plaintext, tunnel), dest) == TakenOn(s, dest)
    ensures |msg| > 1200 ==> SendApp(s, dest, hasKey, msg, plaintext, tunnel) == s
  {
    if |msg| <= 1200 {
      SendEffect(s, dest, hasKey, msg, plaintext, tunnel, dest);
      assert |TakenOn(s, dest) + [msg]| == |TakenOn(s, dest)| + 1;
    }
  }
}
