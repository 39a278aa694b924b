/** Hole-punch attempts (`src/shard.rs`, `src/nat.rs`): opened when a peer is reported or asks for
    one, ended by a live endpoint or by falling back to a relay. Time is in nanoseconds. */
module Punching {
  import opened Xor
  import opened Peers
  import opened Lookups

  const WINDOW: nat := 250 * MS
  const RELAY_AFTER: nat := 750 * MS
  const CONSENT_TTL: nat := 30 * 60 * 1000 * MS
  const U8_MAX: nat := 255

  datatype Attempt = Attempt(
    candidates: seq<SocketAddr>,
    rendezvous: SocketAddr,
    burstsDone: nat,
    nextBurst: nat,
    relayAt: nat,
    replied: bool)

  /** `messages` counts the Punch messages the live attempt for a peer has originated, and `due` is
      the time from which a tick ends it; the code keeps neither, the properties below need them. */
  datatype PunchState = PunchState(
    self: Id,
    punches: map<Id, Attempt>,
    endpoints: map<Id, nat>,
    viaRelay: map<Id, SocketAddr>,
    messages: map<Id, nat>,
    due: map<Id, nat>)

  /** Whether a peer's endpoint answered within the consent time. */
  predicate Fresh(t: PunchState, id: Id, now: nat)
  {
    id in t.endpoints && Since(now, t.endpoints[id]) < CONSENT_TTL
  }

  /** `burst_punch` reads the clock itself, after sending the pings. */
  function Burst(p: Attempt, reread: nat): Attempt
  {
    p.(burstsDone := Min(p.burstsDone + 1, U8_MAX), nextBurst := reread + WINDOW)
  }

  /** An attempt opened at `now` whose first burst reads the clock at `reread`: it can be given up
      once the relay time and the second burst have come. */
  function DueAt(now: nat, reread: nat): nat
  {
    if reread + WINDOW <= now + RELAY_AFTER then now + RELAY_AFTER else reread + WINDOW
  }

  /** The guards of `start_punch`. */
  predicate Opens(t: PunchState, peer: PeerInfo, now: nat)
  {
    && peer.id != t.self
    && !Fresh(t, peer.id, now)
    && peer.id !in t.punches && peer.id !in t.viaRelay
    && peer.addrs != []
  }

  function Opening(candidates: seq<SocketAddr>, rendezvous: SocketAddr, now: nat): Attempt
  {
    Attempt(candidates, rendezvous, 0, now, now + RELAY_AFTER, false)
  }

  function StartPunch(t: PunchState, peer: PeerInfo, rendezvous: SocketAddr, now: nat, reread: nat): PunchState
  {
    if !Opens(t, peer, now) then t
    else t.(punches := t.punches[peer.id := Burst(Opening(peer.addrs, rendezvous, now), reread)],
            messages := t.messages[peer.id := 1],
            due := t.due[peer.id := DueAt(now, reread)])
  }

  /** A Punch request for this node from `from`; candidates that do not parse are already gone. */
  function OnPunch(t: PunchState, from: Id, candidates: seq<SocketAddr>, src: SocketAddr, now: nat, reread: nat): PunchState
  {
    if candidates == [] then t
    else
      var known := from in t.punches;
      var p := if known then t.punches[from] else Opening(candidates, src, now);
      var sent := if known && from in t.messages then t.messages[from] else 0;
      t.(punches := t.punches[from := Burst(p.(candidates := candidates, rendezvous := src, replied := true), reread)],
         messages := t.messages[from := if p.replied then sent else sent + 1],
         due := if known then t.due else t.due[from := DueAt(now, reread)])
  }

  function OnPong(t: PunchState, id: Id): PunchState
  {
    t.(punches := t.punches - {id}, viaRelay := t.viaRelay - {id})
  }

  function Learn(t: PunchState, id: Id, now: nat): PunchState
  {
    t.(endpoints := t.endpoints[id := now])
  }

  function OnRelay(t: PunchState, from: Id, src: SocketAddr): PunchState
  {
    t.(viaRelay := t.viaRelay[from := src])
  }

  /** What a tick meets besides the time it was called with: the clock as each burst reads it, and
      which peers a relay can reach. */
  datatype TickEnv = TickEnv(reread: Id -> nat, relayable: Id -> bool)

  /** The body of the tick's loop for one peer. */
  function TickOne(t: PunchState, id: Id, now: nat, env: TickEnv): PunchState
  {
    if Fresh(t, id, now) then t.(punches := t.punches - {id}, viaRelay := t.viaRelay - {id})
    else if id !in t.punches then t
    else
      var p := BurstIfDue(t.punches[id], now, env.reread(id));
      if GivesUp(p, now) then
        t.(punches := t.punches - {id},
           viaRelay := if env.relayable(id) then t.viaRelay[id := p.rendezvous] else t.viaRelay)
      else t.(punches := t.punches[id := p])
  }

  function BurstIfDue(p: Attempt, now: nat, reread: nat): Attempt
  {
    if p.burstsDone < 2 && now >= p.nextBurst then Burst(p, reread) else p
  }

  predicate GivesUp(p: Attempt, now: nat)
  {
    p.burstsDone >= 2 && now >= p.relayAt
  }

  /** Whether the tick for one peer asks for another tick. */
  predicate WantsMore(t: PunchState, id: Id, now: nat, env: TickEnv)
  {
    && !Fresh(t, id, now) && id in t.punches
    && (var p := t.punches[id];
        (p.burstsDone < 2 && now >= p.nextBurst) || !GivesUp(BurstIfDue(p, now, env.reread(id)), now))
  }

  function Tick(t: PunchState, ids: seq<Id>, now: nat, env: TickEnv): PunchState
  {
    if ids == [] then t
    else
      var n := |ids| - 1;
      TickOne(Tick(t, ids[..n], now, env), ids[n], now, env)
  }

  predicate Again(t: PunchState, ids: seq<Id>, now: nat, env: TickEnv)
  {
    ids != [] &&
    (var n := |ids| - 1;
     Again(t, ids[..n], now, env) || WantsMore(Tick(t, ids[..n], now, env), ids[n], now, env))
  }

  // ---------------------------------------------------------------- the object

  class PunchTable {
    const self: Id
    var punches: map<Id, Attempt>
    var endpoints: map<Id, nat>
    var viaRelay: map<Id, SocketAddr>
    ghost var messages: map<Id, nat>
    ghost var due: map<Id, nat>

    ghost function State(): PunchState
      reads this
    {
      PunchState(self, punches, endpoints, viaRelay, messages, due)
    }

    constructor (self: Id)
      ensures State() == PunchState(self, map[], map[], map[], map[], map[])
    {
      this.self := self;
      punches, endpoints, viaRelay, messages, due := map[], map[], map[], map[], map[];
    }

    /** `scheduled` tells the caller to set a Punch timer one window from now. */
    method Start(peer: PeerInfo, rendezvous: SocketAddr, now: nat, reread: nat) returns (scheduled: bool)
      modifies this
      ensures State() == StartPunch(old(State()), peer, rendezvous, now, reread)
      ensures scheduled <==> Opens(old(State()), peer, now)
    {
      scheduled := false;
      if peer.id == self {
        return;
      }
      if peer.id in endpoints && Since(now, endpoints[peer.id]) < CONSENT_TTL {
        return;
      }
      if peer.id in punches || peer.id in viaRelay {
        return;
      }
      if peer.addrs == [] {
        return;
      }
      punches := punches[peer.id := Opening(peer.addrs, rendezvous, now)];
      messages, due := messages[peer.id := 1], due[peer.id := DueAt(now, reread)];
      punches := punches[peer.id := Burst(punches[peer.id], reread)];
      scheduled := true;
    }

    method Asked(from: Id, candidates: seq<SocketAddr>, src: SocketAddr, now: nat, reread: nat) returns (replied: bool, scheduled: bool)
      modifies this
      ensures State() == OnPunch(old(State()), from, candidates, src, now, reread)
      ensures scheduled <==> candidates != []
      ensures replied <==> candidates != [] && !(from in old(punches) && old(punches)[from].replied)
    {
      replied, scheduled := false, false;
      if candidates == [] {
        return;
      }
      ghost var sent := if from in punches && from in messages then messages[from] else 0;
      if from !in punches {
        punches := punches[from := Opening(candidates, src, now)];
        due := due[from := DueAt(now, reread)];
      }
      var p := punches[from].(candidates := candidates, rendezvous := src);
      if !p.replied {
        p := p.(replied := true);
        replied := true;
      }
      messages := messages[from := if replied then sent + 1 else sent];
      punches := punches[from := Burst(p, reread)];
      scheduled := true;
    }

    method TickPeer(id: Id, now: nat, env: TickEnv) returns (more: bool)
      modifies this
      ensures State() == TickOne(old(State()), id, now, env)
      ensures more == WantsMore(old(State()), id, now, env)
    {
      more := false;
      if id in endpoints && Since(now, endpoints[id]) < CONSENT_TTL {
        punches := punches - {id};
        viaRelay := viaRelay - {id};
        return;
      }
      if id !in punches {
        return;
      }
      if punches[id].burstsDone < 2 && now >= punches[id].nextBurst {
        punches := punches[id := Burst(punches[id], env.reread(id))];
        more := true;
      }
      if punches[id].burstsDone >= 2 && now >= punches[id].relayAt {
        var hop := punches[id].rendezvous;
        punches := punches - {id};
        if env.relayable(id) {
          viaRelay := viaRelay[id := hop];
        }
        assert punches == old(punches) - {id};
      } else {
        more := true;
        assert punches == old(punches)[id := BurstIfDue(old(punches)[id], now, env.reread(id))];
      }
    }

    method TimerFired(ids: seq<Id>, now: nat, env: TickEnv) returns (again: bool)
      modifies this
      ensures State() == Tick(old(State()), ids, now, env)
      ensures again == Again(old(State()), ids, now, env)
    {
      again := false;
      var i := 0;
      while i < |ids|
        invariant 0 <= i <= |ids|
        invariant State() == Tick(old(State()), ids[..i], now, env)
        invariant again == Again(old(State()), ids[..i], now, env)
      {
        assert ids[..i + 1][..i] == ids[..i];
        var more := TickPeer(ids[i], now, env);
        again := again || more;
        i := i + 1;
      }
      assert ids[..i] == ids;
    }
  }

  // ---------------------------------------------------------------- what every operation keeps

  /** One burst is done; relay time and, while no second burst is done, its time are up by `due`. */
  ghost predicate AttemptOk(p: Attempt, due: nat)
  {
    1 <= p.burstsDone && p.relayAt <= due && (p.burstsDone == 1 ==> p.nextBurst <= due)
  }

  ghost predicate AttemptInv(t: PunchState, id: Id)
  {
    id in t.punches ==>
      && id in t.due && AttemptOk(t.punches[id], t.due[id])
      && id in t.messages && t.messages[id] <= (if t.punches[id].replied then 2 else 1)
  }

  ghost predicate PunchInv(t: PunchState)
  {
    forall id :: AttemptInv(t, id)
  }

  datatype PunchStep =
    | Reported(peer: PeerInfo, rendezvous: SocketAddr, now: nat, reread: nat)
    | Requested(from: Id, candidates: seq<SocketAddr>, src: SocketAddr, now: nat, reread: nat)
    | Ponged(id: Id)
    | Learned(id: Id, now: nat)
    | Relayed(from: Id, src: SocketAddr)

  function AfterPunchStep(t: PunchState, step: PunchStep): PunchState
  {
    match step
    case Reported(peer, rendezvous, now, reread) => StartPunch(t, peer, rendezvous, now, reread)
    case Requested(from, candidates, src, now, reread) => OnPunch(t, from, candidates, src, now, reread)
    case Ponged(id) => OnPong(t, id)
    case Learned(id, now) => Learn(t, id, now)
    case Relayed(from, src) => OnRelay(t, from, src)
  }

  /** Whatever the two clock readings of a handler, an attempt has burst at least once, its deadline
      covers relay time and second burst, and it sends no more than its opening message and one reply. */
  lemma PunchStepKeepsInv(t: PunchState, step: PunchStep)
    requires PunchInv(t)
    ensures PunchInv(AfterPunchStep(t, step))
  {
    forall id ensures AttemptInv(AfterPunchStep(t, step), id) {
      assert AttemptInv(t, id);
    }
  }

  lemma TickOneKeepsInv(t: PunchState, id: Id, now: nat, env: TickEnv)
    requires PunchInv(t)
    ensures PunchInv(TickOne(t, id, now, env))
  {
    forall j ensures AttemptInv(TickOne(t, id, now, env), j) {
      assert AttemptInv(t, j);
    }
  }

  /** After the tick for one peer its attempt is gone if its deadline has come, and is otherwise
      still due later; no other attempt is touched. */
  lemma TickOneResolves(t: PunchState, id: Id, now: nat, env: TickEnv)
    requires PunchInv(t)
    ensures var t' := TickOne(t, id, now, env);
            && t'.due == t.due
            && (id in t'.punches ==> id in t.punches && id in t.due && t.due[id] > now && WantsMore(t, id, now, env)
                                     && t'.punches[id].relayAt == t.punches[id].relayAt)
            && (forall j :: j != id ==> (j in t'.punches <==> j in t.punches))
            && (forall j :: j != id && j in t.punches ==> t'.punches[j] == t.punches[j])
  {
    assert AttemptInv(t, id);
  }

  /** A tick over every attempt removes each one whose deadline has come, keeps the rest, and
      asks for another tick if any is left. */
  lemma {:induction false} TickResolves(t: PunchState, ids: seq<Id>, now: nat, env: TickEnv)
    requires PunchInv(t)
    ensures var t' := Tick(t, ids, now, env);
            && PunchInv(t') && t'.due == t.due
            && (forall id :: id in t'.punches ==> id in t.punches && t'.punches[id].relayAt == t.punches[id].relayAt)
            && (forall id :: id in t'.punches && id in ids ==> id in t.due && t.due[id] > now && Again(t, ids, now, env))
  {
    if ids != [] {
      var n := |ids| - 1;
      var mid := Tick(t, ids[..n], now, env);
      TickResolves(t, ids[..n], now, env);
      TickOneKeepsInv(mid, ids[n], now, env);
      TickOneResolves(mid, ids[n], now, env);
      assert ids == ids[..n] + [ids[n]];
    }
  }

  // ---------------------------------------------------------------- prompt handlers

  /** The deadline of an attempt is its relay time. */
  ghost predicate OnTime(t: PunchState)
  {
    forall id :: id in t.punches ==> id in t.due && t.due[id] == t.punches[id].relayAt
  }

  /** The burst of the handler reads the clock at most 500 ms after the handler did. */
  predicate Prompt(step: PunchStep)
  {
    (step.Reported? || step.Requested?) ==> step.reread <= step.now + 2 * WINDOW
  }

  /** For a new attempt that is exactly when the deadline is the relay time. */
  lemma PromptIff(t: PunchState, peer: PeerInfo, rendezvous: SocketAddr, now: nat, reread: nat)
    requires Opens(t, peer, now)
    ensures var t' := StartPunch(t, peer, rendezvous, now, reread);
            t'.due[peer.id] == t'.punches[peer.id].relayAt <==> Prompt(Reported(peer, rendezvous, now, reread))
  {
  }

  lemma PromptStepStaysOnTime(t: PunchState, step: PunchStep)
    requires OnTime(t) && Prompt(step)
    ensures OnTime(AfterPunchStep(t, step))
  {
  }

  lemma TickStaysOnTime(t: PunchState, ids: seq<Id>, now: nat, env: TickEnv)
    requires PunchInv(t) && OnTime(t)
    ensures OnTime(Tick(t, ids, now, env))
  {
    TickResolves(t, ids, now, env);
  }

  // ---------------------------------------------------------------- what each event does

  /** Reporting a peer opens an attempt exactly if it is another node, has an address, is not in contact
      and neither being punched nor relayed; the attempt then has its addresses, one burst done, the next
      due 250 ms after the burst and the relay 750 ms after the report. Nothing else changes. */
  lemma ReportOpens(t: PunchState, peer: PeerInfo, rendezvous: SocketAddr, now: nat, reread: nat)
    ensures var t' := StartPunch(t, peer, rendezvous, now, reread);
            var free := peer.id != t.self && !Fresh(t, peer.id, now) && peer.id !in t.punches && peer.id !in t.viaRelay && peer.addrs != [];
            && (!free ==> t' == t)
            && (free ==>
                  && t'.punches == t.punches[peer.id := Attempt(peer.addrs, rendezvous, 1, reread + 250 * MS, now + 750 * MS, false)]
                  && t'.endpoints == t.endpoints && t'.viaRelay == t.viaRelay)
  {
  }

  /** A request with candidates is always taken up: the attempt has the candidates, the sender as
      rendezvous, is marked as replied to and has burst once more; a new one is relayed 750 ms later, an
      old one keeps its relay time. */
  lemma RequestTakenUp(t: PunchState, from: Id, candidates: seq<SocketAddr>, src: SocketAddr, now: nat, reread: nat)
    ensures var t' := OnPunch(t, from, candidates, src, now, reread);
            && (candidates == [] ==> t' == t)
            && (candidates != [] ==>
                  && from in t'.punches
                  && (var p := t'.punches[from];
                      && p.candidates == candidates && p.rendezvous == src && p.replied && p.nextBurst == reread + 250 * MS
                      && (if from in t.punches
                          then p.relayAt == t.punches[from].relayAt && (t.punches[from].burstsDone < 255 ==> p.burstsDone == t.punches[from].burstsDone + 1)
                          else p.relayAt == now + 750 * MS && p.burstsDone == 1))
                  && (forall id :: id != from ==> (id in t'.punches <==> id in t.punches))
                  && (forall id :: id != from && id in t.punches ==> t'.punches[id] == t.punches[id])
                  && t'.endpoints == t.endpoints && t'.viaRelay == t.viaRelay)
  {
  }

  /** A pong ends punching and relaying for its peer and for nobody else; a relayed packet notes the hop;
      contact notes the time. */
  lemma SignalsTaken(t: PunchState, id: Id, src: SocketAddr, now: nat)
    ensures var t' := AfterPunchStep(t, Ponged(id));
            t'.punches == t.punches - {id} && t'.viaRelay == t.viaRelay - {id} && t'.endpoints == t.endpoints
    ensures AfterPunchStep(t, Relayed(id, src)) == t.(viaRelay := t.viaRelay[id := src])
    ensures Fresh(AfterPunchStep(t, Learned(id, now)), id, now)
  {
  }

  /** One peer's turn of the tick. In contact: punching and relaying end. Relay time come and a second burst
      done or due: punching ends, and traffic goes over the rendezvous if a relay can reach the peer.
      Otherwise the attempt stays, one burst further if one was due. */
  lemma TickSpec(t: PunchState, id: Id, now: nat, env: TickEnv)
    requires id in t.punches
    ensures var t', p := TickOne(t, id, now, env), t.punches[id];
            && t'.endpoints == t.endpoints
            && (if Fresh(t, id, now) then id !in t'.punches && t'.viaRelay == t.viaRelay - {id}
                else if (p.burstsDone >= 2 || (p.burstsDone == 1 && now >= p.nextBurst)) && now >= p.relayAt then
                  && id !in t'.punches
                  && t'.viaRelay == (if env.relayable(id) then t.viaRelay[id := p.rendezvous] else t.viaRelay)
                else
                  && id in t'.punches && t'.viaRelay == t.viaRelay
                  && t'.punches[id] == (if p.burstsDone < 2 && now >= p.nextBurst
                                        then p.(burstsDone := p.burstsDone + 1, nextBurst := env.reread(id) + 250 * MS) else p))
  {
  }

  /** Over a whole tick: an attempt that ends without contact leaves its peer on the rendezvous relay, if a
      relay can reach it and nobody else in the tick says otherwise. */
  lemma {:induction false} TickFallsBack(t: PunchState, ids: seq<Id>, now: nat, env: TickEnv, id: Id)
    requires PunchInv(t) && id in t.punches && !Fresh(t, id, now) && env.relayable(id)
    ensures var t' := Tick(t, ids, now, env);
            && t'.endpoints == t.endpoints
            && (id !in t'.punches ==> id in t'.viaRelay && t'.viaRelay[id] == t.punches[id].rendezvous)
            && (id in t'.punches ==> t'.punches[id].rendezvous == t.punches[id].rendezvous)
  {
    if ids != [] {
      var n := |ids| - 1;
      TickFallsBack(t, ids[..n], now, env, id);
    }
  }

  /** Contact counts for 30 minutes. */
  lemma ContactLasts(t: PunchState, id: Id, at: nat, now: nat)
    requires at <= now
    ensures Fresh(AfterPunchStep(t, Learned(id, at)), id, now) <==> now - at < 30 * 60 * 1000 * MS
  {
  }
}
