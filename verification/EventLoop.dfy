/** The shard's loop (`run_shard`, `on_timer` in `src/shard.rs`): handlers, then the due timers.
    Timers rearm themselves, callers are answered in time and punch attempts are resolved in time. */
module EventLoop {
  import opened Xor
  import opened Peers
  import opened Lookups
  import opened Timers
  import opened Punching
  import opened ShardLookups
  import Once = ShardReplies
  import A = ShardAnswers

  const TICK: nat := 50 * MS
  const FLUSH_EVERY: nat := 100 * MS
  const GC_EVERY: nat := 30_000 * MS
  const KEEPALIVE: nat := 20_000 * MS

  /** `calls` records when each lookup call was made. */
  datatype Loop = Loop(shard: Shard, punch: PunchState, wheel: multiset<Timer>, clock: nat, calls: seq<nat>)

  /** What a timer phase meets: the clock as each timer is handled, the orders in which hash maps
      are walked, ids taken by other traffic, the clock as bursts read it and which peers a relay can
      reach. */
  datatype Env = Env(
    at: nat -> nat,
    order: set<nat> -> seq<nat>,
    punchOrder: set<Id> -> seq<Id>,
    extra: (nat, nat) -> nat,
    tick: TickEnv,
    pings: nat)

  datatype Step =
    | Call(kind: Kind, target: Id, seeds: seq<PeerInfo>, now: nat, spare: nat -> nat)
    | Got(hit: Option<nat>, r: Response, now: nat, env: Env)
    | Traffic(n: nat)
    | Punched(p: PunchStep)
    | TimerPhase(now: nat, env: Env)

  // ---------------------------------------------------------------- one step

  function SweepWith(s: Shard, now: nat, env: Env): Shard
  {
    Sweep(s, env.order(s.lookups.Keys), now, env.extra)
  }

  /** How far ahead each timer rearms itself. */
  function Period(kind: TimerKind): nat
  {
    match kind
    case Keepalive => KEEPALIVE
    case PeerstoreFlush => FLUSH_EVERY
    case Gc => GC_EVERY
    case LookupTick => TICK
    case Punch => WINDOW
  }

  function OnTimer(s: Loop, kind: TimerKind, now: nat, env: Env): Loop
  {
    match kind
    case Keepalive =>
      s.(shard := s.shard.(counter := Allocate(s.shard.counter, env.pings)),
         wheel := s.wheel + multiset{Timer(now + Period(kind), kind)})
    case PeerstoreFlush => s.(wheel := s.wheel + multiset{Timer(now + Period(kind), kind)})
    case Gc => s.(wheel := s.wheel + multiset{Timer(now + Period(kind), kind)})
    case LookupTick =>
      s.(shard := SweepWith(ExpireAll(s.shard, now), now, env),
         wheel := s.wheel + multiset{Timer(now + Period(kind), kind)})
    case Punch =>
      var ids := env.punchOrder(s.punch.punches.Keys);
      s.(punch := Tick(s.punch, ids, now, env.tick),
         wheel := if Again(s.punch, ids, now, env.tick) then s.wheel + multiset{Timer(now + Period(kind), kind)} else s.wheel)
  }

  /** The first `n` due timers handled in turn. */
  function Fire(s: Loop, due: seq<Timer>, n: nat, env: Env): Loop
    requires n <= |due|
  {
    if n == 0 then s
    else OnTimer(Fire(s, due, n - 1, env), due[n - 1].kind, env.at(n - 1), env).(clock := env.at(n - 1))
  }

  /** Whether a punch step sets a timer, and for when. */
  function PunchTimer(t: PunchState, p: PunchStep): multiset<Timer>
  {
    match p
    case Reported(peer, _, now, _) => if Opens(t, peer, now) then multiset{Timer(now + WINDOW, Punch)} else multiset{}
    case Requested(_, candidates, _, now, _) => if candidates == [] then multiset{} else multiset{Timer(now + WINDOW, Punch)}
    case _ => multiset{}
  }

  ghost function Next(s: Loop, step: Step): Loop
  {
    match step
    case Call(kind, target, seeds, now, spare) =>
      s.(shard := StartLookup(s.shard, kind, target, seeds, now, spare), clock := now, calls := s.calls + [now])
    case Got(hit, r, now, env) => s.(shard := SweepWith(Respond(s.shard, hit, r), now, env), clock := now)
    case Traffic(n) => s.(shard := s.shard.(counter := Allocate(s.shard.counter, n)))
    case Punched(p) => s.(punch := AfterPunchStep(s.punch, p), wheel := s.wheel + PunchTimer(s.punch, p))
    case TimerPhase(now, env) =>
      var due := Due(s.wheel, now);
      Fire(s.(wheel := Later(s.wheel, now)), due, |due|, env)
  }

  ghost function Run(s: Loop, steps: seq<Step>): Loop
    decreases |steps|
  {
    if steps == [] then s else Run(Next(s, steps[0]), steps[1..])
  }

  function Boot(self: Id, now: nat): Loop
  {
    Loop(Once.Idle, PunchState(self, map[], map[], map[], map[], map[]),
         multiset{Timer(now + KEEPALIVE, Keepalive), Timer(now + FLUSH_EVERY, PeerstoreFlush),
                  Timer(now + GC_EVERY, Gc), Timer(now + TICK, LookupTick)},
         now, [])
  }

  // ---------------------------------------------------------------- honest surroundings

  /** Hash-map walks visit exactly the keys. */
  ghost predicate WalksKeys(env: Env)
  {
    && (forall keys: set<nat>, k: nat :: k in env.order(keys) <==> k in keys)
    && (forall keys: set<Id>, k: Id :: k in env.punchOrder(keys) <==> k in keys)
  }

  ghost predicate ClockFrom(env: Env, now: nat)
  {
    && (forall i: nat :: now <= env.at(i))
    && (forall i: nat, j: nat :: i <= j ==> env.at(i) <= env.at(j))
  }

  /** The clock does not run backwards, and walks visit the keys. */
  ghost predicate Honest(s: Loop, step: Step)
  {
    match step
    case Call(_, _, _, now, _) => s.clock <= now
    case Got(_, _, now, env) => s.clock <= now && WalksKeys(env)
    case TimerPhase(now, env) => s.clock <= now && ClockFrom(env, now) && WalksKeys(env)
    case _ => true
  }

  ghost predicate HonestRun(s: Loop, steps: seq<Step>)
    decreases |steps|
  {
    steps == [] || (Honest(s, steps[0]) && HonestRun(Next(s, steps[0]), steps[1..]))
  }

  // ---------------------------------------------------------------- the invariant

  /** `t` is the only timer of its kind. */
  ghost predicate Sole(m: multiset<Timer>, t: Timer)
  {
    m[t] == 1 && forall u :: u in m && u.kind == t.kind ==> u == t
  }

  ghost predicate Regular(k: TimerKind) { k != Punch }

  /** Each of the four self-rearming timers is armed exactly once. */
  ghost predicate WheelOk(m: multiset<Timer>)
  {
    forall k | Regular(k) :: exists t: Timer :: t.kind == k && Sole(m, t)
  }

  ghost predicate PendingOk(s: Loop, tick: nat)
  {
    && tick <= s.clock + TICK
    && |s.calls| == s.shard.started
    && (forall k :: k in s.shard.lookups ==>
                      var p := s.shard.lookups[k];
                      && p.tx < |s.calls|
                      && p.lookup.started == s.calls[p.tx] && p.lookup.budget == BUDGET
                      && tick < s.calls[p.tx] + BUDGET + TICK)
  }

  /** The pending lookups are younger than their budget at the last tick; `m` holds the next one. */
  ghost predicate CallsOk(s: Loop, m: multiset<Timer>)
  {
    exists t: Timer :: t.kind == LookupTick && Sole(m, t) && PendingOk(s, t.at)
  }

  /** A punch timer is armed no later than one window after `due`. */
  ghost predicate Covered(m: multiset<Timer>, due: nat)
  {
    exists t :: t in m && t.kind == Punch && t.at <= due + WINDOW
  }

  /** For every attempt a punch timer is armed no later than one window after its deadline. */
  ghost predicate PunchesOk(p: PunchState, m: multiset<Timer>)
  {
    && PunchInv(p)
    && forall id :: id in p.punches ==> id in p.due && Covered(m, p.due[id])
  }

  /** `m` is the wheel together with timers taken off it but not yet handled. */
  ghost predicate InvWith(s: Loop, m: multiset<Timer>)
  {
    WheelOk(m) && CallsOk(s, m) && PunchesOk(s.punch, m)
  }

  ghost predicate Inv(s: Loop)
  {
    InvWith(s, s.wheel)
  }

  // ---------------------------------------------------------------- lookups: what a sweep does

  lemma {:induction false} SendKeepsAge(l: LookupState, batch: seq<PeerInfo>, i: nat, corrs: nat -> nat, now: nat)
    requires i <= |batch|
    ensures var l' := SendFrom(l, batch, i, corrs, now); l'.started == l.started && l'.budget == l.budget && l'.done == l.done
    decreases |batch| - i
  {
    Once.SendKeepsDone(l, batch, i, corrs, now);
  }

  /** The lookups left after serving are old ones, of the same age and for the same caller. */
  ghost predicate Carries(s: Shard, t: Shard)
  {
    && t.started == s.started
    && (forall k :: k in t.lookups ==>
                      && k in s.lookups && t.lookups[k].tx == s.lookups[k].tx
                      && t.lookups[k].lookup.started == s.lookups[k].lookup.started
                      && t.lookups[k].lookup.budget == s.lookups[k].lookup.budget)
  }

  lemma ServeCarries(s: Shard, id: nat, now: nat, extra: nat -> nat)
    ensures var t := ServeOne(s, id, now, extra);
            && Carries(s, t)
            && (id in t.lookups ==> !OutOfTime(t.lookups[id].lookup, now))
            && (forall k :: k != id && k in t.lookups ==> t.lookups[k] == s.lookups[k])
  {
    if id in s.lookups {
      var l := s.lookups[id].lookup;
      SendKeepsAge(NextBatch(l, now), Batch(l, now), 0, Corrs(s.counter, Batch(l, now), extra), now);
    }
  }

  /** After a sweep over every lookup, none that is left has outlived its budget. */
  lemma {:induction false} SweepCarries(s: Shard, ids: seq<nat>, now: nat, extra: (nat, nat) -> nat)
    ensures var t := Sweep(s, ids, now, extra);
            && Carries(s, t)
            && (forall k :: k in ids && k in t.lookups ==> !OutOfTime(t.lookups[k].lookup, now))
  {
    if ids != [] {
      var n := |ids| - 1;
      var mid := Sweep(s, ids[..n], now, extra);
      SweepCarries(s, ids[..n], now, extra);
      ServeCarries(mid, ids[n], now, (i: nat) => extra(ids[n], i));
      assert ids == ids[..n] + [ids[n]];
    }
  }

  lemma CarriesIsTransitive(s: Shard, t: Shard, u: Shard)
    requires Carries(s, t) && Carries(t, u)
    ensures Carries(s, u)
  {
  }

  /** Steps that only carry lookups over keep `PendingOk` as the clock advances. */
  lemma CarriedStaysOk(s: Loop, t: Shard, tick: nat, now: nat)
    requires PendingOk(s, tick) && Carries(s.shard, t) && s.clock <= now
    ensures PendingOk(s.(shard := t, clock := now), tick)
  {
  }

  lemma RespondCarries(s: Shard, hit: Option<nat>, r: Response)
    ensures Carries(s, Respond(s, hit, r))
  {
  }

  // ---------------------------------------------------------------- timers: replacing one

  lemma SoleElsewhere(m: multiset<Timer>, t: Timer, out: multiset<Timer>, into: multiset<Timer>)
    requires Sole(m, t)
    requires forall u :: u in out || u in into ==> u.kind != t.kind
    ensures Sole(m - out + into, t)
  {
    var m' := m - out + into;
    assert out[t] == 0 && into[t] == 0;
    forall u | u in m' && u.kind == t.kind ensures u == t {
      assert u in m || u in into;
    }
  }

  lemma SoleReplaced(m: multiset<Timer>, t: Timer, t': Timer)
    requires Sole(m, t) && t'.kind == t.kind
    ensures Sole(m - multiset{t} + multiset{t'}, t')
  {
    var m' := m - multiset{t} + multiset{t'};
    assert t !in m - multiset{t};
    forall u | u in m' && u.kind == t'.kind ensures u == t' {
      assert u in m - multiset{t} || u == t';
    }
    assert t' !in m - multiset{t};
  }

  /** Swapping a regular timer for its successor, or punch timers for others, keeps the wheel. */
  lemma RearmKeepsWheel(m: multiset<Timer>, t: Timer, t': Timer)
    requires WheelOk(m) && t in m && t'.kind == t.kind && Regular(t.kind)
    ensures WheelOk(m - multiset{t} + multiset{t'})
  {
    var m' := m - multiset{t} + multiset{t'};
    forall k | Regular(k) ensures exists u: Timer :: u.kind == k && Sole(m', u) {
      var u: Timer :| u.kind == k && Sole(m, u);
      if k == t.kind {
        SoleReplaced(m, t, t');
      } else {
        SoleElsewhere(m, u, multiset{t}, multiset{t'});
      }
    }
  }

  ghost predicate AllPunch(m: multiset<Timer>)
  {
    forall t :: t in m ==> t.kind == Punch
  }

  lemma PunchTimersKeepWheel(m: multiset<Timer>, out: multiset<Timer>, into: multiset<Timer>)
    requires WheelOk(m) && AllPunch(out) && AllPunch(into)
    ensures WheelOk(m - out + into)
  {
    forall k | Regular(k) ensures exists u: Timer :: u.kind == k && Sole(m - out + into, u) {
      var u: Timer :| u.kind == k && Sole(m, u);
      SoleElsewhere(m, u, out, into);
    }
  }

  lemma PunchTimersKeepCalls(s: Loop, m: multiset<Timer>, out: multiset<Timer>, into: multiset<Timer>)
    requires CallsOk(s, m) && AllPunch(out) && AllPunch(into)
    ensures CallsOk(s, m - out + into)
  {
    var t: Timer :| t.kind == LookupTick && Sole(m, t) && PendingOk(s, t.at);
    SoleElsewhere(m, t, out, into);
  }

  /** Punch deadlines survive any change that leaves the punch timers alone. */
  lemma PunchesUnaffected(p: PunchState, m: multiset<Timer>, t: Timer, t': Timer)
    requires PunchesOk(p, m) && Regular(t.kind)
    ensures PunchesOk(p, m - multiset{t} + multiset{t'})
  {
    var m' := m - multiset{t} + multiset{t'};
    forall id | id in p.punches ensures Covered(m', p.due[id]) {
      var u :| u in m && u.kind == Punch && u.at <= p.due[id] + WINDOW;
      assert u != t && u in m';
    }
  }

  // ---------------------------------------------------------------- handling one timer

  lemma OtherTimerKeepsCalls(s: Loop, s': Loop, m: multiset<Timer>, t: Timer, t': Timer, now: nat)
    requires CallsOk(s, m) && t.kind != LookupTick && t'.kind == t.kind
    requires s'.calls == s.calls && s'.clock == now >= s.clock
    requires s'.shard.lookups == s.shard.lookups && s'.shard.started == s.shard.started
    ensures CallsOk(s', m - multiset{t} + multiset{t'})
  {
    var u: Timer :| u.kind == LookupTick && Sole(m, u) && PendingOk(s, u.at);
    SoleElsewhere(m, u, multiset{t}, multiset{t'});
    assert PendingOk(s', u.at);
  }

  /** A tick at `now` answers every lookup past its budget and arms the next tick. */
  lemma TickKeepsCalls(s: Loop, m: multiset<Timer>, t: Timer, now: nat, env: Env)
    requires CallsOk(s, m) && t in m && t.kind == LookupTick && s.clock <= now && WalksKeys(env)
    ensures CallsOk(OnTimer(s, LookupTick, now, env).(clock := now), m - multiset{t} + multiset{Timer(now + TICK, LookupTick)})
  {
    var u: Timer :| u.kind == LookupTick && Sole(m, u) && PendingOk(s, u.at);
    var t' := Timer(now + TICK, LookupTick);
    SoleReplaced(m, t, t');
    var mid := ExpireAll(s.shard, now);
    assert Carries(s.shard, mid);
    SweepCarries(mid, env.order(mid.lookups.Keys), now, env.extra);
    var s' := OnTimer(s, LookupTick, now, env).(clock := now);
    CarriesIsTransitive(s.shard, mid, s'.shard);
    forall k | k in s'.shard.lookups
      ensures var p := s'.shard.lookups[k];
              && p.tx < |s.calls| && p.lookup.started == s.calls[p.tx] && p.lookup.budget == BUDGET
              && t'.at < s.calls[p.tx] + BUDGET + TICK
    {
      assert k in mid.lookups.Keys && k in env.order(mid.lookups.Keys);
      assert !OutOfTime(s'.shard.lookups[k].lookup, now);
    }
    assert PendingOk(s', t'.at);
  }

  /** A punch tick leaves only attempts whose deadline is still ahead, and rearms if any is left. */
  lemma PunchTickKeepsPunches(s: Loop, m: multiset<Timer>, t: Timer, now: nat, env: Env)
    requires PunchesOk(s.punch, m) && t.kind == Punch && WalksKeys(env)
    ensures var ids := env.punchOrder(s.punch.punches.Keys);
            PunchesOk(Tick(s.punch, ids, now, env.tick),
                      m - multiset{t} + (if Again(s.punch, ids, now, env.tick) then multiset{Timer(now + WINDOW, Punch)} else multiset{}))
  {
    var ids := env.punchOrder(s.punch.punches.Keys);
    TickResolves(s.punch, ids, now, env.tick);
    var p := Tick(s.punch, ids, now, env.tick);
    var m' := m - multiset{t} + (if Again(s.punch, ids, now, env.tick) then multiset{Timer(now + WINDOW, Punch)} else multiset{});
    forall id | id in p.punches ensures id in p.due && Covered(m', p.due[id]) {
      assert id in s.punch.punches.Keys && id in ids;
      assert Timer(now + WINDOW, Punch) in m';
    }
  }

  lemma LaterClockKeepsCalls(s: Loop, s': Loop, m: multiset<Timer>)
    requires CallsOk(s, m) && s'.calls == s.calls && s.clock <= s'.clock && s'.shard == s.shard
    ensures CallsOk(s', m)
  {
    var u: Timer :| u.kind == LookupTick && Sole(m, u) && PendingOk(s, u.at);
    assert PendingOk(s', u.at);
  }

  /** The timers a handled timer puts in its place. */
  function Rearmed(s: Loop, kind: TimerKind, now: nat, env: Env): multiset<Timer>
  {
    if kind == Punch && !Again(s.punch, env.punchOrder(s.punch.punches.Keys), now, env.tick) then multiset{}
    else multiset{Timer(now + Period(kind), kind)}
  }

  lemma PunchTimerKeepsInv(s: Loop, m: multiset<Timer>, t: Timer, now: nat, env: Env)
    requires InvWith(s, m) && s.clock <= now && WalksKeys(env) && t.kind == Punch
    ensures InvWith(OnTimer(s, t.kind, now, env).(clock := now), m - multiset{t} + Rearmed(s, t.kind, now, env))
  {
    var into := Rearmed(s, t.kind, now, env);
    PunchTimersKeepWheel(m, multiset{t}, into);
    PunchTimersKeepCalls(s, m, multiset{t}, into);
    LaterClockKeepsCalls(s, OnTimer(s, t.kind, now, env).(clock := now), m - multiset{t} + into);
    PunchTickKeepsPunches(s, m, t, now, env);
  }

  lemma RegularTimerKeepsInv(s: Loop, m: multiset<Timer>, t: Timer, now: nat, env: Env)
    requires InvWith(s, m) && t in m && s.clock <= now && WalksKeys(env) && Regular(t.kind)
    ensures InvWith(OnTimer(s, t.kind, now, env).(clock := now), m - multiset{t} + Rearmed(s, t.kind, now, env))
  {
    var t' := Timer(now + Period(t.kind), t.kind);
    var s' := OnTimer(s, t.kind, now, env).(clock := now);
    assert Rearmed(s, t.kind, now, env) == multiset{t'};
    assert s'.punch == s.punch;
    RearmKeepsWheel(m, t, t');
    PunchesUnaffected(s.punch, m, t, t');
    RegularTimerKeepsCalls(s, m, t, now, env);
  }

  lemma RegularTimerKeepsCalls(s: Loop, m: multiset<Timer>, t: Timer, now: nat, env: Env)
    requires CallsOk(s, m) && t in m && s.clock <= now && WalksKeys(env) && Regular(t.kind)
    ensures CallsOk(OnTimer(s, t.kind, now, env).(clock := now), m - multiset{t} + multiset{Timer(now + Period(t.kind), t.kind)})
  {
    if t.kind == LookupTick {
      TickKeepsCalls(s, m, t, now, env);
    } else {
      OtherTimerKeepsCalls(s, OnTimer(s, t.kind, now, env).(clock := now), m, t, Timer(now + Period(t.kind), t.kind), now);
    }
  }

  lemma RearmedWheel(s: Loop, m: multiset<Timer>, rest: multiset<Timer>, t: Timer, now: nat, env: Env)
    requires m == s.wheel + rest + multiset{t}
    ensures m - multiset{t} + Rearmed(s, t.kind, now, env) == OnTimer(s, t.kind, now, env).wheel + rest
  {
    assert m - multiset{t} == s.wheel + rest;
    assert OnTimer(s, t.kind, now, env).wheel == s.wheel + Rearmed(s, t.kind, now, env);
  }

  lemma HandleOne(s: Loop, m: multiset<Timer>, rest: multiset<Timer>, t: Timer, now: nat, env: Env)
    requires m == s.wheel + rest + multiset{t} && InvWith(s, m) && s.clock <= now && WalksKeys(env)
    ensures var s' := OnTimer(s, t.kind, now, env).(clock := now); InvWith(s', s'.wheel + rest)
  {
    RearmedWheel(s, m, rest, t, now, env);
    if t.kind == Punch {
      PunchTimerKeepsInv(s, m, t, now, env);
    } else {
      RegularTimerKeepsInv(s, m, t, now, env);
    }
  }

  lemma ArmsOnlyLater(s: Loop, kind: TimerKind, now: nat, env: Env)
    ensures forall u :: u in OnTimer(s, kind, now, env).wheel ==> u in s.wheel || u.at > now
  {
    var t := Timer(now + Period(kind), kind);
    assert OnTimer(s, kind, now, env).wheel <= s.wheel + multiset{t};
  }

  lemma InHand(wheel: multiset<Timer>, due: seq<Timer>, n: nat)
    requires 0 < n <= |due|
    ensures wheel + multiset(due[n - 1..]) == wheel + multiset(due[n..]) + multiset{due[n - 1]}
  {
    assert due[n - 1..] == [due[n - 1]] + due[n..];
  }

  lemma FireClock(s: Loop, due: seq<Timer>, n: nat, now: nat, env: Env)
    requires n <= |due| && s.clock <= now && ClockFrom(env, now)
    ensures Fire(s, due, n, env).clock <= env.at(n)
  {
    assert now <= env.at(n);
    if n > 0 {
      assert env.at(n - 1) <= env.at(n);
    }
  }

  lemma {:induction false} FireArmsLater(s: Loop, due: seq<Timer>, n: nat, now: nat, env: Env)
    requires n <= |due| && ClockFrom(env, now)
    requires forall t :: t in s.wheel ==> t.at > now
    ensures forall t :: t in Fire(s, due, n, env).wheel ==> t.at > now
  {
    if n > 0 {
      FireArmsLater(s, due, n - 1, now, env);
      assert now <= env.at(n - 1);
      ArmsOnlyLater(Fire(s, due, n - 1, env), due[n - 1].kind, env.at(n - 1), env);
    }
  }

  lemma FireOneMore(s: Loop, due: seq<Timer>, n: nat, now: nat, env: Env)
    requires 0 < n <= |due| && InvWith(s, s.wheel + multiset(due[n - 1..])) && s.clock <= now && WalksKeys(env)
    ensures var s' := OnTimer(s, due[n - 1].kind, now, env).(clock := now); InvWith(s', s'.wheel + multiset(due[n..]))
  {
    InHand(s.wheel, due, n);
    HandleOne(s, s.wheel + multiset(due[n - 1..]), multiset(due[n..]), due[n - 1], now, env);
  }

  /** Handling the due timers keeps the invariant over the wheel and the timers still in hand. */
  lemma {:induction false} FireKeepsInv(s: Loop, due: seq<Timer>, n: nat, now: nat, env: Env)
    requires n <= |due| && InvWith(s, s.wheel + multiset(due))
    requires s.clock <= now && ClockFrom(env, now) && WalksKeys(env)
    ensures var s' := Fire(s, due, n, env); InvWith(s', s'.wheel + multiset(due[n..]))
  {
    if n == 0 {
      assert due[0..] == due;
    } else {
      FireClock(s, due, n - 1, now, env);
      FireKeepsInv(s, due, n - 1, now, env);
      FireOneMore(Fire(s, due, n - 1, env), due, n, env.at(n - 1), env);
    }
  }

  // ---------------------------------------------------------------- handlers

  lemma CallKeepsInv(s: Loop, step: Step)
    requires Inv(s) && Honest(s, step) && step.Call?
    ensures Inv(Next(s, step))
  {
    var s' := Next(s, step);
    var t: Timer :| t.kind == LookupTick && Sole(s.wheel, t) && PendingOk(s, t.at);
    var l0 := New(step.kind, step.target, step.seeds, step.now);
    SendKeepsAge(NextBatch(l0, step.now), Batch(l0, step.now), 0, Corrs(s.shard.counter, Batch(l0, step.now), step.spare), step.now);
    assert PendingOk(s', t.at);
  }

  lemma GotKeepsInv(s: Loop, step: Step)
    requires Inv(s) && Honest(s, step) && step.Got?
    ensures Inv(Next(s, step))
  {
    var s' := Next(s, step);
    var t: Timer :| t.kind == LookupTick && Sole(s.wheel, t) && PendingOk(s, t.at);
    var mid := Respond(s.shard, step.hit, step.r);
    RespondCarries(s.shard, step.hit, step.r);
    SweepCarries(mid, step.env.order(mid.lookups.Keys), step.now, step.env.extra);
    CarriesIsTransitive(s.shard, mid, s'.shard);
    CarriedStaysOk(s, s'.shard, t.at, step.now);
    assert PendingOk(s', t.at);
  }

  lemma PunchedKeepsPunches(p: PunchState, step: PunchStep, m: multiset<Timer>)
    requires PunchesOk(p, m)
    ensures PunchesOk(AfterPunchStep(p, step), m + PunchTimer(p, step))
  {
    var p' := AfterPunchStep(p, step);
    PunchStepKeepsInv(p, step);
    var m' := m + PunchTimer(p, step);
    forall id | id in p'.punches ensures id in p'.due && Covered(m', p'.due[id]) {
      if id in p.punches && p'.due[id] == p.due[id] {
        var u :| u in m && u.kind == Punch && u.at <= p.due[id] + WINDOW;
        assert u in m';
      } else {
        assert Timer(step.now + WINDOW, Punch) in m';
      }
    }
  }

  lemma PunchedKeepsInv(s: Loop, step: Step)
    requires Inv(s) && step.Punched?
    ensures Inv(Next(s, step))
  {
    var into := PunchTimer(s.punch, step.p);
    var s' := Next(s, step);
    var none: multiset<Timer> := multiset{};
    assert s.wheel - none + into == s'.wheel;
    PunchTimersKeepWheel(s.wheel, none, into);
    PunchTimersKeepCalls(s, s.wheel, none, into);
    LaterClockKeepsCalls(s, s', s'.wheel);
    PunchedKeepsPunches(s.punch, step.p, s.wheel);
  }

  /** At a loop boundary at `now` nothing on the wheel is due. */
  lemma TimerPhaseKeepsInv(s: Loop, step: Step)
    requires Inv(s) && Honest(s, step) && step.TimerPhase?
    ensures Inv(Next(s, step))
    ensures forall t :: t in Next(s, step).wheel ==> t.at > step.now
  {
    var due := Due(s.wheel, step.now);
    DueIsExact(s.wheel, step.now);
    var s0 := s.(wheel := Later(s.wheel, step.now));
    assert s0.wheel + multiset(due) == s.wheel;
    LaterClockKeepsCalls(s, s0, s.wheel);
    FireKeepsInv(s0, due, |due|, step.now, step.env);
    FireArmsLater(s0, due, |due|, step.now, step.env);
    assert due[|due|..] == [];
    var s' := Next(s, step);
    assert s'.wheel + multiset(due[|due|..]) == s'.wheel;
  }

  lemma NextKeepsInv(s: Loop, step: Step)
    requires Inv(s) && Honest(s, step)
    ensures Inv(Next(s, step))
  {
    match step
    case Call(_, _, _, _, _) => CallKeepsInv(s, step);
    case Got(_, _, _, _) => GotKeepsInv(s, step);
    case Traffic(n) =>
      var t: Timer :| t.kind == LookupTick && Sole(s.wheel, t) && PendingOk(s, t.at);
      assert PendingOk(Next(s, step), t.at);
    case Punched(_) => PunchedKeepsInv(s, step);
    case TimerPhase(_, _) => TimerPhaseKeepsInv(s, step);
  }

  lemma {:induction false} RunKeepsInv(s: Loop, steps: seq<Step>)
    requires Inv(s) && HonestRun(s, steps)
    ensures Inv(Run(s, steps))
    decreases |steps|
  {
    if steps != [] {
      NextKeepsInv(s, steps[0]);
      RunKeepsInv(Next(s, steps[0]), steps[1..]);
    }
  }

  lemma BootHasInv(self: Id, now: nat)
    ensures Inv(Boot(self, now))
  {
    var s := Boot(self, now);
    assert Sole(s.wheel, Timer(now + KEEPALIVE, Keepalive));
    assert Sole(s.wheel, Timer(now + FLUSH_EVERY, PeerstoreFlush));
    assert Sole(s.wheel, Timer(now + GC_EVERY, Gc));
    var t := Timer(now + TICK, LookupTick);
    assert Sole(s.wheel, t) && PendingOk(s, t.at);
    forall k | Regular(k) ensures exists u: Timer :: u.kind == k && Sole(s.wheel, u) {
      assert Sole(s.wheel, Timer(now + Period(k), k));
    }
  }

  // ---------------------------------------------------------------- results

  /** After every step of every run each self-rearming timer is armed exactly once. */
  lemma TimersStayArmed(self: Id, boot: nat, steps: seq<Step>, kind: TimerKind)
    requires HonestRun(Boot(self, boot), steps) && kind != Punch
    ensures exists t: Timer :: t.kind == kind && Sole(Run(Boot(self, boot), steps).wheel, t)
  {
    BootHasInv(self, boot);
    RunKeepsInv(Boot(self, boot), steps);
    assert Regular(kind);
  }

  /** Handling a lookup tick at `now` leaves no request older than 400 ms in flight. */
  lemma TickExpires(s: Loop, now: nat, env: Env, k: nat)
    requires k in OnTimer(s, LookupTick, now, env).shard.lookups
    ensures forall f :: f in OnTimer(s, LookupTick, now, env).shard.lookups[k].lookup.inFlight ==> Since(now, f.sentAt) <= 400 * MS
  {
    var ids := env.order(ExpireAll(s.shard, now).lookups.Keys);
    A.TickLeavesYoung(s.shard, ids, now, env.extra);
    assert A.AllYoung(OnTimer(s, LookupTick, now, env).shard.lookups[k].lookup.inFlight, now);
  }

  /** No regular timer is armed further ahead than its period. */
  ghost predicate OnSchedule(s: Loop)
  {
    forall t :: t in s.wheel && Regular(t.kind) ==> t.at <= s.clock + Period(t.kind)
  }

  lemma OnTimerOnSchedule(s: Loop, kind: TimerKind, now: nat, env: Env)
    requires OnSchedule(s) && s.clock <= now
    ensures OnSchedule(OnTimer(s, kind, now, env).(clock := now))
  {
    var s' := OnTimer(s, kind, now, env).(clock := now);
    forall t | t in s'.wheel && Regular(t.kind) ensures t.at <= now + Period(t.kind) {
      assert t in s.wheel || t == Timer(now + Period(kind), kind);
    }
  }

  lemma {:induction false} FireOnSchedule(s: Loop, due: seq<Timer>, n: nat, now: nat, env: Env)
    requires n <= |due| && OnSchedule(s) && s.clock <= now && ClockFrom(env, now)
    ensures OnSchedule(Fire(s, due, n, env))
  {
    if n > 0 {
      var mid, kind, at := Fire(s, due, n - 1, env), due[n - 1].kind, env.at(n - 1);
      assert mid.clock <= at by { FireClock(s, due, n - 1, now, env); }
      FireOnSchedule(s, due, n - 1, now, env);
      assert OnSchedule(OnTimer(mid, kind, at, env).(clock := at)) by { OnTimerOnSchedule(mid, kind, at, env); }
      assert Fire(s, due, n, env) == OnTimer(mid, kind, at, env).(clock := at);
    }
  }

  lemma NextOnSchedule(s: Loop, step: Step)
    requires OnSchedule(s) && Honest(s, step)
    ensures OnSchedule(Next(s, step))
  {
    match step
    case TimerPhase(now, env) =>
      var due := Due(s.wheel, now);
      DueIsExact(s.wheel, now);
      var s0 := s.(wheel := Later(s.wheel, now));
      assert forall t :: t in s0.wheel ==> t in s.wheel;
      FireOnSchedule(s0, due, |due|, now, env);
    case Punched(p) =>
      forall t | t in Next(s, step).wheel && Regular(t.kind) ensures t in s.wheel {
        assert t in s.wheel || t in PunchTimer(s.punch, p);
      }
    case _ =>
  }

  lemma {:induction false} RunOnSchedule(s: Loop, steps: seq<Step>)
    requires OnSchedule(s) && HonestRun(s, steps)
    ensures OnSchedule(Run(s, steps))
    decreases |steps|
  {
    if steps != [] {
      NextOnSchedule(s, steps[0]);
      RunOnSchedule(Next(s, steps[0]), steps[1..]);
    }
  }

  /** After every step of every run the next keepalive is at most 20 s away, the next flush of the stores at
      most 100 ms, the next collection at most 30 s and the next lookup tick at most 50 ms. */
  lemma TimersFireOnSchedule(self: Id, boot: nat, steps: seq<Step>, kind: TimerKind)
    requires HonestRun(Boot(self, boot), steps) && kind != Punch
    ensures var s := Run(Boot(self, boot), steps);
            exists t: Timer :: t.kind == kind && Sole(s.wheel, t) && t.at <= s.clock + Interval(kind)
  {
    TimersStayArmed(self, boot, steps, kind);
    BootOnSchedule(self, boot);
    RunOnSchedule(Boot(self, boot), steps);
    SoleOnSchedule(Run(Boot(self, boot), steps), kind);
  }

  lemma BootOnSchedule(self: Id, now: nat)
    ensures OnSchedule(Boot(self, now))
  {
  }

  lemma SoleOnSchedule(s: Loop, kind: TimerKind)
    requires OnSchedule(s) && kind != Punch && exists t: Timer :: t.kind == kind && Sole(s.wheel, t)
    ensures exists t: Timer :: t.kind == kind && Sole(s.wheel, t) && t.at <= s.clock + Interval(kind)
  {
    var t: Timer :| t.kind == kind && Sole(s.wheel, t);
    assert t in s.wheel && Regular(t.kind) && Period(kind) == Interval(kind);
  }

  /** The intervals the node promises, in milliseconds. */
  function Interval(kind: TimerKind): nat
  {
    MS * (match kind case Keepalive => 20_000 case PeerstoreFlush => 100 case Gc => 30_000 case LookupTick => 50 case Punch => 250)
  }

  /** A punch attempt alive at a loop boundary at `now` has its deadline less than one window in the
      past, has a timer to come, and has originated at most two Punch messages. */
  lemma PunchesResolve(self: Id, boot: nat, steps: seq<Step>, now: nat, env: Env, id: Id)
    requires HonestRun(Boot(self, boot), steps)
    requires Honest(Run(Boot(self, boot), steps), TimerPhase(now, env))
    requires id in Next(Run(Boot(self, boot), steps), TimerPhase(now, env)).punch.punches
    ensures var s := Next(Run(Boot(self, boot), steps), TimerPhase(now, env));
            && id in s.punch.due && now < s.punch.due[id] + WINDOW
            && (exists t :: t in s.wheel && t.kind == Punch)
            && id in s.punch.messages && s.punch.messages[id] <= 2
  {
    BootHasInv(self, boot);
    RunKeepsInv(Boot(self, boot), steps);
    TimerPhaseKeepsInv(Run(Boot(self, boot), steps), TimerPhase(now, env));
    var s := Next(Run(Boot(self, boot), steps), TimerPhase(now, env));
    assert AttemptInv(s.punch, id) && Covered(s.wheel, s.punch.due[id]);
    var t :| t in s.wheel && t.kind == Punch && t.at <= s.punch.due[id] + WINDOW;
  }

  /** In every punch handler the burst reads the clock at most 500 ms after the handler did. */
  ghost predicate PromptRun(steps: seq<Step>)
  {
    forall i :: 0 <= i < |steps| && steps[i].Punched? ==> Prompt(steps[i].p)
  }

  lemma {:induction false} FireStaysOnTime(s: Loop, due: seq<Timer>, n: nat, env: Env)
    requires n <= |due| && PunchInv(s.punch) && OnTime(s.punch)
    ensures PunchInv(Fire(s, due, n, env).punch) && OnTime(Fire(s, due, n, env).punch)
  {
    if n > 0 {
      FireStaysOnTime(s, due, n - 1, env);
      var mid := Fire(s, due, n - 1, env);
      var ids := env.punchOrder(mid.punch.punches.Keys);
      TickResolves(mid.punch, ids, env.at(n - 1), env.tick);
      TickStaysOnTime(mid.punch, ids, env.at(n - 1), env.tick);
    }
  }

  lemma NextStaysOnTime(s: Loop, step: Step)
    requires PunchInv(s.punch) && OnTime(s.punch) && (step.Punched? ==> Prompt(step.p))
    ensures PunchInv(Next(s, step).punch) && OnTime(Next(s, step).punch)
  {
    if step.Punched? {
      PunchStepKeepsInv(s.punch, step.p);
      PromptStepStaysOnTime(s.punch, step.p);
    } else if step.TimerPhase? {
      var due := Due(s.wheel, step.now);
      FireStaysOnTime(s.(wheel := Later(s.wheel, step.now)), due, |due|, step.env);
    }
  }

  lemma {:induction false} RunStaysOnTime(s: Loop, steps: seq<Step>)
    requires PunchInv(s.punch) && OnTime(s.punch) && PromptRun(steps)
    ensures PunchInv(Run(s, steps).punch) && OnTime(Run(s, steps).punch)
    decreases |steps|
  {
    if steps != [] {
      NextStaysOnTime(s, steps[0]);
      assert forall i :: 0 <= i < |steps| - 1 ==> steps[1..][i] == steps[i + 1];
      RunStaysOnTime(Next(s, steps[0]), steps[1..]);
    }
  }

  /** With prompt handlers the deadline is the relay time: an attempt alive at a loop boundary is less
      than 250 ms past it. */
  lemma PunchesResolveInTime(self: Id, boot: nat, steps: seq<Step>, now: nat, env: Env, id: Id)
    requires HonestRun(Boot(self, boot), steps) && PromptRun(steps)
    requires Honest(Run(Boot(self, boot), steps), TimerPhase(now, env))
    requires id in Next(Run(Boot(self, boot), steps), TimerPhase(now, env)).punch.punches
    ensures now < Next(Run(Boot(self, boot), steps), TimerPhase(now, env)).punch.punches[id].relayAt + WINDOW
  {
    PunchesResolve(self, boot, steps, now, env, id);
    RunStaysOnTime(Boot(self, boot), steps);
    NextStaysOnTime(Run(Boot(self, boot), steps), TimerPhase(now, env));
  }

  // ---------------------------------------------------------------- replies within the loop

  lemma OnTimerOnce(s: Loop, kind: TimerKind, now: nat, env: Env)
    ensures s.shard.counter.used <= OnTimer(s, kind, now, env).shard.counter.used
    ensures Once.Inv(s.shard) && OnTimer(s, kind, now, env).shard.counter.used + 1 < WORD
            ==> Once.Inv(OnTimer(s, kind, now, env).shard)
  {
    var s' := OnTimer(s, kind, now, env);
    if kind == Keepalive {
      Once.NextUses(s.shard, Once.Other(env.pings));
      if Once.Inv(s.shard) && s'.shard.counter.used + 1 < WORD {
        Once.NextKeepsInv(s.shard, Once.Other(env.pings));
      }
    } else if kind == LookupTick {
      var mid := ExpireAll(s.shard, now);
      var sweep := Once.SweepNow(env.order(mid.lookups.Keys), now, env.extra);
      Once.NextUses(mid, sweep);
      if Once.Inv(s.shard) && s'.shard.counter.used + 1 < WORD {
        Once.NextKeepsInv(s.shard, Once.Expire(now));
        Once.NextKeepsInv(mid, sweep);
      }
    }
  }

  lemma {:induction false} FireOnce(s: Loop, due: seq<Timer>, n: nat, env: Env)
    requires n <= |due|
    ensures s.shard.counter.used <= Fire(s, due, n, env).shard.counter.used
    ensures Once.Inv(s.shard) && Fire(s, due, n, env).shard.counter.used + 1 < WORD
            ==> Once.Inv(Fire(s, due, n, env).shard)
  {
    if n > 0 {
      FireOnce(s, due, n - 1, env);
      OnTimerOnce(Fire(s, due, n - 1, env), due[n - 1].kind, env.at(n - 1), env);
    }
  }

  lemma NextOnce(s: Loop, step: Step)
    ensures s.shard.counter.used <= Next(s, step).shard.counter.used
    ensures Once.Inv(s.shard) && Next(s, step).shard.counter.used + 1 < WORD ==> Once.Inv(Next(s, step).shard)
  {
    var ok := Once.Inv(s.shard) && Next(s, step).shard.counter.used + 1 < WORD;
    match step
    case Call(kind, target, seeds, now, spare) =>
      var call := Once.Call(kind, target, seeds, now, spare);
      Once.NextUses(s.shard, call);
      if ok {
        Once.NextKeepsInv(s.shard, call);
      }
    case Got(hit, r, now, env) =>
      var mid := Respond(s.shard, hit, r);
      var sweep := Once.SweepNow(env.order(mid.lookups.Keys), now, env.extra);
      Once.NextUses(mid, sweep);
      if ok {
        Once.NextKeepsInv(s.shard, Once.Got(hit, r));
        Once.NextKeepsInv(mid, sweep);
      }
    case Traffic(n) =>
      Once.NextUses(s.shard, Once.Other(n));
      if ok {
        Once.NextKeepsInv(s.shard, Once.Other(n));
      }
    case Punched(_) =>
    case TimerPhase(now, env) =>
      var due := Due(s.wheel, now);
      FireOnce(s.(wheel := Later(s.wheel, now)), due, |due|, env);
  }

  lemma {:induction false} RunOnce(s: Loop, steps: seq<Step>)
    ensures s.shard.counter.used <= Run(s, steps).shard.counter.used
    ensures Once.Inv(s.shard) && Run(s, steps).shard.counter.used + 1 < WORD ==> Once.Inv(Run(s, steps).shard)
    decreases |steps|
  {
    if steps != [] {
      NextOnce(s, steps[0]);
      RunOnce(Next(s, steps[0]), steps[1..]);
    }
  }

  /** Every lookup call has been answered exactly once by the first loop boundary that is 1550 ms or
      more after it: the 1500 ms budget plus one tick. */
  lemma EveryCallAnsweredInTime(self: Id, boot: nat, steps: seq<Step>, now: nat, env: Env, tx: nat)
    requires HonestRun(Boot(self, boot), steps)
    requires Honest(Run(Boot(self, boot), steps), TimerPhase(now, env))
    requires var s := Next(Run(Boot(self, boot), steps), TimerPhase(now, env));
             && s.shard.counter.used + 1 < WORD
             && tx < |s.calls| && s.calls[tx] + BUDGET + TICK <= now
    ensures var s := Next(Run(Boot(self, boot), steps), TimerPhase(now, env));
            Once.Replies(s.shard.answers, tx) == 1 && Once.Waiting(s.shard.lookups, tx) == 0
  {
    BootHasInv(self, boot);
    Once.IdleHasInv();
    var s0, step := Run(Boot(self, boot), steps), TimerPhase(now, env);
    var s := Next(s0, step);
    RunKeepsInv(Boot(self, boot), steps);
    TimerPhaseKeepsInv(s0, step);
    RunOnce(Boot(self, boot), steps);
    NextOnce(s0, step);
    assert Once.ExactlyOnce(s.shard, tx);
    var t: Timer :| t.kind == LookupTick && Sole(s.wheel, t) && PendingOk(s, t.at);
    assert t in s.wheel;
    assert Once.Owing(s.shard.lookups, tx) == {};
  }
}
