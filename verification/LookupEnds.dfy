/** When a lookup ends without the clock, from any seeds: if each of its requests is answered or times
    out and it keeps being served, it runs out of peers or of progress after a bounded number of turns.
    Only a front of peers without an address can keep it from ending. */
module LookupEnds {
  import opened Xor
  import opened Peers
  import opened Lookups
  import opened LookupRuns
  import opened LookupSeeds

  /** How many steps of a run settle a request (or deliver the record). Dispatches, idle ticks and
      responses nobody waits for may stand anywhere between them. */
  function SettlingSteps(w: World, steps: seq<Step>): nat
    decreases |steps|
  {
    if steps == [] then 0 else Bit(Settles(w.l, steps[0])) + SettlingSteps(Next(w, steps[0]), steps[1..])
  }

  // ---------------------------------------------------------------- requests and settlements balance

  /** Every request sent is in flight or settled. */
  ghost predicate Balanced(w: World)
  {
    Sized(w.l) && |w.sent| == w.settled + |w.l.inFlight|
  }

  lemma {:induction false} WithoutShrinks(fs: seq<Flight>, id: Id)
    ensures |Without(fs, id)| <= |fs|
    ensures InFlight(fs, id) ==> |Without(fs, id)| < |fs|
  {
    if fs != [] {
      WithoutShrinks(fs[1..], id);
      assert InFlight(fs, id) && fs[0].id != id ==> InFlight(fs[1..], id) by {
        if InFlight(fs, id) && fs[0].id != id {
          var i :| 0 <= i < |fs| && fs[i].id == id;
          assert fs[1..][i - 1].id == id;
        }
      }
    }
  }

  lemma {:induction false} AliveAndDead(fs: seq<Flight>, now: nat)
    ensures |Alive(fs, now)| + |Dead(fs, now)| == |fs|
  {
    if fs != [] {
      AliveAndDead(fs[1..], now);
    }
  }

  lemma SendBalances(w: World, now: nat, corrs: nat -> nat)
    requires Balanced(w)
    ensures Balanced(Next(w, Send(now, corrs)))
  {
    var b := Batch(w.l, now);
    DispatchIs(w.l, now, corrs);
    BatchFits(w.l, now);
    FlightsAreAddressed(b, 0, corrs, now);
    assert b[0..] == b;
    assert |Flights(b, 0, corrs, now)| == |Asked(b)|;
  }

  /** A step keeps the balance, and one that settles a request counts as such. */
  lemma StepBalances(w: World, step: Step)
    requires Balanced(w)
    ensures Balanced(Next(w, step)) && w.settled <= Next(w, step).settled
    ensures Settles(w.l, step) ==> w.settled < Next(w, step).settled || (step.Record? && Next(w, step).l.done)
  {
    match step
    case Send(now, corrs) => SendBalances(w, now, corrs);
    case Expire(now) => AliveAndDead(w.l.inFlight, now);
    case Closer(from, peers, rttUs) => WithoutShrinks(w.l.inFlight, from);
    case Providers(from, more, closer) =>
      WithoutShrinks(w.l.inFlight, from);
      WithoutShrinks(Without(w.l.inFlight, from), from);
    case Record(from, rec) => WithoutShrinks(w.l.inFlight, from);
  }

  ghost predicate NoRecord(steps: seq<Step>)
  {
    forall i :: 0 <= i < |steps| ==> !steps[i].Record?
  }

  lemma {:induction false} RunSettles(w: World, steps: seq<Step>)
    requires Balanced(w)
    ensures var w' := Run(w, steps);
            && Balanced(w') && (w.l.done ==> w'.l.done) && w.settled <= w'.settled
            && (w'.settled >= w.settled + SettlingSteps(w, steps) || (w'.l.done && !NoRecord(steps)))
    decreases |steps|
  {
    if steps != [] {
      StepBalances(w, steps[0]);
      NextKeepsTarget(w, steps[0]);
      assert forall i :: 0 <= i < |steps| - 1 ==> steps[1..][i] == steps[i + 1];
      RunSettles(Next(w, steps[0]), steps[1..]);
    }
  }

  // ---------------------------------------------------------------- how many requests there can be

  lemma {:induction false} EntriesCounted(s: seq<PeerInfo>, id: Id)
    ensures Entries(s, id) <= multiset(Ids(s))[id]
    ensures id in IdSet(s) <==> multiset(Ids(s))[id] >= 1
  {
    if s != [] {
      EntriesCounted(s[1..], id);
      assert Ids(s) == [s[0].id] + Ids(s[1..]);
      IdSetCons(s);
    }
  }

  /** The peers that can be asked, each as often as the seeds list it, and once if they do not. */
  function Places(seeds: seq<PeerInfo>, pool: set<Id>): (m: multiset<Id>)
    ensures |m| == |seeds| + |pool - IdSet(seeds)|
  {
    multiset(Ids(seeds)) + multiset(pool - IdSet(seeds))
  }

  lemma SentPerPlace(kind: Kind, target: Id, seeds: seq<PeerInfo>, now: nat, steps: seq<Step>, pool: set<Id>, id: Id)
    requires IdSet(seeds) <= pool && DrawnFrom(steps, pool)
    ensures Run(Start(kind, target, seeds, now), steps).sent[id] <= 2 * Places(seeds, pool)[id]
  {
    EntriesCounted(seeds, id);
    if id in pool {
      RequestsPerEntry(kind, target, seeds, now, steps, id);
    } else {
      SortEntries(seeds, target, id);
      RunKeepsWithin(Start(kind, target, seeds, now), steps, id, 0);
    }
  }

  lemma SentInAll(kind: Kind, target: Id, seeds: seq<PeerInfo>, now: nat, steps: seq<Step>, pool: set<Id>)
    requires IdSet(seeds) <= pool && DrawnFrom(steps, pool)
    ensures |Run(Start(kind, target, seeds, now), steps).sent| <= 2 * (|seeds| + |pool - IdSet(seeds)|)
  {
    var sent, m := Run(Start(kind, target, seeds, now), steps).sent, Places(seeds, pool);
    forall id ensures sent[id] <= (m + m)[id] {
      SentPerPlace(kind, target, seeds, now, steps, pool, id);
    }
    var spare := (m + m) - sent;
    assert m + m == sent + spare;
    assert |sent + spare| == |sent| + |spare|;
  }

  // ---------------------------------------------------------------- results

  /** Requests are limited, so settling them is: without a record, no run has more settling steps than
      twice the seeds plus twice the peers reported beside them. */
  lemma SettlingStepsBounded(kind: Kind, target: Id, seeds: seq<PeerInfo>, now: nat, steps: seq<Step>, pool: set<Id>)
    requires IdSet(seeds) <= pool && DrawnFrom(steps, pool) && NoRecord(steps)
    ensures SettlingSteps(Start(kind, target, seeds, now), steps) <= 2 * (|seeds| + |pool - IdSet(seeds)|)
  {
    RunSettles(Start(kind, target, seeds, now), steps);
    SentInAll(kind, target, seeds, now, steps, pool);
  }

  /** A dispatch now would send nothing: nothing is in flight and the front peers all lack an address. */
  ghost predicate Stalled(l: LookupState, now: nat)
  {
    l.inFlight == [] && Batch(l, now) != [] && forall p :: p in Batch(l, now) ==> p.addrs == []
  }

  /** One turn: the lookup is served, not being stalled, and if requests are then outstanding, one of
      them is settled before the turn ends. Anything else may happen besides. */
  ghost predicate Turn(w: World, r: seq<Step>)
  {
    && r != [] && r[0].Send? && !Stalled(w.l, r[0].now)
    && (var sent := Next(w, r[0]); sent.l.done || sent.l.inFlight == [] || SettlingSteps(sent, r[1..]) > 0)
  }

  ghost predicate Turns(w: World, rounds: seq<seq<Step>>)
    decreases |rounds|
  {
    rounds == [] || (Turn(w, rounds[0]) && Turns(Run(w, rounds[0]), rounds[1..]))
  }

  function Flat(rounds: seq<seq<Step>>): seq<Step>
    decreases |rounds|
  {
    if rounds == [] then [] else rounds[0] + Flat(rounds[1..])
  }

  lemma {:induction false} RunAppend(w: World, a: seq<Step>, b: seq<Step>)
    ensures Run(w, a + b) == Run(Run(w, a), b)
    decreases |a|
  {
    if a == [] {
      assert a + b == b;
    } else {
      assert (a + b)[1..] == a[1..] + b;
      RunAppend(Next(w, a[0]), a[1..], b);
    }
  }

  /** A served lookup that is not stalled is done or has a request outstanding. */
  lemma ServedIsDoneOrWaits(w: World, now: nat, corrs: nat -> nat)
    requires Sized(w.l) && !Stalled(w.l, now)
    ensures var l := Next(w, Send(now, corrs)).l; l.done || l.inFlight != []
  {
    DispatchIs(w.l, now, corrs);
    if !w.l.done && w.l.inFlight == [] && !OutOfTime(w.l, now) {
      StallsIffFrontUnaddressed(w, now, corrs);
    }
  }

  /** A turn ends the lookup or settles a request. */
  lemma TurnProgresses(w: World, r: seq<Step>)
    requires Balanced(w) && Turn(w, r)
    ensures Balanced(Run(w, r)) && (w.l.done ==> Run(w, r).l.done)
    ensures Run(w, r).l.done || w.settled < Run(w, r).settled
  {
    var sent := Next(w, r[0]);
    StepBalances(w, r[0]);
    NextKeepsTarget(w, r[0]);
    RunSettles(sent, r[1..]);
    ServedIsDoneOrWaits(w, r[0].now, r[0].corrs);
  }

  lemma {:induction false} TurnsProgress(w: World, rounds: seq<seq<Step>>)
    requires Balanced(w) && Turns(w, rounds)
    ensures var w' := Run(w, Flat(rounds));
            && Balanced(w') && (w.l.done ==> w'.l.done)
            && (w'.l.done || w'.settled >= w.settled + |rounds|)
    decreases |rounds|
  {
    if rounds != [] {
      TurnProgresses(w, rounds[0]);
      RunAppend(w, rounds[0], Flat(rounds[1..]));
      TurnsProgress(Run(w, rounds[0]), rounds[1..]);
    }
  }

  /** Termination, whatever the seeds: after more turns than twice the seeds plus twice the peers
      reported beside them the lookup is done. Nothing is assumed about the clock, about what the
      replies say or about what else happens in a turn. */
  lemma EndsFromAnySeeds(kind: Kind, target: Id, seeds: seq<PeerInfo>, now: nat, rounds: seq<seq<Step>>, pool: set<Id>)
    requires IdSet(seeds) <= pool && DrawnFrom(Flat(rounds), pool)
    requires Turns(Start(kind, target, seeds, now), rounds)
    requires |rounds| > 2 * (|seeds| + |pool - IdSet(seeds)|)
    ensures Run(Start(kind, target, seeds, now), Flat(rounds)).l.done
  {
    TurnsProgress(Start(kind, target, seeds, now), rounds);
    SentInAll(kind, target, seeds, now, Flat(rounds), pool);
  }

  /** With distinct seeds the bound is twice the peers in play. */
  lemma LookupTerminates(kind: Kind, target: Id, seeds: seq<PeerInfo>, now: nat, rounds: seq<seq<Step>>, pool: set<Id>)
    requires DistinctIds(seeds) && IdSet(seeds) <= pool && DrawnFrom(Flat(rounds), pool)
    requires Turns(Start(kind, target, seeds, now), rounds) && |rounds| > 2 * |pool|
    ensures Run(Start(kind, target, seeds, now), Flat(rounds)).l.done
  {
    DistinctMeansAllCounted(seeds);
    EndsFromAnySeeds(kind, target, seeds, now, rounds, pool);
  }

  /** Such turns need no record: one peer is asked, answers, and the lookup ends for want of others. */
  lemma OnePeerAnswersAndItEnds(kind: Kind, target: Id, p: PeerInfo, now: nat, corrs: nat -> nat, rttUs: nat)
    requires p.addrs != []
    ensures var rounds := [[Send(now, corrs), Closer(p.id, [], rttUs)], [Send(now, corrs)], [Send(now, corrs)]];
            && NoRecord(Flat(rounds)) && DrawnFrom(Flat(rounds), {p.id})
            && Turns(Start(kind, target, [p], now), rounds) && |rounds| > 2 * |{p.id}|
  {
    var send, answer := Send(now, corrs), Closer(p.id, [], rttUs);
    var w0 := Start(kind, target, [p], now);
    FirstTurn(kind, target, p, now, corrs, rttUs);
    var w2 := Run(w0, [send, answer]);
    IdleTurn(w2, p, now, corrs);
    IdleTurn(Run(w2, [send]), p, now, corrs);
    TurnsOfThree(w0, [send, answer], [send], [send]);
    QuietSteps(send, answer, {p.id});
  }

  lemma QuietSteps(send: Step, answer: Step, pool: set<Id>)
    requires send.Send? && answer.Closer? && answer.peers == []
    ensures var steps := Flat([[send, answer], [send], [send]]); NoRecord(steps) && DrawnFrom(steps, pool)
  {
    FlatOfThree([send, answer], [send], [send]);
    var steps := [send, answer] + [send] + [send];
    assert steps == [send, answer, send, send];
    assert IdSet([]) == {};
  }

  /** The one peer is in flight after the dispatch. */
  lemma OnePeerAsked(kind: Kind, target: Id, p: PeerInfo, now: nat, corrs: nat -> nat)
    requires p.addrs != []
    ensures var w0 := Start(kind, target, [p], now); var l := Next(w0, Send(now, corrs)).l;
            && !Stalled(w0.l, now)
            && l == w0.l.(queried := {p.id}, inFlight := [Flight(p.id, corrs(0), now)]) && l.shortlist == [p] && !l.done
  {
    var w0 := Start(kind, target, [p], now);
    assert Sort([p], target) == [p] by { assert [p][1..] == []; }
    SendAll(w0, now, corrs);
    UntouchedBatch(w0.l, now);
    var f := Flight(p.id, corrs(0), now);
    assert Flights([p], 0, corrs, now) == [f] by { assert Flights([p], 1, corrs, now) == []; }
    assert FlightIds([f]) == [p.id];
    assert p in w0.l.shortlist;
  }

  lemma OnePeerAnswers(w: World, p: PeerInfo, f: Flight, rttUs: nat)
    requires w.l.shortlist == [p] && w.l.inFlight == [f] && f.id == p.id && w.l.queried == {p.id} && Sized(w.l)
    ensures var l := Next(w, Closer(p.id, [], rttUs)).l;
            l.shortlist == [p] && l.inFlight == [] && p.id in l.queried && Sized(l)
    ensures SettlingSteps(w, [Closer(p.id, [], rttUs)]) == 1
  {
    var answer := Closer(p.id, [], rttUs);
    assert Without([f], p.id) == [] by { assert [f][1..] == []; }
    assert [answer][1..] == [];
    assert InFlight(w.l.inFlight, p.id) by { assert w.l.inFlight[0].id == p.id; }
    assert Sort([p], w.l.target) == [p] by { assert [p][1..] == []; }
  }

  lemma FirstTurn(kind: Kind, target: Id, p: PeerInfo, now: nat, corrs: nat -> nat, rttUs: nat)
    requires p.addrs != []
    ensures var w, r := Start(kind, target, [p], now), [Send(now, corrs), Closer(p.id, [], rttUs)];
            && Turn(w, r)
            && (var l := Run(w, r).l; l.shortlist == [p] && l.inFlight == [] && p.id in l.queried && Sized(l))
  {
    var w, send, answer := Start(kind, target, [p], now), Send(now, corrs), Closer(p.id, [], rttUs);
    OnePeerAsked(kind, target, p, now, corrs);
    OnePeerAnswers(Next(w, send), p, Flight(p.id, corrs(0), now), rttUs);
    RunOfTwo(w, send, answer);
    assert [send, answer][1..] == [answer];
  }

  lemma IdleTurn(w: World, p: PeerInfo, now: nat, corrs: nat -> nat)
    requires w.l.shortlist == [p] && p.id in w.l.queried && w.l.inFlight == [] && Sized(w.l)
    ensures Turn(w, [Send(now, corrs)])
    ensures var l := Run(w, [Send(now, corrs)]).l;
            l.shortlist == [p] && p.id in l.queried && l.inFlight == [] && Sized(l)
  {
    var send := Send(now, corrs);
    IdleEnds(w, p, now, corrs);
    assert [send][1..] == [];
    assert Run(w, [send]) == Next(w, send);
  }

  /** A lookup whose one peer has been queried and is not in flight is not stalled, and serving it ends it. */
  lemma IdleEnds(w: World, p: PeerInfo, now: nat, corrs: nat -> nat)
    requires w.l.shortlist == [p] && p.id in w.l.queried && w.l.inFlight == [] && Sized(w.l)
    ensures !Stalled(w.l, now)
    ensures var w' := Next(w, Send(now, corrs));
            w'.l.done && w'.l.shortlist == [p] && p.id in w'.l.queried && w'.l.inFlight == [] && Sized(w'.l)
  {
    assert Pick(w.l, [p], Room(w.l)) == [] by { assert [p][1..] == []; }
    assert Batch(w.l, now) == [];
  }

  lemma RunOfTwo(w: World, a: Step, b: Step)
    ensures Run(w, [a, b]) == Next(Next(w, a), b)
  {
    assert [a, b][1..] == [b] && [b][1..] == [];
    assert Run(w, [a, b]) == Run(Next(w, a), [b]);
  }

  lemma FlatOfThree(a: seq<Step>, b: seq<Step>, c: seq<Step>)
    ensures Flat([a, b, c]) == a + b + c
  {
    assert [a, b, c][1..] == [b, c] && [b, c][1..] == [c] && [c][1..] == [];
    assert Flat([c]) == c + Flat([]);
    assert Flat([b, c]) == b + c;
  }

  lemma TurnsOfThree(w: World, a: seq<Step>, b: seq<Step>, c: seq<Step>)
    requires Turn(w, a) && Turn(Run(w, a), b) && Turn(Run(Run(w, a), b), c)
    ensures Turns(w, [a, b, c])
  {
    assert [a, b, c][1..] == [b, c] && [b, c][1..] == [c] && [c][1..] == [];
    assert Turns(Run(Run(w, a), b), [c]);
    assert Turns(Run(w, a), [b, c]);
  }

  /** Ticks of the shard before the time budget of `l` is spent: dispatches and expiries. */
  ghost predicate OnlyTicks(steps: seq<Step>, l: LookupState)
  {
    forall i :: 0 <= i < |steps| ==> steps[i].Expire? || (steps[i].Send? && !OutOfTime(l, steps[i].now))
  }

  lemma TickStalls(w: World, step: Step)
    requires Sized(w.l) && !w.l.done && w.l.inFlight == [] && w.l.queried == {}
    requires w.l.shortlist != [] && forall p :: p in w.l.shortlist ==> p.addrs == []
    requires OnlyTicks([step], w.l)
    ensures Next(w, step) == w
  {
    assert [step][0] == step;
    if step.Send? {
      PickIsEligible(w.l, w.l.shortlist, Room(w.l));
      assert w.l.shortlist[0] in w.l.shortlist && Eligible(w.l, w.l.shortlist[0]);
      StallLasts(w, step.now, step.corrs, step.now, step.corrs);
    } else {
      assert IdSet([]) == {};
    }
  }

  /** The stall at an input: a lookup all of whose seeds lack an address stands still, however often
      it is served, until its time budget. */
  lemma {:induction false} UnaddressedSeedsStall(kind: Kind, target: Id, seeds: seq<PeerInfo>, now: nat, steps: seq<Step>)
    requires seeds != [] && (forall p :: p in seeds ==> p.addrs == [])
    requires OnlyTicks(steps, New(kind, target, seeds, now))
    ensures Run(Start(kind, target, seeds, now), steps) == Start(kind, target, seeds, now)
    ensures !Start(kind, target, seeds, now).l.done
    decreases |steps|
  {
    if steps != [] {
      var w := Start(kind, target, seeds, now);
      SortIsSortedPermutation(seeds, target);
      forall p | p in w.l.shortlist ensures p.addrs == [] {
        assert p in multiset(w.l.shortlist) && p in multiset(seeds);
      }
      TickStalls(w, steps[0]);
      assert forall i :: 0 <= i < |steps| - 1 ==> steps[1..][i] == steps[i + 1];
      UnaddressedSeedsStall(kind, target, seeds, now, steps[1..]);
    }
  }
}
