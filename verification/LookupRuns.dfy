/** What every lookup run keeps, how many requests it sends, when it ends and what it returns. */
module LookupRuns {
  import opened Xor
  import opened Peers
  import opened Records
  import opened Lookups

  /** One thing that happens to a lookup. Correlation ids, clock readings, reported peers and
      the claimed sender are all arbitrary. */
  datatype Step =
    | Send(now: nat, corrs: nat -> nat)
    | Expire(now: nat)
    | Closer(from: Id, peers: seq<PeerInfo>, rttUs: nat)
    | Providers(from: Id, more: seq<Provider>, closer: seq<PeerInfo>)
    | Record(from: Id, rec: StoredRecord)

  /** A lookup together with its history: ids learned, requests sent, requests settled. */
  datatype World = World(l: LookupState, learned: set<Id>, sent: multiset<Id>, settled: nat)

  function Start(kind: Kind, target: Id, seeds: seq<PeerInfo>, now: nat): World
  {
    World(New(kind, target, seeds, now), IdSet(seeds), multiset{}, 0)
  }

  function After(l: LookupState, step: Step): LookupState
  {
    match step
    case Send(now, corrs) => Dispatch(l, now, corrs)
    case Expire(now) => OnTimeouts(l, now)
    case Closer(from, peers, rttUs) => OnCloser(l, from, peers, rttUs)
    case Providers(from, more, closer) => OnProviders(l, from, more, closer)
    case Record(from, rec) => OnRecord(l, from, rec)
  }

  function Reported(step: Step): seq<PeerInfo>
  {
    match step
    case Closer(_, peers, _) => peers
    case Providers(_, _, closer) => closer
    case _ => []
  }

  /** The peers of a batch that can be sent to. */
  function Addressed(batch: seq<PeerInfo>): seq<PeerInfo>
  {
    if batch == [] then []
    else (if batch[0].addrs == [] then [] else [batch[0]]) + Addressed(batch[1..])
  }

  /** The ids a dispatch sends a request to. */
  function Asked(batch: seq<PeerInfo>): multiset<Id>
  {
    multiset(Ids(Addressed(batch)))
  }

  function Next(w: World, step: Step): World
  {
    var l := After(w.l, step);
    if step.Send? then World(l, w.learned, w.sent + Asked(Batch(w.l, step.now)), w.settled)
    else
      World(l, w.learned + IdSet(Reported(step)), w.sent,
            w.settled + (if |l.inFlight| <= |w.l.inFlight| then |w.l.inFlight| - |l.inFlight| else 0))
  }

  function Run(w: World, steps: seq<Step>): World
    decreases |steps|
  {
    if steps == [] then w else Run(Next(w, steps[0]), steps[1..])
  }

  // ---------------------------------------------------------------- the invariant

  ghost predicate DistinctFlights(fs: seq<Flight>)
  {
    forall i, j :: 0 <= i < j < |fs| ==> fs[i].id != fs[j].id
  }

  ghost predicate ShortlistOk(l: LookupState, learned: set<Id>)
  {
    && DistinctIds(l.shortlist)
    && StrictlyNearer(Ids(l.shortlist), l.target)
    && IdSet(l.shortlist) == learned
    && l.k == K_DEFAULT
  }

  ghost predicate Sized(l: LookupState)
  {
    |l.inFlight| <= IN_FLIGHT_CAP && ALPHA_MIN <= l.alpha <= ALPHA_MAX
  }

  ghost predicate FlightsOk(l: LookupState)
  {
    && DistinctFlights(l.inFlight)
    && (forall i :: 0 <= i < |l.inFlight| ==> l.inFlight[i].id in l.queried)
    && Sized(l)
  }

  /** A peer has been sent one request for being marked queried and one for having been retried. */
  ghost predicate LedgerOk(w: World)
  {
    && w.l.queried <= w.learned && w.l.retries <= w.learned
    && (forall id :: w.sent[id] == Bit(id in w.l.queried) + Bit(id in w.l.retries))
    && |w.sent| == w.settled + |w.l.inFlight|
  }

  ghost predicate Inv(w: World)
  {
    ShortlistOk(w.l, w.learned) && FlightsOk(w.l) && LedgerOk(w)
  }

  // ---------------------------------------------------------------- filters on the in-flight list

  lemma {:induction false} WithoutIsFilter(fs: seq<Flight>, id: Id)
    requires DistinctFlights(fs)
    ensures DistinctFlights(Without(fs, id))
    ensures forall f :: f in Without(fs, id) <==> f in fs && f.id != id
    ensures |Without(fs, id)| == |fs| - Bit(InFlight(fs, id))
  {
    if fs != [] {
      WithoutIsFilter(fs[1..], id);
      assert fs == [fs[0]] + fs[1..];
      assert InFlight(fs, id) <==> fs[0].id == id || InFlight(fs[1..], id);
    }
  }

  lemma ConsFlight(f: Flight, fs: seq<Flight>)
    requires DistinctFlights(fs) && forall g :: g in fs ==> g.id != f.id
    ensures DistinctFlights([f] + fs)
  {
  }

  lemma {:induction false} AliveIsFilter(fs: seq<Flight>, now: nat)
    requires DistinctFlights(fs)
    ensures DistinctFlights(Alive(fs, now))
    ensures forall f :: f in Alive(fs, now) ==> f in fs && f.id !in Dead(fs, now)
    ensures forall id :: id in Dead(fs, now) ==> InFlight(fs, id)
    ensures |Alive(fs, now)| + |Dead(fs, now)| == |fs|
  {
    if fs != [] {
      var rest := fs[1..];
      AliveIsFilter(rest, now);
      assert fs == [fs[0]] + rest;
      assert forall id :: InFlight(rest, id) ==> InFlight(fs, id) && id != fs[0].id by {
        forall id | InFlight(rest, id) ensures InFlight(fs, id) && id != fs[0].id {
          var i :| 0 <= i < |rest| && rest[i].id == id;
          assert fs[i + 1].id == id;
        }
      }
      assert fs[0].id == fs[0].id && InFlight(fs, fs[0].id);
      if !TimedOut(fs[0], now) {
        ConsFlight(fs[0], Alive(rest, now));
      }
    }
  }

  // ---------------------------------------------------------------- the shortlist

  lemma {:induction false} MergeAddsReported(s: seq<PeerInfo>, peers: seq<PeerInfo>)
    requires DistinctIds(s)
    ensures DistinctIds(Merge(s, peers))
    ensures IdSet(Merge(s, peers)) == IdSet(s) + IdSet(peers)
    decreases |peers|
  {
    if peers == [] {
      assert IdSet(peers) == {};
    } else {
      var p := peers[0];
      var s' := if Known(s, p.id) then s else s + [p];
      AddReported(s, p);
      MergeAddsReported(s', peers[1..]);
      IdSetCons(peers);
    }
  }

  lemma IdSetCons(s: seq<PeerInfo>)
    requires s != []
    ensures IdSet(s) == {s[0].id} + IdSet(s[1..])
  {
    assert s == [s[0]] + s[1..];
  }

  lemma AddReported(s: seq<PeerInfo>, p: PeerInfo)
    requires DistinctIds(s)
    ensures var s' := if Known(s, p.id) then s else s + [p];
            DistinctIds(s') && IdSet(s') == IdSet(s) + {p.id}
  {
    if Known(s, p.id) {
      var i :| 0 <= i < |s| && s[i].id == p.id;
      assert s[i] in s;
    }
  }

  lemma CloserShortlist(l: LookupState, learned: set<Id>, from: Id, peers: seq<PeerInfo>, rttUs: nat)
    requires ShortlistOk(l, learned)
    ensures ShortlistOk(OnCloser(l, from, peers, rttUs), learned + IdSet(peers))
  {
    MergeAddsReported(l.shortlist, peers);
    SortDistinct(Merge(l.shortlist, peers), l.target);
  }

  // ---------------------------------------------------------------- dispatch

  /** The requests that handling the batch from position `i` on adds to the in-flight list. */
  function Flights(batch: seq<PeerInfo>, i: nat, corrs: nat -> nat, now: nat): seq<Flight>
    requires i <= |batch|
    decreases |batch| - i
  {
    if i == |batch| then []
    else (if batch[i].addrs == [] then [] else [Flight(batch[i].id, corrs(i), now)]) + Flights(batch, i + 1, corrs, now)
  }

  function FlightIds(fs: seq<Flight>): (r: seq<Id>)
    ensures |r| == |fs| && forall i :: 0 <= i < |fs| ==> r[i] == fs[i].id
  {
    seq(|fs|, i requires 0 <= i < |fs| => fs[i].id)
  }

  /** `l` with the requests `fs` recorded and none of them lost. */
  function WithFlights(l: LookupState, fs: seq<Flight>): LookupState
  {
    l.(queried := l.queried + (set id | id in FlightIds(fs)), inFlight := l.inFlight + fs)
  }

  lemma {:induction false} FlightsAreAddressed(batch: seq<PeerInfo>, i: nat, corrs: nat -> nat, now: nat)
    requires i <= |batch|
    ensures FlightIds(Flights(batch, i, corrs, now)) == Ids(Addressed(batch[i..]))
    ensures |Flights(batch, i, corrs, now)| <= |batch| - i
    decreases |batch| - i
  {
    if i < |batch| {
      FlightsAreAddressed(batch, i + 1, corrs, now);
      assert batch[i..][1..] == batch[i + 1..];
    }
  }

  lemma ConsPeer(p: PeerInfo, s: seq<PeerInfo>)
    requires DistinctIds(s) && forall q :: q in s ==> q.id != p.id
    ensures DistinctIds([p] + s)
  {
  }

  lemma {:induction false} AddressedIsSubsequence(batch: seq<PeerInfo>)
    ensures forall p :: p in Addressed(batch) ==> p in batch
    ensures DistinctIds(batch) ==> DistinctIds(Addressed(batch))
  {
    if batch != [] {
      var rest := batch[1..];
      AddressedIsSubsequence(rest);
      if DistinctIds(batch) && batch[0].addrs != [] {
        assert forall p :: p in rest ==> p.id != batch[0].id;
        ConsPeer(batch[0], Addressed(rest));
      }
    }
  }

  lemma {:induction false} AddressedNone(batch: seq<PeerInfo>)
    ensures Addressed(batch) == [] <==> forall p :: p in batch ==> p.addrs == []
  {
    if batch != [] {
      AddressedNone(batch[1..]);
      assert batch == [batch[0]] + batch[1..];
    }
  }

  lemma RecordOneMore(l: LookupState, f: Flight, fs: seq<Flight>)
    requires |l.inFlight| < IN_FLIGHT_CAP
    ensures WithFlights(NoteSent(l, f.id, f.corr, f.sentAt), fs) == WithFlights(l, [f] + fs)
  {
    assert FlightIds([f] + fs) == [f.id] + FlightIds(fs);
    assert (l.inFlight + [f]) + fs == l.inFlight + ([f] + fs);
    assert (set id | id in FlightIds([f] + fs)) == {f.id} + (set id | id in FlightIds(fs));
  }

  /** No push is dropped: the loop equals appending the batch's requests. */
  lemma {:induction false} NothingDropped(l: LookupState, batch: seq<PeerInfo>, i: nat, corrs: nat -> nat, now: nat)
    requires i <= |batch| && |l.inFlight| + |batch| - i <= IN_FLIGHT_CAP
    ensures SendFrom(l, batch, i, corrs, now) == WithFlights(l, Flights(batch, i, corrs, now))
    decreases |batch| - i
  {
    if i < |batch| {
      var rest := Flights(batch, i + 1, corrs, now);
      if batch[i].addrs == [] {
        NothingDropped(l, batch, i + 1, corrs, now);
        assert Flights(batch, i, corrs, now) == rest;
      } else {
        NothingDropped(NoteSent(l, batch[i].id, corrs(i), now), batch, i + 1, corrs, now);
        RecordOneMore(l, Flight(batch[i].id, corrs(i), now), rest);
      }
    }
  }

  lemma {:induction false} PickIsEligible(l: LookupState, s: seq<PeerInfo>, room: nat)
    ensures |Pick(l, s, room)| <= room
    ensures forall p :: p in Pick(l, s, room) ==> p in s && Eligible(l, p)
    ensures DistinctIds(s) ==> DistinctIds(Pick(l, s, room))
    ensures Pick(l, s, room) == [] && room > 0 ==> forall p :: p in s ==> !Eligible(l, p)
  {
    if s != [] && room > 0 {
      var rest := s[1..];
      assert s == [s[0]] + rest;
      if Eligible(l, s[0]) {
        PickIsEligible(l, rest, room - 1);
        if DistinctIds(s) {
          assert forall q :: q in rest ==> q.id != s[0].id;
          ConsPeer(s[0], Pick(l, rest, room - 1));
        }
      } else {
        PickIsEligible(l, rest, room);
      }
    }
  }

  lemma BatchFits(l: LookupState, now: nat)
    requires Sized(l)
    ensures |l.inFlight| + |Batch(l, now)| <= IN_FLIGHT_CAP
  {
    PickIsEligible(l, l.shortlist, Room(l));
  }

  /** The closed form of a dispatch. */
  lemma DispatchIs(l: LookupState, now: nat, corrs: nat -> nat)
    requires Sized(l)
    ensures Dispatch(l, now, corrs) == WithFlights(NextBatch(l, now), Flights(Batch(l, now), 0, corrs, now))
  {
    BatchFits(l, now);
    NothingDropped(NextBatch(l, now), Batch(l, now), 0, corrs, now);
  }

  /** Everyone asked is a learned peer that was neither queried nor in flight, and is asked once. */
  lemma AskedAreNew(l: LookupState, learned: set<Id>, now: nat)
    requires ShortlistOk(l, learned)
    ensures forall p :: p in Addressed(Batch(l, now)) ==> p.id in learned && Eligible(l, p)
    ensures DistinctIds(Addressed(Batch(l, now)))
  {
    PickIsEligible(l, l.shortlist, Room(l));
    AddressedIsSubsequence(Batch(l, now));
  }

  lemma {:induction false} DistinctCounts(s: seq<Id>)
    requires forall i, j :: 0 <= i < j < |s| ==> s[i] != s[j]
    ensures forall x :: multiset(s)[x] == Bit(x in s)
  {
    if s != [] {
      var n := |s| - 1;
      DistinctCounts(s[..n]);
      assert s == s[..n] + [s[n]];
    }
  }

  lemma SendKeepsFlights(l: LookupState, learned: set<Id>, now: nat, corrs: nat -> nat)
    requires ShortlistOk(l, learned) && FlightsOk(l)
    ensures FlightsOk(Dispatch(l, now, corrs))
  {
    var b := Batch(l, now);
    var fs := Flights(b, 0, corrs, now);
    DispatchIs(l, now, corrs);
    BatchFits(l, now);
    AskedAreNew(l, learned, now);
    FlightsAreAddressed(b, 0, corrs, now);
    assert b[0..] == b;
    forall i | 0 <= i < |fs| ensures fs[i].id !in l.queried && fs[i].id == Addressed(b)[i].id {
      assert FlightIds(fs)[i] == Ids(Addressed(b))[i];
      assert Addressed(b)[i] in Addressed(b);
    }
    assert DistinctFlights(fs);
  }

  /** Sending to fresh peers, once each, adds exactly one to their counts. */
  lemma SendKeepsLedger(w: World, now: nat, corrs: nat -> nat)
    requires Inv(w)
    ensures LedgerOk(Next(w, Send(now, corrs)))
  {
    var l, b := w.l, Batch(w.l, now);
    var asked := Ids(Addressed(b));
    assert Dispatch(l, now, corrs).queried == l.queried + (set id | id in asked)
        && |Dispatch(l, now, corrs).inFlight| == |l.inFlight| + |asked|
        && Dispatch(l, now, corrs).retries == l.retries by {
      DispatchIs(l, now, corrs);
      FlightsAreAddressed(b, 0, corrs, now);
      assert b[0..] == b;
    }
    AskedAreNew(l, w.learned, now);
    DistinctCounts(asked);
    forall id | id in asked ensures id in w.learned && id !in l.queried {
      var i :| 0 <= i < |asked| && asked[i] == id;
      assert Addressed(b)[i] in Addressed(b);
    }
  }

  lemma ExpireKeepsFlights(l: LookupState, now: nat)
    requires FlightsOk(l)
    ensures FlightsOk(OnTimeouts(l, now))
  {
    AliveIsFilter(l.inFlight, now);
    var l' := OnTimeouts(l, now);
    forall i | 0 <= i < |l'.inFlight| ensures l'.inFlight[i].id in l'.queried {
      assert l'.inFlight[i] in l.inFlight;
    }
  }

  lemma ExpireKeepsLedger(w: World, now: nat)
    requires Inv(w)
    ensures LedgerOk(Next(w, Expire(now)))
  {
    AliveIsFilter(w.l.inFlight, now);
    var dead := Dead(w.l.inFlight, now);
    forall id | id in dead ensures id in w.l.queried {
      assert InFlight(w.l.inFlight, id);
    }
    assert IdSet([]) == {};
  }

  lemma DropKeepsFlights(l: LookupState, from: Id)
    requires FlightsOk(l)
    ensures FlightsOk(l.(inFlight := Without(l.inFlight, from)))
    ensures |Without(l.inFlight, from)| <= |l.inFlight|
    ensures Without(Without(l.inFlight, from), from) == Without(l.inFlight, from)
  {
    WithoutIsFilter(l.inFlight, from);
    NothingLeftToDrop(Without(l.inFlight, from), from);
  }

  lemma {:induction false} NothingLeftToDrop(fs: seq<Flight>, from: Id)
    requires forall f :: f in fs ==> f.id != from
    ensures Without(fs, from) == fs
  {
    if fs != [] {
      NothingLeftToDrop(fs[1..], from);
    }
  }

  lemma CloserKeepsInv(w: World, from: Id, peers: seq<PeerInfo>, rttUs: nat)
    requires Inv(w)
    ensures Inv(Next(w, Closer(from, peers, rttUs)))
  {
    CloserShortlist(w.l, w.learned, from, peers, rttUs);
    DropKeepsFlights(w.l, from);
  }

  lemma ProvidersKeepInv(w: World, from: Id, more: seq<Provider>, closer: seq<PeerInfo>)
    requires Inv(w)
    ensures Inv(Next(w, Providers(from, more, closer)))
  {
    var l := w.l.(inFlight := Without(w.l.inFlight, from), providers := MergeProviders(w.l.providers, more));
    var w' := Next(w, Providers(from, more, closer));
    assert ShortlistOk(w'.l, w'.learned) by { CloserShortlist(l, w.learned, from, closer, 0); }
    DropKeepsFlights(w.l, from);
    assert w'.l.inFlight == Without(w.l.inFlight, from);
    assert FlightsOk(w'.l);
    assert LedgerOk(w');
  }

  lemma StepKeepsInv(w: World, step: Step)
    requires Inv(w)
    ensures Inv(Next(w, step))
  {
    match step
    case Send(now, corrs) =>
      SendKeepsFlights(w.l, w.learned, now, corrs);
      SendKeepsLedger(w, now, corrs);
      DispatchIs(w.l, now, corrs);
    case Expire(now) =>
      ExpireKeepsFlights(w.l, now);
      ExpireKeepsLedger(w, now);
      assert IdSet([]) == {};
    case Closer(from, peers, rttUs) => CloserKeepsInv(w, from, peers, rttUs);
    case Providers(from, more, closer) => ProvidersKeepInv(w, from, more, closer);
    case Record(from, rec) =>
      DropKeepsFlights(w.l, from);
      assert IdSet([]) == {};
  }

  lemma StartHasInv(kind: Kind, target: Id, seeds: seq<PeerInfo>, now: nat)
    requires DistinctIds(seeds)
    ensures Inv(Start(kind, target, seeds, now))
  {
    SortDistinct(seeds, target);
  }

  lemma {:induction false} RunKeepsInv(w: World, steps: seq<Step>)
    requires Inv(w)
    ensures Inv(Run(w, steps))
    decreases |steps|
  {
    if steps != [] {
      StepKeepsInv(w, steps[0]);
      RunKeepsInv(Next(w, steps[0]), steps[1..]);
    }
  }

  // ---------------------------------------------------------------- results at every moment of a run

  /** What `finish_peers` returns is exactly the 20 nearest of everything learned, nearest first. */
  lemma FinishIsNearest(kind: Kind, target: Id, seeds: seq<PeerInfo>, now: nat, steps: seq<Step>)
    requires DistinctIds(seeds)
    ensures var w := Run(Start(kind, target, seeds, now), steps);
            IsNearest(Ids(FinishPeers(w.l)), w.learned, target, K_DEFAULT)
  {
    StartHasInv(kind, target, seeds, now);
    RunKeepsInv(Start(kind, target, seeds, now), steps);
    RunKeepsTarget(Start(kind, target, seeds, now), steps);
    var w := Run(Start(kind, target, seeds, now), steps);
    PrefixIsNearest(w.l.shortlist, target, K_DEFAULT);
  }

  lemma NextKeepsTarget(w: World, step: Step)
    requires Sized(w.l)
    ensures Next(w, step).l.target == w.l.target
    ensures w.l.done ==> Next(w, step).l.done
  {
    if step.Send? {
      DispatchIs(w.l, step.now, step.corrs);
    }
  }

  lemma {:induction false} RunKeepsTarget(w: World, steps: seq<Step>)
    requires Inv(w)
    ensures Run(w, steps).l.target == w.l.target
    decreases |steps|
  {
    if steps != [] {
      NextKeepsTarget(w, steps[0]);
      StepKeepsInv(w, steps[0]);
      RunKeepsTarget(Next(w, steps[0]), steps[1..]);
    }
  }

  ghost predicate DrawnFrom(steps: seq<Step>, pool: set<Id>)
  {
    forall i :: 0 <= i < |steps| ==> IdSet(Reported(steps[i])) <= pool
  }

  lemma {:induction false} LearnedWithin(w: World, steps: seq<Step>, pool: set<Id>)
    requires w.learned <= pool && DrawnFrom(steps, pool)
    ensures Run(w, steps).learned <= pool
    decreases |steps|
  {
    if steps != [] {
      assert forall i :: 0 <= i < |steps[1..]| ==> steps[1..][i] == steps[i + 1];
      LearnedWithin(Next(w, steps[0]), steps[1..], pool);
    }
  }

  /** Sending each member of a set at most twice takes at most twice its size. */
  lemma AtMostTwiceEach(sent: multiset<Id>, pool: set<Id>)
    requires forall id :: sent[id] <= 2 * Bit(id in pool)
    ensures |sent| <= 2 * |pool|
  {
    var m := multiset(pool);
    assert sent <= m + m;
    var spare := (m + m) - sent;
    assert m + m == sent + spare;
    assert |sent + spare| == |sent| + |spare|;
    assert |m + m| == |m| + |m|;
    assert |m| == |pool|;
  }

  /** Over every run each peer gets at most two requests, so at most 2·|pool| go out in all. */
  lemma RequestsBounded(kind: Kind, target: Id, seeds: seq<PeerInfo>, now: nat, steps: seq<Step>, pool: set<Id>)
    requires DistinctIds(seeds) && IdSet(seeds) <= pool && DrawnFrom(steps, pool)
    ensures var w := Run(Start(kind, target, seeds, now), steps);
            (forall id :: w.sent[id] <= 2) && |w.sent| <= 2 * |pool|
  {
    var w0 := Start(kind, target, seeds, now);
    StartHasInv(kind, target, seeds, now);
    RunKeepsInv(w0, steps);
    LearnedWithin(w0, steps, pool);
    AtMostTwiceEach(Run(w0, steps).sent, pool);
  }

  // ---------------------------------------------------------------- what it means to be done

  /** A step that can end a lookup other than by finding the record or running out of time. */
  predicate EndsByExhaustion(l: LookupState, step: Step)
  {
    && !step.Record?
    && (step.Send? ==> !OutOfTime(l, step.now))
  }

  /** A lookup that ends by exhaustion or for lack of progress has asked every one of the nearest
      peers it ever learned of, and waits for no answer. */
  lemma DoneMeansSettled(w: World, step: Step)
    requires Inv(w) && !w.l.done && EndsByExhaustion(w.l, step)
    requires Next(w, step).l.done
    ensures var w' := Next(w, step);
            && w'.l.inFlight == []
            && (forall id :: id in Ids(FinishPeers(w'.l)) ==> id in w'.l.queried && w'.sent[id] >= 1)
            && w'.settled == |w'.sent|
  {
    StepKeepsInv(w, step);
    if step.Send? {
      ExhaustionMeansQueried(w.l, step.now, step.corrs);
    } else if step.Providers? {
      DropKeepsFlights(w.l, step.from);
    }
  }

  /** A dispatch that ends the lookup in time does so because every peer has been queried. */
  lemma ExhaustionMeansQueried(l: LookupState, now: nat, corrs: nat -> nat)
    requires FlightsOk(l) && !l.done && !OutOfTime(l, now) && Dispatch(l, now, corrs).done
    ensures var l' := Dispatch(l, now, corrs);
            l'.inFlight == [] && forall id :: id in Ids(FinishPeers(l')) ==> id in l'.queried
  {
    var l' := Dispatch(l, now, corrs);
    DispatchIs(l, now, corrs);
    PickIsEligible(l, l.shortlist, Room(l));
    forall id | id in Ids(FinishPeers(l')) ensures id in l'.queried {
      var i :| 0 <= i < |FinishPeers(l')| && FinishPeers(l')[i].id == id;
      assert l.shortlist[i] in l.shortlist;
    }
  }

  /** The same, said of every run. */
  lemma EveryEndingIsSettled(kind: Kind, target: Id, seeds: seq<PeerInfo>, now: nat, steps: seq<Step>, step: Step)
    requires DistinctIds(seeds)
    requires var w := Run(Start(kind, target, seeds, now), steps);
             !w.l.done && EndsByExhaustion(w.l, step) && Next(w, step).l.done
    ensures var w := Next(Run(Start(kind, target, seeds, now), steps), step);
            && w.l.inFlight == [] && w.settled == |w.sent|
            && IsNearest(Ids(FinishPeers(w.l)), w.learned, target, K_DEFAULT)
            && forall id :: id in Ids(FinishPeers(w.l)) ==> w.sent[id] >= 1
  {
    var w0 := Start(kind, target, seeds, now);
    var w := Run(w0, steps);
    StartHasInv(kind, target, seeds, now);
    RunKeepsInv(w0, steps);
    RunKeepsTarget(w0, steps);
    DoneMeansSettled(w, step);
    StepKeepsInv(w, step);
    NextKeepsTarget(w, step);
    PrefixIsNearest(Next(w, step).l.shortlist, target, K_DEFAULT);
  }

  // ---------------------------------------------------------------- progress

  /** The step settles at least one outstanding request, or delivers the record. */
  predicate Settles(l: LookupState, step: Step)
  {
    match step
    case Send(_, _) => false
    case Expire(now) => Dead(l.inFlight, now) != []
    case Closer(from, _, _) => InFlight(l.inFlight, from)
    case Providers(from, _, _) => InFlight(l.inFlight, from)
    case Record(_, _) => true
  }

  ghost predicate AllAddressed(s: seq<PeerInfo>)
  {
    forall i :: 0 <= i < |s| ==> s[i].addrs != []
  }

  /** A dispatch that does not finish the lookup leaves a request to wait for. */
  lemma DispatchLeavesWork(w: World, now: nat, corrs: nat -> nat)
    requires Sized(w.l) && AllAddressed(w.l.shortlist)
    ensures var l := Next(w, Send(now, corrs)).l; l.done || l.inFlight != []
  {
    var b := Batch(w.l, now);
    DispatchIs(w.l, now, corrs);
    PickIsEligible(w.l, w.l.shortlist, Room(w.l));
    FlightsAreAddressed(b, 0, corrs, now);
    assert b[0..] == b;
    AddressedNone(b);
    if b != [] {
      assert b[0] in b && b[0] in w.l.shortlist;
    }
  }

  // ---------------------------------------------------------------- peers without an address

  /** With nothing in flight and time left, a dispatch neither finishes nor sends anything exactly
      when there are eligible peers but the ones at the front all lack an address. */
  lemma StallsIffFrontUnaddressed(w: World, now: nat, corrs: nat -> nat)
    requires Sized(w.l) && !w.l.done && w.l.inFlight == [] && !OutOfTime(w.l, now)
    ensures var l := Next(w, Send(now, corrs)).l;
            (!l.done && l.inFlight == []) <==>
            (Batch(w.l, now) != [] && forall p :: p in Batch(w.l, now) ==> p.addrs == [])
  {
    var b := Batch(w.l, now);
    DispatchIs(w.l, now, corrs);
    FlightsAreAddressed(b, 0, corrs, now);
    assert b[0..] == b;
    AddressedNone(b);
  }

  /** Such a stall lasts: no later dispatch changes anything until the time budget is spent. */
  lemma StallLasts(w: World, now: nat, corrs: nat -> nat, later: nat, corrs': nat -> nat)
    requires Sized(w.l) && !w.l.done && w.l.inFlight == []
    requires !OutOfTime(w.l, now) && !OutOfTime(w.l, later)
    requires Batch(w.l, now) != [] && forall p :: p in Batch(w.l, now) ==> p.addrs == []
    ensures Next(w, Send(later, corrs')) == w
  {
    var b := Batch(w.l, later);
    DispatchIs(w.l, later, corrs');
    FlightsAreAddressed(b, 0, corrs', later);
    assert b[0..] == b;
    AddressedNone(b);
    assert Flights(b, 0, corrs', later) == [];
  }
}
