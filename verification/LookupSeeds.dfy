/** Lookups whose seeds may list a peer more than once. The shard takes its seeds from the routing
    table, where a promotion can put a peer twice, so the promises that need distinct seeds are given
    here with the exact condition under which they hold. */
module LookupSeeds {
  import opened Peers
  import opened Lookups
  import opened LookupRuns
  import opened Xor

  /** How many entries of `s` name `id` and have an address. */
  function Entries(s: seq<PeerInfo>, id: Id): nat
  {
    if s == [] then 0 else Bit(s[0].id == id && s[0].addrs != []) + Entries(s[1..], id)
  }

  lemma {:induction false} AskedIsEntries(s: seq<PeerInfo>, id: Id)
    ensures Asked(s)[id] == Entries(s, id)
  {
    if s != [] {
      AskedIsEntries(s[1..], id);
      AskedCons(s);
    }
  }

  lemma AskedCons(s: seq<PeerInfo>)
    requires s != []
    ensures Asked(s) == (if s[0].addrs == [] then multiset{} else multiset{s[0].id}) + Asked(s[1..])
  {
    var rest := Addressed(s[1..]);
    if s[0].addrs == [] {
      assert Addressed(s) == rest;
    } else {
      assert Ids([s[0]] + rest) == [s[0].id] + Ids(rest);
    }
  }

  // ---------------------------------------------------------------- entries under the operations

  lemma {:induction false} EntriesAppend(s: seq<PeerInfo>, t: seq<PeerInfo>, id: Id)
    ensures Entries(s + t, id) == Entries(s, id) + Entries(t, id)
  {
    if s == [] {
      assert s + t == t;
    } else {
      assert (s + t)[1..] == s[1..] + t;
      EntriesAppend(s[1..], t, id);
    }
  }

  lemma {:induction false} UnknownHasNoEntry(s: seq<PeerInfo>, id: Id)
    requires !Known(s, id)
    ensures Entries(s, id) == 0
  {
    if s != [] {
      assert s[0].id != id;
      assert forall i :: 0 <= i < |s| - 1 ==> s[1..][i] == s[i + 1];
      UnknownHasNoEntry(s[1..], id);
    }
  }

  /** Reported peers never add a second entry, nor a first one for a peer not among them. */
  lemma {:induction false} MergeEntries(s: seq<PeerInfo>, peers: seq<PeerInfo>, id: Id, m: nat)
    requires Entries(s, id) <= m && (m >= 1 || id !in IdSet(peers))
    ensures Entries(Merge(s, peers), id) <= m
    decreases |peers|
  {
    if peers != [] {
      var p := peers[0];
      IdSetCons(peers);
      if !Known(s, p.id) {
        EntriesAppend(s, [p], id);
        if p.id == id {
          UnknownHasNoEntry(s, id);
        }
        MergeEntries(s + [p], peers[1..], id, m);
      } else {
        MergeEntries(s, peers[1..], id, m);
      }
    }
  }

  lemma {:induction false} InsertEntries(p: PeerInfo, s: seq<PeerInfo>, target: Id, id: Id)
    ensures Entries(Insert(p, s, target), id) == Entries([p] + s, id)
  {
    if s == [] {
      assert [p] + s == [p];
    } else if !NotAfter(p, s[0], target) {
      InsertEntries(p, s[1..], target, id);
      assert ([p] + s)[1..] == s && ([p] + s[1..])[1..] == s[1..];
      assert ([s[0]] + Insert(p, s[1..], target))[1..] == Insert(p, s[1..], target);
    }
  }

  lemma {:induction false} SortEntries(s: seq<PeerInfo>, target: Id, id: Id)
    ensures Entries(Sort(s, target), id) == Entries(s, id)
  {
    if s != [] {
      SortEntries(s[1..], target, id);
      InsertEntries(s[0], Sort(s[1..], target), target, id);
      assert ([s[0]] + Sort(s[1..], target))[1..] == Sort(s[1..], target);
    }
  }

  /** A batch holds no more entries for a peer than the shortlist, and none once it is queried. */
  lemma {:induction false} PickEntries(l: LookupState, s: seq<PeerInfo>, room: nat, id: Id)
    ensures Entries(Pick(l, s, room), id) <= (if id in l.queried then 0 else Entries(s, id))
  {
    if s != [] && room > 0 {
      if Eligible(l, s[0]) {
        PickEntries(l, s[1..], room - 1, id);
        assert ([s[0]] + Pick(l, s[1..], room - 1))[1..] == Pick(l, s[1..], room - 1);
      } else {
        PickEntries(l, s[1..], room, id);
      }
    }
  }

  /** Whatever the in-flight list drops, exactly the peers sent to are marked queried. */
  lemma {:induction false} SendMarks(l: LookupState, batch: seq<PeerInfo>, i: nat, corrs: nat -> nat, now: nat, id: Id)
    requires i <= |batch|
    ensures var l' := SendFrom(l, batch, i, corrs, now);
            && l'.shortlist == l.shortlist && l'.retries == l.retries
            && (id in l'.queried <==> id in l.queried || Entries(batch[i..], id) > 0)
    decreases |batch| - i
  {
    if i < |batch| {
      assert batch[i..][1..] == batch[i + 1..];
      SendMarks(if batch[i].addrs == [] then l else NoteSent(l, batch[i].id, corrs(i), now), batch, i + 1, corrs, now, id);
    }
  }

  // ---------------------------------------------------------------- the bound for all seeds

  /** `id` has at most `m` entries, and got at most `m` requests for being queried and `m` for being retried. */
  ghost predicate Within(w: World, id: Id, m: nat)
  {
    && Entries(w.l.shortlist, id) <= m
    && w.sent[id] <= (if id in w.l.queried then m else 0) + (if id in w.l.retries then m else 0)
  }

  /** What a dispatch does to one peer. */
  lemma SendToOne(l: LookupState, now: nat, corrs: nat -> nat, id: Id)
    ensures var l', asked := Dispatch(l, now, corrs), Asked(Batch(l, now))[id];
            && l'.shortlist == l.shortlist && l'.retries == l.retries
            && asked <= Entries(l.shortlist, id)
            && (id in l.queried ==> asked == 0)
            && (id in l'.queried <==> id in l.queried || asked > 0)
  {
    var b := Batch(l, now);
    AskedIsEntries(b, id);
    PickEntries(l, l.shortlist, Room(l), id);
    SendMarks(NextBatch(l, now), b, 0, corrs, now, id);
    assert b[0..] == b;
  }

  lemma SendKeepsWithin(w: World, now: nat, corrs: nat -> nat, id: Id, m: nat)
    requires Within(w, id, m)
    ensures Within(Next(w, Send(now, corrs)), id, m)
  {
    SendToOne(w.l, now, corrs, id);
  }

  lemma StepKeepsWithin(w: World, step: Step, id: Id, m: nat)
    requires Within(w, id, m) && (m >= 1 || id !in IdSet(Reported(step)))
    ensures Within(Next(w, step), id, m)
  {
    if step.Send? {
      SendKeepsWithin(w, step.now, step.corrs, id, m);
    } else if step.Closer? || step.Providers? {
      MergeEntries(w.l.shortlist, Reported(step), id, m);
      SortEntries(Merge(w.l.shortlist, Reported(step)), w.l.target, id);
    }
  }

  lemma {:induction false} RunKeepsWithin(w: World, steps: seq<Step>, id: Id, m: nat)
    requires Within(w, id, m) && (m >= 1 || forall i :: 0 <= i < |steps| ==> id !in IdSet(Reported(steps[i])))
    ensures Within(Run(w, steps), id, m)
    decreases |steps|
  {
    if steps != [] {
      StepKeepsWithin(w, steps[0], id, m);
      assert forall i :: 0 <= i < |steps| - 1 ==> steps[1..][i] == steps[i + 1];
      RunKeepsWithin(Next(w, steps[0]), steps[1..], id, m);
    }
  }

  /** Whatever the seeds, a peer gets at most two requests for each entry it has among them, and at
      most two if it has none. */
  lemma RequestsPerEntry(kind: Kind, target: Id, seeds: seq<PeerInfo>, now: nat, steps: seq<Step>, id: Id)
    ensures Run(Start(kind, target, seeds, now), steps).sent[id]
         <= 2 * (if Entries(seeds, id) == 0 then 1 else Entries(seeds, id))
  {
    var w := Start(kind, target, seeds, now);
    var m := if Entries(seeds, id) == 0 then 1 else Entries(seeds, id);
    SortEntries(seeds, target, id);
    RunKeepsWithin(w, steps, id, m);
  }

  // ---------------------------------------------------------------- the bound is reached

  lemma {:induction false} PickAll(l: LookupState, s: seq<PeerInfo>, room: nat)
    requires l.queried == {} && l.inFlight == [] && |s| <= room
    ensures Pick(l, s, room) == s
  {
    if s != [] {
      PickAll(l, s[1..], room - 1);
    }
  }

  /** A shortlist nobody of which was asked, and short enough for one batch. */
  ghost predicate Untouched(l: LookupState, now: nat)
  {
    && l.queried == {} && l.inFlight == [] && 0 < |l.shortlist| <= l.alpha <= IN_FLIGHT_CAP
    && !l.done && !OutOfTime(l, now)
  }

  lemma UntouchedBatch(l: LookupState, now: nat)
    requires Untouched(l, now)
    ensures Batch(l, now) == l.shortlist && NextBatch(l, now) == l
  {
    PickAll(l, l.shortlist, Room(l));
  }

  lemma FirstFlights(l: LookupState, fs: seq<Flight>)
    requires l.queried == {} && l.inFlight == []
    ensures WithFlights(l, fs) == l.(queried := (set id | id in FlightIds(fs)), inFlight := fs)
  {
    assert l.inFlight + fs == fs;
  }

  /** A dispatch to such a shortlist asks every entry. */
  lemma SendAll(w: World, now: nat, corrs: nat -> nat)
    requires Untouched(w.l, now)
    ensures var w' := Next(w, Send(now, corrs)); var fs := Flights(w.l.shortlist, 0, corrs, now);
            && w'.sent == w.sent + Asked(w.l.shortlist)
            && w'.l == w.l.(queried := (set id | id in FlightIds(fs)), inFlight := fs)
  {
    UntouchedBatch(w.l, now);
    NothingDropped(w.l, w.l.shortlist, 0, corrs, now);
    FirstFlights(w.l, Flights(w.l.shortlist, 0, corrs, now));
  }

  lemma {:induction false} FlightsSentAt(batch: seq<PeerInfo>, i: nat, corrs: nat -> nat, now: nat)
    requires i <= |batch|
    ensures forall f :: f in Flights(batch, i, corrs, now) ==> f.sentAt == now
    decreases |batch| - i
  {
    if i < |batch| {
      FlightsSentAt(batch, i + 1, corrs, now);
    }
  }

  lemma {:induction false} AllDead(fs: seq<Flight>, now: nat)
    requires forall f :: f in fs ==> TimedOut(f, now)
    ensures Alive(fs, now) == [] && Dead(fs, now) == FlightIds(fs)
  {
    if fs != [] {
      AllDead(fs[1..], now);
    }
  }

  /** The run in which every seed is asked, stays silent past the timeout, and is asked again. */
  function Silence(now: nat, corrs: nat -> nat): seq<Step>
  {
    [Send(now, corrs), Expire(now + REQUEST_TIMEOUT + 1), Send(now + REQUEST_TIMEOUT + 1, corrs)]
  }

  lemma RunThree(w: World, a: Step, b: Step, c: Step)
    ensures Run(w, [a, b, c]) == Next(Next(Next(w, a), b), c)
  {
    assert [a, b, c][1..] == [b, c] && [b, c][1..] == [c] && [c][1..] == [];
    assert Run(w, [a, b, c]) == Run(Next(w, a), [b, c]);
    assert Run(Next(w, a), [b, c]) == Run(Next(Next(w, a), b), [c]);
  }

  /** After the timeout everyone may be asked again. */
  lemma ExpireAll(w: World, now: nat, t: nat)
    requires t > now + REQUEST_TIMEOUT && forall f :: f in w.l.inFlight ==> f.sentAt == now
    requires w.l.queried == (set id | id in FlightIds(w.l.inFlight)) && w.l.retries == {}
    ensures var w' := Next(w, Expire(t));
            && w'.sent == w.sent && w'.l.queried == {} && w'.l.inFlight == []
            && w'.l == w.l.(queried := {}, inFlight := [], retries := w'.l.retries, alpha := w'.l.alpha)
            && (w'.l.alpha == w.l.alpha || w'.l.alpha == Min(w.l.alpha + 1, ALPHA_MAX))
  {
    AllDead(w.l.inFlight, t);
  }

  /** With as many seeds as the shard passes, silence makes the bound of `RequestsPerEntry` exact. */
  lemma SilenceAsksTwicePerEntry(kind: Kind, target: Id, seeds: seq<PeerInfo>, now: nat, corrs: nat -> nat, id: Id)
    requires |seeds| <= ALPHA_DEFAULT
    ensures Run(Start(kind, target, seeds, now), Silence(now, corrs)).sent[id] == 2 * Entries(seeds, id)
  {
    var w := Start(kind, target, seeds, now);
    var t := now + REQUEST_TIMEOUT + 1;
    var w1 := Next(w, Send(now, corrs));
    var w2 := Next(w1, Expire(t));
    RunThree(w, Send(now, corrs), Expire(t), Send(t, corrs));
    if seeds == [] {
      assert Asked([])[id] == 0;
    } else {
      SortIsSortedPermutation(seeds, target);
      SendAll(w, now, corrs);
      FlightsSentAt(w.l.shortlist, 0, corrs, now);
      ExpireAll(w1, now, t);
      SendAll(w2, t, corrs);
      AskedIsEntries(w.l.shortlist, id);
      SortEntries(seeds, target, id);
    }
  }

  ghost predicate AtMostTwice(w: World)
  {
    forall id :: w.sent[id] <= 2
  }

  ghost predicate AlwaysAtMostTwice(w: World)
  {
    forall steps :: AtMostTwice(Run(w, steps))
  }

  /** For the up to four seeds the shard passes, no run asks a peer more than twice if and only if no
      peer has two addressed entries among them. */
  lemma TwiceIffOneEntryEach(kind: Kind, target: Id, seeds: seq<PeerInfo>, now: nat)
    requires |seeds| <= ALPHA_DEFAULT
    ensures AlwaysAtMostTwice(Start(kind, target, seeds, now)) <==> forall id :: Entries(seeds, id) <= 1
  {
    var w := Start(kind, target, seeds, now);
    if forall id :: Entries(seeds, id) <= 1 {
      forall steps ensures AtMostTwice(Run(w, steps)) {
        forall id ensures Run(w, steps).sent[id] <= 2 {
          RequestsPerEntry(kind, target, seeds, now, steps, id);
        }
      }
    } else {
      var id :| Entries(seeds, id) > 1;
      var steps := Silence(now, (i: nat) => i);
      SilenceAsksTwicePerEntry(kind, target, seeds, now, (i: nat) => i, id);
      assert !AtMostTwice(Run(w, steps));
    }
  }

  /** A seed listed twice is asked four times. */
  lemma DuplicateSeedAskedFourTimes(p: PeerInfo, target: Id, corrs: nat -> nat)
    requires p.addrs != []
    ensures Run(Start(FindNode, target, [p, p], 0), Silence(0, corrs)).sent[p.id] == 4
  {
    SilenceAsksTwicePerEntry(FindNode, target, [p, p], 0, corrs, p.id);
    RequestsPerEntry(FindNode, target, [p, p], 0, Silence(0, corrs), p.id);
    assert [p, p][1..] == [p];
    assert Entries([p], p.id) == 1;
  }

  // ---------------------------------------------------------------- the result

  ghost predicate ResultIsNearest(w: World)
  {
    IsNearest(Ids(FinishPeers(w.l)), w.learned, w.l.target, K_DEFAULT)
  }

  ghost predicate AlwaysNearest(w: World)
  {
    forall steps :: ResultIsNearest(Run(w, steps))
  }

  /** Up to twenty seeds: the result is the nearest peers learned, at every moment of every run, if
      and only if the seeds are distinct. */
  lemma NearestIffSeedsDistinct(kind: Kind, target: Id, seeds: seq<PeerInfo>, now: nat)
    requires |seeds| <= K_DEFAULT
    ensures AlwaysNearest(Start(kind, target, seeds, now)) <==> DistinctIds(seeds)
  {
    var w := Start(kind, target, seeds, now);
    if DistinctIds(seeds) {
      StartHasInv(kind, target, seeds, now);
      forall steps ensures ResultIsNearest(Run(w, steps)) {
        FinishIsNearest(kind, target, seeds, now, steps);
        RunKeepsTarget(w, steps);
      }
    } else {
      SortIsSortedPermutation(seeds, target);
      DistinctMeansAllCounted(seeds);
      assert FinishPeers(w.l) == Sort(seeds, target);
      assert !ResultIsNearest(Run(w, []));
    }
  }
}
