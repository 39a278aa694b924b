/** What each operation of a lookup does for its caller: whom a batch asks, when an answer ends the
    lookup, and which descriptors and providers it ends up with. */
module LookupPromises {
  import opened Xor
  import opened Peers
  import opened Records
  import opened Lookups
  import opened LookupRuns
  import E = LookupEnds

  // ---------------------------------------------------------------- the batch

  /** The positions of the eligible peers among the first `n` of the shortlist, in order. */
  function EligiblePositions(l: LookupState, n: nat): (r: seq<nat>)
    requires n <= |l.shortlist|
    ensures forall k :: 0 <= k < |r| ==> r[k] < n
    ensures forall i: nat :: i in r <==> i < n && Eligible(l, l.shortlist[i])
    ensures forall a, b :: 0 <= a < b < |r| ==> r[a] < r[b]
  {
    if n == 0 then []
    else EligiblePositions(l, n - 1) + if Eligible(l, l.shortlist[n - 1]) then [n - 1] else []
  }

  /** The eligible ones of `s`, in order. */
  function OnlyEligible(l: LookupState, s: seq<PeerInfo>): seq<PeerInfo>
  {
    if s == [] then []
    else OnlyEligible(l, s[..|s| - 1]) + if Eligible(l, s[|s| - 1]) then [s[|s| - 1]] else []
  }

  lemma {:induction false} EligibleCons(l: LookupState, p: PeerInfo, s: seq<PeerInfo>)
    ensures OnlyEligible(l, [p] + s) == (if Eligible(l, p) then [p] else []) + OnlyEligible(l, s)
  {
    if s == [] {
      assert [p] + s == [p] && [p][..0] == [];
    } else {
      var n := |s| - 1;
      assert ([p] + s)[..|s|] == [p] + s[..n];
      EligibleCons(l, p, s[..n]);
    }
  }

  lemma {:induction false} PickIsPrefix(l: LookupState, s: seq<PeerInfo>, room: nat)
    ensures Pick(l, s, room) == Take(OnlyEligible(l, s), room)
  {
    if s != [] && room > 0 {
      assert s == [s[0]] + s[1..];
      EligibleCons(l, s[0], s[1..]);
      PickIsPrefix(l, s[1..], if Eligible(l, s[0]) then room - 1 else room);
    }
  }

  lemma {:induction false} EligibleAtPositions(l: LookupState, n: nat)
    requires n <= |l.shortlist|
    ensures var e, r := OnlyEligible(l, l.shortlist[..n]), EligiblePositions(l, n);
            |e| == |r| && forall k :: 0 <= k < |e| ==> r[k] < n && e[k] == l.shortlist[r[k]]
  {
    if n > 0 {
      assert l.shortlist[..n][..n - 1] == l.shortlist[..n - 1];
      EligibleAtPositions(l, n - 1);
    }
  }

  /** A lookup that is not done and in time asks the nearest eligible peers: as many as there are, as
      alpha leaves room for beside the requests in flight, and at most eight, and always the ones that
      stand first in the shortlist. */
  lemma BatchAsksNearestEligible(l: LookupState, now: nat)
    requires !l.done && !OutOfTime(l, now)
    ensures var b, r := Batch(l, now), EligiblePositions(l, |l.shortlist|);
            && |b| == Min(|r|, Min(if l.alpha <= |l.inFlight| then 0 else l.alpha - |l.inFlight|, 8))
            && forall k :: 0 <= k < |b| ==> b[k] == l.shortlist[r[k]]
  {
    PickIsPrefix(l, l.shortlist, Room(l));
    EligibleAtPositions(l, |l.shortlist|);
    assert l.shortlist[..|l.shortlist|] == l.shortlist;
  }

  /** In particular no eligible peer is passed over for a farther one. */
  lemma NobodyPassedOver(w: World, now: nat, p: PeerInfo, q: PeerInfo)
    requires Inv(w) && !w.l.done && !OutOfTime(w.l, now)
    requires p in w.l.shortlist && Eligible(w.l, p) && q in Batch(w.l, now) && Dist(p.id, w.l.target) < Dist(q.id, w.l.target)
    ensures p in Batch(w.l, now)
  {
    var l, b := w.l, Batch(w.l, now);
    BatchAsksNearestEligible(l, now);
    var r := EligiblePositions(l, |l.shortlist|);
    var i: nat :| i < |l.shortlist| && l.shortlist[i] == p;
    var k :| 0 <= k < |b| && b[k] == q;
    assert i in r;
    var a :| 0 <= a < |r| && r[a] == i;
    assert Ids(l.shortlist)[i] == p.id && Ids(l.shortlist)[r[k]] == q.id;
    assert a < k ==> b[a] == p;
  }

  // ---------------------------------------------------------------- alpha

  /** Expiry widens the lookup by one, a fast answer narrows it by one, within 3 to 8; nothing else
      changes it. */
  lemma AlphaAdapts(w: World, step: Step)
    requires Inv(w)
    ensures var a, a' := w.l.alpha, Next(w, step).l.alpha;
            && (a' == a + 1 <==> step.Expire? && a < 8 && exists i :: 0 <= i < |w.l.inFlight| && TimedOut(w.l.inFlight[i], step.now))
            && (a' == a - 1 <==> a > 3 && (step.Providers? || (step.Closer? && step.rttUs < 80_000)))
            && (a' == a || a' == a + 1 || a' == a - 1)
  {
    match step
    case Send(now, corrs) => DispatchIs(w.l, now, corrs);
    case Expire(now) => SomeDeadIff(w.l.inFlight, now);
    case _ =>
  }

  lemma {:induction false} SomeDeadIff(fs: seq<Flight>, now: nat)
    ensures Dead(fs, now) != [] <==> exists i :: 0 <= i < |fs| && TimedOut(fs[i], now)
  {
    if fs != [] {
      SomeDeadIff(fs[1..], now);
      if i :| 0 <= i < |fs| && TimedOut(fs[i], now) {
        assert i == 0 || TimedOut(fs[1..][i - 1], now);
      }
      if Dead(fs[1..], now) != [] {
        var i :| 0 <= i < |fs[1..]| && TimedOut(fs[1..][i], now);
        assert TimedOut(fs[i + 1], now);
      }
    }
  }

  // ---------------------------------------------------------------- when an answer ends the lookup

  /** An answer without a record ends a lookup if and only if it leaves the nearest peers as they were
      after the answer before, all of them have been asked, and nobody else is still being asked. */
  lemma AnswerEndsIff(w: World, answer: Step)
    requires Inv(w) && !w.l.done && (answer.Closer? || answer.Providers?)
    ensures var w' := Next(w, answer); var nearest := Ids(FinishPeers(w'.l));
            && w'.l.best == nearest
            && (w'.l.done <==>
                && nearest == w.l.best
                && (forall id :: id in nearest ==> id in w.l.queried)
                && forall i :: 0 <= i < |w.l.inFlight| ==> w.l.inFlight[i].id == answer.from)
  {
    WithoutIsFilter(w.l.inFlight, answer.from);
    DropKeepsFlights(w.l, answer.from);
    var fs := Without(w.l.inFlight, answer.from);
    assert Next(w, answer).l.inFlight == fs;
    if fs == [] {
      forall i | 0 <= i < |w.l.inFlight| ensures w.l.inFlight[i].id == answer.from {
        assert w.l.inFlight[i] in w.l.inFlight;
      }
    } else {
      assert fs[0] in fs;
      var i :| 0 <= i < |w.l.inFlight| && w.l.inFlight[i] == fs[0];
    }
  }

  /** A record ends the lookup at once, is what was found, and settles the request of the peer it came from
      and no other. */
  lemma RecordEnds(w: World, from: Id, rec: StoredRecord)
    requires Inv(w)
    ensures var l := Next(w, LookupRuns.Record(from, rec)).l;
            && l.done && l.found == Some(rec) && l.shortlist == w.l.shortlist && l.queried == w.l.queried
            && forall f :: f in l.inFlight <==> f in w.l.inFlight && f.id != from
  {
    WithoutIsFilter(w.l.inFlight, from);
  }

  /** Between answers the nearest peers noted do not change. */
  lemma BestKept(w: World, step: Step)
    requires Inv(w) && !step.Closer? && !step.Providers?
    ensures Next(w, step).l.best == w.l.best
  {
    if step.Send? {
      DispatchIs(w.l, step.now, step.corrs);
    }
  }

  // ---------------------------------------------------------------- descriptors and providers

  /** Every peer descriptor a run has been given, in order of arrival. */
  function Told(seeds: seq<PeerInfo>, steps: seq<Step>): seq<PeerInfo>
    decreases |steps|
  {
    if steps == [] then seeds else Told(seeds, steps[..|steps| - 1]) + Reported(steps[|steps| - 1])
  }

  /** `p` is the first descriptor of its id in `told`. */
  ghost predicate FirstOf(p: PeerInfo, told: seq<PeerInfo>)
  {
    exists i :: 0 <= i < |told| && told[i] == p && forall j :: 0 <= j < i ==> told[j].id != p.id
  }

  lemma FirstOfLonger(p: PeerInfo, told: seq<PeerInfo>, more: seq<PeerInfo>)
    requires FirstOf(p, told)
    ensures FirstOf(p, told + more)
  {
    var i :| 0 <= i < |told| && told[i] == p && forall j :: 0 <= j < i ==> told[j].id != p.id;
    assert (told + more)[i] == p;
  }

  lemma {:induction false} MergeKeepsFirst(s: seq<PeerInfo>, told: seq<PeerInfo>, peers: seq<PeerInfo>)
    requires (forall p :: p in s ==> FirstOf(p, told)) && (forall q :: q in told ==> Known(s, q.id))
    ensures forall p :: p in Merge(s, peers) ==> FirstOf(p, told + peers)
    ensures forall q :: q in told + peers ==> Known(Merge(s, peers), q.id)
    decreases |peers|
  {
    if peers == [] {
      assert told + peers == told;
    } else {
      var p := peers[0];
      var s' := if Known(s, p.id) then s else s + [p];
      MergeOneKeepsFirst(s, told, p);
      assert (told + [p]) + peers[1..] == told + peers;
      MergeKeepsFirst(s', told + [p], peers[1..]);
    }
  }

  lemma MergeOneKeepsFirst(s: seq<PeerInfo>, told: seq<PeerInfo>, p: PeerInfo)
    requires (forall q :: q in s ==> FirstOf(q, told)) && (forall q :: q in told ==> Known(s, q.id))
    ensures var s' := if Known(s, p.id) then s else s + [p];
            && (forall q :: q in s' ==> FirstOf(q, told + [p]))
            && (forall q :: q in told + [p] ==> Known(s', q.id))
  {
    var s' := if Known(s, p.id) then s else s + [p];
    forall q | q in s' ensures FirstOf(q, told + [p]) {
      if q in s {
        FirstOfLonger(q, told, [p]);
      } else {
        var all := told + [p];
        assert all[|told|] == p;
        forall j | 0 <= j < |told| ensures all[j].id != p.id {
          assert told[j] in told && Known(s, told[j].id);
        }
      }
    }
    forall q | q in told + [p] ensures Known(s', q.id) {
      if q in told {
        var i :| 0 <= i < |s| && s[i].id == q.id;
        assert s'[i].id == q.id;
      } else if !Known(s, p.id) {
        assert s'[|s|].id == q.id;
      }
    }
  }

  lemma SameMembers(s: seq<PeerInfo>, target: Id)
    ensures forall p :: p in Sort(s, target) <==> p in s
    ensures forall id :: Known(Sort(s, target), id) <==> Known(s, id)
  {
    var r := Sort(s, target);
    SortIsSortedPermutation(s, target);
    assert forall p :: p in r <==> p in multiset(r);
    assert forall p :: p in s <==> p in multiset(s);
    forall id ensures Known(r, id) <==> Known(s, id) {
      if Known(r, id) {
        var i :| 0 <= i < |r| && r[i].id == id;
        assert r[i] in s;
        var j :| 0 <= j < |s| && s[j] == r[i];
      }
      if Known(s, id) {
        var i :| 0 <= i < |s| && s[i].id == id;
        assert s[i] in r;
        var j :| 0 <= j < |r| && r[j] == s[i];
      }
    }
  }

  ghost predicate Informed(l: LookupState, told: seq<PeerInfo>)
  {
    && (forall p :: p in l.shortlist ==> FirstOf(p, told))
    && (forall q :: q in told ==> Known(l.shortlist, q.id))
  }

  lemma NextInformed(w: World, step: Step, told: seq<PeerInfo>)
    requires Inv(w) && Informed(w.l, told)
    ensures Informed(Next(w, step).l, told + Reported(step))
  {
    match step
    case Send(now, corrs) =>
      DispatchIs(w.l, now, corrs);
      assert told + [] == told;
    case Closer(_, peers, _) =>
      MergeKeepsFirst(w.l.shortlist, told, peers);
      SameMembers(Merge(w.l.shortlist, peers), w.l.target);
    case Providers(_, _, closer) =>
      MergeKeepsFirst(w.l.shortlist, told, closer);
      SameMembers(Merge(w.l.shortlist, closer), w.l.target);
    case _ => assert told + [] == told;
  }

  lemma {:induction false} RunSnoc(w: World, steps: seq<Step>)
    requires steps != []
    ensures Run(w, steps) == Next(Run(w, steps[..|steps| - 1]), steps[|steps| - 1])
    decreases |steps|
  {
    var n := |steps| - 1;
    if n == 0 {
      assert steps[1..] == [] && steps[..0] == [];
      assert Run(w, steps) == Run(Next(w, steps[0]), steps[1..]);
    } else {
      RunSnoc(Next(w, steps[0]), steps[1..]);
      assert steps[1..][..n - 1] == steps[..n][1..];
      assert Run(w, steps[..n]) == Run(Next(w, steps[0]), steps[..n][1..]);
    }
  }

  lemma SeedsInformed(kind: Kind, target: Id, seeds: seq<PeerInfo>, now: nat)
    requires DistinctIds(seeds)
    ensures Informed(New(kind, target, seeds, now), seeds)
  {
    SameMembers(seeds, target);
    forall p | p in seeds ensures FirstOf(p, seeds) && Known(seeds, p.id) {
      var i :| 0 <= i < |seeds| && seeds[i] == p;
      assert seeds[i].id == p.id;
    }
  }

  /** At every moment of a run the shortlist holds, for each id it was told of, the first descriptor it
      was given for it, and nothing else. */
  lemma {:induction false} ShortlistHoldsFirstReports(kind: Kind, target: Id, seeds: seq<PeerInfo>, now: nat, steps: seq<Step>)
    requires DistinctIds(seeds)
    ensures Informed(Run(Start(kind, target, seeds, now), steps).l, Told(seeds, steps))
    decreases |steps|
  {
    var w := Start(kind, target, seeds, now);
    if steps == [] {
      SeedsInformed(kind, target, seeds, now);
    } else {
      var n := |steps| - 1;
      ShortlistHoldsFirstReports(kind, target, seeds, now, steps[..n]);
      RunSnoc(w, steps);
      StartHasInv(kind, target, seeds, now);
      RunKeepsInv(w, steps[..n]);
      NextInformed(Run(w, steps[..n]), steps[n], Told(seeds, steps[..n]));
    }
  }

  /** The providers a run has been told of, in order of arrival. */
  function Offered(steps: seq<Step>): seq<Provider>
    decreases |steps|
  {
    if steps == [] then []
    else Offered(steps[..|steps| - 1]) + if steps[|steps| - 1].Providers? then steps[|steps| - 1].more else []
  }

  ghost predicate ListedOnce(ps: seq<Provider>)
  {
    forall i, j :: 0 <= i < j < |ps| ==> ps[i].id != ps[j].id
  }

  ghost predicate FirstOffer(p: Provider, offered: seq<Provider>)
  {
    exists i :: 0 <= i < |offered| && offered[i] == p && forall j :: 0 <= j < i ==> offered[j].id != p.id
  }

  /** `ps` lists each provider offered once, as it was first offered. */
  ghost predicate Collected(ps: seq<Provider>, offered: seq<Provider>)
  {
    && ListedOnce(ps)
    && (forall p :: p in ps ==> FirstOffer(p, offered))
    && (forall q :: q in offered ==> Names(ps, q.id))
  }

  lemma CollectOne(s: seq<Provider>, offered: seq<Provider>, p: Provider)
    requires Collected(s, offered)
    ensures Collected(if Names(s, p.id) then s else s + [p], offered + [p])
  {
    var s', all := if Names(s, p.id) then s else s + [p], offered + [p];
    forall q | q in s' ensures FirstOffer(q, all) {
      if q in s {
        var i :| 0 <= i < |offered| && offered[i] == q && forall j :: 0 <= j < i ==> offered[j].id != q.id;
        assert all[i] == q;
      } else {
        assert all[|offered|] == p;
        forall j | 0 <= j < |offered| ensures all[j].id != p.id {
          assert offered[j] in offered && Names(s, offered[j].id);
        }
      }
    }
    forall q | q in all ensures Names(s', q.id) {
      if q in offered {
        var i :| 0 <= i < |s| && s[i].id == q.id;
        assert s'[i].id == q.id;
      } else if !Names(s, p.id) {
        assert s'[|s|].id == q.id;
      }
    }
  }

  lemma {:induction false} MergeCollects(s: seq<Provider>, offered: seq<Provider>, more: seq<Provider>)
    requires Collected(s, offered)
    ensures Collected(MergeProviders(s, more), offered + more)
    decreases |more|
  {
    if more == [] {
      assert offered + more == offered;
    } else {
      var s' := if Names(s, more[0].id) then s else s + [more[0]];
      CollectOne(s, offered, more[0]);
      assert (offered + [more[0]]) + more[1..] == offered + more;
      assert MergeProviders(s, more) == MergeProviders(s', more[1..]);
      MergeCollects(s', offered + [more[0]], more[1..]);
    }
  }

  lemma NextCollects(w: World, step: Step, offered: seq<Provider>)
    requires Sized(w.l) && Collected(w.l.providers, offered)
    ensures Collected(Next(w, step).l.providers, offered + if step.Providers? then step.more else [])
  {
    match step
    case Send(now, corrs) =>
      DispatchIs(w.l, now, corrs);
      assert offered + [] == offered;
    case Providers(_, more, _) => MergeCollects(w.l.providers, offered, more);
    case _ => assert offered + [] == offered;
  }

  /** At every moment the providers collected are those offered so far, each once, as first offered. */
  lemma {:induction false} ProvidersCollected(kind: Kind, target: Id, seeds: seq<PeerInfo>, now: nat, steps: seq<Step>)
    ensures Sized(Run(Start(kind, target, seeds, now), steps).l)
    ensures Collected(Run(Start(kind, target, seeds, now), steps).l.providers, Offered(steps))
    decreases |steps|
  {
    if steps != [] {
      var w, n := Start(kind, target, seeds, now), |steps| - 1;
      ProvidersCollected(kind, target, seeds, now, steps[..n]);
      RunSnoc(w, steps);
      NextCollects(Run(w, steps[..n]), steps[n], Offered(steps[..n]));
      NextSized(Run(w, steps[..n]), steps[n]);
    }
  }

  lemma NextSized(w: World, step: Step)
    requires Sized(w.l)
    ensures Sized(Next(w, step).l)
  {
    match step
    case Send(now, corrs) =>
      DispatchIs(w.l, now, corrs);
      BatchFits(w.l, now);
      FlightsAreAddressed(Batch(w.l, now), 0, corrs, now);
    case Expire(now) => E.AliveAndDead(w.l.inFlight, now);
    case Closer(from, _, _) => E.WithoutShrinks(w.l.inFlight, from);
    case Providers(from, _, _) =>
      E.WithoutShrinks(w.l.inFlight, from);
      E.WithoutShrinks(Without(w.l.inFlight, from), from);
    case Record(from, _) => E.WithoutShrinks(w.l.inFlight, from);
  }
}
