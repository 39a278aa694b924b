/** Whom an answer settles. The shard names the answering peer by its address for lists of peers, but
    passes the all-zero id for providers (`src/shard.rs`), so such an answer leaves its request open. */
module LookupAnswers {
  import opened Xor
  import opened Peers
  import opened Lookups
  import opened LookupRuns
  import opened LookupSeeds
  import opened LookupEnds

  const ZERO_ID: Id := seq(32, _ => 0)

  lemma PresentIsInFlight(fs: seq<Flight>, f: Flight)
    requires f in fs
    ensures InFlight(fs, f.id)
  {
    var i :| 0 <= i < |fs| && fs[i] == f;
    assert fs[i].id == f.id;
  }

  /** What the answer does to the request `f`, if it is given under the id `from`. */
  lemma AnswerSettlesIff(w: World, f: Flight, answer: Step)
    requires Inv(w) && f in w.l.inFlight && (answer.Closer? || answer.Providers?)
    ensures var l := Next(w, answer).l;
            && (f in l.inFlight <==> answer.from != f.id)
            && (InFlight(l.inFlight, f.id) <==> answer.from != f.id)
            && l.queried == w.l.queried && l.retries == w.l.retries
  {
    var l := Next(w, answer).l;
    WithoutIsFilter(w.l.inFlight, answer.from);
    DropKeepsFlights(w.l, answer.from);
    assert l.inFlight == Without(w.l.inFlight, answer.from);
    if answer.from != f.id {
      PresentIsInFlight(l.inFlight, f);
    }
  }

  lemma {:induction false} DeadIffTimedOut(fs: seq<Flight>, f: Flight, now: nat)
    requires DistinctFlights(fs) && f in fs
    ensures f.id in Dead(fs, now) <==> TimedOut(f, now)
  {
    var rest := fs[1..];
    assert fs == [fs[0]] + rest;
    if f == fs[0] {
      AliveIsFilter(rest, now);
      assert !InFlight(rest, f.id);
    } else {
      assert f in rest;
      var i :| 0 <= i < |rest| && rest[i] == f;
      assert fs[i + 1] == f && fs[0].id != f.id;
      DeadIffTimedOut(rest, f, now);
    }
  }

  /** When its request expires a peer may be asked again, exactly if it had no retry yet. */
  lemma ExpiredEligibleIff(w: World, f: Flight, now: nat, p: PeerInfo)
    requires Inv(w) && f in w.l.inFlight && p.id == f.id && TimedOut(f, now)
    ensures Eligible(Next(w, Expire(now)).l, p) <==> p.id !in w.l.retries
  {
    var fs := w.l.inFlight;
    var l := Next(w, Expire(now)).l;
    AliveIsFilter(fs, now);
    DeadIffTimedOut(fs, f, now);
    assert !InFlight(l.inFlight, p.id);
    var j :| 0 <= j < |fs| && fs[j] == f;
    assert f.id in w.l.queried;
  }

  /** A settled peer is not asked again: it stays queried and no expiry concerns it. */
  lemma SettledStaysQueried(w: World, now: nat, p: PeerInfo)
    requires Inv(w) && p.id in w.l.queried && !InFlight(w.l.inFlight, p.id)
    ensures !Eligible(Next(w, Expire(now)).l, p)
  {
    AliveIsFilter(w.l.inFlight, now);
  }

  /** A peer that has answered may be asked again after its request expires, if and only if the answer
      was given under another id and the peer had no retry yet. */
  lemma AnsweredPeerAskedAgainIff(w: World, f: Flight, answer: Step, now: nat, p: PeerInfo)
    requires Inv(w) && f in w.l.inFlight && p.id == f.id && TimedOut(f, now) && (answer.Closer? || answer.Providers?)
    ensures Eligible(Next(Next(w, answer), Expire(now)).l, p) <==> answer.from != p.id && p.id !in w.l.retries
  {
    var w' := Next(w, answer);
    StepKeepsInv(w, answer);
    AnswerSettlesIff(w, f, answer);
    if answer.from != p.id {
      ExpiredEligibleIff(w', f, now, p);
    } else {
      var j :| 0 <= j < |w.l.inFlight| && w.l.inFlight[j] == f;
      assert f.id in w.l.queried;
      SettledStaysQueried(w', now, p);
    }
  }

  /** The input: the one peer of a lookup answers with providers, and is asked a second time. */
  lemma ProviderAnswerAskedAgain(target: Id, p: PeerInfo, more: seq<Provider>, corrs: nat -> nat)
    requires p.addrs != [] && p.id != ZERO_ID
    ensures var t := REQUEST_TIMEOUT + 1;
            Run(Start(FindValue, target, [p], 0), [Send(0, corrs), Providers(ZERO_ID, more, []), Expire(t), Send(t, corrs)]).sent[p.id] == 2
  {
    var t, w0 := REQUEST_TIMEOUT + 1, Start(FindValue, target, [p], 0);
    var w1 := Next(w0, Send(0, corrs));
    var w2 := Next(w1, Providers(ZERO_ID, more, []));
    OnePeerAsked(FindValue, target, p, 0, corrs);
    OnePeerCounted(w0, p, 0, corrs);
    AnswerKeepsFlight(w1, p, Flight(p.id, corrs(0), 0), more);
    AskedOnExpiry(w2, p, Flight(p.id, corrs(0), 0), t, corrs);
    RunOfFour(w0, Send(0, corrs), Providers(ZERO_ID, more, []), Expire(t), Send(t, corrs));
  }

  lemma RunOfFour(w: World, a: Step, b: Step, c: Step, d: Step)
    ensures Run(w, [a, b, c, d]) == Next(Next(Next(Next(w, a), b), c), d)
  {
    assert [a, b, c, d][1..] == [b, c, d];
    RunThree(Next(w, a), b, c, d);
  }

  lemma OnePeerCounted(w: World, p: PeerInfo, now: nat, corrs: nat -> nat)
    requires w.l.shortlist == [p] && p.addrs != [] && Untouched(w.l, now)
    ensures Next(w, Send(now, corrs)).sent[p.id] == w.sent[p.id] + 1
  {
    SendAll(w, now, corrs);
    AskedIsEntries([p], p.id);
    assert [p][1..] == [];
  }

  /** The one peer, still in flight, is asked again once its request expires. */
  lemma AskedOnExpiry(w: World, p: PeerInfo, f: Flight, t: nat, corrs: nat -> nat)
    requires w.l.shortlist == [p] && p.addrs != [] && w.l.inFlight == [f] && f.id == p.id && t > f.sentAt + REQUEST_TIMEOUT
    requires w.l.queried == {p.id} && w.l.retries == {} && Sized(w.l) && !w.l.done && !OutOfTime(w.l, t)
    ensures Next(Next(w, Expire(t)), Send(t, corrs)).sent[p.id] == w.sent[p.id] + 1
  {
    assert FlightIds([f]) == [p.id];
    ExpireAll(w, f.sentAt, t);
    OnePeerCounted(Next(w, Expire(t)), p, t, corrs);
  }

  lemma AnswerKeepsFlight(w: World, p: PeerInfo, f: Flight, more: seq<Provider>)
    requires w.l.shortlist == [p] && w.l.inFlight == [f] && f.id == p.id != ZERO_ID && !w.l.done && w.l.alpha == ALPHA_DEFAULT
    requires w.l.k == K_DEFAULT
    ensures var w' := Next(w, Providers(ZERO_ID, more, []));
            && w'.sent == w.sent
            && w'.l == w.l.(alpha := ALPHA_DEFAULT - 1, best := [p.id], providers := w'.l.providers)
  {
    NothingLeftToDrop([f], ZERO_ID);
    assert Sort([p], w.l.target) == [p] by { assert [p][1..] == []; }
    assert Ids([p]) == [p.id];
  }
}
