/** What each caller of a lookup is told. The shard's run is followed together with what happens to
    each lookup on the way, so that an answer can be compared with everything its lookup was told. */
module ShardAnswers {
  import opened Xor
  import opened Peers
  import opened Records
  import opened Lookups
  import opened ShardLookups
  import opened LookupPromises
  import L = LookupRuns
  import Once = ShardReplies

  datatype Asked = Asked(kind: Kind, target: Id, seeds: seq<PeerInfo>, now: nat)

  /** The shard, the calls made so far, and for each call the steps its lookup has taken. */
  datatype Tracked = Tracked(s: Shard, calls: seq<Asked>, traces: seq<seq<L.Step>>)

  // ---------------------------------------------------------------- following a run

  function Note(traces: seq<seq<L.Step>>, tx: nat, step: L.Step): seq<seq<L.Step>>
  {
    if tx < |traces| then traces[tx := traces[tx] + [step]] else traces
  }

  function SendStep(l: LookupState, c: Counter, now: nat, extra: nat -> nat): L.Step
  {
    L.Send(now, Corrs(c, Batch(l, now), extra))
  }

  function AsStep(r: Response): L.Step
  {
    match r
    case CloserPeers(from, peers, rttUs) => L.Closer(from, peers, rttUs)
    case SomeProviders(from, more, closer) => L.Providers(from, more, closer)
    case TheRecord(from, rec) => L.Record(from, rec)
  }

  function FollowServe(t: Tracked, id: nat, now: nat, extra: nat -> nat): Tracked
  {
    if id !in t.s.lookups then t
    else
      var p := t.s.lookups[id];
      Tracked(ServeOne(t.s, id, now, extra), t.calls, Note(t.traces, p.tx, SendStep(p.lookup, t.s.counter, now, extra)))
  }

  function FollowSweep(t: Tracked, ids: seq<nat>, now: nat, extra: (nat, nat) -> nat): Tracked
  {
    if ids == [] then t
    else
      var n := |ids| - 1;
      FollowServe(FollowSweep(t, ids[..n], now, extra), ids[n], now, (i: nat) => extra(ids[n], i))
  }

  function FollowExpire(t: Tracked, now: nat): Tracked
  {
    Tracked(ExpireAll(t.s, now), t.calls,
            seq(|t.traces|, i requires 0 <= i < |t.traces| =>
              if exists k :: k in t.s.lookups && t.s.lookups[k].tx == i then t.traces[i] + [L.Expire(now)] else t.traces[i]))
  }

  function Follow(t: Tracked, step: Once.Step): Tracked
  {
    match step
    case Call(kind, target, seeds, now, extra) =>
      Tracked(StartLookup(t.s, kind, target, seeds, now, extra), t.calls + [Asked(kind, target, seeds, now)],
              t.traces + [[SendStep(New(kind, target, seeds, now), t.s.counter, now, extra)]])
    case Got(hit, r) =>
      if hit.None? || hit.value !in t.s.lookups then t
      else Tracked(Respond(t.s, hit, r), t.calls, Note(t.traces, t.s.lookups[hit.value].tx, AsStep(r)))
    case SweepNow(ids, now, extra) => FollowSweep(t, ids, now, extra)
    case Expire(now) => FollowExpire(t, now)
    case Other(n) => t.(s := t.s.(counter := Allocate(t.s.counter, n)))
  }

  function FollowRun(t: Tracked, steps: seq<Once.Step>): Tracked
    decreases |steps|
  {
    if steps == [] then t else FollowRun(Follow(t, steps[0]), steps[1..])
  }

  const Idle: Tracked := Tracked(Once.Idle, [], [])

  lemma {:induction false} SweepFollowed(t: Tracked, ids: seq<nat>, now: nat, extra: (nat, nat) -> nat)
    ensures FollowSweep(t, ids, now, extra).s == Sweep(t.s, ids, now, extra)
  {
    if ids != [] {
      SweepFollowed(t, ids[..|ids| - 1], now, extra);
    }
  }

  /** Following a run does not change it. */
  lemma {:induction false} RunFollowed(t: Tracked, steps: seq<Once.Step>)
    ensures FollowRun(t, steps).s == Once.Run(t.s, steps)
    decreases |steps|
  {
    if steps != [] {
      if steps[0].SweepNow? {
        SweepFollowed(t, steps[0].ids, steps[0].now, steps[0].extra2);
      }
      RunFollowed(Follow(t, steps[0]), steps[1..]);
    }
  }

  // ---------------------------------------------------------------- the right answer

  function After(c: Asked, trace: seq<L.Step>): L.World
  {
    L.Run(L.Start(c.kind, c.target, c.seeds, c.now), trace)
  }

  /** The record that came last, if one came. */
  function LastRecord(trace: seq<L.Step>): Option<StoredRecord>
    decreases |trace|
  {
    if trace == [] then None
    else if trace[|trace| - 1].Record? then Some(trace[|trace| - 1].rec)
    else LastRecord(trace[..|trace| - 1])
  }

  /** What the caller of `c` should be told after its lookup took the steps `trace`. A search for peers
      is answered with the 20 nearest it was told of, as first described. A search for a value is
      answered with the record if one came, otherwise with every provider offered, once each and as first
      offered, and with nothing exactly if none was. */
  ghost predicate Right(c: Asked, trace: seq<L.Step>, reply: Reply)
  {
    match c.kind
    case FindNode =>
      && reply.PeerList?
      && (DistinctIds(c.seeds) ==>
            && IsNearest(Ids(reply.peers), After(c, trace).learned, c.target, 20)
            && forall p :: p in reply.peers ==> FirstOf(p, Told(c.seeds, trace)))
    case FindValue =>
      if LastRecord(trace).Some? then reply == Found(LastRecord(trace).value)
      else if Offered(trace) == [] then reply == NoValue
      else reply.ProviderList? && Collected(reply.providers, Offered(trace))
  }

  lemma {:induction false} RunKeepsKind(c: Asked, trace: seq<L.Step>)
    ensures After(c, trace).l.kind == c.kind && After(c, trace).l.found == LastRecord(trace) && L.Sized(After(c, trace).l)
    decreases |trace|
  {
    if trace != [] {
      var w, n := L.Start(c.kind, c.target, c.seeds, c.now), |trace| - 1;
      RunKeepsKind(c, trace[..n]);
      RunSnoc(w, trace);
      NextSized(L.Run(w, trace[..n]), trace[n]);
      if trace[n].Send? {
        L.DispatchIs(L.Run(w, trace[..n]).l, trace[n].now, trace[n].corrs);
      }
    }
  }

  lemma PeersRight(c: Asked, trace: seq<L.Step>)
    requires c.kind == FindNode
    ensures Right(c, trace, ReplyOf(After(c, trace).l))
  {
    var l := After(c, trace).l;
    RunKeepsKind(c, trace);
    if DistinctIds(c.seeds) {
      L.FinishIsNearest(c.kind, c.target, c.seeds, c.now, trace);
      ShortlistHoldsFirstReports(c.kind, c.target, c.seeds, c.now, trace);
      assert forall p :: p in FinishPeers(l) ==> p in l.shortlist;
    }
  }

  lemma ValueRight(c: Asked, trace: seq<L.Step>)
    requires c.kind == FindValue
    ensures Right(c, trace, ReplyOf(After(c, trace).l))
  {
    var ps := After(c, trace).l.providers;
    RunKeepsKind(c, trace);
    ProvidersCollected(c.kind, c.target, c.seeds, c.now, trace);
    assert Offered(trace) != [] ==> Names(ps, Offered(trace)[0].id);
    assert ps != [] ==> FirstOffer(ps[0], Offered(trace));
  }

  lemma OutcomeRight(c: Asked, trace: seq<L.Step>)
    ensures Right(c, trace, ReplyOf(After(c, trace).l))
  {
    if c.kind == FindNode {
      PeersRight(c, trace);
    } else {
      ValueRight(c, trace);
    }
  }

  // ---------------------------------------------------------------- the invariant

  /** A pending lookup is where its trace leads. */
  ghost predicate PendingOk(t: Tracked, k: nat)
  {
    k in t.s.lookups ==>
      var p := t.s.lookups[k];
      p.tx < |t.calls| && p.tx < |t.traces| && p.lookup == After(t.calls[p.tx], t.traces[p.tx]).l
  }

  ghost predicate AnswerOk(t: Tracked, a: Answer)
  {
    && a.tx < |t.calls| && a.tx < |t.traces| && Right(t.calls[a.tx], t.traces[a.tx], a.reply)
    && forall k :: k in t.s.lookups ==> t.s.lookups[k].tx != a.tx
  }

  ghost predicate TxsDistinct(s: Shard)
  {
    forall k, m :: k in s.lookups && m in s.lookups && s.lookups[k].tx == s.lookups[m].tx ==> k == m
  }

  ghost predicate Inv(t: Tracked)
  {
    && |t.calls| == |t.traces| == t.s.started
    && (forall k :: k in t.s.lookups ==> PendingOk(t, k))
    && TxsDistinct(t.s)
    && (forall a :: a in t.s.answers ==> AnswerOk(t, a))
  }

  lemma AfterSnoc(c: Asked, trace: seq<L.Step>, step: L.Step)
    ensures After(c, trace + [step]) == L.Next(After(c, trace), step)
  {
    assert (trace + [step])[..|trace|] == trace;
    RunSnoc(L.Start(c.kind, c.target, c.seeds, c.now), trace + [step]);
  }

  lemma NextIsAfter(w: L.World, step: L.Step)
    ensures L.Next(w, step).l == L.After(w.l, step)
  {
  }

  lemma SendLeads(c: Asked, trace: seq<L.Step>, counter: Counter, now: nat, extra: nat -> nat)
    ensures var l := After(c, trace).l;
            After(c, trace + [SendStep(l, counter, now, extra)]).l == DispatchAt(l, counter, now, extra)
  {
    var step := SendStep(After(c, trace).l, counter, now, extra);
    AfterSnoc(c, trace, step);
    NextIsAfter(After(c, trace), step);
  }

  lemma AnswerLeads(c: Asked, trace: seq<L.Step>, r: Response)
    ensures After(c, trace + [AsStep(r)]).l == Apply(After(c, trace).l, r)
  {
    AfterSnoc(c, trace, AsStep(r));
    NextIsAfter(After(c, trace), AsStep(r));
  }

  /** `t'` differs from `t` only in what concerns the caller `tx`. */
  ghost predicate OnlyConcerns(t: Tracked, t': Tracked, tx: nat)
  {
    && t.calls <= t'.calls && |t'.calls| == |t'.traces| == t'.s.started && tx < |t'.calls|
    && (forall i :: 0 <= i < |t.traces| && i != tx ==> i < |t'.traces| && t'.traces[i] == t.traces[i])
    && (forall k :: k in t'.s.lookups && t'.s.lookups[k].tx != tx ==> k in t.s.lookups && t'.s.lookups[k] == t.s.lookups[k])
    && (forall k, m :: k in t'.s.lookups && m in t'.s.lookups && t'.s.lookups[k].tx == t'.s.lookups[m].tx == tx ==> k == m)
    && (forall a :: a in t'.s.answers && a.tx != tx ==> a in t.s.answers)
  }

  /** It keeps the invariant if it is in order for that caller. */
  lemma OneCallerKeepsInv(t: Tracked, t': Tracked, tx: nat)
    requires Inv(t) && OnlyConcerns(t, t', tx)
    requires forall k :: k in t'.s.lookups && t'.s.lookups[k].tx == tx ==> PendingOk(t', k)
    requires forall a :: a in t'.s.answers && a.tx == tx ==> AnswerOk(t', a)
    ensures Inv(t')
  {
    forall k | k in t'.s.lookups ensures PendingOk(t', k) {
      if t'.s.lookups[k].tx != tx {
        assert PendingOk(t, k);
      }
    }
    forall a | a in t'.s.answers ensures AnswerOk(t', a) {
      if a.tx != tx {
        assert AnswerOk(t, a);
      }
    }
  }

  /** The caller of a pending lookup has not been answered, and waits for no other. */
  lemma PendingNotAnswered(t: Tracked, k: nat)
    requires Inv(t) && k in t.s.lookups
    ensures PendingOk(t, k)
    ensures forall a :: a in t.s.answers ==> a.tx != t.s.lookups[k].tx
    ensures forall m :: m in t.s.lookups && m != k ==> t.s.lookups[m].tx != t.s.lookups[k].tx
  {
    forall a | a in t.s.answers ensures a.tx != t.s.lookups[k].tx {
      assert AnswerOk(t, a);
    }
  }

  lemma ServeFollowed(t: Tracked, id: nat, now: nat, extra: nat -> nat)
    requires Inv(t)
    ensures Inv(FollowServe(t, id, now, extra))
  {
    if id in t.s.lookups {
      var p, t' := t.s.lookups[id], FollowServe(t, id, now, extra);
      PendingNotAnswered(t, id);
      SendLeads(t.calls[p.tx], t.traces[p.tx], t.s.counter, now, extra);
      OutcomeRight(t.calls[p.tx], t'.traces[p.tx]);
      ServeConcerns(t, id, now, extra);
      OneCallerKeepsInv(t, t', p.tx);
    }
  }

  lemma ServeConcerns(t: Tracked, id: nat, now: nat, extra: nat -> nat)
    requires Inv(t) && id in t.s.lookups
    ensures OnlyConcerns(t, FollowServe(t, id, now, extra), t.s.lookups[id].tx)
  {
    PendingNotAnswered(t, id);
  }

  lemma {:induction false} FollowSweepKeepsInv(t: Tracked, ids: seq<nat>, now: nat, extra: (nat, nat) -> nat)
    requires Inv(t)
    ensures Inv(FollowSweep(t, ids, now, extra))
  {
    if ids != [] {
      var n := |ids| - 1;
      FollowSweepKeepsInv(t, ids[..n], now, extra);
      ServeFollowed(FollowSweep(t, ids[..n], now, extra), ids[n], now, (i: nat) => extra(ids[n], i));
    }
  }

  lemma CallConcerns(t: Tracked, step: Once.Step)
    requires Inv(t) && step.Call?
    ensures OnlyConcerns(t, Follow(t, step), t.s.started)
    ensures forall a :: a in t.s.answers ==> a.tx != t.s.started
    ensures forall k :: k in t.s.lookups ==> t.s.lookups[k].tx != t.s.started
  {
    TxsBelow(t);
  }

  lemma CallKeepsInv(t: Tracked, step: Once.Step)
    requires Inv(t) && step.Call?
    ensures Inv(Follow(t, step))
  {
    var c := Asked(step.kind, step.target, step.seeds, step.now);
    var t', tx := Follow(t, step), t.s.started;
    var send := SendStep(After(c, []).l, t.s.counter, c.now, step.extra);
    assert [] + [send] == [send] && t'.calls[tx] == c && t'.traces[tx] == [send];
    SendLeads(c, [], t.s.counter, c.now, step.extra);
    OutcomeRight(c, [send]);
    CallConcerns(t, step);
    OneCallerKeepsInv(t, t', tx);
  }

  /** Callers waiting or answered have called before. */
  lemma TxsBelow(t: Tracked)
    requires Inv(t)
    ensures forall k :: k in t.s.lookups ==> t.s.lookups[k].tx < t.s.started
    ensures forall a :: a in t.s.answers ==> a.tx < t.s.started
  {
    forall k | k in t.s.lookups ensures t.s.lookups[k].tx < t.s.started {
      assert PendingOk(t, k);
    }
    forall a | a in t.s.answers ensures a.tx < t.s.started {
      assert AnswerOk(t, a);
    }
  }

  lemma GotKeepsInv(t: Tracked, step: Once.Step)
    requires Inv(t) && step.Got?
    ensures Inv(Follow(t, step))
  {
    if step.hit.Some? && step.hit.value in t.s.lookups {
      var p, t' := t.s.lookups[step.hit.value], Follow(t, step);
      PendingNotAnswered(t, step.hit.value);
      AnswerLeads(t.calls[p.tx], t.traces[p.tx], step.r);
      assert OnlyConcerns(t, t', p.tx);
      OneCallerKeepsInv(t, t', p.tx);
    }
  }

  lemma ExpireKeepsInv(t: Tracked, now: nat)
    requires Inv(t)
    ensures Inv(FollowExpire(t, now))
  {
    var t' := FollowExpire(t, now);
    forall k | k in t'.s.lookups ensures PendingOk(t', k) {
      assert PendingOk(t, k);
      var tx := t.s.lookups[k].tx;
      AfterSnoc(t.calls[tx], t.traces[tx], L.Expire(now));
      NextIsAfter(After(t.calls[tx], t.traces[tx]), L.Expire(now));
    }
    forall a | a in t'.s.answers ensures AnswerOk(t', a) {
      assert AnswerOk(t, a);
    }
  }

  lemma FollowKeepsInv(t: Tracked, step: Once.Step)
    requires Inv(t)
    ensures Inv(Follow(t, step))
  {
    match step
    case Call(_, _, _, _, _) => CallKeepsInv(t, step);
    case Got(_, _) => GotKeepsInv(t, step);
    case SweepNow(ids, now, extra) => FollowSweepKeepsInv(t, ids, now, extra);
    case Expire(now) => ExpireKeepsInv(t, now);
    case Other(n) =>
      var t' := Follow(t, step);
      forall k | k in t'.s.lookups ensures PendingOk(t', k) {
        assert PendingOk(t, k);
      }
      forall a | a in t'.s.answers ensures AnswerOk(t', a) {
        assert AnswerOk(t, a);
      }
  }

  lemma {:induction false} FollowRunKeepsInv(t: Tracked, steps: seq<Once.Step>)
    requires Inv(t)
    ensures Inv(FollowRun(t, steps))
    decreases |steps|
  {
    if steps != [] {
      FollowKeepsInv(t, steps[0]);
      FollowRunKeepsInv(Follow(t, steps[0]), steps[1..]);
    }
  }

  // ---------------------------------------------------------------- results

  /** Over every run of the shard, whatever each caller has been told is the right answer to its call,
      given everything that happened to its lookup. */
  lemma EveryAnswerIsRight(steps: seq<Once.Step>, a: Answer)
    requires a in Once.Run(Once.Idle, steps).answers
    ensures var t := FollowRun(Idle, steps);
            && t.s == Once.Run(Once.Idle, steps) && a.tx < |t.calls| == |t.traces|
            && Right(t.calls[a.tx], t.traces[a.tx], a.reply)
  {
    RunFollowed(Idle, steps);
    FollowRunKeepsInv(Idle, steps);
    assert AnswerOk(FollowRun(Idle, steps), a);
  }

  /** A response is learned by the lookup it hits, and by no other. */
  lemma ResponseIsLearned(s: Shard, k: nat, r: Response, m: nat)
    requires k in s.lookups && m in s.lookups
    ensures var s' := Respond(s, Some(k), r);
            && s'.answers == s.answers && s'.lookups.Keys == s.lookups.Keys && s'.lookups[m].tx == s.lookups[m].tx
            && (m != k ==> s'.lookups[m] == s.lookups[m])
            && (r.CloserPeers? ==> forall p :: p in r.peers ==> Known(s'.lookups[k].lookup.shortlist, p.id))
            && (r.SomeProviders? ==> forall p :: p in r.more ==> Names(s'.lookups[k].lookup.providers, p.id))
            && (r.SomeProviders? ==> forall p :: p in r.closer ==> Known(s'.lookups[k].lookup.shortlist, p.id))
            && (r.TheRecord? ==> s'.lookups[k].lookup.done && s'.lookups[k].lookup.found == Some(r.rec))
  {
    var l := s.lookups[k].lookup;
    match r
    case CloserPeers(from, peers, rttUs) =>
      MergedAreKnown(l.shortlist, peers);
      SameMembers(Merge(l.shortlist, peers), l.target);
    case SomeProviders(from, more, closer) =>
      MergedAreKnown(l.shortlist, closer);
      SameMembers(Merge(l.shortlist, closer), l.target);
      MergedAreNamed(l.providers, more);
    case TheRecord(from, rec) =>
  }

  lemma {:induction false} MergedAreKnown(s: seq<PeerInfo>, peers: seq<PeerInfo>)
    ensures forall id :: Known(s, id) ==> Known(Merge(s, peers), id)
    ensures forall p :: p in peers ==> Known(Merge(s, peers), p.id)
    decreases |peers|
  {
    if peers != [] {
      var s' := if Known(s, peers[0].id) then s else s + [peers[0]];
      MergedAreKnown(s', peers[1..]);
      assert Known(s', peers[0].id) by {
        assert !Known(s, peers[0].id) ==> s'[|s|].id == peers[0].id;
      }
      forall id | Known(s, id) ensures Known(s', id) {
        var i :| 0 <= i < |s| && s[i].id == id;
        assert s'[i].id == id;
      }
    }
  }

  lemma {:induction false} MergedAreNamed(s: seq<Provider>, more: seq<Provider>)
    ensures forall id :: Names(s, id) ==> Names(MergeProviders(s, more), id)
    ensures forall p :: p in more ==> Names(MergeProviders(s, more), p.id)
    decreases |more|
  {
    if more != [] {
      var s' := if Names(s, more[0].id) then s else s + [more[0]];
      MergedAreNamed(s', more[1..]);
      assert Names(s', more[0].id) by {
        assert !Names(s, more[0].id) ==> s'[|s|].id == more[0].id;
      }
      forall id | Names(s, id) ensures Names(s', id) {
        var i :| 0 <= i < |s| && s[i].id == id;
        assert s'[i].id == id;
      }
    }
  }

  /** After an expiry no pending lookup has a request older than 400 ms in flight; no lookup is lost, and
      requests that have not expired stay. */
  lemma ExpireClearsOld(s: Shard, now: nat, k: nat)
    requires k in s.lookups
    ensures var s' := ExpireAll(s, now);
            && s'.answers == s.answers && k in s'.lookups && s'.lookups[k].tx == s.lookups[k].tx
            && forall f :: f in s'.lookups[k].lookup.inFlight <==> f in s.lookups[k].lookup.inFlight && Since(now, f.sentAt) <= 400 * MS
  {
    AliveIsYoung(s.lookups[k].lookup.inFlight, now);
  }

  lemma {:induction false} AliveIsYoung(fs: seq<Flight>, now: nat)
    ensures forall f :: f in Alive(fs, now) <==> f in fs && Since(now, f.sentAt) <= 400 * MS
  {
    if fs != [] {
      AliveIsYoung(fs[1..], now);
      assert fs == [fs[0]] + fs[1..];
    }
  }

  /** A sweep serves: a lookup it leaves pending has a request in flight to every addressed peer of its
      batch, each sent at the time of the sweep. */
  lemma ServedLookupAsks(s: Shard, id: nat, now: nat, extra: nat -> nat, p: PeerInfo)
    requires id in s.lookups && L.Sized(s.lookups[id].lookup)
    requires p in Batch(s.lookups[id].lookup, now) && p.addrs != []
    requires id in ServeOne(s, id, now, extra).lookups
    ensures var fs := ServeOne(s, id, now, extra).lookups[id].lookup.inFlight;
            SentTo(fs, p.id, now)
  {
    var l := s.lookups[id].lookup;
    var b, corrs := Batch(l, now), Corrs(s.counter, Batch(l, now), extra);
    L.DispatchIs(l, now, corrs);
    var k :| 0 <= k < |b| && b[k] == p;
    FlightFor(b, 0, corrs, now, k);
    var fs := L.Flights(b, 0, corrs, now);
    var i :| 0 <= i < |fs| && fs[i].id == p.id && fs[i].sentAt == now;
    assert (l.inFlight + fs)[|l.inFlight| + i] == fs[i];
  }

  ghost predicate SentTo(fs: seq<Flight>, id: Id, now: nat)
  {
    exists i :: 0 <= i < |fs| && fs[i].id == id && fs[i].sentAt == now
  }

  lemma {:induction false} FlightFor(batch: seq<PeerInfo>, i: nat, corrs: nat -> nat, now: nat, k: nat)
    requires i <= k < |batch| && batch[k].addrs != []
    ensures SentTo(L.Flights(batch, i, corrs, now), batch[k].id, now)
    decreases |batch| - i
  {
    var fs := L.Flights(batch, i, corrs, now);
    if i == k {
      assert fs[0] == Flight(batch[k].id, corrs(k), now);
      assert fs[0].id == batch[k].id;
    } else {
      FlightFor(batch, i + 1, corrs, now, k);
      var rest := L.Flights(batch, i + 1, corrs, now);
      var j :| 0 <= j < |rest| && rest[j].id == batch[k].id && rest[j].sentAt == now;
      assert fs[|fs| - |rest| + j] == rest[j];
    }
  }

  // ---------------------------------------------------------------- requests in flight

  /** A dispatch adds requests to peers of the batch only, under the ids drawn for them, sent now. */
  ghost predicate SentNow(f: Flight, batch: seq<PeerInfo>, corrs: nat -> nat, now: nat)
  {
    f.sentAt == now && exists j: nat :: j < |batch| && f.corr == corrs(j) && f.id == batch[j].id
  }

  lemma {:induction false} SendAdds(l: LookupState, batch: seq<PeerInfo>, i: nat, corrs: nat -> nat, now: nat)
    requires i <= |batch|
    ensures forall f :: f in SendFrom(l, batch, i, corrs, now).inFlight ==> f in l.inFlight || SentNow(f, batch, corrs, now)
    decreases |batch| - i
  {
    if i < |batch| {
      var l' := if batch[i].addrs == [] then l else NoteSent(l, batch[i].id, corrs(i), now);
      SendAdds(l', batch, i + 1, corrs, now);
      forall f | f in l'.inFlight ensures f in l.inFlight || SentNow(f, batch, corrs, now) {
        if f !in l.inFlight {
          assert f == Flight(batch[i].id, corrs(i), now);
        }
      }
    }
  }

  predicate Usable(id: nat) { 1 <= id < 0x1_0000_0000 }

  lemma {:induction false} AllocateUsable(c: Counter, n: nat)
    requires Usable(c.next)
    ensures Usable(Allocate(c, n).next)
    decreases n
  {
    if n > 0 {
      AllocateUsable(Counter(NextCorr(c.next), c.used + 1), n - 1);
    }
  }

  lemma {:induction false} CounterUsable(c: Counter, batch: seq<PeerInfo>, i: nat, extra: nat -> nat)
    requires i <= |batch| && Usable(c.next)
    ensures Usable(CounterAt(c, batch, i, extra).next)
  {
    if i > 0 {
      CounterUsable(c, batch, i - 1, extra);
      AllocateUsable(CounterAt(c, batch, i - 1, extra), 1 + if batch[i - 1].addrs == [] then 0 else extra(i - 1));
    }
  }

  ghost predicate AllUsable(fs: seq<Flight>)
  {
    forall f :: f in fs ==> Usable(f.corr)
  }

  ghost predicate UsableIds(s: Shard)
  {
    Usable(s.counter.next) && forall k :: k in s.lookups ==> AllUsable(s.lookups[k].lookup.inFlight)
  }

  lemma DispatchUsable(l: LookupState, c: Counter, now: nat, extra: nat -> nat)
    requires AllUsable(l.inFlight) && Usable(c.next)
    ensures AllUsable(DispatchAt(l, c, now, extra).inFlight) && Usable(CounterAfter(l, c, now, extra).next)
  {
    var b := Batch(l, now);
    var corrs := Corrs(c, b, extra);
    SendAdds(NextBatch(l, now), b, 0, corrs, now);
    CounterUsable(c, b, |b|, extra);
    forall j: nat | j < |b| ensures Usable(corrs(j)) {
      CounterUsable(c, b, j, extra);
    }
  }

  lemma ServeUsable(s: Shard, id: nat, now: nat, extra: nat -> nat)
    requires UsableIds(s)
    ensures UsableIds(ServeOne(s, id, now, extra))
  {
    if id in s.lookups {
      DispatchUsable(s.lookups[id].lookup, s.counter, now, extra);
    }
  }

  lemma {:induction false} SweepUsable(s: Shard, ids: seq<nat>, now: nat, extra: (nat, nat) -> nat)
    requires UsableIds(s)
    ensures UsableIds(Sweep(s, ids, now, extra))
  {
    if ids != [] {
      var n := |ids| - 1;
      SweepUsable(s, ids[..n], now, extra);
      ServeUsable(Sweep(s, ids[..n], now, extra), ids[n], now, (i: nat) => extra(ids[n], i));
    }
  }

  lemma NextUsable(s: Shard, step: Once.Step)
    requires UsableIds(s)
    ensures UsableIds(Once.Next(s, step))
  {
    match step
    case Call(kind, target, seeds, now, extra) => DispatchUsable(New(kind, target, seeds, now), s.counter, now, extra);
    case Got(hit, r) =>
      if hit.Some? && hit.value in s.lookups {
        Once.ApplyIsSub(s.lookups[hit.value].lookup, r);
      }
    case SweepNow(ids, now, extra) => SweepUsable(s, ids, now, extra);
    case Expire(now) =>
      forall k | k in s.lookups ensures AllUsable(Alive(s.lookups[k].lookup.inFlight, now)) {
        AliveIsYoung(s.lookups[k].lookup.inFlight, now);
      }
    case Other(n) => AllocateUsable(s.counter, n);
  }

  lemma {:induction false} RunUsable(s: Shard, steps: seq<Once.Step>)
    requires UsableIds(s)
    ensures UsableIds(Once.Run(s, steps))
    decreases |steps|
  {
    if steps != [] {
      NextUsable(s, steps[0]);
      RunUsable(Once.Next(s, steps[0]), steps[1..]);
    }
  }

  /** Over every run, however long, the next correlation id and all those in flight are between 1 and
      2^32 - 1. */
  lemma IdsNeverZero(steps: seq<Once.Step>)
    ensures UsableIds(Once.Run(Once.Idle, steps))
  {
    RunUsable(Once.Idle, steps);
  }

  ghost predicate AllYoung(fs: seq<Flight>, now: nat)
  {
    forall f :: f in fs ==> Since(now, f.sentAt) <= 400 * MS
  }

  lemma ServeYoung(s: Shard, id: nat, now: nat, extra: nat -> nat)
    requires forall k :: k in s.lookups ==> AllYoung(s.lookups[k].lookup.inFlight, now)
    ensures forall k :: k in ServeOne(s, id, now, extra).lookups ==> AllYoung(ServeOne(s, id, now, extra).lookups[k].lookup.inFlight, now)
  {
    if id in s.lookups {
      var l := s.lookups[id].lookup;
      SendAdds(NextBatch(l, now), Batch(l, now), 0, Corrs(s.counter, Batch(l, now), extra), now);
    }
  }

  lemma {:induction false} SweepYoung(s: Shard, ids: seq<nat>, now: nat, extra: (nat, nat) -> nat)
    requires forall k :: k in s.lookups ==> AllYoung(s.lookups[k].lookup.inFlight, now)
    ensures forall k :: k in Sweep(s, ids, now, extra).lookups ==> AllYoung(Sweep(s, ids, now, extra).lookups[k].lookup.inFlight, now)
  {
    if ids != [] {
      var n := |ids| - 1;
      SweepYoung(s, ids[..n], now, extra);
      ServeYoung(Sweep(s, ids[..n], now, extra), ids[n], now, (i: nat) => extra(ids[n], i));
    }
  }

  /** After the expiry and sweep of a tick no lookup waits for a request older than 400 ms. */
  lemma TickLeavesYoung(s: Shard, ids: seq<nat>, now: nat, extra: (nat, nat) -> nat)
    ensures forall k :: k in Sweep(ExpireAll(s, now), ids, now, extra).lookups ==>
                          AllYoung(Sweep(ExpireAll(s, now), ids, now, extra).lookups[k].lookup.inFlight, now)
  {
    forall k | k in s.lookups ensures AllYoung(ExpireAll(s, now).lookups[k].lookup.inFlight, now) {
      ExpireClearsOld(s, now, k);
    }
    SweepYoung(ExpireAll(s, now), ids, now, extra);
  }
}
