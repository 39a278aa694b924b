/** Every caller of a lookup is answered exactly once, and responses reach one lookup at most. */
module ShardReplies {
  import opened Xor
  import opened Peers
  import opened Records
  import opened Lookups
  import opened ShardLookups

  /** Everything that happens to the table. `Other` stands for ids used by pings, stores, punches
      and other traffic; in `Response` the lookup hit is whichever one the search returned. */
  datatype Step =
    | Call(kind: Kind, target: Id, seeds: seq<PeerInfo>, now: nat, extra: nat -> nat)
    | Got(hit: Option<nat>, r: Response)
    | SweepNow(ids: seq<nat>, now: nat, extra2: (nat, nat) -> nat)
    | Expire(now: nat)
    | Other(n: nat)

  function Next(s: Shard, step: Step): Shard
  {
    match step
    case Call(kind, target, seeds, now, extra) => StartLookup(s, kind, target, seeds, now, extra)
    case Got(hit, r) => Respond(s, hit, r)
    case SweepNow(ids, now, extra) => Sweep(s, ids, now, extra)
    case Expire(now) => ExpireAll(s, now)
    case Other(n) => s.(counter := Allocate(s.counter, n))
  }

  function Run(s: Shard, steps: seq<Step>): Shard
    decreases |steps|
  {
    if steps == [] then s else Run(Next(s, steps[0]), steps[1..])
  }

  const Idle: Shard := Shard(map[], Counter(1, 0), 0, [])

  // ---------------------------------------------------------------- the counter

  lemma {:induction false} AllocateUses(c: Counter, n: nat)
    ensures Allocate(c, n).used == c.used + n
    decreases n
  {
    if n > 0 {
      AllocateUses(Counter(NextCorr(c.next), c.used + 1), n - 1);
    }
  }

  /** Until the counter wraps, the next id is one more than the number handed out. */
  ghost predicate Numbered(c: Counter)
  {
    c.next == c.used + 1 < WORD
  }

  lemma {:induction false} AllocateNumbered(c: Counter, n: nat)
    requires Numbered(c) && c.used + n + 1 < WORD
    ensures Allocate(c, n) == Counter(c.next + n, c.used + n)
    decreases n
  {
    if n > 0 {
      AllocateNumbered(Counter(NextCorr(c.next), c.used + 1), n - 1);
    }
  }

  lemma {:induction false} CounterAtGrows(c: Counter, batch: seq<PeerInfo>, i: nat, extra: nat -> nat)
    requires i <= |batch|
    ensures c.used + i <= CounterAt(c, batch, i, extra).used
    ensures forall j :: 0 <= j < i ==> CounterAt(c, batch, j, extra).used < CounterAt(c, batch, i, extra).used
  {
    if i > 0 {
      CounterAtGrows(c, batch, i - 1, extra);
      AllocateUses(CounterAt(c, batch, i - 1, extra), 1 + if batch[i - 1].addrs == [] then 0 else extra(i - 1));
    }
  }

  lemma {:induction false} CounterAtNumbered(c: Counter, batch: seq<PeerInfo>, i: nat, extra: nat -> nat)
    requires i <= |batch| && Numbered(c) && CounterAt(c, batch, i, extra).used + 1 < WORD
    ensures Numbered(CounterAt(c, batch, i, extra))
  {
    if i > 0 {
      var n := 1 + if batch[i - 1].addrs == [] then 0 else extra(i - 1);
      AllocateUses(CounterAt(c, batch, i - 1, extra), n);
      CounterAtNumbered(c, batch, i - 1, extra);
      AllocateNumbered(CounterAt(c, batch, i - 1, extra), n);
    }
  }

  // ---------------------------------------------------------------- correlation ids in flight

  ghost predicate DistinctCorrs(fs: seq<Flight>)
  {
    forall i, j :: 0 <= i < j < |fs| ==> fs[i].corr != fs[j].corr
  }

  ghost predicate CorrsBelow(fs: seq<Flight>, hi: nat)
  {
    forall i :: 0 <= i < |fs| ==> 0 < fs[i].corr < hi
  }

  /** Flights carried over, or tagged with an id from [lo, hi). */
  ghost predicate OldOrFresh(fs: seq<Flight>, old': seq<Flight>, lo: nat, hi: nat)
  {
    forall i :: 0 <= i < |fs| ==> fs[i] in old' || lo <= fs[i].corr < hi
  }

  ghost predicate Increasing(corrs: nat -> nat, i: nat, n: nat, hi: nat)
  {
    && (forall a, b :: i <= a < b < n ==> corrs(a) < corrs(b))
    && (forall a :: i <= a < n ==> corrs(a) < hi)
  }

  lemma NoteSentCorrs(l: LookupState, id: Id, corr: nat, now: nat, lo: nat, hi: nat)
    requires DistinctCorrs(l.inFlight) && CorrsBelow(l.inFlight, corr) && 0 < lo <= corr < hi
    ensures var fs := NoteSent(l, id, corr, now).inFlight;
            DistinctCorrs(fs) && CorrsBelow(fs, corr + 1) && OldOrFresh(fs, l.inFlight, lo, hi)
  {
  }

  lemma CorrsBelowMore(fs: seq<Flight>, lo: nat, hi: nat)
    requires CorrsBelow(fs, lo) && lo <= hi
    ensures CorrsBelow(fs, hi)
  {
  }

  lemma FreshIsTransitive(fs: seq<Flight>, gs: seq<Flight>, hs: seq<Flight>, lo: nat, hi: nat)
    requires OldOrFresh(fs, gs, lo, hi) && OldOrFresh(gs, hs, lo, hi)
    ensures OldOrFresh(fs, hs, lo, hi)
  {
    forall i | 0 <= i < |fs| ensures fs[i] in hs || lo <= fs[i].corr < hi {
      if fs[i] in gs {
        var j :| 0 <= j < |gs| && gs[j] == fs[i];
      }
    }
  }

  lemma {:induction false} SendCorrs(l: LookupState, batch: seq<PeerInfo>, i: nat, corrs: nat -> nat, now: nat, lo: nat, hi: nat)
    requires i <= |batch| && Increasing(corrs, i, |batch|, hi) && 0 < lo <= hi
    requires DistinctCorrs(l.inFlight) && CorrsBelow(l.inFlight, if i < |batch| then corrs(i) else hi)
    requires forall a :: i <= a < |batch| ==> lo <= corrs(a)
    ensures var fs := SendFrom(l, batch, i, corrs, now).inFlight;
            DistinctCorrs(fs) && CorrsBelow(fs, hi) && OldOrFresh(fs, l.inFlight, lo, hi)
    decreases |batch| - i
  {
    if i < |batch| {
      var l1 := if batch[i].addrs == [] then l else NoteSent(l, batch[i].id, corrs(i), now);
      if batch[i].addrs != [] {
        NoteSentCorrs(l, batch[i].id, corrs(i), now, lo, hi);
      }
      assert CorrsBelow(l1.inFlight, corrs(i) + 1);
      CorrsBelowMore(l1.inFlight, corrs(i) + 1, if i + 1 < |batch| then corrs(i + 1) else hi);
      SendCorrs(l1, batch, i + 1, corrs, now, lo, hi);
      FreshIsTransitive(SendFrom(l1, batch, i + 1, corrs, now).inFlight, l1.inFlight, l.inFlight, lo, hi);
    }
  }

  /** One dispatch: its new flights carry ids the counter hands out during it. */
  lemma DispatchCorrs(l: LookupState, c: Counter, now: nat, extra: nat -> nat)
    requires Numbered(c) && CounterAfter(l, c, now, extra).used + 1 < WORD
    requires DistinctCorrs(l.inFlight) && CorrsBelow(l.inFlight, c.next)
    ensures var l', c' := DispatchAt(l, c, now, extra), CounterAfter(l, c, now, extra);
            && Numbered(c') && c.next + |Batch(l, now)| <= c'.next
            && DistinctCorrs(l'.inFlight) && CorrsBelow(l'.inFlight, c'.next)
            && OldOrFresh(l'.inFlight, l.inFlight, c.next, c'.next)
  {
    var b := Batch(l, now);
    CounterAtGrows(c, b, |b|, extra);
    CounterAtNumbered(c, b, |b|, extra);
    CorrsIncrease(c, b, extra);
    CorrsBelowMore(l.inFlight, c.next, if b == [] then CounterAt(c, b, |b|, extra).next else Corrs(c, b, extra)(0));
    SendCorrs(NextBatch(l, now), b, 0, Corrs(c, b, extra), now, c.next, CounterAt(c, b, |b|, extra).next);
  }

  lemma CorrAt(c: Counter, batch: seq<PeerInfo>, i: nat, j: nat, extra: nat -> nat)
    requires i < j <= |batch| && Numbered(c) && CounterAt(c, batch, j, extra).used + 1 < WORD
    ensures c.next <= Corrs(c, batch, extra)(i) < CounterAt(c, batch, j, extra).next
  {
    CounterAtGrows(c, batch, j, extra);
    CounterAtGrows(c, batch, i, extra);
    CounterAtNumbered(c, batch, i, extra);
    CounterAtNumbered(c, batch, j, extra);
  }

  lemma CorrsIncrease(c: Counter, batch: seq<PeerInfo>, extra: nat -> nat)
    requires Numbered(c) && CounterAt(c, batch, |batch|, extra).used + 1 < WORD
    ensures Increasing(Corrs(c, batch, extra), 0, |batch|, CounterAt(c, batch, |batch|, extra).next)
    ensures forall i :: 0 <= i < |batch| ==> c.next <= Corrs(c, batch, extra)(i)
  {
    var corrs := Corrs(c, batch, extra);
    forall i | 0 <= i < |batch| ensures c.next <= corrs(i) < CounterAt(c, batch, |batch|, extra).next {
      CorrAt(c, batch, i, |batch|, extra);
    }
    CounterAtGrows(c, batch, |batch|, extra);
    forall i, j | 0 <= i < j < |batch| ensures corrs(i) < corrs(j) {
      CorrAt(c, batch, i, j, extra);
    }
  }

  lemma {:induction false} SendKeepsDone(l: LookupState, batch: seq<PeerInfo>, i: nat, corrs: nat -> nat, now: nat)
    requires i <= |batch|
    ensures var l' := SendFrom(l, batch, i, corrs, now); l' == l.(queried := l'.queried, inFlight := l'.inFlight)
    decreases |batch| - i
  {
    if i < |batch| {
      SendKeepsDone(if batch[i].addrs == [] then l else NoteSent(l, batch[i].id, corrs(i), now), batch, i + 1, corrs, now);
    }
  }

  // ---------------------------------------------------------------- the invariant

  ghost predicate CorrsOk(s: Shard)
  {
    && Numbered(s.counter)
    && (forall k :: k in s.lookups ==>
                      && 0 < k <= s.counter.next
                      && DistinctCorrs(s.lookups[k].lookup.inFlight)
                      && CorrsBelow(s.lookups[k].lookup.inFlight, s.counter.next))
    && (forall k, m :: k in s.lookups && m in s.lookups && k != m ==>
                         DisjointCorrs(s.lookups[k].lookup.inFlight, s.lookups[m].lookup.inFlight))
  }

  ghost predicate DisjointCorrs(fs: seq<Flight>, gs: seq<Flight>)
  {
    forall i, j :: 0 <= i < |fs| && 0 <= j < |gs| ==> fs[i].corr != gs[j].corr
  }

  /** Removing flights cannot create a clash. */
  ghost predicate SubFlights(fs: seq<Flight>, gs: seq<Flight>)
  {
    (forall i :: 0 <= i < |fs| ==> fs[i] in gs) && (DistinctCorrs(gs) ==> DistinctCorrs(fs))
  }

  lemma {:induction false} WithoutIsSub(fs: seq<Flight>, id: Id)
    ensures SubFlights(Without(fs, id), fs)
  {
    if fs != [] {
      WithoutIsSub(fs[1..], id);
      ConsSub(fs, Without(fs[1..], id));
    }
  }

  lemma {:induction false} AliveIsSub(fs: seq<Flight>, now: nat)
    ensures SubFlights(Alive(fs, now), fs)
  {
    if fs != [] {
      AliveIsSub(fs[1..], now);
      ConsSub(fs, Alive(fs[1..], now));
    }
  }

  lemma ConsSub(fs: seq<Flight>, rest: seq<Flight>)
    requires fs != [] && SubFlights(rest, fs[1..])
    ensures SubFlights(rest, fs) && SubFlights([fs[0]] + rest, fs)
  {
    var r := [fs[0]] + rest;
    if DistinctCorrs(fs) {
      assert DistinctCorrs(fs[1..]);
      forall i, j | 0 <= i < j < |r| ensures r[i].corr != r[j].corr {
        if i == 0 {
          assert r[j] in fs[1..];
        }
      }
    }
  }

  lemma SubIsTransitive(a: seq<Flight>, b: seq<Flight>, c: seq<Flight>)
    requires SubFlights(a, b) && SubFlights(b, c)
    ensures SubFlights(a, c)
  {
  }

  lemma ApplyIsSub(l: LookupState, r: Response)
    ensures SubFlights(Apply(l, r).inFlight, l.inFlight)
  {
    WithoutIsSub(l.inFlight, r.from);
    WithoutIsSub(Without(l.inFlight, r.from), r.from);
    SubIsTransitive(Without(Without(l.inFlight, r.from), r.from), Without(l.inFlight, r.from), l.inFlight);
  }

  /** Dropping flights, in one lookup or in all of them, keeps the ids apart. */
  lemma ShrinkKeepsCorrs(s: Shard, t: Shard)
    requires CorrsOk(s) && t.counter == s.counter && t.lookups.Keys <= s.lookups.Keys
    requires forall k :: k in t.lookups ==> SubFlights(t.lookups[k].lookup.inFlight, s.lookups[k].lookup.inFlight)
    ensures CorrsOk(t)
  {
    forall k | k in t.lookups
      ensures CorrsBelow(t.lookups[k].lookup.inFlight, t.counter.next)
    {
      var fs, gs := t.lookups[k].lookup.inFlight, s.lookups[k].lookup.inFlight;
      forall i | 0 <= i < |fs| ensures 0 < fs[i].corr < t.counter.next {
        assert fs[i] in gs;
      }
    }
    forall k, m | k in t.lookups && m in t.lookups && k != m
      ensures DisjointCorrs(t.lookups[k].lookup.inFlight, t.lookups[m].lookup.inFlight)
    {
      SubDisjoint(t.lookups[k].lookup.inFlight, s.lookups[k].lookup.inFlight,
                  t.lookups[m].lookup.inFlight, s.lookups[m].lookup.inFlight);
    }
  }

  lemma SubDisjoint(fs: seq<Flight>, gs: seq<Flight>, fs': seq<Flight>, gs': seq<Flight>)
    requires SubFlights(fs, gs) && SubFlights(fs', gs') && DisjointCorrs(gs, gs')
    ensures DisjointCorrs(fs, fs')
  {
    forall i, j | 0 <= i < |fs| && 0 <= j < |fs'| ensures fs[i].corr != fs'[j].corr {
      assert fs[i] in gs && fs'[j] in gs';
    }
  }

  /** Putting a lookup under a free key after a dispatch that started from `fs0`. */
  lemma PutKeepsCorrs(s: Shard, k: nat, p: Pending, c: Counter, fs0: seq<Flight>, started: nat, answers: seq<Answer>)
    requires CorrsOk(s) && k !in s.lookups
    requires Numbered(c) && s.counter.next <= c.next && 0 < k <= c.next
    requires DistinctCorrs(p.lookup.inFlight) && CorrsBelow(p.lookup.inFlight, c.next)
    requires OldOrFresh(p.lookup.inFlight, fs0, s.counter.next, c.next)
    requires forall m :: m in s.lookups ==> DisjointCorrs(fs0, s.lookups[m].lookup.inFlight)
    ensures CorrsOk(Shard(s.lookups[k := p], c, started, answers))
  {
    var t := Shard(s.lookups[k := p], c, started, answers);
    forall m | m in s.lookups
      ensures DisjointCorrs(p.lookup.inFlight, s.lookups[m].lookup.inFlight)
      ensures DisjointCorrs(s.lookups[m].lookup.inFlight, p.lookup.inFlight)
    {
      FreshDisjoint(p.lookup.inFlight, fs0, s.lookups[m].lookup.inFlight, s.counter.next, c.next);
    }
  }

  lemma FreshDisjoint(fs: seq<Flight>, fs0: seq<Flight>, gs: seq<Flight>, lo: nat, hi: nat)
    requires OldOrFresh(fs, fs0, lo, hi) && DisjointCorrs(fs0, gs) && CorrsBelow(gs, lo)
    ensures DisjointCorrs(fs, gs) && DisjointCorrs(gs, fs)
  {
    forall i, j | 0 <= i < |fs| && 0 <= j < |gs| ensures fs[i].corr != gs[j].corr {
      assert fs[i] in fs0 || lo <= fs[i].corr;
    }
  }

  // ---------------------------------------------------------------- replies owed and sent

  function Replies(answers: seq<Answer>, tx: nat): nat
  {
    if answers == [] then 0
    else Replies(answers[..|answers| - 1], tx) + Bit(answers[|answers| - 1].tx == tx)
  }

  lemma RepliesAppend(answers: seq<Answer>, a: Answer, tx: nat)
    ensures Replies(answers + [a], tx) == Replies(answers, tx) + Bit(a.tx == tx)
  {
    assert (answers + [a])[..|answers|] == answers;
  }

  /** The pending lookups that owe their reply to caller `tx`. */
  function Owing(lookups: map<nat, Pending>, tx: nat): set<nat>
  {
    set k | k in lookups && lookups[k].tx == tx
  }

  function Waiting(lookups: map<nat, Pending>, tx: nat): nat
  {
    |Owing(lookups, tx)|
  }

  lemma WaitingRemove(lookups: map<nat, Pending>, id: nat, tx: nat)
    requires id in lookups
    ensures Waiting(lookups, tx) == Waiting(lookups - {id}, tx) + Bit(lookups[id].tx == tx)
  {
    var b := Owing(lookups - {id}, tx);
    assert id !in b;
    if lookups[id].tx == tx {
      assert Owing(lookups, tx) == b + {id};
    } else {
      assert Owing(lookups, tx) == b;
    }
  }

  lemma WaitingPut(lookups: map<nat, Pending>, id: nat, p: Pending, tx: nat)
    requires id !in lookups
    ensures Waiting(lookups[id := p], tx) == Waiting(lookups, tx) + Bit(p.tx == tx)
  {
    var more := lookups[id := p];
    assert more - {id} == lookups;
    WaitingRemove(more, id, tx);
  }

  lemma WaitingSame(a: map<nat, Pending>, b: map<nat, Pending>, tx: nat)
    requires a.Keys == b.Keys && forall k :: k in a ==> a[k].tx == b[k].tx
    ensures Waiting(a, tx) == Waiting(b, tx)
  {
    assert Owing(a, tx) == Owing(b, tx);
  }

  /** Caller `tx`, once it has called, is owed one reply or has had one, never both and never two. */
  ghost predicate ExactlyOnce(s: Shard, tx: nat)
  {
    Replies(s.answers, tx) + Waiting(s.lookups, tx) == Bit(tx < s.started)
  }

  // ---------------------------------------------------------------- each operation

  lemma ServeKeeps(s: Shard, id: nat, now: nat, extra: nat -> nat, tx: nat)
    requires CorrsOk(s) && ServeOne(s, id, now, extra).counter.used + 1 < WORD
    ensures CorrsOk(ServeOne(s, id, now, extra))
    ensures ExactlyOnce(s, tx) ==> ExactlyOnce(ServeOne(s, id, now, extra), tx)
    ensures s.counter.used <= ServeOne(s, id, now, extra).counter.used
  {
    if id in s.lookups {
      var p := s.lookups[id];
      var l, c := DispatchAt(p.lookup, s.counter, now, extra), CounterAfter(p.lookup, s.counter, now, extra);
      DispatchCorrs(p.lookup, s.counter, now, extra);
      var rest := s.(lookups := s.lookups - {id});
      ShrinkKeepsCorrs(s, rest);
      WaitingRemove(s.lookups, id, tx);
      if l.done {
        RepliesAppend(s.answers, Answer(p.tx, ReplyOf(l)), tx);
      } else {
        PutKeepsCorrs(rest, id, Pending(l, p.tx), c, p.lookup.inFlight, s.started, s.answers);
        WaitingPut(rest.lookups, id, Pending(l, p.tx), tx);
      }
    }
  }

  lemma {:induction false} SweepUses(s: Shard, ids: seq<nat>, now: nat, extra: (nat, nat) -> nat)
    ensures s.counter.used <= Sweep(s, ids, now, extra).counter.used
  {
    if ids != [] {
      var n := |ids| - 1;
      var mid := Sweep(s, ids[..n], now, extra);
      SweepUses(s, ids[..n], now, extra);
      if ids[n] in mid.lookups {
        var b := Batch(mid.lookups[ids[n]].lookup, now);
        CounterAtGrows(mid.counter, b, |b|, (i: nat) => extra(ids[n], i));
      }
    }
  }

  lemma {:induction false} SweepKeeps(s: Shard, ids: seq<nat>, now: nat, extra: (nat, nat) -> nat, tx: nat)
    requires CorrsOk(s) && Sweep(s, ids, now, extra).counter.used + 1 < WORD
    ensures CorrsOk(Sweep(s, ids, now, extra))
    ensures ExactlyOnce(s, tx) ==> ExactlyOnce(Sweep(s, ids, now, extra), tx)
  {
    if ids != [] {
      var n := |ids| - 1;
      var mid := Sweep(s, ids[..n], now, extra);
      var e := (i: nat) => extra(ids[n], i);
      SweepUses(mid, [ids[n]], now, extra) by {
        assert [ids[n]][..0] == [];
        assert Sweep(mid, [ids[n]], now, extra) == ServeOne(mid, ids[n], now, e);
      }
      SweepKeeps(s, ids[..n], now, extra, tx);
      ServeKeeps(mid, ids[n], now, e, tx);
    }
  }

  /** A lookup that is not finished at once has had at least one id allocated for it. */
  lemma StartKeeps(s: Shard, kind: Kind, target: Id, seeds: seq<PeerInfo>, now: nat, extra: nat -> nat, tx: nat)
    requires CorrsOk(s) && StartLookup(s, kind, target, seeds, now, extra).counter.used + 1 < WORD
    ensures CorrsOk(StartLookup(s, kind, target, seeds, now, extra))
    ensures ExactlyOnce(s, tx) && Waiting(s.lookups, s.started) == Replies(s.answers, s.started) == 0
            ==> ExactlyOnce(StartLookup(s, kind, target, seeds, now, extra), tx)
  {
    var l0 := New(kind, target, seeds, now);
    var l, c := DispatchAt(l0, s.counter, now, extra), CounterAfter(l0, s.counter, now, extra);
    DispatchCorrs(l0, s.counter, now, extra);
    if l.done {
      RepliesAppend(s.answers, Answer(s.started, ReplyOf(l)), tx);
    } else {
      SendKeepsDone(NextBatch(l0, now), Batch(l0, now), 0, Corrs(s.counter, Batch(l0, now), extra), now);
      assert Batch(l0, now) != [];
      PutKeepsCorrs(s, c.next, Pending(l, s.started), c, [], s.started + 1, s.answers);
      WaitingPut(s.lookups, c.next, Pending(l, s.started), tx);
    }
  }

  lemma RespondShrinks(s: Shard, hit: nat, r: Response)
    requires hit in s.lookups
    ensures var t := Respond(s, Some(hit), r);
            && t.lookups.Keys == s.lookups.Keys && t.counter == s.counter
            && forall k :: k in t.lookups ==> SubFlights(t.lookups[k].lookup.inFlight, s.lookups[k].lookup.inFlight)
  {
    ApplyIsSub(s.lookups[hit].lookup, r);
  }

  lemma RespondKeeps(s: Shard, hit: Option<nat>, r: Response, tx: nat)
    requires CorrsOk(s)
    ensures CorrsOk(Respond(s, hit, r))
    ensures ExactlyOnce(s, tx) ==> ExactlyOnce(Respond(s, hit, r), tx)
  {
    if hit.Some? && hit.value in s.lookups {
      var t := Respond(s, hit, r);
      RespondShrinks(s, hit.value, r);
      ShrinkKeepsCorrs(s, t);
      assert Waiting(t.lookups, tx) == Waiting(s.lookups, tx) by { WaitingSame(s.lookups, t.lookups, tx); }
    }
  }

  lemma ExpireKeeps(s: Shard, now: nat, tx: nat)
    requires CorrsOk(s)
    ensures CorrsOk(ExpireAll(s, now))
    ensures ExactlyOnce(s, tx) ==> ExactlyOnce(ExpireAll(s, now), tx)
  {
    var t := ExpireAll(s, now);
    forall k | k in t.lookups ensures SubFlights(t.lookups[k].lookup.inFlight, s.lookups[k].lookup.inFlight) {
      AliveIsSub(s.lookups[k].lookup.inFlight, now);
    }
    ShrinkKeepsCorrs(s, t);
    WaitingSame(s.lookups, t.lookups, tx);
  }

  ghost predicate Inv(s: Shard)
  {
    CorrsOk(s) && forall tx: nat :: ExactlyOnce(s, tx)
  }

  lemma NextKeepsInv(s: Shard, step: Step)
    requires Inv(s) && Next(s, step).counter.used + 1 < WORD
    ensures Inv(Next(s, step))
  {
    forall tx: nat ensures CorrsOk(Next(s, step)) && ExactlyOnce(Next(s, step), tx) {
      assert ExactlyOnce(s, tx) && ExactlyOnce(s, s.started);
      match step
      case Call(kind, target, seeds, now, extra) => StartKeeps(s, kind, target, seeds, now, extra, tx);
      case Got(hit, r) => RespondKeeps(s, hit, r, tx);
      case SweepNow(ids, now, extra) => SweepKeeps(s, ids, now, extra, tx);
      case Expire(now) => ExpireKeeps(s, now, tx);
      case Other(n) =>
        AllocateUses(s.counter, n);
        AllocateNumbered(s.counter, n);
    }
    assert ExactlyOnce(Next(s, step), 0);
  }

  lemma NextUses(s: Shard, step: Step)
    ensures s.counter.used <= Next(s, step).counter.used
  {
    match step
    case Call(kind, target, seeds, now, extra) =>
      var b := Batch(New(kind, target, seeds, now), now);
      CounterAtGrows(s.counter, b, |b|, extra);
    case SweepNow(ids, now, extra) => SweepUses(s, ids, now, extra);
    case Other(n) => AllocateUses(s.counter, n);
    case _ =>
  }

  lemma {:induction false} RunUses(s: Shard, steps: seq<Step>)
    ensures s.counter.used <= Run(s, steps).counter.used
    decreases |steps|
  {
    if steps != [] {
      NextUses(s, steps[0]);
      RunUses(Next(s, steps[0]), steps[1..]);
    }
  }

  lemma {:induction false} RunKeepsInv(s: Shard, steps: seq<Step>)
    requires Inv(s) && Run(s, steps).counter.used + 1 < WORD
    ensures Inv(Run(s, steps))
    decreases |steps|
  {
    if steps != [] {
      RunUses(Next(s, steps[0]), steps[1..]);
      NextKeepsInv(s, steps[0]);
      RunKeepsInv(Next(s, steps[0]), steps[1..]);
    }
  }

  /** Over every run that uses fewer than 2^32 - 1 correlation ids, each caller so far is either
      waiting on exactly one pending lookup or has been answered exactly once. */
  lemma EveryCallerAnsweredOnce(steps: seq<Step>, tx: nat)
    requires Run(Idle, steps).counter.used + 1 < WORD
    ensures var s := Run(Idle, steps);
            Replies(s.answers, tx) + Waiting(s.lookups, tx) == Bit(tx < s.started)
  {
    IdleHasInv();
    RunKeepsInv(Idle, steps);
    assert ExactlyOnce(Run(Idle, steps), tx);
  }

  lemma IdleHasInv()
    ensures Inv(Idle)
  {
    forall tx: nat ensures ExactlyOnce(Idle, tx) {
      assert Owing(Idle.lookups, tx) == {};
    }
  }

  /** In such a run a response matches at most one lookup and one of its requests, and never id 0. */
  lemma ResponseMatchesOneRequest(steps: seq<Step>, k: nat, m: nat, i: nat, j: nat)
    requires Run(Idle, steps).counter.used + 1 < WORD
    requires var s := Run(Idle, steps);
             && k in s.lookups && m in s.lookups
             && i < |s.lookups[k].lookup.inFlight| && j < |s.lookups[m].lookup.inFlight|
             && s.lookups[k].lookup.inFlight[i].corr == s.lookups[m].lookup.inFlight[j].corr
    ensures k == m && i == j && Run(Idle, steps).lookups[k].lookup.inFlight[i].corr != 0
  {
    IdleHasInv();
    RunKeepsInv(Idle, steps);
    var s := Run(Idle, steps);
    var fs, gs := s.lookups[k].lookup.inFlight, s.lookups[m].lookup.inFlight;
    assert k != m ==> DisjointCorrs(fs, gs);
  }

  /** Without that bound: a call keeps every earlier caller's reply exactly when the key it stores
      its lookup under is not in use. */
  lemma CallKeepsOthersIffKeyFree(s: Shard, kind: Kind, target: Id, seeds: seq<PeerInfo>, now: nat, extra: nat -> nat)
    requires !DispatchAt(New(kind, target, seeds, now), s.counter, now, extra).done
    requires forall tx: nat :: ExactlyOnce(s, tx)
    ensures (forall tx: nat :: tx < s.started ==> ExactlyOnce(StartLookup(s, kind, target, seeds, now, extra), tx))
       <==> CounterAfter(New(kind, target, seeds, now), s.counter, now, extra).next !in s.lookups
  {
    var t := StartLookup(s, kind, target, seeds, now, extra);
    var key := CounterAfter(New(kind, target, seeds, now), s.counter, now, extra).next;
    var p := t.lookups[key];
    if key in s.lookups {
      var tx := s.lookups[key].tx;
      assert ExactlyOnce(s, tx) && ExactlyOnce(s, s.started);
      WaitingRemove(s.lookups, key, tx);
      WaitingPut(s.lookups - {key}, key, p, tx);
      assert (s.lookups - {key})[key := p] == t.lookups;
      assert tx < s.started;
      assert !ExactlyOnce(t, tx);
    } else {
      forall tx: nat | tx < s.started ensures ExactlyOnce(t, tx) {
        assert ExactlyOnce(s, tx);
        WaitingPut(s.lookups, key, p, tx);
      }
    }
  }

  // ---------------------------------------------------------------- what the caller is told

  lemma {:induction false} SweepLeavesOthers(s: Shard, ids: seq<nat>, now: nat, extra: (nat, nat) -> nat, k: nat)
    requires k !in ids
    ensures var t := Sweep(s, ids, now, extra);
            (k in t.lookups <==> k in s.lookups) && (k in s.lookups ==> t.lookups[k] == s.lookups[k])
  {
    if ids != [] {
      SweepLeavesOthers(s, ids[..|ids| - 1], now, extra, k);
    }
  }

  /** Serving a lookup that is done answers its caller and drops it. */
  lemma ServeDone(s: Shard, k: nat, now: nat, extra: nat -> nat)
    requires k in s.lookups && s.lookups[k].lookup.done
    ensures var t := ServeOne(s, k, now, extra);
            k !in t.lookups && Answer(s.lookups[k].tx, ReplyOf(s.lookups[k].lookup)) in t.answers
  {
    var l := s.lookups[k].lookup;
    assert Batch(l, now) == [];
    assert DispatchAt(l, s.counter, now, extra) == l;
  }

  /** Serving brings no lookup in and takes no answer back. */
  lemma ServeOnlyAnswers(s: Shard, id: nat, now: nat, extra: nat -> nat)
    ensures var t := ServeOne(s, id, now, extra);
            t.lookups.Keys <= s.lookups.Keys && s.answers <= t.answers
  {
  }

  /** A lookup that is done is answered, with its own outcome, by the next sweep over it. */
  lemma {:induction false} DoneLookupAnswered(s: Shard, ids: seq<nat>, now: nat, extra: (nat, nat) -> nat, k: nat)
    requires k in ids && k in s.lookups && s.lookups[k].lookup.done
    ensures var t := Sweep(s, ids, now, extra);
            k !in t.lookups && Answer(s.lookups[k].tx, ReplyOf(s.lookups[k].lookup)) in t.answers
  {
    var n := |ids| - 1;
    var mid := Sweep(s, ids[..n], now, extra);
    if k in ids[..n] {
      DoneLookupAnswered(s, ids[..n], now, extra, k);
      ServeOnlyAnswers(mid, ids[n], now, (i: nat) => extra(ids[n], i));
    } else {
      SweepLeavesOthers(s, ids[..n], now, extra, k);
      assert ids[n] == k;
      ServeDone(mid, k, now, (i: nat) => extra(ids[n], i));
    }
  }

  /** A record that arrives for a value lookup, under whatever sender, is what its caller is told. */
  lemma RecordReachesCaller(s: Shard, k: nat, from: Id, rec: StoredRecord, ids: seq<nat>, now: nat, extra: (nat, nat) -> nat)
    requires k in ids && k in s.lookups && s.lookups[k].lookup.kind == FindValue
    ensures var t := Sweep(Respond(s, Some(k), TheRecord(from, rec)), ids, now, extra);
            k !in t.lookups && Answer(s.lookups[k].tx, Found(rec)) in t.answers
  {
    DoneLookupAnswered(Respond(s, Some(k), TheRecord(from, rec)), ids, now, extra, k);
  }
}
