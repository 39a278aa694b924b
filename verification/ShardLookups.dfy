/** How a shard drives its lookups (`src/shard.rs`): correlation ids, the table of pending
    lookups, responses, the sweep, and the reply owed to each caller. */
module ShardLookups {
  import opened Xor
  import opened Peers
  import opened Records
  import opened Lookups

  datatype Reply =
    | PeerList(peers: seq<PeerInfo>)
    | Found(rec: StoredRecord)
    | ProviderList(providers: seq<Provider>)
    | NoValue

  /** A reply sent on the channel of the caller numbered `tx`. */
  datatype Answer = Answer(tx: nat, reply: Reply)

  datatype Pending = Pending(lookup: LookupState, tx: nat)

  /** The next correlation id and how many have been handed out. */
  datatype Counter = Counter(next: nat, used: nat)

  /** `started` counts lookup calls; it numbers the callers' channels. */
  datatype Shard = Shard(lookups: map<nat, Pending>, counter: Counter, started: nat, answers: seq<Answer>)

  // ---------------------------------------------------------------- correlation ids

  /** Correlation ids are 32-bit and skip zero. */
  function NextCorr(c: nat): nat
  {
    if c + 1 == WORD then 1 else c + 1
  }

  function Allocate(c: Counter, n: nat): Counter
    decreases n
  {
    if n == 0 then c else Allocate(Counter(NextCorr(c.next), c.used + 1), n - 1)
  }

  /** The counter after the first `i` peers of a batch: one id each, and `extra(i)` more for the
      probes and relay frames of a peer that has an address. */
  function CounterAt(c: Counter, batch: seq<PeerInfo>, i: nat, extra: nat -> nat): Counter
    requires i <= |batch|
  {
    if i == 0 then c
    else Allocate(CounterAt(c, batch, i - 1, extra), 1 + if batch[i - 1].addrs == [] then 0 else extra(i - 1))
  }

  function Corrs(c: Counter, batch: seq<PeerInfo>, extra: nat -> nat): nat -> nat
  {
    (i: nat) => if i <= |batch| then CounterAt(c, batch, i, extra).next else 0
  }

  // ---------------------------------------------------------------- operations as functions

  function DispatchAt(l: LookupState, c: Counter, now: nat, extra: nat -> nat): LookupState
  {
    Dispatch(l, now, Corrs(c, Batch(l, now), extra))
  }

  function CounterAfter(l: LookupState, c: Counter, now: nat, extra: nat -> nat): Counter
  {
    CounterAt(c, Batch(l, now), |Batch(l, now)|, extra)
  }

  function ReplyOf(l: LookupState): Reply
  {
    if l.kind == FindNode then PeerList(FinishPeers(l))
    else if l.found.Some? then Found(l.found.value)
    else if l.providers != [] then ProviderList(l.providers)
    else NoValue
  }

  /** A pending lookup is stored under the counter's value after its first dispatch. */
  function StartLookup(s: Shard, kind: Kind, target: Id, seeds: seq<PeerInfo>, now: nat, extra: nat -> nat): Shard
  {
    var l0 := New(kind, target, seeds, now);
    var l := DispatchAt(l0, s.counter, now, extra);
    var c := CounterAfter(l0, s.counter, now, extra);
    if l.done then Shard(s.lookups, c, s.started + 1, s.answers + [Answer(s.started, ReplyOf(l))])
    else Shard(s.lookups[c.next := Pending(l, s.started)], c, s.started + 1, s.answers)
  }

  /** The body of the sweep's loop for one table key. */
  function ServeOne(s: Shard, id: nat, now: nat, extra: nat -> nat): Shard
  {
    if id !in s.lookups then s
    else
      var p := s.lookups[id];
      var l := DispatchAt(p.lookup, s.counter, now, extra);
      var c := CounterAfter(p.lookup, s.counter, now, extra);
      if l.done then Shard(s.lookups - {id}, c, s.started, s.answers + [Answer(p.tx, ReplyOf(l))])
      else Shard((s.lookups - {id})[id := Pending(l, p.tx)], c, s.started, s.answers)
  }

  function Sweep(s: Shard, ids: seq<nat>, now: nat, extra: (nat, nat) -> nat): Shard
  {
    if ids == [] then s
    else
      var n := |ids| - 1;
      ServeOne(Sweep(s, ids[..n], now, extra), ids[n], now, (i: nat) => extra(ids[n], i))
  }

  function ExpireAll(s: Shard, now: nat): Shard
  {
    s.(lookups := map k | k in s.lookups :: Pending(OnTimeouts(s.lookups[k].lookup, now), s.lookups[k].tx))
  }

  /** What a matched response does to its lookup. */
  datatype Response =
    | CloserPeers(from: Id, peers: seq<PeerInfo>, rttUs: nat)
    | SomeProviders(from: Id, more: seq<Provider>, closer: seq<PeerInfo>)
    | TheRecord(from: Id, rec: StoredRecord)

  function Apply(l: LookupState, r: Response): LookupState
  {
    match r
    case CloserPeers(from, peers, rttUs) => OnCloser(l, from, peers, rttUs)
    case SomeProviders(from, more, closer) => OnProviders(l, from, more, closer)
    case TheRecord(from, rec) => OnRecord(l, from, rec)
  }

  function Respond(s: Shard, hit: Option<nat>, r: Response): Shard
  {
    if hit.None? || hit.value !in s.lookups then s
    else s.(lookups := s.lookups[hit.value := Pending(Apply(s.lookups[hit.value].lookup, r), s.lookups[hit.value].tx)])
  }

  predicate HasCorr(fs: seq<Flight>, corr: nat)
  {
    exists i :: 0 <= i < |fs| && fs[i].corr == corr
  }

  // ---------------------------------------------------------------- the object

  class LookupTable {
    var lookups: map<nat, Pending>
    var nextCorr: nat
    var answers: seq<Answer>
    ghost var used: nat
    ghost var started: nat

    ghost function State(): Shard
      reads this
    {
      Shard(lookups, Counter(nextCorr, used), started, answers)
    }

    constructor ()
      ensures State() == Shard(map[], Counter(1, 0), 0, [])
    {
      lookups, nextCorr, answers, used, started := map[], 1, [], 0, 0;
    }

    method Alloc() returns (c: nat)
      modifies this
      ensures c == old(nextCorr)
      ensures State() == old(State()).(counter := Allocate(old(State()).counter, 1))
    {
      c := nextCorr;
      nextCorr := if nextCorr + 1 == WORD then 0 else nextCorr + 1;
      if nextCorr == 0 {
        nextCorr := 1;
      }
      used := used + 1;
    }

    method AllocMany(n: nat)
      modifies this
      ensures State() == old(State()).(counter := Allocate(old(State()).counter, n))
    {
      var i := 0;
      while i < n
        invariant 0 <= i <= n
        invariant State() == old(State()).(counter := State().counter)
        invariant Allocate(State().counter, n - i) == Allocate(old(State()).counter, n)
      {
        var c := Alloc();
        i := i + 1;
      }
    }

    /** Request every peer of the next batch. `extra` tells how many further ids the probes and
        relay frames of each peer take. */
    method DispatchBatch(l: LookupState, now: nat, extra: nat -> nat) returns (l': LookupState)
      modifies this
      ensures l' == DispatchAt(l, old(State()).counter, now, extra)
      ensures State() == old(State()).(counter := CounterAfter(l, old(State()).counter, now, extra))
    {
      var batch := Batch(l, now);
      ghost var c0 := State().counter;
      ghost var corrs := Corrs(c0, batch, extra);
      l' := NextBatch(l, now);
      var i := 0;
      while i < |batch|
        invariant 0 <= i <= |batch|
        invariant State() == old(State()).(counter := CounterAt(c0, batch, i, extra))
        invariant SendFrom(l', batch, i, corrs, now) == DispatchAt(l, c0, now, extra)
      {
        ghost var c := State().counter;
        var corr := Alloc();
        assert corr == corrs(i);
        assert State().counter == Counter(NextCorr(c.next), c.used + 1);
        if batch[i].addrs != [] {
          l' := NoteSent(l', batch[i].id, corr, now);
          AllocMany(extra(i));
        }
        assert State().counter == CounterAt(c0, batch, i + 1, extra);
        i := i + 1;
      }
    }

    method Start(kind: Kind, target: Id, seeds: seq<PeerInfo>, tx: nat, now: nat, extra: nat -> nat)
      requires tx == started
      modifies this
      ensures State() == StartLookup(old(State()), kind, target, seeds, now, extra)
    {
      var l := DispatchBatch(New(kind, target, seeds, now), now, extra);
      if l.done {
        answers := answers + [Answer(tx, ReplyOf(l))];
      } else {
        lookups := lookups[nextCorr := Pending(l, tx)];
      }
      started := started + 1;
    }

    method SweepAll(ids: seq<nat>, now: nat, extra: (nat, nat) -> nat)
      modifies this
      ensures State() == Sweep(old(State()), ids, now, extra)
    {
      var i := 0;
      while i < |ids|
        invariant 0 <= i <= |ids|
        invariant State() == Sweep(old(State()), ids[..i], now, extra)
      {
        var id := ids[i];
        assert ids[..i + 1][..i] == ids[..i];
        if id in lookups {
          var p := lookups[id];
          lookups := lookups - {id};
          var l := DispatchBatch(p.lookup, now, (j: nat) => extra(id, j));
          if l.done {
            answers := answers + [Answer(p.tx, ReplyOf(l))];
          } else {
            lookups := lookups[id := Pending(l, p.tx)];
          }
        }
        i := i + 1;
      }
      assert ids[..i] == ids;
    }

    /** `find_lookup_mut`: some lookup waiting for `corr`, if there is one. */
    method FindLookup(corr: nat) returns (hit: Option<nat>)
      ensures hit.Some? ==> hit.value in lookups && HasCorr(lookups[hit.value].lookup.inFlight, corr)
      ensures hit.None? ==> forall k :: k in lookups ==> !HasCorr(lookups[k].lookup.inFlight, corr)
    {
      var keys := lookups.Keys;
      while keys != {}
        invariant keys <= lookups.Keys
        invariant forall k :: k in lookups && k !in keys ==> !HasCorr(lookups[k].lookup.inFlight, corr)
        decreases |keys|
      {
        var k :| k in keys;
        if HasCorr(lookups[k].lookup.inFlight, corr) {
          return Some(k);
        }
        keys := keys - {k};
      }
      return None;
    }
  }
}
