/** The iterative lookup (`src/lookup.rs`): its state, its operations as functions of that
    state, and the mutable object whose methods implement them. Time is in nanoseconds. */
module Lookups {
  import opened Xor
  import opened Peers
  import opened Records

  const K_DEFAULT := 20
  const ALPHA_DEFAULT := 4
  const ALPHA_MIN := 3
  const ALPHA_MAX := 8
  const IN_FLIGHT_CAP := 8

  const MS: nat := 1_000_000
  const BUDGET: nat := 1500 * MS
  const REQUEST_TIMEOUT: nat := 400 * MS
  const FAST_RTT_US: nat := 80_000

  datatype Kind = FindNode | FindValue

  /** An outstanding request: whom it went to, its correlation id, when it was sent. */
  datatype Flight = Flight(id: Id, corr: nat, sentAt: nat)

  datatype Provider = Provider(id: Id, meta: seq<Byte>)

  datatype LookupState = LookupState(
    kind: Kind,
    target: Id,
    k: nat,
    alpha: nat,
    started: nat,
    budget: nat,
    queried: set<Id>,
    inFlight: seq<Flight>,
    shortlist: seq<PeerInfo>,
    best: seq<Id>,
    found: Option<StoredRecord>,
    providers: seq<Provider>,
    retries: set<Id>,
    done: bool)

  function Since(now: nat, t: nat): nat
  {
    if t <= now then now - t else 0
  }

  function Min(a: nat, b: nat): nat { if a <= b then a else b }

  // ---------------------------------------------------------------- operations as functions

  function New(kind: Kind, target: Id, seeds: seq<PeerInfo>, now: nat): LookupState
  {
    LookupState(kind, target, K_DEFAULT, ALPHA_DEFAULT, now, BUDGET, {}, [], Sort(seeds, target), [], None, [], {}, false)
  }

  predicate InFlight(fs: seq<Flight>, id: Id)
  {
    exists i :: 0 <= i < |fs| && fs[i].id == id
  }

  /** A peer that may be asked: not asked yet (or due for its retry) and not being asked. */
  predicate Eligible(l: LookupState, p: PeerInfo)
  {
    p.id !in l.queried && !InFlight(l.inFlight, p.id)
  }

  /** The first `room` eligible peers of `s`. */
  function Pick(l: LookupState, s: seq<PeerInfo>, room: nat): seq<PeerInfo>
  {
    if s == [] || room == 0 then []
    else if Eligible(l, s[0]) then [s[0]] + Pick(l, s[1..], room - 1)
    else Pick(l, s[1..], room)
  }

  function Room(l: LookupState): nat
  {
    Min(if l.alpha <= |l.inFlight| then 0 else l.alpha - |l.inFlight|, IN_FLIGHT_CAP)
  }

  predicate OutOfTime(l: LookupState, now: nat)
  {
    Since(now, l.started) >= l.budget
  }

  function Batch(l: LookupState, now: nat): seq<PeerInfo>
  {
    if l.done || OutOfTime(l, now) then [] else Pick(l, l.shortlist, Room(l))
  }

  function NextBatch(l: LookupState, now: nat): LookupState
  {
    if l.done || OutOfTime(l, now) then l.(done := true)
    else if Batch(l, now) == [] && l.inFlight == [] then l.(done := true)
    else l
  }

  /** The in-flight list has capacity 8; a push beyond it is silently lost. */
  function NoteSent(l: LookupState, id: Id, corr: nat, now: nat): LookupState
  {
    l.(queried := l.queried + {id},
       inFlight := if |l.inFlight| < IN_FLIGHT_CAP then l.inFlight + [Flight(id, corr, now)] else l.inFlight)
  }

  predicate TimedOut(f: Flight, now: nat)
  {
    Since(now, f.sentAt) > REQUEST_TIMEOUT
  }

  function Dead(fs: seq<Flight>, now: nat): seq<Id>
  {
    if fs == [] then []
    else if TimedOut(fs[0], now) then [fs[0].id] + Dead(fs[1..], now)
    else Dead(fs[1..], now)
  }

  function Alive(fs: seq<Flight>, now: nat): seq<Flight>
  {
    if fs == [] then []
    else if TimedOut(fs[0], now) then Alive(fs[1..], now)
    else [fs[0]] + Alive(fs[1..], now)
  }

  function OnTimeouts(l: LookupState, now: nat): LookupState
  {
    var dead := Dead(l.inFlight, now);
    var ids := set id | id in dead;
    l.(inFlight := Alive(l.inFlight, now),
       retries := l.retries + ids,
       queried := l.queried - (ids - l.retries),
       alpha := if dead == [] then l.alpha else Min(l.alpha + 1, ALPHA_MAX))
  }

  function Without(fs: seq<Flight>, id: Id): seq<Flight>
  {
    if fs == [] then []
    else if fs[0].id == id then Without(fs[1..], id)
    else [fs[0]] + Without(fs[1..], id)
  }

  predicate Known(s: seq<PeerInfo>, id: Id)
  {
    exists i :: 0 <= i < |s| && s[i].id == id
  }

  /** Reported peers appended to the shortlist, each id only once. */
  function Merge(s: seq<PeerInfo>, peers: seq<PeerInfo>): seq<PeerInfo>
    decreases |peers|
  {
    if peers == [] then s
    else Merge(if Known(s, peers[0].id) then s else s + [peers[0]], peers[1..])
  }

  function Take(s: seq<PeerInfo>, k: nat): seq<PeerInfo>
  {
    if k <= |s| then s[..k] else s
  }

  predicate AllIn(ids: seq<Id>, queried: set<Id>)
  {
    forall id :: id in ids ==> id in queried
  }

  /** The nearest peers noted; if they are the same as before, all queried and nothing is in flight,
      the lookup ends. */
  function WithBest(l: LookupState): LookupState
  {
    var nowBest := Ids(Take(l.shortlist, l.k));
    l.(best := nowBest, done := l.done || (nowBest == l.best && l.inFlight == [] && AllIn(nowBest, l.queried)))
  }

  function OnCloser(l: LookupState, from: Id, peers: seq<PeerInfo>, rttUs: nat): LookupState
  {
    WithBest(l.(inFlight := Without(l.inFlight, from),
                alpha := if rttUs < FAST_RTT_US then (if l.alpha <= ALPHA_MIN then ALPHA_MIN else l.alpha - 1) else l.alpha,
                shortlist := Sort(Merge(l.shortlist, peers), l.target)))
  }

  function OnRecord(l: LookupState, from: Id, rec: StoredRecord): LookupState
  {
    l.(inFlight := Without(l.inFlight, from), found := Some(rec), done := true)
  }

  predicate Names(s: seq<Provider>, id: Id)
  {
    exists i :: 0 <= i < |s| && s[i].id == id
  }

  function MergeProviders(s: seq<Provider>, more: seq<Provider>): seq<Provider>
    decreases |more|
  {
    if more == [] then s
    else MergeProviders(if Names(s, more[0].id) then s else s + [more[0]], more[1..])
  }

  function OnProviders(l: LookupState, from: Id, more: seq<Provider>, closer: seq<PeerInfo>): LookupState
  {
    OnCloser(l.(inFlight := Without(l.inFlight, from), providers := MergeProviders(l.providers, more)), from, closer, 0)
  }

  function FinishPeers(l: LookupState): seq<PeerInfo>
  {
    Take(l.shortlist, l.k)
  }

  // ---------------------------------------------------------------- dispatching a batch

  /** What the shard does with a batch: every peer that has an address is sent a request
      under its own correlation id; a peer without one is passed over. */
  function SendFrom(l: LookupState, batch: seq<PeerInfo>, i: nat, corrs: nat -> nat, now: nat): LookupState
    requires i <= |batch|
    decreases |batch| - i
  {
    if i == |batch| then l
    else SendFrom(if batch[i].addrs == [] then l else NoteSent(l, batch[i].id, corrs(i), now), batch, i + 1, corrs, now)
  }

  function Dispatch(l: LookupState, now: nat, corrs: nat -> nat): LookupState
  {
    SendFrom(NextBatch(l, now), Batch(l, now), 0, corrs, now)
  }

  /** The loop over peers that did not answer: the first time, they may be asked again. */
  method GiveSecondChance(dead: seq<Id>, queried: set<Id>, retries: set<Id>) returns (queried': set<Id>, retries': set<Id>)
    ensures var ids := set id | id in dead; retries' == retries + ids && queried' == queried - (ids - retries)
  {
    queried', retries' := queried, retries;
    var i := 0;
    while i < |dead|
      invariant 0 <= i <= |dead|
      invariant retries' == retries + set id | id in dead[..i]
      invariant queried' == queried - ((set id | id in dead[..i]) - retries)
    {
      assert dead[..i + 1] == dead[..i] + [dead[i]];
      if dead[i] !in retries' {
        retries' := retries' + {dead[i]};
        queried' := queried' - {dead[i]};
      }
      i := i + 1;
    }
    assert dead[..i] == dead;
  }

  /** The loop over reported peers. */
  method MergeInto(s: seq<PeerInfo>, peers: seq<PeerInfo>) returns (merged: seq<PeerInfo>)
    ensures merged == Merge(s, peers)
  {
    merged := s;
    var i := 0;
    while i < |peers|
      invariant 0 <= i <= |peers|
      invariant Merge(merged, peers[i..]) == Merge(s, peers)
    {
      assert peers[i..][1..] == peers[i + 1..];
      if !Known(merged, peers[i].id) {
        merged := merged + [peers[i]];
      }
      i := i + 1;
    }
  }

  // ---------------------------------------------------------------- the object

  class Lookup {
    var kind: Kind
    var target: Id
    var k: nat
    var alpha: nat
    var started: nat
    var budget: nat
    var queried: set<Id>
    var inFlight: seq<Flight>
    var shortlist: seq<PeerInfo>
    var best: seq<Id>
    var found: Option<StoredRecord>
    var providers: seq<Provider>
    var retries: set<Id>
    var done: bool

    function State(): LookupState
      reads this
    {
      LookupState(kind, target, k, alpha, started, budget, queried, inFlight, shortlist, best, found, providers, retries, done)
    }

    constructor (kind: Kind, target: Id, seeds: seq<PeerInfo>, now: nat)
      ensures State() == New(kind, target, seeds, now)
    {
      this.kind, this.target, k, alpha, started, budget := kind, target, K_DEFAULT, ALPHA_DEFAULT, now, BUDGET;
      queried, inFlight, shortlist, best := {}, [], Sort(seeds, target), [];
      found, providers, retries, done := None, [], {}, false;
    }

    method TakeBatch(now: nat) returns (batch: seq<PeerInfo>)
      modifies this
      ensures State() == NextBatch(old(State()), now)
      ensures batch == Batch(old(State()), now)
    {
      ghost var l := State();
      batch := [];
      if done || Since(now, started) >= budget {
        done := true;
        return;
      }
      var i := 0;
      while i < |shortlist|
        invariant 0 <= i <= |shortlist|
        invariant State() == l && |batch| <= Room(l)
        invariant batch + Pick(l, l.shortlist[i..], Room(l) - |batch|) == Pick(l, l.shortlist, Room(l))
      {
        var p := shortlist[i];
        assert shortlist[i..][1..] == shortlist[i + 1..];
        if p.id !in queried && !InFlight(inFlight, p.id) {
          if |batch| + |inFlight| >= alpha {
            break;
          }
          if |batch| < IN_FLIGHT_CAP {
            batch := batch + [p];
          }
        }
        i := i + 1;
      }
      if batch == [] && inFlight == [] {
        done := true;
      }
    }

    method Sent(id: Id, corr: nat, now: nat)
      modifies this
      ensures State() == NoteSent(old(State()), id, corr, now)
    {
      queried := queried + {id};
      if |inFlight| < IN_FLIGHT_CAP {
        inFlight := inFlight + [Flight(id, corr, now)];
      }
    }

    method Timeouts(now: nat) returns (dead: seq<Id>)
      modifies this
      ensures State() == OnTimeouts(old(State()), now)
      ensures dead == Dead(old(inFlight), now)
    {
      dead := Dead(inFlight, now);
      inFlight := Alive(inFlight, now);
      queried, retries := GiveSecondChance(dead, queried, retries);
      if dead != [] {
        alpha := Min(alpha + 1, ALPHA_MAX);
      }
    }

    method Closer(from: Id, peers: seq<PeerInfo>, rttUs: nat)
      modifies this
      ensures State() == OnCloser(old(State()), from, peers, rttUs)
    {
      inFlight := Without(inFlight, from);
      if rttUs < FAST_RTT_US {
        alpha := if alpha <= ALPHA_MIN then ALPHA_MIN else alpha - 1;
      }
      var merged := MergeInto(shortlist, peers);
      shortlist := Sort(merged, target);
      UpdateBest();
    }

    /** The no-progress test at the end of `on_closer`. */
    method UpdateBest()
      modifies this
      ensures State() == WithBest(old(State()))
    {
      var nowBest := Ids(Take(shortlist, k));
      if nowBest == best && inFlight == [] {
        if AllIn(nowBest, queried) {
          done := true;
        }
      }
      best := nowBest;
    }

    method Record(from: Id, rec: StoredRecord)
      modifies this
      ensures State() == OnRecord(old(State()), from, rec)
    {
      inFlight := Without(inFlight, from);
      found := Some(rec);
      done := true;
    }

    method Providers(from: Id, more: seq<Provider>, closer: seq<PeerInfo>)
      modifies this
      ensures State() == OnProviders(old(State()), from, more, closer)
    {
      inFlight := Without(inFlight, from);
      var i := 0;
      while i < |more|
        invariant 0 <= i <= |more|
        invariant State() == old(State()).(inFlight := Without(old(inFlight), from), providers := providers)
        invariant MergeProviders(providers, more[i..]) == MergeProviders(old(providers), more)
      {
        assert more[i..][1..] == more[i + 1..];
        if !Names(providers, more[i].id) {
          providers := providers + [more[i]];
        }
        i := i + 1;
      }
      Closer(from, closer, 0);
    }
  }
}
