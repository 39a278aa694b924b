/** The record store of one shard (`src/store.rs`): records, cached copies and provider lists.
    Time is in seconds. */
module Stores {
  import opened Xor
  import opened Peers
  import opened Records

  const MAX_RECORD: nat := 64 * 1024
  const MAX_VALUE: nat := 1200 * 64
  const CACHE_TTL_SECS: nat := 10 * 60
  const MAX_PROVIDERS: nat := 64

  /** Protobuf encoding of records. */
  datatype Protobuf = Protobuf(encode: WireRecord -> seq<Byte>, decode: seq<Byte> -> Option<WireRecord>)
  {
    ghost predicate Faithful()
    {
      forall w: WireRecord :: decode(encode(w)) == Some(w)
    }
  }

  datatype ProviderEntry = ProviderEntry(peer: Id, meta: seq<Byte>, storedUnix: nat, ttlSecs: nat)
  {
    predicate Live(now: nat)
    {
      now < storedUnix || now - storedUnix <= ttlSecs
    }
  }

  datatype StoreState = StoreState(
    records: map<Id, StoredRecord>,
    providers: map<Id, seq<ProviderEntry>>,
    cache: map<Id, StoredRecord>,
    durable: bool,
    pendingWal: seq<seq<Byte>>)

  datatype PutError = TooLarge | HashMismatch | BadSignature | StaleSequence | BadTombstone | UnknownKind

  // ---------------------------------------------------------------- operations as functions

  /** Why `put_record` refuses a record, if it does. */
  function Refusal(s: StoreState, rec: StoredRecord, crypto: Crypto): Option<PutError>
  {
    if |rec.value| + |rec.signature| > MAX_RECORD then Some(TooLarge)
    else if rec.kind == KIND_IMMUTABLE then
      if crypto.hash(rec.value) != rec.key then Some(HashMismatch) else None
    else if rec.kind == KIND_MUTABLE then
      if !crypto.Authentic(rec) then Some(BadSignature)
      else if rec.key in s.records && rec.sequence <= s.records[rec.key].sequence && s.records[rec.key].kind != KIND_TOMBSTONE
      then Some(StaleSequence)
      else None
    else if rec.kind == KIND_TOMBSTONE then
      if !crypto.Authentic(rec) then Some(BadTombstone) else None
    else if rec.kind == KIND_PROVIDER then None
    else Some(UnknownKind)
  }

  /** Keep a record and queue it for the log. */
  function Keep(s: StoreState, rec: StoredRecord, pb: Protobuf): StoreState
  {
    s.(records := s.records[rec.key := rec],
       pendingWal := if s.durable then s.pendingWal + [pb.encode(rec.ToWire())] else s.pendingWal)
  }

  /** A probe only checks, except that tombstones take effect even then. */
  function PutRecord(s: StoreState, rec: StoredRecord, probe: bool, crypto: Crypto, pb: Protobuf): StoreState
  {
    if Refusal(s, rec, crypto).Some? then s
    else if probe && rec.kind != KIND_TOMBSTONE then s
    else Keep(s, rec, pb)
  }

  function ImmutableRecord(value: seq<Byte>, ttlSecs: nat, now: nat, crypto: Crypto): StoredRecord
  {
    StoredRecord(crypto.hash(value), value, 0, ttlSecs, 0, [], [], KIND_IMMUTABLE, [], [], now, false)
  }

  function PutImmutable(s: StoreState, value: seq<Byte>, ttlSecs: nat, now: nat, crypto: Crypto, pb: Protobuf): StoreState
  {
    if |value| > MAX_VALUE then s else Keep(s, ImmutableRecord(value, ttlSecs, now, crypto), pb)
  }

  function CacheHit(s: StoreState, rec: StoredRecord, now: nat): StoreState
  {
    if rec.kind != KIND_IMMUTABLE then s
    else s.(cache := s.cache[rec.key := rec.(cache := true, ttlSecs := CACHE_TTL_SECS, storedUnix := now)])
  }

  function Get(s: StoreState, key: Id, now: nat): Option<StoredRecord>
  {
    if key in s.records && !s.records[key].Expired(now) && s.records[key].kind != KIND_TOMBSTONE then Some(s.records[key])
    else if key in s.cache && !s.cache[key].Expired(now) then Some(s.cache[key])
    else None
  }

  function ProvidersOf(s: StoreState, key: Id): seq<ProviderEntry>
  {
    if key in s.providers then s.providers[key] else []
  }

  /** The entry of `peer` refreshed, or a new one if there is room for it. */
  function Announced(list: seq<ProviderEntry>, peer: Id, meta: seq<Byte>, now: nat): seq<ProviderEntry>
  {
    if exists i :: 0 <= i < |list| && list[i].peer == peer then Refreshed(list, peer, meta, now)
    else if |list| < MAX_PROVIDERS then list + [ProviderEntry(peer, meta, now, MUTABLE_TTL_SECS)]
    else list
  }

  function Refreshed(list: seq<ProviderEntry>, peer: Id, meta: seq<Byte>, now: nat): seq<ProviderEntry>
  {
    if list == [] then []
    else if list[0].peer == peer then [list[0].(meta := meta, storedUnix := now)] + list[1..]
    else [list[0]] + Refreshed(list[1..], peer, meta, now)
  }

  function Announce(s: StoreState, key: Id, peer: Id, meta: seq<Byte>, now: nat): StoreState
  {
    s.(providers := s.providers[key := Announced(ProvidersOf(s, key), peer, meta, now)])
  }

  function LiveOnly(list: seq<ProviderEntry>, now: nat): seq<ProviderEntry>
  {
    if list == [] then []
    else (if list[0].Live(now) then [list[0]] else []) + LiveOnly(list[1..], now)
  }

  function Providers(s: StoreState, key: Id, limit: nat, now: nat): seq<ProviderEntry>
  {
    var live := LiveOnly(ProvidersOf(s, key), now);
    if limit <= |live| then live[..limit] else live
  }

  function Gc(s: StoreState, now: nat): StoreState
  {
    s.(records := map k | k in s.records && !s.records[k].Expired(now) :: s.records[k],
       cache := map k | k in s.cache && !s.cache[k].Expired(now) :: s.cache[k],
       providers := map k | k in s.providers :: LiveOnly(s.providers[k], now))
  }

  lemma {:induction false} RefreshedAt(list: seq<ProviderEntry>, i: nat, peer: Id, meta: seq<Byte>, now: nat)
    requires i < |list| && list[i].peer == peer && forall j :: 0 <= j < i ==> list[j].peer != peer
    ensures Refreshed(list, peer, meta, now) == list[i := list[i].(meta := meta, storedUnix := now)]
  {
    var e := list[i].(meta := meta, storedUnix := now);
    if i == 0 {
      assert list[0 := e] == [e] + list[1..];
    } else {
      RefreshedAt(list[1..], i - 1, peer, meta, now);
      assert list[i := e] == [list[0]] + list[1..][i - 1 := e];
    }
  }

  /** The search through one provider list. */
  method AnnounceIn(list: seq<ProviderEntry>, peer: Id, meta: seq<Byte>, now: nat) returns (r: seq<ProviderEntry>)
    ensures r == Announced(list, peer, meta, now)
  {
    var i := 0;
    while i < |list| && list[i].peer != peer
      invariant 0 <= i <= |list|
      invariant forall j :: 0 <= j < i ==> list[j].peer != peer
    {
      i := i + 1;
    }
    if i < |list| {
      RefreshedAt(list, i, peer, meta, now);
      r := list[i := list[i].(meta := meta, storedUnix := now)];
    } else if |list| < MAX_PROVIDERS {
      r := list + [ProviderEntry(peer, meta, now, MUTABLE_TTL_SECS)];
    } else {
      r := list;
    }
  }

  /** The loop over all provider lists. */
  method SweepLists(lists: map<Id, seq<ProviderEntry>>, now: nat) returns (r: map<Id, seq<ProviderEntry>>)
    ensures r == map k | k in lists :: LiveOnly(lists[k], now)
  {
    r := lists;
    var keys := lists.Keys;
    while keys != {}
      invariant keys <= lists.Keys == r.Keys
      invariant forall k :: k in lists ==> r[k] == if k in keys then lists[k] else LiveOnly(lists[k], now)
      decreases |keys|
    {
      var k :| k in keys;
      r := r[k := LiveOnly(r[k], now)];
      keys := keys - {k};
    }
  }

  // ---------------------------------------------------------------- the object

  class Store {
    var records: map<Id, StoredRecord>
    var providers: map<Id, seq<ProviderEntry>>
    var cache: map<Id, StoredRecord>
    var durable: bool
    var pendingWal: seq<seq<Byte>>

    function State(): StoreState
      reads this
    {
      StoreState(records, providers, cache, durable, pendingWal)
    }

    constructor (durable: bool)
      ensures State() == StoreState(map[], map[], map[], durable, [])
    {
      records, providers, cache, this.durable, pendingWal := map[], map[], map[], durable, [];
    }

    method Queue(rec: StoredRecord, pb: Protobuf)
      modifies this
      ensures State() == old(State()).(pendingWal := if durable then old(pendingWal) + [pb.encode(rec.ToWire())] else old(pendingWal))
    {
      if durable {
        pendingWal := pendingWal + [pb.encode(rec.ToWire())];
      }
    }

    method Put(rec: StoredRecord, probe: bool, crypto: Crypto, pb: Protobuf) returns (err: Option<PutError>)
      modifies this
      ensures State() == PutRecord(old(State()), rec, probe, crypto, pb)
      ensures err == Refusal(old(State()), rec, crypto)
    {
      if |rec.value| + |rec.signature| > MAX_RECORD {
        return Some(TooLarge);
      }
      if rec.kind == KIND_IMMUTABLE {
        if crypto.hash(rec.value) != rec.key {
          return Some(HashMismatch);
        }
      } else if rec.kind == KIND_MUTABLE {
        if !crypto.Authentic(rec) {
          return Some(BadSignature);
        }
        if rec.key in records {
          var kept := records[rec.key];
          if rec.sequence <= kept.sequence && kept.kind != KIND_TOMBSTONE {
            return Some(StaleSequence);
          }
        }
      } else if rec.kind == KIND_TOMBSTONE {
        if !crypto.Authentic(rec) {
          return Some(BadTombstone);
        }
      } else if rec.kind != KIND_PROVIDER {
        return Some(UnknownKind);
      }
      if rec.kind == KIND_TOMBSTONE {
        Queue(rec, pb);
        records := records[rec.key := rec];
        return None;
      }
      if probe {
        return None;
      }
      Queue(rec, pb);
      records := records[rec.key := rec];
      return None;
    }

    method AnnounceProvider(key: Id, peer: Id, meta: seq<Byte>, now: nat)
      modifies this
      ensures State() == Announce(old(State()), key, peer, meta, now)
    {
      var list := AnnounceIn(if key in providers then providers[key] else [], peer, meta, now);
      providers := providers[key := list];
    }

    method CollectGarbage(now: nat)
      modifies this
      ensures State() == Gc(old(State()), now)
    {
      records := map k | k in records && !records[k].Expired(now) :: records[k];
      cache := map k | k in cache && !cache[k].Expired(now) :: cache[k];
      providers := SweepLists(providers, now);
    }
  }

  // ---------------------------------------------------------------- reads only see sound records

  ghost predicate Inv(s: StoreState, crypto: Crypto)
  {
    && (forall k :: k in s.records ==> s.records[k].key == k && crypto.Authentic(s.records[k]))
    && (forall k :: k in s.cache ==> s.cache[k].key == k && s.cache[k].kind == KIND_IMMUTABLE && crypto.Authentic(s.cache[k]))
  }

  datatype Step =
    | DoPut(rec: StoredRecord, probe: bool)
    | DoPutImmutable(value: seq<Byte>, ttlSecs: nat, now: nat)
    | DoCache(rec: StoredRecord, now: nat)
    | DoAnnounce(key: Id, peer: Id, meta: seq<Byte>, now: nat)
    | DoGc(now: nat)

  function Next(s: StoreState, step: Step, crypto: Crypto, pb: Protobuf): StoreState
  {
    match step
    case DoPut(rec, probe) => PutRecord(s, rec, probe, crypto, pb)
    case DoPutImmutable(value, ttlSecs, now) => PutImmutable(s, value, ttlSecs, now, crypto, pb)
    case DoCache(rec, now) => if crypto.Authentic(rec) then CacheHit(s, rec, now) else s
    case DoAnnounce(key, peer, meta, now) => Announce(s, key, peer, meta, now)
    case DoGc(now) => Gc(s, now)
  }

  function Run(s: StoreState, steps: seq<Step>, crypto: Crypto, pb: Protobuf): StoreState
    decreases |steps|
  {
    if steps == [] then s else Run(Next(s, steps[0], crypto, pb), steps[1..], crypto, pb)
  }

  const Empty: StoreState := StoreState(map[], map[], map[], true, [])

  lemma NextKeepsInv(s: StoreState, step: Step, crypto: Crypto, pb: Protobuf)
    requires Inv(s, crypto)
    ensures Inv(Next(s, step, crypto, pb), crypto)
  {
  }

  lemma {:induction false} RunKeepsInv(s: StoreState, steps: seq<Step>, crypto: Crypto, pb: Protobuf)
    requires Inv(s, crypto)
    ensures Inv(Run(s, steps, crypto, pb), crypto)
    decreases |steps|
  {
    if steps != [] {
      NextKeepsInv(s, steps[0], crypto, pb);
      RunKeepsInv(Next(s, steps[0], crypto, pb), steps[1..], crypto, pb);
    }
  }

  /** After any run from a store with sound records, what `get` returns is authentic, unexpired, not a
      tombstone, and filed under its key. */
  lemma GetIsSound(s: StoreState, steps: seq<Step>, crypto: Crypto, pb: Protobuf, key: Id, now: nat)
    requires Inv(s, crypto) && Get(Run(s, steps, crypto, pb), key, now).Some?
    ensures var r := Get(Run(s, steps, crypto, pb), key, now).value;
            r.key == key && crypto.Authentic(r) && !r.Expired(now) && r.kind != KIND_TOMBSTONE
  {
    RunKeepsInv(s, steps, crypto, pb);
  }

  // ---------------------------------------------------------------- garbage collection

  lemma {:induction false} LiveOnlyLater(list: seq<ProviderEntry>, t: nat, now: nat)
    requires t <= now
    ensures LiveOnly(LiveOnly(list, t), now) == LiveOnly(list, now)
  {
    if list != [] {
      var rest := LiveOnly(list[1..], t);
      LiveOnlyLater(list[1..], t, now);
      if list[0].Live(t) {
        assert ([list[0]] + rest)[1..] == rest;
      } else {
        assert [] + rest == rest;
      }
    }
  }

  /** Collecting at `t` changes no answer to `get` or `providers` at `t` or later. */
  lemma GcInvisibleToReads(s: StoreState, t: nat, now: nat, key: Id, limit: nat)
    requires t <= now
    ensures Get(Gc(s, t), key, now) == Get(s, key, now)
    ensures Providers(Gc(s, t), key, limit, now) == Providers(s, key, limit, now)
  {
    LiveOnlyLater(ProvidersOf(s, key), t, now);
  }

  /** It is visible to writers, exactly when the record it dropped was holding off a stale sequence. */
  lemma GcVisibleToPutIff(s: StoreState, t: nat, rec: StoredRecord, crypto: Crypto)
    ensures Refusal(Gc(s, t), rec, crypto) != Refusal(s, rec, crypto) <==>
            && rec.kind == KIND_MUTABLE && |rec.value| + |rec.signature| <= MAX_RECORD && crypto.Authentic(rec)
            && rec.key in s.records && s.records[rec.key].Expired(t)
            && s.records[rec.key].kind != KIND_TOMBSTONE && rec.sequence <= s.records[rec.key].sequence
  {
  }

  /** The input that shows it: a record expires and is collected, and an older sequence gets in. */
  lemma StaleAcceptedAfterGc(kept: StoredRecord, stale: StoredRecord, key: Id, t: nat, crypto: Crypto, pb: Protobuf)
    requires Deliverable(kept, key, crypto) && Deliverable(stale, key, crypto)
    requires kept.kind == KIND_MUTABLE && stale.kind == KIND_MUTABLE && stale.sequence <= kept.sequence && kept.Expired(t)
    ensures var s := PutRecord(Empty, kept, false, crypto, pb);
            Refusal(s, stale, crypto) == Some(StaleSequence) && Refusal(Gc(s, t), stale, crypto) == None
  {
    DeliverOne(Empty, kept, key, crypto, pb);
    GcVisibleToPutIff(PutRecord(Empty, kept, false, crypto, pb), t, stale, crypto);
  }

  // ---------------------------------------------------------------- replica convergence

  /** A record of any kind for `key` that passes every check except the sequence. */
  ghost predicate Deliverable(rec: StoredRecord, key: Id, crypto: Crypto)
  {
    rec.key == key && |rec.value| + |rec.signature| <= MAX_RECORD && crypto.Authentic(rec)
  }

  ghost predicate AllDeliverable(recs: seq<StoredRecord>, key: Id, crypto: Crypto)
  {
    forall i :: 0 <= i < |recs| ==> Deliverable(recs[i], key, crypto)
  }

  function Deliver(s: StoreState, recs: seq<StoredRecord>, crypto: Crypto, pb: Protobuf): StoreState
  {
    if recs == [] then s
    else PutRecord(Deliver(s, recs[..|recs| - 1], crypto, pb), recs[|recs| - 1], false, crypto, pb)
  }

  /** Whatever is accepted over a live mutable record has a higher sequence. */
  lemma AcceptedRaisesSequence(s: StoreState, rec: StoredRecord, probe: bool, crypto: Crypto, pb: Protobuf)
    requires rec.kind == KIND_MUTABLE && rec.key in s.records && s.records[rec.key].kind == KIND_MUTABLE
    ensures var s' := PutRecord(s, rec, probe, crypto, pb);
            && rec.key in s'.records
            && (s'.records[rec.key] == s.records[rec.key] || s'.records[rec.key].sequence > s.records[rec.key].sequence)
  {
  }

  /** A stored `kept` holds off `w`: only mutable records are held off, and not by a tombstone. */
  predicate HoldsOff(kept: WireRecord, w: WireRecord)
  {
    w.kind == KIND_MUTABLE && kept.kind != KIND_TOMBSTONE && w.sequence <= kept.sequence
  }

  /** One delivery: it replaces what is there unless it is held off. */
  lemma DeliverOne(s: StoreState, rec: StoredRecord, key: Id, crypto: Crypto, pb: Protobuf)
    requires Deliverable(rec, key, crypto)
    ensures var s' := PutRecord(s, rec, false, crypto, pb);
            && key in s'.records
            && s'.records[key] == if key in s.records && HoldsOff(s.records[key].ToWire(), rec.ToWire()) then s.records[key] else rec
  {
  }

  /** What was delivered, regardless of order, repetition and arrival time. */
  function Contents(recs: seq<StoredRecord>): set<WireRecord>
  {
    set r | r in recs :: r.ToWire()
  }

  lemma ContentsSnoc(recs: seq<StoredRecord>)
    requires recs != []
    ensures Contents(recs) == Contents(recs[..|recs| - 1]) + {recs[|recs| - 1].ToWire()}
  {
    var n := |recs| - 1;
    assert recs == recs[..n] + [recs[n]];
    forall w | w in Contents(recs[..n]) ensures w in Contents(recs) {
      var x :| x in recs[..n] && x.ToWire() == w;
      assert x in recs;
    }
    assert recs[n] in recs;
  }

  /** What is stored was delivered. */
  lemma {:induction false} KeptWasDelivered(s: StoreState, recs: seq<StoredRecord>, key: Id, crypto: Crypto, pb: Protobuf)
    requires key !in s.records && AllDeliverable(recs, key, crypto)
    ensures var s' := Deliver(s, recs, crypto, pb);
            && (key in s'.records <==> recs != [])
            && (key in s'.records ==> s'.records[key].ToWire() in Contents(recs))
  {
    if recs != [] {
      var n := |recs| - 1;
      KeptWasDelivered(s, recs[..n], key, crypto, pb);
      DeliverOne(Deliver(s, recs[..n], crypto, pb), recs[n], key, crypto, pb);
      ContentsSnoc(recs);
    }
  }

  /** Whatever the order of arrival, stores agree on the content once all of `contents` has arrived. */
  ghost predicate Converges(contents: set<WireRecord>, key: Id, crypto: Crypto, pb: Protobuf)
  {
    forall a: seq<StoredRecord>, b: seq<StoredRecord>, s: StoreState, t: StoreState ::
      Arrives(s, a, contents, key, crypto) && Arrives(t, b, contents, key, crypto)
      ==> EndsAlike(Deliver(s, a, crypto, pb), Deliver(t, b, crypto, pb), key)
  }

  /** The deliveries `recs` bring exactly `contents` to a store without the key. */
  ghost predicate Arrives(s: StoreState, recs: seq<StoredRecord>, contents: set<WireRecord>, key: Id, crypto: Crypto)
  {
    Contents(recs) == contents && AllDeliverable(recs, key, crypto) && key !in s.records
  }

  ghost predicate EndsAlike(s: StoreState, t: StoreState, key: Id)
  {
    key in s.records && key in t.records && s.records[key].SameContent(t.records[key])
  }

  /** `w` prevails over `v` whichever comes first: it replaces `v` and then holds it off. */
  predicate Prevails(w: WireRecord, v: WireRecord)
  {
    HoldsOff(w, v) && !HoldsOff(v, w)
  }

  ghost predicate Dominant(w: WireRecord, contents: set<WireRecord>)
  {
    w in contents && forall v :: v in contents && v != w ==> Prevails(w, v)
  }

  /** A record that prevails over all others is the one that stays. */
  lemma {:induction false} DominantStays(s: StoreState, recs: seq<StoredRecord>, w: WireRecord, key: Id, crypto: Crypto, pb: Protobuf)
    requires key !in s.records && AllDeliverable(recs, key, crypto) && w in Contents(recs)
    requires forall v :: v in Contents(recs) && v != w ==> Prevails(w, v)
    ensures var s' := Deliver(s, recs, crypto, pb); key in s'.records && s'.records[key].ToWire() == w
  {
    var n := |recs| - 1;
    var mid := Deliver(s, recs[..n], crypto, pb);
    ContentsSnoc(recs);
    DeliverOne(mid, recs[n], key, crypto, pb);
    if w in Contents(recs[..n]) {
      DominantStays(s, recs[..n], w, key, crypto, pb);
    } else {
      KeptWasDelivered(s, recs[..n], key, crypto, pb);
    }
  }

  lemma DominantConverges(w: WireRecord, contents: set<WireRecord>, key: Id, crypto: Crypto, pb: Protobuf)
    requires Dominant(w, contents)
    ensures Converges(contents, key, crypto, pb)
  {
    forall a: seq<StoredRecord>, b: seq<StoredRecord>, s: StoreState, t: StoreState |
      Arrives(s, a, contents, key, crypto) && Arrives(t, b, contents, key, crypto)
      ensures EndsAlike(Deliver(s, a, crypto, pb), Deliver(t, b, crypto, pb), key)
    {
      DominantStays(s, a, w, key, crypto, pb);
      DominantStays(t, b, w, key, crypto, pb);
    }
  }

  /** The record as stored on arrival at time 0. */
  function Arrived(w: WireRecord): StoredRecord
    requires |w.key| == ID_LEN
  {
    StoredRecord(w.key, w.value, w.sequence, w.ttlSecs, w.notBeforeUnix, w.owner, w.signature, w.kind, w.namespace, w.salt, 0, false)
  }

  /** Every record of the set is a valid one for `key`. */
  ghost predicate Valid(contents: set<WireRecord>, key: Id, crypto: Crypto)
  {
    forall w :: w in contents ==> |w.key| == ID_LEN && Deliverable(Arrived(w), key, crypto)
  }

  lemma OneMore(recs: seq<StoredRecord>, r: StoredRecord, key: Id, crypto: Crypto)
    requires AllDeliverable(recs, key, crypto) && Deliverable(r, key, crypto)
    ensures AllDeliverable(recs + [r], key, crypto) && Contents(recs + [r]) == Contents(recs) + {r.ToWire()}
  {
    ContentsSnoc(recs + [r]);
    assert (recs + [r])[..|recs|] == recs;
  }

  /** Some order in which all of `contents` can arrive. */
  lemma {:induction false} SomeOrder(contents: set<WireRecord>, key: Id, crypto: Crypto) returns (recs: seq<StoredRecord>)
    requires Valid(contents, key, crypto)
    ensures AllDeliverable(recs, key, crypto) && Contents(recs) == contents
    decreases |contents|
  {
    if contents == {} {
      recs := [];
    } else {
      var w :| w in contents;
      var rest := SomeOrder(contents - {w}, key, crypto);
      recs := rest + [Arrived(w)];
      OneMore(rest, Arrived(w), key, crypto);
    }
  }

  /** The deliveries `recs` bring `contents` to an empty store and leave it with `w`. */
  ghost predicate LeavesWith(recs: seq<StoredRecord>, w: WireRecord, contents: set<WireRecord>, key: Id, crypto: Crypto, pb: Protobuf)
  {
    && Arrives(Empty, recs, contents, key, crypto)
    && key in Deliver(Empty, recs, crypto, pb).records && Deliver(Empty, recs, crypto, pb).records[key].ToWire() == w
  }

  lemma DifferentEndsDiverge(a: seq<StoredRecord>, w: WireRecord, b: seq<StoredRecord>, v: WireRecord,
                             contents: set<WireRecord>, key: Id, crypto: Crypto, pb: Protobuf)
    requires LeavesWith(a, w, contents, key, crypto, pb) && LeavesWith(b, v, contents, key, crypto, pb) && w != v
    ensures !Converges(contents, key, crypto, pb)
  {
    assert !EndsAlike(Deliver(Empty, a, crypto, pb), Deliver(Empty, b, crypto, pb), key);
  }

  /** One more delivery of a known record. */
  lemma DeliverAgain(recs: seq<StoredRecord>, kept: WireRecord, w: WireRecord, contents: set<WireRecord>, key: Id, crypto: Crypto, pb: Protobuf)
    requires Valid(contents, key, crypto) && w in contents && LeavesWith(recs, kept, contents, key, crypto, pb)
    ensures LeavesWith(recs + [Arrived(w)], if HoldsOff(kept, w) then kept else w, contents, key, crypto, pb)
  {
    var more := recs + [Arrived(w)];
    assert more[..|recs|] == recs && more[|recs|] == Arrived(w);
    OneMore(recs, Arrived(w), key, crypto);
    DeliverOne(Deliver(Empty, recs, crypto, pb), Arrived(w), key, crypto, pb);
  }

  lemma SomeEnding(contents: set<WireRecord>, key: Id, crypto: Crypto, pb: Protobuf) returns (recs: seq<StoredRecord>, kept: WireRecord)
    requires Valid(contents, key, crypto) && contents != {}
    ensures kept in contents && LeavesWith(recs, kept, contents, key, crypto, pb)
  {
    recs := SomeOrder(contents, key, crypto);
    assert Contents([]) == {};
    KeptWasDelivered(Empty, recs, key, crypto, pb);
    kept := Deliver(Empty, recs, crypto, pb).records[key].ToWire();
  }

  /** What is stored in the end can still be replaced by any record that it does not prevail over. */
  lemma NotDominantDiverges(recs: seq<StoredRecord>, kept: WireRecord, v: WireRecord, contents: set<WireRecord>, key: Id, crypto: Crypto, pb: Protobuf)
    requires Valid(contents, key, crypto) && LeavesWith(recs, kept, contents, key, crypto, pb)
    requires v in contents && v != kept && !HoldsOff(kept, v)
    ensures !Converges(contents, key, crypto, pb)
  {
    DeliverAgain(recs, kept, v, contents, key, crypto, pb);
    DifferentEndsDiverge(recs, kept, recs + [Arrived(v)], v, contents, key, crypto, pb);
  }

  lemma DeliverSnoc(s: StoreState, recs: seq<StoredRecord>, r: StoredRecord, crypto: Crypto, pb: Protobuf)
    ensures Deliver(s, recs + [r], crypto, pb) == PutRecord(Deliver(s, recs, crypto, pb), r, false, crypto, pb)
  {
    assert (recs + [r])[..|recs|] == recs;
  }

  lemma HeldOff(s: StoreState, w: WireRecord, rec: StoredRecord, key: Id, crypto: Crypto, pb: Protobuf)
    requires key in s.records && s.records[key].ToWire() == w && Deliverable(rec, key, crypto)
    requires rec.ToWire() == w || HoldsOff(w, rec.ToWire())
    ensures var s' := PutRecord(s, rec, false, crypto, pb); key in s'.records && s'.records[key].ToWire() == w
  {
    DeliverOne(s, rec, key, crypto, pb);
  }

  /** Delivered first, a record that holds off all others is the one that stays. */
  lemma {:induction false} FirstComeStays(w: WireRecord, recs: seq<StoredRecord>, key: Id, crypto: Crypto, pb: Protobuf)
    requires |w.key| == ID_LEN && Deliverable(Arrived(w), key, crypto) && AllDeliverable(recs, key, crypto)
    requires forall v :: v in Contents(recs) && v != w ==> HoldsOff(w, v)
    ensures var s' := Deliver(Empty, [Arrived(w)] + recs, crypto, pb); key in s'.records && s'.records[key].ToWire() == w
  {
    var all := [Arrived(w)] + recs;
    if recs == [] {
      assert all[..0] == [];
      DeliverOne(Empty, Arrived(w), key, crypto, pb);
    } else {
      var n := |recs| - 1;
      var init := recs[..n];
      assert Contents(recs) == Contents(init) + {recs[n].ToWire()} by { ContentsSnoc(recs); }
      FirstComeStays(w, init, key, crypto, pb);
      assert all == ([Arrived(w)] + init) + [recs[n]];
      DeliverSnoc(Empty, [Arrived(w)] + init, recs[n], crypto, pb);
      HeldOff(Deliver(Empty, [Arrived(w)] + init, crypto, pb), w, recs[n], key, crypto, pb);
    }
  }

  lemma ContentsCons(r: StoredRecord, rest: seq<StoredRecord>)
    ensures Contents([r] + rest) == {r.ToWire()} + Contents(rest)
  {
    forall w | w in Contents(rest) ensures w in Contents([r] + rest) {
      var x :| x in rest && x.ToWire() == w;
      assert x in [r] + rest;
    }
    assert r in [r] + rest;
  }

  lemma OrderKeeping(w: WireRecord, contents: set<WireRecord>, key: Id, crypto: Crypto, pb: Protobuf) returns (recs: seq<StoredRecord>)
    requires Valid(contents, key, crypto) && w in contents && forall v :: v in contents && v != w ==> HoldsOff(w, v)
    ensures LeavesWith(recs, w, contents, key, crypto, pb)
  {
    var rest := SomeOrder(contents, key, crypto);
    FirstComeStays(w, rest, key, crypto, pb);
    ContentsCons(Arrived(w), rest);
    recs := [Arrived(w)] + rest;
  }

  /** Some record is stored in the end. If it does not hold off all others, one of them can replace it.
      If it does without prevailing over all, then another holds it off in turn, and first come stays. */
  lemma NoDominantDiverges(contents: set<WireRecord>, key: Id, crypto: Crypto, pb: Protobuf)
    requires Valid(contents, key, crypto) && contents != {} && !exists w :: Dominant(w, contents)
    ensures !Converges(contents, key, crypto, pb)
  {
    var recs, kept := SomeEnding(contents, key, crypto, pb);
    assert !Dominant(kept, contents);
    var v :| v in contents && v != kept && !Prevails(kept, v);
    if u :| u in contents && u != kept && !HoldsOff(kept, u) {
      NotDominantDiverges(recs, kept, u, contents, key, crypto, pb);
    } else {
      assert HoldsOff(kept, v) && HoldsOff(v, kept);
      forall u | u in contents && u != v ensures HoldsOff(v, u) {
        assert u != kept ==> HoldsOff(kept, u);
      }
      var other := OrderKeeping(v, contents, key, crypto, pb);
      DifferentEndsDiverge(recs, kept, other, v, contents, key, crypto, pb);
    }
  }

  /** Replica convergence, for records of every kind: stores without the key that receive the same
      valid records, in any order and with any repetition, agree if and only if one of the records
      prevails over every other. */
  lemma ConvergesIffDominant(contents: set<WireRecord>, key: Id, crypto: Crypto, pb: Protobuf)
    requires Valid(contents, key, crypto)
    ensures Converges(contents, key, crypto, pb) <==> exists w :: Dominant(w, contents)
  {
    if w :| Dominant(w, contents) {
      DominantConverges(w, contents, key, crypto, pb);
    } else if contents == {} {
      var none: seq<StoredRecord> := [];
      assert Contents(none) == {};
      assert Arrives(Empty, none, {}, key, crypto);
      assert !EndsAlike(Deliver(Empty, none, crypto, pb), Deliver(Empty, none, crypto, pb), key);
    } else {
      NoDominantDiverges(contents, key, crypto, pb);
    }
  }

  ghost predicate AllMutable(contents: set<WireRecord>)
  {
    forall w :: w in contents ==> w.kind == KIND_MUTABLE
  }

  ghost predicate TopOf(w: WireRecord, contents: set<WireRecord>)
  {
    w in contents && forall v :: v in contents && v != w ==> v.sequence < w.sequence
  }

  ghost predicate UniqueTop(contents: set<WireRecord>)
  {
    exists w :: TopOf(w, contents)
  }

  lemma DominantIsTop(w: WireRecord, contents: set<WireRecord>)
    requires AllMutable(contents)
    ensures Dominant(w, contents) <==> TopOf(w, contents)
  {
  }

  /** Mutable records alone: exactly if one of them alone has the highest sequence. */
  lemma ConvergesIffUniqueTop(contents: set<WireRecord>, key: Id, crypto: Crypto, pb: Protobuf)
    requires Valid(contents, key, crypto) && AllMutable(contents)
    ensures Converges(contents, key, crypto, pb) <==> UniqueTop(contents)
  {
    ConvergesIffDominant(contents, key, crypto, pb);
    forall w ensures Dominant(w, contents) <==> TopOf(w, contents) {
      DominantIsTop(w, contents);
    }
  }

  /** With a deletion among them: exactly if it is the only record. */
  lemma DeletionConvergesIffAlone(contents: set<WireRecord>, d: WireRecord, key: Id, crypto: Crypto, pb: Protobuf)
    requires Valid(contents, key, crypto) && d in contents && d.kind == KIND_TOMBSTONE
    ensures Converges(contents, key, crypto, pb) <==> contents == {d}
  {
    ConvergesIffDominant(contents, key, crypto, pb);
    if w :| Dominant(w, contents) {
      assert w == d;
      forall v | v in contents ensures v == d {
        assert v != d ==> Prevails(d, v);
      }
      assert contents == {d};
    }
    if contents == {d} {
      assert Dominant(d, contents);
    }
  }

  /** `r` is the first of `recs` with the highest sequence. */
  ghost predicate FirstTop(recs: seq<StoredRecord>, i: nat)
  {
    && i < |recs|
    && (forall j :: 0 <= j < |recs| ==> recs[j].sequence <= recs[i].sequence)
    && (forall j :: 0 <= j < i ==> recs[j].sequence < recs[i].sequence)
  }

  /** Which of several mutable deliveries stays: the first one of the highest sequence. */
  lemma {:induction false} DeliveryKeepsTop(s: StoreState, recs: seq<StoredRecord>, key: Id, crypto: Crypto, pb: Protobuf)
    requires key !in s.records && AllDeliverable(recs, key, crypto) && recs != []
    requires forall i :: 0 <= i < |recs| ==> recs[i].kind == KIND_MUTABLE
    ensures var s' := Deliver(s, recs, crypto, pb);
            key in s'.records && exists i: nat :: FirstTop(recs, i) && s'.records[key] == recs[i]
  {
    var n := |recs| - 1;
    var init := recs[..n];
    var mid := Deliver(s, init, crypto, pb);
    DeliverOne(mid, recs[n], key, crypto, pb);
    if n == 0 {
      assert mid == s;
      assert FirstTop(recs, 0);
    } else {
      DeliveryKeepsTop(s, init, key, crypto, pb);
      var i: nat :| FirstTop(init, i) && mid.records[key] == init[i];
      assert init[i] == recs[i];
      NextTop(recs, i);
    }
  }

  lemma NextTop(recs: seq<StoredRecord>, i: nat)
    requires recs != [] && FirstTop(recs[..|recs| - 1], i)
    ensures FirstTop(recs, if recs[|recs| - 1].sequence <= recs[i].sequence then i else |recs| - 1)
  {
    var init := recs[..|recs| - 1];
    assert forall j :: 0 <= j < |init| ==> recs[j] == init[j];
  }

  /** Concretely: a deletion and a record end differently in the two orders. */
  lemma TombstoneOrderMatters(m: StoredRecord, d: StoredRecord, key: Id, crypto: Crypto, pb: Protobuf)
    requires Deliverable(m, key, crypto) && Deliverable(d, key, crypto) && m.kind == KIND_MUTABLE && d.kind == KIND_TOMBSTONE
    ensures !EndsAlike(Deliver(Empty, [m, d], crypto, pb), Deliver(Empty, [d, m], crypto, pb), key)
  {
    assert [m, d][..1] == [m] && [d, m][..1] == [d] && [m][..0] == [] && [d][..0] == [];
    assert Deliver(Empty, [m], crypto, pb).records[key] == m;
    assert Deliver(Empty, [d], crypto, pb).records[key] == d;
    assert Deliver(Empty, [m, d], crypto, pb).records[key] == d;
    assert Deliver(Empty, [d, m], crypto, pb).records[key] == m;
  }

  // ---------------------------------------------------------------- what a put, a read and a collection do

  /** A put is accepted exactly if the record is small enough and authentic, and no stored record holds it off. */
  lemma AcceptedIff(s: StoreState, rec: StoredRecord, crypto: Crypto)
    ensures Refusal(s, rec, crypto).None? <==>
            && Deliverable(rec, rec.key, crypto)
            && !(rec.key in s.records && HoldsOff(s.records[rec.key].ToWire(), rec.ToWire()))
  {
  }

  /** Which error a refused put reports. */
  lemma RefusalReasons(s: StoreState, rec: StoredRecord, crypto: Crypto)
    requires Refusal(s, rec, crypto).Some?
    ensures var e := Refusal(s, rec, crypto).value;
            && (e == TooLarge <==> |rec.value| + |rec.signature| > 65536)
            && (e != TooLarge && crypto.Authentic(rec) <==> e == StaleSequence)
            && (e == HashMismatch <==> e != TooLarge && rec.kind == 0)
            && (e == BadSignature <==> e != TooLarge && e != StaleSequence && rec.kind == 1)
            && (e == BadTombstone <==> e != TooLarge && rec.kind == 3)
            && (e == UnknownKind <==> e != TooLarge && rec.kind > 3)
  {
  }

  /** A refused put and a probe of anything but a tombstone leave the store as it was. */
  lemma ProbeChangesNothing(s: StoreState, rec: StoredRecord, probe: bool, crypto: Crypto, pb: Protobuf)
    requires Refusal(s, rec, crypto).Some? || (probe && rec.kind != KIND_TOMBSTONE)
    ensures PutRecord(s, rec, probe, crypto, pb) == s
  {
  }

  /** An accepted record is served until its time to live ends, and queued for the log; what is served
      under other keys does not change. */
  lemma AcceptedIsServed(s: StoreState, rec: StoredRecord, crypto: Crypto, pb: Protobuf, now: nat, key: Id)
    requires Refusal(s, rec, crypto).None? && rec.kind != KIND_TOMBSTONE
    ensures var s' := PutRecord(s, rec, false, crypto, pb);
            && (!rec.Expired(now) ==> Get(s', rec.key, now) == Some(rec))
            && (key != rec.key ==> Get(s', key, now) == Get(s, key, now))
            && s'.pendingWal == (if s.durable then s.pendingWal + [pb.encode(rec.ToWire())] else s.pendingWal)
            && s'.cache == s.cache && s'.providers == s.providers
  {
  }

  /** An accepted deletion, even as a probe, hides the key: only a cached copy can still be served. */
  lemma DeletionHides(s: StoreState, d: StoredRecord, probe: bool, crypto: Crypto, pb: Protobuf, now: nat)
    requires Refusal(s, d, crypto).None? && d.kind == KIND_TOMBSTONE
    ensures var got := Get(PutRecord(s, d, probe, crypto, pb), d.key, now);
            got == if d.key in s.cache && !s.cache[d.key].Expired(now) then Some(s.cache[d.key]) else None
  {
  }

  /** A value put under its hash is served there until its time to live ends, unless it is over the limit. */
  lemma ImmutableIsServed(s: StoreState, value: seq<Byte>, ttlSecs: nat, t: nat, crypto: Crypto, pb: Protobuf, now: nat)
    requires t <= now <= t + ttlSecs
    ensures var s' := PutImmutable(s, value, ttlSecs, t, crypto, pb); var got := Get(s', crypto.hash(value), now);
            if |value| <= 76_800 then got.Some? && got.value.value == value && crypto.Authentic(got.value) && got.value.kind == 0
            else s' == s
  {
  }

  /** A cached immutable record is served for ten minutes where the store has no live record of its own;
      other records are not cached. */
  lemma CachedIsServed(s: StoreState, rec: StoredRecord, t: nat, now: nat)
    requires t <= now
    ensures var s' := CacheHit(s, rec, t); var own := rec.key in s.records && !s.records[rec.key].Expired(now) && s.records[rec.key].kind != KIND_TOMBSTONE;
            && s'.records == s.records
            && (rec.kind != KIND_IMMUTABLE ==> s' == s)
            && (rec.kind == KIND_IMMUTABLE && !own ==>
                  var got := Get(s', rec.key, now);
                  (got.Some? <==> now <= t + 600) && (got.Some? ==> got.value.value == rec.value && got.value.key == rec.key))
  {
  }

  lemma {:induction false} LiveOnlyIsFilter(list: seq<ProviderEntry>, now: nat)
    ensures forall e :: e in LiveOnly(list, now) <==> e in list && e.Live(now)
    ensures |LiveOnly(list, now)| <= |list|
  {
    if list != [] {
      LiveOnlyIsFilter(list[1..], now);
      assert list == [list[0]] + list[1..];
    }
  }

  /** A collection keeps exactly what has not expired: records, cached copies and providers. */
  lemma GcKeepsExactlyLive(s: StoreState, t: nat, key: Id)
    ensures var s' := Gc(s, t);
            && (key in s'.records <==> key in s.records && !s.records[key].Expired(t)) && (key in s'.records ==> s'.records[key] == s.records[key])
            && (key in s'.cache <==> key in s.cache && !s.cache[key].Expired(t)) && (key in s'.cache ==> s'.cache[key] == s.cache[key])
            && (forall e :: e in ProvidersOf(s', key) <==> e in ProvidersOf(s, key) && e.Live(t))
  {
    LiveOnlyIsFilter(ProvidersOf(s, key), t);
  }

  // ---------------------------------------------------------------- providers

  ghost predicate ListOk(list: seq<ProviderEntry>)
  {
    && |list| <= 64
    && (forall i, j :: 0 <= i < j < |list| ==> list[i].peer != list[j].peer)
    && (forall e :: e in list ==> e.ttlSecs == 24 * 3600)
  }

  ghost predicate ProvidersOk(s: StoreState)
  {
    forall key :: key in s.providers ==> ListOk(s.providers[key])
  }

  predicate Lists(list: seq<ProviderEntry>, peer: Id)
  {
    exists i :: 0 <= i < |list| && list[i].peer == peer
  }

  /** An announcement refreshes the peer's entry, or appends one while fewer than 64 are listed; entries
      of other peers stay. */
  lemma AnnouncementSpec(list: seq<ProviderEntry>, peer: Id, meta: seq<Byte>, now: nat)
    requires ListOk(list)
    ensures var list' := Announced(list, peer, meta, now);
            && ListOk(list')
            && (Lists(list, peer) || |list| < 64 ==> ProviderEntry(peer, meta, now, 24 * 3600) in list')
            && (!Lists(list, peer) && |list| >= 64 ==> list' == list)
            && (forall e: ProviderEntry :: e.peer != peer ==> (e in list' <==> e in list))
  {
    if i :| 0 <= i < |list| && list[i].peer == peer {
      RefreshedAt(list, i, peer, meta, now);
      var list' := list[i := list[i].(meta := meta, storedUnix := now)];
      assert list[i] in list && list'[i] in list';
      forall e: ProviderEntry | e.peer != peer ensures e in list' <==> e in list {
        if e in list {
          var j :| 0 <= j < |list| && list[j] == e;
          assert list'[j] == e;
        }
      }
    }
  }

  lemma {:induction false} LiveOnlyOk(list: seq<ProviderEntry>, now: nat)
    requires ListOk(list)
    ensures ListOk(LiveOnly(list, now))
  {
    if list != [] {
      var rest := list[1..];
      assert list == [list[0]] + rest;
      LiveOnlyOk(rest, now);
      LiveOnlyIsFilter(rest, now);
      forall e | e in LiveOnly(rest, now) ensures e.peer != list[0].peer {
        assert e in rest;
        var j :| 0 <= j < |rest| && rest[j] == e;
        assert list[j + 1] == e;
      }
    }
  }

  lemma NextKeepsProviders(s: StoreState, step: Step, crypto: Crypto, pb: Protobuf)
    requires ProvidersOk(s)
    ensures ProvidersOk(Next(s, step, crypto, pb))
  {
    match step
    case DoAnnounce(key, peer, meta, now) => AnnouncementSpec(ProvidersOf(s, key), peer, meta, now);
    case DoGc(now) =>
      forall key | key in s.providers ensures ListOk(LiveOnly(s.providers[key], now)) {
        LiveOnlyOk(s.providers[key], now);
      }
    case _ =>
  }

  /** Over every run each key lists at most 64 providers, each peer once, each for 24 hours. */
  lemma {:induction false} ProvidersStayOk(s: StoreState, steps: seq<Step>, crypto: Crypto, pb: Protobuf)
    requires ProvidersOk(s)
    ensures ProvidersOk(Run(s, steps, crypto, pb))
    decreases |steps|
  {
    if steps != [] {
      NextKeepsProviders(s, steps[0], crypto, pb);
      ProvidersStayOk(Next(s, steps[0], crypto, pb), steps[1..], crypto, pb);
    }
  }

  /** A peer that announces itself at `t`, and is listed or finds room, is returned up to 24 hours later and
      no longer, unless it announces itself again; a limit of 64 cuts nobody off. */
  lemma AnnouncedIsReturned(s: StoreState, key: Id, peer: Id, meta: seq<Byte>, t: nat, now: nat)
    requires ProvidersOk(s) && t <= now && (Lists(ProvidersOf(s, key), peer) || |ProvidersOf(s, key)| < 64)
    ensures var s' := Announce(s, key, peer, meta, t); var got := Providers(s', key, 64, now);
            && (now <= t + 24 * 3600 ==> ProviderEntry(peer, meta, t, 24 * 3600) in got)
            && (now > t + 24 * 3600 ==> !Lists(got, peer))
  {
    var list := ProvidersOf(s, key);
    AnnouncementSpec(list, peer, meta, t);
    var list' := Announced(list, peer, meta, t);
    LiveOnlyIsFilter(list', now);
    var got := Providers(Announce(s, key, peer, meta, t), key, 64, now);
    assert got == LiveOnly(list', now) by {
      assert |LiveOnly(list', now)| <= 64;
      assert |LiveOnly(list', now)| == 64 ==> LiveOnly(list', now)[..64] == LiveOnly(list', now);
    }
    forall i | 0 <= i < |got| && got[i].peer == peer ensures got[i] == ProviderEntry(peer, meta, t, 24 * 3600) {
      assert got[i] in list';
      OneEntryEach(list', got[i], ProviderEntry(peer, meta, t, 24 * 3600));
    }
  }

  lemma OneEntryEach(list: seq<ProviderEntry>, a: ProviderEntry, b: ProviderEntry)
    requires ListOk(list) && a in list && b in list && a.peer == b.peer
    ensures a == b
  {
  }

  /** A query returns live providers only, in list order, and as many of them as the limit allows. */
  lemma ProvidersAreLive(s: StoreState, key: Id, limit: nat, now: nat)
    ensures var got := Providers(s, key, limit, now);
            && (forall e :: e in got ==> e in ProvidersOf(s, key) && e.Live(now))
            && |got| == (if limit <= |LiveOnly(ProvidersOf(s, key), now)| then limit else |LiveOnly(ProvidersOf(s, key), now)|)
            && got <= LiveOnly(ProvidersOf(s, key), now)
  {
    LiveOnlyIsFilter(ProvidersOf(s, key), now);
  }
}
