/** The k-bucket routing table (`src/routing.rs`). Every operation touches one bucket and its
    replacement cache; the nearest-peers query reads them all. */
module Routing {
  import opened Xor
  import opened Peers

  const K: nat := 20
  const K_MAX: nat := 32
  const SPARES_MAX: nat := 8
  const PREFIX_MAX: nat := 8
  const BUCKETS: nat := 256
  const MAX_FAILS: nat := 3
  const INITIAL_SRTT_US: nat := 200_000

  datatype Entry = Entry(info: PeerInfo, lastSeen: nat, failCount: nat, srttUs: nat)

  /** A bucket, least recently seen first, and the replacement cache beside it. */
  datatype Bucket = Bucket(entries: seq<Entry>, spares: seq<Entry>)

  type Buckets = s: seq<Bucket> | |s| == 256 witness seq(256, _ => Bucket([], []))

  datatype Table = Table(self: Id, buckets: Buckets)

  // ---------------------------------------------------------------- one bucket

  /** The IPv4 /24 a peer's primary address lies in. */
  function Prefix24(info: PeerInfo): Option<(Byte, Byte, Byte)>
  {
    if info.addrs != [] && info.addrs[0].ip.V4? then Some((info.addrs[0].ip.a, info.addrs[0].ip.b, info.addrs[0].ip.c))
    else None
  }

  function CountPrefix(es: seq<Entry>, p: (Byte, Byte, Byte)): nat
  {
    if es == [] then 0 else (if Prefix24(es[0].info) == Some(p) then 1 else 0) + CountPrefix(es[1..], p)
  }

  predicate PrefixOk(es: seq<Entry>, info: PeerInfo)
  {
    var p := Prefix24(info);
    p.Some? ==> CountPrefix(es, p.value) < PREFIX_MAX
  }

  /** Position of the first entry for `id`, or the length if there is none. */
  function Position(es: seq<Entry>, id: Id): (i: nat)
    ensures i <= |es|
    ensures i < |es| ==> es[i].info.id == id
    ensures forall j :: 0 <= j < i ==> es[j].info.id != id
  {
    if es == [] || es[0].info.id == id then 0 else 1 + Position(es[1..], id)
  }

  function NewEntry(info: PeerInfo, now: nat): Entry
  {
    Entry(info, now, 0, INITIAL_SRTT_US)
  }

  function InsertIn(b: Bucket, info: PeerInfo, now: nat): Bucket
  {
    var i := Position(b.entries, info.id);
    if !PrefixOk(b.entries, info) then b
    else if i < |b.entries| then
      b.(entries := b.entries[..i] + b.entries[i + 1..] + [b.entries[i].(info := info, lastSeen := now, failCount := 0)])
    else if |b.entries| < K then b.(entries := b.entries + [NewEntry(info, now)])
    else if |b.spares| < SPARES_MAX then b.(spares := b.spares + [NewEntry(info, now)])
    else b
  }

  /** The least recently seen entry, handed back when a newcomer finds the bucket full. */
  function LruIfFull(b: Bucket, info: PeerInfo): Option<Entry>
  {
    if PrefixOk(b.entries, info) && Position(b.entries, info.id) == |b.entries| && |b.entries| >= K then Some(b.entries[0]) else None
  }

  function WithoutId(es: seq<Entry>, id: Id): seq<Entry>
  {
    if es == [] then []
    else (if es[0].info.id == id then [] else [es[0]]) + WithoutId(es[1..], id)
  }

  /** Drop `dead` and promote the newest spare, unchecked. */
  function EvictIn(b: Bucket, dead: Id): Bucket
  {
    var es := WithoutId(b.entries, dead);
    if b.spares == [] then b.(entries := es)
    else
      var n := |b.spares| - 1;
      Bucket(if |es| < K_MAX then es + [b.spares[n]] else es, b.spares[..n])
  }

  /** Smoothed round-trip time, in 32-bit arithmetic. */
  function Ewma(srtt: nat, sample: nat): nat
  {
    (srtt * 7 % WORD + sample) % WORD / 8
  }

  function TouchIn(b: Bucket, id: Id, rttUs: nat, now: nat): Bucket
  {
    var i := Position(b.entries, id);
    if i == |b.entries| then b
    else
      var e := b.entries[i];
      var srtt := Ewma(e.srttUs, rttUs);
      b.(entries := b.entries[i := Entry(e.info.(rttMs := srtt / 1000), now, 0, srtt)])
  }

  /** One more failure counted against the entry at `i`; the 32-bit count saturates. */
  function Strike(b: Bucket, i: nat): Bucket
    requires i < |b.entries|
  {
    var e := b.entries[i];
    b.(entries := b.entries[i := e.(failCount := if e.failCount + 1 < WORD then e.failCount + 1 else e.failCount)])
  }

  function FailIn(b: Bucket, id: Id): Bucket
  {
    var i := Position(b.entries, id);
    if i == |b.entries| then b
    else if Strike(b, i).entries[i].failCount >= MAX_FAILS then EvictIn(Strike(b, i), id)
    else Strike(b, i)
  }

  // ---------------------------------------------------------------- the table

  function BucketOf(t: Table, id: Id): Bucket
  {
    t.buckets[BucketIndex(t.self, id)]
  }

  function WithBucket(t: Table, id: Id, b: Bucket): Table
  {
    t.(buckets := t.buckets[BucketIndex(t.self, id) := b])
  }

  lemma TwiceReplaced(t: Table, id: Id, b: Bucket, c: Bucket)
    ensures WithBucket(WithBucket(t, id, b), id, c) == WithBucket(t, id, c)
    ensures BucketOf(WithBucket(t, id, b), id) == b
  {
  }

  function AddPeer(t: Table, info: PeerInfo, now: nat): Table
  {
    if info.id == t.self then t else WithBucket(t, info.id, InsertIn(BucketOf(t, info.id), info, now))
  }

  function TouchOk(t: Table, id: Id, rttUs: nat, now: nat): Table
  {
    WithBucket(t, id, TouchIn(BucketOf(t, id), id, rttUs, now))
  }

  function MarkFail(t: Table, id: Id): Table
  {
    WithBucket(t, id, FailIn(BucketOf(t, id), id))
  }

  function Infos(es: seq<Entry>): (s: seq<PeerInfo>)
    ensures |s| == |es| && forall i :: 0 <= i < |es| ==> s[i] == es[i].info
  {
    seq(|es|, i requires 0 <= i < |es| => es[i].info)
  }

  /** The peers of the first `n` buckets, in bucket order. */
  function Flatten(bs: seq<Bucket>, n: nat): seq<PeerInfo>
    requires n <= |bs|
  {
    if n == 0 then [] else Flatten(bs, n - 1) + Infos(bs[n - 1].entries)
  }

  function AllPeers(t: Table): seq<PeerInfo>
  {
    Flatten(t.buckets, BUCKETS)
  }

  function Closest(t: Table, target: Id, n: nat): seq<PeerInfo>
  {
    var sorted := Sort(AllPeers(t), target);
    var m := if n <= K_MAX then n else K_MAX;
    if m <= |sorted| then sorted[..m] else sorted
  }

  // ---------------------------------------------------------------- the object

  class RoutingTable {
    const self: Id
    var buckets: Buckets

    function State(): Table
      reads this
    {
      Table(self, buckets)
    }

    constructor (self: Id)
      ensures State() == Table(self, seq(256, _ => Bucket([], [])))
    {
      this.self := self;
      buckets := seq(256, _ => Bucket([], []));
    }

    method InsertPeer(info: PeerInfo, now: nat) returns (lru: Option<Entry>)
      modifies this
      ensures State() == AddPeer(old(State()), info, now)
      ensures lru == if info.id == self then None else LruIfFull(old(buckets)[BucketIndex(self, info.id)], info)
    {
      if info.id == self {
        return None;
      }
      var i := BucketIndex(self, info.id);
      var b := buckets[i];
      if !PrefixOk(b.entries, info) {
        assert buckets[i := b] == buckets;
        return None;
      }
      var pos := Position(b.entries, info.id);
      if pos < |b.entries| {
        var e := b.entries[pos].(info := info, lastSeen := now, failCount := 0);
        buckets := buckets[i := b.(entries := b.entries[..pos] + b.entries[pos + 1..] + [e])];
        return None;
      }
      if |b.entries| < K {
        buckets := buckets[i := b.(entries := b.entries + [NewEntry(info, now)])];
        return None;
      }
      lru := Some(b.entries[0]);
      if |b.spares| < SPARES_MAX {
        buckets := buckets[i := b.(spares := b.spares + [NewEntry(info, now)])];
      } else {
        assert buckets[i := b] == buckets;
      }
    }

    method EvictAndReplace(dead: Id)
      modifies this
      ensures State() == WithBucket(old(State()), dead, EvictIn(BucketOf(old(State()), dead), dead))
    {
      var i := BucketIndex(self, dead);
      var b := buckets[i];
      var es := WithoutId(b.entries, dead);
      if b.spares != [] {
        var e := b.spares[|b.spares| - 1];
        buckets := buckets[i := Bucket(if |es| < K_MAX then es + [e] else es, b.spares[..|b.spares| - 1])];
      } else {
        buckets := buckets[i := b.(entries := es)];
      }
    }

    method Touch(id: Id, rttUs: nat, now: nat)
      modifies this
      ensures State() == TouchOk(old(State()), id, rttUs, now)
    {
      var i := BucketIndex(self, id);
      var b := buckets[i];
      var pos := Position(b.entries, id);
      if pos < |b.entries| {
        var e := b.entries[pos];
        var srtt := Ewma(e.srttUs, rttUs);
        buckets := buckets[i := b.(entries := b.entries[pos := Entry(e.info.(rttMs := srtt / 1000), now, 0, srtt)])];
      } else {
        assert buckets[i := b] == buckets;
      }
    }

    method Fail(id: Id)
      modifies this
      ensures State() == MarkFail(old(State()), id)
    {
      var i := BucketIndex(self, id);
      var b := buckets[i];
      var pos := Position(b.entries, id);
      if pos < |b.entries| {
        var e := b.entries[pos];
        var fails := if e.failCount + 1 < WORD then e.failCount + 1 else e.failCount;
        var struck := b.(entries := b.entries[pos := e.(failCount := fails)]);
        assert struck == Strike(b, pos);
        buckets := buckets[i := struck];
        assert State() == WithBucket(old(State()), id, struck);
        if fails >= MAX_FAILS {
          EvictAndReplace(id);
          assert State() == WithBucket(old(State()), id, EvictIn(struck, id)) by {
            TwiceReplaced(old(State()), id, struck, EvictIn(struck, id));
          }
        }
      } else {
        assert buckets[i := b] == buckets;
      }
    }

    method ClosestPeers(target: Id, n: nat) returns (out: seq<PeerInfo>)
      ensures out == Closest(State(), target, n)
    {
      var all: seq<PeerInfo>, i := [], 0;
      while i < BUCKETS
        invariant 0 <= i <= BUCKETS
        invariant all == Flatten(buckets, i)
      {
        all := all + Infos(buckets[i].entries);
        i := i + 1;
      }
      all := Sort(all, target);
      var m := if n <= K_MAX then n else K_MAX;
      out := [];
      var j := 0;
      while j < |all| && j < m
        invariant 0 <= j <= |all| && j <= m
        invariant out == all[..j]
      {
        out := out + [all[j]];
        j := j + 1;
      }
    }
  }

  // ---------------------------------------------------------------- what every run keeps

  /** Filed under its own distance, not the node itself, below the eviction limit. */
  ghost predicate EntryOk(e: Entry, self: Id, i: nat)
  {
    e.info.id != self && BucketIndex(self, e.info.id) == i && e.failCount < MAX_FAILS
  }

  ghost predicate AllOk(es: seq<Entry>, self: Id, i: nat)
  {
    forall j :: 0 <= j < |es| ==> EntryOk(es[j], self, i)
  }

  ghost predicate BucketInv(b: Bucket, self: Id, i: nat)
  {
    && AllOk(b.entries, self, i) && AllOk(b.spares, self, i)
    && |b.entries| <= K && |b.spares| <= SPARES_MAX
  }

  ghost predicate TableInv(t: Table)
  {
    forall i :: 0 <= i < BUCKETS ==> BucketInv(t.buckets[i], t.self, i)
  }

  lemma {:induction false} WithoutIdIsFilter(es: seq<Entry>, id: Id)
    ensures |WithoutId(es, id)| <= |es|
    ensures forall e :: e in WithoutId(es, id) <==> e in es && e.info.id != id
    ensures (exists e :: e in es && e.info.id == id) ==> |WithoutId(es, id)| < |es|
  {
    if es != [] {
      WithoutIdIsFilter(es[1..], id);
      assert es == [es[0]] + es[1..];
    }
  }

  lemma {:induction false} WithoutPresentShrinks(es: seq<Entry>, id: Id, p: nat)
    requires p < |es| && es[p].info.id == id
    ensures |WithoutId(es, id)| < |es|
  {
    if p > 0 {
      WithoutPresentShrinks(es[1..], id, p - 1);
    } else {
      WithoutNotLonger(es[1..], id);
    }
  }

  lemma {:induction false} WithoutNotLonger(es: seq<Entry>, id: Id)
    ensures |WithoutId(es, id)| <= |es|
  {
    if es != [] {
      WithoutNotLonger(es[1..], id);
    }
  }

  lemma InsertKeepsBucket(b: Bucket, info: PeerInfo, now: nat, self: Id, i: nat)
    requires BucketInv(b, self, i) && info.id != self && BucketIndex(self, info.id) == i
    ensures BucketInv(InsertIn(b, info, now), self, i)
  {
  }

  lemma {:induction false} WithoutKeepsOk(es: seq<Entry>, id: Id, self: Id, i: nat)
    requires forall j :: 0 <= j < |es| && es[j].info.id != id ==> EntryOk(es[j], self, i)
    ensures AllOk(WithoutId(es, id), self, i)
  {
    if es != [] {
      WithoutKeepsOk(es[1..], id, self, i);
    }
  }

  /** Evicting an id that is present makes room for the spare it promotes. */
  lemma EvictKeepsBucket(b: Bucket, id: Id, p: nat, self: Id, i: nat)
    requires p < |b.entries| <= K && b.entries[p].info.id == id
    requires |b.spares| <= SPARES_MAX && AllOk(b.spares, self, i)
    requires forall j :: 0 <= j < |b.entries| && b.entries[j].info.id != id ==> EntryOk(b.entries[j], self, i)
    ensures BucketInv(EvictIn(b, id), self, i)
  {
    WithoutPresentShrinks(b.entries, id, p);
    WithoutKeepsOk(b.entries, id, self, i);
  }

  lemma StruckOthersOk(b: Bucket, p: nat, self: Id, i: nat)
    requires BucketInv(b, self, i) && p < |b.entries|
    ensures var b' := Strike(b, p);
            && |b'.entries| == |b.entries| && b'.spares == b.spares && b'.entries[p].info == b.entries[p].info
            && (forall j :: 0 <= j < |b'.entries| && j != p ==> EntryOk(b'.entries[j], self, i))
            && (b'.entries[p].failCount < MAX_FAILS ==> EntryOk(b'.entries[p], self, i))
  {
    assert EntryOk(b.entries[p], self, i);
  }

  lemma FailKeepsBucket(b: Bucket, id: Id, self: Id, i: nat)
    requires BucketInv(b, self, i)
    ensures BucketInv(FailIn(b, id), self, i)
  {
    var p := Position(b.entries, id);
    if p < |b.entries| {
      StruckOthersOk(b, p, self, i);
      if Strike(b, p).entries[p].failCount >= MAX_FAILS {
        EvictKeepsBucket(Strike(b, p), id, p, self, i);
      }
    }
  }

  datatype Step =
    | DoInsert(info: PeerInfo, now: nat)
    | DoTouch(id: Id, rttUs: nat, now: nat)
    | DoFail(id: Id)

  function Next(t: Table, step: Step): Table
  {
    match step
    case DoInsert(info, now) => AddPeer(t, info, now)
    case DoTouch(id, rttUs, now) => TouchOk(t, id, rttUs, now)
    case DoFail(id) => MarkFail(t, id)
  }

  function Run(t: Table, steps: seq<Step>): Table
    decreases |steps|
  {
    if steps == [] then t else Run(Next(t, steps[0]), steps[1..])
  }

  function NewTable(self: Id): Table
  {
    Table(self, seq(256, _ => Bucket([], [])))
  }

  lemma NextKeepsInv(t: Table, step: Step)
    requires TableInv(t)
    ensures TableInv(Next(t, step)) && Next(t, step).self == t.self
  {
    match step
    case DoInsert(info, now) =>
      if info.id != t.self {
        var i := BucketIndex(t.self, info.id);
        InsertKeepsBucket(t.buckets[i], info, now, t.self, i);
      }
    case DoTouch(id, rttUs, now) =>
    case DoFail(id) =>
      var i := BucketIndex(t.self, id);
      FailKeepsBucket(t.buckets[i], id, t.self, i);
  }

  lemma {:induction false} RunKeepsInv(t: Table, steps: seq<Step>)
    requires TableInv(t)
    ensures TableInv(Run(t, steps)) && Run(t, steps).self == t.self
    decreases |steps|
  {
    if steps != [] {
      NextKeepsInv(t, steps[0]);
      RunKeepsInv(Next(t, steps[0]), steps[1..]);
    }
  }

  /** Over every run: entries and spares sit in the bucket of their own distance, the node itself is
      never stored, buckets hold at most 20 and caches at most 8, and failure counts stay below 3. */
  lemma TableStaysSound(self: Id, steps: seq<Step>)
    ensures TableInv(Run(NewTable(self), steps)) && Run(NewTable(self), steps).self == self
  {
    RunKeepsInv(NewTable(self), steps);
  }

  // ---------------------------------------------------------------- round-trip times

  lemma EwmaBetween(srtt: nat, sample: nat, lo: nat, hi: nat)
    requires lo <= srtt <= hi && lo <= sample <= hi < 0x2000_0000
    ensures lo <= Ewma(srtt, sample) <= hi
    ensures Ewma(srtt, sample) == (srtt * 7 + sample) / 8
  {
    EwmaExactIff(srtt, sample);
    EighthBetween(srtt * 7 + sample, lo, hi);
  }

  lemma EighthBetween(x: nat, lo: nat, hi: nat)
    requires 8 * lo <= x <= 8 * hi
    ensures lo <= x / 8 <= hi
  {
  }

  /** Reducing modulo 2^32 before dividing by 8 changes the quotient exactly if it changes the number. */
  lemma WrappedEighth(x: nat)
    ensures x % WORD / 8 == x / 8 <==> x < WORD
  {
    var k, y := x / WORD, x % WORD;
    assert x == k * WORD + y;
    assert x / 8 == k * 0x2000_0000 + y / 8 by {
      assert x == 8 * (k * 0x2000_0000) + y;
    }
  }

  lemma WrapOnce(a: nat, b: nat)
    ensures (a % WORD + b) % WORD == (a + b) % WORD
  {
    var k := a / WORD;
    assert a + b == k * WORD + (a % WORD + b);
    ModShift(a % WORD + b, k);
  }

  lemma ModShift(x: nat, k: nat)
    ensures (k * WORD + x) % WORD == x % WORD
  {
  }

  /** The 32-bit average is the true one exactly if seven times the old value plus the sample fits. */
  lemma EwmaExactIff(srtt: nat, sample: nat)
    ensures Ewma(srtt, sample) == (srtt * 7 + sample) / 8 <==> srtt * 7 + sample < WORD
  {
    WrapOnce(srtt * 7, sample);
    WrappedEighth(srtt * 7 + sample);
  }

  /** A wrapping input: from the initial 200 ms, the largest sample there is lowers the average. */
  lemma HugeSampleLowersAverage()
    ensures Ewma(INITIAL_SRTT_US, WORD - 1) == 174_999 < INITIAL_SRTT_US
  {
  }

  ghost predicate TimesIn(es: seq<Entry>, lo: nat, hi: nat)
  {
    forall e :: e in es ==> lo <= e.srttUs <= hi
  }

  ghost predicate Timed(t: Table, lo: nat, hi: nat)
  {
    forall i :: 0 <= i < BUCKETS ==> TimesIn(t.buckets[i].entries, lo, hi) && TimesIn(t.buckets[i].spares, lo, hi)
  }

  /** Round-trip samples lie in [lo, hi]. */
  ghost predicate Sampled(steps: seq<Step>, lo: nat, hi: nat)
  {
    forall i :: 0 <= i < |steps| && steps[i].DoTouch? ==> lo <= steps[i].rttUs <= hi
  }

  lemma FailKeepsTimes(b: Bucket, id: Id, lo: nat, hi: nat)
    requires TimesIn(b.entries, lo, hi) && TimesIn(b.spares, lo, hi)
    ensures TimesIn(FailIn(b, id).entries, lo, hi) && TimesIn(FailIn(b, id).spares, lo, hi)
  {
    var p := Position(b.entries, id);
    if p < |b.entries| {
      assert b.entries[p] in b.entries;
      assert TimesIn(Strike(b, p).entries, lo, hi);
      WithoutIdIsFilter(Strike(b, p).entries, id);
    }
  }

  lemma NextKeepsTimes(t: Table, step: Step, lo: nat, hi: nat)
    requires Timed(t, lo, hi) && lo <= INITIAL_SRTT_US <= hi < 0x2000_0000
    requires step.DoTouch? ==> lo <= step.rttUs <= hi
    ensures Timed(Next(t, step), lo, hi)
  {
    match step
    case DoInsert(info, now) =>
      var b := BucketOf(t, info.id);
      var p := Position(b.entries, info.id);
      assert p < |b.entries| ==> b.entries[p] in b.entries;
    case DoTouch(id, rttUs, now) =>
      var b := BucketOf(t, id);
      var p := Position(b.entries, id);
      if p < |b.entries| {
        assert b.entries[p] in b.entries;
        EwmaBetween(b.entries[p].srttUs, rttUs, lo, hi);
      }
    case DoFail(id) => FailKeepsTimes(BucketOf(t, id), id, lo, hi);
  }

  lemma {:induction false} RunKeepsTimes(t: Table, steps: seq<Step>, lo: nat, hi: nat)
    requires Timed(t, lo, hi) && lo <= INITIAL_SRTT_US <= hi < 0x2000_0000 && Sampled(steps, lo, hi)
    ensures Timed(Run(t, steps), lo, hi)
    decreases |steps|
  {
    if steps != [] {
      NextKeepsTimes(t, steps[0], lo, hi);
      assert forall i :: 0 <= i < |steps[1..]| ==> steps[1..][i] == steps[i + 1];
      RunKeepsTimes(Next(t, steps[0]), steps[1..], lo, hi);
    }
  }

  /** Smoothed round-trip times stay between the smallest and largest of 200 ms and the samples, without
      overflow, over every run whose samples are below 2^29. */
  lemma TimesStayInRange(self: Id, steps: seq<Step>, lo: nat, hi: nat)
    requires lo <= INITIAL_SRTT_US <= hi < 0x2000_0000 && Sampled(steps, lo, hi)
    ensures Timed(Run(NewTable(self), steps), lo, hi)
  {
    RunKeepsTimes(NewTable(self), steps, lo, hi);
  }

  // ---------------------------------------------------------------- promotions

  ghost predicate DistinctEntries(es: seq<Entry>)
  {
    DistinctIds(Infos(es))
  }

  ghost predicate Diverse(es: seq<Entry>)
  {
    forall p: (Byte, Byte, Byte) :: CountPrefix(es, p) <= PREFIX_MAX
  }

  /** The step evicts an entry while a spare is waiting. */
  predicate Promotes(t: Table, step: Step)
  {
    step.DoFail? &&
    (var b := BucketOf(t, step.id);
     var i := Position(b.entries, step.id);
     i < |b.entries| && b.entries[i].failCount + 1 >= MAX_FAILS && b.spares != [])
  }

  ghost predicate NoPromotion(t: Table, steps: seq<Step>)
    decreases |steps|
  {
    steps == [] || (!Promotes(t, steps[0]) && NoPromotion(Next(t, steps[0]), steps[1..]))
  }

  lemma {:induction false} CountAppend(es: seq<Entry>, fs: seq<Entry>, p: (Byte, Byte, Byte))
    ensures CountPrefix(es + fs, p) == CountPrefix(es, p) + CountPrefix(fs, p)
  {
    if es == [] {
      assert es + fs == fs;
    } else {
      assert (es + fs)[1..] == es[1..] + fs;
      CountAppend(es[1..], fs, p);
    }
  }

  lemma CountOne(e: Entry, p: (Byte, Byte, Byte))
    ensures CountPrefix([e], p) == if Prefix24(e.info) == Some(p) then 1 else 0
  {
    assert [e][1..] == [];
  }

  /** Counting around position `i`. */
  lemma CountSplit(es: seq<Entry>, i: nat, p: (Byte, Byte, Byte))
    requires i < |es|
    ensures CountPrefix(es, p) == CountPrefix(es[..i], p) + CountPrefix([es[i]], p) + CountPrefix(es[i + 1..], p)
  {
    assert es == es[..i] + ([es[i]] + es[i + 1..]);
    CountAppend(es[..i], [es[i]] + es[i + 1..], p);
    CountAppend([es[i]], es[i + 1..], p);
  }

  lemma InsertCounts(b: Bucket, info: PeerInfo, now: nat, p: (Byte, Byte, Byte))
    requires PrefixOk(b.entries, info) && CountPrefix(b.entries, p) <= PREFIX_MAX
    ensures CountPrefix(InsertIn(b, info, now).entries, p) <= PREFIX_MAX
  {
    var i := Position(b.entries, info.id);
    if i < |b.entries| {
      var e := b.entries[i].(info := info, lastSeen := now, failCount := 0);
      CountSplit(b.entries, i, p);
      CountAppend(b.entries[..i], b.entries[i + 1..], p);
      CountAppend(b.entries[..i] + b.entries[i + 1..], [e], p);
      CountOne(e, p);
    } else if |b.entries| < K {
      CountAppend(b.entries, [NewEntry(info, now)], p);
      CountOne(NewEntry(info, now), p);
    }
  }

  lemma InsertKeepsDiverse(b: Bucket, info: PeerInfo, now: nat)
    requires Diverse(b.entries)
    ensures Diverse(InsertIn(b, info, now).entries)
  {
    if PrefixOk(b.entries, info) {
      forall p: (Byte, Byte, Byte) ensures CountPrefix(InsertIn(b, info, now).entries, p) <= PREFIX_MAX {
        InsertCounts(b, info, now, p);
      }
    }
  }

  /** Replacing an entry by one with the same address keeps all counts. */
  lemma UpdateCounts(es: seq<Entry>, i: nat, e: Entry, p: (Byte, Byte, Byte))
    requires i < |es| && Prefix24(e.info) == Prefix24(es[i].info)
    ensures CountPrefix(es[i := e], p) == CountPrefix(es, p)
  {
    CountSplit(es, i, p);
    CountSplit(es[i := e], i, p);
    assert es[i := e][..i] == es[..i] && es[i := e][i + 1..] == es[i + 1..];
    CountOne(e, p);
    CountOne(es[i], p);
  }

  lemma {:induction false} WithoutCounts(es: seq<Entry>, id: Id, p: (Byte, Byte, Byte))
    ensures CountPrefix(WithoutId(es, id), p) <= CountPrefix(es, p)
  {
    if es != [] {
      WithoutCounts(es[1..], id, p);
      var rest := WithoutId(es[1..], id);
      assert ([es[0]] + rest)[1..] == rest;
      assert [] + rest == rest;
    }
  }

  /** Taking one peer out of distinct ones leaves distinct ones, without its id. */
  lemma TakenOut(s: seq<PeerInfo>, i: nat)
    requires DistinctIds(s) && i < |s|
    ensures DistinctIds(s[..i] + s[i + 1..]) && s[i].id !in IdSet(s[..i] + s[i + 1..])
  {
    var t := s[..i] + s[i + 1..];
    forall j | 0 <= j < |t| ensures t[j] == s[if j < i then j else j + 1] {
    }
    forall q | q in t ensures q.id != s[i].id {
      var j :| 0 <= j < |t| && t[j] == q;
    }
  }

  lemma InsertKeepsDistinct(b: Bucket, info: PeerInfo, now: nat)
    requires DistinctEntries(b.entries)
    ensures DistinctEntries(InsertIn(b, info, now).entries)
  {
    var es := Infos(b.entries);
    var i := Position(b.entries, info.id);
    if PrefixOk(b.entries, info) && i < |b.entries| {
      TakenOut(es, i);
      DistinctSnoc(es[..i] + es[i + 1..], info);
      assert Infos(InsertIn(b, info, now).entries) == es[..i] + es[i + 1..] + [info];
    } else if PrefixOk(b.entries, info) && |b.entries| < K {
      DistinctSnoc(es, info);
      assert info.id !in IdSet(es);
      assert Infos(InsertIn(b, info, now).entries) == es + [info];
    }
  }

  lemma {:induction false} WithoutKeepsDistinct(es: seq<Entry>, id: Id)
    requires DistinctEntries(es)
    ensures DistinctEntries(WithoutId(es, id))
  {
    if es != [] {
      var rest := WithoutId(es[1..], id);
      assert Infos(es)[1..] == Infos(es[1..]);
      WithoutKeepsDistinct(es[1..], id);
      WithoutIdIsFilter(es[1..], id);
      if es[0].info.id != id {
        forall j | 0 <= j < |rest| ensures rest[j].info.id != es[0].info.id {
          assert rest[j] in es[1..];
          var k :| 0 <= k < |es[1..]| && es[1..][k] == rest[j];
          assert Infos(es)[0].id != Infos(es)[k + 1].id;
        }
        assert WithoutId(es, id) == [es[0]] + rest;
      }
    }
  }

  ghost predicate CleanBucket(b: Bucket)
  {
    DistinctEntries(b.entries) && Diverse(b.entries)
  }

  ghost predicate Clean(t: Table)
  {
    forall i :: 0 <= i < BUCKETS ==> CleanBucket(t.buckets[i])
  }

  lemma UpdateKeepsClean(b: Bucket, i: nat, e: Entry)
    requires CleanBucket(b) && i < |b.entries| && e.info.id == b.entries[i].info.id && e.info.addrs == b.entries[i].info.addrs
    ensures CleanBucket(b.(entries := b.entries[i := e]))
  {
    var es := b.entries[i := e];
    forall p: (Byte, Byte, Byte) ensures CountPrefix(es, p) <= PREFIX_MAX {
      UpdateCounts(b.entries, i, e, p);
    }
    forall j, k | 0 <= j < k < |es| ensures Infos(es)[j].id != Infos(es)[k].id {
      assert Infos(b.entries)[j].id != Infos(b.entries)[k].id;
    }
  }

  lemma DropKeepsClean(es: seq<Entry>, id: Id, spares: seq<Entry>)
    requires DistinctEntries(es) && Diverse(es)
    ensures CleanBucket(Bucket(WithoutId(es, id), spares))
  {
    WithoutKeepsDistinct(es, id);
    forall p: (Byte, Byte, Byte) ensures CountPrefix(WithoutId(es, id), p) <= PREFIX_MAX {
      WithoutCounts(es, id, p);
    }
  }

  /** A promotion keeps the ids distinct exactly if the promoted peer is not already there. */
  lemma PromotionKeepsDistinctIff(b: Bucket, dead: Id)
    requires DistinctEntries(b.entries) && |b.entries| <= K && b.spares != []
    ensures DistinctEntries(EvictIn(b, dead).entries) <==>
            b.spares[|b.spares| - 1].info.id !in IdSet(Infos(WithoutId(b.entries, dead)))
  {
    var es, e := WithoutId(b.entries, dead), b.spares[|b.spares| - 1];
    WithoutKeepsDistinct(b.entries, dead);
    WithoutIdIsFilter(b.entries, dead);
    assert Infos(es + [e]) == Infos(es) + [e.info];
    DistinctSnoc(Infos(es), e.info);
  }

  /** It keeps the /24 limit exactly if fewer than eight of the promoted peer's /24 are left, or it has none. */
  lemma PromotionKeepsDiverseIff(b: Bucket, dead: Id)
    requires Diverse(b.entries) && |b.entries| <= K && b.spares != []
    ensures Diverse(EvictIn(b, dead).entries) <==>
            PrefixOk(WithoutId(b.entries, dead), b.spares[|b.spares| - 1].info)
  {
    var es, e := WithoutId(b.entries, dead), b.spares[|b.spares| - 1];
    WithoutNotLonger(b.entries, dead);
    forall p: (Byte, Byte, Byte)
      ensures CountPrefix(es + [e], p) == CountPrefix(es, p) + Bit(Prefix24(e.info) == Some(p)) && CountPrefix(es, p) <= PREFIX_MAX
    {
      CountAppend(es, [e], p);
      CountOne(e, p);
      WithoutCounts(b.entries, dead, p);
    }
    if Prefix24(e.info).Some? {
      assert CountPrefix(es + [e], Prefix24(e.info).value) == CountPrefix(es, Prefix24(e.info).value) + 1;
    }
  }

  /** The newest spare can take the place of `dead` without a duplicate and within the /24 limit. */
  ghost predicate HarmlessFor(b: Bucket, dead: Id)
  {
    b.spares != [] ==>
      var e, es := b.spares[|b.spares| - 1], WithoutId(b.entries, dead);
      e.info.id !in IdSet(Infos(es)) && PrefixOk(es, e.info)
  }

  lemma EvictCleanIff(b: Bucket, dead: Id)
    requires CleanBucket(b) && |b.entries| <= K
    ensures CleanBucket(EvictIn(b, dead)) <==> HarmlessFor(b, dead)
  {
    if b.spares == [] {
      DropKeepsClean(b.entries, dead, []);
    } else {
      PromotionKeepsDistinctIff(b, dead);
      PromotionKeepsDiverseIff(b, dead);
    }
  }

  lemma {:induction false} WithoutIgnoresUpdate(es: seq<Entry>, i: nat, e: Entry, id: Id)
    requires i < |es| && es[i].info.id == id && e.info.id == id
    ensures WithoutId(es[i := e], id) == WithoutId(es, id)
  {
    if i > 0 {
      assert es[i := e][1..] == es[1..][i - 1 := e];
      WithoutIgnoresUpdate(es[1..], i - 1, e, id);
    } else {
      assert es[i := e][1..] == es[1..];
    }
  }

  lemma FailCleanIff(b: Bucket, id: Id)
    requires CleanBucket(b) && |b.entries| <= K
    ensures var i := Position(b.entries, id);
            CleanBucket(FailIn(b, id)) <==>
            (i < |b.entries| && b.entries[i].failCount + 1 >= MAX_FAILS ==> HarmlessFor(b, id))
  {
    var i := Position(b.entries, id);
    if i < |b.entries| {
      var b' := Strike(b, i);
      UpdateKeepsClean(b, i, b'.entries[i]);
      WithoutIgnoresUpdate(b.entries, i, b'.entries[i], id);
      EvictCleanIff(b', id);
    }
  }

  /** The step promotes nobody, or does no harm by it. */
  ghost predicate Harmless(t: Table, step: Step)
  {
    Promotes(t, step) ==> HarmlessFor(BucketOf(t, step.id), step.id)
  }

  lemma BucketDecidesClean(t: Table, id: Id, b: Bucket)
    requires Clean(t)
    ensures Clean(WithBucket(t, id, b)) <==> CleanBucket(b)
  {
    var t', i := WithBucket(t, id, b), BucketIndex(t.self, id);
    assert t'.buckets[i] == b;
    forall j | 0 <= j < BUCKETS && j != i ensures CleanBucket(t'.buckets[j]) {
      assert t'.buckets[j] == t.buckets[j];
    }
  }

  /** A step keeps a table clean exactly if it is harmless. */
  lemma NextCleanIff(t: Table, step: Step)
    requires Clean(t) && TableInv(t)
    ensures Clean(Next(t, step)) <==> Harmless(t, step)
  {
    match step
    case DoInsert(info, now) =>
      InsertKeepsDistinct(BucketOf(t, info.id), info, now);
      InsertKeepsDiverse(BucketOf(t, info.id), info, now);
    case DoTouch(id, rttUs, now) =>
      var b := BucketOf(t, id);
      var i := Position(b.entries, id);
      if i < |b.entries| {
        var srtt := Ewma(b.entries[i].srttUs, rttUs);
        UpdateKeepsClean(b, i, Entry(b.entries[i].info.(rttMs := srtt / 1000), now, 0, srtt));
      }
    case DoFail(id) =>
      FailCleanIff(BucketOf(t, id), id);
      BucketDecidesClean(t, id, FailIn(BucketOf(t, id), id));
  }

  ghost predicate HarmlessRun(t: Table, steps: seq<Step>)
    decreases |steps|
  {
    steps == [] || (Harmless(t, steps[0]) && HarmlessRun(Next(t, steps[0]), steps[1..]))
  }

  ghost predicate CleanThroughout(t: Table, steps: seq<Step>)
    decreases |steps|
  {
    Clean(t) && (steps == [] || CleanThroughout(Next(t, steps[0]), steps[1..]))
  }

  lemma {:induction false} RunCleanIff(t: Table, steps: seq<Step>)
    requires Clean(t) && TableInv(t)
    ensures CleanThroughout(t, steps) <==> HarmlessRun(t, steps)
    ensures HarmlessRun(t, steps) ==> Clean(Run(t, steps))
    decreases |steps|
  {
    if steps != [] {
      NextCleanIff(t, steps[0]);
      NextKeepsInv(t, steps[0]);
      if Harmless(t, steps[0]) {
        RunCleanIff(Next(t, steps[0]), steps[1..]);
      }
    }
  }

  /** Ids stay distinct within each bucket and at most eight entries of a bucket share an IPv4 /24,
      throughout a run, if and only if none of its promotions brings in a peer that is already there or
      whose /24 is full. */
  lemma CleanIffPromotionsHarmless(self: Id, steps: seq<Step>)
    ensures CleanThroughout(NewTable(self), steps) <==> HarmlessRun(NewTable(self), steps)
  {
    RunCleanIff(NewTable(self), steps);
  }

  lemma {:induction false} NoPromotionIsHarmless(t: Table, steps: seq<Step>)
    requires NoPromotion(t, steps)
    ensures HarmlessRun(t, steps)
    decreases |steps|
  {
    if steps != [] {
      NoPromotionIsHarmless(Next(t, steps[0]), steps[1..]);
    }
  }

  /** In particular over every run without a promotion. */
  lemma UnpromotedTableStaysClean(self: Id, steps: seq<Step>)
    requires NoPromotion(NewTable(self), steps)
    ensures Clean(Run(NewTable(self), steps))
  {
    NoPromotionIsHarmless(NewTable(self), steps);
    RunCleanIff(NewTable(self), steps);
  }

  /** A peer that calls twice on a full bucket is cached twice, and after two evictions is in twice. */
  lemma CachedTwicePromotedTwice(b: Bucket, info: PeerInfo, now: nat, d1: Id, d2: Id)
    requires |b.entries| == K && b.spares == [] && PrefixOk(b.entries, info)
    requires Position(b.entries, info.id) == K && info.id != d1 && info.id != d2
    ensures var b' := InsertIn(InsertIn(b, info, now), info, now);
            !DistinctEntries(EvictIn(EvictIn(b', d1), d2).entries)
  {
    var e := NewEntry(info, now);
    assert InsertIn(b, info, now) == Bucket(b.entries, [e]);
    assert InsertIn(Bucket(b.entries, [e]), info, now) == Bucket(b.entries, [e, e]);
    WithoutIdIsFilter(b.entries, d1);
    var b1 := EvictIn(Bucket(b.entries, [e, e]), d1);
    assert b1 == Bucket(WithoutId(b.entries, d1) + [e], [e]);
    TwiceAfterEvict(b1, e, d2);
  }

  lemma TwiceAfterEvict(b: Bucket, e: Entry, dead: Id)
    requires e in b.entries && b.spares == [e] && |b.entries| < K_MAX && e.info.id != dead
    ensures !DistinctEntries(EvictIn(b, dead).entries)
  {
    WithoutIdIsFilter(b.entries, dead);
    var es := WithoutId(b.entries, dead);
    var k :| 0 <= k < |es| && es[k] == e;
    var last := EvictIn(b, dead).entries;
    assert last == es + [e];
    assert Infos(last)[k].id == Infos(last)[|es|].id;
  }

  lemma {:induction false} WithoutOthersCounts(es: seq<Entry>, id: Id, p: (Byte, Byte, Byte))
    requires forall e :: e in es && e.info.id == id ==> Prefix24(e.info) != Some(p)
    ensures CountPrefix(WithoutId(es, id), p) == CountPrefix(es, p)
  {
    if es != [] {
      assert es == [es[0]] + es[1..];
      WithoutOthersCounts(es[1..], id, p);
      var rest := WithoutId(es[1..], id);
      assert ([es[0]] + rest)[1..] == rest && [] + rest == rest;
    }
  }

  /** An eviction of another peer that promotes one more of the /24 `p`. */
  lemma PromotedCounts(b: Bucket, dead: Id, p: (Byte, Byte, Byte))
    requires b.spares != [] && |b.entries| < K_MAX && Prefix24(b.spares[|b.spares| - 1].info) == Some(p)
    requires forall e :: e in b.entries && e.info.id == dead ==> Prefix24(e.info) != Some(p)
    ensures CountPrefix(EvictIn(b, dead).entries, p) == CountPrefix(b.entries, p) + 1
  {
    var es, e := WithoutId(b.entries, dead), b.spares[|b.spares| - 1];
    WithoutOthersCounts(b.entries, dead, p);
    WithoutNotLonger(b.entries, dead);
    CountAppend(es, [e], p);
    CountOne(e, p);
  }

  /** Newcomers to a full bucket are cached while fewer than eight of their /24 are in it. */
  lemma BothCached(b: Bucket, x: PeerInfo, y: PeerInfo, now: nat)
    requires |b.entries| == K && b.spares == [] && PrefixOk(b.entries, x) && PrefixOk(b.entries, y)
    requires Position(b.entries, x.id) == K && Position(b.entries, y.id) == K
    ensures InsertIn(InsertIn(b, x, now), y, now) == Bucket(b.entries, [NewEntry(x, now), NewEntry(y, now)])
  {
    assert InsertIn(b, x, now) == Bucket(b.entries, [NewEntry(x, now)]);
  }

  /** An input that exceeds the /24 limit: a full bucket holds seven of a /24, two more of it are cached,
      and two evictions of other peers promote both. */
  lemma NinthOfPrefixPromoted(b: Bucket, x: PeerInfo, y: PeerInfo, now: nat, d1: Id, d2: Id, p: (Byte, Byte, Byte))
    requires |b.entries| == K && b.spares == [] && CountPrefix(b.entries, p) == 7
    requires Prefix24(x) == Some(p) && Prefix24(y) == Some(p) && y.id != d2
    requires Position(b.entries, x.id) == K && Position(b.entries, y.id) == K
    requires forall e :: e in b.entries && (e.info.id == d1 || e.info.id == d2) ==> Prefix24(e.info) != Some(p)
    ensures var full := InsertIn(InsertIn(b, x, now), y, now);
            CountPrefix(EvictIn(EvictIn(full, d1), d2).entries, p) == 9
  {
    BothCached(b, x, y, now);
    BothPromoted(b.entries, NewEntry(x, now), NewEntry(y, now), d1, d2, p);
  }

  lemma BothPromoted(es: seq<Entry>, ex: Entry, ey: Entry, d1: Id, d2: Id, p: (Byte, Byte, Byte))
    requires |es| == K && Prefix24(ex.info) == Some(p) && Prefix24(ey.info) == Some(p) && ey.info.id != d2
    requires forall e :: e in es && (e.info.id == d1 || e.info.id == d2) ==> Prefix24(e.info) != Some(p)
    ensures CountPrefix(EvictIn(EvictIn(Bucket(es, [ex, ey]), d1), d2).entries, p) == CountPrefix(es, p) + 2
  {
    var full := Bucket(es, [ex, ey]);
    assert CountPrefix(EvictIn(full, d1).entries, p) == CountPrefix(es, p) + 1 by { PromotedCounts(full, d1, p); }
    WithoutIdIsFilter(es, d1);
    assert EvictIn(full, d1) == Bucket(WithoutId(es, d1) + [ey], [ex]);
    PromotedCounts(Bucket(WithoutId(es, d1) + [ey], [ex]), d2, p);
  }

  /** Evicting an id that is not there can overfill a bucket: the limit is kept exactly if the id was
      present, or there was room, or no spare was waiting. */
  lemma EvictKeepsLimitIff(b: Bucket, dead: Id)
    requires |b.entries| <= K
    ensures |EvictIn(b, dead).entries| <= K <==>
            Position(b.entries, dead) < |b.entries| || |b.entries| < K || b.spares == []
  {
    WithoutIdIsFilter(b.entries, dead);
    var p := Position(b.entries, dead);
    if p < |b.entries| {
      assert b.entries[p] in b.entries;
    } else {
      WithoutAbsent(b.entries, dead);
    }
  }

  lemma {:induction false} WithoutAbsent(es: seq<Entry>, id: Id)
    requires forall j :: 0 <= j < |es| ==> es[j].info.id != id
    ensures WithoutId(es, id) == es
  {
    if es != [] {
      WithoutAbsent(es[1..], id);
    }
  }

  // ---------------------------------------------------------------- the nearest-peers query

  lemma {:induction false} FlattenBelow(t: Table, n: nat)
    requires n <= BUCKETS && TableInv(t)
    ensures forall p :: p in Flatten(t.buckets, n) ==> BucketIndex(t.self, p.id) < n
  {
    if n > 0 {
      FlattenBelow(t, n - 1);
      var es := t.buckets[n - 1].entries;
      forall p | p in Infos(es) ensures BucketIndex(t.self, p.id) == n - 1 {
        var j :| 0 <= j < |es| && es[j].info == p;
        assert BucketInv(t.buckets[n - 1], t.self, n - 1) && EntryOk(es[j], t.self, n - 1);
      }
    }
  }

  /** Distinct within buckets is distinct overall, since a peer's bucket is determined by its id. */
  lemma {:induction false} FlattenDistinct(t: Table, n: nat)
    requires n <= BUCKETS && TableInv(t) && Clean(t)
    ensures DistinctIds(Flatten(t.buckets, n))
  {
    if n > 0 {
      FlattenDistinct(t, n - 1);
      FlattenBelow(t, n - 1);
      var a, es := Flatten(t.buckets, n - 1), t.buckets[n - 1].entries;
      assert CleanBucket(t.buckets[n - 1]);
      forall j | 0 <= j < |es| ensures BucketIndex(t.self, Infos(es)[j].id) == n - 1 {
        assert BucketInv(t.buckets[n - 1], t.self, n - 1) && EntryOk(es[j], t.self, n - 1);
      }
      ConcatDistinct(a, Infos(es), t.self, n - 1);
    }
  }

  lemma ConcatDistinct(a: seq<PeerInfo>, b: seq<PeerInfo>, self: Id, n: nat)
    requires DistinctIds(a) && DistinctIds(b)
    requires forall p :: p in a ==> BucketIndex(self, p.id) < n
    requires forall j :: 0 <= j < |b| ==> BucketIndex(self, b[j].id) == n
    ensures DistinctIds(a + b)
  {
    var s := a + b;
    forall i, j | 0 <= i < j < |s| ensures s[i].id != s[j].id {
      if i < |a| <= j {
        assert s[i] in a && s[j] == b[j - |a|];
      }
    }
  }

  /** The query returns min(n, 32, size) peers in order, none farther than one it leaves out. */
  lemma ClosestIsSortedPrefix(t: Table, target: Id, n: nat)
    ensures var out, sorted := Closest(t, target, n), Sort(AllPeers(t), target);
            && |out| == (if n <= 32 && n <= |AllPeers(t)| then n else if |AllPeers(t)| <= 32 then |AllPeers(t)| else 32)
            && out == sorted[..|out|] && Sorted(sorted, target) && multiset(sorted) == multiset(AllPeers(t))
  {
    SortIsSortedPermutation(AllPeers(t), target);
  }

  /** With distinct ids it is the nearest n (at most 32), nearest first. */
  lemma ClosestIsNearest(t: Table, target: Id, n: nat)
    requires DistinctIds(AllPeers(t))
    ensures IsNearest(Ids(Closest(t, target, n)), IdSet(AllPeers(t)), target, if n <= K_MAX then n else K_MAX)
  {
    SortDistinct(AllPeers(t), target);
    PrefixIsNearest(Sort(AllPeers(t), target), target, if n <= K_MAX then n else K_MAX);
  }

  /** So two tables with distinct ids that know the same ids answer alike, whatever their histories,
      bucket layouts and round-trip times. */
  lemma ClosestDependsOnIdsOnly(t: Table, t': Table, target: Id, n: nat)
    requires DistinctIds(AllPeers(t)) && DistinctIds(AllPeers(t')) && IdSet(AllPeers(t)) == IdSet(AllPeers(t'))
    ensures Ids(Closest(t, target, n)) == Ids(Closest(t', target, n))
  {
    ClosestIsNearest(t, target, n);
    ClosestIsNearest(t', target, n);
    NearestIsUnique(Ids(Closest(t, target, n)), Ids(Closest(t', target, n)), IdSet(AllPeers(t)), target, if n <= K_MAX then n else K_MAX);
  }

  /** Tables reached by runs with harmless promotions are such tables. */
  lemma HarmlessRunKeepsDistinct(self: Id, steps: seq<Step>)
    requires HarmlessRun(NewTable(self), steps)
    ensures DistinctIds(AllPeers(Run(NewTable(self), steps)))
  {
    TableStaysSound(self, steps);
    RunCleanIff(NewTable(self), steps);
    FlattenDistinct(Run(NewTable(self), steps), BUCKETS);
  }
}
