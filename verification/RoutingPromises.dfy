/** What each operation on the routing table does: who is stored where, who is handed back, when an entry
    goes and who takes its place. */
module RoutingPromises {
  import opened Xor
  import opened Peers
  import opened Routing

  ghost predicate Present(b: Bucket, id: Id)
  {
    exists j :: 0 <= j < |b.entries| && b.entries[j].info.id == id
  }

  /** Buckets other than the one of `id` are the same in both tables. */
  ghost predicate SameElsewhere(t: Table, t': Table, id: Id)
  {
    t'.self == t.self && forall i :: 0 <= i < 256 && i != BucketIndex(t.self, id) ==> t'.buckets[i] == t.buckets[i]
  }

  ghost predicate PrefixFull(b: Bucket, info: PeerInfo)
  {
    Prefix24(info).Some? && CountPrefix(b.entries, Prefix24(info).value) >= 8
  }

  lemma PositionPresent(b: Bucket, id: Id)
    ensures Position(b.entries, id) < |b.entries| <==> Present(b, id)
  {
  }

  // ---------------------------------------------------------------- insert

  /** `es'` is `es` without the entry at `i`, in the same order, and then `e`. */
  ghost predicate MovedToEnd(es: seq<Entry>, i: nat, e: Entry, es': seq<Entry>)
  {
    && i < |es| && |es'| == |es| && es'[|es| - 1] == e
    && (forall j :: 0 <= j < i ==> es'[j] == es[j])
    && (forall j :: i < j < |es| ==> es'[j - 1] == es[j])
  }

  /** A peer that is not the node itself and whose /24 has room is stored at the end of its bucket, with
      its new descriptor and no failures, if it is there already or the bucket has room; nobody else
      moves or changes. */
  lemma InsertStores(t: Table, info: PeerInfo, now: nat)
    requires info.id != t.self && !PrefixFull(BucketOf(t, info.id), info)
    requires Present(BucketOf(t, info.id), info.id) || |BucketOf(t, info.id).entries| < 20
    ensures var t' := Next(t, DoInsert(info, now)); var b, b' := BucketOf(t, info.id), BucketOf(t', info.id);
            && SameElsewhere(t, t', info.id) && b'.spares == b.spares && b'.entries != []
            && (var e := b'.entries[|b'.entries| - 1];
                && e.info == info && e.lastSeen == now && e.failCount == 0
                && (if Present(b, info.id)
                    then exists i: nat :: MovedToEnd(b.entries, i, e, b'.entries) && b.entries[i].info.id == info.id && e.srttUs == b.entries[i].srttUs
                    else b'.entries == b.entries + [e] && e.srttUs == 200_000))
  {
    var b := BucketOf(t, info.id);
    var b' := BucketOf(Next(t, DoInsert(info, now)), info.id);
    PositionPresent(b, info.id);
    var i := Position(b.entries, info.id);
    if i < |b.entries| {
      assert MovedToEnd(b.entries, i, b'.entries[|b'.entries| - 1], b'.entries);
    }
  }

  /** Otherwise no entry changes. A newcomer to a full bucket waits as the last spare while fewer than
      eight do; the node itself and a peer whose /24 is full are not kept at all. */
  lemma InsertElsewise(t: Table, info: PeerInfo, now: nat)
    ensures var t' := Next(t, DoInsert(info, now)); var b, b' := BucketOf(t, info.id), BucketOf(t', info.id);
            && (info.id == t.self || PrefixFull(b, info) ==> t' == t)
            && (info.id != t.self && !PrefixFull(b, info) && !Present(b, info.id) && |b.entries| >= 20 ==>
                  && SameElsewhere(t, t', info.id) && b'.entries == b.entries
                  && (if |b.spares| < 8
                      then |b'.spares| == |b.spares| + 1 && b'.spares[..|b.spares|] == b.spares && b'.spares[|b.spares|].info == info
                      else b'.spares == b.spares))
  {
    var b := BucketOf(t, info.id);
    PositionPresent(b, info.id);
    assert t.buckets[BucketIndex(t.self, info.id) := b] == t.buckets;
  }

  /** Stored is found: the nearest-peers query over a fresh table with one inserted peer returns it. */
  lemma InsertedIsFound(self: Id, info: PeerInfo, now: nat, target: Id)
    requires info.id != self
    ensures Closest(Next(NewTable(self), DoInsert(info, now)), target, 1) == [info]
  {
    var t := NewTable(self);
    var t' := Next(t, DoInsert(info, now));
    var i := BucketIndex(self, info.id);
    assert BucketOf(t, info.id).entries == [];
    InsertStores(t, info, now);
    assert t'.buckets[i].entries == [NewEntry(info, now)];
    FlattenOne(t', i, info, 256);
    assert Sort([info], target) == [info] by { assert [info][1..] == []; }
  }

  lemma {:induction false} FlattenOne(t: Table, i: nat, info: PeerInfo, n: nat)
    requires i < 256 && n <= 256 && Infos(t.buckets[i].entries) == [info]
    requires forall j :: 0 <= j < 256 && j != i ==> t.buckets[j].entries == []
    ensures Flatten(t.buckets, n) == if i < n then [info] else []
  {
    if n > 0 {
      FlattenOne(t, i, info, n - 1);
      assert n - 1 != i ==> Infos(t.buckets[n - 1].entries) == [];
    }
  }

  // ---------------------------------------------------------------- who is handed back

  /** The table, the number of steps so far, and when each id last came to the end of its bucket, by
      being inserted, refreshed or promoted. */
  datatype Stamped = Stamped(t: Table, clock: nat, stamp: map<Id, nat>)

  /** Whom a step puts at the end of a bucket, if anyone. */
  function Arrives(t: Table, step: Step): Option<Id>
  {
    match step
    case DoInsert(info, _) =>
      var b := BucketOf(t, info.id);
      if info.id != t.self && PrefixOk(b.entries, info) && (Position(b.entries, info.id) < |b.entries| || |b.entries| < K)
      then Some(info.id) else None
    case DoTouch(_, _, _) => None
    case DoFail(id) =>
      if Promotes(t, step) then Some(BucketOf(t, id).spares[|BucketOf(t, id).spares| - 1].info.id) else None
  }

  function StampNext(s: Stamped, step: Step): Stamped
  {
    var who := Arrives(s.t, step);
    Stamped(Next(s.t, step), s.clock + 1, if who.Some? then s.stamp[who.value := s.clock] else s.stamp)
  }

  function StampRun(s: Stamped, steps: seq<Step>): Stamped
    decreases |steps|
  {
    if steps == [] then s else StampRun(StampNext(s, steps[0]), steps[1..])
  }

  ghost predicate Ordered(es: seq<Entry>, stamp: map<Id, nat>, clock: nat)
  {
    && (forall j :: 0 <= j < |es| ==> es[j].info.id in stamp && stamp[es[j].info.id] < clock)
    && (forall j, k :: 0 <= j < k < |es| ==> stamp[es[j].info.id] < stamp[es[k].info.id])
  }

  ghost predicate StampInv(s: Stamped)
  {
    TableInv(s.t) && Clean(s.t) && forall i :: 0 <= i < BUCKETS ==> Ordered(s.t.buckets[i].entries, s.stamp, s.clock)
  }

  /** Someone not among `es` arrives at the end. */
  lemma ArrivalOrdered(es: seq<Entry>, e: Entry, stamp: map<Id, nat>, clock: nat)
    requires Ordered(es, stamp, clock) && forall j :: 0 <= j < |es| ==> es[j].info.id != e.info.id
    ensures Ordered(es + [e], stamp[e.info.id := clock], clock + 1)
  {
  }

  lemma TakenOutOrdered(es: seq<Entry>, i: nat, stamp: map<Id, nat>, clock: nat)
    requires Ordered(es, stamp, clock) && i < |es|
    ensures Ordered(es[..i] + es[i + 1..], stamp, clock)
    ensures var r := es[..i] + es[i + 1..]; forall j :: 0 <= j < |r| ==> r[j].info.id != es[i].info.id
  {
    var r := es[..i] + es[i + 1..];
    forall j | 0 <= j < |r| ensures r[j] == es[if j < i then j else j + 1] {
    }
  }

  lemma {:induction false} FilteredOrdered(es: seq<Entry>, id: Id, stamp: map<Id, nat>, clock: nat)
    requires Ordered(es, stamp, clock)
    ensures Ordered(WithoutId(es, id), stamp, clock)
  {
    if es != [] {
      assert forall j :: 0 <= j < |es| - 1 ==> es[1..][j] == es[j + 1];
      FilteredOrdered(es[1..], id, stamp, clock);
      var rest := WithoutId(es[1..], id);
      assert forall e :: e in rest ==> e in es[1..] by { WithoutIdIsFilter(es[1..], id); }
      if es[0].info.id != id {
        FirstOrdered(es, rest, stamp, clock);
        assert WithoutId(es, id) == [es[0]] + rest;
      } else {
        assert WithoutId(es, id) == rest;
      }
    }
  }

  lemma FirstOrdered(es: seq<Entry>, rest: seq<Entry>, stamp: map<Id, nat>, clock: nat)
    requires es != [] && Ordered(es, stamp, clock) && Ordered(rest, stamp, clock) && forall e :: e in rest ==> e in es[1..]
    ensures Ordered([es[0]] + rest, stamp, clock)
  {
    forall j | 0 <= j < |rest| ensures stamp[es[0].info.id] < stamp[rest[j].info.id] {
      assert rest[j] in es[1..];
      var k :| 0 <= k < |es[1..]| && es[1..][k] == rest[j];
      assert es[k + 1] == rest[j];
    }
  }

  lemma UpdateOrdered(es: seq<Entry>, i: nat, e: Entry, stamp: map<Id, nat>, clock: nat)
    requires Ordered(es, stamp, clock) && i < |es| && e.info.id == es[i].info.id
    ensures Ordered(es[i := e], stamp, clock)
  {
  }

  lemma LaterOrdered(es: seq<Entry>, stamp: map<Id, nat>, clock: nat)
    requires Ordered(es, stamp, clock)
    ensures Ordered(es, stamp, clock + 1)
  {
  }

  /** A new stamp for someone else does not disturb a bucket. */
  lemma OtherOrdered(es: seq<Entry>, id: Id, stamp: map<Id, nat>, clock: nat)
    requires Ordered(es, stamp, clock) && forall j :: 0 <= j < |es| ==> es[j].info.id != id
    ensures Ordered(es, stamp[id := clock], clock + 1)
  {
  }

  lemma InsertOrdered(b: Bucket, info: PeerInfo, now: nat, stamp: map<Id, nat>, clock: nat)
    requires Ordered(b.entries, stamp, clock) && PrefixOk(b.entries, info)
    requires Position(b.entries, info.id) < |b.entries| || |b.entries| < K
    ensures Ordered(InsertIn(b, info, now).entries, stamp[info.id := clock], clock + 1)
  {
    var i := Position(b.entries, info.id);
    if i < |b.entries| {
      TakenOutOrdered(b.entries, i, stamp, clock);
      ArrivalOrdered(b.entries[..i] + b.entries[i + 1..], b.entries[i].(info := info, lastSeen := now, failCount := 0), stamp, clock);
    } else {
      ArrivalOrdered(b.entries, NewEntry(info, now), stamp, clock);
    }
  }

  /** A failure that evicts and promotes. */
  lemma PromoteOrdered(b: Bucket, id: Id, stamp: map<Id, nat>, clock: nat)
    requires Ordered(b.entries, stamp, clock) && |b.entries| <= K && b.spares != [] && HarmlessFor(b, id)
    requires var i := Position(b.entries, id); i < |b.entries| && b.entries[i].failCount + 1 >= MAX_FAILS
    ensures Ordered(FailIn(b, id).entries, stamp[b.spares[|b.spares| - 1].info.id := clock], clock + 1)
  {
    var i := Position(b.entries, id);
    var es, e := WithoutId(b.entries, id), b.spares[|b.spares| - 1];
    WithoutIgnoresUpdate(b.entries, i, Strike(b, i).entries[i], id);
    WithoutNotLonger(b.entries, id);
    FilteredOrdered(b.entries, id, stamp, clock);
    forall j | 0 <= j < |es| ensures es[j].info.id != e.info.id {
      assert Infos(es)[j] in Infos(es);
    }
    ArrivalOrdered(es, e, stamp, clock);
    assert FailIn(b, id).entries == es + [e];
  }

  /** A failure that promotes nobody. */
  lemma FailOrdered(b: Bucket, id: Id, stamp: map<Id, nat>, clock: nat)
    requires Ordered(b.entries, stamp, clock)
    requires var i := Position(b.entries, id); i < |b.entries| && b.entries[i].failCount + 1 >= MAX_FAILS ==> b.spares == []
    ensures Ordered(FailIn(b, id).entries, stamp, clock + 1)
  {
    var i := Position(b.entries, id);
    if i < |b.entries| {
      UpdateOrdered(b.entries, i, Strike(b, i).entries[i], stamp, clock);
      FilteredOrdered(Strike(b, i).entries, id, stamp, clock);
      LaterOrdered(Strike(b, i).entries, stamp, clock);
      LaterOrdered(WithoutId(Strike(b, i).entries, id), stamp, clock);
    } else {
      LaterOrdered(b.entries, stamp, clock);
    }
  }

  lemma InsertHere(s: Stamped, step: Step)
    requires step.DoInsert? && Ordered(BucketOf(s.t, step.info.id).entries, s.stamp, s.clock)
    ensures Ordered(BucketOf(Next(s.t, step), step.info.id).entries, StampNext(s, step).stamp, s.clock + 1)
  {
    var b := BucketOf(s.t, step.info.id);
    if Arrives(s.t, step).Some? {
      InsertOrdered(b, step.info, step.now, s.stamp, s.clock);
    } else {
      LaterOrdered(b.entries, s.stamp, s.clock);
    }
  }

  lemma TouchHere(s: Stamped, step: Step)
    requires step.DoTouch? && Ordered(BucketOf(s.t, step.id).entries, s.stamp, s.clock)
    ensures Ordered(BucketOf(Next(s.t, step), step.id).entries, StampNext(s, step).stamp, s.clock + 1)
  {
    var b := BucketOf(s.t, step.id);
    var i := Position(b.entries, step.id);
    LaterOrdered(b.entries, s.stamp, s.clock);
    if i < |b.entries| {
      UpdateOrdered(b.entries, i, TouchIn(b, step.id, step.rttUs, step.now).entries[i], s.stamp, s.clock + 1);
    }
  }

  lemma FailHere(s: Stamped, step: Step)
    requires step.DoFail? && Ordered(BucketOf(s.t, step.id).entries, s.stamp, s.clock)
    requires Harmless(s.t, step) && |BucketOf(s.t, step.id).entries| <= K
    ensures Ordered(BucketOf(Next(s.t, step), step.id).entries, StampNext(s, step).stamp, s.clock + 1)
  {
    var b := BucketOf(s.t, step.id);
    if Promotes(s.t, step) {
      PromoteOrdered(b, step.id, s.stamp, s.clock);
    } else {
      FailOrdered(b, step.id, s.stamp, s.clock);
    }
  }

  /** The bucket a step works on stays ordered. */
  lemma HereOrdered(s: Stamped, step: Step)
    requires StampInv(s) && Harmless(s.t, step)
    ensures var id := if step.DoInsert? then step.info.id else step.id;
            Ordered(BucketOf(Next(s.t, step), id).entries, StampNext(s, step).stamp, s.clock + 1)
  {
    var i := BucketIndex(s.t.self, if step.DoInsert? then step.info.id else step.id);
    assert Ordered(s.t.buckets[i].entries, s.stamp, s.clock) && BucketInv(s.t.buckets[i], s.t.self, i);
    match step
    case DoInsert(_, _) => InsertHere(s, step);
    case DoTouch(_, _, _) => TouchHere(s, step);
    case DoFail(_) => FailHere(s, step);
  }

  /** Whoever arrives, arrives in the bucket of the step. */
  lemma ArrivesHere(s: Stamped, step: Step)
    requires TableInv(s.t) && Arrives(s.t, step).Some?
    ensures var id := if step.DoInsert? then step.info.id else step.id;
            BucketIndex(s.t.self, Arrives(s.t, step).value) == BucketIndex(s.t.self, id)
  {
    if step.DoFail? {
      var i := BucketIndex(s.t.self, step.id);
      assert BucketInv(s.t.buckets[i], s.t.self, i);
    }
  }

  lemma StampNextKeepsInv(s: Stamped, step: Step)
    requires StampInv(s) && Harmless(s.t, step)
    ensures StampInv(StampNext(s, step))
  {
    var s' := StampNext(s, step);
    var here := BucketIndex(s.t.self, if step.DoInsert? then step.info.id else step.id);
    NextKeepsInv(s.t, step);
    NextCleanIff(s.t, step);
    HereOrdered(s, step);
    forall i | 0 <= i < BUCKETS ensures Ordered(s'.t.buckets[i].entries, s'.stamp, s'.clock) {
      if i != here {
        assert s'.t.buckets[i] == s.t.buckets[i] && Ordered(s.t.buckets[i].entries, s.stamp, s.clock);
        LaterOrdered(s.t.buckets[i].entries, s.stamp, s.clock);
        if Arrives(s.t, step).Some? {
          ArrivesHere(s, step);
          assert BucketInv(s.t.buckets[i], s.t.self, i);
          OtherOrdered(s.t.buckets[i].entries, Arrives(s.t, step).value, s.stamp, s.clock);
        }
      }
    }
  }

  lemma {:induction false} StampRunKeepsInv(s: Stamped, steps: seq<Step>)
    requires StampInv(s) && HarmlessRun(s.t, steps)
    ensures StampInv(StampRun(s, steps)) && StampRun(s, steps).t == Run(s.t, steps)
    decreases |steps|
  {
    if steps != [] {
      StampNextKeepsInv(s, steps[0]);
      StampRunKeepsInv(StampNext(s, steps[0]), steps[1..]);
    }
  }

  /** Over every run with harmless promotions: the entry handed back when a newcomer finds its bucket full
      is the one that came to the end of the bucket longest ago. */
  lemma HandedBackIsLeastRecent(self: Id, steps: seq<Step>, info: PeerInfo, j: nat)
    requires HarmlessRun(NewTable(self), steps)
    requires var b := BucketOf(Run(NewTable(self), steps), info.id);
             |b.entries| >= 20 && !Present(b, info.id) && !PrefixFull(b, info) && 0 < j < |b.entries|
    ensures var s := StampRun(Stamped(NewTable(self), 0, map[]), steps); var b := BucketOf(s.t, info.id);
            && s.t == Run(NewTable(self), steps) && j < |b.entries|
            && LruIfFull(b, info).Some? && LruIfFull(b, info).value in b.entries
            && LruIfFull(b, info).value.info.id in s.stamp && b.entries[j].info.id in s.stamp
            && s.stamp[LruIfFull(b, info).value.info.id] < s.stamp[b.entries[j].info.id]
  {
    StampRunKeepsInv(Stamped(NewTable(self), 0, map[]), steps);
    var s := StampRun(Stamped(NewTable(self), 0, map[]), steps);
    var b := BucketOf(s.t, info.id);
    PositionPresent(b, info.id);
    assert Ordered(b.entries, s.stamp, s.clock);
    assert b.entries[0] in b.entries;
  }

  // ---------------------------------------------------------------- eviction, contact, failure

  /** Evicting drops every entry of the id, keeps the others, and puts the newest spare behind them. */
  lemma EvictionSpec(b: Bucket, dead: Id)
    requires |b.entries| < K_MAX
    ensures var b' := EvictIn(b, dead);
            && (forall e :: e in b.entries && e.info.id != dead ==> e in b'.entries)
            && (forall e :: e in b'.entries ==> (e in b.entries && e.info.id != dead) || (b.spares != [] && e == b.spares[|b.spares| - 1]))
            && (if b.spares == [] then b'.spares == []
                else b'.spares == b.spares[..|b.spares| - 1] && b'.entries != [] && b'.entries[|b'.entries| - 1] == b.spares[|b.spares| - 1])
  {
    WithoutIdIsFilter(b.entries, dead);
  }

  /** An answer from a stored peer clears its failures, notes the time and smooths its round-trip time;
      nothing else in the table changes. */
  lemma ContactSpec(t: Table, id: Id, rttUs: nat, now: nat)
    ensures var t' := Next(t, DoTouch(id, rttUs, now)); var b, b' := BucketOf(t, id), BucketOf(t', id);
            && SameElsewhere(t, t', id) && b'.spares == b.spares && |b'.entries| == |b.entries|
            && (!Present(b, id) ==> t' == t)
            && (Present(b, id) ==>
                  exists i :: 0 <= i < |b.entries| && b.entries[i].info.id == id
                              && Contacted(b.entries[i], b'.entries[i], rttUs, now)
                              && forall j :: 0 <= j < |b.entries| && j != i ==> b'.entries[j] == b.entries[j])
  {
    var b := BucketOf(t, id);
    var b' := BucketOf(Next(t, DoTouch(id, rttUs, now)), id);
    PositionPresent(b, id);
    var i := Position(b.entries, id);
    if i < |b.entries| {
      EwmaExactIff(b.entries[i].srttUs, rttUs);
      assert Contacted(b.entries[i], b'.entries[i], rttUs, now);
    } else {
      assert t.buckets[BucketIndex(t.self, id) := b] == t.buckets;
    }
  }

  predicate Contacted(e: Entry, e': Entry, rttUs: nat, now: nat)
  {
    && e'.failCount == 0 && e'.lastSeen == now && e'.info == e.info.(rttMs := e'.srttUs / 1000)
    && (e.srttUs * 7 + rttUs < WORD ==> e'.srttUs == (e.srttUs * 7 + rttUs) / 8)
  }

  /** What a failure report does to a bucket of distinct peers: the first two are counted, the third
      evicts; nobody else's count changes. */
  lemma FailureSpec(b: Bucket, id: Id)
    requires DistinctEntries(b.entries) && |b.entries| <= K
    ensures var b' := FailIn(b, id);
            && (!Present(b, id) ==> b' == b)
            && (forall i :: 0 <= i < |b.entries| && b.entries[i].info.id == id ==>
                  if b.entries[i].failCount < 2
                  then b' == b.(entries := b.entries[i := b.entries[i].(failCount := b.entries[i].failCount + 1)])
                  else b.spares == [] || b.spares[|b.spares| - 1].info.id != id ==> !Present(b', id))
  {
    PositionPresent(b, id);
    var p := Position(b.entries, id);
    if p < |b.entries| {
      forall i | 0 <= i < |b.entries| && b.entries[i].info.id == id ensures i == p {
        assert Infos(b.entries)[i].id == Infos(b.entries)[p].id;
      }
      WithoutIdIsFilter(Strike(b, p).entries, id);
    }
  }

  /** Three failures in a row, with no contact between them, evict a stored peer. */
  lemma ThreeFailuresEvict(b: Bucket, id: Id)
    requires DistinctEntries(b.entries) && |b.entries| <= K && Present(b, id)
    requires b.spares == [] || b.spares[|b.spares| - 1].info.id != id
    requires forall e :: e in b.entries && e.info.id == id ==> e.failCount == 0
    ensures !Present(FailIn(FailIn(FailIn(b, id), id), id), id)
    ensures Present(FailIn(FailIn(b, id), id), id)
  {
    var i := Position(b.entries, id);
    PositionPresent(b, id);
    assert b.entries[i] in b.entries;
    var b1 := Counted(b, i);
    FailureSpec(b, id);
    StillDistinct(b, i);
    var b2 := Counted(b1, i);
    FailureSpec(b1, id);
    StillDistinct(b1, i);
    FailureSpec(b2, id);
    assert b2.entries[i].info.id == id && b2.entries[i].failCount == 2;
  }

  function Counted(b: Bucket, i: nat): Bucket
    requires i < |b.entries|
  {
    b.(entries := b.entries[i := b.entries[i].(failCount := b.entries[i].failCount + 1)])
  }

  lemma StillDistinct(b: Bucket, i: nat)
    requires DistinctEntries(b.entries) && i < |b.entries|
    ensures DistinctEntries(Counted(b, i).entries)
  {
    assert Infos(Counted(b, i).entries) == Infos(b.entries);
  }

  // ---------------------------------------------------------------- counting and collecting

  /** Two peers share a /24 exactly if the first three octets of their IPv4 primary addresses agree. */
  lemma SharedPrefix(x: PeerInfo, y: PeerInfo)
    ensures Prefix24(x).Some? && Prefix24(x) == Prefix24(y) <==>
            && x.addrs != [] && y.addrs != [] && x.addrs[0].ip.V4? && y.addrs[0].ip.V4?
            && x.addrs[0].ip.a == y.addrs[0].ip.a && x.addrs[0].ip.b == y.addrs[0].ip.b && x.addrs[0].ip.c == y.addrs[0].ip.c
  {
  }

  function InPrefix(es: seq<Entry>, p: (Byte, Byte, Byte)): set<int>
  {
    set i | 0 <= i < |es| && Prefix24(es[i].info) == Some(p)
  }

  /** The count of a /24 is the number of entries in it. */
  lemma {:induction false} CountPrefixCounts(es: seq<Entry>, p: (Byte, Byte, Byte))
    ensures CountPrefix(es, p) == |InPrefix(es, p)|
  {
    if es == [] {
      assert InPrefix(es, p) == {};
    } else {
      var n := |es| - 1;
      var init := es[..n];
      assert es == init + [es[n]];
      CountPrefixCounts(init, p);
      CountAppend(init, [es[n]], p);
      CountOne(es[n], p);
      assert InPrefix(es, p) == if Prefix24(es[n].info) == Some(p) then InPrefix(init, p) + {n} else InPrefix(init, p);
    }
  }

  /** The query looks at the entries of every bucket, and at nothing else. */
  lemma {:induction false} FlattenCollects(bs: seq<Bucket>, n: nat, p: PeerInfo)
    requires n <= |bs|
    ensures p in Flatten(bs, n) <==> exists i, j :: 0 <= i < n && 0 <= j < |bs[i].entries| && bs[i].entries[j].info == p
  {
    if n > 0 {
      FlattenCollects(bs, n - 1, p);
      var es := bs[n - 1].entries;
      if p in Infos(es) {
        var j :| 0 <= j < |Infos(es)| && Infos(es)[j] == p;
        assert bs[n - 1].entries[j].info == p;
      }
      if i, j :| 0 <= i < n && 0 <= j < |bs[i].entries| && bs[i].entries[j].info == p {
        if i == n - 1 {
          assert Infos(es)[j] == p;
        }
      }
    }
  }
}
