/** Records in the shared log (`queue_record`, `flush_wal`, `replay_wal` in `src/store.rs`): what a
    restart brings back, next to the peers that share the log. */
module RecordLog {
  import opened Xor
  import opened Peers
  import opened Records
  import opened Framing
  import S = Stores
  import P = Peerstores

  /** The libraries the log relies on. */
  datatype Env = Env(crypto: Crypto, pb: S.Protobuf, text: P.AddrText, crc: Crc)
  {
    ghost predicate Faithful()
    {
      pb.Faithful() && text.Faithful()
    }
  }

  /** One shard's record store, and the peer store that owns the log. */
  datatype Node = Node(store: S.StoreState, disk: P.PeerState)

  // ---------------------------------------------------------------- replay

  /** One frame as the record replay sees it: no sequence is checked, the last one wins. */
  function ApplyRecord(m: map<Id, StoredRecord>, f: Frame, now: nat, env: Env): map<Id, StoredRecord>
  {
    if f.ty != TYPE_RECORD then m
    else
      var w := env.pb.decode(f.payload);
      if w.None? then m
      else
        var rec := FromWire(w.value, now);
        if rec.Some? && env.crypto.Authentic(rec.value) then m[rec.value.key := rec.value] else m
  }

  function ReplayRecords(m: map<Id, StoredRecord>, fs: seq<Frame>, now: nat, env: Env): map<Id, StoredRecord>
  {
    if fs == [] then m else ApplyRecord(ReplayRecords(m, fs[..|fs| - 1], now, env), fs[|fs| - 1], now, env)
  }

  /** What opening the store reads back: the log only, never the snapshot. */
  function RecoverRecords(wal: seq<Byte>, now: nat, env: Env): map<Id, StoredRecord>
  {
    ReplayRecords(map[], Parse(wal, env.crc), now, env)
  }

  /** The loop of `replay_wal` over an opened log. */
  method ReplayWal(wal: seq<Byte>, now: nat, env: Env) returns (records: map<Id, StoredRecord>)
    ensures records == RecoverRecords(wal, now, env)
  {
    var fs := ReplayFrames(wal, env.crc);
    records := map[];
    var i := 0;
    while i < |fs|
      invariant 0 <= i <= |fs|
      invariant records == ReplayRecords(map[], fs[..i], now, env)
    {
      assert fs[..i + 1][..i] == fs[..i];
      if fs[i].ty == TYPE_RECORD {
        var w := env.pb.decode(fs[i].payload);
        if w.Some? {
          var rec := FromWire(w.value, now);
          if rec.Some? && env.crypto.Authentic(rec.value) {
            records := records[rec.value.key := rec.value];
          }
        }
      }
      i := i + 1;
    }
    assert fs[..i] == fs;
  }

  lemma {:induction false} ReplayRecordsAppend(m: map<Id, StoredRecord>, fs: seq<Frame>, gs: seq<Frame>, now: nat, env: Env)
    ensures ReplayRecords(m, fs + gs, now, env) == ReplayRecords(ReplayRecords(m, fs, now, env), gs, now, env)
  {
    if gs == [] {
      assert fs + gs == fs;
    } else {
      var n := |gs| - 1;
      assert (fs + gs)[..|fs + gs| - 1] == fs + gs[..n];
      ReplayRecordsAppend(m, fs, gs[..n], now, env);
    }
  }

  lemma ReplayOneRecord(m: map<Id, StoredRecord>, f: Frame, now: nat, env: Env)
    ensures ReplayRecords(m, [f], now, env) == ApplyRecord(m, f, now, env)
  {
    assert [f][..0] == [];
  }

  /** Entries of the peer store are invisible to the record replay, wherever they stand. */
  lemma OthersInvisible(fs: seq<Frame>, f: Frame, gs: seq<Frame>, now: nat, env: Env)
    requires f.ty != TYPE_RECORD
    ensures ReplayRecords(map[], (fs + [f]) + gs, now, env) == ReplayRecords(map[], fs + gs, now, env)
  {
    ReplayRecordsAppend(map[], fs + [f], gs, now, env);
    ReplayRecordsAppend(map[], fs, [f], now, env);
    ReplayOneRecord(ReplayRecords(map[], fs, now, env), f, now, env);
    ReplayRecordsAppend(map[], fs, gs, now, env);
  }

  // ---------------------------------------------------------------- steps

  datatype Step =
    | Rec(s: S.Step)
    | Peer(p: P.Step)
    | FlushWal
    | Restart(at: nat)

  /** `flush_wal`: queued records move, in order, to the peer store's waiting operations. */
  function MoveQueued(n: Node): Node
  {
    Node(n.store.(pendingWal := []), n.disk.(pending := n.disk.pending + P.RecordFrames(n.store.pendingWal)))
  }

  /** The loop of `flush_wal`: each queued record is appended to the peer store. */
  method MoveAll(n: Node) returns (moved: Node)
    ensures moved == MoveQueued(n)
  {
    var disk, i := n.disk, 0;
    while i < |n.store.pendingWal|
      invariant 0 <= i <= |n.store.pendingWal|
      invariant disk == n.disk.(pending := n.disk.pending + P.RecordFrames(n.store.pendingWal[..i]))
    {
      assert P.RecordFrames(n.store.pendingWal[..i + 1]) == P.RecordFrames(n.store.pendingWal[..i]) + [Frame(TYPE_RECORD, n.store.pendingWal[i])];
      disk := P.Append(disk, n.store.pendingWal[i]);
      i := i + 1;
    }
    assert n.store.pendingWal[..i] == n.store.pendingWal;
    moved := Node(n.store.(pendingWal := []), disk);
  }

  /** A node opened at time `at` over the two files as found on disk. */
  function Opened(snapshot: seq<Byte>, wal: seq<Byte>, at: nat, env: Env): Node
  {
    Node(S.StoreState(RecoverRecords(wal, at, env), map[], map[], true, []), P.Reopen(snapshot, wal, env.text, env.crc))
  }

  /** Encoded records fit the length field. Records reach the log through `FlushWal` only, and both
      stores are reopened together. */
  ghost predicate Allowed(n: Node, step: Step, env: Env)
  {
    match step
    case Rec(DoPut(rec, _)) => |env.pb.encode(rec.ToWire())| < WORD
    case Rec(DoPutImmutable(value, ttlSecs, now)) =>
      |env.pb.encode(S.ImmutableRecord(value, ttlSecs, now, env.crypto).ToWire())| < WORD
    case Rec(_) => true
    case Peer(p) => !p.DoAppend? && !p.DoReopen? && P.Allowed(n.disk, p)
    case FlushWal => true
    case Restart(_) => n.disk.wal.Some?
  }

  ghost function Next(n: Node, step: Step, env: Env): Node
    requires Allowed(n, step, env)
  {
    match step
    case Rec(s) => n.(store := S.Next(n.store, s, env.crypto, env.pb))
    case Peer(p) => n.(disk := P.Next(n.disk, p, env.text, env.crc))
    case FlushWal => MoveQueued(n)
    case Restart(at) => Opened(n.disk.snapshot, n.disk.wal.value, at, env)
  }

  ghost predicate Reaches(n: Node, steps: seq<Step>, t: Node, env: Env)
    decreases |steps|
  {
    if steps == [] then n == t
    else Allowed(n, steps[0], env) && Reaches(Next(n, steps[0], env), steps[1..], t, env)
  }

  /** Compaction takes the records out of the log (`CompactionForgetsRecords`). */
  ghost predicate NoCompaction(steps: seq<Step>)
  {
    forall i :: 0 <= i < |steps| ==> !(steps[i].Peer? && steps[i].p.DoCompact?)
  }

  predicate Collects(step: Step)
  {
    step.Rec? && step.s.DoGc?
  }

  /** Whether there was a collection and no restart after it; `before` says so for earlier steps. */
  predicate CollectedSinceRestart(steps: seq<Step>, before: bool)
    decreases |steps|
  {
    if steps == [] then before
    else CollectedSinceRestart(steps[1..], !steps[0].Restart? && (before || Collects(steps[0])))
  }

  const Fresh: Node := Node(S.Empty, P.Fresh)

  // ---------------------------------------------------------------- the invariant

  /** Everything logged so far, in the order it will be written. */
  function Log(n: Node, env: Env): seq<Frame>
    requires n.disk.wal.Some?
  {
    (Parse(n.disk.wal.value, env.crc) + n.disk.pending) + P.RecordFrames(n.store.pendingWal)
  }

  function Replayed(n: Node, now: nat, env: Env): map<Id, StoredRecord>
    requires n.disk.wal.Some?
  {
    ReplayRecords(map[], Log(n, env), now, env)
  }

  /** Live records with a nonzero TTL are in the log, and are its last word on their key. */
  ghost predicate Covered(records: map<Id, StoredRecord>, got: map<Id, StoredRecord>)
  {
    forall k :: k in records && records[k].ttlSecs > 0 ==> k in got && got[k].SameContent(records[k])
  }

  ghost predicate Inv(n: Node, now: nat, env: Env)
  {
    && n.store.durable && n.disk.wal.Some?
    && P.Inv(n.disk, env.text, env.crc)
    && AllFit(P.RecordFrames(n.store.pendingWal))
    && S.Inv(n.store, env.crypto)
    && Covered(n.store.records, Replayed(n, now, env))
  }

  /** Nothing is in the log that is not live. */
  ghost predicate NoExtra(n: Node, now: nat, env: Env)
    requires n.disk.wal.Some?
  {
    Replayed(n, now, env).Keys <= n.store.records.Keys
  }

  // ---------------------------------------------------------------- each step

  lemma ReadBack(rec: StoredRecord, m: map<Id, StoredRecord>, now: nat, env: Env)
    requires env.Faithful() && env.crypto.Authentic(rec)
    ensures var got := ApplyRecord(m, Frame(TYPE_RECORD, env.pb.encode(rec.ToWire())), now, env);
            && got.Keys <= m.Keys + {rec.key}
            && (forall k :: k != rec.key ==> (k in got <==> k in m) && (k in m ==> got[k] == m[k]))
            && (rec.ttlSecs > 0 ==> rec.key in got && got[rec.key].SameContent(rec))
  {
  }

  lemma KeepIsLogged(n: Node, rec: StoredRecord, now: nat, env: Env)
    requires n.store.durable && n.disk.wal.Some?
    ensures var f := Frame(TYPE_RECORD, env.pb.encode(rec.ToWire()));
            var n' := n.(store := S.Keep(n.store, rec, env.pb));
            && P.RecordFrames(n'.store.pendingWal) == P.RecordFrames(n.store.pendingWal) + [f]
            && Replayed(n', now, env) == ApplyRecord(Replayed(n, now, env), f, now, env)
  {
    var n' := n.(store := S.Keep(n.store, rec, env.pb));
    var f := Frame(TYPE_RECORD, env.pb.encode(rec.ToWire()));
    assert P.RecordFrames(n'.store.pendingWal) == P.RecordFrames(n.store.pendingWal) + [f];
    assert Log(n', env) == Log(n, env) + [f];
    ReplayRecordsAppend(map[], Log(n, env), [f], now, env);
    ReplayOneRecord(Replayed(n, now, env), f, now, env);
  }

  lemma KeepCovers(n: Node, rec: StoredRecord, now: nat, env: Env)
    requires Inv(n, now, env) && env.Faithful() && env.crypto.Authentic(rec) && |env.pb.encode(rec.ToWire())| < WORD
    ensures var n' := n.(store := S.Keep(n.store, rec, env.pb));
            Inv(n', now, env) && (NoExtra(n, now, env) ==> NoExtra(n', now, env))
  {
    KeepIsLogged(n, rec, now, env);
    ReadBack(rec, Replayed(n, now, env), now, env);
  }

  lemma StoreStepKeeps(n: Node, s: S.Step, now: nat, env: Env)
    requires Inv(n, now, env) && env.Faithful() && Allowed(n, Rec(s), env)
    ensures Inv(Next(n, Rec(s), env), now, env)
    ensures !s.DoGc? && NoExtra(n, now, env) ==> NoExtra(Next(n, Rec(s), env), now, env)
  {
    S.NextKeepsInv(n.store, s, env.crypto, env.pb);
    match s
    case DoPut(rec, probe) =>
      if S.PutRecord(n.store, rec, probe, env.crypto, env.pb) != n.store {
        KeepCovers(n, rec, now, env);
      }
    case DoPutImmutable(value, ttlSecs, t) =>
      if |value| <= S.MAX_VALUE {
        KeepCovers(n, S.ImmutableRecord(value, ttlSecs, t, env.crypto), now, env);
      }
    case DoGc(t) =>
      assert Log(Next(n, Rec(s), env), env) == Log(n, env);
    case _ =>
      assert Log(Next(n, Rec(s), env), env) == Log(n, env);
  }

  lemma FlushReplays(n: Node, now: nat, env: Env)
    requires n.disk.wal.Some? && P.Whole(n.disk.wal.value, env.crc) && AllFit(n.disk.pending)
    ensures Replayed(n.(disk := P.Flush(n.disk, env.crc)), now, env) == Replayed(n, now, env)
  {
    var wal := Parse(n.disk.wal.value, env.crc);
    P.WholeAppend(n.disk.wal.value, n.disk.pending, env.crc);
    assert (wal + n.disk.pending) + [] == wal + n.disk.pending;
  }

  lemma PeerEntryReplays(n: Node, peers: map<Id, PeerInfo>, f: Frame, now: nat, env: Env)
    requires n.disk.wal.Some? && f.ty != TYPE_RECORD
    ensures Replayed(n.(disk := n.disk.(peers := peers, pending := n.disk.pending + [f])), now, env) == Replayed(n, now, env)
  {
    var wal := Parse(n.disk.wal.value, env.crc);
    assert wal + (n.disk.pending + [f]) == (wal + n.disk.pending) + [f];
    OthersInvisible(wal + n.disk.pending, f, P.RecordFrames(n.store.pendingWal), now, env);
  }

  lemma PeerStepKeeps(n: Node, p: P.Step, now: nat, env: Env)
    requires Inv(n, now, env) && env.Faithful() && Allowed(n, Peer(p), env) && !p.DoCompact?
    ensures Inv(Next(n, Peer(p), env), now, env)
    ensures Replayed(Next(n, Peer(p), env), now, env) == Replayed(n, now, env)
  {
    P.NextKeepsInv(n.disk, p, env.text, env.crc);
    if p.DoFlush? {
      FlushReplays(n, now, env);
    } else if p.DoUpsert? {
      PeerEntryReplays(n, n.disk.peers[p.info.id := p.info], P.UpsertFrame(p.info, env.text), now, env);
    } else {
      PeerEntryReplays(n, n.disk.peers - {p.id}, P.TombstoneFrame(p.id), now, env);
    }
  }

  lemma {:induction false} AppendsKeepInv(disk: P.PeerState, payloads: seq<seq<Byte>>, env: Env)
    requires P.Inv(disk, env.text, env.crc) && disk.wal.Some? && AllFit(P.RecordFrames(payloads)) && env.Faithful()
    ensures P.Inv(disk.(pending := disk.pending + P.RecordFrames(payloads)), env.text, env.crc)
  {
    if payloads == [] {
      assert disk.pending + P.RecordFrames(payloads) == disk.pending;
    } else {
      var k := |payloads| - 1;
      var init, last := payloads[..k], payloads[k];
      assert P.RecordFrames(payloads) == P.RecordFrames(init) + [Frame(TYPE_RECORD, last)];
      assert P.RecordFrames(payloads)[k].Fits();
      AppendsKeepInv(disk, init, env);
      var mid := disk.(pending := disk.pending + P.RecordFrames(init));
      P.NextKeepsInv(mid, P.DoAppend(last), env.text, env.crc);
      assert mid.pending + [Frame(TYPE_RECORD, last)] == disk.pending + P.RecordFrames(payloads);
    }
  }

  lemma FlushWalKeeps(n: Node, now: nat, env: Env)
    requires Inv(n, now, env) && env.Faithful()
    ensures Inv(MoveQueued(n), now, env) && Replayed(MoveQueued(n), now, env) == Replayed(n, now, env)
  {
    AppendsKeepInv(n.disk, n.store.pendingWal, env);
    var wal, queued := Parse(n.disk.wal.value, env.crc), P.RecordFrames(n.store.pendingWal);
    assert P.RecordFrames([]) == [];
    assert (wal + (n.disk.pending + queued)) + [] == (wal + n.disk.pending) + queued;
  }

  /** The same log replayed at two times gives the same records, apart from the arrival times. */
  lemma {:induction false} ReplayAnyTime(fs: seq<Frame>, t: nat, now: nat, env: Env)
    ensures SameRecords(ReplayRecords(map[], fs, t, env), ReplayRecords(map[], fs, now, env))
  {
    if fs != [] {
      ReplayAnyTime(fs[..|fs| - 1], t, now, env);
    }
  }

  lemma {:induction false} ReplayedSound(fs: seq<Frame>, t: nat, env: Env)
    ensures forall k :: k in ReplayRecords(map[], fs, t, env) ==>
                          var rec := ReplayRecords(map[], fs, t, env)[k];
                          rec.key == k && env.crypto.Authentic(rec) && rec.storedUnix == t && rec.ttlSecs > 0
  {
    if fs != [] {
      ReplayedSound(fs[..|fs| - 1], t, env);
    }
  }

  lemma OpenedLog(snapshot: seq<Byte>, wal: seq<Byte>, at: nat, env: Env)
    ensures Log(Opened(snapshot, wal, at, env), env) == Parse(wal, env.crc)
  {
    assert P.RecordFrames([]) == [];
  }

  /** A restart loses what was not written, in memory and log alike, and revives nothing that is not logged. */
  lemma RestartKeeps(n: Node, at: nat, now: nat, env: Env)
    requires Inv(n, now, env)
    ensures Inv(Next(n, Restart(at), env), now, env) && NoExtra(Next(n, Restart(at), env), now, env)
  {
    var n', fs := Next(n, Restart(at), env), Parse(n.disk.wal.value, env.crc);
    P.ReopenKeepsInv(n.disk, env.text, env.crc);
    OpenedLog(n.disk.snapshot, n.disk.wal.value, at, env);
    ReplayAnyTime(fs, at, now, env);
    ReplayAnyTime(fs, now, at, env);
    ReplayedSound(fs, at, env);
    assert P.RecordFrames(n'.store.pendingWal) == [];
  }

  lemma NextKeeps(n: Node, step: Step, now: nat, env: Env)
    requires Inv(n, now, env) && env.Faithful() && Allowed(n, step, env) && !(step.Peer? && step.p.DoCompact?)
    ensures Inv(Next(n, step, env), now, env)
    ensures step.Restart? || (!Collects(step) && NoExtra(n, now, env)) ==> NoExtra(Next(n, step, env), now, env)
  {
    match step
    case Rec(s) => StoreStepKeeps(n, s, now, env);
    case Peer(p) => PeerStepKeeps(n, p, now, env);
    case FlushWal => FlushWalKeeps(n, now, env);
    case Restart(at) => RestartKeeps(n, at, now, env);
  }

  lemma {:induction false} ReachesKeeps(n: Node, steps: seq<Step>, t: Node, before: bool, now: nat, env: Env)
    requires Inv(n, now, env) && env.Faithful() && Reaches(n, steps, t, env) && NoCompaction(steps)
    requires !before ==> NoExtra(n, now, env)
    ensures Inv(t, now, env) && (!CollectedSinceRestart(steps, before) ==> NoExtra(t, now, env))
    decreases |steps|
  {
    if steps != [] {
      NextKeeps(n, steps[0], now, env);
      assert forall i :: 0 <= i < |steps| - 1 ==> steps[1..][i] == steps[i + 1];
      ReachesKeeps(Next(n, steps[0], env), steps[1..], t, !steps[0].Restart? && (before || Collects(steps[0])), now, env);
    }
  }

  lemma FreshHasInv(now: nat, env: Env)
    ensures Inv(Fresh, now, env) && NoExtra(Fresh, now, env)
  {
    P.FreshHasInv(env.text, env.crc);
    assert Parse([], env.crc) == [];
    assert P.RecordFrames([]) == [];
    assert Log(Fresh, env) == [];
  }

  // ---------------------------------------------------------------- results

  /** The same keys with the same content. */
  ghost predicate SameRecords(a: map<Id, StoredRecord>, b: map<Id, StoredRecord>)
  {
    a.Keys == b.Keys && forall k :: k in a ==> a[k].SameContent(b[k])
  }

  ghost predicate Written(n: Node)
  {
    n.store.pendingWal == [] && n.disk.pending == []
  }

  lemma WrittenLog(n: Node, env: Env)
    requires Written(n) && n.disk.wal.Some?
    ensures Log(n, env) == Parse(n.disk.wal.value, env.crc)
  {
    assert P.RecordFrames([]) == [];
  }

  /** A restart after everything was written brings back every live record with a nonzero TTL and the
      peer index, whatever puts, collections, peer changes and restarts went before. */
  lemma LiveRecordsSurvive(steps: seq<Step>, n: Node, now: nat, env: Env, key: Id)
    requires env.Faithful() && Reaches(Fresh, steps, n, env) && Written(n) && NoCompaction(steps)
    requires key in n.store.records && n.store.records[key].ttlSecs > 0
    ensures n.disk.wal.Some?
    ensures var got := RecoverRecords(n.disk.wal.value, now, env);
            key in got && got[key].SameContent(n.store.records[key])
    ensures P.SameIndex(P.Recover(n.disk.snapshot, n.disk.wal.value, env.text, env.crc), n.disk.peers) <==> P.AllRestored(n.disk.peers)
  {
    FreshHasInv(now, env);
    ReachesKeeps(Fresh, steps, n, false, now, env);
    WrittenLog(n, env);
    P.RebuiltIndex(n.disk, n.disk.snapshot, n.disk.wal.value, [], env.text, env.crc);
  }

  /** With no collection since the last restart, unchecked last-wins replay gives exactly the checked
      live map, up to arrival times, if and only if no live record has TTL zero. */
  lemma RestartIsExactIffTtlPositive(steps: seq<Step>, n: Node, now: nat, env: Env)
    requires env.Faithful() && Reaches(Fresh, steps, n, env) && Written(n) && NoCompaction(steps) && !CollectedSinceRestart(steps, false)
    ensures n.disk.wal.Some?
    ensures SameRecords(RecoverRecords(n.disk.wal.value, now, env), n.store.records) <==>
            forall k :: k in n.store.records ==> n.store.records[k].ttlSecs > 0
  {
    FreshHasInv(now, env);
    ReachesKeeps(Fresh, steps, n, false, now, env);
    WrittenLog(n, env);
    ReplayedSound(Parse(n.disk.wal.value, env.crc), now, env);
    var got := RecoverRecords(n.disk.wal.value, now, env);
    if SameRecords(got, n.store.records) {
      forall k | k in n.store.records ensures n.store.records[k].ttlSecs > 0 {
        assert k in got && got[k].SameContent(n.store.records[k]);
      }
    }
  }

  /** The input that fails: one record with TTL zero is put and written out. The restart does not bring
      back its content. */
  lemma ZeroTtlNotRecovered(rec: StoredRecord, now: nat, env: Env)
    requires env.Faithful() && S.Deliverable(rec, rec.key, env.crypto) && rec.ttlSecs == 0 && |env.pb.encode(rec.ToWire())| < WORD
    ensures var n := Next(Next(Next(Fresh, Rec(S.DoPut(rec, false)), env), FlushWal, env), Peer(P.DoFlush), env);
            && Written(n) && n.store.records == map[rec.key := rec] && n.disk.wal.Some?
            && !SameRecords(RecoverRecords(n.disk.wal.value, now, env), n.store.records)
  {
    var n1 := Next(Fresh, Rec(S.DoPut(rec, false)), env);
    var n2 := Next(n1, FlushWal, env);
    var n3 := Next(n2, Peer(P.DoFlush), env);
    FreshHasInv(now, env);
    NextKeeps(Fresh, Rec(S.DoPut(rec, false)), now, env);
    NextKeeps(n1, FlushWal, now, env);
    NextKeeps(n2, Peer(P.DoFlush), now, env);
    S.DeliverOne(S.Empty, rec, rec.key, env.crypto, env.pb);
    ReplayedSound(Parse(n3.disk.wal.value, env.crc), now, env);
    var got := RecoverRecords(n3.disk.wal.value, now, env);
    assert rec.key in got ==> got[rec.key].ttlSecs > 0;
  }

  // ---------------------------------------------------------------- what is served before and after

  /** The content a query at `q` is answered with. */
  function Served(s: S.StoreState, key: Id, q: nat): Option<WireRecord>
  {
    var r := S.Get(s, key, q);
    if r.None? then None else Some(r.value.ToWire())
  }

  /** A cached copy that can still be served. */
  function LiveCopy(s: S.StoreState, key: Id, q: nat): Option<WireRecord>
  {
    if key in s.cache && !s.cache[key].Expired(q) then Some(s.cache[key].ToWire()) else None
  }

  /** A restart at `t` starts the time to live of every record anew: it is served up to `t` plus its TTL. */
  lemma RestartRenewsTtl(steps: seq<Step>, n: Node, t: nat, q: nat, env: Env, key: Id)
    requires env.Faithful() && Reaches(Fresh, steps, n, env) && Written(n) && NoCompaction(steps)
    requires key in n.store.records && n.store.records[key].ttlSecs > 0 && n.store.records[key].kind != KIND_TOMBSTONE && t <= q
    ensures n.disk.wal.Some?
    ensures Served(Opened(n.disk.snapshot, n.disk.wal.value, t, env).store, key, q)
         == if q - t <= n.store.records[key].ttlSecs then Some(n.store.records[key].ToWire()) else None
  {
    LiveRecordsSurvive(steps, n, t, env, key);
    ReplayedSound(Parse(n.disk.wal.value, env.crc), t, env);
  }

  /** So the answers before and after agree if and only if the record had not expired, or the cache
      happens to answer what the renewed record (or its absence) does. */
  lemma AnswersAgreeIff(steps: seq<Step>, n: Node, t: nat, q: nat, env: Env, key: Id)
    requires env.Faithful() && Reaches(Fresh, steps, n, env) && Written(n) && NoCompaction(steps)
    requires key in n.store.records && n.store.records[key].ttlSecs > 0 && n.store.records[key].kind != KIND_TOMBSTONE
    requires n.store.records[key].storedUnix <= t <= q
    ensures n.disk.wal.Some?
    ensures var rec := n.store.records[key];
            Served(Opened(n.disk.snapshot, n.disk.wal.value, t, env).store, key, q) == Served(n.store, key, q) <==>
            || !rec.Expired(q)
            || LiveCopy(n.store, key, q) == (if q - t <= rec.ttlSecs then Some(rec.ToWire()) else None)
  {
    RestartRenewsTtl(steps, n, t, q, env, key);
  }

  lemma NextKeepsStoreInv(n: Node, step: Step, env: Env)
    requires S.Inv(n.store, env.crypto) && Allowed(n, step, env)
    ensures S.Inv(Next(n, step, env).store, env.crypto)
  {
    match step
    case Rec(s) => S.NextKeepsInv(n.store, s, env.crypto, env.pb);
    case Peer(p) =>
    case FlushWal =>
    case Restart(at) => ReplayedSound(Parse(n.disk.wal.value, env.crc), at, env);
  }

  lemma {:induction false} ReachesKeepsStoreInv(n: Node, steps: seq<Step>, t: Node, env: Env)
    requires S.Inv(n.store, env.crypto) && Reaches(n, steps, t, env)
    ensures S.Inv(t.store, env.crypto)
    decreases |steps|
  {
    if steps != [] {
      NextKeepsStoreInv(n, steps[0], env);
      ReachesKeepsStoreInv(Next(n, steps[0], env), steps[1..], t, env);
    }
  }

  /** Opened on any files whatever, and after any run with restarts and compactions, what `get` returns is
      authentic, unexpired, not a tombstone, and filed under its key. */
  lemma GetStaysSound(snapshot: seq<Byte>, wal: seq<Byte>, at: nat, steps: seq<Step>, n: Node, env: Env, key: Id, now: nat)
    requires Reaches(Opened(snapshot, wal, at, env), steps, n, env) && S.Get(n.store, key, now).Some?
    ensures var r := S.Get(n.store, key, now).value;
            && r.key == key && env.crypto.Authentic(r) && !r.Expired(now) && r.kind < 3
            && (r.kind == 0 ==> env.crypto.hash(r.value) == key)
            && (r.kind == 1 ==>
                  && env.crypto.mutableKey(r.owner, r.namespace, r.salt) == key
                  && env.crypto.verify(r.owner, key, r.value, r.sequence, r.ttlSecs, r.notBeforeUnix, r.signature))
  {
    ReplayedSound(Parse(wal, env.crc), at, env);
    ReachesKeepsStoreInv(Opened(snapshot, wal, at, env), steps, n, env);
    AuthenticMeans(env.crypto, S.Get(n.store, key, now).value);
  }

  /** A sequence that was stale before the restart is still refused after it. */
  lemma StaleStaysRefused(steps: seq<Step>, n: Node, now: nat, env: Env, rec: StoredRecord)
    requires env.Faithful() && Reaches(Fresh, steps, n, env) && Written(n) && NoCompaction(steps)
    requires rec.key in n.store.records && n.store.records[rec.key].ttlSecs > 0
    requires S.Refusal(n.store, rec, env.crypto) == Some(S.StaleSequence)
    ensures n.disk.wal.Some?
    ensures S.Refusal(Opened(n.disk.snapshot, n.disk.wal.value, now, env).store, rec, env.crypto)
         == Some(S.StaleSequence)
  {
    LiveRecordsSurvive(steps, n, now, env, rec.key);
  }

  /** A crash while the log is being written recovers the records of a prefix of it. */
  lemma CrashWhileWriting(steps: seq<Step>, n: Node, cut: nat, now: nat, env: Env)
    requires env.Faithful() && Reaches(Fresh, steps, n, env) && NoCompaction(steps) && cut <= |EncodeAll(n.disk.pending, env.crc)|
    ensures n.disk.wal.Some? && WholeFrames(n.disk.pending, cut) <= |n.disk.pending|
    ensures RecoverRecords(n.disk.wal.value + EncodeAll(n.disk.pending, env.crc)[..cut], now, env)
         == ReplayRecords(RecoverRecords(n.disk.wal.value, now, env), n.disk.pending[..WholeFrames(n.disk.pending, cut)], now, env)
  {
    FreshHasInv(now, env);
    ReachesKeeps(Fresh, steps, n, false, now, env);
    var wal := Parse(n.disk.wal.value, env.crc);
    ParseAppended(wal, EncodeAll(n.disk.pending, env.crc)[..cut], env.crc);
    TornTail(n.disk.pending, cut, env.crc);
    ReplayRecordsAppend(map[], wal, n.disk.pending[..WholeFrames(n.disk.pending, cut)], now, env);
  }

  /** Compaction moves the records to the snapshot, which the record store never reads: a restart
      right after it brings back the live records exactly if there are none. */
  lemma CompactionForgetsRecords(n: Node, ids: seq<Id>, records: seq<seq<Byte>>, now: nat, env: Env)
    requires n.disk.wal.Some? && forall id :: id in ids ==> id in n.disk.peers
    ensures var disk := P.Compact(n.disk, ids, records, env.text, env.crc);
            && disk.wal.Some?
            && (SameRecords(RecoverRecords(disk.wal.value, now, env), n.store.records) <==> n.store.records == map[])
  {
    assert Parse([], env.crc) == [];
    assert RecoverRecords([], now, env) == map[];
  }
}
