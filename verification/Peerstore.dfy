/** The peer index and its log (`src/peerstore.rs`): in-memory peers, operations waiting to be
    written, the log file and the snapshot file. */
module Peerstores {
  import opened Xor
  import opened Peers
  import opened Framing

  /** Socket addresses as text. */
  datatype AddrText = AddrText(show: SocketAddr -> seq<Byte>, parse: seq<Byte> -> Option<SocketAddr>)
  {
    /** Printed addresses parse back and are short; the empty text is no address. */
    ghost predicate Faithful()
    {
      && (forall a: SocketAddr :: parse(show(a)) == Some(a) && |show(a)| < WORD - ID_LEN)
      && parse([]) == None
    }
  }

  /** `wal` is absent for a store kept in memory only. An absent snapshot is an empty one. */
  datatype PeerState = PeerState(
    peers: map<Id, PeerInfo>,
    pending: seq<Frame>,
    wal: Option<seq<Byte>>,
    snapshot: seq<Byte>)

  // ---------------------------------------------------------------- frames and replay

  function UpsertFrame(info: PeerInfo, text: AddrText): Frame
  {
    Frame(TYPE_UPSERT, info.id + if info.addrs == [] then [] else text.show(info.addrs[0]))
  }

  function TombstoneFrame(id: Id): Frame
  {
    Frame(TYPE_TOMBSTONE, id)
  }

  /** The peer restored from a log entry has one address and nothing else. */
  function Restored(id: Id, addr: SocketAddr): PeerInfo
  {
    PeerInfo(id, [addr], 0, None)
  }

  function ApplyFrame(m: map<Id, PeerInfo>, f: Frame, text: AddrText): map<Id, PeerInfo>
  {
    if f.ty == TYPE_UPSERT && |f.payload| >= ID_LEN then
      var id: Id := f.payload[..ID_LEN];
      var addr := text.parse(f.payload[ID_LEN..]);
      if addr.Some? then m[id := Restored(id, addr.value)] else m
    else if f.ty == TYPE_TOMBSTONE && |f.payload| == ID_LEN then m - {f.payload}
    else m
  }

  function Replay(m: map<Id, PeerInfo>, fs: seq<Frame>, text: AddrText): map<Id, PeerInfo>
  {
    if fs == [] then m else ApplyFrame(Replay(m, fs[..|fs| - 1], text), fs[|fs| - 1], text)
  }

  /** What opening the directory reads back: the snapshot, then the log over it. */
  function Recover(snapshot: seq<Byte>, wal: seq<Byte>, text: AddrText, crc: Crc): map<Id, PeerInfo>
  {
    Replay(Replay(map[], Parse(snapshot, crc), text), Parse(wal, crc), text)
  }

  // ---------------------------------------------------------------- operations as functions

  function Upsert(s: PeerState, info: PeerInfo, text: AddrText): PeerState
  {
    s.(peers := s.peers[info.id := info], pending := s.pending + [UpsertFrame(info, text)])
  }

  function Remove(s: PeerState, id: Id): PeerState
  {
    s.(peers := s.peers - {id}, pending := s.pending + [TombstoneFrame(id)])
  }

  function Append(s: PeerState, payload: seq<Byte>): PeerState
  {
    s.(pending := s.pending + [Frame(TYPE_RECORD, payload)])
  }

  function Flush(s: PeerState, crc: Crc): PeerState
  {
    if s.wal.None? then s.(pending := [])
    else s.(pending := [], wal := Some(s.wal.value + EncodeAll(s.pending, crc)))
  }

  /** The peers, walked in the order `ids`, as snapshot entries. */
  function SnapshotFrames(peers: map<Id, PeerInfo>, ids: seq<Id>, text: AddrText): seq<Frame>
    requires forall id :: id in ids ==> id in peers
  {
    if ids == [] then []
    else SnapshotFrames(peers, ids[..|ids| - 1], text) + [UpsertFrame(peers[ids[|ids| - 1]], text)]
  }

  function RecordFrames(records: seq<seq<Byte>>): (fs: seq<Frame>)
    ensures |fs| == |records| && forall i :: 0 <= i < |fs| ==> fs[i] == Frame(TYPE_RECORD, records[i])
  {
    seq(|records|, i requires 0 <= i < |records| => Frame(TYPE_RECORD, records[i]))
  }

  function SnapshotBytes(peers: map<Id, PeerInfo>, ids: seq<Id>, records: seq<seq<Byte>>, text: AddrText, crc: Crc): seq<Byte>
    requires forall id :: id in ids ==> id in peers
  {
    EncodeAll(SnapshotFrames(peers, ids, text) + RecordFrames(records), crc)
  }

  /** Compaction: the new snapshot replaces the old one, then the log is emptied. Operations still
      waiting stay where they are. */
  function Compact(s: PeerState, ids: seq<Id>, records: seq<seq<Byte>>, text: AddrText, crc: Crc): PeerState
    requires forall id :: id in ids ==> id in s.peers
  {
    if s.wal.None? then s
    else s.(snapshot := SnapshotBytes(s.peers, ids, records, text, crc), wal := Some([]))
  }

  /** The loop that writes frames one after the other to the end of a file. */
  method WriteFrames(file: seq<Byte>, fs: seq<Frame>, crc: Crc) returns (out: seq<Byte>)
    ensures out == file + EncodeAll(fs, crc)
  {
    out := file;
    var i := 0;
    while i < |fs|
      invariant 0 <= i <= |fs|
      invariant out + EncodeAll(fs[i..], crc) == file + EncodeAll(fs, crc)
    {
      var e := Encode(fs[i], crc);
      ghost var rest := EncodeAll(fs[i + 1..], crc);
      assert fs[i..][1..] == fs[i + 1..];
      assert out + (e + rest) == (out + e) + rest;
      out := out + e;
      i := i + 1;
    }
    assert out + [] == out;
  }

  /** The store found after a stop between two operations: operations still waiting are gone. */
  function Reopen(snapshot: seq<Byte>, wal: seq<Byte>, text: AddrText, crc: Crc): PeerState
  {
    PeerState(Recover(snapshot, wal, text, crc), [], Some(wal), snapshot)
  }

  // ---------------------------------------------------------------- the object

  class Peerstore {
    var peers: map<Id, PeerInfo>
    var pending: seq<Frame>
    var wal: Option<seq<Byte>>
    var snapshot: seq<Byte>

    function State(): PeerState
      reads this
    {
      PeerState(peers, pending, wal, snapshot)
    }

    /** A store over the two files as found on disk. */
    constructor Open(snapshot: seq<Byte>, wal: seq<Byte>, text: AddrText, crc: Crc)
      ensures State() == Reopen(snapshot, wal, text, crc)
    {
      peers, pending, this.wal, this.snapshot := map[], [], Some(wal), snapshot;
      new;
      ReplayFile(snapshot, text, crc);
      ReplayFile(wal, text, crc);
    }

    constructor Memory()
      ensures State() == PeerState(map[], [], None, [])
    {
      peers, pending, wal, snapshot := map[], [], None, [];
    }

    method ReplayFile(b: seq<Byte>, text: AddrText, crc: Crc)
      modifies this
      ensures State() == old(State()).(peers := Replay(old(peers), Parse(b, crc), text))
    {
      var fs := ReplayFrames(b, crc);
      var i := 0;
      while i < |fs|
        invariant 0 <= i <= |fs|
        invariant State() == old(State()).(peers := Replay(old(peers), fs[..i], text))
      {
        assert fs[..i + 1][..i] == fs[..i];
        peers := ApplyFrame(peers, fs[i], text);
        i := i + 1;
      }
      assert fs[..i] == fs;
    }

    method UpsertPeer(info: PeerInfo, text: AddrText)
      modifies this
      ensures State() == Upsert(old(State()), info, text)
    {
      peers := peers[info.id := info];
      var payload: seq<Byte> := info.id;
      if info.PrimaryAddr().Some? {
        payload := payload + text.show(info.PrimaryAddr().value);
      } else {
        assert payload == info.id + [];
      }
      pending := pending + [Frame(TYPE_UPSERT, payload)];
    }

    method RemovePeer(id: Id)
      modifies this
      ensures State() == Remove(old(State()), id)
    {
      peers := peers - {id};
      pending := pending + [Frame(TYPE_TOMBSTONE, id)];
    }

    method AppendRecord(payload: seq<Byte>)
      modifies this
      ensures State() == Append(old(State()), payload)
    {
      pending := pending + [Frame(TYPE_RECORD, payload)];
    }

    method FlushPending(crc: Crc)
      modifies this
      ensures State() == Flush(old(State()), crc)
    {
      if wal.None? {
        pending := [];
        return;
      }
      var out := WriteFrames(wal.value, pending, crc);
      wal, pending := Some(out), [];
    }

    method CompactFiles(ids: seq<Id>, records: seq<seq<Byte>>, text: AddrText, crc: Crc)
      requires forall id :: id in ids ==> id in peers
      modifies this
      ensures State() == Compact(old(State()), ids, records, text, crc)
    {
      if wal.None? {
        return;
      }
      var fs: seq<Frame>, i := [], 0;
      while i < |ids|
        invariant 0 <= i <= |ids|
        invariant State() == old(State())
        invariant fs == SnapshotFrames(peers, ids[..i], text)
      {
        assert ids[..i + 1][..i] == ids[..i];
        fs := fs + [UpsertFrame(peers[ids[i]], text)];
        i := i + 1;
      }
      assert ids[..i] == ids;
      var tmp := WriteFrames([], fs + RecordFrames(records), crc);
      snapshot := tmp;
      wal := Some([]);
    }
  }

  // ---------------------------------------------------------------- replay seen at one id

  /** What a peer map says about one id. */
  function AddrAt(m: map<Id, PeerInfo>, id: Id): Option<SocketAddr>
  {
    if id in m then m[id].PrimaryAddr() else None
  }

  function TouchAt(f: Frame, id: Id, v: Option<SocketAddr>, text: AddrText): Option<SocketAddr>
  {
    if f.ty == TYPE_UPSERT && |f.payload| >= ID_LEN && f.payload[..ID_LEN] == id && text.parse(f.payload[ID_LEN..]).Some?
    then text.parse(f.payload[ID_LEN..])
    else if f.ty == TYPE_TOMBSTONE && f.payload == id then None
    else v
  }

  function ReplayAt(fs: seq<Frame>, id: Id, v: Option<SocketAddr>, text: AddrText): Option<SocketAddr>
  {
    if fs == [] then v else TouchAt(fs[|fs| - 1], id, ReplayAt(fs[..|fs| - 1], id, v, text), text)
  }

  lemma {:induction false} ReplayPointwise(m: map<Id, PeerInfo>, fs: seq<Frame>, id: Id, text: AddrText)
    ensures AddrAt(Replay(m, fs, text), id) == ReplayAt(fs, id, AddrAt(m, id), text)
  {
    if fs != [] {
      ReplayPointwise(m, fs[..|fs| - 1], id, text);
    }
  }

  lemma {:induction false} ReplayAtAppend(fs: seq<Frame>, gs: seq<Frame>, id: Id, v: Option<SocketAddr>, text: AddrText)
    ensures ReplayAt(fs + gs, id, v, text) == ReplayAt(gs, id, ReplayAt(fs, id, v, text), text)
  {
    if gs == [] {
      assert fs + gs == fs;
    } else {
      var n := |gs| - 1;
      assert (fs + gs)[..|fs + gs| - 1] == fs + gs[..n];
      ReplayAtAppend(fs, gs[..n], id, v, text);
    }
  }

  ghost predicate AllRestored(m: map<Id, PeerInfo>)
  {
    forall id :: id in m ==> m[id].addrs != []
  }

  lemma {:induction false} ReplayRestores(m: map<Id, PeerInfo>, fs: seq<Frame>, text: AddrText)
    requires AllRestored(m)
    ensures AllRestored(Replay(m, fs, text))
  {
    if fs != [] {
      ReplayRestores(m, fs[..|fs| - 1], text);
    }
  }

  // ---------------------------------------------------------------- the invariant

  /** A recovered value agrees with memory: right where memory has an address, absent where memory
      has no peer. Where memory has a peer without an address the log cannot say. */
  predicate Agrees(peers: map<Id, PeerInfo>, id: Id, v: Option<SocketAddr>)
  {
    && (id in peers && peers[id].addrs != [] ==> v == Some(peers[id].addrs[0]))
    && (id !in peers ==> v == None)
  }

  /** Replaying `fs` over anything that agrees with memory still agrees: replay is idempotent. */
  ghost predicate Settled(peers: map<Id, PeerInfo>, fs: seq<Frame>, text: AddrText)
  {
    forall id: Id, v :: Agrees(peers, id, v) ==> Agrees(peers, id, ReplayAt(fs, id, v, text))
  }

  ghost predicate Rebuilds(peers: map<Id, PeerInfo>, fs: seq<Frame>, text: AddrText)
  {
    forall id: Id :: Agrees(peers, id, ReplayAt(fs, id, None, text))
  }

  /** The bytes are a sequence of whole frames. */
  ghost predicate Whole(b: seq<Byte>, crc: Crc)
  {
    AllFit(Parse(b, crc)) && EncodeAll(Parse(b, crc), crc) == b
  }

  ghost predicate Inv(s: PeerState, text: AddrText, crc: Crc)
  {
    && (forall id :: id in s.peers ==> s.peers[id].id == id)
    && AllFit(s.pending)
    && (s.wal.Some? ==>
          && Whole(s.wal.value, crc) && Whole(s.snapshot, crc)
          && Settled(s.peers, s.pending, text)
          && Settled(s.peers, Parse(s.wal.value, crc) + s.pending, text)
          && Rebuilds(s.peers, Parse(s.snapshot, crc) + (Parse(s.wal.value, crc) + s.pending), text))
  }

  /** `f` is a log entry for the change from `old'` to `peers`. */
  ghost predicate Logs(f: Frame, old': map<Id, PeerInfo>, peers: map<Id, PeerInfo>, text: AddrText)
  {
    forall id: Id :: LogsAt(f, id, old', peers, text)
  }

  /** Either the entry settles the id, or it says nothing about it and nothing changed there. */
  ghost predicate LogsAt(f: Frame, id: Id, old': map<Id, PeerInfo>, peers: map<Id, PeerInfo>, text: AddrText)
  {
    || (forall v :: Agrees(peers, id, TouchAt(f, id, v, text)))
    || ((forall v :: TouchAt(f, id, v, text) == v) && (forall v :: Agrees(old', id, v) <==> Agrees(peers, id, v)))
  }

  lemma UpsertLogs(peers: map<Id, PeerInfo>, info: PeerInfo, text: AddrText)
    requires text.Faithful()
    ensures Logs(UpsertFrame(info, text), peers, peers[info.id := info], text)
    ensures UpsertFrame(info, text).Fits()
  {
    UpsertFrameParts(info, text);
  }

  lemma UpsertFrameParts(info: PeerInfo, text: AddrText)
    requires text.Faithful()
    ensures var f := UpsertFrame(info, text);
            && f.Fits() && |f.payload| >= ID_LEN && f.payload[..ID_LEN] == info.id
            && text.parse(f.payload[ID_LEN..]) == if info.addrs == [] then None else Some(info.addrs[0])
  {
    var f := UpsertFrame(info, text);
    assert f.payload[ID_LEN..] == if info.addrs == [] then [] else text.show(info.addrs[0]);
  }

  lemma TombstoneLogs(peers: map<Id, PeerInfo>, id: Id, text: AddrText)
    ensures Logs(TombstoneFrame(id), peers, peers - {id}, text)
  {
  }

  lemma RecordLogs(peers: map<Id, PeerInfo>, payload: seq<Byte>, text: AddrText)
    ensures Logs(Frame(TYPE_RECORD, payload), peers, peers, text)
  {
  }

  lemma LoggedSettles(old': map<Id, PeerInfo>, peers: map<Id, PeerInfo>, fs: seq<Frame>, f: Frame, text: AddrText)
    requires Logs(f, old', peers, text) && Settled(old', fs, text)
    ensures Settled(peers, fs + [f], text)
  {
    assert (fs + [f])[..|fs + [f]| - 1] == fs;
    forall id: Id, v | Agrees(peers, id, v) ensures Agrees(peers, id, ReplayAt(fs + [f], id, v, text)) {
      assert LogsAt(f, id, old', peers, text);
      assert ReplayAt(fs + [f], id, v, text) == TouchAt(f, id, ReplayAt(fs, id, v, text), text);
    }
  }

  lemma LoggedRebuilds(old': map<Id, PeerInfo>, peers: map<Id, PeerInfo>, fs: seq<Frame>, f: Frame, text: AddrText)
    requires Logs(f, old', peers, text) && Rebuilds(old', fs, text)
    ensures Rebuilds(peers, fs + [f], text)
  {
    assert (fs + [f])[..|fs + [f]| - 1] == fs;
    forall id: Id ensures Agrees(peers, id, ReplayAt(fs + [f], id, None, text)) {
      assert LogsAt(f, id, old', peers, text);
      assert ReplayAt(fs + [f], id, None, text) == TouchAt(f, id, ReplayAt(fs, id, None, text), text);
    }
  }

  // ---------------------------------------------------------------- runs

  datatype Step =
    | DoUpsert(info: PeerInfo)
    | DoRemove(id: Id)
    | DoAppend(payload: seq<Byte>)
    | DoFlush
    | DoCompact(ids: seq<Id>, records: seq<seq<Byte>>)
    | DoReopen

  /** Payloads fit the length field, and compaction walks every peer (in any order). */
  ghost predicate Allowed(s: PeerState, step: Step)
  {
    match step
    case DoAppend(payload) => |payload| < WORD
    case DoCompact(ids, records) =>
      (forall id :: id in ids <==> id in s.peers) && forall i :: 0 <= i < |records| ==> |records[i]| < WORD
    case _ => true
  }

  ghost function Next(s: PeerState, step: Step, text: AddrText, crc: Crc): PeerState
    requires Allowed(s, step)
  {
    match step
    case DoUpsert(info) => Upsert(s, info, text)
    case DoRemove(id) => Remove(s, id)
    case DoAppend(payload) => Append(s, payload)
    case DoFlush => Flush(s, crc)
    case DoCompact(ids, records) => Compact(s, ids, records, text, crc)
    case DoReopen => if s.wal.None? then s else Reopen(s.snapshot, s.wal.value, text, crc)
  }

  /** States reachable from an empty directory. */
  ghost predicate Reaches(s: PeerState, steps: seq<Step>, t: PeerState, text: AddrText, crc: Crc)
    decreases |steps|
  {
    if steps == [] then s == t
    else Allowed(s, steps[0]) && Reaches(Next(s, steps[0], text, crc), steps[1..], t, text, crc)
  }

  const Fresh: PeerState := PeerState(map[], [], Some([]), [])

  lemma LoggedKeepsInv(s: PeerState, peers: map<Id, PeerInfo>, f: Frame, text: AddrText, crc: Crc)
    requires Inv(s, text, crc) && s.wal.Some? && f.Fits() && Logs(f, s.peers, peers, text)
    requires forall id :: id in peers ==> peers[id].id == id
    ensures Inv(s.(peers := peers, pending := s.pending + [f]), text, crc)
  {
    var wal, snap := Parse(s.wal.value, crc), Parse(s.snapshot, crc);
    LoggedSettles(s.peers, peers, s.pending, f, text);
    LoggedSettles(s.peers, peers, wal + s.pending, f, text);
    LoggedRebuilds(s.peers, peers, snap + (wal + s.pending), f, text);
    assert (wal + s.pending) + [f] == wal + (s.pending + [f]);
    assert (snap + (wal + s.pending)) + [f] == snap + (wal + (s.pending + [f]));
  }

  lemma WholeAppend(b: seq<Byte>, fs: seq<Frame>, crc: Crc)
    requires Whole(b, crc) && AllFit(fs)
    ensures Whole(b + EncodeAll(fs, crc), crc)
    ensures Parse(b + EncodeAll(fs, crc), crc) == Parse(b, crc) + fs
  {
    var old' := Parse(b, crc);
    EncodeAppend(old', fs, crc);
    ParseUndoesEncode(old' + fs, crc);
  }

  lemma FlushKeepsInv(s: PeerState, text: AddrText, crc: Crc)
    requires Inv(s, text, crc) && s.wal.Some?
    ensures Inv(Flush(s, crc), text, crc)
  {
    WholeAppend(s.wal.value, s.pending, crc);
    var log := Parse(s.wal.value, crc) + s.pending;
    assert log + [] == log;
  }

  lemma TouchByUpsert(info: PeerInfo, id: Id, v: Option<SocketAddr>, text: AddrText)
    requires text.Faithful()
    ensures TouchAt(UpsertFrame(info, text), id, v, text) == if id == info.id && info.addrs != [] then Some(info.addrs[0]) else v
  {
    UpsertFrameParts(info, text);
  }

  lemma {:induction false} SnapshotFits(peers: map<Id, PeerInfo>, ids: seq<Id>, text: AddrText)
    requires text.Faithful() && forall j :: j in ids ==> j in peers
    ensures AllFit(SnapshotFrames(peers, ids, text))
  {
    if ids != [] {
      SnapshotFits(peers, ids[..|ids| - 1], text);
      UpsertFrameParts(peers[ids[|ids| - 1]], text);
    }
  }

  lemma {:induction false} ReplayAtSnoc(fs: seq<Frame>, f: Frame, id: Id, v: Option<SocketAddr>, text: AddrText)
    ensures ReplayAt(fs + [f], id, v, text) == TouchAt(f, id, ReplayAt(fs, id, v, text), text)
  {
    assert (fs + [f])[..|fs + [f]| - 1] == fs;
  }

  lemma {:induction false} SnapshotStep(fs: seq<Frame>, info: PeerInfo, id: Id, text: AddrText)
    requires text.Faithful()
    ensures ReplayAt(fs + [UpsertFrame(info, text)], id, None, text)
         == if id == info.id && info.addrs != [] then Some(info.addrs[0]) else ReplayAt(fs, id, None, text)
  {
    ReplayAtSnoc(fs, UpsertFrame(info, text), id, None, text);
    TouchByUpsert(info, id, ReplayAt(fs, id, None, text), text);
  }

  /** The primary address memory holds for `id`, if it is one of `ids`. */
  function HeldAddr(peers: map<Id, PeerInfo>, ids: seq<Id>, id: Id): Option<SocketAddr>
    requires forall j :: j in ids ==> j in peers
  {
    if id in ids && peers[id].addrs != [] then Some(peers[id].addrs[0]) else None
  }

  lemma HeldSnoc(peers: map<Id, PeerInfo>, ids: seq<Id>, last: Id, id: Id)
    requires (forall j :: j in ids ==> j in peers) && last in peers
    ensures HeldAddr(peers, ids + [last], id)
         == if id == last && peers[last].addrs != [] then Some(peers[last].addrs[0]) else HeldAddr(peers, ids, id)
  {
  }

  /** At each id the snapshot entries say what memory says. */
  lemma {:induction false} SnapshotAt(peers: map<Id, PeerInfo>, ids: seq<Id>, id: Id, text: AddrText)
    requires text.Faithful() && (forall j :: j in ids ==> j in peers) && (forall j :: j in peers ==> peers[j].id == j)
    ensures ReplayAt(SnapshotFrames(peers, ids, text), id, None, text) == HeldAddr(peers, ids, id)
  {
    if ids != [] {
      var n := |ids| - 1;
      var init, last := ids[..n], peers[ids[n]];
      assert last.id == ids[n] && ids == init + [ids[n]];
      SnapshotAt(peers, init, id, text);
      SnapshotStep(SnapshotFrames(peers, init, text), last, id, text);
      HeldSnoc(peers, init, ids[n], id);
    }
  }

  lemma {:induction false} RecordsAt(records: seq<seq<Byte>>, id: Id, v: Option<SocketAddr>, text: AddrText)
    ensures ReplayAt(RecordFrames(records), id, v, text) == v
  {
    if records != [] {
      var n := |records| - 1;
      assert RecordFrames(records)[..n] == RecordFrames(records[..n]);
      RecordsAt(records[..n], id, v, text);
    }
  }

  /** A fresh snapshot rebuilds memory on its own, whatever order it was written in. */
  lemma SnapshotRebuilds(s: PeerState, ids: seq<Id>, records: seq<seq<Byte>>, text: AddrText, crc: Crc)
    requires Inv(s, text, crc) && text.Faithful() && Allowed(s, DoCompact(ids, records))
    ensures var b := SnapshotBytes(s.peers, ids, records, text, crc);
            Whole(b, crc) && Rebuilds(s.peers, Parse(b, crc), text)
  {
    var fs, rs := SnapshotFrames(s.peers, ids, text), RecordFrames(records);
    forall id: Id ensures Agrees(s.peers, id, ReplayAt(fs + rs, id, None, text)) {
      SnapshotAt(s.peers, ids, id, text);
      RecordsAt(records, id, ReplayAt(fs, id, None, text), text);
      ReplayAtAppend(fs, rs, id, None, text);
    }
    SnapshotFits(s.peers, ids, text);
    ParseUndoesEncode(fs + rs, crc);
  }

  lemma RebuildsThenSettles(peers: map<Id, PeerInfo>, fs: seq<Frame>, gs: seq<Frame>, text: AddrText)
    requires Rebuilds(peers, fs, text) && Settled(peers, gs, text)
    ensures Rebuilds(peers, fs + gs, text)
  {
    forall id: Id ensures Agrees(peers, id, ReplayAt(fs + gs, id, None, text)) {
      ReplayAtAppend(fs, gs, id, None, text);
    }
  }

  lemma CompactKeepsInv(s: PeerState, ids: seq<Id>, records: seq<seq<Byte>>, text: AddrText, crc: Crc)
    requires Inv(s, text, crc) && s.wal.Some? && text.Faithful() && Allowed(s, DoCompact(ids, records))
    ensures Inv(Compact(s, ids, records, text, crc), text, crc)
  {
    SnapshotRebuilds(s, ids, records, text, crc);
    var snap := Parse(SnapshotBytes(s.peers, ids, records, text, crc), crc);
    RebuildsThenSettles(s.peers, snap, s.pending, text);
    assert Parse([], crc) == [];
    assert [] + s.pending == s.pending;
  }

  /** A log either leaves an id alone or decides it. */
  lemma {:induction false} LeavesOrDecides(fs: seq<Frame>, id: Id, v: Option<SocketAddr>, w: Option<SocketAddr>, text: AddrText)
    ensures var v', w' := ReplayAt(fs, id, v, text), ReplayAt(fs, id, w, text);
            (v' == v && w' == w) || v' == w'
  {
    if fs != [] {
      LeavesOrDecides(fs[..|fs| - 1], id, v, w, text);
    }
  }

  lemma {:induction false} ReplayKeepsIds(m: map<Id, PeerInfo>, fs: seq<Frame>, text: AddrText)
    requires forall id :: id in m ==> m[id].id == id
    ensures forall id :: id in Replay(m, fs, text) ==> Replay(m, fs, text)[id].id == id
  {
    if fs != [] {
      ReplayKeepsIds(m, fs[..|fs| - 1], text);
    }
  }

  lemma ReopenKeepsInv(s: PeerState, text: AddrText, crc: Crc)
    requires Inv(s, text, crc) && s.wal.Some?
    ensures Inv(Reopen(s.snapshot, s.wal.value, text, crc), text, crc)
  {
    var peers := Recover(s.snapshot, s.wal.value, text, crc);
    var snap, wal := Parse(s.snapshot, crc), Parse(s.wal.value, crc);
    ReplayKeepsIds(map[], snap, text);
    ReplayKeepsIds(Replay(map[], snap, text), wal, text);
    RecoverRestores(s.snapshot, s.wal.value, [], text, crc);
    assert wal + [] == wal;
    forall id: Id ensures Agrees(peers, id, ReplayAt(snap + wal, id, None, text)) {
      RecoveredAt(s.snapshot, s.wal.value, [], id, text, crc);
    }
    forall id: Id, v | Agrees(peers, id, v) ensures Agrees(peers, id, ReplayAt(wal, id, v, text)) {
      RecoveredAt(s.snapshot, s.wal.value, [], id, text, crc);
      ReplayAtAppend(snap, wal, id, None, text);
      LeavesOrDecides(wal, id, ReplayAt(snap, id, None, text), v, text);
    }
  }

  lemma NextKeepsInv(s: PeerState, step: Step, text: AddrText, crc: Crc)
    requires Inv(s, text, crc) && s.wal.Some? && text.Faithful() && Allowed(s, step)
    ensures Inv(Next(s, step, text, crc), text, crc) && Next(s, step, text, crc).wal.Some?
  {
    match step
    case DoUpsert(info) =>
      UpsertLogs(s.peers, info, text);
      LoggedKeepsInv(s, s.peers[info.id := info], UpsertFrame(info, text), text, crc);
    case DoRemove(id) =>
      TombstoneLogs(s.peers, id, text);
      LoggedKeepsInv(s, s.peers - {id}, TombstoneFrame(id), text, crc);
    case DoAppend(payload) =>
      RecordLogs(s.peers, payload, text);
      LoggedKeepsInv(s, s.peers, Frame(TYPE_RECORD, payload), text, crc);
    case DoFlush => FlushKeepsInv(s, text, crc);
    case DoCompact(ids, records) => CompactKeepsInv(s, ids, records, text, crc);
    case DoReopen => ReopenKeepsInv(s, text, crc);
  }

  lemma {:induction false} ReachesKeepsInv(s: PeerState, steps: seq<Step>, t: PeerState, text: AddrText, crc: Crc)
    requires Inv(s, text, crc) && s.wal.Some? && text.Faithful() && Reaches(s, steps, t, text, crc)
    ensures Inv(t, text, crc) && t.wal.Some?
    decreases |steps|
  {
    if steps != [] {
      NextKeepsInv(s, steps[0], text, crc);
      ReachesKeepsInv(Next(s, steps[0], text, crc), steps[1..], t, text, crc);
    }
  }

  lemma FreshHasInv(text: AddrText, crc: Crc)
    ensures Inv(Fresh, text, crc)
  {
    assert Parse([], crc) == [];
    assert EncodeAll([], crc) == [];
  }

  // ---------------------------------------------------------------- results

  /** The same ids, each with the same primary address. */
  ghost predicate SameIndex(a: map<Id, PeerInfo>, b: map<Id, PeerInfo>)
  {
    a.Keys == b.Keys && forall id :: id in a ==> a[id].PrimaryAddr() == b[id].PrimaryAddr()
  }

  lemma AgreementIsSameIndex(peers: map<Id, PeerInfo>, got: map<Id, PeerInfo>)
    requires AllRestored(got) && forall id: Id :: Agrees(peers, id, AddrAt(got, id))
    ensures SameIndex(got, peers) <==> AllRestored(peers)
  {
    if AllRestored(peers) {
      forall id: Id ensures id in got <==> id in peers {
        assert Agrees(peers, id, AddrAt(got, id));
      }
      forall id | id in got ensures got[id].PrimaryAddr() == peers[id].PrimaryAddr() {
        assert Agrees(peers, id, AddrAt(got, id));
      }
    } else {
      var id :| id in peers && peers[id].addrs == [];
      assert id in got ==> got[id].PrimaryAddr().Some?;
    }
  }

  /** What recovery followed by the waiting operations gives, seen at one id. */
  lemma RecoveredAt(snapshot: seq<Byte>, wal: seq<Byte>, fs: seq<Frame>, id: Id, text: AddrText, crc: Crc)
    ensures AddrAt(Replay(Recover(snapshot, wal, text, crc), fs, text), id)
         == ReplayAt(Parse(snapshot, crc) + (Parse(wal, crc) + fs), id, None, text)
  {
    var a, b := Parse(snapshot, crc), Parse(wal, crc);
    ReplayPointwise(map[], a, id, text);
    ReplayPointwise(Replay(map[], a, text), b, id, text);
    ReplayPointwise(Recover(snapshot, wal, text, crc), fs, id, text);
    ReplayAtAppend(b, fs, id, ReplayAt(a, id, None, text), text);
    ReplayAtAppend(a, b + fs, id, None, text);
  }

  lemma RecoverRestores(snapshot: seq<Byte>, wal: seq<Byte>, fs: seq<Frame>, text: AddrText, crc: Crc)
    ensures AllRestored(Replay(Recover(snapshot, wal, text, crc), fs, text))
  {
    ReplayRestores(map[], Parse(snapshot, crc), text);
    ReplayRestores(Replay(map[], Parse(snapshot, crc), text), Parse(wal, crc), text);
    ReplayRestores(Recover(snapshot, wal, text, crc), fs, text);
  }

  lemma RebuiltIndex(s: PeerState, snapshot: seq<Byte>, wal: seq<Byte>, fs: seq<Frame>, text: AddrText, crc: Crc)
    requires Rebuilds(s.peers, Parse(snapshot, crc) + (Parse(wal, crc) + fs), text)
    ensures SameIndex(Replay(Recover(snapshot, wal, text, crc), fs, text), s.peers) <==> AllRestored(s.peers)
  {
    var got := Replay(Recover(snapshot, wal, text, crc), fs, text);
    forall id: Id ensures Agrees(s.peers, id, AddrAt(got, id)) {
      RecoveredAt(snapshot, wal, fs, id, text, crc);
    }
    RecoverRestores(snapshot, wal, fs, text, crc);
    AgreementIsSameIndex(s.peers, got);
  }

  /** Over every run, replaying the snapshot, the log and then the waiting operations gives the
      in-memory index of primary addresses, exactly when every peer in memory has an address. */
  lemma LogRefinesMemory(steps: seq<Step>, s: PeerState, text: AddrText, crc: Crc)
    requires text.Faithful() && Reaches(Fresh, steps, s, text, crc)
    ensures s.wal.Some?
    ensures SameIndex(Replay(Recover(s.snapshot, s.wal.value, text, crc), s.pending, text), s.peers) <==> AllRestored(s.peers)
  {
    FreshHasInv(text, crc);
    ReachesKeepsInv(Fresh, steps, s, text, crc);
    RebuiltIndex(s, s.snapshot, s.wal.value, s.pending, text, crc);
  }

  /** The input that fails: one peer is stored without an address, and a replay does not bring it back. */
  lemma UnaddressedPeerNotRecovered(info: PeerInfo, text: AddrText, crc: Crc)
    requires text.Faithful() && info.addrs == []
    ensures var s := Next(Fresh, DoUpsert(info), text, crc);
            && s.peers == map[info.id := info]
            && Replay(Recover(s.snapshot, s.wal.value, text, crc), s.pending, text) == map[]
  {
    var f := UpsertFrame(info, text);
    assert ApplyFrame(map[], f, text) == map[] by { UpsertFrameParts(info, text); }
    assert Recover([], [], text, crc) == map[] by { assert Parse([], crc) == []; }
    assert Replay(map[], [f], text) == map[] by { assert [f][..0] == []; }
    assert Fresh.pending + [f] == [f];
  }

  /** With nothing waiting, a crash at any point of a compaction recovers the same peers, exactly if all
      have an address: before the rename, between the rename and the truncation, and after both. */
  lemma CrashDuringCompaction(steps: seq<Step>, s: PeerState, ids: seq<Id>, records: seq<seq<Byte>>, text: AddrText, crc: Crc)
    requires text.Faithful() && Reaches(Fresh, steps, s, text, crc)
    requires s.pending == [] && Allowed(s, DoCompact(ids, records))
    ensures s.wal.Some?
    ensures var snapshot' := SnapshotBytes(s.peers, ids, records, text, crc);
            && (SameIndex(Recover(s.snapshot, s.wal.value, text, crc), s.peers) <==> AllRestored(s.peers))
            && (SameIndex(Recover(snapshot', s.wal.value, text, crc), s.peers) <==> AllRestored(s.peers))
            && (SameIndex(Recover(snapshot', [], text, crc), s.peers) <==> AllRestored(s.peers))
  {
    FreshHasInv(text, crc);
    ReachesKeepsInv(Fresh, steps, s, text, crc);
    SnapshotRebuilds(s, ids, records, text, crc);
    var wal := Parse(s.wal.value, crc);
    var snap := Parse(SnapshotBytes(s.peers, ids, records, text, crc), crc);
    assert Parse([], crc) == [];
    RebuildsThenSettles(s.peers, snap, wal + [], text);
    assert snap + ([] + []) == snap;
    RebuiltIndex(s, s.snapshot, s.wal.value, [], text, crc);
    RebuiltIndex(s, SnapshotBytes(s.peers, ids, records, text, crc), s.wal.value, [], text, crc);
    RebuiltIndex(s, SnapshotBytes(s.peers, ids, records, text, crc), [], [], text, crc);
  }

  /** A crash while the waiting operations are being written recovers the flushed state plus a prefix
      of them, cut at the last whole frame. */
  lemma CrashDuringFlush(steps: seq<Step>, s: PeerState, n: nat, text: AddrText, crc: Crc)
    requires text.Faithful() && Reaches(Fresh, steps, s, text, crc)
    requires n <= |EncodeAll(s.pending, crc)|
    ensures s.wal.Some? && WholeFrames(s.pending, n) <= |s.pending|
    ensures Recover(s.snapshot, s.wal.value + EncodeAll(s.pending, crc)[..n], text, crc)
         == Replay(Recover(s.snapshot, s.wal.value, text, crc), s.pending[..WholeFrames(s.pending, n)], text)
  {
    FreshHasInv(text, crc);
    ReachesKeepsInv(Fresh, steps, s, text, crc);
    var wal := Parse(s.wal.value, crc);
    ParseAppended(wal, EncodeAll(s.pending, crc)[..n], crc);
    TornTail(s.pending, n, crc);
    ReplayAppend(Replay(map[], Parse(s.snapshot, crc), text), wal, s.pending[..WholeFrames(s.pending, n)], text);
  }

  lemma {:induction false} ReplayAppend(m: map<Id, PeerInfo>, fs: seq<Frame>, gs: seq<Frame>, text: AddrText)
    ensures Replay(m, fs + gs, text) == Replay(Replay(m, fs, text), gs, text)
  {
    if gs == [] {
      assert fs + gs == fs;
    } else {
      var n := |gs| - 1;
      assert (fs + gs)[..|fs + gs| - 1] == fs + gs[..n];
      ReplayAppend(m, fs, gs[..n], text);
    }
  }

  // ---------------------------------------------------------------- what was stored last is what is there

  /** What a run last did to an id. */
  datatype Mark = Never | Gone | Kept(info: PeerInfo)

  function Marked(m: Mark, step: Step, id: Id): Mark
  {
    match step
    case DoUpsert(info) => if info.id == id then Kept(info) else m
    case DoRemove(gone) => if gone == id then Gone else m
    case _ => m
  }

  function Latest(m: Mark, steps: seq<Step>, id: Id): Mark
    decreases |steps|
  {
    if steps == [] then m else Latest(Marked(m, steps[0], id), steps[1..], id)
  }

  ghost predicate NoReopen(steps: seq<Step>)
  {
    forall i :: 0 <= i < |steps| ==> !steps[i].DoReopen?
  }

  /** Memory holds exactly what was stored last. */
  ghost predicate HoldsExactly(peers: map<Id, PeerInfo>, id: Id, m: Mark)
  {
    if m.Kept? then id in peers && peers[id] == m.info else id !in peers
  }

  lemma {:induction false} MemoryFollows(s: PeerState, steps: seq<Step>, t: PeerState, m: Mark, id: Id, text: AddrText, crc: Crc)
    requires Reaches(s, steps, t, text, crc) && NoReopen(steps) && HoldsExactly(s.peers, id, m)
    ensures HoldsExactly(t.peers, id, Latest(m, steps, id))
    decreases |steps|
  {
    if steps != [] {
      assert forall i :: 0 <= i < |steps| - 1 ==> steps[1..][i] == steps[i + 1];
      MemoryFollows(Next(s, steps[0], text, crc), steps[1..], t, Marked(m, steps[0], id), id, text, crc);
    }
  }

  /** After every run without a restart memory holds, for each id, the peer stored last, and nothing if it
      was removed after that or never stored. */
  lemma MemoryHoldsLatest(steps: seq<Step>, s: PeerState, id: Id, text: AddrText, crc: Crc)
    requires Reaches(Fresh, steps, s, text, crc) && NoReopen(steps)
    ensures match Latest(Never, steps, id)
            case Kept(info) => id in s.peers && s.peers[id] == info
            case _ => id !in s.peers
  {
    MemoryFollows(Fresh, steps, s, Never, id, text, crc);
  }

  /** Restarts happen with nothing waiting to be written. */
  ghost predicate Orderly(s: PeerState, steps: seq<Step>, text: AddrText, crc: Crc)
    decreases |steps|
  {
    steps == [] ||
    (Allowed(s, steps[0]) && (steps[0].DoReopen? ==> s.pending == []) && Orderly(Next(s, steps[0], text, crc), steps[1..], text, crc))
  }

  /** `v` is the address stored last, if the peer was stored last with one; nothing if it is gone. */
  predicate Says(v: Option<SocketAddr>, m: Mark)
  {
    if m.Kept? then m.info.addrs != [] ==> v == Some(m.info.addrs[0]) else v == None
  }

  /** What memory says about an id, and that it has no peer where there should be none. */
  ghost predicate Holds(s: PeerState, id: Id, m: Mark)
  {
    Says(AddrAt(s.peers, id), m) && (!m.Kept? ==> id !in s.peers)
  }

  lemma ReopenHolds(s: PeerState, id: Id, m: Mark, text: AddrText, crc: Crc)
    requires Inv(s, text, crc) && s.wal.Some? && s.pending == [] && Holds(s, id, m)
    ensures Holds(Reopen(s.snapshot, s.wal.value, text, crc), id, m)
  {
    RecoveredAt(s.snapshot, s.wal.value, [], id, text, crc);
    RecoverRestores(s.snapshot, s.wal.value, [], text, crc);
    assert Agrees(s.peers, id, ReplayAt(Parse(s.snapshot, crc) + (Parse(s.wal.value, crc) + s.pending), id, None, text));
  }

  lemma {:induction false} RunHolds(s: PeerState, steps: seq<Step>, t: PeerState, m: Mark, id: Id, text: AddrText, crc: Crc)
    requires Inv(s, text, crc) && s.wal.Some? && text.Faithful()
    requires Reaches(s, steps, t, text, crc) && Orderly(s, steps, text, crc) && Holds(s, id, m)
    ensures Holds(t, id, Latest(m, steps, id))
    decreases |steps|
  {
    if steps != [] {
      NextKeepsInv(s, steps[0], text, crc);
      if steps[0].DoReopen? {
        ReopenHolds(s, id, m, text, crc);
      }
      RunHolds(Next(s, steps[0], text, crc), steps[1..], t, Marked(m, steps[0], id), id, text, crc);
    }
  }

  /** After every run whose restarts find nothing waiting, flushing and reopening brings back the address
      of each peer stored last with one, and no peer that was removed after that or never stored. */
  lemma DiskHoldsLatest(steps: seq<Step>, s: PeerState, id: Id, text: AddrText, crc: Crc)
    requires text.Faithful() && Reaches(Fresh, steps, s, text, crc) && Orderly(Fresh, steps, text, crc)
    ensures var disk := Flush(s, crc);
            && disk.wal.Some?
            && (var got := Recover(disk.snapshot, disk.wal.value, text, crc);
                match Latest(Never, steps, id)
                case Kept(info) => info.addrs != [] ==> id in got && got[id].addrs == [info.addrs[0]] && got[id].id == id
                case _ => id !in got)
  {
    FreshHasInv(text, crc);
    ReachesKeepsInv(Fresh, steps, s, text, crc);
    RunHolds(Fresh, steps, s, Never, id, text, crc);
    FlushKeepsInv(s, text, crc);
    var disk := Flush(s, crc);
    ReopenHolds(disk, id, Latest(Never, steps, id), text, crc);
    OneAddressEach(disk.snapshot, disk.wal.value, text, crc);
  }

  /** A recovered peer has exactly one address, and its own id. */
  lemma OneAddressEach(snapshot: seq<Byte>, wal: seq<Byte>, text: AddrText, crc: Crc)
    ensures var got := Recover(snapshot, wal, text, crc);
            forall id :: id in got ==> |got[id].addrs| == 1 && got[id].id == id
  {
    OneAddressReplay(map[], Parse(snapshot, crc), text);
    OneAddressReplay(Replay(map[], Parse(snapshot, crc), text), Parse(wal, crc), text);
  }

  lemma {:induction false} OneAddressReplay(m: map<Id, PeerInfo>, fs: seq<Frame>, text: AddrText)
    requires forall id :: id in m ==> |m[id].addrs| == 1 && m[id].id == id
    ensures forall id :: id in Replay(m, fs, text) ==> |Replay(m, fs, text)[id].addrs| == 1 && Replay(m, fs, text)[id].id == id
  {
    if fs != [] {
      OneAddressReplay(m, fs[..|fs| - 1], text);
    }
  }

  /** Log entries that say nothing about a peer are passed over: other types, a deletion that is not
      exactly an id, a store without a whole id or with a text that is no address. */
  lemma OddEntriesIgnored(m: map<Id, PeerInfo>, f: Frame, text: AddrText)
    ensures f.ty != 1 && f.ty != 2 ==> ApplyFrame(m, f, text) == m
    ensures f.ty == 2 && |f.payload| != 32 ==> ApplyFrame(m, f, text) == m
    ensures f.ty == 1 && (|f.payload| < 32 || text.parse(f.payload[32..]).None?) ==> ApplyFrame(m, f, text) == m
    ensures f.ty == 2 && |f.payload| == 32 ==> ApplyFrame(m, f, text) == m - {f.payload}
  {
  }

  /** What each operation leaves waiting to be written. */
  lemma EntriesLogged(s: PeerState, info: PeerInfo, id: Id, payload: seq<Byte>, text: AddrText)
    ensures Upsert(s, info, text).pending == s.pending + [Frame(1, info.id + if info.addrs == [] then [] else text.show(info.addrs[0]))]
    ensures Remove(s, id).pending == s.pending + [Frame(2, id)]
    ensures Append(s, payload).pending == s.pending + [Frame(3, payload)]
  {
  }

  /** The concrete case: stored, removed, flushed, reopened: gone. */
  lemma RemovedStaysGone(info: PeerInfo, text: AddrText, crc: Crc)
    requires text.Faithful() && info.addrs != []
    ensures var s := Flush(Remove(Upsert(Fresh, info, text), info.id), crc);
            info.id !in s.peers && s.wal.Some? && info.id !in Recover(s.snapshot, s.wal.value, text, crc)
  {
    var a, b := DoUpsert(info), DoRemove(info.id);
    var s1 := Next(Fresh, a, text, crc);
    var s2 := Next(s1, b, text, crc);
    assert [a, b][1..] == [b] && [b][1..] == [];
    assert Reaches(s1, [b], s2, text, crc) && Reaches(Fresh, [a, b], s2, text, crc);
    assert Orderly(s1, [b], text, crc) && Orderly(Fresh, [a, b], text, crc);
    assert Latest(Never, [a, b], info.id) == Latest(Kept(info), [b], info.id);
    assert Latest(Kept(info), [b], info.id) == Latest(Gone, [], info.id) == Gone;
    DiskHoldsLatest([a, b], s2, info.id, text, crc);
  }

  /** The snapshot a compaction writes holds a log entry for every peer, in the order walked, followed by
      the records; the log is then empty and waiting operations stay. */
  lemma SnapshotHolds(s: PeerState, ids: seq<Id>, records: seq<seq<Byte>>, text: AddrText, crc: Crc)
    requires s.wal.Some? && text.Faithful() && Allowed(s, DoCompact(ids, records))
    ensures var s' := Compact(s, ids, records, text, crc); var fs := Parse(s'.snapshot, crc);
            && s'.wal == Some([]) && s'.pending == s.pending && s'.peers == s.peers
            && |fs| == |ids| + |records| && AllNamed(fs[..|ids|], ids, s.peers) && fs[|ids|..] == RecordFrames(records)
  {
    var a, b := SnapshotFrames(s.peers, ids, text), RecordFrames(records);
    SnapshotParses(s, ids, records, text, crc);
    SnapshotEntries(s.peers, ids, text);
    assert (a + b)[..|a|] == a && (a + b)[|a|..] == b;
  }

  /** A log entry that stores the peer `id`. */
  predicate Names(f: Frame, id: Id)
  {
    f.ty == 1 && |f.payload| >= ID_LEN && f.payload[..ID_LEN] == id
  }

  ghost predicate AllNamed(fs: seq<Frame>, ids: seq<Id>, peers: map<Id, PeerInfo>)
    requires forall j :: j in ids ==> j in peers
  {
    |fs| == |ids| && forall i :: 0 <= i < |ids| ==> Names(fs[i], peers[ids[i]].id)
  }

  lemma SnapshotParses(s: PeerState, ids: seq<Id>, records: seq<seq<Byte>>, text: AddrText, crc: Crc)
    requires s.wal.Some? && text.Faithful() && Allowed(s, DoCompact(ids, records))
    ensures Parse(Compact(s, ids, records, text, crc).snapshot, crc) == SnapshotFrames(s.peers, ids, text) + RecordFrames(records)
  {
    SnapshotFits(s.peers, ids, text);
    ParseUndoesEncode(SnapshotFrames(s.peers, ids, text) + RecordFrames(records), crc);
  }

  lemma {:induction false} SnapshotEntries(peers: map<Id, PeerInfo>, ids: seq<Id>, text: AddrText)
    requires text.Faithful() && forall j :: j in ids ==> j in peers
    ensures AllNamed(SnapshotFrames(peers, ids, text), ids, peers)
  {
    if ids != [] {
      var n := |ids| - 1;
      SnapshotEntries(peers, ids[..n], text);
      UpsertFrameParts(peers[ids[n]], text);
    }
  }
}
