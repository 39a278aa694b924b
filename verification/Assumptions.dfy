/** Every assumption the results make about a library or about the surroundings is met by something:
    here is a text form of addresses, an encoding of records, and an order of walking hash maps. */
module Assumptions {
  import opened Xor
  import opened Peers
  import opened Records
  import opened Framing
  import S = Stores
  import P = Peerstores
  import R = RecordLog
  import U = Punching
  import E = EventLoop

  // ---------------------------------------------------------------- addresses

  function ShowAddr(addr: SocketAddr): seq<Byte>
  {
    var port := [addr.port / 256, addr.port % 256];
    match addr.ip
    case V4(a, b, c, d) => [a, b, c, d] + port
    case V6(octets) => octets + port
  }

  function PortOf(high: nat, low: nat): Port
    requires high < 256 && low < 256
  {
    256 * high + low
  }

  function ParseAddr(t: seq<Byte>): Option<SocketAddr>
  {
    if |t| == 6 then Some(SocketAddr(V4(t[0], t[1], t[2], t[3]), PortOf(t[4], t[5])))
    else if |t| == 18 then Some(SocketAddr(V6(t[..16]), PortOf(t[16], t[17])))
    else None
  }

  lemma AddrTextExists()
    ensures P.AddrText(ShowAddr, ParseAddr).Faithful()
  {
    forall addr: SocketAddr ensures ParseAddr(ShowAddr(addr)) == Some(addr) && |ShowAddr(addr)| <= 18 {
      if addr.ip.V6? {
        assert ShowAddr(addr)[..16] == addr.ip.octets;
      }
    }
  }

  // ---------------------------------------------------------------- records

  /** A count in unary, closed by a zero. */
  function Unary(n: nat): seq<Byte>
  {
    if n == 0 then [0] else [1] + Unary(n - 1)
  }

  function ReadUnary(b: seq<Byte>): Option<(nat, seq<Byte>)>
  {
    if b == [] then None
    else if b[0] == 0 then Some((0, b[1..]))
    else
      var r := ReadUnary(b[1..]);
      if r.None? then None else Some((r.value.0 + 1, r.value.1))
  }

  lemma {:induction false} UnaryReadsBack(n: nat, rest: seq<Byte>)
    ensures ReadUnary(Unary(n) + rest) == Some((n, rest))
  {
    if n > 0 {
      UnaryReadsBack(n - 1, rest);
      assert (Unary(n) + rest)[1..] == Unary(n - 1) + rest;
    } else {
      assert ([0] + rest)[1..] == rest;
    }
  }

  /** Byte strings one after the other, each behind its length. */
  function Pack(fields: seq<seq<Byte>>): seq<Byte>
  {
    if fields == [] then [] else Unary(|fields[0]|) + (fields[0] + Pack(fields[1..]))
  }

  function Unpack(b: seq<Byte>, n: nat): Option<seq<seq<Byte>>>
    decreases n
  {
    if n == 0 then Some([])
    else
      var r := ReadUnary(b);
      if r.None? || |r.value.1| < r.value.0 then None
      else
        var rest := Unpack(r.value.1[r.value.0..], n - 1);
        if rest.None? then None else Some([r.value.1[..r.value.0]] + rest.value)
  }

  lemma {:induction false} PackedUnpacks(fields: seq<seq<Byte>>)
    ensures Unpack(Pack(fields), |fields|) == Some(fields)
  {
    if fields != [] {
      var f, tail := fields[0], Pack(fields[1..]);
      UnaryReadsBack(|f|, f + tail);
      assert (f + tail)[..|f|] == f && (f + tail)[|f|..] == tail;
      PackedUnpacks(fields[1..]);
      assert fields == [f] + fields[1..];
    }
  }

  /** A number as that many bytes. */
  function Tally(n: nat): (s: seq<Byte>)
    ensures |s| == n
  {
    seq(n, _ => 0)
  }

  function EncodeRecord(w: WireRecord): seq<Byte>
  {
    Pack([w.key, w.value, Tally(w.sequence), Tally(w.ttlSecs), Tally(w.notBeforeUnix),
          w.owner, w.signature, Tally(w.kind), w.namespace, w.salt])
  }

  function DecodeRecord(b: seq<Byte>): Option<WireRecord>
  {
    var r := Unpack(b, 10);
    if r.None? || |r.value| != 10 then None
    else
      var f := r.value;
      Some(WireRecord(f[0], f[1], |f[2]|, |f[3]|, |f[4]|, f[5], f[6], |f[7]|, f[8], f[9]))
  }

  lemma ProtobufExists()
    ensures S.Protobuf(EncodeRecord, DecodeRecord).Faithful()
  {
    forall w: WireRecord ensures DecodeRecord(EncodeRecord(w)) == Some(w) {
      PackedUnpacks([w.key, w.value, Tally(w.sequence), Tally(w.ttlSecs), Tally(w.notBeforeUnix),
                     w.owner, w.signature, Tally(w.kind), w.namespace, w.salt]);
    }
  }

  /** With any hashing, signing and checksum. */
  lemma LibrariesExist(crypto: Crypto, crc: Crc)
    ensures R.Env(crypto, S.Protobuf(EncodeRecord, DecodeRecord), P.AddrText(ShowAddr, ParseAddr), crc).Faithful()
  {
    AddrTextExists();
    ProtobufExists();
  }

  // ---------------------------------------------------------------- the loop's surroundings

  /** The members of a set in some order. */
  ghost function Listed<T(!new)>(s: set<T>): (r: seq<T>)
    ensures forall x :: x in r <==> x in s
  {
    if s == {} then [] else var x :| x in s; [x] + Listed(s - {x})
  }

  /** From every state of the loop some honest timer phase is possible, at the current time or later. */
  lemma HonestPhaseExists(s: E.Loop, now: nat)
    requires s.clock <= now
    ensures exists env: E.Env :: E.Honest(s, E.TimerPhase(now, env))
  {
    var env := E.Env(_ => now, keys => Listed(keys), keys => Listed(keys), (_, _) => 0, U.TickEnv(_ => now, _ => true), 0);
    assert E.WalksKeys(env);
    assert E.Honest(s, E.TimerPhase(now, env));
  }
}
