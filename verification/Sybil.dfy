/** Token buckets in front of the handshake (`src/sybil.rs`). Time is in seconds; floating point is
    modelled by the reals. */
module Sybil {
  import opened Xor
  import opened Peers

  const IP_CAP: real := 20.0
  const IP_RATE: real := 10.0
  const PREFIX_CAP: real := 80.0
  const PREFIX_RATE: real := 40.0

  type Prefix = (Byte, Byte, Byte)

  datatype TokenBucket = TokenBucket(tokens: real, cap: real, rate: real, last: real)

  datatype Gate = Gate(ips: map<Ip, TokenBucket>, prefixes: map<Prefix, TokenBucket>)

  function Full(cap: real, rate: real, now: real): TokenBucket
  {
    TokenBucket(cap, cap, rate, now)
  }

  /** Tokens in the bucket once the time since its last use has been credited. */
  function Level(b: TokenBucket, now: real): real
  {
    var dt := if now < b.last then 0.0 else now - b.last;
    if b.tokens + dt * b.rate < b.cap then b.tokens + dt * b.rate else b.cap
  }

  predicate CanTake(b: TokenBucket, n: real, now: real)
  {
    Level(b, now) >= n
  }

  function Take(b: TokenBucket, n: real, now: real): TokenBucket
  {
    b.(tokens := if CanTake(b, n, now) then Level(b, now) - n else Level(b, now), last := now)
  }

  function IpBucket(g: Gate, ip: Ip, now: real): TokenBucket
  {
    if ip in g.ips then g.ips[ip] else Full(IP_CAP, IP_RATE, now)
  }

  function PrefixBucket(g: Gate, p: Prefix, now: real): TokenBucket
  {
    if p in g.prefixes then g.prefixes[p] else Full(PREFIX_CAP, PREFIX_RATE, now)
  }

  function PrefixOf(ip: Ip): Prefix
    requires ip.V4?
  {
    (ip.a, ip.b, ip.c)
  }

  /** `allow_pre_handshake`: whether a packet from `ip` is let through. */
  predicate Allows(g: Gate, ip: Ip, now: real)
  {
    && CanTake(IpBucket(g, ip, now), 1.0, now)
    && (ip.V4? ==> CanTake(PrefixBucket(g, PrefixOf(ip), now), 1.0, now))
  }

  /** The buckets afterwards; the prefix is charged only if the address had a token left. */
  function Charge(g: Gate, ip: Ip, now: real): Gate
  {
    var b := IpBucket(g, ip, now);
    var ips := g.ips[ip := Take(b, 1.0, now)];
    if CanTake(b, 1.0, now) && ip.V4? then
      var p := PrefixOf(ip);
      Gate(ips, g.prefixes[p := Take(PrefixBucket(g, p, now), 1.0, now)])
    else Gate(ips, g.prefixes)
  }

  class RateGate {
    var ips: map<Ip, TokenBucket>
    var prefixes: map<Prefix, TokenBucket>

    function State(): Gate
      reads this
    {
      Gate(ips, prefixes)
    }

    constructor ()
      ensures State() == Gate(map[], map[])
    {
      ips, prefixes := map[], map[];
    }

    method AllowPreHandshake(ip: Ip, now: real) returns (ok: bool)
      modifies this
      ensures State() == Charge(old(State()), ip, now)
      ensures ok == Allows(old(State()), ip, now)
    {
      if ip !in ips {
        ips := ips[ip := TokenBucket(IP_CAP, IP_CAP, IP_RATE, now)];
      }
      var b := ips[ip];
      ips := ips[ip := Take(b, 1.0, now)];
      assert ips == old(ips)[ip := Take(b, 1.0, now)];
      if !CanTake(b, 1.0, now) {
        return false;
      }
      if ip.V4? {
        var p := PrefixOf(ip);
        if p !in prefixes {
          prefixes := prefixes[p := TokenBucket(PREFIX_CAP, PREFIX_CAP, PREFIX_RATE, now)];
        }
        var pb := prefixes[p];
        prefixes := prefixes[p := Take(pb, 1.0, now)];
        assert prefixes == old(prefixes)[p := Take(pb, 1.0, now)];
        return CanTake(pb, 1.0, now);
      }
      return true;
    }
  }

  // ---------------------------------------------------------------- runs of packets

  datatype Packet = Packet(ip: Ip, at: real)

  function Run(g: Gate, ps: seq<Packet>): Gate
    decreases |ps|
  {
    if ps == [] then g else Run(Charge(g, ps[0].ip, ps[0].at), ps[1..])
  }

  /** Which packets are counted: those of one address, or those of one /24. */
  datatype Source = OneIp(ip: Ip) | OnePrefix(p: Prefix)

  predicate From(packet: Packet, src: Source)
  {
    match src
    case OneIp(ip) => packet.ip == ip
    case OnePrefix(p) => packet.ip.V4? && PrefixOf(packet.ip) == p
  }

  function Accepted(g: Gate, ps: seq<Packet>, src: Source): nat
    decreases |ps|
  {
    if ps == [] then 0
    else (if From(ps[0], src) && Allows(g, ps[0].ip, ps[0].at) then 1 else 0) + Accepted(Charge(g, ps[0].ip, ps[0].at), ps[1..], src)
  }

  ghost predicate ClockFrom(ps: seq<Packet>, t: real)
  {
    && (forall i :: 0 <= i < |ps| ==> t <= ps[i].at)
    && (forall i, j :: 0 <= i <= j < |ps| ==> ps[i].at <= ps[j].at)
  }

  function Cap(src: Source): real { if src.OneIp? then IP_CAP else PREFIX_CAP }

  function Rate(src: Source): real { if src.OneIp? then IP_RATE else PREFIX_RATE }

  /** The bucket that limits a source, if it exists yet. */
  function BucketFor(g: Gate, src: Source): Option<TokenBucket>
  {
    match src
    case OneIp(ip) => if ip in g.ips then Some(g.ips[ip]) else None
    case OnePrefix(p) => if p in g.prefixes then Some(g.prefixes[p]) else None
  }

  /** What a source can still spend at time `t`. */
  function Credit(g: Gate, src: Source, t: real): real
  {
    var b := BucketFor(g, src);
    if b.Some? then Level(b.value, t) else Cap(src)
  }

  /** Buckets have the source's parameters, hold between none and a full load, and lie in the past. */
  ghost predicate GateOk(g: Gate, src: Source, t: real)
  {
    var b := BucketFor(g, src);
    b.Some? ==> b.value.cap == Cap(src) && b.value.rate == Rate(src) && 0.0 <= b.value.tokens <= Cap(src) && b.value.last <= t
  }

  lemma CreditGrows(g: Gate, src: Source, t: real, t': real)
    requires GateOk(g, src, t) && t <= t'
    ensures GateOk(g, src, t') && Credit(g, src, t') <= Credit(g, src, t) + Rate(src) * (t' - t)
    ensures 0.0 <= Credit(g, src, t) <= Cap(src)
  {
  }

  /** Each accepted packet costs its source one token; nothing ever adds credit but time. */
  lemma ChargeSpends(g: Gate, packet: Packet, src: Source)
    requires GateOk(g, src, packet.at)
    ensures GateOk(Charge(g, packet.ip, packet.at), src, packet.at)
    ensures Credit(Charge(g, packet.ip, packet.at), src, packet.at) +
            (if From(packet, src) && Allows(g, packet.ip, packet.at) then 1.0 else 0.0) <= Credit(g, src, packet.at)
  {
  }

  lemma {:induction false} AcceptedWithinCredit(g: Gate, ps: seq<Packet>, src: Source, t: real, end: real)
    requires GateOk(g, src, t) && ClockFrom(ps, t) && t <= end && forall i :: 0 <= i < |ps| ==> ps[i].at <= end
    ensures Accepted(g, ps, src) as real <= Credit(g, src, t) + Rate(src) * (end - t)
    decreases |ps|
  {
    CreditGrows(g, src, t, end);
    if ps != [] {
      var p, rest := ps[0], ps[1..];
      CreditGrows(g, src, t, p.at);
      ChargeSpends(g, p, src);
      assert forall i :: 0 <= i < |rest| ==> rest[i] == ps[i + 1];
      AcceptedWithinCredit(Charge(g, p.ip, p.at), rest, src, p.at, end);
      CreditGrows(Charge(g, p.ip, p.at), src, p.at, end);
    }
  }

  lemma {:induction false} RunKeepsGate(g: Gate, ps: seq<Packet>, src: Source, t: real, end: real)
    requires GateOk(g, src, t) && ClockFrom(ps, t) && t <= end && forall i :: 0 <= i < |ps| ==> ps[i].at <= end
    ensures GateOk(Run(g, ps), src, end)
    decreases |ps|
  {
    if ps == [] {
      CreditGrows(g, src, t, end);
    } else {
      var p, rest := ps[0], ps[1..];
      CreditGrows(g, src, t, p.at);
      ChargeSpends(g, p, src);
      assert forall i :: 0 <= i < |rest| ==> rest[i] == ps[i + 1];
      RunKeepsGate(Charge(g, p.ip, p.at), rest, src, p.at, end);
    }
  }

  const Open: Gate := Gate(map[], map[])

  /** In any window of a run, of whatever arrival pattern, at most 20 + 10·T packets of one address and
      80 + 40·T packets of one /24 are let through, T being the window's length in seconds. */
  lemma WindowBound(before: seq<Packet>, window: seq<Packet>, src: Source, start: real, end: real)
    requires ClockFrom(before, 0.0) && 0.0 <= start && (forall i :: 0 <= i < |before| ==> before[i].at <= start)
    requires ClockFrom(window, start) && start <= end && forall i :: 0 <= i < |window| ==> window[i].at <= end
    ensures Accepted(Run(Open, before), window, src) as real
         <= if src.OneIp? then 20.0 + 10.0 * (end - start) else 80.0 + 40.0 * (end - start)
  {
    RunKeepsGate(Open, before, src, 0.0, start);
    AcceptedWithinCredit(Run(Open, before), window, src, start, end);
    CreditGrows(Run(Open, before), src, start, end);
  }

  function Burst(ip: Ip, at: real, n: nat): seq<Packet>
  {
    if n == 0 then [] else [Packet(ip, at)] + Burst(ip, at, n - 1)
  }

  /** The bound is reached: of a burst from a fresh address exactly the first 20 packets pass. */
  lemma BurstPassesTwenty(ip: Ip, at: real, n: nat)
    ensures Accepted(Open, Burst(ip, at, n), OneIp(ip)) == if n <= 20 then n else 20
  {
    BurstFrom(Open, ip, at, n, 0);
  }

  lemma {:induction false} BurstFrom(g: Gate, ip: Ip, at: real, n: nat, k: nat)
    requires k <= 20
    requires if k == 0 then g == Open
             else ip in g.ips && g.ips[ip] == TokenBucket(20.0 - k as real, IP_CAP, IP_RATE, at)
                  && (ip.V4? ==> PrefixOf(ip) in g.prefixes
                                 && g.prefixes[PrefixOf(ip)] == TokenBucket(80.0 - k as real, PREFIX_CAP, PREFIX_RATE, at))
    ensures Accepted(g, Burst(ip, at, n), OneIp(ip)) == if n + k <= 20 then n else 20 - k
    decreases n
  {
    if n > 0 {
      var ps := Burst(ip, at, n);
      assert ps[0] == Packet(ip, at) && ps[1..] == Burst(ip, at, n - 1);
      var b := IpBucket(g, ip, at);
      assert Level(b, at) == 20.0 - k as real;
      if k < 20 {
        assert ip.V4? ==> Level(PrefixBucket(g, PrefixOf(ip), at), at) == 80.0 - k as real;
        BurstFrom(Charge(g, ip, at), ip, at, n - 1, k + 1);
      } else {
        BurstFrom(Charge(g, ip, at), ip, at, n - 1, k);
      }
    }
  }

  // ---------------------------------------------------------------- what gets through

  /** Credit comes back at the source's rate, up to its cap. */
  lemma CreditRefills(g: Gate, src: Source, t: real, t': real)
    requires GateOk(g, src, t) && t <= t'
    ensures var full := Credit(g, src, t) + Rate(src) * (t' - t);
            Credit(g, src, t') == if full < Cap(src) then full else Cap(src)
  {
    var b := BucketFor(g, src);
    if b.Some? {
      assert Level(b.value, t) == (if b.value.tokens + (t - b.value.last) * Rate(src) < Cap(src)
                                   then b.value.tokens + (t - b.value.last) * Rate(src) else Cap(src));
      assert (t' - b.value.last) * Rate(src) == (t - b.value.last) * Rate(src) + Rate(src) * (t' - t);
    }
  }

  /** A packet passes exactly if its address and, over IPv4, its /24 can pay for it, and passing costs
      each of them one token. */
  lemma PassesIffPaid(g: Gate, packet: Packet)
    requires GateOk(g, OneIp(packet.ip), packet.at)
    requires packet.ip.V4? ==> GateOk(g, OnePrefix(PrefixOf(packet.ip)), packet.at)
    ensures var g', t := Charge(g, packet.ip, packet.at), packet.at;
            && (Allows(g, packet.ip, t) <==>
                (Credit(g, OneIp(packet.ip), t) >= 1.0 && (packet.ip.V4? ==> Credit(g, OnePrefix(PrefixOf(packet.ip)), t) >= 1.0)))
            && (Allows(g, packet.ip, t) ==>
                  && Credit(g', OneIp(packet.ip), t) == Credit(g, OneIp(packet.ip), t) - 1.0
                  && (packet.ip.V4? ==> Credit(g', OnePrefix(PrefixOf(packet.ip)), t) == Credit(g, OnePrefix(PrefixOf(packet.ip)), t) - 1.0))
  {
  }

  /** A packet its address cannot pay for costs its /24 nothing. */
  lemma UnpaidCostsPrefixNothing(g: Gate, packet: Packet, src: Source)
    requires src.OnePrefix? && GateOk(g, OneIp(packet.ip), packet.at) && Credit(g, OneIp(packet.ip), packet.at) < 1.0
    ensures BucketFor(Charge(g, packet.ip, packet.at), src) == BucketFor(g, src)
  {
  }

  /** An address and /24 with credit `k` get at least `k` packets of a burst through. */
  lemma {:induction false} BurstAtLeast(g: Gate, ip: Ip, at: real, n: nat, k: nat)
    requires GateOk(g, OneIp(ip), at) && Credit(g, OneIp(ip), at) >= k as real
    requires ip.V4? ==> GateOk(g, OnePrefix(PrefixOf(ip)), at) && Credit(g, OnePrefix(PrefixOf(ip)), at) >= k as real
    ensures Accepted(g, Burst(ip, at, n), OneIp(ip)) >= if n <= k then n else k
    decreases n
  {
    if n > 0 && k > 0 {
      var p, ps := Packet(ip, at), Burst(ip, at, n);
      assert ps[0] == p && ps[1..] == Burst(ip, at, n - 1);
      PassesIffPaid(g, p);
      ChargeSpends(g, p, OneIp(ip));
      if ip.V4? {
        ChargeSpends(g, p, OnePrefix(PrefixOf(ip)));
      }
      BurstAtLeast(Charge(g, ip, at), ip, at, n - 1, k - 1);
    }
  }

  /** Packets of other sources leave a source's bucket alone. */
  lemma {:induction false} OthersLeaveBucket(g: Gate, ps: seq<Packet>, src: Source)
    requires forall i :: 0 <= i < |ps| ==> !From(ps[i], src)
    ensures BucketFor(Run(g, ps), src) == BucketFor(g, src)
    decreases |ps|
  {
    if ps != [] {
      assert !From(ps[0], src);
      assert forall i :: 0 <= i < |ps| - 1 ==> ps[1..][i] == ps[i + 1];
      OthersLeaveBucket(Charge(g, ps[0].ip, ps[0].at), ps[1..], src);
    }
  }

  /** The packet comes from the address, or from its IPv4 /24. */
  predicate Near(packet: Packet, ip: Ip)
  {
    packet.ip == ip || (packet.ip.V4? && ip.V4? && PrefixOf(packet.ip) == PrefixOf(ip))
  }

  /** Whatever went before, and whatever comes from elsewhere meanwhile: after a pause of `pause` seconds
      at least min(20, 10·pause) packets of a burst from any one address get through. */
  lemma QuietSourceGetsThrough(before: seq<Packet>, during: seq<Packet>, start: real, pause: real, ip: Ip, n: nat, k: nat)
    requires ClockFrom(before, 0.0) && 0.0 <= start && pause >= 0.0 && forall i :: 0 <= i < |before| ==> before[i].at <= start
    requires forall i :: 0 <= i < |during| ==> !Near(during[i], ip)
    requires k <= 20 && k as real <= 10.0 * pause
    ensures Accepted(Run(Run(Open, before), during), Burst(ip, start + pause, n), OneIp(ip)) >= if n <= k then n else k
  {
    var g, at := Run(Run(Open, before), during), start + pause;
    assert forall i :: 0 <= i < |during| ==> !From(during[i], OneIp(ip)) by {
      assert forall i :: 0 <= i < |during| ==> !Near(during[i], ip);
    }
    Paused(before, during, start, pause, OneIp(ip));
    assert IP_RATE * pause == 10.0 * pause;
    if ip.V4? {
      var src := OnePrefix(PrefixOf(ip));
      assert forall i :: 0 <= i < |during| ==> !From(during[i], src) by {
        assert forall i :: 0 <= i < |during| ==> !Near(during[i], ip);
      }
      Paused(before, during, start, pause, src);
      assert PREFIX_RATE * pause == 4.0 * (10.0 * pause);
    }
    BurstAtLeast(g, ip, at, n, k);
  }

  lemma Paused(before: seq<Packet>, during: seq<Packet>, start: real, pause: real, src: Source)
    requires ClockFrom(before, 0.0) && 0.0 <= start && pause >= 0.0 && forall i :: 0 <= i < |before| ==> before[i].at <= start
    requires forall i :: 0 <= i < |during| ==> !From(during[i], src)
    ensures var g, at := Run(Run(Open, before), during), start + pause;
            && GateOk(g, src, at)
            && (Credit(g, src, at) >= Cap(src) || Credit(g, src, at) >= Rate(src) * pause)
  {
    RunKeepsGate(Open, before, src, 0.0, start);
    CreditGrows(Run(Open, before), src, start, start + pause);
    CreditRefills(Run(Open, before), src, start, start + pause);
    OthersLeaveBucket(Run(Open, before), during, src);
  }

  // ---------------------------------------------------------------- the bound of a /24 is reached

  /** A fresh address gets a burst of up to 20 through while its /24 can pay, and its /24 pays for it. */
  lemma {:induction false} BurstOfFreshAddress(g: Gate, ip: Ip, at: real, n: nat, k: nat, c: nat)
    requires ip.V4? && n + k <= 20 && n <= c
    requires GateOk(g, OneIp(ip), at) && Credit(g, OneIp(ip), at) == 20.0 - k as real
    requires GateOk(g, OnePrefix(PrefixOf(ip)), at) && Credit(g, OnePrefix(PrefixOf(ip)), at) == c as real
    ensures var g' := Run(g, Burst(ip, at, n)); var src := OnePrefix(PrefixOf(ip));
            && Accepted(g, Burst(ip, at, n), src) == n
            && GateOk(g', src, at) && Credit(g', src, at) == (c - n) as real
            && forall other :: other != ip ==> BucketFor(g', OneIp(other)) == BucketFor(g, OneIp(other))
    decreases n
  {
    if n > 0 {
      var p, ps := Packet(ip, at), Burst(ip, at, n);
      assert ps[0] == p && ps[1..] == Burst(ip, at, n - 1);
      PassesIffPaid(g, p);
      ChargeSpends(g, p, OneIp(ip));
      ChargeSpends(g, p, OnePrefix(PrefixOf(ip)));
      BurstOfFreshAddress(Charge(g, ip, at), ip, at, n - 1, k + 1, c - 1);
    }
  }

  /** `hosts` distinct fresh addresses of one /24 sending 20 packets each at once. */
  function Crowd(p: Prefix, at: real, hosts: nat): seq<Packet>
    requires hosts <= 256
  {
    if hosts == 0 then [] else Crowd(p, at, hosts - 1) + Burst(V4(p.0, p.1, p.2, hosts - 1), at, 20)
  }

  lemma {:induction false} RunAppend(g: Gate, a: seq<Packet>, b: seq<Packet>, src: Source)
    ensures Run(g, a + b) == Run(Run(g, a), b)
    ensures Accepted(g, a + b, src) == Accepted(g, a, src) + Accepted(Run(g, a), b, src)
    decreases |a|
  {
    if a == [] {
      assert a + b == b;
    } else {
      assert (a + b)[1..] == a[1..] + b;
      RunAppend(Charge(g, a[0].ip, a[0].at), a[1..], b, src);
    }
  }

  lemma {:induction false} CrowdWithinFour(p: Prefix, at: real, hosts: nat)
    requires hosts <= 4
    ensures var g := Run(Open, Crowd(p, at, hosts));
            && Accepted(Open, Crowd(p, at, hosts), OnePrefix(p)) == 20 * hosts
            && GateOk(g, OnePrefix(p), at) && Credit(g, OnePrefix(p), at) == 80.0 - 20.0 * hosts as real
            && forall d: Byte :: d >= hosts ==> BucketFor(g, OneIp(V4(p.0, p.1, p.2, d))) == None
  {
    if hosts > 0 {
      var ip := V4(p.0, p.1, p.2, hosts - 1);
      CrowdWithinFour(p, at, hosts - 1);
      var g := Run(Open, Crowd(p, at, hosts - 1));
      assert PrefixOf(ip) == p && BucketFor(g, OneIp(ip)) == None;
      BurstOfFreshAddress(g, ip, at, 20, 0, 100 - 20 * hosts);
      RunAppend(Open, Crowd(p, at, hosts - 1), Burst(ip, at, 20), OnePrefix(p));
    }
  }

  /** Four addresses of a fresh /24 get all their 80 packets through, and then no fifth gets one. */
  lemma CrowdPassesEighty(p: Prefix, at: real)
    ensures Accepted(Open, Crowd(p, at, 4), OnePrefix(p)) == 80
    ensures !Allows(Run(Open, Crowd(p, at, 4)), V4(p.0, p.1, p.2, 4), at)
  {
    CrowdWithinFour(p, at, 4);
    var g, fifth := Run(Open, Crowd(p, at, 4)), Packet(V4(p.0, p.1, p.2, 4), at);
    assert PrefixOf(fifth.ip) == p && BucketFor(g, OneIp(fifth.ip)) == None;
    PassesIffPaid(g, fifth);
  }
}
