/** Peer descriptors, and ordering peers by XOR distance to a target
    (`PeerInfo` in `src/types.rs`; the sorts in `src/lookup.rs` and `src/routing.rs`). */
module Peers {
  import opened Xor

  datatype Option<+T> = None | Some(value: T)

  type Port = p: nat | p < 0x1_0000

  type Octets = s: seq<Byte> | |s| == 16 witness seq(16, _ => 0)

  datatype Ip = V4(a: Byte, b: Byte, c: Byte, d: Byte) | V6(octets: Octets)

  datatype SocketAddr = SocketAddr(ip: Ip, port: Port)

  datatype PeerInfo = PeerInfo(id: Id, addrs: seq<SocketAddr>, rttMs: nat, x25519: Option<seq<Byte>>)
  {
    function PrimaryAddr(): Option<SocketAddr>
    {
      if addrs == [] then None else Some(addrs[0])
    }
  }

  /** The peers' ids, in order. */
  function Ids(s: seq<PeerInfo>): (r: seq<Id>)
    ensures |r| == |s| && forall i :: 0 <= i < |s| ==> r[i] == s[i].id
  {
    seq(|s|, i requires 0 <= i < |s| => s[i].id)
  }

  function IdSet(s: seq<PeerInfo>): set<Id>
  {
    set p | p in s :: p.id
  }

  ghost predicate DistinctIds(s: seq<PeerInfo>)
  {
    forall i, j :: 0 <= i < j < |s| ==> s[i].id != s[j].id
  }

  // ---------------------------------------------------------------- the comparison and the sort

  /** The comparator of both sorts: distance first, then round-trip time. */
  predicate NotAfter(p: PeerInfo, q: PeerInfo, target: Id)
  {
    var dp, dq := Dist(p.id, target), Dist(q.id, target);
    dp < dq || (dp == dq && p.rttMs <= q.rttMs)
  }

  ghost predicate Sorted(s: seq<PeerInfo>, target: Id)
  {
    forall i, j :: 0 <= i < j < |s| ==> NotAfter(s[i], s[j], target)
  }

  /** `p` placed before everything that does not come strictly before it. */
  function Insert(p: PeerInfo, s: seq<PeerInfo>, target: Id): seq<PeerInfo>
  {
    if s == [] then [p]
    else if NotAfter(p, s[0], target) then [p] + s
    else [s[0]] + Insert(p, s[1..], target)
  }

  /** `sort_by`: Rust's sort is stable, so equal peers keep their order. */
  function Sort(s: seq<PeerInfo>, target: Id): seq<PeerInfo>
  {
    if s == [] then [] else Insert(s[0], Sort(s[1..], target), target)
  }

  lemma {:induction false} InsertContents(p: PeerInfo, s: seq<PeerInfo>, target: Id)
    ensures multiset(Insert(p, s, target)) == multiset{p} + multiset(s)
    ensures |Insert(p, s, target)| == |s| + 1
  {
    if s != [] {
      assert s == [s[0]] + s[1..];
      InsertContents(p, s[1..], target);
    }
  }

  lemma {:induction false} InsertSorted(p: PeerInfo, s: seq<PeerInfo>, target: Id)
    requires Sorted(s, target)
    ensures Sorted(Insert(p, s, target), target)
  {
    if s != [] && !NotAfter(p, s[0], target) {
      var r := Insert(p, s[1..], target);
      InsertSorted(p, s[1..], target);
      InsertContents(p, s[1..], target);
      forall q | q in r ensures NotAfter(s[0], q, target) {
        assert q in multiset(r);
        assert q == p || q in multiset(s[1..]);
      }
    }
  }

  /** Sorting yields a sorted permutation. */
  lemma {:induction false} SortIsSortedPermutation(s: seq<PeerInfo>, target: Id)
    ensures Sorted(Sort(s, target), target)
    ensures multiset(Sort(s, target)) == multiset(s)
    ensures |Sort(s, target)| == |s|
  {
    if s != [] {
      assert s == [s[0]] + s[1..];
      SortIsSortedPermutation(s[1..], target);
      InsertSorted(s[0], Sort(s[1..], target), target);
      InsertContents(s[0], Sort(s[1..], target), target);
    }
  }

  /** What sorted means: nearer first, and of two entries for one id the one with the shorter round trip. */
  lemma SortedOrder(s: seq<PeerInfo>, target: Id, i: nat, j: nat)
    requires i < j < |Sort(s, target)|
    ensures var p, q := Sort(s, target)[i], Sort(s, target)[j];
            Dist(p.id, target) < Dist(q.id, target) || (p.id == q.id && p.rttMs <= q.rttMs)
  {
    SortIsSortedPermutation(s, target);
    var p, q := Sort(s, target)[i], Sort(s, target)[j];
    assert NotAfter(p, q, target);
    if Dist(p.id, target) == Dist(q.id, target) {
      DistInjective(p.id, q.id, target);
    }
  }

  // ---------------------------------------------------------------- distinct ids

  /** Strictly increasing distance; implies that the ids are distinct. */
  ghost predicate StrictlyNearer(s: seq<Id>, target: Id)
  {
    forall i, j :: 0 <= i < j < |s| ==> Dist(s[i], target) < Dist(s[j], target)
  }

  lemma SameContentsSameIds(s: seq<PeerInfo>, r: seq<PeerInfo>)
    requires multiset(s) == multiset(r)
    ensures IdSet(s) == IdSet(r)
  {
    assert forall p :: p in s <==> p in multiset(s);
    assert forall p :: p in r <==> p in multiset(r);
  }

  lemma IdSetSnoc(s: seq<PeerInfo>, p: PeerInfo)
    ensures IdSet(s + [p]) == IdSet(s) + {p.id}
    ensures p.id in IdSet(s) <==> exists i :: 0 <= i < |s| && s[i].id == p.id
  {
    if i :| 0 <= i < |s| && s[i].id == p.id {
      assert s[i] in s;
    }
  }

  lemma DistinctSnoc(s: seq<PeerInfo>, p: PeerInfo)
    ensures DistinctIds(s + [p]) <==> DistinctIds(s) && p.id !in IdSet(s)
  {
    var t := s + [p];
    assert forall i :: 0 <= i < |s| ==> t[i] == s[i];
    IdSetSnoc(s, p);
    if DistinctIds(t) {
      forall i, j | 0 <= i < j < |s| ensures s[i].id != s[j].id {
        assert t[i].id != t[j].id;
      }
      forall i | 0 <= i < |s| ensures s[i].id != p.id {
        assert t[i].id != t[|s|].id;
      }
    }
  }

  lemma {:induction false} DistinctMeansAllCounted(s: seq<PeerInfo>)
    ensures |IdSet(s)| <= |s|
    ensures DistinctIds(s) <==> |IdSet(s)| == |s|
  {
    if s == [] {
      assert IdSet(s) == {};
    } else {
      var init, p := s[..|s| - 1], s[|s| - 1];
      assert s == init + [p];
      DistinctMeansAllCounted(init);
      DistinctSnoc(init, p);
      IdSetSnoc(init, p);
    }
  }

  /** Distinct ids sort into strictly increasing distance. */
  lemma SortDistinct(s: seq<PeerInfo>, target: Id)
    requires DistinctIds(s)
    ensures DistinctIds(Sort(s, target))
    ensures IdSet(Sort(s, target)) == IdSet(s)
    ensures StrictlyNearer(Ids(Sort(s, target)), target)
  {
    var r := Sort(s, target);
    SortIsSortedPermutation(s, target);
    SameContentsSameIds(s, r);
    DistinctMeansAllCounted(s);
    DistinctMeansAllCounted(r);
    forall i, j | 0 <= i < j < |r| ensures Dist(Ids(r)[i], target) < Dist(Ids(r)[j], target) {
      assert NotAfter(r[i], r[j], target);
      DistInjective(r[i].id, r[j].id, target);
    }
  }

  // ---------------------------------------------------------------- the k nearest

  /** `out` lists the `k` ids of `pool` nearest to `target`, nearest first. */
  ghost predicate IsNearest(out: seq<Id>, pool: set<Id>, target: Id, k: nat)
  {
    && |out| == (if k <= |pool| then k else |pool|)
    && StrictlyNearer(out, target)
    && (forall x :: x in out ==> x in pool)
    && (forall x, y :: x in out && y in pool && y !in out ==> Dist(x, target) < Dist(y, target))
  }

  /** The first `k` of a strictly sorted sequence are the `k` nearest of its ids. */
  lemma PrefixIsNearest(s: seq<PeerInfo>, target: Id, k: nat)
    requires DistinctIds(s) && StrictlyNearer(Ids(s), target)
    ensures IsNearest(Ids(if k <= |s| then s[..k] else s), IdSet(s), target, k)
  {
    DistinctMeansAllCounted(s);
    var out := if k <= |s| then s[..k] else s;
    forall i | 0 <= i < |out| ensures Ids(out)[i] == Ids(s)[i] && s[i] in s {
    }
    forall x, y | x in Ids(out) && y in IdSet(s) && y !in Ids(out)
      ensures Dist(x, target) < Dist(y, target)
    {
      var i :| 0 <= i < |out| && Ids(out)[i] == x;
      var p :| p in s && p.id == y;
      var j :| 0 <= j < |s| && s[j] == p;
      assert j >= |out|;
      assert Dist(Ids(s)[i], target) < Dist(Ids(s)[j], target);
    }
  }

  /** "The k nearest" determines the sequence: nothing but the set of ids matters. */
  lemma {:induction false} NearestIsUnique(a: seq<Id>, b: seq<Id>, pool: set<Id>, target: Id, k: nat)
    requires IsNearest(a, pool, target, k) && IsNearest(b, pool, target, k)
    ensures a == b
  {
    var n := |a|;
    forall i | 0 <= i < n ensures a[i] == b[i] {
      NearestAgreeAt(a, b, pool, target, k, i);
    }
  }

  lemma {:induction false} NearestAgreeAt(a: seq<Id>, b: seq<Id>, pool: set<Id>, target: Id, k: nat, i: nat)
    requires IsNearest(a, pool, target, k) && IsNearest(b, pool, target, k)
    requires i < |a|
    ensures a[i] == b[i]
  {
    forall j | 0 <= j < i ensures a[j] == b[j] {
      NearestAgreeAt(a, b, pool, target, k, j);
    }
    NotNearer(a, b, pool, target, k, i);
    NotNearer(b, a, pool, target, k, i);
    DistInjective(a[i], b[i], target);
  }

  lemma NotNearer(a: seq<Id>, b: seq<Id>, pool: set<Id>, target: Id, k: nat, i: nat)
    requires IsNearest(a, pool, target, k) && IsNearest(b, pool, target, k)
    requires i < |a| && forall j :: 0 <= j < i ==> a[j] == b[j]
    ensures Dist(b[i], target) <= Dist(a[i], target)
  {
    assert a[i] in a && a[i] in pool;
  }
}
