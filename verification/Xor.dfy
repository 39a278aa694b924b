/** 256-bit identifiers and the XOR metric (`src/types.rs`).

    Identifiers are byte strings, most significant byte first. `Value` reads one as an
    integer and `XorNat` is bitwise exclusive or on the integers; the byte-wise code is
    related to both. */
module Xor {

  type Byte = b: nat | b < 256

  /** Counters, lengths and checksums are 32 bits wide. */
  const WORD: nat := 0x1_0000_0000

  function Bit(b: bool): nat { if b then 1 else 0 }

  const ID_LEN := 32

  type Id = s: seq<Byte> | |s| == 32 witness seq(32, _ => 0)

  function Pow2(n: nat): (p: nat)
    ensures 0 < p
  {
    if n == 0 then 1 else 2 * Pow2(n - 1)
  }

  /** Exclusive or, bit by bit from the least significant end. */
  function XorNat(a: nat, b: nat): nat
    decreases a + b
  {
    if a == 0 && b == 0 then 0 else 2 * XorNat(a / 2, b / 2) + (if a % 2 == b % 2 then 0 else 1)
  }

  lemma {:induction false} XorBelowPow2(n: nat, a: nat, b: nat)
    requires a < Pow2(n) && b < Pow2(n)
    ensures XorNat(a, b) < Pow2(n)
  {
    if n > 0 {
      XorBelowPow2(n - 1, a / 2, b / 2);
    }
  }

  function XorByte(a: Byte, b: Byte): Byte
  {
    assert Pow2(8) == 256;
    XorBelowPow2(8, a, b);
    XorNat(a, b)
  }

  /** `xor_distance` as a value: position-wise exclusive or. */
  function Distance(a: Id, b: Id): Id
  {
    seq(32, i requires 0 <= i < 32 => XorByte(a[i], b[i]))
  }

  /** The integer a byte string denotes, big-endian. */
  function Value(s: seq<Byte>): nat
  {
    if s == [] then 0 else 256 * Value(s[..|s| - 1]) + s[|s| - 1]
  }

  /** How Rust orders byte arrays of equal length: at the first difference. */
  ghost predicate LexLess(a: seq<Byte>, b: seq<Byte>)
    requires |a| == |b|
  {
    exists i :: 0 <= i < |a| && a[..i] == b[..i] && a[i] < b[i]
  }

  /** The distance as an integer. */
  function Dist(a: Id, b: Id): nat
  {
    Value(Distance(a, b))
  }

  /** The loop of `xor_distance`. */
  method XorDistance(a: Id, b: Id) returns (d: Id)
    ensures d == Distance(a, b)
  {
    var out: seq<Byte> := [];
    for i := 0 to ID_LEN
      invariant |out| == i
      invariant forall j :: 0 <= j < i ==> out[j] == XorByte(a[j], b[j])
    {
      out := out + [XorByte(a[i], b[i])];
    }
    d := out;
  }

  // ---------------------------------------------------------------- XOR on integers

  lemma {:induction false} XorSymmetric(a: nat, b: nat)
    ensures XorNat(a, b) == XorNat(b, a)
    decreases a + b
  {
    if a != 0 || b != 0 {
      XorSymmetric(a / 2, b / 2);
    }
  }

  lemma {:induction false} XorZero(a: nat)
    ensures XorNat(a, 0) == a
  {
    if a != 0 {
      XorZero(a / 2);
    }
  }

  lemma {:induction false} XorSelf(a: nat, b: nat)
    ensures XorNat(a, b) == 0 <==> a == b
    decreases a + b
  {
    if a != 0 || b != 0 {
      XorSelf(a / 2, b / 2);
    }
  }

  lemma {:induction false} XorDoubles(x: nat, y: nat, p: nat, q: nat)
    requires p < 2 && q < 2
    ensures XorNat(2 * x + p, 2 * y + q) == 2 * XorNat(x, y) + (if p == q then 0 else 1)
  {
  }

  lemma {:induction false} XorAssociative(a: nat, b: nat, c: nat)
    ensures XorNat(XorNat(a, b), c) == XorNat(a, XorNat(b, c))
    decreases a + b + c
  {
    if a != 0 || b != 0 || c != 0 {
      var x, y, z, p, q, r := a / 2, b / 2, c / 2, a % 2, b % 2, c % 2;
      XorAssociative(x, y, z);
      AssociativeStep(x, y, z, p, q, r);
    }
  }

  lemma {:induction false} AssociativeStep(x: nat, y: nat, z: nat, p: nat, q: nat, r: nat)
    requires p < 2 && q < 2 && r < 2
    requires XorNat(XorNat(x, y), z) == XorNat(x, XorNat(y, z))
    ensures XorNat(XorNat(2 * x + p, 2 * y + q), 2 * z + r) == XorNat(2 * x + p, XorNat(2 * y + q, 2 * z + r))
  {
    var xy, yz, u, v := XorNat(x, y), XorNat(y, z), if p == q then 0 else 1, if q == r then 0 else 1;
    XorDoubles(x, y, p, q);
    XorDoubles(y, z, q, r);
    XorDoubles(xy, z, u, r);
    XorDoubles(x, yz, p, v);
  }

  lemma {:induction false} XorAtMostSum(a: nat, b: nat)
    ensures XorNat(a, b) <= a + b
    decreases a + b
  {
    if a != 0 || b != 0 {
      XorAtMostSum(a / 2, b / 2);
    }
  }

  lemma {:induction false} XorCancel(a: nat, t: nat)
    ensures XorNat(XorNat(a, t), t) == a
  {
    XorAssociative(a, t, t);
    XorSelf(t, t);
    XorZero(a);
  }

  /** Two integers with the same top bit differ only below it. */
  lemma {:induction false} XorOfSameTopBit(i: nat, x: nat, y: nat)
    requires Pow2(i) <= x < Pow2(i + 1)
    requires Pow2(i) <= y < Pow2(i + 1)
    ensures XorNat(x, y) < Pow2(i)
  {
    if i == 0 {
      XorSelf(x, y);
    } else {
      XorOfSameTopBit(i - 1, x / 2, y / 2);
    }
  }

  /** `x` with the `n` low bits of `p` written after it. */
  function Join(n: nat, x: nat, p: nat): nat
  {
    if n == 0 then x else 2 * Join(n - 1, x, p / 2) + p % 2
  }

  lemma {:induction false} JoinIsShift(n: nat, x: nat, p: nat)
    requires p < Pow2(n)
    ensures Join(n, x, p) == Pow2(n) * x + p
  {
    if n > 0 {
      JoinIsShift(n - 1, x, p / 2);
      DoubleProduct(Pow2(n - 1), x);
    }
  }

  lemma {:induction false} DoubleProduct(h: nat, x: nat)
    ensures 2 * h * x == 2 * (h * x)
  {
  }

  /** Exclusive or acts on high and low parts separately. */
  lemma {:induction false} XorOfJoins(n: nat, x: nat, y: nat, p: nat, q: nat)
    ensures XorNat(Join(n, x, p), Join(n, y, q)) == Join(n, XorNat(x, y), XorNat(p, q))
  {
    if n > 0 {
      var p', q' := p / 2, q / 2;
      XorOfJoins(n - 1, x, y, p', q');
      XorDoubles(Join(n - 1, x, p'), Join(n - 1, y, q'), p % 2, q % 2);
      XorHalves(p, q);
    }
  }

  lemma {:induction false} XorHalves(p: nat, q: nat)
    ensures XorNat(p, q) / 2 == XorNat(p / 2, q / 2)
    ensures XorNat(p, q) % 2 == if p % 2 == q % 2 then 0 else 1
  {
  }

  // ---------------------------------------------------------------- bytes and integers

  lemma {:induction false} ValueInjective(a: seq<Byte>, b: seq<Byte>)
    requires |a| == |b|
    ensures Value(a) == Value(b) <==> a == b
  {
    if a != [] {
      var n := |a| - 1;
      ValueInjective(a[..n], b[..n]);
      assert a == a[..n] + [a[n]] && b == b[..n] + [b[n]];
    }
  }

  lemma {:induction false} LexLessSnoc(a: seq<Byte>, b: seq<Byte>, x: Byte, y: Byte)
    requires |a| == |b|
    ensures LexLess(a + [x], b + [y]) <==> LexLess(a, b) || (a == b && x < y)
  {
    var axs, bys, n := a + [x], b + [y], |a|;
    if LexLess(axs, bys) {
      var i :| 0 <= i < |axs| && axs[..i] == bys[..i] && axs[i] < bys[i];
      if i < n {
        assert a[..i] == axs[..i] && b[..i] == bys[..i];
      } else {
        assert a == axs[..n] && b == bys[..n];
      }
    }
    if LexLess(a, b) {
      var i :| 0 <= i < |a| && a[..i] == b[..i] && a[i] < b[i];
      assert axs[..i] == a[..i] && bys[..i] == b[..i] && axs[i] < bys[i];
    }
    if a == b && x < y {
      assert axs[..n] == a && bys[..n] == b && axs[n] < bys[n];
    }
  }

  /** Comparing distances as byte arrays is comparing them as 256-bit integers. */
  lemma {:induction false} LexOrderIsIntegerOrder(a: seq<Byte>, b: seq<Byte>)
    requires |a| == |b|
    ensures LexLess(a, b) <==> Value(a) < Value(b)
  {
    if a != [] {
      var n := |a| - 1;
      LexOrderIsIntegerOrder(a[..n], b[..n]);
      ValueInjective(a[..n], b[..n]);
      LexLessSnoc(a[..n], b[..n], a[n], b[n]);
      assert a == a[..n] + [a[n]] && b == b[..n] + [b[n]];
    }
  }

  ghost predicate XorsTo(a: seq<Byte>, b: seq<Byte>, d: seq<Byte>)
  {
    |a| == |b| == |d| && forall i :: 0 <= i < |d| ==> d[i] == XorByte(a[i], b[i])
  }

  lemma {:induction false} ValueOfXor(a: seq<Byte>, b: seq<Byte>, d: seq<Byte>)
    requires XorsTo(a, b, d)
    ensures Value(d) == XorNat(Value(a), Value(b))
  {
    if d != [] {
      var n := |d| - 1;
      ValueOfXor(a[..n], b[..n], d[..n]);
      assert Pow2(8) == 256;
      var x, y := Value(a[..n]), Value(b[..n]);
      XorOfJoins(8, x, y, a[n], b[n]);
      JoinIsShift(8, x, a[n]);
      JoinIsShift(8, y, b[n]);
      JoinIsShift(8, XorNat(x, y), d[n]);
    }
  }

  lemma DistIsXor(a: Id, b: Id)
    ensures Dist(a, b) == XorNat(Value(a), Value(b))
  {
    ValueOfXor(a, b, Distance(a, b));
  }

  // ---------------------------------------------------------------- the metric

  lemma DistZeroIffEqual(a: Id, b: Id)
    ensures Dist(a, b) == 0 <==> a == b
  {
    DistIsXor(a, b);
    XorSelf(Value(a), Value(b));
    ValueInjective(a, b);
  }

  lemma DistSymmetric(a: Id, b: Id)
    ensures Dist(a, b) == Dist(b, a)
  {
    DistIsXor(a, b);
    DistIsXor(b, a);
    XorSymmetric(Value(a), Value(b));
  }

  lemma TriangleInequality(a: Id, b: Id, c: Id)
    ensures Dist(a, c) <= Dist(a, b) + Dist(b, c)
  {
    var x, y, z := Value(a), Value(b), Value(c);
    DistIsXor(a, b);
    DistIsXor(b, c);
    DistIsXor(a, c);
    XorAssociative(XorNat(x, y), y, z);
    XorCancel(x, y);
    XorAtMostSum(XorNat(x, y), XorNat(y, z));
  }

  /** For a fixed target no two ids are equally far away. */
  lemma DistInjective(a: Id, b: Id, target: Id)
    ensures Dist(a, target) == Dist(b, target) <==> a == b
  {
    DistIsXor(a, target);
    DistIsXor(b, target);
    XorCancel(Value(a), Value(target));
    XorCancel(Value(b), Value(target));
    ValueInjective(a, b);
  }

  // ---------------------------------------------------------------- buckets

  /** `u8::leading_zeros`. */
  function LeadingZerosByte(b: Byte): (z: nat)
    ensures z <= 8 && (b == 0 <==> z == 8)
    ensures z < 8 ==> Pow2(7 - z) <= b < Pow2(8 - z)
  {
    assert Pow2(0) == 1 && Pow2(1) == 2 && Pow2(2) == 4 && Pow2(3) == 8 && Pow2(4) == 16;
    assert Pow2(5) == 32 && Pow2(6) == 64 && Pow2(7) == 128 && Pow2(8) == 256;
    if b >= 128 then 0 else if b >= 64 then 1 else if b >= 32 then 2 else if b >= 16 then 3
    else if b >= 8 then 4 else if b >= 4 then 5 else if b >= 2 then 6 else if b >= 1 then 7 else 8
  }

  lemma {:induction false} Pow2Add(m: nat, n: nat)
    ensures Pow2(m + n) == Pow2(m) * Pow2(n)
  {
    if m > 0 {
      Pow2Add(m - 1, n);
      assert Pow2(m + n) == 2 * Pow2(m - 1 + n);
    }
  }

  lemma {:induction false} Pow2Monotone(m: nat, n: nat)
    requires m <= n
    ensures Pow2(m) <= Pow2(n)
  {
    if m < n {
      Pow2Monotone(m, n - 1);
    }
  }

  lemma {:induction false} ValueBelow(s: seq<Byte>)
    ensures Value(s) < Pow2(8 * |s|)
  {
    if s != [] {
      var n := |s| - 1;
      ValueBelow(s[..n]);
      Pow2Add(8, 8 * n);
      assert Pow2(8) == 256;
    }
  }

  /** Splitting a byte string into high and low parts. */
  lemma {:induction false} ValueConcat(hi: seq<Byte>, lo: seq<Byte>)
    ensures Value(hi + lo) == Pow2(8 * |lo|) * Value(hi) + Value(lo)
  {
    if lo == [] {
      assert hi + lo == hi;
    } else {
      var n := |lo| - 1;
      ValueConcat(hi, lo[..n]);
      assert (hi + lo)[..|hi + lo| - 1] == hi + lo[..n];
      NextByte(n);
      Regroup(Pow2(8 * n), Value(hi), Value(lo[..n]), lo[n]);
    }
  }

  lemma {:induction false} NextByte(n: nat)
    ensures Pow2(8 * (n + 1)) == 256 * Pow2(8 * n)
  {
    Pow2Add(8, 8 * n);
    assert Pow2(8) == 256;
  }

  lemma {:induction false} Regroup(p: nat, v: nat, w: nat, b: nat)
    ensures 256 * (p * v + w) + b == (256 * p) * v + (256 * w + b)
  {
    assert (256 * p) * v == 256 * (p * v);
  }

  /** Number of zero bits before the first one bit of `d`. */
  function LeadingZeros(d: seq<Byte>): (z: nat)
    ensures z <= 8 * |d|
  {
    if d == [] then 0 else if d[0] == 0 then 8 + LeadingZeros(d[1..]) else LeadingZerosByte(d[0])
  }

  lemma {:induction false} TopByteBounds(b: Byte, z: nat, w: nat, lo: nat)
    requires z < 8 && Pow2(7 - z) <= b < Pow2(8 - z) && lo < Pow2(w)
    ensures Pow2(7 - z + w) <= Pow2(w) * b + lo < Pow2(8 - z + w)
  {
    var l, h, m := Pow2(7 - z), Pow2(8 - z), Pow2(w);
    assert Pow2(7 - z + w) == l * m by { Pow2Add(7 - z, w); }
    assert Pow2(8 - z + w) == h * m by { Pow2Add(8 - z, w); }
    ScaledBounds(l, b, h, m, lo);
  }

  lemma {:induction false} ScaledBounds(l: nat, b: nat, h: nat, m: nat, lo: nat)
    requires l <= b < h && lo < m
    ensures l * m <= m * b + lo < h * m
  {
    MulMonotone(l, b, m);
    MulMonotone(b, b, m);
    MulMonotone(b + 1, h, m);
  }

  lemma {:induction false} MulMonotone(a: nat, b: nat, m: nat)
    requires a <= b
    ensures a * m <= b * m && (a + 1) * m == a * m + m
  {
  }

  lemma {:induction false} LeadingZerosBounds(d: seq<Byte>)
    ensures var z := LeadingZeros(d);
            if z == 8 * |d| then Value(d) == 0
            else Pow2(8 * |d| - z - 1) <= Value(d) < Pow2(8 * |d| - z)
  {
    if d != [] {
      var lo := d[1..];
      TopByteValue(d);
      if d[0] == 0 {
        LeadingZerosBounds(lo);
      } else {
        ValueBelow(lo);
        TopByteBounds(d[0], LeadingZerosByte(d[0]), 8 * |lo|, Value(lo));
        assert 8 * |d| == 8 + 8 * |lo|;
      }
    }
  }

  lemma {:induction false} TopByteValue(d: seq<Byte>)
    requires d != []
    ensures Value(d) == Pow2(8 * |d[1..]|) * d[0] + Value(d[1..])
    ensures d[0] == 0 ==> Value(d) == Value(d[1..])
  {
    assert d == [d[0]] + d[1..];
    ValueConcat([d[0]], d[1..]);
    assert Value([d[0]]) == d[0];
  }

  /** The loop of `leading_zeros_256`, which stops at the first nonzero byte. */
  method LeadingZeros256(d: Id) returns (n: nat)
    ensures n == LeadingZeros(d)
  {
    n := 0;
    var i := 0;
    while i < |d|
      invariant 0 <= i <= |d|
      invariant n + LeadingZeros(d[i..]) == LeadingZeros(d)
    {
      if d[i] == 0 {
        n := n + 8;
        assert d[i..][1..] == d[i + 1..];
        i := i + 1;
      } else {
        n := n + LeadingZerosByte(d[i]);
        return;
      }
    }
  }

  /** `bucket_index`: 255 minus the leading zeros of the distance, and 0 for the node itself. */
  function BucketIndex(self: Id, other: Id): (i: nat)
    ensures i < 256
  {
    var z := LeadingZeros(Distance(self, other));
    if z >= 256 then 0 else 255 - z
  }

  /** Bucket i holds exactly the ids at distance [2^i, 2^(i+1)). */
  lemma BucketIndexIsFloorLog2(self: Id, other: Id, i: nat)
    requires self != other
    ensures BucketIndex(self, other) == i <==> Pow2(i) <= Dist(self, other) < Pow2(i + 1)
  {
    var d := Distance(self, other);
    LeadingZerosBounds(d);
    DistZeroIffEqual(self, other);
    var b := BucketIndex(self, other);
    assert Pow2(b) <= Value(d) < Pow2(b + 1);
    if i < b {
      Pow2Monotone(i + 1, b);
    } else if b < i {
      Pow2Monotone(b + 1, i);
    }
  }

  /** Two ids of one bucket are closer to each other than either is to the node. */
  lemma SameBucketIsCloser(self: Id, a: Id, b: Id)
    requires self != a && self != b
    requires BucketIndex(self, a) == BucketIndex(self, b)
    ensures Dist(a, b) < Dist(self, a) && Dist(a, b) < Dist(self, b)
  {
    var i := BucketIndex(self, a);
    BucketIndexIsFloorLog2(self, a, i);
    BucketIndexIsFloorLog2(self, b, i);
    XorOfSameTopBit(i, Dist(self, a), Dist(self, b));
    DistIsXor(self, a);
    DistIsXor(self, b);
    DistIsXor(a, b);
    var s, x, y := Value(self), Value(a), Value(b);
    XorSymmetric(s, x);
    XorAssociative(XorNat(x, s), s, y);
    XorCancel(x, s);
  }
}
