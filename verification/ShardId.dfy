/** Which shard owns a key (`shard_id` in `src/types.rs`). */
module ShardId {
  import opened Xor

  /** Shard counts are 32-bit. */
  lemma WordIsPow2()
    ensures Pow2(32) == WORD
  {
    assert Pow2(8) == 256;
    Pow2Add(8, 8);
    Pow2Add(16, 16);
  }

  /** `32 - n.leading_zeros()`: the number of bits needed to write `n`. */
  function BitLength(n: nat): nat
  {
    if n == 0 then 0 else 1 + BitLength(n / 2)
  }

  /** `u32::is_power_of_two`. */
  predicate IsPowerOfTwo(n: nat)
  {
    n == 1 || (n > 1 && n % 2 == 0 && IsPowerOfTwo(n / 2))
  }

  /** Number of prefix bits used for `count` shards, ceil(log2 count). */
  function PrefixBits(count: nat): nat
    requires 1 <= count
  {
    BitLength(count - 1)
  }

  lemma {:induction false} BitLengthBounds(n: nat)
    ensures n < Pow2(BitLength(n))
    ensures n > 0 ==> BitLength(n) > 0 && Pow2(BitLength(n) - 1) <= n
  {
    if n > 1 {
      BitLengthBounds(n / 2);
    }
  }

  lemma {:induction false} BitLengthAtMost(n: nat, k: nat)
    requires n < Pow2(k)
    ensures BitLength(n) <= k
  {
    if n > 0 {
      BitLengthAtMost(n / 2, k - 1);
    }
  }

  lemma {:induction false} PowerOfTwoFillsPrefix(count: nat)
    requires 1 <= count
    ensures IsPowerOfTwo(count) <==> count == Pow2(PrefixBits(count))
  {
    if count > 1 {
      BitLengthBounds(count - 1);
      if count % 2 == 0 {
        PowerOfTwoFillsPrefix(count / 2);
        assert (count - 1) / 2 == count / 2 - 1;
      }
    }
  }

  lemma PrefixBitsBounds(count: nat)
    requires 2 <= count < WORD
    ensures 1 <= PrefixBits(count) <= 32
    ensures Pow2(PrefixBits(count)) < 2 * count && count <= Pow2(PrefixBits(count))
  {
    BitLengthBounds(count - 1);
    WordIsPow2();
    BitLengthAtMost(count - 1, 32);
  }

  lemma {:induction false} QuotientNonNegative(v: nat, m: nat)
    requires 0 < m
    ensures 0 <= v / m
  {
    var q := v / m;
    assert v == q * m + v % m;
  }

  /** Integer division, which is what shifting right by a number of bits is. */
  function Quotient(v: nat, m: nat): nat
    requires 0 < m
  {
    QuotientNonNegative(v, m);
    v / m
  }

  /** The four leading bytes of the distance as an integer. */
  function Prefix(self: Id, key: Id): nat
  {
    Value(Distance(self, key)[..4])
  }

  /** The prefix shifted right so that only the bits used remain. */
  function TopPrefixBits(self: Id, key: Id, count: nat): nat
    requires 2 <= count < WORD
  {
    PrefixBitsBounds(count);
    Quotient(Prefix(self, key), Pow2(32 - PrefixBits(count)))
  }

  /** `shard_id`: the top bits of the distance, folded modulo the count when it is not a power of two. */
  function ShardOf(self: Id, key: Id, count: nat): nat
    requires count < WORD
  {
    if count <= 1 then 0
    else
      var raw := TopPrefixBits(self, key, count);
      if IsPowerOfTwo(count) then raw else raw % count
  }

  /** The distance range a key falls in when distances are cut into 2^k equal ranges. */
  function Slice(self: Id, key: Id, count: nat): nat
    requires 2 <= count < WORD
  {
    PrefixBitsBounds(count);
    Quotient(Dist(self, key), Pow2(256 - PrefixBits(count)))
  }

  lemma {:induction false} QuotientUnique(v: nat, m: nat, q: nat)
    requires 0 < m && q * m <= v < q * m + m
    ensures Quotient(v, m) == q
  {
    var w := Quotient(v, m);
    assert v == w * m + v % m;
    if w < q {
      MulMonotone(w + 1, q, m);
      MulMonotone(w, w, m);
    } else if q < w {
      MulMonotone(q + 1, w, m);
      MulMonotone(q, q, m);
    }
  }

  lemma {:induction false} NestedQuotient(p: nat, u: nat, w: nat, lo: nat)
    requires 0 < u && lo < w
    ensures u * w > 0 && Quotient(w * p + lo, u * w) == Quotient(p, u)
  {
    var q, r := Quotient(p, u), p % u;
    MulMonotone(1, u, w);
    assert p == q * u + r;
    calc {
      w * p;
      w * (q * u + r);
      q * (u * w) + r * w;
    }
    MulMonotone(r + 1, u, w);
    MulMonotone(r, r, w);
    QuotientUnique(w * p + lo, u * w, q);
  }

  /** The four leading bytes, shifted, are the top bits of the whole 256-bit distance. */
  lemma PrefixIsSlice(self: Id, key: Id, count: nat)
    requires 2 <= count < WORD
    ensures TopPrefixBits(self, key, count) == Slice(self, key, count)
    ensures Slice(self, key, count) < Pow2(PrefixBits(count))
  {
    PrefixBitsBounds(count);
    TopBits(Distance(self, key), PrefixBits(count));
  }

  lemma TopBits(d: Id, k: nat)
    requires k <= 32
    ensures Quotient(Value(d[..4]), Pow2(32 - k)) == Quotient(Value(d), Pow2(256 - k)) < Pow2(k)
  {
    var hi, lo := d[..4], d[4..];
    assert d == hi + lo;
    var w := 8 * |lo|;
    ValueConcat(hi, lo);
    ValueBelow(lo);
    assert Pow2(256 - k) == Pow2(32 - k) * Pow2(w) by { Pow2Add(32 - k, w); }
    NestedQuotient(Value(hi), Pow2(32 - k), Pow2(w), Value(lo));
    ValueBelow(hi);
    QuotientBelow(Value(hi), 32 - k, k);
  }

  lemma {:induction false} QuotientBelow(v: nat, j: nat, k: nat)
    requires v < Pow2(j + k)
    ensures Quotient(v, Pow2(j)) < Pow2(k)
  {
    Pow2Add(j, k);
    var q := Quotient(v, Pow2(j));
    assert q * Pow2(j) <= v;
    if Pow2(k) <= q {
      MulMonotone(Pow2(k), q, Pow2(j));
    }
  }

  lemma ShardInRange(self: Id, key: Id, count: nat)
    requires 1 <= count < WORD
    ensures ShardOf(self, key, count) < count
  {
    if count > 1 {
      PrefixIsSlice(self, key, count);
      PowerOfTwoFillsPrefix(count);
    }
  }

  lemma {:induction false} FoldOnce(p: nat, count: nat)
    requires p < 2 * count
    ensures p % count == if p < count then p else p - count
  {
    if p < count {
      QuotientUnique(p, count, 0);
    } else {
      QuotientUnique(p, count, 1);
    }
  }

  /** A shard owns the range with its own number and, when that range exists, the one `count` further on. */
  lemma ShardOwnsOneOrTwoSlices(self: Id, key: Id, count: nat, s: nat)
    requires 2 <= count < WORD && s < count
    ensures ShardOf(self, key, count) == s <==>
            Slice(self, key, count) == s || Slice(self, key, count) == s + count
    ensures IsPowerOfTwo(count) ==> Slice(self, key, count) < count
  {
    PrefixIsSlice(self, key, count);
    PowerOfTwoFillsPrefix(count);
    PrefixBitsBounds(count);
    FoldOnce(Slice(self, key, count), count);
  }

  // ---------------------------------------------------------------- which counts are XOR-local

  /** The id at a given distance. */
  function Bytes(n: nat, len: nat): (s: seq<Byte>)
    ensures |s| == len
  {
    if len == 0 then [] else Bytes(n / 256, len - 1) + [n % 256]
  }

  lemma {:induction false} ValueOfBytes(n: nat, len: nat)
    requires n < Pow2(8 * len)
    ensures Value(Bytes(n, len)) == n
  {
    if len > 0 {
      Pow2Add(8, 8 * (len - 1));
      assert Pow2(8) == 256;
      ValueOfBytes(n / 256, len - 1);
      assert Bytes(n, len)[..len - 1] == Bytes(n / 256, len - 1);
    }
  }

  function AtDistance(self: Id, n: nat): Id
  {
    Distance(self, Bytes(n, 32))
  }

  /** Every distance below 2^256 is taken by exactly one id. */
  lemma ExactlyOneIdAtDistance(self: Id, n: nat, other: Id)
    requires n < Pow2(8 * ID_LEN)
    ensures Dist(self, other) == n <==> other == AtDistance(self, n)
  {
    var b: Id := Bytes(n, 32);
    ValueOfBytes(n, 32);
    var a := AtDistance(self, n);
    DistIsXor(self, b);
    DistIsXor(self, a);
    var s := Value(self);
    assert Value(a) == XorNat(s, n);
    XorSymmetric(s, XorNat(s, n));
    XorSymmetric(s, n);
    XorCancel(n, s);
    assert Dist(self, a) == n;
    DistSymmetric(self, a);
    DistSymmetric(self, other);
    DistInjective(a, other, self);
  }

  /** Nearer keys never go to a higher shard. */
  ghost predicate XorLocal(self: Id, count: nat)
    requires count < WORD
  {
    forall a: Id, b: Id :: Dist(self, a) <= Dist(self, b) ==> ShardOf(self, a, count) <= ShardOf(self, b, count)
  }

  lemma {:induction false} QuotientMonotone(a: nat, b: nat, m: nat)
    requires a <= b && 0 < m
    ensures Quotient(a, m) <= Quotient(b, m)
  {
    var p, q := Quotient(a, m), Quotient(b, m);
    assert a == p * m + a % m && b == q * m + b % m;
    if q < p {
      MulMonotone(q + 1, p, m);
    }
  }

  lemma SliceOfId(self: Id, p: nat, count: nat) returns (key: Id)
    requires 2 <= count < WORD && p < Pow2(PrefixBits(count))
    ensures Slice(self, key, count) == p
    ensures PrefixBits(count) <= 32 && Dist(self, key) == p * Pow2(256 - PrefixBits(count))
  {
    PrefixBitsBounds(count);
    var k := PrefixBits(count);
    var m := Pow2(256 - k);
    Pow2Add(k, 256 - k);
    MulMonotone(p + 1, Pow2(k), m);
    MulMonotone(p, p, m);
    key := AtDistance(self, p * m);
    ExactlyOneIdAtDistance(self, p * m, key);
    QuotientUnique(p * m, m, p);
  }

  /** Shards are contiguous ranges of distance exactly when their number is a power of two. */
  lemma XorLocalIffPowerOfTwo(self: Id, count: nat)
    requires 1 <= count < WORD
    ensures XorLocal(self, count) <==> IsPowerOfTwo(count)
  {
    if count > 1 {
      PrefixBitsBounds(count);
      PowerOfTwoFillsPrefix(count);
      if IsPowerOfTwo(count) {
        forall a: Id, b: Id | Dist(self, a) <= Dist(self, b)
          ensures ShardOf(self, a, count) <= ShardOf(self, b, count)
        {
          PrefixIsSlice(self, a, count);
          PrefixIsSlice(self, b, count);
          QuotientMonotone(Dist(self, a), Dist(self, b), Pow2(256 - PrefixBits(count)));
        }
      } else {
        var a := SliceOfId(self, count - 1, count);
        var b := SliceOfId(self, count, count);
        MulMonotone(count - 1, count, Pow2(256 - PrefixBits(count)));
        ShardOwnsOneOrTwoSlices(self, a, count, count - 1);
        ShardOwnsOneOrTwoSlices(self, b, count, 0);
        assert !XorLocal(self, count);
      }
    }
  }
}
