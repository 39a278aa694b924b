/** The framed log shared by peers and records (`write_frame` and the two replay loops in
    `src/peerstore.rs` and `src/store.rs`): length, type, payload, checksum. */
module Framing {
  import opened Xor
  import opened Peers

  type Word = n: nat | n < WORD

  const TYPE_UPSERT: Byte := 1
  const TYPE_TOMBSTONE: Byte := 2
  const TYPE_RECORD: Byte := 3

  /** The checksum, as a function the model does not look into. */
  type Crc = seq<Byte> -> Word

  /** A log record. The length field is 32 bits wide, so payloads are below 4 GiB. */
  datatype Frame = Frame(ty: Byte, payload: seq<Byte>)
  {
    predicate Fits() { |payload| < WORD }
  }

  ghost predicate AllFit(fs: seq<Frame>)
  {
    forall i :: 0 <= i < |fs| ==> fs[i].Fits()
  }

  /** The low `k` base-256 digits of `n`, least significant first. */
  function Digits(n: nat, k: nat): (s: seq<Byte>)
    ensures |s| == k
  {
    if k == 0 then [] else [n % 256] + Digits(n / 256, k - 1)
  }

  function FromDigits(s: seq<Byte>): nat
  {
    if s == [] then 0 else 256 * FromDigits(s[1..]) + s[0]
  }

  lemma {:induction false} DigitsRoundTrip(n: nat, k: nat)
    requires n < Pow2(8 * k)
    ensures FromDigits(Digits(n, k)) == n
  {
    if k > 0 {
      Pow2Add(8, 8 * (k - 1));
      assert Pow2(8) == 256;
      DigitsRoundTrip(n / 256, k - 1);
    }
  }

  /** `u32::to_le_bytes`. */
  function LittleEndian(n: Word): (s: seq<Byte>)
    ensures |s| == 4
  {
    Digits(n, 4)
  }

  /** `u32::from_le_bytes`. */
  function FromLittleEndian(s: seq<Byte>): nat
    requires |s| == 4
  {
    FromDigits(s)
  }

  lemma {:induction false} LittleEndianRoundTrip(n: Word)
    ensures FromLittleEndian(LittleEndian(n)) == n
  {
    assert Pow2(8) == 256;
    Pow2Add(8, 8);
    Pow2Add(16, 16);
    DigitsRoundTrip(n, 4);
  }

  /** What `write_frame` writes; the length is truncated to 32 bits. */
  function Encode(f: Frame, crc: Crc): seq<Byte>
  {
    LittleEndian(|f.payload| % WORD) + [f.ty] + f.payload + LittleEndian(crc(f.payload))
  }

  function EncodeAll(fs: seq<Frame>, crc: Crc): seq<Byte>
  {
    if fs == [] then [] else Encode(fs[0], crc) + EncodeAll(fs[1..], crc)
  }

  /** One turn of the replay loop: the frame at the front, or nothing if it is cut short or its
      checksum is wrong. */
  function ReadFrame(b: seq<Byte>, crc: Crc): (r: Option<Frame>)
    ensures r.Some? ==> 9 + |r.value.payload| <= |b|
  {
    if |b| < 5 then None
    else
      var len := FromLittleEndian(b[..4]);
      if |b| < 5 + len then None
      else if |b| < 9 + len then None
      else if crc(b[5..5 + len]) != FromLittleEndian(b[5 + len..9 + len]) then None
      else Some(Frame(b[4], b[5..5 + len]))
  }

  /** Every frame a replay sees, in order; it stops at the first one it cannot read. */
  function Parse(b: seq<Byte>, crc: Crc): seq<Frame>
    decreases |b|
  {
    var r := ReadFrame(b, crc);
    if r.None? then [] else [r.value] + Parse(b[9 + |r.value.payload|..], crc)
  }

  /** The reads at the top of the replay loop: header, payload, checksum, each possibly cut short. */
  method ReadAt(b: seq<Byte>, pos: nat, crc: Crc) returns (r: Option<Frame>)
    requires pos <= |b|
    ensures r == ReadFrame(b[pos..], crc)
  {
    ghost var rest := b[pos..];
    if |b| < pos + 5 {
      return None;
    }
    var len := FromLittleEndian(b[pos..pos + 4]);
    assert rest[..4] == b[pos..pos + 4];
    var ty := b[pos + 4];
    if |b| < pos + 5 + len {
      return None;
    }
    var payload := b[pos + 5..pos + 5 + len];
    assert rest[5..5 + len] == payload;
    if |b| < pos + 9 + len {
      return None;
    }
    assert rest[5 + len..9 + len] == b[pos + 5 + len..pos + 9 + len];
    if crc(payload) != FromLittleEndian(b[pos + 5 + len..pos + 9 + len]) {
      return None;
    }
    return Some(Frame(ty, payload));
  }

  /** The replay loop, collecting the frames it applies. */
  method ReplayFrames(b: seq<Byte>, crc: Crc) returns (fs: seq<Frame>)
    ensures fs == Parse(b, crc)
  {
    fs := [];
    var pos := 0;
    while true
      invariant 0 <= pos <= |b|
      invariant fs + Parse(b[pos..], crc) == Parse(b, crc)
      decreases |b| - pos
    {
      var r := ReadAt(b, pos, crc);
      if r.None? {
        assert fs + [] == fs;
        return;
      }
      var n := 9 + |r.value.payload|;
      assert b[pos..][n..] == b[pos + n..];
      ghost var p := Parse(b[pos + n..], crc);
      assert fs + ([r.value] + p) == (fs + [r.value]) + p;
      fs := fs + [r.value];
      pos := pos + n;
    }
  }

  // ---------------------------------------------------------------- printing, parsing, cutting

  lemma Parts(h: seq<Byte>, ty: Byte, p: seq<Byte>, c: seq<Byte>, rest: seq<Byte>)
    requires |h| == |c| == 4
    ensures var b, n := h + [ty] + p + c + rest, |p|;
            b[..4] == h && b[4] == ty && b[5..5 + n] == p && b[5 + n..9 + n] == c && b[9 + n..] == rest
  {
  }

  /** A whole frame at the front is read back, whatever follows it. */
  lemma {:induction false} ReadEncoded(f: Frame, rest: seq<Byte>, crc: Crc)
    requires f.Fits()
    ensures ReadFrame(Encode(f, crc) + rest, crc) == Some(f)
    ensures |Encode(f, crc)| == 9 + |f.payload|
    ensures (Encode(f, crc) + rest)[9 + |f.payload|..] == rest
  {
    var n := |f.payload|;
    var h, c := LittleEndian(n), LittleEndian(crc(f.payload));
    assert Encode(f, crc) == h + [f.ty] + f.payload + c;
    Parts(h, f.ty, f.payload, c, rest);
    assert FromLittleEndian(h) == n by { LittleEndianRoundTrip(n); }
    assert FromLittleEndian(c) == crc(f.payload) by { LittleEndianRoundTrip(crc(f.payload)); }
  }

  /** A frame cut short is not read. */
  lemma {:induction false} ReadCut(f: Frame, n: nat, crc: Crc)
    requires f.Fits() && n < |Encode(f, crc)|
    ensures ReadFrame(Encode(f, crc)[..n], crc) == None
  {
    if n >= 5 {
      var h := LittleEndian(|f.payload|);
      assert FromLittleEndian(h) == |f.payload| by { LittleEndianRoundTrip(|f.payload|); }
      assert Encode(f, crc)[..n][..4] == h;
    }
  }

  /** How many of the frames lie wholly inside the first `n` bytes. */
  function WholeFrames(fs: seq<Frame>, n: nat): nat
  {
    if fs == [] || n < 9 + |fs[0].payload| then 0 else 1 + WholeFrames(fs[1..], n - 9 - |fs[0].payload|)
  }

  /** `WholeFrames` is the number of frames whose encodings together fit in `n` bytes. */
  lemma {:induction false} WholeFramesIsExact(fs: seq<Frame>, n: nat, crc: Crc)
    requires AllFit(fs)
    ensures WholeFrames(fs, n) <= |fs|
    ensures |EncodeAll(fs[..WholeFrames(fs, n)], crc)| <= n
    ensures WholeFrames(fs, n) < |fs| ==> n < |EncodeAll(fs[..WholeFrames(fs, n) + 1], crc)|
  {
    var m := WholeFrames(fs, n);
    if fs != [] {
      ReadEncoded(fs[0], [], crc);
      if m > 0 {
        var rest := fs[1..];
        WholeFramesIsExact(rest, n - 9 - |fs[0].payload|, crc);
        assert fs[..m][1..] == rest[..m - 1];
        if m < |fs| {
          assert fs[..m + 1][1..] == rest[..m];
        }
      } else {
        assert fs[..1] == [fs[0]];
      }
    }
  }

  lemma {:induction false} ParseCons(f: Frame, rest: seq<Byte>, crc: Crc)
    requires f.Fits()
    ensures Parse(Encode(f, crc) + rest, crc) == [f] + Parse(rest, crc)
  {
    ReadEncoded(f, rest, crc);
  }

  lemma EncodedLength(f: Frame, crc: Crc)
    ensures |Encode(f, crc)| == 9 + |f.payload|
  {
  }

  lemma {:induction false} TornHere(f: Frame, rest: seq<Byte>, n: nat, crc: Crc)
    requires f.Fits() && n < 9 + |f.payload|
    ensures n <= |Encode(f, crc) + rest|
    ensures Parse((Encode(f, crc) + rest)[..n], crc) == []
  {
    var e := Encode(f, crc);
    assert (e + rest)[..n] == e[..n];
    ReadCut(f, n, crc);
  }

  lemma {:induction false} ParseStep(f: Frame, rest: seq<Byte>, more: seq<Byte>, fs: seq<Frame>, p: seq<Frame>, crc: Crc)
    requires f.Fits() && Parse(rest + more, crc) == fs + p
    ensures Parse((Encode(f, crc) + rest) + more, crc) == ([f] + fs) + p
  {
    var e := Encode(f, crc);
    assert (e + rest) + more == e + (rest + more);
    ParseCons(f, rest + more, crc);
    assert ([f] + fs) + p == [f] + (fs + p);
  }

  /** Frames appended to a whole log are read after the ones already there. */
  lemma {:induction false} ParseAppended(fs: seq<Frame>, more: seq<Byte>, crc: Crc)
    requires AllFit(fs)
    ensures Parse(EncodeAll(fs, crc) + more, crc) == fs + Parse(more, crc)
  {
    if fs == [] {
      assert EncodeAll(fs, crc) + more == more;
    } else {
      var f, tail := fs[0], fs[1..];
      ParseAppended(tail, more, crc);
      ParseStep(f, EncodeAll(tail, crc), more, tail, Parse(more, crc), crc);
      assert fs == [f] + tail;
    }
  }

  /** With nothing cut off, parsing undoes printing. */
  lemma ParseUndoesEncode(fs: seq<Frame>, crc: Crc)
    requires AllFit(fs)
    ensures Parse(EncodeAll(fs, crc), crc) == fs
  {
    ParseAppended(fs, [], crc);
    assert EncodeAll(fs, crc) + [] == EncodeAll(fs, crc);
    assert fs + [] == fs;
  }

  lemma {:induction false} EncodeAppend(fs: seq<Frame>, gs: seq<Frame>, crc: Crc)
    ensures EncodeAll(fs + gs, crc) == EncodeAll(fs, crc) + EncodeAll(gs, crc)
  {
    if fs == [] {
      assert fs + gs == gs;
    } else {
      assert (fs + gs)[1..] == fs[1..] + gs;
      EncodeAppend(fs[1..], gs, crc);
    }
  }

  /** `more`, written after the first `n` bytes of the torn frame `f`, completes it: it fills the gap
      and the bytes that end up in the checksum field match those in the payload. */
  predicate Completes(f: Frame, n: nat, more: seq<Byte>, crc: Crc)
    requires n <= |Encode(f, crc)|
  {
    var b, end := Encode(f, crc)[..n] + more, 9 + |f.payload|;
    end <= |b| && crc(b[5..end - 4]) == FromLittleEndian(b[end - 4..end])
  }

  lemma FrontSurvives(e: seq<Byte>, n: nat, more: seq<Byte>)
    requires 4 <= n <= |e|
    ensures |e[..n] + more| >= 4 && (e[..n] + more)[..4] == e[..4]
  {
  }

  lemma {:induction false} LengthSurvives(f: Frame, n: nat, more: seq<Byte>, crc: Crc)
    requires f.Fits() && 4 <= n < |Encode(f, crc)|
    ensures var b := Encode(f, crc)[..n] + more; |b| >= 4 && FromLittleEndian(b[..4]) == |f.payload|
  {
    var e, h := Encode(f, crc), LittleEndian(|f.payload|);
    assert FromLittleEndian(h) == |f.payload| by { LittleEndianRoundTrip(|f.payload|); }
    assert e == h + ([f.ty] + f.payload + LittleEndian(crc(f.payload)));
    assert e[..4] == h;
    FrontSurvives(e, n, more);
  }

  lemma {:induction false} SwallowedUnlessCompleted(f: Frame, rest: seq<Byte>, n: nat, more: seq<Byte>, crc: Crc)
    requires f.Fits() && 4 <= n < |Encode(f, crc)|
    ensures Parse((Encode(f, crc) + rest)[..n] + more, crc) == [] <==> !Completes(f, n, more, crc)
  {
    LengthSurvives(f, n, more, crc);
    assert (Encode(f, crc) + rest)[..n] == Encode(f, crc)[..n];
    var b := Encode(f, crc)[..n] + more;
    assert ReadFrame(b, crc).None? <==> !Completes(f, n, more, crc);
  }

  lemma CutSplits(fs: seq<Frame>, m: nat, n: nat, crc: Crc)
    requires m <= |fs| && |EncodeAll(fs[..m], crc)| <= n <= |EncodeAll(fs, crc)|
    ensures n - |EncodeAll(fs[..m], crc)| <= |EncodeAll(fs[m..], crc)|
    ensures EncodeAll(fs, crc)[..n] == EncodeAll(fs[..m], crc) + EncodeAll(fs[m..], crc)[..n - |EncodeAll(fs[..m], crc)|]
  {
    assert fs == fs[..m] + fs[m..];
    EncodeAppend(fs[..m], fs[m..], crc);
  }

  /** What is left after the last whole frame parses to nothing. */
  lemma TornRemainder(fs: seq<Frame>, m: nat, n: nat, crc: Crc)
    requires AllFit(fs) && m == WholeFrames(fs, n) && n <= |EncodeAll(fs, crc)|
    ensures m <= |fs| && 0 <= n - |EncodeAll(fs[..m], crc)| <= |EncodeAll(fs[m..], crc)|
    ensures Parse(EncodeAll(fs[m..], crc)[..n - |EncodeAll(fs[..m], crc)|], crc) == []
  {
    WholeFramesIsExact(fs, n, crc);
    CutSplits(fs, m, n, crc);
    if m < |fs| {
      var f := fs[m];
      assert fs[..m + 1] == fs[..m] + [f];
      EncodeAppend(fs[..m], [f], crc);
      assert EncodeAll([f], crc) == Encode(f, crc);
      EncodedLength(f, crc);
      assert EncodeAll(fs[m..], crc) == Encode(f, crc) + EncodeAll(fs[m..][1..], crc);
      TornHere(f, EncodeAll(fs[m..][1..], crc), n - |EncodeAll(fs[..m], crc)|, crc);
    }
  }

  /** Torn tail: replaying any byte prefix of a log applies exactly the frames that lie wholly
      inside it, in order. */
  lemma TornTail(fs: seq<Frame>, n: nat, crc: Crc)
    requires AllFit(fs) && n <= |EncodeAll(fs, crc)|
    ensures WholeFrames(fs, n) <= |fs|
    ensures Parse(EncodeAll(fs, crc)[..n], crc) == fs[..WholeFrames(fs, n)]
  {
    var m := WholeFrames(fs, n);
    TornRemainder(fs, m, n, crc);
    CutSplits(fs, m, n, crc);
    ParseAppended(fs[..m], EncodeAll(fs[m..], crc)[..n - |EncodeAll(fs[..m], crc)|], crc);
    assert fs[..m] + [] == fs[..m];
  }

  /** The log is reopened for appending without its torn tail being cut off. After a tail that ends
      on a frame boundary everything written later is recovered. */
  lemma AppendAfterWholeTail(fs: seq<Frame>, m: nat, gs: seq<Frame>, crc: Crc)
    requires AllFit(fs) && AllFit(gs) && m <= |fs|
    ensures Parse(EncodeAll(fs[..m], crc) + EncodeAll(gs, crc), crc) == fs[..m] + gs
  {
    ParseAppended(fs[..m], EncodeAll(gs, crc), crc);
    ParseUndoesEncode(gs, crc);
  }

  /** After a tail torn inside a frame, past its length field, what is written later is taken for the
      rest of that frame: a replay sees nothing beyond the whole frames, exactly unless the new bytes
      happen to complete the torn one. */
  lemma TornFrameSwallows(fs: seq<Frame>, m: nat, n: nat, gs: seq<Frame>, crc: Crc)
    requires AllFit(fs) && m < |fs| && n <= |EncodeAll(fs, crc)|
    requires |EncodeAll(fs[..m], crc)| + 4 <= n < |EncodeAll(fs[..m], crc)| + |Encode(fs[m], crc)|
    ensures Parse(EncodeAll(fs, crc)[..n] + EncodeAll(gs, crc), crc) == fs[..m]
       <==> !Completes(fs[m], n - |EncodeAll(fs[..m], crc)|, EncodeAll(gs, crc), crc)
  {
    var kept, more := EncodeAll(fs[..m], crc), EncodeAll(gs, crc);
    CutSplits(fs, m, n, crc);
    var tail := EncodeAll(fs[m..], crc)[..n - |kept|];
    assert kept + tail + more == kept + (tail + more);
    ParseAppended(fs[..m], tail + more, crc);
    assert EncodeAll(fs[m..], crc) == Encode(fs[m], crc) + EncodeAll(fs[m..][1..], crc);
    SwallowedUnlessCompleted(fs[m], EncodeAll(fs[m..][1..], crc), |tail|, more, crc);
    SameAfter(fs[..m], Parse(tail + more, crc), []);
    assert fs[..m] + [] == fs[..m];
  }

  lemma SameAfter(kept: seq<Frame>, a: seq<Frame>, b: seq<Frame>)
    ensures kept + a == kept + b <==> a == b
  {
    if kept + a == kept + b {
      assert (kept + a)[|kept|..] == a && (kept + b)[|kept|..] == b;
    }
  }

  // ---------------------------------------------------------------- when later frames are recovered

  lemma DigitAndRest(rest: nat, low: nat)
    requires low < 256
    ensures (256 * rest + low) % 256 == low && (256 * rest + low) / 256 == rest
  {
  }

  lemma {:induction false} DigitsOfDigits(s: seq<Byte>)
    ensures Digits(FromDigits(s), |s|) == s
  {
    if s != [] {
      DigitsOfDigits(s[1..]);
      DigitAndRest(FromDigits(s[1..]), s[0]);
    }
  }

  /** Four bytes are the little-endian form of what they denote. */
  lemma FromLittleEndianRoundTrip(s: seq<Byte>)
    requires |s| == 4
    ensures FromLittleEndian(s) < WORD && LittleEndian(FromLittleEndian(s)) == s
  {
    DigitsOfDigits(s);
    assert s == [s[0], s[1], s[2], s[3]];
    FourDigits(s[0], s[1], s[2], s[3]);
  }

  lemma FourDigits(a: Byte, b: Byte, c: Byte, d: Byte)
    ensures FromDigits([a, b, c, d]) < WORD
  {
    assert [a, b, c, d][1..] == [b, c, d] && [b, c, d][1..] == [c, d] && [c, d][1..] == [d] && [d][1..] == [];
    var x3: nat := FromDigits([d]);
    assert x3 == d by { assert FromDigits([d][1..]) == 0; }
    var x2: nat := FromDigits([c, d]);
    assert x2 == 256 * x3 + c;
    var x1: nat := FromDigits([b, c, d]);
    assert x1 == 256 * x2 + b;
    assert FromDigits([a, b, c, d]) == 256 * x1 + a;
  }

  /** A frame that is read is there, byte for byte. */
  lemma {:induction false} ReadIsEncoded(b: seq<Byte>, crc: Crc)
    requires ReadFrame(b, crc).Some?
    ensures var f := ReadFrame(b, crc).value; f.Fits() && b[..9 + |f.payload|] == Encode(f, crc)
  {
    var f := ReadFrame(b, crc).value;
    var len := |f.payload|;
    assert LittleEndian(len) == b[..4] by { FromLittleEndianRoundTrip(b[..4]); }
    assert LittleEndian(crc(f.payload)) == b[5 + len..9 + len] by { FromLittleEndianRoundTrip(b[5 + len..9 + len]); }
    assert b[..9 + len] == b[..4] + [b[4]] + b[5..5 + len] + b[5 + len..9 + len];
  }

  /** What is parsed stands at the front, byte for byte, and nothing after it can be read. */
  lemma {:induction false} ParsedIsPrefix(b: seq<Byte>, crc: Crc)
    ensures var fs := Parse(b, crc);
            && AllFit(fs) && EncodeAll(fs, crc) <= b && Parse(b[|EncodeAll(fs, crc)|..], crc) == []
    decreases |b|
  {
    var r := ReadFrame(b, crc);
    if r.Some? {
      ReadIsEncoded(b, crc);
      var e := Encode(r.value, crc);
      var rest := b[9 + |r.value.payload|..];
      assert b == e + rest;
      ParsedIsPrefix(rest, crc);
      var tail := Parse(rest, crc);
      assert Parse(b, crc)[1..] == tail;
      assert EncodeAll(Parse(b, crc), crc) == e + EncodeAll(tail, crc);
      assert b[|e + EncodeAll(tail, crc)|..] == rest[|EncodeAll(tail, crc)|..];
    }
  }

  /** Bytes parse to `gs` exactly if they start with the encoding of `gs` and the rest is unreadable. */
  lemma {:induction false} ParsesToIff(b: seq<Byte>, gs: seq<Frame>, crc: Crc)
    requires AllFit(gs)
    ensures Parse(b, crc) == gs <==>
            EncodeAll(gs, crc) <= b && Parse(b[|EncodeAll(gs, crc)|..], crc) == []
  {
    ParsedIsPrefix(b, crc);
    if EncodeAll(gs, crc) <= b {
      ParsesBehind(b, gs, crc);
    }
  }

  lemma {:induction false} ParsesBehind(b: seq<Byte>, gs: seq<Frame>, crc: Crc)
    requires AllFit(gs) && EncodeAll(gs, crc) <= b
    ensures Parse(b, crc) == gs <==> Parse(b[|EncodeAll(gs, crc)|..], crc) == []
  {
    var e := EncodeAll(gs, crc);
    var rest := b[|e|..];
    assert b == e + rest;
    ParseAppended(gs, rest, crc);
    assert gs + [] == gs;
    SameAfter(gs, Parse(rest, crc), []);
  }

  /** The bytes left of the frame that a cut at `n` tears; none if the cut is at a frame boundary. */
  function TornBytes(fs: seq<Frame>, n: nat, crc: Crc): seq<Byte>
    requires AllFit(fs) && n <= |EncodeAll(fs, crc)|
  {
    WholeFramesIsExact(fs, n, crc);
    EncodeAll(fs, crc)[..n][|EncodeAll(fs[..WholeFrames(fs, n)], crc)|..]
  }

  /** The log is reopened for appending with its torn tail in place. Whatever the tear, the frames
      written afterwards are recovered, all of them and nothing else, if and only if the torn bytes in
      front of them make no difference: their text, shifted back by the length of the torn bytes,
      reads the same, and what then sticks out at the end is unreadable. */
  lemma AppendAfterTornTail(fs: seq<Frame>, n: nat, gs: seq<Frame>, crc: Crc)
    requires AllFit(fs) && AllFit(gs) && n <= |EncodeAll(fs, crc)|
    ensures WholeFrames(fs, n) <= |fs|
    ensures var written := EncodeAll(gs, crc); var b := TornBytes(fs, n, crc) + written;
            Parse(EncodeAll(fs, crc)[..n] + written, crc) == fs[..WholeFrames(fs, n)] + gs <==>
            written <= b && Parse(b[|written|..], crc) == []
  {
    var m := WholeFrames(fs, n);
    WholeFramesIsExact(fs, n, crc);
    CutSplits(fs, m, n, crc);
    assert EncodeAll(fs, crc)[..n] == EncodeAll(fs[..m], crc) + TornBytes(fs, n, crc);
    AppendAfterBytes(fs[..m], TornBytes(fs, n, crc), gs, crc);
  }

  lemma AppendAfterBytes(kept: seq<Frame>, torn: seq<Byte>, gs: seq<Frame>, crc: Crc)
    requires AllFit(kept) && AllFit(gs)
    ensures var written := EncodeAll(gs, crc); var b := torn + written;
            Parse((EncodeAll(kept, crc) + torn) + written, crc) == kept + gs <==>
            written <= b && Parse(b[|written|..], crc) == []
  {
    var b := torn + EncodeAll(gs, crc);
    assert (EncodeAll(kept, crc) + torn) + EncodeAll(gs, crc) == EncodeAll(kept, crc) + b;
    ParseAppended(kept, b, crc);
    SameAfter(kept, Parse(b, crc), gs);
    ParsesToIff(b, gs, crc);
  }

  /** A losing input: a peer entry torn after its type byte, then a deletion written behind it. The
      deletion is gone, whatever the checksum function. */
  lemma DeletionAfterTornTailIsLost(payload: seq<Byte>, id: Id, crc: Crc)
    requires 5 + 9 + ID_LEN < 9 + |payload| < WORD
    ensures var f, g := Frame(TYPE_UPSERT, payload), Frame(TYPE_TOMBSTONE, id);
            && |Encode(f, crc)| > 5
            && Parse(Encode(f, crc)[..5] + Encode(g, crc), crc) == []
  {
    var f, g := Frame(TYPE_UPSERT, payload), Frame(TYPE_TOMBSTONE, id);
    SwallowedUnlessCompleted(f, [], 5, Encode(g, crc), crc);
    assert Encode(f, crc) + [] == Encode(f, crc);
  }

  // ---------------------------------------------------------------- the bytes of a frame

  /** Lengths and checksums are written least significant byte first. */
  lemma LittleEndianBytes(a: Byte, b: Byte, c: Byte, d: Byte)
    ensures FromLittleEndian([a, b, c, d]) == a + 0x100 * b + 0x1_0000 * c + 0x100_0000 * d
  {
    assert [a, b, c, d][1..] == [b, c, d] && [b, c, d][1..] == [c, d] && [c, d][1..] == [d] && [d][1..] == [];
    assert FromDigits([d]) == d by { assert FromDigits([d][1..]) == 0; }
    assert FromDigits([c, d]) == 256 * FromDigits([d]) + c;
    assert FromDigits([b, c, d]) == 256 * FromDigits([c, d]) + b;
    assert FromDigits([a, b, c, d]) == 256 * FromDigits([b, c, d]) + a;
  }

  /** A frame is four bytes of length, one of type, the payload, and four bytes of checksum over the
      payload alone. */
  lemma {:induction false} FrameLayout(f: Frame, crc: Crc)
    requires f.Fits()
    ensures var e, n := Encode(f, crc), |f.payload|;
            && |e| == 4 + 1 + n + 4
            && FromLittleEndian(e[..4]) == n && e[4] == f.ty && e[5..5 + n] == f.payload
            && FromLittleEndian(e[5 + n..]) == crc(f.payload)
  {
    var n := |f.payload|;
    Parts(LittleEndian(n), f.ty, f.payload, LittleEndian(crc(f.payload)), []);
    assert Encode(f, crc) + [] == Encode(f, crc);
    LittleEndianRoundTrip(n);
    LittleEndianRoundTrip(crc(f.payload));
    assert Encode(f, crc)[5 + n..] == Encode(f, crc)[5 + n..9 + n];
  }
}
