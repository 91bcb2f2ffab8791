/** The tunnel framing: a 4-byte network-order signed length followed by the payload.
    `EncodeFrame` is the encoder every sender uses; `Decode` is one iteration of the
    receivers' decode loops and `Split` the whole loop. */
module Framing {
  import opened Bytes

  /** `appendInt32(static_cast<int32_t>(payload.size()))` followed by the payload. */
  function EncodeFrame(payload: Bytes): (f: Bytes)
    ensures |f| == 4 + |payload| && f[4..] == payload
  {
    Int32BE(ToInt32(|payload|)) + payload
  }

  /** A frame header carries the payload length whenever the payload fits an int32. */
  lemma HeaderOfEncodeFrame(payload: Bytes, rest: Bytes)
    requires |payload| < TwoTo31
    ensures PeekInt32(EncodeFrame(payload) + rest) == |payload|
  {
    var n := |payload|;
    assert ToInt32(n) == n;
    var h := Int32BE(n);
    var b := h + payload + rest;
    assert EncodeFrame(payload) + rest == b;
    Int32RoundTrip(n);
    PeekInt32Prefix(b, h);
  }

  /** `peekInt32` looks at the first four bytes only. */
  lemma PeekInt32Prefix(b: Bytes, c: Bytes)
    requires |b| >= 4 && |c| >= 4 && b[..4] == c[..4]
    ensures PeekInt32(b) == PeekInt32(c)
  {
    assert b[0] == c[0] && b[1] == c[1] && b[2] == c[2] && b[3] == c[3];
  }

  // ---------------------------------------------------------------------------
  // The frame test as written in both decode loops:
  //   readableBytes() > 4 && int32(readableBytes()) >= peekInt32() + 4
  // with the right-hand addition performed in 32-bit signed arithmetic.

  predicate ReadyAsWritten(buf: Bytes)
  {
    |buf| > 4 && ToInt32(|buf|) >= ToInt32(PeekInt32(buf) + 4)
  }

  /** The written test lets a negative length through whenever more than four bytes are
      buffered, and lets a length near INT32_MAX through because `length + 4` wraps. In
      both cases the `length` bytes the loop then reads are not in the buffer. The
      smallest instance is the header FF FF FF FF (length -1) followed by one byte. */
  lemma GuardAdmitsBadLength(buf: Bytes)
    requires 4 < |buf| < TwoTo31
    requires PeekInt32(buf) < 0 || PeekInt32(buf) >= TwoTo31 - 4
    ensures ReadyAsWritten(buf)
    ensures PeekInt32(buf) < 0 || 4 + PeekInt32(buf) > |buf|
  {
    var len := PeekInt32(buf);
    if len < 0 {
      assert -TwoTo31 + 4 <= len + 4 < 4;
      assert ToInt32(len + 4) == len + 4;
    } else {
      assert TwoTo31 <= len + 4 < TwoTo31 + 4;
      assert ToInt32(len + 4) == len + 4 - TwoTo32;
    }
  }

  /** The written test also casts the buffered byte count to int32: a buffer of 2^31
      bytes or more reads as negative, so a complete frame with a sane header in such a
      buffer is never admitted and the written loops wait for more bytes. */
  lemma HugeBufferRefused(buf: Bytes)
    requires TwoTo31 <= |buf| < TwoTo32
    requires 0 <= PeekInt32(buf) < TwoTo31 - 4
    ensures !ReadyAsWritten(buf)
  {
    assert ToInt32(|buf|) == |buf| - TwoTo32;
    assert ToInt32(PeekInt32(buf) + 4) == PeekInt32(buf) + 4;
  }

  // ---------------------------------------------------------------------------
  // The corrected frame test: the length must be non-negative and the comparison is
  // made without overflow. Every state machine of this model decodes with it.

  datatype Decoded =
    | NeedMore                          // leave the buffer alone and wait
    | Malformed                         // negative length: no frame boundary can be found
    | Frame(payload: Bytes, size: nat)  // one frame, `size` bytes including the header

  function Decode(buf: Bytes): (d: Decoded)
    ensures d.Frame? ==> |buf| > 4 && 0 <= PeekInt32(buf) && d.size == 4 + PeekInt32(buf) <= |buf| && d.payload == buf[4..d.size]
    ensures d.Malformed? ==> |buf| > 4 && PeekInt32(buf) < 0
    ensures d.NeedMore? ==> |buf| <= 4 || |buf| < 4 + PeekInt32(buf)
  {
    if |buf| <= 4 then NeedMore
    else
      var len := PeekInt32(buf);
      if len < 0 then Malformed
      else if |buf| < 4 + len then NeedMore
      else Frame(buf[4..4 + len], 4 + len)
  }

  /** On such a buffer `Decode`, whose comparison does not overflow, finds the frame the
      written test refuses (`HugeBufferRefused`). */
  lemma HugeBufferDecoded(buf: Bytes)
    requires TwoTo31 <= |buf| < TwoTo32
    requires 0 <= PeekInt32(buf) < TwoTo31 - 4
    ensures Decode(buf).Frame? && !ReadyAsWritten(buf)
  {
    HugeBufferRefused(buf);
  }

  /** What `Decode` takes from the front of the buffer is exactly one encoded frame. */
  lemma DecodedIsFrame(buf: Bytes)
    requires Decode(buf).Frame?
    ensures buf[..Decode(buf).size] == EncodeFrame(Decode(buf).payload)
  {
    var len := PeekInt32(buf);
    var p := buf[4..4 + len];
    ToInt32Small(len);
    PeekInt32Inverse(buf);
    assert EncodeFrame(p) == Int32BE(len) + p;
    assert buf[..4 + len] == buf[..4] + p;
  }

  /** Wherever the written test admits a sane header, it agrees with `Decode`. */
  lemma DecodeAgreesWithWrittenTest(buf: Bytes)
    requires |buf| < TwoTo31 && (|buf| <= 4 || 0 <= PeekInt32(buf) < TwoTo31 - 4)
    ensures Decode(buf).Frame? <==> ReadyAsWritten(buf)
  {
    if |buf| > 4 {
      var len := PeekInt32(buf);
      ToInt32Small(len + 4);
      ToInt32Small(|buf|);
    }
  }

  /** Round trip: a frame followed by anything decodes to its payload, except that a
      lone empty frame is never decoded because the test is `> 4`, not `>= 4`. */
  lemma DecodeEncodeFrame(payload: Bytes, rest: Bytes)
    requires |payload| < TwoTo31
    requires |payload| + |rest| > 0
    ensures Decode(EncodeFrame(payload) + rest) == Frame(payload, 4 + |payload|)
  {
    HeaderOfEncodeFrame(payload, rest);
    var b := EncodeFrame(payload) + rest;
    assert b[4..4 + |payload|] == payload;
  }

  lemma EmptyFrameWaits()
    ensures Decode(EncodeFrame([])) == NeedMore
  {
  }

  /** A frame delivered only in part is never decoded: the receiver waits. */
  lemma DecodePartialFrame(payload: Bytes, k: nat)
    requires |payload| < TwoTo31 && k < 4 + |payload|
    ensures Decode(EncodeFrame(payload)[..k]) == NeedMore
  {
    var f := EncodeFrame(payload);
    if k > 4 {
      HeaderOfEncodeFrame(payload, []);
      assert f[..k][..4] == f[..4];
      assert PeekInt32(f[..k]) == PeekInt32(f);
    }
  }

  // ---------------------------------------------------------------------------
  // The whole decode loop: take frames while `Decode` finds one.

  /** The payloads the loop took, and how many bytes it consumed. */
  datatype Taken = Taken(payloads: seq<Bytes>, consumed: nat)

  function Split(buf: Bytes): (r: Taken)
    ensures r.consumed <= |buf|
    decreases |buf|
  {
    match Decode(buf)
    case Frame(p, n) =>
      var more := Split(buf[n..]);
      Taken([p] + more.payloads, n + more.consumed)
    case _ => Taken([], 0)
  }

  /** The loop stops only where no complete frame is left. */
  lemma {:induction false} SplitStops(buf: Bytes)
    ensures !Decode(buf[Split(buf).consumed..]).Frame?
    decreases |buf|
  {
    match Decode(buf)
    case Frame(p, n) =>
      var rest := buf[n..];
      SplitStops(rest);
      SplitStep(buf, p, n);
      assert rest[Split(rest).consumed..] == buf[n + Split(rest).consumed..];
    case _ =>
      assert buf[0..] == buf;
  }

  /** The bytes the loop consumed are exactly the frames of the payloads it took. */
  lemma {:induction false} SplitConsumesFrames(buf: Bytes)
    ensures buf[..Split(buf).consumed] == EncodeAll(Split(buf).payloads)
    decreases |buf|
  {
    match Decode(buf)
    case Frame(p, n) =>
      var rest := buf[n..];
      SplitConsumesFrames(rest);
      var more := Split(rest);
      SplitStep(buf, p, n);
      DecodedIsFrame(buf);
      PrefixSplit(buf, n, more.consumed);
      var ps := [p] + more.payloads;
      assert ps[0] == p && ps[1..] == more.payloads;
      assert EncodeAll(ps) == EncodeFrame(p) + EncodeAll(more.payloads);
    case _ =>
  }

  lemma PrefixSplit(b: Bytes, n: nat, k: nat)
    requires n + k <= |b|
    ensures b[..n + k] == b[..n] + b[n..][..k]
  {
  }

  /** Concatenation of the frames of a sequence of payloads. */
  function EncodeAll(ps: seq<Bytes>): (b: Bytes)
  {
    if ps == [] then [] else EncodeFrame(ps[0]) + EncodeAll(ps[1..])
  }

  /** Payloads the decode loop can carry: not empty (see `EmptyFrameWaits`) and small
      enough for the int32 header. */
  ghost predicate Sendable(ps: seq<Bytes>)
  {
    forall i :: 0 <= i < |ps| ==> 0 < |ps[i]| < TwoTo31
  }

  lemma SendableTail(ps: seq<Bytes>)
    requires Sendable(ps) && ps != []
    ensures Sendable(ps[1..])
  {
    forall i | 0 <= i < |ps| - 1 ensures 0 < |ps[1..][i]| < TwoTo31 {
      assert ps[1..][i] == ps[i + 1];
    }
  }

  lemma {:induction false} EncodeAllAppend(ps: seq<Bytes>, qs: seq<Bytes>)
    ensures EncodeAll(ps + qs) == EncodeAll(ps) + EncodeAll(qs)
  {
    if ps != [] {
      assert (ps + qs)[1..] == ps[1..] + qs;
      EncodeAllAppend(ps[1..], qs);
    } else {
      assert ps + qs == qs;
    }
  }

  /** One turn of the loop: a decoded frame is taken and the loop goes on after it. */
  lemma SplitStep(buf: Bytes, p: Bytes, n: nat)
    requires Decode(buf) == Frame(p, n)
    ensures Split(buf).payloads == [p] + Split(buf[n..]).payloads
    ensures Split(buf).consumed == n + Split(buf[n..]).consumed
  {
  }

  lemma EncodeAllCons(ps: seq<Bytes>, tail: Bytes)
    requires ps != []
    ensures EncodeAll(ps) + tail == EncodeFrame(ps[0]) + (EncodeAll(ps[1..]) + tail)
    ensures |EncodeAll(ps)| == 4 + |ps[0]| + |EncodeAll(ps[1..])|
  {
    var f := EncodeFrame(ps[0]);
    var more := EncodeAll(ps[1..]);
    assert EncodeAll(ps) == f + more;
    assert (f + more) + tail == f + (more + tail);
  }

  /** Loop round trip: the loop recovers every payload of a frame sequence, in order,
      consumes exactly those frames and leaves the trailing partial frame in place. */
  lemma {:induction false} SplitEncodeAll(ps: seq<Bytes>, tail: Bytes)
    requires Sendable(ps)
    requires !Decode(tail).Frame?
    ensures Split(EncodeAll(ps) + tail).payloads == ps
    ensures Split(EncodeAll(ps) + tail).consumed == |EncodeAll(ps)|
  {
    if ps == [] {
      assert EncodeAll(ps) + tail == tail;
      SplitNoFrame(tail);
    } else {
      var more := EncodeAll(ps[1..]) + tail;
      EncodeAllCons(ps, tail);
      assert 0 < |ps[0]| < TwoTo31;
      SplitFrameThen(ps[0], more);
      SendableTail(ps);
      SplitEncodeAll(ps[1..], tail);
      assert Split(more).payloads == ps[1..] && Split(more).consumed == |EncodeAll(ps[1..])|;
      assert [ps[0]] + ps[1..] == ps;
    }
  }

  /** Without a frame at the front the loop takes nothing. */
  lemma SplitNoFrame(buf: Bytes)
    requires !Decode(buf).Frame?
    ensures Split(buf).payloads == [] && Split(buf).consumed == 0
  {
  }

  /** `got` is a leading run of `ps` and `n` the size of its frames. */
  ghost predicate LeadingFrames(ps: seq<Bytes>, got: seq<Bytes>, n: nat)
  {
    && |got| <= |ps|
    && got == ps[..|got|]
    && n <= |EncodeAll(ps)|
    && EncodeAll(ps)[n..] == EncodeAll(ps[|got|..])
  }

  /** Delivery in two reads: whatever prefix the first read sees, the loop takes some
      leading frames and leaves the rest buffered. */
  lemma {:induction false} SplitAnyPrefix(ps: seq<Bytes>, k: nat)
    requires Sendable(ps) && k <= |EncodeAll(ps)|
    ensures LeadingFrames(ps, Split(EncodeAll(ps)[..k]).payloads, Split(EncodeAll(ps)[..k]).consumed)
    decreases |ps|, 1
  {
    var x := EncodeAll(ps);
    if ps == [] {
      assert x[..k] == [];
      assert ps[..0] == [] && ps[0..] == ps;
    } else {
      EncodeAllCons(ps, []);
      assert x == EncodeFrame(ps[0]) + EncodeAll(ps[1..]);
      if k < 4 + |ps[0]| {
        assert x[..k] == EncodeFrame(ps[0])[..k];
        DecodePartialFrame(ps[0], k);
        assert ps[..0] == [] && ps[0..] == ps;
      } else {
        SplitAnyPrefixLonger(ps, k);
      }
    }
  }

  lemma {:induction false} SplitAnyPrefixLonger(ps: seq<Bytes>, k: nat)
    requires Sendable(ps) && ps != []
    requires 4 + |ps[0]| <= k <= |EncodeAll(ps)|
    ensures LeadingFrames(ps, Split(EncodeAll(ps)[..k]).payloads, Split(EncodeAll(ps)[..k]).consumed)
    decreases |ps|, 0
  {
    var kRest := k - 4 - |ps[0]|;
    var y := EncodeAll(ps)[..k];
    var r := Split(EncodeAll(ps[1..])[..kRest]);
    SplitPastFirstFrame(ps, k);
    SendableTail(ps);
    SplitAnyPrefix(ps[1..], kRest);
    LeadingFramesCons(ps, r.payloads, r.consumed, Split(y).payloads, Split(y).consumed);
  }

  /** Past the first frame, the loop takes that frame and goes on with a prefix of the rest. */
  lemma SplitPastFirstFrame(ps: seq<Bytes>, k: nat)
    requires Sendable(ps) && ps != []
    requires 4 + |ps[0]| <= k <= |EncodeAll(ps)|
    ensures var r := Split(EncodeAll(ps[1..])[..k - 4 - |ps[0]|]);
      && Split(EncodeAll(ps)[..k]).payloads == [ps[0]] + r.payloads
      && Split(EncodeAll(ps)[..k]).consumed == 4 + |ps[0]| + r.consumed
  {
    PrefixOfFrames(ps, k);
    assert 0 < |ps[0]| < TwoTo31;
    SplitFrameThen(ps[0], EncodeAll(ps[1..])[..k - 4 - |ps[0]|]);
  }

  /** A whole frame at the front is taken, and the loop goes on with what follows it. */
  lemma SplitFrameThen(p: Bytes, t: Bytes)
    requires 0 < |p| < TwoTo31
    ensures Split(EncodeFrame(p) + t).payloads == [p] + Split(t).payloads
    ensures Split(EncodeFrame(p) + t).consumed == 4 + |p| + Split(t).consumed
  {
    var b := EncodeFrame(p) + t;
    DecodeEncodeFrame(p, t);
    assert b[4 + |p|..] == t;
    SplitStep(b, p, 4 + |p|);
  }

  /** A prefix reaching past the first frame is that frame and a prefix of the rest. */
  lemma PrefixOfFrames(ps: seq<Bytes>, k: nat)
    requires ps != [] && 4 + |ps[0]| <= k <= |EncodeAll(ps)|
    ensures EncodeAll(ps)[..k] == EncodeFrame(ps[0]) + EncodeAll(ps[1..])[..k - 4 - |ps[0]|]
  {
    var f := EncodeFrame(ps[0]);
    var more := EncodeAll(ps[1..]);
    assert EncodeAll(ps) == f + more;
    assert (f + more)[..k] == f + more[..k - |f|];
  }

  /** Putting the first frame in front of a leading run of the other frames gives a
      leading run of all of them. */
  lemma LeadingFramesCons(ps: seq<Bytes>, got: seq<Bytes>, n: nat, gotAll: seq<Bytes>, nAll: nat)
    requires ps != [] && LeadingFrames(ps[1..], got, n)
    requires gotAll == [ps[0]] + got && nAll == 4 + |ps[0]| + n
    ensures LeadingFrames(ps, gotAll, nAll)
  {
    EncodeAllCons(ps, []);
    var x := EncodeAll(ps);
    assert x == EncodeFrame(ps[0]) + EncodeAll(ps[1..]);
    assert ps[..1 + |got|] == [ps[0]] + ps[1..][..|got|];
    assert ps[1 + |got|..] == ps[1..][|got|..];
    assert x[4 + |ps[0]| + n..] == EncodeAll(ps[1..])[n..];
  }

  /** Once the remaining bytes arrive, the second run yields exactly the remaining
      payloads: two reads together deliver every payload once, in order. */
  lemma {:induction false} TwoReadsYieldAll(ps: seq<Bytes>, k: nat)
    requires Sendable(ps) && k <= |EncodeAll(ps)|
    ensures Split(EncodeAll(ps)[..k]).payloads + Split(EncodeAll(ps)[Split(EncodeAll(ps)[..k]).consumed..]).payloads == ps
  {
    var first := Split(EncodeAll(ps)[..k]).payloads;
    SplitAnyPrefix(ps, k);
    var more := ps[|first|..];
    assert Sendable(more) by {
      forall i | 0 <= i < |more| ensures 0 < |more[i]| < TwoTo31 {
        assert more[i] == ps[|first| + i];
      }
    }
    SplitEncodeAll(more, []);
    assert EncodeAll(more) + [] == EncodeAll(more);
    assert first + more == ps;
  }
}
