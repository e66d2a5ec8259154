/**
 Docker's multiplexed output (`demux` in `streams.py`): frames of one stream byte, three bytes nobody looks at, a
 big-endian length and the data, arriving in chunks cut anywhere.
 */
module Demux {
  type Byte = x: int | 0 <= x < 256

  const HEADER := 8
  const STREAMS := 3

  datatype Frame = Frame(stream: int, data: seq<Byte>)

  /** How decoding ends: with nothing left, with bytes left over, or at a frame of an unknown stream. */
  datatype Ending = Complete | Truncated(left: nat) | UnknownStream(kind: int)

  datatype Decoded = Decoded(frames: seq<Frame>, ending: Ending)

  function SizeAt(b: seq<Byte>): nat
    requires |b| >= HEADER
  {
    (((b[4] as int) * 256 + b[5]) * 256 + b[6]) * 256 + b[7]
  }

  predicate HasFrame(b: seq<Byte>) {
    |b| >= HEADER && |b| >= HEADER + SizeAt(b)
  }

  function WithFrames(frames: seq<Frame>, d: Decoded): Decoded {
    Decoded(frames + d.frames, d.ending)
  }

  /** Decoding all the bytes at once. */
  function Decode(b: seq<Byte>): Decoded {
    if !HasFrame(b) then Decoded([], if b == [] then Complete else Truncated(|b|))
    else if b[0] >= STREAMS then Decoded([], UnknownStream(b[0]))
    else
      var end := HEADER + SizeAt(b);
      WithFrames([Frame(b[0], b[HEADER..end])], Decode(b[end..]))
  }

  function Flatten(chunks: seq<seq<Byte>>): seq<Byte> {
    if chunks == [] then [] else chunks[0] + Flatten(chunks[1..])
  }

  lemma WithFramesTwice(a: seq<Frame>, b: seq<Frame>, d: Decoded)
    ensures WithFrames(a, WithFrames(b, d)) == WithFrames(a + b, d) && WithFrames([], d) == d
  {
    assert a + (b + d.frames) == a + b + d.frames;
  }

  /** A whole frame at the front is decoded before more bytes come. */
  lemma FrameFirst(b: seq<Byte>, more: seq<Byte>)
    requires HasFrame(b)
    ensures HasFrame(b + more) && SizeAt(b + more) == SizeAt(b)
    ensures var end := HEADER + SizeAt(b);
            Decode(b + more) ==
            if b[0] >= STREAMS then Decoded([], UnknownStream(b[0]))
            else WithFrames([Frame(b[0], b[HEADER..end])], Decode(b[end..] + more))
  {
    var end := HEADER + SizeAt(b);
    assert (b + more)[HEADER..end] == b[HEADER..end];
    assert (b + more)[end..] == b[end..] + more;
  }

  /** `demux`: the frames it yields and how it ends are those of the joined bytes, wherever these were cut. */
  method DemuxChunks(chunks: seq<seq<Byte>>) returns (frames: seq<Frame>, ending: Ending)
    ensures Decoded(frames, ending) == Decode(Flatten(chunks))
  {
    hide Decode, HasFrame, SizeAt, WithFrames;
    frames := [];
    var buf: seq<Byte> := [];
    var i := 0;
    assert [] + Flatten(chunks) == Flatten(chunks) && chunks[0..] == chunks;
    WithFramesTwice([], [], Decode(Flatten(chunks)));
    assert !HasFrame(buf) by { NoHeader(buf); }
    while i < |chunks|
      invariant 0 <= i <= |chunks| && !HasFrame(buf)
      invariant Decode(Flatten(chunks)) == WithFrames(frames, Decode(buf + Flatten(chunks[i..])))
    {
      ghost var rest := Flatten(chunks[i + 1..]);
      assert chunks[i..][0] == chunks[i] && chunks[i..][1..] == chunks[i + 1..];
      assert buf + (chunks[i] + rest) == buf + chunks[i] + rest;
      buf := buf + chunks[i];
      while HasFrame(buf)
        invariant Decode(Flatten(chunks)) == WithFrames(frames, Decode(buf + rest))
        decreases |buf|
      {
        FrameFirst(buf, rest);
        Inside(buf);
        var end := HEADER + SizeAt(buf);
        if buf[0] >= STREAMS {
          Stops(frames, UnknownStream(buf[0]));
          return frames, UnknownStream(buf[0]);
        }
        WithFramesTwice(frames, [Frame(buf[0], buf[HEADER..end])], Decode(buf[end..] + rest));
        frames := frames + [Frame(buf[0], buf[HEADER..end])];
        buf := buf[end..];
      }
      i := i + 1;
    }
    assert buf + Flatten(chunks[i..]) == buf;
    NoFrame(buf);
    ending := if buf == [] then Complete else Truncated(|buf|);
    Stops(frames, ending);
  }

  lemma Inside(b: seq<Byte>)
    requires HasFrame(b)
    ensures |b| >= HEADER && HEADER + SizeAt(b) <= |b|
  {
  }

  lemma NoHeader(b: seq<Byte>)
    requires |b| < HEADER
    ensures !HasFrame(b)
  {
  }

  lemma NoFrame(b: seq<Byte>)
    requires !HasFrame(b)
    ensures Decode(b) == Decoded([], if b == [] then Complete else Truncated(|b|))
  {
  }

  lemma Stops(frames: seq<Frame>, ending: Ending)
    ensures WithFrames(frames, Decoded([], ending)) == Decoded(frames, ending)
  {
  }

  // --- the encoder ---------------------------------------------------------------------------------------------------

  const LIMIT := 0x1_0000_0000

  /** A frame as Docker sends it. */
  function Encode(f: Frame): seq<Byte>
    requires Sendable(f)
  {
    var n := |f.data|;
    [f.stream, 0, 0, 0, n / 0x100_0000, n / 0x1_0000 % 256, n / 256 % 256, n % 256] + f.data
  }

  predicate Sendable(f: Frame) {
    0 <= f.stream < STREAMS && |f.data| < LIMIT
  }

  function EncodeAll(fs: seq<Frame>): seq<Byte>
    requires forall i :: 0 <= i < |fs| ==> Sendable(fs[i])
  {
    if fs == [] then [] else Encode(fs[0]) + EncodeAll(fs[1..])
  }

  lemma BigEndian(n: nat)
    requires n < LIMIT
    ensures ((n / 0x100_0000 * 256 + n / 0x1_0000 % 256) * 256 + n / 256 % 256) * 256 + n % 256 == n
    ensures 0 <= n / 0x100_0000 < 256
  {
    assert n / 256 == n / 256 / 256 * 256 + n / 256 % 256;
    assert n / 256 / 256 == n / 0x1_0000;
    assert n / 0x1_0000 == n / 0x1_0000 / 256 * 256 + n / 0x1_0000 % 256;
    assert n / 0x1_0000 / 256 == n / 0x100_0000;
  }

  /** The frames come back, followed by whatever the rest decodes to. */
  lemma {:induction false} DecodingUndoesEncoding(fs: seq<Frame>, rest: seq<Byte>)
    requires forall i :: 0 <= i < |fs| ==> Sendable(fs[i])
    ensures Decode(EncodeAll(fs) + rest) == WithFrames(fs, Decode(rest))
  {
    hide Decode, WithFrames, Encode;
    if fs == [] {
      assert EncodeAll(fs) + rest == rest;
      WithFramesTwice([], [], Decode(rest));
    } else {
      var more := EncodeAll(fs[1..]) + rest;
      assert EncodeAll(fs) + rest == Encode(fs[0]) + more;
      EncodedFrame(fs[0], more);
      DecodingUndoesEncoding(fs[1..], rest);
      WithFramesTwice([fs[0]], fs[1..], Decode(rest));
      assert [fs[0]] + fs[1..] == fs;
    }
  }

  lemma EncodedFrame(f: Frame, more: seq<Byte>)
    requires Sendable(f)
    ensures Decode(Encode(f) + more) == WithFrames([f], Decode(more))
  {
    hide Decode, WithFrames;
    var b := Encode(f);
    BigEndian(|f.data|);
    assert SizeAt(b) == |f.data| && b[HEADER..HEADER + |f.data|] == f.data;
    FrameFirst(b, more);
    assert b[HEADER + |f.data|..] + more == more;
  }

  /** A stream cut inside a frame gives the frames before it and says how many bytes are left over. */
  lemma CutStreamsAreTruncated(fs: seq<Frame>, f: Frame, n: nat)
    requires (forall i :: 0 <= i < |fs| ==> Sendable(fs[i])) && Sendable(f) && 0 < n < |Encode(f)|
    ensures Decode(EncodeAll(fs) + Encode(f)[..n]) == Decoded(fs, Truncated(n))
  {
    hide Decode, EncodeAll;
    var b := Encode(f)[..n];
    BigEndian(|f.data|);
    assert |b| >= HEADER ==> SizeAt(b) == |f.data|;
    NoFrame(b);
    DecodingUndoesEncoding(fs, b);
  }

  // --- when bytes are left over ------------------------------------------------------------------------------------

  /** Whole frames of known streams, whatever their pad bytes are. */
  predicate AreFrames(b: seq<Byte>) {
    b == [] || (HasFrame(b) && b[0] < STREAMS && AreFrames(b[HEADER + SizeAt(b)..]))
  }

  lemma DecodeOnce(b: seq<Byte>)
    ensures !HasFrame(b) ==> Decode(b).ending == if b == [] then Complete else Truncated(|b|)
    ensures HasFrame(b) && b[0] < STREAMS ==> Decode(b).ending == Decode(b[HEADER + SizeAt(b)..]).ending
    ensures HasFrame(b) && b[0] >= STREAMS ==> Decode(b).ending == UnknownStream(b[0])
  {
    hide SizeAt;
  }

  lemma SameFrame(b: seq<Byte>, n: nat)
    requires HasFrame(b) && HEADER + SizeAt(b) <= n <= |b|
    ensures HasFrame(b[..n]) && SizeAt(b[..n]) == SizeAt(b)
  {
  }

  /** "Truncated" means exactly this: whole frames, and then bytes that do not make up another. */
  lemma {:induction false} TruncatedMeansLeftOver(b: seq<Byte>, left: nat)
    ensures Decode(b).ending == Truncated(left) <==>
            0 < left <= |b| && AreFrames(b[..|b| - left]) && !HasFrame(b[|b| - left..])
    decreases |b|
  {
    hide SizeAt, Decode, WithFrames;
    DecodeOnce(b);
    if HasFrame(b) {
      Inside(b);
      var end := HEADER + SizeAt(b);
      var rest := b[end..];
      if b[0] < STREAMS {
        TruncatedMeansLeftOver(rest, left);
      }
      if 0 < left <= |b| {
        var whole := b[..|b| - left];
        if left <= |rest| {
          SameFrame(b, |whole|);
          assert whole[..end] == b[..end] && whole[end..] == rest[..|rest| - left];
          assert b[|b| - left..] == rest[|rest| - left..];
        } else {
          FrameNotSplit(b, left);
        }
      }
    } else if 0 < left < |b| {
      SmallerHasNoFrame(b, |b| - left);
    } else if left == |b| {
      assert b[..0] == [] && b[0..] == b;
    }
  }

  /** Bytes cut inside the first frame are no whole frames, or nothing with a whole frame after it. */
  lemma FrameNotSplit(b: seq<Byte>, left: nat)
    requires HasFrame(b) && |b| - (HEADER + SizeAt(b)) < left <= |b|
    ensures !(AreFrames(b[..|b| - left]) && !HasFrame(b[|b| - left..]))
  {
    var whole := b[..|b| - left];
    if whole == [] {
      assert b[|b| - left..] == b;
    } else {
      SmallerHasNoFrame(b, |b| - left);
    }
  }

  /** Less than a whole frame is no frame. */
  lemma SmallerHasNoFrame(b: seq<Byte>, n: nat)
    requires n <= |b| && (HasFrame(b) ==> n < HEADER + SizeAt(b))
    ensures !HasFrame(b[..n])
  {
    if n >= HEADER {
      assert SizeAt(b[..n]) == SizeAt(b);
    }
  }
}
