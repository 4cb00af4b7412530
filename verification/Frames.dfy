/** Binary frames and their streaming decoder (Frames.swift). */
module Frames {
  import opened Common
  import opened BigEndian

  datatype FrameType = Output | Input | Resize | ReplayBegin | ReplayEnd | Ping | Pong | Grid | Scroll | Modes

  function RawValue(t: FrameType): Byte {
    match t
    case Output => 1
    case Input => 2
    case Resize => 3
    case ReplayBegin => 4
    case ReplayEnd => 5
    case Ping => 6
    case Pong => 7
    case Grid => 8
    case Scroll => 9
    case Modes => 10
  }

  function FromRaw(b: Byte): (t: Option<FrameType>)
    ensures t.Some? <==> 1 <= b <= 10
    ensures t.Some? ==> RawValue(t.value) == b
  {
    match b
    case 1 => Some(Output)
    case 2 => Some(Input)
    case 3 => Some(Resize)
    case 4 => Some(ReplayBegin)
    case 5 => Some(ReplayEnd)
    case 6 => Some(Ping)
    case 7 => Some(Pong)
    case 8 => Some(Grid)
    case 9 => Some(Scroll)
    case 10 => Some(Modes)
    case _ => None
  }

  /** The types count from 1 in the order they are declared. */
  lemma TypesInOrder()
    ensures [Output, Input, Resize, ReplayBegin, ReplayEnd, Ping, Pong, Grid, Scroll, Modes]
         == seq(10, i requires 0 <= i < 10 => FromRaw(i + 1).value)
  {
  }

  datatype Frame = Frame(type_: FrameType, payload: seq<Byte>)

  const MAX_FRAME_BYTES := 16 * 1024 * 1024

  /** The length is written in 32 bits; a longer payload traps. */
  function Encode(f: Frame): seq<Byte>
    requires |f.payload| < 0x1_0000_0000
  {
    [RawValue(f.type_)] + Bytes(|f.payload|, 4) + f.payload
  }

  datatype Next = Incomplete | Corrupt | Complete(frame: Frame, rest: seq<Byte>)

  /** What the front of the buffer holds. */
  function NextFrame(buffer: seq<Byte>): Next {
    if |buffer| < 5 then Incomplete
    else
      match FromRaw(buffer[0])
      case None => Corrupt
      case Some(t) =>
        var length := Value(buffer[1..5]);
        if length > MAX_FRAME_BYTES then Corrupt
        else if |buffer| < 5 + length then Incomplete
        else Complete(Frame(t, buffer[5..5 + length]), buffer[5 + length..])
  }

  datatype Drained = Drained(frames: seq<Frame>, residue: seq<Byte>, failed: bool)

  /** Taking frames off the front until none is complete or one is corrupt. */
  function Drain(buffer: seq<Byte>): Drained
    decreases |buffer|
  {
    match NextFrame(buffer)
    case Incomplete => Drained([], buffer, false)
    case Corrupt => Drained([], buffer, true)
    case Complete(f, rest) =>
      var d := Drain(rest);
      Drained([f] + d.frames, d.residue, d.failed)
  }

  /** What a drained buffer gives after the frames taken off before it. */
  function Taken(out: seq<Frame>, d: Drained): Drained {
    Drained(out + d.frames, d.residue, d.failed)
  }

  lemma OneMoreFrame(out: seq<Frame>, buffer: seq<Byte>, frame: Frame, rest: seq<Byte>)
    requires NextFrame(buffer) == Complete(frame, rest)
    ensures Taken(out, Drain(buffer)) == Taken(out + [frame], Drain(rest))
  {
    assert out + ([frame] + Drain(rest).frames) == (out + [frame]) + Drain(rest).frames;
  }

  class FrameCodec {
    var buffer: seq<Byte>

    constructor ()
      ensures buffer == []
    {
      buffer := [];
    }

    /** On a corrupt stream the frames already taken off by this call are lost with it. */
    method Append(data: seq<Byte>) returns (frames: Option<seq<Frame>>)
      modifies this
      ensures var d := Drain(old(buffer) + data);
              buffer == d.residue && frames == if d.failed then None else Some(d.frames)
    {
      buffer := buffer + data;
      var out: seq<Frame> := [];
      ghost var all := buffer;
      while |buffer| >= 5
        invariant Drain(all) == Taken(out, Drain(buffer))
        decreases |buffer|
      {
        var t := FromRaw(buffer[0]);
        if t.None? {
          return None;
        }
        var length := Read(buffer, 1, 4);
        if length > MAX_FRAME_BYTES {
          return None;
        }
        if |buffer| < 5 + length {
          break;
        }
        var frame := Frame(t.value, buffer[5..5 + length]);
        OneMoreFrame(out, buffer, frame, buffer[5 + length..]);
        buffer := buffer[5 + length..];
        out := out + [frame];
      }
      frames := Some(out);
      assert out + [] == out;
    }
  }

  // ---------------------------------------------------------------- chunks

  /** More bytes never change a verdict already reached at the front. */
  lemma NextFrameStable(a: seq<Byte>, b: seq<Byte>)
    ensures match NextFrame(a)
            case Incomplete => true
            case Corrupt => NextFrame(a + b) == Corrupt
            case Complete(f, rest) => NextFrame(a + b) == Complete(f, rest + b)
  {
    if |a| >= 5 {
      assert (a + b)[1..5] == a[1..5];
      var length := Value(a[1..5]);
      if |a| >= 5 + length {
        assert (a + b)[5..5 + length] == a[5..5 + length];
        assert (a + b)[5 + length..] == a[5 + length..] + b;
      }
    }
  }

  /** The outcome of appending `b` after an append that gave `first`. */
  function Then(first: Drained, b: seq<Byte>): Drained {
    if first.failed then Drained(first.frames, first.residue + b, true)
    else
      var second := Drain(first.residue + b);
      Drained(first.frames + second.frames, second.residue, second.failed)
  }

  lemma ThenCons(f: Frame, first: Drained, b: seq<Byte>)
    ensures var t := Then(first, b);
            Then(first.(frames := [f] + first.frames), b) == t.(frames := [f] + t.frames)
  {
    if !first.failed {
      var second := Drain(first.residue + b);
      assert ([f] + first.frames) + second.frames == [f] + (first.frames + second.frames);
    }
  }

  /**
    Chunking does not matter: one append of `a + b` yields what appending `a` and then `b` yields,
    and it fails exactly when one of the two does.
   */
  lemma {:induction false} AppendInTwoChunks(a: seq<Byte>, b: seq<Byte>)
    ensures Drain(a + b) == Then(Drain(a), b)
    ensures Drain(a + b).failed <==> Drain(a).failed || Drain(Drain(a).residue + b).failed
    decreases |a|
  {
    NextFrameStable(a, b);
    match NextFrame(a)
    case Incomplete =>
      assert [] + Drain(a + b).frames == Drain(a + b).frames;
    case Corrupt =>
      assert Drain(a + b) == Drained([], a + b, true);
    case Complete(f, rest) =>
      AppendInTwoChunks(rest, b);
      ThenCons(f, Drain(rest), b);
  }

  /** Appending the chunks one by one to a buffer holding `residue`; stops at the first failure. */
  function Feed(residue: seq<Byte>, chunks: seq<seq<Byte>>): Drained
    decreases |chunks|
  {
    if chunks == [] then Drained([], residue, false)
    else
      var d := Drain(residue + chunks[0]);
      if d.failed then Drained([], d.residue, true)
      else
        var others := Feed(d.residue, chunks[1..]);
        Drained(d.frames + others.frames, others.residue, others.failed)
  }

  lemma {:induction false} DrainResidue(a: seq<Byte>)
    ensures Drain(Drain(a).residue) == Drained([], Drain(a).residue, Drain(a).failed)
    decreases |a|
  {
    match NextFrame(a)
    case Complete(f, rest) => DrainResidue(rest);
    case _ =>
  }

  /** The frames taken by the append that failed, if one did; they are not handed out. */
  function LostFrames(residue: seq<Byte>, chunks: seq<seq<Byte>>): seq<Frame>
    decreases |chunks|
  {
    if chunks == [] then []
    else
      var d := Drain(residue + chunks[0]);
      if d.failed then d.frames else LostFrames(d.residue, chunks[1..])
  }

  lemma {:induction false} FeedLoses(residue: seq<Byte>, chunks: seq<seq<Byte>>)
    requires NextFrame(residue).Incomplete?
    ensures var fed, whole := Feed(residue, chunks), Drain(residue + Concat(chunks));
            && fed.failed == whole.failed && (!fed.failed ==> fed == whole)
            && whole.frames == fed.frames + LostFrames(residue, chunks)
    decreases |chunks|
  {
    if chunks == [] {
      assert residue + Concat(chunks) == residue;
    } else {
      var first, back := residue + chunks[0], Concat(chunks[1..]);
      assert residue + Concat(chunks) == first + back;
      var d := Drain(first);
      AppendInTwoChunks(first, back);
      if !d.failed {
        DrainResidue(first);
        FeedLoses(d.residue, chunks[1..]);
        var others, lost := Feed(d.residue, chunks[1..]).frames, LostFrames(d.residue, chunks[1..]);
        assert d.frames + (others + lost) == (d.frames + others) + lost;
      } else {
        assert [] + d.frames == d.frames;
      }
    }
  }

  /**
    Feeding chunks against draining the whole: the same failure, the same frames but for those the
    failing append had taken, and without a failure the same residue. So the frames are the same
    exactly when that append had taken none.
   */
  lemma FeedIsDrain(residue: seq<Byte>, chunks: seq<seq<Byte>>)
    requires NextFrame(residue).Incomplete?
    ensures var fed, whole := Feed(residue, chunks), Drain(residue + Concat(chunks));
            && fed.failed == whole.failed && (!fed.failed ==> fed == whole)
            && whole.frames == fed.frames + LostFrames(residue, chunks)
            && (fed.frames == whole.frames <==> LostFrames(residue, chunks) == [])
  {
    FeedLoses(residue, chunks);
  }

  function EncodeAll(frames: seq<Frame>): seq<Byte>
    requires forall f :: f in frames ==> |f.payload| < 0x1_0000_0000
  {
    if frames == [] then [] else Encode(frames[0]) + EncodeAll(frames[1..])
  }

  /** An encoded frame is read back whole exactly when it is within the frame limit. */
  lemma EncodedFrameReads(f: Frame, rest: seq<Byte>)
    requires |f.payload| < 0x1_0000_0000
    ensures NextFrame(Encode(f) + rest) == if |f.payload| <= MAX_FRAME_BYTES then Complete(f, rest) else Corrupt
  {
    var s := Encode(f) + rest;
    assert Pow256(3) == 256 * Pow256(2) && Pow256(1) == 256;
    ValueOfBytes(|f.payload|, 4);
    assert s[1..5] == Bytes(|f.payload|, 4);
    if |f.payload| <= MAX_FRAME_BYTES {
      assert s[5..5 + |f.payload|] == f.payload && s[5 + |f.payload|..] == rest;
    }
  }

  /** A frame on the wire: its type, the length of its payload in four bytes, the payload. */
  lemma FrameLayout(f: Frame)
    requires |f.payload| < 0x1_0000_0000
    ensures var s := Encode(f);
            && |s| == 5 + |f.payload| && FromRaw(s[0]) == Some(f.type_)
            && Value(s[1..5]) == |f.payload| && s[5..] == f.payload
  {
    assert Pow256(3) == 256 * Pow256(2) && Pow256(1) == 256;
    ValueOfBytes(|f.payload|, 4);
    assert Encode(f)[1..5] == Bytes(|f.payload|, 4);
  }

  lemma {:induction false} DrainEncoded(frames: seq<Frame>)
    requires forall f :: f in frames ==> |f.payload| <= MAX_FRAME_BYTES
    ensures Drain(EncodeAll(frames)) == Drained(frames, [], false)
  {
    if frames != [] {
      EncodedFrameReads(frames[0], EncodeAll(frames[1..]));
      DrainEncoded(frames[1..]);
      assert frames == [frames[0]] + frames[1..];
    }
  }

  /** However the encodings of frames are cut into chunks, those frames come out and nothing stays. */
  lemma AnySplitRecoversFrames(frames: seq<Frame>, chunks: seq<seq<Byte>>)
    requires forall f :: f in frames ==> |f.payload| <= MAX_FRAME_BYTES
    requires Concat(chunks) == EncodeAll(frames)
    ensures Feed([], chunks) == Drained(frames, [], false)
  {
    DrainEncoded(frames);
    FeedIsDrain([], chunks);
    assert [] + Concat(chunks) == Concat(chunks);
  }

  /** A failed stream stays failed: every later append fails too, without a frame. */
  lemma CorruptStays(a: seq<Byte>, more: seq<Byte>)
    requires Drain(a).failed
    ensures var later := Drain(Drain(a).residue + more); later.failed && later.frames == []
  {
    DrainResidue(a);
    NextFrameStable(Drain(a).residue, more);
  }

  /**
    Before a failure chunking does matter: the same bytes deliver a frame when the corrupt part
    comes in its own chunk, and nothing when it comes together with the frame.
   */
  lemma FramesBeforeCorruptionAreLost(good: Frame, bad: seq<Byte>)
    requires |good.payload| <= MAX_FRAME_BYTES && NextFrame(bad) == Corrupt
    ensures Feed([], [Encode(good) + bad]) == Drained([], bad, true)
    ensures Feed([], [Encode(good), bad]) == Drained([good], bad, true)
  {
    EncodedFrameReads(good, bad);
    EncodedFrameReads(good, []);
    assert Encode(good) + [] == Encode(good);
    assert [] + (Encode(good) + bad) == Encode(good) + bad && [] + Encode(good) == Encode(good);
    assert Drain(Encode(good)) == Drained([good], [], false);
    assert [] + bad == bad;
    assert Feed([], [bad]) == Drained([], bad, true);
    assert [Encode(good), bad][1..] == [bad];
  }

  // ---------------------------------------------------------------- typed payloads

  function OutputFrame(offset: nat, bytes: seq<Byte>): Frame {
    Frame(Output, Bytes(offset, 8) + bytes)
  }

  function ResizeFrame(cols: nat, rows: nat): Frame {
    Frame(Resize, Bytes(cols, 2) + Bytes(rows, 2))
  }

  function ReplayFrame(begin: bool, offset: nat): Frame {
    Frame(if begin then ReplayBegin else ReplayEnd, Bytes(offset, 8))
  }

  function ScrollFrame(dir: Byte, lines: nat, col: nat, row: nat): Frame {
    Frame(Scroll, [dir] + Bytes(lines, 2) + Bytes(col, 2) + Bytes(row, 2))
  }

  function ModesFrame(altScreen: bool, mouseReporting: bool): Frame {
    Frame(Modes, [(if altScreen then 1 else 0) + if mouseReporting then 2 else 0])
  }

  function OutputPayload(f: Frame): Option<(nat, seq<Byte>)> {
    if f.type_ != Output || |f.payload| < 8 then None
    else Some((Value(f.payload[0..8]), f.payload[8..]))
  }

  function ResizePayload(f: Frame): Option<(nat, nat)> {
    if f.type_ != Resize || |f.payload| < 4 then None
    else Some((Value(f.payload[0..2]), Value(f.payload[2..4])))
  }

  function OffsetPayload(f: Frame): Option<nat> {
    if (f.type_ != ReplayBegin && f.type_ != ReplayEnd) || |f.payload| < 8 then None
    else Some(Value(f.payload[0..8]))
  }

  function ScrollPayload(f: Frame): Option<(Byte, nat, nat, nat)> {
    if f.type_ != Scroll || |f.payload| < 7 then None
    else Some((f.payload[0], Value(f.payload[1..3]), Value(f.payload[3..5]), Value(f.payload[5..7])))
  }

  function ModesPayload(f: Frame): Option<(bool, bool)> {
    if f.type_ != Modes || f.payload == [] then None
    else Some((f.payload[0] % 2 == 1, f.payload[0] / 2 % 2 == 1))
  }

  /** Each accessor inverts its constructor on every value of its fields' widths. */
  lemma OffsetPayloadsRoundTrip(offset: nat, bytes: seq<Byte>, begin: bool)
    requires offset < Pow256(8)
    ensures OutputPayload(OutputFrame(offset, bytes)) == Some((offset, bytes))
    ensures OffsetPayload(ReplayFrame(begin, offset)) == Some(offset)
    ensures begin <==> ReplayFrame(begin, offset).type_ == ReplayBegin
  {
    ValueOfBytes(offset, 8);
    var output := OutputFrame(offset, bytes).payload;
    assert output[0..8] == Bytes(offset, 8) && output[8..] == bytes;
    assert ReplayFrame(begin, offset).payload[0..8] == Bytes(offset, 8);
  }

  lemma ResizeAndModesRoundTrip(cols: nat, rows: nat, x: bool, y: bool)
    requires cols < Pow256(2) && rows < Pow256(2)
    ensures ResizePayload(ResizeFrame(cols, rows)) == Some((cols, rows))
    ensures ModesPayload(ModesFrame(x, y)) == Some((x, y))
    ensures ModesFrame(x, y).payload == [if x && y then 3 else if y then 2 else if x then 1 else 0]
  {
    ValueOfBytes(cols, 2);
    ValueOfBytes(rows, 2);
    var resize := ResizeFrame(cols, rows).payload;
    assert resize[0..2] == Bytes(cols, 2) && resize[2..4] == Bytes(rows, 2);
  }

  lemma ScrollRoundTrip(dir: Byte, lines: nat, col: nat, row: nat)
    requires lines < Pow256(2) && col < Pow256(2) && row < Pow256(2)
    ensures ScrollPayload(ScrollFrame(dir, lines, col, row)) == Some((dir, lines, col, row))
  {
    ValueOfBytes(lines, 2);
    ValueOfBytes(col, 2);
    ValueOfBytes(row, 2);
    var scroll := ScrollFrame(dir, lines, col, row).payload;
    assert scroll[1..3] == Bytes(lines, 2);
    assert scroll[3..5] == Bytes(col, 2);
    assert scroll[5..7] == Bytes(row, 2);
  }
}
