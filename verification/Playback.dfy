/** From encoded frames to what a receiver on the wire plays back. */
module Playback {
  import opened Words
  import opened BiphaseMark
  import opened SubframeCoder
  import opened LineStream
  import opened ChannelStatus
  import opened Frames
  import opened Interleaving
  import opened Fifo
  import opened KeptFrames
  import opened Listening

  /** The subframes of a stream of frames, in order. */
  function SlotsOf(format: Format, frames: seq<Encoded>): (slots: seq<Slot>)
    ensures |slots| == 2 * |frames|
  {
    if |frames| == 0 then []
    else
      var last := frames[|frames| - 1];
      SlotsOf(format, frames[..|frames| - 1]) + FrameSlots(format, last.number % 192, last.pcm)
  }

  lemma {:induction false} SlotsEven(format: Format, frames: seq<Encoded>)
    ensures AllEven(SlotsOf(format, frames))
  {
    hide FrameSlots, Even;
    if |frames| > 0 {
      var last := frames[|frames| - 1];
      SlotsEven(format, frames[..|frames| - 1]);
      FrameSlotsEven(format, last.number % 192, last.pcm);
    }
  }

  /** The frames' words put those subframes on the wire. */
  lemma {:induction false} StreamOnWire(format: Format, frames: seq<Encoded>)
    ensures PortCells(StreamOf(format, frames)) == Wire(SlotsOf(format, frames))
  {
    if |frames| > 0 {
      var front, last := frames[..|frames| - 1], frames[|frames| - 1];
      StreamOnWire(format, front);
      FrameOnPort(format, last.number % 192, last.pcm);
      hide FrameWords, FrameSlots, PortCells, Wire;
      PortConcat(StreamOf(format, front), FrameWords(format, last.number % 192, last.pcm));
      WireConcat(SlotsOf(format, front), FrameSlots(format, last.number % 192, last.pcm));
    }
  }

  /** The audio field and status bit as a receiver reads them. */
  function AudioOf(s: Slot): Field24 {
    BitsOfValue(Reverse(s.payload[..24]));
    Pow2Widths();
    Value(Reverse(s.payload[..24]))
  }

  predicate StatusOf(s: Slot) {
    s.payload[26]
  }

  lemma PayloadReadBack(s: Subframe, p: Preamble)
    ensures AudioOf(LineSubframe(p, s.Payload())) == s.Audio()
    ensures StatusOf(LineSubframe(p, s.Payload())) == (s.channelStatus == 1)
  {
    hide Bits;
    AudioSlots(s);
    Pow2Widths();
    ValueOfBits(s.Audio(), 24);
  }

  /** Besides audio and parity, every subframe of the program carries: validity 0, user data 0, and a
      status bit that is set in frames 2 and 24 of the block, in frame 20 on the left and 21 on
      the right. */
  lemma SlotFlags(format: Format, phase: nat, pcm: Pcm, channel: nat)
    requires phase < 192 && channel < 2
    ensures var payload := FrameSlots(format, phase, pcm)[channel].payload;
            && !payload[24] && !payload[25]
            && (payload[26] <==> phase == 2 || phase == 24 || phase == (if channel == 0 then 20 else 21))
  {
    hide StatusBit, StatusBytes, Reverse;
    StatusBitsSet(1 + channel, phase);
  }

  const EIGHT_ZEROES := [false, false, false, false, false, false, false, false]

  /** The 24 time slots of a subframe's sample, least significant first: two's complement, a 16-bit sample
      in the upper 16 with zeroes below; left in the first subframe, right in the second. */
  lemma SlotSample(format: Format, phase: nat, pcm: Pcm, channel: nat)
    requires phase < 192 && channel < 2
    ensures var sample := if channel == 0 then pcm.a else pcm.b;
            Reverse(FrameSlots(format, phase, pcm)[channel].payload[..24])
            == if format == S16le then Bits(sample % 65536, 16) + EIGHT_ZEROES
               else Bits(sample % 16777216, 24)
  {
    hide Bits, Reverse, Template, Placed, Subframe.Payload;
    var depth, sample := DepthOf(format), if channel == 0 then pcm.a else pcm.b;
    PlacedBits(format, sample);
    var s := Carrying(Template(1 + channel, phase), depth, sample);
    assert s.Audio() == Placed(depth, sample);
    AudioSlots(s);
  }

  lemma AudioSlots(s: Subframe)
    ensures Reverse(s.Payload()[..24]) == Bits(s.Audio(), 24)
  {
    hide Bits, Subframe.Audio;
    var audio := Bits(s.Audio(), 24);
    assert s.Payload()[..24] == Reverse(audio);
    assert Reverse(Reverse(audio)) == audio;
  }

  lemma PlacedBits(format: Format, sample: int32)
    ensures Bits(Placed(DepthOf(format), sample), 24)
         == if format == S16le then Bits(sample % 65536, 16) + EIGHT_ZEROES
            else Bits(sample % 16777216, 24)
  {
    if format == S16le {
      Pow2Widths();
      ScaledMod(sample, 65536, 256);
      BitsJoin(sample % 65536, 0, 16, 8);
      assert Bits(0, 8) == EIGHT_ZEROES;
    }
  }

  /** Successive subframes, a then b, as samples. */
  function Play(format: Format, slots: seq<Slot>): seq<Pcm> {
    if |slots| < 2 then []
    else
      var k, depth := |slots| - 2, DepthOf(format);
      Play(format, slots[..k]) + [Pcm(Received(depth, AudioOf(slots[k])), Received(depth, AudioOf(slots[k + 1])))]
  }

  lemma FrameReadBack(format: Format, phase: nat, pcm: Pcm)
    requires phase < 192 && PcmRepresentable(format, pcm)
    ensures var slots := FrameSlots(format, phase, pcm);
            && Received(DepthOf(format), AudioOf(slots[0])) == pcm.a
            && Received(DepthOf(format), AudioOf(slots[1])) == pcm.b
  {
    hide Value, Reverse, AudioOf, Received, Placed;
    var a := Carrying(Template(1, phase), DepthOf(format), pcm.a);
    var b := Carrying(Template(2, phase), DepthOf(format), pcm.b);
    PayloadReadBack(a, if phase == 0 then PreambleB else PreambleM);
    PayloadReadBack(b, PreambleW);
    PlacementRoundTrip(DepthOf(format), pcm.a);
    PlacementRoundTrip(DepthOf(format), pcm.b);
    assert a.Audio() == Placed(DepthOf(format), pcm.a);
    assert b.Audio() == Placed(DepthOf(format), pcm.b);
  }

  lemma PlayFrame(format: Format, slots: seq<Slot>, frame: seq<Slot>, pcm: Pcm)
    requires |frame| == 2
    requires Received(DepthOf(format), AudioOf(frame[0])) == pcm.a
    requires Received(DepthOf(format), AudioOf(frame[1])) == pcm.b
    ensures Play(format, slots + frame) == Play(format, slots) + [pcm]
  {
    hide Received, AudioOf;
    var all := slots + frame;
    assert all[..|all| - 2] == slots && all[|all| - 2] == frame[0] && all[|all| - 1] == frame[1];
  }

  /** The samples of a stream of frames. */
  function Samples(frames: seq<Encoded>): (samples: seq<Pcm>)
    ensures |samples| == |frames|
  {
    seq(|frames|, i requires 0 <= i < |frames| => frames[i].pcm)
  }

  /** Decoding the subframes of any stream gives its samples back. */
  lemma {:induction false} PlayFrames(format: Format, frames: seq<Encoded>)
    requires AllRepresentable(format, Samples(frames))
    ensures Play(format, SlotsOf(format, frames)) == Samples(frames)
  {
    hide *;
    if |frames| == 0 {
      PlayNothing(format, frames);
    } else {
      var front, last := frames[..|frames| - 1], frames[|frames| - 1];
      SamplesSnoc(format, frames);
      SlotsSnoc(format, frames);
      PlayFrames(format, front);
      FrameReadBack(format, last.number % 192, last.pcm);
      PlayFrame(format, SlotsOf(format, front), FrameSlots(format, last.number % 192, last.pcm), last.pcm);
    }
  }

  lemma PlayNothing(format: Format, frames: seq<Encoded>)
    requires |frames| == 0
    ensures Play(format, SlotsOf(format, frames)) == Samples(frames)
  {
  }

  lemma SamplesPrefix(format: Format, frames: seq<Encoded>, m: nat)
    requires m <= |frames| && AllRepresentable(format, Samples(frames))
    ensures Samples(frames[..m]) == Samples(frames)[..m] && AllRepresentable(format, Samples(frames[..m]))
  {
    hide PcmRepresentable;
    assert Samples(frames[..m]) == Samples(frames)[..m];
    forall i | 0 <= i < m
      ensures PcmRepresentable(format, Samples(frames[..m])[i])
    {
      assert Samples(frames[..m])[i] == Samples(frames)[i];
    }
  }

  lemma SamplesSnoc(format: Format, frames: seq<Encoded>)
    requires |frames| > 0 && AllRepresentable(format, Samples(frames))
    ensures var front, last := frames[..|frames| - 1], frames[|frames| - 1];
            Samples(frames) == Samples(front) + [last.pcm]
            && AllRepresentable(format, Samples(front)) && PcmRepresentable(format, last.pcm)
  {
    hide PcmRepresentable;
    SamplesPrefix(format, frames, |frames| - 1);
    assert Samples(frames)[|frames| - 1] == frames[|frames| - 1].pcm;
  }

  lemma SlotsSnoc(format: Format, frames: seq<Encoded>)
    requires |frames| > 0
    ensures var front, last := frames[..|frames| - 1], frames[|frames| - 1];
            SlotsOf(format, frames) == SlotsOf(format, front) + FrameSlots(format, last.number % 192, last.pcm)
  {
    hide FrameSlots;
  }

  /** The frames transmitted whole, and their half-cells. */
  function WholeFrames(s: Sys): nat {
    |s.out| / 4
  }

  function WireOf(s: Sys): (cells: seq<bool>)
    ensures |cells| == 128 * WholeFrames(s)
  {
    PortCells(s.out[..4 * WholeFrames(s)])
  }

  /** A moment of a prompt interleaving with a full preload, after any number of underruns and replays. */
  ghost predicate PromptState(format: Format, b: Behaviour, i: nat) {
    IsRun(format, b) && PromptTo(b, i) && b.states[i].ctl.primed
  }

  /** Bytes to wire and back: whatever samples were parsed, in whatever order the engine and
      the writer moved within the program's timing, a receiver listening to the transmitted
      whole frames plays exactly the frames heard, replays included, and one that tunes in at
      any half-cell q finds every later subframe. */
  lemma WirePlaysBack(format: Format, b: Behaviour, i: nat, s: Sys, frames: seq<Encoded>, q: nat)
    requires PromptState(format, b, i) && s == b.states[i] && frames == Heard(b, i)
    requires AllRepresentable(format, Samples(frames)) && q <= 128 * WholeFrames(s)
    ensures WholeFrames(s) <= |frames|
    ensures Play(format, Receive(WireOf(s))) == Samples(frames)[..WholeFrames(s)]
    ensures Receive(WireOf(s)[q..]) == SlotsOf(format, frames[..WholeFrames(s)])[(q + 63) / 64..]
  {
    hide PromptState, Receive, Wire, WireOf, WholeFrames, AllEven, Play, SlotsOf, PcmRepresentable, Heard;
    TransmittedWire(format, b, i, s, frames);
    var sent := frames[..WholeFrames(s)];
    var slots := SlotsOf(format, sent);
    ReceiveFromAnywhere(slots, 0);
    assert Wire(slots)[0..] == Wire(slots) && slots[0..] == slots;
    ReceiveFromAnywhere(slots, q);
    SamplesPrefix(format, frames, WholeFrames(s));
    PlayFrames(format, sent);
  }

  /** The whole frames transmitted are the coded subframes of the frames heard. */
  lemma TransmittedWire(format: Format, b: Behaviour, i: nat, s: Sys, frames: seq<Encoded>)
    requires PromptState(format, b, i) && s == b.states[i] && frames == Heard(b, i)
    ensures WholeFrames(s) <= |frames|
    ensures WireOf(s) == Wire(SlotsOf(format, frames[..WholeFrames(s)]))
    ensures AllEven(SlotsOf(format, frames[..WholeFrames(s)]))
  {
    hide IsRun, PromptTo, Wire, PortCells, AllEven, SlotsOf, StreamOf, Heard, Kept, Laid, Known, Labelled, Listed,
         OncePlaced;
    var whole := WholeFrames(s);
    TransmitsHeard(format, b, i);
    StreamPrefix(format, frames, whole);
    assert s.out[..4 * whole] == StreamOf(format, frames[..whole]);
    StreamOnWire(format, frames[..whole]);
    SlotsEven(format, frames[..whole]);
  }

  /** They are what a standard coder, inverting preambles as the level demands, would have put on
      the line, and the line's running digital sum never leaves [0, 3]. */
  lemma TransmittedIsStandard(format: Format, b: Behaviour, i: nat, s: Sys, frames: seq<Encoded>, p: nat)
    requires PromptState(format, b, i) && s == b.states[i] && frames == Heard(b, i) && p <= 128 * WholeFrames(s)
    ensures WholeFrames(s) <= |frames|
    ensures WireOf(s) == StandardWire(false, SlotsOf(format, frames[..WholeFrames(s)]))
    ensures 0 <= DigitalSum(WireOf(s)[..p]) <= 3
  {
    hide PromptState, Wire, WireOf, WholeFrames, StandardWire, SlotsOf, Even, DigitalSum, Heard;
    TransmittedWire(format, b, i, s, frames);
    var slots := SlotsOf(format, frames[..WholeFrames(s)]);
    FixedPolarityIsStandard(slots);
    WireBalanced(slots, p);
  }

  lemma {:induction false} StreamPrefix(format: Format, frames: seq<Encoded>, m: nat)
    requires m <= |frames|
    ensures StreamOf(format, frames)[..4 * m] == StreamOf(format, frames[..m])
  {
    hide FrameWords;
    if m < |frames| {
      StreamPrefix(format, frames[..|frames| - 1], m);
      assert frames[..|frames| - 1][..m] == frames[..m];
    } else {
      assert frames[..m] == frames;
    }
  }
}
