/** Channel status: the 192-frame block and the status bits stored in it. */
module ChannelStatus {
  import opened Words
  import opened NibbleTable
  import opened SubframeCoder

  const SPDIF_FRAME_COUNT := 192

  type Field2 = x: int | 0 <= x < 4
  type Field3 = x: int | 0 <= x < 8

  const RESERVED: seq<uint8> := [0, 0, 0, 0, 0, 0, 0, 0, 0, 0, 0, 0, 0, 0, 0, 0, 0, 0, 0]

  /** The PCM consumer channel status word, field by field. */
  datatype Status = Status(
    aes3: Bit, compressed: Bit, copyPermit: Bit, pcmMode: Field3, mode: Field2,
    categoryCode: uint8,
    sourceNumber: Nibble, channelNumber: Nibble,
    sampleFrequency: Nibble, clockAccuracy: Field2,
    wordLength: Bit, sampleWordLength: Field3, originalSamplingFrequency: Nibble)
  {
    /** The union's 24 bytes. */
    function Raw(): (raw: seq<uint8>)
      ensures |raw| == 24
    {
      [aes3 + 2 * compressed + 4 * copyPermit + 8 * pcmMode + 64 * mode,
       categoryCode,
       sourceNumber + 16 * channelNumber,
       sampleFrequency + 16 * clockAccuracy,
       wordLength + 2 * sampleWordLength + 16 * originalSamplingFrequency]
      + RESERVED
    }
  }

  const ZERO_STATUS := Status(0, 0, 0, 0, 0, 0, 0, 0, 0, 0, 0, 0, 0)

  /** The status each channel announces: consumer PCM, copying permitted, the
      channel's number in the upper half of byte 2, sample frequency not indicated. */
  function StatusBytes(channel: Nibble): (raw: seq<uint8>)
    ensures |raw| == 24
  {
    [0x04, 0x00, 16 * channel, 0x01, 0x00] + RESERVED
  }

  /** The status bit of frame i, least significant bit of each byte first. */
  function StatusBit(raw: seq<uint8>, i: nat): Bit
    requires |raw| == 24 && i < 192
  {
    Shr(raw[i / 8], i % 8) % 2
  }

  /** Of the 192 status bits of a channel three are set: copying permitted, the channel's number
      (1 left, 2 right), and sample frequency not indicated. */
  lemma StatusBitsSet(channel: Nibble, i: nat)
    requires 1 <= channel <= 2 && i < 192
    ensures StatusBit(StatusBytes(channel), i) == 1 <==> i == 2 || i == 24 || i == (if channel == 1 then 20 else 21)
  {
    var j, t := i / 8, i % 8;
    assert i == 8 * j + t;
    AnnouncedByte(channel, j);
    hide StatusBytes, Shr;
    BitOfByte(StatusBytes(channel)[j], t);
  }

  lemma AnnouncedByte(channel: Nibble, j: nat)
    requires j < 24
    ensures StatusBytes(channel)[j] == if j == 0 then 4 else if j == 2 then 16 * channel else if j == 3 then 1 else 0
  {
    if j > 4 {
      assert RESERVED[j - 5] == 0;
    }
  }

  lemma BitOfByte(x: uint8, t: nat)
    requires t < 8 && (x == 0 || x == 1 || x == 4 || x == 16 || x == 32)
    ensures Shr(x, t) % 2 == 1
       <==> (x == 1 && t == 0) || (x == 4 && t == 2) || (x == 16 && t == 4) || (x == 32 && t == 5)
  {
    hide Shr;
    ShiftedByte(x, t);
  }

  lemma {:induction false} ShiftedByte(x: uint8, t: nat)
    requires t < 8
    ensures Shr(x, t) == x / (if t == 0 then 1 else if t == 1 then 2 else if t == 2 then 4 else if t == 3 then 8
                              else if t == 4 then 16 else if t == 5 then 32 else if t == 6 then 64 else 128)
  {
    if t > 0 {
      ShiftedByte(x / 2, t - 1);
    }
  }

  /** A frame's subframe before it has carried a sample. */
  function Template(channel: Nibble, phase: nat): Subframe
    requires phase < 192
  {
    EMPTY_SUBFRAME.(channelStatus := StatusBit(StatusBytes(channel), phase))
  }

  /** Byte j of the status a receiver collects from a block's 192 status bits. */
  function CollectedByte(bits: seq<bool>, j: nat): nat
    requires |bits| == 192 && j < 24
  {
    Value(Reverse(bits[8 * j..8 * j + 8]))
  }

  lemma {:induction false} BitAt(x: nat, n: nat, t: nat)
    requires t < n
    ensures Bits(x, n)[n - 1 - t] == (Shr(x, t) % 2 == 1)
  {
    if t > 0 {
      BitAt(x / 2, n - 1, t - 1);
    }
  }

  /** Collecting one block's bits rebuilds the status bytes. */
  lemma CollectionRebuilds(raw: seq<uint8>, bits: seq<bool>, j: nat)
    requires |raw| == 24 && |bits| == 192 && j < 24
    requires forall i :: 0 <= i < 192 ==> bits[i] == (StatusBit(raw, i) == 1)
    ensures CollectedByte(bits, j) == raw[j]
  {
    var slice := bits[8 * j..8 * j + 8];
    forall t | 0 <= t < 8
      ensures slice[t] == Bits(raw[j], 8)[7 - t]
    {
      BitAt(raw[j], 8, t);
      assert (8 * j + t) / 8 == j && (8 * j + t) % 8 == t;
      assert slice[t] == bits[8 * j + t];
    }
    assert Reverse(slice) == Bits(raw[j], 8);
    Pow2Widths();
    ValueOfBits(raw[j], 8);
  }

  /** The block of 192 frames, subframe a of frame i at 2i and subframe b at 2i + 1. */
  class Block {
    const subframes: array<Subframe>

    /** Every subframe still holds its channel's status bit and nothing in the
        preamble and user-data fields. */
    ghost predicate Populated()
      reads this, subframes
    {
      KeepsTemplates(subframes[..])
    }

    /** A zeroed block. */
    constructor ()
      ensures fresh(subframes) && subframes.Length == 384
      ensures forall i :: 0 <= i < 384 ==> subframes[i] == EMPTY_SUBFRAME
      ensures forall i :: 0 <= i < 384 ==> subframes[i] == Subframe(0, 0, 0, 0, 0, 0, 0)
    {
      subframes := new Subframe[384](_ => EMPTY_SUBFRAME);
    }

    /** Builds the two status words and copies their bits into the frames. */
    method PopulateChannelStatus()
      requires subframes.Length == 384
      modifies subframes
      ensures Marked(old(subframes[..]), subframes[..], 192)
      ensures forall i: nat :: i < 192 ==> Announced(subframes[2 * i], 1, i) && Announced(subframes[2 * i + 1], 2, i)
    {
      var statusA := ZERO_STATUS;
      statusA := statusA.(aes3 := 0, compressed := 0, copyPermit := 1, pcmMode := 0, mode := 0);
      statusA := statusA.(categoryCode := 0);
      statusA := statusA.(sourceNumber := 0, channelNumber := 1);
      statusA := statusA.(sampleFrequency := 1, clockAccuracy := 0);
      statusA := statusA.(wordLength := 0, sampleWordLength := 0, originalSamplingFrequency := 0);
      var statusB := statusA.(channelNumber := 2);
      var rawA, rawB := statusA.Raw(), statusB.Raw();
      AnnouncedStatus(statusA, 1);
      AnnouncedStatus(statusB, 2);
      ghost var before := subframes[..];
      for i := 0 to 192
        invariant Marked(before, subframes[..], i)
      {
        ghost var now := subframes[..];
        subframes[2 * i] := subframes[2 * i].(channelStatus := Shr(rawA[i / 8], i % 8) % 2);
        subframes[2 * i + 1] := subframes[2 * i + 1].(channelStatus := Shr(rawB[i / 8], i % 8) % 2);
        MarkFrame(before, now, subframes[..], i);
      }
      forall i: nat | i < 192
        ensures Announced(subframes[2 * i], 1, i) && Announced(subframes[2 * i + 1], 2, i)
      {
        MarkedIsAnnounced(before, subframes[..], i);
      }
    }
  }

  /** The first k frames have been given their status bits. */
  ghost predicate Marked(before: seq<Subframe>, now: seq<Subframe>, k: nat) {
    && |before| == |now| == 384
    && forall m :: 0 <= m < 384 ==>
        now[m] == if m < 2 * k then WithStatus(before[m], StatusBytes(1 + m % 2), m / 2) else before[m]
  }

  /** The status bit frame i has to carry in the given channel. */
  predicate Announced(s: Subframe, channel: nat, i: nat) {
    s.channelStatus == 1 <==> i == 2 || i == 24 || i == (if channel == 1 then 20 else 21)
  }

  lemma MarkedIsAnnounced(before: seq<Subframe>, now: seq<Subframe>, i: nat)
    requires Marked(before, now, 192) && i < 192
    ensures Announced(now[2 * i], 1, i) && Announced(now[2 * i + 1], 2, i)
  {
    hide StatusBytes, StatusBit;
    assert (2 * i) % 2 == 0 && (2 * i) / 2 == i && (2 * i + 1) % 2 == 1 && (2 * i + 1) / 2 == i;
    StatusBitsSet(1, i);
    StatusBitsSet(2, i);
  }

  lemma MarkFrame(before: seq<Subframe>, now: seq<Subframe>, next: seq<Subframe>, i: nat)
    requires i < 192 && Marked(before, now, i)
    requires next == now[2 * i := WithStatus(now[2 * i], StatusBytes(1), i)]
                        [2 * i + 1 := WithStatus(now[2 * i + 1], StatusBytes(2), i)]
    ensures Marked(before, next, i + 1)
  {
    forall m | 0 <= m < 384
      ensures next[m] == if m < 2 * (i + 1) then WithStatus(before[m], StatusBytes(1 + m % 2), m / 2) else before[m]
    {
      if m == 2 * i {
        assert m % 2 == 0 && m / 2 == i;
      } else if m == 2 * i + 1 {
        assert m % 2 == 1 && m / 2 == i;
      } else {
        assert next[m] == now[m];
      }
    }
  }

  function WithStatus(s: Subframe, raw: seq<uint8>, i: nat): Subframe
    requires |raw| == 24 && i < 192
  {
    s.(channelStatus := StatusBit(raw, i))
  }

  lemma AnnouncedStatus(s: Status, channel: Nibble)
    requires s == ZERO_STATUS.(copyPermit := 1, channelNumber := channel, sampleFrequency := 1)
    ensures s.Raw() == StatusBytes(channel)
  {
  }

  ghost predicate KeepsTemplates(frames: seq<Subframe>) {
    |frames| == 384 && forall m :: 0 <= m < 384 ==> Keeps(frames[m], Template(1 + m % 2, m / 2))
  }

  /** Populating a zeroed block establishes that. */
  lemma PopulatedFromZero(before: seq<Subframe>, now: seq<Subframe>)
    requires Marked(before, now, 192)
    requires forall m :: 0 <= m < 384 ==> before[m] == EMPTY_SUBFRAME
    ensures KeepsTemplates(now)
  {
  }

  /** Carrying a frame's samples in place maintains it. */
  lemma CarryingKeepsTemplates(frames: seq<Subframe>, i: nat, depth: Depth, a: int32, b: int32)
    requires KeepsTemplates(frames) && i < 192
    ensures Carrying(frames[2 * i], depth, a) == Carrying(Template(1, i), depth, a)
    ensures Carrying(frames[2 * i + 1], depth, b) == Carrying(Template(2, i), depth, b)
    ensures KeepsTemplates(frames[2 * i := Carrying(frames[2 * i], depth, a)]
                                 [2 * i + 1 := Carrying(frames[2 * i + 1], depth, b)])
  {
    hide Carrying, Template;
    assert (2 * i) % 2 == 0 && (2 * i) / 2 == i && (2 * i + 1) % 2 == 1 && (2 * i + 1) / 2 == i;
    CarryingKeeps(frames[2 * i], Template(1, i), depth, a);
    CarryingKeeps(frames[2 * i + 1], Template(2, i), depth, b);
  }

  /** Agreement on the fields that carrying a sample must not touch. */
  predicate Keeps(s: Subframe, template: Subframe) {
    s.preamble == template.preamble && s.userData == template.userData && s.channelStatus == template.channelStatus
  }

  /** Carrying a sample keeps them, and the result depends on nothing else in the subframe. */
  lemma CarryingKeeps(s: Subframe, template: Subframe, depth: Depth, sample: int32)
    requires Keeps(s, template)
    ensures Keeps(Carrying(s, depth, sample), template)
    ensures Carrying(s, depth, sample) == Carrying(template, depth, sample)
  {
  }
}
