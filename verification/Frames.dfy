/** PCM frames from the input bytes to the four words each occupies in a buffer. */
module Frames {
  import opened Words
  import opened SubframeCoder
  import opened LineStream
  import opened ChannelStatus

  datatype Format = S16le | S24le

  datatype Pcm = Pcm(a: int32, b: int32)

  const SILENCE := Pcm(0, 0)

  function DepthOf(format: Format): Depth {
    if format == S24le then Depth24 else Depth16
  }

  /** Bytes in one sample of the format. */
  function SampleSize(format: Format): nat {
    if format == S24le then 3 else 2
  }

  /** A little-endian sample, sign extended. */
  function ParseSample(format: Format, bytes: seq<uint8>): (sample: int32)
    requires |bytes| >= SampleSize(format)
    ensures Representable(DepthOf(format), sample)
  {
    var low: int := bytes[0];
    var middle: int := bytes[1];
    if format == S16le then SignExtend(middle * 0x100 + low, 0x8000)
    else
      var high: int := bytes[2];
      SignExtend(high * 0x1_0000 + middle * 0x100 + low, 0x80_0000)
  }

  /** Least significant byte first, two's complement, in two or three bytes. */
  lemma ParseMeans(format: Format, bytes: seq<uint8>)
    requires |bytes| >= (if format == S16le then 2 else 3)
    ensures var first, second := bytes[0] as int, bytes[1] as int;
            format == S16le ==>
              ParseSample(format, bytes) == 256 * second + first - if second >= 128 then 65536 else 0
    ensures format == S24le ==>
              var first, second, third := bytes[0] as int, bytes[1] as int, bytes[2] as int;
              ParseSample(format, bytes)
              == 65536 * third + 256 * second + first - if third >= 128 then 16777216 else 0
    ensures SampleSize(format) == if format == S16le then 2 else 3
  {
  }

  /** The bytes a sample is stored as. */
  function SampleBytes(format: Format, sample: int32): (bytes: seq<uint8>)
    ensures |bytes| == SampleSize(format)
  {
    if format == S16le then [sample % 0x100, sample / 0x100 % 0x100]
    else [sample % 0x100, sample / 0x100 % 0x100, sample / 0x1_0000 % 0x100]
  }

  /** Parsing reads back every sample the format can store, and only those. */
  lemma ParseRoundTrip(format: Format, sample: int32)
    ensures ParseSample(format, SampleBytes(format, sample)) == sample <==> Representable(DepthOf(format), sample)
  {
    if format == S16le {
      WrapJoin(sample, 0x100, 0x100);
      SignExtendRange(sample, 0x8000);
    } else {
      WrapJoin(sample, 0x100, 0x100);
      WrapJoin(sample, 0x1_0000, 0x100);
      SignExtendRange(sample, 0x80_0000);
    }
  }

  /** A wrapped number is its low part below its wrapped high part. */
  lemma WrapJoin(x: int, p: nat, q: nat)
    requires p > 0 && q > 0
    ensures p * q > 0 && x % (p * q) == x / p % q * p + x % p
  {
    var h, l := x / p, x % p;
    ScaledMod(h, q, p);
    assert h % q * p <= (q - 1) * p;
    RemainderIs(x, p * q, h / q, h % q * p + l);
  }

  predicate PcmRepresentable(format: Format, pcm: Pcm) {
    Representable(DepthOf(format), pcm.a) && Representable(DepthOf(format), pcm.b)
  }

  ghost predicate AllRepresentable(format: Format, hist: seq<Pcm>) {
    forall i :: 0 <= i < |hist| ==> PcmRepresentable(format, hist[i])
  }

  /** The two subframes of a frame at the given position in the block. */
  function FrameSlots(format: Format, phase: nat, pcm: Pcm): (slots: seq<Slot>)
    requires phase < 192
    ensures |slots| == 2
  {
    [LineSubframe(if phase == 0 then PreambleB else PreambleM,
                  Carrying(Template(1, phase), DepthOf(format), pcm.a).Payload()),
     LineSubframe(PreambleW, Carrying(Template(2, phase), DepthOf(format), pcm.b).Payload())]
  }

  lemma FrameSlotsEven(format: Format, phase: nat, pcm: Pcm)
    requires phase < 192
    ensures AllEven(FrameSlots(format, phase, pcm))
  {
    CarryingIsEven(Template(1, phase), DepthOf(format), pcm.a);
    CarryingIsEven(Template(2, phase), DepthOf(format), pcm.b);
  }

  /** The upper and lower words of a subframe's 64 half-cells. */
  function Upper(s: Slot): uint32 {
    BitsOfValue(Cells(s)[..32]);
    Pow2Widths();
    Value(Cells(s)[..32])
  }

  function Lower(s: Slot): uint32 {
    BitsOfValue(Cells(s)[32..]);
    Pow2Widths();
    Value(Cells(s)[32..])
  }

  /** Words a.msb, a.lsb, b.msb, b.lsb of a frame in the buffer. */
  function FrameWords(format: Format, phase: nat, pcm: Pcm): (words: seq<uint32>)
    requires phase < 192
    ensures |words| == 4
  {
    var slots := FrameSlots(format, phase, pcm);
    [Upper(slots[0]), Lower(slots[0]), Upper(slots[1]), Lower(slots[1])]
  }

  lemma {:induction false} ShrBound(x: nat, a: nat, n: nat)
    requires x < Pow2(a + n)
    ensures Shr(x, n) < Pow2(a)
  {
    if n > 0 {
      ShrBound(x / 2, a, n - 1);
    }
  }

  /** Splitting a 64-bit code by shift and truncation yields those words. */
  lemma CodeSplits(code: uint64, s: Slot)
    requires Bits(code, 64) == Cells(s)
    ensures Shr(code, 32) == Upper(s) && Low(code, 32) == Lower(s)
  {
    Pow2Widths();
    BitsSplit(code, 32, 32);
    ShrBound(code, 32, 32);
    ValueOfBits(Shr(code, 32), 32);
    assert Cells(s)[..32] == Bits(Shr(code, 32), 32) && Cells(s)[32..] == Bits(code, 32);
  }

  /** Words as the PCM port shifts them out, most significant bit first. */
  function PortCells(words: seq<uint32>): (cells: seq<bool>)
    ensures |cells| == 32 * |words|
  {
    if |words| == 0 then [] else Bits(words[0], 32) + PortCells(words[1..])
  }

  lemma {:induction false} PortConcat(a: seq<uint32>, b: seq<uint32>)
    ensures PortCells(a + b) == PortCells(a) + PortCells(b)
  {
    if |a| == 0 {
      assert a + b == b;
    } else {
      assert (a + b)[1..] == a[1..] + b;
      PortConcat(a[1..], b);
    }
  }

  lemma SlotOnPort(s: Slot)
    ensures PortCells([Upper(s), Lower(s)]) == Cells(s)
  {
    BitsOfValue(Cells(s)[..32]);
    BitsOfValue(Cells(s)[32..]);
    assert PortCells([Upper(s), Lower(s)]) == Bits(Upper(s), 32) + PortCells([Lower(s)]);
    assert PortCells([Lower(s)]) == Bits(Lower(s), 32) + PortCells([]);
    assert Cells(s) == Cells(s)[..32] + Cells(s)[32..];
  }

  /** A frame's four words put its two subframes on the wire. */
  lemma FrameOnPort(format: Format, phase: nat, pcm: Pcm)
    requires phase < 192
    ensures PortCells(FrameWords(format, phase, pcm)) == Wire(FrameSlots(format, phase, pcm))
  {
    var slots := FrameSlots(format, phase, pcm);
    SlotOnPort(slots[0]);
    SlotOnPort(slots[1]);
    PortConcat([Upper(slots[0]), Lower(slots[0])], [Upper(slots[1]), Lower(slots[1])]);
    assert FrameWords(format, phase, pcm) == [Upper(slots[0]), Lower(slots[0])] + [Upper(slots[1]), Lower(slots[1])];
    assert slots[1..] == [slots[1]];
    assert Wire(slots[1..]) == Cells(slots[1]) + Wire([]);
  }

  /** The preamble a word begins with. */
  predicate Opens(word: uint32, p: Preamble) {
    Bits(word, 32)[..8] == PreambleCells(p)
  }

  /** The preamble is the word's top byte. */
  lemma OpensByte(word: uint32, p: Preamble)
    ensures Opens(word, p)
       <==> word / 0x100_0000 == match p case PreambleB => 0xE8 case PreambleM => 0xE2 case PreambleW => 0xE4
  {
    Pow2Widths();
    var top, low := word / 0x100_0000, word % 0x100_0000;
    BitsAppend(word, top, low, 8, 24, 0x100_0000);
    ValueOfBits(top, 8);
    ValueOfBits(PreambleByte(p), 8);
    hide Bits, Value;
    assert Bits(word, 32)[..8] == Bits(top, 8);
    PreambleByteSpells(p);
  }

  /** The msb words open with the block, left or right preamble; no other can be read from them. */
  lemma WordsOpen(format: Format, phase: nat, pcm: Pcm, p: Preamble)
    requires phase < 192
    ensures var w := FrameWords(format, phase, pcm);
            && (Opens(w[0], p) <==> p == if phase == 0 then PreambleB else PreambleM)
            && (Opens(w[2], p) <==> p == PreambleW)
  {
    var slots := FrameSlots(format, phase, pcm);
    UpperOpens(slots[0], p);
    UpperOpens(slots[1], p);
  }

  lemma UpperOpens(s: Slot, p: Preamble)
    ensures Opens(Upper(s), p) <==> p == s.preamble
  {
    BitsOfValue(Cells(s)[..32]);
    assert Cells(s)[..32][..8] == PreambleCells(s.preamble);
    ParsePreambleIff(PreambleCells(s.preamble), p);
    ParsePreambleIff(PreambleCells(s.preamble), s.preamble);
  }
}
