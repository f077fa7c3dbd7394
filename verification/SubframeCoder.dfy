/** Subframe layout (section 4.1.1 of IEC 60958-1), its construction in place,
    and its channel code. */
module SubframeCoder {
  import opened Words
  import opened BiphaseMark
  import opened NibbleTable

  datatype Preamble = PreambleM | PreambleW | PreambleB
  datatype Depth = Depth16 | Depth20 | Depth24

  type Bit = x: int | 0 <= x < 2
  type Field20 = x: int | 0 <= x < 0x10_0000
  type Field24 = x: int | 0 <= x < 0x100_0000

  /** The bit-field union, least significant field first. */
  datatype Subframe = Subframe(preamble: Nibble, aux: Nibble, sample: Field20,
                               validity: Bit, userData: Bit, channelStatus: Bit, parity: Bit)
  {
    function Raw(): uint32 {
      preamble + 0x10 * aux + 0x100 * sample + 0x1000_0000 * validity
      + 0x2000_0000 * userData + 0x4000_0000 * channelStatus + 0x8000_0000 * parity
    }

    /** The 24-bit audio field: bits 27..4 of the word. */
    function Audio(): Field24 {
      16 * sample + aux
    }

    function Flags(): Nibble {
      validity + 2 * userData + 4 * channelStatus + 8 * parity
    }

    /** The 28 time slots after the preamble in transmission order: audio least
        significant bit first, then validity, user data, channel status, parity. */
    function Payload(): (p: seq<bool>)
      ensures |p| == 28
    {
      Reverse(Bits(Audio(), 24)) + [validity == 1, userData == 1, channelStatus == 1, parity == 1]
    }
  }

  const EMPTY_SUBFRAME := Subframe(0, 0, 0, 0, 0, 0, 0)

  function PopCount(x: uint32): nat {
    Ones(Bits(x, 32))
  }

  /** Bit reversal of a 32-bit word. */
  function Rbit(x: uint32): (w: uint32)
    ensures Bits(w, 32) == Reverse(Bits(x, 32))
  {
    BitsOfValue(Reverse(Bits(x, 32)));
    Pow2Widths();
    Value(Reverse(Bits(x, 32)))
  }

  /** A sample left-justified in the audio field, modulo its width. */
  function Placed(depth: Depth, sample: int32): Field24 {
    match depth
    case Depth16 => sample * 0x100 % 0x100_0000
    case Depth20 => sample * 0x10 % 0x100_0000
    case Depth24 => sample % 0x100_0000
  }

  /** The subframe that carries a sample: the placed sample, valid, with the parity
      bit that makes the word even; the other fields as they were. */
  function Carrying(prior: Subframe, depth: Depth, sample: int32): Subframe {
    var audio := Placed(depth, sample);
    var unsigned := prior.(sample := audio / 16, aux := audio % 16, validity := 0, parity := 0);
    unsigned.(parity := PopCount(unsigned.Raw()) % 2)
  }

  function PreambleByte(p: Preamble): uint8 {
    match p case PreambleB => 0xE8 case PreambleM => 0xE2 case PreambleW => 0xE4
  }

  /** The preambles of section 4.3 of IEC 60958-1 after a low level: 1110 and then
      a one whose place tells them apart. */
  function PreambleCells(p: Preamble): (cells: seq<bool>)
    ensures |cells| == 8
  {
    [true, true, true, false, p == PreambleB, p == PreambleW, p == PreambleM, false]
  }

  /** The 64 half-cells of a subframe: its fixed preamble, then the payload coded from low. */
  function SubframeCells(p: Preamble, payload: seq<bool>): (cells: seq<bool>)
    ensures |cells| == 8 + 2 * |payload|
  {
    PreambleCells(p) + Encode(false, payload)
  }

  /** The constants spell those preambles. */
  lemma PreambleByteSpells(p: Preamble)
    ensures Bits(PreambleByte(p), 8) == PreambleCells(p)
  {
    LowPreambleNibble(p);
    var low: Nibble := PreambleByte(p) - 0xE0;
    BitsAppend(PreambleByte(p), 0xE, low, 4, 4, 16);
    HighPreambleNibble(0xE);
  }

  lemma HighPreambleNibble(high: Nibble)
    requires high == 0xE
    ensures Bits(high, 4) == [true, true, true, false]
  {
    FourBits(high);
  }

  lemma LowPreambleNibble(p: Preamble)
    ensures Bits(PreambleByte(p) - 0xE0, 4) == [p == PreambleB, p == PreambleW, p == PreambleM, false]
  {
    FourBits(PreambleByte(p) - 0xE0);
  }

  lemma Pow2Widths()
    ensures Pow2(4) == 0x10 && Pow2(8) == 0x100 && Pow2(20) == 0x10_0000 && Pow2(24) == 0x100_0000
    ensures Pow2(28) == 0x1000_0000 && Pow2(32) == 0x1_0000_0000 && Pow2(64) == 0x1_0000_0000_0000_0000
  {
    assert Pow2(4) == 16;
    Pow2By8(0); Pow2By8(4); Pow2By8(8); Pow2By8(12); Pow2By8(16); Pow2By8(20); Pow2By8(24);
    Pow2By8(32); Pow2By8(40); Pow2By8(48); Pow2By8(56);
  }

  lemma RawBits(s: Subframe)
    ensures Bits(s.Raw(), 32) == Bits(s.Flags(), 4) + Bits(s.Audio(), 24) + Bits(s.preamble, 4)
  {
    Pow2Widths();
    var upper := s.Flags() * 0x100_0000 + s.Audio();
    BitsAppend(s.Raw(), upper, s.preamble, 28, 4, 0x10);
    BitsAppend(upper, s.Flags(), s.Audio(), 4, 24, 0x100_0000);
  }

  /** The reversed word is the preamble slot followed by the payload in transmission order. */
  lemma RawInTransmissionOrder(s: Subframe)
    ensures Reverse(Bits(s.Raw(), 32)) == Reverse(Bits(s.preamble, 4)) + s.Payload()
  {
    RawBits(s);
    FlagBits(s);
    ThreeFields(Bits(s.Flags(), 4), Bits(s.Audio(), 24), Bits(s.preamble, 4));
  }

  lemma ThreeFields(a: seq<bool>, b: seq<bool>, c: seq<bool>)
    ensures Reverse(a + b + c) == Reverse(c) + (Reverse(b) + Reverse(a))
  {
    ReverseConcat(a + b, c);
    ReverseConcat(a, b);
  }

  lemma FlagBits(s: Subframe)
    ensures Reverse(Bits(s.Flags(), 4)) == [s.validity == 1, s.userData == 1, s.channelStatus == 1, s.parity == 1]
  {
    FourBits(s.Flags());
    FlagArithmetic(s);
  }

  lemma FlagArithmetic(s: Subframe)
    ensures s.Flags() / 8 % 2 == s.parity && s.Flags() / 4 % 2 == s.channelStatus
    ensures s.Flags() / 2 % 2 == s.userData && s.Flags() % 2 == s.validity
  {
  }

  /** What the coder is given of the reversed word is the payload. */
  lemma ReversedWordCarriesPayload(s: Subframe)
    ensures Bits(Rbit(s.Raw()), 28) == s.Payload()
  {
    var w := Rbit(s.Raw());
    RawInTransmissionOrder(s);
    BitsSplit(w, 4, 28);
    SameTail(Bits(Shr(w, 28), 4), Bits(w, 28), Reverse(Bits(s.preamble, 4)), s.Payload());
  }

  /** With an empty preamble field the parity bit makes the payload even. */
  lemma CarryingIsEven(prior: Subframe, depth: Depth, sample: int32)
    requires prior.preamble == 0
    ensures Ones(Carrying(prior, depth, sample).Payload()) % 2 == 0
  {
    var s := Carrying(prior, depth, sample);
    var u := s.(parity := 0);
    PayloadOnes(u);
    PayloadParity(s);
    PayloadParity(u);
  }

  lemma PayloadParity(s: Subframe)
    ensures Ones(s.Payload()) == Ones(s.(parity := 0).Payload()) + s.parity
  {
    var flags := [s.validity == 1, s.userData == 1, s.channelStatus == 1];
    var front := Reverse(Bits(s.Audio(), 24)) + flags;
    OnesConcat(front, [s.parity == 1]);
    OnesConcat(front, [false]);
    assert s.Payload() == front + [s.parity == 1];
    assert s.(parity := 0).Payload() == front + [false];
  }

  lemma PayloadOnes(s: Subframe)
    requires s.preamble == 0
    ensures PopCount(s.Raw()) == Ones(s.Payload())
  {
    RawInTransmissionOrder(s);
    OnesReverse(Bits(s.Raw(), 32));
    OnesConcat(Reverse(Bits(0, 4)), s.Payload());
    OnesReverse(Bits(0, 4));
  }

  /** Sign extension of a two's complement field of the given weight. */
  function SignExtend(field: nat, weight: nat): int
    requires weight > 0
  {
    if field >= weight then field - 2 * weight else field
  }

  predicate Representable(depth: Depth, sample: int32) {
    match depth
    case Depth16 => -0x8000 <= sample < 0x8000
    case Depth20 => -0x8_0000 <= sample < 0x8_0000
    case Depth24 => -0x80_0000 <= sample < 0x80_0000
  }

  /** The receiver's view of the audio field as a sample of the given depth. */
  function Received(depth: Depth, audio: Field24): int32 {
    match depth
    case Depth16 => SignExtend(audio, 0x80_0000) / 0x100
    case Depth20 => SignExtend(audio, 0x80_0000) / 0x10
    case Depth24 => SignExtend(audio, 0x80_0000)
  }

  /** Sign-extending the field recovers a sample exactly when its depth can represent it. */
  lemma PlacementRoundTrip(depth: Depth, sample: int32)
    ensures Received(depth, Placed(depth, sample)) == sample <==> Representable(depth, sample)
  {
    match depth
    case Depth16 => RecoverScaled(sample, 0x8000, 0x100);
    case Depth20 => RecoverScaled(sample, 0x8_0000, 0x10);
    case Depth24 => RecoverScaled(sample, 0x80_0000, 1);
  }

  /** Sign extension of a wrapped sample, scaled by k, gives the sample back exactly
      when it lies in the two's complement range. */
  lemma RecoverScaled(sample: int, half: int, k: nat)
    requires half > 0 && k > 0 && half * k == 0x80_0000
    ensures SignExtend(sample * k % 0x100_0000, 0x80_0000) / k == sample <==> -half <= sample < half
  {
    var wrapped := sample % (2 * half);
    assert 2 * half * k == 0x100_0000;
    ScaledMod(sample, 2 * half, k);
    var extended := SignExtend(wrapped, half);
    ScaleOrder(wrapped, half, k);
    assert extended * k == SignExtend(wrapped * k, half * k);
    ExactQuotient(extended, k);
    SignExtendRange(sample, half);
  }

  /** Sign-extending a wrapped number gives it back exactly when it lies in the two's complement range. */
  lemma SignExtendRange(sample: int, half: int)
    requires half > 0
    ensures SignExtend(sample % (2 * half), half) == sample <==> -half <= sample < half
  {
    if -half <= sample < half {
      RemainderIs(sample, 2 * half, if sample < 0 then -1 else 0, if sample < 0 then sample + 2 * half else sample);
    }
  }

  lemma ScaleOrder(x: nat, y: nat, k: nat)
    requires k > 0
    ensures x >= y <==> x * k >= y * k
  {
    if x >= y {
      assert (x - y) * k >= 0;
    } else {
      assert (y - x) * k >= 1;
    }
  }

  lemma ExactQuotient(x: int, k: nat)
    requires k > 0
    ensures x * k / k == x
  {
    var e := x * k / k;
    assert (x - e) * k == x * k % k;
    Multiples(x - e, k);
  }

  /** Scaling commutes with wrapping. */
  lemma ScaledMod(x: int, m: nat, k: nat)
    requires m > 0 && k > 0
    ensures x * k % (m * k) == x % m * k
  {
    var q, r := x / m, x % m;
    assert x * k == q * (m * k) + r * k;
    assert 0 <= r * k < m * k;
    RemainderIs(x * k, m * k, q, r * k);
  }

  lemma RemainderIs(x: int, d: nat, q: int, r: nat)
    requires r < d && x == q * d + r
    ensures x % d == r
  {
    var e := x / d;
    assert (q - e) * d == x % d - r;
    Multiples(q - e, d);
  }

  lemma Multiples(k: int, d: int)
    requires d >= 0
    ensures k >= 1 ==> k * d >= d
    ensures k <= -1 ==> k * d <= -d
  {
  }

  /** Encodes the low 28 bits of the data behind a preamble, filling eight bytes from the
      most significant; each code byte depends on the last bit of the byte before it. */
  method EncodeBiphaseMark(preamble: Preamble, data: uint32) returns (code: uint64)
    ensures Bits(code, 64) == SubframeCells(preamble, Bits(data, 28))
  {
    var byte := new uint8[8];
    match preamble {
      case PreambleB => byte[7] := 0xE8;
      case PreambleM => byte[7] := 0xE2;
      case PreambleW => byte[7] := 0xE4;
    }
    FirstCodeByte(preamble, Shr(data, 24) % 16);
    byte[6] := BMC_LUT[Shr(data, 24) % 16];  // every preamble ends low
    byte[5] := TableByte(byte[6], Shr(data, 20) % 16);
    byte[4] := TableByte(byte[5], Shr(data, 16) % 16);
    byte[3] := TableByte(byte[4], Shr(data, 12) % 16);
    byte[2] := TableByte(byte[3], Shr(data, 8) % 16);
    byte[1] := TableByte(byte[2], Shr(data, 4) % 16);
    byte[0] := TableByte(byte[1], Shr(data, 0) % 16);
    code := EightBytes(byte[..]);
    ChainOfSeven(data, byte[..]);
    CodeBytes(preamble, data, byte[..]);
  }

  lemma FirstCodeByte(preamble: Preamble, nibble: Nibble)
    ensures TableByte(PreambleByte(preamble), nibble) == BMC_LUT[nibble]
  {
  }

  lemma ChainOfSeven(data: uint32, m: seq<uint8>)
    requires |m| == 8
    requires m[6] == TableByte(m[7], Shr(data, 24) % 16)
    requires m[5] == TableByte(m[6], Shr(data, 20) % 16)
    requires m[4] == TableByte(m[5], Shr(data, 16) % 16)
    requires m[3] == TableByte(m[4], Shr(data, 12) % 16)
    requires m[2] == TableByte(m[3], Shr(data, 8) % 16)
    requires m[1] == TableByte(m[2], Shr(data, 4) % 16)
    requires m[0] == TableByte(m[1], Shr(data, 0) % 16)
    ensures forall i :: 0 <= i < 7 ==> m[i] == TableByte(m[i + 1], Shr(data, 4 * i) % 16)
  {
  }

  function EightBytes(bytes: seq<uint8>): uint64
    requires |bytes| == 8
  {
    Pow2Widths();
    LittleEndian(bytes)
  }

  lemma CodeBytes(preamble: Preamble, data: uint32, memory: seq<uint8>)
    requires |memory| == 8 && memory[7] == PreambleByte(preamble)
    requires forall i :: 0 <= i < 7 ==> memory[i] == TableByte(memory[i + 1], Shr(data, 4 * i) % 16)
    ensures Bits(EightBytes(memory), 64) == SubframeCells(preamble, Bits(data, 28))
  {
    LittleEndianBits(memory);
    assert MemoryBits(memory) == Bits(memory[7], 8) + MemoryBits(memory[..7]);
    PreambleByteSpells(preamble);
    SevenCodeBytes(memory, data);
  }

  lemma SevenCodeBytes(memory: seq<uint8>, data: uint32)
    requires |memory| == 8 && memory[7] % 2 == 0
    requires forall i :: 0 <= i < 7 ==> memory[i] == TableByte(memory[i + 1], Shr(data, 4 * i) % 16)
    ensures MemoryBits(memory[..7]) == Encode(false, Bits(data, 28))
  {
    ChainedBytes(memory, data, 7);
    TableRefinesSerial(memory[7], Nibbles(data, 7));
    NibblesBits(data, 7);
  }

  /** Updates the i-th subframe in place with a sample and encodes it. */
  method BuildSubframe(frames: array<Subframe>, i: nat, preamble: Preamble, depth: Depth, sample: int32)
    returns (code: uint64)
    requires i < frames.Length
    modifies frames
    ensures frames[..] == old(frames[..])[i := Carrying(old(frames[i]), depth, sample)]
    ensures Bits(code, 64) == SubframeCells(preamble, Carrying(old(frames[i]), depth, sample).Payload())
  {
    match depth {
      case Depth16 =>
        frames[i] := frames[i].(sample := Field20Of(sample * 16));  // scale to 20 bits
        frames[i] := frames[i].(aux := 0);
      case Depth20 =>
        frames[i] := frames[i].(sample := Field20Of(sample));
        frames[i] := frames[i].(aux := 0);
      case Depth24 =>
        frames[i] := frames[i].(sample := Field20Of(sample / 16));  // arithmetic shift
        frames[i] := frames[i].(aux := sample % 16);
    }
    PlacedFields(depth, sample);
    assert frames[i].Audio() == Placed(depth, sample);
    label stored:
    frames[i] := frames[i].(validity := 0);
    frames[i] := frames[i].(parity := 0);
    frames[i] := frames[i].(parity := PopCount(frames[i].Raw()) % 2);
    StoredIsCarrying(old(frames[i]), old@stored(frames[i]), depth, sample);
    ReversedWordCarriesPayload(frames[i]);
    code := EncodeBiphaseMark(preamble, Rbit(frames[i].Raw()));
  }

  /** Assignment to the 20-bit field keeps the low bits. */
  function Field20Of(x: int): Field20 {
    x % 0x10_0000
  }

  lemma StoredIsCarrying(prior: Subframe, s: Subframe, depth: Depth, sample: int32)
    requires s == prior.(sample := s.sample, aux := s.aux) && s.Audio() == Placed(depth, sample)
    ensures var unsigned := s.(validity := 0, parity := 0);
            unsigned.(parity := PopCount(unsigned.Raw()) % 2) == Carrying(prior, depth, sample)
  {
    assert Placed(depth, sample) / 16 == s.sample && Placed(depth, sample) % 16 == s.aux;
  }

  /** The placed sample, split at bit 4, is what the shifts of each depth store. */
  lemma PlacedFields(depth: Depth, sample: int32)
    ensures depth == Depth16 ==> Placed(depth, sample) == 16 * Field20Of(sample * 16)
    ensures depth == Depth20 ==> Placed(depth, sample) == 16 * Field20Of(sample)
    ensures depth == Depth24 ==> Placed(depth, sample) == 16 * Field20Of(sample / 16) + sample % 16
  {
    match depth
    case Depth16 => ScaledMod(sample * 16, 0x10_0000, 16);
    case Depth20 => ScaledMod(sample, 0x10_0000, 16);
    case Depth24 =>
      var y := sample / 16;
      ScaledMod(y, 0x10_0000, 16);
      RemainderIs(sample, 0x100_0000, y / 0x10_0000, 16 * (y % 0x10_0000) + sample % 16);
  }
}
