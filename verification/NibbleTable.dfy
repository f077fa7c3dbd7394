/** The table-driven coder: a nibble at a time through a sixteen-entry table,
    inverting when the byte before ended high. */
module NibbleTable {
  import opened Words
  import opened BiphaseMark

  type Nibble = x: int | 0 <= x < 16

  const BMC_LUT: seq<uint8> := [
    0xCC, 0xCD, 0xCB, 0xCA,
    0xD3, 0xD2, 0xD4, 0xD5,
    0xB3, 0xB2, 0xB4, 0xB5,
    0xAC, 0xAD, 0xAB, 0xAA
  ]

  /** The exclusive or of the table entry with 0x00 or 0xFF, by the last bit of the previous byte. */
  function TableByte(previous: uint8, nibble: Nibble): uint8 {
    if previous % 2 == 1 then 0xFF - BMC_LUT[nibble] else BMC_LUT[nibble]
  }

  /** Each byte is coded from the byte before it. */
  function TableCode(previous: uint8, nibbles: seq<Nibble>): (bytes: seq<uint8>)
    ensures |bytes| == |nibbles|
    decreases |nibbles|
  {
    if |nibbles| == 0 then []
    else
      var byte := TableByte(previous, nibbles[0]);
      [byte] + TableCode(byte, nibbles[1..])
  }

  function NibbleBits(nibbles: seq<Nibble>): (bits: seq<bool>)
    ensures |bits| == 4 * |nibbles|
  {
    if |nibbles| == 0 then [] else Bits(nibbles[0], 4) + NibbleBits(nibbles[1..])
  }

  function ByteBits(bytes: seq<uint8>): (bits: seq<bool>)
    ensures |bits| == 8 * |bytes|
  {
    if |bytes| == 0 then [] else Bits(bytes[0], 8) + ByteBits(bytes[1..])
  }

  /** The number held by bytes in memory, least significant first. */
  function LittleEndian(bytes: seq<uint8>): (x: nat)
    ensures x < Pow2(8 * |bytes|)
  {
    if |bytes| == 0 then 0
    else
      var top := |bytes| - 1;
      Pow2By8(8 * top);
      ByteAbove(bytes[top], LittleEndian(bytes[..top]), Pow2(8 * top));
      bytes[top] * Pow2(8 * top) + LittleEndian(bytes[..top])
  }

  lemma ByteAbove(byte: uint8, low: nat, p: nat)
    requires low < p
    ensures 0 <= byte * p + low < 256 * p
  {
    assert byte * p <= 255 * p;
  }

  /** The bits of that number, most significant byte first. */
  function MemoryBits(bytes: seq<uint8>): (bits: seq<bool>)
    ensures |bits| == 8 * |bytes|
  {
    if |bytes| == 0 then []
    else Bits(bytes[|bytes| - 1], 8) + MemoryBits(bytes[..|bytes| - 1])
  }

  lemma {:induction false} LittleEndianBits(bytes: seq<uint8>)
    ensures Bits(LittleEndian(bytes), 8 * |bytes|) == MemoryBits(bytes)
  {
    if |bytes| > 0 {
      var top := |bytes| - 1;
      LittleEndianBits(bytes[..top]);
      BitsJoin(bytes[top], LittleEndian(bytes[..top]), 8, 8 * top);
    }
  }

  lemma Pow2By8(n: nat)
    ensures Pow2(n + 8) == 256 * Pow2(n)
  {
    assert Pow2(n + 8) == 2 * Pow2(n + 7);
    assert Pow2(n + 7) == 2 * Pow2(n + 6);
    assert Pow2(n + 6) == 2 * Pow2(n + 5);
    assert Pow2(n + 5) == 2 * Pow2(n + 4);
    assert Pow2(n + 4) == 2 * Pow2(n + 3);
    assert Pow2(n + 3) == 2 * Pow2(n + 2);
    assert Pow2(n + 2) == 2 * Pow2(n + 1);
  }

  lemma FourBits(x: nat)
    ensures Bits(x, 4) == [x / 8 % 2 == 1, x / 4 % 2 == 1, x / 2 % 2 == 1, x % 2 == 1]
  {
    assert Bits(x, 4) == Bits(x / 2, 3) + [x % 2 == 1];
    assert Bits(x / 2, 3) == Bits(x / 4, 2) + [x / 2 % 2 == 1];
    assert Bits(x / 4, 2) == Bits(x / 8, 1) + [x / 4 % 2 == 1];
  }

  lemma ByteIsTwoNibbles(x: nat)
    ensures Bits(x, 8) == Bits(x / 16, 4) + Bits(x % 16, 4)
  {
    BitsAppend(x, x / 16, x % 16, 4, 4, 16);
  }

  /** The nibbles of a code byte against the four bits it codes from a low level. */
  ghost predicate Codes(high: nat, low: nat, a: bool, b: bool, c: bool, d: bool) {
    var la := !a;
    var lb := NextLevel(la, b);
    var lc := NextLevel(lb, c);
    && high / 8 % 2 == 1
    && (high / 4 % 2 == 1) == la
    && (high / 2 % 2 == 1) == !la
    && (high % 2 == 1) == lb
    && (low / 8 % 2 == 1) == !lb
    && (low / 4 % 2 == 1) == lc
    && (low / 2 % 2 == 1) == !lc
    && (low % 2 == 1) == NextLevel(lc, d)
  }

  lemma CodesIsSerial(high: nat, low: nat, a: bool, b: bool, c: bool, d: bool)
    requires Codes(high, low, a, b, c, d)
    ensures Bits(high, 4) + Bits(low, 4) == Encode(false, [a, b, c, d])
  {
    var la := !a;
    var lb := NextLevel(la, b);
    var lc := NextLevel(lb, c);
    EncodeConcat(false, [a, b], [c, d]);
    assert [a, b] + [c, d] == [a, b, c, d];
    EncodeTwoBits(false, a, b);
    EncodeTwoBits(lb, c, d);
    FourBits(high);
    FourBits(low);
  }

  lemma EncodeTwoBits(level: bool, a: bool, b: bool)
    ensures var la := NextLevel(level, a); var lb := NextLevel(la, b);
            Encode(level, [a, b]) == [!level, la, !la, lb] && EndLevel(level, [a, b]) == lb
  {
    var la := NextLevel(level, a);
    assert [a, b][1..] == [b];
    assert Encode(level, [a, b]) == [!level, la] + Encode(la, [b]);
    assert Encode(la, [b]) == [!la, NextLevel(la, b)] + Encode(NextLevel(la, b), []);
    assert EndLevel(la, [b]) == NextLevel(la, b);
  }

  /** Every table entry is the serial code of its nibble from a low level. */
  lemma LutEntry(nibble: Nibble)
    ensures Bits(BMC_LUT[nibble], 8) == Encode(false, Bits(nibble, 4))
  {
    LutCodes(nibble);
    CodesIsSerial(BMC_LUT[nibble] / 16, BMC_LUT[nibble] % 16,
                  nibble / 8 % 2 == 1, nibble / 4 % 2 == 1, nibble / 2 % 2 == 1, nibble % 2 == 1);
    ByteIsTwoNibbles(BMC_LUT[nibble]);
    FourBits(nibble);
  }

  lemma LutCodes(nibble: Nibble)
    ensures Codes(BMC_LUT[nibble] / 16, BMC_LUT[nibble] % 16,
                  nibble / 8 % 2 == 1, nibble / 4 % 2 == 1, nibble / 2 % 2 == 1, nibble % 2 == 1)
  {
    if nibble < 8 { LutCodesLow(nibble); } else { LutCodesHigh(nibble); }
  }

  lemma LutCodesLow(nibble: Nibble)
    requires nibble < 8
    ensures Codes(BMC_LUT[nibble] / 16, BMC_LUT[nibble] % 16,
                  nibble / 8 % 2 == 1, nibble / 4 % 2 == 1, nibble / 2 % 2 == 1, nibble % 2 == 1)
  {
    if nibble == 0 {} else if nibble == 1 {} else if nibble == 2 {} else if nibble == 3 {}
    else if nibble == 4 {} else if nibble == 5 {} else if nibble == 6 {} else {}
  }

  lemma LutCodesHigh(nibble: Nibble)
    requires nibble >= 8
    ensures Codes(BMC_LUT[nibble] / 16, BMC_LUT[nibble] % 16,
                  nibble / 8 % 2 == 1, nibble / 4 % 2 == 1, nibble / 2 % 2 == 1, nibble % 2 == 1)
  {
    if nibble == 8 {} else if nibble == 9 {} else if nibble == 10 {} else if nibble == 11 {}
    else if nibble == 12 {} else if nibble == 13 {} else if nibble == 14 {} else {}
  }

  lemma InvertByte(y: uint8)
    ensures Bits(0xFF - y, 8) == Not(Bits(y, 8))
  {
    Pow2By8(0);
    BitsComplement(y, 8);
  }

  lemma TableByteIsSerial(previous: uint8, nibble: Nibble)
    ensures Bits(TableByte(previous, nibble), 8) == Encode(previous % 2 == 1, Bits(nibble, 4))
    ensures (TableByte(previous, nibble) % 2 == 1) == EndLevel(previous % 2 == 1, Bits(nibble, 4))
  {
    hide Encode, EndLevel, Bits;
    LutEntry(nibble);
    if previous % 2 == 1 {
      EncodeComplement(false, Bits(nibble, 4));
      InvertByte(BMC_LUT[nibble]);
    }
    EndLevelParity(previous % 2 == 1, Bits(nibble, 4));
    LastBit(TableByte(previous, nibble));
  }

  lemma LastBit(y: uint8)
    ensures Bits(y, 8)[7] == (y % 2 == 1)
  {
  }

  /** The chained table equals the serial machine, on nibble sequences of any length
      and from either starting level. */
  lemma {:induction false} TableRefinesSerial(previous: uint8, nibbles: seq<Nibble>)
    ensures ByteBits(TableCode(previous, nibbles)) == Encode(previous % 2 == 1, NibbleBits(nibbles))
    decreases |nibbles|
  {
    if |nibbles| > 0 {
      var byte := TableByte(previous, nibbles[0]);
      TableByteIsSerial(previous, nibbles[0]);
      TableRefinesSerial(byte, nibbles[1..]);
      EncodeConcat(previous % 2 == 1, Bits(nibbles[0], 4), NibbleBits(nibbles[1..]));
    }
  }

  /** The k nibbles of a word's low 4k bits, most significant first. */
  function Nibbles(data: nat, k: nat): (n: seq<Nibble>)
    ensures |n| == k
  {
    if k == 0 then [] else [Shr(data, 4 * (k - 1)) % 16] + Nibbles(data, k - 1)
  }

  lemma {:induction false} NibblesBits(data: nat, k: nat)
    ensures NibbleBits(Nibbles(data, k)) == Bits(data, 4 * k)
  {
    if k > 0 {
      NibblesBits(data, k - 1);
      BitsSplit(data, 4, 4 * (k - 1));
      LowNibble(Shr(data, 4 * (k - 1)));
    }
  }

  lemma LowNibble(x: nat)
    ensures Bits(x % 16, 4) == Bits(x, 4)
  {
    BitsJoin(x / 16, x % 16, 0, 4);
    assert Pow2(4) == 16;
    assert Bits(x / 16, 0) == [];
  }

  /** Bytes below position k of memory, each coded from the byte above it and the matching
      nibble of the data, hold the table code of those nibbles. */
  lemma {:induction false} ChainedBytes(memory: seq<uint8>, data: nat, k: nat)
    requires k < |memory|
    requires forall i :: 0 <= i < k ==> memory[i] == TableByte(memory[i + 1], Shr(data, 4 * i) % 16)
    ensures MemoryBits(memory[..k]) == ByteBits(TableCode(memory[k], Nibbles(data, k)))
  {
    if k > 0 {
      ChainedBytes(memory, data, k - 1);
      TableStep(memory[k], Nibbles(data, k), memory[k - 1]);
      MemoryStep(memory, k);
      assert Nibbles(data, k)[1..] == Nibbles(data, k - 1);
    }
  }

  lemma TableStep(previous: uint8, nibbles: seq<Nibble>, byte: uint8)
    requires |nibbles| > 0 && byte == TableByte(previous, nibbles[0])
    ensures ByteBits(TableCode(previous, nibbles)) == Bits(byte, 8) + ByteBits(TableCode(byte, nibbles[1..]))
  {
    var code := TableCode(previous, nibbles);
    assert code[0] == byte && code[1..] == TableCode(byte, nibbles[1..]);
  }

  lemma MemoryStep(memory: seq<uint8>, k: nat)
    requires 0 < k <= |memory|
    ensures MemoryBits(memory[..k]) == Bits(memory[k - 1], 8) + MemoryBits(memory[..k - 1])
  {
    assert memory[..k][..k - 1] == memory[..k - 1];
  }
}
