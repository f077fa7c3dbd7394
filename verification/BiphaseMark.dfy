/** The biphase-mark code of section 4.2 of IEC 60958-1, one bit at a time.
    A bit occupies two half-cells; the first differs from the level before it,
    the second differs from the first exactly when the bit is one. */
module BiphaseMark {
  import opened Words

  datatype Option<+T> = None | Some(value: T)

  /** The level after one bit: a one ends where it began. */
  function NextLevel(level: bool, bit: bool): bool {
    if bit then level else !level
  }

  function Encode(level: bool, bits: seq<bool>): (cells: seq<bool>)
    ensures |cells| == 2 * |bits|
    decreases |bits|
  {
    if |bits| == 0 then []
    else [!level, NextLevel(level, bits[0])] + Encode(NextLevel(level, bits[0]), bits[1..])
  }

  function EndLevel(level: bool, bits: seq<bool>): bool
    decreases |bits|
  {
    if |bits| == 0 then level else EndLevel(NextLevel(level, bits[0]), bits[1..])
  }

  /** A receiver: fails on a missing transition at a bit boundary. */
  function Decode(level: bool, cells: seq<bool>): Option<seq<bool>>
    decreases |cells|
  {
    if |cells| == 0 then Some([])
    else if |cells| == 1 || cells[0] == level then None
    else match Decode(cells[1], cells[2..])
      case None => None
      case Some(bits) => Some([cells[1] != cells[0]] + bits)
  }

  /** Decoding undoes encoding, and accepts nothing else. */
  lemma {:induction false} DecodeIffEncode(level: bool, cells: seq<bool>, bits: seq<bool>)
    ensures Decode(level, cells) == Some(bits) <==> cells == Encode(level, bits)
    decreases |cells|
  {
    if |cells| >= 2 && |bits| > 0 {
      DecodeIffEncode(cells[1], cells[2..], bits[1..]);
      if Decode(level, cells) == Some(bits) {
        var rest := Decode(cells[1], cells[2..]).value;
        assert bits == [cells[1] != cells[0]] + rest;
        assert rest == bits[1..];
        assert cells == [cells[0], cells[1]] + cells[2..];
      }
      if cells == Encode(level, bits) {
        assert cells[2..] == Encode(NextLevel(level, bits[0]), bits[1..]);
        assert bits == [bits[0]] + bits[1..];
      }
    }
  }

  lemma {:induction false} EncodeConcat(level: bool, a: seq<bool>, b: seq<bool>)
    ensures Encode(level, a + b) == Encode(level, a) + Encode(EndLevel(level, a), b)
    ensures EndLevel(level, a + b) == EndLevel(EndLevel(level, a), b)
    decreases |a|
  {
    if |a| == 0 {
      assert a + b == b;
    } else {
      assert (a + b)[1..] == a[1..] + b;
      EncodeConcat(NextLevel(level, a[0]), a[1..], b);
    }
  }

  /** Starting from the other level complements every half-cell. */
  lemma {:induction false} EncodeComplement(level: bool, bits: seq<bool>)
    ensures Encode(!level, bits) == Not(Encode(level, bits))
    ensures EndLevel(!level, bits) == !EndLevel(level, bits)
    decreases |bits|
  {
    if |bits| > 0 {
      EncodeComplement(NextLevel(level, bits[0]), bits[1..]);
    }
  }

  /** The level reached is the last half-cell, and depends only on the parity of the zeros. */
  lemma {:induction false} EndLevelParity(level: bool, bits: seq<bool>)
    ensures EndLevel(level, bits) == (level != ((|bits| - Ones(bits)) % 2 == 1))
    ensures |bits| > 0 ==> Encode(level, bits)[2 * |bits| - 1] == EndLevel(level, bits)
    decreases |bits|
  {
    if |bits| > 0 {
      EndLevelParity(NextLevel(level, bits[0]), bits[1..]);
    }
  }

  /** Every bit boundary is a transition. */
  lemma {:induction false} BoundaryTransition(level: bool, bits: seq<bool>, i: nat)
    requires i < |bits|
    ensures Encode(level, bits)[2 * i] != if i == 0 then level else Encode(level, bits)[2 * i - 1]
    decreases i
  {
    if i > 0 {
      BoundaryTransition(NextLevel(level, bits[0]), bits[1..], i - 1);
    }
  }

  /** +1 for a high half-cell, -1 for a low one. */
  function DigitalSum(cells: seq<bool>): int {
    2 * Ones(cells) - |cells|
  }

  /** Started low, the running sum of the coded bits stays in [0, 2] and
      rests at 0 or 2 with the level. */
  lemma {:induction false} EncodeSum(level: bool, bits: seq<bool>, p: nat)
    requires p <= 2 * |bits|
    ensures 0 <= DigitalSum(Encode(level, bits)[..p]) + (if level then 2 else 0) <= 2
    ensures DigitalSum(Encode(level, bits))
         == (if EndLevel(level, bits) then 2 else 0) - (if level then 2 else 0)
    decreases |bits|
  {
    if |bits| > 0 {
      var next := NextLevel(level, bits[0]);
      var head := [!level, next];
      var tail := Encode(next, bits[1..]);
      EncodeSum(next, bits[1..], if p < 2 then 0 else p - 2);
      OnesConcat(head, tail);
      OnesConcat([!level], [next]);
      if p == 1 {
        assert (head + tail)[..1] == [!level];
      } else if p >= 2 {
        assert (head + tail)[..p] == head + tail[..p - 2];
        OnesConcat(head, tail[..p - 2]);
      }
    }
  }
}
