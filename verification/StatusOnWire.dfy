/** Channel status as a listener collects it from the transmitted words. */
module StatusOnWire {
  import opened Words
  import opened BiphaseMark
  import opened SubframeCoder
  import opened LineStream
  import opened ChannelStatus
  import opened Frames
  import opened Transport
  import opened Interleaving
  import opened BlockStructure
  import opened Playback

  /** The status bit in a subframe's lower word: whether the level changes inside time slot 30. */
  predicate StatusCell(word: uint32) {
    Bits(word, 32)[28] != Bits(word, 32)[29]
  }

  /** A bit is one exactly when its two half-cells differ. */
  lemma {:induction false} CellPair(level: bool, bits: seq<bool>, i: nat)
    requires i < |bits|
    ensures (Encode(level, bits)[2 * i] != Encode(level, bits)[2 * i + 1]) == bits[i]
    decreases i
  {
    FirstPair(level, bits);
    hide Encode, NextLevel;
    if i > 0 {
      var rest, cells := bits[1..], Encode(NextLevel(level, bits[0]), bits[1..]);
      CellPair(NextLevel(level, bits[0]), rest, i - 1);
      assert Encode(level, bits)[2 * i] == cells[2 * (i - 1)];
      assert Encode(level, bits)[2 * i + 1] == cells[2 * (i - 1) + 1];
    }
  }

  lemma FirstPair(level: bool, bits: seq<bool>)
    requires |bits| > 0
    ensures (Encode(level, bits)[0] != Encode(level, bits)[1]) == bits[0]
    ensures Encode(level, bits)[2..] == Encode(NextLevel(level, bits[0]), bits[1..])
  {
  }

  /** Half-cells 2k - 24 and 2k - 23 of the lower word are those of payload bit k. */
  lemma LowerBit(s: Slot, k: nat)
    requires 12 <= k < 28
    ensures (Bits(Lower(s), 32)[2 * k - 24] != Bits(Lower(s), 32)[2 * k - 23]) == s.payload[k]
  {
    BitsOfValue(Cells(s)[32..]);
    CellPair(false, s.payload, k);
    hide Encode, Value, Bits;
    assert Bits(Lower(s), 32) == Cells(s)[32..];
    assert Cells(s)[2 * k + 8] == Encode(false, s.payload)[2 * k];
    assert Cells(s)[2 * k + 9] == Encode(false, s.payload)[2 * k + 1];
  }

  lemma LowerStatus(s: Slot)
    ensures StatusCell(Lower(s)) == StatusOf(s)
  {
    LowerBit(s, 26);
  }

  /** The flags a lower word carries at a position of the block: no change of level inside the slots of
      validity and user data; one inside the status slot where that bit is set. */
  predicate FlagCells(word: uint32, phase: nat, channel: nat) {
    var cells := Bits(word, 32);
    && cells[24] == cells[25] && cells[26] == cells[27]
    && (cells[28] != cells[29] <==> phase == 2 || phase == 24 || phase == (if channel == 0 then 20 else 21))
  }

  lemma FlagsOf(s: Slot, phase: nat, channel: nat)
    requires !s.payload[24] && !s.payload[25]
    requires s.payload[26] <==> phase == 2 || phase == 24 || phase == (if channel == 0 then 20 else 21)
    ensures FlagCells(Lower(s), phase, channel)
  {
    hide Lower, Bits;
    LowerBit(s, 24);
    LowerBit(s, 25);
    LowerBit(s, 26);
  }

  lemma LowerWord(format: Format, phase: nat, pcm: Pcm, channel: nat)
    requires phase < 192 && channel < 2
    ensures FrameWords(format, phase, pcm)[2 * channel + 1] == Lower(FrameSlots(format, phase, pcm)[channel])
  {
    hide Upper, Lower, FrameSlots;
  }

  lemma LowerFlags(format: Format, phase: nat, pcm: Pcm, channel: nat)
    requires phase < 192 && channel < 2
    ensures FlagCells(FrameWords(format, phase, pcm)[2 * channel + 1], phase, channel)
  {
    hide FlagCells, FrameWords, Lower, FrameSlots;
    SlotFlags(format, phase, pcm, channel);
    FlagsOf(FrameSlots(format, phase, pcm)[channel], phase, channel);
    LowerWord(format, phase, pcm, channel);
  }

  /** The lower words of a frame carry the status bits of its position in the block. */
  lemma FrameStatus(format: Format, phase: nat, pcm: Pcm, channel: nat)
    requires phase < 192 && channel < 2
    ensures StatusCell(FrameWords(format, phase, pcm)[2 * channel + 1])
         == (StatusBit(StatusBytes(1 + channel), phase) == 1)
  {
    hide StatusBit, StatusBytes, StatusCell, Upper, Lower, StatusOf;
    PayloadReadBack(Carrying(Template(1, phase), DepthOf(format), pcm.a), if phase == 0 then PreambleB else PreambleM);
    PayloadReadBack(Carrying(Template(2, phase), DepthOf(format), pcm.b), PreambleW);
    var slots := FrameSlots(format, phase, pcm);
    LowerStatus(slots[0]);
    LowerStatus(slots[1]);
  }

  /** The lower word of one channel's subframe in the m-th transmitted frame. */
  function StatusWord(m: nat, channel: nat): nat {
    4 * m + 2 * channel + 1
  }

  /** One channel's status bits in the 192 frames transmitted from the m-th on. */
  function Collected(out: seq<uint32>, m: nat, channel: nat): (bits: seq<bool>)
    requires channel < 2 && 4 * (m + 192) <= |out|
    ensures |bits| == 192
  {
    seq(192, x requires 0 <= x < 192 => StatusCell(out[StatusWord(m + x, channel)]))
  }

  /** The status words of those frames are all of one epoch. */
  ghost predicate OneEpoch(oera: seq<nat>, m: nat, channel: nat, epoch: nat)
    requires channel < 2 && 4 * (m + 192) <= |oera|
  {
    forall f: nat :: m <= f < m + 192 ==> oera[StatusWord(f, channel)] == epoch
  }

  lemma StatusTransmitted(format: Format, b: Behaviour, i: nat, f: nat, channel: nat, epoch: nat)
    requires IsRun(format, b) && i < |b.states| && b.states[i].ctl.primed && channel < 2
    requires StatusWord(f, channel) < |b.states[i].out| == |b.states[i].oera|
    requires b.states[i].oera[StatusWord(f, channel)] == epoch
    ensures StatusCell(b.states[i].out[StatusWord(f, channel)])
         == (StatusBit(StatusBytes(1 + channel), (f + 128 * epoch) % 192) == 1)
  {
    hide Next, StatusBytes, StatusBit, StatusCell, FrameWords;
    var s := b.states[i];
    TransmittedWord(format, b, i, f, 2 * channel + 1);
    FrameStatus(format, (f + 128 * epoch) % 192, s.hist[s.otag[StatusWord(f, channel)]], channel);
  }

  /** Every subframe transmitted, in any interleaving, is marked valid and has no user data, and its status
      bit is that of its position in the block: set in three frames of 192. */
  lemma TransmittedFlags(format: Format, b: Behaviour, i: nat, f: nat, channel: nat)
    requires IsRun(format, b) && i < |b.states| && b.states[i].ctl.primed && channel < 2
    requires StatusWord(f, channel) < |b.states[i].out| == |b.states[i].oera|
    ensures var r, cells := StatusWord(f, channel), Bits(b.states[i].out[StatusWord(f, channel)], 32);
            var phase := (f + 128 * b.states[i].oera[r]) % 192;
            && cells[24] == cells[25] && cells[26] == cells[27]
            && (cells[28] != cells[29] <==> phase == 2 || phase == 24 || phase == (if channel == 0 then 20 else 21))
  {
    TransmittedCells(format, b, i, f, channel);
    hide IsRun, Bits;
  }

  lemma TransmittedCells(format: Format, b: Behaviour, i: nat, f: nat, channel: nat)
    requires IsRun(format, b) && i < |b.states| && b.states[i].ctl.primed && channel < 2
    requires StatusWord(f, channel) < |b.states[i].out| == |b.states[i].oera|
    ensures var r := StatusWord(f, channel);
            FlagCells(b.states[i].out[r], (f + 128 * b.states[i].oera[r]) % 192, channel)
  {
    hide Next, FrameWords, FlagCells;
    var s, r := b.states[i], StatusWord(f, channel);
    TransmittedWord(format, b, i, f, 2 * channel + 1);
    LowerFlags(format, (f + 128 * s.oera[r]) % 192, s.hist[s.otag[r]], channel);
  }

  /** In any interleaving, whatever its timing, the bits collected from 192 frames transmitted in
      succession rebuild the channel's 24 status bytes, if they are of one epoch and start
      with that epoch's block. */
  lemma TransmittedStatus(format: Format, b: Behaviour, i: nat, m: nat, channel: nat, epoch: nat, j: nat)
    requires IsRun(format, b) && i < |b.states| && b.states[i].ctl.primed
    requires channel < 2 && j < 24 && 4 * (m + 192) <= |b.states[i].out| == |b.states[i].oera|
    requires (m + 128 * epoch) % 192 == 0 && OneEpoch(b.states[i].oera, m, channel, epoch)
    ensures CollectedByte(Collected(b.states[i].out, m, channel), j) == StatusBytes(1 + channel)[j]
  {
    hide IsRun, StatusBytes, StatusBit, StatusCell, CollectedByte, StatusWord;
    var bits := Collected(b.states[i].out, m, channel);
    forall x | 0 <= x < 192
      ensures bits[x] == (StatusBit(StatusBytes(1 + channel), x) == 1)
    {
      StatusWordBelow(m, x, channel);
      StatusTransmitted(format, b, i, m + x, channel, epoch);
      BlockPlace(m + 128 * epoch, x);
      assert m + 128 * epoch + x == m + x + 128 * epoch;
    }
    CollectionRebuilds(StatusBytes(1 + channel), bits, j);
  }

  lemma StatusWordBelow(m: nat, x: nat, channel: nat)
    requires x < 192 && channel < 2
    ensures StatusWord(m + x, channel) < 4 * (m + 192)
  {
  }

  lemma BlockPlace(m: nat, x: nat)
    requires m % 192 == 0 && x < 192
    ensures (m + x) % 192 == x
  {
    RemainderIs(m + x, 192, m / 192, x);
  }

  lemma OutputShape(format: Format, b: Behaviour, i: nat)
    requires IsRun(format, b) && i < |b.states|
    ensures |b.states[i].oera| == |b.states[i].out|
  {
    hide Next;
  }

  lemma FirstEpochEra(format: Format, b: Behaviour, i: nat, f: nat, channel: nat)
    requires IsRun(format, b) && i < |b.states| && b.states[i].ctl.primed && b.states[i].ctl.epoch == 0
    requires channel < 2 && StatusWord(f, channel) < |b.states[i].oera|
    ensures b.states[i].oera[StatusWord(f, channel)] == 0
  {
    hide Next;
    TransmittedWord(format, b, i, f, 2 * channel + 1);
  }

  /** Until a fill completes every block transmitted carries the status, in every interleaving: with
      the engine lapping the writer or stalled, reads torn or not. */
  lemma FirstEpochStatus(format: Format, b: Behaviour, i: nat, m: nat, channel: nat, j: nat)
    requires IsRun(format, b) && i < |b.states| && b.states[i].ctl.primed && b.states[i].ctl.epoch == 0
    requires channel < 2 && j < 24 && m % 192 == 0 && 4 * (m + 192) <= |b.states[i].out|
    ensures CollectedByte(Collected(b.states[i].out, m, channel), j) == StatusBytes(1 + channel)[j]
  {
    OutputShape(format, b, i);
    hide IsRun, StatusBytes, CollectedByte, Collected, StatusWord;
    forall f: nat | m <= f < m + 192
      ensures StatusWord(f, channel) < |b.states[i].oera| && b.states[i].oera[StatusWord(f, channel)] == 0
    {
      StatusWordBelow(m, f - m, channel);
      FirstEpochEra(format, b, i, f, channel);
    }
    TransmittedStatus(format, b, i, m, channel, 0, j);
  }

  /** From the end of a fill until the read loop stores again, so does every block of the replay. */
  lemma FillStatus(format: Format, b: Behaviour, k: nat, i: nat, m: nat, channel: nat, j: nat)
    requires IsRun(format, b) && EndsFill(b, k) && b.states[k].ctl.primed && k + 1 <= i && Idle(b, k + 1, i)
    requires |b.states[k + 1].out| <= 4 * m && 4 * (m + 192) <= |b.states[i].out|
    requires channel < 2 && j < 24 && (m + 128 * b.states[k].ctl.epoch) % 192 == 0
    ensures CollectedByte(Collected(b.states[i].out, m, channel), j) == StatusBytes(1 + channel)[j]
  {
    hide Next, StatusBytes, CollectedByte, Collected, Window, Ok;
    FillLeavesOneEpoch(format, b, k);
    IdleReplays(format, b, k + 1, i, b.states[k].ctl.epoch);
    TransmittedStatus(format, b, i, m, channel, b.states[k].ctl.epoch, j);
  }
}
