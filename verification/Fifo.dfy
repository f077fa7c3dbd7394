/** Under the timing the program counts on, the ring is a queue of places, over any number of
    underruns: the engine transmits one place after the other, none lost, repeated or reordered. */
module Fifo {
  import opened BiphaseMark
  import opened SubframeCoder
  import opened Frames
  import opened RingArithmetic
  import opened Transport
  import opened Interleaving
  import opened Places

  /** Words in one buffer. */
  const BUFFER_WORDS := 8192

  /** The buffer the engine is in after reading that many words, never reduced. */
  function Entered(read: nat): nat {
    read / BUFFER_WORDS
  }

  /** The index of its control block. */
  function EngineBlock(read: nat): nat {
    Entered(read) % BUFFER_COUNT
  }

  /** The buffer the engine is in and the words it has passed, in the places of the stream, when it
      has gone over the ring that many times more than the stream goes on. */
  function EngineAt(read: nat, laps: nat): int {
    Entered(read) - BUFFER_COUNT * laps
  }

  function Passed(read: nat, laps: nat): int {
    read - RING_WORDS * laps
  }

  predicate TruePoll(s: Sys, act: Act) {
    act.Cpu? && act.op.Poll? ==> act.op.block == EngineBlock(|s.out|)
  }

  /** The engine is about to read the last word of a buffer. */
  predicate Crosses(s: Sys, act: Act) {
    act == Dma && (|s.out| + 1) % BUFFER_WORDS == 0
  }

  /** The next buffer has not been rewritten in full since it was last read. */
  predicate Stale(c: Ctl, d: int) {
    Covered(c) < BUFFER_SIZE * (d + 2)
  }

  /** The read loop has not left the buffer a fill ended with. */
  predicate OverFill(c: Ctl) {
    Position(c) < Covered(c)
  }

  /** Polls report where the engine is; it passes only into buffers that have been rewritten in full
      since they were last read. But from the end of a fill until the read loop has left the
      fill's last buffer it may replay the ring, any number of times. */
  predicate Timely(s: Sys, act: Act, laps: nat) {
    TruePoll(s, act) && (Crosses(s, act) && Stale(s.ctl, EngineAt(|s.out|, laps)) ==> OverFill(s.ctl))
  }

  /** A lap begins when the engine passes into a buffer that was not rewritten. */
  function LapsNext(s: Sys, act: Act, laps: nat): nat {
    if Crosses(s, act) && Stale(s.ctl, EngineAt(|s.out|, laps)) then laps + 1 else laps
  }

  /** The laps the engine has replayed before moment i. */
  ghost function Laps(b: Behaviour, i: nat): nat
    requires i <= |b.acts| < |b.states|
  {
    if i == 0 then 0 else LapsNext(b.states[i - 1], b.acts[i - 1], Laps(b, i - 1))
  }

  /** Moreover, the engine enters the buffer the read loop has gone back to only when the loop has
      left it or stands between pairs. */
  predicate Prompt(s: Sys, act: Act, laps: nat) {
    && Timely(s, act, laps)
    && (Crosses(s, act) && !Stale(s.ctl, EngineAt(|s.out|, laps))
        ==> Position(s.ctl) >= BUFFER_SIZE * (EngineAt(|s.out|, laps) + 2) || BetweenPairs(s.ctl))
  }

  predicate BetweenPairs(c: Ctl) {
    OverFill(c) && c.mode == Main(false) && c.part == 0
  }

  /** The acts before moment i are timely. */
  ghost predicate TimedTo(b: Behaviour, i: nat) {
    i <= |b.acts| < |b.states| && forall k :: 0 <= k < i ==> Timely(b.states[k], b.acts[k], Laps(b, k))
  }

  ghost predicate PromptTo(b: Behaviour, i: nat) {
    i <= |b.acts| < |b.states| && forall k :: 0 <= k < i ==> Prompt(b.states[k], b.acts[k], Laps(b, k))
  }

  /** The places written reach one to three buffers past the start of the engine's; the frame under
      way is within the three, too. */
  ghost predicate Ahead(c: Ctl, d: int) {
    && BUFFER_SIZE * (d + 1) <= Covered(c) <= BUFFER_SIZE * (d + 3)
    && Position(c) + (if MayStore(c) || c.part > 0 then 1 else 0) <= BUFFER_SIZE * (d + 3)
  }

  lemma EnteredNext(read: nat)
    ensures Entered(read + 1) == Entered(read) + if (read + 1) % BUFFER_WORDS == 0 then 1 else 0
    ensures BUFFER_SIZE * Entered(read) <= read / 4 < BUFFER_SIZE * (Entered(read) + 1)
  {
  }

  lemma ReadSlot(i: nat)
    ensures i % RING_WORDS / 4 == i / 4 % RING_FRAMES
  {
    RemainderIs(i, RING_WORDS, i / 4 / RING_FRAMES, 4 * (i / 4 % RING_FRAMES) + i % 4);
  }

  /** What is known of a word of the ring. */
  lemma WordAt(format: Format, s: Sys, j: nat)
    requires Inv(format, s) && s.ctl.primed && AllPlaced(s.ctl, s.tag, s.era) && j < RING_WORDS
    ensures WordPlaced(s.ctl, j, s.tag[j], s.era[j]) && PlaceOf(s.tag[j], s.era[j]) % RING_FRAMES == j / 4
  {
    hide EncodedWord, Window, Ok, Recorded, OutputRecent, WordPlaced, PlaceOf, Slot;
    RingWord(j);
    assert Holds(format, s.hist, j % RING_WORDS, s.mem[j], s.tag[j], s.era[j]);
    PlaceInSlot(format, s.hist, j, s.mem[j], s.tag[j], s.era[j]);
  }

  lemma EngineNext(read: nat, laps: nat)
    ensures EngineAt(read + 1, laps) == EngineAt(read, laps) + if (read + 1) % BUFFER_WORDS == 0 then 1 else 0
    ensures var d := EngineAt(read, laps);
            BUFFER_SIZE * d <= read / 4 - RING_FRAMES * laps < BUFFER_SIZE * (d + 1)
    ensures EngineAt(read, laps) % BUFFER_COUNT == EngineBlock(read)
  {
    EnteredNext(read);
    RemainderIs(EngineAt(read, laps), 3, Entered(read) / 3 - laps, Entered(read) % 3);
  }

  lemma LapKeepsSlot(read: nat, laps: nat)
    ensures (read / 4 - RING_FRAMES * laps) % RING_FRAMES == read % RING_WORDS / 4
  {
    ReadSlot(read);
    RemainderIs(read / 4 - RING_FRAMES * laps, RING_FRAMES, read / 4 / RING_FRAMES - laps, read / 4 % RING_FRAMES);
  }

  /** The word about to be read is of the place the engine has reached. */
  lemma ReadsItsPlace(format: Format, s: Sys, laps: nat)
    requires Inv(format, s) && s.ctl.primed && AllPlaced(s.ctl, s.tag, s.era)
    requires Ahead(s.ctl, EngineAt(|s.out|, laps))
    ensures var r := |s.out|; PlaceOf(s.tag[r % RING_WORDS], s.era[r % RING_WORDS]) == r / 4 - RING_FRAMES * laps
  {
    var r := |s.out|;
    var j := r % RING_WORDS;
    WordAt(format, s, j);
    hide Inv, AllPlaced, Ahead, PlaceOf, Covered, Position, Fresh, EngineAt;
    EngineNext(r, laps);
    LapKeepsSlot(r, laps);
    OnlyPlace(s.ctl, j, PlaceOf(s.tag[j], s.era[j]), r / 4 - RING_FRAMES * laps, EngineAt(r, laps));
  }

  /** Of the places in the ring only one is in the engine's buffer and slot. */
  lemma OnlyPlace(c: Ctl, j: nat, p: int, q: int, d: int)
    requires p % RING_FRAMES == q % RING_FRAMES == j / 4 && Ahead(c, d)
    requires BUFFER_SIZE * d <= q < BUFFER_SIZE * (d + 1)
    requires if Fresh(c, j) then p == Covered(c) else Covered(c) - RING_FRAMES <= p < Covered(c)
    ensures p == q
  {
    hide Covered, Position, MayStore;
    SamePlace(p, q);
  }

  lemma AheadFromStart(c: Ctl, d: int)
    requires Ok(c) && c.primed && Ahead(c, d)
    ensures d >= 0
  {
    hide Covered, Position, Ok;
    CoveredShape(c);
  }

  /** Passing into the next buffer, or over the ring again. */
  lemma CrossingKeepsAhead(c: Ctl, d: int)
    requires Ok(c) && c.primed && Ahead(c, d) && (Stale(c, d) ==> OverFill(c))
    ensures if Stale(c, d) then Ahead(c, d - 2) && Covered(c) == BUFFER_SIZE * (d + 1) else Ahead(c, d + 1)
  {
    CoveredShape(c);
    hide Covered, Position, Ok, MayStore;
  }

  lemma ReadKeepsAhead(s: Sys, laps: nat)
    requires Ok(s.ctl) && s.ctl.primed && Ahead(s.ctl, EngineAt(|s.out|, laps)) && Timely(s, Dma, laps)
    ensures Ahead(s.ctl, EngineAt(|s.out| + 1, LapsNext(s, Dma, laps)))
  {
    hide Ahead, Ok, Covered, OverFill;
    EnteredNext(|s.out|);
    if Crosses(s, Dma) {
      CrossingKeepsAhead(s.ctl, EngineAt(|s.out|, laps));
    }
  }

  /** Which of the buffers the read loop or the fill is in, never reduced. */
  lemma BufferOf(c: Ctl)
    requires Aligned(c) && Position(c) >= 0
    ensures c.buffer == Position(c) / BUFFER_SIZE % BUFFER_COUNT
    ensures Position(c) % BUFFER_SIZE == c.n % BUFFER_SIZE
  {
    PositionInSlot(c);
    hide Slot;
    var p := Position(c);
    var q := p / RING_FRAMES;
    assert p == (3 * q + c.buffer) * BUFFER_SIZE + c.n % BUFFER_SIZE;
    RemainderIs(p, BUFFER_SIZE, 3 * q + c.buffer, c.n % BUFFER_SIZE);
    RemainderIs(p / BUFFER_SIZE, 3, q, c.buffer);
  }

  /** The engine seen in the writer's buffer: it is three buffers behind or has caught up. */
  lemma SeenInBuffer(c: Ctl, d: int)
    requires Aligned(c) && d >= 0 && BUFFER_SIZE * d <= Position(c) <= BUFFER_SIZE * (d + 3)
    ensures c.buffer == d % BUFFER_COUNT
       <==> Position(c) == BUFFER_SIZE * (d + 3) || Position(c) < BUFFER_SIZE * (d + 1)
  {
    BufferOf(c);
    hide Aligned, Position;
    var k := Position(c) / BUFFER_SIZE - d;
    assert 0 <= k <= 3;
    assert Position(c) / BUFFER_SIZE == d + k;
    ThreeApart(d, k);
  }

  lemma ThreeApart(d: nat, k: nat)
    requires k <= 3
    ensures (d + k) % 3 == d % 3 <==> k == 3 || k == 0
  {
  }

  lemma PollKeepsAhead(c: Ctl, block: nat, d: int)
    requires Ok(c) && d >= 0 && Ahead(c, d) && block == d % BUFFER_COUNT && Step(c, Poll(block)).Some?
    ensures Ahead(Step(c, Poll(block)).value, d)
  {
    hide Slot, Aligned, Filling;
    WithinABuffer(c);
    if c.mode.Main? || c.mode.Wait? {
      SeenInBuffer(c, d);
    }
  }

  /** Inside a buffer there is room for one more frame. */
  lemma NotAtBoundary(n: nat, epoch: nat, d: int)
    requires n + 1 - BUFFER_SIZE * epoch <= BUFFER_SIZE * (d + 3) && (n + 1) % BUFFER_SIZE != 0
    ensures n + 2 - BUFFER_SIZE * epoch <= BUFFER_SIZE * (d + 3)
  {
  }

  lemma DoneKeepsAhead(c: Ctl, d: int)
    requires Ok(c) && MayStore(c) && c.part == 3 && c.primed && Ahead(c, d)
    ensures Ahead(FrameDone(c), d)
  {
    PlacesAdvance(c);
    if (c.n + 1) % BUFFER_SIZE != 0 {
      NotAtBoundary(c.n, c.epoch, d);
    }
    hide Covered, Slot;
  }

  lemma StepKeepsAhead(c: Ctl, op: Op, d: int)
    requires Ok(c) && c.primed && d >= 0 && Ahead(c, d) && Step(c, op).Some?
    requires op.Poll? ==> op.block == d % BUFFER_COUNT
    ensures Ahead(Step(c, op).value, d)
  {
    match op
    case Store(part, pcm) =>
      if part == 3 {
        DoneKeepsAhead(c, d);
      }
    case Poll(block) => PollKeepsAhead(c, block, d);
    case Start =>
    case Underrun =>
  }

  /** A full preload is three buffers ahead. */
  lemma StartIsAhead(c: Ctl)
    requires Ok(c) && Step(c, Start).Some? && Step(c, Start).value.primed
    ensures Ahead(Step(c, Start).value, 0)
  {
  }

  lemma NextKeepsAhead(format: Format, s: Sys, act: Act, laps: nat)
    requires Inv(format, s) && s.ctl.primed && Ahead(s.ctl, EngineAt(|s.out|, laps)) && Timely(s, act, laps)
    requires Next(format, s, act).Some?
    ensures var r := Next(format, s, act).value; Ahead(r.ctl, EngineAt(|r.out|, LapsNext(s, act, laps)))
  {
    hide AllHold, Window, Recent, Ahead, EncodedWord, Step, EngineAt, Ok, OverFill, Stale;
    match act
    case Dma => ReadKeepsAhead(s, laps);
    case Cpu(op) =>
      AheadFromStart(s.ctl, EngineAt(|s.out|, laps));
      EngineNext(|s.out|, laps);
      StepKeepsAhead(s.ctl, op, EngineAt(|s.out|, laps));
  }

  lemma StartsAhead(format: Format, s: Sys)
    requires Inv(format, s) && Next(format, s, Cpu(Start)).Some? && Next(format, s, Cpu(Start)).value.ctl.primed
    ensures |s.out| == 0 && var r := Next(format, s, Cpu(Start)).value; |r.out| == 0 && Ahead(r.ctl, 0)
  {
    hide AllHold, Window, Recent, Ahead;
    StartIsAhead(s.ctl);
  }

  lemma PrimedByStart(format: Format, s: Sys, act: Act)
    requires Inv(format, s) && Next(format, s, act).Some? && !s.ctl.primed && Next(format, s, act).value.ctl.primed
    ensures act == Cpu(Start)
  {
    hide AllHold, Window, Recent, EncodedWord;
  }

  /** Nothing is replayed before the engine is started. */
  lemma {:induction false} NoLapsYet(format: Format, b: Behaviour, i: nat)
    requires IsRun(format, b) && i < |b.states| && !b.states[i].ctl.primed && |b.states[i].out| == 0
    ensures Laps(b, i) == 0
  {
    hide Next, Stale, Inv;
    if i > 0 {
      assert Next(format, b.states[i - 1], b.acts[i - 1]) == Some(b.states[i]);
      RunInv(format, b, i - 1);
      OutputEmptyBefore(format, b.states[i - 1], b.acts[i - 1]);
      NoLapsYet(format, b, i - 1);
    }
  }

  lemma OutputEmptyBefore(format: Format, s: Sys, act: Act)
    requires Inv(format, s) && Next(format, s, act).Some?
    requires !Next(format, s, act).value.ctl.primed && |Next(format, s, act).value.out| == 0
    ensures act != Dma && !s.ctl.primed && |s.out| == 0
  {
    hide AllHold, Window, Recent, EncodedWord;
  }

  /** Every timed interleaving with a full preload stays ahead of the engine by one to three buffers,
      over any number of underruns and replays. */
  lemma {:induction false} TimedAhead(format: Format, b: Behaviour, i: nat)
    requires IsRun(format, b) && TimedTo(b, i) && b.states[i].ctl.primed
    ensures Ahead(b.states[i].ctl, EngineAt(|b.states[i].out|, Laps(b, i)))
  {
    hide Inv, Ahead, Next, Timely, EngineAt, LapsNext;
    if i > 0 {
      var s, act := b.states[i - 1], b.acts[i - 1];
      assert Next(format, s, act) == Some(b.states[i]);
      assert Timely(s, act, Laps(b, i - 1));
      RunInv(format, b, i - 1);
      if s.ctl.primed {
        TimedAhead(format, b, i - 1);
        NextKeepsAhead(format, s, act, Laps(b, i - 1));
      } else {
        PrimedByStart(format, s, act);
        StartsAhead(format, s);
        NoLapsYet(format, b, i - 1);
        StartsAtZero(s);
      }
    }
  }

  lemma StartsAtZero(s: Sys)
    ensures LapsNext(s, Cpu(Start), 0) == 0 && EngineAt(0, 0) == 0
  {
  }

  // ----- what has been read -----

  lemma OutputStep(format: Format, s: Sys, act: Act)
    requires Shaped(s) && Next(format, s, act).Some?
    ensures var r := Next(format, s, act).value;
            && s.out <= r.out && s.otag <= r.otag && s.oera <= r.oera
            && (act == Dma ==>
                  var j := |s.out| % RING_WORDS; r.otag == s.otag + [s.tag[j]] && r.oera == s.oera + [s.era[j]])
  {
    hide EncodedWord, Step;
  }

  /** What has been read stays read. */
  lemma {:induction false} OutputGrows(format: Format, b: Behaviour, j: nat, i: nat)
    requires IsRun(format, b) && j <= i < |b.states|
    ensures var s, r := b.states[j], b.states[i]; s.out <= r.out && s.otag <= r.otag && s.oera <= r.oera
    decreases i
  {
    hide Next;
    if j < i {
      OutputGrows(format, b, j, i - 1);
      assert Next(format, b.states[i - 1], b.acts[i - 1]) == Some(b.states[i]);
      OutputStep(format, b.states[i - 1], b.acts[i - 1]);
    }
  }

  /** Word r of the output, read by act j. */
  ghost predicate ReadBy(b: Behaviour, j: nat, r: int) {
    j < |b.acts| < |b.states| && b.acts[j] == Dma && |b.states[j].out| == r
  }

  lemma ReadTag(format: Format, b: Behaviour, j: nat, i: nat, r: nat)
    requires IsRun(format, b) && ReadBy(b, j, r) && j < i < |b.states|
    ensures r < |b.states[i].otag| == |b.states[i].oera|
    ensures b.states[i].otag[r] == b.states[j].tag[r % RING_WORDS]
    ensures b.states[i].oera[r] == b.states[j].era[r % RING_WORDS]
  {
    hide Next;
    assert Next(format, b.states[j], b.acts[j]) == Some(b.states[j + 1]);
    OutputStep(format, b.states[j], b.acts[j]);
    OutputGrows(format, b, j + 1, i);
  }

  /** In every timed interleaving, over any number of underruns, the word read by act j is of the place
      the engine has reached: place r / 4, less 6144 for every lap replayed before. */
  lemma TimedPlace(format: Format, b: Behaviour, j: nat, i: nat, r: nat)
    requires IsRun(format, b) && TimedTo(b, j) && b.states[j].ctl.primed && ReadBy(b, j, r) && j < i < |b.states|
    ensures r < |b.states[i].otag| == |b.states[i].oera|
    ensures PlaceOf(b.states[i].otag[r], b.states[i].oera[r]) == r / 4 - RING_FRAMES * Laps(b, j)
  {
    hide IsRun, TimedTo, Inv, AllPlaced, Ahead, PlaceOf;
    ReadTag(format, b, j, i, r);
    TimedAhead(format, b, j);
    RunInv(format, b, j);
    RunPlaces(format, b, j);
    ReadsItsPlace(format, b.states[j], Laps(b, j));
  }

  /** At every moment of a timed interleaving, the last included, words have been written that the
      engine has not passed: more than none, and at most three buffers. */
  lemma TailUnsent(format: Format, b: Behaviour, i: nat)
    requires IsRun(format, b) && TimedTo(b, i) && b.states[i].ctl.primed
    ensures 0 < 4 * Covered(b.states[i].ctl) - Passed(|b.states[i].out|, Laps(b, i)) <= RING_WORDS
  {
    hide IsRun, Covered, Position, MayStore;
    TimedAhead(format, b, i);
    EnteredNext(|b.states[i].out|);
    PassedWithin(|b.states[i].out|, Laps(b, i));
  }

  lemma PassedWithin(read: nat, laps: nat)
    ensures BUFFER_WORDS * EngineAt(read, laps) <= Passed(read, laps) < BUFFER_WORDS * (EngineAt(read, laps) + 1)
  {
  }

  /** The read loop's test, "the engine is using my buffer", is true exactly when the ring is full (all
      three buffers hold places of which the engine has not finished the first) or, after a fill,
      when the engine has reached the buffer the read loop went back to. */
  lemma TestMeansFull(format: Format, b: Behaviour, i: nat)
    requires IsRun(format, b) && TimedTo(b, i) && b.states[i].ctl.primed && b.states[i].ctl.mode.Main?
    ensures var c, d := b.states[i].ctl, EngineAt(|b.states[i].out|, Laps(b, i));
            && BUFFER_SIZE * d <= Position(c) <= BUFFER_SIZE * (d + 3)
            && (c.buffer == EngineBlock(|b.states[i].out|)
                <==> Position(c) - BUFFER_SIZE * d == RING_FRAMES || Position(c) - BUFFER_SIZE * d < BUFFER_SIZE)
            && (Position(c) - BUFFER_SIZE * d < BUFFER_SIZE ==> OverFill(c))
  {
    var c, d := b.states[i].ctl, EngineAt(|b.states[i].out|, Laps(b, i));
    TimedAhead(format, b, i);
    RunInv(format, b, i);
    EngineNext(|b.states[i].out|, Laps(b, i));
    hide IsRun, AllHold, Slot, Aligned, Window, Recent, EngineAt, Laps;
    AheadFromStart(c, d);
    WithinABuffer(c);
    SeenInBuffer(c, d);
  }

  /** Whatever frame the writer begins, its words replace those of the place one ring back, which has
      been transmitted in full, or, over the buffer a fill ended with, those of its own place. */
  lemma NoUntransmittedOverwrite(format: Format, b: Behaviour, i: nat, t: nat)
    requires IsRun(format, b) && TimedTo(b, i) && b.states[i].ctl.primed
    requires MayStore(b.states[i].ctl) && b.states[i].ctl.part == 0 && t < 4
    ensures var s := b.states[i];
            var j, p := Address(s.ctl) + t, Position(s.ctl);
            && j < RING_WORDS
            && if OverFill(s.ctl) then PlaceOf(s.tag[j], s.era[j]) == p
               else PlaceOf(s.tag[j], s.era[j]) == p - RING_FRAMES
                    && 4 * (p - RING_FRAMES) + 4 <= Passed(|s.out|, Laps(b, i))
  {
    hide IsRun, Slot, EncodedWord, Window, AllHold, Recent, Laps;
    var s := b.states[i];
    TimedAhead(format, b, i);
    RunInv(format, b, i);
    RunPlaces(format, b, i);
    AddressIsSlot(s.ctl);
    var j := Address(s.ctl) + t;
    WordAt(format, s, j);
    hide Inv, AllPlaced;
    PositionInSlot(s.ctl);
    PassedWithin(|s.out|, Laps(b, i));
    ReplacedPlace(s.ctl, j, PlaceOf(s.tag[j], s.era[j]));
  }

  lemma ReplacedPlace(c: Ctl, j: nat, p: int)
    requires p % RING_FRAMES == j / 4 == Position(c) % RING_FRAMES && c.part == 0 && c.base <= c.n
    requires Covered(c) - RING_FRAMES <= p < Covered(c)
    ensures p == if Position(c) == Covered(c) then Position(c) - RING_FRAMES else Position(c)
  {
    WithinABuffer(c);
    if Position(c) == Covered(c) {
      RemainderIs(Position(c) - RING_FRAMES, RING_FRAMES, Position(c) / RING_FRAMES - 1, Position(c) % RING_FRAMES);
      if p != Position(c) - RING_FRAMES {
        SamePlace(p, Position(c));
      }
    } else {
      SamePlace(p, Position(c));
    }
  }
}
