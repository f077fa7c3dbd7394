/** Runs through one underrun, within the program's timing and with any number of replays, in which the
    encoded stream is not transmitted whole. */
module FirstUnderrun {
  import opened BiphaseMark
  import opened SubframeCoder
  import opened Frames
  import opened RingArithmetic
  import opened Transport
  import opened Interleaving
  import opened BlockStructure
  import opened Places
  import opened Fifo
  import opened WriterRuns

  /** A prompt run that leaves the writer there and has read that many words, with that many laps replayed. */
  ghost predicate Ends(format: Format, b: Behaviour, c: Ctl, read: nat, laps: nat) {
    && IsRun(format, b) && PromptTo(b, |b.acts|)
    && b.states[|b.acts|].ctl == c && |b.states[|b.acts|].out| == read && Laps(b, |b.acts|) == laps
  }

  ghost predicate Reaches(format: Format, c: Ctl, read: nat, laps: nat) {
    exists b: Behaviour :: Ends(format, b, c, read, laps)
  }

  lemma Extend(format: Format, b: Behaviour, act: Act, s: Sys)
    requires IsRun(format, b) && PromptTo(b, |b.acts|) && Shaped(s)
    requires Prompt(b.states[|b.acts|], act, Laps(b, |b.acts|))
    requires Next(format, b.states[|b.acts|], act) == Some(s)
    ensures Ends(format, Behaviour(b.acts + [act], b.states + [s]), s.ctl, |s.out|,
                 LapsNext(b.states[|b.acts|], act, Laps(b, |b.acts|)))
  {
    RunSnocIsRun(format, b, act, s);
    var longer := Behaviour(b.acts + [act], b.states + [s]);
    hide Next, Prompt, LapsNext;
    LapsOfPrefix(b, longer, |b.acts|);
    forall k | 0 <= k < |longer.acts|
      ensures Prompt(longer.states[k], longer.acts[k], Laps(longer, k))
    {
      LapsOfPrefix(b, longer, k);
      assert k < |b.acts| ==> Prompt(b.states[k], b.acts[k], Laps(b, k));
    }
  }

  lemma {:induction false} LapsOfPrefix(b: Behaviour, longer: Behaviour, i: nat)
    requires i <= |b.acts| < |b.states| && |b.acts| <= |longer.acts| < |longer.states|
    requires b.acts <= longer.acts && b.states <= longer.states
    ensures Laps(longer, i) == Laps(b, i)
  {
    hide LapsNext;
    if i > 0 {
      LapsOfPrefix(b, longer, i - 1);
    }
  }

  lemma AfterOp(format: Format, c: Ctl, read: nat, laps: nat, op: Op)
    requires Reaches(format, c, read, laps) && Step(c, op).Some? && (op.Poll? ==> op.block == EngineBlock(read))
    ensures Reaches(format, Step(c, op).value, read, laps)
  {
    var b: Behaviour :| Ends(format, b, c, read, laps);
    var s := b.states[|b.acts|];
    hide Ends, IsRun, Inv, Next, PromptTo, Step, Laps;
    EndParts(format, b, c, read, laps);
    RunInv(format, b, |b.acts|);
    NextFollows(format, s, op);
    OpIsPrompt(s, op, laps);
    hide Prompt, LapsNext;
    Extend(format, b, Cpu(op), Next(format, s, Cpu(op)).value);
  }

  lemma OpIsPrompt(s: Sys, op: Op, laps: nat)
    requires op.Poll? ==> op.block == EngineBlock(|s.out|)
    ensures Prompt(s, Cpu(op), laps) && LapsNext(s, Cpu(op), laps) == laps
  {
  }

  lemma NextFollows(format: Format, s: Sys, op: Op)
    requires Inv(format, s) && Step(s.ctl, op).Some?
    ensures Next(format, s, Cpu(op)).Some?
    ensures var r := Next(format, s, Cpu(op)).value; r.ctl == Step(s.ctl, op).value && r.out == s.out
  {
    hide Window, AllHold, Recent, EncodedWord;
    if op.Store? {
      AddressIsSlot(s.ctl);
    }
  }

  /** A read that stays within the places kept. */
  lemma ReadIsPrompt(s: Sys, laps: nat)
    requires s.ctl.base <= s.ctl.n && Position(s.ctl) >= BUFFER_SIZE * (EngineAt(|s.out| + 1, laps) + 1)
    ensures Prompt(s, Dma, laps) && LapsNext(s, Dma, laps) == laps
  {
    EnteredNext(|s.out|);
    WithinABuffer(s.ctl);
    hide Covered, Position;
  }

  function LapsAfter(c: Ctl, read: nat, laps: nat): nat {
    if (read + 1) % BUFFER_WORDS == 0 && Stale(c, EngineAt(read, laps)) then laps + 1 else laps
  }

  /** A read while the program waits. */
  lemma WaitIsPrompt(s: Sys, laps: nat)
    requires BetweenPairs(s.ctl)
    ensures Prompt(s, Dma, laps) && s.ctl.mode != Preload
    ensures LapsNext(s, Dma, laps) == LapsAfter(s.ctl, |s.out|, laps)
  {
  }

  lemma ReadStep(format: Format, s: Sys)
    requires Shaped(s) && s.ctl.mode != Preload
    ensures Next(format, s, Dma) == Some(Read(s)) && Read(s).ctl == s.ctl && |Read(s).out| == |s.out| + 1
  {
  }

  lemma EndParts(format: Format, b: Behaviour, c: Ctl, read: nat, laps: nat)
    requires Ends(format, b, c, read, laps)
    ensures |b.states| == |b.acts| + 1 && IsRun(format, b) && PromptTo(b, |b.acts|) && Shaped(b.states[|b.acts|])
    ensures var s := b.states[|b.acts|]; s.ctl == c && |s.out| == read && Laps(b, |b.acts|) == laps && c.base <= c.n
  {
    hide Next, Prompt, Laps;
    RunInv(format, b, |b.acts|);
    BaseBelow(format, b.states[|b.acts|]);
  }

  lemma BaseBelow(format: Format, s: Sys)
    requires Inv(format, s)
    ensures s.ctl.base <= s.ctl.n
  {
  }

  lemma AfterRead(format: Format, c: Ctl, read: nat, laps: nat)
    requires Reaches(format, c, read, laps) && c.mode != Preload
    requires Position(c) >= BUFFER_SIZE * (EngineAt(read + 1, laps) + 1)
    ensures Reaches(format, c, read + 1, laps)
  {
    hide Ends, IsRun, PromptTo, Prompt, LapsNext, Laps, EngineAt, Position, Next, Read;
    var b: Behaviour :| Ends(format, b, c, read, laps);
    EndParts(format, b, c, read, laps);
    var s := b.states[|b.acts|];
    ReadIsPrompt(s, laps);
    ReadStep(format, s);
    Extend(format, b, Dma, Read(s));
    assert Ends(format, Behaviour(b.acts + [Dma], b.states + [Read(s)]), c, read + 1, laps);
  }

  lemma {:induction false} AfterReads(format: Format, c: Ctl, read: nat, laps: nat, m: nat)
    requires Reaches(format, c, read, laps) && c.mode != Preload
    requires Position(c) >= BUFFER_SIZE * (EngineAt(read + m, laps) + 1)
    ensures Reaches(format, c, read + m, laps)
  {
    hide Reaches, Position;
    if m > 0 {
      EnteredNext(read + m - 1);
      AfterReads(format, c, read, laps, m - 1);
      AfterRead(format, c, read + m - 1, laps);
    }
  }

  lemma AfterAFrame(format: Format, c: Ctl, read: nat, laps: nat)
    requires Reaches(format, c, read, laps) && MayStore(c) && c.part == 0 && c.pcm == SILENCE
    ensures Reaches(format, FrameDone(c.(part := 3)), read, laps)
  {
    hide Reaches, FrameDone;
    AfterOp(format, c, read, laps, Store(0, SILENCE));
    AfterOp(format, c.(part := 1), read, laps, Store(1, SILENCE));
    AfterOp(format, c.(part := 2), read, laps, Store(2, SILENCE));
    AfterOp(format, c.(part := 3), read, laps, Store(3, SILENCE));
  }

  /** Storing without polls: the preload and the fills. */
  predicate StoresAlone(c: Ctl) {
    MayStore(c) && c.part == 0 && c.pcm == SILENCE && !c.mode.Main? && c.n % BUFFER_SIZE == 0
  }

  lemma {:induction false} AfterFrames(format: Format, c: Ctl, read: nat, laps: nat, m: nat)
    requires Reaches(format, c, read, laps) && StoresAlone(c) && m < BUFFER_SIZE
    ensures Reaches(format, c.(n := c.n + m), read, laps)
  {
    hide Reaches;
    if m > 0 {
      AfterFrames(format, c, read, laps, m - 1);
      AfterAFrame(format, c.(n := c.n + m - 1), read, laps);
    }
  }

  lemma AfterBuffer(format: Format, c: Ctl, read: nat, laps: nat)
    requires Reaches(format, c, read, laps) && StoresAlone(c)
    ensures Reaches(format, FrameDone(c.(n := c.n + 2047, part := 3)), read, laps)
  {
    hide Reaches, FrameDone;
    AfterFrames(format, c, read, laps, 2047);
    AfterAFrame(format, c.(n := c.n + 2047), read, laps);
  }

  /** The read loop encodes a pair. */
  lemma AfterPair(format: Format, c: Ctl, read: nat, laps: nat)
    requires Reaches(format, c, read, laps) && c.mode == Main(false) && c.part == 0 && c.pcm == SILENCE
    requires c.buffer != EngineBlock(read)
    ensures Reaches(format, FrameDone(c.(mode := Main(true), part := 3)), read, laps)
  {
    hide Reaches, FrameDone;
    AfterOp(format, c, read, laps, Poll(EngineBlock(read)));
    AfterAFrame(format, c.(mode := Main(true)), read, laps);
  }

  lemma {:induction false} AfterPairs(format: Format, c: Ctl, read: nat, laps: nat, m: nat)
    requires Reaches(format, c, read, laps) && c.mode == Main(false) && c.part == 0 && c.pcm == SILENCE
    requires c.buffer != EngineBlock(read) && c.n % BUFFER_SIZE == 0 && m < BUFFER_SIZE
    ensures Reaches(format, c.(n := c.n + m), read, laps)
  {
    hide Reaches, EngineBlock;
    if m > 0 {
      AfterPairs(format, c, read, laps, m - 1);
      AfterPair(format, c.(n := c.n + m - 1), read, laps);
    }
  }

  const FULL := Ctl(Main(false), 6144, 0, 0, 0, SILENCE, 0, 0, true)
  const FILLED := Ctl(Main(false), 14336, 0, 0, 0, SILENCE, 1, 14336, true)
  const RESUMED := Ctl(Main(false), 16384, 1, 0, 0, SILENCE, 1, 14336, true)

  lemma AtPowerOn(format: Format)
    ensures Reaches(format, BEGIN, 0, 0)
  {
    assert Ends(format, Behaviour([], [PowerOn()]), BEGIN, 0, 0);
  }

  /** A full preload. */
  lemma ReachesFull(format: Format)
    ensures Reaches(format, FULL, 0, 0)
  {
    AtPowerOn(format);
    hide Reaches;
    AfterBuffer(format, BEGIN, 0, 0);
    AfterBuffer(format, BEGIN.(n := 2048, buffer := 1), 0, 0);
    AfterBuffer(format, BEGIN.(n := 4096, buffer := 2), 0, 0);
    AfterOp(format, BEGIN.(n := 6144, buffer := 3), 0, 0, Start);
  }

  /** A read fails when the engine has read one buffer, and the fill keeps ahead of it. */
  lemma ReachesFilled(format: Format)
    ensures Reaches(format, FILLED, 32768, 0)
  {
    hide Reaches;
    ReachesFull(format);
    AfterReads(format, FULL, 0, 0, 8192);
    AfterOp(format, FULL, 8192, 0, Poll(1));
    AfterOp(format, FULL.(mode := Main(true)), 8192, 0, Underrun);
    AfterBuffer(format, FULL.(mode := Rest), 8192, 0);
    FillBufferReached(format, 0, 8192, 1);
    FillBufferReached(format, 1, 10240, 2);
    FillBufferReached(format, 2, 12288, 0);
  }

  /** The count-th whole buffer of the fill, once the engine has moved on by a buffer. */
  lemma FillBufferReached(format: Format, count: nat, n: nat, buffer: nat)
    requires count < 3 && n == 8192 + 2048 * count && buffer == (1 + count) % 3
    requires Reaches(format, FULL.(mode := Wait(count), n := n, buffer := buffer), 8192 * (count + 1), 0)
    ensures count < 2 ==>
      Reaches(format, FULL.(mode := Wait(count + 1), n := n + 2048, buffer := (buffer + 1) % 3), 8192 * (count + 2), 0)
    ensures count == 2 ==> Reaches(format, FILLED, 32768, 0)
  {
    hide Reaches;
    var c, read := FULL.(mode := Wait(count), n := n, buffer := buffer), 8192 * (count + 2);
    AfterReads(format, c, 8192 * (count + 1), 0, 8192);
    AfterOp(format, c, read, 0, Poll(EngineBlock(read)));
    AfterBuffer(format, c.(mode := Refill(count)), read, 0);
  }

  /** The program waits for input, the engine goes on. */
  lemma AfterWaitRead(format: Format, c: Ctl, read: nat, laps: nat)
    requires Reaches(format, c, read, laps) && BetweenPairs(c)
    ensures Reaches(format, c, read + 1, LapsAfter(c, read, laps))
  {
    hide Ends, IsRun, PromptTo, Prompt, LapsNext, Laps, EngineAt, BetweenPairs, Next, Read, LapsAfter;
    var b: Behaviour :| Ends(format, b, c, read, laps);
    EndParts(format, b, c, read, laps);
    var s := b.states[|b.acts|];
    WaitIsPrompt(s, laps);
    ReadStep(format, s);
    Extend(format, b, Dma, Read(s));
    assert Ends(format, Behaviour(b.acts + [Dma], b.states + [Read(s)]), c, read + 1, LapsAfter(c, read, laps));
  }

  lemma {:induction false} AfterWaitReads(format: Format, laps: nat, m: nat)
    requires Reaches(format, FILLED, 32768 + RING_WORDS * laps, laps) && m < RING_WORDS
    ensures Reaches(format, FILLED, 32768 + RING_WORDS * laps + m, laps)
  {
    hide Reaches, LapsAfter;
    if m > 0 {
      AfterWaitReads(format, laps, m - 1);
      WithinLap(laps, m);
      AfterWaitRead(format, FILLED, 32768 + RING_WORDS * laps + m - 1, laps);
    }
  }

  /** The engine is in buffers 4, 5 and 6 of the places; the ring ends with buffer 6. */
  lemma WithinLap(laps: nat, m: nat)
    requires 0 < m <= RING_WORDS
    ensures LapsAfter(FILLED, 32768 + RING_WORDS * laps + m - 1, laps) == if m < RING_WORDS then laps else laps + 1
  {
    var read := 32768 + RING_WORDS * laps + m - 1;
    assert EngineAt(read, laps) == 4 + (m - 1) / BUFFER_WORDS;
    RemainderIs(read + 1, BUFFER_WORDS, 4 + 3 * laps + m / BUFFER_WORDS, m % BUFFER_WORDS);
  }

  lemma {:induction false} ReachesReplayed(format: Format, laps: nat)
    ensures Reaches(format, FILLED, 32768 + RING_WORDS * laps, laps)
  {
    hide Reaches, LapsAfter;
    if laps == 0 {
      ReachesFilled(format);
    } else {
      ReachesReplayed(format, laps - 1);
      AfterWaitReads(format, laps - 1, RING_WORDS - 1);
      WithinLap(laps - 1, RING_WORDS);
      AfterWaitRead(format, FILLED, 32768 + RING_WORDS * (laps - 1) + RING_WORDS - 1, laps - 1);
    }
  }

  /** The read loop goes over the fill's last buffer; the engine then enters it. */
  lemma ReachesResumed(format: Format, laps: nat)
    ensures Reaches(format, RESUMED, 49152 + RING_WORDS * laps, laps)
  {
    hide Reaches;
    ReachesReplayed(format, laps);
    BlockAfterLaps(laps);
    AfterPairs(format, FILLED, 32768 + RING_WORDS * laps, laps, 2047);
    AfterPair(format, FILLED.(n := 16383), 32768 + RING_WORDS * laps, laps);
    AfterReads(format, RESUMED, 32768 + RING_WORDS * laps, laps, 16384);
  }

  lemma BlockAfterLaps(laps: nat)
    ensures EngineBlock(32768 + RING_WORDS * laps) == 1
  {
    assert Entered(32768 + RING_WORDS * laps) == 4 + 3 * laps;
  }

  /** After the replays the engine reads, as the first word of place 12288, one of frame 14336. */
  ghost predicate OutOfTurn(format: Format, b: Behaviour, laps: nat) {
    && IsRun(format, b) && PromptTo(b, |b.acts|) && Laps(b, |b.acts|) == laps
    && var s, r := b.states[|b.acts|], 49152 + RING_WORDS * laps;
       && s.ctl.primed && s.ctl.epoch == 1 && |s.out| == |s.otag| == r + 1 && s.otag[r] == 14336 < |s.hist|
       && s.out[r] != EncodedWord(format, 12288, s.hist[12288], 0)
  }

  lemma ReadsFrame14336(format: Format, b: Behaviour, laps: nat)
    requires Ends(format, b, RESUMED, 49152 + RING_WORDS * laps, laps)
    ensures Shaped(b.states[|b.acts|]) && b.states[|b.acts|].tag[0] == 14336
  {
    hide IsRun;
    RunInv(format, b, |b.acts|);
    var s := b.states[|b.acts|];
    hide AllHold, Recent;
    assert Slot(14336, 1) == 0;
    assert At(s.tag, s.era, Slot(14336, 1), 0, 14336, 1);
  }

  /** Its preamble is M; in the encoded stream, word 49152 opens a block. */
  lemma DifferentWord(format: Format, b: Behaviour, r: nat)
    requires IsRun(format, b) && r % 4 == 0 && var s := b.states[|b.acts|];
             s.ctl.primed && s.ctl.n == 16384 && |s.out| == |s.otag| == r + 1 && s.otag[r] == 14336
    ensures var s := b.states[|b.acts|];
            14336 < |s.hist| && s.out[r] != EncodedWord(format, 12288, s.hist[12288], 0)
  {
    hide Next, EncodedWord, Opens;
    var s := b.states[|b.acts|];
    TransmittedWord(format, b, |b.acts|, r / 4, 0);
    EncodedOpens(format, 14336, s.hist[14336], PreambleM);
    EncodedOpens(format, 12288, s.hist[12288], PreambleM);
  }

  /** There is a run within the program's timing, with one underrun and any given number of replays, whose
      output is not a prefix of the encoded stream, with or without the replays. */
  lemma SomeRunIsOutOfTurn(format: Format, laps: nat)
    ensures exists b: Behaviour :: OutOfTurn(format, b, laps)
  {
    hide OutOfTurn, IsRun;
    ReachesResumed(format, laps);
    var b: Behaviour :| Ends(format, b, RESUMED, 49152 + RING_WORDS * laps, laps);
    LastReadIsOutOfTurn(format, b, laps);
  }

  lemma LastReadIsOutOfTurn(format: Format, b: Behaviour, laps: nat)
    requires Ends(format, b, RESUMED, 49152 + RING_WORDS * laps, laps)
    ensures Shaped(b.states[|b.acts|])
    ensures OutOfTurn(format, Behaviour(b.acts + [Dma], b.states + [Read(b.states[|b.acts|])]), laps)
  {
    var r := 49152 + RING_WORDS * laps;
    ReadsFrame14336(format, b, laps);
    EndParts(format, b, RESUMED, r, laps);
    var s := b.states[|b.acts|];
    hide IsRun, PromptTo, EncodedWord, Laps, Next, Prompt, LapsNext, Ends, OutOfTurn;
    InsideBuffer(s, laps);
    ReadStep(format, s);
    Extend(format, b, Dma, Read(s));
    RemainderIs(r, RING_WORDS, laps + 2, 0);
    ReadsOutOfTurn(format, Behaviour(b.acts + [Dma], b.states + [Read(s)]), laps);
  }

  lemma ReadsOutOfTurn(format: Format, b: Behaviour, laps: nat)
    requires Ends(format, b, RESUMED, 49153 + RING_WORDS * laps, laps)
    requires var s := b.states[|b.acts|]; |s.otag| == |s.out| && s.otag[49152 + RING_WORDS * laps] == 14336
    ensures OutOfTurn(format, b, laps)
  {
    hide Ends, IsRun, PromptTo, EncodedWord, Laps;
    EndParts(format, b, RESUMED, 49153 + RING_WORDS * laps, laps);
    DifferentWord(format, b, 49152 + RING_WORDS * laps);
  }

  lemma InsideBuffer(s: Sys, laps: nat)
    requires |s.out| == 49152 + RING_WORDS * laps
    ensures Prompt(s, Dma, laps) && LapsNext(s, Dma, laps) == laps
  {
    RemainderIs(|s.out| + 1, BUFFER_WORDS, 3 * laps + 6, 1);
  }
}
