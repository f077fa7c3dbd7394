/** The program: the sample buffering, fill, preload and read loops over the shared ring. */
module Driver {
  import opened Words
  import opened BiphaseMark
  import opened SubframeCoder
  import opened LineStream
  import opened ChannelStatus
  import opened Frames
  import opened RingArithmetic
  import opened Transport
  import opened Interleaving
  import opened WriterRuns
  import opened Input

  /** The input frames among the frames a run of the writer encodes: those stored by a read loop. */
  function InputFrames(ops: seq<Op>): seq<Pcm> {
    if |ops| == 0 then []
    else
      var front, op := ops[..|ops| - 1], ops[|ops| - 1];
      InputFrames(front) + if op.Store? && op.part == 3 && FromInput(Run(BEGIN, front)) then [op.pcm] else []
  }

  predicate FromInput(c: Option<Ctl>) {
    c.Some? && Reading(c.value)
  }

  lemma InputFramesSnoc(ops: seq<Op>, op: Op)
    ensures InputFrames(ops + [op])
         == InputFrames(ops) + if op.Store? && op.part == 3 && FromInput(Run(BEGIN, ops)) then [op.pcm] else []
  {
    assert (ops + [op])[..|ops|] == ops;
  }

  lemma StorePart(ops: seq<Op>, pcm: Pcm, part: nat)
    requires Run(BEGIN, ops).Some? && MayStore(Run(BEGIN, ops).value) && Run(BEGIN, ops).value.part == part < 3
    requires part > 0 ==> Run(BEGIN, ops).value.pcm == pcm
    ensures Run(BEGIN, ops + [Store(part, pcm)]) == Some(Run(BEGIN, ops).value.(part := part + 1, pcm := pcm))
    ensures InputFrames(ops + [Store(part, pcm)]) == InputFrames(ops)
  {
    RunSnoc(BEGIN, ops, Store(part, pcm));
    InputFramesSnoc(ops, Store(part, pcm));
    hide Run, InputFrames;
  }

  /** A frame stored whole is an input frame exactly when a read loop stores it. */
  lemma InputFramesFour(ops: seq<Op>, pcm: Pcm)
    requires Run(BEGIN, ops).Some? && MayStore(Run(BEGIN, ops).value) && Run(BEGIN, ops).value.part == 0
    ensures InputFrames(ops + FrameOps(pcm)) == InputFrames(ops) + if FromInput(Run(BEGIN, ops)) then [pcm] else []
  {
    hide Run, InputFrames;
    StorePart(ops, pcm, 0);
    var ops1 := ops + [Store(0, pcm)];
    StorePart(ops1, pcm, 1);
    var ops2 := ops1 + [Store(1, pcm)];
    StorePart(ops2, pcm, 2);
    var ops3 := ops2 + [Store(2, pcm)];
    InputFramesSnoc(ops3, Store(3, pcm));
    assert ops3 + [Store(3, pcm)] == ops + FrameOps(pcm);
  }

  /** A fill frame: silence, or noise of at most five steps either way. */
  predicate IsFill(keepAlive: bool, pcm: Pcm) {
    if keepAlive then -5 <= pcm.a <= 4 && -5 <= pcm.b <= 4 else pcm == SILENCE
  }

  /** Frames were added and all of them are fill. */
  ghost predicate Filled(keepAlive: bool, before: seq<Pcm>, after: seq<Pcm>) {
    before <= after && forall i :: |before| <= i < |after| ==> IsFill(keepAlive, after[i])
  }

  /** Fill frame: its samples come from two successive values of rand(), or are zero. */
  function FillFrame(keepAlive: bool, noise: nat -> nat, d: nat): Pcm {
    if keepAlive then Pcm(noise(d) % 10 - 5, noise(d + 1) % 10 - 5) else SILENCE
  }

  /** The values of rand() drawn once that many fill frames have been made. */
  function DrawsAfter(keepAlive: bool, d: nat, frames: nat): nat {
    if keepAlive then d + 2 * frames else d
  }

  /** What a fill frame is: two values of rand() used, left sample first, each moved into [-5, 4]. */
  lemma FillFrameMeans(noise: nat -> nat, d: nat, frames: nat)
    ensures var pcm := FillFrame(true, noise, d);
            && -5 <= pcm.a <= 4 && (pcm.a + 5 - noise(d)) % 10 == 0
            && -5 <= pcm.b <= 4 && (pcm.b + 5 - noise(d + 1)) % 10 == 0
    ensures DrawsAfter(true, d, frames) == d + 2 * frames
    ensures FillFrame(false, noise, d) == Pcm(0, 0) && DrawsAfter(false, d, frames) == d
  {
    SameLastDigit(noise(d));
    SameLastDigit(noise(d + 1));
  }

  lemma SameLastDigit(x: nat)
    ensures (x % 10 - 5 + 5 - x) % 10 == 0
  {
    RemainderIs(x % 10 - x, 10, -(x / 10), 0);
  }

  lemma NoiseFrame(keepAlive: bool, noise: nat -> nat, d: nat, a: int32, b: int32)
    requires if keepAlive then -5 <= a <= 4 && (a + 5 - noise(d)) % 10 == 0 else a == 0
    requires if keepAlive then -5 <= b <= 4 && (b + 5 - noise(d + 1)) % 10 == 0 else b == 0
    ensures Pcm(a, b) == FillFrame(keepAlive, noise, d)
    ensures DrawsAfter(keepAlive, d, 1) == if keepAlive then d + 2 else d
  {
    if keepAlive {
      LastDigit(a, noise(d));
      LastDigit(b, noise(d + 1));
    }
  }

  lemma LastDigit(a: int, x: nat)
    requires -5 <= a <= 4 && (a + 5 - x) % 10 == 0
    ensures a == x % 10 - 5
  {
    RemainderIs(x, 10, x / 10, x % 10);
  }

  /** Fill frames were added, made from the values of rand() from number d on. */
  ghost predicate FilledFrom(keepAlive: bool, noise: nat -> nat, d: nat, before: seq<Pcm>, after: seq<Pcm>) {
    && before <= after
    && forall i :: |before| <= i < |after| ==> after[i] == FillFrame(keepAlive, noise, d + 2 * (i - |before|))
  }

  lemma FilledNothing(keepAlive: bool, noise: nat -> nat, d: nat, hist: seq<Pcm>)
    ensures FilledFrom(keepAlive, noise, d, hist, hist) && DrawsAfter(keepAlive, d, 0) == d
  {
  }

  lemma FilledSnoc(keepAlive: bool, noise: nat -> nat, d: nat, before: seq<Pcm>, after: seq<Pcm>, draws: nat)
    requires FilledFrom(keepAlive, noise, d, before, after) && draws == DrawsAfter(keepAlive, d, |after| - |before|)
    ensures FilledFrom(keepAlive, noise, d, before, after + [FillFrame(keepAlive, noise, draws)])
    ensures DrawsAfter(keepAlive, draws, 1) == DrawsAfter(keepAlive, d, |after| + 1 - |before|)
  {
  }

  lemma FilledThrough(keepAlive: bool, noise: nat -> nat, d: nat, before: seq<Pcm>, middle: seq<Pcm>, after: seq<Pcm>)
    requires FilledFrom(keepAlive, noise, d, before, middle)
    requires FilledFrom(keepAlive, noise, DrawsAfter(keepAlive, d, |middle| - |before|), middle, after)
    ensures FilledFrom(keepAlive, noise, d, before, after)
    ensures DrawsAfter(keepAlive, DrawsAfter(keepAlive, d, |middle| - |before|), |after| - |middle|)
         == DrawsAfter(keepAlive, d, |after| - |before|)
  {
    forall i | |before| <= i < |after|
      ensures after[i] == FillFrame(keepAlive, noise, d + 2 * (i - |before|))
    {
      if i < |middle| {
        assert after[i] == middle[i];
      }
    }
  }

  lemma FilledIsFill(keepAlive: bool, noise: nat -> nat, d: nat, before: seq<Pcm>, after: seq<Pcm>)
    requires FilledFrom(keepAlive, noise, d, before, after)
    ensures Filled(keepAlive, before, after)
  {
  }

  /** The blocks the polls have reported. */
  function PollBlocks(ops: seq<Op>): seq<nat> {
    if |ops| == 0 then []
    else
      var op := ops[|ops| - 1];
      PollBlocks(ops[..|ops| - 1]) + if op.Poll? then [op.block] else []
  }

  lemma PollBlocksSnoc(ops: seq<Op>, op: Op)
    ensures PollBlocks(ops + [op]) == PollBlocks(ops) + if op.Poll? then [op.block] else []
  {
    assert (ops + [op])[..|ops|] == ops;
  }

  /** Storing a frame polls nothing. */
  lemma PollBlocksFour(ops: seq<Op>, pcm: Pcm)
    ensures PollBlocks(ops + FrameOps(pcm)) == PollBlocks(ops)
  {
    hide PollBlocks;
    PollBlocksSnoc(ops, Store(0, pcm));
    PollBlocksSnoc(ops + [Store(0, pcm)], Store(1, pcm));
    PollBlocksSnoc(ops + [Store(0, pcm)] + [Store(1, pcm)], Store(2, pcm));
    PollBlocksSnoc(ops + [Store(0, pcm)] + [Store(1, pcm)] + [Store(2, pcm)], Store(3, pcm));
    assert ops + FrameOps(pcm)
        == ops + [Store(0, pcm)] + [Store(1, pcm)] + [Store(2, pcm)] + [Store(3, pcm)];
  }

  /** The last access stores a word. */
  predicate EndsInStore(ops: seq<Op>) {
    |ops| > 0 && ops[|ops| - 1].Store?
  }

  lemma FrameEndsInStore(ops: seq<Op>, pcm: Pcm)
    ensures EndsInStore(ops + FrameOps(pcm))
  {
  }

  /** The engine was asked that many times, and its answers are the blocks reported. */
  ghost predicate Answered(schedule: nat -> nat, ops: seq<Op>, polls: nat) {
    |PollBlocks(ops)| == polls && forall t: nat :: t < polls ==> PollBlocks(ops)[t] == schedule(t)
  }

  /** However long the writer waits, the engine eventually leaves any block. */
  ghost predicate Fair(schedule: nat -> nat) {
    && (forall t: nat :: schedule(t) < BUFFER_COUNT)
    && (forall t: nat, b: nat :: Leaves(schedule, t, b))
  }

  ghost predicate Leaves(schedule: nat -> nat, t: nat, b: nat) {
    exists u: nat :: t <= u && schedule(u) != b
  }

  ghost function LeavesAt(schedule: nat -> nat, t: nat, b: nat): (u: nat)
    requires Fair(schedule)
    ensures t <= u && schedule(u) != b
  {
    assert Leaves(schedule, t, b);
    var u: nat :| t <= u && schedule(u) != b;
    u
  }

  class Raspdif {
    const format: Format
    const schedule: nat -> nat     // the engine's block at each successive poll
    const noise: nat -> nat        // successive values of rand()
    const ring: array<uint32>      // the three buffers, four words a frame
    const block: Block
    var frameIndex: uint8
    var sampleCount: uint32
    var polls: nat
    var draws: nat
    ghost var ops: seq<Op>         // the accesses to shared memory so far
    ghost var sys: Sys             // and the state they lead to

    /** The counters, block and ring are those of the writer's run so far, between frames; its polls
        report what the engine answered. */
    ghost predicate Valid()
      reads this, ring, block, block.subframes
    {
      && ring.Length == RING_WORDS
      && block.Populated()
      && Effect(format, ops) == Some(sys)
      && Ok(sys.ctl) && sys.ctl.part == 0
      && ring[..] == sys.mem && |sys.hist| == sys.ctl.n
      && frameIndex == sys.ctl.n % 192
      && sampleCount == sys.ctl.n % 0x1_0000_0000
      && Answered(schedule, ops, polls)
    }

    /** Zeroed buffers, a populated block, nothing encoded. */
    constructor (format: Format, schedule: nat -> nat, noise: nat -> nat)
      ensures Valid() && fresh(ring) && fresh(block) && fresh(block.subframes)
      ensures this.format == format && this.schedule == schedule && this.noise == noise
      ensures sys == PowerOn() && ops == [] && polls == draws == 0
    {
      this.format, this.schedule, this.noise := format, schedule, noise;
      ring := new uint32[RING_WORDS](_ => 0);
      var newBlock := new Block();
      ghost var zeroed := newBlock.subframes[..];
      newBlock.PopulateChannelStatus();
      PopulatedFromZero(zeroed, newBlock.subframes[..]);
      block := newBlock;
      frameIndex, sampleCount, polls, draws := 0, 0, 0, 0;
      ops, sys := [], PowerOn();
    }

    /** Encodes one frame through the block's current position and stores its four words. */
    method StoreFrame(slot: nat, sampleA: int32, sampleB: int32)
      requires ring.Length == RING_WORDS && block.Populated() && slot < RING_FRAMES && frameIndex < 192
      modifies ring, block.subframes
      ensures block.Populated()
      ensures ring[..] == PutFrame(old(ring[..]), 4 * slot, FrameWords(format, frameIndex, Pcm(sampleA, sampleB)))
    {
      hide FrameWords, FrameSlots, Template, Carrying, KeepsTemplates, SubframeCells, Cells, UpperWord, LowerWord;
      ghost var pcm, frames := Pcm(sampleA, sampleB), block.subframes[..];
      var bitDepth := DepthOf(format);
      FrameCells(format, frames, frameIndex, pcm);

      var first := if frameIndex == 0 then PreambleB else PreambleM;
      var codeA := BuildSubframe(block.subframes, 2 * frameIndex, first, bitDepth, sampleA);
      ring[4 * slot] := UpperWord(codeA);
      ring[4 * slot + 1] := LowerWord(codeA);

      var codeB := BuildSubframe(block.subframes, 2 * frameIndex + 1, PreambleW, bitDepth, sampleB);
      ring[4 * slot + 2] := UpperWord(codeB);
      ring[4 * slot + 3] := LowerWord(codeB);

      StoredWords(format, frameIndex, pcm, codeA, codeB);
    }

    /** Encodes one frame into its slot of the given buffer; says whether the buffer is now full. */
    method BufferSamples(bufferIndex: nat, sampleA: int32, sampleB: int32) returns (full: bool)
      requires Valid() && MayStore(sys.ctl) && bufferIndex == sys.ctl.buffer
      modifies this`frameIndex, this`sampleCount, this`ops, this`sys, ring, block.subframes
      ensures Valid()
      ensures ops == old(ops) + FrameOps(Pcm(sampleA, sampleB))
      ensures sys.ctl == AfterFrame(old(sys.ctl), Pcm(sampleA, sampleB))
      ensures sys.hist == old(sys.hist) + [Pcm(sampleA, sampleB)]
      ensures InputFrames(ops) == InputFrames(old(ops)) + if Reading(old(sys.ctl)) then [Pcm(sampleA, sampleB)] else []
      ensures Address(old(sys.ctl)) + 4 <= RING_WORDS
      ensures ring[..] == PutFrame(old(ring[..]), Address(old(sys.ctl)),
                                   FrameWords(format, old(sys.ctl.n) % 192, Pcm(sampleA, sampleB)))
      ensures full <==> (old(sys.ctl.n) + 1) % BUFFER_SIZE == 0
      ensures EndsInStore(ops)
    {
      hide Effect, FrameWords, KeepsTemplates, PutFrame, AfterFrame, FrameOps, Run, InputFrames, Ok, PollBlocks,
           EndsInStore;
      FourStores(format, ops, sys, Pcm(sampleA, sampleB));
      EffectInv(format, ops + FrameOps(Pcm(sampleA, sampleB)));
      EffectRuns(format, ops);
      InputFramesFour(ops, Pcm(sampleA, sampleB));
      PollBlocksFour(ops, Pcm(sampleA, sampleB));
      FrameEndsInStore(ops, Pcm(sampleA, sampleB));
      CounterWrap(sys.ctl.n);
      CounterWrap(sys.ctl.n + 1);
      StoreFrame(BUFFER_SIZE * bufferIndex + sampleCount % BUFFER_SIZE, sampleA, sampleB);
      ops := ops + FrameOps(Pcm(sampleA, sampleB));
      sys := Effect(format, ops).value;
      frameIndex := (frameIndex + 1) % SPDIF_FRAME_COUNT;
      sampleCount := (sampleCount + 1) % 0x1_0000_0000;
      full := sampleCount % BUFFER_SIZE == 0;
    }

    /** The engine is started, or a read has failed. */
    ghost method Mark(op: Op)
      requires Valid() && (op.Start? || op.Underrun?) && Step(sys.ctl, op).Some?
      modifies this`ops, this`sys
      ensures Valid() && ops == old(ops) + [op]
      ensures sys.ctl == Step(old(sys.ctl), op).value && sys.hist == old(sys.hist)
      ensures InputFrames(ops) == InputFrames(old(ops))
    {
      hide Effect, KeepsTemplates, Run, InputFrames, PollBlocks;
      EffectSnoc(format, ops, op);
      InputFramesSnoc(ops, op);
      PollBlocksSnoc(ops, op);
      StepOk(sys.ctl, op);
      ops := ops + [op];
      sys := sys.(ctl := Step(sys.ctl, op).value);
    }

    /** The index of the control block the engine is on. */
    method GetControlBlock() returns (current: nat)
      requires Valid() && Fair(schedule) && (sys.ctl.mode == Main(false) || sys.ctl.mode.Wait?)
      modifies this`polls, this`ops, this`sys
      ensures Valid() && polls == old(polls) + 1
      ensures current == schedule(old(polls)) && ops == old(ops) + [Poll(current)]
      ensures Step(old(sys.ctl), Poll(current)) == Some(sys.ctl) && sys.hist == old(sys.hist)
      ensures InputFrames(ops) == InputFrames(old(ops))
    {
      hide Effect, KeepsTemplates, Run, InputFrames, PollBlocks;
      current := schedule(polls);
      EffectSnoc(format, ops, Poll(current));
      InputFramesSnoc(ops, Poll(current));
      PollBlocksSnoc(ops, Poll(current));
      StepOk(sys.ctl, Poll(current));
      ops := ops + [Poll(current)];
      sys := sys.(ctl := Step(sys.ctl, Poll(current)).value);
      polls := polls + 1;
    }

    /** A sample of quiet noise, from the next value of rand(), or silence. */
    method FillSample(keepAlive: bool) returns (sample: int32)
      modifies this`draws
      ensures if keepAlive then -5 <= sample <= 4 else sample == 0
      ensures keepAlive ==> (sample + 5 - noise(old(draws))) % 10 == 0
      ensures draws == old(draws) + if keepAlive then 1 else 0
    {
      SameLastDigit(noise(draws));
      if keepAlive {
        sample := noise(draws) % 10 - 5;
        draws := draws + 1;
      } else {
        sample := 0;
      }
    }

    /** Fills the buffer up to its end. */
    method FillBuffer(bufferIndex: nat, keepAlive: bool)
      requires Valid() && (sys.ctl.mode.Rest? || sys.ctl.mode.Refill?) && bufferIndex == sys.ctl.buffer
      modifies this`frameIndex, this`sampleCount, this`draws, this`ops, this`sys, ring, block.subframes
      ensures Valid()
      ensures sys.ctl.n == BufferEnd(old(sys.ctl.n))
      ensures sys.ctl == BufferDone(old(sys.ctl), sys.ctl.pcm)
      ensures Filled(keepAlive, old(sys.hist), sys.hist)
      ensures FilledFrom(keepAlive, noise, old(draws), old(sys.hist), sys.hist)
      ensures draws == DrawsAfter(keepAlive, old(draws), |sys.hist| - |old(sys.hist)|)
      ensures old(ops) <= ops && InputFrames(ops) == InputFrames(old(ops)) && polls == old(polls) && EndsInStore(ops)
    {
      hide Effect, KeepsTemplates, InputFrames, Ok, AfterFrame, BufferDone, PutFrame, FrameOps, FrameWords, Answered,
           FilledFrom, DrawsAfter, FillFrame, Filled, EndsInStore;
      ghost var c0 := sys.ctl;
      FilledNothing(keepAlive, noise, draws, sys.hist);
      var full := false;
      while !full
        invariant Valid()
        invariant FilledFrom(keepAlive, noise, old(draws), old(sys.hist), sys.hist) && |old(sys.hist)| <= |sys.hist|
        invariant draws == DrawsAfter(keepAlive, old(draws), |sys.hist| - |old(sys.hist)|)
        invariant old(ops) <= ops && InputFrames(ops) == InputFrames(old(ops))
        invariant !full ==> c0.n <= sys.ctl.n < BufferEnd(c0.n) && sys.ctl == c0.(n := sys.ctl.n, pcm := sys.ctl.pcm)
        invariant full ==> sys.ctl.n == BufferEnd(c0.n) && sys.ctl == BufferDone(c0, sys.ctl.pcm) && EndsInStore(ops)
        decreases !full, BufferEnd(c0.n) - sys.ctl.n
      {
        ghost var d := draws;
        var sampleA := FillSample(keepAlive);
        var sampleB := FillSample(keepAlive);
        NoiseFrame(keepAlive, noise, d, sampleA, sampleB);
        FilledSnoc(keepAlive, noise, old(draws), old(sys.hist), sys.hist, d);
        FillStep(c0, sys.ctl, Pcm(sampleA, sampleB));
        full := BufferSamples(bufferIndex, sampleA, sampleB);
      }
      FilledIsFill(keepAlive, noise, old(draws), old(sys.hist), sys.hist);
    }

    /** Fills the rest of the buffer the underrun left, then every buffer in ring order from the
        next one on, each once the engine has been seen elsewhere. The caller's index stays. */
    method FillBuffers(bufferIndex: nat, keepAlive: bool)
      requires Valid() && Fair(schedule) && sys.ctl.mode.Rest? && bufferIndex == sys.ctl.buffer
      modifies this`frameIndex, this`sampleCount, this`draws, this`polls, this`ops, this`sys, ring, block.subframes
      ensures Valid()
      ensures sys.ctl.mode == Main(false) && sys.ctl.buffer == bufferIndex && sys.ctl.epoch == old(sys.ctl.epoch) + 1
      ensures sys.ctl.n == BufferEnd(old(sys.ctl.n)) + RING_FRAMES && sys.ctl.base == sys.ctl.n
      ensures sys.ctl.primed == old(sys.ctl.primed)
      ensures Filled(keepAlive, old(sys.hist), sys.hist)
      ensures FilledFrom(keepAlive, noise, old(draws), old(sys.hist), sys.hist)
      ensures draws == DrawsAfter(keepAlive, old(draws), |sys.hist| - |old(sys.hist)|)
      ensures old(ops) <= ops && InputFrames(ops) == InputFrames(old(ops)) && EndsInStore(ops)
    {
      hide Effect, KeepsTemplates, InputFrames, Run, BufferEnd, BufferDone, FrameDone, Ok, IsFill, LeavesAt, Progress,
           Aligned, Answered, FilledFrom, Filled, DrawsAfter, EndsInStore;
      ghost var c0 := sys.ctl;
      RestIsHome(c0);
      var index: nat := bufferIndex;
      FillBuffer(index, keepAlive);
      RestDone(c0, sys.ctl.pcm);
      index := (index + 1) % BUFFER_COUNT;

      var fillCount: nat := 0;
      ghost var leaves := LeavesAt(schedule, polls, index);
      while fillCount < BUFFER_COUNT
        invariant Valid() && fillCount <= BUFFER_COUNT
        invariant Progress(c0, sys.ctl, fillCount, index)
        invariant FilledFrom(keepAlive, noise, old(draws), old(sys.hist), sys.hist) && |old(sys.hist)| <= |sys.hist|
        invariant draws == DrawsAfter(keepAlive, old(draws), |sys.hist| - |old(sys.hist)|)
        invariant old(ops) <= ops && InputFrames(ops) == InputFrames(old(ops))
        invariant fillCount == BUFFER_COUNT ==> EndsInStore(ops)
        invariant polls <= leaves && schedule(leaves) != index
        decreases BUFFER_COUNT - fillCount, leaves - polls
      {
        ghost var c := sys.ctl;
        WaitingAt(c0, c, fillCount, index);
        var current := GetControlBlock();
        if current == index {
          continue;  // the engine is using this buffer: sleep, then look again
        }
        ghost var middle := sys.hist;
        FillBuffer(index, keepAlive);
        FilledThrough(keepAlive, noise, old(draws), old(sys.hist), middle, sys.hist);
        RefillDone(c0, c, fillCount, index, sys.ctl.pcm);
        index := (index + 1) % BUFFER_COUNT;
        fillCount := fillCount + 1;
        leaves := LeavesAt(schedule, polls, index);
      }
      FillEnds(c0, sys.ctl, index);
      FilledIsFill(keepAlive, noise, old(draws), old(sys.hist), sys.hist);
    }

    /** Parses the pair in the sample buffer and encodes it, as both read loops do. */
    method BufferPair(bufferIndex: nat, samples: array<uint8>) returns (full: bool)
      requires Valid() && MayStore(sys.ctl) && Reading(sys.ctl) && bufferIndex == sys.ctl.buffer
      requires AllRepresentable(format, sys.hist) && samples.Length == SAMPLES_SIZE
      modifies this`frameIndex, this`sampleCount, this`ops, this`sys, ring, block.subframes
      ensures Valid() && AllRepresentable(format, sys.hist)
      ensures sys.ctl == AfterFrame(old(sys.ctl), PairIn(format, samples[..]))
      ensures sys.hist == old(sys.hist) + [PairIn(format, samples[..])]
      ensures old(ops) <= ops && InputFrames(ops) == InputFrames(old(ops)) + [PairIn(format, samples[..])]
      ensures full <==> (old(sys.ctl.n) + 1) % BUFFER_SIZE == 0
      ensures samples[..] == old(samples[..]) && EndsInStore(ops)
    {
      hide Effect, KeepsTemplates, InputFrames, Run, PutFrame, FrameOps, FrameWords, AfterFrame, AllRepresentable,
           EndsInStore, Answered;
      var sampleA := ParseSample(format, samples[..]);
      var sampleB := ParseSample(format, samples[SampleSize(format)..]);
      RepresentableSnoc(format, sys.hist, Pcm(sampleA, sampleB));
      full := BufferSamples(bufferIndex, sampleA, sampleB);
    }

    /** Encodes the first pairs while the engine is off: until a read delivers nothing, or the
        ring is found full, which is noticed only after another read. */
    method PreloadBuffers(file: InputFile, samples: array<uint8>)
      requires Valid() && sys.ctl == BEGIN && InputFrames(ops) == [] && sys.hist == []
      requires AllFit(format, file.script) && file.next == 0 && !file.eof
      requires samples.Length == SAMPLES_SIZE && samples[..] == ZEROED
      modifies this`frameIndex, this`sampleCount, this`ops, this`sys, ring, block.subframes, file, samples
      ensures Valid() && AllRepresentable(format, sys.hist)
      ensures sys.ctl.mode == Preload && sys.ctl.n == Accepted(format, file.script, 0)
      ensures TakesFirst(format, file.script, sys.ctl.n)
      ensures file.next == sys.ctl.n + if sys.ctl.n < |file.script| then 1 else 0
      ensures file.next == Consumed(format, file.script) && file.eof == Ended(file.script[..file.next])
      ensures samples[..] == BufferAfter(ZEROED, file.script[..file.next])
      ensures old(ops) <= ops && sys.hist == InputFrames(ops) == PreloadPairs(format, ZEROED, file.script[..sys.ctl.n])
      ensures polls == old(polls) && draws == old(draws)
    {
      hide Effect, KeepsTemplates, InputFrames, Run, PreloadPairs, BufferAfter, Landed, Ended, AllFit, AfterFrame,
           PairIn, AllRepresentable, TakesFirst, Answered;
      var bufferIndex := 0;
      var script := file.script;
      StartOfScript(format, script);
      AcceptedTakes(format, script, 0);
      while file.next < |script|  // the script ends where the observed run does
        invariant Valid() && sys.ctl.mode == Preload && sys.ctl.n == file.next && sys.ctl.buffer == bufferIndex
        invariant file.next <= |script| && file.eof == Ended(script[..file.next])
        invariant Accepted(format, script, 0) == Accepted(format, script, file.next)
        invariant samples[..] == BufferAfter(ZEROED, script[..file.next])
        invariant AllFit(format, script[..file.next])
        invariant old(ops) <= ops && sys.hist == InputFrames(ops) == PreloadPairs(format, ZEROED, script[..file.next])
        invariant AllRepresentable(format, sys.hist)
        decreases |script| - file.next
      {
        ghost var i := file.next;
        ReadNext(format, script, i);
        PreloadPairsSnoc(format, ZEROED, script[..i], script[i]);
        var items := file.Fread(samples, SampleSize(format));
        if !(items > 0 && bufferIndex < BUFFER_COUNT) {
          break;
        }
        PreloadStep(sys.ctl, PairIn(format, samples[..]));
        var full := BufferPair(bufferIndex, samples);
        if full {
          bufferIndex := bufferIndex + 1;
        }
      }
    }

    /** A read has failed: fills the buffers; the read loop will resume at the index it left. */
    method PauseStream(bufferIndex: nat, keepAlive: bool)
      requires Valid() && Fair(schedule) && sys.ctl.mode == Main(true) && bufferIndex == sys.ctl.buffer
      requires AllRepresentable(format, sys.hist)
      modifies this`frameIndex, this`sampleCount, this`draws, this`polls, this`ops, this`sys, ring, block.subframes
      ensures Valid() && AllRepresentable(format, sys.hist)
      ensures sys.ctl.mode == Main(false) && sys.ctl.buffer == bufferIndex && sys.ctl.epoch == old(sys.ctl.epoch) + 1
      ensures sys.ctl.n == BufferEnd(old(sys.ctl.n)) + RING_FRAMES && Filled(keepAlive, old(sys.hist), sys.hist)
      ensures Laying(sys.hist, draws) == FillsOnto(keepAlive, noise, Laying(old(sys.hist), old(draws)))
      ensures old(ops) <= ops && InputFrames(ops) == InputFrames(old(ops)) && EndsInStore(ops)
    {
      hide Effect, KeepsTemplates, InputFrames, Run, AllRepresentable, IsFill, BufferEnd, Answered, FilledFrom, Filled,
           DrawsAfter, FillsOnto, EndsInStore;
      Mark(Underrun);
      FillBuffers(bufferIndex, keepAlive);
      RepresentableFill(format, keepAlive, old(sys.hist), sys.hist);
      FilledIsAll(keepAlive, noise, old(draws), old(sys.hist), sys.hist);
    }

    /** What the read loop's next step depends on. */
    ghost function Now(file: InputFile, samples: array<uint8>): Moment
      reads this, file, samples
    {
      Moment(file.next, file.eof, samples[..], InputFrames(ops), sys.hist, draws, sys.ctl.epoch)
    }

    /** Reads once and encodes the pair; a failed read fills the buffers instead. Returns the index
        to go on with, which a fill does not move. */
    method ReadOne(bufferIndex: nat, file: InputFile, samples: array<uint8>, keepAlive: bool) returns (nextIndex: nat)
      requires Valid() && Fair(schedule) && sys.ctl.mode == Main(true) && bufferIndex == sys.ctl.buffer
      requires AllRepresentable(format, sys.hist) && samples.Length == SAMPLES_SIZE
      requires file.next < |file.script| && Fits(format, file.script[file.next]) && !file.eof
      modifies this`frameIndex, this`sampleCount, this`draws, this`polls, this`ops, this`sys, ring, block.subframes
      modifies file, samples
      ensures Valid() && AllRepresentable(format, sys.hist) && old(ops) <= ops
      ensures sys.ctl.mode == Main(false) && nextIndex == sys.ctl.buffer && file.next == old(file.next) + 1
      ensures EndsInStore(ops)
      ensures ReadEffect(format, keepAlive, noise, file.script[old(file.next)], old(Now(file, samples)),
                         Now(file, samples))
    {
      hide Effect, KeepsTemplates, InputFrames, Run, Landed, AllRepresentable, AfterFrame, PairIn, Filled, Ok,
           EndsInStore, Answered, ReadEffect, FillsOnto;
      ghost var was := Now(file, samples);
      ghost var r := file.script[file.next];
      LandedSize(format, samples[..], r);
      var items := file.Fread(samples, SampleSize(format));
      if items != 2 && !file.eof {
        PauseStream(bufferIndex, keepAlive);
        FailedRead(format, keepAlive, noise, r, was, Now(file, samples));
        return bufferIndex;  // the caller's index has not moved
      }
      LoopStep(sys.ctl, PairIn(format, samples[..]));
      var full := BufferPair(bufferIndex, samples);
      nextIndex := if full then (bufferIndex + 1) % BUFFER_COUNT else bufferIndex;
      PairRead(format, keepAlive, noise, r, was, Now(file, samples));
    }

    /** Reads and encodes until the end of the file, a pair at a time, looking first where the
        engine is. A failed read fills the buffers and resumes at the index it left. */
    method ReadLoop(file: InputFile, samples: array<uint8>, keepAlive: bool)
      requires Valid() && Fair(schedule) && sys.ctl.mode == Main(false) && sys.ctl.buffer == 0
      requires AllRepresentable(format, sys.hist)
      requires AllFit(format, file.script) && file.next <= |file.script| && file.eof == Ended(file.script[..file.next])
      requires samples.Length == SAMPLES_SIZE
      modifies this`frameIndex, this`sampleCount, this`draws, this`polls, this`ops, this`sys, ring, block.subframes
      modifies file, samples
      ensures Valid() && AllRepresentable(format, sys.hist) && old(ops) <= ops
      ensures file.next == LoopEnd(file.script, old(file.next)) && (old(file.eof) ==> ops == old(ops))
      ensures ReadsUpTo(file.script, old(file.next), file.next)
      ensures ops == old(ops) || EndsInStore(ops)
      ensures ReadsEffect(format, keepAlive, noise, file.script, old(Now(file, samples)), Now(file, samples))
    {
      hide Effect, KeepsTemplates, InputFrames, Run, AllFit, LeavesAt, AllRepresentable, Ok, ReadsEffect, ReadEffect,
           EndsInStore, Answered, ReadsUpTo, Ended, LoopEnd;
      var bufferIndex: nat := 0;
      ghost var script, start := file.script, Now(file, samples);
      StartOfLoop(format, keepAlive, noise, script, start);
      LoopEndReads(script, file.next);
      ghost var leaves := LeavesAt(schedule, polls, bufferIndex);
      while !file.eof && file.next < |file.script|  // the script ends where the observed run does
        invariant Valid() && sys.ctl.mode == Main(false) && sys.ctl.buffer == bufferIndex
        invariant AllRepresentable(format, sys.hist) && old(ops) <= ops
        invariant old(file.eof) ==> file.eof && ops == old(ops)
        invariant file.eof || file.next == |script| ==> ops == old(ops) || EndsInStore(ops)
        invariant ReadsEffect(format, keepAlive, noise, script, start, Now(file, samples)) && file.next <= |script|
        invariant polls <= leaves && schedule(leaves) != bufferIndex
        decreases |script| - file.next, leaves - polls
      {
        ghost var before := Now(file, samples);
        var current := GetControlBlock();
        assert Now(file, samples) == before;
        if current == bufferIndex {
          continue;  // the engine is using this buffer: sleep, then look again
        }
        FitsAt(format, script, file.next);
        bufferIndex := ReadOne(bufferIndex, file, samples, keepAlive);
        NextRead(format, keepAlive, noise, script, start, before, Now(file, samples));
        leaves := LeavesAt(schedule, polls, bufferIndex);
      }
      LoopStops(format, keepAlive, noise, script, start, Now(file, samples));
    }
  }

  /** Where a read loop is: how much it has read, what its sample buffer holds, the input frames and
      all frames encoded, and the epoch. */
  datatype Moment = Moment(next: nat, eof: bool, samples: seq<uint8>, input: seq<Pcm>, hist: seq<Pcm>, draws: nat,
                           epoch: nat)

  /** One read: its pair is encoded, or, when it fails, fill up to the end of the buffer and then
      a whole ring of it. */
  ghost predicate ReadEffect(format: Format, keepAlive: bool, noise: nat -> nat, r: ReadResult, m: Moment,
                             after: Moment)
  {
    && after.next == m.next + 1 && after.eof == (m.eof || r.eof) && after.samples == Landed(m.samples, r)
    && |after.samples| == SAMPLES_SIZE
    && Laying(after.hist, after.draws) == Adds(format, keepAlive, noise, r, after.samples, Laying(m.hist, m.draws))
    && if Fails(format, r)
       then after.input == m.input && after.epoch == m.epoch + 1
       else after.input == m.input + [PairIn(format, after.samples)] && after.epoch == m.epoch
  }

  lemma FailedRead(format: Format, keepAlive: bool, noise: nat -> nat, r: ReadResult, m: Moment, after: Moment)
    requires |m.samples| == SAMPLES_SIZE && Fits(format, r) && Fails(format, r) && !m.eof
    requires after.next == m.next + 1 && after.eof == r.eof && after.samples == Landed(m.samples, r)
    requires Laying(after.hist, after.draws) == FillsOnto(keepAlive, noise, Laying(m.hist, m.draws))
    requires after.input == m.input && after.epoch == m.epoch + 1
    ensures ReadEffect(format, keepAlive, noise, r, m, after)
  {
    hide Landed, FillsOnto, Fails;
    LandedSize(format, m.samples, r);
  }

  lemma PairRead(format: Format, keepAlive: bool, noise: nat -> nat, r: ReadResult, m: Moment, after: Moment)
    requires |m.samples| == SAMPLES_SIZE && Fits(format, r) && !Fails(format, r) && !m.eof
    requires after.next == m.next + 1 && after.eof == r.eof && after.samples == Landed(m.samples, r)
    requires |after.samples| == SAMPLES_SIZE
    requires after.hist == m.hist + [PairIn(format, after.samples)] && after.draws == m.draws
    requires after.input == m.input + [PairIn(format, after.samples)] && after.epoch == m.epoch
    ensures ReadEffect(format, keepAlive, noise, r, m, after)
  {
    hide Landed, FillsOnto, Fails, PairIn;
  }

  /** A fill: frames of quiet noise or silence up to the end of the buffer, then three whole buffers. */
  ghost predicate FillAdded(keepAlive: bool, before: seq<Pcm>, after: seq<Pcm>) {
    Filled(keepAlive, before, after) && |after| == BufferEnd(|before|) + RING_FRAMES
  }

  /** The frames encoded, and the values of rand() drawn for them. */
  datatype Laying = Laying(hist: seq<Pcm>, draws: nat)

  /** A fill goes on to the end of its buffer and through three more. */
  function FillsOnto(keepAlive: bool, noise: nat -> nat, l: Laying): Laying {
    var count := BufferEnd(|l.hist|) + RING_FRAMES - |l.hist|;
    Laying(l.hist + seq(count, m requires 0 <= m < count => FillFrame(keepAlive, noise, l.draws + 2 * m)),
           DrawsAfter(keepAlive, l.draws, count))
  }

  /** A read adds the pair then held by the sample buffer, or a fill. */
  function Adds(format: Format, keepAlive: bool, noise: nat -> nat, r: ReadResult, held: seq<uint8>, l: Laying): Laying
    requires |held| == SAMPLES_SIZE
  {
    if Fails(format, r) then FillsOnto(keepAlive, noise, l) else Laying(l.hist + [PairIn(format, held)], l.draws)
  }

  /** What a read loop lays down: the reads and the values of rand() determine it. */
  function LaidBy(format: Format, keepAlive: bool, noise: nat -> nat, start: Laying, buffer: seq<uint8>,
                  results: seq<ReadResult>): Laying
    requires |buffer| == SAMPLES_SIZE && AllFit(format, results)
  {
    BufferSize(format, buffer, results);
    if |results| == 0 then start
    else
      Adds(format, keepAlive, noise, results[|results| - 1], BufferAfter(buffer, results),
           LaidBy(format, keepAlive, noise, start, buffer, results[..|results| - 1]))
  }

  lemma FilledIsAll(keepAlive: bool, noise: nat -> nat, d: nat, before: seq<Pcm>, after: seq<Pcm>)
    requires FilledFrom(keepAlive, noise, d, before, after) && |after| == BufferEnd(|before|) + RING_FRAMES
    ensures Laying(after, DrawsAfter(keepAlive, d, |after| - |before|))
         == FillsOnto(keepAlive, noise, Laying(before, d))
  {
    var l := FillsOnto(keepAlive, noise, Laying(before, d));
    forall i | 0 <= i < |after|
      ensures after[i] == l.hist[i]
    {
      if i < |before| {
        assert after[i] == before[i];
      }
    }
  }

  lemma FillsOntoAdds(keepAlive: bool, noise: nat -> nat, l: Laying)
    ensures FillAdded(keepAlive, l.hist, FillsOnto(keepAlive, noise, l).hist)
  {
  }

  /** It is a history: every frame is a pair in its place or a fill frame. */
  lemma {:induction false} LaidByIsHistory(format: Format, keepAlive: bool, noise: nat -> nat, start: Laying,
                                           buffer: seq<uint8>, results: seq<ReadResult>)
    requires |buffer| == SAMPLES_SIZE && AllFit(format, results)
    ensures History(format, keepAlive, start.hist, buffer, results,
                    LaidBy(format, keepAlive, noise, start, buffer, results).hist)
  {
    hide FillsOnto, PairIn, Fails, BufferAfter, FillAdded;
    BufferSize(format, buffer, results);
    if |results| > 0 {
      var front, last := results[..|results| - 1], results[|results| - 1];
      LaidByIsHistory(format, keepAlive, noise, start, buffer, front);
      var middle := LaidBy(format, keepAlive, noise, start, buffer, front);
      FillsOntoAdds(keepAlive, noise, middle);
      assert OneMore(format, keepAlive, last, BufferAfter(buffer, results), middle.hist,
                     LaidBy(format, keepAlive, noise, start, buffer, results).hist);
    }
  }

  lemma LaidBySnoc(format: Format, keepAlive: bool, noise: nat -> nat, start: Laying, buffer: seq<uint8>,
                   results: seq<ReadResult>, r: ReadResult)
    requires |buffer| == SAMPLES_SIZE && AllFit(format, results) && Fits(format, r)
    ensures AllFit(format, results + [r]) && |Landed(BufferAfter(buffer, results), r)| == SAMPLES_SIZE
    ensures LaidBy(format, keepAlive, noise, start, buffer, results + [r])
         == Adds(format, keepAlive, noise, r, Landed(BufferAfter(buffer, results), r),
                 LaidBy(format, keepAlive, noise, start, buffer, results))
  {
    hide Adds, Landed, BufferAfter;
    BufferSize(format, buffer, results + [r]);
    BufferAfterSnoc(buffer, results, r);
    assert (results + [r])[..|results|] == results;
  }

  /** What a read adds to the frames encoded, the sample buffer then being held. */
  ghost predicate OneMore(format: Format, keepAlive: bool, r: ReadResult, held: seq<uint8>,
                          before: seq<Pcm>, after: seq<Pcm>)
    requires |held| == SAMPLES_SIZE
  {
    if Fails(format, r) then FillAdded(keepAlive, before, after) else after == before + [PairIn(format, held)]
  }

  /** The frames a read loop leaves encoded, given those before it: for each read in turn the pair then in
      the sample buffer, or a fill. */
  ghost predicate History(format: Format, keepAlive: bool, before: seq<Pcm>, buffer: seq<uint8>,
                          results: seq<ReadResult>, after: seq<Pcm>)
    requires |buffer| == SAMPLES_SIZE && AllFit(format, results)
    decreases |results|
  {
    BufferSize(format, buffer, results);
    if |results| == 0 then after == before
    else
      var front, last := results[..|results| - 1], results[|results| - 1];
      exists middle :: History(format, keepAlive, before, buffer, front, middle)
                       && OneMore(format, keepAlive, last, BufferAfter(buffer, results), middle, after)
  }

  /** All reads of the loop so far, which began at start. */
  ghost predicate ReadsEffect(format: Format, keepAlive: bool, noise: nat -> nat, script: seq<ReadResult>,
                              start: Moment, m: Moment)
  {
    && start.next <= m.next <= |script| && m.eof == Ended(script[..m.next])
    && LoopEnd(script, start.next) == LoopEnd(script, m.next)
    && |start.samples| == SAMPLES_SIZE && AllFit(format, script[start.next..m.next])
    && var results := script[start.next..m.next];
       && m.samples == BufferAfter(start.samples, results)
       && m.input == start.input + LoopPairs(format, start.samples, results)
       && m.epoch == start.epoch + Underruns(format, results)
       && Laying(m.hist, m.draws)
       == LaidBy(format, keepAlive, noise, Laying(start.hist, start.draws), start.samples, results)
  }

  lemma LandedSize(format: Format, buffer: seq<uint8>, r: ReadResult)
    requires |buffer| == SAMPLES_SIZE && Fits(format, r)
    ensures |r.bytes| <= SAMPLES_SIZE == |Landed(buffer, r)|
  {
  }

  lemma FitsAt(format: Format, script: seq<ReadResult>, i: nat)
    requires AllFit(format, script) && i < |script|
    ensures Fits(format, script[i])
  {
  }

  /** How many frames are encoded once a loop that began with n has made these reads. */
  function FramesAfter(format: Format, results: seq<ReadResult>, n: nat): nat {
    if |results| == 0 then n
    else
      var m := FramesAfter(format, results[..|results| - 1], n);
      if Fails(format, results[|results| - 1]) then BufferEnd(m) + RING_FRAMES else m + 1
  }

  /** The history has exactly those frames, and the earlier ones come first. */
  lemma {:induction false} HistoryLength(format: Format, keepAlive: bool, before: seq<Pcm>, buffer: seq<uint8>,
                                         results: seq<ReadResult>, after: seq<Pcm>)
    requires |buffer| == SAMPLES_SIZE && AllFit(format, results)
    requires History(format, keepAlive, before, buffer, results, after)
    ensures before <= after && |after| == FramesAfter(format, results, |before|)
  {
    hide Fails, PairIn, BufferAfter, IsFill, BufferEnd;
    if |results| > 0 {
      var front, last := results[..|results| - 1], results[|results| - 1];
      BufferSize(format, buffer, results);
      var middle :| History(format, keepAlive, before, buffer, front, middle)
                    && OneMore(format, keepAlive, last, BufferAfter(buffer, results), middle, after);
      HistoryLength(format, keepAlive, before, buffer, front, middle);
    }
  }

  /** Without keep-alive noise the reads determine the history. */
  lemma {:induction false} SilentHistory(format: Format, before: seq<Pcm>, buffer: seq<uint8>,
                                         results: seq<ReadResult>, a: seq<Pcm>, b: seq<Pcm>)
    requires |buffer| == SAMPLES_SIZE && AllFit(format, results)
    requires History(format, false, before, buffer, results, a) && History(format, false, before, buffer, results, b)
    ensures a == b
  {
    hide Fails, PairIn, BufferAfter, BufferEnd;
    if |results| > 0 {
      var front, last := results[..|results| - 1], results[|results| - 1];
      BufferSize(format, buffer, results);
      var held := BufferAfter(buffer, results);
      var x :| History(format, false, before, buffer, front, x) && OneMore(format, false, last, held, x, a);
      var y :| History(format, false, before, buffer, front, y) && OneMore(format, false, last, held, y, b);
      SilentHistory(format, before, buffer, front, x, y);
      if Fails(format, last) {
        SilentFill(x, a, b);
      }
    }
  }

  lemma SilentFill(before: seq<Pcm>, a: seq<Pcm>, b: seq<Pcm>)
    requires FillAdded(false, before, a) && FillAdded(false, before, b)
    ensures a == b
  {
    hide BufferEnd;
    forall i | 0 <= i < |a|
      ensures a[i] == b[i]
    {
      if i < |before| {
        assert a[i] == before[i] == b[i];
      } else {
        assert IsFill(false, a[i]) && IsFill(false, b[i]);
      }
    }
  }

  lemma LoopStops(format: Format, keepAlive: bool, noise: nat -> nat, script: seq<ReadResult>, start: Moment, m: Moment)
    requires ReadsEffect(format, keepAlive, noise, script, start, m) && (m.eof || m.next == |script|)
    ensures LoopEnd(script, start.next) == m.next
  {
    hide LoopPairs, Underruns, LaidBy;
  }

  lemma StartOfLoop(format: Format, keepAlive: bool, noise: nat -> nat, script: seq<ReadResult>, start: Moment)
    requires start.next <= |script| && |start.samples| == SAMPLES_SIZE && start.eof == Ended(script[..start.next])
    ensures ReadsEffect(format, keepAlive, noise, script, start, start)
  {
  }

  /** One more read of the loop. */
  lemma NextRead(format: Format, keepAlive: bool, noise: nat -> nat, script: seq<ReadResult>, start: Moment, m: Moment,
                 after: Moment)
    requires AllFit(format, script) && !m.eof && m.next < |script|
    requires ReadsEffect(format, keepAlive, noise, script, start, m)
    requires ReadEffect(format, keepAlive, noise, script[m.next], m, after)
    ensures ReadsEffect(format, keepAlive, noise, script, start, after)
  {
    hide LoopPairs, BufferAfter, Landed, PairIn, Underruns, Fails, LaidBy, Adds;
    var results, r := script[start.next..m.next], script[m.next];
    assert script[..m.next + 1] == script[..m.next] + [r];
    assert script[start.next..m.next + 1] == results + [r];
    UnderrunsSnoc(format, results, r);
    EndedSnoc(script[..m.next], r);
    BufferAfterSnoc(start.samples, results, r);
    LoopPairsSnoc(format, start.samples, results, r);
    LaidBySnoc(format, keepAlive, noise, Laying(start.hist, start.draws), start.samples, results, r);
  }

  /** Fill samples fit every format. */
  lemma RepresentableFill(format: Format, keepAlive: bool, before: seq<Pcm>, after: seq<Pcm>)
    requires AllRepresentable(format, before) && Filled(keepAlive, before, after)
    ensures AllRepresentable(format, after)
  {
    forall i | 0 <= i < |after|
      ensures PcmRepresentable(format, after[i])
    {
      if i < |before| {
        assert after[i] == before[i];
      } else {
        assert IsFill(keepAlive, after[i]);
      }
    }
  }

  /** The epoch the read loop starts in: that of a full ring, or one for each buffer a short preload filled. */
  function StartEpoch(format: Format, script: seq<ReadResult>): nat {
    Accepted(format, script, 0) / BUFFER_SIZE % BUFFER_COUNT
  }

  /** The failed reads of the program's read loop. */
  function ProgramUnderruns(format: Format, script: seq<ReadResult>): nat {
    var consumed := Consumed(format, script);
    Underruns(format, script[consumed..LoopEnd(script, consumed)])
  }

  lemma PartsFit(format: Format, script: seq<ReadResult>, i: nat, j: nat, k: nat)
    requires AllFit(format, script) && i <= |script| && j <= k <= |script|
    ensures AllFit(format, script[..i]) && AllFit(format, script[..j]) && AllFit(format, script[j..k])
  {
    hide Fits;
  }

  /** The whole history of the program: the pairs of the preload, then for each read of the loop
      its pair or a fill. */
  ghost predicate ProgramHistory(format: Format, keepAlive: bool, script: seq<ReadResult>, hist: seq<Pcm>)
    requires AllFit(format, script)
  {
    var accepted, consumed := Accepted(format, script, 0), Consumed(format, script);
    PartsFit(format, script, accepted, consumed, LoopEnd(script, consumed));
    BufferSize(format, ZEROED, script[..consumed]);
    History(format, keepAlive, PreloadPairs(format, ZEROED, script[..accepted]),
            BufferAfter(ZEROED, script[..consumed]), script[consumed..LoopEnd(script, consumed)], hist)
  }

  /** The same with the values of rand() the fills are made of: the script and those determine it. */
  function ProgramLaying(format: Format, keepAlive: bool, noise: nat -> nat, script: seq<ReadResult>): Laying
    requires AllFit(format, script)
  {
    var accepted, consumed := Accepted(format, script, 0), Consumed(format, script);
    PartsFit(format, script, accepted, consumed, LoopEnd(script, consumed));
    BufferSize(format, ZEROED, script[..consumed]);
    LaidBy(format, keepAlive, noise, Laying(PreloadPairs(format, ZEROED, script[..accepted]), 0),
           BufferAfter(ZEROED, script[..consumed]), script[consumed..LoopEnd(script, consumed)])
  }

  /** The last access starts the engine. */
  predicate EndsWithStart(ops: seq<Op>) {
    |ops| > 0 && ops[|ops| - 1] == Start
  }

  /** The whole program on a script of reads, against any fair engine: every memory access it
      makes is a run of the writer, the input frames among those it encodes are the pairs
      the script accounts for, and the fills stand where reads failed. */
  method Transmit(format: Format, script: seq<ReadResult>, schedule: nat -> nat, noise: nat -> nat, keepAlive: bool)
    returns (r: Raspdif)
    requires AllFit(format, script) && Fair(schedule)
    ensures r.Valid() && r.format == format
    ensures AllRepresentable(format, r.sys.hist)
    ensures InputFrames(r.ops) == ProgramPairs(format, script)
    ensures ProgramHistory(format, keepAlive, script, r.sys.hist)
    ensures Laying(r.sys.hist, r.draws) == ProgramLaying(format, keepAlive, noise, script)
    ensures r.schedule == schedule && r.noise == noise && |r.ops| > 0 && !r.ops[|r.ops| - 1].Poll?
    ensures r.sys.ctl.epoch == StartEpoch(format, script) + ProgramUnderruns(format, script)
    ensures EndedInPreload(format, script) ==> EndsWithStart(r.ops)
  {
    hide Effect, KeepsTemplates, Run, PutFrame, LoopPairs, BufferAfter, Landed, Ended, LeavesAt, PowerOn, History,
         LaidBy, Answered, TakesFirst, ReadsUpTo, ReadsEffect, PreloadPairs, Accepted, Underruns, LoopEnd, InputFrames;
    r := new Raspdif(format, schedule, noise);
    var file := new InputFile(script);
    var samples := new uint8[SAMPLES_SIZE](_ => 0);
    assert samples[..] == ZEROED;
    NothingYet(format);
    r.PreloadBuffers(file, samples);
    r.Mark(Start);
    ghost var start := r.Now(file, samples);
    r.ReadLoop(file, samples, keepAlive);
    ProgramEnds(format, keepAlive, noise, script, start, r.Now(file, samples));
  }

  /** Where the preload leaves off. */
  ghost predicate Preloaded(format: Format, script: seq<ReadResult>, m: Moment)
    requires AllFit(format, script)
  {
    var accepted, consumed := Accepted(format, script, 0), Consumed(format, script);
    PartsFit(format, script, accepted, consumed, LoopEnd(script, consumed));
    && m.next == consumed && m.samples == BufferAfter(ZEROED, script[..consumed])
    && m.input == m.hist == PreloadPairs(format, ZEROED, script[..accepted]) && m.draws == 0
    && m.epoch == StartEpoch(format, script)
  }

  lemma ProgramEnds(format: Format, keepAlive: bool, noise: nat -> nat, script: seq<ReadResult>, start: Moment,
                    m: Moment)
    requires AllFit(format, script) && Preloaded(format, script, start)
    requires ReadsEffect(format, keepAlive, noise, script, start, m) && m.next == LoopEnd(script, start.next)
    ensures m.input == ProgramPairs(format, script) && ProgramHistory(format, keepAlive, script, m.hist)
    ensures Laying(m.hist, m.draws) == ProgramLaying(format, keepAlive, noise, script)
    ensures m.epoch == StartEpoch(format, script) + ProgramUnderruns(format, script)
  {
    hide PreloadPairs, LoopPairs, LaidBy, History, BufferAfter, Underruns, Accepted, Ended, LoopEnd, StartEpoch,
         Consumed, Fits;
    LaidByIsHistory(format, keepAlive, noise, Laying(start.hist, start.draws), start.samples,
                    script[start.next..m.next]);
  }

  lemma NothingYet(format: Format)
    ensures InputFrames([]) == [] && PowerOn().ctl == BEGIN && PowerOn().hist == [] && AllRepresentable(format, [])
  {
  }

  lemma StartOfScript(format: Format, script: seq<ReadResult>)
    ensures AllFit(format, script[..0]) && !Ended(script[..0]) && BufferAfter(ZEROED, script[..0]) == ZEROED
    ensures PreloadPairs(format, ZEROED, script[..0]) == []
    ensures AllRepresentable(format, [])
  {
  }

  /** What one more read does to the prefix consumed. */
  lemma ReadNext(format: Format, script: seq<ReadResult>, i: nat)
    requires i < |script| && AllFit(format, script)
    ensures script[..i + 1] == script[..i] + [script[i]]
    ensures Fits(format, script[i]) && |script[i].bytes| <= SAMPLES_SIZE && AllFit(format, script[..i])
    ensures Ended(script[..i + 1]) == (Ended(script[..i]) || script[i].eof)
    ensures BufferAfter(ZEROED, script[..i + 1]) == Landed(BufferAfter(ZEROED, script[..i]), script[i])
  {
    assert script[..i + 1] == script[..i] + [script[i]];
    EndedSnoc(script[..i], script[i]);
    BufferAfterSnoc(ZEROED, script[..i], script[i]);
  }

  lemma RepresentableSnoc(format: Format, hist: seq<Pcm>, pcm: Pcm)
    requires AllRepresentable(format, hist) && PcmRepresentable(format, pcm)
    ensures AllRepresentable(format, hist + [pcm])
  {
  }

  lemma LoopStep(c: Ctl, pcm: Pcm)
    requires c.mode.Main?
    ensures AfterFrame(c, pcm).mode == Main(false) && AfterFrame(c, pcm).epoch == c.epoch
    ensures AfterFrame(c, pcm).buffer == if (c.n + 1) % BUFFER_SIZE == 0 then NextBuffer(c.buffer) else c.buffer
  {
  }

  lemma PreloadStep(c: Ctl, pcm: Pcm)
    requires c.mode == Preload && c.part == 0
    ensures AfterFrame(c, pcm).mode == Preload
    ensures AfterFrame(c, pcm).buffer == c.buffer + if (c.n + 1) % BUFFER_SIZE == 0 then 1 else 0
  {
  }

  /** How far a fill that began at c0 has come. */
  ghost predicate Progress(c0: Ctl, c: Ctl, fillCount: nat, index: nat) {
    && c.n == BufferEnd(c0.n) + BUFFER_SIZE * fillCount && c.n % BUFFER_SIZE == 0
    && c.primed == c0.primed && c.part == 0
    && if fillCount < BUFFER_COUNT
       then c.mode == Wait(fillCount) && c.buffer == index && c.home == c0.buffer && c.epoch == c0.epoch
       else c.mode == Main(false) && c.buffer == c0.buffer && c.epoch == c0.epoch + 1 && c.base == c.n
  }

  lemma RestIsHome(c: Ctl)
    requires Ok(c) && c.mode.Rest?
    ensures c.home == c.buffer < BUFFER_COUNT
  {
  }

  lemma RestDone(c: Ctl, pcm: Pcm)
    requires c.mode.Rest? && c.home == c.buffer
    ensures Progress(c, BufferDone(c, pcm), 0, NextBuffer(c.buffer))
  {
    StepsInBuffer(c, BufferEnd(c.n) - 1);
  }

  lemma WaitingAt(c0: Ctl, c: Ctl, fillCount: nat, index: nat)
    requires Progress(c0, c, fillCount, index) && fillCount < BUFFER_COUNT
    ensures c.mode == Wait(fillCount) && c.buffer == index
  {
  }

  lemma RefillDone(c0: Ctl, c: Ctl, count: nat, index: nat, pcm: Pcm)
    requires Progress(c0, c, count, index) && count < BUFFER_COUNT
    ensures Progress(c0, BufferDone(c.(mode := Refill(count)), pcm), count + 1, NextBuffer(index))
  {
    StepsInBuffer(c, BufferEnd(c.n) - 1);
  }

  lemma FillEnds(c0: Ctl, c: Ctl, index: nat)
    requires Progress(c0, c, BUFFER_COUNT, index)
    ensures c.n == BufferEnd(c0.n) + RING_FRAMES && c.primed == c0.primed
    ensures c.mode == Main(false) && c.buffer == c0.buffer && c.epoch == c0.epoch + 1 && c.base == c.n
  {
  }

  lemma FillStep(c0: Ctl, c: Ctl, pcm: Pcm)
    requires c0.part == 0 && (c0.mode.Rest? || c0.mode.Refill?)
    requires c == c0.(n := c.n, pcm := c.pcm) && c0.n <= c.n < BufferEnd(c0.n)
    ensures (c.n + 1) % BUFFER_SIZE == 0 <==> c.n + 1 == BufferEnd(c0.n)
    ensures AfterFrame(c, pcm)
         == if c.n + 1 == BufferEnd(c0.n) then BufferDone(c0, pcm) else c0.(n := c.n + 1, pcm := pcm)
    ensures AfterFrame(c, pcm).pcm == pcm
  {
    StepsInBuffer(c0, c.n);
  }

  /** The frame count at the end of the buffer the n-th frame goes to. */
  function BufferEnd(n: nat): (end: nat)
    ensures end > n
  {
    n + BUFFER_SIZE - n % BUFFER_SIZE
  }

  /** The control state when a fill has reached the end of its buffer. */
  function BufferDone(c: Ctl, pcm: Pcm): Ctl {
    FrameDone(c.(n := BufferEnd(c.n) - 1, pcm := pcm))
  }

  lemma StepsInBuffer(c: Ctl, n: nat)
    requires c.n <= n < BufferEnd(c.n)
    ensures (n + 1) % BUFFER_SIZE == 0 <==> n + 1 == BufferEnd(c.n)
  {
    var q, r := c.n / BUFFER_SIZE, c.n % BUFFER_SIZE;
    assert BufferEnd(c.n) == BUFFER_SIZE * (q + 1);
    if n + 1 < BufferEnd(c.n) {
      RemainderIs(n + 1, BUFFER_SIZE, q, n + 1 - BUFFER_SIZE * q);
    } else {
      RemainderIs(n + 1, BUFFER_SIZE, q + 1, 0);
    }
  }

  /** The block's subframes, carrying a frame in place, code as the frame's slots and stay templates. */
  lemma FrameCells(format: Format, frames: seq<Subframe>, i: nat, pcm: Pcm)
    requires KeepsTemplates(frames) && i < 192
    ensures |frames| == 384
    ensures var depth, slots := DepthOf(format), FrameSlots(format, i, pcm);
            var a, b := Carrying(frames[2 * i], depth, pcm.a), Carrying(frames[2 * i + 1], depth, pcm.b);
            && SubframeCells(if i == 0 then PreambleB else PreambleM, a.Payload()) == Cells(slots[0])
            && SubframeCells(PreambleW, b.Payload()) == Cells(slots[1])
            && KeepsTemplates(frames[2 * i := a][2 * i + 1 := b])
  {
    hide Carrying, Template, SubframeCells;
    CarryingKeepsTemplates(frames, i, DepthOf(format), pcm.a, pcm.b);
  }

  function UpperWord(code: uint64): uint32 {
    Pow2Widths();
    ShrBound(code, 32, 32);
    Shr(code, 32)
  }

  function LowerWord(code: uint64): uint32 {
    Pow2Widths();
    Low(code, 32)
  }

  /** The codes of a frame's two subframes, split, are its four words. */
  lemma StoredWords(format: Format, phase: nat, pcm: Pcm, codeA: uint64, codeB: uint64)
    requires phase < 192
    requires var slots := FrameSlots(format, phase, pcm);
             Bits(codeA, 64) == Cells(slots[0]) && Bits(codeB, 64) == Cells(slots[1])
    ensures FrameWords(format, phase, pcm) == [UpperWord(codeA), LowerWord(codeA), UpperWord(codeB), LowerWord(codeB)]
  {
    var slots := FrameSlots(format, phase, pcm);
    CodeSplits(codeA, slots[0]);
    CodeSplits(codeB, slots[1]);
  }
}
