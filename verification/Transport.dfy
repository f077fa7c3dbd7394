/** The writer's control, one step per access it makes to shared memory:
    polls of the DMA engine, stores of words, and the two turning points of its run. */
module Transport {
  import opened BiphaseMark
  import opened Frames
  import opened RingArithmetic

  /** Preloading; the read loop, having seen the DMA elsewhere or not; filling the rest of
      the buffer an underrun left; waiting for, then filling, the count-th whole buffer. */
  datatype Mode = Preload | Main(granted: bool) | Rest | Wait(count: nat) | Refill(count: nat)

  /** n frames are complete and part words of the next are stored; home is the read loop's
      buffer index while a fill runs. epoch counts rewinds, base is n at the last one. */
  datatype Ctl = Ctl(mode: Mode, n: nat, buffer: nat, home: nat, part: nat, pcm: Pcm,
                     epoch: nat, base: nat, primed: bool)

  datatype Op =
    | Store(part: nat, pcm: Pcm)  // word number part of the frame being encoded
    | Poll(block: nat)            // the DMA's control block was read, before a pair or a buffer
    | Start                       // preload over, DMA enabled
    | Underrun                    // the read failed; fill the buffers

  const BEGIN := Ctl(Preload, 0, 0, 0, 0, SILENCE, 0, 0, false)

  predicate MayStore(c: Ctl) {
    match c.mode
    case Preload => c.buffer < BUFFER_COUNT
    case Main(granted) => granted
    case Rest => true
    case Wait(_) => false
    case Refill(_) => true
  }

  /** A read loop is storing. */
  predicate Reading(c: Ctl) {
    c.mode.Preload? || c.mode.Main?
  }

  /** The fourth word of a frame is in place. */
  function FrameDone(c: Ctl): Ctl {
    var d := c.(n := c.n + 1, part := 0);
    var full := (c.n + 1) % BUFFER_SIZE == 0;
    match c.mode
    case Preload => if full then d.(buffer := c.buffer + 1) else d
    case Main(_) => d.(mode := Main(false), buffer := if full then NextBuffer(c.buffer) else c.buffer)
    case Rest => if full then d.(mode := Wait(0), buffer := NextBuffer(c.buffer)) else d
    case Wait(_) => d
    case Refill(count) =>
      if !full then d
      else if count + 1 < BUFFER_COUNT then d.(mode := Wait(count + 1), buffer := NextBuffer(c.buffer))
      else d.(mode := Main(false), buffer := c.home, epoch := c.epoch + 1, base := c.n + 1)
  }

  /** One step of the writer; None if the program cannot take it. */
  function Step(c: Ctl, op: Op): Option<Ctl> {
    match op
    case Store(part, pcm) =>
      if !MayStore(c) || part != c.part || part >= 4 || (part > 0 && pcm != c.pcm) then None
      else if part < 3 then Some(c.(part := part + 1, pcm := pcm))
      else Some(FrameDone(c))
    case Poll(block) =>
      if c.part != 0 || block >= BUFFER_COUNT then None
      else (match c.mode
            case Main(granted) => if granted then None else Some(c.(mode := Main(block != c.buffer)))
            case Wait(count) => Some(if block == c.buffer then c else c.(mode := Refill(count)))
            case _ => None)
    case Start =>
      if c.mode != Preload || c.part != 0 then None
      else Some(c.(mode := Main(false), buffer := 0, epoch := c.buffer % BUFFER_COUNT,
                   base := if c.buffer % BUFFER_COUNT == 0 then 0 else c.n, primed := c.buffer == BUFFER_COUNT))
    case Underrun =>
      if c.mode != Main(true) || c.part != 0 then None
      else Some(c.(mode := Rest, home := c.buffer))
  }

  /** A whole run of the writer. */
  function Run(c: Ctl, ops: seq<Op>): Option<Ctl>
    decreases |ops|
  {
    if |ops| == 0 then Some(c)
    else match Run(c, ops[..|ops| - 1])
      case None => None
      case Some(d) => Step(d, ops[|ops| - 1])
  }

  /** What every reachable control state satisfies. */
  ghost predicate Ok(c: Ctl) {
    && c.part < 4
    && c.base <= c.n
    && (c.epoch == 0 ==> c.base == 0)
    && match c.mode
       case Preload => c.n <= RING_FRAMES && c.buffer == c.n / BUFFER_SIZE && c.epoch == 0 && c.base == 0 && !c.primed
                       && (c.n == RING_FRAMES ==> c.part == 0)
       case Main(_) => Aligned(c)
       case Rest => Aligned(c) && c.home == c.buffer
       case Wait(count) => Aligned(c) && Filling(c, count) && c.n % BUFFER_SIZE == 0 && c.part == 0
       case Refill(count) => Aligned(c) && Filling(c, count)
  }

  /** The write position is congruent to n - 2048 * epoch around the ring. */
  ghost predicate Aligned(c: Ctl) {
    && c.buffer < BUFFER_COUNT
    && BUFFER_SIZE * c.buffer + c.n % BUFFER_SIZE == Slot(c.n, c.epoch)
    && (c.primed ==> c.n >= RING_FRAMES && c.base % BUFFER_SIZE == 0
                     && (c.epoch > 0 ==> c.base >= BUFFER_SIZE * c.epoch + 2 * BUFFER_SIZE))
  }

  ghost predicate Filling(c: Ctl, count: nat) {
    && count < BUFFER_COUNT
    && c.home < BUFFER_COUNT
    && c.buffer == (c.home + 1 + count) % BUFFER_COUNT
    && c.n - c.base >= BUFFER_SIZE * count + c.n % BUFFER_SIZE
  }

  lemma DoneOk(c: Ctl)
    requires Ok(c) && MayStore(c) && c.part == 3
    ensures Ok(FrameDone(c))
  {
    OffsetAdvance(c.n);
    match c.mode
    case Preload => BufferCount(c.n);
    case Main(_) => SlotAdvance(c.n, c.epoch, c.buffer);
    case Rest => SlotAdvance(c.n, c.epoch, c.buffer);
    case Refill(count) => RefillDoneOk(c, count);
  }

  lemma BufferCount(n: nat)
    ensures (n + 1) / 2048 == n / 2048 + if (n + 1) % 2048 == 0 then 1 else 0
  {
  }

  lemma RefillDoneOk(c: Ctl, count: nat)
    requires Ok(c) && c.mode == Refill(count) && c.part == 3
    ensures Ok(FrameDone(c))
  {
    hide Slot;
    OffsetAdvance(c.n);
    SlotAdvance(c.n, c.epoch, c.buffer);
    if (c.n + 1) % BUFFER_SIZE == 0 && count == 2 {
      assert c.buffer == c.home;
      SlotRewind(c.n + 1, c.epoch, c.home);
    }
  }

  lemma StepOk(c: Ctl, op: Op)
    requires Ok(c) && Step(c, op).Some?
    ensures Ok(Step(c, op).value)
  {
    hide Slot;
    match op
    case Store(part, _) =>
      if part == 3 {
        DoneOk(c);
      }
    case Poll(_) =>
    case Start => StartOk(c);
    case Underrun =>
  }

  lemma StartOk(c: Ctl)
    requires Ok(c) && Step(c, Start).Some?
    ensures Ok(Step(c, Start).value)
  {
    if c.buffer < 3 {
      SlotRestart(c.n);
    } else {
      assert Slot(6144, 0) == 0;
    }
  }

  lemma {:induction false} RunOk(ops: seq<Op>)
    requires Run(BEGIN, ops).Some?
    ensures Ok(Run(BEGIN, ops).value)
  {
    if |ops| > 0 {
      RunOk(ops[..|ops| - 1]);
      StepOk(Run(BEGIN, ops[..|ops| - 1]).value, ops[|ops| - 1]);
    }
  }

  lemma RunSnoc(c: Ctl, ops: seq<Op>, op: Op)
    ensures Run(c, ops + [op]) == match Run(c, ops) case None => None case Some(d) => Step(d, op)
  {
    assert (ops + [op])[..|ops|] == ops;
  }

  /** In every run of the program the read loop's write position is congruent to
      n - 2048 * epoch, where epoch is the number of completed fills (and of buffers
      a preload that stopped short had filled). */
  lemma WritePosition(ops: seq<Op>)
    requires Run(BEGIN, ops).Some? && Run(BEGIN, ops).value.mode != Preload
    ensures var c := Run(BEGIN, ops).value;
            BUFFER_SIZE * c.buffer + c.n % BUFFER_SIZE == (c.n - BUFFER_SIZE * c.epoch) % RING_FRAMES
  {
    RunOk(ops);
    var c := Run(BEGIN, ops).value;
    SlotCongruent(c.n, c.epoch);
  }
}
