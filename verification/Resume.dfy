/** The buffer a fill ends with, which the resumed read loop goes over: what a listener hears of it. */
module Resume {
  import opened BiphaseMark
  import opened SubframeCoder
  import opened Frames
  import opened RingArithmetic
  import opened Transport
  import opened Interleaving
  import opened BlockStructure
  import opened Places
  import opened Fifo

  /** Where word x of the resumed buffer is stored: n is the frame count at the end of the fill,
      epoch the one it starts. */
  function ResumedAddress(n: nat, epoch: nat, x: nat): (j: nat)
    ensures j < RING_WORDS
  {
    4 * Slot(n + x / 4, epoch) + x % 4
  }

  /** The words stored so far. */
  function Progressed(c: Ctl): nat {
    4 * c.n + c.part
  }

  /** Until the resumed loop stores word x its address holds the fill's word; from then on, later ones. */
  ghost predicate Pending(s: Sys, n: nat, epoch: nat, x: nat)
    requires Shaped(s)
  {
    && s.ctl.mode != Preload && s.ctl.n >= n
    && if Progressed(s.ctl) <= 4 * n + x
       then s.ctl.epoch == epoch && s.ctl.base == n && s.tag[ResumedAddress(n, epoch, x)] == n - BUFFER_SIZE + x / 4
       else s.tag[ResumedAddress(n, epoch, x)] >= n + x / 4
  }

  lemma FillIsPending(format: Format, b: Behaviour, k: nat, x: nat)
    requires IsRun(format, b) && EndsFill(b, k) && x < BUFFER_WORDS
    ensures var c := b.states[k + 1].ctl;
            c.n >= BUFFER_SIZE && Pending(b.states[k + 1], c.n, c.epoch, x)
  {
    FillLeavesOneEpoch(format, b, k);
    hide IsRun, Window, Uniform, Ok;
    var s, r := b.states[k], b.states[k + 1];
    var f := r.ctl.n - BUFFER_SIZE + x / 4;
    SlotOneBufferBack(f, s.ctl.epoch);
    WindowAt(r, f, x % 4, s.ctl.epoch, s.ctl.base);
  }

  /** Stores to other words of the buffer go elsewhere. */
  lemma OtherWord(n: nat, epoch: nat, x: nat, f: nat, part: nat)
    requires n <= f && part < 4 && 4 * f + part < 4 * n + x && x < BUFFER_WORDS
    ensures 4 * Slot(f, epoch) + part != ResumedAddress(n, epoch, x)
  {
    if Slot(f, epoch) == Slot(n + x / 4, epoch) {
      SlotShared(f, n + x / 4, epoch);
    }
    hide Slot;
  }

  lemma SameWord(n: nat, x: nat, f: nat, part: nat)
    requires part < 4 && 4 * f + part == 4 * n + x
    ensures f == n + x / 4 && part == x % 4
  {
  }

  /** No other fill ends before the resumed buffer is full. */
  lemma NoEarlyRewind(c: Ctl, op: Op)
    requires Ok(c) && c.mode != Preload && Step(c, op).Some? && c.n < c.base + BUFFER_SIZE
    ensures var d := Step(c, op).value; d.epoch == c.epoch && d.base == c.base
  {
    hide Slot;
    OffsetAdvance(c.n);
  }

  lemma StepProgresses(c: Ctl, op: Op)
    requires c.part < 4 && Step(c, op).Some? && c.mode != Preload
    ensures var d := Step(c, op).value;
            d.mode != Preload && d.n >= c.n && Progressed(d) == Progressed(c) + if op.Store? then 1 else 0
  {
  }

  lemma StoreKeepsPending(format: Format, s: Sys, pcm: Pcm, next: Ctl, n: nat, epoch: nat, x: nat)
    requires Shaped(s) && s.ctl.part < 4 && x < BUFFER_WORDS <= 4 * n && Pending(s, n, epoch, x)
    requires Address(s.ctl) == 4 * Slot(s.ctl.n, s.ctl.epoch) + s.ctl.part < RING_WORDS
    requires next.mode != Preload && next.n >= s.ctl.n && Progressed(next) == Progressed(s.ctl) + 1
    requires s.ctl.n < s.ctl.base + BUFFER_SIZE ==> next.epoch == s.ctl.epoch && next.base == s.ctl.base
    ensures Pending(Stored(format, s, pcm, next), n, epoch, x)
  {
    hide EncodedWord, Slot;
    var c := s.ctl;
    if Progressed(c) < 4 * n + x {
      OtherWord(n, epoch, x, c.n, c.part);
    } else if Progressed(c) == 4 * n + x {
      SameWord(n, x, c.n, c.part);
    }
  }

  lemma NextKeepsPending(format: Format, s: Sys, act: Act, n: nat, epoch: nat, x: nat)
    requires Inv(format, s) && Next(format, s, act).Some? && x < BUFFER_WORDS <= 4 * n && Pending(s, n, epoch, x)
    ensures Pending(Next(format, s, act).value, n, epoch, x)
  {
    hide AllHold, Window, Recent, EncodedWord, ResumedAddress;
    match act
    case Dma =>
    case Cpu(op) =>
      StepProgresses(s.ctl, op);
      if s.ctl.n < s.ctl.base + BUFFER_SIZE {
        NoEarlyRewind(s.ctl, op);
      }
      if op.Store? {
        AddressIsSlot(s.ctl);
        hide Ok, Step, MayStore, Address;
        StoreKeepsPending(format, s, op.pcm, Step(s.ctl, op).value, n, epoch, x);
      }
  }

  lemma {:induction false} RunPending(format: Format, b: Behaviour, k: nat, i: nat, x: nat)
    requires IsRun(format, b) && EndsFill(b, k) && k + 1 <= i < |b.states| && x < BUFFER_WORDS
    ensures var c := b.states[k + 1].ctl;
            c.n >= BUFFER_SIZE && Pending(b.states[i], c.n, c.epoch, x)
    decreases i
  {
    hide Inv, Next, Pending, EndsFill;
    if i == k + 1 {
      FillIsPending(format, b, k, x);
    } else {
      var c := b.states[k + 1].ctl;
      RunPending(format, b, k, i - 1, x);
      RunInv(format, b, i - 1);
      assert Next(format, b.states[i - 1], b.acts[i - 1]) == Some(b.states[i]);
      NextKeepsPending(format, b.states[i - 1], b.acts[i - 1], c.n, c.epoch, x);
    }
  }

  /** The first word of the last buffer of the fill that act k ends. */
  function ResumedWord(c: Ctl): int {
    4 * Position(c)
  }

  /** Within the timing that buffer lies past the one the engine is in: none of it has been transmitted. */
  lemma FillEndUnheard(format: Format, b: Behaviour, k: nat)
    requires IsRun(format, b) && TimedTo(b, k) && EndsFill(b, k) && b.states[k].ctl.primed
    ensures Passed(|b.states[k + 1].out|, Laps(b, k)) <= ResumedWord(b.states[k + 1].ctl)
  {
    hide Next, Timely, Inv, Ahead, Laps;
    RunInv(format, b, k);
    TimedAhead(format, b, k);
    assert Next(format, b.states[k], b.acts[k]) == Some(b.states[k + 1]);
    LastStoreUnheard(format, b.states[k], b.acts[k], Laps(b, k));
  }

  lemma LastStoreUnheard(format: Format, s: Sys, act: Act, laps: nat)
    requires Inv(format, s) && Ahead(s.ctl, EngineAt(|s.out|, laps)) && Next(format, s, act).Some?
    requires act != Cpu(Start) && s.ctl.primed && Next(format, s, act).value.ctl.epoch != s.ctl.epoch
    ensures var r := Next(format, s, act).value; r.out == s.out && Passed(|r.out|, laps) <= ResumedWord(r.ctl)
  {
    hide AllHold, Window, Recent, EncodedWord, Slot, EngineAt;
    OnlyFillsRewind(s.ctl, act.op);
    PlacesAdvance(s.ctl);
    hide Covered, Ok;
    PassedWithin(|s.out|, laps);
    LastPlace(s.ctl.n, s.ctl.epoch, EngineAt(|s.out|, laps));
  }

  lemma LastPlace(n: nat, epoch: nat, d: int)
    requires BUFFER_SIZE * (d + 1) <= n - BUFFER_SIZE * epoch && (n + 1) % BUFFER_SIZE == 0
    ensures BUFFER_SIZE * (d + 2) <= n + 1 - BUFFER_SIZE * epoch
  {
  }

  /** After every fill, whatever the timing before and after, whenever the engine comes by the address of
      word x of the fill's last buffer: it reads the fill's word if and only if the resumed loop has not
      stored its own word x there yet; otherwise it reads that word, or a later one. */
  lemma FillHeardIff(format: Format, b: Behaviour, k: nat, j: nat, i: nat, x: nat, r: nat)
    requires IsRun(format, b) && EndsFill(b, k) && x < BUFFER_WORDS
    requires k + 1 <= j < i < |b.states| && ReadBy(b, j, r)
    requires r % RING_WORDS == ResumedAddress(b.states[k + 1].ctl.n, b.states[k + 1].ctl.epoch, x)
    ensures var c := b.states[k + 1].ctl;
            && r < |b.states[i].otag|
            && (b.states[i].otag[r] == c.n - BUFFER_SIZE + x / 4 <==> Progressed(b.states[j].ctl) <= 4 * c.n + x)
            && (b.states[i].otag[r] == c.n - BUFFER_SIZE + x / 4 || b.states[i].otag[r] >= c.n + x / 4)
  {
    hide IsRun, EndsFill;
    RunPending(format, b, k, j, x);
    ReadTag(format, b, j, i, r);
  }

  /** Word x of that buffer as the stream counts its words: first read after the fill's end, at that
      address. After a first fill without replays before it, it stands where a queue of all encoded words
      would have had the fill's word. */
  lemma FillWordInStream(format: Format, b: Behaviour, k: nat, j: nat, x: nat, r: int)
    requires IsRun(format, b) && TimedTo(b, k) && EndsFill(b, k) && b.states[k].ctl.primed && x < BUFFER_WORDS
    requires r == ResumedWord(b.states[k + 1].ctl) + RING_WORDS * Laps(b, k) + x && ReadBy(b, j, r)
    ensures var c := b.states[k + 1].ctl;
            && k + 1 <= j && r >= 0 && r % RING_WORDS == ResumedAddress(c.n, c.epoch, x)
            && (c.epoch == 1 && Laps(b, k) == 0 ==> c.n - BUFFER_SIZE + x / 4 == r / 4)
  {
    var c, laps := b.states[k + 1].ctl, Laps(b, k);
    FillEndUnheard(format, b, k);
    hide IsRun, TimedTo, Laps, ResumedWord, ResumedAddress;
    ReadLater(format, b, j, k + 1, r);
    StreamWord(c, x, laps, r);
  }

  lemma StreamWord(c: Ctl, x: nat, laps: nat, r: int)
    requires r == ResumedWord(c) + RING_WORDS * laps + x
    ensures r % RING_WORDS == ResumedAddress(c.n, c.epoch, x)
    ensures c.epoch == 1 && laps == 0 ==> c.n - BUFFER_SIZE + x / 4 == r / 4
  {
    hide ResumedAddress, ResumedWord;
    ResumedAddressRead(c, x, laps);
    if c.epoch == 1 && laps == 0 {
      FirstFillWord(c, x);
    }
  }

  /** A word the output does not have yet is read later. */
  lemma ReadLater(format: Format, b: Behaviour, j: nat, i: nat, r: int)
    requires IsRun(format, b) && ReadBy(b, j, r) && i < |b.states| && |b.states[i].out| <= r
    ensures i <= j
  {
    if j < i {
      OutputGrowsStrictly(format, b, j, i);
    }
  }

  lemma FirstFillWord(c: Ctl, x: nat)
    requires c.epoch == 1
    ensures (ResumedWord(c) + x) / 4 == c.n - BUFFER_SIZE + x / 4
  {
  }

  lemma OutputGrowsStrictly(format: Format, b: Behaviour, j: nat, i: nat)
    requires IsRun(format, b) && j < i < |b.states| && ReadBy(b, j, |b.states[j].out|)
    ensures |b.states[j].out| < |b.states[i].out|
  {
    hide Next;
    ReadTag(format, b, j, i, |b.states[j].out|);
  }

  lemma ResumedAddressRead(c: Ctl, x: nat, laps: nat)
    ensures (ResumedWord(c) + RING_WORDS * laps + x) % RING_WORDS == ResumedAddress(c.n, c.epoch, x)
  {
    var p := Position(c) + x / 4;
    SlotCongruent(c.n + x / 4, c.epoch);
    assert ResumedWord(c) + RING_WORDS * laps + x == 4 * p + RING_WORDS * laps + x % 4;
    RemainderIs(4 * p + RING_WORDS * laps + x % 4, RING_WORDS, p / RING_FRAMES + laps, 4 * (p % RING_FRAMES) + x % 4);
  }

  // ----- while the program waits for input -----

  lemma FillLeavesBetweenPairs(format: Format, b: Behaviour, k: nat)
    requires IsRun(format, b) && EndsFill(b, k)
    ensures BetweenPairs(b.states[k + 1].ctl)
  {
    FillLeavesOneEpoch(format, b, k);
    hide IsRun, EndsFill, Window, Uniform, Ok;
  }

  /** From the end of a fill on the program waits for input; however long the engine then replays the
      ring, a prompt run stays prompt. */
  lemma {:induction false} WaitIsPrompt(format: Format, b: Behaviour, k: nat, j: nat)
    requires IsRun(format, b) && EndsFill(b, k) && PromptTo(b, k + 1)
    requires k + 1 <= j <= |b.acts| && forall i :: k + 1 <= i < j ==> b.acts[i] == Dma
    ensures PromptTo(b, j) && b.states[j].ctl == b.states[k + 1].ctl
    decreases j
  {
    hide Next, Prompt, EndsFill, Laps;
    if j > k + 1 {
      WaitIsPrompt(format, b, k, j - 1);
      FillLeavesBetweenPairs(format, b, k);
      assert Next(format, b.states[j - 1], b.acts[j - 1]) == Some(b.states[j]);
      WaitStep(format, b.states[j - 1], Laps(b, j - 1));
    }
  }

  lemma WaitStep(format: Format, s: Sys, laps: nat)
    requires Shaped(s) && Next(format, s, Dma).Some? && BetweenPairs(s.ctl)
    ensures Prompt(s, Dma, laps) && Next(format, s, Dma).value.ctl == s.ctl
  {
    hide EncodedWord;
  }
}
