/** What reaches the wire in every interleaving, whatever the timing: block structure
    within and across underruns. */
module BlockStructure {
  import opened BiphaseMark
  import opened SubframeCoder
  import opened Frames
  import opened RingArithmetic
  import opened Transport
  import opened Interleaving

  /** At any moment i of any interleaving, word t of the m-th transmitted frame is that word of
      some encoded frame, whose place in the block is m shifted by 128 frames for every epoch
      before the word's own. */
  lemma TransmittedWord(format: Format, b: Behaviour, i: nat, m: nat, t: nat)
    requires IsRun(format, b) && i < |b.states| && b.states[i].ctl.primed
    requires t < 4 && 4 * m + t < |b.states[i].out|
    ensures var s, r := b.states[i], 4 * m + t;
            && 0 <= s.otag[r] < |s.hist|
            && s.out[r] == EncodedWord(format, s.otag[r], s.hist[s.otag[r]], t)
            && s.otag[r] % 192 == (m + 128 * s.oera[r]) % 192
            && s.oera[r] <= s.ctl.epoch
  {
    hide EncodedWord, Next;
    RunInv(format, b, i);
    var s, r := b.states[i], 4 * m + t;
    assert Holds(format, s.hist, r % RING_WORDS, s.out[r], s.otag[r], s.oera[r]);
    WordPlace(m, t);
    SlotPhase(s.otag[r], s.oera[r]);
    PhaseOfSlot(m, s.oera[r]);
  }

  /** Four words to a slot, 6144 slots to the ring. */
  lemma WordPlace(m: nat, t: nat)
    requires t < 4
    ensures (4 * m + t) % RING_WORDS / 4 == m % RING_FRAMES
    ensures (4 * m + t) % RING_WORDS % 4 == t
  {
    RemainderIs(4 * m + t, RING_WORDS, m / RING_FRAMES, 4 * (m % RING_FRAMES) + t);
  }

  /** 192 divides the ring. */
  lemma PhaseOfSlot(m: nat, epoch: nat)
    ensures (m % RING_FRAMES + 128 * epoch) % 192 == (m + 128 * epoch) % 192
  {
    var x := m + 128 * epoch;
    RemainderIs(m % RING_FRAMES + 128 * epoch, 192, x / 192 - 32 * (m / RING_FRAMES), x % 192);
  }

  /** The preambles of the m-th transmitted frame: block start or left, then right. Each is
      decided by the msb word alone, so it holds of frames torn between two writes too. */
  lemma TransmittedPreambles(format: Format, b: Behaviour, i: nat, m: nat, p: Preamble)
    requires IsRun(format, b) && i < |b.states| && b.states[i].ctl.primed
    requires 4 * m + 3 < |b.states[i].out|
    ensures var s := b.states[i];
            && (Opens(s.out[4 * m], p) <==> p == if (m + 128 * s.oera[4 * m]) % 192 == 0 then PreambleB else PreambleM)
            && (Opens(s.out[4 * m + 2], p) <==> p == PreambleW)
  {
    hide Opens, Next, FrameWords;
    var s := b.states[i];
    TransmittedWord(format, b, i, m, 0);
    TransmittedWord(format, b, i, m, 2);
    EncodedOpens(format, s.otag[4 * m], s.hist[s.otag[4 * m]], p);
    EncodedOpens(format, s.otag[4 * m + 2], s.hist[s.otag[4 * m + 2]], p);
  }

  lemma EncodedOpens(format: Format, n: nat, pcm: Pcm, p: Preamble)
    ensures Opens(EncodedWord(format, n, pcm, 0), p) <==> p == if n % 192 == 0 then PreambleB else PreambleM
    ensures Opens(EncodedWord(format, n, pcm, 2), p) <==> p == PreambleW
  {
    hide Opens;
    WordsOpen(format, n % 192, pcm, p);
  }

  /** That is, its first and third words start with the bytes 0xE8 or 0xE2, and 0xE4. */
  lemma TransmittedPreambleBytes(format: Format, b: Behaviour, i: nat, m: nat)
    requires IsRun(format, b) && i < |b.states| && b.states[i].ctl.primed
    requires 4 * m + 3 < |b.states[i].out| == |b.states[i].oera|
    ensures var s := b.states[i];
            && s.out[4 * m] / 0x100_0000 == (if (m + 128 * s.oera[4 * m]) % 192 == 0 then 0xE8 else 0xE2)
            && s.out[4 * m + 2] / 0x100_0000 == 0xE4
  {
    hide IsRun, Opens;
    var s := b.states[i];
    var p := if (m + 128 * s.oera[4 * m]) % 192 == 0 then PreambleB else PreambleM;
    TransmittedPreambles(format, b, i, m, p);
    TransmittedPreambles(format, b, i, m, PreambleW);
    OpensByte(s.out[4 * m], p);
    OpensByte(s.out[4 * m + 2], PreambleW);
  }

  /** Until the first fill has completed, a block starts every 192 frames and nowhere else,
      in every interleaving: with the engine lapping the writer or stalled, reads torn or not. */
  lemma TimingFreeBlocks(format: Format, b: Behaviour, i: nat, m: nat)
    requires IsRun(format, b) && i < |b.states| && b.states[i].ctl.primed && b.states[i].ctl.epoch == 0
    requires 4 * m + 3 < |b.states[i].out|
    ensures Opens(b.states[i].out[4 * m], if m % 192 == 0 then PreambleB else PreambleM)
    ensures m % 192 != 0 ==> !Opens(b.states[i].out[4 * m], PreambleB)
    ensures Opens(b.states[i].out[4 * m + 2], PreambleW)
  {
    hide Opens, Next, EncodedWord;
    TransmittedWord(format, b, i, m, 0);
    assert b.states[i].oera[4 * m] == 0;
    TransmittedPreambles(format, b, i, m, PreambleB);
    TransmittedPreambles(format, b, i, m, PreambleM);
    TransmittedPreambles(format, b, i, m, PreambleW);
  }

  // ----- after a fill -----

  /** Every word of the ring was written in epoch e. */
  ghost predicate Uniform(s: Sys, e: nat)
    requires Shaped(s)
  {
    forall j :: 0 <= j < RING_WORDS ==> s.tag[j] >= 0 && s.era[j] == e
  }

  /** Act k ends a fill: the epoch changes, and not because the engine is started. */
  ghost predicate EndsFill(b: Behaviour, k: nat) {
    && k + 1 < |b.states| && k < |b.acts| && b.acts[k] != Cpu(Start)
    && b.states[k + 1].ctl.epoch != b.states[k].ctl.epoch
  }

  /** The store that ends a fill leaves the whole ring in the fill's own epoch. */
  lemma FillLeavesOneEpoch(format: Format, b: Behaviour, k: nat)
    requires IsRun(format, b) && EndsFill(b, k)
    ensures var s, r := b.states[k], b.states[k + 1];
            && r.ctl.epoch == s.ctl.epoch + 1 && r.ctl.primed == s.ctl.primed
            && Uniform(r, s.ctl.epoch)
            && Ok(r.ctl) && r.ctl.mode == Main(false) && r.ctl.part == 0 && r.ctl.base == r.ctl.n >= RING_FRAMES
            && Window(r.tag, r.era, r.ctl.n, 0, s.ctl.epoch, s.ctl.base) && r.ctl.n >= s.ctl.base + RING_FRAMES
  {
    RunInv(format, b, k);
    hide Window, AllHold, Recent, Stored, Ok;
    var s, r, act := b.states[k], b.states[k + 1], b.acts[k];
    assert Next(format, s, act) == Some(r);
    OnlyFillsRewind(s.ctl, act.op);
    LastStoreOfFill(format, s, act.op.pcm);
    StepOk(s.ctl, act.op);
    assert r == Stored(format, s, act.op.pcm, FrameDone(s.ctl));
    FullWindowIsUniform(r, s.ctl.n + 1, s.ctl.epoch, s.ctl.base);
  }

  lemma FullWindowIsUniform(r: Sys, n: nat, epoch: nat, base: nat)
    requires Shaped(r) && n >= base + RING_FRAMES && Window(r.tag, r.era, n, 0, epoch, base)
    ensures Uniform(r, epoch)
  {
    hide Window;
    forall j | 0 <= j < RING_WORDS
      ensures r.tag[j] >= 0 && r.era[j] == epoch
    {
      FullWindowUniform(r.tag, r.era, n, epoch, base, j);
    }
  }

  lemma OnlyFillsRewind(c: Ctl, op: Op)
    requires Step(c, op).Some? && op != Start && Step(c, op).value.epoch != c.epoch
    ensures op.Store? && op.part == c.part == 3 && Step(c, op).value == FrameDone(c)
    ensures FrameDone(c).epoch == c.epoch + 1 && FrameDone(c).mode == Main(false) && FrameDone(c).base == c.n + 1
  {
  }

  lemma LastStoreOfFill(format: Format, s: Sys, pcm: Pcm)
    requires Inv(format, s) && s.ctl.part == 3 && Step(s.ctl, Store(3, pcm)).Some?
    requires FrameDone(s.ctl).epoch != s.ctl.epoch
    ensures Address(s.ctl) < RING_WORDS
    ensures var c, r := s.ctl, Stored(format, s, pcm, FrameDone(s.ctl));
            c.n + 1 >= c.base + RING_FRAMES && r.ctl.part == 0 && r.ctl.n == c.n + 1 && r.ctl.primed == c.primed
            && Window(r.tag, r.era, c.n + 1, 0, c.epoch, c.base)
  {
    hide AllHold, EncodedWord, Slot, Window;
    var c, next := s.ctl, FrameDone(s.ctl);
    StoreKeepsPlacement(format, s, pcm, next);
    var r := Stored(format, s, pcm, next);
    CompleteKeepsWindow(r.tag, r.era, c.n, c.epoch, c.base);
    OffsetAdvance(c.n);
  }

  /** From act k up to act j the writer only polls. */
  ghost predicate Idle(b: Behaviour, k: nat, j: nat) {
    j <= |b.acts| && forall i :: k <= i < j ==> Waits(b.acts[i])
  }

  predicate Waits(act: Act) {
    act == Dma || (act.Cpu? && act.op.Poll?)
  }

  /** While the writer idles the engine replays the same words. */
  lemma {:induction false} IdleReplays(format: Format, b: Behaviour, k: nat, j: nat, e: nat)
    requires IsRun(format, b) && k <= j && Idle(b, k, j)
    ensures var s, r := b.states[k], b.states[j];
            && r.mem == s.mem && r.tag == s.tag && r.era == s.era && r.ctl.primed == s.ctl.primed
            && s.oera <= r.oera
            && (Uniform(s, e) ==> Uniform(r, e) && forall i :: |s.out| <= i < |r.out| ==> r.oera[i] == e)
    decreases j - k
  {
    hide Next, Uniform;
    if k < j {
      IdleReplays(format, b, k, j - 1, e);
      assert Next(format, b.states[j - 1], b.acts[j - 1]) == Some(b.states[j]);
      IdleStep(format, b.states[j - 1], b.acts[j - 1], e);
    }
  }

  lemma IdleStep(format: Format, s: Sys, act: Act, e: nat)
    requires Shaped(s) && Next(format, s, act).Some? && Waits(act)
    ensures var r := Next(format, s, act).value;
            && r.mem == s.mem && r.tag == s.tag && r.era == s.era && r.ctl.primed == s.ctl.primed
            && s.oera <= r.oera
            && (Uniform(s, e) ==> Uniform(r, e) && forall i :: |s.out| <= i < |r.out| ==> r.oera[i] == e)
  {
    hide EncodedWord;
  }

  /** From the end of a fill until the read loop stores again, however long the engine
      replays the ring, a block starts exactly every 192 frames. */
  lemma FillReplaysSeamlessly(format: Format, b: Behaviour, k: nat, j: nat, m: nat)
    requires IsRun(format, b) && EndsFill(b, k) && b.states[k].ctl.primed
    requires k + 1 <= j && Idle(b, k + 1, j)
    requires |b.states[k + 1].out| <= 4 * m && 4 * m + 3 < |b.states[j].out|
    ensures Opens(b.states[j].out[4 * m], PreambleB) <==> (m + 128 * b.states[k].ctl.epoch) % 192 == 0
  {
    hide Opens, Window, Next, Ok;
    FillLeavesOneEpoch(format, b, k);
    IdleReplays(format, b, k + 1, j, b.states[k].ctl.epoch);
    TransmittedPreambles(format, b, j, m, PreambleB);
  }

  /** The read loop's first frame after a fill replaces, in the ring, the frame encoded 2048 frames
      earlier, which stands 128 places back in the block. */
  lemma ResumeJumps128(format: Format, b: Behaviour, k: nat, t: nat)
    requires IsRun(format, b) && EndsFill(b, k) && t < 4
    ensures var r := b.states[k + 1];
            var j := Address(r.ctl) + t;
            && j < RING_WORDS
            && 0 <= r.tag[j] == r.ctl.n - BUFFER_SIZE < |r.hist|
            && r.mem[j] == EncodedWord(format, r.tag[j], r.hist[r.tag[j]], t)
            && r.ctl.n % 192 == (r.tag[j] + 128) % 192
  {
    hide IsRun, Inv, Window, Address, EncodedWord;
    FillLeft(format, b, k);
    ReplacedWord(format, b.states[k + 1], b.states[k].ctl.epoch, b.states[k].ctl.base, t);
  }

  lemma FillLeft(format: Format, b: Behaviour, k: nat)
    requires IsRun(format, b) && EndsFill(b, k)
    ensures var s, r := b.states[k], b.states[k + 1];
            && Shaped(r) && Inv(format, r)
            && r.ctl.mode == Main(false) && r.ctl.part == 0 && r.ctl.epoch == s.ctl.epoch + 1
            && Window(r.tag, r.era, r.ctl.n, 0, s.ctl.epoch, s.ctl.base) && r.ctl.n >= s.ctl.base + RING_FRAMES
  {
    FillLeavesOneEpoch(format, b, k);
    RunInv(format, b, k + 1);
    hide *;
  }

  lemma ReplacedWord(format: Format, r: Sys, epoch: nat, base: nat, t: nat)
    requires Shaped(r) && Inv(format, r) && t < 4
    requires r.ctl.mode == Main(false) && r.ctl.part == 0 && r.ctl.epoch == epoch + 1
    requires Window(r.tag, r.era, r.ctl.n, 0, epoch, base) && r.ctl.n >= base + RING_FRAMES
    ensures var j := Address(r.ctl) + t;
            && j < RING_WORDS
            && 0 <= r.tag[j] == r.ctl.n - BUFFER_SIZE < |r.hist|
            && r.mem[j] == EncodedWord(format, r.tag[j], r.hist[r.tag[j]], t)
            && r.ctl.n % 192 == (r.tag[j] + 128) % 192
  {
    hide Window, Inv, Address, EncodedWord, Slot;
    var f := r.ctl.n - BUFFER_SIZE;
    AddressOf(format, r, f, epoch);
    WindowAt(r, f, t, epoch, base);
    HeldWord(format, r, Slot(f, epoch), t);
    JumpBack(f);
  }

  lemma AddressOf(format: Format, r: Sys, f: nat, epoch: nat)
    requires Inv(format, r) && r.ctl.mode == Main(false) && r.ctl.part == 0
    requires r.ctl.n == f + BUFFER_SIZE && r.ctl.epoch == epoch + 1
    ensures Address(r.ctl) == 4 * Slot(f, epoch)
  {
    hide AllHold, Window, Recent, Slot;
    SlotOneBufferBack(f, epoch);
  }

  lemma HeldWord(format: Format, s: Sys, slot: nat, t: nat)
    requires Inv(format, s) && slot < RING_FRAMES && t < 4 && s.tag[4 * slot + t] >= 0
    ensures var j := 4 * slot + t;
            s.tag[j] < |s.hist| && s.mem[j] == EncodedWord(format, s.tag[j], s.hist[s.tag[j]], t)
  {
    var j := 4 * slot + t;
    hide Window, EncodedWord, Slot, Recent, Ok;
    assert Holds(format, s.hist, j % RING_WORDS, s.mem[j], s.tag[j], s.era[j]);
    assert j % 4 == t;
  }

  lemma JumpBack(f: nat)
    ensures (f + BUFFER_SIZE) % 192 == (f + 128) % 192
  {
    RemainderIs(f + BUFFER_SIZE, 192, (f + 128) / 192 + 10, (f + 128) % 192);
  }

  lemma WindowAt(r: Sys, f: nat, t: nat, epoch: nat, base: nat)
    requires Shaped(r) && Window(r.tag, r.era, r.ctl.n, 0, epoch, base)
    requires base <= f < r.ctl.n <= f + RING_FRAMES && t < 4
    ensures At(r.tag, r.era, Slot(f, epoch), t, f, epoch)
  {
  }

  lemma SlotOneBufferBack(f: nat, epoch: nat)
    ensures Slot(f + BUFFER_SIZE, epoch + 1) == Slot(f, epoch)
  {
    var x := f + 4096 * epoch;
    RemainderIs(x + RING_FRAMES, RING_FRAMES, x / RING_FRAMES + 1, x % RING_FRAMES);
  }

  /** Between consecutive transmitted frames m and m + 1 whose words are d epochs apart the block
      position advances by 1 + 128 * d modulo 192: the block is unbroken exactly when d is a
      multiple of three, whatever the timing and whichever frames the words belong to. */
  lemma NextFrameJumps(format: Format, b: Behaviour, i: nat, m: nat, t: nat, d: int)
    requires IsRun(format, b) && i < |b.states| && b.states[i].ctl.primed
    requires t < 4 && 4 * (m + 1) + t < |b.states[i].out| == |b.states[i].otag| == |b.states[i].oera|
    requires b.states[i].oera[4 * (m + 1) + t] == b.states[i].oera[4 * m + t] + d
    ensures var s := b.states[i];
            var here, next := s.otag[4 * m + t] % 192, s.otag[4 * (m + 1) + t] % 192;
            && next == (here + 1 + 128 * d) % 192
            && (next == (here + 1) % 192 <==> d % 3 == 0)
  {
    hide IsRun, EncodedWord;
    TransmittedWord(format, b, i, m, t);
    TransmittedWord(format, b, i, m + 1, t);
    var e := b.states[i].oera[4 * m + t];
    Advance(m + 128 * e, 1 + 128 * d);
    assert m + 128 * e + (1 + 128 * d) == m + 1 + 128 * (e + d);
    JumpOfThree(b.states[i].otag[4 * m + t] % 192 + 1, d);
  }

  lemma Advance(x: int, y: int)
    ensures (x % 192 + y) % 192 == (x + y) % 192
  {
    RemainderIs(x % 192 + y, 192, (x + y) / 192 - x / 192, (x + y) % 192);
  }

  lemma JumpOfThree(x: int, d: int)
    ensures (x + 128 * d) % 192 == x % 192 <==> d % 3 == 0
  {
    var q, k := d / 3, d % 3;
    var r := x % 192;
    assert x + 128 * d == (x / 192 + 2 * q) * 192 + r + 128 * k;
    if r + 128 * k < 192 {
      RemainderIs(x + 128 * d, 192, x / 192 + 2 * q, r + 128 * k);
    } else if r + 128 * k < 384 {
      RemainderIs(x + 128 * d, 192, x / 192 + 2 * q + 1, r + 128 * k - 192);
    } else {
      RemainderIs(x + 128 * d, 192, x / 192 + 2 * q + 2, r + 128 * k - 384);
    }
  }
}
