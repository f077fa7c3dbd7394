/** The writer and the DMA engine sharing the ring, one word at a time. The engine never
    waits for the writer: either may move at any moment, also between the words of a frame. */
module Interleaving {
  import opened Words
  import opened BiphaseMark
  import opened Frames
  import opened RingArithmetic
  import opened Transport

  datatype Act = Cpu(op: Op) | Dma

  /** The ring's words and what has been read of them so far. hist lists every frame encoded.
      tag and era are provenance: the frame each word belongs to (-1 if never written)
      and the epoch it was written in; otag and oera are the same for the words read. */
  datatype Sys = Sys(ctl: Ctl, hist: seq<Pcm>,
                     mem: seq<uint32>, tag: seq<int>, era: seq<nat>,
                     out: seq<uint32>, otag: seq<int>, oera: seq<nat>)

  predicate Shaped(s: Sys) {
    && |s.mem| == |s.tag| == |s.era| == RING_WORDS
    && |s.out| == |s.otag| == |s.oera|
  }

  /** Zeroed memory, nothing encoded, nothing read. */
  function PowerOn(): (s: Sys)
    ensures Shaped(s)
  {
    Sys(BEGIN, [], seq(RING_WORDS, _ => 0), seq(RING_WORDS, _ => -1), seq(RING_WORDS, _ => 0), [], [], [])
  }

  /** The word the writer is about to store, and where. */
  function Address(c: Ctl): nat {
    4 * (BUFFER_SIZE * c.buffer + c.n % BUFFER_SIZE) + c.part
  }

  function EncodedWord(format: Format, n: nat, pcm: Pcm, part: nat): uint32
    requires part < 4
  {
    FrameWords(format, n % 192, pcm)[part]
  }

  function Stored(format: Format, s: Sys, pcm: Pcm, next: Ctl): (r: Sys)
    requires Shaped(s) && s.ctl.part < 4 && Address(s.ctl) < RING_WORDS
    ensures Shaped(r) && r.ctl == next
  {
    var c, j := s.ctl, Address(s.ctl);
    s.(ctl := next,
       hist := if c.part == 0 then s.hist + [pcm] else s.hist,
       mem := s.mem[j := EncodedWord(format, c.n, pcm, c.part)],
       tag := s.tag[j := c.n],
       era := s.era[j := c.epoch])
  }

  function Read(s: Sys): (r: Sys)
    requires Shaped(s)
    ensures Shaped(r)
  {
    var j := |s.out| % RING_WORDS;
    s.(out := s.out + [s.mem[j]], otag := s.otag + [s.tag[j]], oera := s.oera + [s.era[j]])
  }

  /** One step of either party; None if it cannot happen. The engine is off until Start. */
  function Next(format: Format, s: Sys, act: Act): (r: Option<Sys>)
    requires Shaped(s)
    ensures r.Some? ==> Shaped(r.value)
  {
    match act
    case Dma => if s.ctl.mode == Preload then None else Some(Read(s))
    case Cpu(op) =>
      match Step(s.ctl, op)
      case None => None
      case Some(next) =>
        if !op.Store? then Some(s.(ctl := next))
        else if Address(s.ctl) >= RING_WORDS then None
        else Some(Stored(format, s, op.pcm, next))
  }

  /** A run of both: the acts, and the states before, between and after them. */
  datatype Behaviour = Behaviour(acts: seq<Act>, states: seq<Sys>)

  /** It starts at power on and every act takes one state to the next. */
  ghost predicate IsRun(format: Format, b: Behaviour) {
    && |b.states| == |b.acts| + 1
    && b.states[0] == PowerOn()
    && (forall i :: 0 <= i < |b.states| ==> Shaped(b.states[i]))
    && (forall i {:trigger Next(format, b.states[i], b.acts[i])} :: 0 <= i < |b.acts| ==>
          Next(format, b.states[i], b.acts[i]) == Some(b.states[i + 1]))
  }

  // ----- what every interleaving keeps -----

  /** A word of the ring: unwritten and zero, or the encoding of the tagged frame,
      which the era places in this slot. */
  ghost predicate Holds(format: Format, hist: seq<Pcm>, j: nat, word: uint32, tag: int, era: nat) {
    if tag < 0 then word == 0
    else
      && tag < |hist|
      && word == EncodedWord(format, tag, hist[tag], j % 4)
      && Slot(tag, era) == j / 4
  }

  ghost predicate Recorded(s: Sys) {
    && |s.hist| == s.ctl.n + (if s.ctl.part > 0 then 1 else 0)
    && (s.ctl.part > 0 ==> s.hist[s.ctl.n] == s.ctl.pcm)
  }

  ghost predicate AllHold(format: Format, hist: seq<Pcm>, words: seq<uint32>, tag: seq<int>, era: seq<nat>)
    requires |words| == |tag| == |era|
  {
    forall i :: 0 <= i < |words| ==> Holds(format, hist, i % RING_WORDS, words[i], tag[i], era[i])
  }

  ghost predicate At(tag: seq<int>, era: seq<nat>, slot: nat, t: nat, f: nat, epoch: nat)
    requires |tag| == |era| == RING_WORDS
  {
    slot < RING_FRAMES && t < 4 && tag[4 * slot + t] == f && era[4 * slot + t] == epoch
  }

  /** The frames encoded since base are where the epoch places them, up to one ring back;
      so are the stored words of the frame under way. */
  ghost predicate Window(tag: seq<int>, era: seq<nat>, n: nat, part: nat, epoch: nat, base: nat)
    requires |tag| == |era| == RING_WORDS
  {
    && (forall f: nat, t: nat :: base <= f < n && n + (if part > 0 then 1 else 0) <= f + RING_FRAMES && t < 4
          ==> At(tag, era, Slot(f, epoch), t, f, epoch))
    && (forall t: nat :: t < part ==> At(tag, era, Slot(n, epoch), t, n, epoch))
  }

  /** No word is from a later epoch; once primed every word is written and at most one epoch old. */
  ghost predicate Recent(tag: seq<int>, era: seq<nat>, epoch: nat, primed: bool)
    requires |tag| == |era|
  {
    forall j :: 0 <= j < |era| ==> era[j] <= epoch && (primed ==> tag[j] >= 0 && era[j] + 1 >= epoch)
  }

  ghost predicate OutputRecent(s: Sys)
    requires Shaped(s)
  {
    forall i :: 0 <= i < |s.out| ==> s.oera[i] <= s.ctl.epoch && (s.ctl.primed ==> s.otag[i] >= 0)
  }

  ghost predicate Inv(format: Format, s: Sys) {
    && Shaped(s) && Ok(s.ctl) && Recorded(s)
    && AllHold(format, s.hist, s.mem, s.tag, s.era)
    && AllHold(format, s.hist, s.out, s.otag, s.oera)
    && Window(s.tag, s.era, s.ctl.n, s.ctl.part, s.ctl.epoch, s.ctl.base)
    && Recent(s.tag, s.era, s.ctl.epoch, s.ctl.primed) && OutputRecent(s)
    && (s.ctl.mode == Preload ==> |s.out| == 0)
  }

  /** The writer's address is the slot of the frame under way: it never leaves the ring. */
  lemma AddressIsSlot(c: Ctl)
    requires Ok(c) && MayStore(c)
    ensures Address(c) == 4 * Slot(c.n, c.epoch) + c.part < RING_WORDS
  {
    if c.mode == Preload {
      assert Slot(c.n, 0) == c.n;
    }
  }

  lemma HoldLonger(format: Format, hist: seq<Pcm>, longer: seq<Pcm>, words: seq<uint32>, tag: seq<int>, era: seq<nat>)
    requires |words| == |tag| == |era| && AllHold(format, hist, words, tag, era) && hist <= longer
    ensures AllHold(format, longer, words, tag, era)
  {
    forall i | 0 <= i < |words|
      ensures Holds(format, longer, i % RING_WORDS, words[i], tag[i], era[i])
    {
      assert Holds(format, hist, i % RING_WORDS, words[i], tag[i], era[i]);
    }
  }

  lemma HoldUpdated(format: Format, hist: seq<Pcm>, words: seq<uint32>, tag: seq<int>, era: seq<nat>,
                    j: nat, word: uint32, f: int, e: nat)
    requires |words| == |tag| == |era| == RING_WORDS && j < RING_WORDS
    requires AllHold(format, hist, words, tag, era) && Holds(format, hist, j, word, f, e)
    ensures AllHold(format, hist, words[j := word], tag[j := f], era[j := e])
  {
    hide Holds;
    assert j % RING_WORDS == j;
  }

  lemma HoldAppended(format: Format, hist: seq<Pcm>, words: seq<uint32>, tag: seq<int>, era: seq<nat>,
                     word: uint32, f: int, e: nat)
    requires |words| == |tag| == |era|
    requires AllHold(format, hist, words, tag, era) && Holds(format, hist, |words| % RING_WORDS, word, f, e)
    ensures AllHold(format, hist, words + [word], tag + [f], era + [e])
  {
    hide Holds;
  }

  /** Storing a word touches only the frame one ring back, which the window has let go. */
  lemma StoreKeepsWindow(tag: seq<int>, era: seq<nat>, n: nat, part: nat, epoch: nat, base: nat)
    requires |tag| == |era| == RING_WORDS && part < 4
    requires Window(tag, era, n, part, epoch, base)
    ensures var j := 4 * Slot(n, epoch) + part;
            Window(tag[j := n], era[j := epoch], n, part + 1, epoch, base)
  {
    var j := 4 * Slot(n, epoch) + part;
    var tag', era' := tag[j := n], era[j := epoch];
    forall f: nat, t: nat | base <= f < n && n + 1 <= f + RING_FRAMES && t < 4
      ensures At(tag', era', Slot(f, epoch), t, f, epoch)
    {
      assert At(tag, era, Slot(f, epoch), t, f, epoch);
      if Slot(f, epoch) == Slot(n, epoch) {
        SlotShared(f, n, epoch);
      }
      assert 4 * Slot(f, epoch) + t != j;
    }
    forall t: nat | t < part + 1
      ensures At(tag', era', Slot(n, epoch), t, n, epoch)
    {
      if t < part {
        assert At(tag, era, Slot(n, epoch), t, n, epoch);
      }
    }
  }

  lemma CompleteKeepsWindow(tag: seq<int>, era: seq<nat>, n: nat, epoch: nat, base: nat)
    requires |tag| == |era| == RING_WORDS
    requires Window(tag, era, n, 4, epoch, base)
    ensures Window(tag, era, n + 1, 0, epoch, base)
  {
  }

  /** When the window covers the ring, every word is of the current epoch. */
  lemma FullWindowUniform(tag: seq<int>, era: seq<nat>, n: nat, epoch: nat, base: nat, j: nat)
    requires |tag| == |era| == RING_WORDS && j < RING_WORDS
    requires n >= base + RING_FRAMES && Window(tag, era, n, 0, epoch, base)
    ensures era[j] == epoch && tag[j] == LatestAt(j / 4, n, epoch)
  {
    LatestIsThere(j / 4, n, epoch);
    assert At(tag, era, Slot(LatestAt(j / 4, n, epoch), epoch), j % 4, LatestAt(j / 4, n, epoch), epoch);
  }

  lemma InitInv(format: Format)
    ensures Inv(format, PowerOn())
  {
  }

  lemma ReadKeepsInv(format: Format, s: Sys)
    requires Inv(format, s) && s.ctl.mode != Preload
    ensures Inv(format, Read(s))
  {
    hide Holds, Window;
    var j := |s.out| % RING_WORDS;
    assert Holds(format, s.hist, j % RING_WORDS, s.mem[j], s.tag[j], s.era[j]);
    HoldAppended(format, s.hist, s.out, s.otag, s.oera, s.mem[j], s.tag[j], s.era[j]);
  }

  /** The stored word is the encoding of the frame under way, in its slot. */
  lemma StoredHolds(format: Format, s: Sys, pcm: Pcm, next: Ctl)
    requires Inv(format, s) && MayStore(s.ctl) && (s.ctl.part > 0 ==> pcm == s.ctl.pcm)
    ensures Address(s.ctl) < RING_WORDS
    ensures var c := s.ctl;
            Holds(format, Stored(format, s, pcm, next).hist, Address(c), EncodedWord(format, c.n, pcm, c.part), c.n,
                  c.epoch)
  {
    hide Window, AllHold, Slot, EncodedWord;
    AddressIsSlot(s.ctl);
  }

  lemma StoreKeepsHolds(format: Format, s: Sys, pcm: Pcm, next: Ctl)
    requires Inv(format, s) && MayStore(s.ctl) && (s.ctl.part > 0 ==> pcm == s.ctl.pcm)
    ensures Address(s.ctl) < RING_WORDS
    ensures var r := Stored(format, s, pcm, next);
            AllHold(format, r.hist, r.mem, r.tag, r.era) && AllHold(format, r.hist, r.out, r.otag, r.oera)
  {
    hide Window, Holds, AllHold, EncodedWord;
    var c := s.ctl;
    StoredHolds(format, s, pcm, next);
    var r := Stored(format, s, pcm, next);
    HoldLonger(format, s.hist, r.hist, s.mem, s.tag, s.era);
    HoldLonger(format, s.hist, r.hist, s.out, s.otag, s.oera);
    HoldUpdated(format, r.hist, s.mem, s.tag, s.era, Address(c), EncodedWord(format, c.n, pcm, c.part), c.n, c.epoch);
  }

  /** Before the turn of a frame: the word is in, the frame number has not moved. */
  lemma StoreKeepsPlacement(format: Format, s: Sys, pcm: Pcm, next: Ctl)
    requires Inv(format, s) && MayStore(s.ctl)
    ensures Address(s.ctl) < RING_WORDS
    ensures var c, r := s.ctl, Stored(format, s, pcm, next);
            Window(r.tag, r.era, c.n, c.part + 1, c.epoch, c.base) && Recent(r.tag, r.era, c.epoch, c.primed)
  {
    hide Window, Slot;
    AddressIsSlot(s.ctl);
    StoreKeepsWindow(s.tag, s.era, s.ctl.n, s.ctl.part, s.ctl.epoch, s.ctl.base);
  }

  /** Passing to the next frame, and at the end of a fill to the next epoch. */
  lemma DoneKeepsPlacement(c: Ctl, tag: seq<int>, era: seq<nat>)
    requires Ok(c) && MayStore(c) && c.part == 3 && |tag| == |era| == RING_WORDS
    requires Window(tag, era, c.n, 4, c.epoch, c.base) && Recent(tag, era, c.epoch, c.primed)
    ensures var d := FrameDone(c);
            Window(tag, era, d.n, d.part, d.epoch, d.base) && Recent(tag, era, d.epoch, d.primed)
            && d.primed == c.primed && d.epoch >= c.epoch
  {
    hide Slot;
    CompleteKeepsWindow(tag, era, c.n, c.epoch, c.base);
    hide Window;
    if FrameDone(c).epoch != c.epoch {
      OffsetAdvance(c.n);
      RewindKeepsRecent(tag, era, c.n + 1, c.epoch, c.base, c.primed);
    }
  }

  lemma StoreKeepsRecorded(format: Format, s: Sys, pcm: Pcm)
    requires Inv(format, s) && Step(s.ctl, Store(s.ctl.part, pcm)).Some? && Address(s.ctl) < RING_WORDS
    ensures var r := Stored(format, s, pcm, Step(s.ctl, Store(s.ctl.part, pcm)).value);
            Recorded(r) && (r.ctl.mode == Preload <==> s.ctl.mode == Preload)
  {
    hide Window, AllHold, Recent, EncodedWord;
  }

  lemma StoreKeepsInv(format: Format, s: Sys, pcm: Pcm)
    requires Inv(format, s) && Step(s.ctl, Store(s.ctl.part, pcm)).Some?
    ensures Address(s.ctl) < RING_WORDS
    ensures Inv(format, Stored(format, s, pcm, Step(s.ctl, Store(s.ctl.part, pcm)).value))
  {
    hide Window, AllHold, Recent, EncodedWord, Ok;
    var c := s.ctl;
    var next := Step(c, Store(c.part, pcm)).value;
    StoreKeepsHolds(format, s, pcm, next);
    StepOk(c, Store(c.part, pcm));
    var r := Stored(format, s, pcm, next);
    StoreKeepsPlacement(format, s, pcm, next);
    StoreKeepsRecorded(format, s, pcm);
    if c.part == 3 {
      DoneKeepsPlacement(c, r.tag, r.era);
    }
  }

  lemma RewindKeepsRecent(tag: seq<int>, era: seq<nat>, n: nat, epoch: nat, base: nat, primed: bool)
    requires |tag| == |era| == RING_WORDS && n >= base + RING_FRAMES
    requires Window(tag, era, n, 0, epoch, base) && Recent(tag, era, epoch, primed)
    ensures Recent(tag, era, epoch + 1, primed)
    ensures Window(tag, era, n, 0, epoch + 1, n)
  {
    forall j | 0 <= j < RING_WORDS
      ensures era[j] == epoch
    {
      FullWindowUniform(tag, era, n, epoch, base, j);
    }
  }

  lemma StartKeepsInv(format: Format, s: Sys)
    requires Inv(format, s) && Step(s.ctl, Start).Some?
    ensures Inv(format, s.(ctl := Step(s.ctl, Start).value))
  {
    hide AllHold;
    var c, next := s.ctl, Step(s.ctl, Start).value;
    StepOk(c, Start);
    StartKeepsPlacement(c, s.tag, s.era);
  }

  lemma StartKeepsPlacement(c: Ctl, tag: seq<int>, era: seq<nat>)
    requires Ok(c) && Step(c, Start).Some? && |tag| == |era| == RING_WORDS
    requires Window(tag, era, c.n, 0, 0, 0) && Recent(tag, era, 0, false)
    ensures var d := Step(c, Start).value;
            Window(tag, era, d.n, d.part, d.epoch, d.base) && Recent(tag, era, d.epoch, d.primed)
  {
    hide Slot;
    var d := Step(c, Start).value;
    if c.buffer == BUFFER_COUNT {
      forall j | 0 <= j < RING_WORDS
        ensures tag[j] >= 0
      {
        FullWindowUniform(tag, era, c.n, 0, 0, j);
      }
    }
  }

  lemma PauseKeepsInv(format: Format, s: Sys, op: Op)
    requires Inv(format, s) && Step(s.ctl, op).Some? && (op.Poll? || op.Underrun?)
    ensures Inv(format, s.(ctl := Step(s.ctl, op).value))
  {
    hide AllHold, Window, Recent, Ok;
    StepOk(s.ctl, op);
  }

  lemma NextKeepsInv(format: Format, s: Sys, act: Act)
    requires Inv(format, s) && Next(format, s, act).Some?
    ensures Inv(format, Next(format, s, act).value)
  {
    match act
    case Dma =>
      hide Inv, Read;
      ReadKeepsInv(format, s);
    case Cpu(op) => OpKeepsInv(format, s, op);
  }

  lemma OpKeepsInv(format: Format, s: Sys, op: Op)
    requires Inv(format, s) && Next(format, s, Cpu(op)).Some?
    ensures Inv(format, Next(format, s, Cpu(op)).value)
  {
    match op
    case Store(part, pcm) =>
      assert part == s.ctl.part;
      hide Inv, Stored, Step;
      StoreKeepsInv(format, s, pcm);
    case Start =>
      hide Inv, Step;
      StartKeepsInv(format, s);
    case Poll(_) =>
      hide Inv, Step;
      PauseKeepsInv(format, s, op);
    case Underrun =>
      hide Inv, Step;
      PauseKeepsInv(format, s, op);
  }

  /** Every state of every interleaving satisfies the invariant. */
  lemma {:induction false} RunInv(format: Format, b: Behaviour, i: nat)
    requires IsRun(format, b) && i < |b.states|
    ensures Inv(format, b.states[i])
  {
    hide Inv, Next;
    if i == 0 {
      InitInv(format);
    } else {
      RunInv(format, b, i - 1);
      assert Next(format, b.states[i - 1], b.acts[i - 1]) == Some(b.states[i]);
      NextKeepsInv(format, b.states[i - 1], b.acts[i - 1]);
    }
  }
}
