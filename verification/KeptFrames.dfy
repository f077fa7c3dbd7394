/** Which of the frames encoded stay: all but the last buffer of each fill, over which the read
    loop resumes. */
module KeptFrames {
  import opened Words
  import opened BiphaseMark
  import opened Frames
  import opened RingArithmetic
  import opened Transport
  import opened Interleaving
  import opened Places

  /** An encoded frame: its number, its samples, and whether a read loop stored it. */
  datatype Encoded = Encoded(number: nat, pcm: Pcm, input: bool)

  /** The frames encoded before moment i, without the last 2048 of each completed fill. */
  ghost function Kept(b: Behaviour, i: nat): seq<Encoded>
    requires i <= |b.acts| < |b.states|
  {
    if i == 0 then [] else KeptNext(b.states[i - 1].ctl, b.acts[i - 1], b.states[i].ctl, Kept(b, i - 1))
  }

  function KeptNext(c: Ctl, act: Act, d: Ctl, kept: seq<Encoded>): seq<Encoded> {
    var longer := Longer(c, act, kept);
    if Rewinds(c, act, d) && |longer| >= BUFFER_SIZE then longer[..|longer| - BUFFER_SIZE] else longer
  }

  function Longer(c: Ctl, act: Act, kept: seq<Encoded>): seq<Encoded> {
    if Completes(act) then kept + [Encoded(c.n, act.op.pcm, Reading(c))] else kept
  }

  /** What the last completed fill has cut. */
  ghost function Cut(b: Behaviour, i: nat): seq<Encoded>
    requires i <= |b.acts| < |b.states|
  {
    if i == 0 then []
    else CutNext(b.states[i - 1].ctl, b.acts[i - 1], b.states[i].ctl, Kept(b, i - 1), Cut(b, i - 1))
  }

  function CutNext(c: Ctl, act: Act, d: Ctl, kept: seq<Encoded>, cut: seq<Encoded>): seq<Encoded> {
    var longer := Longer(c, act, kept);
    if Rewinds(c, act, d) && |longer| >= BUFFER_SIZE then longer[|longer| - BUFFER_SIZE..] else cut
  }

  /** The frame last completed at each place: the frames kept, and of a fill's last buffer what the
      read loop has not gone over yet. */
  ghost function Laid(b: Behaviour, i: nat): seq<Encoded>
    requires i <= |b.acts| < |b.states|
  {
    LaidOf(b.states[i].ctl, Kept(b, i), Cut(b, i))
  }

  function LaidOf(c: Ctl, kept: seq<Encoded>, cut: seq<Encoded>): (laid: seq<Encoded>)
    ensures kept <= laid
  {
    var left := Covered(c) - Position(c);
    if 0 < left <= |cut| then kept + cut[|cut| - left..] else kept
  }

  predicate Completes(act: Act) {
    act.Cpu? && act.op.Store? && act.op.part == 3
  }

  predicate Rewinds(c: Ctl, act: Act, d: Ctl) {
    act != Cpu(Start) && d.epoch != c.epoch
  }

  /** Preloading, or running after a full preload. */
  predicate Sound(c: Ctl) {
    c.mode == Preload || c.primed
  }

  /** The frames kept fill the places up to the frame under way; the ring agrees with them. */
  ghost predicate KeptOk(s: Sys, kept: seq<Encoded>)
    requires Shaped(s)
  {
    && |kept| == Position(s.ctl) && BUFFER_SIZE * s.ctl.epoch <= s.ctl.base
    && Known(kept, s.ctl.n, s.hist)
    && InRing(kept, s.tag, s.era)
  }

  /** They are encoded frames, in the order of encoding. */
  ghost predicate Known(kept: seq<Encoded>, n: nat, hist: seq<Pcm>) {
    && (forall p :: 0 <= p < |kept| ==> kept[p].number < n <= |hist| && hist[kept[p].number] == kept[p].pcm)
    && (forall p, q :: 0 <= p < q < |kept| ==> kept[p].number < kept[q].number)
  }

  ghost predicate InRing(kept: seq<Encoded>, tag: seq<int>, era: seq<nat>)
    requires |tag| == |era|
  {
    forall j :: 0 <= j < |tag| ==> Agrees(kept, tag[j], era[j])
  }

  /** A word of a place below the frame under way is of the frame kept there. */
  predicate Agrees(kept: seq<Encoded>, tag: int, era: nat) {
    var p := PlaceOf(tag, era);
    0 <= p < |kept| ==> kept[p].number == tag
  }

  lemma StoreAgrees(c: Ctl, kept: seq<Encoded>, tag: seq<int>, era: seq<nat>, j: nat)
    requires |tag| == |era| == RING_WORDS && j < RING_WORDS && InRing(kept, tag, era) && |kept| == Position(c)
    ensures InRing(kept, tag[j := c.n], era[j := c.epoch])
  {
    var tag', era' := tag[j := c.n], era[j := c.epoch];
    forall k | 0 <= k < RING_WORDS
      ensures Agrees(kept, tag'[k], era'[k])
    {
      assert Agrees(kept, tag[k], era[k]);
    }
  }

  /** The words at the place just completed are of the frame just completed. */
  lemma DoneAgrees(format: Format, hist: seq<Pcm>, words: seq<uint32>, c: Ctl, kept: seq<Encoded>, e: Encoded,
                   tag: seq<int>, era: seq<nat>)
    requires |words| == |tag| == |era| == RING_WORDS && AllHold(format, hist, words, tag, era)
    requires Window(tag, era, c.n, 4, c.epoch, c.base)
    requires InRing(kept, tag, era) && |kept| == Position(c) && e.number == c.n
    ensures InRing(kept + [e], tag, era)
  {
    hide Holds, Window, Slot;
    forall k | 0 <= k < RING_WORDS
      ensures Agrees(kept + [e], tag[k], era[k])
    {
      assert Agrees(kept, tag[k], era[k]);
      if PlaceOf(tag[k], era[k]) == |kept| && tag[k] >= 0 {
        RingWord(k);
        assert Holds(format, hist, k % RING_WORDS, words[k], tag[k], era[k]);
        PlaceInSlot(format, hist, k, words[k], tag[k], era[k]);
        PositionInSlot(c);
        JustStored(tag, era, c, k);
      }
    }
  }

  lemma JustStored(tag: seq<int>, era: seq<nat>, c: Ctl, k: nat)
    requires |tag| == |era| == RING_WORDS && Window(tag, era, c.n, 4, c.epoch, c.base)
    requires k < RING_WORDS && k / 4 == Slot(c.n, c.epoch)
    ensures tag[k] == c.n
  {
    assert At(tag, era, Slot(c.n, c.epoch), k % 4, c.n, c.epoch);
  }

  lemma PrefixAgrees(kept: seq<Encoded>, m: nat, tag: seq<int>, era: seq<nat>)
    requires |tag| == |era| && m <= |kept| && InRing(kept, tag, era)
    ensures InRing(kept[..m], tag, era)
  {
    forall k | 0 <= k < |tag|
      ensures Agrees(kept[..m], tag[k], era[k])
    {
      assert Agrees(kept, tag[k], era[k]);
    }
  }

  lemma KnownLonger(kept: seq<Encoded>, n: nat, hist: seq<Pcm>, longer: seq<Pcm>)
    requires Known(kept, n, hist) && hist <= longer
    ensures Known(kept, n, longer)
  {
    forall p | 0 <= p < |kept|
      ensures kept[p].number < n <= |longer| && longer[kept[p].number] == kept[p].pcm
    {
      assert kept[p].number < n <= |hist|;
    }
  }

  lemma KnownSnoc(kept: seq<Encoded>, n: nat, hist: seq<Pcm>, e: Encoded)
    requires Known(kept, n, hist) && e.number == n < |hist| && hist[n] == e.pcm
    ensures Known(kept + [e], n + 1, hist)
  {
  }

  lemma KnownPrefix(kept: seq<Encoded>, n: nat, hist: seq<Pcm>, m: nat)
    requires Known(kept, n, hist) && m <= |kept|
    ensures Known(kept[..m], n, hist)
  {
    forall p | 0 <= p < m
      ensures kept[..m][p].number < n <= |hist| && hist[kept[..m][p].number] == kept[..m][p].pcm
    {
      assert kept[..m][p] == kept[p];
    }
    forall p, q | 0 <= p < q < m
      ensures kept[..m][p].number < kept[..m][q].number
    {
      assert kept[..m][p] == kept[p] && kept[..m][q] == kept[q];
    }
  }

  /** Completing a frame keeps it; completing a fill drops its last buffer. */
  lemma KeptLength(c: Ctl, pcm: Pcm, kept: seq<Encoded>)
    requires Ok(c) && MayStore(c) && c.part == 3 && |kept| == Position(c) && BUFFER_SIZE * c.epoch <= c.base
    ensures var d := FrameDone(c);
            var next := KeptNext(c, Cpu(Store(3, pcm)), d, kept);
            && |next| == Position(d) && BUFFER_SIZE * d.epoch <= d.base && |next| <= |kept| + 1
            && next == (kept + [Encoded(c.n, pcm, Reading(c))])[..|next|]
  {
    hide Slot;
    OffsetAdvance(c.n);
    assert (kept + [Encoded(c.n, pcm, Reading(c))])[..|kept| + 1] == kept + [Encoded(c.n, pcm, Reading(c))];
  }

  /** A word is stored; the frame is not complete, or not yet counted. */
  lemma StoreKeepsKept(format: Format, s: Sys, pcm: Pcm, next: Ctl, kept: seq<Encoded>)
    requires Inv(format, s) && MayStore(s.ctl) && KeptOk(s, kept)
    ensures Address(s.ctl) < RING_WORDS
    ensures var r := Stored(format, s, pcm, next); InRing(kept, r.tag, r.era) && Known(kept, s.ctl.n, r.hist)
  {
    hide AllHold, Window, Recent, InRing, Known, EncodedWord, Slot;
    AddressIsSlot(s.ctl);
    StoreAgrees(s.ctl, kept, s.tag, s.era, Address(s.ctl));
    KnownLonger(kept, s.ctl.n, s.hist, Stored(format, s, pcm, next).hist);
  }

  lemma LastWordKeepsKept(format: Format, s: Sys, pcm: Pcm, kept: seq<Encoded>)
    requires Inv(format, s) && s.ctl.part == 3 && Step(s.ctl, Store(3, pcm)).Some? && KeptOk(s, kept)
    ensures Address(s.ctl) < RING_WORDS
    ensures var d := FrameDone(s.ctl);
            KeptOk(Stored(format, s, pcm, d), KeptNext(s.ctl, Cpu(Store(3, pcm)), d, kept))
  {
    hide AllHold, Window, Recent, InRing, Known, EncodedWord, Slot, KeptNext, FrameDone, Inv, Position;
    var c, d, e := s.ctl, FrameDone(s.ctl), Encoded(s.ctl.n, pcm, Reading(s.ctl));
    var next := KeptNext(c, Cpu(Store(3, pcm)), d, kept);
    PartsOf(format, s);
    KeptLength(c, pcm, kept);
    StoreKeepsKept(format, s, pcm, d, kept);
    StoreKeepsHolds(format, s, pcm, d);
    StoreKeepsPlacement(format, s, pcm, d);
    var r := Stored(format, s, pcm, d);
    DoneAgrees(format, r.hist, r.mem, c, kept, e, r.tag, r.era);
    PrefixAgrees(kept + [e], |next|, r.tag, r.era);
    LastWordRecorded(format, s, pcm);
    KnownSnoc(kept, c.n, r.hist, e);
    KnownPrefix(kept + [e], c.n + 1, r.hist, |next|);
  }

  lemma PartsOf(format: Format, s: Sys)
    requires Inv(format, s)
    ensures Ok(s.ctl) && Shaped(s)
  {
  }

  lemma LastWordRecorded(format: Format, s: Sys, pcm: Pcm)
    requires Inv(format, s) && s.ctl.part == 3 && Step(s.ctl, Store(3, pcm)).Some? && Address(s.ctl) < RING_WORDS
    ensures var r := Stored(format, s, pcm, FrameDone(s.ctl));
            r.ctl.n == s.ctl.n + 1 == |r.hist| && r.hist[s.ctl.n] == pcm
  {
    hide AllHold, Window, Recent, EncodedWord, Slot;
  }

  lemma NextKeepsKept(format: Format, s: Sys, act: Act, kept: seq<Encoded>)
    requires Inv(format, s) && Next(format, s, act).Some? && KeptOk(s, kept) && Sound(s.ctl)
    requires Sound(Next(format, s, act).value.ctl)
    ensures var r := Next(format, s, act).value; KeptOk(r, KeptNext(s.ctl, act, r.ctl, kept))
  {
    hide AllHold, Window, Recent, InRing, Known, EncodedWord, Slot;
    match act
    case Dma =>
    case Cpu(op) =>
      match op
      case Store(part, pcm) =>
        if part == 3 {
          LastWordKeepsKept(format, s, pcm, kept);
        } else {
          StoreKeepsKept(format, s, pcm, s.ctl.(part := part + 1, pcm := pcm), kept);
        }
      case Poll(_) =>
      case Start =>
      case Underrun =>
  }

  lemma StartsKept()
    ensures KeptOk(PowerOn(), [])
  {
  }

  lemma SoundBefore(format: Format, s: Sys, act: Act)
    requires Inv(format, s) && Next(format, s, act).Some? && Sound(Next(format, s, act).value.ctl)
    ensures Sound(s.ctl)
  {
    hide AllHold, Window, Recent, EncodedWord;
  }

  /** Every interleaving with a full preload, whatever its timing, keeps one frame for each place. */
  lemma {:induction false} RunKept(format: Format, b: Behaviour, i: nat)
    requires IsRun(format, b) && i < |b.states| && Sound(b.states[i].ctl)
    ensures KeptOk(b.states[i], Kept(b, i))
  {
    hide KeptOk, Inv, Next, Sound, KeptNext;
    if i == 0 {
      StartsKept();
    } else {
      assert Next(format, b.states[i - 1], b.acts[i - 1]) == Some(b.states[i]);
      RunInv(format, b, i - 1);
      SoundBefore(format, b.states[i - 1], b.acts[i - 1]);
      RunKept(format, b, i - 1);
      NextKeepsKept(format, b.states[i - 1], b.acts[i - 1], Kept(b, i - 1));
    }
  }

  // ----- the input among the frames kept -----

  /** The input frames of a stream. */
  function InputOf(frames: seq<Encoded>): (input: seq<Pcm>) {
    if |frames| == 0 then []
    else
      var last := frames[|frames| - 1];
      InputOf(frames[..|frames| - 1]) + if last.input then [last.pcm] else []
  }

  lemma InputOfSnoc(frames: seq<Encoded>, e: Encoded)
    ensures InputOf(frames + [e]) == InputOf(frames) + if e.input then [e.pcm] else []
  {
    assert (frames + [e])[..|frames|] == frames;
  }

  lemma {:induction false} InputOfCut(frames: seq<Encoded>, m: nat)
    requires m <= |frames| && forall p :: m <= p < |frames| ==> !frames[p].input
    ensures InputOf(frames[..m]) == InputOf(frames)
  {
    if m < |frames| {
      InputOfCut(frames[..|frames| - 1], m);
      assert frames[..|frames| - 1][..m] == frames[..m];
    } else {
      assert frames[..m] == frames;
    }
  }

  lemma {:induction false} InputOfPrefix(frames: seq<Encoded>, m: nat)
    requires m <= |frames|
    ensures InputOf(frames[..m]) <= InputOf(frames)
  {
    if m < |frames| {
      InputOfPrefix(frames[..|frames| - 1], m);
      assert frames[..|frames| - 1][..m] == frames[..m];
    } else {
      assert frames[..m] == frames;
    }
  }

  /** How many of the last frames kept belong to whole buffers of the fill under way. */
  function FillLength(c: Ctl): nat {
    match c.mode
    case Wait(count) => BUFFER_SIZE * count
    case Refill(count) => BUFFER_SIZE * count + c.n % BUFFER_SIZE
    case _ => 0
  }

  ghost predicate EndsInFill(c: Ctl, kept: seq<Encoded>) {
    forall p :: 0 <= p < |kept| && |kept| - FillLength(c) <= p ==> !kept[p].input
  }

  /** A frame is completed: the tail of fill grows with it, and covers what the end of the fill cuts. */
  lemma DoneEndsInFill(c: Ctl, pcm: Pcm, kept: seq<Encoded>)
    requires Ok(c) && MayStore(c) && c.part == 3 && EndsInFill(c, kept)
    ensures var d := FrameDone(c);
            var next := KeptNext(c, Cpu(Store(3, pcm)), d, kept);
            && EndsInFill(d, next)
            && InputOf(next) == InputOf(kept) + if Reading(c) then [pcm] else []
  {
    hide Slot, InputOf;
    OffsetAdvance(c.n);
    var longer := kept + [Encoded(c.n, pcm, Reading(c))];
    InputOfSnoc(kept, Encoded(c.n, pcm, Reading(c)));
    if FrameDone(c).epoch != c.epoch && |longer| >= BUFFER_SIZE {
      InputOfCut(longer, |longer| - BUFFER_SIZE);
    }
  }

  lemma StepEndsInFill(c: Ctl, op: Op, kept: seq<Encoded>)
    requires Ok(c) && Step(c, op).Some? && EndsInFill(c, kept)
    ensures var d := Step(c, op).value;
            var next := KeptNext(c, Cpu(op), d, kept);
            && EndsInFill(d, next)
            && InputOf(next) == InputOf(kept) + if op.Store? && op.part == 3 && Reading(c) then [op.pcm] else []
  {
    hide Slot, InputOf;
    match op
    case Store(part, pcm) =>
      if part == 3 {
        DoneEndsInFill(c, pcm, kept);
      }
    case Poll(_) =>
    case Start =>
    case Underrun =>
  }

  // ----- what a fill cuts -----

  /** Since the last rewind frames have gone to successive places. */
  ghost predicate Consecutive(c: Ctl, kept: seq<Encoded>) {
    forall p :: 0 <= p < |kept| && c.base - BUFFER_SIZE * c.epoch <= p ==> kept[p].number == p + BUFFER_SIZE * c.epoch
  }

  /** The last three buffers of the last fill: two kept, one cut. */
  ghost predicate CutOk(c: Ctl, kept: seq<Encoded>, cut: seq<Encoded>, hist: seq<Pcm>) {
    && |cut| == BUFFER_SIZE
    && (forall x :: 0 <= x < |cut| ==>
          cut[x].number == c.base - BUFFER_SIZE + x < |hist| && hist[cut[x].number] == cut[x].pcm && !cut[x].input)
    && forall p :: 0 <= p < |kept| && FillStart(c) <= p < FillStart(c) + 2 * BUFFER_SIZE ==> !kept[p].input
  }

  function FillStart(c: Ctl): int {
    c.base - BUFFER_SIZE * c.epoch - 2 * BUFFER_SIZE
  }

  ghost predicate FillOk(s: Sys, kept: seq<Encoded>, cut: seq<Encoded>) {
    && EndsInFill(s.ctl, kept) && Consecutive(s.ctl, kept)
    && (s.ctl.epoch > 0 ==> CutOk(s.ctl, kept, cut, s.hist))
  }

  /** The store that ends a fill completes the last of three buffers. */
  lemma LastOfFill(c: Ctl)
    requires Ok(c) && MayStore(c) && c.part == 3 && FrameDone(c).epoch != c.epoch
    ensures c.mode == Refill(2) && c.n % BUFFER_SIZE == BUFFER_SIZE - 1 && c.n + 1 >= c.base + RING_FRAMES
    ensures FrameDone(c).base == c.n + 1 && FrameDone(c).epoch == c.epoch + 1
  {
    hide Slot;
    OffsetAdvance(c.n);
  }

  /** Its frames are fill, in successive places. */
  lemma FillFrames(c: Ctl, kept: seq<Encoded>, e: Encoded, p: nat)
    requires c.mode == Refill(2) && c.n % BUFFER_SIZE == BUFFER_SIZE - 1 && c.n + 1 >= c.base + RING_FRAMES
    requires |kept| == Position(c) && EndsInFill(c, kept) && Consecutive(c, kept)
    requires e.number == c.n && !e.input && |kept| + 1 - RING_FRAMES <= p <= |kept|
    ensures !(kept + [e])[p].input && (kept + [e])[p].number == p + BUFFER_SIZE * c.epoch
  {
    if p < |kept| {
      assert (kept + [e])[p] == kept[p];
    }
  }

  /** The end of a fill cuts the last of its three buffers. */
  lemma RewindCuts(c: Ctl, pcm: Pcm, kept: seq<Encoded>, cut: seq<Encoded>, hist: seq<Pcm>)
    requires Ok(c) && MayStore(c) && c.part == 3 && FrameDone(c).epoch != c.epoch
    requires |kept| == Position(c) && BUFFER_SIZE * c.epoch <= c.base && EndsInFill(c, kept) && Consecutive(c, kept)
    requires Known(kept + [Encoded(c.n, pcm, Reading(c))], c.n + 1, hist)
    ensures var act, d := Cpu(Store(3, pcm)), FrameDone(c);
            var next := KeptNext(c, act, d, kept);
            Consecutive(d, next) && CutOk(d, next, CutNext(c, act, d, kept, cut), hist)
  {
    LastOfFill(c);
    var e := Encoded(c.n, pcm, Reading(c));
    var longer, d := kept + [e], FrameDone(c);
    assert !e.input && Longer(c, Cpu(Store(3, pcm)), kept) == longer;
    hide Ok, MayStore, FrameDone, EndsInFill, Consecutive, FillLength, Reading;
    forall p | 0 <= p < |longer| && |longer| - RING_FRAMES <= p
      ensures !longer[p].input && longer[p].number == p + BUFFER_SIZE * c.epoch
    {
      FillFrames(c, kept, e, p);
    }
    CutsLonger(d, longer, hist);
  }

  lemma CutsLonger(d: Ctl, longer: seq<Encoded>, hist: seq<Pcm>)
    requires |longer| >= BUFFER_SIZE && |longer| == d.n - BUFFER_SIZE * (d.epoch - 1) && d.base == d.n && d.epoch > 0
    requires forall p :: 0 <= p < |longer| && |longer| - RING_FRAMES <= p
               ==> !longer[p].input && longer[p].number == p + BUFFER_SIZE * (d.epoch - 1)
    requires Known(longer, d.n, hist)
    ensures var m := |longer| - BUFFER_SIZE; Consecutive(d, longer[..m]) && CutOk(d, longer[..m], longer[m..], hist)
  {
    var m := |longer| - BUFFER_SIZE;
    forall x | 0 <= x < BUFFER_SIZE
      ensures longer[m..][x] == longer[m + x] && longer[m..][x].number == d.base - BUFFER_SIZE + x < |hist|
      ensures hist[longer[m..][x].number] == longer[m..][x].pcm && !longer[m..][x].input
    {
      assert longer[m..][x] == longer[m + x];
    }
  }

  lemma DoneKeepsFill(c: Ctl, pcm: Pcm, kept: seq<Encoded>, cut: seq<Encoded>, hist: seq<Pcm>, longer: seq<Pcm>)
    requires Ok(c) && MayStore(c) && c.part == 3 && hist <= longer
    requires |kept| == Position(c) && BUFFER_SIZE * c.epoch <= c.base && EndsInFill(c, kept) && Consecutive(c, kept)
    requires Known(kept + [Encoded(c.n, pcm, Reading(c))], c.n + 1, longer)
    requires c.epoch > 0 ==> CutOk(c, kept, cut, hist)
    ensures var act, d := Cpu(Store(3, pcm)), FrameDone(c);
            var next, gone := KeptNext(c, act, d, kept), CutNext(c, act, d, kept, cut);
            Consecutive(d, next) && (d.epoch > 0 ==> CutOk(d, next, gone, longer))
  {
    if FrameDone(c).epoch != c.epoch {
      RewindCuts(c, pcm, kept, cut, longer);
    } else {
      FrameKeepsFill(c, FrameDone(c), kept, Encoded(c.n, pcm, Reading(c)), cut, hist, longer);
    }
  }

  lemma FrameKeepsFill(c: Ctl, d: Ctl, kept: seq<Encoded>, e: Encoded, cut: seq<Encoded>, hist: seq<Pcm>,
                       longer: seq<Pcm>)
    requires |kept| == Position(c) && BUFFER_SIZE * c.epoch <= c.base <= c.n && Consecutive(c, kept) && hist <= longer
    requires d.base == c.base && d.epoch == c.epoch && e.number == c.n
    requires c.epoch > 0 ==> CutOk(c, kept, cut, hist)
    ensures Consecutive(d, kept + [e]) && (d.epoch > 0 ==> CutOk(d, kept + [e], cut, longer))
  {
    var next := kept + [e];
    forall p | 0 <= p < |next| && d.base - BUFFER_SIZE * d.epoch <= p
      ensures next[p].number == p + BUFFER_SIZE * d.epoch
    {
      if p < |kept| {
        assert kept[p].number == p + BUFFER_SIZE * c.epoch;
      }
    }
    if c.epoch > 0 {
      forall p | 0 <= p < |next| && FillStart(d) <= p < FillStart(d) + 2 * BUFFER_SIZE
        ensures !next[p].input
      {
        assert kept[p] == next[p];
      }
    }
  }

  lemma LastWordKeepsFill(format: Format, s: Sys, pcm: Pcm, kept: seq<Encoded>, cut: seq<Encoded>)
    requires Inv(format, s) && s.ctl.part == 3 && Step(s.ctl, Store(3, pcm)).Some?
    requires KeptOk(s, kept) && FillOk(s, kept, cut)
    ensures Address(s.ctl) < RING_WORDS
    ensures var act, d := Cpu(Store(3, pcm)), FrameDone(s.ctl);
            FillOk(Stored(format, s, pcm, d), KeptNext(s.ctl, act, d, kept), CutNext(s.ctl, act, d, kept, cut))
  {
    hide AllHold, Window, Recent, InRing, Known, EncodedWord, Slot, KeptNext, CutNext, FrameDone, Inv, Position,
         EndsInFill, Consecutive, CutOk, InputOf;
    PartsOf(format, s);
    StoreKeepsKept(format, s, pcm, FrameDone(s.ctl), kept);
    LastWordRecorded(format, s, pcm);
    var r := Stored(format, s, pcm, FrameDone(s.ctl));
    KnownSnoc(kept, s.ctl.n, r.hist, Encoded(s.ctl.n, pcm, Reading(s.ctl)));
    DoneEndsInFill(s.ctl, pcm, kept);
    DoneKeepsFill(s.ctl, pcm, kept, cut, s.hist, r.hist);
  }

  /** A step that completes no frame changes nothing here, apart from the start of the engine. */
  lemma OtherStepKeepsFill(format: Format, s: Sys, act: Act, kept: seq<Encoded>, cut: seq<Encoded>)
    requires Inv(format, s) && Next(format, s, act).Some? && !Completes(act) && FillOk(s, kept, cut)
    requires Sound(Next(format, s, act).value.ctl)
    ensures var r := Next(format, s, act).value;
            FillOk(r, KeptNext(s.ctl, act, r.ctl, kept), CutNext(s.ctl, act, r.ctl, kept, cut))
  {
    hide AllHold, Window, Recent, EncodedWord, Slot;
    var r := Next(format, s, act).value;
    assert KeptNext(s.ctl, act, r.ctl, kept) == kept && CutNext(s.ctl, act, r.ctl, kept, cut) == cut;
    assert r.ctl.epoch == s.ctl.epoch && r.ctl.base == s.ctl.base && FillLength(r.ctl) == FillLength(s.ctl);
    assert s.hist <= r.hist;
  }

  lemma NextKeepsFill(format: Format, s: Sys, act: Act, kept: seq<Encoded>, cut: seq<Encoded>)
    requires Inv(format, s) && Next(format, s, act).Some? && Sound(Next(format, s, act).value.ctl)
    requires KeptOk(s, kept) && FillOk(s, kept, cut)
    ensures var r := Next(format, s, act).value;
            FillOk(r, KeptNext(s.ctl, act, r.ctl, kept), CutNext(s.ctl, act, r.ctl, kept, cut))
  {
    hide AllHold, Window, Recent, EncodedWord, Slot, KeptOk, FillOk, KeptNext, CutNext, FrameDone, MayStore;
    if Completes(act) {
      LastWordKeepsFill(format, s, act.op.pcm, kept, cut);
    } else {
      OtherStepKeepsFill(format, s, act, kept, cut);
    }
  }

  lemma StartsFill()
    ensures FillOk(PowerOn(), [], [])
  {
  }

  /** What the last fill has cut, and what it has left of itself. */
  lemma {:induction false} RunFill(format: Format, b: Behaviour, i: nat)
    requires IsRun(format, b) && i < |b.states| && Sound(b.states[i].ctl)
    ensures FillOk(b.states[i], Kept(b, i), Cut(b, i))
  {
    hide KeptOk, FillOk, Inv, Next, Sound, KeptNext, CutNext;
    if i == 0 {
      StartsFill();
    } else {
      assert Next(format, b.states[i - 1], b.acts[i - 1]) == Some(b.states[i]);
      RunInv(format, b, i - 1);
      SoundBefore(format, b.states[i - 1], b.acts[i - 1]);
      RunKept(format, b, i - 1);
      RunFill(format, b, i - 1);
      NextKeepsFill(format, b.states[i - 1], b.acts[i - 1], Kept(b, i - 1), Cut(b, i - 1));
    }
  }

  // ----- before a fill completes -----

  /** Until a fill completes nothing has been cut: the p-th frame kept is the p-th encoded. */
  lemma FirstEpochKept(format: Format, b: Behaviour, i: nat, p: nat)
    requires IsRun(format, b) && i < |b.states| && Sound(b.states[i].ctl) && b.states[i].ctl.epoch == 0
    ensures |Kept(b, i)| == b.states[i].ctl.n <= |b.states[i].hist|
    ensures p < b.states[i].ctl.n ==> Kept(b, i)[p].number == p && Kept(b, i)[p].pcm == b.states[i].hist[p]
  {
    hide Next, Kept, InRing, Inv;
    RunKept(format, b, i);
    RunInv(format, b, i);
    HistoryReaches(format, b.states[i]);
    if p < b.states[i].ctl.n {
      NumberAtLeast(Kept(b, i), b.states[i].ctl.n, b.states[i].hist, p);
      NumberAtMost(Kept(b, i), b.states[i].ctl.n, b.states[i].hist, p);
    }
  }

  lemma HistoryReaches(format: Format, s: Sys)
    requires Inv(format, s)
    ensures s.ctl.n <= |s.hist|
  {
  }

  lemma {:induction false} NumberAtLeast(kept: seq<Encoded>, n: nat, hist: seq<Pcm>, p: nat)
    requires Known(kept, n, hist) && p < |kept|
    ensures kept[p].number >= p
  {
    if p > 0 {
      NumberAtLeast(kept, n, hist, p - 1);
      assert kept[p - 1].number < kept[p].number;
    }
  }

  lemma {:induction false} NumberAtMost(kept: seq<Encoded>, n: nat, hist: seq<Pcm>, p: nat)
    requires Known(kept, n, hist) && p < |kept|
    ensures kept[p].number + (|kept| - p) <= n
    decreases |kept| - p
  {
    if p + 1 < |kept| {
      NumberAtMost(kept, n, hist, p + 1);
      assert kept[p].number < kept[p + 1].number;
    }
  }

  lemma BeforeFirstEpoch(format: Format, b: Behaviour, i: nat)
    requires IsRun(format, b) && 0 < i < |b.states| && Sound(b.states[i].ctl) && b.states[i].ctl.epoch == 0
    ensures Sound(b.states[i - 1].ctl) && b.states[i - 1].ctl.epoch == 0
  {
    hide Inv, Next, Sound;
    RunInv(format, b, i - 1);
    assert Next(format, b.states[i - 1], b.acts[i - 1]) == Some(b.states[i]);
    SoundBefore(format, b.states[i - 1], b.acts[i - 1]);
    EpochBefore(format, b.states[i - 1], b.acts[i - 1]);
  }

  lemma EpochBefore(format: Format, s: Sys, act: Act)
    requires Inv(format, s) && Next(format, s, act).Some?
    ensures s.ctl.epoch <= Next(format, s, act).value.ctl.epoch
  {
    hide AllHold, Window, Recent, EncodedWord;
  }
}
