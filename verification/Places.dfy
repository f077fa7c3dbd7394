/** Where a frame stands in the stream the listener is meant to hear: frame n of epoch e has
    place n - 2048 * e, since every fill is followed by a step back of one buffer. */
module Places {
  import opened Words
  import opened BiphaseMark
  import opened SubframeCoder
  import opened Frames
  import opened RingArithmetic
  import opened Transport
  import opened Interleaving

  /** The place of the frame under way. */
  function Position(c: Ctl): int {
    c.n - BUFFER_SIZE * c.epoch
  }

  /** The places the ring has been written up to: a read loop that resumes after a fill first
      goes over 2048 places the fill has already written. */
  function Covered(c: Ctl): int {
    if c.epoch > 0 && c.n - c.base < BUFFER_SIZE then c.base - BUFFER_SIZE * (c.epoch - 1) else Position(c)
  }

  /** The place of a word's frame. */
  function PlaceOf(tag: int, era: nat): int {
    tag - BUFFER_SIZE * era
  }

  /** The word belongs to the frame under way, on new ground. */
  predicate Fresh(c: Ctl, j: nat) {
    Position(c) == Covered(c) && j / 4 == Covered(c) % RING_FRAMES && j % 4 < c.part
  }

  /** The ring holds the last 6144 places, each in its slot. */
  ghost predicate WordPlaced(c: Ctl, j: nat, tag: int, era: nat) {
    var p := PlaceOf(tag, era);
    if Fresh(c, j) then p == Covered(c) else Covered(c) - RING_FRAMES <= p < Covered(c)
  }

  ghost predicate AllPlaced(c: Ctl, tag: seq<int>, era: seq<nat>)
    requires |tag| == |era|
  {
    forall j :: 0 <= j < |tag| ==> WordPlaced(c, j, tag[j], era[j])
  }

  lemma PlaceInSlot(format: Format, hist: seq<Pcm>, j: nat, word: uint32, tag: int, era: nat)
    requires Holds(format, hist, j, word, tag, era) && tag >= 0
    ensures PlaceOf(tag, era) % RING_FRAMES == j / 4
  {
    hide EncodedWord, Slot;
    SlotCongruent(tag, era);
  }

  /** Two places of one slot within one ring of each other are the same. */
  lemma SamePlace(p: int, q: int)
    requires p % RING_FRAMES == q % RING_FRAMES && -RING_FRAMES < p - q < RING_FRAMES
    ensures p == q
  {
    assert p - q == (p / RING_FRAMES - q / RING_FRAMES) * RING_FRAMES;
    Multiples(p / RING_FRAMES - q / RING_FRAMES, RING_FRAMES);
  }

  lemma PositionInSlot(c: Ctl)
    ensures Position(c) % RING_FRAMES == Slot(c.n, c.epoch)
  {
    SlotCongruent(c.n, c.epoch);
  }

  /** Position and Covered as a frame is completed. */
  lemma PlacesAdvance(c: Ctl)
    requires Ok(c) && MayStore(c) && c.part == 3 && c.primed
    ensures var d := FrameDone(c);
            && Covered(d) == Covered(c) + (if Position(c) == Covered(c) then 1 else 0)
            && Position(d) == Position(c) + 1 - BUFFER_SIZE * (d.epoch - c.epoch)
            && (d.epoch != c.epoch ==>
                  d.epoch == c.epoch + 1 && Position(c) == Covered(c) && (c.n + 1) % BUFFER_SIZE == 0)
            && Position(c) <= Covered(c) <= Position(c) + BUFFER_SIZE
  {
    hide Slot;
    OffsetAdvance(c.n);
  }

  lemma WithinABuffer(c: Ctl)
    requires c.base <= c.n
    ensures Position(c) <= Covered(c) <= Position(c) + BUFFER_SIZE
  {
  }

  /** A full ring of places is always written; a rewound read loop stands in the last of its buffers. */
  lemma CoveredShape(c: Ctl)
    requires Ok(c) && c.primed
    ensures Covered(c) >= RING_FRAMES && Covered(c) >= Position(c) >= Covered(c) - BUFFER_SIZE
    ensures Position(c) < Covered(c) ==> c.epoch > 0 && c.n - c.base < BUFFER_SIZE && Covered(c) % BUFFER_SIZE == 0
  {
    hide Slot, Filling;
    if Position(c) < Covered(c) {
      RemainderIs(Covered(c), BUFFER_SIZE, c.base / BUFFER_SIZE - (c.epoch - 1), 0);
    }
  }

  /** A stored word has the place of the frame under way. */
  lemma StoreKeepsPlaces(c: Ctl, tag: seq<int>, era: seq<nat>, j: nat)
    requires |tag| == |era| == RING_WORDS && AllPlaced(c, tag, era)
    requires c.base <= c.n && c.part < 4 && j == 4 * Slot(c.n, c.epoch) + c.part
    ensures AllPlaced(c.(part := c.part + 1), tag[j := c.n], era[j := c.epoch])
  {
    hide Slot;
    PositionInSlot(c);
    WithinABuffer(c);
    var d, tag', era' := c.(part := c.part + 1), tag[j := c.n], era[j := c.epoch];
    forall k | 0 <= k < RING_WORDS
      ensures WordPlaced(d, k, tag'[k], era'[k])
    {
      assert WordPlaced(c, k, tag[k], era[k]);
      if k != j {
        SlotAndPart(k, Slot(c.n, c.epoch), c.part);
      }
    }
  }

  lemma SlotAndPart(k: nat, slot: nat, part: nat)
    requires part < 4 && k != 4 * slot + part
    ensures !(k / 4 == slot && k % 4 == part)
  {
  }

  /** The place one ring back shares its slot with the frame just completed. */
  lemma OldestGone(c: Ctl, p: int, j: nat)
    requires p % RING_FRAMES == j / 4
    ensures p == Covered(c) - RING_FRAMES && Position(c) == Covered(c) ==> Fresh(c.(part := 4), j)
  {
    var x := Covered(c);
    if p == x - RING_FRAMES {
      RemainderIs(x, RING_FRAMES, p / RING_FRAMES + 1, p % RING_FRAMES);
    }
  }

  lemma DoneKeepsPlace(c: Ctl, d: Ctl, j: nat, tag: int, era: nat)
    requires WordPlaced(c.(part := 4), j, tag, era) && PlaceOf(tag, era) % RING_FRAMES == j / 4
    requires d.part == 0 && Covered(d) == Covered(c) + (if Position(c) == Covered(c) then 1 else 0)
    ensures WordPlaced(d, j, tag, era)
  {
    OldestGone(c, PlaceOf(tag, era), j);
  }

  /** A completed frame is one more place, or a place written again. */
  lemma DoneKeepsPlaces(format: Format, hist: seq<Pcm>, words: seq<uint32>, c: Ctl, d: Ctl,
                        tag: seq<int>, era: seq<nat>)
    requires |words| == |tag| == |era| == RING_WORDS && AllHold(format, hist, words, tag, era)
    requires d.part == 0 && Covered(d) == Covered(c) + (if Position(c) == Covered(c) then 1 else 0)
    requires AllPlaced(c.(part := 4), tag, era) && forall j :: 0 <= j < RING_WORDS ==> tag[j] >= 0
    ensures AllPlaced(d, tag, era)
  {
    hide Holds, WordPlaced, PlaceOf, Position, Covered;
    forall j | 0 <= j < RING_WORDS
      ensures WordPlaced(d, j, tag[j], era[j])
    {
      assert WordPlaced(c.(part := 4), j, tag[j], era[j]);
      RingWord(j);
      assert Holds(format, hist, j % RING_WORDS, words[j], tag[j], era[j]);
      PlaceInSlot(format, hist, j, words[j], tag[j], era[j]);
      DoneKeepsPlace(c, d, j, tag[j], era[j]);
    }
  }

  lemma RingWord(j: nat)
    requires j < RING_WORDS
    ensures j % RING_WORDS == j
  {
  }

  /** A full preload leaves places 0 to 6143. */
  lemma StartPlaces(c: Ctl, tag: seq<int>, era: seq<nat>)
    requires Ok(c) && |tag| == |era| == RING_WORDS && Step(c, Start).Some? && Step(c, Start).value.primed
    requires Window(tag, era, c.n, 0, 0, 0)
    ensures AllPlaced(Step(c, Start).value, tag, era)
  {
    hide Window;
    var d := Step(c, Start).value;
    forall j | 0 <= j < RING_WORDS
      ensures WordPlaced(d, j, tag[j], era[j])
    {
      FullWindowUniform(tag, era, c.n, 0, 0, j);
    }
  }

  /** Steps that store nothing leave the places as they are. */
  lemma OtherStepsKeepPlaces(c: Ctl, op: Op)
    requires Step(c, op).Some? && !op.Store? && op != Start
    ensures var d := Step(c, op).value;
            d.n == c.n && d.epoch == c.epoch && d.base == c.base && d.part == c.part && d.primed == c.primed
  {
  }

  lemma SamePlaces(c: Ctl, d: Ctl, tag: seq<int>, era: seq<nat>)
    requires |tag| == |era| && AllPlaced(c, tag, era)
    requires d.n == c.n && d.epoch == c.epoch && d.base == c.base && d.part == c.part
    ensures AllPlaced(d, tag, era)
  {
    forall j | 0 <= j < |tag|
      ensures WordPlaced(d, j, tag[j], era[j])
    {
      assert WordPlaced(c, j, tag[j], era[j]);
    }
  }

  lemma StoreStepKeepsPlaces(format: Format, s: Sys, pcm: Pcm)
    requires Inv(format, s) && s.ctl.primed && AllPlaced(s.ctl, s.tag, s.era)
    requires Step(s.ctl, Store(s.ctl.part, pcm)).Some?
    ensures Address(s.ctl) < RING_WORDS
    ensures var r := Stored(format, s, pcm, Step(s.ctl, Store(s.ctl.part, pcm)).value); AllPlaced(r.ctl, r.tag, r.era)
  {
    hide EncodedWord, Window, AllHold, AllPlaced;
    StoreKeepsInv(format, s, pcm);
    AddressIsSlot(s.ctl);
    var r := Stored(format, s, pcm, Step(s.ctl, Store(s.ctl.part, pcm)).value);
    StoreKeepsPlaces(s.ctl, s.tag, s.era, Address(s.ctl));
    if s.ctl.part == 3 {
      PlacesAdvance(s.ctl);
      DoneKeepsPlaces(format, r.hist, r.mem, s.ctl, r.ctl, r.tag, r.era);
    } else {
      SamePlaces(s.ctl.(part := s.ctl.part + 1), r.ctl, r.tag, r.era);
    }
  }

  lemma NextKeepsPlaces(format: Format, s: Sys, act: Act)
    requires Inv(format, s) && Next(format, s, act).Some?
    requires s.ctl.primed ==> AllPlaced(s.ctl, s.tag, s.era)
    ensures var r := Next(format, s, act).value; r.ctl.primed ==> AllPlaced(r.ctl, r.tag, r.era)
  {
    hide AllPlaced, AllHold, Window, EncodedWord, Recent;
    match act
    case Dma =>
    case Cpu(op) =>
      if op.Store? {
        if s.ctl.primed {
          StoreStepKeepsPlaces(format, s, op.pcm);
        } else {
          assert !Step(s.ctl, op).value.primed;
        }
      } else if op == Start {
        if Step(s.ctl, Start).value.primed {
          StartPlaces(s.ctl, s.tag, s.era);
        }
      } else {
        OtherStepsKeepPlaces(s.ctl, op);
        if s.ctl.primed {
          SamePlaces(s.ctl, Step(s.ctl, op).value, s.tag, s.era);
        }
      }
  }

  /** At every moment of every interleaving with a full preload, whatever the timing and however
      many the underruns, the ring holds the last 6144 places, each in its slot. */
  lemma {:induction false} RunPlaces(format: Format, b: Behaviour, i: nat)
    requires IsRun(format, b) && i < |b.states| && b.states[i].ctl.primed
    ensures AllPlaced(b.states[i].ctl, b.states[i].tag, b.states[i].era)
  {
    hide AllPlaced, Inv, Next;
    if i > 0 {
      assert Next(format, b.states[i - 1], b.acts[i - 1]) == Some(b.states[i]);
      RunInv(format, b, i - 1);
      if b.states[i - 1].ctl.primed {
        RunPlaces(format, b, i - 1);
      }
      NextKeepsPlaces(format, b.states[i - 1], b.acts[i - 1]);
    }
  }
}
