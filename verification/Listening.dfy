/** What a listener hears: the frames kept and, while the read loop waits for input, the ring replayed. */
module Listening {
  import opened Words
  import opened BiphaseMark
  import opened SubframeCoder
  import opened Frames
  import opened RingArithmetic
  import opened Transport
  import opened Interleaving
  import opened Places
  import opened Fifo
  import opened KeptFrames

  /** The frames whose first word has been read, in order, replays included. */
  ghost function Heard(b: Behaviour, i: nat): seq<Encoded>
    requires i <= |b.acts| < |b.states|
  {
    if i == 0 then []
    else HeardNext(b.states[i - 1], b.acts[i - 1], Laps(b, i - 1), Laid(b, i - 1), Heard(b, i - 1))
  }

  function HeardNext(s: Sys, act: Act, laps: nat, laid: seq<Encoded>, heard: seq<Encoded>): seq<Encoded> {
    var p := |s.out| / 4 - RING_FRAMES * laps;
    if FirstWord(s, act) && 0 <= p < |laid| then heard + [laid[p]] else heard
  }

  predicate FirstWord(s: Sys, act: Act) {
    act == Dma && |s.out| % 4 == 0
  }

  /** Which of them remain when each lap that is read again is cut out. */
  ghost function Once(b: Behaviour, i: nat): seq<nat>
    requires i <= |b.acts| < |b.states|
  {
    if i == 0 then []
    else OnceNext(b.states[i - 1], b.acts[i - 1], Laps(b, i - 1), |Heard(b, i - 1)|, Once(b, i - 1))
  }

  function OnceNext(s: Sys, act: Act, laps: nat, heard: nat, once: seq<nat>): seq<nat> {
    if FirstWord(s, act) then once + [heard]
    else if LapsNext(s, act, laps) > laps && |once| >= RING_FRAMES then once[..|once| - RING_FRAMES]
    else once
  }

  /** The frames kept fill the engine's buffer. */
  predicate Behind(c: Ctl, d: int) {
    BUFFER_SIZE * (d + 1) <= Position(c)
  }

  /** The engine is in the buffer a fill ended with, and the read loop waits for it to leave. */
  predicate LoopWaits(c: Ctl, d: int) {
    BetweenPairs(c) && BUFFER_SIZE * d <= Position(c) < BUFFER_SIZE * (d + 1) == Covered(c)
  }

  /** Every word read is of the frame listed for it. */
  ghost predicate Labelled(otag: seq<int>, heard: seq<Encoded>) {
    && |heard| == (|otag| + 3) / 4
    && forall r :: 0 <= r < |otag| ==> r / 4 < |heard| && otag[r] == heard[r / 4].number
  }

  /** Without the laps read again, place after place was read. */
  ghost predicate OncePlaced(laid: seq<Encoded>, heard: seq<Encoded>, once: seq<nat>, laps: nat) {
    && |once| == |heard| - RING_FRAMES * laps && |once| <= |laid|
    && (forall m :: 0 <= m < |once| ==> once[m] < |heard| && heard[once[m]] == laid[m])
    && forall l, m :: 0 <= l < m < |once| ==> once[l] < once[m]
  }

  ghost predicate Listed(heard: seq<Encoded>, n: nat, hist: seq<Pcm>) {
    forall m :: 0 <= m < |heard| ==> heard[m].number < n <= |hist| && hist[heard[m].number] == heard[m].pcm
  }

  ghost predicate Tracks(s: Sys, laid: seq<Encoded>, heard: seq<Encoded>, once: seq<nat>, laps: nat)
    requires Shaped(s)
  {
    && (Behind(s.ctl, EngineAt(|s.out|, laps)) || LoopWaits(s.ctl, EngineAt(|s.out|, laps)))
    && Labelled(s.otag, heard) && Listed(heard, s.ctl.n, s.hist)
    && OncePlaced(laid, heard, once, laps)
    && (|s.out| % 4 != 0 ==> |once| > 0 && once[|once| - 1] == |heard| - 1)
  }

  lemma LaidLength(c: Ctl, kept: seq<Encoded>, cut: seq<Encoded>, hist: seq<Pcm>)
    requires Ok(c) && c.primed && |kept| == Position(c) && (c.epoch > 0 ==> CutOk(c, kept, cut, hist))
    ensures |LaidOf(c, kept, cut)| == Covered(c)
    ensures OverFill(c) ==> LaidOf(c, kept, cut) == kept + cut[BUFFER_SIZE - (Covered(c) - Position(c))..]
  {
    CoveredShape(c);
    hide Ok, Covered, Position;
  }

  /** A word of the fill that the read loop has not gone over. */
  lemma FillWord(format: Format, s: Sys, kept: seq<Encoded>, cut: seq<Encoded>, j: nat, p: int)
    requires Inv(format, s) && s.ctl.primed && KeptOk(s, kept) && FillOk(s, kept, cut) && j < RING_WORDS
    requires OverFill(s.ctl) && s.ctl.part == 0
    requires PlaceOf(s.tag[j], s.era[j]) == p && Position(s.ctl) <= p < Covered(s.ctl)
    ensures p < |LaidOf(s.ctl, kept, cut)| && LaidOf(s.ctl, kept, cut)[p].number == s.tag[j]
  {
    hide Window, EncodedWord, InRing, Known, Consecutive, EndsInFill, Slot;
    var c := s.ctl;
    LaidLength(c, kept, cut, s.hist);
    CoveredShape(c);
    RingWord(j);
    assert Holds(format, s.hist, j % RING_WORDS, s.mem[j], s.tag[j], s.era[j]);
    assert s.era[j] <= c.epoch && s.era[j] + 1 >= c.epoch && 0 <= s.tag[j] < c.n;
    hide Inv, AllHold, Recent, Ok;
    var x := BUFFER_SIZE - (Covered(c) - p);
    assert s.era[j] == c.epoch - 1;
    assert LaidOf(c, kept, cut)[p] == cut[x];
  }

  /** The word about to be read is of the frame at the place the engine has reached. */
  lemma ReadsLaid(format: Format, s: Sys, kept: seq<Encoded>, cut: seq<Encoded>, laps: nat)
    requires Inv(format, s) && s.ctl.primed && AllPlaced(s.ctl, s.tag, s.era) && Ahead(s.ctl, EngineAt(|s.out|, laps))
    requires KeptOk(s, kept) && FillOk(s, kept, cut)
    requires Behind(s.ctl, EngineAt(|s.out|, laps)) || LoopWaits(s.ctl, EngineAt(|s.out|, laps))
    ensures var p, laid := |s.out| / 4 - RING_FRAMES * laps, LaidOf(s.ctl, kept, cut);
            0 <= p < |laid| && s.tag[|s.out| % RING_WORDS] == laid[p].number
  {
    var j, p := |s.out| % RING_WORDS, |s.out| / 4 - RING_FRAMES * laps;
    ReadsItsPlace(format, s, laps);
    PartsOf(format, s);
    AheadFromStart(s.ctl, EngineAt(|s.out|, laps));
    EngineNext(|s.out|, laps);
    hide Inv, AllPlaced, Known, FillOk, Ahead, EngineAt, Covered, Position, PlaceOf, Ok;
    if p < |kept| {
      assert Agrees(kept, s.tag[j], s.era[j]);
      assert kept <= LaidOf(s.ctl, kept, cut);
    } else {
      FillWord(format, s, kept, cut, j, p);
    }
  }

  lemma FirstWordLabelled(otag: seq<int>, heard: seq<Encoded>, e: Encoded)
    requires Labelled(otag, heard) && |otag| % 4 == 0
    ensures Labelled(otag + [e.number], heard + [e])
  {
  }

  lemma NextWordLabelled(otag: seq<int>, heard: seq<Encoded>)
    requires Labelled(otag, heard) && |otag| % 4 != 0
    ensures |heard| > 0 && Labelled(otag + [heard[|heard| - 1].number], heard)
  {
    assert |otag| / 4 == |heard| - 1;
  }

  lemma OnceLonger(laid: seq<Encoded>, heard: seq<Encoded>, once: seq<nat>, laps: nat, e: Encoded)
    requires OncePlaced(laid, heard, once, laps) && |once| < |laid| && laid[|once|] == e
    ensures OncePlaced(laid, heard + [e], once + [|heard|], laps)
  {
  }

  lemma OnceCut(laid: seq<Encoded>, heard: seq<Encoded>, once: seq<nat>, laps: nat)
    requires OncePlaced(laid, heard, once, laps) && |once| >= RING_FRAMES
    ensures OncePlaced(laid, heard, once[..|once| - RING_FRAMES], laps + 1)
  {
  }

  lemma OnceMoved(laid: seq<Encoded>, now: seq<Encoded>, heard: seq<Encoded>, once: seq<nat>, laps: nat)
    requires OncePlaced(laid, heard, once, laps) && |once| <= |now|
    requires forall m :: 0 <= m < |once| ==> now[m] == laid[m]
    ensures OncePlaced(now, heard, once, laps)
  {
  }

  lemma ListedLonger(heard: seq<Encoded>, n: nat, hist: seq<Pcm>, later: nat, longer: seq<Pcm>)
    requires Listed(heard, n, hist) && n <= later <= |longer| && hist <= longer
    ensures Listed(heard, later, longer)
  {
  }

  /** Where the engine is after a read. */
  lemma ReadKeepsStanding(s: Sys, laps: nat)
    requires Ok(s.ctl) && s.ctl.primed && Ahead(s.ctl, EngineAt(|s.out|, laps)) && Prompt(s, Dma, laps)
    requires Behind(s.ctl, EngineAt(|s.out|, laps)) || LoopWaits(s.ctl, EngineAt(|s.out|, laps))
    ensures var d := EngineAt(|s.out| + 1, LapsNext(s, Dma, laps)); Behind(s.ctl, d) || LoopWaits(s.ctl, d)
  {
    EnteredNext(|s.out|);
    ReadKeepsAhead(s, laps);
    hide Ok, Covered, Position, MayStore, Ahead, Behind, LoopWaits, BetweenPairs, OverFill;
    if Crosses(s, Dma) {
      CrossingKeepsStanding(s.ctl, EngineAt(|s.out|, laps));
    }
  }

  lemma CrossingKeepsStanding(c: Ctl, d: int)
    requires Ok(c) && c.primed && Ahead(c, d) && (Behind(c, d) || LoopWaits(c, d))
    requires if Stale(c, d) then OverFill(c) else Position(c) >= BUFFER_SIZE * (d + 2) || BetweenPairs(c)
    ensures if Stale(c, d) then Behind(c, d - 2) else Behind(c, d + 1) || LoopWaits(c, d + 1)
  {
    CoveredShape(c);
    CrossingKeepsAhead(c, d);
    hide Ok, Covered, Position, MayStore;
  }

  /** The first word of a frame is read. */
  lemma FirstWordTracks(s: Sys, laid: seq<Encoded>, heard: seq<Encoded>, once: seq<nat>, laps: nat, r: Sys)
    requires Shaped(s) && Shaped(r) && Tracks(s, laid, heard, once, laps) && FirstWord(s, Dma)
    requires var p := |s.out| / 4 - RING_FRAMES * laps;
             0 <= p < |laid| && r.otag == s.otag + [laid[p].number]
             && laid[p].number < s.ctl.n <= |s.hist| && s.hist[laid[p].number] == laid[p].pcm
    requires r.ctl == s.ctl && r.hist == s.hist
    requires var d := EngineAt(|r.out|, laps); Behind(r.ctl, d) || LoopWaits(r.ctl, d)
    ensures Tracks(r, laid, HeardNext(s, Dma, laps, laid, heard), OnceNext(s, Dma, laps, |heard|, once), laps)
  {
    hide EngineAt, Behind, LoopWaits;
    var e := laid[|s.out| / 4 - RING_FRAMES * laps];
    FirstWordLabelled(s.otag, heard, e);
    OnceLonger(laid, heard, once, laps, e);
  }

  /** Another word of a frame is read, which may be the last of a lap. */
  lemma NextWordTracks(s: Sys, laid: seq<Encoded>, heard: seq<Encoded>, once: seq<nat>, laps: nat, r: Sys, later: nat)
    requires Shaped(s) && Shaped(r) && Tracks(s, laid, heard, once, laps) && !FirstWord(s, Dma)
    requires var p := |s.out| / 4 - RING_FRAMES * laps; 0 <= p < |laid| && r.otag == s.otag + [laid[p].number]
    requires r.ctl == s.ctl && r.hist == s.hist && later == LapsNext(s, Dma, laps)
    requires later > laps ==> |once| >= RING_FRAMES
    requires var d := EngineAt(|r.out|, later); Behind(r.ctl, d) || LoopWaits(r.ctl, d)
    ensures Tracks(r, laid, HeardNext(s, Dma, laps, laid, heard), OnceNext(s, Dma, laps, |heard|, once), later)
  {
    hide EngineAt, Behind, LoopWaits, Listed, Stale;
    FrameUnderWay(|s.out|, laps, |once|);
    LastOnce(laid, heard, once, laps);
    NextWordLabelled(s.otag, heard);
    assert HeardNext(s, Dma, laps, laid, heard) == heard;
    if later > laps {
      LapEndsWord(s, laps);
      hide OncePlaced, LapsNext, Labelled;
      OnceCut(laid, heard, once, laps);
    } else {
      hide OncePlaced, LapsNext, Labelled;
    }
  }

  lemma LapEndsWord(s: Sys, laps: nat)
    requires LapsNext(s, Dma, laps) > laps
    ensures LapsNext(s, Dma, laps) == laps + 1 && (|s.out| + 1) % 4 == 0
  {
  }

  lemma FrameUnderWay(read: nat, laps: nat, once: int)
    requires read % 4 != 0 && once == (read + 3) / 4 - RING_FRAMES * laps
    ensures once - 1 == read / 4 - RING_FRAMES * laps
  {
  }

  lemma LastOnce(laid: seq<Encoded>, heard: seq<Encoded>, once: seq<nat>, laps: nat)
    requires OncePlaced(laid, heard, once, laps) && |once| > 0 && once[|once| - 1] == |heard| - 1
    ensures heard[|heard| - 1] == laid[|once| - 1]
  {
    assert heard[once[|once| - 1]] == laid[|once| - 1];
  }

  /** A lap is read again only when three buffers have been. */
  lemma WholeLap(s: Sys, laid: seq<Encoded>, heard: seq<Encoded>, once: seq<nat>, laps: nat)
    requires Shaped(s) && Tracks(s, laid, heard, once, laps) && LapsNext(s, Dma, laps) > laps
    requires Ok(s.ctl) && s.ctl.primed && Ahead(s.ctl, EngineAt(|s.out|, laps)) && Timely(s, Dma, laps)
    ensures |once| >= RING_FRAMES
  {
    hide Ok, Ahead, Listed, Covered;
    CoveredShape(s.ctl);
    CrossingKeepsAhead(s.ctl, EngineAt(|s.out|, laps));
    LapEnd(|s.out|, laps, |once|);
  }

  lemma LapEnd(read: nat, laps: nat, once: nat)
    requires (read + 1) % BUFFER_WORDS == 0 && once == (read + 3) / 4 - RING_FRAMES * laps
    ensures once == BUFFER_SIZE * (EngineAt(read, laps) + 1)
  {
  }

  lemma LaidListed(format: Format, s: Sys, kept: seq<Encoded>, cut: seq<Encoded>, p: nat)
    requires Inv(format, s) && s.ctl.primed && KeptOk(s, kept) && FillOk(s, kept, cut)
    requires p < |LaidOf(s.ctl, kept, cut)|
    ensures var e := LaidOf(s.ctl, kept, cut)[p];
            e.number < s.ctl.n <= |s.hist| && s.hist[e.number] == e.pcm
  {
    hide Window, AllHold, Recent, EncodedWord, InRing, Slot;
    if p >= |kept| {
      LaidLength(s.ctl, kept, cut, s.hist);
      var x := p - |kept| + BUFFER_SIZE - (Covered(s.ctl) - Position(s.ctl));
      assert LaidOf(s.ctl, kept, cut)[p] == cut[x];
    }
  }

  lemma ReadTracks(s: Sys, laid: seq<Encoded>, heard: seq<Encoded>, once: seq<nat>, laps: nat)
    requires Shaped(s) && Tracks(s, laid, heard, once, laps)
    requires var p := |s.out| / 4 - RING_FRAMES * laps;
             0 <= p < |laid| && s.tag[|s.out| % RING_WORDS] == laid[p].number
             && laid[p].number < s.ctl.n <= |s.hist| && s.hist[laid[p].number] == laid[p].pcm
    requires LapsNext(s, Dma, laps) > laps ==> |once| >= RING_FRAMES
    requires var d := EngineAt(|s.out| + 1, LapsNext(s, Dma, laps)); Behind(s.ctl, d) || LoopWaits(s.ctl, d)
    ensures Tracks(Read(s), laid, HeardNext(s, Dma, laps, laid, heard), OnceNext(s, Dma, laps, |heard|, once),
                   LapsNext(s, Dma, laps))
  {
    hide HeardNext, OnceNext, Behind, LoopWaits, Tracks, EngineAt;
    if FirstWord(s, Dma) {
      NoLapMidway(s, laps);
      FirstWordTracks(s, laid, heard, once, laps, Read(s));
    } else {
      NextWordTracks(s, laid, heard, once, laps, Read(s), LapsNext(s, Dma, laps));
    }
  }

  lemma DmaKeepsTracks(format: Format, s: Sys, kept: seq<Encoded>, cut: seq<Encoded>, heard: seq<Encoded>,
                       once: seq<nat>, laps: nat)
    requires Inv(format, s) && s.ctl.primed && AllPlaced(s.ctl, s.tag, s.era) && Ahead(s.ctl, EngineAt(|s.out|, laps))
    requires KeptOk(s, kept) && FillOk(s, kept, cut) && Prompt(s, Dma, laps)
    requires Tracks(s, LaidOf(s.ctl, kept, cut), heard, once, laps)
    ensures var laid := LaidOf(s.ctl, kept, cut);
            Tracks(Read(s), laid, HeardNext(s, Dma, laps, laid, heard), OnceNext(s, Dma, laps, |heard|, once),
                   LapsNext(s, Dma, laps))
  {
    hide Inv, KeptOk, FillOk, Prompt, Behind, LoopWaits, Ahead, Ok, LaidOf, HeardNext, OnceNext, Timely, AllPlaced,
         Labelled, Listed, OncePlaced, LapsNext, EngineAt;
    ReadsLaid(format, s, kept, cut, laps);
    PartsOf(format, s);
    ReadKeepsStanding(s, laps);
    LaidListed(format, s, kept, cut, |s.out| / 4 - RING_FRAMES * laps);
    PromptIsTimely(s, Dma, laps);
    if LapsNext(s, Dma, laps) > laps {
      WholeLap(s, LaidOf(s.ctl, kept, cut), heard, once, laps);
    }
    hide Tracks;
    ReadTracks(s, LaidOf(s.ctl, kept, cut), heard, once, laps);
  }

  lemma NoLapMidway(s: Sys, laps: nat)
    requires FirstWord(s, Dma)
    ensures LapsNext(s, Dma, laps) == laps
  {
  }

  /** The read loop, waiting for the engine to leave, only polls. */
  lemma WaitsThroughStep(c: Ctl, op: Op, d: int)
    requires Ok(c) && c.primed && d >= 0 && LoopWaits(c, d) && Step(c, op).Some?
    requires op.Poll? ==> op.block == d % BUFFER_COUNT
    ensures op.Poll? && Step(c, op).value == c
  {
    hide Slot;
    SeenInBuffer(c, d);
  }

  /** Places below the end of the engine's buffer stay as they are. */
  lemma LaidStays(c: Ctl, act: Act, d: Ctl, kept: seq<Encoded>, cut: seq<Encoded>, m: nat)
    requires m < |kept| && m < |KeptNext(c, act, d, kept)|
    ensures var next := KeptNext(c, act, d, kept);
            LaidOf(d, next, CutNext(c, act, d, kept, cut))[m] == LaidOf(c, kept, cut)[m]
  {
    hide Covered, Position;
    assert KeptNext(c, act, d, kept)[m] == kept[m];
  }

  lemma OnceWithin(read: nat, laps: nat, once: nat)
    requires once == (read + 3) / 4 - RING_FRAMES * laps
    ensures once <= BUFFER_SIZE * (EngineAt(read, laps) + 1)
  {
  }

  lemma CpuKeepsTracks(format: Format, s: Sys, op: Op, kept: seq<Encoded>, cut: seq<Encoded>, heard: seq<Encoded>,
                       once: seq<nat>, laps: nat)
    requires Inv(format, s) && s.ctl.primed && Ahead(s.ctl, EngineAt(|s.out|, laps)) && Next(format, s, Cpu(op)).Some?
    requires KeptOk(s, kept) && FillOk(s, kept, cut) && Prompt(s, Cpu(op), laps)
    requires Tracks(s, LaidOf(s.ctl, kept, cut), heard, once, laps)
    ensures var r := Next(format, s, Cpu(op)).value;
            Tracks(r, LaidOf(r.ctl, KeptNext(s.ctl, Cpu(op), r.ctl, kept), CutNext(s.ctl, Cpu(op), r.ctl, kept, cut)),
                   heard, once, laps)
  {
    var d := EngineAt(|s.out|, laps);
    PartsOf(format, s);
    AheadFromStart(s.ctl, d);
    EngineNext(|s.out|, laps);
    if Behind(s.ctl, d) {
      BehindKeepsTracks(format, s, op, kept, cut, heard, once, laps);
    } else {
      WaitsThroughStep(s.ctl, op, d);
      WaitKeepsTracks(format, s, op, kept, cut, heard, once, laps);
    }
  }

  lemma WaitKeepsTracks(format: Format, s: Sys, op: Op, kept: seq<Encoded>, cut: seq<Encoded>, heard: seq<Encoded>,
                        once: seq<nat>, laps: nat)
    requires Shaped(s) && Next(format, s, Cpu(op)).Some? && op.Poll? && Step(s.ctl, op).value == s.ctl
    requires Tracks(s, LaidOf(s.ctl, kept, cut), heard, once, laps)
    ensures var r := Next(format, s, Cpu(op)).value;
            Tracks(r, LaidOf(r.ctl, KeptNext(s.ctl, Cpu(op), r.ctl, kept), CutNext(s.ctl, Cpu(op), r.ctl, kept, cut)),
                   heard, once, laps)
  {
    hide Tracks, LaidOf, Step;
    assert Next(format, s, Cpu(op)).value == s;
  }

  /** What a step of the writer does to the history. */
  lemma HistoryGrows(format: Format, s: Sys, op: Op)
    requires Inv(format, s) && Next(format, s, Cpu(op)).Some?
    ensures var r := Next(format, s, Cpu(op)).value;
            s.hist <= r.hist && r.ctl.n >= s.ctl.n && r.out == s.out && r.otag == s.otag && r.ctl.n <= |r.hist|
            && r.ctl == Step(s.ctl, op).value
  {
    hide AllHold, Window, Recent, EncodedWord;
  }

  lemma BehindKeepsTracks(format: Format, s: Sys, op: Op, kept: seq<Encoded>, cut: seq<Encoded>, heard: seq<Encoded>,
                          once: seq<nat>, laps: nat)
    requires Inv(format, s) && s.ctl.primed && Behind(s.ctl, EngineAt(|s.out|, laps)) && Next(format, s, Cpu(op)).Some?
    requires KeptOk(s, kept) && Tracks(s, LaidOf(s.ctl, kept, cut), heard, once, laps)
    ensures var r := Next(format, s, Cpu(op)).value;
            Tracks(r, LaidOf(r.ctl, KeptNext(s.ctl, Cpu(op), r.ctl, kept), CutNext(s.ctl, Cpu(op), r.ctl, kept, cut)),
                   heard, once, laps)
  {
    var d, r := EngineAt(|s.out|, laps), Next(format, s, Cpu(op)).value;
    PartsOf(format, s);
    HistoryGrows(format, s, op);
    StepKeepsBehind(s.ctl, op, d);
    SoundAfter(format, s, Cpu(op));
    NextKeepsKept(format, s, Cpu(op), kept);
    OnceWithin(|s.out|, laps, |once|);
    var next, gone := KeptNext(s.ctl, Cpu(op), r.ctl, kept), CutNext(s.ctl, Cpu(op), r.ctl, kept, cut);
    var laid, now := LaidOf(s.ctl, kept, cut), LaidOf(r.ctl, next, gone);
    hide Inv, Known, InRing, Next, Step, KeptNext, CutNext, Ok, LaidOf, EngineAt, LoopWaits, Position;
    forall m | 0 <= m < |once|
      ensures m < |now| && now[m] == laid[m]
    {
      LaidStays(s.ctl, Cpu(op), r.ctl, kept, cut, m);
    }
    OnceMoved(laid, now, heard, once, laps);
    ListedLonger(heard, s.ctl.n, s.hist, r.ctl.n, r.hist);
  }

  /** Also the step back at the end of a fill leaves the engine behind. */
  lemma StepKeepsBehind(c: Ctl, op: Op, d: int)
    requires Ok(c) && c.primed && Behind(c, d) && Step(c, op).Some?
    ensures Behind(Step(c, op).value, d)
  {
    if op.Store? && op.part == 3 {
      PlacesAdvance(c);
      if (c.n + 1) % BUFFER_SIZE == 0 {
        AtBoundary(c.n, c.epoch, d);
      }
    }
  }

  lemma AtBoundary(n: nat, epoch: nat, d: int)
    requires BUFFER_SIZE * (d + 1) <= n - BUFFER_SIZE * epoch && (n + 1) % BUFFER_SIZE == 0
    ensures BUFFER_SIZE * (d + 2) <= n + 1 - BUFFER_SIZE * epoch
  {
  }

  lemma SoundAfter(format: Format, s: Sys, act: Act)
    requires Inv(format, s) && s.ctl.primed && Next(format, s, act).Some? && act.Cpu?
    ensures Next(format, s, act).value.ctl.primed
  {
    hide AllHold, Window, Recent, EncodedWord;
  }

  lemma StartTracks(format: Format, s: Sys, laid: seq<Encoded>)
    requires Inv(format, s) && Next(format, s, Cpu(Start)).Some? && Next(format, s, Cpu(Start)).value.ctl.primed
    ensures Tracks(Next(format, s, Cpu(Start)).value, laid, [], [], 0) && |s.out| == 0
  {
    hide AllHold, Window, Recent;
  }

  /** Nothing is heard before the engine is started. */
  lemma {:induction false} NothingHeard(format: Format, b: Behaviour, i: nat)
    requires IsRun(format, b) && i < |b.states| && !b.states[i].ctl.primed && |b.states[i].out| == 0
    ensures Heard(b, i) == [] && Once(b, i) == [] && Laps(b, i) == 0
  {
    hide Next, Inv, Stale;
    NoLapsYet(format, b, i);
    if i > 0 {
      assert Next(format, b.states[i - 1], b.acts[i - 1]) == Some(b.states[i]);
      RunInv(format, b, i - 1);
      OutputEmptyBefore(format, b.states[i - 1], b.acts[i - 1]);
      NothingHeard(format, b, i - 1);
    }
  }

  lemma PromptIsTimely(s: Sys, act: Act, laps: nat)
    requires Prompt(s, act, laps)
    ensures Timely(s, act, laps)
  {
  }

  lemma PromptRunIsTimed(b: Behaviour, i: nat)
    requires PromptTo(b, i)
    ensures TimedTo(b, i)
  {
    hide Timely;
    forall k | 0 <= k < i
      ensures Timely(b.states[k], b.acts[k], Laps(b, k))
    {
      assert Prompt(b.states[k], b.acts[k], Laps(b, k));
    }
  }

  /** What is heard unfolds with the last act. */
  lemma HeardUnfolds(b: Behaviour, i: nat)
    requires 0 < i <= |b.acts| < |b.states|
    ensures var s, act, laps, laid := b.states[i - 1], b.acts[i - 1], Laps(b, i - 1), Laid(b, i - 1);
            && Laps(b, i) == LapsNext(s, act, laps)
            && Heard(b, i) == HeardNext(s, act, laps, laid, Heard(b, i - 1))
            && Once(b, i) == OnceNext(s, act, laps, |Heard(b, i - 1)|, Once(b, i - 1))
            && Laid(b, i - 1) == LaidOf(s.ctl, Kept(b, i - 1), Cut(b, i - 1))
            && Laid(b, i) == LaidOf(b.states[i].ctl, KeptNext(s.ctl, act, b.states[i].ctl, Kept(b, i - 1)),
                                        CutNext(s.ctl, act, b.states[i].ctl, Kept(b, i - 1), Cut(b, i - 1)))
  {
    hide LapsNext, HeardNext, OnceNext, KeptNext, CutNext, LaidOf;
  }

  /** A step of the writer reads nothing. */
  lemma CpuHearsNothing(s: Sys, op: Op, laps: nat, laid: seq<Encoded>, heard: seq<Encoded>, once: seq<nat>)
    ensures LapsNext(s, Cpu(op), laps) == laps
    ensures HeardNext(s, Cpu(op), laps, laid, heard) == heard && OnceNext(s, Cpu(op), laps, |heard|, once) == once
  {
  }

  lemma ReadKeepsFrames(format: Format, s: Sys, kept: seq<Encoded>, cut: seq<Encoded>)
    requires Shaped(s) && Next(format, s, Dma).Some?
    ensures var r := Next(format, s, Dma).value;
            && r == Read(s) && r.ctl == s.ctl
            && KeptNext(s.ctl, Dma, r.ctl, kept) == kept && CutNext(s.ctl, Dma, r.ctl, kept, cut) == cut
  {
    hide EncodedWord;
  }

  lemma NextKeepsTracks(format: Format, b: Behaviour, i: nat)
    requires IsRun(format, b) && PromptTo(b, i) && i > 0 && b.states[i - 1].ctl.primed
    requires Tracks(b.states[i - 1], Laid(b, i - 1), Heard(b, i - 1), Once(b, i - 1), Laps(b, i - 1))
    ensures Tracks(b.states[i], Laid(b, i), Heard(b, i), Once(b, i), Laps(b, i))
  {
    hide Inv, Ahead, Next, Prompt, AllPlaced, KeptOk, FillOk, Tracks, EngineAt, Sound, LapsNext, HeardNext, OnceNext,
         KeptNext, CutNext, LaidOf, Laid, Heard, Once, Kept, Cut, Laps;
    var s, act := b.states[i - 1], b.acts[i - 1];
    assert Next(format, s, act) == Some(b.states[i]);
    assert Prompt(s, act, Laps(b, i - 1));
    HeardUnfolds(b, i);
    RunInv(format, b, i - 1);
    PromptRunIsTimed(b, i - 1);
    TimedAhead(format, b, i - 1);
    RunPlaces(format, b, i - 1);
    PrimedIsSound(s.ctl);
    RunKept(format, b, i - 1);
    RunFill(format, b, i - 1);
    if act == Dma {
      ReadKeepsFrames(format, s, Kept(b, i - 1), Cut(b, i - 1));
      DmaKeepsTracks(format, s, Kept(b, i - 1), Cut(b, i - 1), Heard(b, i - 1), Once(b, i - 1), Laps(b, i - 1));
    } else {
      CpuHearsNothing(s, act.op, Laps(b, i - 1), Laid(b, i - 1), Heard(b, i - 1), Once(b, i - 1));
      CpuKeepsTracks(format, s, act.op, Kept(b, i - 1), Cut(b, i - 1), Heard(b, i - 1), Once(b, i - 1), Laps(b, i - 1));
    }
  }

  lemma PrimedIsSound(c: Ctl)
    requires c.primed
    ensures Sound(c)
  {
  }

  lemma {:induction false} PromptTracks(format: Format, b: Behaviour, i: nat)
    requires IsRun(format, b) && PromptTo(b, i) && b.states[i].ctl.primed
    ensures Tracks(b.states[i], Laid(b, i), Heard(b, i), Once(b, i), Laps(b, i))
  {
    hide Inv, Next, Prompt, Tracks, LapsNext, HeardNext, OnceNext, KeptNext, CutNext, LaidOf, Laid, Heard, Once,
         Kept, Cut, Laps;
    if i > 0 {
      var s, act := b.states[i - 1], b.acts[i - 1];
      assert Next(format, s, act) == Some(b.states[i]);
      RunInv(format, b, i - 1);
      if s.ctl.primed {
        PromptTracks(format, b, i - 1);
        NextKeepsTracks(format, b, i);
      } else {
        PrimedByStart(format, s, act);
        StartTracks(format, s, Laid(b, i));
        NothingHeard(format, b, i - 1);
        HeardUnfolds(b, i);
        CpuHearsNothing(s, Start, 0, Laid(b, i - 1), [], []);
      }
    }
  }

  /** The words of a stream of frames. */
  function StreamOf(format: Format, frames: seq<Encoded>): (words: seq<uint32>)
    ensures |words| == 4 * |frames|
  {
    if |frames| == 0 then []
    else
      var last := frames[|frames| - 1];
      StreamOf(format, frames[..|frames| - 1]) + FrameWords(format, last.number % 192, last.pcm)
  }

  lemma {:induction false} StreamAt(format: Format, frames: seq<Encoded>, r: nat)
    requires r < 4 * |frames|
    ensures StreamOf(format, frames)[r] == EncodedWord(format, frames[r / 4].number, frames[r / 4].pcm, r % 4)
  {
    hide FrameWords;
    if r < 4 * (|frames| - 1) {
      StreamAt(format, frames[..|frames| - 1], r);
    } else {
      assert r / 4 == |frames| - 1;
    }
  }

  lemma WordPlaceInFrame(i: nat)
    ensures i % RING_WORDS % 4 == i % 4
  {
    RemainderIs(i % RING_WORDS, 4, i / 4 - RING_FRAMES * (i / RING_WORDS), i % 4);
  }

  lemma HeardWord(format: Format, s: Sys, heard: seq<Encoded>, r: nat)
    requires Shaped(s) && AllHold(format, s.hist, s.out, s.otag, s.oera) && Listed(heard, s.ctl.n, s.hist)
    requires r < |s.out| && r / 4 < |heard| && s.otag[r] == heard[r / 4].number
    ensures s.out[r] == StreamOf(format, heard)[r]
  {
    hide EncodedWord, StreamOf, Slot;
    assert Holds(format, s.hist, r % RING_WORDS, s.out[r], s.otag[r], s.oera[r]);
    WordPlaceInFrame(r);
    StreamAt(format, heard, r);
  }

  lemma HeardWords(format: Format, s: Sys, heard: seq<Encoded>)
    requires Inv(format, s) && Labelled(s.otag, heard) && Listed(heard, s.ctl.n, s.hist)
    ensures |s.out| <= 4 * |heard| && s.out <= StreamOf(format, heard)
  {
    var words := StreamOf(format, heard);
    hide StreamOf, Listed, AllHold, Window, Recent, Recorded, OutputRecent;
    forall r | 0 <= r < |s.out|
      ensures s.out[r] == words[r]
    {
      HeardWord(format, s, heard, r);
    }
  }

  /** In every prompt interleaving, over any number of underruns, however long the engine replays the
      ring after each: the transmitted words are those of the frames heard. When each lap read again
      is cut out, the frames heard are the first of the frames laid down: the frames kept, and beyond
      them only what the read loop has not gone over yet of the last fill. */
  lemma TransmitsHeard(format: Format, b: Behaviour, i: nat)
    requires IsRun(format, b) && PromptTo(b, i) && b.states[i].ctl.primed
    ensures var s, heard, once := b.states[i], Heard(b, i), Once(b, i);
            && |heard| == (|s.out| + 3) / 4 && s.out <= StreamOf(format, heard)
            && Labelled(s.otag, heard) && Listed(heard, s.ctl.n, s.hist)
            && OncePlaced(Laid(b, i), heard, once, Laps(b, i))
    ensures Kept(b, i) <= Laid(b, i) && |Laid(b, i)| == Covered(b.states[i].ctl)
    ensures |Kept(b, i)| == Position(b.states[i].ctl) && Known(Kept(b, i), b.states[i].ctl.n, b.states[i].hist)
  {
    PromptTracks(format, b, i);
    RunInv(format, b, i);
    RunKept(format, b, i);
    RunFill(format, b, i);
    PartsOf(format, b.states[i]);
    hide IsRun, PromptTo, StreamOf, Heard, Once, Kept, Cut, Inv, Known, InRing, Behind, LoopWaits, OncePlaced, Laps,
         EngineAt, Covered, Position, CutOk, EndsInFill, Consecutive, Ok;
    LaidLength(b.states[i].ctl, Kept(b, i), Cut(b, i), b.states[i].hist);
    HeardWords(format, b.states[i], Heard(b, i));
  }

  /** Numbers that rise within a range as long as their count are all of it. */
  lemma {:induction false} OnceAtLeast(once: seq<nat>, m: nat)
    requires m < |once| && forall l, k :: 0 <= l < k < |once| ==> once[l] < once[k]
    ensures once[m] >= m
  {
    if m > 0 {
      OnceAtLeast(once, m - 1);
      assert once[m - 1] < once[m];
    }
  }

  lemma {:induction false} OnceAtMost(once: seq<nat>, n: nat, m: nat)
    requires m < |once| && forall l, k :: 0 <= l < k < |once| ==> once[l] < once[k]
    requires forall l :: 0 <= l < |once| ==> once[l] < n
    ensures once[m] + (|once| - m) <= n
    decreases |once| - m
  {
    if m + 1 < |once| {
      OnceAtMost(once, n, m + 1);
      assert once[m] < once[m + 1];
    }
  }

  /** While nothing has been replayed, the output is a prefix of the encoded stream with the last 2048
      frames of each completed fill cut out, continued by the last fill's until the read loop goes
      over them. */
  lemma TransmitsKept(format: Format, b: Behaviour, i: nat)
    requires IsRun(format, b) && PromptTo(b, i) && b.states[i].ctl.primed && Laps(b, i) == 0
    ensures Heard(b, i) <= Laid(b, i)
    ensures b.states[i].out <= StreamOf(format, Heard(b, i))
  {
    hide Next, Prompt, StreamOf, Heard, Once, Laid, Kept, Known, Labelled, Listed, Laps, Covered, Position;
    TransmitsHeard(format, b, i);
    forall m | 0 <= m < |Heard(b, i)|
      ensures m < |Laid(b, i)| && Heard(b, i)[m] == Laid(b, i)[m]
    {
      OnceAtLeast(Once(b, i), m);
      OnceAtMost(Once(b, i), |Heard(b, i)|, m);
    }
  }

  /** A replay begun before the read loop has stored anything is of fill alone. */
  lemma LapIsFill(format: Format, b: Behaviour, i: nat, p: nat)
    requires IsRun(format, b) && i < |b.states| && b.states[i].ctl.primed
    requires var c := b.states[i].ctl;
             Position(c) == Covered(c) - BUFFER_SIZE && Covered(c) - RING_FRAMES <= p < Covered(c)
    ensures p < |Laid(b, i)| && !Laid(b, i)[p].input
  {
    hide Next, Kept, Cut, Inv, Known, InRing, EndsInFill, Consecutive;
    var c, kept, cut := b.states[i].ctl, Kept(b, i), Cut(b, i);
    RunInv(format, b, i);
    PartsOf(format, b.states[i]);
    RunKept(format, b, i);
    RunFill(format, b, i);
    CoveredShape(c);
    LaidLength(c, kept, cut, b.states[i].hist);
    FillIsLaid(c, kept, cut, b.states[i].hist, p);
  }

  lemma FillIsLaid(c: Ctl, kept: seq<Encoded>, cut: seq<Encoded>, hist: seq<Pcm>, p: nat)
    requires c.epoch > 0 && c.n - c.base < BUFFER_SIZE && |kept| == Position(c) == Covered(c) - BUFFER_SIZE
    requires CutOk(c, kept, cut, hist) && Covered(c) - RING_FRAMES <= p < Covered(c)
    ensures p < |LaidOf(c, kept, cut)| && !LaidOf(c, kept, cut)[p].input
  {
    var laid := LaidOf(c, kept, cut);
    assert laid == kept + cut;
    if p < |kept| {
      assert laid[p] == kept[p];
      assert FillStart(c) <= p < FillStart(c) + 2 * BUFFER_SIZE;
    } else {
      assert laid[p] == cut[p - |kept|];
    }
  }

  /** In every timed interleaving, prompt or not: a word read of a place below the write position is of
      the frame kept there. Of the words of the place under way and beyond, a fill's last buffer, it
      depends on whether the read loop has stored its own. */
  lemma TimedFrame(format: Format, b: Behaviour, j: nat, i: nat, r: nat)
    requires IsRun(format, b) && TimedTo(b, j) && b.states[j].ctl.primed && ReadBy(b, j, r) && j < i < |b.states|
    ensures r < |b.states[i].otag|
    ensures var p := r / 4 - RING_FRAMES * Laps(b, j);
            0 <= p && (p < |Kept(b, j)| ==> b.states[i].otag[r] == Kept(b, j)[p].number)
  {
    hide IsRun, Timely, Inv, Known, Ahead, Kept, Laps, PlaceOf, InRing;
    TimedPlace(format, b, j, i, r);
    ReadTag(format, b, j, i, r);
    ReachedFromStart(format, b, j);
    PrimedIsSound(b.states[j].ctl);
    RunKept(format, b, j);
    RingAgrees(b.states[j], Kept(b, j), r % RING_WORDS);
  }

  lemma RingAgrees(s: Sys, kept: seq<Encoded>, x: nat)
    requires Shaped(s) && InRing(kept, s.tag, s.era) && x < RING_WORDS
    ensures Agrees(kept, s.tag[x], s.era[x])
  {
  }

  lemma ReachedFromStart(format: Format, b: Behaviour, j: nat)
    requires IsRun(format, b) && TimedTo(b, j) && b.states[j].ctl.primed
    ensures |b.states[j].out| / 4 - RING_FRAMES * Laps(b, j) >= 0 && Shaped(b.states[j])
  {
    TimedAhead(format, b, j);
    RunInv(format, b, j);
    PartsOf(format, b.states[j]);
    hide IsRun, Timely, Inv, Ahead, Laps, EngineAt;
    AheadFromStart(b.states[j].ctl, EngineAt(|b.states[j].out|, Laps(b, j)));
    EngineNext(|b.states[j].out|, Laps(b, j));
  }

  // ----- before a fill completes -----

  /** There timely runs are prompt, and nothing is replayed. */
  lemma {:induction false} FirstEpochPrompt(format: Format, b: Behaviour, i: nat)
    requires IsRun(format, b) && TimedTo(b, i) && Sound(b.states[i].ctl) && b.states[i].ctl.epoch == 0
    ensures PromptTo(b, i) && Laps(b, i) == 0
  {
    hide IsRun, Timely, Prompt, Inv, Sound, LapsNext;
    if i > 0 {
      BeforeFirstEpoch(format, b, i);
      FirstEpochPrompt(format, b, i - 1);
      assert Timely(b.states[i - 1], b.acts[i - 1], Laps(b, i - 1));
      SameInFirstEpoch(b.states[i - 1], b.acts[i - 1], 0);
    }
  }

  lemma SameInFirstEpoch(s: Sys, act: Act, laps: nat)
    requires s.ctl.epoch == 0 && Timely(s, act, laps)
    ensures Prompt(s, act, laps) && LapsNext(s, act, laps) == laps
  {
  }

  /** Until a fill completes, in every timed interleaving, the i-th word transmitted is the i-th encoded:
      nothing lost, repeated or reordered. */
  lemma FirstEpochPrefix(format: Format, b: Behaviour, i: nat, r: nat)
    requires IsRun(format, b) && TimedTo(b, i) && b.states[i].ctl.primed && b.states[i].ctl.epoch == 0
    requires r < |b.states[i].out|
    ensures var s := b.states[i];
            && r / 4 < s.ctl.n <= |s.hist| && |s.otag| == |s.out|
            && s.otag[r] == r / 4 && s.out[r] == EncodedWord(format, r / 4, s.hist[r / 4], r % 4)
  {
    hide Next, Timely, Prompt, EncodedWord, Inv, Stale, Heard, Laid, Kept, StreamOf, Once, Known, Listed, OncePlaced,
         Laps;
    FirstEpochHeard(format, b, i);
    FirstEpochKept(format, b, i, r / 4);
    StreamAt(format, Heard(b, i), r);
  }

  lemma FirstEpochHeard(format: Format, b: Behaviour, i: nat)
    requires IsRun(format, b) && TimedTo(b, i) && b.states[i].ctl.primed && b.states[i].ctl.epoch == 0
    ensures Sound(b.states[i].ctl) && Heard(b, i) <= Kept(b, i) && |Heard(b, i)| == (|b.states[i].out| + 3) / 4
    ensures b.states[i].out <= StreamOf(format, Heard(b, i)) && Labelled(b.states[i].otag, Heard(b, i))
  {
    hide Next, Timely, Prompt, Inv, Stale, Heard, Kept, StreamOf, Once, Known, Listed, OncePlaced, Laps, Labelled;
    PrimedIsSound(b.states[i].ctl);
    FirstEpochPrompt(format, b, i);
    TransmitsKept(format, b, i);
    TransmitsHeard(format, b, i);
    NothingCutYet(b, i);
  }

  lemma NothingCutYet(b: Behaviour, i: nat)
    requires i <= |b.acts| < |b.states| && b.states[i].ctl.epoch == 0
    ensures Laid(b, i) == Kept(b, i)
  {
  }
}
