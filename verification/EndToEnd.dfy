/** From the bytes of the input to the samples a listener hears. */
module EndToEnd {
  import opened BiphaseMark
  import opened LineStream
  import opened Frames
  import opened RingArithmetic
  import opened Transport
  import opened Interleaving
  import opened Fifo
  import opened Places
  import opened KeptFrames
  import opened Listening
  import opened WriterRuns
  import opened Playback
  import opened Input
  import opened Accounting
  import opened Driver

  /** Before the first fill completes, and outside one, every frame stored is an input frame. */
  lemma {:induction false} OnlyInputSoFar(format: Format, ops: seq<Op>)
    requires Effect(format, ops).Some?
    requires var c := Effect(format, ops).value.ctl; c.epoch == 0 && Reading(c)
    ensures var s := Effect(format, ops).value;
            s.ctl.n <= |s.hist| && InputFrames(ops) == s.hist[..s.ctl.n]
  {
    if |ops| == 0 {
    } else {
      var front, op := ops[..|ops| - 1], ops[|ops| - 1];
      assert ops == front + [op];
      EffectSnoc(format, front, op);
      InputFramesSnoc(front, op);
      hide Effect, InputFrames, Run, Inv, Next;
      EffectInv(format, front);
      EffectRuns(format, front);
      var s := Effect(format, front).value;
      ControlStep(format, s, op);
      EpochZeroBefore(format, s, op);
      OnlyInputSoFar(format, front);
      InputStep(format, s, op);
    }
  }

  lemma EpochZeroBefore(format: Format, s: Sys, op: Op)
    requires Inv(format, s) && Step(s.ctl, op).Some?
    requires Step(s.ctl, op).value.epoch == 0 && Reading(Step(s.ctl, op).value)
    ensures s.ctl.epoch == 0 && Reading(s.ctl)
  {
    hide AllHold, Window, Recent;
  }

  lemma InputStep(format: Format, s: Sys, op: Op)
    requires Inv(format, s) && Next(format, s, Cpu(op)).Some? && Reading(s.ctl)
    ensures var r := Next(format, s, Cpu(op)).value;
            && s.ctl.n <= |s.hist| && r.ctl.n <= |r.hist|
            && r.hist[..r.ctl.n] == s.hist[..s.ctl.n] + if op.Store? && op.part == 3 then [op.pcm] else []
  {
    hide AllHold, Window, Recent, EncodedWord;
    if op.Store? && op.part == 3 {
      assert s.hist[..s.ctl.n + 1] == s.hist[..s.ctl.n] + [s.hist[s.ctl.n]];
    }
  }

  /** At every moment the input among the frames kept is the input encoded: what the end of a fill
      cuts is fill. */
  lemma {:induction false} KeepsAllInput(format: Format, b: Behaviour, i: nat)
    requires IsRun(format, b) && i < |b.states|
    ensures EndsInFill(b.states[i].ctl, Kept(b, i))
    ensures InputOf(Kept(b, i)) == InputFrames(Project(b.acts[..i]))
  {
    if i == 0 {
    } else {
      var front, act := b.acts[..i - 1], b.acts[i - 1];
      assert b.acts[..i] == front + [act];
      assert Next(format, b.states[i - 1], act) == Some(b.states[i]);
      ProjectSnoc(front, act);
      hide Next, Project, InputFrames, InputOf, EndsInFill, Inv, IsRun, KeptNext;
      KeepsAllInput(format, b, i - 1);
      InputMoment(format, b, i - 1);
      if act.Cpu? {
        InputFramesSnoc(Project(front), act.op);
        CpuKeepsInput(format, b.states[i - 1], act.op, Kept(b, i - 1));
      } else {
        DmaKeepsInput(format, b.states[i - 1], Kept(b, i - 1));
      }
    }
  }

  lemma InputMoment(format: Format, b: Behaviour, i: nat)
    requires IsRun(format, b) && i < |b.states|
    ensures Inv(format, b.states[i]) && Run(BEGIN, Project(b.acts[..i])) == Some(b.states[i].ctl)
  {
    hide Next, Inv, Run;
    RunInv(format, b, i);
    EngineOnlyReads(format, b, i);
    EffectRuns(format, Project(b.acts[..i]));
  }

  lemma CpuKeepsInput(format: Format, s: Sys, op: Op, kept: seq<Encoded>)
    requires Inv(format, s) && Next(format, s, Cpu(op)).Some? && EndsInFill(s.ctl, kept)
    ensures var d := Next(format, s, Cpu(op)).value.ctl;
            var next := KeptNext(s.ctl, Cpu(op), d, kept);
            && EndsInFill(d, next)
            && InputOf(next) == InputOf(kept) + if op.Store? && op.part == 3 && Reading(s.ctl) then [op.pcm] else []
  {
    hide AllHold, Window, Recent, EncodedWord, Step, KeptNext, EndsInFill;
    StepEndsInFill(s.ctl, op, kept);
  }

  lemma DmaKeepsInput(format: Format, s: Sys, kept: seq<Encoded>)
    requires Shaped(s) && Next(format, s, Dma).Some? && EndsInFill(s.ctl, kept)
    ensures var d := Next(format, s, Dma).value.ctl; KeptNext(s.ctl, Dma, d, kept) == kept && EndsInFill(d, kept)
  {
  }

  /** At moment i of an interleaving within the program's timing, the writer has made these accesses. */
  ghost predicate RunsProgram(format: Format, b: Behaviour, i: nat, ops: seq<Op>) {
    && PromptState(format, b, i)
    && Project(b.acts[..i]) == ops
    && AllRepresentable(format, b.states[i].hist)
  }

  /** The program's run on a script of reads, interleaved in any way with the engine but within the
      program's timing, over any number of underruns and replays: a listener plays the frames heard.
      When each lap read again is cut out, they are the first of the frames laid down, of which the
      input is all the pairs the script accounts for, in order. What is not heard yet is a tail. */
  lemma ListenerHearsInput(format: Format, script: seq<ReadResult>, ops: seq<Op>, b: Behaviour, i: nat, s: Sys)
    requires AllFit(format, script) && InputFrames(ops) == ProgramPairs(format, script)
    requires RunsProgram(format, b, i, ops) && s == b.states[i]
    ensures WholeFrames(s) <= |Heard(b, i)|
    ensures Play(format, Receive(WireOf(s))) == Samples(Heard(b, i)[..WholeFrames(s)])
    ensures OncePlaced(Laid(b, i), Heard(b, i), Once(b, i), Laps(b, i))
    ensures InputOf(Laid(b, i)) == ProgramPairs(format, script)
    ensures InputOf(Laid(b, i)[..|Once(b, i)|]) <= ProgramPairs(format, script)
  {
    hide Project, InputFrames, ProgramPairs, IsRun, Prompt, Receive, WireOf, WholeFrames, Play, AllRepresentable,
         AllFit, Heard, Laid, Once, Laps, InputOf, Samples, OncePlaced;
    PlaysHeard(format, b, i, s);
    HeardOnce(format, b, i);
    InputLaid(format, b, i, ops);
    InputOfPrefix(Laid(b, i), |Once(b, i)|);
  }

  lemma PlaysHeard(format: Format, b: Behaviour, i: nat, s: Sys)
    requires PromptState(format, b, i) && s == b.states[i] && AllRepresentable(format, s.hist)
    ensures WholeFrames(s) <= |Heard(b, i)|
    ensures Play(format, Receive(WireOf(s))) == Samples(Heard(b, i)[..WholeFrames(s)])
  {
    hide IsRun, Prompt, Laps, Receive, WireOf, WholeFrames, Play, AllRepresentable, Heard, SlotsOf;
    HeardRepresentable(format, b, i);
    WirePlaysBack(format, b, i, s, Heard(b, i), 0);
    SamplesPrefix(format, Heard(b, i), WholeFrames(s));
  }

  lemma HeardOnce(format: Format, b: Behaviour, i: nat)
    requires PromptState(format, b, i)
    ensures OncePlaced(Laid(b, i), Heard(b, i), Once(b, i), Laps(b, i)) && |Once(b, i)| <= |Laid(b, i)|
  {
    hide IsRun, PromptTo, StreamOf, Heard, Once, Laid, Kept, Laps, Covered, Position, Known, Labelled, Listed;
    TransmitsHeard(format, b, i);
  }

  /** What a fill has laid down last is not input, so all the input laid down is kept. */
  lemma InputLaid(format: Format, b: Behaviour, i: nat, ops: seq<Op>)
    requires RunsProgram(format, b, i, ops)
    ensures InputOf(Laid(b, i)) == InputFrames(ops)
  {
    hide Next, Prompt, InputFrames, Project, InputOf, Kept, Cut, Inv, Known, InRing, EndsInFill, Consecutive, Laps;
    KeepsAllInput(format, b, i);
    RunInv(format, b, i);
    PartsOf(format, b.states[i]);
    RunKept(format, b, i);
    RunFill(format, b, i);
    CutIsFill(b.states[i].ctl, Kept(b, i), Cut(b, i), b.states[i].hist);
  }

  lemma CutIsFill(c: Ctl, kept: seq<Encoded>, cut: seq<Encoded>, hist: seq<Pcm>)
    requires Ok(c) && c.primed && |kept| == Position(c) && (c.epoch > 0 ==> CutOk(c, kept, cut, hist))
    ensures InputOf(LaidOf(c, kept, cut)) == InputOf(kept)
  {
    hide InputOf;
    LaidLength(c, kept, cut, hist);
    CoveredShape(c);
    hide Ok, Covered, Position;
    var laid := LaidOf(c, kept, cut);
    assert laid[..|kept|] == kept;
    forall p | |kept| <= p < |laid|
      ensures !laid[p].input
    {
      assert laid[p] == cut[|cut| - |laid| + p];
    }
    InputOfCut(laid, |kept|);
  }

  lemma HeardRepresentable(format: Format, b: Behaviour, i: nat)
    requires PromptState(format, b, i) && AllRepresentable(format, b.states[i].hist)
    ensures AllRepresentable(format, Samples(Heard(b, i)))
  {
    hide IsRun, Heard, Kept, Laid, Once, Laps, PcmRepresentable, Known, Labelled, OncePlaced;
    TransmitsHeard(format, b, i);
    forall p | 0 <= p < |Heard(b, i)|
      ensures PcmRepresentable(format, Samples(Heard(b, i))[p])
    {
      assert Samples(Heard(b, i))[p] == b.states[i].hist[Heard(b, i)[p].number];
    }
  }

  /** While no fill has completed or begun, and between frames, what a listener plays is exactly the
      first of the script's pairs, and the last of them has not been transmitted whole. */
  lemma ListenerHearsPairs(format: Format, script: seq<ReadResult>, ops: seq<Op>, b: Behaviour, i: nat, s: Sys)
    requires AllFit(format, script) && InputFrames(ops) == ProgramPairs(format, script)
    requires RunsProgram(format, b, i, ops) && s == b.states[i] && s.ctl.epoch == 0 && s.ctl.mode.Main?
    ensures WholeFrames(s) < |ProgramPairs(format, script)| <= WholeFrames(s) + RING_FRAMES
    ensures Play(format, Receive(WireOf(s))) == ProgramPairs(format, script)[..WholeFrames(s)]
  {
    hide ProgramPairs, IsRun, Prompt, Project, Receive, WireOf, Play, AllRepresentable, AllFit, Kept, Heard, Laid,
         Once, Laps, InputOf, InputFrames, OncePlaced, Samples, WholeFrames;
    ListenerHearsInput(format, script, ops, b, i, s);
    AllKeptIsInput(format, b, i, ops, s);
    HeardIsKept(format, b, i, ops, s);
    SamplesOfFirst(Heard(b, i), Kept(b, i), WholeFrames(s));
  }

  lemma SamplesOfFirst(heard: seq<Encoded>, kept: seq<Encoded>, m: nat)
    requires heard <= kept && m <= |heard|
    ensures Samples(heard[..m]) == Samples(kept)[..m]
  {
  }

  lemma HeardIsKept(format: Format, b: Behaviour, i: nat, ops: seq<Op>, s: Sys)
    requires RunsProgram(format, b, i, ops) && s == b.states[i] && s.ctl.epoch == 0
    ensures Heard(b, i) <= Kept(b, i)
    ensures WholeFrames(s) < |Kept(b, i)| <= WholeFrames(s) + RING_FRAMES
  {
    hide Next, Timely, Prompt, Project, AllRepresentable, Inv, Stale;
    PrimedIsSound(s.ctl);
    PromptRunIsTimed(b, i);
    FirstEpochPrompt(format, b, i);
    TransmitsKept(format, b, i);
    TransmitsHeard(format, b, i);
    NothingCutYet(b, i);
    TailUnsent(format, b, i);
    hide Heard, Laid, Kept, Once, Laps, StreamOf, Known, Listed, OncePlaced, Covered, Position;
  }

  lemma AllKeptIsInput(format: Format, b: Behaviour, i: nat, ops: seq<Op>, s: Sys)
    requires RunsProgram(format, b, i, ops) && s == b.states[i] && s.ctl.epoch == 0 && s.ctl.mode.Main?
    ensures Samples(Kept(b, i)) == InputFrames(ops)
  {
    hide Next, Project, Prompt, AllRepresentable, InputFrames, Effect, Inv, Kept, Laps;
    EngineOnlyReads(format, b, i);
    OnlyInputSoFar(format, ops);
    forall p: nat | p < s.ctl.n
      ensures |Kept(b, i)| == s.ctl.n && Samples(Kept(b, i))[p] == s.hist[p]
    {
      FirstEpochKept(format, b, i, p);
    }
    FirstEpochKept(format, b, i, 0);
  }

  // ----- the polls -----

  /** The polls before moment k. */
  function PollsBefore(b: Behaviour, k: nat): nat
    requires k <= |b.acts|
  {
    |PollBlocks(Project(b.acts[..k]))|
  }

  predicate IsPoll(act: Act) {
    act.Cpu? && act.op.Poll?
  }

  lemma PollBlocksNext(b: Behaviour, i: nat)
    requires i < |b.acts|
    ensures PollBlocks(Project(b.acts[..i + 1]))
         == PollBlocks(Project(b.acts[..i])) + if IsPoll(b.acts[i]) then [b.acts[i].op.block] else []
  {
    hide Project, PollBlocks;
    assert b.acts[..i + 1] == b.acts[..i] + [b.acts[i]];
    ProjectSnoc(b.acts[..i], b.acts[i]);
    if b.acts[i].Cpu? {
      PollBlocksSnoc(Project(b.acts[..i]), b.acts[i].op);
    } else {
      assert Project(b.acts[..i + 1]) == Project(b.acts[..i]);
    }
  }

  /** The blocks reported stay in the order of the polls. */
  lemma {:induction false} PollInOrder(b: Behaviour, i: nat, k: nat)
    requires k < i <= |b.acts| && IsPoll(b.acts[k])
    ensures PollsBefore(b, k) < PollsBefore(b, i)
    ensures PollBlocks(Project(b.acts[..i]))[PollsBefore(b, k)] == b.acts[k].op.block
  {
    hide Project, PollBlocks;
    PollBlocksNext(b, i - 1);
    if k < i - 1 {
      PollInOrder(b, i - 1, k);
    }
  }

  /** The polls of a run that holds the program's accesses are truthful, as its timing assumes, exactly when
      the blocks the program was answered are those the engine was on at the moments it asked. */
  lemma PollsTrueIff(schedule: nat -> nat, b: Behaviour, i: nat, polls: nat)
    requires i <= |b.acts| < |b.states| && Answered(schedule, Project(b.acts[..i]), polls)
    ensures (forall k :: 0 <= k < i ==> TruePoll(b.states[k], b.acts[k]))
       <==> (forall k :: 0 <= k < i && IsPoll(b.acts[k])
                         ==> schedule(PollsBefore(b, k)) == |b.states[k].out| / 8192 % 3)
  {
    hide Project, PollBlocks, PollsBefore;
    forall k | 0 <= k < i
      ensures TruePoll(b.states[k], b.acts[k])
         <==> (IsPoll(b.acts[k]) ==> schedule(PollsBefore(b, k)) == |b.states[k].out| / 8192 % 3)
    {
      if IsPoll(b.acts[k]) {
        PollAnswered(schedule, b, i, k, polls);
      }
    }
  }

  lemma PollAnswered(schedule: nat -> nat, b: Behaviour, i: nat, k: nat, polls: nat)
    requires k < i <= |b.acts| && IsPoll(b.acts[k]) && Answered(schedule, Project(b.acts[..i]), polls)
    ensures PollsBefore(b, k) < polls && b.acts[k].op.block == schedule(PollsBefore(b, k))
  {
    hide Project, PollBlocks;
    PollInOrder(b, i, k);
  }

  // ----- the end of the program -----

  /** The program does not wait for the end of the stream: at every moment, the one where the read loop
      meets the end of the file included, frames have been laid down that the engine has not transmitted
      whole: at least one, and at most three buffers. */
  lemma TailUnheard(format: Format, b: Behaviour, i: nat)
    requires PromptState(format, b, i)
    ensures |Laid(b, i)| == Covered(b.states[i].ctl)
    ensures var whole := WholeFrames(b.states[i]) - RING_FRAMES * Laps(b, i);
            0 <= whole < |Laid(b, i)| <= whole + RING_FRAMES
  {
    hide IsRun, PromptTo, Heard, Laid, Kept, Once, Laps, StreamOf, Known, Labelled, Listed, OncePlaced, Covered,
         Position;
    TransmitsHeard(format, b, i);
    PromptRunIsTimed(b, i);
    TailUnsent(format, b, i);
    OnceNotNegative(format, b, i);
  }

  lemma OnceNotNegative(format: Format, b: Behaviour, i: nat)
    requires PromptState(format, b, i)
    ensures Passed(|b.states[i].out|, Laps(b, i)) >= 0
  {
    hide Next, Prompt, Laps, Inv, Ahead, EngineAt;
    PromptRunIsTimed(b, i);
    TimedAhead(format, b, i);
    RunInv(format, b, i);
    PartsOf(format, b.states[i]);
    AheadFromStart(b.states[i].ctl, EngineAt(|b.states[i].out|, Laps(b, i)));
    PassedWithin(|b.states[i].out|, Laps(b, i));
  }

  /** When the engine is started it has transmitted nothing. */
  lemma StartsSilent(format: Format, b: Behaviour, i: nat)
    requires IsRun(format, b) && 0 < i < |b.states| && b.acts[i - 1] == Cpu(Start)
    ensures b.states[i].out == []
  {
    hide Next, Inv;
    RunInv(format, b, i - 1);
    assert Next(format, b.states[i - 1], b.acts[i - 1]) == Some(b.states[i]);
    SilentBefore(format, b.states[i - 1]);
  }

  lemma SilentBefore(format: Format, s: Sys)
    requires Inv(format, s) && Next(format, s, Cpu(Start)).Some?
    ensures Next(format, s, Cpu(Start)).value.out == []
  {
    hide AllHold, Window, Recent;
  }

  lemma LastAct(b: Behaviour, i: nat)
    requires 0 < i <= |b.acts| && b.acts[i - 1].Cpu?
    ensures Project(b.acts[..i]) == Project(b.acts[..i - 1]) + [b.acts[i - 1].op]
  {
    assert b.acts[..i] == b.acts[..i - 1] + [b.acts[i - 1]];
    ProjectSnoc(b.acts[..i - 1], b.acts[i - 1]);
  }

  /** A file of at most 6144 pairs is encoded in full and not heard: the program's last access is to start
      the engine, which has transmitted nothing at that moment in any interleaving. */
  lemma ShortFileUnheard(format: Format, pairs: seq<Pcm>, ops: seq<Op>, b: Behaviour, i: nat)
    requires |pairs| <= RING_FRAMES && AllRepresentable(format, pairs)
    requires EndedInPreload(format, Reads(format, AllOf(pairs)) + [END]) ==> EndsWithStart(ops)
    requires IsRun(format, b) && 0 < i < |b.states| && Project(b.acts[..i]) == ops && b.acts[i - 1].Cpu?
    ensures b.states[i].out == []
  {
    hide Next, Project, Reads, AllRepresentable, EndedInPreload;
    ShortFileEnds(format, pairs);
    LastAct(b, i);
    StartsSilent(format, b, i);
  }
}
