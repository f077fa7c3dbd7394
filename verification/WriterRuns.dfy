/** Runs of the writer on its own, and why they stand for every interleaving. */
module WriterRuns {
  import opened Words
  import opened BiphaseMark
  import opened Frames
  import opened RingArithmetic
  import opened Transport
  import opened Interleaving

  /** The state after a run of the writer with the engine at rest. */
  function Effect(format: Format, ops: seq<Op>): (r: Option<Sys>)
    ensures r.Some? ==> Shaped(r.value)
  {
    if |ops| == 0 then Some(PowerOn())
    else match Effect(format, ops[..|ops| - 1])
      case None => None
      case Some(s) => Next(format, s, Cpu(ops[|ops| - 1]))
  }

  /** The writer's steps in an interleaving. */
  function Project(acts: seq<Act>): (ops: seq<Op>) {
    if |acts| == 0 then []
    else match acts[|acts| - 1]
      case Dma => Project(acts[..|acts| - 1])
      case Cpu(op) => Project(acts[..|acts| - 1]) + [op]
  }

  lemma EffectSnoc(format: Format, ops: seq<Op>, op: Op)
    ensures Effect(format, ops + [op])
         == match Effect(format, ops) case None => None case Some(s) => Next(format, s, Cpu(op))
  {
    assert (ops + [op])[..|ops|] == ops;
  }

  lemma {:induction false} EffectInv(format: Format, ops: seq<Op>)
    requires Effect(format, ops).Some?
    ensures Inv(format, Effect(format, ops).value)
  {
    hide Inv, Next;
    if |ops| == 0 {
      InitInv(format);
    } else {
      EffectInv(format, ops[..|ops| - 1]);
      NextKeepsInv(format, Effect(format, ops[..|ops| - 1]).value, Cpu(ops[|ops| - 1]));
    }
  }

  ghost predicate SameWriter(s: Sys, w: Sys) {
    s.ctl == w.ctl && s.hist == w.hist && s.mem == w.mem && s.tag == w.tag && s.era == w.era
  }

  lemma SameStep(format: Format, s: Sys, w: Sys, op: Op)
    requires Shaped(s) && Shaped(w) && SameWriter(s, w) && Next(format, s, Cpu(op)).Some?
    ensures Next(format, w, Cpu(op)).Some?
    ensures SameWriter(Next(format, s, Cpu(op)).value, Next(format, w, Cpu(op)).value)
  {
    hide EncodedWord, Step;
  }

  /** The engine changes nothing the writer sees or leaves behind: at any moment i of any
      interleaving the memory, the control state and the frames encoded are those of the
      writer's own run. */
  lemma {:induction false} EngineOnlyReads(format: Format, b: Behaviour, i: nat)
    requires IsRun(format, b) && i < |b.states|
    ensures Effect(format, Project(b.acts[..i])).Some?
    ensures SameWriter(b.states[i], Effect(format, Project(b.acts[..i])).value)
  {
    if i > 0 {
      var front, act := b.acts[..i - 1], b.acts[i - 1];
      assert b.acts[..i] == front + [act];
      assert Next(format, b.states[i - 1], act) == Some(b.states[i]);
      ProjectSnoc(front, act);
      EngineOnlyReads(format, b, i - 1);
      hide Effect, Next, Project, IsRun, SameWriter;
      SameMoment(format, b.states[i - 1], act, b.states[i], Project(front));
    }
  }

  /** One act of the interleaving, and what the writer's own run makes of it. */
  lemma SameMoment(format: Format, s: Sys, act: Act, r: Sys, ops: seq<Op>)
    requires Shaped(s) && Next(format, s, act) == Some(r)
    requires Effect(format, ops).Some? && SameWriter(s, Effect(format, ops).value)
    ensures var longer := ops + if act.Cpu? then [act.op] else [];
            Effect(format, longer).Some? && SameWriter(r, Effect(format, longer).value)
  {
    hide Effect, Next;
    if act.Cpu? {
      EffectSnoc(format, ops, act.op);
      SameStep(format, s, Effect(format, ops).value, act.op);
    } else {
      EngineStep(format, s);
      assert ops + [] == ops;
    }
  }

  lemma ProjectSnoc(acts: seq<Act>, act: Act)
    ensures Project(acts + [act]) == Project(acts) + if act.Cpu? then [act.op] else []
  {
    assert (acts + [act])[..|acts|] == acts;
  }

  lemma EngineStep(format: Format, s: Sys)
    requires Shaped(s) && Next(format, s, Dma).Some?
    ensures SameWriter(Next(format, s, Dma).value, s)
  {
  }

  /** The interleaving in which the engine rests throughout. */
  function Alone(format: Format, ops: seq<Op>): (b: Behaviour)
    requires Effect(format, ops).Some?
    ensures |b.acts| == |ops| && |b.states| == |ops| + 1 && b.states[|ops|] == Effect(format, ops).value
  {
    if |ops| == 0 then Behaviour([], [PowerOn()])
    else
      var b := Alone(format, ops[..|ops| - 1]);
      Behaviour(b.acts + [Cpu(ops[|ops| - 1])], b.states + [Effect(format, ops).value])
  }

  /** Conversely every run of the writer is part of some interleaving. */
  lemma {:induction false} AloneIsRun(format: Format, ops: seq<Op>)
    requires Effect(format, ops).Some?
    ensures IsRun(format, Alone(format, ops)) && Project(Alone(format, ops).acts) == ops
  {
    hide *;
    if |ops| == 0 {
      RestIsRun(format, ops);
    } else {
      var front, op := ops[..|ops| - 1], ops[|ops| - 1];
      AloneUnfolds(format, ops);
      AloneIsRun(format, front);
      ProjectSnoc(Alone(format, front).acts, Cpu(op));
      RunSnocIsRun(format, Alone(format, front), Cpu(op), Effect(format, ops).value);
      assert ops == front + [op];
    }
  }

  lemma RestIsRun(format: Format, ops: seq<Op>)
    requires |ops| == 0
    ensures Effect(format, ops).Some? && IsRun(format, Alone(format, ops)) && Project(Alone(format, ops).acts) == ops
  {
  }

  lemma AloneUnfolds(format: Format, ops: seq<Op>)
    requires |ops| > 0 && Effect(format, ops).Some?
    ensures var front, op := ops[..|ops| - 1], ops[|ops| - 1];
            && Effect(format, front).Some? && Shaped(Effect(format, ops).value)
            && var b := Alone(format, front);
               && Alone(format, ops) == Behaviour(b.acts + [Cpu(op)], b.states + [Effect(format, ops).value])
               && Next(format, b.states[|b.acts|], Cpu(op)) == Some(Effect(format, ops).value)
  {
    hide Next, Shaped;
  }

  lemma RunSnocIsRun(format: Format, b: Behaviour, act: Act, s: Sys)
    requires IsRun(format, b) && Shaped(s) && Next(format, b.states[|b.acts|], act) == Some(s)
    ensures IsRun(format, Behaviour(b.acts + [act], b.states + [s]))
  {
    hide Next;
    var c := Behaviour(b.acts + [act], b.states + [s]);
    forall i | 0 <= i < |c.acts|
      ensures Next(format, c.states[i], c.acts[i]) == Some(c.states[i + 1])
    {
      if i < |b.acts| {
        assert Next(format, b.states[i], b.acts[i]) == Some(b.states[i + 1]);
      }
    }
  }

  /** The writer's own run follows its control. */
  lemma {:induction false} EffectRuns(format: Format, ops: seq<Op>)
    requires Effect(format, ops).Some?
    ensures Run(BEGIN, ops) == Some(Effect(format, ops).value.ctl)
  {
    hide *;
    if |ops| == 0 {
      NothingRuns(format, ops);
    } else {
      var front, op := ops[..|ops| - 1], ops[|ops| - 1];
      EffectUnfolds(format, ops);
      EffectRuns(format, front);
      ControlStep(format, Effect(format, front).value, op);
      RunSnoc(BEGIN, front, op);
      assert ops == front + [op];
    }
  }

  lemma NothingRuns(format: Format, ops: seq<Op>)
    requires |ops| == 0
    ensures Effect(format, ops).Some? && Run(BEGIN, ops) == Some(Effect(format, ops).value.ctl)
  {
  }

  lemma EffectUnfolds(format: Format, ops: seq<Op>)
    requires |ops| > 0 && Effect(format, ops).Some?
    ensures var front, op := ops[..|ops| - 1], ops[|ops| - 1];
            && Effect(format, front).Some? && Shaped(Effect(format, front).value)
            && Next(format, Effect(format, front).value, Cpu(op)) == Some(Effect(format, ops).value)
  {
    hide Next, Shaped;
  }

  lemma ControlStep(format: Format, s: Sys, op: Op)
    requires Shaped(s) && Next(format, s, Cpu(op)).Some?
    ensures Step(s.ctl, op) == Some(Next(format, s, Cpu(op)).value.ctl)
  {
    hide EncodedWord, Step;
  }

  /** The control state once a frame's four words are in. */
  function AfterFrame(c: Ctl, pcm: Pcm): (d: Ctl)
    ensures d.n == c.n + 1 && d.part == 0
  {
    FrameDone(c.(pcm := pcm))
  }

  function FrameOps(pcm: Pcm): seq<Op> {
    [Store(0, pcm)] + [Store(1, pcm)] + [Store(2, pcm)] + [Store(3, pcm)]
  }

  function PutFrame(mem: seq<uint32>, address: nat, words: seq<uint32>): (r: seq<uint32>)
    requires address + 4 <= |mem| && |words| == 4
    ensures |r| == |mem|
  {
    mem[address := words[0]][address + 1 := words[1]][address + 2 := words[2]][address + 3 := words[3]]
  }

  lemma OneStore(format: Format, ops: seq<Op>, s: Sys, pcm: Pcm)
    requires Effect(format, ops) == Some(s)
    requires MayStore(s.ctl) && s.ctl.part < 3 && (s.ctl.part > 0 ==> s.ctl.pcm == pcm)
    ensures Inv(format, s) && Address(s.ctl) < RING_WORDS
    ensures Effect(format, ops + [Store(s.ctl.part, pcm)])
         == Some(Stored(format, s, pcm, s.ctl.(part := s.ctl.part + 1, pcm := pcm)))
  {
    hide Effect, EncodedWord, Stored, Inv;
    EffectInv(format, ops);
    StoreKeepsInv(format, s, pcm);
    EffectSnoc(format, ops, Store(s.ctl.part, pcm));
  }

  lemma LastStore(format: Format, ops: seq<Op>, s: Sys, pcm: Pcm)
    requires Effect(format, ops) == Some(s)
    requires MayStore(s.ctl) && s.ctl.part == 3 && s.ctl.pcm == pcm
    ensures Inv(format, s) && Address(s.ctl) < RING_WORDS
    ensures Effect(format, ops + [Store(3, pcm)]) == Some(Stored(format, s, pcm, FrameDone(s.ctl)))
  {
    hide Effect, EncodedWord, Stored, Inv, FrameDone;
    EffectInv(format, ops);
    StoreKeepsInv(format, s, pcm);
    EffectSnoc(format, ops, Store(s.ctl.part, pcm));
  }

  /** Four stores encode one frame into its slot. */
  lemma FourStores(format: Format, ops: seq<Op>, s: Sys, pcm: Pcm)
    requires Effect(format, ops) == Some(s) && MayStore(s.ctl) && s.ctl.part == 0
    ensures Address(s.ctl) + 4 <= RING_WORDS
    ensures Effect(format, ops + FrameOps(pcm)).Some?
    ensures var r := Effect(format, ops + FrameOps(pcm)).value;
            && r.ctl == AfterFrame(s.ctl, pcm)
            && r.hist == s.hist + [pcm]
            && r.mem == PutFrame(s.mem, Address(s.ctl), FrameWords(format, s.ctl.n % 192, pcm))
  {
    hide Effect, EncodedWord, Inv, FrameWords;
    var c := s.ctl;
    OneStore(format, ops, s, pcm);
    var s1 := Stored(format, s, pcm, c.(part := 1, pcm := pcm));
    var ops1 := ops + [Store(0, pcm)];
    OneStore(format, ops1, s1, pcm);
    var s2 := Stored(format, s1, pcm, c.(part := 2, pcm := pcm));
    var ops2 := ops1 + [Store(1, pcm)];
    OneStore(format, ops2, s2, pcm);
    var s3 := Stored(format, s2, pcm, c.(part := 3, pcm := pcm));
    var ops3 := ops2 + [Store(2, pcm)];
    LastStore(format, ops3, s3, pcm);
    assert ops3 + [Store(3, pcm)] == ops + FrameOps(pcm);
    FourWords(format, s, pcm);
  }

  lemma FourWords(format: Format, s: Sys, pcm: Pcm)
    requires Shaped(s) && s.ctl.part == 0 && Address(s.ctl) + 4 <= RING_WORDS
    ensures var c := s.ctl;
            var s1 := Stored(format, s, pcm, c.(part := 1, pcm := pcm));
            var s2 := Stored(format, s1, pcm, c.(part := 2, pcm := pcm));
            var s3 := Stored(format, s2, pcm, c.(part := 3, pcm := pcm));
            var r := Stored(format, s3, pcm, FrameDone(s3.ctl));
            && r.ctl == AfterFrame(c, pcm) && r.hist == s.hist + [pcm]
            && r.mem == PutFrame(s.mem, Address(c), FrameWords(format, c.n % 192, pcm))
  {
    hide FrameWords;
  }
}
