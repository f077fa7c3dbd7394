/** Which of a file's frames are encoded: the read that ends the preload is discarded, and the
    end of the file repeats the pair read last. */
module Accounting {
  import opened Words
  import opened BiphaseMark
  import opened SubframeCoder
  import opened Frames
  import opened RingArithmetic
  import opened Input

  /** A read that delivers a whole pair, and one that delivers nothing. */
  function Whole(format: Format, pcm: Pcm): ReadResult {
    ReadResult(SampleBytes(format, pcm.a) + SampleBytes(format, pcm.b), false)
  }

  const NOTHING := ReadResult([], false)
  const END := ReadResult([], true)

  /** Reads that each deliver a pair, or fail for want of one. */
  function Reads(format: Format, deliveries: seq<Option<Pcm>>): (results: seq<ReadResult>)
    ensures |results| == |deliveries|
  {
    if |deliveries| == 0 then []
    else
      var last := deliveries[|deliveries| - 1];
      Reads(format, deliveries[..|deliveries| - 1]) + [if last.Some? then Whole(format, last.value) else NOTHING]
  }

  function Delivered(deliveries: seq<Option<Pcm>>): seq<Pcm> {
    if |deliveries| == 0 then []
    else
      var last := deliveries[|deliveries| - 1];
      Delivered(deliveries[..|deliveries| - 1]) + if last.Some? then [last.value] else []
  }

  function AllOf(pairs: seq<Pcm>): (deliveries: seq<Option<Pcm>>)
    ensures |deliveries| == |pairs|
    ensures forall i :: 0 <= i < |pairs| ==> deliveries[i] == Some(pairs[i])
  {
    seq(|pairs|, i requires 0 <= i < |pairs| => Some(pairs[i]))
  }

  /** The pair the sample buffer holds: the last one delivered. */
  function Held(before: Pcm, deliveries: seq<Option<Pcm>>): Pcm {
    var pairs := Delivered(deliveries);
    if |pairs| == 0 then before else pairs[|pairs| - 1]
  }

  ghost predicate Playable(format: Format, deliveries: seq<Option<Pcm>>) {
    forall i :: 0 <= i < |deliveries| && deliveries[i].Some? ==> PcmRepresentable(format, deliveries[i].value)
  }

  lemma WholeRead(format: Format, buffer: seq<uint8>, pcm: Pcm)
    requires |buffer| == SAMPLES_SIZE && PcmRepresentable(format, pcm)
    ensures var r := Whole(format, pcm);
            Fits(format, r) && Items(format, r) == 2
            && |Landed(buffer, r)| == SAMPLES_SIZE && PairIn(format, Landed(buffer, r)) == pcm
  {
    var a, b := SampleBytes(format, pcm.a), SampleBytes(format, pcm.b);
    ParseRoundTrip(format, pcm.a);
    ParseRoundTrip(format, pcm.b);
    var landed := a + b + buffer[|a + b|..];
    ParsePrefix(format, a, b + buffer[|a + b|..]);
    ParsePrefix(format, b, buffer[|a + b|..]);
    assert landed == a + (b + buffer[|a + b|..]);
    assert landed[SampleSize(format)..] == b + buffer[|a + b|..];
  }

  lemma ParsePrefix(format: Format, sample: seq<uint8>, rest: seq<uint8>)
    requires |sample| == SampleSize(format)
    ensures ParseSample(format, sample + rest) == ParseSample(format, sample)
  {
  }

  lemma NoRead(format: Format, buffer: seq<uint8>, eof: bool)
    ensures var r := ReadResult([], eof);
            Fits(format, r) && Items(format, r) == 0 && Landed(buffer, r) == buffer
  {
  }

  lemma DeliverySnoc(format: Format, deliveries: seq<Option<Pcm>>)
    requires |deliveries| > 0
    ensures var front, last := deliveries[..|deliveries| - 1], deliveries[|deliveries| - 1];
            && Reads(format, deliveries)
            == Reads(format, front) + [if last.Some? then Whole(format, last.value) else NOTHING]
            && Delivered(deliveries) == Delivered(front) + if last.Some? then [last.value] else []
  {
  }

  /** The read loop encodes exactly the pairs delivered, in order, over any number of underruns. */
  lemma {:induction false} LoopEncodesDelivered(format: Format, buffer: seq<uint8>, deliveries: seq<Option<Pcm>>)
    requires |buffer| == SAMPLES_SIZE && Playable(format, deliveries)
    ensures AllFit(format, Reads(format, deliveries))
    ensures LoopPairs(format, buffer, Reads(format, deliveries)) == Delivered(deliveries)
    ensures |BufferAfter(buffer, Reads(format, deliveries))| == SAMPLES_SIZE
    ensures PairIn(format, BufferAfter(buffer, Reads(format, deliveries))) == Held(PairIn(format, buffer), deliveries)
  {
    if |deliveries| > 0 {
      var front, last := deliveries[..|deliveries| - 1], deliveries[|deliveries| - 1];
      DeliverySnoc(format, deliveries);
      hide Reads, Delivered, LoopPairs, BufferAfter, Whole, PairIn, AllFit, Landed, PcmRepresentable, Items;
      LoopEncodesDelivered(format, buffer, front);
      var results := Reads(format, front);
      var held := BufferAfter(buffer, results);
      if last.Some? {
        WholeRead(format, held, last.value);
        LoopPairsSnoc(format, buffer, results, Whole(format, last.value));
        BufferAfterSnoc(buffer, results, Whole(format, last.value));
      } else {
        NoRead(format, held, false);
        LoopPairsSnoc(format, buffer, results, NOTHING);
        BufferAfterSnoc(buffer, results, NOTHING);
      }
    }
  }

  /** The preload encodes the pairs it accepts. */
  lemma {:induction false} PreloadEncodesAll(format: Format, buffer: seq<uint8>, pairs: seq<Pcm>)
    requires |buffer| == SAMPLES_SIZE && AllRepresentable(format, pairs)
    ensures AllFit(format, Reads(format, AllOf(pairs)))
    ensures PreloadPairs(format, buffer, Reads(format, AllOf(pairs))) == pairs
    ensures |BufferAfter(buffer, Reads(format, AllOf(pairs)))| == SAMPLES_SIZE
    ensures |pairs| > 0 ==> PairIn(format, BufferAfter(buffer, Reads(format, AllOf(pairs)))) == pairs[|pairs| - 1]
  {
    hide *;
    if |pairs| == 0 {
      PreloadEncodesNone(format, buffer, pairs);
    } else {
      var front, last := pairs[..|pairs| - 1], pairs[|pairs| - 1];
      FrontPairs(format, pairs);
      PreloadEncodesAll(format, buffer, front);
      var results := Reads(format, AllOf(front));
      WholeRead(format, BufferAfter(buffer, results), last);
      PreloadPairsSnoc(format, buffer, results, Whole(format, last));
      BufferAfterSnoc(buffer, results, Whole(format, last));
      assert pairs == front + [last];
    }
  }

  lemma PreloadEncodesNone(format: Format, buffer: seq<uint8>, pairs: seq<Pcm>)
    requires |pairs| == 0 && |buffer| == SAMPLES_SIZE
    ensures AllFit(format, Reads(format, AllOf(pairs)))
    ensures PreloadPairs(format, buffer, Reads(format, AllOf(pairs))) == pairs
    ensures |BufferAfter(buffer, Reads(format, AllOf(pairs)))| == SAMPLES_SIZE
  {
  }

  lemma FrontPairs(format: Format, pairs: seq<Pcm>)
    requires |pairs| > 0 && AllRepresentable(format, pairs)
    ensures AllRepresentable(format, pairs[..|pairs| - 1]) && PcmRepresentable(format, pairs[|pairs| - 1])
    ensures Reads(format, AllOf(pairs))
         == Reads(format, AllOf(pairs[..|pairs| - 1])) + [Whole(format, pairs[|pairs| - 1])]
  {
    hide Whole, PcmRepresentable;
    assert AllOf(pairs)[..|pairs| - 1] == AllOf(pairs[..|pairs| - 1]);
    DeliverySnoc(format, AllOf(pairs));
  }

  lemma {:induction false} ReadsAt(format: Format, deliveries: seq<Option<Pcm>>, i: nat)
    requires i < |deliveries|
    ensures Reads(format, deliveries)[i] == if deliveries[i].Some? then Whole(format, deliveries[i].value) else NOTHING
    ensures Reads(format, deliveries)[..i] == Reads(format, deliveries[..i])
  {
    hide Whole;
    if i < |deliveries| - 1 {
      ReadsAt(format, deliveries[..|deliveries| - 1], i);
      assert deliveries[..|deliveries| - 1][..i] == deliveries[..i];
    }
  }

  /** The preload takes one read after another until the ring is full. */
  lemma {:induction false} AcceptsWhole(format: Format, script: seq<ReadResult>, i: nat, k: nat)
    requires i <= k <= |script| && k <= RING_FRAMES
    requires forall j :: i <= j < k ==> Items(format, script[j]) > 0
    requires k == |script| || k == RING_FRAMES || Items(format, script[k]) == 0
    ensures Accepted(format, script, i) == k
    decreases k - i
  {
    if i < k {
      AcceptsWhole(format, script, i + 1, k);
    }
  }

  /** The loop goes on while no read meets the end. */
  lemma {:induction false} LoopsToEnd(script: seq<ReadResult>, i: nat)
    requires i < |script| && script[|script| - 1].eof
    requires forall j :: 0 <= j < |script| - 1 ==> !script[j].eof
    ensures LoopEnd(script, i) == |script|
    decreases |script| - i
  {
    assert !Ended(script[..i]);
    if i + 1 < |script| {
      LoopsToEnd(script, i + 1);
    }
  }

  /** The program's pairs, once it is known where its two loops stop. */
  lemma PairsBetween(format: Format, script: seq<ReadResult>, k: nat, c: nat)
    requires AllFit(format, script) && Accepted(format, script, 0) == k < |script| && c == k + 1
    requires LoopEnd(script, c) == c || LoopEnd(script, c) == |script|
    ensures AllFit(format, script[..k]) && AllFit(format, script[..c]) && AllFit(format, script[c..])
    ensures |BufferAfter(ZEROED, script[..c])| == SAMPLES_SIZE
    ensures ProgramPairs(format, script)
         == PreloadPairs(format, ZEROED, script[..k])
          + if LoopEnd(script, c) == c then [] else LoopPairs(format, BufferAfter(ZEROED, script[..c]), script[c..])
  {
    hide PreloadPairs, BufferAfter, Fits;
    BufferSize(format, ZEROED, script[..c]);
    assert LoopPairs(format, BufferAfter(ZEROED, script[..c]), script[c..c]) == [];
    assert script[c..|script|] == script[c..];
  }

  /** A file no longer than the ring is encoded in full, unchanged. */
  lemma ShortFile(format: Format, pairs: seq<Pcm>)
    requires |pairs| <= RING_FRAMES && AllRepresentable(format, pairs)
    ensures AllFit(format, Reads(format, AllOf(pairs)) + [END])
    ensures ProgramPairs(format, Reads(format, AllOf(pairs)) + [END]) == pairs
  {
    hide Whole, PairIn, Landed, Accepted, AllRepresentable, PreloadPairs, LoopPairs, BufferAfter, ProgramPairs, Items,
         Reads;
    var n, results := |pairs|, Reads(format, AllOf(pairs));
    var script := results + [END];
    PreloadEncodesAll(format, ZEROED, pairs);
    WholeItems(format, pairs);
    NoRead(format, ZEROED, true);
    AcceptsWhole(format, script, 0, n);
    assert script[..n] == results && script[..n + 1] == script;
    assert script[n].eof && Ended(script[..n + 1]);
    PairsBetween(format, script, n, n + 1);
  }

  /** A file of an odd number of samples that ends in the preload: the last one is encoded on the left, and
      beside it once more the right sample of the pair before, or 0 if there is none. */
  lemma OddFile(format: Format, pairs: seq<Pcm>, x: int32, eof: bool)
    requires |pairs| < RING_FRAMES && AllRepresentable(format, pairs) && Representable(DepthOf(format), x)
    ensures var script := Reads(format, AllOf(pairs)) + [ReadResult(SampleBytes(format, x), eof), END];
            AllFit(format, script)
            && ProgramPairs(format, script) == pairs + [Pcm(x, if |pairs| == 0 then 0 else pairs[|pairs| - 1].b)]
  {
    hide Whole, PairIn, Landed, Accepted, AllRepresentable, PreloadPairs, LoopPairs, BufferAfter, ProgramPairs, Items,
         Reads, SampleBytes, Representable, AllFit;
    var n, results, odd := |pairs|, Reads(format, AllOf(pairs)), ReadResult(SampleBytes(format, x), eof);
    var script := results + [odd, END];
    PreloadEncodesAll(format, ZEROED, pairs);
    BufferSize(format, ZEROED, results);
    OddRead(format, BufferAfter(ZEROED, results), x, eof);
    PreloadPairsSnoc(format, ZEROED, results, odd);
    BufferAfterSnoc(ZEROED, results, odd);
    HeldAtFirst(format, results, pairs);
    NoRead(format, ZEROED, true);
    OneFits(format, odd);
    OneFits(format, END);
    FitsConcat(format, [odd], [END]);
    FitsConcat(format, results, [odd] + [END]);
    assert [odd] + [END] == [odd, END];
    WholeItems(format, pairs);
    AcceptsWhole(format, script, 0, n + 1);
    assert script[..n + 1] == results + [odd] && script[..n + 2] == script;
    assert script[n + 1].eof && Ended(script[..n + 2]);
    PairsBetween(format, script, n + 1, n + 2);
  }

  lemma HeldAtFirst(format: Format, results: seq<ReadResult>, pairs: seq<Pcm>)
    requires |results| == |pairs| && |BufferAfter(ZEROED, results)| == SAMPLES_SIZE
    requires |pairs| > 0 ==> PairIn(format, BufferAfter(ZEROED, results)) == pairs[|pairs| - 1]
    ensures PairIn(format, BufferAfter(ZEROED, results)).b == if |pairs| == 0 then 0 else pairs[|pairs| - 1].b
  {
  }

  /** One sample read over a pair replaces its left sample only. */
  lemma OddRead(format: Format, buffer: seq<uint8>, x: int32, eof: bool)
    requires |buffer| == SAMPLES_SIZE && Representable(DepthOf(format), x)
    ensures var r := ReadResult(SampleBytes(format, x), eof);
            Fits(format, r) && Items(format, r) == 1 && |Landed(buffer, r)| == SAMPLES_SIZE
            && PairIn(format, Landed(buffer, r)) == Pcm(x, PairIn(format, buffer).b)
  {
    var a, size := SampleBytes(format, x), SampleSize(format);
    var landed := a + buffer[size..];
    ParseRoundTrip(format, x);
    ParsePrefix(format, a, buffer[size..]);
    assert landed[size..] == buffer[size..];
  }

  /** The preload meets its end. */
  lemma ShortFileEnds(format: Format, pairs: seq<Pcm>)
    requires |pairs| <= RING_FRAMES && AllRepresentable(format, pairs)
    ensures EndedInPreload(format, Reads(format, AllOf(pairs)) + [END])
  {
    hide Whole, Accepted, AllRepresentable, Items, Reads;
    var n, script := |pairs|, Reads(format, AllOf(pairs)) + [END];
    WholeItems(format, pairs);
    NoRead(format, ZEROED, true);
    AcceptsWhole(format, script, 0, n);
    assert script[..n + 1] == script && script[n].eof;
  }

  lemma WholeItems(format: Format, pairs: seq<Pcm>)
    requires AllRepresentable(format, pairs)
    ensures forall j :: 0 <= j < |pairs| ==>
      Items(format, Reads(format, AllOf(pairs))[j]) == 2 && !Reads(format, AllOf(pairs))[j].eof
  {
    forall j | 0 <= j < |pairs|
      ensures Items(format, Reads(format, AllOf(pairs))[j]) == 2 && !Reads(format, AllOf(pairs))[j].eof
    {
      ReadsAt(format, AllOf(pairs), j);
      WholeRead(format, ZEROED, pairs[j]);
    }
  }

  /** The reads of a file longer than the ring: the preload's, the one that finds it full,
      then deliveries and underruns as they come, then the end. */
  function LongScript(format: Format, first: seq<Pcm>, dropped: Pcm, deliveries: seq<Option<Pcm>>): seq<ReadResult> {
    Reads(format, AllOf(first)) + [Whole(format, dropped)] + (Reads(format, deliveries) + [END])
  }

  /** A longer file is encoded without pair number 6144, and with a repeat of the pair read last. */
  lemma LongFile(format: Format, first: seq<Pcm>, dropped: Pcm, deliveries: seq<Option<Pcm>>)
    requires |first| == RING_FRAMES && AllRepresentable(format, first)
    requires PcmRepresentable(format, dropped) && Playable(format, deliveries)
    ensures AllFit(format, LongScript(format, first, dropped, deliveries))
    ensures ProgramPairs(format, LongScript(format, first, dropped, deliveries))
         == first + Delivered(deliveries) + [Held(dropped, deliveries)]
  {
    hide Whole, PairIn, Landed, Accepted, AllRepresentable, PcmRepresentable, Playable, PreloadPairs, LoopPairs,
         BufferAfter, ProgramPairs, Items, Reads, Delivered, Held, Ended, LoopEnd;
    var script, k := LongScript(format, first, dropped, deliveries), RING_FRAMES;
    var head, tail := Reads(format, AllOf(first)), Reads(format, deliveries) + [END];
    PreloadEncodesAll(format, ZEROED, first);
    var atFull := BufferAfter(ZEROED, head);
    WholeRead(format, atFull, dropped);
    BufferAfterSnoc(ZEROED, head, Whole(format, dropped));
    var resumed := Landed(atFull, Whole(format, dropped));
    LoopEncodesDelivered(format, resumed, deliveries);
    EndRepeats(format, resumed, deliveries);
    LongScriptStops(format, first, dropped, deliveries);
    assert script[..k] == head && script[..k + 1] == head + [Whole(format, dropped)] && script[k + 1..] == tail;
    PairsBetween(format, script, k, k + 1);
  }

  /** At the end of the file the loop takes what the buffer still holds. */
  lemma EndRepeats(format: Format, buffer: seq<uint8>, deliveries: seq<Option<Pcm>>)
    requires |buffer| == SAMPLES_SIZE && Playable(format, deliveries)
    ensures AllFit(format, Reads(format, deliveries) + [END])
    ensures LoopPairs(format, buffer, Reads(format, deliveries) + [END])
         == Delivered(deliveries) + [Held(PairIn(format, buffer), deliveries)]
  {
    hide Reads, Delivered, LoopPairs, BufferAfter, PairIn, Landed, Playable, Held, Items;
    LoopEncodesDelivered(format, buffer, deliveries);
    var held := BufferAfter(buffer, Reads(format, deliveries));
    NoRead(format, held, true);
    LoopPairsSnoc(format, buffer, Reads(format, deliveries), END);
    BufferAfterSnoc(buffer, Reads(format, deliveries), END);
  }

  lemma LongScriptStops(format: Format, first: seq<Pcm>, dropped: Pcm, deliveries: seq<Option<Pcm>>)
    requires |first| == RING_FRAMES && AllRepresentable(format, first)
    requires PcmRepresentable(format, dropped) && Playable(format, deliveries)
    ensures var script := LongScript(format, first, dropped, deliveries);
            && AllFit(format, script) && |script| > RING_FRAMES + 1
            && Accepted(format, script, 0) == RING_FRAMES
            && LoopEnd(script, RING_FRAMES + 1) == |script|
  {
    hide Reads, Accepted, LoopEnd, Whole, Items, AllFit, AllRepresentable, PcmRepresentable, Playable;
    var script := LongScript(format, first, dropped, deliveries);
    LongScriptFits(format, first, dropped, deliveries);
    assert Accepted(format, script, 0) == RING_FRAMES by {
      WholeItems(format, first);
      AcceptsWhole(format, script, 0, RING_FRAMES);
    }
    NoEofInside(format, first, dropped, deliveries);
    LoopsToEnd(script, RING_FRAMES + 1);
  }

  lemma LongScriptFits(format: Format, first: seq<Pcm>, dropped: Pcm, deliveries: seq<Option<Pcm>>)
    requires |first| == RING_FRAMES && AllRepresentable(format, first)
    requires PcmRepresentable(format, dropped) && Playable(format, deliveries)
    ensures AllFit(format, LongScript(format, first, dropped, deliveries))
  {
    hide Reads, Whole, Fits, AllFit, AllRepresentable, PcmRepresentable, Playable;
    PreloadEncodesAll(format, ZEROED, first);
    WholeRead(format, ZEROED, dropped);
    LoopEncodesDelivered(format, ZEROED, deliveries);
    NoRead(format, ZEROED, true);
    OneFits(format, Whole(format, dropped));
    OneFits(format, END);
    FitsConcat(format, Reads(format, deliveries), [END]);
    FitsConcat(format, Reads(format, AllOf(first)), [Whole(format, dropped)]);
    FitsConcat(format, Reads(format, AllOf(first)) + [Whole(format, dropped)], Reads(format, deliveries) + [END]);
  }

  lemma OneFits(format: Format, r: ReadResult)
    requires Fits(format, r)
    ensures AllFit(format, [r])
  {
  }

  lemma FitsConcat(format: Format, a: seq<ReadResult>, b: seq<ReadResult>)
    requires AllFit(format, a) && AllFit(format, b)
    ensures AllFit(format, a + b)
  {
    hide Fits;
  }

  lemma NoEofInside(format: Format, first: seq<Pcm>, dropped: Pcm, deliveries: seq<Option<Pcm>>)
    ensures var script := LongScript(format, first, dropped, deliveries);
            script[|script| - 1] == END && forall j :: 0 <= j < |script| - 1 ==> !script[j].eof
  {
    hide Reads;
    forall j | 0 <= j < |first|
      ensures !Reads(format, AllOf(first))[j].eof
    {
      ReadsAt(format, AllOf(first), j);
    }
    forall j | 0 <= j < |deliveries|
      ensures !Reads(format, deliveries)[j].eof
    {
      ReadsAt(format, deliveries, j);
    }
  }

  /** A file longer than the ring is encoded unchanged exactly when all its pairs from number
      6144 on are the same: a single such pair is dropped and then repeated in its own place. */
  lemma LongFileUnchangedIff(format: Format, pairs: seq<Pcm>, deliveries: seq<Option<Pcm>>)
    requires |pairs| > RING_FRAMES && AllRepresentable(format, pairs)
    requires Playable(format, deliveries) && Delivered(deliveries) == pairs[RING_FRAMES + 1..]
    ensures var script := LongScript(format, pairs[..RING_FRAMES], pairs[RING_FRAMES], deliveries);
            && AllFit(format, script)
            && |ProgramPairs(format, script)| == |pairs|
            && (ProgramPairs(format, script) == pairs
                <==> forall i :: RING_FRAMES <= i < |pairs| ==> pairs[i] == pairs[RING_FRAMES])
  {
    var k := RING_FRAMES;
    hide LongScript, ProgramPairs, Playable, PcmRepresentable, Delivered;
    LongFile(format, pairs[..k], pairs[k], deliveries);
    var last := Held(pairs[k], deliveries);
    assert last == pairs[|pairs| - 1];
    ShiftedTail(pairs, k);
  }

  /** Dropping element k and repeating the last gives the sequence back exactly when it is constant from k on. */
  lemma ShiftedTail(pairs: seq<Pcm>, k: nat)
    requires k < |pairs|
    ensures var shifted := pairs[..k] + pairs[k + 1..] + [pairs[|pairs| - 1]];
            && |shifted| == |pairs|
            && (shifted == pairs <==> forall i :: k <= i < |pairs| ==> pairs[i] == pairs[k])
  {
    var shifted := pairs[..k] + pairs[k + 1..] + [pairs[|pairs| - 1]];
    assert forall i :: k <= i < |pairs| - 1 ==> shifted[i] == pairs[i + 1];
    if shifted == pairs {
      ConstantFrom(pairs, k, |pairs| - 1);
    }
  }

  lemma {:induction false} ConstantFrom(pairs: seq<Pcm>, k: nat, j: nat)
    requires k <= j < |pairs|
    requires forall i :: k < i < |pairs| ==> pairs[i - 1] == pairs[i]
    ensures forall i :: k <= i <= j ==> pairs[i] == pairs[k]
    decreases j - k
  {
    if j > k {
      ConstantFrom(pairs, k, j - 1);
      assert pairs[j - 1] == pairs[j];
    }
  }
}
