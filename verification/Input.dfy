/** The input file as the program meets it, and which pairs its two read loops encode. */
module Input {
  import opened Words
  import opened Frames
  import opened RingArithmetic

  /** What one fread of two samples delivers: the bytes stored, and whether it met end of file. */
  datatype ReadResult = ReadResult(bytes: seq<uint8>, eof: bool)

  const SAMPLES_SIZE := 8

  predicate Fits(format: Format, r: ReadResult) {
    |r.bytes| <= 2 * SampleSize(format)
  }

  /** Whole samples delivered. */
  function Items(format: Format, r: ReadResult): nat {
    |r.bytes| / SampleSize(format)
  }

  /** The sample buffer after a read; bytes not delivered are left from before. */
  function Landed(buffer: seq<uint8>, r: ReadResult): (landed: seq<uint8>)
    ensures |r.bytes| <= |buffer| ==> |landed| == |buffer|
  {
    if |r.bytes| <= |buffer| then r.bytes + buffer[|r.bytes|..] else r.bytes
  }

  function BufferAfter(buffer: seq<uint8>, results: seq<ReadResult>): seq<uint8> {
    if |results| == 0 then buffer else Landed(BufferAfter(buffer, results[..|results| - 1]), results[|results| - 1])
  }

  function PairIn(format: Format, buffer: seq<uint8>): Pcm
    requires |buffer| >= 2 * SampleSize(format)
  {
    Pcm(ParseSample(format, buffer), ParseSample(format, buffer[SampleSize(format)..]))
  }

  ghost predicate AllFit(format: Format, results: seq<ReadResult>) {
    forall i :: 0 <= i < |results| ==> Fits(format, results[i])
  }

  lemma {:induction false} BufferSize(format: Format, buffer: seq<uint8>, results: seq<ReadResult>)
    requires |buffer| == SAMPLES_SIZE && AllFit(format, results)
    ensures |BufferAfter(buffer, results)| == SAMPLES_SIZE
  {
    if |results| > 0 {
      BufferSize(format, buffer, results[..|results| - 1]);
    }
  }

  /** The pairs of a preload that accepted all these reads. */
  function PreloadPairs(format: Format, buffer: seq<uint8>, results: seq<ReadResult>): (pairs: seq<Pcm>)
    requires |buffer| == SAMPLES_SIZE && AllFit(format, results)
    ensures |pairs| == |results|
  {
    BufferSize(format, buffer, results);
    if |results| == 0 then []
    else PreloadPairs(format, buffer, results[..|results| - 1]) + [PairIn(format, BufferAfter(buffer, results))]
  }

  /** The pairs of a read loop over these results: a short read that is not the end is an underrun
      and gives none; at the end of the file whatever the buffer then holds is taken. */
  function LoopPairs(format: Format, buffer: seq<uint8>, results: seq<ReadResult>): seq<Pcm>
    requires |buffer| == SAMPLES_SIZE && AllFit(format, results)
  {
    BufferSize(format, buffer, results);
    if |results| == 0 then []
    else
      var last := results[|results| - 1];
      LoopPairs(format, buffer, results[..|results| - 1])
      + if Fails(format, last) then [] else [PairIn(format, BufferAfter(buffer, results))]
  }

  /** A read that fails without the end of the file. */
  predicate Fails(format: Format, r: ReadResult) {
    Items(format, r) != 2 && !r.eof
  }

  /** How many reads of the loop fail, each of which starts a fill. */
  function Underruns(format: Format, results: seq<ReadResult>): nat {
    if |results| == 0 then 0
    else Underruns(format, results[..|results| - 1]) + if Fails(format, results[|results| - 1]) then 1 else 0
  }

  /** How many reads the preload accepts from the i-th on: until one delivers nothing or the ring is full. */
  function Accepted(format: Format, script: seq<ReadResult>, i: nat): (k: nat)
    requires i <= |script|
    ensures i <= k <= |script|
    decreases |script| - i
  {
    if i == |script| || Items(format, script[i]) == 0 || i >= RING_FRAMES then i
    else Accepted(format, script, i + 1)
  }

  /** The preload takes k of the script's reads: those before the first that delivers less than a
      sample, two or three bytes, or before number 6144. */
  ghost predicate TakesFirst(format: Format, script: seq<ReadResult>, k: nat) {
    && k <= |script| && k <= 6144
    && (forall j :: 0 <= j < k ==> |script[j].bytes| >= (if format == S16le then 2 else 3))
    && (k < |script| && k < 6144 ==> |script[k].bytes| < (if format == S16le then 2 else 3))
  }

  lemma {:induction false} AcceptedTakes(format: Format, script: seq<ReadResult>, i: nat)
    requires i <= |script| && i <= 6144
    requires forall j :: 0 <= j < i ==> |script[j].bytes| >= (if format == S16le then 2 else 3)
    ensures TakesFirst(format, script, Accepted(format, script, i))
    decreases |script| - i
  {
    if i < |script| && Items(format, script[i]) > 0 && i < RING_FRAMES {
      AcceptedTakes(format, script, i + 1);
    }
  }

  /** The preload also consumes the read that stops it. */
  function Consumed(format: Format, script: seq<ReadResult>): (k: nat)
    ensures k <= |script|
  {
    var k := Accepted(format, script, 0);
    if k < |script| then k + 1 else k
  }

  /** Some of the reads met the end of the file. */
  predicate Ended(results: seq<ReadResult>) {
    exists i :: 0 <= i < |results| && results[i].eof
  }

  /** The preload has met the end of the file. */
  predicate EndedInPreload(format: Format, script: seq<ReadResult>) {
    Ended(script[..Consumed(format, script)])
  }

  /** Where the read loop stops: after the first read that meets the end, or with the script. */
  function LoopEnd(script: seq<ReadResult>, i: nat): (k: nat)
    requires i <= |script|
    ensures i <= k <= |script|
    decreases |script| - i
  {
    if Ended(script[..i]) || i == |script| then i else LoopEnd(script, i + 1)
  }

  /** The read loop makes the reads from number i on up to the first that meets the end of the file, that
      one included, or to the end of the script; none if the end had been met before. */
  ghost predicate ReadsUpTo(script: seq<ReadResult>, i: nat, k: nat) {
    && i <= k <= |script|
    && (forall j :: i <= j < k - 1 ==> !script[j].eof)
    && (k < |script| ==> exists j :: 0 <= j < k && script[j].eof)
    && (k > i ==> forall j :: 0 <= j < i ==> !script[j].eof)
  }

  lemma {:induction false} LoopEndReads(script: seq<ReadResult>, i: nat)
    requires i <= |script|
    ensures ReadsUpTo(script, i, LoopEnd(script, i))
    decreases |script| - i
  {
    if !Ended(script[..i]) && i < |script| {
      LoopEndReads(script, i + 1);
      assert forall j :: 0 <= j < i ==> script[..i][j] == script[j];
    } else if Ended(script[..i]) {
      var j :| 0 <= j < i && script[..i][j].eof;
      assert script[j].eof;
    }
  }

  const ZEROED: seq<uint8> := [0, 0, 0, 0, 0, 0, 0, 0]

  /** All pairs the program encodes from a script of reads. */
  function ProgramPairs(format: Format, script: seq<ReadResult>): seq<Pcm>
    requires AllFit(format, script)
  {
    var accepted, consumed := Accepted(format, script, 0), Consumed(format, script);
    BufferSize(format, ZEROED, script[..consumed]);
    PreloadPairs(format, ZEROED, script[..accepted])
    + LoopPairs(format, BufferAfter(ZEROED, script[..consumed]), script[consumed..LoopEnd(script, consumed)])
  }

  lemma BufferAfterSnoc(buffer: seq<uint8>, results: seq<ReadResult>, r: ReadResult)
    ensures BufferAfter(buffer, results + [r]) == Landed(BufferAfter(buffer, results), r)
  {
    assert (results + [r])[..|results|] == results;
  }

  lemma PreloadPairsSnoc(format: Format, buffer: seq<uint8>, results: seq<ReadResult>, r: ReadResult)
    requires |buffer| == SAMPLES_SIZE && AllFit(format, results) && Fits(format, r)
    ensures AllFit(format, results + [r]) && |BufferAfter(buffer, results + [r])| == SAMPLES_SIZE
    ensures PreloadPairs(format, buffer, results + [r])
         == PreloadPairs(format, buffer, results) + [PairIn(format, BufferAfter(buffer, results + [r]))]
  {
    BufferSize(format, buffer, results + [r]);
    assert (results + [r])[..|results|] == results;
  }

  lemma LoopPairsSnoc(format: Format, buffer: seq<uint8>, results: seq<ReadResult>, r: ReadResult)
    requires |buffer| == SAMPLES_SIZE && AllFit(format, results) && Fits(format, r)
    ensures AllFit(format, results + [r]) && |BufferAfter(buffer, results + [r])| == SAMPLES_SIZE
    ensures LoopPairs(format, buffer, results + [r])
         == LoopPairs(format, buffer, results)
          + if Fails(format, r) then [] else [PairIn(format, BufferAfter(buffer, results + [r]))]
  {
    BufferSize(format, buffer, results + [r]);
    assert (results + [r])[..|results|] == results;
  }

  lemma UnderrunsSnoc(format: Format, results: seq<ReadResult>, r: ReadResult)
    ensures Underruns(format, results + [r]) == Underruns(format, results) + if Fails(format, r) then 1 else 0
  {
    assert (results + [r])[..|results|] == results;
  }

  lemma EndedSnoc(results: seq<ReadResult>, r: ReadResult)
    ensures Ended(results + [r]) == (Ended(results) || r.eof)
  {
    var longer := results + [r];
    assert longer[|results|] == r;
    assert forall i :: 0 <= i < |results| ==> longer[i] == results[i];
    if Ended(results) {
      var i :| 0 <= i < |results| && results[i].eof;
      assert longer[i].eof;
    }
  }

  class InputFile {
    const script: seq<ReadResult>
    var next: nat
    var eof: bool

    constructor (script: seq<ReadResult>)
      ensures this.script == script && next == 0 && !eof
    {
      this.script := script;
      next, eof := 0, false;
    }

    /** Reads into the sample buffer; returns the number of whole items. */
    method Fread(samples: array<uint8>, size: nat) returns (items: nat)
      requires next < |script| && size > 0 && |script[next].bytes| <= samples.Length
      modifies this, samples
      ensures next == old(next) + 1
      ensures eof == (old(eof) || script[old(next)].eof)
      ensures samples[..] == Landed(old(samples[..]), script[old(next)])
      ensures items == |script[old(next)].bytes| / size
    {
      var r := script[next];
      for i := 0 to |r.bytes|
        invariant next == old(next) && eof == old(eof)
        invariant forall k :: 0 <= k < samples.Length ==> samples[k] == if k < i then r.bytes[k] else old(samples[k])
      {
        samples[i] := r.bytes[i];
      }
      items := |r.bytes| / size;
      next := next + 1;
      eof := eof || r.eof;
    }
  }
}
