/** What becomes of the bytes the read loop is given when a read may deliver part of a pair: a short
    read that is not the end of the file is thrown away, and the next one starts over with the
    first channel. */
module ShortReads {
  import opened Words
  import opened SubframeCoder
  import opened Frames
  import opened Input

  /** Bytes in a pair. */
  function PairSize(format: Format): (size: nat)
    ensures 4 <= size <= 6
  {
    2 * SampleSize(format)
  }

  /** All bytes delivered, in order. */
  function Stream(results: seq<ReadResult>): seq<uint8> {
    if |results| == 0 then [] else Stream(results[..|results| - 1]) + results[|results| - 1].bytes
  }

  /** For each byte of the sample buffer its place in the stream, or -1 if it was there before. */
  function Origins(results: seq<ReadResult>): (origins: seq<int>)
    ensures |origins| == SAMPLES_SIZE
  {
    if |results| == 0 then seq(SAMPLES_SIZE, _ => -1)
    else
      var front, last := results[..|results| - 1], results[|results| - 1];
      seq(SAMPLES_SIZE, t requires 0 <= t < SAMPLES_SIZE =>
        if t < |last.bytes| then |Stream(front)| + t else Origins(front)[t])
  }

  /** The origins of the pairs the loop encodes. */
  function EncodedOrigins(format: Format, results: seq<ReadResult>): (pairs: seq<seq<int>>)
    ensures forall m :: 0 <= m < |pairs| ==> |pairs[m]| == PairSize(format)
  {
    if |results| == 0 then []
    else
      EncodedOrigins(format, results[..|results| - 1])
      + if Fails(format, results[|results| - 1]) then [] else [Origins(results)[..PairSize(format)]]
  }

  /** The bytes of those origins; before is what the buffer held at first. */
  function BytesAt(before: seq<uint8>, stream: seq<uint8>, origins: seq<int>): (bytes: seq<uint8>)
    requires |origins| <= |before|
    ensures |bytes| == |origins|
  {
    seq(|origins|, t requires 0 <= t < |origins| => ByteAt(before, stream, origins[t], t))
  }

  function ByteAt(before: seq<uint8>, stream: seq<uint8>, origin: int, t: nat): uint8
    requires t < |before|
  {
    if 0 <= origin < |stream| then stream[origin] else before[t]
  }

  lemma {:induction false} OriginsBelow(results: seq<ReadResult>, t: nat)
    requires t < SAMPLES_SIZE
    ensures Origins(results)[t] < |Stream(results)|
  {
    if |results| > 0 {
      OriginsBelow(results[..|results| - 1], t);
    }
  }

  /** The origins say where the sample buffer's bytes come from. */
  lemma {:induction false} BufferFromStream(format: Format, before: seq<uint8>, results: seq<ReadResult>, t: nat)
    requires |before| == SAMPLES_SIZE && AllFit(format, results) && t < SAMPLES_SIZE
    ensures |BufferAfter(before, results)| == SAMPLES_SIZE
    ensures BufferAfter(before, results)[t] == ByteAt(before, Stream(results), Origins(results)[t], t)
  {
    BufferSize(format, before, results);
    if |results| > 0 {
      var front, last := results[..|results| - 1], results[|results| - 1];
      BufferSize(format, before, front);
      BufferFromStream(format, before, front, t);
      OriginsBelow(front, t);
    }
  }

  /** A pair depends on its own bytes only. */
  lemma PairPrefix(format: Format, buffer: seq<uint8>, bytes: seq<uint8>)
    requires |buffer| == SAMPLES_SIZE && |bytes| == PairSize(format)
    requires forall t :: 0 <= t < PairSize(format) ==> buffer[t] == bytes[t]
    ensures PairIn(format, buffer) == PairIn(format, bytes)
  {
    var size := SampleSize(format);
    assert forall t :: 0 <= t < size ==> buffer[size..][t] == bytes[size..][t];
  }

  /** The pair a read gives is parsed from the bytes of its origins. */
  lemma LastPair(format: Format, before: seq<uint8>, results: seq<ReadResult>)
    requires |before| == SAMPLES_SIZE && AllFit(format, results)
    ensures |BufferAfter(before, results)| == SAMPLES_SIZE
    ensures PairIn(format, BufferAfter(before, results))
         == PairIn(format, BytesAt(before, Stream(results), Origins(results)[..PairSize(format)]))
  {
    hide BufferAfter, Stream, Origins, ByteAt, PairIn;
    BufferSize(format, before, results);
    var bytes := BytesAt(before, Stream(results), Origins(results)[..PairSize(format)]);
    forall t | 0 <= t < PairSize(format)
      ensures BufferAfter(before, results)[t] == bytes[t]
    {
      BufferFromStream(format, before, results, t);
    }
    PairPrefix(format, BufferAfter(before, results), bytes);
  }

  lemma LongerStream(before: seq<uint8>, stream: seq<uint8>, more: seq<uint8>, origins: seq<int>)
    requires |origins| <= |before| && forall t :: 0 <= t < |origins| ==> origins[t] < |stream|
    ensures BytesAt(before, stream + more, origins) == BytesAt(before, stream, origins)
  {
  }

  lemma {:induction false} OriginsInStream(format: Format, results: seq<ReadResult>)
    ensures forall m, t :: 0 <= m < |EncodedOrigins(format, results)| && 0 <= t < PairSize(format)
              ==> EncodedOrigins(format, results)[m][t] < |Stream(results)|
  {
    hide Origins;
    if |results| > 0 {
      OriginsInStream(format, results[..|results| - 1]);
      forall t | 0 <= t < PairSize(format)
        ensures Origins(results)[..PairSize(format)][t] < |Stream(results)|
      {
        OriginsBelow(results, t);
      }
    }
  }

  /** So is every pair of the loop. */
  lemma {:induction false} PairFromStream(format: Format, before: seq<uint8>, results: seq<ReadResult>, m: nat)
    requires |before| == SAMPLES_SIZE && AllFit(format, results)
    ensures |LoopPairs(format, before, results)| == |EncodedOrigins(format, results)|
    ensures m < |EncodedOrigins(format, results)| ==>
      LoopPairs(format, before, results)[m]
      == PairIn(format, BytesAt(before, Stream(results), EncodedOrigins(format, results)[m]))
  {
    hide PairIn, Origins, BytesAt, BufferAfter, Fails;
    if |results| > 0 {
      var front, last := results[..|results| - 1], results[|results| - 1];
      PairFromStream(format, before, front, m);
      if m < |EncodedOrigins(format, front)| {
        OriginsInStream(format, front);
        LongerStream(before, Stream(front), last.bytes, EncodedOrigins(format, front)[m]);
      }
      LastPair(format, before, results);
    }
  }

  /** The pair each read of a preload gives is parsed from the bytes of its origins, too, however
      much or little the read delivered. */
  lemma {:induction false} PreloadPairFromStream(format: Format, before: seq<uint8>, results: seq<ReadResult>, m: nat)
    requires |before| == SAMPLES_SIZE && AllFit(format, results) && m < |results|
    ensures |PreloadPairs(format, before, results)| == |results|
    ensures PreloadPairs(format, before, results)[m]
         == PairIn(format, BytesAt(before, Stream(results), Origins(results[..m + 1])[..PairSize(format)]))
  {
    hide PairIn, Origins, BytesAt, BufferAfter;
    var front, last := results[..|results| - 1], results[|results| - 1];
    if m < |front| {
      PreloadPairFromStream(format, before, front, m);
      assert front[..m + 1] == results[..m + 1];
      OriginsOfPrefix(front, m + 1, PairSize(format));
      LongerStream(before, Stream(front), last.bytes, Origins(front[..m + 1])[..PairSize(format)]);
    } else {
      assert results[..m + 1] == results;
      LastPair(format, before, results);
    }
  }

  lemma OriginsOfPrefix(results: seq<ReadResult>, m: nat, size: nat)
    requires m <= |results| && size <= SAMPLES_SIZE
    ensures forall t :: 0 <= t < size ==> Origins(results[..m])[..size][t] < |Stream(results)|
  {
    hide Origins, Stream;
    StreamGrows(results, m);
    forall t | 0 <= t < size
      ensures Origins(results[..m])[..size][t] < |Stream(results)|
    {
      OriginsBelow(results[..m], t);
    }
  }

  lemma {:induction false} StreamGrows(results: seq<ReadResult>, m: nat)
    requires m <= |results|
    ensures |Stream(results[..m])| <= |Stream(results)|
  {
    if m < |results| {
      StreamGrows(results[..|results| - 1], m);
      assert results[..|results| - 1][..m] == results[..m];
    } else {
      assert results[..m] == results;
    }
  }

  /** Every byte delivered is encoded in its own pair and place: none lost, none moved to the other channel. */
  ghost predicate InPlace(format: Format, results: seq<ReadResult>) {
    forall o :: 0 <= o < |Stream(results)| ==> ByteInPlace(EncodedOrigins(format, results), o, PairSize(format))
  }

  predicate ByteInPlace(pairs: seq<seq<int>>, o: nat, size: nat)
    requires size > 0 && forall m :: 0 <= m < |pairs| ==> |pairs[m]| == size
  {
    o / size < |pairs| && pairs[o / size][o % size] == o
  }

  lemma OriginInPlace(format: Format, results: seq<ReadResult>, m: nat, t: nat)
    requires InPlace(format, results) && t < PairSize(format)
    requires PairSize(format) * m + t < |Stream(results)|
    ensures m < |EncodedOrigins(format, results)| && EncodedOrigins(format, results)[m][t] == PairSize(format) * m + t
  {
    hide EncodedOrigins, Stream;
    var o, size := PairSize(format) * m + t, PairSize(format);
    assert ByteInPlace(EncodedOrigins(format, results), o, size);
    RemainderIs(o, size, m, t);
    QuotientIs(o, size, m, t);
  }

  lemma QuotientIs(o: nat, size: nat, m: nat, t: nat)
    requires 4 <= size <= 6 && t < size && o == size * m + t
    ensures o / size == m
  {
    if size == 4 {
    } else if size == 5 {
    } else {
    }
  }

  /** Then the m-th pair encoded is the m-th pair of the stream. */
  lemma PairsInPlace(format: Format, before: seq<uint8>, results: seq<ReadResult>, m: nat)
    requires |before| == SAMPLES_SIZE && AllFit(format, results) && InPlace(format, results)
    requires PairSize(format) * m + PairSize(format) <= |Stream(results)|
    ensures m < |LoopPairs(format, before, results)|
    ensures LoopPairs(format, before, results)[m]
         == PairIn(format, Stream(results)[PairSize(format) * m..PairSize(format) * m + PairSize(format)])
  {
    hide PairIn, EncodedOrigins, Stream, LoopPairs, InPlace;
    var size, stream := PairSize(format), Stream(results);
    PairFromStream(format, before, results, m);
    OriginInPlace(format, results, m, 0);
    forall t | 0 <= t < size
      ensures EncodedOrigins(format, results)[m][t] == size * m + t
    {
      OriginInPlace(format, results, m, t);
    }
    assert BytesAt(before, stream, EncodedOrigins(format, results)[m]) == stream[size * m..size * m + size];
  }

  // ----- when that is so -----

  /** A read that fails after delivering something. */
  predicate Short(format: Format, r: ReadResult) {
    Fails(format, r) && |r.bytes| > 0
  }

  ghost predicate NothingAfter(results: seq<ReadResult>, i: nat) {
    forall j :: i < j < |results| ==> |results[j].bytes| == 0
  }

  /** A failed read may have delivered something only if nothing but the end of the file follows. */
  ghost predicate Clean(format: Format, results: seq<ReadResult>) {
    forall i :: 0 <= i < |results| && Short(format, results[i])
      ==> NothingAfter(results, i) && results[|results| - 1].eof
  }

  /** The end of the file ends the loop. */
  ghost predicate EndsLoop(results: seq<ReadResult>) {
    forall i :: 0 <= i < |results| - 1 ==> !results[i].eof
  }

  /** Between reads: all bytes so far encoded in place; the beginning of a pair left in the buffer by a
      failed read; or a byte gone for good. */
  datatype Stage = InStep | Holding | Lost(pair: nat)

  function StageAfter(format: Format, results: seq<ReadResult>): Stage {
    if |results| == 0 then InStep
    else
      var last := results[|results| - 1];
      match StageAfter(format, results[..|results| - 1])
      case InStep => if Short(format, last) then Holding else InStep
      case Holding => if |last.bytes| > 0 then Lost(|EncodedOrigins(format, results[..|results| - 1])|) else Holding
      case Lost(m) => Lost(m)
  }

  ghost predicate AllInOrder(pairs: seq<seq<int>>, size: nat)
    requires forall m :: 0 <= m < |pairs| ==> |pairs[m]| == size
  {
    forall m, t :: 0 <= m < |pairs| && 0 <= t < size ==> pairs[m][t] == size * m + t
  }

  lemma PlacedSnoc(pairs: seq<seq<int>>, pair: seq<int>, size: nat)
    requires forall m :: 0 <= m < |pairs| ==> |pairs[m]| == size
    requires |pair| == size && AllInOrder(pairs, size) && forall t :: 0 <= t < size ==> pair[t] == size * |pairs| + t
    ensures forall m :: 0 <= m < |pairs + [pair]| ==> |(pairs + [pair])[m]| == size
    ensures AllInOrder(pairs + [pair], size) && size * |pairs + [pair]| == size * |pairs| + size
  {
    assert |pairs + [pair]| == |pairs| + 1;
  }

  ghost predicate StageOk(stage: Stage, pairs: seq<seq<int>>, origins: seq<int>, total: nat, size: nat)
    requires |origins| == SAMPLES_SIZE >= size > 0 && forall m :: 0 <= m < |pairs| ==> |pairs[m]| == size
  {
    match stage
    case InStep => AllInOrder(pairs, size) && total == size * |pairs|
    case Holding => AllInOrder(pairs, size) && size * |pairs| < total < size * |pairs| + size
                    && forall t :: 0 <= t < total - size * |pairs| ==> origins[t] == size * |pairs| + t
    case Lost(m) => size * m < total
                    && if |pairs| <= m then |pairs| == m && origins[0] > size * m else pairs[m][0] != size * m
  }

  /** The buffer's origins after a read of k more bytes. */
  function Refreshed(origins: seq<int>, total: nat, k: nat): (now: seq<int>)
    requires |origins| == SAMPLES_SIZE
    ensures |now| == SAMPLES_SIZE
  {
    seq(SAMPLES_SIZE, t requires 0 <= t < SAMPLES_SIZE => if t < k then total + t else origins[t])
  }

  /** A read of k bytes that is not the end of the file fails when they are not a whole pair. */
  lemma ReadKeepsStage(format: Format, stage: Stage, pairs: seq<seq<int>>, origins: seq<int>, total: nat, size: nat,
                       k: nat)
    requires size == PairSize(format) && k <= size && |origins| == SAMPLES_SIZE
    requires forall m :: 0 <= m < |pairs| ==> |pairs[m]| == size
    requires StageOk(stage, pairs, origins, total, size)
    ensures var now := Refreshed(origins, total, k);
            var longer := if k < size then pairs else pairs + [now[..size]];
            var next := match stage
                        case InStep => if 0 < k < size then Holding else InStep
                        case Holding => if k > 0 then Lost(|pairs|) else Holding
                        case Lost(m) => Lost(m);
            StageOk(next, longer, now, total + k, size)
  {
    var now := Refreshed(origins, total, k);
    if k == size {
      assert |now[..size]| == size;
      if stage == InStep {
        PlacedSnoc(pairs, now[..size], size);
      }
    }
  }

  /** What one read adds. */
  lemma ReadUnfolds(format: Format, results: seq<ReadResult>)
    requires |results| > 0
    ensures var front, last := results[..|results| - 1], results[|results| - 1];
            var now := Refreshed(Origins(front), |Stream(front)|, |last.bytes|);
            && |Stream(results)| == |Stream(front)| + |last.bytes| && Origins(results) == now
            && EncodedOrigins(format, results)
            == if Fails(format, last) then EncodedOrigins(format, front)
               else EncodedOrigins(format, front) + [now[..PairSize(format)]]
  {
    var front, last := results[..|results| - 1], results[|results| - 1];
    assert Origins(results) == Refreshed(Origins(front), |Stream(front)|, |last.bytes|);
  }

  lemma {:induction false} StageHolds(format: Format, results: seq<ReadResult>)
    requires AllFit(format, results) && forall i :: 0 <= i < |results| ==> !results[i].eof
    ensures StageOk(StageAfter(format, results), EncodedOrigins(format, results), Origins(results), |Stream(results)|,
                    PairSize(format))
  {
    hide StageOk, Refreshed, EncodedOrigins, Stream, Origins;
    if |results| == 0 {
      StartsInStep(format, results);
    } else {
      var front, last := results[..|results| - 1], results[|results| - 1];
      StageHolds(format, front);
      FailsWhenShort(format, last);
      ReadUnfolds(format, results);
      ReadKeepsStage(format, StageAfter(format, front), EncodedOrigins(format, front), Origins(front), |Stream(front)|,
                     PairSize(format), |last.bytes|);
    }
  }

  lemma StartsInStep(format: Format, results: seq<ReadResult>)
    requires |results| == 0
    ensures StageOk(StageAfter(format, results), EncodedOrigins(format, results), Origins(results), |Stream(results)|,
                    PairSize(format))
  {
  }

  lemma FailsWhenShort(format: Format, r: ReadResult)
    requires Fits(format, r) && !r.eof
    ensures Fails(format, r) <==> |r.bytes| < PairSize(format)
  {
  }

  ghost predicate AllInPlace(pairs: seq<seq<int>>, total: nat, size: nat)
    requires size > 0 && forall m :: 0 <= m < |pairs| ==> |pairs[m]| == size
  {
    forall o :: 0 <= o < total ==> ByteInPlace(pairs, o, size)
  }

  /** With no end of file the bytes are in place exactly when none is held or lost. */
  lemma StageDecides(format: Format, stage: Stage, pairs: seq<seq<int>>, origins: seq<int>, total: nat)
    requires |origins| == SAMPLES_SIZE && forall m :: 0 <= m < |pairs| ==> |pairs[m]| == PairSize(format)
    requires StageOk(stage, pairs, origins, total, PairSize(format))
    ensures AllInPlace(pairs, total, PairSize(format)) <==> stage == InStep
  {
    var size := PairSize(format);
    match stage
    case InStep => PlacedBytes(format, pairs, total);
    case Holding => Misplaced(format, pairs, total, |pairs|);
    case Lost(m) => Misplaced(format, pairs, total, m);
  }

  lemma Misplaced(format: Format, pairs: seq<seq<int>>, total: nat, m: nat)
    requires forall i :: 0 <= i < |pairs| ==> |pairs[i]| == PairSize(format)
    requires PairSize(format) * m < total && (m < |pairs| ==> pairs[m][0] != PairSize(format) * m)
    ensures !AllInPlace(pairs, total, PairSize(format))
  {
    var size := PairSize(format);
    QuotientIs(size * m, size, m, 0);
    RemainderIs(size * m, size, m, 0);
    assert !ByteInPlace(pairs, size * m, size);
  }

  lemma PlacedBytes(format: Format, pairs: seq<seq<int>>, total: nat)
    requires forall m :: 0 <= m < |pairs| ==> |pairs[m]| == PairSize(format)
    requires AllInOrder(pairs, PairSize(format)) && total <= PairSize(format) * |pairs|
    ensures AllInPlace(pairs, total, PairSize(format))
  {
    var size := PairSize(format);
    forall o | 0 <= o < total
      ensures ByteInPlace(pairs, o, size)
    {
      Divided(format, o, |pairs|);
    }
  }

  lemma Divided(format: Format, o: nat, count: nat)
    requires o < PairSize(format) * count
    ensures o / PairSize(format) < count
    ensures PairSize(format) * (o / PairSize(format)) + o % PairSize(format) == o
  {
    if format == S16le {
    } else {
    }
  }

  /** The read that meets the end of the file takes what the buffer holds. */
  lemma EndDecides(format: Format, stage: Stage, pairs: seq<seq<int>>, origins: seq<int>, total: nat, k: nat)
    requires |origins| == SAMPLES_SIZE && forall m :: 0 <= m < |pairs| ==> |pairs[m]| == PairSize(format)
    requires StageOk(stage, pairs, origins, total, PairSize(format)) && k <= PairSize(format)
    ensures var longer := pairs + [Refreshed(origins, total, k)[..PairSize(format)]];
            && (forall m :: 0 <= m < |longer| ==> |longer[m]| == PairSize(format))
            && (AllInPlace(longer, total + k, PairSize(format)) <==> stage == InStep || (stage == Holding && k == 0))
  {
    var size, now := PairSize(format), Refreshed(origins, total, k);
    var longer := pairs + [now[..size]];
    assert |now[..size]| == size;
    hide AllInPlace;
    match stage
    case InStep => EndPlaced(format, pairs, now[..size], total + k);
    case Holding =>
      if k == 0 {
        EndPlaced(format, pairs, now[..size], total);
      } else {
        Misplaced(format, longer, total + k, |pairs|);
      }
    case Lost(m) => Misplaced(format, longer, total + k, m);
  }

  /** Whole pairs in place, and the beginning of another. */
  lemma EndPlaced(format: Format, pairs: seq<seq<int>>, pair: seq<int>, total: nat)
    requires |pair| == PairSize(format) && forall m :: 0 <= m < |pairs| ==> |pairs[m]| == PairSize(format)
    requires AllInOrder(pairs, PairSize(format)) && total <= PairSize(format) * |pairs| + PairSize(format)
    requires forall t :: 0 <= t < total - PairSize(format) * |pairs| ==> pair[t] == PairSize(format) * |pairs| + t
    ensures forall m :: 0 <= m < |pairs + [pair]| ==> |(pairs + [pair])[m]| == PairSize(format)
    ensures AllInPlace(pairs + [pair], total, PairSize(format))
  {
    forall o | 0 <= o < total
      ensures ByteInPlace(pairs + [pair], o, PairSize(format))
    {
      EndBytePlaced(format, pairs, pair, o);
    }
  }

  lemma EndBytePlaced(format: Format, pairs: seq<seq<int>>, pair: seq<int>, o: nat)
    requires |pair| == PairSize(format) && forall m :: 0 <= m < |pairs| ==> |pairs[m]| == PairSize(format)
    requires AllInOrder(pairs, PairSize(format)) && o < PairSize(format) * |pairs| + PairSize(format)
    requires var t := o - PairSize(format) * |pairs|; t >= 0 ==> pair[t] == PairSize(format) * |pairs| + t
    ensures forall m :: 0 <= m < |pairs + [pair]| ==> |(pairs + [pair])[m]| == PairSize(format)
    ensures ByteInPlace(pairs + [pair], o, PairSize(format))
  {
    var size := PairSize(format);
    if o < size * |pairs| {
      Divided(format, o, |pairs|);
    } else {
      QuotientIs(o, size, |pairs|, o - size * |pairs|);
      RemainderIs(o, size, |pairs|, o - size * |pairs|);
    }
  }

  /** What the stages say of the reads. */
  ghost predicate NoShort(format: Format, results: seq<ReadResult>) {
    forall i :: 0 <= i < |results| ==> !Short(format, results[i])
  }

  ghost predicate ShortsLast(format: Format, results: seq<ReadResult>) {
    forall i :: 0 <= i < |results| && Short(format, results[i]) ==> NothingAfter(results, i)
  }

  lemma NothingAfterSnoc(results: seq<ReadResult>, r: ReadResult, i: nat)
    requires i < |results|
    ensures NothingAfter(results + [r], i) <==> NothingAfter(results, i) && |r.bytes| == 0
  {
    assert (results + [r])[|results|] == r;
    assert forall j :: 0 <= j < |results| ==> (results + [r])[j] == results[j];
  }

  lemma NothingAfterLast(results: seq<ReadResult>, i: nat)
    requires i + 1 == |results|
    ensures NothingAfter(results, i)
  {
  }

  lemma NoShortSnoc(format: Format, results: seq<ReadResult>, r: ReadResult)
    ensures NoShort(format, results + [r]) <==> NoShort(format, results) && !Short(format, r)
  {
    assert (results + [r])[|results|] == r;
    assert forall j :: 0 <= j < |results| ==> (results + [r])[j] == results[j];
  }

  lemma ShortsLastSnoc(format: Format, results: seq<ReadResult>, r: ReadResult)
    ensures ShortsLast(format, results + [r])
       <==> NoShort(format, results) || (ShortsLast(format, results) && |r.bytes| == 0)
  {
    hide Short, NothingAfter;
    var longer := results + [r];
    assert longer[|results|] == r;
    NothingAfterLast(longer, |results|);
    forall i | 0 <= i < |results|
      ensures longer[i] == results[i] && (NothingAfter(longer, i) <==> NothingAfter(results, i) && |r.bytes| == 0)
    {
      NothingAfterSnoc(results, r, i);
    }
  }

  lemma {:induction false} StageMeans(format: Format, results: seq<ReadResult>)
    ensures StageAfter(format, results) == InStep <==> NoShort(format, results)
    ensures !StageAfter(format, results).Lost? <==> ShortsLast(format, results)
  {
    hide Short;
    if |results| > 0 {
      var front, last := results[..|results| - 1], results[|results| - 1];
      assert results == front + [last];
      StageMeans(format, front);
      NoShortSnoc(format, front, last);
      ShortsLastSnoc(format, front, last);
      ShortDelivers(format, last);
    }
  }

  lemma ShortDelivers(format: Format, r: ReadResult)
    ensures Short(format, r) ==> |r.bytes| > 0 && !r.eof
  {
  }

  lemma CleanMeans(format: Format, results: seq<ReadResult>)
    requires |results| > 0
    ensures Clean(format, results)
       <==> if results[|results| - 1].eof then ShortsLast(format, results) else NoShort(format, results)
  {
    hide Short, NothingAfter;
  }

  /** Every byte a read loop is given is encoded in its own pair and place if and only if no failed read
      delivered anything, unless nothing but the end of the file came after it. */
  lemma BytesInPlaceIff(format: Format, results: seq<ReadResult>)
    requires AllFit(format, results) && EndsLoop(results)
    ensures InPlace(format, results) <==> Clean(format, results)
  {
    if |results| == 0 {
    } else {
      var front, last := results[..|results| - 1], results[|results| - 1];
      assert results == front + [last];
      StageMeans(format, front);
      StageHolds(format, front);
      CleanMeans(format, results);
      ShortsLastSnoc(format, front, last);
      hide StageOk, Clean, AllInPlace, Stream, EncodedOrigins, Origins, StageAfter, NoShort, ShortsLast, Refreshed;
      if last.eof {
        ReadUnfolds(format, results);
        EndDecides(format, StageAfter(format, front), EncodedOrigins(format, front), Origins(front), |Stream(front)|,
                   |last.bytes|);
      } else {
        StageMeans(format, results);
        StageHolds(format, results);
        StageDecides(format, StageAfter(format, results), EncodedOrigins(format, results), Origins(results),
                     |Stream(results)|);
      }
    }
  }

  const FIRST := ReadResult([1, 0], false)
  const SECOND := ReadResult([2, 0, 1, 0], false)
  const THIRD := ReadResult([2, 0], false)

  /** The pairs (1, 2), (1, 2) delivered as one sample, two, and one: only the pair (2, 1) is encoded. */
  lemma ShortReadSwapsChannels(before: seq<uint8>)
    requires |before| == SAMPLES_SIZE
    ensures var results := [FIRST, SECOND, THIRD];
            && AllFit(S16le, results) && Stream(results) == [1, 0, 2, 0, 1, 0, 2, 0]
            && LoopPairs(S16le, before, results) == [Pcm(2, 1)]
  {
    StreamOfThree(FIRST, SECOND, THIRD);
    SecondPair(before);
    assert [FIRST, SECOND, THIRD] == [FIRST, SECOND] + [THIRD];
    LoopPairsSnoc(S16le, before, [FIRST, SECOND], THIRD);
  }

  lemma SecondPair(before: seq<uint8>)
    requires |before| == SAMPLES_SIZE
    ensures AllFit(S16le, [FIRST, SECOND]) && LoopPairs(S16le, before, [FIRST, SECOND]) == [Pcm(2, 1)]
  {
    hide BufferAfter, Landed, PairIn, LoopPairs;
    assert [FIRST] == [] + [FIRST] && [FIRST, SECOND] == [FIRST] + [SECOND];
    LoopPairsSnoc(S16le, before, [], FIRST);
    LoopPairsSnoc(S16le, before, [FIRST], SECOND);
    BufferAfterSnoc(before, [FIRST], SECOND);
    NoPairsYet(before);
    SwappedPair(BufferAfter(before, [FIRST]));
  }

  lemma NoPairsYet(before: seq<uint8>)
    requires |before| == SAMPLES_SIZE
    ensures LoopPairs(S16le, before, []) == []
    ensures |BufferAfter(before, [FIRST])| == SAMPLES_SIZE
  {
    BufferSize(S16le, before, [FIRST]);
  }

  lemma SwappedPair(buffer: seq<uint8>)
    requires |buffer| == SAMPLES_SIZE
    ensures |Landed(buffer, SECOND)| == SAMPLES_SIZE && PairIn(S16le, Landed(buffer, SECOND)) == Pcm(2, 1)
  {
    assert Landed(buffer, SECOND)[..4] == [2, 0, 1, 0];
  }

  lemma StreamOfThree(a: ReadResult, b: ReadResult, c: ReadResult)
    ensures Stream([a, b, c]) == a.bytes + b.bytes + c.bytes
  {
    assert [a, b, c][..2] == [a, b] && [a, b][..1] == [a] && [a][..0] == [];
    assert Stream([a]) == a.bytes;
    assert Stream([a, b]) == a.bytes + b.bytes;
  }
}
