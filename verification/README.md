# raspdif: from PCM bytes to half-cells

A Dafny model of raspdif's path from the bytes of its input file to the half-cells an S/PDIF
receiver sees on GPIO21, in two coupled parts: the line coder, and the ring of three buffers
through which the program and a free-running DMA engine exchange words.

Words are bounded integers and half-cells are sequences of booleans, most significant bit first,
the order in which the PCM port shifts words out. The serial biphase-mark machine of section 4.2
of IEC 60958-1, its preambles (section 4.3) and its subframe layout (section 4.1.1) are written
as functions; the program's table-driven coder and in-place updates are methods proved against them.

| file | contents |
|---|---|
| `Words.dfy` | machine words and their bits |
| `BiphaseMark.dfy` | the serial coder and decoder |
| `NibbleTable.dfy` | the table coder and its refinement of the serial one |
| `SubframeCoder.dfy` | subframe fields, parity, sample placement, the encoder and the builder |
| `LineStream.dfy` | streams of subframes: polarity, balance, synchronisation, errors, a receiver |
| `ChannelStatus.dfy` | the 192-frame block and its status bits |
| `Frames.dfy` | parsing, and the four words of a frame |
| `RingArithmetic.dfy` | slots, phases and counters modulo 192, 2048, 6144 and 2^32 |
| `Transport.dfy` | the writer's control, one step per access to shared memory |
| `Interleaving.dfy` | writer and engine sharing the ring word by word; what every run keeps |
| `BlockStructure.dfy` | block structure on the wire, with and without underruns |
| `Places.dfy` | the places of the heard stream: which of them the ring holds at any moment |
| `Fifo.dfy` | the ring as a queue of places under the program's timing, with replays |
| `KeptFrames.dfy` | the frames that stay when the read loop goes over a fill's last buffer |
| `Listening.dfy` | the frames a listener hears, over any number of underruns and replays |
| `Resume.dfy` | the buffer a fill ends with, which the read loop goes over |
| `FirstUnderrun.dfy` | runs with one underrun and any number of replays, built step by step |
| `Playback.dfy` | what a receiver plays back from the transmitted words |
| `StatusOnWire.dfy` | channel status collected from the transmitted words |
| `WriterRuns.dfy` | the writer's own run and its place in every interleaving |
| `Input.dfy` | the input file, its reads and the pairs the two read loops take |
| `Driver.dfy` | the program's loops as methods over arrays and counters |
| `Accounting.dfy` | which frames of a file are encoded |
| `ShortReads.dfy` | what becomes of the bytes when a read delivers part of a pair |
| `EndToEnd.dfy` | input bytes to a listener's samples |
| `ControlBlocks.dfy` | the DMA control blocks and the engine walking them |
| `ClockDivisor.dfy` | the fractional clock divisor |

How the program and the engine fit together: `Driver.Raspdif` keeps, as ghost state, the list of
its accesses to shared memory (stores of words, polls of the engine, the start of DMA, underruns).
Its methods prove that this list is a run of the writer's control (`Transport.Step`) and that the
array of words is what the run leaves in memory (`WriterRuns.Effect`), and that the polls in it report
what the engine answered, in order (`Driver.Answered`). `Interleaving.IsRun` admits
every interleaving of such a list with reads of the engine, also between the words of one frame, and
`WriterRuns.EngineOnlyReads` carries facts from the writer's own run to all of them. The
check of the engine's position and the stores that follow it are separate steps.

A frame n of epoch e, the number of completed fills, has place n - 2048 * e in the stream the
listener hears, because every fill is followed by a step back of one buffer. After a fill the program
waits for input (source/main.c:541-545) while the engine goes on replaying the ring, so the engine's words
are counted with a number of laps (`Fifo.Laps`), one for each time it passes into a buffer that was not
rewritten. Timing enters only as two named assumptions. Under `Fifo.Timely` polls report the truth, and the
engine passes only into buffers that have been rewritten in full since they were last read; but from the
end of a fill until the read loop has left the fill's last buffer nothing is asked of the engine, which may
replay the ring any number of times. Under `Fifo.Prompt` it moreover enters the buffer the read loop has gone
back to only when the loop has left it or stands between pairs. A wait of any length keeps a prompt
run prompt (`Resume.WaitIsPrompt`), and before a fill completes the two assumptions are the same and nothing is
replayed (`Listening.FirstEpochPrompt`). The results of `BlockStructure`, `StatusOnWire` and `Places`, and
`Resume.FillHeardIff`, assume no timing at all.

Findings about the code as it stands, each proved:

- The preload loop reads before it checks that the ring is full, so a file longer than 6144 frames
  loses pair number 6144 (counting from 0); at the end of the file the read loop encodes what the
  sample buffer still holds, repeating the last pair. When every read delivers a whole pair or nothing,
  a file is encoded unchanged exactly when it has at most 6144 pairs or all its pairs from number 6144
  on are equal (`Accounting.ShortFile`, `Accounting.LongFileUnchangedIff`).
- In the preload any read that delivers a sample counts, so a file of an odd number of samples, at most 12287,
  is encoded with its last sample on the left and, on the right, the right sample of the pair before
  (`Accounting.OddFile`).
- What is encoded is not all transmitted: the program shuts the engine down without waiting for the end of
  the stream (source/main.c:569-572). At every moment of a timed run, the one where the read loop meets
  the end of the file included, words have been written that the engine has not passed, more than none and
  at most three buffers (`Fifo.TailUnsent`, `EndToEnd.TailUnheard`); with no underrun before, the last pair has
  not been heard in full (`EndToEnd.ListenerHearsPairs`). A file of at most 6144 pairs meets its end in
  the preload: the program's last access then starts the engine, and nothing has been transmitted
  (`EndToEnd.ShortFileUnheard`).
- The read loop does not block, so a read may deliver part of a pair. The loop throws that part away and
  starts over with the first channel: the pairs (1, 2), (1, 2), delivered as one sample, two, and one, give
  the single pair (2, 1) (`ShortReads.ShortReadSwapsChannels`). Every byte is encoded in its own pair
  and place if and only if no failed read delivered anything, unless nothing but the end of the file
  came after it (`ShortReads.BytesInPlaceIff`).
- `raspdif_fill_buffers` advances its own copy of the buffer index four times while the caller's
  stays, so after each underrun the read loop resumes one buffer earlier than the fill ended, over
  the fill's last buffer. Whenever the engine comes by word x of that buffer, in whichever lap, it reads
  the fill's word if and only if the loop has not stored its own word x yet (`Resume.FillHeardIff`).
  Within the program's timing, after any number of replays, there are runs in which it reads the loop's,
  so that the output, with or without the replays, is not a prefix of the encoded stream
  (`FirstUnderrun.SomeRunIsOutOfTurn`). What a prompt run transmits, over any number of underruns and
  replays, is exactly this: when each lap that is read again is cut out, the encoded stream with the last
  2048 frames of each fill cut out, ending with those of the last fill while the loop waits
  (`Listening.TransmitsHeard`); no input frame is ever cut (`EndToEnd.KeepsAllInput`), and a lap replayed
  before the loop has stored anything is fill alone (`Listening.LapIsFill`).
- The step back also shifts the block: between consecutive transmitted frames d epochs apart the
  block position advances by 1 + 128 * d modulo 192, unbroken exactly when 3 divides d
  (`BlockStructure.NextFrameJumps`).
- A clock divisor in range is refused when its fraction is at least 8191/8192, because the fraction
  field then rounds to 4096: at 20668 Hz, for one (`ClockDivisor.GuardsHoldIff`, `ClockDivisor.GuardsCanFail`).

Noted on the way, and not proved:

- The comment at source/main.c:296 puts the overflow of the 32-bit sample counter at 13 hours; 2^32 frames at
  44.1 kHz last 27. Either way it is harmless (`RingArithmetic.CounterWrap`).
- The comment on word length in `spdif_populate_channel_status` asks whether 24-bit samples should
  be announced; the code announces 20 bits for both formats, and the model follows the code.

## Model

| member | source | states |
|---|---|---|
| NibbleTable.TableRefinesSerial | source/spdif.c:23-97 | Chaining the sixteen-entry table with inversion on the previous byte's last bit equals the one-bit-at-a-time machine, for nibble sequences of any length and either starting level |
| NibbleTable.LutEntry | source/spdif.c:55-61 | Each table entry is the serial code of its nibble from a low level |
| BiphaseMark.DecodeIffEncode | source/spdif.c:23-50 | The serial decoder accepts exactly the codes, and returns the bits that were coded |
| BiphaseMark.EncodeComplement | source/spdif.c:52-53 | Starting high gives the complement of starting low, which is why inversion by byte is enough |
| SubframeCoder.EncodeBiphaseMark | source/spdif.c:21-100 | The 64-bit code written byte by byte is the preamble of section 4.3 followed by the serial code of the low 28 bits |
| SubframeCoder.BuildSubframe | source/spdif.c:111-137 | Updates only the i-th subframe: sample placed in the audio field, valid, even parity, other fields kept; returns the code of its payload in transmission order |
| SubframeCoder.RawInTransmissionOrder | include/spdif.h:57-70 | Bit reversal of the bit-field union yields aux and sample least significant bit first, then validity, user data, status, parity |
| SubframeCoder.CarryingIsEven | source/spdif.c:131-133 | With the preamble field zero every built payload has an even number of ones |
| SubframeCoder.PlacedFields | source/spdif.c:113-129 | The shifts of each depth leave sample * 2^(24-depth) modulo 2^24 in bits 27..4, for every 32-bit sample |
| SubframeCoder.PlacementRoundTrip | source/spdif.c:113-129 | Sign-extending the field recovers a sample exactly when the depth can represent it |
| LineStream.FixedPolarityIsStandard | source/spdif.c:8-12 | The fixed-polarity stream equals the standard's, which inverts preambles after a high level, exactly when every subframe but the last is even |
| LineStream.CellsBalanced | source/spdif.c:86-97 | Every emitted subframe has 32 high half-cells and a running sum within [0, 3] |
| LineStream.WireBalanced | source/spdif.c:86-97 | The running digital sum of any stream stays within [0, 3] at every prefix |
| LineStream.RunsAtMostThree | source/spdif.c:10-12 | No level is held for more than three half-cells anywhere in a stream |
| LineStream.SyncPattern | source/spdif.c:10-12 | Three high half-cells in a row occur at position p exactly when p is a multiple of 64 |
| LineStream.PreamblesOnlyAtBoundaries | source/spdif.c:10-12 | A preamble pattern appears only at a subframe boundary, and there it is that subframe's own |
| LineStream.NoComplementedPreamble | source/spdif.c:8-12 | A complemented preamble appears at no position |
| LineStream.ReceiveFromAnywhere | source/spdif.c:8-12 | A receiver that starts at any half-cell recovers every later subframe and nothing else |
| LineStream.ParseIffCells | source/spdif.c:70-99 | A strict receiver accepts exactly the codes of even subframes; coding is injective in preamble and payload |
| LineStream.SingleErrorDetected | source/spdif.c:131-136 | Flipping any one half-cell of an emitted subframe is detected |
| LineStream.MinimumDistance | source/spdif.c:131-136 | Distinct even subframes differ in at least two half-cells |
| ChannelStatus.Block.PopulateChannelStatus | source/spdif.c:145-180 | The loop sets the status bits of frames 2 and 24 and of frame 20 on the left, 21 on the right, clears those of the 189 others, and changes nothing else in the block |
| ChannelStatus.AnnouncedStatus | source/spdif.c:147-171 | The bit-field struct holds the announced 24 bytes, with channel number 1 or 2 |
| ChannelStatus.StatusBitsSet | source/spdif.c:147-179 | Of the 192 bits of those 24 bytes three are set: 2 and 24, and 20 for channel 1 or 21 for channel 2 |
| ChannelStatus.CarryingKeepsTemplates | source/spdif.c:111-137 | Building a frame in place keeps preamble, user data and status bits of the whole block, and its result depends on nothing else stored there |
| ChannelStatus.CollectionRebuilds | source/spdif.c:173-179 | Collecting 192 status bits rebuilds the 24 bytes |
| StatusOnWire.TransmittedStatus | source/main.c:300-310 | In any interleaving, the status bits in the lower words of any 192 successive transmitted frames of one epoch e that start at m with (m + 128 e) mod 192 = 0 rebuild the channel's 24 status bytes |
| StatusOnWire.FirstEpochStatus | source/main.c:489-567 | Whatever the timing, until a fill completes that holds for every 192 transmitted frames from a multiple of 192 on |
| StatusOnWire.FillStatus | source/main.c:346-383 | It holds for every block of a fill's replay, until the read loop stores again |
| Playback.SlotFlags | source/main.c:467-473 | In every subframe of every frame validity and user data are 0, and the status bit is set in frames 2 and 24 of the block, in 20 on the left and in 21 on the right |
| Playback.SlotSample | source/spdif.c:111-137 | Its first 24 time slots are the sample in two's complement, least significant bit first, a 16-bit sample in the upper 16 over zeroes; left in the first subframe, right in the second |
| StatusOnWire.TransmittedFlags | source/main.c:293-314 | So it is in every subframe transmitted, in any interleaving: the half-cells of validity and user data are equal in pairs, those of the status bit differ in just those frames |
| Frames.ParseRoundTrip | source/main.c:323-334 | Parsing little-endian bytes reads back exactly the samples the format can represent |
| Frames.ParseMeans | source/main.c:323-334 | Two or three bytes, least significant first, in two's complement |
| Frames.FrameOnPort | source/main.c:302-308 | The words a.msb, a.lsb, b.msb, b.lsb, shifted out in order, are the frame's two coded subframes |
| RingArithmetic.CounterWrap | source/main.c:295-313 | Slot and fullness survive wrap-around of the 32-bit counter; the block position is counted apart |
| RingArithmetic.SlotPhase | include/raspdif.h:10-11 | A slot in epoch e only ever holds block position (slot + 128 e) mod 192 |
| Transport.StepOk | source/main.c:489-567 | Every step of preload, read loop and fill keeps the ring position invariant |
| Transport.WritePosition | source/main.c:346-383 | In every run the write position is n - 2048 * rewinds modulo 6144 |
| Interleaving.RunInv | source/main.c:489-567 | At every moment of every interleaving each word of memory and output is unwritten or the encoding of a known frame in its slot, the frames since the last rewind are all in place, and no word is more than an epoch old |
| Interleaving.FullWindowUniform | source/main.c:346-383 | Once 6144 frames follow a rewind, every word of the ring is of that epoch and is the latest frame of its slot |
| BlockStructure.TransmittedWord | source/main.c:293-314 | Word t of the m-th transmitted frame belongs to an encoded frame at block position (m + 128 * epoch) mod 192 |
| BlockStructure.TimingFreeBlocks | source/main.c:489-567 | Whatever the timing, until a fill completes, preamble B opens the m-th transmitted frame exactly when m is a multiple of 192, else M, and W opens its second half |
| BlockStructure.TransmittedPreambleBytes | source/spdif.c:10-12 | Whatever the timing, the m-th transmitted frame's first word starts with 0xE8 where m + 128 * epoch is a multiple of 192 and with 0xE2 elsewhere, and its third word with 0xE4 |
| BlockStructure.FillLeavesOneEpoch | source/main.c:363-382 | The store that ends a fill leaves the whole ring in one epoch |
| BlockStructure.FillReplaysSeamlessly | source/main.c:346-383 | From then until the read loop stores again, endless replay has a block start exactly every 192 frames |
| BlockStructure.ResumeJumps128 | source/main.c:527-563 | In the ring, the words the resumed read loop's first frame replaces are those of the frame encoded 2048 earlier, 128 block positions back |
| BlockStructure.NextFrameJumps | source/main.c:346-383 | Between consecutive transmitted frames d epochs apart the block position advances by (1 + 128 d) mod 192, so the block is unbroken exactly when 3 divides d, whatever the timing |
| Places.RunPlaces | source/main.c:346-383 | At every moment of every interleaving with a full preload, whatever the timing and however many underruns, the ring holds the last 6144 places written, each in its slot |
| Fifo.TimedAhead | source/main.c:517-567 | In every timed interleaving, over any number of underruns and of replays during the waits after them, the places written reach one to three buffers past the start of the engine's, laps discounted |
| Fifo.TimedPlace | source/main.c:517-567 | There the r-th word transmitted is of place r / 4 - 6144 * laps, for the laps replayed before it was read |
| Fifo.TailUnsent | source/main.c:569-572 | At every moment of a timed interleaving, the exit included, the words written and not passed by the engine are more than none and at most three buffers |
| Listening.TransmitsHeard | source/main.c:527-556 | In every prompt interleaving, over any number of underruns and replays, the transmitted words are those of the frames heard; without the laps read again these are, one for each place, the first of the frames laid down: the encoded stream with the last 2048 frames of each fill cut out, continued by what the read loop has not gone over of the last fill |
| Listening.TransmitsKept | source/main.c:517-567 | While nothing has been replayed, the frames heard are the first of the frames laid down, without omission |
| Listening.TimedFrame | source/main.c:517-567 | In every timed interleaving, prompt or not, a word read of a place below the write position is of the frame kept there |
| Listening.LapIsFill | source/main.c:541-545 | A lap replayed before the read loop has stored anything after the fill is of fill frames only |
| KeptFrames.RunKept | source/main.c:346-383 | In every interleaving with a full preload the frames kept are one for each place below the write position, in the order of encoding, and every ring word of such a place is of that frame |
| KeptFrames.RunFill | source/main.c:346-383 | What a fill's end cuts is its last 2048 frames, none of them input, and the 4096 before them are fill too |
| KeptFrames.FirstEpochKept | source/main.c:517-567 | Until a fill completes nothing is cut: the p-th frame kept is the p-th encoded |
| Listening.FirstEpochPrefix | source/main.c:517-567 | Until a fill completes, in every timed interleaving, the r-th word transmitted is the r-th encoded |
| Listening.FirstEpochPrompt | source/main.c:517-567 | Until a fill completes every timed run is prompt and nothing is replayed |
| Fifo.TestMeansFull | source/main.c:520-525 | In every timed interleaving, replays included, the test that the engine is on the writer's buffer is true exactly when the ring is full or, only while the read loop goes over a fill's last buffer, when the engine has reached that buffer |
| Fifo.NoUntransmittedOverwrite | source/main.c:562-563 | In every timed interleaving, replays included, a frame begun replaces the place 6144 before its own, transmitted in full, or, exactly while the read loop goes over a fill's last buffer, its own place as the fill wrote it |
| Resume.FillEndUnheard | source/main.c:346-383 | When a fill ends within the program's timing, after any number of earlier replays, the engine has not passed any word of its last buffer |
| Resume.FillHeardIff | source/main.c:527-563 | After every fill, whatever the timing, every time the engine reads the address of word x of the fill's last buffer it reads the fill's word if and only if the resumed loop has not stored its own word x; otherwise the loop's or a later one |
| Resume.FillWordInStream | source/main.c:527-563 | Within the timing the engine first reads that word after the fill's end; after a first fill it stands where the encoded stream has the fill's word |
| Resume.WaitIsPrompt | source/main.c:541-545 | However long the program waits for input after a fill, with the engine replaying the ring, a prompt run stays prompt |
| FirstUnderrun.SomeRunIsOutOfTurn | source/main.c:527-563 | For every number of replays some prompt run with one underrun and that many of them then transmits, at place 12288, a word that differs from the encoded stream's |
| Playback.WirePlaysBack | source/main.c:293-334 | In every prompt interleaving, over any number of underruns and replays, decoding the transmitted whole frames returns the samples of the frames heard, in order; tuning in at any half-cell finds every later subframe |
| Playback.TransmittedIsStandard | source/spdif.c:8-12 | In every prompt interleaving, over any number of underruns and replays, the transmitted half-cells are those of a standard coder with conditional preamble inversion, with running sum in [0, 3] |
| WriterRuns.EngineOnlyReads | source/bcm283x/bcm283x_dma.c:86-95 | In every interleaving memory, control and encoded frames are those of the writer's own run |
| WriterRuns.AloneIsRun | source/main.c:489-567 | Every run of the writer is part of some interleaving |
| WriterRuns.FourStores | source/main.c:302-308 | Four stores of a run put one frame's words in its slot and advance the control by one frame |
| Driver.Raspdif.StoreFrame | source/main.c:298-308 | Updates the block in place and stores exactly the frame's four words |
| Driver.Raspdif.BufferSamples | source/main.c:293-314 | Encodes one frame at the counters' position, keeps counters, block and memory tied to the run, and reports full exactly at each 2048th frame |
| Driver.Raspdif.FillSample | source/main.c:353-353 | With keep-alive a fill sample is the next value of rand() moved by a multiple of ten into [-5, 4], and that value is used up; without, it is 0 and none is |
| Driver.FillFrameMeans | source/main.c:353-353 | A fill frame is made of two successive values of rand(), left sample first, each so moved; or it is silence |
| Driver.Raspdif.FillBuffer | source/main.c:353-359 | Fills up to the end of the buffer; the m-th frame added is made of values 2 m and 2 m + 1 of those rand() then gives, and the engine is not polled |
| Driver.Raspdif.FillBuffers | source/main.c:346-383 | Against any engine that eventually leaves each block it terminates; its accesses extend the writer's run (the rest of the buffer, then each buffer in ring order once a poll, answered by the engine, has shown it elsewhere), add (2048 - n mod 2048) + 6144 fill frames, made of successive values of rand(), leave the caller's index and rewind the position by one buffer |
| Driver.Raspdif.PreloadBuffers | source/main.c:489-503 | Takes the reads before the first that delivers less than one sample (two or three bytes), or before number 6144, encodes the pair the buffer holds after each, and consumes the read that ends the loop; the engine is not polled |
| Input.AcceptedTakes | source/main.c:492-492 | The number of reads the preload takes, by bytes delivered: a read of one sample is taken |
| ShortReads.PreloadPairFromStream | source/main.c:492-499 | For arbitrary reads each pair of the preload is parsed from the stream bytes at its traced origins, or zeroes where nothing has been delivered |
| Driver.Raspdif.ReadOne | source/main.c:526-566 | One read encodes its pair, or on failure fills to the end of the buffer and a whole ring more from the next values of rand() and leaves the index; the accesses extend the writer's run |
| Driver.Raspdif.ReadLoop | source/main.c:514-567 | Against a fair engine it terminates, having made the reads up to the first that meets the end of the file, with the accesses of a run of the writer whose polls are, in order and number, what the engine answered; the pairs its reads account for are encoded in order across any number of waits and underruns, and the history is exact: for each read its pair or one fill made of the next values of rand() |
| Input.LoopEndReads | source/main.c:517-517 | The reads the loop makes: those up to the first that meets the end of the file, that one included, none if it was met before |
| EndToEnd.PollsTrueIff | source/main.c:519-525 | In any interleaving of those accesses, the polls report where the engine is, as the timing assumes, if and only if each answer is the block the engine, after r words, is on at that moment: (r / 8192) mod 3 |
| Driver.LaidByIsHistory | source/main.c:514-567 | The frames that the reads and the values of rand() determine are such a history |
| Driver.HistoryLength | source/main.c:514-567 | That history keeps the frames before it and adds one frame for a pair and (2048 - n mod 2048) + 6144 for a failed read |
| Driver.SilentHistory | source/main.c:353-377 | Without keep-alive noise the reads determine the whole history |
| Driver.Raspdif.PauseStream | source/main.c:527-556 | A failed read adds fill frames only, rewinds by one buffer and leaves the loop's index |
| Driver.Transmit | source/main.c:465-572 | The input frames encoded by the whole program are exactly those its script of reads accounts for, with one fill per failed read; the whole history, and the number of values of rand() used, are determined by the script and those values: the preload's pairs, then a pair or a fill for each read of the loop; all polls report the engine's answers, in order; a script that ends in the preload leaves the start of the engine as the last access |
| Input.InputFile.Fread | source/main.c:492-492 | A read leaves undelivered bytes of the sample buffer as they were |
| Accounting.LoopEncodesDelivered | source/main.c:517-567 | When each read delivers a whole pair or nothing, the read loop encodes exactly the pairs delivered, in order, over any underruns |
| Accounting.ShortFile | source/main.c:489-503 | A file of at most 6144 pairs, read a whole pair at a time, is encoded unchanged |
| Accounting.OddFile | source/main.c:492-499 | A shorter file of an odd number of samples has its last one encoded on the left, with the right sample of the pair before it, or 0, on the right |
| Accounting.LongFile | source/main.c:489-567 | Read a whole pair or nothing at a time, a longer file loses pair 6144 and ends with a repeat of the pair read last |
| Accounting.LongFileUnchangedIff | source/main.c:489-567 | Read so, it is encoded unchanged exactly when its pairs from number 6144 on are all equal |
| ShortReads.BytesInPlaceIff | source/main.c:526-566 | For arbitrary reads, every byte delivered to the read loop is encoded in its own pair and place if and only if no failed read delivered anything, unless nothing but the end of the file followed |
| ShortReads.PairsInPlace | source/main.c:558-563 | Then the m-th pair the loop encodes is the m-th pair of the byte stream |
| ShortReads.PairFromStream | source/main.c:526-563 | For arbitrary reads each encoded pair is parsed from the stream bytes at its traced origins |
| ShortReads.ShortReadSwapsChannels | source/main.c:526-563 | Pairs (1, 2), (1, 2) delivered as one sample, two, and one are encoded as the single pair (2, 1) |
| EndToEnd.OnlyInputSoFar | source/main.c:489-567 | Before the first fill every frame encoded is an input frame |
| EndToEnd.KeepsAllInput | source/main.c:346-383 | At every moment of every interleaving the input among the frames kept is all the input encoded: a fill's cut takes only fill |
| EndToEnd.ListenerHearsInput | source/main.c:465-567 | In every prompt interleaving of the program's run, over any number of underruns and replays, a listener plays the frames heard; without the laps read again they are the first of the frames laid down, whose input is all the pairs the script accounts for, in order; a tail of these is not heard |
| EndToEnd.ListenerHearsPairs | source/main.c:465-572 | While no fill has begun a listener plays exactly the first of the script's pairs, and has not heard the last of them in full |
| EndToEnd.TailUnheard | source/main.c:569-572 | At every moment of a prompt run, the exit included, at least one and at most 6144 of the frames laid down have not been transmitted whole |
| EndToEnd.ShortFileUnheard | source/main.c:517-572 | A file of at most 6144 pairs ends in the preload, and at the program's last access nothing has been transmitted, in any interleaving |
| ControlBlocks.GenerateControlBlocks | source/main.c:131-160 | Each block feeds the 2048 frames of its buffer, which follow the three blocks of 32 bytes, from successive addresses to bus address 0x7E203004, the port's FIFO, a word per request on line 2, and the chain closes |
| ControlBlocks.Layout | source/bcm283x/bcm283x_dma.c:68-78 | Blocks are 32-byte aligned, bus addresses compare as indices, buffers are disjoint and inside the allocation |
| ControlBlocks.EngineWalksRing | source/bcm283x/bcm283x_dma.c:86-95 | After r words, for every r, the engine is on block (r / 8192) mod 3 and its next word is word r mod 24576 of the buffers |
| ClockDivisor.FieldsRoundDivisor | source/main.c:222-233 | The two fields are the divisor rounded to the nearest 4096th |
| ClockDivisor.GuardsHoldIff | source/bcm283x/bcm283x_clock.c:120-121 | The range assertions hold exactly when 1 <= floor(divisor) < 4096 and its fraction is below 8191/8192 |
| ClockDivisor.GuardsCanFail | source/main.c:215-233 | At 20668 Hz, except on a Pi 4, the divisor is in range and refused |
| ClockDivisor.At44100 | source/main.c:215-233 | At 44100 Hz the fields are 88 and 2364, on a Pi 4 132 and 3546 |
| ClockDivisor.FrequencyError | source/main.c:215-233 | The relative error of the line clock is at most 1 / (8192 * effective divisor) |
| ClockDivisor.PeripheralClock.Write | source/bcm283x/bcm283x_clock.c:116-157 | Writes, in this order and each with the password 0x5A, the old control with the enable bit cleared, the new one, and the divisor; or nothing when an assertion fails |
| ClockDivisor.PeripheralClock.SetRate | source/main.c:215-235 | The rate is accepted exactly when 750 MHz on a Pi 4, 500 MHz on others, over 128 times the rate is in [1, 4096) with a fraction below 8191/8192; the registers then hold it to within half a 4096th, and PLLD with the one-stage filter; else they are untouched |

## Left out

- Mailbox allocation, `/dev/mem` mapping, GPIO and PCM registers, barriers, delays and the clock's busy-wait: foreign calls and hardware not described by the repository. The control structure is taken as page-aligned in the 32-bit bus address space.
- Argument parsing, logging, signals, shutdown, file opening, `fcntl` and `poll`: I/O plumbing. Reads are a script of delivered bytes and end-of-file flags; a run is observed up to the end of its script.
- `rand` is an arbitrary sequence of naturals and doubles are reals; `srand` and floating-point rounding are not modelled. Conversion of a divisor beyond 16 bits, undefined in C, yields a number the guards refuse.
- Real time: sleeping is a repeated poll, and `microsleep`'s own assertion on its argument is not modelled.
- Disabling PCM during an underrun: in the model the engine may pause anywhere, which includes it.
- PCM FIFO prefetch and electrical levels: the wire is the engine's word stream.
- Listening.TransmitsHeard: claims nothing once the engine enters the resumed buffer while the read loop is in the middle of a pair or of a fill there, or passes into a buffer not rewritten at any other time (the program too slow for its sound); Listening.TimedFrame, Resume.FillHeardIff and the results that assume no timing cover the first.
- BlockStructure.TimingFreeBlocks: assumes that the preload filled the ring. A preload that stops short of that without end of file (a read error) is modelled, and leaves zeroed words in the ring.
- EndToEnd.ListenerHearsInput: how much of the tail is transmitted between the last access and the shutdown is not modelled, only that at the last access it is there.
- Driver.Raspdif.FillBuffer: the two samples of a fill frame are arguments of one call (source/main.c:357, 375), whose order of evaluation C leaves open; the model draws the left one first.
