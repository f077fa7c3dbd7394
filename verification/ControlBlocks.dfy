/** The circular chain of DMA control blocks and the engine that walks it. */
module ControlBlocks {
  import opened Words
  import opened SubframeCoder
  import opened RingArithmetic
  import opened Fifo

  const CONTROL_BLOCK_BYTES := 32
  const BUFFER_BYTES := 32768    // 2048 frames of four words
  const BUFFERS_OFFSET := 96     // the buffers follow the three control blocks
  const CONTROL_BYTES := 98400
  const PCM_FIFO: uint32 := 0x7E20_3004
  const DREQ_PCM_TX: nat := 2

  datatype TransferInformation = TransferInformation(
    noWideBursts: bool, permap: nat, destDreq: bool, waitResp: bool, srcInc: bool)

  datatype ControlBlock = ControlBlock(
    information: TransferInformation, source: uint32, destination: uint32, length: uint16, next: uint32)

  const ZERO_BLOCK := ControlBlock(TransferInformation(false, 0, false, false, false), 0, 0, 0, 0)

  /** The control structure lies page-aligned within the bus address space. */
  predicate Mapped(base: uint32) {
    base % 4096 == 0 && base + CONTROL_BYTES <= 0x1_0000_0000
  }

  /** Bus addresses of the i-th control block and buffer. */
  function BlockAddress(base: uint32, i: nat): nat {
    base + CONTROL_BLOCK_BYTES * i
  }

  function BufferAddress(base: uint32, i: nat): nat {
    base + BUFFERS_OFFSET + BUFFER_BYTES * i
  }

  /** A block that feeds buffer i to the PCM port, a word per request, and continues around the ring. */
  ghost predicate Feeds(base: uint32, b: ControlBlock, i: nat) {
    && b.source == BufferAddress(base, i)
    && b.destination == PCM_FIFO
    && b.length == BUFFER_BYTES
    && b.next == BlockAddress(base, NextBuffer(i))
    && b.information == TransferInformation(true, DREQ_PCM_TX, true, true, true)
  }

  ghost predicate Chain(base: uint32, blocks: seq<ControlBlock>) {
    |blocks| == BUFFER_COUNT && forall i :: 0 <= i < BUFFER_COUNT ==> Feeds(base, blocks[i], i)
  }

  /** The words of buffer i, 2048 frames of four, go from successive addresses to the port's one, FIFO_A:
      the second register of the PCM peripheral, 0x203000 past the peripherals' bus address; each waits
      for request line 2, the port's transmitter. The buffers follow three blocks of eight words each. */
  ghost predicate ToPort(base: uint32, b: ControlBlock, i: nat) {
    && b.source == base + 3 * 8 * 4 + 2048 * 4 * 4 * i && b.length == 2048 * 4 * 4
    && b.next == base + 8 * 4 * (if i == 2 then 0 else i + 1)
    && b.destination == 0x7E00_0000 + 0x20_3000 + 4
    && b.information.permap == 2 && b.information.destDreq && b.information.waitResp
    && b.information.srcInc && b.information.noWideBursts
  }

  /** Writes the three control blocks in place. */
  method GenerateControlBlocks(blocks: array<ControlBlock>, base: uint32)
    requires blocks.Length == BUFFER_COUNT && Mapped(base)
    modifies blocks
    ensures Chain(base, blocks[..])
    ensures blocks[BUFFER_COUNT - 1].next == BlockAddress(base, 0)
    ensures forall i :: 0 <= i < 3 ==> ToPort(base, blocks[i], i)
  {
    for i := 0 to BUFFER_COUNT {
      blocks[i] := ZERO_BLOCK;
    }
    for i := 0 to BUFFER_COUNT
      invariant forall k :: 0 <= k < i ==> Feeds(base, blocks[k], k) && ToPort(base, blocks[k], k)
    {
      blocks[i] := blocks[i].(information := TransferInformation(true, DREQ_PCM_TX, true, true, true));
      blocks[i] := blocks[i].(source := BufferAddress(base, i), destination := PCM_FIFO);
      blocks[i] := blocks[i].(length := BUFFER_BYTES);
      blocks[i] := blocks[i].(next := BlockAddress(base, (i + 1) % BUFFER_COUNT));
    }
  }

  /** Every block passes the alignment check of the DMA driver; comparing bus addresses of blocks
      compares their indices; the buffers are disjoint and lie within the allocation. */
  lemma Layout(base: uint32, i: nat, j: nat)
    requires Mapped(base) && i < BUFFER_COUNT && j < BUFFER_COUNT
    ensures BlockAddress(base, i) % 32 == 0
    ensures BlockAddress(base, i) == BlockAddress(base, j) <==> i == j
    ensures i < j ==> BufferAddress(base, i) + BUFFER_BYTES <= BufferAddress(base, j)
    ensures BlockAddress(base, i) + CONTROL_BLOCK_BYTES <= BufferAddress(base, 0)
    ensures BufferAddress(base, i) + BUFFER_BYTES <= base + CONTROL_BYTES
  {
    RemainderIs(BlockAddress(base, i), 32, base / 4096 * 128 + i, 0);
  }

  /** The engine's registers: the block it is on, how far its source moves for each word, and what is
      left of that block's transfer. */
  datatype Engine = Engine(conblk: nat, source: nat, step: nat, left: nat)

  /** Loading the control block at a bus address. */
  function Load(base: uint32, blocks: seq<ControlBlock>, address: nat): Engine
    requires |blocks| == BUFFER_COUNT
  {
    var i := if address >= base then (address - base) / CONTROL_BLOCK_BYTES else BUFFER_COUNT;
    if i < BUFFER_COUNT
    then Engine(address, blocks[i].source, if blocks[i].information.srcInc then 4 else 0, blocks[i].length)
    else Engine(address, 0, 0, 0)
  }

  /** One word is sent; with the last of a block the engine loads the block that follows. */
  function Tick(base: uint32, blocks: seq<ControlBlock>, e: Engine): Engine
    requires |blocks| == BUFFER_COUNT
  {
    if e.left > 4 then e.(source := e.source + e.step, left := e.left - 4)
    else
      var i := if e.conblk >= base then (e.conblk - base) / CONTROL_BLOCK_BYTES else BUFFER_COUNT;
      if i < BUFFER_COUNT then Load(base, blocks, blocks[i].next) else e
  }

  /** The engine after r words, started on the first block. */
  function After(base: uint32, blocks: seq<ControlBlock>, r: nat): Engine
    requires |blocks| == BUFFER_COUNT
  {
    if r == 0 then Load(base, blocks, BlockAddress(base, 0)) else Tick(base, blocks, After(base, blocks, r - 1))
  }

  /** The engine is on the block the ring's geometry says, and its next word is word r of the
      buffers taken around the ring. */
  ghost predicate OnRing(base: uint32, e: Engine, r: nat) {
    && e.conblk == BlockAddress(base, EngineBlock(r))
    && e.source == base + BUFFERS_OFFSET + 4 * (r % RING_WORDS)
    && e.step == 4 && e.left == BUFFER_BYTES - 4 * (r % BUFFER_WORDS)
  }

  /** So it is for ever. */
  lemma {:induction false} EngineWalksRing(base: uint32, blocks: seq<ControlBlock>, r: nat)
    requires Mapped(base) && Chain(base, blocks)
    ensures OnRing(base, After(base, blocks, r), r)
  {
    hide Mapped, Feeds, OnRing, Tick, Load;
    if r == 0 {
      StartsOnRing(base, blocks);
    } else {
      EngineWalksRing(base, blocks, r - 1);
      TickOnRing(base, blocks, After(base, blocks, r - 1), r - 1);
    }
  }

  lemma StartsOnRing(base: uint32, blocks: seq<ControlBlock>)
    requires Mapped(base) && Chain(base, blocks)
    ensures OnRing(base, Load(base, blocks, BlockAddress(base, 0)), 0)
  {
    LoadsBlock(base, blocks, 0);
  }

  lemma TickOnRing(base: uint32, blocks: seq<ControlBlock>, e: Engine, r: nat)
    requires Mapped(base) && Chain(base, blocks) && OnRing(base, e, r)
    ensures OnRing(base, Tick(base, blocks, e), r + 1)
  {
    WordInRing(r);
    WordInRing(r + 1);
    NextWord(r);
    hide Load, EngineBlock;
    if r % BUFFER_WORDS == BUFFER_WORDS - 1 {
      var i := EngineBlock(r);
      assert Feeds(base, blocks[i], i);
      LoadsBlock(base, blocks, NextBuffer(i));
    }
  }

  lemma LoadsBlock(base: uint32, blocks: seq<ControlBlock>, i: nat)
    requires Mapped(base) && Chain(base, blocks) && i < BUFFER_COUNT
    ensures Load(base, blocks, BlockAddress(base, i))
         == Engine(BlockAddress(base, i), BufferAddress(base, i), 4, BUFFER_BYTES)
  {
    assert Feeds(base, blocks[i], i);
  }

  /** Word r mod 24576 is word r mod 8192 of the engine's buffer. */
  lemma WordInRing(r: nat)
    ensures EngineBlock(r) < BUFFER_COUNT
    ensures r % RING_WORDS == BUFFER_WORDS * EngineBlock(r) + r % BUFFER_WORDS
  {
    RemainderIs(r, RING_WORDS, r / BUFFER_WORDS / 3, BUFFER_WORDS * (r / BUFFER_WORDS % 3) + r % BUFFER_WORDS);
  }

  lemma NextWord(r: nat)
    ensures r % BUFFER_WORDS < BUFFER_WORDS - 1 ==>
              (r + 1) % BUFFER_WORDS == r % BUFFER_WORDS + 1 && EngineBlock(r + 1) == EngineBlock(r)
    ensures r % BUFFER_WORDS == BUFFER_WORDS - 1 ==>
              (r + 1) % BUFFER_WORDS == 0 && EngineBlock(r + 1) == NextBuffer(EngineBlock(r))
  {
    var q := r / BUFFER_WORDS;
    if r % BUFFER_WORDS == BUFFER_WORDS - 1 {
      assert (r + 1) / BUFFER_WORDS == q + 1;
      if q % 3 == 2 {
        RemainderIs(q + 1, 3, q / 3 + 1, 0);
      } else {
        RemainderIs(q + 1, 3, q / 3, q % 3 + 1);
      }
    } else {
      assert (r + 1) / BUFFER_WORDS == q;
    }
  }
}
