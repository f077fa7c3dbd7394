/** The modular facts the ring rests on: 192 divides 3 * 2048 and 2048 divides 2^32. */
module RingArithmetic {
  import opened SubframeCoder

  const BUFFER_COUNT := 3
  const BUFFER_SIZE := 2048
  const RING_FRAMES := 6144
  const RING_WORDS := 24576

  /** The ring slot of the n-th frame after epoch rewinds of one buffer each. */
  function Slot(n: nat, epoch: nat): (slot: nat)
    ensures slot < RING_FRAMES
  {
    (n + 4096 * epoch) % 6144
  }

  /** That is, n - 2048 * epoch modulo the ring. */
  lemma SlotCongruent(n: nat, epoch: nat)
    ensures (n - 2048 * epoch) % 6144 == Slot(n, epoch)
  {
    var x := n + 4096 * epoch;
    assert n - 2048 * epoch == (x / 6144 - epoch) * 6144 + x % 6144;
    RemainderIs(n - 2048 * epoch, 6144, x / 6144 - epoch, x % 6144);
  }

  /** Where two frame numbers that share slot and epoch stand: whole rings apart. */
  lemma SlotShared(f: nat, g: nat, epoch: nat)
    requires Slot(f, epoch) == Slot(g, epoch)
    ensures f % 6144 == g % 6144
    ensures f < g ==> f + 6144 <= g
  {
    var x, y := f + 4096 * epoch, g + 4096 * epoch;
    var d := y / 6144 - x / 6144;
    assert g == f + 6144 * d;
    RemainderIs(g, 6144, f / 6144 + d, f % 6144);
  }

  /** A frame's place in the block follows from its slot and epoch. */
  lemma SlotPhase(n: nat, epoch: nat)
    ensures n % 192 == (Slot(n, epoch) + 128 * epoch) % 192
  {
    var x := n + 4096 * epoch;
    var s := Slot(n, epoch) + 128 * epoch;
    assert s == (n / 192 + 22 * epoch - 32 * (x / 6144)) * 192 + n % 192;
    RemainderIs(s, 192, n / 192 + 22 * epoch - 32 * (x / 6144), n % 192);
  }

  /** Buffers follow each other around the ring. */
  function NextBuffer(b: nat): nat {
    (b + 1) % 3
  }

  lemma SlotAdvance(n: nat, epoch: nat, b: nat)
    requires b < 3 && 2048 * b + n % 2048 == Slot(n, epoch)
    ensures Slot(n + 1, epoch) == 2048 * (if (n + 1) % 2048 == 0 then NextBuffer(b) else b) + (n + 1) % 2048
  {
    var x := n + 4096 * epoch;
    var s := Slot(n, epoch);
    if s + 1 < 6144 {
      RemainderIs(x + 1, 6144, x / 6144, s + 1);
    } else {
      RemainderIs(x + 1, 6144, x / 6144 + 1, 0);
    }
    OffsetAdvance(n);
  }

  lemma OffsetAdvance(n: nat)
    ensures (n + 1) % 2048 == if n % 2048 == 2047 then 0 else n % 2048 + 1
  {
  }

  /** A rewind moves the position back by one buffer. */
  lemma SlotRewind(n: nat, epoch: nat, b: nat)
    requires b < 3 && Slot(n, epoch) == 2048 * NextBuffer(b) + n % 2048
    ensures Slot(n, epoch + 1) == 2048 * b + n % 2048
  {
    var x := n + 4096 * epoch;
    var s := Slot(n, epoch);
    if s + 4096 < 6144 {
      RemainderIs(x + 4096, 6144, x / 6144, s + 4096);
    } else {
      RemainderIs(x + 4096, 6144, x / 6144 + 1, s - 2048);
    }
  }

  /** Resuming a preload that stopped in buffer b at the start of the ring. */
  lemma SlotRestart(n: nat)
    requires n < 6144
    ensures Slot(n, n / 2048) == n % 2048
  {
    var q := n / 2048;
    RemainderIs(n + 4096 * q, 6144, q, n % 2048);
  }

  /** The most recent of the last 6144 frames before n to hold a slot. */
  function LatestAt(slot: nat, n: nat, epoch: nat): (f: nat)
    requires slot < 6144 && n >= 6144
    ensures n - 6144 <= f < n
  {
    n - 1 - (Slot(n - 1, epoch) - slot) % 6144
  }

  lemma LatestIsThere(slot: nat, n: nat, epoch: nat)
    requires slot < 6144 && n >= 6144
    ensures Slot(LatestAt(slot, n, epoch), epoch) == slot
  {
    StepBack(n - 1 + 4096 * epoch, Slot(n - 1, epoch), slot);
  }

  lemma StepBack(x: nat, s: nat, slot: nat)
    requires slot < 6144 && s == x % 6144
    ensures (x - (s - slot) % 6144) % 6144 == slot
  {
    var q, d := x / 6144, s - slot;
    if d >= 0 {
      RemainderIs(d, 6144, 0, d);
      RemainderIs(x - d, 6144, q, slot);
    } else {
      RemainderIs(d, 6144, -1, d + 6144);
      RemainderIs(x - (d + 6144), 6144, q - 1, slot);
    }
  }

  /** The 32-bit counter may wrap: 2048 divides 2^32. */
  lemma CounterWrap(n: nat)
    ensures n % 0x1_0000_0000 % 2048 == n % 2048
    ensures (n % 0x1_0000_0000 + 1) % 0x1_0000_0000 == (n + 1) % 0x1_0000_0000
    ensures (n % 192 + 1) % 192 == (n + 1) % 192
  {
    var q, c := n / 0x1_0000_0000, n % 0x1_0000_0000;
    RemainderIs(n, 2048, 0x20_0000 * q + c / 2048, c % 2048);
    if c + 1 < 0x1_0000_0000 {
      RemainderIs(n + 1, 0x1_0000_0000, q, c + 1);
    } else {
      RemainderIs(n + 1, 0x1_0000_0000, q + 1, 0);
    }
    if n % 192 + 1 < 192 {
      RemainderIs(n + 1, 192, n / 192, n % 192 + 1);
    } else {
      RemainderIs(n + 1, 192, n / 192 + 1, 0);
    }
  }
}
