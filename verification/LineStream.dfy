/** Streams of coded subframes on the wire: polarity, balance, self-synchronisation,
    error detection and a receiver. */
module LineStream {
  import opened Words
  import opened BiphaseMark
  import opened SubframeCoder

  /** What one subframe says on the line. */
  datatype LineSubframe = LineSubframe(preamble: Preamble, payload: seq<bool>)

  type Slot = s: LineSubframe | |s.payload| == 28 witness LineSubframe(PreambleM, Bits(0, 28))

  predicate Even(s: Slot) {
    Ones(s.payload) % 2 == 0
  }

  function Cells(s: Slot): (cells: seq<bool>)
    ensures |cells| == 64
  {
    SubframeCells(s.preamble, s.payload)
  }

  /** The stream this program emits: preambles of one fixed polarity. */
  function Wire(slots: seq<Slot>): (cells: seq<bool>)
    ensures |cells| == 64 * |slots|
  {
    if |slots| == 0 then [] else Cells(slots[0]) + Wire(slots[1..])
  }

  /** Section 4.3 of IEC 60958-1: a preamble is inverted when the level before it is high. */
  function StandardCells(level: bool, s: Slot): (cells: seq<bool>)
    ensures |cells| == 64
  {
    var preamble := if level then Not(PreambleCells(s.preamble)) else PreambleCells(s.preamble);
    preamble + Encode(preamble[7], s.payload)
  }

  function StandardWire(level: bool, slots: seq<Slot>): (cells: seq<bool>)
    ensures |cells| == 64 * |slots|
    decreases |slots|
  {
    if |slots| == 0 then []
    else
      var cells := StandardCells(level, slots[0]);
      cells + StandardWire(cells[63], slots[1..])
  }

  // ----- one subframe -----

  /** An even payload ends low; every bit boundary is a transition. */
  lemma CellShape(s: Slot, j: nat)
    requires Even(s) && 4 <= j < 32
    ensures Cells(s)[2 * j] != Cells(s)[2 * j - 1]
    ensures !Cells(s)[63]
  {
    BoundaryTransition(false, s.payload, j - 4);
    EndLevelParity(false, s.payload);
  }

  lemma CellsEndLevel(s: Slot)
    ensures Cells(s)[63] == !Even(s)
    ensures StandardCells(false, s) == Cells(s)
  {
    EndLevelParity(false, s.payload);
  }

  // ----- polarity -----

  /** The fixed-polarity stream is the standard one exactly when every subframe
      but the last has even parity. */
  lemma {:induction false} FixedPolarityIsStandard(slots: seq<Slot>)
    ensures StandardWire(false, slots) == Wire(slots)
       <==> forall i :: 0 <= i < |slots| - 1 ==> Even(slots[i])
  {
    if |slots| > 0 {
      var rest := slots[1..];
      CellsEndLevel(slots[0]);
      SameTails(Cells(slots[0]), StandardWire(!Even(slots[0]), rest), Wire(rest));
      if Even(slots[0]) {
        FixedPolarityIsStandard(rest);
        assert forall i :: 0 <= i < |rest| ==> rest[i] == slots[i + 1];
        assert forall i :: 1 <= i < |slots| ==> slots[i] == rest[i - 1];
      } else if |rest| > 0 {
        assert !StandardWire(true, rest)[0] && Wire(rest)[0];
        assert !Even(slots[0]);
      }
    }
  }

  lemma SameTails(a: seq<bool>, b: seq<bool>, c: seq<bool>)
    ensures a + b == a + c <==> b == c
  {
    assert (a + b)[|a|..] == b && (a + c)[|a|..] == c;
  }

  // ----- balance -----

  lemma PreambleSum(p: Preamble, n: nat)
    requires n <= 8
    ensures 0 <= DigitalSum(PreambleCells(p)[..n]) <= 3
    ensures DigitalSum(PreambleCells(p)) == 0
  {
    var c := PreambleCells(p);
    var h, t := c[..4], c[4..];
    assert c == h + t;
    OnesConcat(h, t);
    FourSums(h);
    FourSums(t);
    if n <= 4 {
      assert c[..n] == h[..n];
    } else {
      assert c[..n] == h + t[..n - 4];
      OnesConcat(h, t[..n - 4]);
    }
  }

  function Weight(b: bool): nat { if b then 1 else 0 }

  lemma FourSums(s: seq<bool>)
    requires |s| == 4
    ensures Ones(s[..0]) == 0 && Ones(s[..1]) == Weight(s[0])
    ensures Ones(s[..2]) == Weight(s[0]) + Weight(s[1])
    ensures Ones(s[..3]) == Weight(s[0]) + Weight(s[1]) + Weight(s[2])
    ensures Ones(s[..4]) == Weight(s[0]) + Weight(s[1]) + Weight(s[2]) + Weight(s[3])
    ensures s[..4] == s
  {
    OnesSnoc(s, 0);
    OnesSnoc(s, 1);
    OnesSnoc(s, 2);
    OnesSnoc(s, 3);
  }

  lemma OnesSnoc(s: seq<bool>, i: nat)
    requires i < |s|
    ensures Ones(s[..i + 1]) == Ones(s[..i]) + Weight(s[i])
  {
    assert s[..i + 1] == s[..i] + [s[i]];
    OnesConcat(s[..i], [s[i]]);
  }

  /** Every emitted subframe is balanced: 32 of its 64 half-cells are high. */
  lemma CellsBalanced(s: Slot, p: nat)
    requires Even(s) && p <= 64
    ensures 0 <= DigitalSum(Cells(s)[..p]) <= 3
    ensures Ones(Cells(s)) == 32
  {
    var preamble, code := PreambleCells(s.preamble), Encode(false, s.payload);
    PreambleSum(s.preamble, if p <= 8 then p else 8);
    EncodeSum(false, s.payload, if p <= 8 then 0 else p - 8);
    EndLevelParity(false, s.payload);
    OnesConcat(preamble, code);
    if p <= 8 {
      assert Cells(s)[..p] == preamble[..p];
    } else {
      assert Cells(s)[..p] == preamble + code[..p - 8];
      OnesConcat(preamble, code[..p - 8]);
    }
  }

  /** The running digital sum of the whole wire stays in [0, 3]. */
  lemma {:induction false} WireBalanced(slots: seq<Slot>, p: nat)
    requires forall i :: 0 <= i < |slots| ==> Even(slots[i])
    requires p <= 64 * |slots|
    ensures 0 <= DigitalSum(Wire(slots)[..p]) <= 3
  {
    if |slots| > 0 {
      var first, rest := Cells(slots[0]), Wire(slots[1..]);
      CellsBalanced(slots[0], if p <= 64 then p else 64);
      if p <= 64 {
        assert Wire(slots)[..p] == first[..p];
      } else {
        WireBalanced(slots[1..], p - 64);
        assert Wire(slots)[..p] == first + rest[..p - 64];
        OnesConcat(first, rest[..p - 64]);
      }
    }
  }

  // ----- positions on the wire -----

  lemma {:induction false} WireAt(slots: seq<Slot>, i: nat, j: nat)
    requires i < |slots| && j < 64
    ensures Wire(slots)[64 * i + j] == Cells(slots[i])[j]
  {
    if i > 0 {
      WireAt(slots[1..], i - 1, j);
    }
  }

  lemma {:induction false} WireSlice(slots: seq<Slot>, i: nat)
    requires i < |slots|
    ensures Wire(slots)[64 * i..64 * i + 64] == Cells(slots[i])
  {
    forall j | 0 <= j < 64
      ensures Wire(slots)[64 * i..64 * i + 64][j] == Cells(slots[i])[j]
    {
      WireAt(slots, i, j);
    }
  }

  lemma {:induction false} WireConcat(s: seq<Slot>, t: seq<Slot>)
    ensures Wire(s + t) == Wire(s) + Wire(t)
  {
    if |s| == 0 {
      assert s + t == t;
    } else {
      assert (s + t)[1..] == s[1..] + t;
      WireConcat(s[1..], t);
    }
  }

  ghost predicate AllEven(slots: seq<Slot>) {
    forall i :: 0 <= i < |slots| ==> Even(slots[i])
  }

  /** Three half-cells in a row at one level. */
  predicate Held(w: seq<bool>, p: nat, level: bool)
    requires p + 3 <= |w|
  {
    w[p] == level && w[p + 1] == level && w[p + 2] == level
  }

  /** A transition where bit j of subframe i begins. */
  ghost predicate Transition(w: seq<bool>, i: nat, j: nat)
    requires 4 <= j < 32 && 64 * i + 64 <= |w|
  {
    w[64 * i + 2 * j] != w[64 * i + 2 * j - 1]
  }

  /** A preamble and the start of its payload, where they stand on the wire. */
  ghost predicate PreambleAt(w: seq<bool>, x: nat, p: Preamble)
    requires x + 64 <= |w|
  {
    && w[x] && w[x + 1] && w[x + 2] && !w[x + 3]
    && w[x + 4] == (p == PreambleB) && w[x + 5] == (p == PreambleW) && w[x + 6] == (p == PreambleM)
    && !w[x + 7] && w[x + 8] && !w[x + 63]
  }

  /** What matters for synchronisation about a wire of even subframes. */
  ghost predicate Framed(w: seq<bool>, marks: seq<Preamble>) {
    && |w| == 64 * |marks|
    && (forall i :: 0 <= i < |marks| ==> PreambleAt(w, 64 * i, marks[i]))
    && (forall i, j | 0 <= i < |marks| && 4 <= j < 32 :: Transition(w, i, j))
  }

  function Marks(slots: seq<Slot>): (marks: seq<Preamble>)
    ensures |marks| == |slots|
    ensures forall i :: 0 <= i < |slots| ==> marks[i] == slots[i].preamble
  {
    seq(|slots|, i requires 0 <= i < |slots| => slots[i].preamble)
  }

  lemma CellsPreamble(s: Slot)
    requires Even(s)
    ensures PreambleAt(Cells(s), 0, s.preamble)
  {
    BoundaryTransition(false, s.payload, 0);
    CellShape(s, 4);
  }

  lemma PreambleOnWire(w: seq<bool>, c: seq<bool>, x: nat, p: Preamble)
    requires |c| == 64 && x + 64 <= |w| && w[x..x + 64] == c
    requires PreambleAt(c, 0, p)
    ensures PreambleAt(w, x, p)
  {
    assert forall k :: 0 <= k < 64 ==> c[k] == w[x + k];
  }

  lemma WireIsFramed(slots: seq<Slot>)
    requires AllEven(slots)
    ensures Framed(Wire(slots), Marks(slots))
  {
    var w := Wire(slots);
    forall i | 0 <= i < |slots|
      ensures PreambleAt(w, 64 * i, slots[i].preamble)
    {
      WireSlice(slots, i);
      CellsPreamble(slots[i]);
      PreambleOnWire(w, Cells(slots[i]), 64 * i, slots[i].preamble);
    }
    forall i, j | 0 <= i < |slots| && 4 <= j < 32
      ensures Transition(w, i, j)
    {
      WireSlice(slots, i);
      CellShape(slots[i], j);
      TransitionOnWire(w, Cells(slots[i]), i, j);
    }
  }

  lemma TransitionOnWire(w: seq<bool>, c: seq<bool>, i: nat, j: nat)
    requires |c| == 64 && 64 * i + 64 <= |w| && w[64 * i..64 * i + 64] == c
    requires 4 <= j < 32 && Transition(c, 0, j)
    ensures Transition(w, i, j)
  {
    assert c[2 * j] == w[64 * i + 2 * j] && c[2 * j - 1] == w[64 * i + 2 * j - 1];
  }

  /** After the first six half-cells of a subframe no level is held for three. */
  lemma NotHeld(w: seq<bool>, marks: seq<Preamble>, i: nat, j: nat, level: bool)
    requires Framed(w, marks) && 6 <= j < 64 && 64 * i + j + 3 <= |w|
    ensures !Held(w, 64 * i + j, level)
  {
    if j >= 62 {
      assert PreambleAt(w, 64 * i, marks[i]);
      assert PreambleAt(w, 64 * (i + 1), marks[i + 1]);
    } else {
      assert Transition(w, i, j / 2 + 1);
    }
  }

  lemma HeldHighAt(w: seq<bool>, marks: seq<Preamble>, i: nat, j: nat)
    requires Framed(w, marks) && j < 64 && 64 * i + j + 3 <= |w|
    ensures Held(w, 64 * i + j, true) <==> j == 0
  {
    if j >= 6 {
      NotHeld(w, marks, i, j, true);
    } else {
      assert PreambleAt(w, 64 * i, marks[i]);
    }
  }

  /** Three high half-cells in a row occur exactly at the subframe boundaries. */
  lemma SyncPattern(slots: seq<Slot>, p: nat)
    requires AllEven(slots) && p + 3 <= 64 * |slots|
    ensures Held(Wire(slots), p, true) <==> p % 64 == 0
  {
    hide Wire, Framed, Held, AllEven, Marks;
    Boundary(p);
    WireIsFramed(slots);
    HeldHighAt(Wire(slots), Marks(slots), p / 64, p % 64);
  }

  lemma Boundary(p: nat)
    ensures p == 64 * (p / 64) + p % 64
  {
  }

  lemma HeldFourAt(w: seq<bool>, marks: seq<Preamble>, i: nat, j: nat, level: bool)
    requires Framed(w, marks) && j < 64 && 64 * i + j + 4 <= |w|
    ensures !(Held(w, 64 * i + j, level) && w[64 * i + j + 3] == level)
  {
    if j >= 6 {
      NotHeld(w, marks, i, j, level);
    } else {
      assert PreambleAt(w, 64 * i, marks[i]);
    }
  }

  /** No level is ever held for more than three half-cells. */
  lemma RunsAtMostThree(slots: seq<Slot>, p: nat, level: bool)
    requires AllEven(slots) && p + 4 <= 64 * |slots|
    ensures !(Held(Wire(slots), p, level) && Wire(slots)[p + 3] == level)
  {
    WireIsFramed(slots);
    HeldFourAt(Wire(slots), Marks(slots), p / 64, p % 64, level);
  }

  lemma EightCells(w: seq<bool>, p: nat, y: seq<bool>)
    requires p + 8 <= |w| && |y| == 8
    ensures w[p..p + 8] == y <==>
            && w[p] == y[0] && w[p + 1] == y[1] && w[p + 2] == y[2] && w[p + 3] == y[3]
            && w[p + 4] == y[4] && w[p + 5] == y[5] && w[p + 6] == y[6] && w[p + 7] == y[7]
  {
    var v := w[p..p + 8];
    assert v[0] == w[p] && v[1] == w[p + 1] && v[2] == w[p + 2] && v[3] == w[p + 3];
    assert v[4] == w[p + 4] && v[5] == w[p + 5] && v[6] == w[p + 6] && v[7] == w[p + 7];
    if v[0] == y[0] && v[1] == y[1] && v[2] == y[2] && v[3] == y[3]
       && v[4] == y[4] && v[5] == y[5] && v[6] == y[6] && v[7] == y[7] {
      assert forall k :: 0 <= k < 8 ==> v[k] == y[k];
    }
  }

  lemma PreambleCellsAt(w: seq<bool>, marks: seq<Preamble>, i: nat, j: nat, x: Preamble)
    requires Framed(w, marks) && j < 64 && 64 * i + j + 8 <= |w|
    ensures w[64 * i + j..64 * i + j + 8] == PreambleCells(x) <==> j == 0 && marks[i] == x
  {
    EightCells(w, 64 * i + j, PreambleCells(x));
    HeldHighAt(w, marks, i, j);
    assert PreambleAt(w, 64 * i, marks[i]);
  }

  /** A preamble pattern appears only at a subframe boundary, where it is that subframe's own. */
  lemma PreamblesOnlyAtBoundaries(slots: seq<Slot>, p: nat, x: Preamble)
    requires AllEven(slots) && p + 8 <= 64 * |slots|
    ensures Wire(slots)[p..p + 8] == PreambleCells(x) <==> p % 64 == 0 && slots[p / 64].preamble == x
  {
    hide Wire, PreambleCells;
    WireIsFramed(slots);
    PreambleCellsAt(Wire(slots), Marks(slots), p / 64, p % 64, x);
  }

  /** Eight half-cells that spell a complemented preamble. */
  ghost predicate Complemented(w: seq<bool>, p: nat, x: Preamble)
    requires p + 8 <= |w|
  {
    && !w[p] && !w[p + 1] && !w[p + 2] && w[p + 3]
    && w[p + 4] == (x != PreambleB) && w[p + 5] == (x != PreambleW) && w[p + 6] == (x != PreambleM)
    && w[p + 7]
  }

  lemma NoComplementAt(w: seq<bool>, marks: seq<Preamble>, i: nat, j: nat, x: Preamble)
    requires Framed(w, marks) && j < 64 && 64 * i + j + 8 <= |w|
    ensures !Complemented(w, 64 * i + j, x)
  {
    if j >= 6 {
      NotHeld(w, marks, i, j, false);
    } else {
      assert PreambleAt(w, 64 * i, marks[i]);
      match x
      case PreambleB => HeldHighAt(w, marks, i, j + 5);
      case PreambleM => HeldHighAt(w, marks, i, j + 3);
      case PreambleW => assert Transition(w, i, 6);
    }
  }

  /** A complemented preamble appears nowhere. */
  lemma NoComplementedPreamble(slots: seq<Slot>, p: nat, x: Preamble)
    requires AllEven(slots) && p + 8 <= 64 * |slots|
    ensures Wire(slots)[p..p + 8] != Not(PreambleCells(x))
  {
    hide *;
    WireIsFramed(slots);
    NoComplementCellsAt(Wire(slots), Marks(slots), p / 64, p % 64, x);
  }

  lemma NoComplementCellsAt(w: seq<bool>, marks: seq<Preamble>, i: nat, j: nat, x: Preamble)
    requires Framed(w, marks) && j < 64 && 64 * i + j + 8 <= |w|
    ensures w[64 * i + j..64 * i + j + 8] != Not(PreambleCells(x))
  {
    var p := 64 * i + j;
    if w[p..p + 8] == Not(PreambleCells(x)) {
      NoComplementAt(w, marks, i, j, x);
      ComplementSpelled(w, p, x);
      assert false;
    }
  }

  lemma ComplementSpelled(w: seq<bool>, p: nat, x: Preamble)
    requires p + 8 <= |w| && w[p..p + 8] == Not(PreambleCells(x))
    ensures Complemented(w, p, x)
  {
    EightCells(w, p, Not(PreambleCells(x)));
  }

  // ----- the receiver -----

  function ParsePreamble(cells: seq<bool>): Option<Preamble> {
    if cells == PreambleCells(PreambleB) then Some(PreambleB)
    else if cells == PreambleCells(PreambleM) then Some(PreambleM)
    else if cells == PreambleCells(PreambleW) then Some(PreambleW)
    else None
  }

  /** Accepts a preamble followed by a biphase-mark payload of even parity. */
  function ParseSubframe(cells: seq<bool>): Option<Slot>
    requires |cells| == 64
  {
    match ParsePreamble(cells[..8])
    case None => None
    case Some(preamble) =>
      match Decode(false, cells[8..])
      case None => None
      case Some(payload) =>
        if |payload| == 28 && Ones(payload) % 2 == 0 then Some(LineSubframe(preamble, payload)) else None
  }

  lemma ParsePreambleIff(cells: seq<bool>, p: Preamble)
    ensures ParsePreamble(cells) == Some(p) <==> cells == PreambleCells(p)
  {
    var b, m, w := PreambleCells(PreambleB), PreambleCells(PreambleM), PreambleCells(PreambleW);
    assert b[4..][0] && !m[4..][0] && !w[4..][0] && m[4..][2] && !w[4..][2];
  }

  /** The receiver accepts exactly the codes of even subframes, so the code is injective. */
  lemma ParseIffCells(cells: seq<bool>, s: Slot)
    requires |cells| == 64
    ensures ParseSubframe(cells) == Some(s) <==> cells == Cells(s) && Even(s)
  {
    ParsePreambleIff(cells[..8], s.preamble);
    DecodeIffEncode(false, cells[8..], s.payload);
    assert cells == cells[..8] + cells[8..];
    if cells == Cells(s) {
      assert cells[..8] == PreambleCells(s.preamble);
      assert cells[8..] == Encode(false, s.payload);
    }
  }

  /** Flipping any single half-cell of an emitted subframe is detected. */
  lemma SingleErrorDetected(s: Slot, i: nat)
    requires Even(s) && i < 64
    ensures ParseSubframe(Cells(s)[i := !Cells(s)[i]]) == None
  {
    var bad := Cells(s)[i := !Cells(s)[i]];
    CellsBalanced(s, 0);
    OnesUpdate(Cells(s), i);
    if ParseSubframe(bad).Some? {
      var t := ParseSubframe(bad).value;
      ParseIffCells(bad, t);
      CellsBalanced(t, 0);
      assert false;
    }
  }

  function Distance(a: seq<bool>, b: seq<bool>): nat
    requires |a| == |b|
  {
    if |a| == 0 then 0 else (if a[0] != b[0] then 1 else 0) + Distance(a[1..], b[1..])
  }

  lemma {:induction false} DistanceParity(a: seq<bool>, b: seq<bool>)
    requires |a| == |b|
    ensures (Distance(a, b) - Ones(a) - Ones(b)) % 2 == 0
    ensures Distance(a, b) == 0 <==> a == b
  {
    if |a| > 0 {
      DistanceParity(a[1..], b[1..]);
      assert a == [a[0]] + a[1..] && b == [b[0]] + b[1..];
    }
  }

  /** Distinct even subframes differ in at least two half-cells. */
  lemma MinimumDistance(s: Slot, t: Slot)
    requires Even(s) && Even(t) && s != t
    ensures Distance(Cells(s), Cells(t)) >= 2
  {
    var a, b := Cells(s), Cells(t);
    assert a != b by {
      ParseIffCells(a, s);
      ParseIffCells(a, t);
    }
    assert Ones(a) == 32 by { CellsBalanced(s, 0); }
    assert Ones(b) == 32 by { CellsBalanced(t, 0); }
    DistanceParity(a, b);
  }

  /** Hunts for three high half-cells, then takes a subframe. */
  function Receive(cells: seq<bool>): seq<Slot> {
    if |cells| < 64 then []
    else if !(cells[0] && cells[1] && cells[2]) then Receive(cells[1..])
    else match ParseSubframe(cells[..64])
      case None => Receive(cells[1..])
      case Some(s) => [s] + Receive(cells[64..])
  }

  /** From any starting point in the stream the receiver recovers every
      subframe that begins there or later, and nothing else. */
  lemma ReceiveFromAnywhere(slots: seq<Slot>, q: nat)
    requires AllEven(slots) && q <= 64 * |slots|
    ensures Receive(Wire(slots)[q..]) == slots[(q + 63) / 64..]
  {
    hide Receive, ParseSubframe, Wire, Framed, AllEven, Marks;
    WireIsFramed(slots);
    forall i | 0 <= i < |slots|
      ensures ParseSubframe(Wire(slots)[64 * i..64 * i + 64]) == Some(slots[i])
    {
      ParseAtBoundary(slots, i);
    }
    var i := (q + 63) / 64;
    NextBoundary(q);
    ReceiveFrom(Wire(slots), slots, i, 64 * i - q);
  }

  lemma NextBoundary(q: nat)
    ensures 0 <= 64 * ((q + 63) / 64) - q < 64
  {
  }

  /** The same, j half-cells before the boundary of subframe i. */
  lemma {:induction false} ReceiveFrom(w: seq<bool>, slots: seq<Slot>, i: nat, j: nat)
    requires Framed(w, Marks(slots)) && i <= |slots| && j < 64 && j <= 64 * i
    requires forall k :: 0 <= k < |slots| ==> ParseSubframe(w[64 * k..64 * k + 64]) == Some(slots[k])
    ensures Receive(w[64 * i - j..]) == slots[i..]
    decreases |slots| - i, j
  {
    hide Receive, ParseSubframe;
    if i == |slots| {
      ReceiveShort(w[64 * i - j..]);
      assert slots[i..] == [];
    } else if j == 0 {
      HeldHighAt(w, Marks(slots), i, 0);
      ReceiveHit(w, 64 * i, slots[i]);
      ReceiveFrom(w, slots, i + 1, 0);
      assert slots[i..] == [slots[i]] + slots[i + 1..];
    } else {
      HeldHighAt(w, Marks(slots), i - 1, 64 - j);
      ReceiveMiss(w, 64 * i - j);
      ReceiveFrom(w, slots, i, j - 1);
    }
  }

  lemma ReceiveShort(cells: seq<bool>)
    requires |cells| < 64
    ensures Receive(cells) == []
  {
  }

  lemma ReceiveHit(w: seq<bool>, q: nat, s: Slot)
    requires q + 64 <= |w| && Held(w, q, true) && ParseSubframe(w[q..q + 64]) == Some(s)
    ensures Receive(w[q..]) == [s] + Receive(w[q + 64..])
  {
    var cells := w[q..];
    assert cells[..64] == w[q..q + 64] && cells[64..] == w[q + 64..];
  }

  lemma ReceiveMiss(w: seq<bool>, q: nat)
    requires q + 64 <= |w| && !Held(w, q, true)
    ensures Receive(w[q..]) == Receive(w[q + 1..])
  {
    var cells := w[q..];
    assert cells[1..] == w[q + 1..];
  }

  lemma ParseAtBoundary(slots: seq<Slot>, i: nat)
    requires AllEven(slots) && i < |slots|
    ensures ParseSubframe(Wire(slots)[64 * i..64 * i + 64]) == Some(slots[i])
  {
    WireSlice(slots, i);
    ParseIffCells(Cells(slots[i]), slots[i]);
  }
}
