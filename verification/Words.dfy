/** Fixed-width machine words as bounded integers, and their bits as sequences,
    most significant bit first (the order in which a word leaves the PCM port). */
module Words {

  type uint8 = x: int | 0 <= x < 0x100
  type uint16 = x: int | 0 <= x < 0x1_0000
  type uint32 = x: int | 0 <= x < 0x1_0000_0000
  type uint64 = x: int | 0 <= x < 0x1_0000_0000_0000_0000
  type int32 = x: int | -0x8000_0000 <= x < 0x8000_0000

  function Pow2(n: nat): (p: nat)
    ensures p >= 1
  {
    if n == 0 then 1 else 2 * Pow2(n - 1)
  }

  /** The low n bits of x, most significant first. */
  function Bits(x: nat, n: nat): (s: seq<bool>)
    ensures |s| == n
  {
    if n == 0 then [] else Bits(x / 2, n - 1) + [x % 2 == 1]
  }

  /** The number whose bits are s, most significant first. */
  function Value(s: seq<bool>): nat {
    if |s| == 0 then 0
    else 2 * Value(s[..|s| - 1]) + if s[|s| - 1] then 1 else 0
  }

  function Reverse(s: seq<bool>): (r: seq<bool>)
    ensures |r| == |s|
    ensures forall i :: 0 <= i < |s| ==> r[i] == s[|s| - 1 - i]
  {
    seq(|s|, i requires 0 <= i < |s| => s[|s| - 1 - i])
  }

  function Not(s: seq<bool>): (r: seq<bool>)
    ensures |r| == |s|
    ensures forall i :: 0 <= i < |s| ==> r[i] == !s[i]
  {
    seq(|s|, i requires 0 <= i < |s| => !s[i])
  }

  /** How many cells are high. */
  function Ones(s: seq<bool>): (n: nat)
    ensures n <= |s|
  {
    if |s| == 0 then 0 else (if s[0] then 1 else 0) + Ones(s[1..])
  }

  lemma {:induction false} ValueOfBits(x: nat, n: nat)
    requires x < Pow2(n)
    ensures Value(Bits(x, n)) == x
  {
    if n > 0 {
      ValueOfBits(x / 2, n - 1);
      assert Bits(x, n)[..n - 1] == Bits(x / 2, n - 1);
    }
  }

  lemma {:induction false} BitsOfValue(s: seq<bool>)
    ensures Value(s) < Pow2(|s|)
    ensures Bits(Value(s), |s|) == s
  {
    if |s| > 0 {
      BitsOfValue(s[..|s| - 1]);
      ValueSplits(s);
      assert s[..|s| - 1] + [s[|s| - 1]] == s;
      assert Bits(Value(s), |s|) == Bits(Value(s) / 2, |s| - 1) + [Value(s) % 2 == 1];
    }
  }

  lemma ValueSplits(s: seq<bool>)
    requires |s| > 0
    ensures Value(s) / 2 == Value(s[..|s| - 1]) && (Value(s) % 2 == 1 <==> s[|s| - 1])
  {
  }

  /** Shifting h above an n-bit l puts its bits in front. */
  lemma {:induction false} BitsJoin(h: nat, l: nat, a: nat, n: nat)
    requires l < Pow2(n)
    ensures Bits(h * Pow2(n) + l, a + n) == Bits(h, a) + Bits(l, n)
  {
    if n == 0 {
      assert h * Pow2(0) + l == h;
      assert Bits(h, a) + Bits(l, 0) == Bits(h, a);
    } else {
      var x := h * Pow2(n) + l;
      assert x == 2 * (h * Pow2(n - 1)) + l;
      assert x / 2 == h * Pow2(n - 1) + l / 2;
      assert x % 2 == l % 2;
      BitsJoin(h, l / 2, a, n - 1);
      assert Bits(h, a) + (Bits(l / 2, n - 1) + [l % 2 == 1])
          == (Bits(h, a) + Bits(l / 2, n - 1)) + [l % 2 == 1];
    }
  }

  /** x >> n. */
  function Shr(x: nat, n: nat): (y: nat)
    ensures y <= x
  {
    if n == 0 then x else Shr(x / 2, n - 1)
  }

  /** x truncated to an n-bit word. */
  function Low(x: nat, n: nat): (y: nat)
    ensures y < Pow2(n) && Bits(y, n) == Bits(x, n)
  {
    BitsOfValue(Bits(x, n));
    Value(Bits(x, n))
  }

  lemma {:induction false} ShiftAndMask(x: nat, n: nat)
    ensures x == Shr(x, n) * Pow2(n) + Low(x, n)
  {
    if n > 0 {
      ShiftAndMask(x / 2, n - 1);
      assert Bits(x, n)[..n - 1] == Bits(x / 2, n - 1);
      assert Low(x, n) == 2 * Low(x / 2, n - 1) + x % 2;
      Regroup(Shr(x, n), Pow2(n - 1), Low(x / 2, n - 1), x);
    }
  }

  lemma Regroup(h: nat, p: nat, l: nat, x: nat)
    requires x / 2 == h * p + l
    ensures x == h * (2 * p) + (2 * l + x % 2)
  {
    assert h * (2 * p) == 2 * (h * p);
  }

  /** BitsJoin with the power of two given as a number. */
  lemma BitsAppend(x: nat, h: nat, l: nat, a: nat, n: nat, p: nat)
    requires p == Pow2(n) && l < p && x == h * p + l
    ensures Bits(x, a + n) == Bits(h, a) + Bits(l, n)
  {
    BitsJoin(h, l, a, n);
  }

  lemma SameTail(a: seq<bool>, b: seq<bool>, c: seq<bool>, d: seq<bool>)
    requires a + b == c + d && |a| == |c|
    ensures a == c && b == d
  {
    assert a == (a + b)[..|a|] && c == (c + d)[..|c|];
    assert b == (a + b)[|a|..] && d == (c + d)[|c|..];
  }

  /** The a + n low bits are the a bits above position n, then the n low bits. */
  lemma {:induction false} BitsSplit(x: nat, a: nat, n: nat)
    ensures Bits(x, a + n) == Bits(Shr(x, n), a) + Bits(x, n)
  {
    if n > 0 {
      BitsSplit(x / 2, a, n - 1);
    }
  }

  /** All-ones minus y complements every bit: y ^ 0xFF on a byte. */
  lemma {:induction false} BitsComplement(y: nat, n: nat)
    requires y < Pow2(n)
    ensures Bits(Pow2(n) - 1 - y, n) == Not(Bits(y, n))
  {
    if n > 0 {
      var z := Pow2(n) - 1 - y;
      assert z / 2 == Pow2(n - 1) - 1 - y / 2;
      BitsComplement(y / 2, n - 1);
    }
  }

  lemma ReverseConcat(s: seq<bool>, t: seq<bool>)
    ensures Reverse(s + t) == Reverse(t) + Reverse(s)
  {
  }

  lemma {:induction false} OnesConcat(s: seq<bool>, t: seq<bool>)
    ensures Ones(s + t) == Ones(s) + Ones(t)
  {
    if |s| == 0 {
      assert s + t == t;
    } else {
      assert (s + t)[1..] == s[1..] + t;
      OnesConcat(s[1..], t);
    }
  }

  lemma {:induction false} OnesReverse(s: seq<bool>)
    ensures Ones(Reverse(s)) == Ones(s)
  {
    if |s| > 0 {
      OnesReverse(s[1..]);
      OnesConcat(Reverse(s[1..]), [s[0]]);
      assert Reverse(s) == Reverse(s[1..]) + [s[0]];
    }
  }

  lemma {:induction false} OnesUpdate(s: seq<bool>, i: nat)
    requires i < |s|
    ensures Ones(s[i := !s[i]]) == Ones(s) + if s[i] then -1 else 1
  {
    var t := s[i := !s[i]];
    if i == 0 {
      assert t[1..] == s[1..];
    } else {
      assert t[1..] == s[1..][i - 1 := !s[i]];
      OnesUpdate(s[1..], i - 1);
    }
  }
}
