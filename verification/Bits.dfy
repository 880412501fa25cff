/** Bit arithmetic of the cube generator: a logarithm by bit masks, and bit access. */
module Bits {

  function Pow2(k: nat): (p: nat)
    ensures p > 0
  {
    if k == 0 then 1 else 2 * Pow2(k - 1)
  }

  const WORD: nat := 0x1_0000_0000_0000_0000

  /** Bitwise and of two non-negative integers. */
  function And(a: nat, b: nat): nat
    decreases a
  {
    if a == 0 || b == 0 then 0 else (if a % 2 == 1 && b % 2 == 1 then 1 else 0) + 2 * And(a / 2, b / 2)
  }

  /** x - 1 in unsigned 64-bit arithmetic. */
  function Pred(x: nat): nat { if x == 0 then WORD - 1 else x - 1 }

  /** The number of bits that x values need. */
  function Log(x: nat): nat { if x <= 1 then 0 else 1 + Log((x + 1) / 2) }

  lemma {:induction false} LogBounds(x: nat)
    requires x > 0
    ensures x <= Pow2(Log(x)) && (Log(x) > 0 ==> Pow2(Log(x) - 1) < x)
  {
    if x <= 1 {
    } else {
      LogBounds((x + 1) / 2);
      if Log((x + 1) / 2) > 0 {
        assert Pow2(Log(x) - 1) == 2 * Pow2(Log((x + 1) / 2) - 1);
      }
    }
  }

  lemma {:induction false} Pow2Monotone(a: nat, b: nat)
    requires a <= b
    ensures Pow2(a) <= Pow2(b)
    decreases b
  {
    if a == b {
    } else {
      Pow2Monotone(a, b - 1);
    }
  }

  /** Log is the only exponent with those bounds. */
  lemma LogUnique(x: nat, y: nat)
    requires x > 0 && x <= Pow2(y) && (y > 0 ==> Pow2(y - 1) < x)
    ensures y == Log(x)
  {
    LogBounds(x);
    if y < Log(x) { Pow2Monotone(y, Log(x) - 1); }
    if y > Log(x) { Pow2Monotone(Log(x), y - 1); }
  }

  // ----- shifts and masks -----

  function Shl(x: nat, k: nat): nat
    decreases k
  {
    if k == 0 then x else 2 * Shl(x, k - 1)
  }

  function Shr(x: nat, k: nat): nat
    decreases k
  {
    if k == 0 then x else Shr(x / 2, k - 1)
  }

  /** The number with ones in its lowest j bits. */
  function Ones(j: nat): nat { if j == 0 then 0 else 2 * Ones(j - 1) + 1 }

  lemma {:induction false} AndShift(x: nat, b: nat, k: nat)
    ensures And(x, Shl(b, k)) == Shl(And(Shr(x, k), b), k)
    decreases k
  {
    if k == 0 {
    } else {
      AndShift(x / 2, b, k - 1);
      ShlZero(k - 1);
      ShrZero(x, k);
    }
  }

  lemma {:induction false} ShlZero(k: nat)
    ensures Shl(0, k) == 0
  {
    if k == 0 {
    } else {
      ShlZero(k - 1);
    }
  }

  lemma {:induction false} ShlPositive(x: nat, k: nat)
    ensures Shl(x, k) == 0 <==> x == 0
    decreases k
  {
    if k == 0 {
    } else {
      ShlPositive(x, k - 1);
    }
  }

  lemma {:induction false} ShrZero(x: nat, k: nat)
    ensures Shr(x, k) == 0 <==> x < Pow2(k)
    decreases k
  {
    if k == 0 {
    } else {
      ShrZero(x / 2, k - 1);
    }
  }

  lemma {:induction false} ShrBound(x: nat, a: nat, b: nat)
    requires x < Pow2(a + b)
    ensures Shr(x, a) < Pow2(b)
    decreases a
  {
    if a == 0 {
    } else {
      ShrBound(x / 2, a - 1, b);
    }
  }

  lemma {:induction false} AndOnes(x: nat, j: nat)
    requires x < Pow2(j)
    ensures And(x, Ones(j)) == x
    decreases j
  {
    if j == 0 {
    } else {
      AndOnes(x / 2, j - 1);
    }
  }

  /** Testing bits j to 2j - 1 of a number below 2^(2j) compares it with 2^j. */
  lemma MaskTests(x: nat, j: nat)
    requires x < Pow2(j + j)
    ensures And(x, Shl(Ones(j), j)) == 0 <==> x < Pow2(j)
  {
    AndShift(x, Ones(j), j);
    ShrBound(x, j, j);
    AndOnes(Shr(x, j), j);
    ShlPositive(Shr(x, j), j);
    ShrZero(x, j);
  }

  /** x & (x - 1) clears the lowest bit, so it is 0 exactly for powers of two. */
  lemma {:induction false} PowerTest(x: nat)
    requires x > 0
    ensures And(x, x - 1) == 0 <==> x == Pow2(Log(x))
  {
    if x == 1 {
    } else if x % 2 == 1 {
      AndSelf(x / 2);
      assert (x - 1) / 2 == x / 2;
      assert Pow2(Log(x)) == 2 * Pow2(Log(x) - 1);
    } else {
      PowerTest(x / 2);
      assert (x - 1) / 2 == x / 2 - 1 && (x + 1) / 2 == x / 2;
    }
  }

  lemma {:induction false} AndSelf(x: nat)
    ensures And(x, x) == x
  {
    if x == 0 {
    } else {
      AndSelf(x / 2);
    }
  }

  lemma {:induction false} ShrShr(x: nat, a: nat, b: nat)
    ensures Shr(Shr(x, a), b) == Shr(x, a + b)
    decreases a
  {
    if a == 0 {
    } else {
      ShrShr(x / 2, a - 1, b);
    }
  }

  /** A number that shifts to 1 lies between consecutive powers of two. */
  lemma {:induction false} ShrToOne(x: nat, s: nat)
    requires Shr(x, s) == 1
    ensures Pow2(s) <= x < Pow2(s + 1)
    decreases s
  {
    if s == 0 {
    } else {
      ShrToOne(x / 2, s - 1);
    }
  }

  // ----- the logarithm -----

  /** The six masks, highest half first. */
  const MASKS: seq<nat> := [
    0xFFFF_FFFF_0000_0000, 0x0000_0000_FFFF_0000, 0x0000_0000_0000_FF00,
    0x0000_0000_0000_00F0, 0x0000_0000_0000_000C, 0x0000_0000_0000_0002]

  /** The width mask i looks at: 32, 16, 8, 4, 2, 1. */
  function Width(i: nat): nat
    requires i <= 6
  {
    if i == 0 then 32 else Width(i - 1) / 2
  }

  lemma {:induction false} ShlShl(x: nat, a: nat, b: nat)
    ensures Shl(Shl(x, a), b) == Shl(x, a + b)
    decreases b
  {
    if b == 0 {
    } else {
      ShlShl(x, a, b - 1);
    }
  }

  lemma {:induction false} OnesSplit(a: nat, b: nat)
    ensures Ones(a + b) == Shl(Ones(a), b) + Ones(b)
    decreases b
  {
    if b == 0 {
    } else {
      OnesSplit(a, b - 1);
    }
  }

  lemma ShlWidths(x: nat)
    ensures Shl(x, 1) == 0x2 * x && Shl(x, 2) == 0x4 * x && Shl(x, 4) == 0x10 * x
    ensures Shl(x, 8) == 0x100 * x && Shl(x, 16) == 0x1_0000 * x && Shl(x, 32) == 0x1_0000_0000 * x
  {
    assert Shl(x, 1) == 2 * Shl(x, 0);
    forall y: nat ensures Shl(y, 2) == 4 * y { assert Shl(y, 2) == 2 * Shl(y, 1) == 4 * Shl(y, 0); }
    forall y: nat ensures Shl(y, 4) == 0x10 * y { ShlShl(y, 2, 2); }
    forall y: nat ensures Shl(y, 8) == 0x100 * y { ShlShl(y, 4, 4); }
    forall y: nat ensures Shl(y, 16) == 0x1_0000 * y { ShlShl(y, 8, 8); }
    ShlShl(x, 16, 16);
  }

  lemma OnesWidths()
    ensures Ones(1) == 1 && Ones(2) == 3 && Ones(4) == 0xF && Ones(8) == 0xFF
    ensures Ones(16) == 0xFFFF && Ones(32) == 0xFFFF_FFFF
  {
    assert Ones(1) == 1 && Ones(2) == 3;
    hide Ones, Shl;
    ShlWidths(3);
    ShlWidths(0xF);
    ShlWidths(0xFF);
    ShlWidths(0xFFFF);
    OnesSplit(2, 2);
    OnesSplit(4, 4);
    OnesSplit(8, 8);
    OnesSplit(16, 16);
  }

  lemma Widths()
    ensures Width(0) == 32 && Width(1) == 16 && Width(2) == 8 && Width(3) == 4 && Width(4) == 2 && Width(5) == 1
            && Width(6) == 0
  {
    assert Width(2) == 8;
    assert Width(4) == 2;
  }

  /** Each mask has its ones exactly in the upper half of twice its width. */
  lemma Masks(i: nat)
    requires i < 6
    ensures |MASKS| == 6 && MASKS[i] == Shl(Ones(Width(i)), Width(i))
  {
    hide Shl, Ones, Width;
    Widths();
    OnesWidths();
    ShlWidths(Ones(Width(i)));
  }

  lemma Pow64()
    ensures Pow2(64) == WORD
  {
    hide Shl, Pow2;
    ShlOne(64);
    ShlWidths(1);
    ShlWidths(0x1_0000_0000);
    ShlShl(1, 32, 32);
  }

  lemma {:induction false} ShlOne(k: nat)
    ensures Shl(1, k) == Pow2(k)
  {
    if k == 0 {
    } else {
      ShlOne(k - 1);
    }
  }

  /** The number of bits below which x lies after i of the six steps. */
  function Below(i: nat): nat
    requires i <= 6
  {
    if i == 6 then 1 else 2 * Width(i)
  }

  lemma BelowStep(i: nat)
    requires i < 6
    ensures Below(i) == Width(i) + Width(i) && Below(i + 1) == Width(i)
  {
    Widths();
  }

  /** The logarithm by masks: Log for every 64-bit number, 0 for 0. */
  method CeilLog2(x0: nat) returns (y: nat)
    requires x0 < WORD
    ensures x0 > 0 ==> y == Log(x0)
    ensures x0 == 0 ==> y == 0
  {
    hide Shl, Ones, Pow2, And, Shr, Width, Below;
    var x := x0;
    y := if And(x, Pred(x)) == 0 then 0 else 1;
    assert x == 0 ==> y == 0 by { AndZero(Pred(0)); }
    ghost var first := y;
    var j := 32;
    Widths();
    Pow64();
    assert Below(0) == 64 && Below(6) == 1 by { Widths(); BelowStep(0); BelowStep(5); }
    assert Shr(x0, 0) == x0 by { ShiftByZero(x0); }
    for i := 0 to 6
      invariant j == Width(i) && y >= first
      invariant x == Shr(x0, y - first) && x < Pow2(Below(i)) && (x0 > 0 ==> x > 0)
      invariant x0 == 0 ==> y == first && x == 0
    {
      Masks(i);
      BelowStep(i);
      MaskTests(x, j);
      var k := if And(x, MASKS[i]) == 0 then 0 else j;
      ShrShr(x0, y - first, k);
      ShrBound(x, j, j);
      ShrZero(x, j);
      ShiftByZero(x);
      y := y + k;
      x := Shr(x, k);
      WidthStep(i);
      j := j / 2;
    }
    assert x <= 1 by { Pow2One(); }
    if x0 > 0 {
      ShrToOne(x0, y - first);
      PowerTest(x0);
      LogOfRange(x0, y - first, first);
    }
  }

  lemma AndZero(b: nat)
    ensures And(0, b) == 0
  {
  }

  lemma ShiftByZero(x: nat)
    ensures Shr(x, 0) == x
  {
  }

  lemma Pow2One()
    ensures Pow2(1) == 2
  {
  }

  lemma WidthStep(i: nat)
    requires i < 6
    ensures Width(i + 1) == Width(i) / 2
  {
  }

  /** Between 2^s and 2^(s+1) the logarithm is s for 2^s itself and s + 1 above it. */
  lemma LogOfRange(x: nat, s: nat, first: nat)
    requires x > 0 && Pow2(s) <= x < Pow2(s + 1) && first == (if x == Pow2(Log(x)) then 0 else 1)
    ensures s + first == Log(x)
  {
    if x == Pow2(s) {
      if s > 0 { assert Pow2(s - 1) < Pow2(s); }
      LogUnique(x, s);
    } else {
      LogUnique(x, s + 1);
    }
  }

  /** get_bit for positions inside the word. */
  function Bit(n: nat, b: nat): bool { Shr(n, b) % 2 == 1 }
}
