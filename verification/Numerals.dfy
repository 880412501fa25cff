/** Decimal text of machine integers: the formatter of the preloaded runtime
    and the digit arithmetic of the DIMACS parser. */
module Numerals {

  const INT_MAX: int := 0x7FFF_FFFF
  const MAX_VARS: nat := 0x7FFF_FFFF
  const UINT64_MAX: nat := 0xFFFF_FFFF_FFFF_FFFF

  /** The literals the API admits: every int above INT_MIN. */
  predicate IsLit(i: int) { -INT_MAX <= i <= INT_MAX }

  function Abs(i: int): nat { if i < 0 then -i else i }

  predicate IsDigit(c: char) { '0' <= c <= '9' }

  function Digit(d: nat): char
    requires d < 10
  {
    (0x30 + d) as char
  }

  function DigitValue(c: char): nat
    requires IsDigit(c)
  {
    c as int - 0x30
  }

  predicate AllDigits(s: string) { forall k :: 0 <= k < |s| ==> IsDigit(s[k]) }

  /** Canonical decimal of a natural number. */
  function Dec(n: nat): (s: string)
    ensures s != "" && AllDigits(s)
  {
    if n < 10 then [Digit(n)] else Dec(n / 10) + [Digit(n % 10)]
  }

  /** What printf's %d prints. */
  function Text(i: int): (s: string)
    ensures s != ""
  {
    if i < 0 then "-" + Dec(-i) else Dec(i)
  }

  /** The number a digit string denotes, most significant digit first. */
  function Value(s: string): nat
    requires AllDigits(s)
  {
    if s == "" then 0 else 10 * Value(s[..|s| - 1]) + DigitValue(s[|s| - 1])
  }

  lemma {:induction false} DecRoundTrip(n: nat)
    ensures Value(Dec(n)) == n
    ensures n > 0 ==> Dec(n)[0] != '0'
  {
    if n < 10 {
      assert [Digit(n)][..0] == "";
    } else {
      DecRoundTrip(n / 10);
      assert Dec(n)[..|Dec(n)| - 1] == Dec(n / 10);
    }
  }

  function Pow10(k: nat): nat { if k == 0 then 1 else 10 * Pow10(k - 1) }

  lemma {:induction false} DecLength(n: nat, k: nat)
    requires k > 0 && n < Pow10(k)
    ensures |Dec(n)| <= k
  {
    if n < 10 {
    } else {
      DecLength(n / 10, k - 1);
    }
  }

  /** Every literal fits in eleven characters, so it fits in the runtime's 64-byte buffer. */
  lemma TextLength(i: int)
    requires IsLit(i)
    ensures |Text(i)| <= 11
    ensures i >= 0 ==> |Text(i)| <= 10
  {
    assert Pow10(10) == 10_000_000_000;
    DecLength(Abs(i), 10);
  }

  /** A digit string only grows in value: once a prefix exceeds a bound, so does the whole. */
  lemma {:induction false} ValueMonotone(s: string, k: nat)
    requires AllDigits(s) && k <= |s|
    ensures Value(s[..k]) <= Value(s)
  {
    if k < |s| {
      var p := s[..|s| - 1];
      assert p[..k] == s[..k];
      ValueMonotone(p, k);
    } else {
      assert s[..k] == s;
    }
  }

  /** Two-digit table; entry v holds the two decimal digits of v. */
  const DIGITS2: seq<string> := [
    "00010203040506070809", "10111213141516171819", "20212223242526272829", "30313233343536373839",
    "40414243444546474849", "50515253545556575859", "60616263646566676869", "70717273747576777879",
    "80818283848586878889", "90919293949596979899"]

  lemma Digits2Rows()
    ensures |DIGITS2| == 10 && forall r :: 0 <= r < 10 ==> |DIGITS2[r]| == 20
  {
  }

  lemma Digits2Row(r: nat, c: nat)
    requires r < 10 && c < 10 && |DIGITS2| == 10 && |DIGITS2[r]| == 20
    ensures DIGITS2[r][2 * c] == Digit(r) && DIGITS2[r][2 * c + 1] == Digit(c)
  {
  }

  /** The two decimal digits of v. */
  function Pair(v: nat): string
    requires v < 100
  {
    [Digit(v / 10), Digit(v % 10)]
  }

  /** Copies the two digits of v in front of the text out[end..size]. */
  method PutPair(v: nat, out: array<char>, end: nat, size: nat)
    requires v < 100 && 2 <= end <= size <= out.Length
    modifies out
    ensures out[end - 2..size] == Pair(v) + old(out[end..size])
    ensures forall k :: 0 <= k < end - 2 || size <= k < out.Length ==> out[k] == old(out[k])
  {
    Digits2Rows();
    Digits2Row(v / 10, v % 10);
    out[end - 2] := DIGITS2[v / 10][2 * (v % 10)];
    out[end - 1] := DIGITS2[v / 10][2 * (v % 10) + 1];
  }

  /** Puts one digit in front of the text out[end..size]. */
  method PutDigit(v: nat, out: array<char>, end: nat, size: nat)
    requires v < 10 && 1 <= end <= size <= out.Length
    modifies out
    ensures out[end - 1..size] == [Digit(v)] + old(out[end..size])
    ensures forall k :: 0 <= k < end - 1 || size <= k < out.Length ==> out[k] == old(out[k])
  {
    out[end - 1] := Digit(v);
    assert out[end - 1..size] == [out[end - 1]] + out[end..size];
  }

  lemma Hundreds(n: nat)
    ensures n / 10 / 10 == n / 100 && n % 100 / 10 == n / 10 % 10 && n % 100 % 10 == n % 10
  {
  }

  lemma DecTwo(n: nat)
    requires n >= 10
    ensures n < 100 ==> Dec(n) == Pair(n)
    ensures n >= 100 ==> Dec(n) == Dec(n / 100) + Pair(n % 100)
    ensures |Dec(n)| >= 2
  {
    Hundreds(n);
    hide Digit;
    assert Dec(n) == Dec(n / 10) + [Digit(n % 10)];
    if n >= 100 {
      assert Dec(n / 10) == Dec(n / 100) + [Digit(n / 10 % 10)];
    }
  }

  /** Two steps of Dec at once, in front of what is already written. */
  lemma DecPair(n: nat, tail: string)
    requires n >= 10
    ensures n < 100 ==> Dec(n) + tail == Pair(n) + tail
    ensures n >= 100 ==> Dec(n) + tail == Dec(n / 100) + (Pair(n % 100) + tail)
    ensures |Dec(n)| >= 2
  {
    hide *;
    DecTwo(n);
    if n >= 100 { assert Dec(n / 100) + Pair(n % 100) + tail == Dec(n / 100) + (Pair(n % 100) + tail); }
  }

  lemma NoTail(n: nat)
    ensures Dec(n) + "" == Dec(n)
    ensures n <= INT_MAX ==> |Dec(n)| <= 10
  {
    if n <= INT_MAX { TextLength(n); }
  }

  lemma OneDigit(n: nat)
    requires n < 10
    ensures Dec(n) == [Digit(n)]
  {
  }

  /** Writes the decimal of i right-justified into out[..size], two digits at a
      time from the back, and returns where it begins. */
  method IntToStrBackwards(i: int, out: array<char>, size: nat) returns (begin: nat)
    requires 0 <= i <= INT_MAX && 10 <= size <= out.Length
    modifies out
    ensures begin <= size && out[begin..size] == Dec(i) && size - begin <= 10
    ensures forall k :: 0 <= k < begin || size <= k < out.Length ==> out[k] == old(out[k])
  {
    hide Dec, Pair, Digit;
    TextLength(i);
    var n := i;
    begin := size;
    ghost var tail := "";
    NoTail(i);
    while n >= 100
      invariant 0 <= n && begin <= size && |tail| == size - begin
      invariant |Dec(i)| <= 10 && Dec(i) == Dec(n) + tail && out[begin..size] == tail
      invariant forall k :: 0 <= k < begin || size <= k < out.Length ==> out[k] == old(out[k])
    {
      ghost var pair := Pair(n % 100);
      DecPair(n, tail);
      PutPair(n % 100, out, begin, size);
      n := n / 100;
      begin := begin - 2;
      tail := pair + tail;
    }
    if n < 10 {
      OneDigit(n);
      PutDigit(n, out, begin, size);
      begin := begin - 1;
    } else {
      DecPair(n, tail);
      PutPair(n, out, begin, size);
      begin := begin - 2;
    }
  }

  /** The runtime's integer formatter: out[begin..size] is what %d would print. */
  method IntToStr(i: int, out: array<char>, size: nat) returns (begin: nat)
    requires IsLit(i) && 11 <= size <= out.Length
    modifies out
    ensures begin <= size && out[begin..size] == Text(i) && size - begin <= 11
    ensures forall k :: 0 <= k < begin || size <= k < out.Length ==> out[k] == old(out[k])
  {
    begin := IntToStrBackwards(Abs(i), out, size);
    if i < 0 {
      begin := begin - 1;
      out[begin] := '-';
      assert out[begin..size] == "-" + Dec(-i);
    }
  }
}
