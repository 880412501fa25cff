/** Cubes from integer splits: leading prefix variables are read as numbers, most
    significant bit first, and each tuple of numbers becomes one assumption set. */
module Cubes {
  import opened Numerals
  import opened Bits
  import opened Qbf

  /** How many variables a split takes. */
  function Length(split: nat): nat { if split != 0 then Log(split) else 1 }

  function TotalLength(splits: seq<nat>): nat {
    if splits == [] then 0 else Length(splits[0]) + TotalLength(splits[1..])
  }

  /** The literals that make the variables spell n. */
  function Group(vars: seq<int>, n: nat): (ls: seq<int>)
    ensures |ls| == |vars|
  {
    if vars == [] then []
    else [if Bit(n, |vars| - 1) then Abs(vars[0]) else -(Abs(vars[0]) as int)] + Group(vars[1..], n)
  }

  /** The cube of a tuple: one group per split. */
  function Cube(vars: seq<int>, splits: seq<nat>, t: seq<nat>): seq<int>
    requires TotalLength(splits) <= |vars| && |t| == |splits|
  {
    if splits == [] then []
    else
      var n := Length(splits[0]);
      Group(vars[..n], t[0]) + Cube(vars[n..], splits[1..], t[1..])
  }

  /** t is a tuple of the product of the splits. */
  predicate InRange(splits: seq<nat>, t: seq<nat>) {
    |t| == |splits| && forall i :: 0 <= i < |t| ==> t[i] < splits[i]
  }

  // ----- reading an assignment back -----

  /** The number the variables spell under an assignment. */
  function Spelled(vars: seq<int>, a: Assignment): (n: nat)
    ensures n < Pow2(|vars|)
  {
    if vars == [] then 0
    else (if Abs(vars[0]) in a then Pow2(|vars| - 1) else 0) + Spelled(vars[1..], a)
  }

  function SpelledAll(vars: seq<int>, splits: seq<nat>, a: Assignment): (t: seq<nat>)
    requires TotalLength(splits) <= |vars|
    ensures |t| == |splits|
  {
    if splits == [] then []
    else
      var n := Length(splits[0]);
      [Spelled(vars[..n], a)] + SpelledAll(vars[n..], splits[1..], a)
  }

  /** Bits above the highest are zero; the highest one carries its power of two. */
  lemma {:induction false} TopBit(n: nat, k: nat)
    requires n < Pow2(k + 1)
    ensures Bit(n, k) <==> n >= Pow2(k)
    decreases k
  {
    if k == 0 {
    } else {
      TopBit(n / 2, k - 1);
      assert Shr(n, k) == Shr(n / 2, k - 1);
    }
  }

  lemma {:induction false} LowerBits(n: nat, k: nat, b: nat)
    requires b < k && n >= Pow2(k)
    ensures Bit(n, b) <==> Bit(n - Pow2(k), b)
    decreases b
  {
    assert Pow2(k) == 2 * Pow2(k - 1);
    if b == 0 {
    } else {
      LowerBits(n / 2, k - 1, b - 1);
      assert (n - Pow2(k)) / 2 == n / 2 - Pow2(k - 1);
      assert Shr(n, b) == Shr(n / 2, b - 1) && Shr(n - Pow2(k), b) == Shr((n - Pow2(k)) / 2, b - 1);
    }
  }

  lemma {:induction false} GroupLowerBits(vars: seq<int>, n: nat, k: nat)
    requires |vars| <= k && n >= Pow2(k)
    ensures Group(vars, n) == Group(vars, n - Pow2(k))
    decreases |vars|
  {
    if vars == [] {
    } else {
      LowerBits(n, k, |vars| - 1);
      GroupLowerBits(vars[1..], n, k);
    }
  }

  predicate NoZeroVars(vars: seq<int>) { forall i :: 0 <= i < |vars| ==> vars[i] != 0 }

  lemma AgreesCons(a: Assignment, l: int, ls: seq<int>)
    ensures Agrees(a, [l] + ls) <==> Holds(a, l) && Agrees(a, ls)
  {
    assert forall i :: 0 <= i < |ls| ==> ([l] + ls)[i + 1] == ls[i];
    assert ([l] + ls)[0] == l;
  }

  lemma AgreesConcat(a: Assignment, ls: seq<int>, ms: seq<int>)
    ensures Agrees(a, ls + ms) <==> Agrees(a, ls) && Agrees(a, ms)
  {
    assert forall i :: 0 <= i < |ls| ==> (ls + ms)[i] == ls[i];
    assert forall i :: 0 <= i < |ms| ==> (ls + ms)[|ls| + i] == ms[i];
  }

  /** A group of literals holds exactly when the variables spell its number. */
  lemma {:induction false} GroupHolds(vars: seq<int>, n: nat, a: Assignment)
    requires NoZeroVars(vars) && n < Pow2(|vars|)
    ensures Agrees(a, Group(vars, n)) <==> Spelled(vars, a) == n
    decreases |vars|
  {
    if vars == [] {
    } else {
      var k := |vars| - 1;
      TopBit(n, k);
      AgreesCons(a, Group(vars, n)[0], Group(vars[1..], n));
      if n >= Pow2(k) {
        GroupLowerBits(vars[1..], n, k);
        GroupHolds(vars[1..], n - Pow2(k), a);
      } else {
        GroupHolds(vars[1..], n, a);
      }
      hide Agrees, Group, Pow2, Bit;
    }
  }

  /** Values below the power of two that the group can spell. */
  predicate Spellable(splits: seq<nat>, t: seq<nat>) {
    |t| == |splits| && forall i :: 0 <= i < |t| ==> t[i] < Pow2(Length(splits[i]))
  }

  lemma InRangeSpellable(splits: seq<nat>, t: seq<nat>)
    requires InRange(splits, t)
    ensures Spellable(splits, t)
  {
    forall i | 0 <= i < |t| ensures t[i] < Pow2(Length(splits[i])) {
      LogBounds(splits[i]);
    }
  }

  /** A cube holds exactly under the assignments that spell its tuple. */
  lemma {:induction false} CubeHolds(vars: seq<int>, splits: seq<nat>, t: seq<nat>, a: Assignment)
    requires TotalLength(splits) <= |vars| && NoZeroVars(vars) && Spellable(splits, t)
    ensures Agrees(a, Cube(vars, splits, t)) <==> SpelledAll(vars, splits, a) == t
    decreases |splits|
  {
    if splits == [] {
    } else {
      var n := Length(splits[0]);
      assert forall i :: 0 <= i < |t| - 1 ==> t[1..][i] == t[i + 1] && splits[1..][i] == splits[i + 1];
      CubeHolds(vars[n..], splits[1..], t[1..], a);
      GroupHolds(vars[..n], t[0], a);
      AgreesConcat(a, Group(vars[..n], t[0]), Cube(vars[n..], splits[1..], t[1..]));
      var s := SpelledAll(vars, splits, a);
      assert s[1..] == SpelledAll(vars[n..], splits[1..], a);
      assert t == [t[0]] + t[1..] && s == [s[0]] + s[1..];
      hide Agrees, Group, Cube, Pow2, Spelled;
    }
  }

  /** Cubes of different tuples never hold together. */
  lemma CubesDisjoint(vars: seq<int>, splits: seq<nat>, t: seq<nat>, u: seq<nat>, a: Assignment)
    requires TotalLength(splits) <= |vars| && NoZeroVars(vars) && InRange(splits, t) && InRange(splits, u) && t != u
    ensures !(Agrees(a, Cube(vars, splits, t)) && Agrees(a, Cube(vars, splits, u)))
  {
    InRangeSpellable(splits, t);
    InRangeSpellable(splits, u);
    CubeHolds(vars, splits, t, a);
    CubeHolds(vars, splits, u, a);
  }

  ghost predicate CoveredBy(vars: seq<int>, splits: seq<nat>, a: Assignment)
    requires TotalLength(splits) <= |vars|
  {
    exists t :: InRange(splits, t) && Agrees(a, Cube(vars, splits, t))
  }

  /** What the cubes leave uncovered: the assignments under which some group spells a
      number at or above its split. */
  lemma CoverageExact(vars: seq<int>, splits: seq<nat>, a: Assignment)
    requires TotalLength(splits) <= |vars| && NoZeroVars(vars)
    ensures CoveredBy(vars, splits, a) <==> InRange(splits, SpelledAll(vars, splits, a))
  {
    var s := SpelledAll(vars, splits, a);
    if CoveredBy(vars, splits, a) {
      var t :| InRange(splits, t) && Agrees(a, Cube(vars, splits, t));
      InRangeSpellable(splits, t);
      CubeHolds(vars, splits, t, a);
    }
    if InRange(splits, s) {
      InRangeSpellable(splits, s);
      CubeHolds(vars, splits, s, a);
    }
  }

  // ----- when the cubes partition the space -----

  predicate DistinctVars(vars: seq<int>) {
    forall i, j :: 0 <= i < j < |vars| ==> Abs(vars[i]) != Abs(vars[j])
  }

  predicate PowersOfTwo(splits: seq<nat>) {
    forall i :: 0 <= i < |splits| ==> splits[i] == Pow2(Length(splits[i]))
  }

  lemma {:induction false} SpelledSpellable(vars: seq<int>, splits: seq<nat>, a: Assignment)
    requires TotalLength(splits) <= |vars|
    ensures Spellable(splits, SpelledAll(vars, splits, a))
    decreases |splits|
  {
    if splits == [] {
    } else {
      var n := Length(splits[0]);
      SpelledSpellable(vars[n..], splits[1..], a);
      var s, r := SpelledAll(vars, splits, a), SpelledAll(vars[n..], splits[1..], a);
      assert forall i :: 1 <= i < |s| ==> s[i] == r[i - 1] && splits[i] == splits[1..][i - 1];
    }
  }

  lemma {:induction false} GroupVars(vars: seq<int>, n: nat)
    ensures forall i :: 0 <= i < |vars| ==> Abs(Group(vars, n)[i]) == Abs(vars[i])
  {
    if vars == [] {
    } else {
      GroupVars(vars[1..], n);
    }
  }

  /** A cube assigns the leading variables, in order. */
  lemma {:induction false} CubeVars(vars: seq<int>, splits: seq<nat>, t: seq<nat>)
    requires TotalLength(splits) <= |vars| && |t| == |splits|
    ensures |Cube(vars, splits, t)| == TotalLength(splits)
    ensures forall i :: 0 <= i < TotalLength(splits) ==> Abs(Cube(vars, splits, t)[i]) == Abs(vars[i])
    decreases |splits|
  {
    if splits == [] {
    } else {
      var n := Length(splits[0]);
      var g, c := Group(vars[..n], t[0]), Cube(vars[n..], splits[1..], t[1..]);
      GroupVars(vars[..n], t[0]);
      CubeVars(vars[n..], splits[1..], t[1..]);
      assert Cube(vars, splits, t) == g + c && TotalLength(splits) == n + |c|;
      hide Cube, Group, TotalLength, Length;
      forall i | 0 <= i < n + |c| ensures Abs((g + c)[i]) == Abs(vars[i]) {
        if i < n { assert vars[..n][i] == vars[i]; } else { assert vars[n..][i - n] == vars[i]; }
      }
    }
  }

  lemma CubeConsistent(vars: seq<int>, splits: seq<nat>, t: seq<nat>)
    requires TotalLength(splits) <= |vars| && |t| == |splits| && NoZeroVars(vars) && DistinctVars(vars)
    ensures NoZero(Cube(vars, splits, t)) && Consistent(Cube(vars, splits, t))
  {
    CubeVars(vars, splits, t);
    var c := Cube(vars, splits, t);
    hide Cube;
    forall i, j | 0 <= i < |c| && 0 <= j < |c| ensures c[i] != -c[j] {
      assert Abs(c[i]) == Abs(vars[i]) && Abs(c[j]) == Abs(vars[j]);
      assert i < j ==> Abs(vars[i]) != Abs(vars[j]);
      assert j < i ==> Abs(vars[j]) != Abs(vars[i]);
    }
  }

  /** Over distinct variables every tuple the groups can spell is spelled by some assignment. */
  lemma SpellingExists(vars: seq<int>, splits: seq<nat>, t: seq<nat>) returns (a: Assignment)
    requires TotalLength(splits) <= |vars| && NoZeroVars(vars) && DistinctVars(vars) && Spellable(splits, t)
    ensures SpelledAll(vars, splits, a) == t
  {
    var c := Cube(vars, splits, t);
    CubeConsistent(vars, splits, t);
    a := Choose({}, c);
    ChooseAgrees({}, c);
    CubeHolds(vars, splits, t, a);
  }

  /** Over distinct variables the cubes, which never overlap, cover every assignment if
      and only if every split is a power of two. */
  lemma PartitionExact(vars: seq<int>, splits: seq<nat>)
    requires TotalLength(splits) <= |vars| && NoZeroVars(vars) && DistinctVars(vars)
    requires forall i :: 0 <= i < |splits| ==> splits[i] > 0
    ensures (forall a: Assignment :: CoveredBy(vars, splits, a)) <==> PowersOfTwo(splits)
  {
    if PowersOfTwo(splits) {
      forall a: Assignment ensures CoveredBy(vars, splits, a) {
        SpelledSpellable(vars, splits, a);
        CoverageExact(vars, splits, a);
      }
    } else {
      var i :| 0 <= i < |splits| && splits[i] != Pow2(Length(splits[i]));
      LogBounds(splits[i]);
      var t := seq(|splits|, j => 0)[i := splits[i]];
      var a := SpellingExists(vars, splits, t);
      CoverageExact(vars, splits, a);
      assert t[i] >= splits[i];
    }
  }
}
