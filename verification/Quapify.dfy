/** Assumption lists, and the library's check that all leading universal quantifiers are
    assumed. */
module Quapify {
  import opened Numerals
  import opened Messages
  import opened Qbf
  import opened Meaning
  import Odometer
  import Seqs
  import L = Library

  // ----- assumption lists -----

  /** The assumption sets of a list: the stretches closed by a 0. */
  function Sets(ls: seq<int>): seq<seq<int>> {
    if ls == [] then []
    else
      var p := ls[..|ls| - 1];
      TailFits(p);
      if ls[|ls| - 1] == 0 then Sets(p) + [p[|p| - Odometer.Tail(p)..]] else Sets(p)
  }

  lemma {:induction false} TailFits(ls: seq<int>)
    ensures Odometer.Tail(ls) <= |ls|
  {
    if ls == [] {
    } else {
      TailFits(ls[..|ls| - 1]);
    }
  }

  lemma {:induction false} SetsBounded(ls: seq<int>)
    ensures forall i :: 0 <= i < |Sets(ls)| ==> |Sets(ls)[i]| <= Odometer.Longest(ls)
  {
    if ls == [] {
    } else {
      TailFits(ls[..|ls| - 1]);
      SetsBounded(ls[..|ls| - 1]);
    }
  }

  function Closed(sets: seq<seq<int>>): seq<int> {
    if sets == [] then [] else Closed(sets[..|sets| - 1]) + (sets[|sets| - 1] + [0])
  }

  /** The list is its sets, each closed by a 0, and what has been begun since; the sets hold
      no 0, so there is one for each 0 of the list. */
  lemma {:induction false} SetsExact(ls: seq<int>)
    ensures Odometer.Tail(ls) <= |ls| && var n := |ls| - Odometer.Tail(ls);
            && ls[..n] == Closed(Sets(ls)) && NoZero(ls[n..]) && NoZeros(Sets(ls))
            && |Sets(ls)| == Odometer.Zeros(ls)
  {
    TailFits(ls);
    if ls != [] {
      var p := ls[..|ls| - 1];
      SetsExact(p);
      TailFits(p);
      hide Closed;
      if ls[|ls| - 1] == 0 {
        SetClosed(ls, p, |p| - Odometer.Tail(p));
      } else {
        SetGoesOn(ls, p, |p| - Odometer.Tail(p));
      }
    }
  }

  lemma SetClosed(ls: seq<int>, p: seq<int>, k: nat)
    requires ls != [] && p == ls[..|ls| - 1] && ls[|ls| - 1] == 0 && k <= |p|
    requires p[..k] == Closed(Sets(p)) && NoZero(p[k..]) && NoZeros(Sets(p))
    ensures ls[..|ls|] == Closed(Sets(p) + [p[k..]]) && NoZero(ls[|ls|..]) && NoZeros(Sets(p) + [p[k..]])
  {
    hide Sets, NoZero, Closed;
    assert NoZero([]) && ls[|ls|..] == [] by { NothingZero(); }
    SetsSnoc(Sets(p), p[k..]);
    Seqs.Assoc(p[..k], p[k..], [0]);
    assert p == p[..k] + p[k..];
    assert ls == p + [0] && ls[..|ls|] == ls;
  }

  lemma NothingZero()
    ensures NoZero([])
  {
  }

  lemma SetGoesOn(ls: seq<int>, p: seq<int>, k: nat)
    requires ls != [] && p == ls[..|ls| - 1] && ls[|ls| - 1] != 0 && k <= |p| && NoZero(p[k..])
    ensures ls[..k] == p[..k] && NoZero(ls[k..])
  {
    assert ls[..k] == p[..k] && ls[k..] == p[k..] + [ls[|ls| - 1]];
  }

  lemma SetsSnoc(sets: seq<seq<int>>, c: seq<int>)
    ensures Closed(sets + [c]) == Closed(sets) + (c + [0])
  {
    assert (sets + [c])[..|sets|] == sets;
  }

  /** The longest set's length is that of a set, if there is one, and 0 if not. */
  lemma {:induction false} LongestIsASet(ls: seq<int>)
    ensures Sets(ls) == [] ==> Odometer.Longest(ls) == 0
    ensures Sets(ls) != [] ==> exists i :: 0 <= i < |Sets(ls)| && |Sets(ls)[i]| == Odometer.Longest(ls)
  {
    if ls != [] {
      var p := ls[..|ls| - 1];
      TailFits(p);
      LongestIsASet(p);
      if ls[|ls| - 1] == 0 {
        var c, n := p[|p| - Odometer.Tail(p)..], |Sets(p)|;
        assert Sets(ls) == Sets(p) + [c] && |c| == Odometer.Tail(p);
        assert Sets(ls)[n] == c;
        if Sets(p) != [] {
          var i :| 0 <= i < n && |Sets(p)[i]| == Odometer.Longest(p);
          assert Sets(ls)[i] == Sets(p)[i];
        }
      }
    }
  }

  // ----- the check on universal quantifiers -----

  function QuantifyAll(l: L.Lib, qs: seq<int>): L.Lib {
    if qs == [] then l else L.Quantified(QuantifyAll(l, qs[..|qs| - 1]), qs[|qs| - 1])
  }

  /** What the library remembers of the prefix: the position of the last universal
      variable it made existential, -1 if there is none. */
  lemma {:induction false} RememberedDepth(h: HeaderData, mode: bool, qs: seq<int>)
    requires NoZero(qs)
    ensures var m := QuantifyAll(L.Opened(h, mode), qs);
            && m.header == h && m.writtenQuantifiers == |qs| && m.writtenAssumptions == 0
            && -1 <= m.universalDepth < |qs|
            && (m.universalDepth >= 0 ==> qs[m.universalDepth] < 0 && m.universalDepth < h.prefixdepth)
            && forall i :: 0 <= i < |qs| && qs[i] < 0 && i < h.prefixdepth ==> i <= m.universalDepth
  {
    if qs == [] {
    } else {
      var p := qs[..|qs| - 1];
      assert forall i :: 0 <= i < |p| ==> p[i] == qs[i];
      RememberedDepth(h, mode, p);
    }
  }

  lemma {:induction false} EffectiveAt(qs: seq<int>, depth: int, n: nat)
    requires NoZero(qs)
    ensures forall i :: 0 <= i < |qs| ==> (Flipped(qs, Effective(qs, depth, n), i) <==> qs[i] < 0 && n + i < depth)
  {
    if qs == [] {
    } else {
      assert forall i :: 0 <= i < |qs| - 1 ==> qs[1..][i] == qs[i + 1];
      EffectiveAt(qs[1..], depth, n + 1);
      var e, t := Effective(qs, depth, n), Effective(qs[1..], depth, n + 1);
      forall i | 0 <= i < |qs| ensures Flipped(qs, e, i) <==> qs[i] < 0 && n + i < depth {
        if i > 0 {
          assert e[i] == t[i - 1];
          assert Flipped(qs[1..], t, i - 1) <==> Flipped(qs, e, i);
        }
      }
    }
  }

  /** The assumptions assign the first k variables of the prefix. */
  predicate Leading(qs: seq<int>, us: seq<int>) {
    |us| <= |qs| && forall i :: 0 <= i < |us| ==> Abs(us[i]) == Abs(qs[i])
  }

  lemma AssumedLeading(qs: seq<int>, us: seq<int>, i: nat)
    requires NoZero(qs) && Leading(qs, us) && i < |qs|
    requires forall j, k :: 0 <= j < k < |qs| ==> Abs(qs[j]) != Abs(qs[k])
    ensures Assumed(us, Abs(qs[i])) <==> i < |us|
  {
    if i < |us| {
      assert us[i] in us;
    }
    if Assumed(us, Abs(qs[i])) {
      var j :| 0 <= j < |us| && Abs(us[j]) == Abs(qs[i]);
      assert Abs(qs[j]) == Abs(qs[i]);
    }
  }

  /** The check of quapi_solve, exactly: for assumptions on the leading variables it
      lets through one count too few.  All universal variables that were made
      existential are assumed if and only if there are more assumptions than the
      remembered position; the check passes already when there are that many. */
  lemma UniversalCheckExact(h: HeaderData, mode: bool, qs: seq<int>, us: seq<int>)
    requires NoZero(qs) && Leading(qs, us)
    requires forall j, k :: 0 <= j < k < |qs| ==> Abs(qs[j]) != Abs(qs[k])
    ensures var m := QuantifyAll(L.Opened(h, mode), qs);
            && (FlippedAssumed(qs, Effective(qs, h.prefixdepth, 0), us) <==> |us| > m.universalDepth)
            && (!L.TooFewAssumptions(m.(writtenAssumptions := |us|)) <==> |us| >= m.universalDepth)
  {
    var m := QuantifyAll(L.Opened(h, mode), qs);
    var es := Effective(qs, h.prefixdepth, 0);
    RememberedDepth(h, mode, qs);
    EffectiveAt(qs, h.prefixdepth, 0);
    forall i | 0 <= i < |qs| ensures Assumed(us, Abs(qs[i])) <==> i < |us| { AssumedLeading(qs, us, i); }
    var d := m.universalDepth;
    if d >= 0 {
      assert Flipped(qs, es, d);
    }
  }

  lemma {:induction false} DistinctVariables(qs: seq<int>)
    requires NoZero(qs) && Distinct(qs)
    ensures forall j, k :: 0 <= j < k < |qs| ==> Abs(qs[j]) != Abs(qs[k])
  {
    if qs == [] {
    } else {
      var t := qs[1..];
      assert forall i :: 0 <= i < |t| ==> t[i] == qs[i + 1];
      DistinctVariables(t);
      forall k | 0 < k < |qs| ensures Abs(qs[0]) != Abs(qs[k]) {
        assert t[k - 1] == qs[k];
        assert !Mentions(t, Abs(qs[0]));
      }
      forall j, k | 0 <= j < k < |qs| ensures Abs(qs[j]) != Abs(qs[k]) {
        if j > 0 { assert t[j - 1] == qs[j] && t[k - 1] == qs[k]; }
      }
    }
  }

  /** Assumptions on leading variables no deeper than the announced depth are
      consistent and touch no variable that is still universal. */
  lemma LeadingFits(qs: seq<int>, us: seq<int>, depth: int)
    requires NoZero(qs) && Leading(qs, us) && |us| <= depth
    requires forall j, k :: 0 <= j < k < |qs| ==> Abs(qs[j]) != Abs(qs[k])
    ensures NoZero(us) && Consistent(us) && ExistentialOnly(Effective(qs, depth, 0), us)
  {
    var es := Effective(qs, depth, 0);
    EffectiveAt(qs, depth, 0);
    EffectiveEntries(qs, depth, 0);
    forall i, j | 0 <= i < |us| && 0 <= j < |us| ensures us[i] != -us[j] {
      if i != j { assert Abs(us[i]) == Abs(qs[i]) != Abs(qs[j]) == Abs(us[j]); }
    }
    forall i | 0 <= i < |es| && es[i] < 0 ensures !Assumed(us, Abs(es[i])) {
      AssumedLeading(qs, us, i);
      assert !Flipped(qs, es, i);
    }
  }

  /** So the check guards the meaning one assumption too late: the formula keeps its
      meaning on every matrix exactly when there are more assumptions than the
      remembered position, and with exactly that many the check lets a formula
      through that does not. */
  lemma UniversalCheckTooWeak(h: HeaderData, mode: bool, qs: seq<int>, us: seq<int>)
    requires NoZero(qs) && Distinct(qs) && Leading(qs, us) && |us| <= h.prefixdepth
    ensures var m := QuantifyAll(L.Opened(h, mode), qs);
            var es := Effective(qs, h.prefixdepth, 0);
            && (PreservesAll(qs, es, us) <==> |us| > m.universalDepth)
            && (!L.TooFewAssumptions(m.(writtenAssumptions := |us|)) && !PreservesAll(qs, es, us) <==>
                |us| == m.universalDepth)
  {
    hide Effective, QuantifyAll, PreservesAll, FlippedAssumed, Consistent, ExistentialOnly, Distinct;
    DistinctVariables(qs);
    LeadingFits(qs, us, h.prefixdepth);
    UniversalCheckExact(h, mode, qs, us);
    MeaningExact(qs, h.prefixdepth, us);
  }

  /** The smallest case: one universal variable, made existential, nothing assumed. */
  lemma UncheckedUniversal(h: HeaderData, mode: bool)
    requires h.prefixdepth == 1
    ensures var m := QuantifyAll(L.Opened(h, mode), [-1]);
            && !L.TooFewAssumptions(m)
            && QbfTrue(Effective([-1], 1, 0), [[1]] + Units([]))
            && !Asked([-1], [[1]], [])
  {
    var m := QuantifyAll(L.Opened(h, mode), [-1]);
    assert [-1][..0] == [] && [-1][1..] == [];
    assert Effective([-1], 1, 0) == [1] + Effective([], 1, 1) == [1];
    assert [[1]] + Units([]) == [[1]];
    assert [1][1..] == [];
    UnitOverVariable([1], [[1]], 1, {});
    SubstituteUnit(1, []);
    assert Drop([-1], []) == [-1] + Drop([], []) == [-1];
    forall a: Assignment ensures !TrueIn([-1], [[1]], a) { UnitOverVariable([-1], [[1]], 1, a); }
  }
}
