/** What an integer-split run of quapify says about the formula: its results, one for each
    cube, put together along the prefix, are its truth. */
module Splits {
  import opened Numerals
  import opened Messages
  import opened RoundTrip
  import opened Qbf
  import opened Meaning
  import opened Protocol
  import opened Isolation
  import opened EndToEnd
  import opened Returns
  import opened Answers
  import opened Program
  import opened Cubes
  import opened Expansion
  import Acceptance
  import Odometer
  import Quapify
  import Rounds
  import P = Parser
  import L = Library

  // ----- the formula the callbacks describe -----

  lemma {:induction false} MatrixNonzero(calls: seq<P.Call>, open: seq<int>)
    requires NoZero(open)
    ensures NoZeros(MatrixOf(calls, open))
    decreases |calls|
  {
    if calls == [] {
    } else if calls[0].AddQuantifier? {
      MatrixNonzero(calls[1..], open);
    } else if calls[0].l == 0 {
      MatrixNonzero(calls[1..], []);
    } else {
      MatrixNonzero(calls[1..], open + [calls[0].l]);
    }
  }

  lemma {:induction false} MatrixBounded(calls: seq<P.Call>, open: seq<int>, vars: nat)
    requires Bounded(vars, open) && forall i :: 0 <= i < |calls| && calls[i].AddLit? ==> Abs(calls[i].l) <= vars
    ensures ClausesBounded(vars, MatrixOf(calls, open))
    decreases |calls|
  {
    if calls == [] {
    } else {
      var t := calls[1..];
      assert forall i :: 0 <= i < |t| ==> t[i] == calls[i + 1];
      if calls[0].AddQuantifier? {
        MatrixBounded(t, open, vars);
      } else if calls[0].l == 0 {
        MatrixBounded(t, [], vars);
      } else {
        MatrixBounded(t, open + [calls[0].l], vars);
      }
    }
  }

  lemma {:induction false} DistinctPrefix(qs: seq<int>)
    requires DistinctVars(qs)
    ensures Distinct(qs)
  {
    if qs == [] {
    } else {
      var t := qs[1..];
      assert forall i :: 0 <= i < |t| ==> t[i] == qs[i + 1];
      DistinctPrefix(t);
    }
  }

  // ----- every cube's round can be answered -----

  /** An integer-split run: the counts of the first pass and the longest set are announced,
      and the splits are powers of two over a closed formula's leading variables.  A
      checking solver also wants every quantified variable announced. */
  ghost predicate SplitRun(
    strict: P.Strictness, h: HeaderData, pipes: HeaderData, calls: seq<P.Call>, splits: seq<nat>, ls: seq<int>)
  {
    var qs, cs := PrefixOf(calls), MatrixOf(calls, []);
    && (forall i :: 0 <= i < |splits| ==> splits[i] > 0) && PowersOfTwo(splits) && TotalLength(splits) <= |qs|
    && NoZero(qs) && DistinctVars(qs) && Bound(qs, cs)
    && ls == Odometer.Listing(qs, splits, Odometer.Product(splits))
    && h == L.Announced(Rounds.LargestVariable(calls), Acceptance.Closings(calls), Odometer.Longest(ls), pipes)
    && h.literals <= INT_MAX && h.clauses <= INT_MAX
    && (strict == P.Relaxed || (cs != [] && Bounded(h.literals, qs)))
  }

  lemma {:induction false} ProductPositive(splits: seq<nat>)
    requires forall i :: 0 <= i < |splits| ==> splits[i] > 0
    ensures Odometer.Product(splits) > 0
  {
    if splits == [] {
    } else {
      ProductPositive(splits[..|splits| - 1]);
    }
  }

  lemma SplitRunCounts(
    strict: P.Strictness, h: HeaderData, pipes: HeaderData, calls: seq<P.Call>, splits: seq<nat>, ls: seq<int>)
    requires SplitRun(strict, h, pipes, calls, splits, ls)
    ensures h.literals >= 0 && h.prefixdepth == TotalLength(splits)
    ensures h.clauses == |MatrixOf(calls, [])| + TotalLength(splits)
    ensures Quapify.Sets(ls) == Rounds.CubesTo(PrefixOf(calls), splits, Odometer.Product(splits))
    ensures ClausesBounded(h.literals, MatrixOf(calls, []))
  {
    hide Acceptance.Closings, Odometer.Longest, Quapify.Sets, Odometer.Listing, MatrixOf, PrefixOf, TotalLength;
    hide Odometer.Product, Rounds.CubesTo, Rounds.LargestVariable, PowersOfTwo, Bound;
    var qs := PrefixOf(calls);
    ProductPositive(splits);
    Rounds.ListingSets(qs, splits, Odometer.Product(splits));
    Rounds.MatrixCount(calls, []);
    Rounds.LargestExact(calls);
    MatrixBounded(calls, [], Rounds.LargestVariable(calls));
  }

  lemma CubeFits(h: HeaderData, qs: seq<int>, splits: seq<nat>, t: seq<nat>)
    requires NoZero(qs) && DistinctVars(qs) && TotalLength(splits) <= |qs| && |t| == |splits|
    requires h.prefixdepth == TotalLength(splits)
    ensures var us := Cube(qs, splits, t);
            AssumptionsFit(qs, SentBy(h, qs), us) && |us| == TotalLength(splits)
            && forall vars: nat :: Bounded(vars, qs) ==> Bounded(vars, us) && Bounded(vars, SentBy(h, qs))
  {
    hide PreservesAll, Effective, Cube, TotalLength, AssumptionsFit, Distinct;
    var us := Cube(qs, splits, t);
    DistinctPrefix(qs);
    CubeConsistent(qs, splits, t);
    CubeVars(qs, splits, t);
    CubesKeepMeaning(h, true, qs, splits, t);
    MeaningExact(qs, h.prefixdepth, us);
    EffectiveWeakens(qs, h.prefixdepth);
  }

  /** The round of one cube, room for which was announced. */
  lemma CoveredCube(strict: P.Strictness, h: HeaderData, qs: seq<int>, cs: seq<seq<int>>, us: seq<int>)
    requires 0 <= h.literals <= INT_MAX && h.clauses == |cs| + |us| <= INT_MAX
    requires strict == P.Relaxed || (cs != [] && Bounded(h.literals, SentBy(h, qs)) && Bounded(h.literals, us))
    requires ClausesBounded(h.literals, cs) && AssumptionsFit(qs, SentBy(h, qs), us)
    ensures Answerable(strict, h, Question(qs, cs, us))
  {
    UnitsBounded(h.literals, cs, us);
    hide AssumptionsFit, Bounded, ClausesBounded, SentBy, AllZero, Units;
  }

  lemma SplitRunFits(
    strict: P.Strictness, h: HeaderData, pipes: HeaderData, calls: seq<P.Call>, splits: seq<nat>, ls: seq<int>)
    requires SplitRun(strict, h, pipes, calls, splits, ls)
    ensures var qs, cs := PrefixOf(calls), MatrixOf(calls, []);
            && NoZero(qs) && DistinctVars(qs) && TotalLength(splits) <= |qs|
            && (forall i :: 0 <= i < |splits| ==> splits[i] > 0)
            && h.literals <= INT_MAX && h.clauses <= INT_MAX
            && (strict == P.Relaxed || (cs != [] && Bounded(h.literals, qs)))
  {
  }

  lemma CubeAnswerable(
    strict: P.Strictness, h: HeaderData, pipes: HeaderData, calls: seq<P.Call>, splits: seq<nat>, ls: seq<int>, j: nat)
    requires SplitRun(strict, h, pipes, calls, splits, ls) && j < Odometer.Product(splits)
    ensures j < |Quapify.Sets(ls)|
    ensures Quapify.Sets(ls)[j] == Rounds.CubesTo(PrefixOf(calls), splits, Odometer.Product(splits))[j]
    ensures Answerable(strict, h, Question(PrefixOf(calls), MatrixOf(calls, []), Quapify.Sets(ls)[j]))
  {
    hide *;
    SplitRunFits(strict, h, pipes, calls, splits, ls);
    SplitRunCounts(strict, h, pipes, calls, splits, ls);
    var qs, t := PrefixOf(calls), Odometer.Tuple(splits, j);
    CubeAt(qs, splits, Odometer.Product(splits), j);
    CubeFits(h, qs, splits, t);
    CoveredCube(strict, h, qs, MatrixOf(calls, []), Cube(qs, splits, t));
  }

  lemma CubeAt(qs: seq<int>, splits: seq<nat>, n: nat, j: nat)
    requires TotalLength(splits) <= |qs| && (forall i :: 0 <= i < |splits| ==> splits[i] > 0) && j < n
    ensures |Rounds.CubesTo(qs, splits, n)| == n
    ensures Rounds.CubesTo(qs, splits, n)[j] == Cube(qs, splits, Odometer.Tuple(splits, j))
  {
    hide Cube, Odometer.Tuple, TotalLength;
  }

  lemma UnitsBounded(vars: int, cs: seq<seq<int>>, us: seq<int>)
    ensures |cs + Units(us)| == |cs| + |us|
    ensures ClausesBounded(vars, cs) && Bounded(vars, us) ==> ClausesBounded(vars, cs + Units(us))
  {
  }

  // ----- the results put together -----

  /** The verdicts put together along the leading quantifiers; `us` is the assignment so far. */
  predicate Combined(lead: seq<int>, us: seq<int>, cubes: seq<seq<int>>, results: seq<int>)
    requires |cubes| == |results|
    decreases |lead|
  {
    if lead == [] then exists j :: 0 <= j < |cubes| && cubes[j] == us && results[j] == SAT
    else
      var v := Abs(lead[0]);
      var yes := Combined(lead[1..], us + [v], cubes, results);
      var no := Combined(lead[1..], us + [-(v as int)], cubes, results);
      if lead[0] > 0 then yes || no else yes && no
  }

  /** Every result is the answer for its cube. */
  ghost predicate Right(qs: seq<int>, cs: seq<seq<int>>, cubes: seq<seq<int>>, results: seq<int>) {
    |cubes| == |results| && forall j :: 0 <= j < |cubes| ==> (results[j] == SAT <==> Asked(qs, cs, cubes[j]))
  }

  lemma CubeListed(qs: seq<int>, splits: seq<nat>, us: seq<int>) returns (j: nat)
    requires TotalLength(splits) == |us| <= |qs| && NoZero(qs) && DistinctVars(qs) && Quapify.Leading(qs, us)
    requires PowersOfTwo(splits) && forall i :: 0 <= i < |splits| ==> splits[i] > 0
    ensures var cubes := Rounds.CubesTo(qs, splits, Odometer.Product(splits)); j < |cubes| && cubes[j] == us
  {
    var t := LeafIsCube(qs, splits, us);
    hide Cube, Odometer.Tuple, Odometer.Rank, Odometer.Product, TotalLength, PowersOfTwo;
    ProductPositive(splits);
    Odometer.VisitsEachOnce(splits, t, 0, 0);
    j := Odometer.Rank(splits, t);
  }

  lemma {:induction false} CombinedDecided(
    qs: seq<int>, splits: seq<nat>, us: seq<int>, cs: seq<seq<int>>, cubes: seq<seq<int>>, results: seq<int>)
    requires TotalLength(splits) <= |qs| && |us| <= TotalLength(splits)
    requires NoZero(qs) && DistinctVars(qs) && Quapify.Leading(qs, us)
    requires PowersOfTwo(splits) && forall i :: 0 <= i < |splits| ==> splits[i] > 0
    requires cubes == Rounds.CubesTo(qs, splits, Odometer.Product(splits)) && Right(qs, cs, cubes, results)
    ensures var lead := qs[|us|..TotalLength(splits)];
            Combined(lead, us, cubes, results) <==> Decided(lead, us, qs, cs)
    decreases TotalLength(splits) - |us|
  {
    var k, d := |us|, TotalLength(splits);
    hide Asked, TotalLength, PowersOfTwo, Rounds.CubesTo, Odometer.Product;
    if k == d {
      var j := CubeListed(qs, splits, us);
      assert qs[k..d] == [] && cubes[j] == us;
    } else {
      var v := Abs(qs[k]);
      LeadingNext(qs, us, v);
      LeadingNext(qs, us, -(v as int));
      CombinedDecided(qs, splits, us + [v], cs, cubes, results);
      CombinedDecided(qs, splits, us + [-(v as int)], cs, cubes, results);
      assert qs[k..d][1..] == qs[k + 1..d] && qs[k..d][0] == qs[k];
    }
  }

  /** The whole program: over every run of library, seed and solvers, in exit-code mode, that
      makes the calls of an integer-split run of quapify, if every quapi_solve returned the
      verdict of a sound solver, then the verdicts, put together along the prefix, are the
      truth of the formula quapify was given. */
  lemma SplitRunDecides(
    strict: P.Strictness, h: HeaderData, pipes: HeaderData, callback: bool, splits: seq<nat>, steps: seq<Step>)
    requires Legal(Init(h, true, callback), steps) && ByExitCode(steps) && ToldFirst(steps)
    requires SplitRun(strict, h, pipes, Told(steps), splits, Entered(steps))
    requires var s, results := Final(Init(h, true, callback), steps), Results(Init(h, true, callback), steps);
             AllSound(strict, s.kids) && AllVerdicts(results) && |results| == Odometer.Product(splits)
    ensures var qs, cs := PrefixOf(Told(steps)), MatrixOf(Told(steps), []);
            var cubes := Rounds.CubesTo(qs, splits, Odometer.Product(splits));
            QbfTrue(qs, cs) <==>
            Combined(qs[..TotalLength(splits)], [], cubes, Results(Init(h, true, callback), steps))
  {
    hide Legal, Final, Init, Results, ByExitCode, ToldFirst, Answerable, AllSound, AllVerdicts;
    var calls, ls := Told(steps), Entered(steps);
    var qs, cs, n := PrefixOf(calls), MatrixOf(calls, []), Odometer.Product(splits);
    var results := Results(Init(h, true, callback), steps);
    SetsAnswered(strict, h, callback, steps);
    SplitRunCounts(strict, h, pipes, calls, splits, ls);
    MatrixNonzero(calls, []);
    hide Told, Entered, PrefixOf, MatrixOf, Odometer.Product, Quapify.Sets, Rounds.CubesTo, TotalLength, Asked, QbfTrue;
    hide Bound, PowersOfTwo, Combined, Decided;
    var cubes := Rounds.CubesTo(qs, splits, n);
    forall j | 0 <= j < n ensures results[j] == SAT <==> Asked(qs, cs, cubes[j]) {
      CubeAnswerable(strict, h, pipes, calls, splits, ls, j);
    }
    CombinedDecided(qs, splits, [], cs, cubes, results);
    AnswersDecide(qs, TotalLength(splits), cs);
    assert qs[0..TotalLength(splits)] == qs[..TotalLength(splits)];
  }
}
