/** What the rounds of an integer-split run say together: each keeps its meaning, and their
    answers determine the truth of the formula. */
module Expansion {
  import opened Numerals
  import opened Messages
  import opened Seqs
  import opened Qbf
  import opened Meaning
  import opened Cubes
  import Quapify
  import L = Library

  // ----- truth depends on the free variables only -----

  /** a and b agree on the variables of the matrix that the prefix leaves free. */
  ghost predicate SameFree(qs: seq<int>, cs: seq<seq<int>>, a: Assignment, b: Assignment) {
    forall i, j :: 0 <= i < |cs| && 0 <= j < |cs[i]| ==>
      Mentions(qs, Abs(cs[i][j])) || (Abs(cs[i][j]) in a <==> Abs(cs[i][j]) in b)
  }

  lemma SatFree(cs: seq<seq<int>>, a: Assignment, b: Assignment)
    requires SameFree([], cs, a, b) && Sat(cs, a)
    ensures Sat(cs, b)
  {
    forall i | 0 <= i < |cs| ensures SatClause(cs[i], b) {
      assert SatClause(cs[i], a);
      var j :| 0 <= j < |cs[i]| && Holds(a, cs[i][j]);
      assert !Mentions([], Abs(cs[i][j]));
      assert Holds(b, cs[i][j]);
    }
  }

  lemma SameFreeTail(qs: seq<int>, cs: seq<seq<int>>, a: Assignment, b: Assignment)
    requires qs != [] && SameFree(qs, cs, a, b)
    ensures qs[0] == 0 ==> SameFree(qs[1..], cs, a, b)
    ensures qs[0] != 0 ==>
              var v := Abs(qs[0]);
              SameFree(qs[1..], cs, a - {v}, b - {v}) && SameFree(qs[1..], cs, a + {v}, b + {v})
  {
    forall i, j | 0 <= i < |cs| && 0 <= j < |cs[i]|
      ensures Mentions(qs, Abs(cs[i][j])) <==>
              (qs[0] != 0 && Abs(qs[0]) == Abs(cs[i][j])) || Mentions(qs[1..], Abs(cs[i][j]))
    {
      MentionsCons(qs, Abs(cs[i][j]));
    }
    hide Mentions;
  }

  lemma {:induction false} TrueFree(qs: seq<int>, cs: seq<seq<int>>, a: Assignment, b: Assignment)
    requires SameFree(qs, cs, a, b) && TrueIn(qs, cs, a)
    ensures TrueIn(qs, cs, b)
    decreases |qs|
  {
    if qs == [] {
      SatFree(cs, a, b);
    } else {
      SameFreeTail(qs, cs, a, b);
      hide SameFree;
      if qs[0] == 0 {
        TrueFree(qs[1..], cs, a, b);
      } else {
        var v := Abs(qs[0]);
        if TrueIn(qs[1..], cs, a - {v}) { TrueFree(qs[1..], cs, a - {v}, b - {v}); }
        if TrueIn(qs[1..], cs, a + {v}) { TrueFree(qs[1..], cs, a + {v}, b + {v}); }
      }
    }
  }

  // ----- substitution under a prefix -----

  /** Under a prefix that does not quantify the assumed variables, substitution is harmless. */
  lemma {:induction false} SubstituteTrue(qs: seq<int>, cs: seq<seq<int>>, us: seq<int>, a: Assignment)
    requires NoZeros(cs) && NoZero(qs) && Agrees(a, us) && forall i :: 0 <= i < |qs| ==> !Assumed(us, Abs(qs[i]))
    ensures TrueIn(qs, Substitute(cs, us), a) <==> TrueIn(qs, cs, a)
    decreases |qs|
  {
    if qs == [] {
      SubstituteHolds(cs, us, a);
    } else {
      var v, t := Abs(qs[0]), qs[1..];
      AgreesApart(us, a, v);
      assert forall i :: 0 <= i < |t| ==> t[i] == qs[i + 1];
      SubstituteTrue(t, cs, us, a - {v});
      SubstituteTrue(t, cs, us, a + {v});
      hide Substitute, Agrees;
    }
  }

  lemma AgreesApart(us: seq<int>, a: Assignment, v: nat)
    requires Agrees(a, us) && !Assumed(us, v)
    ensures Agrees(a - {v}, us) && Agrees(a + {v}, us)
  {
    forall i | 0 <= i < |us| ensures Holds(a - {v}, us[i]) && Holds(a + {v}, us[i]) {
      assert us[i] in us && Holds(a, us[i]);
    }
  }

  /** Every variable of the matrix is quantified. */
  ghost predicate Bound(qs: seq<int>, cs: seq<seq<int>>) {
    forall i, j :: 0 <= i < |cs| && 0 <= j < |cs[i]| ==> Mentions(qs, Abs(cs[i][j]))
  }

  // ----- expansion over the leading variables -----

  /** The rounds' answers, put together along the leading quantifiers. */
  ghost predicate Decided(lead: seq<int>, us: seq<int>, qs: seq<int>, cs: seq<seq<int>>)
    decreases |lead|
  {
    if lead == [] then Asked(qs, cs, us)
    else
      var v := Abs(lead[0]);
      if lead[0] > 0 then Decided(lead[1..], us + [v], qs, cs) || Decided(lead[1..], us + [-(v as int)], qs, cs)
      else Decided(lead[1..], us + [v], qs, cs) && Decided(lead[1..], us + [-(v as int)], qs, cs)
  }

  lemma AssumedExactly(qs: seq<int>, us: seq<int>, k: nat)
    requires NoZero(qs) && DistinctVars(qs) && k == |us| <= |qs| && Quapify.Leading(qs, us)
    ensures forall i :: 0 <= i < |qs| ==> (Assumed(us, Abs(qs[i])) <==> i < k)
  {
    forall i | 0 <= i < |qs| ensures Assumed(us, Abs(qs[i])) <==> i < k {
      Quapify.AssumedLeading(qs, us, i);
    }
  }

  lemma {:induction false} DropLeading(qs: seq<int>, us: seq<int>, n: nat, k: nat)
    requires n <= |qs| && k <= |qs| && forall i :: 0 <= i < |qs| ==> (Assumed(us, Abs(qs[i])) <==> i < k)
    ensures Drop(qs[n..], us) == if n <= k then qs[k..] else qs[n..]
    decreases |qs| - n
  {
    if n == |qs| {
    } else {
      DropLeading(qs, us, n + 1, k);
      assert qs[n..][1..] == qs[n + 1..] && qs[n..][0] == qs[n];
      assert n >= k ==> qs[n..] == [qs[n]] + qs[n + 1..];
      NilLeft(Drop(qs[n + 1..], us));
    }
  }

  lemma SubstituteBound(qs: seq<int>, cs: seq<seq<int>>, us: seq<int>, k: nat)
    requires Bound(qs, cs) && k <= |qs| && NoZero(qs)
    requires forall i :: 0 <= i < |qs| ==> (Assumed(us, Abs(qs[i])) <==> i < k)
    ensures Bound(qs[k..], Substitute(cs, us))
  {
    var s := Substitute(cs, us);
    SubstituteFree(cs, us);
    SubstituteVars(cs, us);
    forall i, j | 0 <= i < |s| && 0 <= j < |s[i]| ensures Mentions(qs[k..], Abs(s[i][j])) {
      var p, q :| 0 <= p < |cs| && 0 <= q < |cs[p]| && cs[p][q] == s[i][j];
      assert Mentions(qs, Abs(cs[p][q])) && !Assumed(us, Abs(s[i][j]));
      var m :| 0 <= m < |qs| && qs[m] != 0 && Abs(qs[m]) == Abs(s[i][j]);
      assert qs[k..][m - k] == qs[m];
    }
  }

  ghost predicate Occurs(cs: seq<seq<int>>, l: int) {
    exists p, q :: 0 <= p < |cs| && 0 <= q < |cs[p]| && cs[p][q] == l
  }

  lemma {:induction false} ReduceVars(c: seq<int>, us: seq<int>)
    ensures forall j :: 0 <= j < |Reduce(c, us)| ==> Reduce(c, us)[j] in c
  {
    if c == [] {
    } else {
      ReduceVars(c[1..], us);
    }
  }

  lemma {:induction false} SubstituteVars(cs: seq<seq<int>>, us: seq<int>)
    ensures forall i, j :: 0 <= i < |Substitute(cs, us)| && 0 <= j < |Substitute(cs, us)[i]| ==>
              Occurs(cs, Substitute(cs, us)[i][j])
  {
    if cs == [] {
    } else {
      var t := Substitute(cs[1..], us);
      SubstituteVars(cs[1..], us);
      forall l | Occurs(cs[1..], l) ensures Occurs(cs, l) {
        var p, q :| 0 <= p < |cs[1..]| && 0 <= q < |cs[1..][p]| && cs[1..][p][q] == l;
        assert cs[p + 1][q] == l;
      }
      ReduceVars(cs[0], us);
      var r := Reduce(cs[0], us);
      forall j | 0 <= j < |r| ensures Occurs(cs, r[j]) {
        var q :| 0 <= q < |cs[0]| && cs[0][q] == r[j];
      }
      var s := Substitute(cs, us);
      assert s == (if Satisfied(cs[0], us) then [] else [r]) + t;
      hide Substitute, Reduce, Occurs, Satisfied;
    }
  }

  lemma Leaf(qs: seq<int>, us: seq<int>, cs: seq<seq<int>>, k: nat, a: Assignment)
    requires NoZeros(cs) && NoZero(qs) && NoZero(us) && DistinctVars(qs) && Bound(qs, cs)
    requires k == |us| <= |qs| && Quapify.Leading(qs, us) && Agrees(a, us)
    ensures Asked(qs, cs, us) <==> TrueIn(qs[k..], cs, a)
  {
    AssumedExactly(qs, us, k);
    DropLeading(qs, us, 0, k);
    assert qs[0..] == qs;
    SubstituteBound(qs, cs, us, k);
    SubstituteTrue(qs[k..], cs, us, a);
    var s := Substitute(cs, us);
    if Asked(qs, cs, us) {
      var b :| TrueIn(qs[k..], s, b);
      TrueFree(qs[k..], s, b, a);
    }
    hide Substitute, TrueIn;
  }

  lemma AgreesNext(us: seq<int>, a: Assignment, v: nat)
    requires Agrees(a, us) && !Assumed(us, v) && v != 0
    ensures Agrees(a + {v}, us + [v]) && Agrees(a - {v}, us + [-(v as int)])
  {
    AgreesApart(us, a, v);
    AgreesConcat(a + {v}, us, [v]);
    AgreesConcat(a - {v}, us, [-(v as int)]);
  }

  lemma LeadingNext(qs: seq<int>, us: seq<int>, l: int)
    requires Quapify.Leading(qs, us) && |us| < |qs| && Abs(l) == Abs(qs[|us|])
    ensures Quapify.Leading(qs, us + [l])
  {
  }

  /** Along the leading variables the answers are put together as the formula is. */
  lemma {:induction false} DecidedTrue(qs: seq<int>, d: nat, us: seq<int>, cs: seq<seq<int>>, a: Assignment)
    requires NoZeros(cs) && NoZero(qs) && NoZero(us) && DistinctVars(qs) && Bound(qs, cs)
    requires |us| <= d <= |qs| && Quapify.Leading(qs, us) && Agrees(a, us)
    ensures Decided(qs[|us|..d], us, qs, cs) <==> TrueIn(qs[|us|..], cs, a)
    decreases d - |us|
  {
    var k := |us|;
    hide Bound, Asked, Agrees;
    if k == d {
      assert qs[k..d] == [];
      Leaf(qs, us, cs, k, a);
    } else {
      var v := Abs(qs[k]);
      AssumedExactly(qs, us, k);
      AgreesNext(us, a, v);
      LeadingNext(qs, us, v);
      LeadingNext(qs, us, -(v as int));
      DecidedTrue(qs, d, us + [v], cs, a + {v});
      DecidedTrue(qs, d, us + [-(v as int)], cs, a - {v});
      assert qs[k..d][1..] == qs[k + 1..d] && qs[k..d][0] == qs[k];
      assert qs[k..] == [qs[k]] + qs[k + 1..];
      TrueInCons(qs[k], qs[k + 1..], cs, a);
      hide TrueIn;
    }
  }

  /** The truth of a formula all of whose variables are quantified is what the answers
      under all assignments of the leading variables say together. */
  lemma AnswersDecide(qs: seq<int>, d: nat, cs: seq<seq<int>>)
    requires NoZeros(cs) && NoZero(qs) && DistinctVars(qs) && Bound(qs, cs) && d <= |qs|
    ensures QbfTrue(qs, cs) <==> Decided(qs[..d], [], qs, cs)
  {
    hide Decided, TrueIn, Bound;
    assert qs[0..d] == qs[..d] && qs[0..] == qs;
    forall a: Assignment ensures Decided(qs[..d], [], qs, cs) <==> TrueIn(qs, cs, a) {
      DecidedTrue(qs, d, [], cs, a);
    }
    if Decided(qs[..d], [], qs, cs) {
      assert TrueIn(qs, cs, {});
    }
  }

  // ----- the cubes are all that is needed -----

  /** With power-of-two splits every assignment of the leading variables is listed as a
      cube. */
  lemma LeafIsCube(qs: seq<int>, splits: seq<nat>, us: seq<int>) returns (t: seq<nat>)
    requires TotalLength(splits) == |us| <= |qs| && NoZero(qs) && DistinctVars(qs) && Quapify.Leading(qs, us)
    requires PowersOfTwo(splits) && forall i :: 0 <= i < |splits| ==> splits[i] > 0
    ensures InRange(splits, t) && Cube(qs, splits, t) == us
  {
    AssumedExactly(qs, us, |us|);
    LeadingConsistent(qs, us);
    var a := Choose({}, us);
    ChooseAgrees({}, us);
    PartitionExact(qs, splits);
    assert CoveredBy(qs, splits, a);
    t :| InRange(splits, t) && Agrees(a, Cube(qs, splits, t));
    CubeVars(qs, splits, t);
    var c := Cube(qs, splits, t);
    hide Cube, CoveredBy, Choose;
    forall i | 0 <= i < |us| ensures c[i] == us[i] {
      assert Abs(c[i]) == Abs(qs[i]) == Abs(us[i]);
      assert Holds(a, c[i]) && Holds(a, us[i]);
    }
  }

  lemma LeadingConsistent(qs: seq<int>, us: seq<int>)
    requires NoZero(qs) && DistinctVars(qs) && Quapify.Leading(qs, us)
    ensures NoZero(us) && Consistent(us)
  {
    forall i, j | 0 <= i < |us| && 0 <= j < |us| ensures us[i] != -us[j] {
      if i != j { assert Abs(us[i]) == Abs(qs[i]) && Abs(us[j]) == Abs(qs[j]); }
    }
  }

  /** Two matrices give the same answers in all rounds of an integer-split run. */
  ghost predicate SameAnswers(qs: seq<int>, splits: seq<nat>, cs: seq<seq<int>>, ds: seq<seq<int>>)
    requires TotalLength(splits) <= |qs|
  {
    forall t :: InRange(splits, t) ==> (Asked(qs, cs, Cube(qs, splits, t)) <==> Asked(qs, ds, Cube(qs, splits, t)))
  }

  lemma {:induction false} SameDecided(qs: seq<int>, splits: seq<nat>, us: seq<int>, cs: seq<seq<int>>,
      ds: seq<seq<int>>)
    requires TotalLength(splits) <= |qs| && |us| <= TotalLength(splits)
    requires NoZero(qs) && DistinctVars(qs) && Quapify.Leading(qs, us)
    requires PowersOfTwo(splits) && forall i :: 0 <= i < |splits| ==> splits[i] > 0
    requires SameAnswers(qs, splits, cs, ds)
    ensures var lead := qs[|us|..TotalLength(splits)]; Decided(lead, us, qs, cs) <==> Decided(lead, us, qs, ds)
    decreases TotalLength(splits) - |us|
  {
    var k, d := |us|, TotalLength(splits);
    hide Asked, TotalLength, PowersOfTwo;
    if k == d {
      var t := LeafIsCube(qs, splits, us);
      assert qs[k..d] == [];
    } else {
      var v := Abs(qs[k]);
      LeadingNext(qs, us, v);
      LeadingNext(qs, us, -(v as int));
      SameDecided(qs, splits, us + [v], cs, ds);
      SameDecided(qs, splits, us + [-(v as int)], cs, ds);
      assert qs[k..d][1..] == qs[k + 1..d] && qs[k..d][0] == qs[k];
    }
  }

  /** With power-of-two splits the answers of the rounds determine the truth of the
      original formula. */
  lemma RoundsDetermineTruth(qs: seq<int>, splits: seq<nat>, cs: seq<seq<int>>, ds: seq<seq<int>>)
    requires NoZeros(cs) && NoZeros(ds) && NoZero(qs) && DistinctVars(qs) && Bound(qs, cs) && Bound(qs, ds)
    requires TotalLength(splits) <= |qs| && PowersOfTwo(splits) && forall i :: 0 <= i < |splits| ==> splits[i] > 0
    requires SameAnswers(qs, splits, cs, ds)
    ensures QbfTrue(qs, cs) <==> QbfTrue(qs, ds)
  {
    var d := TotalLength(splits);
    AnswersDecide(qs, d, cs);
    AnswersDecide(qs, d, ds);
    SameDecided(qs, splits, [], cs, ds);
    assert qs[0..d] == qs[..d];
    hide QbfTrue, Decided;
  }

  // ----- every round keeps its meaning -----

  /** In an integer-split run, where room is announced for one cube, the formula of every
      round keeps its meaning on every matrix. */
  lemma CubesKeepMeaning(h: HeaderData, mode: bool, qs: seq<int>, splits: seq<nat>, t: seq<nat>)
    requires NoZero(qs) && Distinct(qs) && TotalLength(splits) <= |qs| && |t| == |splits|
    requires h.prefixdepth == TotalLength(splits)
    ensures PreservesAll(qs, Effective(qs, h.prefixdepth, 0), Cube(qs, splits, t))
    ensures var m := Quapify.QuantifyAll(L.Opened(h, mode), qs);
            !L.TooFewAssumptions(m.(writtenAssumptions := |Cube(qs, splits, t)|))
  {
    hide PreservesAll, Effective, Quapify.QuantifyAll, Cube, Distinct, TotalLength;
    CubeVars(qs, splits, t);
    Quapify.RememberedDepth(h, mode, qs);
    Quapify.UniversalCheckTooWeak(h, mode, qs, Cube(qs, splits, t));
  }
}
