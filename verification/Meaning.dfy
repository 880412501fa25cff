/** When the formula handed to the solver asks the question the user asked:
    leading universal quantifiers are made existential, assumptions become unit
    clauses, and fillers pad the matrix. */
module Meaning {
  import opened Numerals
  import opened Qbf

  // ----- the effective prefix -----

  /** The quantifiers as they are sent: among the first depth variables, universal
      ones are made existential; n variables were sent before. */
  function Effective(qs: seq<int>, depth: int, n: nat): (es: seq<int>)
    ensures |es| == |qs|
  {
    if qs == [] then []
    else [if qs[0] < 0 && n < depth then -qs[0] else qs[0]] +
         Effective(qs[1..], depth, if qs[0] == 0 then n else n + 1)
  }

  lemma {:induction false} EffectiveEntries(qs: seq<int>, depth: int, n: nat)
    ensures forall i :: 0 <= i < |qs| ==>
              var e := Effective(qs, depth, n)[i]; e == qs[i] || (e == -qs[i] && qs[i] < 0)
  {
    if qs == [] {
    } else {
      EffectiveEntries(qs[1..], depth, if qs[0] == 0 then n else n + 1);
    }
  }

  predicate Flipped(qs: seq<int>, es: seq<int>, i: nat)
    requires i < |qs| == |es|
  {
    qs[i] < 0 < es[i]
  }

  /** Every universal variable made existential is assumed. */
  predicate FlippedAssumed(qs: seq<int>, es: seq<int>, us: seq<int>)
    requires |qs| == |es|
  {
    forall i :: 0 <= i < |qs| && Flipped(qs, es, i) ==> Assumed(us, Abs(qs[i]))
  }

  /** es is qs with some universal quantifiers made existential. */
  predicate Weakened(qs: seq<int>, es: seq<int>) {
    |qs| == |es| && forall i :: 0 <= i < |qs| ==> es[i] == qs[i] || (Flipped(qs, es, i) && es[i] == -qs[i])
  }

  lemma EffectiveWeakens(qs: seq<int>, depth: int)
    ensures Weakened(qs, Effective(qs, depth, 0))
  {
    EffectiveEntries(qs, depth, 0);
  }

  lemma {:induction false} DropWeakened(qs: seq<int>, es: seq<int>, us: seq<int>)
    requires Weakened(qs, es) && FlippedAssumed(qs, es, us)
    ensures Drop(qs, us) == Drop(es, us)
  {
    if qs == [] {
    } else {
      var q, e := qs[1..], es[1..];
      assert forall i :: 0 <= i < |q| ==> q[i] == qs[i + 1] && e[i] == es[i + 1];
      assert forall i :: 0 <= i < |q| ==> (Flipped(q, e, i) <==> Flipped(qs, es, i + 1));
      DropWeakened(q, e, us);
      assert Flipped(qs, es, 0) || es[0] == qs[0];
    }
  }

  // ----- exactness -----

  /** Each variable is quantified at most once. */
  predicate Distinct(qs: seq<int>) {
    qs == [] || ((qs[0] == 0 || !Mentions(qs[1..], Abs(qs[0]))) && Distinct(qs[1..]))
  }

  /** q occurs in the prefix and its variable is quantified only there. */
  predicate Once(qs: seq<int>, q: int) {
    qs != [] && (if qs[0] == q then !Mentions(qs[1..], Abs(q))
                 else (qs[0] == 0 || Abs(qs[0]) != Abs(q)) && Once(qs[1..], q))
  }

  lemma {:induction false} DistinctOnce(qs: seq<int>, i: nat)
    requires Distinct(qs) && i < |qs| && qs[i] != 0
    ensures Once(qs, qs[i])
  {
    if i == 0 {
    } else {
      assert qs[1..][i - 1] == qs[i];
      DistinctOnce(qs[1..], i - 1);
      assert Mentions(qs[1..], Abs(qs[i]));
    }
  }

  lemma {:induction false} DropMentions(qs: seq<int>, us: seq<int>, v: nat)
    requires Mentions(Drop(qs, us), v)
    ensures Mentions(qs, v)
  {
    if qs == [] {
    } else {
      MentionsCons(qs, v);
      var d := Drop(qs, us);
      MentionsCons(d, v);
      if Assumed(us, Abs(qs[0])) {
        assert d == Drop(qs[1..], us);
      } else {
        assert d[1..] == Drop(qs[1..], us);
      }
      if Mentions(Drop(qs[1..], us), v) { DropMentions(qs[1..], us, v); }
    }
  }

  lemma {:induction false} DropOnce(qs: seq<int>, us: seq<int>, q: int)
    requires Once(qs, q) && q != 0 && !Assumed(us, Abs(q))
    ensures Once(Drop(qs, us), q)
  {
    var d, t := Drop(qs, us), Drop(qs[1..], us);
    if qs[0] == q {
      assert d[1..] == t;
      if Mentions(t, Abs(q)) { DropMentions(qs[1..], us, Abs(q)); }
    } else {
      DropOnce(qs[1..], us, q);
      if Assumed(us, Abs(qs[0])) {
        assert d == t;
      } else {
        assert d[0] == qs[0] && d[1..] == t;
      }
    }
  }

  lemma {:induction false} DistinctWeakened(qs: seq<int>, es: seq<int>)
    requires Weakened(qs, es) && Distinct(qs)
    ensures Distinct(es)
  {
    if qs == [] {
    } else {
      var q, e := qs[1..], es[1..];
      assert forall i :: 0 <= i < |q| ==> q[i] == qs[i + 1] && e[i] == es[i + 1];
      assert forall i :: 0 <= i < |q| ==> (Flipped(q, e, i) <==> Flipped(qs, es, i + 1));
      DistinctWeakened(q, e);
      assert forall i :: 0 <= i < |e| ==> Abs(e[i]) == Abs(q[i]) && (e[i] == 0 <==> q[i] == 0);
      assert Mentions(e, Abs(es[0])) ==> Mentions(q, Abs(qs[0]));
    }
  }

  // ----- formulas that tell prefixes apart -----

  lemma {:induction false} EmptyMatrixTrue(qs: seq<int>, a: Assignment)
    ensures TrueIn(qs, [], a)
    decreases |qs|
  {
    if qs == [] {
    } else {
      EmptyMatrixTrue(qs[1..], a);
      EmptyMatrixTrue(qs[1..], a - {Abs(qs[0])});
      EmptyMatrixTrue(qs[1..], a + {Abs(qs[0])});
    }
  }

  /** A unit clause that is false stays false when its variable is not quantified again. */
  lemma {:induction false} UnitStays(qs: seq<int>, cs: seq<seq<int>>, u: int, a: Assignment)
    requires u != 0 && !Mentions(qs, Abs(u))
    ensures [u] in cs && !Holds(a, u) ==> !TrueIn(qs, cs, a)
    ensures cs == [[u]] && Holds(a, u) ==> TrueIn(qs, cs, a)
    decreases |qs|
  {
    if qs == [] {
      assert [u][0] == u;
      assert SatClause([u], a) <==> Holds(a, u);
    } else {
      MentionsCons(qs, Abs(u));
      UnitStays(qs[1..], cs, u, a);
      if qs[0] != 0 {
        UnitStays(qs[1..], cs, u, a - {Abs(qs[0])});
        UnitStays(qs[1..], cs, u, a + {Abs(qs[0])});
      }
    }
  }

  /** A unit clause over a universal variable makes the formula false; alone over an
      existential variable it is true. */
  lemma {:induction false} UnitOverVariable(qs: seq<int>, cs: seq<seq<int>>, u: int, a: Assignment)
    requires u != 0
    ensures Once(qs, -(Abs(u) as int)) && [u] in cs ==> !TrueIn(qs, cs, a)
    ensures Once(qs, Abs(u)) && cs == [[u]] ==> TrueIn(qs, cs, a)
    decreases |qs|
  {
    if qs == [] {
    } else {
      var v := Abs(qs[0]);
      if v == Abs(u) && qs[0] != 0 && !Mentions(qs[1..], v) {
        UnitStays(qs[1..], cs, u, a - {v});
        UnitStays(qs[1..], cs, u, a + {v});
      } else {
        UnitOverVariable(qs[1..], cs, u, a);
        UnitOverVariable(qs[1..], cs, u, a - {v});
        UnitOverVariable(qs[1..], cs, u, a + {v});
      }
    }
  }

  lemma {:induction false} NeverSatisfied(qs: seq<int>, cs: seq<seq<int>>, a: Assignment)
    requires forall b: Assignment :: !Sat(cs, b)
    ensures !TrueIn(qs, cs, a)
    decreases |qs|
  {
    if qs == [] {
    } else {
      NeverSatisfied(qs[1..], cs, a);
      NeverSatisfied(qs[1..], cs, a - {Abs(qs[0])});
      NeverSatisfied(qs[1..], cs, a + {Abs(qs[0])});
    }
  }

  // ----- the exact condition -----

  /** The formula handed to the solver, for matrix cs, has the truth value asked for. */
  ghost predicate Preserves(qs: seq<int>, es: seq<int>, cs: seq<seq<int>>, us: seq<int>) {
    QbfTrue(es, cs + Units(us)) <==> Asked(qs, cs, us)
  }

  ghost predicate PreservesAll(qs: seq<int>, es: seq<int>, us: seq<int>) {
    forall cs :: NoZeros(cs) ==> Preserves(qs, es, cs, us)
  }

  /** What a caller can check: consistent assumptions, on every universal variable
      made existential and on no variable still universal. */
  predicate AssumptionsFit(qs: seq<int>, es: seq<int>, us: seq<int>)
    requires |qs| == |es|
  {
    Consistent(us) && FlippedAssumed(qs, es, us) && ExistentialOnly(es, us)
  }

  lemma FitPreserves(qs: seq<int>, es: seq<int>, cs: seq<seq<int>>, us: seq<int>)
    requires Weakened(qs, es) && AssumptionsFit(qs, es, us) && NoZeros(cs) && NoZero(us)
    ensures Preserves(qs, es, cs, us)
  {
    UnitsMeanAssumptions(es, cs, us);
    DropWeakened(qs, es, us);
  }

  lemma InconsistentFails(qs: seq<int>, es: seq<int>, us: seq<int>)
    requires NoZero(us) && !Consistent(us)
    ensures !Preserves(qs, es, [], us)
  {
    var i, j :| 0 <= i < |us| && 0 <= j < |us| && us[i] == -us[j];
    assert [] + Units(us) == Units(us);
    forall a: Assignment ensures !TrueIn(es, Units(us), a) {
      forall b: Assignment ensures !Sat(Units(us), b) {
        SatUnits(us, b);
        assert Holds(b, us[i]) <==> !Holds(b, us[j]);
      }
      NeverSatisfied(es, Units(us), a);
    }
    EmptyMatrixTrue(Drop(qs, us), {});
  }

  lemma UnitOf(us: seq<int>, u: int)
    requires u in us
    ensures [u] in Units(us)
  {
    var k :| 0 <= k < |us| && us[k] == u;
    assert Units(us)[k] == [u];
  }

  lemma UniversalFails(qs: seq<int>, es: seq<int>, us: seq<int>)
    requires NoZero(us) && Distinct(es) && !ExistentialOnly(es, us)
    ensures !Preserves(qs, es, [], us)
  {
    var i :| 0 <= i < |es| && es[i] < 0 && Assumed(us, Abs(es[i]));
    var u := if es[i] in us then es[i] else -es[i];
    assert [] + Units(us) == Units(us);
    UnitOf(us, u);
    DistinctOnce(es, i);
    forall a: Assignment ensures !TrueIn(es, Units(us), a) {
      UnitOverVariable(es, Units(us), u, a);
    }
    EmptyMatrixTrue(Drop(qs, us), {});
  }

  lemma UnassumedFails(qs: seq<int>, es: seq<int>, us: seq<int>)
    requires Weakened(qs, es) && Distinct(qs) && NoZero(us)
    requires Consistent(us) && ExistentialOnly(es, us) && !FlippedAssumed(qs, es, us)
    ensures exists cs :: NoZeros(cs) && !Preserves(qs, es, cs, us)
  {
    var i :| 0 <= i < |qs| && Flipped(qs, es, i) && !Assumed(us, Abs(qs[i]));
    UnitFails(qs, es, us, i);
    hide Preserves, NoZeros;
  }

  /** The unit clause of an unassumed variable made existential tells the formulas apart. */
  lemma UnitFails(qs: seq<int>, es: seq<int>, us: seq<int>, i: nat)
    requires Weakened(qs, es) && Distinct(qs) && NoZero(us) && Consistent(us) && ExistentialOnly(es, us)
    requires i < |qs| && Flipped(qs, es, i) && !Assumed(us, Abs(qs[i]))
    ensures NoZeros([[es[i]]]) && !Preserves(qs, es, [[es[i]]], us)
  {
    hide TrueIn, Drop, Substitute, Distinct, Consistent, ExistentialOnly, Assumed;
    var u := es[i];
    var cs := [[u]];
    DistinctWeakened(qs, es);
    DistinctOnce(qs, i);
    DistinctOnce(es, i);
    DropOnce(qs, us, qs[i]);
    DropOnce(es, us, u);
    UnitsMeanAssumptions(es, cs, us);
    SubstituteUnit(u, us);
    UnitOverVariable(Drop(es, us), cs, u, {});
    forall a: Assignment ensures !TrueIn(Drop(qs, us), cs, a) {
      UnitOverVariable(Drop(qs, us), cs, u, a);
    }
  }

  lemma SubstituteUnit(u: int, us: seq<int>)
    requires u > 0 && !Assumed(us, u)
    ensures Substitute([[u]], us) == [[u]]
  {
    assert [[u]][1..] == [] && [u][1..] == [];
    assert Reduce([u], us) == [u];
  }

  /** Meaning, exactly: for a prefix that quantifies no variable twice, the formula
      handed to the solver has the truth value asked for on every matrix if and only
      if the assumptions fit. */
  lemma MeaningExact(qs: seq<int>, depth: int, us: seq<int>)
    requires Distinct(qs) && NoZero(us)
    ensures var es := Effective(qs, depth, 0);
            PreservesAll(qs, es, us) <==> AssumptionsFit(qs, es, us)
  {
    var es := Effective(qs, depth, 0);
    EffectiveWeakens(qs, depth);
    DistinctWeakened(qs, es);
    if AssumptionsFit(qs, es, us) {
      forall cs | NoZeros(cs) ensures Preserves(qs, es, cs, us) { FitPreserves(qs, es, cs, us); }
    } else if !Consistent(us) {
      InconsistentFails(qs, es, us);
      assert NoZeros([]);
    } else if !ExistentialOnly(es, us) {
      UniversalFails(qs, es, us);
      assert NoZeros([]);
    } else {
      UnassumedFails(qs, es, us);
    }
  }
}
