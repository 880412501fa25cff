/** Truth of a quantified formula, and what assumptions mean for it. */
module Qbf {
  import opened Numerals

  /** An assignment, as the set of its true variables. */
  type Assignment = set<nat>

  predicate Holds(a: Assignment, l: int) { if l > 0 then l in a else Abs(l) !in a }

  ghost predicate SatClause(c: seq<int>, a: Assignment) { exists i :: 0 <= i < |c| && Holds(a, c[i]) }

  ghost predicate Sat(cs: seq<seq<int>>, a: Assignment) { forall i :: 0 <= i < |cs| ==> SatClause(cs[i], a) }

  /** Truth under a prefix, outermost variable first: positive entries are
      existential, negative ones universal, zeros are ignored. */
  ghost predicate TrueIn(qs: seq<int>, cs: seq<seq<int>>, a: Assignment) {
    if qs == [] then Sat(cs, a)
    else if qs[0] == 0 then TrueIn(qs[1..], cs, a)
    else
      var v := Abs(qs[0]);
      if qs[0] > 0 then TrueIn(qs[1..], cs, a - {v}) || TrueIn(qs[1..], cs, a + {v})
      else TrueIn(qs[1..], cs, a - {v}) && TrueIn(qs[1..], cs, a + {v})
  }

  /** Variables outside the prefix are existential and outermost; without a prefix
      this is satisfiability. */
  ghost predicate QbfTrue(qs: seq<int>, cs: seq<seq<int>>) { exists a: Assignment :: TrueIn(qs, cs, a) }

  // ----- assumptions -----

  function Units(us: seq<int>): seq<seq<int>> { seq(|us|, i requires 0 <= i < |us| => [us[i]]) }

  predicate Assumed(us: seq<int>, v: nat) { v as int in us || -(v as int) in us }

  predicate Consistent(us: seq<int>) { forall i, j :: 0 <= i < |us| && 0 <= j < |us| ==> us[i] != -us[j] }

  /** The prefix without the assumed variables. */
  function Drop(qs: seq<int>, us: seq<int>): seq<int> {
    if qs == [] then [] else (if Assumed(us, Abs(qs[0])) then [] else [qs[0]]) + Drop(qs[1..], us)
  }

  predicate Satisfied(c: seq<int>, us: seq<int>) { exists i :: 0 <= i < |c| && c[i] in us }

  /** The clause without the literals the assumptions make false. */
  function Reduce(c: seq<int>, us: seq<int>): seq<int> {
    if c == [] then [] else (if -c[0] in us then [] else [c[0]]) + Reduce(c[1..], us)
  }

  /** The matrix with the assumed variables substituted. */
  function Substitute(cs: seq<seq<int>>, us: seq<int>): seq<seq<int>> {
    if cs == [] then []
    else (if Satisfied(cs[0], us) then [] else [Reduce(cs[0], us)]) + Substitute(cs[1..], us)
  }

  /** The original question under the assumptions. */
  ghost predicate Asked(qs: seq<int>, cs: seq<seq<int>>, us: seq<int>) {
    QbfTrue(Drop(qs, us), Substitute(cs, us))
  }

  predicate NoZero(c: seq<int>) { forall i :: 0 <= i < |c| ==> c[i] != 0 }

  predicate NoZeros(cs: seq<seq<int>>) { forall i :: 0 <= i < |cs| ==> NoZero(cs[i]) }

  // ----- the matrix -----

  ghost predicate Agrees(a: Assignment, us: seq<int>) { forall i :: 0 <= i < |us| ==> Holds(a, us[i]) }

  lemma SatConcat(cs: seq<seq<int>>, ds: seq<seq<int>>, a: Assignment)
    ensures Sat(cs + ds, a) <==> Sat(cs, a) && Sat(ds, a)
  {
    assert forall i :: 0 <= i < |cs| ==> (cs + ds)[i] == cs[i];
    assert forall i :: 0 <= i < |ds| ==> (cs + ds)[|cs| + i] == ds[i];
  }

  lemma SatUnits(us: seq<int>, a: Assignment)
    ensures Sat(Units(us), a) <==> Agrees(a, us)
  {
    assert forall i :: 0 <= i < |us| ==> Units(us)[i] == [us[i]] && (SatClause([us[i]], a) <==> Holds(a, us[i])) by {
      forall i | 0 <= i < |us| ensures SatClause([us[i]], a) <==> Holds(a, us[i]) {
        assert [us[i]][0] == us[i];
      }
    }
  }

  lemma SatClauseCons(c: seq<int>, a: Assignment)
    requires c != []
    ensures SatClause(c, a) <==> Holds(a, c[0]) || SatClause(c[1..], a)
  {
    if SatClause(c, a) {
      var i :| 0 <= i < |c| && Holds(a, c[i]);
      if i > 0 { assert c[1..][i - 1] == c[i]; }
    }
    if SatClause(c[1..], a) {
      var i :| 0 <= i < |c[1..]| && Holds(a, c[1..][i]);
      assert c[i + 1] == c[1..][i];
    }
  }

  lemma {:induction false} ReduceHolds(c: seq<int>, us: seq<int>, a: Assignment)
    requires Agrees(a, us) && NoZero(c)
    ensures SatClause(Reduce(c, us), a) <==> SatClause(c, a)
  {
    if c == [] {
    } else {
      SatClauseCons(c, a);
      ReduceHolds(c[1..], us, a);
      if -c[0] in us {
        assert Holds(a, -c[0]);
        assert [] + Reduce(c[1..], us) == Reduce(c[1..], us);
      } else {
        var r := Reduce(c, us);
        assert r[1..] == Reduce(c[1..], us);
        SatClauseCons(r, a);
      }
    }
  }

  lemma SatCons(cs: seq<seq<int>>, a: Assignment)
    requires cs != []
    ensures Sat(cs, a) <==> SatClause(cs[0], a) && Sat(cs[1..], a)
  {
    assert forall i :: 1 <= i < |cs| ==> cs[i] == cs[1..][i - 1];
  }

  /** Under an assignment that agrees with the assumptions, substitution is harmless. */
  lemma {:induction false} SubstituteHolds(cs: seq<seq<int>>, us: seq<int>, a: Assignment)
    requires Agrees(a, us) && NoZeros(cs)
    ensures Sat(Substitute(cs, us), a) <==> Sat(cs, a)
  {
    if cs == [] {
    } else {
      SatCons(cs, a);
      SubstituteHolds(cs[1..], us, a);
      var s := Substitute(cs, us);
      if Satisfied(cs[0], us) {
        var i :| 0 <= i < |cs[0]| && cs[0][i] in us;
        assert Holds(a, cs[0][i]);
        assert s == Substitute(cs[1..], us);
      } else {
        ReduceHolds(cs[0], us, a);
        assert s[1..] == Substitute(cs[1..], us);
        SatCons(s, a);
      }
    }
  }

  /** No assumed variable is left in the formula. */
  predicate Free(cs: seq<seq<int>>, us: seq<int>) {
    forall i, j :: 0 <= i < |cs| && 0 <= j < |cs[i]| ==> !Assumed(us, Abs(cs[i][j]))
  }

  lemma {:induction false} ReduceFree(c: seq<int>, us: seq<int>)
    requires !Satisfied(c, us)
    ensures forall j :: 0 <= j < |Reduce(c, us)| ==> !Assumed(us, Abs(Reduce(c, us)[j]))
  {
    if c == [] {
    } else {
      assert c[0] !in us;
      assert forall i :: 0 <= i < |c[1..]| ==> c[1..][i] == c[i + 1];
      ReduceFree(c[1..], us);
    }
  }

  lemma {:induction false} SubstituteFree(cs: seq<seq<int>>, us: seq<int>)
    ensures Free(Substitute(cs, us), us)
  {
    if cs == [] {
    } else {
      SubstituteFree(cs[1..], us);
      if !Satisfied(cs[0], us) {
        ReduceFree(cs[0], us);
      }
    }
  }

  /** No assumed variable is quantified. */
  predicate Outside(qs: seq<int>, us: seq<int>) { forall i :: 0 <= i < |qs| ==> !Assumed(us, Abs(qs[i])) }

  lemma {:induction false} DropOutside(qs: seq<int>, us: seq<int>)
    ensures Outside(Drop(qs, us), us)
  {
    if qs == [] {
    } else {
      DropOutside(qs[1..], us);
    }
  }

  // ----- independence of the assumed variables -----

  ghost predicate SameOutside(a: Assignment, b: Assignment, us: seq<int>) {
    forall v: nat :: !Assumed(us, v) ==> (v in a <==> v in b)
  }

  lemma SatIndependent(cs: seq<seq<int>>, us: seq<int>, a: Assignment, b: Assignment)
    requires Free(cs, us) && SameOutside(a, b, us) && Sat(cs, a)
    ensures Sat(cs, b)
  {
    forall i | 0 <= i < |cs| ensures SatClause(cs[i], b) {
      assert SatClause(cs[i], a);
      var j :| 0 <= j < |cs[i]| && Holds(a, cs[i][j]);
      assert !Assumed(us, Abs(cs[i][j]));
      assert Holds(b, cs[i][j]);
    }
  }

  lemma {:induction false} TrueIndependent(qs: seq<int>, cs: seq<seq<int>>, us: seq<int>, a: Assignment, b: Assignment)
    requires Free(cs, us) && SameOutside(a, b, us) && TrueIn(qs, cs, a)
    ensures TrueIn(qs, cs, b)
    decreases |qs|
  {
    if qs == [] {
      SatIndependent(cs, us, a, b);
    } else if qs[0] == 0 {
      TrueIndependent(qs[1..], cs, us, a, b);
    } else {
      var v := Abs(qs[0]);
      if TrueIn(qs[1..], cs, a - {v}) { TrueIndependent(qs[1..], cs, us, a - {v}, b - {v}); }
      if TrueIn(qs[1..], cs, a + {v}) { TrueIndependent(qs[1..], cs, us, a + {v}, b + {v}); }
    }
  }

  // ----- units against substitution -----

  predicate Mentions(qs: seq<int>, v: nat) { exists i :: 0 <= i < |qs| && qs[i] != 0 && Abs(qs[i]) == v }

  /** a agrees with the assumptions on every variable the prefix does not quantify. */
  ghost predicate AgreesOff(a: Assignment, us: seq<int>, qs: seq<int>) {
    forall i :: 0 <= i < |us| ==> Mentions(qs, Abs(us[i])) || Holds(a, us[i])
  }

  /** Assumed variables are existential where they are quantified. */
  predicate ExistentialOnly(qs: seq<int>, us: seq<int>) {
    forall i :: 0 <= i < |qs| && qs[i] < 0 ==> !Assumed(us, Abs(qs[i]))
  }

  lemma MentionsCons(qs: seq<int>, v: nat)
    requires qs != []
    ensures Mentions(qs, v) <==> (qs[0] != 0 && Abs(qs[0]) == v) || Mentions(qs[1..], v)
  {
    if Mentions(qs, v) {
      var i :| 0 <= i < |qs| && qs[i] != 0 && Abs(qs[i]) == v;
      if i > 0 { assert qs[1..][i - 1] == qs[i]; }
    }
    if Mentions(qs[1..], v) {
      var i :| 0 <= i < |qs[1..]| && qs[1..][i] != 0 && Abs(qs[1..][i]) == v;
      assert qs[i + 1] == qs[1..][i];
    }
  }

  /** Quantifying a variable that is not assumed does not touch the agreement. */
  lemma AgreesOffOther(a: Assignment, us: seq<int>, qs: seq<int>, v: nat)
    requires qs != [] && (qs[0] != 0 ==> Abs(qs[0]) == v) && (qs[0] == 0 || !Assumed(us, v)) && NoZero(us)
    ensures AgreesOff(a, us, qs) <==> AgreesOff(a, us, qs[1..])
    ensures qs[0] != 0 ==> (AgreesOff(a, us, qs) <==> AgreesOff(a - {v}, us, qs[1..]))
    ensures qs[0] != 0 ==> (AgreesOff(a, us, qs) <==> AgreesOff(a + {v}, us, qs[1..]))
  {
    forall i | 0 <= i < |us|
      ensures Mentions(qs, Abs(us[i])) <==> Mentions(qs[1..], Abs(us[i]))
      ensures qs[0] != 0 ==> Abs(us[i]) != v
    {
      MentionsCons(qs, Abs(us[i]));
      assert us[i] in us;
    }
    hide Mentions;
  }

  /** An assumed existential variable can be chosen to agree, in exactly one way if
      it is not quantified again. */
  lemma AgreesOffChosen(a: Assignment, us: seq<int>, qs: seq<int>, v: nat)
    requires qs != [] && qs[0] != 0 && Abs(qs[0]) == v && NoZero(us) && Consistent(us)
    ensures AgreesOff(a, us, qs) <==> AgreesOff(a - {v}, us, qs[1..]) || AgreesOff(a + {v}, us, qs[1..])
  {
    forall i | 0 <= i < |us|
      ensures Mentions(qs, Abs(us[i])) <==> Abs(us[i]) == v || Mentions(qs[1..], Abs(us[i]))
    {
      MentionsCons(qs, Abs(us[i]));
    }
    hide Mentions;
    if AgreesOff(a, us, qs) {
      if v as int in us {
        assert -(v as int) !in us;
        assert AgreesOff(a + {v}, us, qs[1..]);
      } else {
        assert AgreesOff(a - {v}, us, qs[1..]);
      }
    }
  }

  ghost predicate Both(a: Assignment, qs: seq<int>, cs: seq<seq<int>>, us: seq<int>) {
    AgreesOff(a, us, qs) && TrueIn(Drop(qs, us), Substitute(cs, us), a)
  }

  lemma UnitsLeaf(cs: seq<seq<int>>, us: seq<int>, a: Assignment)
    requires NoZeros(cs)
    ensures TrueIn([], cs + Units(us), a) <==> Both(a, [], cs, us)
  {
    SatConcat(cs, Units(us), a);
    SatUnits(us, a);
    assert AgreesOff(a, us, []) <==> Agrees(a, us) by {
      assert forall v :: !Mentions([], v);
    }
    if Agrees(a, us) {
      SubstituteHolds(cs, us, a);
    }
  }

  lemma TrueInCons(q: int, qs: seq<int>, cs: seq<seq<int>>, a: Assignment)
    ensures var v := Abs(q);
            TrueIn([q] + qs, cs, a) <==>
            if q == 0 then TrueIn(qs, cs, a)
            else if q > 0 then TrueIn(qs, cs, a - {v}) || TrueIn(qs, cs, a + {v})
            else TrueIn(qs, cs, a - {v}) && TrueIn(qs, cs, a + {v})
  {
    assert ([q] + qs)[1..] == qs;
  }

  /** Dropping an assumed existential variable. */
  lemma BothChosen(a: Assignment, qs: seq<int>, cs: seq<seq<int>>, us: seq<int>)
    requires qs != [] && qs[0] != 0 && Assumed(us, Abs(qs[0])) && NoZero(us) && Consistent(us)
    ensures var v := Abs(qs[0]);
            Both(a, qs, cs, us) <==> Both(a - {v}, qs[1..], cs, us) || Both(a + {v}, qs[1..], cs, us)
  {
    var v := Abs(qs[0]);
    AgreesOffChosen(a, us, qs, v);
    hide AgreesOff, Substitute;
    var d, s := Drop(qs[1..], us), Substitute(cs, us);
    assert Drop(qs, us) == d;
    SubstituteFree(cs, us);
    forall b: Assignment | b == a - {v} || b == a + {v} ensures TrueIn(d, s, a) <==> TrueIn(d, s, b) {
      if TrueIn(d, s, a) { TrueIndependent(d, s, us, a, b); }
      if TrueIn(d, s, b) { TrueIndependent(d, s, us, b, a); }
    }
    hide TrueIn, Drop;
  }

  /** Keeping a variable that is not assumed. */
  lemma BothKept(a: Assignment, qs: seq<int>, cs: seq<seq<int>>, us: seq<int>)
    requires qs != [] && !Assumed(us, Abs(qs[0])) && NoZero(us)
    ensures var v := Abs(qs[0]);
            Both(a, qs, cs, us) <==>
            if qs[0] == 0 then Both(a, qs[1..], cs, us)
            else if qs[0] > 0 then Both(a - {v}, qs[1..], cs, us) || Both(a + {v}, qs[1..], cs, us)
            else Both(a - {v}, qs[1..], cs, us) && Both(a + {v}, qs[1..], cs, us)
  {
    AgreesOffOther(a, us, qs, Abs(qs[0]));
    assert Drop(qs, us) == [qs[0]] + Drop(qs[1..], us);
    TrueInCons(qs[0], Drop(qs[1..], us), Substitute(cs, us), a);
    hide AgreesOff, Substitute, Drop, TrueIn;
  }

  lemma {:induction false} UnitsAreSubstitution(qs: seq<int>, cs: seq<seq<int>>, us: seq<int>, a: Assignment)
    requires NoZeros(cs) && NoZero(us) && Consistent(us) && ExistentialOnly(qs, us)
    ensures TrueIn(qs, cs + Units(us), a) <==> Both(a, qs, cs, us)
    decreases |qs|
  {
    if qs == [] {
      UnitsLeaf(cs, us, a);
    } else {
      var v, t, g := Abs(qs[0]), qs[1..], cs + Units(us);
      assert [qs[0]] + t == qs;
      TrueInCons(qs[0], t, g, a);
      assert qs[0] < 0 ==> !Assumed(us, v);
      assert ExistentialOnly(t, us) by {
        assert forall i :: 0 <= i < |t| ==> t[i] == qs[i + 1];
      }
      UnitsAreSubstitution(t, cs, us, a);
      UnitsAreSubstitution(t, cs, us, a - {v});
      UnitsAreSubstitution(t, cs, us, a + {v});
      ZeroNotAssumed(us);
      if Assumed(us, v) { BothChosen(a, qs, cs, us); } else { BothKept(a, qs, cs, us); }
      hide TrueIn, Both, Assumed, ExistentialOnly;
    }
  }

  lemma ZeroNotAssumed(us: seq<int>)
    requires NoZero(us)
    ensures !Assumed(us, 0)
  {
  }

  /** Adding the assumptions as unit clauses asks the original question under the
      assumptions, provided every assumed variable is existential or free; and what is
      asked mentions no assumed variable, neither in its prefix nor in its matrix. */
  lemma UnitsMeanAssumptions(qs: seq<int>, cs: seq<seq<int>>, us: seq<int>)
    requires NoZeros(cs) && NoZero(us) && Consistent(us) && ExistentialOnly(qs, us)
    ensures QbfTrue(qs, cs + Units(us)) <==> Asked(qs, cs, us)
    ensures Outside(Drop(qs, us), us) && Free(Substitute(cs, us), us)
  {
    var d, s := Drop(qs, us), Substitute(cs, us);
    DropOutside(qs, us);
    SubstituteFree(cs, us);
    if QbfTrue(qs, cs + Units(us)) {
      var a :| TrueIn(qs, cs + Units(us), a);
      UnitsAreSubstitution(qs, cs, us, a);
    }
    if Asked(qs, cs, us) {
      var a :| TrueIn(d, s, a);
      var b := Choose(a, us);
      ChooseAgrees(a, us);
      TrueIndependent(d, s, us, a, b);
      assert AgreesOff(b, us, qs);
      UnitsAreSubstitution(qs, cs, us, b);
    }
  }

  /** The assignment that agrees with the assumptions and is a elsewhere. */
  function Choose(a: Assignment, us: seq<int>): Assignment {
    if us == [] then a
    else
      var b := Choose(a, us[1..]);
      if us[0] > 0 then b + {Abs(us[0])} else b - {Abs(us[0])}
  }

  lemma {:induction false} ChooseAgrees(a: Assignment, us: seq<int>)
    requires NoZero(us) && Consistent(us)
    ensures Agrees(Choose(a, us), us) && SameOutside(a, Choose(a, us), us)
  {
    if us == [] {
    } else {
      var t := us[1..];
      assert forall i :: 0 <= i < |t| ==> t[i] == us[i + 1];
      ChooseAgrees(a, t);
      forall i | 0 <= i < |us| ensures Holds(Choose(a, us), us[i]) {
        if i > 0 {
          assert us[0] != -us[i];
          assert Holds(Choose(a, t), t[i - 1]);
        }
      }
    }
  }
}
