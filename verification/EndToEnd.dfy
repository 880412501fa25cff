/** From the user's calls to the truth of the formula the solver reads. */
module EndToEnd {
  import opened Numerals
  import opened Messages
  import opened PullMachine
  import opened Render
  import opened Seqs
  import opened RoundTrip
  import opened Qbf
  import opened Meaning
  import opened Protocol
  import opened Leftovers
  import opened Isolation
  import opened Accounting
  import A = Acceptance
  import P = Parser

  // ----- the formula a sequence of callbacks describes -----

  function PrefixOf(calls: seq<P.Call>): seq<int> {
    if calls == [] then [] else (if calls[0].AddQuantifier? then [calls[0].q] else []) + PrefixOf(calls[1..])
  }

  /** The clauses, with the literals of the clause being read. */
  function MatrixOf(calls: seq<P.Call>, open: seq<int>): seq<seq<int>>
    decreases |calls|
  {
    if calls == [] then []
    else if calls[0].AddQuantifier? then MatrixOf(calls[1..], open)
    else if calls[0].l == 0 then [open] + MatrixOf(calls[1..], [])
    else MatrixOf(calls[1..], open + [calls[0].l])
  }

  function NonZero(qs: seq<int>): seq<int> {
    if qs == [] then [] else (if qs[0] == 0 then [] else [qs[0]]) + NonZero(qs[1..])
  }

  lemma NoQuantifiers()
    ensures QuantifierCalls([]) == [] && NonZero([]) == []
  {
  }

  lemma QuantifierCons(qs: seq<int>)
    requires qs != []
    ensures var t := QuantifierCalls(qs[1..]);
            QuantifierCalls(qs) == if qs[0] == 0 then t else [P.AddQuantifier(qs[0])] + t
    ensures NonZero(qs) == if qs[0] == 0 then NonZero(qs[1..]) else [qs[0]] + NonZero(qs[1..])
  {
    NilLeft(NonZero(qs[1..]));
    NilLeft(QuantifierCalls(qs[1..]));
  }

  lemma CallRead(q: int, calls: seq<P.Call>)
    ensures PrefixOf([P.AddQuantifier(q)] + calls) == [q] + PrefixOf(calls)
    ensures MatrixOf([P.AddQuantifier(q)] + calls, []) == MatrixOf(calls, [])
  {
    Cons(P.AddQuantifier(q), calls);
  }

  lemma {:induction false} QuantifiersRead(qs: seq<int>, rest: seq<P.Call>)
    ensures PrefixOf(QuantifierCalls(qs) + rest) == NonZero(qs) + PrefixOf(rest)
    ensures MatrixOf(QuantifierCalls(qs) + rest, []) == MatrixOf(rest, [])
  {
    hide PrefixOf, MatrixOf, QuantifierCalls, NonZero;
    NoQuantifiers();
    if qs == [] {
      NilLeft(rest);
      NilLeft(PrefixOf(rest));
    } else {
      var t := QuantifierCalls(qs[1..]);
      QuantifiersRead(qs[1..], rest);
      QuantifierCons(qs);
      if qs[0] != 0 {
        Assoc([P.AddQuantifier(qs[0])], t, rest);
        CallRead(qs[0], t + rest);
        Assoc([qs[0]], NonZero(qs[1..]), PrefixOf(rest));
      }
    }
  }

  lemma {:induction false} ClauseRead(c: seq<int>, open: seq<int>, rest: seq<P.Call>)
    requires Literals(c)
    ensures var calls := CallsOf(P.NoBlock, c) + [P.AddLit(0)] + rest;
            && MatrixOf(calls, open) == [open + c] + MatrixOf(rest, [])
            && PrefixOf(calls) == PrefixOf(rest)
    decreases |c|
  {
    var calls := CallsOf(P.NoBlock, c) + [P.AddLit(0)] + rest;
    if c == [] {
      assert calls[0] == P.AddLit(0) && calls[1..] == rest && open + c == open;
    } else {
      assert calls[0] == P.AddLit(c[0]);
      assert calls[1..] == CallsOf(P.NoBlock, c[1..]) + [P.AddLit(0)] + rest;
      assert open + [c[0]] + c[1..] == open + c;
      ClauseRead(c[1..], open + [c[0]], rest);
    }
  }

  lemma {:induction false} ClausesRead(cs: seq<seq<int>>)
    requires ClauseLiterals(cs)
    ensures MatrixOf(ClauseCalls(cs), []) == cs && PrefixOf(ClauseCalls(cs)) == []
  {
    hide CallsOf, Literals;
    if cs == [] {
    } else {
      ClausesRead(cs[1..]);
      ClauseRead(cs[0], [], ClauseCalls(cs[1..]));
      assert [] + cs[0] == cs[0];
    }
  }

  // ----- fillers and zeros do not change the truth -----

  lemma {:induction false} SameTruth(qs: seq<int>, cs: seq<seq<int>>, ds: seq<seq<int>>, a: Assignment)
    requires forall b: Assignment :: Sat(cs, b) <==> Sat(ds, b)
    ensures TrueIn(qs, cs, a) <==> TrueIn(qs, ds, a)
    decreases |qs|
  {
    hide Sat;
    if qs == [] {
    } else {
      SameTruth(qs[1..], cs, ds, a);
      SameTruth(qs[1..], cs, ds, a - {Abs(qs[0])});
      SameTruth(qs[1..], cs, ds, a + {Abs(qs[0])});
    }
  }

  lemma {:induction false} ZerosIgnored(qs: seq<int>, cs: seq<seq<int>>, a: Assignment)
    ensures TrueIn(NonZero(qs), cs, a) <==> TrueIn(qs, cs, a)
    decreases |qs|
  {
    hide Sat;
    if qs == [] {
    } else {
      ZerosIgnored(qs[1..], cs, a);
      if qs[0] == 0 {
        assert NonZero(qs) == NonZero(qs[1..]);
      } else {
        assert NonZero(qs)[1..] == NonZero(qs[1..]);
        ZerosIgnored(qs[1..], cs, a - {Abs(qs[0])});
        ZerosIgnored(qs[1..], cs, a + {Abs(qs[0])});
      }
    }
  }

  /** The filler is a tautology unless no variable was announced and none leads the prefix. */
  lemma FillerHolds(literals: int, qs: seq<int>, a: Assignment)
    ensures SatClause(FillerClause(literals, qs), a) <==> FillerClause(literals, qs) != []
  {
    var f := FillerClause(literals, qs);
    if f != [] {
      assert f[0] == -f[1] && f[0] != 0;
      assert Holds(a, f[0]) || Holds(a, f[1]);
    }
  }

  predicate FillersHarmless(h: HeaderData, qs: seq<int>, cs: seq<seq<int>>) {
    FillerClause(h.literals, qs) != [] || |cs| >= h.clauses
  }

  /** Padding, exactly: it keeps the truth of every formula if fillers are tautologies
      or not needed, and makes every formula false otherwise. */
  lemma PaddingExact(h: HeaderData, qs: seq<int>, cs: seq<seq<int>>)
    ensures FillersHarmless(h, qs, cs) ==> (QbfTrue(qs, Padded(h, qs, cs)) <==> QbfTrue(qs, cs))
    ensures !FillersHarmless(h, qs, cs) ==> !QbfTrue(qs, Padded(h, qs, cs))
  {
    var f := FillerClause(h.literals, qs);
    var n := if |cs| < h.clauses then h.clauses - |cs| else 0;
    var full := Padded(h, qs, cs);
    forall b: Assignment
      ensures FillersHarmless(h, qs, cs) ==> (Sat(cs, b) <==> Sat(full, b))
      ensures !FillersHarmless(h, qs, cs) ==> !Sat(full, b)
    {
      SatConcat(cs, Copies(f, n), b);
      FillerHolds(h.literals, qs, b);
      assert forall i :: 0 <= i < n ==> Copies(f, n)[i] == f;
      if !FillersHarmless(h, qs, cs) {
        assert !SatClause(Copies(f, n)[0], b);
      }
    }
    hide Sat, Padded, FillerClause;
    if FillersHarmless(h, qs, cs) {
      forall a: Assignment ensures TrueIn(qs, full, a) <==> TrueIn(qs, cs, a) { SameTruth(qs, cs, full, a); }
    } else {
      forall a: Assignment ensures !TrueIn(qs, full, a) { NeverSatisfied(qs, full, a); }
    }
  }

  /** What the parser reads out of a rendered formula is that formula, up to padding. */
  lemma ReadBack(strict: P.Strictness, h: HeaderData, qs: seq<int>, cs: seq<seq<int>>)
    requires WellFormed(h, qs, cs) && P.Parse(strict, Formula(h, qs, cs)).0.Accepted? && FillersHarmless(h, qs, cs)
    ensures var calls := P.Parse(strict, Formula(h, qs, cs)).1;
            QbfTrue(PrefixOf(calls), MatrixOf(calls, [])) <==> QbfTrue(qs, cs)
  {
    hide P.Parse, Formula, WellFormed, FillersHarmless, TrueIn;
    ParseRendered(strict, h, qs, cs);
    PaddedFacts(h, qs, cs);
    var full := Padded(h, qs, cs);
    ClausesRead(full);
    QuantifiersRead(qs, ClauseCalls(full));
    PaddingExact(h, qs, cs);
    assert NonZero(qs) + [] == NonZero(qs);
    forall a: Assignment ensures TrueIn(NonZero(qs), full, a) <==> TrueIn(qs, full, a) { ZerosIgnored(qs, full, a); }
  }

  // ----- the values a run carries -----

  predicate LitMsgs(ms: seq<Msg>) { forall i :: 0 <= i < |ms| ==> ms[i].Literal? ==> IsLit(ms[i].lit) }

  predicate RoundValues(r: Round) {
    AllLits(r.user) && ClauseLiterals(r.clauses) && LitMsgs(r.stale) && Literals(r.units)
  }

  /** Every value came in through a call, within the range the calls admit. */
  ghost predicate Values(s: Sys) {
    && AllLits(s.hist.user) && ClauseLiterals(s.hist.clauses) && Literals(s.hist.open)
    && (forall i :: 0 <= i < |s.hist.rounds| ==> RoundValues(s.hist.rounds[i]))
    && LitMsgs(s.childPipe) && LitMsgs(s.childOut)
  }

  lemma ValuesCall(s: Sys, st: Step)
    requires Enabled(s, st) && Values(s)
    requires st.Quantify? || st.Add? || st.SendFork? || st.Assume? || st.SendSolve?
    ensures Values(Apply(s, st))
  {
    hide Sent, BlockOpen, SolvableBase;
  }

  lemma ValuesStep(s: Sys, st: Step)
    requires Enabled(s, st) && Values(s)
    ensures Values(Apply(s, st))
  {
    hide Enabled, Apply;
    if st.Quantify? || st.Add? || st.SendFork? || st.Assume? || st.SendSolve? {
      ValuesCall(s, st);
    } else {
      QuietHistory(s, st);
      PipeValues(s, st);
    }
  }

  lemma QuietHistory(s: Sys, st: Step)
    requires Enabled(s, st) && !st.Quantify? && !st.Add? && !st.SendFork? && !st.Assume? && !st.SendSolve?
    ensures var g, h := s.hist, Apply(s, st).hist;
            h.user == g.user && h.clauses == g.clauses && h.open == g.open && h.rounds == g.rounds
  {
    if Quiet(st) {
      hide Enabled, Apply;
      CountQuiet(s, st);
    } else {
      hide Deliver, BeginRead, Sent, BlockOpen, SolvableBase;
    }
  }

  lemma PipeValues(s: Sys, st: Step)
    requires Enabled(s, st) && LitMsgs(s.childPipe) && LitMsgs(s.childOut)
    requires !st.Assume? && !st.SendSolve?
    ensures LitMsgs(Apply(s, st).childPipe) && LitMsgs(Apply(s, st).childOut)
  {
    hide Deliver, BeginRead, Sent, BlockOpen, SolvableBase;
  }

  lemma {:induction false} ValuesRun(s: Sys, steps: seq<Step>)
    requires Legal(s, steps) && Values(s)
    ensures Values(Final(s, steps))
    decreases |steps|
  {
    hide Values, Enabled, Apply;
    if steps == [] {
    } else {
      ValuesStep(s, steps[0]);
      ValuesRun(Apply(s, steps[0]), steps[1..]);
    }
  }

  // ----- the whole chain -----

  /** What the user announced covers the round: the parser will accept its text. */
  predicate Covered(strict: P.Strictness, h: HeaderData, r: Round) {
    && 0 <= h.literals <= INT_MAX && 0 <= h.clauses <= INT_MAX
    && (strict == P.Relaxed ||
        (Bounded(h.literals, SentBy(h, r.user)) && ClausesBounded(h.literals, r.clauses + Units(r.units)) &&
         |r.clauses| + |r.units| <= h.clauses && (h.clauses > 0 || AllZero(SentBy(h, r.user)))))
  }

  /** The text of a round reads back as a formula that answers the round's question. */
  lemma RoundAnswers(strict: P.Strictness, h: HeaderData, r: Round)
    requires RoundValues(r) && Covered(strict, h, r)
    requires AssumptionsFit(r.user, SentBy(h, r.user), r.units)
    requires FillersHarmless(h, SentBy(h, r.user), r.clauses + Units(r.units))
    ensures var (outcome, calls) := P.Parse(strict, RoundFormula(h, r));
            && outcome.Accepted?
            && (QbfTrue(PrefixOf(calls), MatrixOf(calls, [])) <==> Asked(r.user, r.clauses, r.units))
  {
    var es, cs := SentBy(h, r.user), r.clauses + Units(r.units);
    EffectiveWeakens(r.user, h.prefixdepth);
    WeakenedLits(r.user, es);
    UnitLiterals(r.clauses, r.units);
    hide AssumptionsFit, FillersHarmless, P.Parse, Formula, Bounded, ClausesBounded, Effective, AllZero;
    ParseRendered(strict, h, es, cs);
    ReadBack(strict, h, es, cs);
    FitPreserves(r.user, es, r.clauses, r.units);
  }

  lemma WeakenedLits(qs: seq<int>, es: seq<int>)
    requires AllLits(qs) && Weakened(qs, es)
    ensures AllLits(es)
  {
  }

  lemma UnitLiterals(cs: seq<seq<int>>, us: seq<int>)
    requires ClauseLiterals(cs) && Literals(us)
    ensures ClauseLiterals(cs + Units(us)) && NoZeros(cs) && NoZero(us) && |Units(us)| == |us|
  {
  }

  /** The round as its child read it: with the unit clauses it found in its pipe. */
  function AsRead(r: Round): Round { r.(units := ReadUnits(Due(r))) }

  lemma {:induction false} ReadLits(ms: seq<Msg>)
    requires LitMsgs(ms)
    ensures Literals(ReadUnits(ms))
  {
    if ms == [] {
    } else {
      assert forall i :: 0 <= i < |ms[1..]| ==> ms[1..][i] == ms[i + 1];
      ReadLits(ms[1..]);
      if ms[0] == Solve {
        UnitsInCons(Solve, []);
        NilRight([Solve]);
      } else {
        FirstSolveCons(ms);
        UnitsInCons(ms[0], FirstSolve(ms[1..]));
      }
    }
  }

  lemma {:induction false} UnitMsgLits(us: seq<int>)
    requires Literals(us)
    ensures LitMsgs(ClauseMsgs(Units(us)))
  {
    hide ClauseMsgs, Units;
    NoUnits();
    NoMsgs();
    if us == [] {
    } else {
      UnitMsgLits(us[1..]);
      UnitsCons(us);
      UnitMsg(us[0]);
      ClauseMsgsCons([us[0]], Units(us[1..]));
    }
  }

  lemma AsReadValues(r: Round)
    requires RoundValues(r)
    ensures RoundValues(AsRead(r))
  {
    UnitMsgLits(r.units);
    hide ClauseMsgs, Units;
    ReadLits(Due(r));
    hide ReadUnits, Due;
  }

  lemma AsReadText(h: HeaderData, r: Round)
    requires !Stray(Due(r))
    ensures GivenText(h, r) == RoundFormula(h, AsRead(r))
  {
    TextWithout(h, SentBy(h, r.user), r.clauses, ReadUnits(Due(r)));
    hide TextWith, Formula;
  }

  /** What makes a round's text answer its question. */
  ghost predicate Answerable(strict: P.Strictness, h: HeaderData, r: Round) {
    && Covered(strict, h, r) && AssumptionsFit(r.user, SentBy(h, r.user), r.units)
    && FillersHarmless(h, SentBy(h, r.user), r.clauses + Units(r.units))
  }

  lemma AnswerableRound(strict: P.Strictness, h: HeaderData, r: Round)
    requires RoundValues(r) && Answerable(strict, h, r)
    ensures var (outcome, calls) := P.Parse(strict, RoundFormula(h, r));
            && outcome.Accepted?
            && (QbfTrue(PrefixOf(calls), MatrixOf(calls, [])) <==> Asked(r.user, r.clauses, r.units))
  {
    hide Covered, AssumptionsFit, FillersHarmless, P.Parse, RoundFormula, RoundValues;
    RoundAnswers(strict, h, r);
  }

  /** End to end: in every run in which every round began with an empty pipe, a solver that
      has read round i's input to its end holds a text that parses, and whose formula is
      true exactly if the user's formula, all clauses added so far, is true under round
      i's assumptions. */
  lemma SolverSeesTheQuestion(strict: P.Strictness, h: HeaderData, exitCodeMode: bool, callback: bool,
                              steps: seq<Step>, i: nat)
    requires Legal(Init(h, exitCodeMode, callback), steps)
    ensures var s := Final(Init(h, exitCodeMode, callback), steps);
            Clean(s.hist) && i < |s.kids| && i < |s.hist.rounds| && s.kids[i].proc.ended ==>
              var r := s.hist.rounds[i];
              Answerable(strict, h, r) ==>
                var (outcome, calls) := P.Parse(strict, s.kids[i].proc.given);
                && outcome.Accepted?
                && (QbfTrue(PrefixOf(calls), MatrixOf(calls, [])) <==> Asked(r.user, r.clauses, r.units))
  {
    hide Legal, Final, RoundFormula, P.Parse, Answerable, RoundValues;
    var init := Init(h, exitCodeMode, callback);
    var s := Final(init, steps);
    SessionRefinement(h, exitCodeMode, callback, steps, i);
    ValuesRun(init, steps);
    hide Init;
    if Clean(s.hist) && i < |s.kids| && i < |s.hist.rounds| && s.kids[i].proc.ended {
      var r := s.hist.rounds[i];
      if Answerable(strict, h, r) {
        AnswerableRound(strict, h, r);
      }
    }
  }

  // ----- the clauses a text reads back to -----

  lemma {:induction false} ClosingsConcat(a: seq<P.Call>, b: seq<P.Call>)
    ensures A.Closings(a + b) == A.Closings(a) + A.Closings(b)
    decreases |b|
  {
    if b == [] {
      NilRight(a);
    } else {
      assert (a + b)[..|a + b| - 1] == a + b[..|b| - 1];
      ClosingsConcat(a, b[..|b| - 1]);
    }
  }

  lemma {:induction false} NoClosings(calls: seq<P.Call>)
    requires P.AddLit(0) !in calls
    ensures A.Closings(calls) == 0
  {
    if calls == [] {
    } else {
      NoClosings(calls[..|calls| - 1]);
    }
  }

  lemma {:induction false} LiteralCalls(c: seq<int>)
    requires Literals(c)
    ensures P.AddLit(0) !in CallsOf(P.NoBlock, c)
  {
    if c == [] {
    } else {
      LiteralCalls(c[1..]);
    }
  }

  lemma {:induction false} ClauseClosings(cs: seq<seq<int>>)
    requires ClauseLiterals(cs)
    ensures A.Closings(ClauseCalls(cs)) == |cs|
  {
    hide A.Closings, CallsOf;
    if cs == [] {
      NoClosings([]);
    } else {
      var c, t := CallsOf(P.NoBlock, cs[0]), ClauseCalls(cs[1..]);
      LiteralCalls(cs[0]);
      NoClosings(c);
      OneClosing();
      ClosingsConcat(c, [P.AddLit(0)]);
      ClosingsConcat(c + [P.AddLit(0)], t);
      ClauseClosings(cs[1..]);
    }
  }

  lemma OneClosing()
    ensures A.Closings([P.AddLit(0)]) == 1
  {
    assert [P.AddLit(0)][..0] == [];
  }

  lemma {:induction false} QuantifierClosings(qs: seq<int>)
    ensures P.AddLit(0) !in QuantifierCalls(qs)
  {
    if qs == [] {
    } else {
      QuantifierClosings(qs[1..]);
    }
  }

  /** The text of a round closes the announced number of clauses, or those added and
      assumed if that is more. */
  lemma TextCloses(h: HeaderData, r: Round)
    requires RoundValues(r) && 0 <= h.literals <= INT_MAX && 0 <= h.clauses <= INT_MAX
    ensures var (outcome, calls) := P.Parse(P.Relaxed, RoundFormula(h, r));
            outcome.Accepted? && A.Closings(calls) == Max(h.clauses, |r.clauses| + |r.units|)
  {
    var es, cs := SentBy(h, r.user), r.clauses + Units(r.units);
    EffectiveWeakens(r.user, h.prefixdepth);
    WeakenedLits(r.user, es);
    UnitLiterals(r.clauses, r.units);
    hide P.Parse, Formula, Effective, A.Closings;
    ParseRendered(P.Relaxed, h, es, cs);
    PaddedFacts(h, es, cs);
    ClosingsConcat(QuantifierCalls(es), ClauseCalls(Padded(h, es, cs)));
    QuantifierClosings(es);
    NoClosings(QuantifierCalls(es));
    ClauseClosings(Padded(h, es, cs));
  }
}
