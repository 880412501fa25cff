/** What a solver makes of the stray 0 that an earlier child, ended in the middle of a unit
    clause, leaves in front of the unit clauses. */
module Strays {
  import opened Numerals
  import opened Messages
  import opened Transducer
  import opened Render
  import opened Seqs
  import opened Leftovers
  import opened RoundTrip
  import opened Qbf
  import opened Meaning
  import opened Protocol
  import opened Isolation
  import opened Accounting
  import opened EndToEnd
  import opened Exactness
  import A = Acceptance
  import P = Parser

  // ----- the number it is read in -----

  /** The next clause begins with a digit, which the 0 only leads. */
  predicate Glued(ds: seq<seq<int>>) { ds != [] && (ds[0] == [] || ds[0][0] > 0) }

  /** The next clause begins with a minus, which may not follow a number. */
  predicate Clashing(ds: seq<seq<int>>) { ds != [] && ds[0] != [] && ds[0][0] < 0 }

  lemma {:induction false} ZeroLeads(d: string)
    requires AllDigits(d)
    ensures AllDigits("0" + d) && Value("0" + d) == Value(d)
  {
    if d == "" {
      assert "0" + d == "0" && "0"[..0] == "";
    } else {
      var p := d[..|d| - 1];
      ZeroLeads(p);
      assert ("0" + d)[..|d|] == "0" + p;
    }
  }

  lemma DigitsToken(strict: P.Strictness, d: string, c: char, r: string)
    requires AllDigits(d) && d != "" && (c == ' ' || c == '\n') && Value(d) <= INT_MAX
    ensures P.NextToken(strict, d + ([c] + r)) == P.Number(Value(d), r)
  {
    var s := d + ([c] + r);
    RunOfDigits(d, [c] + r);
    assert s[..|d|] == d && s[|d|..] == [c] + r && s[0] == d[0];
    hide P.Run, Value, P.NextToken;
    assert ([c] + r)[1..] == r;
    NextDigits(strict, s);
  }

  lemma LeadingZero(strict: P.Strictness, d: string, c: char, r: string)
    requires AllDigits(d) && d != "" && (c == ' ' || c == '\n') && Value(d) <= INT_MAX
    ensures P.NextToken(strict, "0" + (d + ([c] + r))) == P.NextToken(strict, d + ([c] + r)) == P.Number(Value(d), r)
  {
    hide *;
    ZeroLeads(d);
    DigitsToken(strict, d, c, r);
    DigitsToken(strict, "0" + d, c, r);
    Assoc("0", d, [c] + r);
  }

  lemma ZeroRefused(strict: P.Strictness, t: string)
    requires t != "" && t[0] == '-'
    ensures P.NextToken(strict, "0" + t) == P.Bad(P.SpaceAfterLiteral)
  {
    var s := "0" + t;
    RunOfDigits("0", t);
    assert s[..1] == "0" && s[1..] == t && s[0] == '0';
    hide P.Run, P.NextToken;
    assert Value("0") == 0 by { assert "0"[..0] == ""; }
    NextDigits(strict, s);
  }

  lemma ZeroLast(strict: P.Strictness)
    ensures P.NextToken(strict, "0") ==
            if strict == P.Pedantic then P.Bad(P.EofAfterZero) else P.Number(0, "")
  {
    RunOfDigits("0", "");
    NilRight("0");
    assert "0"[..1] == "0" && "0"[1..] == "";
    hide P.Run, P.NextToken;
    assert Value("0") == 0 by { assert "0"[..0] == ""; }
    NextDigits(strict, "0");
  }

  lemma FirstNumber(ds: seq<seq<int>>) returns (t: string)
    requires ClauseLiterals(ds) && ds != []
    ensures ds[0] == [] ==> Lines(ds) == Dec(0) + (['\n'] + t)
    ensures ds[0] != [] && ds[0][0] > 0 ==> Lines(ds) == Dec(ds[0][0]) + ([' '] + t)
    ensures ds[0] != [] && ds[0][0] < 0 ==> Lines(ds) != "" && Lines(ds)[0] == '-'
  {
    var c, rest := ds[0], Lines(ds[1..]);
    SomeLine(ds);
    NoMsgs();
    if c == [] {
      t := rest;
      assert Dec(0) == "0";
      assert "0\n" + rest == "0" + (['\n'] + rest);
      hide Lines, Line, Dec;
    } else {
      HeadTail(c);
      LineCons(c[0], c[1..]);
      t := Line(c[1..]) + rest;
      hide Lines, Line, Dec;
      Assoc(Text(c[0]), " ", Line(c[1..]));
      Assoc(Text(c[0]), " " + Line(c[1..]), rest);
      Assoc(" ", Line(c[1..]), rest);
    }
  }

  lemma GluedToken(strict: P.Strictness, ds: seq<seq<int>>)
    requires ClauseLiterals(ds) && Glued(ds)
    ensures P.NextToken(strict, "0" + Lines(ds)) == P.NextToken(strict, Lines(ds))
    ensures P.NextToken(strict, Lines(ds)).Number?
  {
    var n: nat := if ds[0] == [] then 0 else ds[0][0];
    assert n <= INT_MAX;
    hide Lines, Dec, P.NextToken, Value;
    var t := FirstNumber(ds);
    DecRoundTrip(n);
    LeadingZero(strict, Dec(n), if ds[0] == [] then '\n' else ' ', t);
  }

  // ----- the whole text -----

  lemma StrayBody(strict: P.Strictness, vars: nat, clauses: nat, ds: seq<seq<int>>, st: P.State)
    requires ClauseLiterals(ds) && st.block == P.NoBlock && st.lit == 0
    ensures var b := P.Body(strict, vars, clauses, "0" + Lines(ds), st);
            && (Glued(ds) ==> b == P.Body(strict, vars, clauses, Lines(ds), st))
            && (Clashing(ds) ==> b == (P.Rejected(P.SpaceAfterLiteral), st.calls))
            && (ds == [] && strict == P.Relaxed ==> b == (P.Accepted, st.calls + [P.AddLit(0)]))
            && (ds == [] && strict != P.Relaxed && st.parsed == clauses ==> b.0.Rejected?)
  {
    hide Lines, P.NextToken;
    if Glued(ds) {
      GluedToken(strict, ds);
    } else if ds == [] {
      NoMsgs();
      NilRight("0");
      ZeroLast(strict);
      var n := P.OnNumber(strict, vars, clauses, st, 0);
      if n.Next? { BodyEnd(strict, vars, clauses, n.state); }
    } else {
      var t := FirstNumber(ds);
      ZeroRefused(strict, Lines(ds));
    }
  }

  lemma NothingOwed(h: HeaderData, qs: seq<int>, n: nat, us: seq<int>)
    requires StillOwed(h, qs, n, us) == []
    ensures us == [] && n >= h.clauses
  {
    hide FillerClause;
    assert |Units(us)| == |us|;
    assert Missing(h, n) == 0 by {
      assert |Copies(FillerClause(h.literals, qs), Missing(h, n + |us|))| == Missing(h, n + |us|);
    }
  }

  /** The stray 0, exactly: where a number follows that begins with a digit the text parses
      as it would without it; a minus after it is refused; and with nothing behind it, it
      closes an empty clause, which only relaxed parsing lets pass. */
  lemma ParseStray(strict: P.Strictness, h: HeaderData, qs: seq<int>, cs: seq<seq<int>>, us: seq<int>)
    requires WellFormed(h, qs, cs) && Literals(us)
    ensures var ds := StillOwed(h, qs, |cs|, us);
            var p := P.Parse(strict, TextWith(h, qs, cs, true, us));
            var q := P.Parse(strict, TextWith(h, qs, cs, false, us));
            && (Glued(ds) ==> (p.0.Accepted? <==> q.0.Accepted?) && (q.0.Accepted? ==> p == q))
            && (Clashing(ds) ==> p.0.Rejected?)
            && (Clashing(ds) && BaseFits(strict, h, qs, cs) ==> p.0 == P.Rejected(P.SpaceAfterLiteral))
            && (ds == [] ==> (p.0.Accepted? <==> strict == P.Relaxed))
            && (ds == [] && p.0.Accepted? ==> q.0.Accepted? && p.1 == q.1 + [P.AddLit(0)])
  {
    hide P.Parse, P.Body, TextWith, HeaderLine, PrefixText, Blocks, Lines, QuantifierCalls, ClauseCalls;
    var ds := StillOwed(h, qs, |cs|, us);
    var st := P.State(P.NoBlock, |cs|, 0, QuantifierCalls(qs) + ClauseCalls(cs));
    RestLiterals(h, qs, |cs|, us);
    if ds == [] { NothingOwed(h, qs, |cs|, us); }
    hide StillOwed;
    TextRest(h, qs, cs, true, us);
    TextRest(h, qs, cs, false, us);
    NilLeft(Lines(ds));
    ParseThen(strict, h, qs, cs, "0" + Lines(ds));
    ParseThen(strict, h, qs, cs, Lines(ds));
    StrayBody(strict, h.literals, h.clauses, ds, st);
    if ds == [] {
      NoMsgs();
      BodyEnd(strict, h.literals, h.clauses, st);
    }
  }

  // ----- what the solver is asked -----

  lemma {:induction false} EmptyClauseRead(cs: seq<seq<int>>)
    ensures ClauseCalls(cs + [[]]) == ClauseCalls(cs) + [P.AddLit(0)]
  {
    if cs == [] {
      NilLeft<seq<int>>([[]]);
      Cons<seq<int>>([], []);
    } else {
      TailConcat(cs, [[]]);
      EmptyClauseRead(cs[1..]);
      hide ClauseCalls, CallsOf;
      Assoc(CallsOf(P.NoBlock, cs[0]) + [P.AddLit(0)], ClauseCalls(cs[1..]), [P.AddLit(0)]);
    }
  }

  lemma EmptyClauseFalse(qs: seq<int>, cs: seq<seq<int>>)
    ensures !QbfTrue(qs, cs + [[]])
  {
    forall b: Assignment ensures !Sat(cs + [[]], b) { assert !SatClause((cs + [[]])[|cs|], b); }
    hide Sat;
    forall a: Assignment ensures !TrueIn(qs, cs + [[]], a) { NeverSatisfied(qs, cs + [[]], a); }
  }

  /** A closed empty clause at the end of an accepted text makes the formula false. */
  lemma ClosedEmpty(h: HeaderData, qs: seq<int>, cs: seq<seq<int>>)
    requires WellFormed(h, qs, cs)
    ensures var calls := FormulaCalls(h, qs, cs) + [P.AddLit(0)]; !QbfTrue(PrefixOf(calls), MatrixOf(calls, []))
  {
    hide WellFormed, Padded, QbfTrue, PrefixOf, MatrixOf, QuantifierCalls, ClauseCalls, Literals;
    PaddedFacts(h, qs, cs);
    var full := Padded(h, qs, cs);
    EmptyClauseRead(full);
    Assoc(QuantifierCalls(qs), ClauseCalls(full), [P.AddLit(0)]);
    QuantifiersRead(qs, ClauseCalls(full + [[]]));
    EmptyLiterals(full);
    ClausesRead(full + [[]]);
    EmptyClauseFalse(NonZero(qs) + PrefixOf(ClauseCalls(full + [[]])), full);
  }

  lemma EmptyLiterals(cs: seq<seq<int>>)
    requires ClauseLiterals(cs)
    ensures ClauseLiterals(cs + [[]])
  {
  }

  /** The unit clauses and fillers of a round as its child read it. */
  function OwedBy(h: HeaderData, r: Round): seq<seq<int>> {
    StillOwed(h, SentBy(h, r.user), |r.clauses|, ReadUnits(Due(r)))
  }

  /** What a text does with its round's question: it is refused, it asks an empty clause
      too many, or it asks the question under the assumptions its child read. */
  ghost predicate Asks(strict: P.Strictness, h: HeaderData, r: Round, text: string) {
    var (outcome, calls) := P.Parse(strict, text);
    var truth := QbfTrue(PrefixOf(calls), MatrixOf(calls, []));
    if Stray(Due(r)) && Clashing(OwedBy(h, r)) then outcome == P.Rejected(P.SpaceAfterLiteral)
    else if Stray(Due(r)) && OwedBy(h, r) == [] then
      (outcome.Accepted? <==> strict == P.Relaxed) && (outcome.Accepted? ==> !truth)
    else outcome.Accepted? && (truth <==> Asked(r.user, r.clauses, ReadUnits(Due(r))))
  }

  lemma OwedCases(h: HeaderData, r: Round)
    requires RoundValues(r)
    ensures Glued(OwedBy(h, r)) || Clashing(OwedBy(h, r)) || OwedBy(h, r) == []
    ensures Literals(ReadUnits(Due(r))) && AllLits(SentBy(h, r.user)) && ClauseLiterals(r.clauses)
  {
    AsReadValues(r);
    EffectiveLits(h, r.user);
    hide StillOwed, ReadUnits, Due, SentBy;
    RestLiterals(h, SentBy(h, r.user), |r.clauses|, ReadUnits(Due(r)));
  }

  lemma CoveredBase(strict: P.Strictness, h: HeaderData, r: Round)
    requires Covered(strict, h, r) && AllLits(SentBy(h, r.user)) && ClauseLiterals(r.clauses) && Literals(r.units)
    ensures WellFormed(h, SentBy(h, r.user), r.clauses) && BaseFits(strict, h, SentBy(h, r.user), r.clauses)
    ensures WellFormed(h, SentBy(h, r.user), r.clauses + Units(r.units))
  {
    var all := r.clauses + Units(r.units);
    UnitLiterals(r.clauses, r.units);
    hide AllZero, Bounded, SentBy, Units, Literals;
    assert forall i :: 0 <= i < |r.clauses| ==> all[i] == r.clauses[i];
  }

  /** The text of a child that finds a stray 0. */
  lemma StrayAsks(strict: P.Strictness, h: HeaderData, r: Round)
    requires RoundValues(r) && Answerable(strict, h, AsRead(r)) && Stray(Due(r))
    ensures Asks(strict, h, r, GivenText(h, r))
  {
    OwedCases(h, r);
    AsReadValues(r);
    hide RoundValues, Due, ReadUnits, StillOwed, TextWith, P.Parse, SentBy, QbfTrue, PrefixOf, MatrixOf, Stray;
    var es, us := SentBy(h, r.user), ReadUnits(Due(r));
    var all := r.clauses + Units(us);
    CoveredBase(strict, h, AsRead(r));
    TextWithout(h, es, r.clauses, us);
    ParseStray(strict, h, es, r.clauses, us);
    AnswerableRound(strict, h, AsRead(r));
    ParseRendered(strict, h, es, all);
    ClosedEmpty(h, es, all);
    hide WellFormed, BaseFits, Answerable, FormulaCalls, Asked;
  }

  lemma GivenAsks(strict: P.Strictness, h: HeaderData, r: Round)
    requires RoundValues(r) && Answerable(strict, h, AsRead(r))
    ensures Asks(strict, h, r, GivenText(h, r))
  {
    if Stray(Due(r)) {
      hide Stray, Due, Answerable, RoundValues, Asks, GivenText;
      StrayAsks(strict, h, r);
    } else {
      hide Stray, Due, Answerable, RoundValues, GivenText, RoundFormula, OwedBy, P.Parse, ReadUnits;
      AsReadText(h, r);
      AsReadValues(r);
      AnswerableRound(strict, h, AsRead(r));
    }
  }

  /** End to end, with all that earlier rounds can leave: in every run in which no round
      began with an earlier child left to read from the pipe, a solver that has read its
      input to its end holds a text that asks the user's question under the assumptions
      found in the pipe; except that a stray 0 can make the text unacceptable, or, as an
      empty clause, false. */
  lemma SolverAnswers(strict: P.Strictness, h: HeaderData, exitCodeMode: bool, callback: bool, steps: seq<Step>, i: nat)
    requires Legal(Init(h, exitCodeMode, callback), steps)
    ensures var s := Final(Init(h, exitCodeMode, callback), steps);
            s.hist.alone && i < |s.kids| && i < |s.hist.rounds| && s.kids[i].proc.ended ==>
              var r := s.hist.rounds[i];
              Answerable(strict, h, AsRead(r)) ==> Asks(strict, h, r, s.kids[i].proc.given)
  {
    hide Legal, Final, GivenText, P.Parse, Answerable, RoundValues, Asks, AsRead, Due;
    var init := Init(h, exitCodeMode, callback);
    var s := Final(init, steps);
    ChildText(h, exitCodeMode, callback, steps, i);
    ValuesRun(init, steps);
    hide Init;
    if s.hist.alone && i < |s.kids| && i < |s.hist.rounds| && s.kids[i].proc.ended {
      if Answerable(strict, h, AsRead(s.hist.rounds[i])) { GivenAsks(strict, h, s.hist.rounds[i]); }
    }
  }

  // ----- the clauses it reads back to -----

  /** How many clauses a text closes that its child did not count; -1 if it is refused. */
  function Uncounted(h: HeaderData, r: Round): int {
    if !Stray(Due(r)) || Glued(OwedBy(h, r)) then 0 else if OwedBy(h, r) == [] then 1 else -1
  }

  lemma GivenCloses(h: HeaderData, r: Round)
    requires RoundValues(r) && 0 <= h.literals <= INT_MAX && 0 <= h.clauses <= INT_MAX
    ensures var (outcome, calls) := P.Parse(P.Relaxed, GivenText(h, r));
            && (outcome.Accepted? <==> Uncounted(h, r) >= 0)
            && (outcome.Accepted? ==>
                  A.Closings(calls) == Max(h.clauses, |r.clauses| + |ReadUnits(Due(r))|) + Uncounted(h, r))
  {
    OwedCases(h, r);
    AsReadValues(r);
    TextCloses(h, AsRead(r));
    hide RoundValues, Due, ReadUnits, StillOwed, TextWith, P.Parse, SentBy, A.Closings, Stray;
    var es, us := SentBy(h, r.user), ReadUnits(Due(r));
    TextWithout(h, es, r.clauses, us);
    if Stray(Due(r)) {
      ParseStray(P.Relaxed, h, es, r.clauses, us);
      ClosingsConcat(P.Parse(P.Relaxed, TextWith(h, es, r.clauses, false, us)).1, [P.AddLit(0)]);
      OneClosing();
    }
  }

  /** Over every run in which no round began with an earlier child left to read from the
      pipe: the text a child's solver was given, if it is accepted at all, reads back to
      exactly as many closed clauses as the child counted, the announced number or more,
      and one more for a stray 0 with nothing behind it. */
  lemma CountedClausesAreRead(h: HeaderData, exitCodeMode: bool, callback: bool, steps: seq<Step>, i: nat)
    requires Legal(Init(h, exitCodeMode, callback), steps) && 0 <= h.literals <= INT_MAX && 0 <= h.clauses <= INT_MAX
    ensures var s := Final(Init(h, exitCodeMode, callback), steps);
            s.hist.alone && i < |s.kids| && i < |s.hist.rounds| && s.kids[i].proc.ended ==>
              var (p, r) := (s.kids[i].proc, s.hist.rounds[i]);
              var (outcome, calls) := P.Parse(P.Relaxed, p.given);
              && p.rt.written == Max(h.clauses, |r.clauses| + |ReadUnits(Due(r))|)
              && (outcome.Accepted? <==> Uncounted(h, r) >= 0)
              && (outcome.Accepted? ==> A.Closings(calls) == p.rt.written + Uncounted(h, r))
  {
    hide Legal, Final, GivenText, P.Parse, RoundValues, Due, ReadUnits, A.Closings, Uncounted;
    var init := Init(h, exitCodeMode, callback);
    var s := Final(init, steps);
    ChildText(h, exitCodeMode, callback, steps, i);
    RoundEmits(h, exitCodeMode, callback, steps, i);
    ValuesRun(init, steps);
    hide Init;
    if s.hist.alone && i < |s.kids| && i < |s.hist.rounds| && s.kids[i].proc.ended {
      GivenCloses(h, s.hist.rounds[i]);
    }
  }
}
