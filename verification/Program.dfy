/** A quapify run among the runs of the protocol: the calls it makes, the rounds they are
    asked in, and what the results say about the formula. */
module Program {
  import opened Messages
  import opened Render
  import opened Seqs
  import opened RoundTrip
  import opened Qbf
  import opened Meaning
  import opened Protocol
  import opened Isolation
  import opened EndToEnd
  import opened Returns
  import opened Answers
  import Accounting
  import Quapify
  import Rounds
  import P = Parser
  import L = Library

  // ----- the calls of a run -----

  function ToldIn(st: Step): seq<P.Call> {
    match st
    case Quantify(q) => [P.AddQuantifier(q)]
    case Add(l) => [P.AddLit(l)]
    case _ => []
  }

  /** The callbacks the library was called from. */
  function Told(steps: seq<Step>): seq<P.Call> {
    if steps == [] then [] else ToldIn(steps[0]) + Told(steps[1..])
  }

  function EnteredIn(st: Step): seq<int> {
    match st
    case Assume(l) => [l]
    case SendSolve => [0]
    case _ => []
  }

  /** The assumption list: what was assumed, a 0 for each solve. */
  function Entered(steps: seq<Step>): seq<int> {
    if steps == [] then [] else EnteredIn(steps[0]) + Entered(steps[1..])
  }

  /** The whole formula comes before the first round. */
  predicate ToldFirst(steps: seq<Step>) {
    steps == [] || ((steps[0].SendFork? ==> Told(steps[1..]) == []) && ToldFirst(steps[1..]))
  }

  // ----- rounds against the list -----

  /** One round for each set of the list, with its assumptions; and one more, not yet
      solved, while a set is being entered. */
  ghost predicate Listed(s: Sys, ls: seq<int>) {
    var sets := Quapify.Sets(ls);
    && (s.stage == Solving ==> s.lib.state == L.Working)
    && (if s.lib.state == L.InputAssumptions
        then |s.hist.rounds| == |sets| + 1 && s.hist.rounds[|sets|].units == Rounds.Pending(ls)
        else |s.hist.rounds| == |sets| && Rounds.Pending(ls) == [])
    && forall j :: 0 <= j < |sets| ==> s.hist.rounds[j].units == sets[j]
  }

  lemma ListedQuiet(s: Sys, st: Step, ls: seq<int>)
    requires Enabled(s, st) && Accounting.Quiet(st) && Listed(s, ls)
    ensures Listed(Apply(s, st), ls) && EnteredIn(st) == []
  {
    hide Enabled, Apply, Quapify.Sets, Rounds.Pending;
    Accounting.CountQuiet(s, st);
  }

  lemma ListedAssume(s: Sys, l: int, ls: seq<int>)
    requires Enabled(s, Assume(l)) && Listed(s, ls)
    ensures Listed(Apply(s, Assume(l)), ls + [l])
  {
    assert (ls + [l])[..|ls|] == ls;
    hide Quapify.Sets, Rounds.Pending;
    Rounds.ListSnoc(ls + [l]);
  }

  lemma ListedSolve(s: Sys, ls: seq<int>)
    requires Enabled(s, SendSolve) && Listed(s, ls)
    ensures Listed(Apply(s, SendSolve), ls + [0])
  {
    assert (ls + [0])[..|ls|] == ls;
    hide Quapify.Sets, Rounds.Pending;
    Rounds.ListSnoc(ls + [0]);
  }

  lemma ListedCall(s: Sys, st: Step, ls: seq<int>)
    requires Enabled(s, st) && Listed(s, ls) && !Accounting.Quiet(st) && !st.ResetAssumptions?
    requires !st.Assume? && !st.SendSolve?
    ensures Listed(Apply(s, st), ls) && EnteredIn(st) == []
  {
    hide Quapify.Sets, Rounds.Pending, Sent, BlockOpen, SolvableBase, Effective;
  }

  lemma ListedStep(s: Sys, st: Step, ls: seq<int>)
    requires Enabled(s, st) && Listed(s, ls) && !st.ResetAssumptions?
    ensures Listed(Apply(s, st), ls + EnteredIn(st))
  {
    hide Enabled, Apply, Listed;
    if Accounting.Quiet(st) {
      ListedQuiet(s, st, ls);
      NilRight(ls);
    } else if st.Assume? {
      ListedAssume(s, st.lit, ls);
    } else if st.SendSolve? {
      ListedSolve(s, ls);
    } else {
      ListedCall(s, st, ls);
      NilRight(ls);
    }
  }

  lemma {:induction false} ListedRun(s: Sys, steps: seq<Step>, ls: seq<int>)
    requires Legal(s, steps) && ByExitCode(steps) && Listed(s, ls)
    ensures Listed(Final(s, steps), ls + Entered(steps))
    decreases |steps|
  {
    hide Enabled, Apply, Listed;
    if steps == [] {
      NilRight(ls);
    } else {
      assert ByExitCode(steps[1..]);
      ListedStep(s, steps[0], ls);
      ListedRun(Apply(s, steps[0]), steps[1..], ls + EnteredIn(steps[0]));
      Assoc(ls, EnteredIn(steps[0]), Entered(steps[1..]));
    }
  }

  // ----- the formula -----

  lemma ToldStep(s: Sys, st: Step)
    requires Enabled(s, st)
    ensures var g, h := s.hist, Apply(s, st).hist;
            match st
            case Quantify(q) => h.user == g.user + [q] && h.clauses == g.clauses && h.open == g.open
            case Add(l) =>
              h.user == g.user && h.clauses == (if l == 0 then g.clauses + [g.open] else g.clauses)
              && h.open == if l == 0 then [] else g.open + [l]
            case _ => h.user == g.user && h.clauses == g.clauses && h.open == g.open
  {
    if Accounting.Quiet(st) {
      hide Enabled, Apply;
      Accounting.CountQuiet(s, st);
    } else {
      hide Sent, BlockOpen, SolvableBase;
    }
  }

  lemma FirstTold(st: Step, calls: seq<P.Call>, open: seq<int>)
    ensures PrefixOf(ToldIn(st) + calls) == (if st.Quantify? then [st.q] else []) + PrefixOf(calls)
    ensures MatrixOf(ToldIn(st) + calls, open) ==
            if !st.Add? then MatrixOf(calls, open)
            else if st.lit == 0 then [open] + MatrixOf(calls, []) else MatrixOf(calls, open + [st.lit])
  {
    NilLeft(calls);
    NilLeft(PrefixOf(calls));
    if st.Quantify? { Cons(P.AddQuantifier(st.q), calls); }
    if st.Add? { Cons(P.AddLit(st.lit), calls); }
  }

  /** What the run's history holds is what the library was told. */
  lemma {:induction false} ToldRun(s: Sys, steps: seq<Step>)
    requires Legal(s, steps)
    ensures var g, h := s.hist, Final(s, steps).hist;
            && h.user == g.user + PrefixOf(Told(steps))
            && h.clauses == g.clauses + MatrixOf(Told(steps), g.open)
    decreases |steps|
  {
    hide Enabled, Apply, PrefixOf, MatrixOf;
    NothingTold(s.hist.open);
    if steps == [] {
      NilRight(s.hist.user);
      NilRight(s.hist.clauses);
    } else {
      var st, g, rest := steps[0], s.hist, Told(steps[1..]);
      ToldStep(s, st);
      FirstTold(st, rest, g.open);
      ToldRun(Apply(s, st), steps[1..]);
      Assoc(g.user, if st.Quantify? then [st.q] else [], PrefixOf(rest));
      NilRight(g.user);
      Assoc(g.clauses, [g.open], MatrixOf(rest, []));
    }
  }

  lemma NothingTold(open: seq<int>)
    ensures PrefixOf([]) == [] && MatrixOf([], open) == []
  {
  }

  /** Every round is over the whole formula. */
  predicate OneFormula(h: Hist) {
    forall j :: 0 <= j < |h.rounds| ==> h.rounds[j].user == h.user && h.rounds[j].clauses == h.clauses
  }

  lemma OneFormulaStep(s: Sys, st: Step)
    requires Enabled(s, st) && OneFormula(s.hist) && (s.hist.rounds == [] || ToldIn(st) == [])
    ensures OneFormula(Apply(s, st).hist)
    ensures s.hist.rounds == [] && !st.SendFork? ==> Apply(s, st).hist.rounds == []
  {
    if Accounting.Quiet(st) {
      hide Enabled, Apply;
      Accounting.CountQuiet(s, st);
    } else {
      hide Sent, BlockOpen, SolvableBase;
    }
  }

  lemma {:induction false} OneFormulaRun(s: Sys, steps: seq<Step>)
    requires Legal(s, steps) && ToldFirst(steps) && OneFormula(s.hist) && (s.hist.rounds == [] || Told(steps) == [])
    ensures OneFormula(Final(s, steps).hist)
    decreases |steps|
  {
    hide Enabled, Apply, OneFormula, ToldIn;
    if steps == [] {
    } else {
      OneFormulaStep(s, steps[0]);
      OneFormulaRun(Apply(s, steps[0]), steps[1..]);
    }
  }

  // ----- the sets are answered -----

  /** The round that asks for qs and cs under us. */
  function Question(qs: seq<int>, cs: seq<seq<int>>, us: seq<int>): Round { Round([], qs, cs, [], us, true) }

  lemma AnswerableSame(strict: P.Strictness, h: HeaderData, r: Round)
    ensures Answerable(strict, h, r) <==> Answerable(strict, h, Question(r.user, r.clauses, r.units))
  {
    hide AssumptionsFit, FillersHarmless, Bounded, ClausesBounded, SentBy, AllZero;
  }

  lemma InitProgram(h: HeaderData, callback: bool)
    ensures var s := Init(h, true, callback);
            Listed(s, []) && OneFormula(s.hist) && s.hist.rounds == [] && s.hist.user == [] && s.hist.clauses == []
            && s.hist.open == []
  {
    Rounds.NothingListed();
    hide Quapify.Sets, Rounds.Pending;
  }

  /** Where a run of the calls of one formula has got to. */
  lemma ProgramRun(h: HeaderData, callback: bool, steps: seq<Step>)
    requires Legal(Init(h, true, callback), steps) && ByExitCode(steps) && ToldFirst(steps)
    ensures var s := Final(Init(h, true, callback), steps);
            && Listed(s, Entered(steps)) && OneFormula(s.hist)
            && s.hist.user == PrefixOf(Told(steps)) && s.hist.clauses == MatrixOf(Told(steps), [])
  {
    hide Legal, Final, Init, Listed, OneFormula, ByExitCode, ToldFirst, Entered, Told, PrefixOf, MatrixOf;
    var init := Init(h, true, callback);
    InitProgram(h, callback);
    ListedRun(init, steps, []);
    OneFormulaRun(init, steps);
    ToldRun(init, steps);
    NilLeft(Entered(steps));
    NilLeft(PrefixOf(Told(steps)));
    NilLeft(MatrixOf(Told(steps), []));
  }

  /** Over every run in exit-code mode that enters one formula and then a list of assumption
      sets: if quapi_solve only returns verdicts, of sound solvers, then the j-th is the
      answer for the j-th set. */
  lemma SetsAnswered(strict: P.Strictness, h: HeaderData, callback: bool, steps: seq<Step>)
    requires Legal(Init(h, true, callback), steps) && ByExitCode(steps) && ToldFirst(steps)
    ensures var s, results := Final(Init(h, true, callback), steps), Results(Init(h, true, callback), steps);
            var qs, cs, sets := PrefixOf(Told(steps)), MatrixOf(Told(steps), []), Quapify.Sets(Entered(steps));
            |results| <= |sets| &&
            (AllSound(strict, s.kids) && AllVerdicts(results) ==>
               forall j :: 0 <= j < |results| && Answerable(strict, h, Question(qs, cs, sets[j])) ==>
                 (results[j] == SAT <==> Asked(qs, cs, sets[j])))
  {
    hide Legal, Final, Init, Results, Entered, Told, PrefixOf, MatrixOf, Quapify.Sets, Rounds.Pending, Answerable;
    hide AllSound, AllVerdicts, Asked, ByExitCode, ToldFirst;
    ProgramRun(h, callback, steps);
    ResultsPair(h, callback, steps);
    ResultsAnswer(strict, h, callback, steps);
    var s, results := Final(Init(h, true, callback), steps), Results(Init(h, true, callback), steps);
    forall j | 0 <= j < |results|
      ensures var r := s.hist.rounds[j];
              Answerable(strict, h, r) <==> Answerable(strict, h, Question(r.user, r.clauses, r.units))
    {
      AnswerableSame(strict, h, s.hist.rounds[j]);
    }
  }
}
