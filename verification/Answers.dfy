/** The library as a whole, when the seed waits for its children and reports their exit
    codes: what quapi_solve returns is the answer to the question of its round, if every
    solver answers the formula it reads. */
module Answers {
  import opened Messages
  import opened Render
  import opened Seqs
  import opened Qbf
  import opened Protocol
  import opened Isolation
  import opened Handover
  import opened Pairing
  import opened EndToEnd
  import opened Returns
  import P = Parser

  // ----- solvers -----

  const SAT := 10
  const UNSAT := 20

  predicate IsVerdict(code: int) { code == SAT || code == UNSAT }

  /** A child that exits with a verdict has read its input to the end, and the verdict is
      the truth of the formula it read, if it could read one. */
  ghost predicate Sound(strict: P.Strictness, k: Kid) {
    !k.alive && IsVerdict(k.status) ==>
      && k.proc.ended
      && var (outcome, calls) := P.Parse(strict, k.proc.given);
         outcome.Accepted? ==> (k.status == SAT <==> QbfTrue(PrefixOf(calls), MatrixOf(calls, [])))
  }

  ghost predicate AllSound(strict: P.Strictness, kids: seq<Kid>) {
    forall i :: 0 <= i < |kids| ==> Sound(strict, kids[i])
  }

  predicate AllVerdicts(results: seq<int>) { forall j :: 0 <= j < |results| ==> IsVerdict(results[j]) }

  // ----- verdicts keep the rounds apart -----

  lemma LastEnded(strict: P.Strictness, s: Sys, t: Sys, results: seq<int>)
    requires Frozen(s, t) && AllSound(strict, t.kids) && AllVerdicts(results) && FromKids(s.kids, results)
    requires |s.kids| == |results| > 0
    ensures s.kids[|s.kids| - 1].proc.ended
  {
    var n := |s.kids| - 1;
    hide P.Parse, QbfTrue;
    assert IsVerdict(results[n]) && Sound(strict, t.kids[n]);
  }

  lemma ForkAfterVerdict(strict: P.Strictness, s: Sys, t: Sys, results: seq<int>)
    requires Enabled(s, SendFork) && Inv(s) && Counts(s, |results|) && FromKids(s.kids, results) && s.hist.alone
    requires Frozen(s, t) && AllSound(strict, t.kids) && AllVerdicts(results)
    ensures RoundTaken(s)
  {
    hide Inv, Frozen, AllSound, AllVerdicts, FromKids, Sent, SolvableBase;
    KidsThere(s);
    assert |s.hist.rounds| == |results|;
    if s.kids != [] {
      LastEnded(strict, s, t, results);
      EndedHeard(s, |s.kids| - 1);
    }
  }

  lemma KidsThere(s: Sys)
    requires Inv(s) && s.stage != Awaiting
    ensures |s.kids| == |s.hist.rounds|
  {
    hide Forks, SeedSync, CallsSync, RoundsOk, KidsSync, PipeSync, ReportsSync;
  }

  lemma {:induction false} VerdictsKeepClean(strict: P.Strictness, s: Sys, steps: seq<Step>, results: seq<int>)
    requires Legal(s, steps) && ByExitCode(steps)
    requires Inv(s) && PairInv(s) && Counts(s, |results|) && FromKids(s.kids, results) && Clean(s.hist)
    requires AllSound(strict, Final(s, steps).kids) && AllVerdicts(results + Results(s, steps))
    ensures Clean(Final(s, steps).hist)
    decreases |steps|
  {
    hide Inv, PairInv, Enabled, Apply, Counts, FromKids, Returned, Clean, Frozen, AllSound, RoundTaken;
    if steps == [] {
    } else {
      var st, t := steps[0], Apply(s, steps[0]);
      assert ByExitCode(steps[1..]);
      Assoc(results, Returned(s, st), Results(t, steps[1..]));
      VerdictsBefore(results, Results(s, steps));
      if st.SendFork? {
        FrozenRun(s, steps);
        CleanAlone(s.hist);
        ForkAfterVerdict(strict, s, Final(s, steps), results);
      }
      CleanStep(s, st);
      CountsStep(s, st, |results|);
      ReturnedStep(s, st, results);
      StepKeeps(s, st);
      PairStep(s, st);
      VerdictsKeepClean(strict, t, steps[1..], results + Returned(s, st));
    }
  }

  lemma CleanAlone(h: Hist)
    requires Clean(h)
    ensures h.alone
  {
  }

  lemma VerdictsBefore(a: seq<int>, b: seq<int>)
    requires AllVerdicts(a + b)
    ensures AllVerdicts(a)
  {
    assert forall j :: 0 <= j < |a| ==> a[j] == (a + b)[j];
  }

  // ----- the library's contract -----

  /** Over every run in exit-code mode without resets in which quapi_solve has only
      returned verdicts, of sound solvers: no round ever finds anything in the child pipe,
      and every result is the answer to its round's question, all clauses added by then
      under the round's own assumptions. */
  lemma ResultsAnswer(strict: P.Strictness, h: HeaderData, callback: bool, steps: seq<Step>)
    requires Legal(Init(h, true, callback), steps) && ByExitCode(steps)
    ensures var s, results := Final(Init(h, true, callback), steps), Results(Init(h, true, callback), steps);
            |results| <= |s.kids| && |results| <= |s.hist.rounds| &&
            (AllSound(strict, s.kids) && AllVerdicts(results) ==>
               && Clean(s.hist)
               && forall j :: 0 <= j < |results| && Answerable(strict, h, s.hist.rounds[j]) ==>
                    var r := s.hist.rounds[j];
                    (results[j] == SAT <==> Asked(r.user, r.clauses, r.units)))
  {
    hide Inv, PairInv, Legal, Final, Init, Results, Counts, Clean, AllSound, Answerable, ByExitCode, RoundOpen, Asked;
    var init := Init(h, true, callback);
    InitReturns(h, callback);
    var s, results := Final(init, steps), Results(init, steps);
    ResultsPair(h, callback, steps);
    assert |results| <= |s.hist.rounds|;
    NilLeft(results);
    if AllSound(strict, s.kids) && AllVerdicts(results) {
      InitKeeps(h, true, callback);
      InitPairs(h, callback);
      VerdictsKeepClean(strict, init, steps, []);
      forall j | 0 <= j < |results| && Answerable(strict, h, s.hist.rounds[j])
        ensures var r := s.hist.rounds[j]; results[j] == SAT <==> Asked(r.user, r.clauses, r.units)
      {
        ResultAnswers(strict, h, callback, steps, j);
      }
    }
  }

  lemma ResultAnswers(strict: P.Strictness, h: HeaderData, callback: bool, steps: seq<Step>, j: nat)
    requires Legal(Init(h, true, callback), steps)
    requires var s := Final(Init(h, true, callback), steps);
             && Clean(s.hist) && AllSound(strict, s.kids) && j < |s.kids| && j < |s.hist.rounds|
             && !s.kids[j].alive && IsVerdict(s.kids[j].status) && Answerable(strict, h, s.hist.rounds[j])
    ensures var s := Final(Init(h, true, callback), steps);
            var r := s.hist.rounds[j];
            s.kids[j].status == SAT <==> Asked(r.user, r.clauses, r.units)
  {
    hide Legal, Final, Init, Clean, Answerable, P.Parse, QbfTrue, Asked;
    var s := Final(Init(h, true, callback), steps);
    assert Sound(strict, s.kids[j]);
    SolverSeesTheQuestion(strict, h, true, callback, steps, j);
  }
}
