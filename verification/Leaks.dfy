/** Runs in which one round's assumption reaches the solver of the next. */
module Leaks {
  import opened Messages
  import opened Sessions
  import opened Leftovers
  import opened Protocol
  import opened Isolation
  import opened Completion
  import opened Exactness
  import opened Seqs
  import EndToEnd
  import L = Library

  // ----- the steps of such a run -----

  lemma AddsClause(s: Sys)
    requires Idling(s, L.Input, [], [], 0) && s.hist.user == []
    ensures Enabled(s, Add(1)) && Enabled(Apply(s, Add(1)), Add(0))
    ensures var t := Apply(Apply(s, Add(1)), Add(0));
            Idling(t, L.InputLiterals, [[1]], [], 0) && t.waiting == s.waiting && t.kids == s.kids
  {
    NilLeft([1]);
    NilLeft([[1]]);
  }

  /** Between calls, after the first fork, one clause added. */
  predicate AfterFork(s: Sys, state: L.ApiState, stage: Stage) {
    && s.stage == stage && s.lib.state == state && s.hist.clauses == [[1]] && s.hist.open == [] && s.hist.alone
    && |s.hist.rounds| == 1 && s.hist.rounds[0].stale == [] && s.lib.writtenClauses >= 1
  }

  lemma SendsFork(s: Sys)
    requires Idling(s, L.InputLiterals, [[1]], [], 0) && s.kids == []
    ensures Enabled(s, SendFork)
    ensures var t := Apply(s, SendFork);
            && AfterFork(t, L.InputAssumptions, Awaiting) && t.hist.rounds[0].units == [] && !t.hist.rounds[0].solved
            && t.lib.writtenClauses == 1 && t.kids == [] && t.childPipe == [] && t.childOut == []
  {
    hide Sent;
  }

  lemma Assumes(s: Sys)
    requires AfterFork(s, L.InputAssumptions, Calling) && s.lib.header.clauses + s.lib.header.prefixdepth > 1
    requires s.hist.rounds[0].units == [] && !s.hist.rounds[0].solved
    requires s.lib.writtenClauses == 1 && s.childPipe == [] && s.childOut == []
    ensures Enabled(s, Assume(1))
    ensures var t := Apply(s, Assume(1));
            && AfterFork(t, L.InputAssumptions, Calling) && t.hist.rounds[0].units == [1] && t.kids == s.kids
            && t.childPipe == [] && t.childOut == [Literal(1), Literal(0)]
  {
    NilLeft([1]);
    NilLeft([Literal(1), Literal(0)]);
  }

  /** What is left over when the first round ends before its child has read anything. */
  function Left(abort: bool): seq<Msg> {
    if abort then [Literal(1), Literal(0)] + [Solve] else [Literal(1), Literal(0)]
  }

  /** The first round is over, its child dead, and nothing of it was read. */
  predicate Ended(s: Sys, abort: bool) {
    && s.stage == Calling && s.lib.state == L.InputLiterals && s.hist.clauses == [[1]] && s.hist.open == []
       && s.hist.alone
    && |s.hist.rounds| == 1 && |s.kids| == 1 && !s.kids[0].alive && s.childPipe + s.childOut == Left(abort)
  }

  lemma EndsByReset(s: Sys)
    requires AfterFork(s, L.InputAssumptions, Calling) && |s.kids| == 1
    requires s.childPipe == [] && s.childOut == [Literal(1), Literal(0)]
    ensures Enabled(s, ResetAssumptions) && Ended(Apply(s, ResetAssumptions), false)
  {
    NilLeft([Literal(1), Literal(0)]);
  }

  lemma EndsByAbort(s: Sys)
    requires AfterFork(s, L.InputAssumptions, Calling) && |s.kids| == 1
    requires s.childPipe == [] && s.childOut == [Literal(1), Literal(0)]
    ensures Enabled(s, SendSolve) && Enabled(Apply(s, SendSolve), HandleAbort)
    ensures Ended(Apply(Apply(s, SendSolve), HandleAbort), true)
  {
    NilLeft([Literal(1), Literal(0)]);
    NilRight([Literal(1), Literal(0)] + [Solve]);
  }

  /** The second round has begun behind what was left, and assumes nothing. */
  predicate Behind(s: Sys, abort: bool) {
    s.hist.alone && |s.hist.rounds| == 2 && s.hist.rounds[1].stale == Left(abort) && s.hist.rounds[1].units == []
  }

  lemma ForksAgain(s: Sys, abort: bool)
    requires Ended(s, abort)
    ensures Enabled(s, SendFork)
    ensures var t := Apply(s, SendFork);
            && Behind(t, abort) && t.stage == Awaiting && t.lib.state == L.InputAssumptions && |t.kids| == 1
  {
    hide Sent, Left;
  }

  lemma SolvesAgain(s: Sys, abort: bool)
    requires Behind(s, abort) && s.stage == Calling && s.lib.state == L.InputAssumptions
    requires |s.kids| == 2 && s.kids[1].alive
    ensures Enabled(s, SendSolve)
    ensures var t := Apply(s, SendSolve); Behind(t, abort) && Serving(t)
  {
    hide Left;
    var r := s.hist.rounds[1].(solved := true);
    var own := RoundMsgs(r.units, true);
    assert own[|own| - 1] == Solve;
    assert (r.stale + own)[|r.stale + own| - 1] == Solve;
    assert Due(r) == r.stale + own;
    hide Due, RoundMsgs;
  }

  // ----- the run -----

  /** From the added clause to the end of the first round. */
  lemma FirstRound(s: Sys, abort: bool) returns (steps: seq<Step>)
    requires Inv(s) && WaitsForKid(s) && Idling(s, L.InputLiterals, [[1]], [], 0) && s.kids == []
    requires s.lib.header.clauses + s.lib.header.prefixdepth > 1
    ensures Legal(s, steps)
    ensures var t := Final(s, steps); Inv(t) && WaitsForKid(t) && Ended(t, abort)
  {
    hide Inv, Enabled, Apply, Legal, Final, WaitsForKid, Left, Ended;
    SendsFork(s);
    StepKeeps(s, SendFork);
    WaitKeeps(s, SendFork);
    var t := Apply(s, SendFork);
    var wait := AwaitEnds(t, 1);
    WaitRuns(t, wait);
    var u := Final(t, wait);
    Assumes(u);
    StepKeeps(u, Assume(1));
    WaitKeeps(u, Assume(1));
    var v := Apply(u, Assume(1));
    var last := RoundEnds(v, abort);
    Prepend(u, Assume(1), last);
    last := [Assume(1)] + last;
    Append(t, wait, last);
    Prepend(s, SendFork, wait + last);
    steps := [SendFork] + (wait + last);
  }

  lemma RoundEnds(s: Sys, abort: bool) returns (steps: seq<Step>)
    requires AfterFork(s, L.InputAssumptions, Calling) && |s.kids| == 1 && Inv(s) && WaitsForKid(s)
    requires s.childPipe == [] && s.childOut == [Literal(1), Literal(0)]
    ensures Legal(s, steps)
    ensures var t := Final(s, steps); Inv(t) && WaitsForKid(t) && Ended(t, abort)
  {
    hide Inv, Enabled, Apply, Legal, Final, WaitsForKid, Left, Ended;
    if abort {
      EndsByAbort(s);
      StepKeeps(s, SendSolve);
      WaitKeeps(s, SendSolve);
      StepKeeps(Apply(s, SendSolve), HandleAbort);
      WaitKeeps(Apply(s, SendSolve), HandleAbort);
      steps := TwoSteps(s, SendSolve, HandleAbort);
    } else {
      EndsByReset(s);
      StepKeeps(s, ResetAssumptions);
      WaitKeeps(s, ResetAssumptions);
      Stay(Apply(s, ResetAssumptions));
      Prepend(s, ResetAssumptions, []);
      steps := [ResetAssumptions] + [];
    }
  }

  /** From there to the end of the second child's text. */
  lemma SecondRound(s: Sys, abort: bool) returns (steps: seq<Step>)
    requires Inv(s) && WaitsForKid(s) && Ended(s, abort)
    ensures Legal(s, steps)
    ensures var t := Final(s, steps);
            Behind(t, abort) && |t.kids| == 2 && t.kids[1].proc.ended && t.hist.rounds[1].solved
  {
    hide Inv, Enabled, Apply, Legal, Final, WaitsForKid, Left, GivenText;
    ForksAgain(s, abort);
    StepKeeps(s, SendFork);
    WaitKeeps(s, SendFork);
    var t := Apply(s, SendFork);
    var wait := AwaitEnds(t, 2);
    var u := Final(t, wait);
    SolvesAgain(u, abort);
    SolvedNow(u);
    StepKeeps(u, SendSolve);
    var more := ChildCompletes(Apply(u, SendSolve));
    Prepend(u, SendSolve, more);
    more := [SendSolve] + more;
    Append(t, wait, more);
    Prepend(s, SendFork, wait + more);
    steps := [SendFork] + (wait + more);
  }

  lemma SolvedNow(s: Sys)
    requires Enabled(s, SendSolve)
    ensures var t := Apply(s, SendSolve); t.hist.rounds != [] && t.hist.rounds[|t.hist.rounds| - 1].solved
  {
  }

  /** For every header with room for an assumption there are two runs in which the user
      adds one clause and assumes 1, and the round ends before its child has read
      anything: by a reset, or by an abort.  The next round assumes nothing, and yet its
      solver is not given that round's text. */
  lemma AssumptionLeaks(h: HeaderData, mode: bool, callback: bool, abort: bool) returns (steps: seq<Step>)
    requires h.clauses + h.prefixdepth > 1
    ensures Legal(Init(h, mode, callback), steps)
    ensures var t := Final(Init(h, mode, callback), steps);
            && t.hist.alone && |t.kids| == 2 && |t.hist.rounds| == 2
            && t.hist.rounds[1].units == [] && t.hist.rounds[1].solved && t.kids[1].proc.ended
            && t.kids[1].proc.given != RoundFormula(h, t.hist.rounds[1])
            && t.kids[1].proc.given == RoundFormula(h, t.hist.rounds[1].(units := [1]))
  {
    var i := Init(h, mode, callback);
    hide Inv, Init, Enabled, Apply, Legal, Final, Left, RoundFormula, GivenText, Due;
    steps := StartCompletes(h, mode, callback);
    var s := Final(i, steps);
    SameRounds(s);
    AddsClause(s);
    StepKeeps(s, Add(1));
    StepKeeps(Apply(s, Add(1)), Add(0));
    var two := TwoSteps(s, Add(1), Add(0));
    Append(i, steps, two);
    steps := steps + two;
    s := Final(i, steps);
    var first := FirstRound(s, abort);
    Append(i, steps, first);
    steps := steps + first;
    var second := SecondRound(Final(i, steps), abort);
    Append(i, steps, second);
    steps := steps + second;
    var r := Final(i, steps).hist.rounds[1];
    LeftDue(r, abort);
    IsolationExact(h, mode, callback, steps, 1);
    ChildText(h, mode, callback, steps, 1);
    EndToEnd.AsReadText(h, r);
  }

  /** The left-over assumption does harm: it is read as the second round's. */
  lemma LeftDue(r: Round, abort: bool)
    requires r.stale == Left(abort) && r.units == [] && r.solved
    ensures Solve in Due(r) && !Harmless(r) && !Stray(Due(r)) && EndToEnd.AsRead(r) == r.(units := [1])
  {
    var own := RoundMsgs([], true);
    assert own == [Solve];
    var ms := r.stale + own;
    assert ms[0] == Literal(1) && ms[1] == Literal(0) && ms[2] == Solve && ms[2..][0] == Solve;
    FirstPair(ms);
    UnitsInCons(Solve, []);
    NilRight([Solve]);
    NilRight([1]);
    assert ReadUnits(ms) == [1];
    FirstSolveCons(r.stale);
    assert FirstSolve(r.stale)[0] == Literal(1);
  }
}
