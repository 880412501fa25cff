/** What quapi_solve returns, round by round, when the seed waits for its children and
    reports their exit codes. */
module Returns {
  import opened Messages
  import opened PullMachine
  import opened Render
  import opened Protocol
  import opened Isolation
  import opened Accounting
  import opened Pairing
  import opened Seqs
  import L = Library

  // ----- the results of a run -----

  /** What quapi_solve returns in this step, if it does. */
  function Returned(s: Sys, st: Step): seq<int>
    requires Enabled(s, st)
  {
    match st
    case HandleChild => if L.EndsWait(s.inbox[0], s.callback) then [L.ResultOf(s.inbox[0])] else []
    case HandleAbort => [0]
    case HandleOutput(v) => [v]
    case _ => []
  }

  function Results(s: Sys, steps: seq<Step>): seq<int>
    requires Legal(s, steps)
    decreases |steps|
  {
    if steps == [] then [] else Returned(s, steps[0]) + Results(Apply(s, steps[0]), steps[1..])
  }

  /** Every round goes on until quapi_solve returns, with an exit code or by an abort. */
  predicate ByExitCode(steps: seq<Step>) {
    forall i :: 0 <= i < |steps| ==> !steps[i].ResetAssumptions? && !steps[i].HandleOutput?
  }

  // ----- rounds and results are in step -----

  predicate RoundOpen(s: Sys) { s.lib.state == L.InputAssumptions || s.lib.state == L.Working }

  /** n results so far: one for every round that is over. */
  predicate Counts(s: Sys, n: nat) {
    && |s.hist.rounds| == (if RoundOpen(s) then n + 1 else n)
    && (s.stage == Solving ==> s.lib.state == L.Working)
    && (s.lib.state == L.Working ==> s.hist.rounds[|s.hist.rounds| - 1].solved)
  }

  lemma CountsCall(s: Sys, st: Step, n: nat)
    requires Enabled(s, st) && Counts(s, n) && !Quiet(st) && !st.ResetAssumptions?
    ensures Counts(Apply(s, st), n + |Returned(s, st)|)
  {
    hide Deliver, BeginRead, Sent, BlockOpen, SolvableBase;
  }

  lemma CountsStep(s: Sys, st: Step, n: nat)
    requires Enabled(s, st) && Counts(s, n) && !st.ResetAssumptions?
    ensures Counts(Apply(s, st), n + |Returned(s, st)|)
  {
    if Quiet(st) {
      hide Enabled, Apply;
      CountQuiet(s, st);
    } else {
      hide Enabled, Apply, Counts, Returned;
      CountsCall(s, st, n);
    }
  }

  // ----- what is over stays as it is -----

  /** Dead children and solved rounds no longer change. */
  predicate Frozen(s: Sys, t: Sys) {
    && |s.kids| <= |t.kids| && |s.hist.rounds| <= |t.hist.rounds|
    && (forall i :: 0 <= i < |s.kids| && !s.kids[i].alive ==> t.kids[i] == s.kids[i])
    && (forall i :: 0 <= i < |s.hist.rounds| && s.hist.rounds[i].solved ==> t.hist.rounds[i] == s.hist.rounds[i])
  }

  lemma FrozenQuiet(s: Sys, st: Step)
    requires Enabled(s, st) && Quiet(st)
    ensures Frozen(s, Apply(s, st))
  {
    CountQuiet(s, st);
    hide Deliver, BeginRead, Sent, BlockOpen, SolvableBase;
  }

  lemma FrozenCall(s: Sys, st: Step)
    requires Enabled(s, st) && !Quiet(st)
    requires st.Assume? || st.SendSolve? ==> !s.hist.rounds[|s.hist.rounds| - 1].solved
    ensures Frozen(s, Apply(s, st))
  {
    hide Deliver, BeginRead, Sent, BlockOpen, SolvableBase;
  }

  lemma Unfinished(s: Sys, st: Step)
    requires Enabled(s, st) && (st.Assume? || st.SendSolve?) && Inv(s)
    ensures s.hist.rounds != [] && !s.hist.rounds[|s.hist.rounds| - 1].solved
  {
    hide Forks, SeedSync, CallsSync, RoundsOk, KidsSync, PipeSync, ReportsSync, Sent;
  }

  lemma FrozenStep(s: Sys, st: Step)
    requires Enabled(s, st) && Inv(s)
    ensures Frozen(s, Apply(s, st))
  {
    hide Inv, Enabled, Apply, Frozen;
    if Quiet(st) {
      FrozenQuiet(s, st);
    } else {
      if st.Assume? || st.SendSolve? { Unfinished(s, st); }
      FrozenCall(s, st);
    }
  }

  lemma {:induction false} FrozenRun(s: Sys, steps: seq<Step>)
    requires Legal(s, steps) && Inv(s)
    ensures Frozen(s, Final(s, steps))
    decreases |steps|
  {
    hide Inv, Enabled, Apply;
    if steps == [] {
    } else {
      FrozenStep(s, steps[0]);
      StepKeeps(s, steps[0]);
      FrozenRun(Apply(s, steps[0]), steps[1..]);
    }
  }

  // ----- whose result it is -----

  /** The j-th result, if it is one of a solver, is the exit status of the j-th child. */
  predicate FromKids(kids: seq<Kid>, results: seq<int>) {
    && |results| <= |kids|
    && forall j :: 0 <= j < |results| && results[j] != 0 ==> !kids[j].alive && results[j] == kids[j].status
  }

  lemma FromKidsLater(s: Sys, t: Sys, results: seq<int>)
    requires Frozen(s, t) && FromKids(s.kids, results)
    ensures FromKids(t.kids, results)
  {
  }

  lemma FromKidsNext(kids: seq<Kid>, results: seq<int>, r: int)
    requires FromKids(kids, results) && |kids| == |results| + 1
    requires r != 0 ==> !kids[|results|].alive && r == kids[|results|].status
    ensures FromKids(kids, results + [r])
  {
  }

  lemma SolvingCounts(s: Sys, n: nat)
    requires Inv(s) && s.stage == Solving && Counts(s, n)
    ensures |s.kids| == n + 1
  {
    hide Forks, SeedSync, CallsSync, RoundsOk, KidsSync, PipeSync, ReportsSync;
  }

  lemma ReturnedStep(s: Sys, st: Step, results: seq<int>)
    requires Enabled(s, st) && !st.ResetAssumptions? && !st.HandleOutput?
    requires Inv(s) && PairInv(s) && Counts(s, |results|) && FromKids(s.kids, results)
    ensures FromKids(Apply(s, st).kids, results + Returned(s, st))
  {
    hide Inv, PairInv, Apply, Counts, FromKids, Frozen, Enabled, Orderly;
    FrozenStep(s, st);
    var t := Apply(s, st);
    if Returned(s, st) == [] {
      NilRight(results);
      FromKidsLater(s, t, results);
    } else {
      ReturnFacts(s, st);
      SolvingCounts(s, |results|);
      FromKidsNext(s.kids, results, Returned(s, st)[0]);
      FromKidsLater(s, t, results + Returned(s, st));
    }
  }

  lemma ReturnFacts(s: Sys, st: Step)
    requires Enabled(s, st) && !st.HandleOutput? && Returned(s, st) != [] && Inv(s) && PairInv(s)
    ensures s.stage == Solving && |Returned(s, st)| == 1 && s.kids != []
    ensures Returned(s, st)[0] != 0 ==>
              !s.kids[|s.kids| - 1].alive && Returned(s, st)[0] == s.kids[|s.kids| - 1].status
  {
    hide Inv, PairInv, Orderly;
    InvOrderly(s);
    PidNow(s);
    assert s.stage == Solving;
    if st.HandleChild? { HandleChildPairs(s); }
  }

  lemma {:induction false} ResultsRun(s: Sys, steps: seq<Step>, results: seq<int>)
    requires Legal(s, steps) && ByExitCode(steps)
    requires Inv(s) && PairInv(s) && Counts(s, |results|) && FromKids(s.kids, results)
    ensures var t, all := Final(s, steps), results + Results(s, steps);
            Counts(t, |all|) && FromKids(t.kids, all)
    decreases |steps|
  {
    hide Inv, PairInv, Enabled, Apply, Counts, FromKids, Returned;
    if steps == [] {
      NilRight(results);
    } else {
      var st, t := steps[0], Apply(s, steps[0]);
      assert ByExitCode(steps[1..]);
      CountsStep(s, st, |results|);
      ReturnedStep(s, st, results);
      StepKeeps(s, st);
      PairStep(s, st);
      ResultsRun(t, steps[1..], results + Returned(s, st));
      Assoc(results, Returned(s, st), Results(t, steps[1..]));
    }
  }

  lemma InitReturns(h: HeaderData, callback: bool)
    ensures var s := Init(h, true, callback); Counts(s, 0) && FromKids(s.kids, []) && Clean(s.hist)
  {
  }

  /** Over every run in exit-code mode without resets: one result for every round that is
      over, in order, and each that is not 0 is the exit status of its round's child. */
  lemma ResultsPair(h: HeaderData, callback: bool, steps: seq<Step>)
    requires Legal(Init(h, true, callback), steps) && ByExitCode(steps)
    ensures var s, results := Final(Init(h, true, callback), steps), Results(Init(h, true, callback), steps);
            && |s.hist.rounds| == (if RoundOpen(s) then |results| + 1 else |results|)
            && FromKids(s.kids, results)
  {
    hide Inv, PairInv, Legal, Final, Init, Results, FromKids, ByExitCode;
    var init := Init(h, true, callback);
    InitReturns(h, callback);
    InitKeeps(h, true, callback);
    InitPairs(h, callback);
    ResultsRun(init, steps, []);
    NilLeft(Results(init, steps));
  }
}
