/** What one round hands over to the next: when a fork finds the child pipe empty, said of
    what the children did. */
module Handover {
  import opened Messages
  import opened PullMachine
  import opened Render
  import opened Sessions
  import opened Seqs
  import opened Leftovers
  import opened Protocol
  import opened Isolation
  import opened Qbf

  /** In every run in which no round began with an earlier child left to read from the
      pipe: a round found an empty pipe if and only if the child before it, or its
      stream, had taken all that was due to it. */
  lemma EmptyExact(h: HeaderData, exitCodeMode: bool, callback: bool, steps: seq<Step>, i: nat)
    requires Legal(Init(h, exitCodeMode, callback), steps)
    ensures var s := Final(Init(h, exitCodeMode, callback), steps);
            s.hist.alone && i + 1 < |s.hist.rounds| ==>
              && i < |s.kids|
              && (s.hist.rounds[i + 1].stale == [] <==> s.kids[i].own + s.kids[i].ahead == Due(s.hist.rounds[i]))
  {
    hide Inv, Final, Legal, Init, Due;
    InitKeeps(h, exitCodeMode, callback);
    RunKeeps(Init(h, exitCodeMode, callback), steps);
    var s := Final(Init(h, exitCodeMode, callback), steps);
    if s.hist.alone && i + 1 < |s.hist.rounds| { FoundByNext(s, i); }
  }

  lemma FoundByNext(s: Sys, i: nat)
    requires s.hist.alone && i + 1 < |s.hist.rounds| && Inv(s)
    ensures i < |s.kids|
    ensures s.hist.rounds[i + 1].stale == [] <==> s.kids[i].own + s.kids[i].ahead == Due(s.hist.rounds[i])
  {
    hide CallsSync, SeedSync, KidsSync, Forks, RoundsOk, ReportsSync, Due, LeftOver, Unsolved;
    NilRight(s.kids[i].own + s.kids[i].ahead);
  }

  // ----- clean runs -----

  /** No child is left over from the last round: there was none, it has read its solve
      message, or it is dead and everything its round wrote was taken. */
  predicate RoundTaken(s: Sys) {
    s.kids == [] || s.hist.rounds == [] ||
    (var k, r := s.kids[|s.kids| - 1], s.hist.rounds[|s.hist.rounds| - 1];
     Heard(k) || (!k.alive && k.own + k.ahead == RoundMsgs(r.units, r.solved)))
  }

  /** Every fork of the run comes when the round before it is finished. */
  predicate ForksWait(s: Sys, steps: seq<Step>)
    requires Legal(s, steps)
    decreases |steps|
  {
    steps == [] || ((steps[0].SendFork? ==> RoundTaken(s)) && ForksWait(Apply(s, steps[0]), steps[1..]))
  }

  /** A solve message is the last of its round. */
  lemma SolveIsLast(us: seq<int>, solved: bool, own: seq<Msg>, rest: seq<Msg>)
    requires own + rest == RoundMsgs(us, solved) && rest != []
    ensures Solve !in own
  {
    var c := ClauseMsgs(Units(us));
    ClausesUnsolved(Units(us));
    assert |own| <= |c|;
    assert forall i :: 0 <= i < |own| ==> own[i] == (own + rest)[i] == c[i];
  }

  /** When the round before it is finished, and only then, a fork finds an empty pipe that
      nobody else reads. */
  lemma RoundTakenExact(s: Sys)
    requires Enabled(s, SendFork) && Clean(s.hist) && Inv(s)
    ensures RoundTaken(s) <==> Unread(s) && s.childPipe + s.childOut == []
  {
    hide CallsSync, SeedSync, KidsSync, Forks, RoundsOk, ReportsSync, Sent, SolvableBase, RoundMsgs, LeftOver;
    if s.kids != [] {
      var k, r := s.kids[|s.kids| - 1], s.hist.rounds[|s.kids| - 1];
      var pipe := s.childPipe + s.childOut;
      NilLeft(RoundMsgs(r.units, r.solved));
      Assoc(k.own, k.ahead, pipe);
      NilRight(k.own + k.ahead);
      if k.ahead + pipe != [] { SolveIsLast(r.units, r.solved, k.own, k.ahead + pipe); }
    }
  }

  lemma CleanSnoc(g: Hist, h: Hist, r: Round)
    requires h.rounds == g.rounds + [r]
    ensures Clean(h) <==> h.alone && (forall i :: 0 <= i < |g.rounds| ==> g.rounds[i].stale == []) && r.stale == []
  {
    assert forall i :: 0 <= i < |g.rounds| ==> h.rounds[i] == g.rounds[i];
    assert h.rounds[|g.rounds|] == r;
  }

  lemma CleanFork(s: Sys)
    requires Enabled(s, SendFork) && Inv(s)
    ensures Clean(DoSendFork(s).hist) <==> Clean(s.hist) && RoundTaken(s)
  {
    var h := DoSendFork(s).hist;
    assert h.alone == (s.hist.alone && Unread(s));
    var r := Round(h.toSeed, s.hist.user, s.hist.clauses, s.childPipe + s.childOut, [], false);
    assert h.rounds == s.hist.rounds + [r];
    hide Inv, RoundTaken, Enabled, Unread, DoSendFork;
    CleanSnoc(s.hist, h, r);
    if Clean(s.hist) { RoundTakenExact(s); }
  }

  predicate Found(g: Hist, h: Hist) {
    && g.alone == h.alone && |g.rounds| == |h.rounds|
    && forall i :: 0 <= i < |g.rounds| ==> h.rounds[i].stale == g.rounds[i].stale
  }

  lemma FoundOther(s: Sys, st: Step)
    requires Enabled(s, st) && !st.SendFork? && !st.Assume? && !st.SendSolve?
    ensures Apply(s, st).hist.alone == s.hist.alone && Apply(s, st).hist.rounds == s.hist.rounds
  {
    hide Deliver, BeginRead, Sent, BlockOpen, SolvableBase;
  }

  /** Nothing but a fork begins a round or changes what one has found. */
  lemma FoundStays(s: Sys, st: Step)
    requires Enabled(s, st) && !st.SendFork?
    ensures Found(s.hist, Apply(s, st).hist)
  {
    if st.Assume? || st.SendSolve? {
      hide Sent, BlockOpen, SolvableBase;
    } else {
      FoundOther(s, st);
      hide Enabled, Apply;
    }
  }

  lemma CleanStep(s: Sys, st: Step)
    requires Enabled(s, st) && Inv(s)
    ensures Clean(Apply(s, st).hist) <==> Clean(s.hist) && (st.SendFork? ==> RoundTaken(s))
  {
    if st.SendFork? {
      hide Inv, Enabled, Clean, RoundTaken, DoSendFork;
      CleanFork(s);
    } else {
      hide Inv, Enabled, Apply, RoundTaken;
      FoundStays(s, st);
    }
  }

  lemma {:induction false} CleanRun(s: Sys, steps: seq<Step>)
    requires Legal(s, steps) && Inv(s)
    ensures Clean(Final(s, steps).hist) <==> Clean(s.hist) && ForksWait(s, steps)
    decreases |steps|
  {
    hide Inv, Enabled, Apply, Clean, RoundTaken;
    if steps == [] {
    } else {
      CleanStep(s, steps[0]);
      StepKeeps(s, steps[0]);
      CleanRun(Apply(s, steps[0]), steps[1..]);
    }
  }

  /** Clean runs, exactly: every round of a run began with an empty child pipe and no
      earlier reader if and only if every fork waited for the round before it. */
  lemma CleanExact(h: HeaderData, exitCodeMode: bool, callback: bool, steps: seq<Step>)
    requires Legal(Init(h, exitCodeMode, callback), steps)
    ensures Clean(Final(Init(h, exitCodeMode, callback), steps).hist) <==>
            ForksWait(Init(h, exitCodeMode, callback), steps)
  {
    assert Clean(Init(h, exitCodeMode, callback).hist);
    hide Inv, Final, Legal, ForksWait, Init, Clean;
    InitKeeps(h, exitCodeMode, callback);
    CleanRun(Init(h, exitCodeMode, callback), steps);
  }
}
