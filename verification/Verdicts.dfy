/** quapi_solve can always return its solver's verdict: the runs the library's contract
    speaks about can be gone on with from every state. */
module Verdicts {
  import opened Messages
  import opened Transducer
  import opened PullMachine
  import opened Render
  import opened Seqs
  import opened Protocol
  import opened Isolation
  import opened Completion
  import opened Pairing
  import opened Returns

  // ----- what can be in the inbox -----

  /** After one message the seed no longer waits for the header. */
  lemma DeliverBoots(p: Proc, m: Msg)
    requires p.call.Reading?
    ensures Deliver(p, m).rt.phase != WaitingForHeader
  {
    hide StateCall, Spin;
    if Handled(p.rt.phase, m) {
      var r := Receive(p.rt, m);
      SpinStep(r, m, 3);
      CallBoots(r, m);
      SpinBoots(StateCall(r, m), m, 2);
    }
  }

  lemma BeginBoots(p: Proc, k: nat)
    requires p.rt.phase != WaitingForHeader
    ensures BeginRead(p, k).rt.phase != WaitingForHeader
  {
    CallBoots(Fresh(p.rt), p.rt.last);
    hide StateCall;
  }

  predicate IsSignal(m: Msg) { m.ForkReport? || m.ExitCode? }

  /** One message that the runtime has started, until quapi_init has taken it; fork reports
      and exit codes from then on. */
  predicate Signalled(s: Sys) {
    && s.lib.exitCodeMode
    && (s.stage == Starting ==>
          s.inbox == [] || (s.inbox == [Started(API_VERSION)] && s.seed.rt.phase != WaitingForHeader))
    && (s.stage != Starting ==>
          s.seed.rt.phase != WaitingForHeader && forall i :: 0 <= i < |s.inbox| ==> IsSignal(s.inbox[i]))
  }

  lemma SignalledReceive(s: Sys, pid: int)
    requires Enabled(s, SeedReceive(pid)) && Signalled(s)
    requires s.seedPipe[0].Fork? ==> s.stage != Starting
    ensures Signalled(Apply(s, SeedReceive(pid)))
  {
    DeliverBoots(s.seed, s.seedPipe[0]);
    hide Deliver;
  }

  lemma SignalledOther(s: Sys, st: Step)
    requires Enabled(s, st) && Signalled(s) && !st.SeedReceive?
    requires s.waiting ==> s.stage != Starting
    ensures Signalled(Apply(s, st))
  {
    if st.SeedRead? && s.seed.rt.phase != WaitingForHeader { BeginBoots(s.seed, st.size); }
    hide Deliver, BeginRead, Sent, BlockOpen, SolvableBase;
  }

  lemma SignalledStep(s: Sys, st: Step)
    requires Enabled(s, st) && Signalled(s) && Inv(s) && PairInv(s)
    ensures Signalled(Apply(s, st))
  {
    hide Inv, Signalled, Apply, Enabled, Deliver, Signals, Waits;
    InvOrderly(s);
    if st.SeedReceive? {
      CanReceive(s, st.pid);
      if s.seedPipe[0].Fork? { ForkFacts(s, st.pid); }
      SignalledReceive(s, st.pid);
    } else {
      SignalledOther(s, st);
    }
  }

  /** Everything that holds of every state of a run in exit-code mode. */
  ghost predicate Running(s: Sys) { Inv(s) && PairInv(s) && Signalled(s) }

  lemma RunningStep(s: Sys, st: Step)
    requires Enabled(s, st) && Running(s)
    ensures Running(Apply(s, st))
  {
    hide Inv, PairInv, Signalled, Apply, Enabled;
    StepKeeps(s, st);
    PairStep(s, st);
    SignalledStep(s, st);
  }

  lemma {:induction false} RunningRun(s: Sys, steps: seq<Step>)
    requires Legal(s, steps) && Running(s)
    ensures Running(Final(s, steps))
    decreases |steps|
  {
    hide Running, Apply, Enabled;
    if steps == [] {
    } else {
      RunningStep(s, steps[0]);
      RunningRun(Apply(s, steps[0]), steps[1..]);
    }
  }

  lemma {:induction false} AllSignals(inbox: seq<Msg>)
    requires forall i :: 0 <= i < |inbox| ==> IsSignal(inbox[i])
    ensures Signals(inbox) == inbox
  {
    if inbox == [] {
    } else {
      AllSignals(inbox[1..]);
      HeadTail(inbox);
    }
  }

  /** While the library waits for a living child's verdict, nothing is on its way to it. */
  lemma NothingThere(s: Sys)
    requires Running(s) && s.stage == Solving && s.kids != [] && s.kids[|s.kids| - 1].alive
    ensures s.waiting && s.inbox == [] && |s.kids| == |s.hist.rounds|
  {
    hide Inv, Signals, Waits, Stale;
    InvOrderly(s);
    AllSignals(s.inbox);
  }

  // ----- the verdict arrives -----

  lemma {:induction false} ReadingReturnsNothing(s: Sys, steps: seq<Step>)
    requires Legal(s, steps) && ChildReads(steps)
    ensures Results(s, steps) == []
    decreases |steps|
  {
    hide Enabled, Apply;
    if steps == [] {
    } else {
      assert steps[0].KidRead? || steps[0].KidFetch? || steps[0].KidReceive? || steps[0].FlushChild?;
      assert forall i :: 0 <= i < |steps[1..]| ==> steps[1..][i] == steps[i + 1];
      ReadingReturnsNothing(Apply(s, steps[0]), steps[1..]);
    }
  }

  lemma {:induction false} ResultsAppend(s: Sys, a: seq<Step>, b: seq<Step>)
    requires Legal(s, a) && Legal(Final(s, a), b) && Legal(s, a + b)
    ensures Results(s, a + b) == Results(s, a) + Results(Final(s, a), b)
    decreases |a|
  {
    hide Enabled, Apply, Returned;
    if a == [] {
      NilLeft(b);
      NilLeft(Results(s, b));
    } else {
      TailConcat(a, b);
      ResultsAppend(Apply(s, a[0]), a[1..], b);
      Assoc(Returned(s, a[0]), Results(Apply(s, a[0]), a[1..]), Results(Final(s, a), b));
    }
  }

  lemma PrependResult(s: Sys, st: Step, rest: seq<Step>)
    requires Enabled(s, st) && Legal(Apply(s, st), rest)
    ensures Legal(s, [st] + rest) && Results(s, [st] + rest) == Returned(s, st) + Results(Apply(s, st), rest)
    ensures Final(s, [st] + rest) == Final(Apply(s, st), rest)
  {
    hide Enabled, Apply, Returned;
    Cons(st, rest);
  }

  lemma NoMore(s: Sys)
    ensures Legal(s, []) && Final(s, []) == s && Results(s, []) == []
  {
  }

  lemma Exits(s: Sys, code: int)
    requires s.kids != [] && s.kids[|s.kids| - 1].alive && s.lib.exitCodeMode
    ensures var st := KidExit(|s.kids| - 1, code);
            && Enabled(s, st) && Returned(s, st) == []
            && Apply(s, st) == s.(kids := s.kids[|s.kids| - 1 := s.kids[|s.kids| - 1].(alive := false, status := code)])
  {
    hide Returned;
    assert Returned(s, KidExit(|s.kids| - 1, code)) == [] by { Silent(s, KidExit(|s.kids| - 1, code)); }
  }

  lemma Silent(s: Sys, st: Step)
    requires Enabled(s, st) && (st.KidExit? || st.SeedReap?)
    ensures Returned(s, st) == []
  {
    hide Enabled;
  }

  lemma Reaps(s: Sys)
    requires s.kids != [] && !s.kids[|s.kids| - 1].alive && s.waiting && s.inbox == []
    ensures Enabled(s, SeedReap) && Returned(s, SeedReap) == []
    ensures Apply(s, SeedReap) == s.(inbox := [ExitCode(s.kids[|s.kids| - 1].status)], waiting := false)
  {
    Silent(s, SeedReap);
    NilLeft([ExitCode(s.kids[|s.kids| - 1].status)]);
    hide Returned;
  }

  lemma Takes(s: Sys, code: int)
    requires s.stage == Solving && s.inbox == [ExitCode(code)] && (code != 0 || !s.callback)
    ensures Enabled(s, HandleChild) && Returned(s, HandleChild) == [code]
    ensures var t := Apply(s, HandleChild);
            t.stage == Calling && t.kids == s.kids && t.hist.rounds == s.hist.rounds && t.hist.alone == s.hist.alone
  {
  }

  /** The child exits, the seed reaps it, the library takes the exit code. */
  lemma ExitArrives(s: Sys, code: int) returns (steps: seq<Step>)
    requires s.stage == Solving && s.kids != [] && s.kids[|s.kids| - 1].alive && s.waiting && s.inbox == []
    requires s.lib.exitCodeMode && (code != 0 || !s.callback)
    ensures Legal(s, steps) && Results(s, steps) == [code]
    ensures var t := Final(s, steps);
            && t.stage == Calling && t.hist.rounds == s.hist.rounds && |t.kids| == |s.kids|
            && t.kids[|t.kids| - 1] == s.kids[|s.kids| - 1].(alive := false, status := code)
  {
    hide Enabled, Apply, Returned, Legal, Final, Results;
    var exit := KidExit(|s.kids| - 1, code);
    Exits(s, code);
    var t := Apply(s, exit);
    Reaps(t);
    var u := Apply(t, SeedReap);
    Takes(u, code);
    NoMore(Apply(u, HandleChild));
    PrependResult(u, HandleChild, []);
    PrependResult(t, SeedReap, [HandleChild] + []);
    PrependResult(s, exit, [SeedReap] + ([HandleChild] + []));
    steps := [exit] + ([SeedReap] + ([HandleChild] + []));
  }

  lemma InitRunning(h: HeaderData, callback: bool)
    ensures Running(Init(h, true, callback))
    ensures var s := Init(h, true, callback); s.lib.header == h && s.callback == callback && s.lib.exitCodeMode
  {
    InitKeeps(h, true, callback);
    InitPairs(h, callback);
    hide Inv, PairInv;
  }

  lemma RunningNow(s: Sys)
    requires Running(s)
    ensures Inv(s) && s.lib.exitCodeMode
  {
    hide Inv, PairInv;
  }

  lemma ServedNow(s: Sys)
    requires Serving(s)
    ensures s.kids != [] && s.kids[|s.kids| - 1].alive && s.hist.rounds != []
  {
  }

  lemma CallbackStep(s: Sys, st: Step)
    requires Enabled(s, st)
    ensures Apply(s, st).callback == s.callback
  {
    hide Deliver, BeginRead, Sent, BlockOpen, SolvableBase;
  }

  lemma {:induction false} SameCallback(s: Sys, steps: seq<Step>)
    requires Legal(s, steps)
    ensures Final(s, steps).callback == s.callback
    decreases |steps|
  {
    hide Enabled, Apply;
    if steps == [] {
    } else {
      CallbackStep(s, steps[0]);
      SameCallback(Apply(s, steps[0]), steps[1..]);
    }
  }

  /** From s to t a round has ended: its child has read its text and exited with code. */
  ghost predicate EndedWith(s: Sys, t: Sys, code: int) {
    && t.stage == Calling && t.hist.rounds == s.hist.rounds && |t.kids| == |s.kids| && t.kids != []
    && s.hist.rounds != []
    && var k := t.kids[|t.kids| - 1];
       !k.alive && k.status == code && k.proc.ended && k.proc.given == TextOf(s)
  }

  lemma OnlyTheKid(s: Sys, t: Sys)
    requires OnlyKid(s, t)
    ensures t.stage == s.stage
  {
  }

  lemma EndFacts(s: Sys, t: Sys, u: Sys, code: int)
    requires s.hist.rounds != [] && OnlyKid(s, t) && t.kids != []
    requires LastChild(t).ended && LastChild(t).given == TextOf(s)
    requires u.stage == Calling && u.hist.rounds == t.hist.rounds && |u.kids| == |t.kids|
    requires u.kids[|u.kids| - 1] == t.kids[|t.kids| - 1].(alive := false, status := code)
    ensures EndedWith(s, u, code)
  {
    hide TextOf;
  }

  lemma SolveFrom(s: Sys, code: int) returns (more: seq<Step>)
    requires Running(s) && s.stage == Solving && Serving(s) && (code != 0 || !s.callback)
    ensures Legal(s, more) && Results(s, more) == [code] && EndedWith(s, Final(s, more), code)
  {
    hide *;
    RunningNow(s);
    ServedNow(s);
    var read := ChildCompletes(s);
    RunningRun(s, read);
    ReadingReturnsNothing(s, read);
    var t := Final(s, read);
    RunningNow(t);
    ServedNow(t);
    OnlyTheKid(s, t);
    NothingThere(t);
    SameCallback(s, read);
    var exit := ExitArrives(t, code);
    Append(s, read, exit);
    ResultsAppend(s, read, exit);
    more := read + exit;
    NilLeft([code]);
    EndFacts(s, t, Final(t, exit), code);
  }

  /** The wait of quapi_solve can always end with the solver's own verdict: from every
      state of a run in exit-code mode in which the library waits for a living child, in a
      run in which no round began with an earlier child left to read, the run can go on so
      that the child's solver has read its whole text and exits, and quapi_solve returns
      its exit code. */
  lemma SolveCompletes(h: HeaderData, callback: bool, steps: seq<Step>, code: int) returns (more: seq<Step>)
    requires Legal(Init(h, true, callback), steps) && (code != 0 || !callback)
    requires var s := Final(Init(h, true, callback), steps); s.stage == Solving && Serving(s)
    ensures Legal(Init(h, true, callback), steps + more)
    ensures Results(Init(h, true, callback), steps + more) == Results(Init(h, true, callback), steps) + [code]
    ensures var s, t := Final(Init(h, true, callback), steps), Final(Init(h, true, callback), steps + more);
            EndedWith(s, t, code)
  {
    hide Running, Legal, Final, Init, Results, Serving, EndedWith;
    var init := Init(h, true, callback);
    InitRunning(h, callback);
    RunningRun(init, steps);
    SameCallback(init, steps);
    more := SolveFrom(Final(init, steps), code);
    Append(init, steps, more);
    ResultsAppend(init, steps, more);
  }
}
