/** Which child a pid and an exit code belong to, over every interleaving, when the
    seed waits for its children and reports their exit codes. */
module Pairing {
  import opened Messages
  import opened Transducer
  import opened PullMachine
  import opened Sessions
  import opened Seqs
  import opened Protocol
  import opened Isolation
  import L = Library

  /** The fork reports and exit codes on their way to the library, in order. */
  function Signals(inbox: seq<Msg>): seq<Msg> {
    if inbox == [] then []
    else (if inbox[0].ForkReport? || inbox[0].ExitCode? then [inbox[0]] else []) + Signals(inbox[1..])
  }

  predicate Waits(ms: seq<Msg>, exitCodeMode: bool) {
    forall i :: 0 <= i < |ms| ==> ms[i].Fork? ==> ms[i].waitForExitCode == exitCodeMode
  }

  /** The exit code of a child the seed has waited for. */
  function ExitOf(k: Kid): Msg { ExitCode(k.status) }

  /** At most one exit code of an earlier round. */
  predicate Stale(ms: seq<Msg>) { |ms| <= 1 && forall i :: 0 <= i < |ms| ==> ms[i].ExitCode? }

  /** What is on its way in exit-code mode, by where the library is.  n children were
      forked in r rounds; the last is reaped once the seed no longer waits. */
  ghost predicate ExitSync(s: Sys) {
    var n, r := |s.kids|, |s.hist.rounds|;
    var sig := Signals(s.inbox);
    && (s.waiting ==> n > 0)
    && (n > 0 && !s.waiting ==> !s.kids[n - 1].alive)
    && (n == 0 ==> sig == [])
    && (s.stage != Awaiting && n > 0 ==>
          sig == if s.waiting || s.hist.exitTaken then [] else [ExitOf(s.kids[n - 1])])
    && (s.stage == Awaiting && n < r ==> Stale(sig) && (s.waiting ==> sig == []))
    && (s.stage == Awaiting && n == r && n > 0 ==>
          var tail := [ForkReport(s.kids[n - 1].pid)] + (if s.waiting then [] else [ExitOf(s.kids[n - 1])]);
          sig == tail || (|sig| == |tail| + 1 && sig[0].ExitCode? && sig[1..] == tail))
    && (n == r && s.waiting ==> !s.hist.exitTaken)
    && (s.stage == Awaiting ==> !s.hist.exitTaken)
  }

  ghost predicate PairInv(s: Sys) {
    && s.lib.exitCodeMode
    && Waits(s.seedPipe + s.seedOut, true)
    && ExitSync(s)
  }

  /** The parts of Isolation's invariant that are used here. */
  ghost predicate Orderly(s: Sys) {
    && |s.kids| <= |s.hist.rounds| <= |s.kids| + 1
    && (|s.hist.rounds| == |s.kids| + 1 ==> s.stage == Awaiting)
    && (s.stage == Starting ==> s.hist.rounds == [])
    && (s.stage == Awaiting || s.stage == Solving ==> s.hist.rounds != [])
  }

  lemma InvOrderly(s: Sys)
    requires Inv(s)
    ensures Orderly(s)
  {
    hide Forks, SeedSync, CallsSync, RoundsOk, KidsSync, PipeSync, ReportsSync;
  }

  lemma NoSignals()
    ensures Signals([]) == []
  {
  }

  lemma SignalsCons(ms: seq<Msg>)
    requires ms != []
    ensures Signals(ms) == (if ms[0].ForkReport? || ms[0].ExitCode? then [ms[0]] else []) + Signals(ms[1..])
  {
  }

  lemma {:induction false} SignalsConcat(a: seq<Msg>, b: seq<Msg>)
    ensures Signals(a + b) == Signals(a) + Signals(b)
  {
    hide Signals;
    NoSignals();
    if a == [] {
      NilLeft(b);
      NilLeft(Signals(b));
    } else {
      TailConcat(a, b);
      SignalsConcat(a[1..], b);
      SignalsCons(a);
      SignalsCons(a + b);
      Assoc(if a[0].ForkReport? || a[0].ExitCode? then [a[0]] else [], Signals(a[1..]), Signals(b));
    }
  }

  lemma SignalsSnoc(a: seq<Msg>, m: Msg)
    ensures Signals(a + [m]) == if m.ForkReport? || m.ExitCode? then Signals(a) + [m] else Signals(a)
  {
    SignalsConcat(a, [m]);
    assert [m][1..] == [];
  }

  lemma SignalsHead(inbox: seq<Msg>)
    requires inbox != []
    ensures var m := inbox[0];
            if m.ForkReport? || m.ExitCode?
            then Signals(inbox) != [] && Signals(inbox)[0] == m && Signals(inbox[1..]) == Signals(inbox)[1..]
            else Signals(inbox[1..]) == Signals(inbox)
  {
  }

  // ----- steps -----

  lemma TakeReportPairs(s: Sys)
    requires Enabled(s, TakeReport) && PairInv(s) && Orderly(s)
    ensures PairInv(Apply(s, TakeReport))
  {
    hide Waits, Signals;
    SignalsHead(s.inbox);
  }

  lemma HandleChildPairs(s: Sys)
    requires Enabled(s, HandleChild) && PairInv(s) && Orderly(s)
    ensures PairInv(Apply(s, HandleChild))
    ensures s.inbox[0].ExitCode? ==>
              s.kids != [] && !s.kids[|s.kids| - 1].alive && s.inbox[0].code == s.kids[|s.kids| - 1].status
  {
    hide Waits, Signals;
    SignalsHead(s.inbox);
  }

  lemma KillPairs(s: Sys)
    requires PairInv(s)
    ensures PairInv(Kill(s))
  {
    hide Waits, Signals, Stale;
  }

  lemma ReturnPairs(s: Sys)
    requires PairInv(s) && s.stage != Awaiting && s.stage != Starting
    ensures PairInv(Return(s))
  {
    hide Waits, Signals, Stale;
  }

  lemma SendForkPairs(s: Sys)
    requires Enabled(s, SendFork) && PairInv(s) && Orderly(s)
    ensures PairInv(Apply(s, SendFork))
  {
    hide Signals;
    assert (s.seedPipe + s.seedOut + [Fork(true)]) + [] == s.seedPipe + s.seedOut + [Fork(true)];
  }

  lemma WritePairs(s: Sys, t: Sys, m: Msg)
    requires PairInv(s) && !m.Fork? && t.seedPipe == s.seedPipe && t.seedOut == s.seedOut + [m]
    requires t.lib.exitCodeMode && t.inbox == s.inbox && t.kids == s.kids && t.waiting == s.waiting
             && t.stage == s.stage
    requires t.hist.exitTaken == s.hist.exitTaken && t.hist.rounds == s.hist.rounds
    ensures PairInv(t)
  {
    hide Signals, Stale;
    assert t.seedPipe + t.seedOut == s.seedPipe + s.seedOut + [m];
  }

  /** Steps that leave all this alone. */
  lemma SamePairs(s: Sys, t: Sys)
    requires PairInv(s) && t.seedPipe + t.seedOut == s.seedPipe + s.seedOut
    requires t.lib.exitCodeMode && t.inbox == s.inbox && t.waiting == s.waiting && t.stage == s.stage
    requires t.hist.exitTaken == s.hist.exitTaken && |t.hist.rounds| == |s.hist.rounds| && |t.kids| == |s.kids|
    requires forall i :: 0 <= i < |s.kids| ==>
               t.kids[i].pid == s.kids[i].pid && t.kids[i].status == s.kids[i].status
                   && t.kids[i].alive == s.kids[i].alive
    ensures PairInv(t)
  {
    hide Signals, Stale, Waits;
  }

  lemma WaitsTail(pipe: seq<Msg>, out: seq<Msg>)
    requires pipe != [] && Waits(pipe + out, true)
    ensures Waits(pipe[1..] + out, true) && (pipe[0].Fork? ==> pipe[0].waitForExitCode)
  {
    TailConcat(pipe, out);
    assert (pipe + out)[0].Fork? ==> (pipe + out)[0].waitForExitCode;
  }

  lemma ForkExits(s: Sys, t: Sys, pid: int)
    requires ExitSync(s) && !s.waiting && s.stage == t.stage == Awaiting && |s.hist.rounds| == |s.kids| + 1
    requires |t.kids| == |s.kids| + 1 && t.kids[|s.kids|].alive && t.kids[|s.kids|].pid == pid && t.waiting
    requires t.inbox == s.inbox + [ForkReport(pid)] && t.hist.rounds == s.hist.rounds
             && t.hist.exitTaken == s.hist.exitTaken
    ensures ExitSync(t)
  {
    hide Signals;
    SignalsSnoc(s.inbox, ForkReport(pid));
  }

  lemma OtherExits(s: Sys, t: Sys)
    requires ExitSync(s) && s.stage == t.stage && t.kids == s.kids && t.waiting == s.waiting
    requires t.inbox == s.inbox || t.inbox == s.inbox + [Started(API_VERSION)]
    requires t.hist.rounds == s.hist.rounds && t.hist.exitTaken == s.hist.exitTaken
    ensures ExitSync(t)
  {
    hide Signals, Stale;
    SignalsSnoc(s.inbox, Started(API_VERSION));
  }

  lemma SeedReceivePairs(s: Sys, pid: int)
    requires Enabled(s, SeedReceive(pid)) && PairInv(s) && Orderly(s)
    requires s.seedPipe[0].Fork? ==>
               |s.hist.rounds| == |s.kids| + 1 && Deliver(s.seed, s.seedPipe[0]).rt.out == NeedMessage
    ensures PairInv(Apply(s, SeedReceive(pid)))
  {
    hide Waits, ExitSync, Deliver;
    var t := Apply(s, SeedReceive(pid));
    WaitsTail(s.seedPipe, s.seedOut);
    if s.seedPipe[0].Fork? {
      ForkExits(s, t, pid);
    } else {
      OtherExits(s, t);
    }
  }

  lemma SeedReapPairs(s: Sys)
    requires Enabled(s, SeedReap) && PairInv(s) && Orderly(s)
    ensures PairInv(Apply(s, SeedReap))
  {
    hide Signals, Waits;
    SignalsSnoc(s.inbox, ExitCode(s.kids[|s.kids| - 1].status));
  }

  lemma KidExitPairs(s: Sys, i: nat, status: int)
    requires Enabled(s, KidExit(i, status)) && PairInv(s)
    ensures PairInv(Apply(s, KidExit(i, status)))
  {
    hide Signals, Waits, Stale;
  }

  // ----- every step, every run -----

  lemma ForkFacts(s: Sys, pid: int)
    requires s.seedPipe != [] && s.seed.call.Reading? && !s.waiting && s.seed.rt.out != Hung && s.seedPipe[0].Fork?
             && Inv(s)
    ensures |s.hist.rounds| == |s.kids| + 1 && Deliver(s.seed, s.seedPipe[0]).rt.out == NeedMessage
  {
    hide KidsSync, PipeSync, RoundsOk, InOrder, CallsSync, ReportsSync, Synced, Deliver, Expected;
    SeedTakes(s);
    ForkAsks(s.seed, s.hist.taken, s.seedPipe[0]);
    InOrderFork(s, Kid(s.seed, pid, true, 0, s.hist.taken + [s.seedPipe[0]], [], []));
  }

  lemma EndPairs(s: Sys, st: Step)
    requires st.HandleAbort? || st.HandleOutput? || st.ResetAssumptions?
    requires Enabled(s, st) && PairInv(s)
    ensures PairInv(Apply(s, st))
  {
    hide PairInv, Kill;
    if st.HandleOutput? {
      ReturnPairs(s);
    } else {
      KillPairs(s);
      assert Kill(s).stage == s.stage by { KillStage(s); }
      ReturnPairs(Kill(s));
    }
  }

  lemma KillStage(s: Sys)
    ensures Kill(s).stage == s.stage
  {
  }

  lemma PairStep(s: Sys, st: Step)
    requires Enabled(s, st) && Inv(s) && PairInv(s)
    ensures PairInv(Apply(s, st))
  {
    hide Inv, PairInv, Orderly, Apply, Enabled, Deliver;
    InvOrderly(s);
    if st.SendFork? {
      SendForkPairs(s);
    } else if st.TakeReport? {
      TakeReportPairs(s);
    } else if st.HandleChild? {
      HandleChildPairs(s);
    } else if st.HandleAbort? || st.HandleOutput? || st.ResetAssumptions? {
      EndPairs(s, st);
    } else if st.SeedReceive? {
      TakePairs(s, st.pid);
    } else if st.SeedReap? {
      SeedReapPairs(s);
    } else if st.KidExit? {
      KidExitPairs(s, st.i, st.status);
    } else if st.GetStarted? {
      StartPairs(s);
    } else if st.SendSolve? {
      SolvePairs(s);
    } else {
      QuietPairs(s, st);
    }
  }

  /** Steps outside the life of children and the library's inbox. */
  lemma QuietPairs(s: Sys, st: Step)
    requires st.Quantify? || st.Add? || st.Assume? || st.FlushSeed? || st.FlushChild? || st.SeedRead? || st.KidRead? ||
             st.KidFetch? || st.KidReceive?
    requires Enabled(s, st) && PairInv(s)
    ensures PairInv(Apply(s, st))
  {
    hide ExitSync, Waits, Deliver, BeginRead, Sent;
    if st.Quantify? {
      WritePairs(s, DoQuantify(s, st.q), Quantifier(L.SentAs(s.lib, st.q)));
    } else if st.Add? {
      WritePairs(s, DoAdd(s, st.lit), Literal(st.lit));
    } else if st.FlushSeed? {
      assert s.seedPipe + s.seedOut[..st.n] + s.seedOut[st.n..] == s.seedPipe + s.seedOut;
      SamePairs(s, Apply(s, st));
    } else {
      SamePairs(s, Apply(s, st));
    }
  }

  lemma CanReceive(s: Sys, pid: int)
    requires Enabled(s, SeedReceive(pid))
    ensures s.seedPipe != [] && s.seed.call.Reading? && !s.waiting && s.seed.rt.out != Hung
  {
  }

  lemma TakePairs(s: Sys, pid: int)
    requires Enabled(s, SeedReceive(pid)) && Inv(s) && PairInv(s)
    ensures PairInv(Apply(s, SeedReceive(pid)))
  {
    hide Inv, PairInv, Orderly, Deliver, Enabled, Apply;
    CanReceive(s, pid);
    InvOrderly(s);
    if s.seedPipe[0].Fork? {
      ForkFacts(s, pid);
    }
    SeedReceivePairs(s, pid);
  }

  lemma StartPairs(s: Sys)
    requires Enabled(s, GetStarted) && PairInv(s) && Orderly(s)
    ensures PairInv(Apply(s, GetStarted))
  {
    hide Waits, Signals, Stale;
    SignalsHead(s.inbox);
  }

  lemma SolvePairs(s: Sys)
    requires Enabled(s, SendSolve) && PairInv(s)
    ensures PairInv(Apply(s, SendSolve))
  {
    hide Waits, Signals, Stale;
  }

  lemma {:induction false} PairRun(s: Sys, steps: seq<Step>)
    requires Legal(s, steps) && Inv(s) && PairInv(s)
    ensures Inv(Final(s, steps)) && PairInv(Final(s, steps))
    decreases |steps|
  {
    hide Inv, PairInv, Enabled, Apply;
    if steps == [] {
    } else {
      StepKeeps(s, steps[0]);
      PairStep(s, steps[0]);
      PairRun(Apply(s, steps[0]), steps[1..]);
    }
  }

  /** Pairing, over every run in exit-code mode: an exit code the library reads in the poll
      loop is that of the current round's child, even when earlier rounds ended early and
      left theirs unread. */
  lemma ResultPairing(h: HeaderData, callback: bool, steps: seq<Step>)
    requires Legal(Init(h, true, callback), steps)
    ensures var s := Final(Init(h, true, callback), steps);
            && (s.stage == Solving ==> s.kids != [])
            && (s.stage == Solving && s.inbox != [] && s.inbox[0].ExitCode? ==>
                  !s.kids[|s.kids| - 1].alive && s.inbox[0].code == s.kids[|s.kids| - 1].status)
  {
    hide Inv, PairInv, Legal, Final, Init;
    var init := Init(h, true, callback);
    InitKeeps(h, true, callback);
    InitPairs(h, callback);
    PairRun(init, steps);
    var s := Final(init, steps);
    PidNow(s);
    if s.stage == Solving && s.inbox != [] {
      InvOrderly(s);
      HandleChildPairs(s);
    }
  }

  lemma InitPairs(h: HeaderData, callback: bool)
    ensures PairInv(Init(h, true, callback))
  {
  }

  lemma PidNow(s: Sys)
    requires Inv(s)
    ensures s.stage == Solving ==> s.hist.rounds != []
    ensures s.stage != Awaiting && s.hist.rounds != [] ==>
              s.kids != [] && |s.kids| == |s.hist.rounds| && s.lib.pid == s.kids[|s.kids| - 1].pid
  {
    hide Forks, SeedSync, CallsSync, RoundsOk, KidsSync, PipeSync, Reports;
  }

  /** Whether or not the seed waits for exit codes: from the fork report of a round to the
      next fork request the library holds the pid of that round's child, the k-th child
      for the k-th round. */
  lemma PidPairing(h: HeaderData, exitCodeMode: bool, callback: bool, steps: seq<Step>)
    requires Legal(Init(h, exitCodeMode, callback), steps)
    ensures var s := Final(Init(h, exitCodeMode, callback), steps);
            && (s.stage == Solving ==> s.hist.rounds != [])
            && (s.stage != Awaiting && s.hist.rounds != [] ==>
                  s.kids != [] && |s.kids| == |s.hist.rounds| && s.lib.pid == s.kids[|s.kids| - 1].pid)
  {
    hide Inv, Legal, Final, Init;
    InitKeeps(h, exitCodeMode, callback);
    RunKeeps(Init(h, exitCodeMode, callback), steps);
    PidNow(Final(Init(h, exitCodeMode, callback), steps));
  }

  lemma KillCases(s: Sys)
    requires s.kids != []
    ensures var k, t := s.kids[|s.kids| - 1], Kill(s);
            && |t.kids| == |s.kids| && t.kids[..|s.kids| - 1] == s.kids[..|s.kids| - 1]
            && t.kids[|s.kids| - 1] == (if k.alive then k.(alive := false, status := 0) else k)
  {
  }

  /** An abort and quapi_reset_assumptions end the child whose pid the library holds, that
      of the current round, and touch no other. */
  lemma KillsHeldChild(h: HeaderData, exitCodeMode: bool, callback: bool, steps: seq<Step>, st: Step)
    requires Legal(Init(h, exitCodeMode, callback), steps) && (st.HandleAbort? || st.ResetAssumptions?)
    requires Enabled(Final(Init(h, exitCodeMode, callback), steps), st)
    ensures var s := Final(Init(h, exitCodeMode, callback), steps);
            var t, n := Apply(s, st), |s.kids| - 1;
            && n >= 0 && |t.kids| == n + 1 && s.kids[n].pid == s.lib.pid
            && !t.kids[n].alive && t.kids[n].own == s.kids[n].own
            && (!s.kids[n].alive ==> t.kids[n] == s.kids[n])
            && t.kids[..n] == s.kids[..n]
  {
    hide Inv, Legal, Final, Init;
    InitKeeps(h, exitCodeMode, callback);
    RunKeeps(Init(h, exitCodeMode, callback), steps);
    var s := Final(Init(h, exitCodeMode, callback), steps);
    PidNow(s);
    RoundBegun(s);
    KillCases(s);
    hide Kill;
  }

  lemma RoundBegun(s: Sys)
    requires Inv(s)
    ensures s.stage == Solving || s.lib.state == L.InputAssumptions ==> s.hist.rounds != []
  {
    hide Forks, SeedSync, CallsSync, RoundsOk, KidsSync, PipeSync, ReportsSync;
  }
}
