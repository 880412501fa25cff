/** The library's record against the protocol: each call on the record makes exactly the
    steps the protocol has for it, and quapi_solve returns what those steps return. */
module Conformance {
  import opened Messages
  import opened Seqs
  import opened Protocol
  import opened Completion
  import opened Returns
  import Verdicts
  import L = Library

  /** The record stands where the library of s does: the same counters, the same messages
      written to the seed, the same messages waiting. */
  ghost predicate Mirrors(l: L.Solver, s: Sys)
    reads l
  {
    l.Abs() == s.lib && l.callback == s.callback && l.toSeed == s.hist.toSeed && l.inbox == s.inbox
  }

  /** What was written to the child pipe and not yet taken out of it. */
  function ToChild(s: Sys): seq<Msg> { s.childPipe + s.childOut }

  // ----- calls of one step -----

  method QuantifyInStep(l: L.Solver, q: int, ghost s: Sys)
    requires Mirrors(l, s) && Enabled(s, Quantify(q))
    modifies l
    ensures Mirrors(l, Apply(s, Quantify(q))) && l.toChild == old(l.toChild)
  {
    hide Sent;
    l.Quantify(q);
  }

  method AddInStep(l: L.Solver, lit: int, ghost s: Sys)
    requires Mirrors(l, s) && Enabled(s, Add(lit))
    modifies l
    ensures Mirrors(l, Apply(s, Add(lit))) && l.toChild == old(l.toChild)
  {
    l.Add(lit);
  }

  method AssumeInStep(l: L.Solver, lit: int, ghost s: Sys) returns (ok: bool)
    requires Mirrors(l, s) && Enabled(s, Assume(lit))
    modifies l
    ensures ok && Mirrors(l, Apply(s, Assume(lit)))
    ensures exists ms :: l.toChild == old(l.toChild) + ms && ToChild(Apply(s, Assume(lit))) == ToChild(s) + ms
  {
    ok := l.Assume(lit);
    ghost var ms := [Literal(lit), Literal(0)];
    Assoc(s.childPipe, s.childOut, ms);
    assert l.toChild == old(l.toChild) + ms;
  }

  method ResetInStep(l: L.Solver, ghost s: Sys)
    requires Mirrors(l, s) && Enabled(s, ResetAssumptions)
    modifies l
    ensures Mirrors(l, Apply(s, ResetAssumptions)) && l.toChild == old(l.toChild)
    ensures l.killed == old(l.killed) + [s.lib.pid]
  {
    l.ResetAssumptions();
  }

  // ----- the wait for a fork report -----

  function Takes(n: nat): seq<Step> { if n == 0 then [] else [TakeReport] + Takes(n - 1) }

  /** From s to t only the library moved. */
  predicate LibraryOnly(s: Sys, t: Sys) {
    && t.callback == s.callback && t.hist.toSeed == s.hist.toSeed && t.hist.rounds == s.hist.rounds
    && t.seedOut == s.seedOut && t.seedPipe == s.seedPipe && ToChild(t) == ToChild(s)
    && t.seed == s.seed && t.waiting == s.waiting
  }

  lemma TakeOne(s: Sys)
    requires s.stage == Awaiting && s.inbox != []
    ensures Enabled(s, TakeReport) && LibraryOnly(s, Apply(s, TakeReport)) && Returned(s, TakeReport) == []
    ensures var t, m := Apply(s, TakeReport), s.inbox[0];
            && t.inbox == s.inbox[1..] && t.kids == s.kids
            && if m.ForkReport? then t.stage == Calling && t.lib == s.lib.(pid := m.pid)
               else t.stage == Awaiting && t.lib == s.lib
  {
  }

  /** Messages are taken up to the first fork report, whose pid is kept. */
  lemma {:induction false} TakesReport(s: Sys)
    requires s.stage == Awaiting && L.FirstReport(s.inbox) < |s.inbox|
    ensures var n := L.FirstReport(s.inbox);
            && Legal(s, Takes(n + 1)) && Results(s, Takes(n + 1)) == []
            && var t := Final(s, Takes(n + 1));
               && LibraryOnly(s, t) && t.kids == s.kids && t.stage == Calling
               && t.lib == s.lib.(pid := s.inbox[n].pid) && t.inbox == s.inbox[n + 1..]
    decreases |s.inbox|
  {
    TakeOne(s);
    var n, t := L.FirstReport(s.inbox), Apply(s, TakeReport);
    assert Takes(n + 1) == [TakeReport] + Takes(n);
    hide Enabled, Apply, Returned;
    if s.inbox[0].ForkReport? {
      Stay(t);
      Verdicts.NoMore(t);
      Prepend(s, TakeReport, []);
      Verdicts.PrependResult(s, TakeReport, []);
    } else {
      assert n == 1 + L.FirstReport(s.inbox[1..]);
      TakesReport(t);
      Prepend(s, TakeReport, Takes(n));
      Verdicts.PrependResult(s, TakeReport, Takes(n));
    }
  }

  /** make_solvable: the fork request, and then, in a state t in which what is to arrive
      has arrived, everything up to the fork report. */
  method ForkInStep(l: L.Solver, ghost s: Sys, ghost t: Sys) returns (ok: bool, ghost steps: seq<Step>)
    requires l.Abs() == s.lib && l.callback == s.callback && l.toSeed == s.hist.toSeed && Enabled(s, SendFork)
    requires t.lib == Apply(s, SendFork).lib && t.stage == Awaiting && t.callback == s.callback
    requires t.hist.toSeed == Apply(s, SendFork).hist.toSeed && t.inbox == l.inbox
    requires L.FirstReport(l.inbox) < |l.inbox|
    modifies l
    ensures ok && Legal(t, steps) && Results(t, steps) == [] && Mirrors(l, Final(t, steps))
    ensures Final(t, steps).stage == Calling && Final(t, steps).kids == t.kids && l.toChild == old(l.toChild)
  {
    hide Sent;
    ok := l.MakeSolvable();
    steps := Takes(L.FirstReport(t.inbox) + 1);
    TakesReport(t);
    hide Results, Final, Legal, Takes;
  }

  // ----- the wait for the result -----

  /** The steps of a wait: one for each event that brings something, with so many messages
      there. */
  function WaitSteps(there: nat, events: seq<L.PollEvent>): seq<Step> {
    if events == [] then []
    else match events[0]
      case Child => if there > 0 then [HandleChild] + WaitSteps(there - 1, events[1..]) else WaitSteps(there, events[1..])
      case EventFd => [HandleAbort] + WaitSteps(there, events[1..])
      case SolverOutput(v) =>
        if v != 0 then [HandleOutput(v)] + WaitSteps(there, events[1..]) else WaitSteps(there, events[1..])
  }

  /** What event n of a wait gives. */
  function ResultAt(inbox: seq<Msg>, events: seq<L.PollEvent>, n: nat): int
    requires n < |events|
  {
    match events[n]
    case Child => if L.Wakeups(events, n) < |inbox| then L.ResultOf(inbox[L.Wakeups(events, n)]) else 0
    case EventFd => 0
    case SolverOutput(v) => v
  }

  /** The library has gone from the wait in s to its end in t. */
  predicate Waited(s: Sys, t: Sys, last: L.PollEvent) {
    && LibraryOnly(s, t) && t.stage == Calling && t.lib == L.Solved(s.lib)
    && t.kids == (if last == L.EventFd then Kill(s).kids else s.kids)
  }

  lemma {:induction false} WakeupsShift(events: seq<L.PollEvent>, n: nat)
    requires 0 < n <= |events|
    ensures L.Wakeups(events, n) == L.Wakeups(events[1..], n - 1) + (if events[0] == L.Child then 1 else 0)
    decreases n
  {
    if n > 1 {
      WakeupsShift(events, n - 1);
      assert events[1..][n - 2] == events[n - 1];
    }
  }

  function RestOf(inbox: seq<Msg>, first: L.PollEvent): seq<Msg> {
    if first == L.Child && inbox != [] then inbox[1..] else inbox
  }

  /** The first event taken apart: event i + 1 is event i of the rest. */
  lemma Shifted(inbox: seq<Msg>, events: seq<L.PollEvent>, callback: bool, i: nat)
    requires i + 1 < |events|
    ensures var rest := RestOf(inbox, events[0]);
            && (L.Decides(rest, events[1..], callback, i) <==> L.Decides(inbox, events, callback, i + 1))
            && ResultAt(rest, events[1..], i) == ResultAt(inbox, events, i + 1)
  {
    WakeupsShift(events, i + 1);
    hide L.Wakeups, L.EndsWait;
    assert events[1..][i] == events[i + 1];
  }

  lemma TakenShift(inbox: seq<Msg>, events: seq<L.PollEvent>, n: nat)
    requires n < |events|
    ensures var rest := RestOf(inbox, events[0]);
            rest[L.Taken(rest, events[1..], n)..] == inbox[L.Taken(inbox, events, n + 1)..]
  {
    WakeupsShift(events, n + 1);
    hide L.Wakeups;
  }

  /** A first event that decides nothing. */
  lemma AfterFirst(inbox: seq<Msg>, events: seq<L.PollEvent>, callback: bool, n: nat)
    requires 0 < n < |events| && L.FirstDecides(inbox, events, callback, n)
    ensures L.FirstDecides(RestOf(inbox, events[0]), events[1..], callback, n - 1)
    ensures events[0] == L.Child && inbox != [] ==> !L.EndsWait(inbox[0], callback)
    ensures events[0] != L.EventFd && (events[0].SolverOutput? ==> events[0].verdict == 0)
  {
    assert !L.Decides(inbox, events, callback, 0);
    assert L.Wakeups(events, 0) == 0;
    hide L.Decides, L.Wakeups, L.EndsWait, RestOf;
    forall i | 0 <= i < n
      ensures L.Decides(RestOf(inbox, events[0]), events[1..], callback, i) <==>
              L.Decides(inbox, events, callback, i + 1)
    {
      Shifted(inbox, events, callback, i);
    }
  }

  lemma HandleOne(s: Sys)
    requires s.stage == Solving && s.inbox != []
    ensures Enabled(s, HandleChild)
    ensures var t, ends := Apply(s, HandleChild), L.EndsWait(s.inbox[0], s.callback);
            && t.inbox == s.inbox[1..] && t.callback == s.callback
            && Returned(s, HandleChild) == (if ends then [L.ResultOf(s.inbox[0])] else [])
            && (ends ==> Waited(s, t, L.Child))
            && (!ends ==> LibraryOnly(s, t) && t.stage == Solving && t.lib == s.lib && t.kids == s.kids)
  {
  }

  lemma EndOne(s: Sys, st: Step)
    requires s.stage == Solving && (st.HandleAbort? || (st.HandleOutput? && st.verdict != 0))
    ensures Enabled(s, st) && Apply(s, st).inbox == s.inbox
    ensures Waited(s, Apply(s, st), if st.HandleAbort? then L.EventFd else L.SolverOutput(st.verdict))
    ensures Returned(s, st) == [if st.HandleAbort? then 0 else st.verdict]
  {
  }

  lemma WaitedThrough(s: Sys, t: Sys, u: Sys, last: L.PollEvent)
    requires LibraryOnly(s, t) && t.lib == s.lib && t.kids == s.kids && Waited(t, u, last)
    ensures Waited(s, u, last)
  {
  }

  lemma OneStep(s: Sys, st: Step)
    requires Enabled(s, st)
    ensures Legal(s, [st]) && Final(s, [st]) == Apply(s, st) && Results(s, [st]) == Returned(s, st)
  {
    var t := Apply(s, st);
    Stay(t);
    Prepend(s, st, []);
    Verdicts.NoMore(t);
    Verdicts.PrependResult(s, st, []);
    NilRight(Returned(s, st));
    NilRight([st]);
  }

  /** The last event of a wait. */
  lemma LastEvent(s: Sys, events: seq<L.PollEvent>)
    requires s.stage == Solving && events != [] && L.FirstDecides(s.inbox, events, s.callback, 0)
    ensures var steps := WaitSteps(|s.inbox|, events[..1]);
            && Legal(s, steps) && Results(s, steps) == [ResultAt(s.inbox, events, 0)]
            && Waited(s, Final(s, steps), events[0])
            && Final(s, steps).inbox == s.inbox[L.Taken(s.inbox, events, 1)..]
  {
    assert events[..1][1..] == [] && L.Wakeups(events, 1) == L.Wakeups(events, 0) + if events[0] == L.Child then 1 else 0;
    var st := match events[0]
              case Child => HandleChild
              case EventFd => HandleAbort
              case SolverOutput(v) => HandleOutput(v);
    assert WaitSteps(|s.inbox|, events[..1]) == [st] + [] == [st];
    if events[0] == L.Child { HandleOne(s); } else { EndOne(s, st); }
    OneStep(s, st);
    hide Enabled, Apply, Returned, Legal, Final, Results, Waited, WaitSteps;
  }

  /** A wait, as steps of the protocol: one result, that of the first event that decides. */
  lemma {:induction false} WaitRun(s: Sys, events: seq<L.PollEvent>, n: nat)
    requires s.stage == Solving && n < |events| && L.FirstDecides(s.inbox, events, s.callback, n)
    ensures var steps := WaitSteps(|s.inbox|, events[..n + 1]);
            && Legal(s, steps) && Results(s, steps) == [ResultAt(s.inbox, events, n)]
            && Waited(s, Final(s, steps), events[n])
            && Final(s, steps).inbox == s.inbox[L.Taken(s.inbox, events, n + 1)..]
    decreases n
  {
    hide *;
    if n == 0 {
      LastEvent(s, events);
    } else {
      AfterFirst(s.inbox, events, s.callback, n);
      Shifted(s.inbox, events, s.callback, n - 1);
      TakenShift(s.inbox, events, n);
      WaitUnfold(|s.inbox|, events, n);
      RestCases(s.inbox, events[0]);
      if events[0] == L.Child && s.inbox != [] {
        HandleOne(s);
        WaitRun(Apply(s, HandleChild), events[1..], n - 1);
        WaitTook(s, WaitSteps(|s.inbox| - 1, events[1..][..n]), events[n]);
      } else {
        WaitRun(s, events[1..], n - 1);
      }
    }
  }

  lemma RestCases(inbox: seq<Msg>, first: L.PollEvent)
    ensures RestOf(inbox, first) == if first == L.Child && inbox != [] then inbox[1..] else inbox
  {
  }

  lemma WaitUnfold(there: nat, events: seq<L.PollEvent>, n: nat)
    requires 0 < n < |events| && events[0] != L.EventFd && (events[0].SolverOutput? ==> events[0].verdict == 0)
    ensures var took := events[0] == L.Child && there > 0;
            WaitSteps(there, events[..n + 1]) ==
            if took then [HandleChild] + WaitSteps(there - 1, events[1..][..n]) else WaitSteps(there, events[1..][..n])
    ensures events[1..][n - 1] == events[n]
  {
    assert events[..n + 1][1..] == events[1..][..n];
  }

  /** A message that decides nothing, and then a wait. */
  lemma WaitTook(s: Sys, rest: seq<Step>, last: L.PollEvent)
    requires s.stage == Solving && s.inbox != [] && !L.EndsWait(s.inbox[0], s.callback) && Enabled(s, HandleChild)
    requires Legal(Apply(s, HandleChild), rest)
    requires Waited(Apply(s, HandleChild), Final(Apply(s, HandleChild), rest), last)
    ensures Legal(s, [HandleChild] + rest)
    ensures Final(s, [HandleChild] + rest) == Final(Apply(s, HandleChild), rest)
    ensures Results(s, [HandleChild] + rest) == Results(Apply(s, HandleChild), rest)
    ensures Waited(s, Final(s, [HandleChild] + rest), last)
  {
    hide *;
    HandleOne(s);
    var t := Apply(s, HandleChild);
    WaitedThrough(s, t, Final(t, rest), last);
    Prepend(s, HandleChild, rest);
    Verdicts.PrependResult(s, HandleChild, rest);
    NilLeft(Results(t, rest));
  }

  lemma SolveOne(s: Sys)
    requires Enabled(s, SendSolve)
    ensures var t := Apply(s, SendSolve);
            && t.stage == Solving && t.lib == s.lib.(state := L.Working) && t.inbox == s.inbox && t.callback == s.callback
            && t.hist.toSeed == s.hist.toSeed && t.kids == s.kids && ToChild(t) == ToChild(s) + [Solve]
            && Returned(s, SendSolve) == [] && L.Solved(t.lib) == L.Solved(s.lib)
  {
    NilRight(s.childPipe + s.childOut + [Solve]);
  }

  /** The library has gone from the round begun in s to the end of its wait in t. */
  predicate Solves(s: Sys, t: Sys, inbox: seq<Msg>, last: L.PollEvent) {
    && t.stage == Calling && t.lib == L.Solved(s.lib) && t.callback == s.callback && t.hist.toSeed == s.hist.toSeed
    && t.inbox == inbox && ToChild(t) == ToChild(s) + [Solve]
    && t.kids == (if last == L.EventFd then Kill(s).kids else s.kids)
  }

  lemma SolvesThrough(s: Sys, t: Sys, last: L.PollEvent)
    requires Enabled(s, SendSolve) && Waited(Apply(s, SendSolve), t, last)
    ensures Solves(s, t, t.inbox, last)
  {
    SolveOne(s);
    hide Enabled, Apply;
  }

  lemma SolveSteps(s: Sys, events: seq<L.PollEvent>, n: nat) returns (steps: seq<Step>)
    requires Enabled(s, SendSolve) && n < |events| && L.FirstDecides(s.inbox, events, s.callback, n)
    ensures Legal(s, steps) && Results(s, steps) == [ResultAt(s.inbox, events, n)]
    ensures Solves(s, Final(s, steps), s.inbox[L.Taken(s.inbox, events, n + 1)..], events[n])
  {
    SolveOne(s);
    var t := Apply(s, SendSolve);
    hide *;
    WaitRun(t, events, n);
    var waiting := WaitSteps(|s.inbox|, events[..n + 1]);
    steps := [SendSolve] + waiting;
    Prepend(s, SendSolve, waiting);
    Verdicts.PrependResult(s, SendSolve, waiting);
    NilLeft(Results(t, waiting));
    SolvesThrough(s, Final(t, waiting), events[n]);
  }

  lemma MirrorsAfter(l: L.Solver, s: Sys, t: Sys, last: L.PollEvent)
    requires Solves(s, t, l.inbox, last) && l.Abs() == L.Solved(s.lib) && l.callback == s.callback
    requires l.toSeed == s.hist.toSeed
    ensures Mirrors(l, t) && t.stage == Calling && ToChild(t) == ToChild(s) + [Solve]
    ensures t.kids == (if last == L.EventFd then Kill(s).kids else s.kids)
  {
  }

  /** quapi_solve in a round that was begun: the solve message and then the wait, and its
      result is the one result of these steps. */
  method SolveInStep(l: L.Solver, ghost s: Sys) returns (result: int, ghost steps: seq<Step>)
    requires Mirrors(l, s) && Enabled(s, SendSolve) && L.Ends(l.inbox, l.events, l.callback)
    requires l.allowMissing || !L.TooFewAssumptions(s.lib)
    modifies l
    ensures Legal(s, steps) && Results(s, steps) == [result] && Mirrors(l, Final(s, steps))
    ensures Final(s, steps).stage == Calling
    ensures l.toChild == old(l.toChild) + [Solve] && ToChild(Final(s, steps)) == ToChild(s) + [Solve]
    ensures if |l.killed| == |old(l.killed)| then Final(s, steps).kids == s.kids
            else l.killed == old(l.killed) + [s.lib.pid] && Final(s, steps).kids == Kill(s).kids
  {
    hide L.FirstDecides, L.Taken, L.Ends, L.Wakeups, ToChild, Apply, Results, Final, Legal, Kill, Solves;
    ghost var inbox, was := l.inbox, l.events;
    assert l.WaitStart() == 0 && inbox[0..] == inbox;
    result := l.QuapiSolve();
    ghost var n := |was| - |l.events| - 1;
    ReadLast(inbox, was, l.callback, n);
    hide Enabled;
    steps := SolveSteps(s, was, n);
    MirrorsAfter(l, s, Final(s, steps), was[n]);
  }

  /** The message read last is the one event n took. */
  lemma ReadLast(inbox: seq<Msg>, events: seq<L.PollEvent>, callback: bool, n: nat)
    requires n < |events| && L.FirstDecides(inbox, events, callback, n)
    ensures var rest := inbox[L.Taken(inbox, events, n + 1)..];
            && (events[n] == L.Child ==>
                  && |rest| < |inbox|
                  && ResultAt(inbox, events, n) == L.ResultOf(inbox[|inbox| - |rest| - 1]))
  {
  }
}
