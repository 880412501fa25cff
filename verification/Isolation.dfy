/** What every step of the protocol keeps, and its consequence: each child's solver
    is given the reference text of its own round, whatever the interleaving. */
module Isolation {
  import opened Messages
  import opened Transducer
  import opened PullMachine
  import opened Render
  import opened Seqs
  import opened Sessions
  import opened Leftovers
  import opened Qbf
  import opened Meaning
  import opened Protocol
  import L = Library

  // ----- the invariant, one predicate per concern -----

  /** The seed has consumed `taken`; the rest of what was written is still in its pipe. */
  ghost predicate SeedSync(seed: Proc, taken: seq<Msg>, pipe: seq<Msg>, toSeed: seq<Msg>) {
    Synced(seed, taken) && taken + pipe == toSeed
  }

  function SentBy(h: HeaderData, user: seq<int>): seq<int> { Effective(user, h.prefixdepth, 0) }

  /** What was written to the seed is what the user called, quantifiers flipped. */
  ghost predicate CallsSync(l: L.Lib, hist: Hist) {
    && Carries(hist.toSeed, l.header, SentBy(l.header, hist.user), hist.clauses, hist.open)
    && (l.state == L.Input ==> hist.clauses == [] && hist.open == [])
    && l.writtenQuantifiers == Variables(hist.user)
  }

  ghost predicate RoundOk(h: HeaderData, r: Round) {
    && Carries(r.sent, h, SentBy(h, r.user), r.clauses, [])
    && SolvableBase(SentBy(h, r.user), r.clauses) && NoZero(r.units)
  }

  ghost predicate RoundsOk(h: HeaderData, rounds: seq<Round>) {
    forall i :: 0 <= i < |rounds| ==> RoundOk(h, rounds[i])
  }

  function Forks(ms: seq<Msg>): nat {
    if ms == [] then 0 else (if ms[0].Fork? then 1 else 0) + Forks(ms[1..])
  }

  /** Children and rounds are in step: one fork each, in order; a round is ahead of its
      child only while the library waits for the fork report. */
  ghost predicate InOrder(stage: Stage, state: L.ApiState, kids: seq<Kid>, rounds: seq<Round>, taken: seq<Msg>,
                          toSeed: seq<Msg>)
  {
    && |kids| <= |rounds| <= |kids| + 1
    && Forks(taken) == |kids| && Forks(toSeed) == |rounds|
    && (|rounds| == |kids| + 1 ==>
          stage == Awaiting && toSeed == rounds[|kids|].sent && toSeed != [] && toSeed[|toSeed| - 1].Fork?)
    && (stage == Starting ==> rounds == [])
    && (stage == Awaiting || state == L.InputAssumptions || state == L.Working ==> rounds != [])
    && (stage == Solving ==> state == L.Working)
    && (stage == Awaiting || state == L.InputAssumptions ==> !rounds[|rounds| - 1].solved)
    && forall i :: 0 <= i < |kids| ==> kids[i].base == rounds[i].sent
  }

  ghost predicate KidsSync(kids: seq<Kid>) {
    forall i :: 0 <= i < |kids| ==> Synced(kids[i].proc, kids[i].base + kids[i].own)
  }

  /** What a round's child finds in its pipe: what was left over, then its own round. */
  function Due(r: Round): seq<Msg> { r.stale + RoundMsgs(r.units, r.solved) }

  ghost predicate RoundsLeft(rounds: seq<Round>) { forall i :: 0 <= i < |rounds| ==> LeftOver(rounds[i].stale) }

  ghost predicate KidsStop(kids: seq<Kid>) { forall i :: 0 <= i < |kids| ==> Unsolved(kids[i].own) }

  /** Earlier children read no more, and what they left is what the next round found. */
  ghost predicate Passed(kids: seq<Kid>, rounds: seq<Round>)
    requires |kids| <= |rounds|
  {
    forall i :: 0 <= i < |kids| && i + 1 < |rounds| ==>
      && kids[i].own + kids[i].ahead + rounds[i + 1].stale == Due(rounds[i])
      && (Heard(kids[i]) || !kids[i].alive)
  }

  /** The current child has read a part of what it finds; its stream and the pipe hold
      the rest. */
  ghost predicate PipeSync(kids: seq<Kid>, rounds: seq<Round>, pipe: seq<Msg>)
    requires |kids| <= |rounds|
  {
    && RoundsLeft(rounds) && KidsStop(kids) && Passed(kids, rounds)
    && (if |kids| < |rounds| then pipe == Due(rounds[|kids|]) && rounds[|kids|].units == [] && !rounds[|kids|].solved
        else if kids != [] then kids[|kids| - 1].own + kids[|kids| - 1].ahead + pipe == Due(rounds[|kids| - 1])
        else pipe == [])
  }

  function Reports(inbox: seq<Msg>): seq<int> {
    if inbox == [] then [] else (if inbox[0].ForkReport? then [inbox[0].pid] else []) + Reports(inbox[1..])
  }

  /** A fork report is on its way only while the library waits for it, and it names
      the current child; from then on the library holds that child's pid. */
  ghost predicate ReportsSync(stage: Stage, pid: int, kids: seq<Kid>, rounds: seq<Round>, inbox: seq<Msg>) {
    && Reports(inbox) == (if stage == Awaiting && kids != [] && |kids| == |rounds| then [kids[|kids| - 1].pid] else [])
    && (stage != Awaiting && rounds != [] ==> kids != [] && pid == kids[|kids| - 1].pid)
  }

  ghost predicate Inv(s: Sys) {
    && SeedSync(s.seed, s.hist.taken, s.seedPipe + s.seedOut, s.hist.toSeed)
    && CallsSync(s.lib, s.hist)
    && RoundsOk(s.lib.header, s.hist.rounds)
    && InOrder(s.stage, s.lib.state, s.kids, s.hist.rounds, s.hist.taken, s.hist.toSeed)
    && KidsSync(s.kids)
    && ReportsSync(s.stage, s.lib.pid, s.kids, s.hist.rounds, s.inbox)
    && (s.hist.alone ==> PipeSync(s.kids, s.hist.rounds, s.childPipe + s.childOut))
  }

  // ----- small facts -----

  lemma {:induction false} ForksConcat(a: seq<Msg>, b: seq<Msg>)
    ensures Forks(a + b) == Forks(a) + Forks(b)
  {
    if a == [] {
      assert a + b == b;
    } else {
      assert (a + b)[1..] == a[1..] + b;
      ForksConcat(a[1..], b);
    }
  }

  lemma ForksSnoc(a: seq<Msg>, m: Msg)
    ensures Forks(a + [m]) == Forks(a) + (if m.Fork? then 1 else 0)
  {
    ForksConcat(a, [m]);
    assert [m][1..] == [];
  }

  lemma {:induction false} EffectiveSnoc(qs: seq<int>, q: int, depth: int, n: nat)
    ensures Effective(qs + [q], depth, n) ==
            Effective(qs, depth, n) + [if q < 0 && n + Variables(qs) < depth then -q else q]
    ensures Variables(qs + [q]) == Variables(qs) + (if q == 0 then 0 else 1)
    decreases |qs|
  {
    if qs == [] {
      assert qs + [q] == [q] && [q][1..] == [];
    } else {
      assert (qs + [q])[1..] == qs[1..] + [q];
      EffectiveSnoc(qs[1..], q, depth, if qs[0] == 0 then n else n + 1);
    }
  }

  // ----- the library's steps -----

  lemma InitKeeps(h: HeaderData, exitCodeMode: bool, callback: bool)
    ensures Inv(Init(h, exitCodeMode, callback))
  {
    var s := Init(h, exitCodeMode, callback);
    NewbornSynced();
    var m := Header(API_VERSION, h);
    assert Plain([m]) == [m] && [m][1..] == [];
    assert BaseMsgs(API_VERSION, h, [], []) + LiteralMsgs([]) == [m];
    assert Expected(BOOT, m);
    hide Process, Synced;
    assert Conforming(BOOT, [m]);
    assert [] + (s.seedPipe + s.seedOut) == s.hist.toSeed;
    assert Forks([m]) == 0;
  }

  lemma SeedWrites(seed: Proc, taken: seq<Msg>, pipe: seq<Msg>, out: seq<Msg>, toSeed: seq<Msg>, m: Msg)
    requires SeedSync(seed, taken, pipe + out, toSeed)
    ensures SeedSync(seed, taken, pipe + (out + [m]), toSeed + [m])
    ensures SeedSync(seed, taken, (pipe + out + [m]) + [], toSeed + [m])
  {
    hide Synced;
    assert taken + (pipe + (out + [m])) == taken + (pipe + out) + [m];
    assert taken + ((pipe + out + [m]) + []) == taken + (pipe + out) + [m];
  }

  lemma QuantifyKeeps(s: Sys, q: int)
    requires Inv(s) && Enabled(s, Quantify(q))
    ensures Inv(DoQuantify(s, q))
  {
    hide RoundsOk, KidsSync, PipeSync, Synced, Carries;
    var m := L.SentAs(s.lib, q);
    EffectiveSnoc(s.hist.user, q, s.lib.header.prefixdepth, 0);
    CarriesQuantifier(s.hist.toSeed, s.lib.header, Sent(s), m);
    hide BlockOpen;
    SeedWrites(s.seed, s.hist.taken, s.seedPipe, s.seedOut, s.hist.toSeed, Quantifier(m));
    ForksSnoc(s.hist.toSeed, Quantifier(m));
    hide Carries, SeedSync, Forks, Effective;
  }

  lemma AddKeeps(s: Sys, l: int)
    requires Inv(s) && Enabled(s, Add(l))
    ensures Inv(DoAdd(s, l))
  {
    hide RoundsOk, KidsSync, PipeSync, Synced, Carries;
    if l == 0 {
      CarriesClauseEnd(s.hist.toSeed, s.lib.header, Sent(s), s.hist.clauses, s.hist.open);
    } else {
      CarriesLiteral(s.hist.toSeed, s.lib.header, Sent(s), s.hist.clauses, s.hist.open, l);
    }
    SeedWrites(s.seed, s.hist.taken, s.seedPipe, s.seedOut, s.hist.toSeed, Literal(l));
    ForksSnoc(s.hist.toSeed, Literal(l));
    hide SeedSync, Forks, Effective;
  }

  lemma NothingYet()
    ensures RoundMsgs([], false) == [] && LeftOver([])
  {
  }

  lemma DueLeftOver(r: Round)
    requires LeftOver(r.stale) && NoZero(r.units)
    ensures LeftOver(Due(r))
  {
    RoundTidy(r.units, r.solved);
    LeftOverConcat(r.stale, RoundMsgs(r.units, r.solved));
  }

  lemma DueOfNew(r: Round)
    requires r.units == [] && !r.solved
    ensures Due(r) == r.stale
  {
    NothingYet();
    NilRight(r.stale);
  }

  lemma PipeFork(kids: seq<Kid>, rounds: seq<Round>, pipe: seq<Msg>, r: Round)
    requires |kids| == |rounds| && PipeSync(kids, rounds, pipe)
    requires kids != [] ==> NoZero(rounds[|rounds| - 1].units)
    requires r.stale == pipe && r.units == [] && !r.solved
    requires kids == [] || Heard(kids[|kids| - 1]) || !kids[|kids| - 1].alive
    ensures PipeSync(kids, rounds + [r], pipe)
  {
    hide Heard, LeftOver, RoundMsgs, Unsolved, Due;
    DueOfNew(r);
    NilRight(pipe);
    if kids == [] {
      NothingYet();
    } else {
      var n := |kids| - 1;
      var due, read := Due(rounds[n]), kids[n].own + kids[n].ahead;
      DueLeftOver(rounds[n]);
      LeftOverSuffix(due, |read|);
      assert due[|read|..] == pipe;
    }
  }

  lemma ForkOrder(s: Sys, r: Round)
    requires s.stage == Calling && r.sent == s.hist.toSeed + [Fork(s.lib.exitCodeMode)] && !r.solved
    requires InOrder(s.stage, s.lib.state, s.kids, s.hist.rounds, s.hist.taken, s.hist.toSeed)
    requires ReportsSync(s.stage, s.lib.pid, s.kids, s.hist.rounds, s.inbox)
    ensures |s.kids| == |s.hist.rounds|
    ensures InOrder(Awaiting, L.InputAssumptions, s.kids, s.hist.rounds + [r], s.hist.taken, r.sent)
    ensures ReportsSync(Awaiting, s.lib.pid, s.kids, s.hist.rounds + [r], s.inbox)
  {
    ForksSnoc(s.hist.toSeed, Fork(s.lib.exitCodeMode));
    hide Forks, Reports;
  }

  lemma RoundAdded(h: HeaderData, rounds: seq<Round>, r: Round)
    requires RoundsOk(h, rounds) && RoundOk(h, r)
    ensures RoundsOk(h, rounds + [r])
  {
    hide RoundOk;
  }

  lemma LastRoundOk(h: HeaderData, rounds: seq<Round>)
    requires RoundsOk(h, rounds)
    ensures rounds != [] ==> NoZero(rounds[|rounds| - 1].units)
  {
    if rounds != [] {
      assert RoundOk(h, rounds[|rounds| - 1]);
    }
    hide Carries, Effective, SolvableBase;
  }

  lemma SendForkKeeps(s: Sys)
    requires Inv(s) && Enabled(s, SendFork)
    ensures Inv(DoSendFork(s))
  {
    hide KidsSync, PipeSync, Synced, Carries, Heard, SeedSync, Forks, InOrder, ReportsSync, RoundsOk, SolvableBase;
    hide Effective;
    var m, h := Fork(s.lib.exitCodeMode), s.hist;
    var r := Round(h.toSeed + [m], h.user, h.clauses, s.childPipe + s.childOut, [], false);
    CarriesFork(h.toSeed, s.lib.header, Sent(s), h.clauses, s.lib.exitCodeMode);
    SeedWrites(s.seed, h.taken, s.seedPipe, s.seedOut, h.toSeed, m);
    ForkOrder(s, r);
    RoundAdded(s.lib.header, h.rounds, r);
    if DoSendFork(s).hist.alone {
      OrderBounds(s);
      LastRoundOk(s.lib.header, h.rounds);
      PipeFork(s.kids, h.rounds, s.childPipe + s.childOut, r);
    }
  }

  lemma TakeReportFacts(s: Sys)
    requires s.inbox != []
    ensures var m := s.inbox[0];
            if m.ForkReport?
            then Reports(s.inbox) != [] && Reports(s.inbox)[0] == m.pid
                 && Reports(s.inbox[1..]) == Reports(s.inbox)[1..]
            else Reports(s.inbox) == Reports(s.inbox[1..])
  {
    assert !s.inbox[0].ForkReport? ==> [] + Reports(s.inbox[1..]) == Reports(s.inbox[1..]);
  }

  lemma TakeReportKeeps(s: Sys)
    requires Inv(s) && Enabled(s, TakeReport)
    ensures Inv(DoTakeReport(s))
  {
    hide KidsSync, PipeSync, RoundsOk, SeedSync, Carries, SentBy, Variables, Reports, Forks, Effective;
    TakeReportFacts(s);
  }

  /** The library writes more of the current round. */
  lemma PipeGrows(kids: seq<Kid>, rounds: seq<Round>, pipe: seq<Msg>, r: Round, more: seq<Msg>)
    requires |kids| == |rounds| && kids != [] && PipeSync(kids, rounds, pipe)
    requires r.stale == rounds[|rounds| - 1].stale && Due(r) == Due(rounds[|rounds| - 1]) + more
    ensures PipeSync(kids, rounds[|rounds| - 1 := r], pipe + more)
  {
    hide RoundMsgs, LeftOver, Unsolved, Heard;
    var n := |kids| - 1;
    Assoc(kids[n].own + kids[n].ahead, pipe, more);
  }

  lemma DueGrows(r: Round, u: int)
    requires !r.solved
    ensures Due(r.(units := r.units + [u])) == Due(r) + [Literal(u), Literal(0)]
    ensures Due(r.(solved := true)) == Due(r) + [Solve]
  {
    RoundSnoc(r.units, u);
    hide RoundMsgs;
    Assoc(r.stale, RoundMsgs(r.units, false), [Literal(u), Literal(0)]);
    Assoc(r.stale, RoundMsgs(r.units, false), [Solve]);
  }

  lemma AssumeKeeps(s: Sys, l: int)
    requires Inv(s) && Enabled(s, Assume(l))
    ensures Inv(DoAssume(s, l))
  {
    hide KidsSync, PipeSync, Synced, Carries, SentBy, Variables, Reports, SeedSync, Forks, Effective, SolvableBase, Due;
    var rounds := s.hist.rounds;
    if s.hist.alone {
      var r := rounds[|rounds| - 1];
      DueGrows(r, l);
      PipeGrows(s.kids, rounds, s.childPipe + s.childOut, r.(units := r.units + [l]), [Literal(l), Literal(0)]);
      Assoc(s.childPipe, s.childOut, [Literal(l), Literal(0)]);
    }
    assert RoundOk(s.lib.header, rounds[|rounds| - 1]);
  }

  lemma SendSolveKeeps(s: Sys)
    requires Inv(s) && Enabled(s, SendSolve)
    ensures Inv(DoSendSolve(s))
  {
    hide KidsSync, PipeSync, Synced, Carries, SeedSync, Forks, Effective, SolvableBase;
    var rounds := s.hist.rounds;
    if s.hist.alone {
      var r := rounds[|rounds| - 1];
      DueGrows(r, 0);
      PipeGrows(s.kids, rounds, s.childPipe + s.childOut, r.(solved := true), [Solve]);
      NilRight(s.childPipe + s.childOut + [Solve]);
    }
    assert RoundOk(s.lib.header, rounds[|rounds| - 1]);
  }

  lemma ReturnKeeps(s: Sys)
    requires Inv(s) && (s.stage == Solving || s.stage == Calling) && s.lib.state != L.Input
    ensures Inv(Return(s))
  {
    hide KidsSync, PipeSync, RoundsOk, Carries, SeedSync, Forks, Effective;
  }

  // Replacing a child by one of the same pid and messages.

  lemma OrderBounds(s: Sys)
    requires InOrder(s.stage, s.lib.state, s.kids, s.hist.rounds, s.hist.taken, s.hist.toSeed)
    ensures |s.kids| <= |s.hist.rounds|
  {
    hide Forks;
  }

  lemma SetKidSync(kids: seq<Kid>, i: nat, k: Kid)
    requires i < |kids| && KidsSync(kids) && Synced(k.proc, k.base + k.own)
    ensures KidsSync(kids[i := k])
  {
    hide Synced;
  }

  lemma SetKidOrder(s: Sys, i: nat, k: Kid)
    requires i < |s.kids| && k.base == s.kids[i].base
    requires InOrder(s.stage, s.lib.state, s.kids, s.hist.rounds, s.hist.taken, s.hist.toSeed)
    ensures InOrder(s.stage, s.lib.state, s.kids[i := k], s.hist.rounds, s.hist.taken, s.hist.toSeed)
  {
    hide Forks;
  }

  lemma SetKidReports(s: Sys, i: nat, k: Kid)
    requires i < |s.kids| && k.pid == s.kids[i].pid && ReportsSync(s.stage, s.lib.pid, s.kids, s.hist.rounds, s.inbox)
    ensures ReportsSync(s.stage, s.lib.pid, s.kids[i := k], s.hist.rounds, s.inbox)
  {
    hide Reports;
  }

  lemma SetKidPipe(kids: seq<Kid>, rounds: seq<Round>, pipe: seq<Msg>, i: nat, k: Kid)
    requires i < |kids| <= |rounds| && k.own == kids[i].own && k.ahead == kids[i].ahead
    requires (k.alive ==> kids[i].alive) && PipeSync(kids, rounds, pipe)
    ensures PipeSync(kids[i := k], rounds, pipe)
  {
    hide RoundMsgs, Due, LeftOver, Unsolved;
  }

  /** A child's death touches nothing the invariant speaks of. */
  lemma LifeKeeps(s: Sys, i: nat, k: Kid)
    requires Inv(s) && i < |s.kids| && k.proc == s.kids[i].proc && k.base == s.kids[i].base && k.own == s.kids[i].own
    requires k.ahead == s.kids[i].ahead && k.pid == s.kids[i].pid && !k.alive
    ensures Inv(SetKid(s, i, k))
  {
    hide InOrder, Synced, PipeSync, ReportsSync, RoundsOk, SeedSync, CallsSync;
    SetKidSync(s.kids, i, k);
    SetKidOrder(s, i, k);
    SetKidReports(s, i, k);
    if s.hist.alone {
      assert |s.kids| <= |s.hist.rounds| by { OrderBounds(s); }
      SetKidPipe(s.kids, s.hist.rounds, s.childPipe + s.childOut, i, k);
    }
  }

  lemma KillKeeps(s: Sys)
    requires Inv(s)
    ensures Inv(Kill(s))
  {
    hide Inv;
    if s.kids != [] && s.kids[|s.kids| - 1].alive {
      LifeKeeps(s, |s.kids| - 1, s.kids[|s.kids| - 1].(alive := false, status := 0));
    }
  }

  lemma NoReports()
    ensures Reports([]) == []
  {
  }

  lemma ReportsCons(ms: seq<Msg>)
    requires ms != []
    ensures Reports(ms) == (if ms[0].ForkReport? then [ms[0].pid] else []) + Reports(ms[1..])
  {
  }

  lemma {:induction false} ReportsConcat(a: seq<Msg>, b: seq<Msg>)
    ensures Reports(a + b) == Reports(a) + Reports(b)
  {
    hide Reports;
    NoReports();
    if a == [] {
      NilLeft(b);
      NilLeft(Reports(b));
    } else {
      TailConcat(a, b);
      ReportsConcat(a[1..], b);
      ReportsCons(a);
      ReportsCons(a + b);
      Assoc(if a[0].ForkReport? then [a[0].pid] else [], Reports(a[1..]), Reports(b));
    }
  }

  lemma ReportsSnoc(a: seq<Msg>, m: Msg)
    ensures Reports(a + [m]) == if m.ForkReport? then Reports(a) + [m.pid] else Reports(a)
  {
    ReportsConcat(a, [m]);
    assert [m][1..] == [];
  }

  /** Messages that are not fork reports come and go freely. */
  lemma InboxKeeps(s: Sys, inbox: seq<Msg>, waiting: bool, exitTaken: bool)
    requires Inv(s) && Reports(inbox) == Reports(s.inbox)
    ensures Inv(s.(inbox := inbox, waiting := waiting, hist := s.hist.(exitTaken := exitTaken)))
  {
    hide KidsSync, PipeSync, RoundsOk, Carries, SeedSync, Forks, Effective, Reports;
  }

  lemma FlushSeedKeeps(s: Sys, n: nat)
    requires Inv(s) && n <= |s.seedOut|
    ensures Inv(s.(seedPipe := s.seedPipe + s.seedOut[..n], seedOut := s.seedOut[n..]))
  {
    hide KidsSync, PipeSync, RoundsOk, Carries, SeedSync, Forks, Effective;
    assert s.seedPipe + s.seedOut[..n] + s.seedOut[n..] == s.seedPipe + s.seedOut;
  }

  lemma FlushChildKeeps(s: Sys, n: nat)
    requires Inv(s) && n <= |s.childOut|
    ensures Inv(s.(childPipe := s.childPipe + s.childOut[..n], childOut := s.childOut[n..]))
  {
    hide KidsSync, PipeSync, RoundsOk, Carries, SeedSync, Forks, Effective;
    assert s.childPipe + s.childOut[..n] + s.childOut[n..] == s.childPipe + s.childOut;
  }

  // ----- the seed's steps -----

  lemma SeedReadKeeps(s: Sys, k: nat)
    requires Enabled(s, SeedRead(k)) && Inv(s)
    ensures Inv(Apply(s, SeedRead(k)))
  {
    hide KidsSync, PipeSync, RoundsOk, CallsSync, InOrder, ReportsSync, Synced, BeginRead;
    BeginReadSynced(s.seed, s.hist.taken, k);
  }

  /** The next message of the seed is one it expects. */
  lemma SeedExpects(seed: Proc, taken: seq<Msg>, pipe: seq<Msg>, toSeed: seq<Msg>)
    requires SeedSync(seed, taken, pipe, toSeed) && Conforming(BOOT, toSeed) && pipe != []
    ensures Expected(After(BOOT, taken), pipe[0])
  {
    hide Synced, Process, Expected;
    ConformingConcat(BOOT, taken, pipe);
  }

  /** A fork between clauses leaves the seed asking for its next message. */
  lemma ForkAsks(p: Proc, taken: seq<Msg>, m: Msg)
    requires Synced(p, taken) && p.call.Reading? && p.rt.out != Hung && Expected(After(BOOT, taken), m) && m.Fork?
    ensures Deliver(p, m).rt.out == NeedMessage
  {
    SettleFresh(p.rt, m);
    var w := After(BOOT, taken);
    hide After, Emit;
    SpinStep(Receive(w, m), m, 3);
  }

  lemma InOrderTake(s: Sys, m: Msg)
    requires InOrder(s.stage, s.lib.state, s.kids, s.hist.rounds, s.hist.taken, s.hist.toSeed) && !m.Fork?
    ensures InOrder(s.stage, s.lib.state, s.kids, s.hist.rounds, s.hist.taken + [m], s.hist.toSeed)
  {
    ForksSnoc(s.hist.taken, m);
    hide Forks;
  }

  lemma TwoForks(ms: seq<Msg>)
    requires |ms| > 1 && ms[0].Fork? && ms[|ms| - 1].Fork?
    ensures Forks(ms) >= 2
  {
    var n := |ms| - 1;
    assert ms == ms[..n] + [ms[n]] && ms[..n][0] == ms[0];
    ForksSnoc(ms[..n], ms[n]);
  }

  /** The fork the seed handles is the last message written to it. */
  lemma ForkIsLast(taken: seq<Msg>, pipe: seq<Msg>, toSeed: seq<Msg>)
    requires taken + pipe == toSeed && pipe != [] && pipe[0].Fork?
    requires Forks(toSeed) == Forks(taken) + 1 && toSeed[|toSeed| - 1].Fork?
    ensures taken + [pipe[0]] == toSeed
  {
    ForksConcat(taken, pipe);
    if |pipe| > 1 {
      TwoForks(pipe);
      assert false;
    }
  }

  lemma CarriesConforms(s: Sys)
    requires CallsSync(s.lib, s.hist)
    ensures Conforming(BOOT, s.hist.toSeed)
  {
    hide Conforming, Plain, Effective;
  }

  lemma TakeOne(taken: seq<Msg>, pipe: seq<Msg>, out: seq<Msg>)
    requires pipe != []
    ensures taken + [pipe[0]] + (pipe[1..] + out) == taken + (pipe + out)
    ensures (pipe + out)[0] == pipe[0]
  {
  }

  lemma SeedTakes(s: Sys)
    requires !s.waiting && s.seed.call.Reading? && s.seed.rt.out != Hung && s.seedPipe != [] && Inv(s)
    ensures var m := s.seedPipe[0];
            && Expected(After(BOOT, s.hist.taken), m)
            && SeedSync(Deliver(s.seed, m), s.hist.taken + [m], s.seedPipe[1..] + s.seedOut, s.hist.toSeed)
  {
    hide KidsSync, PipeSync, RoundsOk, InOrder, ReportsSync, Synced, Expected, Deliver, After, Effective, Carries;
    var m := s.seedPipe[0];
    var pipe := s.seedPipe + s.seedOut;
    assert Conforming(BOOT, s.hist.toSeed) by { CarriesConforms(s); }
    hide Conforming;
    SeedExpects(s.seed, s.hist.taken, pipe, s.hist.toSeed);
    DeliverSynced(s.seed, s.hist.taken, m);
    TakeOne(s.hist.taken, s.seedPipe, s.seedOut);
  }

  /** The seed has taken its next message, which is not a fork. */
  function Taken(s: Sys, d: Proc): Sys
    requires s.seedPipe != []
  {
    s.(seed := d, seedPipe := s.seedPipe[1..], hist := s.hist.(taken := s.hist.taken + [s.seedPipe[0]]))
  }

  lemma TakenKeeps(s: Sys, d: Proc)
    requires Inv(s) && s.seedPipe != [] && !s.seedPipe[0].Fork?
    requires SeedSync(d, s.hist.taken + [s.seedPipe[0]], s.seedPipe[1..] + s.seedOut, s.hist.toSeed)
    ensures Inv(Taken(s, d))
  {
    hide KidsSync, PipeSync, RoundsOk, Carries, SeedSync, InOrder, ReportsSync, Effective;
    InOrderTake(s, s.seedPipe[0]);
  }

  lemma PlainMessageKeeps(s: Sys, pid: int)
    requires s.seedPipe != [] && s.seed.call.Reading? && !s.waiting && s.seed.rt.out != Hung && !s.seedPipe[0].Fork?
             && Inv(s)
    ensures Inv(DoSeedReceive(s, pid))
  {
    hide Inv, Deliver, SeedSync, Expected, After;
    var t := Taken(s, Deliver(s.seed, s.seedPipe[0]));
    SeedTakes(s);
    TakenKeeps(s, Deliver(s.seed, s.seedPipe[0]));
    ReportsSnoc(s.inbox, Started(API_VERSION));
    InboxKeeps(t, s.inbox + [Started(API_VERSION)], t.waiting, t.hist.exitTaken);
  }

  lemma PipeNewKid(kids: seq<Kid>, rounds: seq<Round>, pipe: seq<Msg>, k: Kid)
    requires |rounds| == |kids| + 1 && PipeSync(kids, rounds, pipe) && k.own == [] && k.ahead == []
    ensures PipeSync(kids + [k], rounds, pipe)
  {
    hide Due, LeftOver;
    NilLeft(k.ahead);
    NilLeft(pipe);
  }

  lemma InOrderFork(s: Sys, k: Kid)
    requires InOrder(s.stage, s.lib.state, s.kids, s.hist.rounds, s.hist.taken, s.hist.toSeed)
    requires s.seedPipe != [] && s.seedPipe[0].Fork? && s.hist.taken + (s.seedPipe + s.seedOut) == s.hist.toSeed
    requires k.base == s.hist.taken + [s.seedPipe[0]]
    ensures |s.hist.rounds| == |s.kids| + 1
    ensures InOrder(s.stage, s.lib.state, s.kids + [k], s.hist.rounds, k.base, s.hist.toSeed)
  {
    var m, pipe := s.seedPipe[0], s.seedPipe + s.seedOut;
    ForksSnoc(s.hist.taken, m);
    ForksConcat(s.hist.taken + [m], pipe[1..]);
    assert s.hist.taken + [m] + pipe[1..] == s.hist.toSeed;
    hide Forks;
    ForkIsLast(s.hist.taken, pipe, s.hist.toSeed);
  }

  /** The seed has forked on its next message. */
  function Forked(s: Sys, d: Proc, pid: int): Sys
    requires s.seedPipe != [] && s.seedPipe[0].Fork?
  {
    var taken := s.hist.taken + [s.seedPipe[0]];
    s.(seed := d, seedPipe := s.seedPipe[1..], hist := s.hist.(taken := taken),
       kids := s.kids + [Kid(d, pid, true, 0, taken, [], [])], inbox := s.inbox + [ForkReport(pid)],
       waiting := s.seedPipe[0].waitForExitCode)
  }

  lemma ForkedKeeps(s: Sys, d: Proc, pid: int)
    requires s.seedPipe != [] && s.seedPipe[0].Fork? && Inv(s)
    requires SeedSync(d, s.hist.taken + [s.seedPipe[0]], s.seedPipe[1..] + s.seedOut, s.hist.toSeed)
    ensures Inv(Forked(s, d, pid))
  {
    hide PipeSync, RoundsOk, InOrder, Carries, Effective, Synced, Reports;
    var k := Kid(d, pid, true, 0, s.hist.taken + [s.seedPipe[0]], [], []);
    InOrderFork(s, k);
    if s.hist.alone {
      PipeNewKid(s.kids, s.hist.rounds, s.childPipe + s.childOut, k);
    }
    assert k.base + k.own == k.base;
    ReportsSnoc(s.inbox, ForkReport(pid));
    InOrderStage(s);
    assert Reports(s.inbox) == [];
    assert Reports(s.inbox + [ForkReport(pid)]) == [pid];
  }

  lemma InOrderStage(s: Sys)
    requires InOrder(s.stage, s.lib.state, s.kids, s.hist.rounds, s.hist.taken, s.hist.toSeed)
    ensures |s.kids| <= |s.hist.rounds| && (|s.hist.rounds| == |s.kids| + 1 ==> s.stage == Awaiting)
  {
    hide Forks;
  }

  lemma ForkMessageKeeps(s: Sys, pid: int)
    requires Enabled(s, SeedReceive(pid)) && s.seedPipe[0].Fork? && Inv(s)
    ensures Inv(Apply(s, SeedReceive(pid)))
  {
    hide KidsSync, PipeSync, RoundsOk, InOrder, CallsSync, ReportsSync, Synced, Deliver, After, Expected;
    SeedTakes(s);
    ForkAsks(s.seed, s.hist.taken, s.seedPipe[0]);
    hide Inv, SeedSync;
    ForkedKeeps(s, Deliver(s.seed, s.seedPipe[0]), pid);
  }

  // ----- the children's steps -----

  lemma ProcKeeps(s: Sys, i: nat, p: Proc)
    requires Inv(s) && i < |s.kids| && Synced(p, s.kids[i].base + s.kids[i].own)
    ensures Inv(SetKid(s, i, s.kids[i].(proc := p)))
  {
    hide InOrder, KidsSync, PipeSync, ReportsSync, RoundsOk, SeedSync, CallsSync, Synced;
    var k := s.kids[i].(proc := p);
    SetKidSync(s.kids, i, k);
    SetKidOrder(s, i, k);
    SetKidReports(s, i, k);
    if s.hist.alone {
      assert |s.kids| <= |s.hist.rounds| by { OrderBounds(s); }
      SetKidPipe(s.kids, s.hist.rounds, s.childPipe + s.childOut, i, k);
    }
  }

  lemma KidReadKeeps(s: Sys, i: nat, k: nat)
    requires Enabled(s, KidRead(i, k)) && Inv(s)
    ensures Inv(Apply(s, KidRead(i, k)))
  {
    hide Synced, RoundsOk, CallsSync, SeedSync, InOrder, PipeSync, ReportsSync, BeginRead;
    assert Synced(s.kids[i].proc, s.kids[i].base + s.kids[i].own);
    BeginReadSynced(s.kids[i].proc, s.kids[i].base + s.kids[i].own, k);
    hide Inv;
    ProcKeeps(s, i, BeginRead(s.kids[i].proc, k));
  }

  /** The text a child prints that finds what is due in its pipe, up to the first solve. */
  function GivenText(h: HeaderData, r: Round): string {
    TextWith(h, SentBy(h, r.user), r.clauses, Stray(Due(r)), ReadUnits(Due(r)))
  }

  lemma DueText(h: HeaderData, r: Round)
    requires RoundOk(h, r) && LeftOver(r.stale) && Solve in Due(r)
    ensures Emit(BOOT, r.sent + FirstSolve(Due(r))) == GivenText(h, r)
    ensures var a := After(BOOT, r.sent + FirstSolve(Due(r))); var n := |r.clauses| + |ReadUnits(Due(r))|;
            a.phase == Working && a.written == n + Missing(h, n)
  {
    hide Carries, Due, LeftOver, Effective, TextWith, SolvableBase;
    DueLeftOver(r);
    ReadText(r.sent, h, SentBy(h, r.user), r.clauses, Due(r));
  }

  /** A child that has read a solve message takes no further message. */
  lemma HeardKidIsDeaf(h: HeaderData, k: Kid, r: Round, rest: seq<Msg>)
    requires RoundOk(h, r) && LeftOver(r.stale) && k.base == r.sent && k.own + rest == Due(r)
    requires Synced(k.proc, k.base + k.own) && Unsolved(k.own) && Heard(k)
    ensures !k.proc.call.Reading?
  {
    OwnPrefix(k.own, rest);
    assert k.own[|k.own| - 1] in k.own && (k.own + rest)[|k.own| - 1] == Solve;
    DueText(h, r);
    hide Emit, After, RoundOk, LeftOver, Due, FirstSolve, GivenText, Owed, RtOk;
  }

  /** The current child's stream takes messages out of the pipe, or the child out of its stream. */
  lemma PipeMoves(kids: seq<Kid>, rounds: seq<Round>, pipe: seq<Msg>, k: Kid, rest: seq<Msg>)
    requires kids != [] && |kids| == |rounds| && PipeSync(kids, rounds, pipe) && Unsolved(k.own)
    requires var c := kids[|kids| - 1]; k.own + k.ahead + rest == c.own + c.ahead + pipe
    ensures PipeSync(kids[|kids| - 1 := k], rounds, rest)
  {
    hide Due, LeftOver, Unsolved, Heard;
  }

  /** Only the current child reads, if every round began alone. */
  lemma ReaderIsCurrent(s: Sys, i: nat)
    requires i < |s.kids| && s.kids[i].alive && s.kids[i].proc.call.Reading?
    requires |s.kids| <= |s.hist.rounds| && PipeSync(s.kids, s.hist.rounds, s.childPipe + s.childOut)
    requires RoundsOk(s.lib.header, s.hist.rounds) && KidsSync(s.kids)
    requires forall j :: 0 <= j < |s.kids| ==> s.kids[j].base == s.hist.rounds[j].sent
    ensures i + 1 == |s.kids| == |s.hist.rounds| && !Heard(s.kids[i])
  {
    hide Synced, Due, LeftOver, Unsolved, RoundOk;
    var k, r := s.kids[i], s.hist.rounds[i];
    var rest := k.ahead + if i + 1 < |s.hist.rounds| then s.hist.rounds[i + 1].stale else s.childPipe + s.childOut;
    Assoc(k.own, k.ahead, if i + 1 < |s.hist.rounds| then s.hist.rounds[i + 1].stale else s.childPipe + s.childOut);
    assert RoundOk(s.lib.header, r) && LeftOver(r.stale) && Unsolved(k.own) && Synced(k.proc, k.base + k.own);
    assert k.own + rest == Due(r);
    hide Passed, PipeSync, RoundsOk, KidsSync, RoundsLeft, KidsStop;
    if Heard(k) {
      HeardKidIsDeaf(s.lib.header, k, r, rest);
    }
  }

  lemma StopsLater(own: seq<Msg>, m: Msg)
    requires Unsolved(own) && (own == [] || own[|own| - 1] != Solve)
    ensures Unsolved(own + [m])
  {
  }

  lemma FetchMoves(k: Kid, pipe: seq<Msg>, out: seq<Msg>, n: nat)
    requires n <= |pipe|
    ensures k.own + (k.ahead + pipe[..n]) + (pipe[n..] + out) == k.own + k.ahead + (pipe + out)
  {
  }

  lemma ReceiveMoves(own: seq<Msg>, ahead: seq<Msg>, pipe: seq<Msg>)
    requires ahead != []
    ensures own + [ahead[0]] + ahead[1..] + pipe == own + ahead + pipe
  {
    HeadTail(ahead);
    Assoc(own, [ahead[0]], ahead[1..]);
  }

  lemma KidFetchKeeps(s: Sys, i: nat, n: nat)
    requires i < |s.kids| && n <= |s.childPipe| && s.kids[i].alive && s.kids[i].proc.call.Reading? && Inv(s)
    ensures Inv(DoKidFetch(s, i, n))
  {
    hide Synced, CallsSync, SeedSync, RoundsOk, PipeSync, InOrder, ReportsSync, KidsSync;
    var k := s.kids[i].(ahead := s.kids[i].ahead + s.childPipe[..n]);
    assert Synced(k.proc, k.base + k.own) by { KidAt(s.kids, i); }
    SetKidSync(s.kids, i, k);
    SetKidOrder(s, i, k);
    SetKidReports(s, i, k);
    if s.hist.alone {
      CurrentReads(s, i);
      FetchMoves(s.kids[i], s.childPipe, s.childOut, n);
      PipeMoves(s.kids, s.hist.rounds, s.childPipe + s.childOut, k, s.childPipe[n..] + s.childOut);
    }
  }

  lemma KidAt(kids: seq<Kid>, i: nat)
    requires i < |kids| && KidsSync(kids)
    ensures Synced(kids[i].proc, kids[i].base + kids[i].own)
  {
    hide Synced;
  }

  lemma CurrentReads(s: Sys, i: nat)
    requires i < |s.kids| && s.kids[i].alive && s.kids[i].proc.call.Reading? && s.hist.alone && Inv(s)
    ensures i + 1 == |s.kids| == |s.hist.rounds| && !Heard(s.kids[i]) && Unsolved(s.kids[i].own)
  {
    hide Synced, CallsSync, SeedSync, RoundsOk, ReportsSync, KidsSync, Forks, Due, LeftOver, Unsolved, Heard;
    ReaderIsCurrent(s, i);
  }

  lemma KidReceiveKeeps(s: Sys, i: nat)
    requires i < |s.kids| && s.kids[i].alive && s.kids[i].proc.call.Reading? && s.kids[i].proc.rt.out != Hung
    requires s.kids[i].ahead != [] && Inv(s)
    ensures Inv(DoKidReceive(s, i))
  {
    hide Synced, CallsSync, SeedSync, RoundsOk, PipeSync, InOrder, ReportsSync, KidsSync, Deliver;
    var c, m := s.kids[i], s.kids[i].ahead[0];
    var k := c.(proc := Deliver(c.proc, m), ahead := c.ahead[1..], own := c.own + [m]);
    assert Synced(c.proc, c.base + c.own) by { KidAt(s.kids, i); }
    DeliverSynced(c.proc, c.base + c.own, m);
    Assoc(c.base, c.own, [m]);
    SetKidSync(s.kids, i, k);
    SetKidOrder(s, i, k);
    SetKidReports(s, i, k);
    if s.hist.alone {
      CurrentReads(s, i);
      StopsLater(c.own, m);
      ReceiveMoves(c.own, c.ahead, s.childPipe + s.childOut);
      PipeMoves(s.kids, s.hist.rounds, s.childPipe + s.childOut, k, s.childPipe + s.childOut);
    }
  }

  lemma StartKeeps(s: Sys)
    requires Inv(s) && Enabled(s, GetStarted)
    ensures Inv(s.(inbox := s.inbox[1..], stage := Calling))
  {
    hide KidsSync, PipeSync, RoundsOk, Carries, SeedSync, Forks, Effective;
  }

  lemma HandleChildKeeps(s: Sys)
    requires s.inbox != [] && s.stage == Solving && Inv(s)
    ensures Inv(DoHandleChild(s)) && !s.inbox[0].ForkReport?
  {
    hide KidsSync, PipeSync, RoundsOk, Carries, SeedSync, InOrder;
    assert Reports(s.inbox) == [];
    assert Reports(s.inbox[1..]) == [];
    var t := s.(inbox := s.inbox[1..], hist := s.hist.(exitTaken := s.hist.exitTaken || s.inbox[0].ExitCode?));
    InboxKeeps(s, t.inbox, s.waiting, t.hist.exitTaken);
    if L.EndsWait(s.inbox[0], s.callback) {
      SolvingState(s);
      ReturnKeeps(t);
    }
  }

  lemma SolvingState(s: Sys)
    requires Inv(s) && s.stage == Solving
    ensures s.lib.state != L.Input
  {
  }

  lemma KillReturns(s: Sys)
    requires Inv(s) && (s.stage == Solving || (s.stage == Calling && s.lib.state == L.InputAssumptions))
    ensures Inv(Return(Kill(s))) && Return(Kill(s)).lib.header == s.lib.header
  {
    if s.stage == Solving { SolvingState(s); }
    KillKeeps(s);
    hide Inv;
    ReturnKeeps(Kill(s));
  }

  lemma SeedReapKeeps(s: Sys)
    requires Enabled(s, SeedReap) && Inv(s)
    ensures Inv(Apply(s, SeedReap))
  {
    hide Inv;
    ReportsSnoc(s.inbox, ExitCode(s.kids[|s.kids| - 1].status));
    InboxKeeps(s, s.inbox + [ExitCode(s.kids[|s.kids| - 1].status)], false, s.hist.exitTaken);
  }

  lemma KidExitKeeps(s: Sys, i: nat, status: int)
    requires Enabled(s, KidExit(i, status)) && Inv(s)
    ensures Inv(Apply(s, KidExit(i, status)))
  {
    hide Inv;
    var t := SetKid(s, i, s.kids[i].(alive := false, status := status));
    LifeKeeps(s, i, t.kids[i]);
    ReportsSnoc(s.inbox, Destructed);
    InboxKeeps(t, DoKidExit(s, i, status).inbox, t.waiting, t.hist.exitTaken);
  }

  // ----- every step, every run -----

  lemma StepKeeps(s: Sys, st: Step)
    requires Enabled(s, st) && Inv(s)
    ensures Inv(Apply(s, st)) && Apply(s, st).lib.header == s.lib.header
  {
    hide Inv, Kill, Deliver, BeginRead;
    match st
    case GetStarted => StartKeeps(s);
    case Quantify(q) => QuantifyKeeps(s, q);
    case Add(l) => AddKeeps(s, l);
    case SendFork => SendForkKeeps(s);
    case TakeReport => TakeReportKeeps(s);
    case Assume(l) => AssumeKeeps(s, l);
    case SendSolve => SendSolveKeeps(s);
    case HandleChild => HandleChildKeeps(s);
    case HandleAbort => KillReturns(s);
    case HandleOutput(_) => SolvingState(s); ReturnKeeps(s);
    case ResetAssumptions => KillReturns(s);
    case FlushSeed(n) => FlushSeedKeeps(s, n);
    case FlushChild(n) => FlushChildKeeps(s, n);
    case SeedRead(k) => SeedReadKeeps(s, k);
    case SeedReceive(pid) =>
      if s.seedPipe[0].Fork? { ForkMessageKeeps(s, pid); } else { PlainMessageKeeps(s, pid); }
    case SeedReap => SeedReapKeeps(s);
    case KidRead(i, k) => KidReadKeeps(s, i, k);
    case KidFetch(i, n) => KidFetchKeeps(s, i, n);
    case KidReceive(i) => KidReceiveKeeps(s, i);
    case KidExit(i, status) => KidExitKeeps(s, i, status);
  }

  lemma {:induction false} RunKeeps(s: Sys, steps: seq<Step>)
    requires Inv(s) && Legal(s, steps)
    ensures Inv(Final(s, steps)) && Final(s, steps).lib.header == s.lib.header
    decreases |steps|
  {
    hide Inv, Enabled, Apply;
    if steps == [] {
    } else {
      StepKeeps(s, steps[0]);
      RunKeeps(Apply(s, steps[0]), steps[1..]);
    }
  }

  /** The reference text of a round: the quantifiers as sent, all clauses added by then,
      and the unit clauses of this round's assumptions only. */
  function RoundFormula(h: HeaderData, r: Round): string {
    Formula(h, SentBy(h, r.user), r.clauses + Units(r.units))
  }

  /** A process that has consumed c, all of whose messages end the input, never
      spins; when a read has returned 0 it was given the whole text. */
  lemma InputEnds(p: Proc, c: seq<Msg>, rest: seq<Msg>)
    requires Synced(p, c) && After(BOOT, c + rest).phase == Working
    ensures p.given <= Emit(BOOT, c + rest) && p.rt.out != Hung
    ensures p.ended ==> p.given == Emit(BOOT, c + rest) && p.rt.written == After(BOOT, c + rest).written
  {
    EmitConcat(BOOT, c, rest);
    hide Emit, After, Process, Times;
    if p.ended || After(BOOT, c).out == Hung {
      DeafEmitsNothing(After(BOOT, c), rest);
    }
    assert p.given <= Emit(BOOT, c);
  }

  /** A child in step with a round that is solved, by this round or by what was left over,
      prints that round's text, in order, has been given all of it once a read returned
      0, and never spins. */
  lemma KidText(h: HeaderData, k: Kid, r: Round, rest: seq<Msg>)
    requires RoundOk(h, r) && LeftOver(r.stale) && Solve in Due(r)
    requires k.base == r.sent && k.own + rest == Due(r) && Unsolved(k.own) && Synced(k.proc, k.base + k.own)
    ensures k.proc.given <= GivenText(h, r) && k.proc.rt.out != Hung
    ensures k.proc.ended ==> k.proc.given == GivenText(h, r)
    ensures k.proc.ended ==> var n := |r.clauses| + |ReadUnits(Due(r))|; k.proc.rt.written == n + Missing(h, n)
  {
    hide Synced, Emit, After, RoundOk, LeftOver, Due, FirstSolve, GivenText;
    OwnPrefix(k.own, rest);
    var first := FirstSolve(Due(r));
    var more := first[|k.own|..];
    DueText(h, r);
    Assoc(k.base, k.own, more);
    assert k.own + more == first;
    InputEnds(k.proc, k.base + k.own, more);
  }

  /** Over every run: a child whose solver was given the end of its input has read a
      solve message, from its own round or an earlier one. */
  lemma EndedHeard(s: Sys, i: nat)
    requires i < |s.kids| && s.kids[i].proc.ended && Inv(s)
    ensures Solve in s.kids[i].own && i < |s.hist.rounds|
    ensures s.hist.alone ==> Heard(s.kids[i]) && Solve in Due(s.hist.rounds[i])
  {
    hide Inv, Synced, Carries, Due;
    KidOfRound(s, i);
    var k, r := s.kids[i], s.hist.rounds[i];
    EndedOnSolve(k.proc, k.base + k.own);
    CarriesUnsolved(r.sent, s.lib.header, SentBy(s.lib.header, r.user), r.clauses, []);
    if s.hist.alone {
      var left := KidDue(s, i);
      assert Solve in k.own + left;
      HeardAll(k.own);
    }
  }

  lemma HeardAll(own: seq<Msg>)
    requires Unsolved(own) && Solve in own
    ensures own != [] && own[|own| - 1] == Solve
  {
  }

  lemma KidOfRound(s: Sys, i: nat)
    requires i < |s.kids| && Inv(s)
    ensures i < |s.hist.rounds| && s.kids[i].base == s.hist.rounds[i].sent && RoundOk(s.lib.header, s.hist.rounds[i])
    ensures Synced(s.kids[i].proc, s.kids[i].base + s.kids[i].own)
  {
    hide Synced, CallsSync, SeedSync, PipeSync, Forks, RoundOk, ReportsSync;
  }

  /** What the child has not read of what is due to it. */
  lemma KidDue(s: Sys, i: nat) returns (left: seq<Msg>)
    requires s.hist.alone && i < |s.kids| && Inv(s)
    ensures i < |s.hist.rounds| && s.kids[i].own + left == Due(s.hist.rounds[i])
    ensures LeftOver(s.hist.rounds[i].stale) && Unsolved(s.kids[i].own)
  {
    hide Synced, CallsSync, SeedSync, KidsSync, Forks, RoundsOk, ReportsSync, Due, LeftOver, Unsolved;
    var k := s.kids[i];
    var rest := if i + 1 < |s.hist.rounds| then s.hist.rounds[i + 1].stale else s.childPipe + s.childOut;
    Assoc(k.own, k.ahead, rest);
    left := k.ahead + rest;
  }

  /** What each child is given, in every run in which no round began with an earlier child
      left to read from the pipe: the clauses, the assumptions left over in the pipe and
      its own, up to the first solve message there. */
  lemma ChildText(h: HeaderData, exitCodeMode: bool, callback: bool, steps: seq<Step>, i: nat)
    requires Legal(Init(h, exitCodeMode, callback), steps)
    ensures var s := Final(Init(h, exitCodeMode, callback), steps);
            s.hist.alone && i < |s.kids| && i < |s.hist.rounds| ==>
              var p, r := s.kids[i].proc, s.hist.rounds[i];
              && (Solve in Due(r) ==> p.given <= GivenText(h, r) && p.rt.out != Hung)
              && (p.ended ==> Solve in Due(r) && p.given == GivenText(h, r))
  {
    var s := Final(Init(h, exitCodeMode, callback), steps);
    InitKeeps(h, exitCodeMode, callback);
    RunKeeps(Init(h, exitCodeMode, callback), steps);
    hide Inv, Final, Legal, Init, GivenText, Due;
    if s.hist.alone && i < |s.kids| && i < |s.hist.rounds| {
      InvChild(s, i);
    }
  }

  lemma InvChild(s: Sys, i: nat)
    requires s.hist.alone && i < |s.kids| && i < |s.hist.rounds| && Inv(s)
    ensures var p, r := s.kids[i].proc, s.hist.rounds[i];
            && (Solve in Due(r) ==> p.given <= GivenText(s.lib.header, r) && p.rt.out != Hung)
            && (p.ended ==> Solve in Due(r) && p.given == GivenText(s.lib.header, r))
            && (p.ended ==> var n := |r.clauses| + |ReadUnits(Due(r))|; p.rt.written == n + Missing(s.lib.header, n))
  {
    hide Inv, Synced, RoundOk, Due, LeftOver, Unsolved, GivenText;
    var k, r := s.kids[i], s.hist.rounds[i];
    if k.proc.ended { EndedHeard(s, i); }
    if Solve in Due(r) {
      KidOfRound(s, i);
      var left := KidDue(s, i);
      KidText(s.lib.header, k, r, left);
    }
  }

  /** Without leftovers only the round's own solve message can be there. */
  lemma NothingLeft(r: Round)
    requires r.stale == [] && Solve in Due(r) && NoZero(r.units)
    ensures r.solved
  {
    if !r.solved {
      NilLeft(RoundMsgs(r.units, false));
      ClausesUnsolved(Units(r.units));
    }
  }

  /** With nothing left over that is the round's own text. */
  lemma OwnText(h: HeaderData, r: Round)
    requires r.stale == [] && r.solved && NoZero(r.units)
    ensures Solve in Due(r) && GivenText(h, r) == RoundFormula(h, r) && ReadUnits(Due(r)) == r.units
  {
    hide TextWith, Formula, Effective;
    NilLeft(RoundMsgs(r.units, true));
    RoundRead(r.units);
    TextWithout(h, SentBy(h, r.user), r.clauses, r.units);
  }

  /** Session refinement: in every run of library, seed and children in which every round
      began with an empty child pipe and no earlier child left to read from it, the
      solver in round i's child is given the reference text of round i, and nothing else. */
  lemma SessionRefinement(h: HeaderData, exitCodeMode: bool, callback: bool, steps: seq<Step>, i: nat)
    requires Legal(Init(h, exitCodeMode, callback), steps)
    ensures var s := Final(Init(h, exitCodeMode, callback), steps);
            Clean(s.hist) && i < |s.kids| && i < |s.hist.rounds| ==>
              var p, r := s.kids[i].proc, s.hist.rounds[i];
              && (r.solved ==> p.given <= RoundFormula(h, r) && p.rt.out != Hung)
              && (p.ended ==> r.solved && p.given == RoundFormula(h, r))
  {
    var s := Final(Init(h, exitCodeMode, callback), steps);
    InitKeeps(h, exitCodeMode, callback);
    RunKeeps(Init(h, exitCodeMode, callback), steps);
    hide Inv, Final, Legal, Init, RoundFormula;
    if Clean(s.hist) && i < |s.kids| && i < |s.hist.rounds| {
      InvKid(s, i);
    }
  }

  lemma RoundAt(s: Sys, i: nat)
    requires i < |s.hist.rounds| && Inv(s)
    ensures RoundOk(s.lib.header, s.hist.rounds[i])
  {
    hide Synced, CallsSync, SeedSync, KidsSync, Forks, RoundOk, ReportsSync, PipeSync, InOrder;
  }

  lemma InvKid(s: Sys, i: nat)
    requires Clean(s.hist) && i < |s.kids| && i < |s.hist.rounds| && Inv(s)
    ensures var p, r := s.kids[i].proc, s.hist.rounds[i];
            && (r.solved ==> p.given <= RoundFormula(s.lib.header, r) && p.rt.out != Hung)
            && (p.ended ==> r.solved && p.given == RoundFormula(s.lib.header, r))
    ensures var p, r := s.kids[i].proc, s.hist.rounds[i];
            p.ended ==> var n := |r.clauses| + |r.units|; p.rt.written == n + Missing(s.lib.header, n)
  {
    hide Inv, Due, GivenText, RoundFormula, Carries, Effective, SolvableBase;
    RoundAt(s, i);
    InvChild(s, i);
    if s.kids[i].proc.ended { NothingLeft(s.hist.rounds[i]); }
    if s.hist.rounds[i].solved { OwnText(s.lib.header, s.hist.rounds[i]); }
  }

  /** The seed never meets a message its state does not handle. */
  lemma SeedNeverSpins(h: HeaderData, exitCodeMode: bool, callback: bool, steps: seq<Step>)
    requires Legal(Init(h, exitCodeMode, callback), steps)
    ensures Final(Init(h, exitCodeMode, callback), steps).seed.rt.out != Hung
  {
    var s := Final(Init(h, exitCodeMode, callback), steps);
    InitKeeps(h, exitCodeMode, callback);
    RunKeeps(Init(h, exitCodeMode, callback), steps);
    InvSeed(s);
  }

  lemma InvSeed(s: Sys)
    requires Inv(s)
    ensures s.seed.rt.out != Hung
  {
    hide KidsSync, PipeSync, RoundsOk, InOrder, ReportsSync, Effective, Forks, Owed;
    var pipe := s.seedPipe + s.seedOut;
    CarriedRecord(s.hist.toSeed, s.lib.header, Sent(s), s.hist.clauses, s.hist.open);
    EmitConcat(BOOT, s.hist.taken, pipe);
    hide Emit, After, Carries, RtOk, Process;
    if After(BOOT, s.hist.taken).out == Hung {
      DeafEmitsNothing(After(BOOT, s.hist.taken), pipe);
    }
  }

  /** The condition on rounds matters: quapi_reset_assumptions, and a wait that ends
      early, leave what the child has not taken in its pipe, and the next round begins
      behind it. */
  lemma EarlyEndLeaves(s: Sys)
    requires s.hist.alone && s.stage == Calling && L.NeedsFork(s.lib) && s.kids != []
    requires !s.kids[|s.kids| - 1].alive && s.hist.open == [] && SolvableBase(Sent(s), s.hist.clauses) && Inv(s)
    ensures Enabled(s, SendFork)
    ensures var t := DoSendFork(s);
            var k, r := s.kids[|s.kids| - 1], s.hist.rounds[|s.kids| - 1];
            && Apply(s, SendFork) == t && t.hist.alone
            && k.own + k.ahead + t.hist.rounds[|s.hist.rounds|].stale == Due(r)
  {
    hide Synced, CallsSync, SeedSync, KidsSync, Forks, RoundsOk, ReportsSync, Due, LeftOver, Unsolved;
  }
}
