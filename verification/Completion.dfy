/** Every wait can end: from each reachable state the awaited report can be brought in,
    and a child can be brought to the end of its text. */
module Completion {
  import opened Messages
  import opened Transducer
  import opened PullMachine
  import opened Sessions
  import opened Leftovers
  import opened Protocol
  import opened Isolation
  import opened Seqs
  import L = Library

  // ----- putting runs together -----

  lemma Prepend(s: Sys, st: Step, more: seq<Step>)
    requires Enabled(s, st) && Legal(Apply(s, st), more)
    ensures Legal(s, [st] + more) && Final(s, [st] + more) == Final(Apply(s, st), more)
  {
    hide Enabled, Apply;
    Cons(st, more);
  }

  lemma {:induction false} Append(s: Sys, a: seq<Step>, b: seq<Step>)
    requires Legal(s, a) && Legal(Final(s, a), b)
    ensures Legal(s, a + b) && Final(s, a + b) == Final(Final(s, a), b)
    decreases |a|
  {
    hide Enabled, Apply;
    if a == [] {
      NilLeft(b);
    } else {
      TailConcat(a, b);
      Append(Apply(s, a[0]), a[1..], b);
    }
  }

  lemma Stay(s: Sys)
    ensures Legal(s, []) && Final(s, []) == s
  {
  }

  // ----- what holds of every reachable state -----

  predicate WaitsForKid(s: Sys) { s.waiting ==> s.kids != [] }

  lemma WaitKeeps(s: Sys, st: Step)
    requires Enabled(s, st) && WaitsForKid(s)
    ensures WaitsForKid(Apply(s, st))
  {
    hide Deliver, BeginRead;
  }

  lemma {:induction false} WaitRuns(s: Sys, steps: seq<Step>)
    requires Legal(s, steps) && WaitsForKid(s)
    ensures WaitsForKid(Final(s, steps))
    decreases |steps|
  {
    hide Enabled, Apply, WaitsForKid;
    if steps == [] {
    } else {
      WaitKeeps(s, steps[0]);
      WaitRuns(Apply(s, steps[0]), steps[1..]);
    }
  }

  /** A seed with messages left has not ended and does not spin. */
  lemma SeedLives(s: Sys)
    requires Inv(s) && s.seedPipe + s.seedOut != []
    ensures !s.seed.ended && s.seed.rt.out != Hung
  {
    InvSeed(s);
    hide KidsSync, PipeSync, RoundsOk, InOrder, ReportsSync, Owed, Emit;
    SeedExpects(s.seed, s.hist.taken, s.seedPipe + s.seedOut, s.hist.toSeed);
    hide After;
  }

  // ----- the seed reaches the fork -----

  /** A read blocks, returns 0, or hands over some of what is owed. */
  lemma ReadProgress(p: Proc, c: seq<Msg>)
    requires Synced(p, c) && p.call == Idle && !p.ended
    ensures var q := BeginRead(p, 1);
            && Synced(q, c) && (q.call.Reading? ==> Owed(q.rt) == "")
            && (q.call.Reading? || q.ended || |Owed(q.rt)| < |Owed(p.rt)|)
  {
    BeginReadSynced(p, c, 1);
    hide Emit, After, Owed, Settled, BeginRead;
    var q := BeginRead(p, 1);
    assert |q.given| + |Owed(q.rt)| == |Emit(BOOT, c)| == |p.given| + |Owed(p.rt)|;
  }

  lemma CanRead(s: Sys)
    requires !s.waiting && s.seed.call == Idle && !s.seed.ended
    ensures Enabled(s, SeedRead(1)) && Apply(s, SeedRead(1)) == s.(seed := BeginRead(s.seed, 1))
  {
    hide BeginRead;
  }

  lemma SeedInSync(s: Sys)
    requires Inv(s)
    ensures Synced(s.seed, s.hist.taken)
  {
    hide Synced;
  }

  /** The seed reads until it waits for a message. */
  lemma {:induction false} SeedReads(s: Sys) returns (steps: seq<Step>)
    requires Inv(s) && !s.waiting && s.seedPipe + s.seedOut != []
    ensures Legal(s, steps)
    ensures var t := Final(s, steps); Inv(t) && t == s.(seed := t.seed) && t.seed.call.Reading? && t.seed.rt.out != Hung
    decreases |Owed(s.seed.rt)|, if s.seed.call == Idle then 1 else 0
  {
    hide Inv, Enabled, Apply, BeginRead, Legal, Final, Synced, Owed;
    SeedLives(s);
    if s.seed.call == Idle {
      CanRead(s);
      var t := Apply(s, SeedRead(1));
      StepKeeps(s, SeedRead(1));
      SeedLives(t);
      SeedInSync(s);
      ReadProgress(s.seed, s.hist.taken);
      steps := SeedReads(t);
      Prepend(s, SeedRead(1), steps);
      steps := [SeedRead(1)] + steps;
    } else {
      steps := [];
      Stay(s);
    }
  }

  lemma ForkUnread(s: Sys)
    requires Inv(s) && |s.kids| < |s.hist.rounds|
    ensures s.seedPipe + s.seedOut != []
  {
    hide Carries, RoundsOk, KidsSync, PipeSync, CallsSync, Synced, ReportsSync;
    ForksConcat(s.hist.taken, s.seedPipe + s.seedOut);
  }

  /** Apart from the pid it holds and the seed's progress, the library's side is as it was. */
  predicate Kept(s: Sys, t: Sys) {
    && t.lib == s.lib.(pid := t.lib.pid) && t.hist == s.hist.(taken := t.hist.taken)
    && t.childPipe == s.childPipe && t.childOut == s.childOut
  }

  predicate JustForked(k: Kid, pid: int) { k.pid == pid && k.alive && k.own == [] && k.ahead == [] }

  /** What a message does besides moving the seed on. */
  lemma Received(s: Sys, pid: int)
    requires s.seedPipe != [] && s.seed.call.Reading? && !s.waiting && s.seed.rt.out != Hung && pid > 0
    ensures Enabled(s, SeedReceive(pid))
    ensures var t := Apply(s, SeedReceive(pid));
            && Kept(s, t) && t.stage == s.stage && t.seedPipe == s.seedPipe[1..] && t.seedOut == s.seedOut
            && (!s.seedPipe[0].Fork? ==> t.kids == s.kids && !t.waiting)
            && (s.seedPipe[0].Fork? && Deliver(s.seed, s.seedPipe[0]).rt.out == NeedMessage ==>
                  |t.kids| == |s.kids| + 1 && JustForked(t.kids[|s.kids|], pid))
  {
    hide Deliver;
  }

  lemma ForkIsTaken(s: Sys)
    requires s.seedPipe != [] && s.seed.call.Reading? && !s.waiting && s.seed.rt.out != Hung && s.seedPipe[0].Fork?
             && Inv(s)
    ensures Deliver(s.seed, s.seedPipe[0]).rt.out == NeedMessage
  {
    SeedInSync(s);
    hide Inv, Synced, Deliver, Expected;
    SeedTakes(s);
    ForkAsks(s.seed, s.hist.taken, s.seedPipe[0]);
  }

  lemma SameRounds(s: Sys)
    requires Inv(s)
    ensures |s.kids| <= |s.hist.rounds| <= |s.kids| + 1 && (s.stage == Awaiting ==> s.hist.rounds != [])
  {
    hide KidsSync, PipeSync, RoundsOk, CallsSync, SeedSync, ReportsSync, Forks;
  }

  /** The seed reads on until it has forked. */
  lemma {:induction false} SeedForks(s: Sys, pid: int) returns (steps: seq<Step>)
    requires Inv(s) && !s.waiting && s.seedOut == [] && |s.kids| < |s.hist.rounds| && pid > 0
    ensures Legal(s, steps)
    ensures var t := Final(s, steps);
            && Inv(t) && Kept(s, t) && t.stage == s.stage && |t.kids| == |t.hist.rounds|
            && t.kids != [] && JustForked(t.kids[|t.kids| - 1], pid)
    decreases |s.seedPipe|
  {
    hide Inv, Enabled, Apply, Legal, Final, Deliver;
    ForkUnread(s);
    NilRight(s.seedPipe);
    steps := SeedReads(s);
    var t := Final(s, steps);
    var u := ReceiveNext(t, pid);
    var last := [SeedReceive(pid)];
    Stay(u);
    NilRight(last);
    Prepend(t, SeedReceive(pid), []);
    Append(s, steps, last);
    steps := steps + last;
    if !t.seedPipe[0].Fork? {
      var more := SeedForks(u, pid);
      Append(s, steps, more);
      steps := steps + more;
    }
  }

  lemma ReceiveNext(t: Sys, pid: int) returns (u: Sys)
    requires t.seedPipe != [] && t.seed.call.Reading? && !t.waiting && t.seed.rt.out != Hung && pid > 0
             && t.seedOut == []
    requires |t.kids| < |t.hist.rounds| && Inv(t)
    ensures Enabled(t, SeedReceive(pid)) && u == Apply(t, SeedReceive(pid)) && Inv(u)
    ensures |u.seedPipe| < |t.seedPipe| && u.seedOut == []
    ensures Kept(t, u) && u.stage == t.stage
    ensures if t.seedPipe[0].Fork? then |u.kids| == |u.hist.rounds| && u.kids != [] &&
                 JustForked(u.kids[|u.kids| - 1], pid)
            else u.kids == t.kids && !u.waiting
  {
    hide Inv, Deliver, Enabled, Apply;
    Received(t, pid);
    u := Apply(t, SeedReceive(pid));
    StepKeeps(t, SeedReceive(pid));
    if t.seedPipe[0].Fork? {
      ForkIsTaken(t);
      SameRounds(t);
      SameRounds(u);
    }
  }

  // ----- the library gets its report -----

  lemma TakeNext(s: Sys)
    requires s.stage == Awaiting && s.inbox != []
    ensures Enabled(s, TakeReport)
    ensures var t := Apply(s, TakeReport);
            && Kept(s, t) && t.hist == s.hist && t.kids == s.kids && t.inbox == s.inbox[1..]
            && (if s.inbox[0].ForkReport? then t.stage == Calling else t.stage == Awaiting)
  {
  }

  lemma ReportThere(s: Sys)
    requires Inv(s) && s.stage == Awaiting && |s.kids| == |s.hist.rounds|
    ensures s.inbox != []
  {
    hide KidsSync, PipeSync, RoundsOk, CallsSync, SeedSync, Forks;
    assert s.kids != [];
    assert s.inbox == [] ==> Reports(s.inbox) == [];
  }

  /** The library discards messages until it finds the report. */
  lemma {:induction false} ReportIsTaken(s: Sys) returns (steps: seq<Step>)
    requires Inv(s) && s.stage == Awaiting && |s.kids| == |s.hist.rounds|
    ensures Legal(s, steps)
    ensures var t := Final(s, steps); Inv(t) && Kept(s, t) && t.stage == Calling && t.kids == s.kids
    decreases |s.inbox|
  {
    hide Inv, Enabled, Apply, Legal, Final;
    ReportThere(s);
    TakeNext(s);
    StepKeeps(s, TakeReport);
    var t := Apply(s, TakeReport);
    if s.inbox[0].ForkReport? {
      steps := [];
      Stay(t);
    } else {
      steps := ReportIsTaken(t);
    }
    Prepend(s, TakeReport, steps);
    steps := [TakeReport] + steps;
  }

  lemma PidHeld(s: Sys)
    requires Inv(s) && s.stage == Calling && s.hist.rounds != []
    ensures s.kids != [] && s.lib.pid == s.kids[|s.kids| - 1].pid
  {
    hide KidsSync, PipeSync, RoundsOk, CallsSync, SeedSync, Forks, Reports, InOrder;
  }

  // ----- the seed is freed and given what is buffered -----

  lemma ExitStep(s: Sys)
    requires s.kids != [] && s.kids[|s.kids| - 1].alive
    ensures var n := |s.kids| - 1;
            && Enabled(s, KidExit(n, 0))
            && var t := Apply(s, KidExit(n, 0));
            && |t.kids| == |s.kids| && !t.kids[n].alive && t.waiting == s.waiting
            && Kept(s, t) && t.hist == s.hist && t.stage == s.stage && t.seedOut == s.seedOut
  {
  }

  lemma ReapStep(s: Sys)
    requires s.waiting && s.kids != [] && !s.kids[|s.kids| - 1].alive
    ensures Enabled(s, SeedReap)
    ensures var t := Apply(s, SeedReap);
            && t.kids == s.kids && !t.waiting
            && Kept(s, t) && t.hist == s.hist && t.stage == s.stage && t.seedOut == s.seedOut
  {
  }

  lemma FlushStep(s: Sys)
    ensures Enabled(s, FlushSeed(|s.seedOut|))
    ensures var t := Apply(s, FlushSeed(|s.seedOut|));
            && t.kids == s.kids && t.waiting == s.waiting
            && Kept(s, t) && t.hist == s.hist && t.stage == s.stage && t.seedOut == []
  {
  }

  /** Whatever the seed waits for ends, and all that is buffered goes into its pipe. */
  lemma SeedIsFreed(s: Sys) returns (steps: seq<Step>)
    requires Inv(s) && WaitsForKid(s)
    ensures Legal(s, steps)
    ensures var t := Final(s, steps);
            && Inv(t) && !t.waiting && t.seedOut == [] && |t.kids| == |s.kids|
            && Kept(s, t) && t.hist == s.hist && t.stage == s.stage
  {
    hide Inv, Enabled, Apply, Legal, Final;
    FlushStep(s);
    StepKeeps(s, FlushSeed(|s.seedOut|));
    var t := Apply(s, FlushSeed(|s.seedOut|));
    steps := [];
    Stay(t);
    if t.waiting {
      steps := KidIsReaped(t);
    }
    Prepend(s, FlushSeed(|s.seedOut|), steps);
    steps := [FlushSeed(|s.seedOut|)] + steps;
  }

  lemma KidIsReaped(s: Sys) returns (steps: seq<Step>)
    requires Inv(s) && s.waiting && s.kids != []
    ensures Legal(s, steps)
    ensures var t := Final(s, steps);
            && Inv(t) && !t.waiting && t.seedOut == s.seedOut && |t.kids| == |s.kids|
            && Kept(s, t) && t.hist == s.hist && t.stage == s.stage
  {
    hide Inv, Enabled, Apply, Legal, Final;
    var n := |s.kids| - 1;
    var t := s;
    if s.kids[n].alive {
      ExitStep(s);
      StepKeeps(s, KidExit(n, 0));
      t := Apply(s, KidExit(n, 0));
    }
    ReapStep(t);
    StepKeeps(t, SeedReap);
    Stay(Apply(t, SeedReap));
    Prepend(t, SeedReap, []);
    steps := [SeedReap] + [];
    if s.kids[n].alive {
      Prepend(s, KidExit(n, 0), steps);
      steps := [KidExit(n, 0)] + steps;
    }
  }

  /** The wait in make_solvable can always end: from every reachable state in which the
      library waits for a fork report, the run can go on until it has the report, and
      then it holds the pid of this round's child. */
  lemma ForkCompletes(h: HeaderData, exitCodeMode: bool, callback: bool, steps: seq<Step>, pid: int)
      returns (more: seq<Step>)
    requires Legal(Init(h, exitCodeMode, callback), steps) && pid > 0
    requires Final(Init(h, exitCodeMode, callback), steps).stage == Awaiting
    ensures Legal(Init(h, exitCodeMode, callback), steps + more)
    ensures var s := Final(Init(h, exitCodeMode, callback), steps);
            var t := Final(Init(h, exitCodeMode, callback), steps + more);
            && Kept(s, t) && t.stage == Calling && |t.kids| == |t.hist.rounds|
            && t.kids != [] && t.lib.pid == t.kids[|t.kids| - 1].pid
            && (|s.kids| < |s.hist.rounds| ==> JustForked(t.kids[|t.kids| - 1], pid))
  {
    var i := Init(h, exitCodeMode, callback);
    var s := Final(i, steps);
    InitKeeps(h, exitCodeMode, callback);
    RunKeeps(i, steps);
    WaitRuns(i, steps);
    hide Inv, Enabled, Apply, Legal, Final, Init, WaitsForKid;
    more := AwaitEnds(s, pid);
    Append(i, steps, more);
  }

  lemma AwaitEnds(s: Sys, pid: int) returns (steps: seq<Step>)
    requires Inv(s) && WaitsForKid(s) && s.stage == Awaiting && pid > 0
    ensures Legal(s, steps)
    ensures var t := Final(s, steps);
            && Inv(t) && Kept(s, t) && t.stage == Calling && |t.kids| == |t.hist.rounds|
            && t.kids != [] && t.lib.pid == t.kids[|t.kids| - 1].pid
            && (|s.kids| < |s.hist.rounds| ==> JustForked(t.kids[|t.kids| - 1], pid))
  {
    hide Inv, Enabled, Apply, Legal, Final, WaitsForKid;
    SameRounds(s);
    var t := s;
    steps := [];
    Stay(s);
    if |s.kids| < |s.hist.rounds| {
      steps := SeedIsFreed(s);
      var u := Final(s, steps);
      var more := SeedForks(u, pid);
      Append(s, steps, more);
      steps := steps + more;
      t := Final(s, steps);
    }
    var end := ReportIsTaken(t);
    Append(s, steps, end);
    steps := steps + end;
    PidHeld(Final(s, steps));
  }

  // ----- the child reaches the end of its text -----

  /** The current child, with a solve message due to it, its own round's or one left over. */
  predicate Serving(s: Sys) {
    s.hist.alone && s.kids != [] && |s.kids| == |s.hist.rounds| &&
    Solve in Due(s.hist.rounds[|s.kids| - 1]) && s.kids[|s.kids| - 1].alive
  }

  function LastChild(s: Sys): Proc
    requires s.kids != []
  {
    s.kids[|s.kids| - 1].proc
  }

  function Ahead(s: Sys): seq<Msg>
    requires s.kids != []
  {
    s.kids[|s.kids| - 1].ahead
  }

  function TextOf(s: Sys): string
    requires s.hist.rounds != []
  {
    GivenText(s.lib.header, s.hist.rounds[|s.hist.rounds| - 1])
  }

  /** Only the child, its pipe and the buffer before it differ. */
  predicate OnlyKid(s: Sys, t: Sys) {
    t.lib == s.lib && t.hist == s.hist && t.stage == s.stage && |t.kids| == |s.kids|
  }

  lemma KidHeard(s: Sys)
    requires Serving(s) && Ahead(s) == [] && s.childPipe + s.childOut == [] && Inv(s)
    ensures Heard(s.kids[|s.kids| - 1])
  {
    hide Synced, CallsSync, SeedSync, RoundsOk, ReportsSync, KidsSync, Forks, Due, LeftOver, Unsolved;
    var k := s.kids[|s.kids| - 1];
    NilRight(k.own);
    HeardAll(k.own);
  }

  lemma ServedText(s: Sys)
    requires Serving(s) && Inv(s)
    ensures |LastChild(s).given| <= |TextOf(s)| && (LastChild(s).ended ==> LastChild(s).given == TextOf(s))
    ensures LastChild(s).rt.out != Hung
    ensures Ahead(s) == [] && s.childPipe + s.childOut == [] ==> !LastChild(s).call.Reading?
  {
    hide Inv, GivenText, Due, Heard;
    var n := |s.kids| - 1;
    InvChild(s, n);
    if Ahead(s) == [] && s.childPipe + s.childOut == [] && LastChild(s).call.Reading? {
      KidHeard(s);
      CurrentReads(s, n);
    }
  }

  lemma KidInSync(s: Sys) returns (c: seq<Msg>)
    requires Inv(s) && s.kids != []
    ensures Synced(LastChild(s), c)
  {
    hide Synced, PipeSync, RoundsOk, CallsSync, SeedSync, Forks, Reports, InOrder;
    var k := s.kids[|s.kids| - 1];
    c := k.base + k.own;
  }

  lemma KidReadStep(s: Sys)
    requires Serving(s) && LastChild(s).call == Idle && !LastChild(s).ended
    ensures var st := KidRead(|s.kids| - 1, 1);
            && Enabled(s, st)
            && var t := Apply(s, st);
            && Serving(t) && OnlyKid(s, t) && LastChild(t) == BeginRead(LastChild(s), 1)
            && t.childPipe == s.childPipe && t.childOut == s.childOut && Ahead(t) == Ahead(s)
  {
    hide BeginRead, Due;
  }

  lemma KidFetchStep(s: Sys)
    requires Serving(s) && LastChild(s).call.Reading? && Ahead(s) == [] && s.childPipe != []
    ensures var st := KidFetch(|s.kids| - 1, |s.childPipe|);
            && Enabled(s, st)
            && var t := Apply(s, st);
            && Serving(t) && OnlyKid(s, t) && LastChild(t) == LastChild(s)
            && Ahead(t) == s.childPipe && t.childPipe == [] && t.childOut == s.childOut
  {
    hide Due;
    NilLeft(s.childPipe);
  }

  lemma KidReceiveStep(s: Sys)
    requires Serving(s) && LastChild(s).call.Reading? && LastChild(s).rt.out != Hung && Ahead(s) != []
    ensures var st := KidReceive(|s.kids| - 1);
            && Enabled(s, st)
            && var t := Apply(s, st);
            && Serving(t) && OnlyKid(s, t) && Ahead(t) == Ahead(s)[1..]
            && t.childPipe == s.childPipe && t.childOut == s.childOut
  {
    hide Deliver, Due;
  }

  lemma KidFlushStep(s: Sys)
    requires Serving(s)
    ensures var st := FlushChild(|s.childOut|);
            && Enabled(s, st)
            && var t := Apply(s, st);
            && Serving(t) && OnlyKid(s, t) && t.kids == s.kids && t.childPipe == s.childPipe + s.childOut
               && t.childOut == []
  {
    hide Due;
  }

  /** Steps of a child and the pipe before it. */
  predicate ChildReads(steps: seq<Step>) {
    forall i :: 0 <= i < |steps| ==>
      steps[i].KidRead? || steps[i].KidFetch? || steps[i].KidReceive? || steps[i].FlushChild?
  }

  /** One step of the child, or of the pipe before it, that brings the end nearer. */
  lemma KidStep(s: Sys) returns (st: Step)
    requires Serving(s) && !LastChild(s).ended && Inv(s)
    ensures Enabled(s, st) && ChildReads([st])
    ensures var t := Apply(s, st);
            && Inv(t) && Serving(t) && OnlyKid(s, t)
            && (Before(t, s) || LastChild(t).ended)
  {
    hide Inv, Enabled, Apply, Deliver, BeginRead, GivenText, Due, Synced, Before;
    ServedText(s);
    if LastChild(s).call == Idle {
      st := KidRead(|s.kids| - 1, 1);
      KidReadStep(s);
      var c := KidInSync(s);
      BeginReadSynced(LastChild(s), c, 1);
    } else if Ahead(s) != [] {
      st := KidReceive(|s.kids| - 1);
      KidReceiveStep(s);
    } else if s.childPipe != [] {
      st := KidFetch(|s.kids| - 1, |s.childPipe|);
      KidFetchStep(s);
    } else {
      st := FlushChild(|s.childOut|);
      KidFlushStep(s);
      NilLeft(s.childOut);
    }
    StepKeeps(s, st);
    ServedText(Apply(s, st));
    Nearer(s, Apply(s, st));
  }

  function Queued(s: Sys): nat
    requires s.kids != []
  {
    |Ahead(s)| + 2 * |s.childPipe| + 3 * |s.childOut|
  }

  function ToRead(s: Sys): nat
    requires s.kids != [] && s.hist.rounds != []
  {
    if |LastChild(s).given| <= |TextOf(s)| then |TextOf(s)| - |LastChild(s).given| else 0
  }

  /** Fewer messages, or less text, or a read under way. */
  predicate Before(t: Sys, s: Sys)
    requires t.kids != [] && t.hist.rounds != [] && s.kids != [] && s.hist.rounds != []
  {
    Queued(t) < Queued(s) ||
    (Queued(t) == Queued(s) && (ToRead(t) < ToRead(s) ||
      (ToRead(t) == ToRead(s) && LastChild(t).call.Reading? && LastChild(s).call == Idle)))
  }

  lemma Nearer(s: Sys, t: Sys)
    requires s.kids != [] && s.hist.rounds != [] && OnlyKid(s, t)
    requires |LastChild(t).given| <= |TextOf(s)|
    requires Queued(t) < Queued(s) ||
             (Queued(t) == Queued(s) && LastChild(s).call == Idle &&
              (LastChild(t).call == Idle || LastChild(t).call.Reading?) &&
              Fed(LastChild(s), LastChild(t)))
    ensures Before(t, s) || LastChild(t).ended
  {
    hide GivenText;
  }

  /** The solver of a solved round can always be given its whole text, to the 0 return. */
  lemma {:induction false} ChildCompletes(s: Sys) returns (steps: seq<Step>)
    requires Serving(s) && Inv(s)
    ensures Legal(s, steps) && ChildReads(steps)
    ensures var t := Final(s, steps);
            OnlyKid(s, t) && Serving(t) && LastChild(t).ended && LastChild(t).given == TextOf(s)
    decreases if LastChild(s).ended then 0 else 1, Queued(s), ToRead(s), if LastChild(s).call == Idle then 1 else 0
  {
    hide Inv, Enabled, Apply, Legal, Final, GivenText, Due;
    if LastChild(s).ended {
      steps := [];
      Stay(s);
      ServedText(s);
    } else {
      var st := KidStep(s);
      var rest := ChildCompletes(Apply(s, st));
      Prepend(s, st, rest);
      steps := [st] + rest;
    }
  }

  lemma SolvedRoundCompletes(h: HeaderData, exitCodeMode: bool, callback: bool, steps: seq<Step>)
      returns (more: seq<Step>)
    requires Legal(Init(h, exitCodeMode, callback), steps)
    requires Serving(Final(Init(h, exitCodeMode, callback), steps))
    ensures Legal(Init(h, exitCodeMode, callback), steps + more)
    ensures var t := Final(Init(h, exitCodeMode, callback), steps + more);
            && t.kids != [] && t.hist == Final(Init(h, exitCodeMode, callback), steps).hist && t.hist.rounds != []
            && LastChild(t).ended && LastChild(t).given == GivenText(h, t.hist.rounds[|t.hist.rounds| - 1])
  {
    var i := Init(h, exitCodeMode, callback);
    InitKeeps(h, exitCodeMode, callback);
    RunKeeps(i, steps);
    hide Inv, Enabled, Apply, Legal, Final, Init, GivenText, Due;
    more := ChildCompletes(Final(i, steps));
    Append(i, steps, more);
  }

  // ----- the library is ready -----

  /** The library's side of a state between calls. */
  predicate Idling(s: Sys, state: L.ApiState, clauses: seq<seq<int>>, open: seq<int>, rounds: nat) {
    && s.stage == Calling && s.lib.state == state && s.hist.clauses == clauses && s.hist.open == open
    && s.lib.writtenClauses == |clauses| && |s.hist.rounds| == rounds && s.childPipe == [] && s.childOut == []
    && s.hist.alone
  }

  lemma HeaderIsNext(h: HeaderData, mode: bool, callback: bool)
    ensures var s := Init(h, mode, callback);
            Inv(s) && WaitsForKid(s) && !s.waiting && s.seedPipe == [Header(API_VERSION, h)]
                && s.seedPipe + s.seedOut != []
  {
    InitKeeps(h, mode, callback);
    hide Inv;
    NilRight([Header(API_VERSION, h)]);
  }

  lemma HeaderStarts(s: Sys, m: Msg)
    requires s.seedPipe == [m] && m.Header? && s.seed.call.Reading? && !s.waiting && s.seed.rt.out != Hung
             && s.inbox == []
    requires s.seed.rt.phase == WaitingForHeader
    ensures Enabled(s, SeedReceive(1)) && Apply(s, SeedReceive(1)).inbox == [Started(API_VERSION)]
  {
    hide Deliver;
    NilLeft([Started(API_VERSION)]);
  }

  lemma BootPhase(p: Proc)
    requires Synced(p, []) && p.call.Reading?
    ensures p.rt.phase == WaitingForHeader
  {
  }

  /** quapi_init returns. */
  lemma StartCompletes(h: HeaderData, mode: bool, callback: bool) returns (steps: seq<Step>)
    ensures var i := Init(h, mode, callback);
            && Legal(i, steps) && Inv(Final(i, steps)) && Final(i, steps).lib.header == h
               && WaitsForKid(Final(i, steps))
            && Idling(Final(i, steps), L.Input, [], [], 0) && Final(i, steps).hist.user == []
  {
    var i := Init(h, mode, callback);
    HeaderIsNext(h, mode, callback);
    assert i.hist.taken == [] && i.inbox == [] && i.kids == [];
    assert i.stage == Starting && i.lib == L.Opened(h, mode);
    assert i.hist.user == [] && i.hist.clauses == [] && i.hist.open == [] && i.hist.rounds == [] && i.hist.alone;
    assert i.childPipe == [] && i.childOut == [];
    hide Inv, Init, Enabled, Apply, Legal, Final, Synced;
    steps := SeedReads(i);
    var t := Final(i, steps);
    SeedInSync(t);
    BootPhase(t.seed);
    HeaderStarts(t, Header(API_VERSION, h));
    Received(t, 1);
    var u := Apply(t, SeedReceive(1));
    StepKeeps(t, SeedReceive(1));
    Began(u);
    StepKeeps(u, GetStarted);
    var last := TwoSteps(t, SeedReceive(1), GetStarted);
    Append(i, steps, last);
    steps := steps + last;
  }

  lemma Began(s: Sys)
    requires s.stage == Starting && s.inbox != [] && s.inbox[0].Started?
    ensures Enabled(s, GetStarted) && Apply(s, GetStarted) == s.(inbox := s.inbox[1..], stage := Calling)
  {
  }

  lemma TwoSteps(s: Sys, a: Step, b: Step) returns (steps: seq<Step>)
    requires Enabled(s, a) && Enabled(Apply(s, a), b)
    ensures steps == [a] + [b] && Legal(s, steps) && Final(s, steps) == Apply(Apply(s, a), b)
  {
    var t := Apply(s, a);
    hide Enabled, Apply;
    Stay(Apply(t, b));
    Prepend(t, b, []);
    NilRight([b]);
    Prepend(s, a, [b]);
    steps := [a] + [b];
  }
}
