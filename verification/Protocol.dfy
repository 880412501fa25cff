/** Library, seed runtime and forked children as one transition system over FIFO
    pipes.  Every step is one process making progress; a run is any legal sequence
    of steps, so a statement about all runs is one about all interleavings. */
module Protocol {
  import opened Numerals
  import opened Messages
  import opened Transducer
  import opened PullMachine
  import opened Render
  import opened Meaning
  import L = Library

  /** A forked child: its process, its pid, how it ended, the messages it inherited from
      the seed, those its stream has taken out of the pipe ahead, and those it has read. */
  datatype Kid = Kid(
    proc: Proc, pid: int, alive: bool, status: int, base: seq<Msg>, ahead: seq<Msg>, own: seq<Msg>)

  /** What the user asked in a round: everything sent to the seed up to the fork, the
      quantifiers and clauses added by then, what earlier rounds had left in the child
      pipe at the fork, the assumptions, whether it was solved. */
  datatype Round = Round(
    sent: seq<Msg>, user: seq<int>, clauses: seq<seq<int>>, stale: seq<Msg>, units: seq<int>, solved: bool)

  /** History: the user's calls, the messages written to and read by the seed, whether
      the current round's exit code was read, and whether every round began with no
      earlier child left to read from the child pipe. */
  datatype Hist = Hist(
    user: seq<int>, clauses: seq<seq<int>>, open: seq<int>, rounds: seq<Round>,
    toSeed: seq<Msg>, taken: seq<Msg>, exitTaken: bool, alone: bool)

  /** Where the library thread is: in quapi_init, between calls, in make_solvable
      waiting for the fork report, or in the poll loop. */
  datatype Stage = Starting | Calling | Awaiting | Solving

  datatype Sys = Sys(
    lib: L.Lib, stage: Stage, callback: bool,
    seedOut: seq<Msg>, seedPipe: seq<Msg>, childOut: seq<Msg>, childPipe: seq<Msg>, inbox: seq<Msg>,
    seed: Proc, waiting: bool, kids: seq<Kid>, hist: Hist)

  function Init(h: HeaderData, exitCodeMode: bool, callback: bool): Sys {
    var first := [Header(API_VERSION, h)];
    Sys(L.Opened(h, exitCodeMode), Starting, callback, [], first, [], [], [], NEWBORN, false, [],
        Hist([], [], [], [], first, [], false, true))
  }

  datatype Step =
    | GetStarted | Quantify(q: int) | Add(lit: int) | SendFork | TakeReport | Assume(lit: int) | SendSolve
    | HandleChild | HandleAbort | HandleOutput(verdict: int) | ResetAssumptions
    | FlushSeed(n: nat) | FlushChild(n: nat)
    | SeedRead(size: nat) | SeedReceive(pid: int) | SeedReap
    | KidRead(i: nat, size: nat) | KidFetch(i: nat, n: nat) | KidReceive(i: nat) | KidExit(i: nat, status: int)

  /** The quantifiers as they were sent. */
  function Sent(s: Sys): seq<int> { Effective(s.hist.user, s.lib.header.prefixdepth, 0) }

  /** A child that has read a solve message. */
  predicate Heard(k: Kid) { k.own != [] && k.own[|k.own| - 1] == Solve }

  /** No child will read from the child pipe. */
  predicate Unread(s: Sys) { s.kids == [] || Heard(s.kids[|s.kids| - 1]) || !s.kids[|s.kids| - 1].alive }

  /** Every round began with an empty child pipe and no earlier child left to read from it. */
  predicate Clean(h: Hist) { h.alone && forall i :: 0 <= i < |h.rounds| ==> h.rounds[i].stale == [] }

  predicate Enabled(s: Sys, st: Step) {
    match st
    case GetStarted => s.stage == Starting && s.inbox != [] && s.inbox[0].Started?
    case Quantify(q) => s.stage == Calling && s.lib.state == L.Input && IsLit(q) && (q != 0 || BlockOpen(Sent(s)))
    case Add(l) =>
      s.stage == Calling && (s.lib.state == L.Input || s.lib.state == L.InputLiterals) && IsLit(l) &&
      (l != 0 || s.hist.open != [])
    case SendFork =>
      s.stage == Calling && L.NeedsFork(s.lib) && s.hist.open == [] && SolvableBase(Sent(s), s.hist.clauses)
    case TakeReport => s.stage == Awaiting && s.inbox != []
    case Assume(l) =>
      s.stage == Calling && s.lib.state == L.InputAssumptions && IsLit(l) && l != 0 && !L.Refused(s.lib) &&
      s.hist.rounds != []
    case SendSolve => s.stage == Calling && s.lib.state == L.InputAssumptions && s.hist.rounds != []
    case HandleChild => s.stage == Solving && s.inbox != []
    case HandleAbort => s.stage == Solving
    case HandleOutput(v) => s.stage == Solving && v != 0
    case ResetAssumptions => s.stage == Calling && s.lib.state == L.InputAssumptions
    case FlushSeed(n) => n <= |s.seedOut|
    case FlushChild(n) => n <= |s.childOut|
    case SeedRead(k) => !s.waiting && s.seed.call == Idle && !s.seed.ended && k > 0
    case SeedReceive(pid) => !s.waiting && s.seed.call.Reading? && s.seed.rt.out != Hung && s.seedPipe != [] && pid > 0
    case SeedReap => s.waiting && s.kids != [] && !s.kids[|s.kids| - 1].alive
    case KidRead(i, k) =>
      i < |s.kids| && s.kids[i].alive && s.kids[i].proc.call == Idle && !s.kids[i].proc.ended && k > 0
    case KidFetch(i, n) =>
      i < |s.kids| && s.kids[i].alive && s.kids[i].proc.call.Reading? && s.kids[i].ahead == [] && 0 < n <= |s.childPipe|
    case KidReceive(i) =>
      i < |s.kids| && s.kids[i].alive && s.kids[i].proc.call.Reading? && s.kids[i].proc.rt.out != Hung
          && s.kids[i].ahead != []
    case KidExit(i, _) => i < |s.kids| && s.kids[i].alive
  }

  // ----- library steps -----

  function DoQuantify(s: Sys, q: int): Sys {
    var m := Quantifier(L.SentAs(s.lib, q));
    s.(lib := L.Quantified(s.lib, q), seedOut := s.seedOut + [m],
       hist := s.hist.(user := s.hist.user + [q], toSeed := s.hist.toSeed + [m]))
  }

  function DoAdd(s: Sys, l: int): Sys {
    var h := s.hist;
    s.(lib := L.Added(s.lib, l), seedOut := s.seedOut + [Literal(l)],
       hist := h.(toSeed := h.toSeed + [Literal(l)],
                  clauses := if l == 0 then h.clauses + [h.open] else h.clauses,
                  open := if l == 0 then [] else h.open + [l]))
  }

  function DoSendFork(s: Sys): Sys {
    var h, m := s.hist, Fork(s.lib.exitCodeMode);
    s.(lib := L.Forking(s.lib), stage := Awaiting, seedPipe := s.seedPipe + s.seedOut + [m], seedOut := [],
       hist := h.(toSeed := h.toSeed + [m],
                  rounds := h.rounds + [Round(h.toSeed + [m], h.user, h.clauses, s.childPipe + s.childOut, [], false)],
                  exitTaken := false,
                  alone := h.alone && Unread(s)))
  }

  function DoTakeReport(s: Sys): Sys
    requires s.inbox != []
  {
    var m, t := s.inbox[0], s.(inbox := s.inbox[1..]);
    if m.ForkReport? then t.(lib := s.lib.(pid := m.pid), stage := Calling) else t
  }

  function LastRound(s: Sys, r: Round): Sys
    requires s.hist.rounds != []
  {
    s.(hist := s.hist.(rounds := s.hist.rounds[|s.hist.rounds| - 1 := r]))
  }

  function DoAssume(s: Sys, l: int): Sys
    requires s.hist.rounds != []
  {
    var r := s.hist.rounds[|s.hist.rounds| - 1];
    LastRound(s, r.(units := r.units + [l])).
      (lib := L.OneMore(s.lib), childOut := s.childOut + [Literal(l), Literal(0)])
  }

  function DoSendSolve(s: Sys): Sys
    requires s.hist.rounds != []
  {
    var r := s.hist.rounds[|s.hist.rounds| - 1];
    LastRound(s, r.(solved := true)).
      (lib := s.lib.(state := L.Working), stage := Solving, childPipe := s.childPipe + s.childOut + [Solve],
          childOut := [])
  }

  /** quapi_solve returns: counters are rolled back. */
  function Return(s: Sys): Sys { s.(lib := L.Solved(s.lib), stage := Calling) }

  /** SIGKILL to the current child. */
  function Kill(s: Sys): Sys {
    if s.kids == [] || !s.kids[|s.kids| - 1].alive then s
    else s.(kids := s.kids[|s.kids| - 1 := s.kids[|s.kids| - 1].(alive := false, status := 0)])
  }

  function DoHandleChild(s: Sys): Sys
    requires s.inbox != []
  {
    var m := s.inbox[0];
    var t := s.(inbox := s.inbox[1..], hist := s.hist.(exitTaken := s.hist.exitTaken || m.ExitCode?));
    if L.EndsWait(m, s.callback) then Return(t) else t
  }

  // ----- seed steps -----

  function DoSeedReceive(s: Sys, pid: int): Sys
    requires s.seedPipe != [] && s.seed.call.Reading?
  {
    var m := s.seedPipe[0];
    var d := Deliver(s.seed, m);
    var taken := s.hist.taken + [m];
    var t := s.(seed := d, seedPipe := s.seedPipe[1..], hist := s.hist.(taken := taken));
    if m.Fork? && d.rt.out == NeedMessage then
      t.(kids := s.kids + [Kid(d, pid, true, 0, taken, [], [])], inbox := s.inbox + [ForkReport(pid)],
         waiting := m.waitForExitCode)
    else if m.Header? && s.seed.rt.phase == WaitingForHeader then t.(inbox := s.inbox + [Started(API_VERSION)])
    else t
  }

  // ----- child steps -----

  function SetKid(s: Sys, i: nat, k: Kid): Sys
    requires i < |s.kids|
  {
    s.(kids := s.kids[i := k])
  }

  /** A child's stream takes what is there, as much as it likes. */
  function DoKidFetch(s: Sys, i: nat, n: nat): Sys
    requires i < |s.kids| && n <= |s.childPipe|
  {
    SetKid(s, i, s.kids[i].(ahead := s.kids[i].ahead + s.childPipe[..n])).(childPipe := s.childPipe[n..])
  }

  function DoKidReceive(s: Sys, i: nat): Sys
    requires i < |s.kids| && s.kids[i].ahead != [] && s.kids[i].proc.call.Reading?
  {
    var k, m := s.kids[i], s.kids[i].ahead[0];
    SetKid(s, i, k.(proc := Deliver(k.proc, m), ahead := k.ahead[1..], own := k.own + [m]))
  }

  /** A child that ends by itself; unless the seed waits for exit codes, its
      destructor tells the library. */
  function DoKidExit(s: Sys, i: nat, status: int): Sys
    requires i < |s.kids|
  {
    SetKid(s, i, s.kids[i].(alive := false, status := status)).
      (inbox := if s.lib.exitCodeMode then s.inbox else s.inbox + [Destructed])
  }

  function Apply(s: Sys, st: Step): Sys
    requires Enabled(s, st)
  {
    match st
    case GetStarted => s.(inbox := s.inbox[1..], stage := Calling)
    case Quantify(q) => DoQuantify(s, q)
    case Add(l) => DoAdd(s, l)
    case SendFork => DoSendFork(s)
    case TakeReport => DoTakeReport(s)
    case Assume(l) => DoAssume(s, l)
    case SendSolve => DoSendSolve(s)
    case HandleChild => DoHandleChild(s)
    case HandleAbort => Return(Kill(s))
    case HandleOutput(_) => Return(s)
    case ResetAssumptions => Return(Kill(s))
    case FlushSeed(n) => s.(seedPipe := s.seedPipe + s.seedOut[..n], seedOut := s.seedOut[n..])
    case FlushChild(n) => s.(childPipe := s.childPipe + s.childOut[..n], childOut := s.childOut[n..])
    case SeedRead(k) => s.(seed := BeginRead(s.seed, k))
    case SeedReceive(pid) => DoSeedReceive(s, pid)
    case SeedReap => s.(inbox := s.inbox + [ExitCode(s.kids[|s.kids| - 1].status)], waiting := false)
    case KidRead(i, k) => SetKid(s, i, s.kids[i].(proc := BeginRead(s.kids[i].proc, k)))
    case KidFetch(i, n) => DoKidFetch(s, i, n)
    case KidReceive(i) => DoKidReceive(s, i)
    case KidExit(i, status) => DoKidExit(s, i, status)
  }

  // ----- runs -----

  predicate Legal(s: Sys, steps: seq<Step>)
    decreases |steps|
  {
    steps == [] || (Enabled(s, steps[0]) && Legal(Apply(s, steps[0]), steps[1..]))
  }

  function Final(s: Sys, steps: seq<Step>): Sys
    requires Legal(s, steps)
    decreases |steps|
  {
    if steps == [] then s else Final(Apply(s, steps[0]), steps[1..])
  }
}
