/** The library side: the solver record, its API calls, and the messages each call
    sends.  The functions describe one step each; the class performs them. */
module Library {
  import opened Messages

  datatype ApiState = Input | InputLiterals | InputAssumptions | Working

  /** The counters of the solver record. */
  datatype Lib = Lib(
    state: ApiState, writtenClauses: int, writtenAssumptions: int, writtenQuantifiers: int,
    universalDepth: int, header: HeaderData, exitCodeMode: bool, pid: int)

  /** quapi_init: room for maxAssumptions unit clauses is announced. */
  function Announced(literals: int, clauses: int, maxAssumptions: int, pipes: HeaderData): HeaderData {
    pipes.(literals := literals, clauses := if maxAssumptions > 0 then clauses + maxAssumptions else clauses,
           prefixdepth := maxAssumptions)
  }

  function Opened(h: HeaderData, exitCodeMode: bool): Lib { Lib(Input, 0, 0, 0, -1, h, exitCodeMode, 0) }

  // ----- quapi_quantify -----

  predicate Flips(l: Lib, q: int) { q < 0 && l.writtenQuantifiers < l.header.prefixdepth }

  /** The literal that is sent. */
  function SentAs(l: Lib, q: int): int { if Flips(l, q) then -q else q }

  function Quantified(l: Lib, q: int): Lib {
    l.(universalDepth := if Flips(l, q) then l.writtenQuantifiers else l.universalDepth,
       writtenQuantifiers := if q != 0 then l.writtenQuantifiers + 1 else l.writtenQuantifiers)
  }

  // ----- quapi_add -----

  function Added(l: Lib, lit: int): Lib {
    l.(state := InputLiterals, writtenClauses := if lit == 0 then l.writtenClauses + 1 else l.writtenClauses)
  }

  // ----- make_solvable, quapi_assume, quapi_solve -----

  predicate NeedsFork(l: Lib) { l.state == Input || l.state == InputLiterals }

  function Forking(l: Lib): Lib { l.(state := InputAssumptions) }

  predicate Refused(l: Lib) { l.writtenClauses >= l.header.clauses + l.header.prefixdepth }

  function OneMore(l: Lib): Lib {
    l.(state := InputAssumptions, writtenClauses := l.writtenClauses + 1,
       writtenAssumptions := l.writtenAssumptions + 1)
  }

  /** The check on leading universal quantifiers. */
  predicate TooFewAssumptions(l: Lib) { l.writtenAssumptions < l.universalDepth }

  function Solved(l: Lib): Lib {
    l.(state := InputLiterals, writtenClauses := l.writtenClauses - l.writtenAssumptions, writtenAssumptions := 0)
  }

  /** The fork report make_solvable stops at; everything before it is discarded. */
  function FirstReport(inbox: seq<Msg>): (n: nat)
    ensures n <= |inbox| && (n < |inbox| ==> inbox[n].ForkReport?)
    ensures forall i :: 0 <= i < n ==> !inbox[i].ForkReport?
  {
    if inbox == [] || inbox[0].ForkReport? then 0 else 1 + FirstReport(inbox[1..])
  }

  // ----- waiting for the result -----

  /** What poll wakes up for: a message of the runtime, an abort, or solver output
      on which the line scanner reached the given verdict (0: none yet). */
  datatype PollEvent = Child | EventFd | SolverOutput(verdict: int)

  /** Whether S_HANDLE_CHILD ends the wait on this message, and with what. */
  predicate EndsWait(m: Msg, callback: bool) { !(m.ExitCode? && m.code == 0 && callback) }

  function ResultOf(m: Msg): int { if m.ExitCode? then m.code else 0 }

  /** How many of the first n events are for a message of the runtime. */
  function Wakeups(events: seq<PollEvent>, n: nat): (k: nat)
    requires n <= |events|
    ensures k <= n
  {
    if n == 0 then 0 else Wakeups(events, n - 1) + (if events[n - 1] == Child then 1 else 0)
  }

  /** How many messages the first n events take: one each, while there are any. */
  function Taken(inbox: seq<Msg>, events: seq<PollEvent>, n: nat): (k: nat)
    requires n <= |events|
    ensures k <= |inbox|
  {
    if Wakeups(events, n) <= |inbox| then Wakeups(events, n) else |inbox|
  }

  /** Event n ends the wait. */
  predicate Decides(inbox: seq<Msg>, events: seq<PollEvent>, callback: bool, n: nat)
    requires n < |events|
  {
    match events[n]
    case Child => Wakeups(events, n) < |inbox| && EndsWait(inbox[Wakeups(events, n)], callback)
    case EventFd => true
    case SolverOutput(v) => v != 0
  }

  /** Event n is the first that ends the wait. */
  predicate FirstDecides(inbox: seq<Msg>, events: seq<PollEvent>, callback: bool, n: nat)
    requires n < |events|
  {
    Decides(inbox, events, callback, n) && forall i :: 0 <= i < n ==> !Decides(inbox, events, callback, i)
  }

  /** Some event ends the wait. */
  predicate Ends(inbox: seq<Msg>, events: seq<PollEvent>, callback: bool) {
    exists n :: 0 <= n < |events| && Decides(inbox, events, callback, n)
  }

  lemma NotPast(inbox: seq<Msg>, events: seq<PollEvent>, callback: bool, k: nat)
    requires Ends(inbox, events, callback) && k <= |events|
    requires forall i :: 0 <= i < k ==> !Decides(inbox, events, callback, i)
    ensures k < |events|
  {
  }

  /** The same in full. */
  lemma DecidesPlainly(inbox: seq<Msg>, events: seq<PollEvent>, callback: bool, n: nat)
    requires n < |events| && FirstDecides(inbox, events, callback, n)
    ensures forall i :: 0 <= i < n ==>
              && events[i] != EventFd && (events[i].SolverOutput? ==> events[i].verdict == 0)
              && (events[i] == Child && Wakeups(events, i) < |inbox| ==>
                    callback && inbox[Wakeups(events, i)] == ExitCode(0))
    ensures events[n] == Child ==>
              var rest := inbox[Taken(inbox, events, n + 1)..];
              && |rest| < |inbox| && inbox[|inbox| - |rest| - 1] == inbox[Wakeups(events, n)]
              && !(callback && inbox[|inbox| - |rest| - 1] == ExitCode(0))
  {
    forall i | 0 <= i < n
      ensures events[i] != EventFd && (events[i].SolverOutput? ==> events[i].verdict == 0)
      ensures events[i] == Child && Wakeups(events, i) < |inbox| ==>
                callback && inbox[Wakeups(events, i)] == ExitCode(0)
    {
      assert !Decides(inbox, events, callback, i);
    }
  }

  /** One more event, seen from where the inbox stands. */
  lemma NextEvent(all: seq<Msg>, was: seq<PollEvent>, callback: bool, k: nat, inbox: seq<Msg>)
    requires k < |was| && inbox == all[Taken(all, was, k)..]
    ensures var took := was[k] == Child && inbox != [];
            && all[Taken(all, was, k + 1)..] == (if took then inbox[1..] else inbox)
            && (took ==> inbox[0] == all[|all| - |inbox|])
            && (Decides(all, was, callback, k) <==>
                  match was[k]
                  case Child => took && EndsWait(inbox[0], callback)
                  case EventFd => true
                  case SolverOutput(v) => v != 0)
  {
    if was[k] == Child && Wakeups(was, k) < |all| {
      assert inbox[0] == all[Wakeups(was, k)] && all[Wakeups(was, k) + 1..] == inbox[1..];
    }
  }

  lemma NothingTaken(inbox: seq<Msg>, events: seq<PollEvent>)
    ensures inbox[Taken(inbox, events, 0)..] == inbox
  {
  }

  lemma Decided(inbox: seq<Msg>, events: seq<PollEvent>, callback: bool, k: nat, done: bool)
    requires 0 < k <= |events| && (Decides(inbox, events, callback, k - 1) <==> done)
    requires forall i :: 0 <= i < k - 1 ==> !Decides(inbox, events, callback, i)
    ensures done ==> FirstDecides(inbox, events, callback, k - 1)
    ensures !done ==> forall i :: 0 <= i < k ==> !Decides(inbox, events, callback, i)
  {
  }

  // ----- the record -----

  class Solver {
    var state: ApiState
    var writtenClauses: int
    var writtenAssumptions: int
    var writtenQuantifiers: nat
    var universalDepth: int
    var solverChildPid: int
    const header: HeaderData
    const exitCodeMode: bool      // no SAT_regex
    const callback: bool          // a stdout callback is set
    const allowMissing: bool      // QUAPI_ALLOW_MISSING_UNIVERSAL_ASSUMPTIONS

    // What was written to the two pipes, and what the runtime will send.
    var toSeed: seq<Msg>
    var toChild: seq<Msg>
    var inbox: seq<Msg>
    var events: seq<PollEvent>

    // The processes that were sent a SIGKILL.
    var killed: seq<int>

    ghost function Abs(): Lib
      reads this
    {
      Lib(state, writtenClauses, writtenAssumptions, writtenQuantifiers, universalDepth, header, exitCodeMode,
          solverChildPid)
    }

    constructor (h: HeaderData, exitCodeMode: bool, callback: bool, allowMissing: bool,
                 inbox: seq<Msg>, events: seq<PollEvent>)
      ensures Abs() == Opened(h, exitCodeMode)
      ensures toSeed == [Header(API_VERSION, h)] && toChild == [] && this.inbox == inbox && this.events == events
      ensures killed == []
    {
      state, writtenClauses, writtenAssumptions, writtenQuantifiers, universalDepth := Input, 0, 0, 0, -1;
      solverChildPid := 0;
      header := h;
      this.exitCodeMode, this.callback, this.allowMissing := exitCodeMode, callback, allowMissing;
      toSeed, toChild := [Header(API_VERSION, h)], [];
      this.inbox, this.events, killed := inbox, events, [];
    }

    method Quantify(q: int)
      requires state == Input
      modifies this`universalDepth, this`writtenQuantifiers, this`toSeed
      ensures Abs() == old(Quantified(Abs(), q))
      ensures toSeed == old(toSeed) + [Quantifier(old(SentAs(Abs(), q)))]
    {
      var lit := q;
      if lit < 0 && writtenQuantifiers < header.prefixdepth {
        universalDepth := writtenQuantifiers;
      }
      if header.prefixdepth > writtenQuantifiers && lit < 0 {
        lit := -lit;
      }
      toSeed := toSeed + [Quantifier(lit)];
      if lit != 0 {
        writtenQuantifiers := writtenQuantifiers + 1;
      }
    }

    method Add(lit: int)
      requires state == InputLiterals || state == Input
      modifies this`state, this`writtenClauses, this`toSeed
      ensures Abs() == old(Added(Abs(), lit)) && toSeed == old(toSeed) + [Literal(lit)]
    {
      state := InputLiterals;
      toSeed := toSeed + [Literal(lit)];
      if lit == 0 {
        writtenClauses := writtenClauses + 1;
      }
    }

    /** Forks once per round; the child's pid is the first fork report to arrive. */
    method MakeSolvable() returns (ok: bool)
      modifies this`state, this`solverChildPid, this`toSeed, this`inbox
      ensures !old(NeedsFork(Abs())) ==> ok && Abs() == old(Abs()) && toSeed == old(toSeed) && inbox == old(inbox)
      ensures old(NeedsFork(Abs())) ==>
                var n := FirstReport(old(inbox));
                && toSeed == old(toSeed) + [Fork(exitCodeMode)]
                && ok == (n < |old(inbox)|)
                && (ok ==> inbox == old(inbox)[n + 1..] && Abs() == old(Forking(Abs())).(pid := old(inbox)[n].pid))
                && (!ok ==> inbox == [] && Abs() == old(Forking(Abs())))
    {
      if !(state == InputLiterals || state == Input) {
        return true;
      }
      state := InputAssumptions;
      toSeed := toSeed + [Fork(exitCodeMode)];
      var rest := inbox;
      ghost var k := 0;
      while rest != [] && !rest[0].ForkReport?
        invariant k <= |inbox| && rest == inbox[k..] && FirstReport(inbox) == k + FirstReport(rest)
        decreases |rest|
      {
        rest := rest[1..];
        k := k + 1;
      }
      inbox := rest;
      if inbox == [] {
        return false;
      }
      solverChildPid := inbox[0].pid;
      inbox := inbox[1..];
      ok := true;
    }

    method Assume(lit: int) returns (ok: bool)
      requires state == InputLiterals || state == InputAssumptions
      modifies this`state, this`writtenClauses, this`writtenAssumptions, this`solverChildPid
      modifies this`toSeed, this`toChild, this`inbox
      ensures lit == 0 ==>
                ok && Abs() == old(Abs()) && toSeed == old(toSeed) && toChild == old(toChild) && inbox == old(inbox)
      ensures lit != 0 && old(Refused(Abs())) ==>
                !ok && Abs() == old(Abs()) && toSeed == old(toSeed) && toChild == old(toChild) && inbox == old(inbox)
      ensures lit != 0 && !old(Refused(Abs())) ==>
                && (ok <==> old(state) == InputAssumptions || FirstReport(old(inbox)) < |old(inbox)|)
                && toSeed == (if old(state) == InputLiterals then old(toSeed) + [Fork(exitCodeMode)] else old(toSeed))
                && toChild == (if ok then old(toChild) + [Literal(lit), Literal(0)] else old(toChild))
                && (ok ==> Abs() == old(OneMore(Abs())).(pid := solverChildPid))
                && (ok && old(state) == InputAssumptions ==> inbox == old(inbox) && solverChildPid == old(solverChildPid))
                && (ok && old(state) == InputLiterals ==>
                      var n := FirstReport(old(inbox)); inbox == old(inbox)[n + 1..] && solverChildPid == old(inbox)[n].pid)
    {
      if lit == 0 {
        return true;
      }
      if writtenClauses >= header.clauses + header.prefixdepth {
        return false;
      }
      ok := MakeSolvable();
      if !ok {
        return false;
      }
      state := InputAssumptions;
      toChild := toChild + [Literal(lit)];
      toChild := toChild + [Literal(0)];
      writtenClauses := writtenClauses + 1;
      writtenAssumptions := writtenAssumptions + 1;
      assert toChild == old(toChild) + [Literal(lit), Literal(0)];
    }

    /** quapi_reset_assumptions: the child is killed and its assumptions are forgotten. */
    method ResetAssumptions()
      modifies this`state, this`writtenClauses, this`writtenAssumptions, this`killed
      ensures old(state) != InputAssumptions ==> Abs() == old(Abs()) && killed == old(killed)
      ensures old(state) == InputAssumptions ==>
                && state == InputLiterals && writtenAssumptions == 0
                && writtenClauses == old(writtenClauses) - old(writtenAssumptions)
                && Abs() == old(Solved(Abs())) && killed == old(killed) + [solverChildPid]
    {
      if state == InputAssumptions {
        killed := killed + [solverChildPid];
        writtenClauses := writtenClauses - writtenAssumptions;
        writtenAssumptions := 0;
        state := InputLiterals;
      }
    }

    /** The poll loop: S_POLL and its three handlers, until one of them decides.  The
        events before event n decide nothing; event n gives the result. */
    method SolveInternal() returns (result: int)
      requires state == Input || state == InputLiterals || state == InputAssumptions
      requires Ends(inbox, events, callback)
      modifies this`state, this`toChild, this`inbox, this`events, this`killed
      ensures toChild == old(toChild) + [Solve] && Abs() == old(Abs()).(state := Working)
      ensures var n, was := |old(events)| - |events| - 1, old(events);
              && 0 <= n && FirstDecides(old(inbox), was, callback, n)
              && (forall i :: 0 <= i < n ==>
                    && was[i] != EventFd && (was[i].SolverOutput? ==> was[i].verdict == 0)
                    && (was[i] == Child && Wakeups(was, i) < |old(inbox)| ==>
                          callback && old(inbox)[Wakeups(was, i)] == ExitCode(0)))
              && events == was[n + 1..] && inbox == old(inbox)[Taken(old(inbox), was, n + 1)..]
              && (was[n] == Child ==>
                    && |inbox| < |old(inbox)|
                    && var m := old(inbox)[|old(inbox)| - |inbox| - 1];
                       && !(callback && m == ExitCode(0))
                       && if m.ExitCode? then result == m.code else result == 0)
              && (was[n] == EventFd ==> result == 0)
              && (was[n].SolverOutput? ==> result == was[n].verdict)
              && killed == (if was[n] == EventFd then old(killed) + [solverChildPid] else old(killed))
    {
      hide Taken, Decides, FirstDecides, Ends;
      state := Working;
      toChild := toChild + [Solve];
      result := Poll();
      ghost var n := |old(events)| - |events| - 1;
      DecidesPlainly(old(inbox), old(events), callback, n);
    }

    /** S_POLL with its handlers. */
    method Poll() returns (result: int)
      requires Ends(inbox, events, callback)
      modifies this`inbox, this`events, this`killed
      ensures var n, was := |old(events)| - |events| - 1, old(events);
              && 0 <= n && FirstDecides(old(inbox), was, callback, n)
              && events == was[n + 1..] && inbox == old(inbox)[Taken(old(inbox), was, n + 1)..]
              && Resulted(old(inbox), was[n], result) && killed == old(killed) + KilledBy(was[n])
    {
      hide *;
      ghost var all, was := inbox, events;
      ghost var k: nat := 0;
      NothingTaken(all, was);
      var done := false;
      result := 0;
      while !done
        invariant k <= |was| && events == was[k..] && inbox == all[Taken(all, was, k)..]
        invariant if done then k > 0 && FirstDecides(all, was, callback, k - 1) && Resulted(all, was[k - 1], result)
                  else forall i :: 0 <= i < k ==> !Decides(all, was, callback, i)
        invariant killed == old(killed) + (if done then KilledBy(was[k - 1]) else [])
        decreases |was| - k
      {
        NotPast(all, was, callback, k);
        var event := events[0];
        events := events[1..];
        assert event == was[k] && was[k..][1..] == was[k + 1..];
        done, result := Handle(event, all, was, k);
        k := k + 1;
        Decided(all, was, callback, k, done);
      }
    }

    /** What was read last, if anything, and the result it gives. */
    ghost predicate Resulted(all: seq<Msg>, event: PollEvent, result: int)
      reads this
    {
      match event
      case Child =>
        |inbox| < |all| && var m := all[|all| - |inbox| - 1]; if m.ExitCode? then result == m.code else result == 0
      case EventFd => result == 0
      case SolverOutput(v) => result == v
    }

    ghost function KilledBy(event: PollEvent): seq<int>
      reads this
    {
      if event == EventFd then [solverChildPid] else []
    }

    /** S_HANDLE_CHILD, S_HANDLE_EVENTFD and the outcome of S_HANDLE_SOLVERCHILD. */
    method Handle(event: PollEvent, ghost all: seq<Msg>, ghost was: seq<PollEvent>, ghost k: nat)
      returns (done: bool, result: int)
      requires k < |was| && event == was[k] && inbox == all[Taken(all, was, k)..]
      modifies this`inbox, this`killed
      ensures inbox == all[Taken(all, was, k + 1)..] && (done <==> Decides(all, was, callback, k))
      ensures killed == old(killed) + (if done then KilledBy(event) else [])
      ensures done ==> Resulted(all, event, result)
    {
      hide Taken, Decides;
      NextEvent(all, was, callback, k, inbox);
      done, result := false, 0;
      match event {
        case Child =>
          if inbox != [] {
            var m := inbox[0];
            inbox := inbox[1..];
            if !(m.ExitCode? && m.code == 0 && callback) {
              return true, if m.ExitCode? then m.code else 0;
            }
          }
        case EventFd =>
          killed := killed + [solverChildPid];
          return true, 0;
        case SolverOutput(verdict) =>
          if verdict != 0 {
            return true, verdict;
          }
      }
    }

    method QuapiSolve() returns (result: int)
      requires state != Working
      requires WaitStart() <= |inbox| ==> Ends(inbox[WaitStart()..], events, callback)
      modifies this
      ensures old(TooFewAssumptions(Abs())) && !allowMissing ==>
                && result == 0 && Abs() == old(Abs()) && toSeed == old(toSeed) && toChild == old(toChild)
                && inbox == old(inbox) && events == old(events) && killed == old(killed)
      ensures !(old(TooFewAssumptions(Abs())) && !allowMissing) ==>
                && toSeed == (if old(NeedsFork(Abs())) then old(toSeed) + [Fork(exitCodeMode)] else old(toSeed))
                && (old(WaitStart()) > |old(inbox)| ==>
                      && result == 0 && toChild == old(toChild) && Abs() == old(Forking(Abs()))
                      && events == old(events) && killed == old(killed))
                && (old(WaitStart()) <= |old(inbox)| ==>
                      && toChild == old(toChild) + [Solve] && Abs() == old(Solved(Abs())).(pid := solverChildPid)
                      && solverChildPid == if old(NeedsFork(Abs())) then old(inbox[FirstReport(inbox)].pid)
                                           else old(solverChildPid))
      ensures !(old(TooFewAssumptions(Abs())) && !allowMissing) && old(WaitStart()) <= |old(inbox)| ==>
                var given, was, n := old(inbox)[old(WaitStart())..], old(events), |old(events)| - |events| - 1;
                && 0 <= n && FirstDecides(given, was, callback, n)
                && events == was[n + 1..] && inbox == given[Taken(given, was, n + 1)..]
                && (was[n] == Child ==>
                      && |inbox| < |given|
                      && var m := given[|given| - |inbox| - 1]; if m.ExitCode? then result == m.code else result == 0)
                && (was[n] == EventFd ==> result == 0)
                && (was[n].SolverOutput? ==> result == was[n].verdict)
                && killed == (if was[n] == EventFd then old(killed) + [solverChildPid] else old(killed))
    {
      hide Taken, Decides, FirstDecides, Ends;
      if writtenAssumptions < universalDepth && !allowMissing {
        return 0;
      }
      var ok := MakeSolvable();
      if !ok {
        return 0;
      }
      result := SolveInternal();
      state := InputLiterals;
      writtenClauses := writtenClauses - writtenAssumptions;
      writtenAssumptions := 0;
    }

    /** Where in the inbox the wait for the result starts: after this round's fork
        report; past the end if none arrives. */
    ghost function WaitStart(): nat
      reads this
    {
      if NeedsFork(Abs()) then FirstReport(inbox) + 1 else 0
    }
  }

  // ----- counting clauses -----

  /** A round's assumptions, one quapi_assume each. */
  function AssumeAll(l: Lib, k: nat): (Lib, bool)
    decreases k
  {
    if k == 0 then (l, true)
    else if Refused(l) then (l, false)
    else AssumeAll(OneMore(l), k - 1)
  }

  /** The clause check, exactly: a round of k > 0 assumptions goes through if and only
      if the clauses do not exceed the announced count by more than prefixdepth, while
      the announced count itself is kept only up to that many fewer.  After the round
      the counters are back where they were. */
  lemma {:induction false} ClauseAccounting(l: Lib, k: nat)
    ensures var (m, ok) := AssumeAll(l, k);
            && (ok <==> k == 0 || l.writtenClauses + k <= l.header.clauses + l.header.prefixdepth)
            && (ok ==> m.writtenClauses == l.writtenClauses + k && m.writtenAssumptions == l.writtenAssumptions + k)
            && (ok && l.writtenAssumptions == 0 ==>
                  Solved(m).writtenClauses == l.writtenClauses && Solved(m).writtenAssumptions == 0)
    decreases k
  {
    if k > 0 && !Refused(l) {
      ClauseAccounting(OneMore(l), k - 1);
    }
  }
}
