/** The preloaded runtime as the program has it: one record updated in place,
    with a 64-byte output buffer that numbers are formatted into from the back. */
module Runtime {
  import opened Numerals
  import opened Messages
  import opened Transducer
  import opened PullMachine
  import opened Seqs

  const BUFFER_SIZE: nat := 64

  predicate ContentFits(m: Msg) {
    && (m.Header? ==> IsLit(m.data.literals) && IsLit(m.data.clauses))
    && (m.Quantifier? ==> IsLit(m.lit))
    && (m.Literal? ==> IsLit(m.lit))
  }

  lemma BlankFront(a: array<char>, at: nat, size: nat, text: string)
    requires at < size <= a.Length && a[at] == ' ' && a[at + 1..size] == text
    ensures a[at..size] == " " + text
  {
    assert a[at..size] == [a[at]] + a[at + 1..size];
  }

  // ----- what the library is told -----

  /** What fork() returns and how the forked processes exit, by the number of the fork.
      Past the given results fork() fails, and a process without a status did not exit by
      itself. */
  datatype World = World(pids: seq<int>, statuses: seq<int>) {
    function Pid(n: nat): int { if n < |pids| then pids[n] else -1 }

    function Status(n: nat): int { if n < |statuses| then statuses[n] else 0 }
  }

  /** What the forking process tells the library about its child. */
  function ReportsOf(pid: int, waited: bool, status: int): seq<Msg> {
    if waited then [ForkReport(pid), ExitCode(status)] else [ForkReport(pid)]
  }

  /** The forks a process makes that reads these messages; a process that is still waiting
      for its header (first) does not fork on the first one. */
  function ForksIn(ms: seq<Msg>, first: bool): nat {
    if ms == [] then 0 else (if !first && ms[0].Fork? then 1 else 0) + ForksIn(ms[1..], false)
  }

  /** What it tells the library, n forks having been made before: that it started, for the
      header, and for each fork its own pid and then, if asked to wait, its own status. */
  function Told(ms: seq<Msg>, first: bool, n: nat, w: World): seq<Msg> {
    if ms == [] then []
    else if first then (if ms[0].Header? then [Started(API_VERSION)] else []) + Told(ms[1..], false, n, w)
    else if !ms[0].Fork? then Told(ms[1..], false, n, w)
    else
      (if w.Pid(n) > 0 then ReportsOf(w.Pid(n), ms[0].waitForExitCode, w.Status(n)) else []) +
      Told(ms[1..], false, n + 1, w)
  }

  /** Whether one of these forks returns 0: the process is then a solving child. */
  predicate Childed(ms: seq<Msg>, first: bool, n: nat, w: World) {
    exists i :: n <= i < n + ForksIn(ms, first) && w.Pid(i) == 0
  }

  lemma {:induction false} ToldConcat(a: seq<Msg>, b: seq<Msg>, first: bool, n: nat, w: World)
    ensures ForksIn(a + b, first) == ForksIn(a, first) + ForksIn(b, first && a == [])
    ensures Told(a + b, first, n, w) == Told(a, first, n, w) + Told(b, first && a == [], n + ForksIn(a, first), w)
    ensures Childed(a + b, first, n, w) <==>
              Childed(a, first, n, w) || Childed(b, first && a == [], n + ForksIn(a, first), w)
    decreases |a|
  {
    if a == [] {
      assert a + b == b;
    } else {
      assert (a + b)[0] == a[0] && (a + b)[1..] == a[1..] + b;
      var k := n + if !first && a[0].Fork? then 1 else 0;
      ToldConcat(a[1..], b, false, k, w);
      var t := Told(a[1..], false, k, w) + Told(b, false, k + ForksIn(a[1..], false), w);
      assert Told(a + b, first, n, w) == Told(a, first, n, w) + Told(b, false, k + ForksIn(a[1..], false), w);
    }
  }

  /** What a process has done outside its record. */
  datatype Account = Account(sent: seq<Msg>, forks: nat, isChild: bool)

  /** From a to b a process did what these messages call for. */
  predicate Tallied(a: Account, b: Account, ms: seq<Msg>, first: bool, w: World) {
    && b.sent == a.sent + Told(ms, first, a.forks, w)
    && b.forks == a.forks + ForksIn(ms, first)
    && (b.isChild <==> a.isChild || Childed(ms, first, a.forks, w))
  }

  lemma TalliedConcat(a: Account, b: Account, c: Account, x: seq<Msg>, y: seq<Msg>, first: bool, w: World)
    requires Tallied(a, b, x, first, w) && Tallied(b, c, y, first && x == [], w)
    ensures Tallied(a, c, x + y, first, w)
  {
    ToldConcat(x, y, first, a.forks, w);
    hide Told, ForksIn, Childed;
    Assoc(a.sent, Told(x, first, a.forks, w), Told(y, first && x == [], b.forks, w));
  }

  lemma TalliedNothing(a: Account, first: bool, w: World)
    ensures Tallied(a, a, [], first, w)
  {
    NilRight(a.sent);
  }

  /** Most messages call for nothing. */
  lemma TalliedOne(a: Account, m: Msg, first: bool, w: World)
    ensures !(first && m.Header?) && !(!first && m.Fork?) ==> Tallied(a, a, [m], first, w)
    ensures first && m.Header? ==> Tallied(a, a.(sent := a.sent + [Started(API_VERSION)]), [m], first, w)
  {
    ToldOne(m, first, a.forks, w);
    NilRight(a.sent);
  }

  lemma ToldOne(m: Msg, first: bool, n: nat, w: World)
    ensures ForksIn([m], first) == if !first && m.Fork? then 1 else 0
    ensures Told([m], first, n, w) ==
              if first then (if m.Header? then [Started(API_VERSION)] else [])
              else if m.Fork? && w.Pid(n) > 0 then ReportsOf(w.Pid(n), m.waitForExitCode, w.Status(n)) else []
    ensures Childed([m], first, n, w) <==> !first && m.Fork? && w.Pid(n) == 0
  {
    assert [m][1..] == [];
    assert Told([], false, n, w) == [] && Told([], false, n + 1, w) == [];
  }

  /** The phases the inner loop can be in without output, having begun in p. */
  predicate Quiet(p: Phase, now: Phase, m: Msg) {
    && Handled(now, m) && (now == WaitingForHeader <==> p == WaitingForHeader)
    && (p == Working ==> now == Working) && (m.Fork? && now == Working ==> p == Working)
  }

  /** A process reports, or forks, in the call that ends the inner loop, and in no other. */
  lemma QuietCall(p: Phase, r: Rt, m: Msg)
    requires r.out == Bytes("") && Quiet(p, r.phase, m)
    ensures var s := StateCall(r, m);
            var reports := m.Fork? && (r.phase == ReadingPrefix || r.phase == ReadingMatrix);
            && (r.phase == WaitingForHeader <==> p == WaitingForHeader) && (p == Working ==> r.phase == Working)
            && s.phase != WaitingForHeader
            && (s.out == Bytes("") ==> Quiet(p, s.phase, m) && !reports && r.phase != WaitingForHeader)
            && (s.out != Bytes("") ==> (reports <==> m.Fork? && p != WaitingForHeader && p != Working))
  {
  }

  lemma QuietStart(p: Phase, m: Msg)
    requires Handled(p, m)
    ensures Quiet(p, p, m)
  {
  }

  lemma CallNeeds(r: Rt, m: Msg)
    requires r.out == Bytes("") && StateCall(r, m).out == NeedMessage
    ensures StateCall(r, m).phase != Working && StateCall(r, m).phase != WaitingForHeader
  {
  }

  lemma {:induction false} SpinNeeds(r: Rt, m: Msg, n: nat)
    requires r.out == Bytes("") && Spin(r, m, n).out == NeedMessage
    ensures Spin(r, m, n).phase != Working && Spin(r, m, n).phase != WaitingForHeader
    decreases n
  {
    hide StateCall;
    if n == 0 {
    } else if StateCall(r, m).out == Bytes("") {
      SpinNeeds(StateCall(r, m), m, n - 1);
    } else {
      CallNeeds(r, m);
    }
  }

  /** A process that asks for another message is reading its formula. */
  lemma NeedsMore(r: Rt, m: Msg)
    ensures var s := Transducer.Settle(r, m); s.out == NeedMessage ==> s.phase != Working && s.phase != WaitingForHeader
    ensures r.phase == Working ==> Transducer.Settle(r, m).phase == Working
  {
    SpinStep(Receive(r, m), m, 3);
    hide Spin;
    if Handled(r.phase, m) && Spin(Receive(r, m), m, 3).out == NeedMessage {
      SpinNeeds(Receive(r, m), m, 3);
    }
  }

  lemma TakeNext(all: seq<Msg>, taken: seq<Msg>, rest: seq<Msg>)
    requires all == taken + rest && rest != []
    ensures all == taken + rest[..1] + rest[1..] && rest[..1] == [rest[0]]
  {
  }

  /** What READING_MATRIX does to the record when it writes nothing. */
  lemma MatrixCases(r: Rt, m: Msg)
    ensures m.Fork? ==> Transducer.OnMatrix(r, m) == r.(out := NeedMessage)
    ensures !m.Literal? && !m.Fork? && !m.Solve? ==> Transducer.OnMatrix(r, m) == r
  {
  }

  lemma NoBytes(buf: array<char>)
    ensures buf[..0] == ""
  {
  }

  class Runtime {
    var state: Phase
    var header: HeaderData
    const stack: array<char>
    const fillerClause: array<char>
    var fillerLen: nat
    var outbuf: nat              // offset into stack
    var outbufLen: int
    var outbufWritten: nat
    var writtenClauses: int
    var repeatState: bool
    var quantifierCount: nat
    var lastMsg: Msg

    // The surroundings: what this process will read from the pipes it is attached
    // to, what it has sent to the library, and what fork and waitpid return.
    var input: seq<Msg>
    var sent: seq<Msg>
    var forks: nat
    var isChild: bool
    const world: World

    ghost predicate Valid()
      reads this, stack, fillerClause
    {
      && stack.Length == BUFFER_SIZE && fillerClause.Length == BUFFER_SIZE && stack != fillerClause
      && 0 < fillerLen <= BUFFER_SIZE
      && -2 <= outbufLen
      && (outbufLen >= 0 ==> outbufWritten <= outbufLen && outbuf + outbufLen <= BUFFER_SIZE)
      && IsLit(header.literals) && IsLit(header.clauses)
      && ContentFits(lastMsg)
    }

    ghost function PendingOut(): Out
      requires Valid()
      reads this, stack, fillerClause
    {
      if outbufLen == -1 then NeedMessage
      else if outbufLen == -2 then Closed
      else Bytes(stack[outbuf + outbufWritten..outbuf + outbufLen])
    }

    /** The record as a value. */
    ghost function Abs(): Rt
      requires Valid()
      reads this, stack, fillerClause
    {
      Rt(state, header, fillerClause[..fillerLen], writtenClauses, repeatState, quantifierCount, lastMsg, PendingOut())
    }

    constructor (input: seq<Msg>, world: World)
      ensures Valid() && fresh(stack) && fresh(fillerClause) && this.world == world
      ensures Abs() == BOOT && this.input == input && sent == [] && forks == 0 && !isChild
    {
      state, header := WaitingForHeader, NO_HEADER;
      stack := new char[BUFFER_SIZE];
      fillerClause := new char[BUFFER_SIZE](i => if 0 <= i < |DEFAULT_FILLER| then DEFAULT_FILLER[i] else '\0');
      fillerLen := |DEFAULT_FILLER|;
      outbuf, outbufLen, outbufWritten := 0, 0, 0;
      writtenClauses, repeatState, quantifierCount, lastMsg := 0, false, 0, Destructed;
      this.input, sent, forks, isChild := input, [], 0, false;
      this.world := world;
      new;
      assert fillerClause[..fillerLen] == DEFAULT_FILLER;
    }

    // ----- output helpers -----

    ghost predicate OutputEmpty()
      reads this
    {
      outbuf == 0 && outbufLen == 0 && outbufWritten == 0
    }

    /** snprintf into the output buffer. */
    method PrintOut(text: string)
      requires Valid() && |text| < BUFFER_SIZE && outbufWritten == 0
      modifies this`outbuf, this`outbufLen, stack
      ensures Valid() && outbuf == 0 && outbufLen == |text|
      ensures Abs() == old(Abs()).(out := Bytes(text))
    {
      outbuf := 0;
      forall i | 0 <= i < |text| {
        stack[i] := text[i];
      }
      outbufLen := |text|;
      assert stack[..|text|] == text;
    }

    /** snprintf into the filler clause. */
    method PrintFiller(text: string)
      requires Valid() && 0 < |text| < BUFFER_SIZE
      modifies this`fillerLen, fillerClause
      ensures Valid() && Abs() == old(Abs()).(filler := text)
    {
      forall i | 0 <= i < |text| {
        fillerClause[i] := text[i];
      }
      fillerLen := |text|;
      assert PendingOut() == old(PendingOut());
      assert fillerClause[..fillerLen] == text;
    }

    /** A number right-justified in the output buffer. */
    method FormatOut(i: int)
      requires Valid() && IsLit(i) && outbufWritten == 0
      modifies this`outbuf, this`outbufLen, stack
      ensures Valid() && Abs() == old(Abs()).(out := Bytes(Text(i)))
    {
      outbuf := IntToStr(i, stack, BUFFER_SIZE);
      outbufLen := BUFFER_SIZE - outbuf;
    }

    /** A blank and a number right-justified in stack[..size]. */
    method FormatOutBlank(i: int, size: nat)
      requires Valid() && IsLit(i) && outbufWritten == 0 && BUFFER_SIZE - 1 <= size <= BUFFER_SIZE
      modifies this`outbuf, this`outbufLen, stack
      ensures Valid() && Abs() == old(Abs()).(out := Bytes(" " + Text(i)))
      ensures outbuf + outbufLen == size && outbufLen > 0
    {
      hide Text;
      outbuf := IntToStr(i, stack, size);
      outbuf := outbuf - 1;
      stack[outbuf] := ' ';
      outbufLen := size - outbuf;
      BlankFront(stack, outbuf, size, Text(i));
    }

    // ----- the state functions -----

    /** What every state function is called with. */
    ghost predicate Callable(m: Msg)
      requires Valid()
      reads this, stack, fillerClause
    {
      OutputEmpty() && ContentFits(m)
    }

    /** fork(), the report to the library, and the wait for the child in exit-code mode. */
    method ForkSolvingChild(waitForExitCode: bool)
      requires Valid()
      modifies this`sent, this`forks, this`isChild
      ensures Valid() && Abs() == old(Abs())
      ensures forks == old(forks) + 1
      ensures var pid, status := world.Pid(old(forks)), world.Status(old(forks));
              && isChild == (old(isChild) || pid == 0)
              && sent == (if pid <= 0 then old(sent)
                          else if waitForExitCode then old(sent) + [ForkReport(pid), ExitCode(status)]
                          else old(sent) + [ForkReport(pid)])
      ensures Reported([Fork(waitForExitCode)], false)
    {
      ToldOne(Fork(waitForExitCode), false, forks, world);
      hide Told, ForksIn, Childed;
      var number := forks;
      var pid := world.Pid(number);
      forks := forks + 1;
      if pid > 0 {
        sent := sent + [ForkReport(pid)];
        if waitForExitCode {
          var status := world.Status(number);
          sent := sent + [ExitCode(status)];
        }
      } else if pid == 0 {
        isChild := true;
      }
    }

    /** Whether the current state function forks on m. */
    ghost predicate ForksOn(m: Msg)
      reads this
    {
      m.Fork? && (state == ReadingPrefix || state == ReadingMatrix)
    }

    /** What a call of the current state function on m did outside the record. */
    twostate predicate Surroundings(m: Msg)
      reads this
    {
      && input == old(input)
      && (if old(ForksOn(m)) || (m.Header? && old(state) == WaitingForHeader) then
            Reported([m], old(state) == WaitingForHeader)
          else Unreported())
    }

    /** The messages of the input that were read, and what they made the process do outside
        its record: nothing if its input had ended, else what they call for. */
    twostate predicate Consumed(taken: seq<Msg>)
      reads this
    {
      ConsumedFrom(old(Tally()), old(state), old(input), taken)
    }

    /** The same since a time when the process was in phase p with all of its input to come. */
    ghost predicate ConsumedFrom(before: Account, p: Phase, all: seq<Msg>, taken: seq<Msg>)
      reads this
    {
      && all == taken + input
      && (state == WaitingForHeader <==> p == WaitingForHeader && taken == [])
      && if p == Working then Tally() == before else Tallied(before, Tally(), taken, p == WaitingForHeader, world)
    }

    ghost function Tally(): Account
      reads this
    {
      Account(sent, forks, isChild)
    }

    /** The library was not told anything. */
    twostate predicate Unreported()
      reads this
    {
      Tally() == old(Tally())
    }

    /** The library was told what these messages call for. */
    twostate predicate Reported(ms: seq<Msg>, first: bool)
      reads this
    {
      Tallied(old(Tally()), Tally(), ms, first, world)
    }

    /** The header line, and the filler clause of a formula without variables. */
    method PrintHeader()
      requires Valid() && OutputEmpty()
      modifies this`outbuf, this`outbufLen, this`fillerLen, stack, fillerClause
      ensures Valid() && OutbufKept()
      ensures Abs() == old(Abs()).(out := Bytes(HeaderLine(header)),
                                   filler := if header.literals == 0 then "0\n" else old(Abs()).filler)
    {
      hide Text, HeaderLine;
      LengthsFit(0, header);
      PrintOut(HeaderLine(header));
      if header.literals == 0 {
        PrintFiller("0\n");
      }
    }

    method OnHeader(m: Msg)
      requires Valid() && Callable(m) && state == WaitingForHeader
      modifies this, stack, fillerClause
      ensures Valid() && Abs() == Transducer.OnHeader(old(Abs())) && OutbufKept()
      ensures Surroundings(m)
    {
      hide HeaderLine, Told, ForksIn, Childed, Tallied;
      TalliedOne(Tally(), m, true, world);
      PrintHeader();
      if m.Header? {
        sent := sent + [Started(API_VERSION)];
      }
      state := ReadingPrefix;
    }

    /** The first variable of a block, which may also set the filler clause. */
    method FirstVariable(lit: int)
      requires Valid() && OutputEmpty() && IsLit(lit) && lit != 0 && state == ReadingPrefix
      modifies this`outbuf, this`outbufLen, this`quantifierCount, this`fillerLen, this`state, stack, fillerClause
      ensures Valid() && Abs() == Transducer.OnPrefix(old(Abs()), Quantifier(lit))
      ensures outbufWritten == 0 && outbufLen > 0
    {
      hide Text, TautologyText;
      LengthsFit(lit, header);
      if lit > 0 {
        PrintOut("e " + Text(lit));
        if quantifierCount == 0 {
          PrintFiller(TautologyText(lit));
        }
        state := ReadingExists;
      } else {
        PrintOut("a " + Text(-lit));
        state := ReadingForall;
      }
      quantifierCount := quantifierCount + 1;
    }

    method OnPrefix(m: Msg)
      requires Valid() && Callable(m) && state == ReadingPrefix
      modifies this, stack, fillerClause
      ensures Valid() && Abs() == Transducer.OnPrefix(old(Abs()), m) && OutbufKept()
      ensures Surroundings(m)
    {
      hide Text, TautologyText, Told, ForksIn, Childed, Tallied;
      if m.Quantifier? && m.lit != 0 {
        FirstVariable(m.lit);
      } else if m.Literal? {
        state := ReadingMatrix;
      } else if m.Fork? {
        outbufLen := -1;
        ForkSolvingChild(m.waitForExitCode);
      } else if m.Solve? {
        repeatState := true;
        state := ReadingMatrix;
      }
    }

    /** Another variable, of the open block or of a new one. */
    method BlockVariable(lit: int, existential: bool)
      requires Valid() && OutputEmpty() && IsLit(lit) && lit != 0
      requires state == (if existential then ReadingExists else ReadingForall)
      modifies this`outbuf, this`outbufLen, this`quantifierCount, this`state, stack
      ensures Valid() && Abs() == Transducer.OnBlock(old(Abs()), Quantifier(lit), existential)
      ensures outbufWritten == 0 && outbufLen > 0
    {
      hide Text;
      TextLength(Numerals.Abs(lit));
      if (lit > 0) == existential {
        FormatOutBlank(Numerals.Abs(lit), BUFFER_SIZE);
      } else {
        PrintOut(" 0\n" + (if lit > 0 then "e " else "a ") + Text(Numerals.Abs(lit)));
      }
      quantifierCount := quantifierCount + 1;
      state := if lit > 0 then ReadingExists else ReadingForall;
    }

    method OnBlock(m: Msg, existential: bool)
      requires Valid() && Callable(m) && state == (if existential then ReadingExists else ReadingForall)
      modifies this`outbuf, this`outbufLen, this`quantifierCount, this`writtenClauses, this`state, stack
      ensures Valid() && Abs() == Transducer.OnBlock(old(Abs()), m, existential) && OutbufKept()
    {
      hide Text;
      if m.Quantifier? && m.lit == 0 {
        PrintOut(" 0\n");
        state := ReadingPrefix;
      } else if m.Quantifier? {
        BlockVariable(m.lit, existential);
      } else if m.Literal? {
        TextLength(m.lit);
        PrintOut(" 0\n" + Text(m.lit));
        state := ReadingClause;
      } else {
        state := ReadingExists;
      }
    }

    /** Appends the newline that the buffer has kept its last byte for. */
    method EndLine()
      requires Valid() && outbuf + outbufLen == BUFFER_SIZE - 1 && outbufWritten == 0 && outbufLen >= 0
      modifies this`outbufLen, stack
      ensures Valid() && Abs() == old(Abs()).(out := Bytes(old(Abs()).out.text + "\n")) && outbufLen > 0
    {
      ghost var text := stack[outbuf..BUFFER_SIZE - 1];
      stack[BUFFER_SIZE - 1] := '\n';
      outbufLen := outbufLen + 1;
      assert stack[outbuf..BUFFER_SIZE] == text + "\n";
    }

    method OnClause(m: Msg)
      requires Valid() && Callable(m) && state == ReadingClause
      modifies this`outbuf, this`outbufLen, this`quantifierCount, this`writtenClauses, this`state, stack
      ensures Valid() && Abs() == Transducer.OnClause(old(Abs()), m) && OutbufKept()
    {
      hide Text;
      if !m.Literal? {
        state := ReadingMatrix;
        return;
      }
      FormatOutBlank(m.lit, BUFFER_SIZE - 1);
      if m.lit == 0 {
        EndLine();
        assert " " + Text(0) + "\n" == " 0\n" by { ZeroText(); }
        writtenClauses := writtenClauses + 1;
        state := ReadingMatrix;
      }
    }

    /** A filler clause while clauses are missing, the end of the input after that. */
    method FillOrFinish()
      requires Valid() && OutputEmpty() && state == ReadingMatrix
      modifies this`outbufLen, this`writtenClauses, this`repeatState, this`state, stack
      ensures Valid() && Abs() == Transducer.OnMatrix(old(Abs()), Solve) && OutbufKept()
    {
      if writtenClauses < header.clauses {
        CopyFiller();
        writtenClauses := writtenClauses + 1;
        repeatState := true;
      } else {
        repeatState := false;
        state := Working;
      }
    }

    method MatrixLiteral(lit: int)
      requires Valid() && OutputEmpty() && IsLit(lit) && state == ReadingMatrix
      modifies this`outbuf, this`outbufLen, this`state, stack
      ensures Valid() && Abs() == Transducer.OnMatrix(old(Abs()), Literal(lit)) && OutbufKept()
    {
      hide Text;
      FormatOut(lit);
      state := if lit == 0 then ReadingMatrix else ReadingClause;
    }

    method OnMatrix(m: Msg)
      requires Valid() && Callable(m) && state == ReadingMatrix
      modifies this, stack
      ensures Valid() && Abs() == Transducer.OnMatrix(old(Abs()), m) && OutbufKept()
      ensures Surroundings(m)
    {
      hide Text, Told, ForksIn, Childed, Tallied, Transducer.OnMatrix;
      MatrixCases(old(Abs()), m);
      if m.Literal? {
        MatrixLiteral(m.lit);
      } else if m.Fork? {
        MatrixFork(m);
      } else if m.Solve? {
        FillOrFinish();
      }
    }

    method MatrixFork(m: Msg)
      requires Valid() && OutputEmpty() && m.Fork? && state == ReadingMatrix
      modifies this`outbufLen, this`sent, this`forks, this`isChild
      ensures Valid() && Abs() == old(Abs()).(out := NeedMessage) && OutbufKept() && Reported([m], false)
    {
      hide Told, ForksIn, Childed, Tallied;
      ForkSolvingChild(m.waitForExitCode);
      outbufLen := -1;
    }

    /** memcpy of the filler clause to the start of the output buffer. */
    method CopyFiller()
      requires Valid() && OutputEmpty()
      modifies this`outbufLen, stack
      ensures Valid() && Abs() == old(Abs()).(out := Bytes(fillerClause[..fillerLen])) && outbufWritten == 0
    {
      forall i | 0 <= i < fillerLen {
        stack[i] := fillerClause[i];
      }
      outbufLen := fillerLen;
      assert stack[..fillerLen] == fillerClause[..fillerLen];
    }

    /** A call that produced no output left the output buffer as it found it. */
    ghost predicate OutbufKept()
      reads this
    {
      outbufWritten == 0 && (outbufLen <= 0 ==> outbuf == 0)
    }

    /** r->state(r, msg). */
    method CallState(m: Msg)
      requires Valid() && Callable(m)
      modifies this, stack, fillerClause
      ensures Valid() && Abs() == StateCall(old(Abs()), m) && OutbufKept()
      ensures Surroundings(m)
    {
      hide Transducer.OnHeader, Transducer.OnPrefix, Transducer.OnBlock, Transducer.OnClause, Transducer.OnMatrix;
      hide Told, ForksIn, Childed, Tallied;
      if state == WaitingForHeader {
        OnHeader(m);
      } else if state == ReadingPrefix {
        OnPrefix(m);
      } else if state == ReadingExists || state == ReadingForall {
        OnBlock(m, state == ReadingExists);
      } else if state == ReadingClause {
        OnClause(m);
      } else if state == ReadingMatrix {
        OnMatrix(m);
      } else {
        outbufLen := -2;
      }
    }

    // ----- pulling -----

    ghost predicate InputOk()
      reads this
    {
      forall i :: 0 <= i < |input| ==> ContentFits(input[i])
    }

    /** What the inner loop, begun in phase p, has told the library about m. */
    twostate predicate ReportedOne(p: Phase, m: Msg)
      reads this
    {
      if p == Working then Unreported() else Reported([m], p == WaitingForHeader)
    }

    /** The inner loop: the state function is called until it produces output. */
    method Settle(m: Msg)
      requires Valid() && outbuf == 0 && outbufWritten == 0 && ContentFits(m) && Handled(state, m)
      modifies this, stack, fillerClause
      ensures Valid() && Abs() == Spin(old(Fresh(Abs())), m, 3) && OutbufKept() && PendingOut() != Bytes("")
      ensures input == old(input) && ReportedOne(old(state), m) && state != WaitingForHeader
    {
      hide StateCall, Handled, Text, Spin, Told, ForksIn, Childed, Tallied, Quiet;
      outbufLen := 0;
      ghost var fuel, p := 3, state;
      ghost var start := Abs();
      assert start == old(Fresh(Abs()));
      SpinHandled(start, m, 3);
      QuietStart(p, m);
      while outbufLen == 0
        invariant Valid() && OutbufKept() && input == old(input)
        invariant Spin(start, m, 3) == if outbufLen == 0 then Spin(Abs(), m, fuel) else Abs()
        invariant if outbufLen == 0 then Quiet(p, state, m) && Unreported()
                  else ReportedOne(p, m) && state != WaitingForHeader
        decreases fuel
      {
        SpinEnds(Abs(), m, fuel);
        assert fuel > 0;
        SpinStep(Abs(), m, fuel);
        QuietCall(p, Abs(), m);
        SettleOnce(p, m);
        fuel := fuel - 1;
      }
    }

    /** One turn of the inner loop. */
    method SettleOnce(ghost p: Phase, m: Msg)
      requires Valid() && Callable(m) && Quiet(p, state, m)
      modifies this, stack, fillerClause
      ensures Valid() && Abs() == StateCall(old(Abs()), m) && OutbufKept() && input == old(input)
      ensures if outbufLen == 0 then Quiet(p, state, m) && Unreported()
              else ReportedOne(p, m) && state != WaitingForHeader
    {
      hide StateCall, Handled, Text, Told, ForksIn, Childed, Tallied, Quiet;
      QuietCall(p, Abs(), m);
      CallState(m);
      TalliedOne(old(Tally()), m, p == WaitingForHeader, world);
    }

    static method CopyOut(dst: array<char>, src: array<char>, from: nat, len: nat)
      requires dst != src && len <= dst.Length && from + len <= src.Length
      modifies dst
      ensures dst[..len] == src[from..from + len]
    {
      forall i | 0 <= i < len { dst[i] := src[from + i]; }
      ghost var d, f := dst[..len], src[from..from + len];
      assert forall i :: 0 <= i < len ==> d[i] == f[i];
    }

    /** Copies at most buflen pending bytes. */
    method UpdateBuf(buf: array<char>, buflen: nat) returns (len: nat)
      requires Valid() && buf != stack && buf != fillerClause && buflen <= buf.Length && outbufLen != -1
      modifies this`outbufWritten, buf
      ensures Valid() && Abs() == DropChunk(old(Abs()), buflen)
      ensures len <= buflen && buf[..len] == Chunk(old(Abs()), buflen)
    {
      if outbufLen == -2 {
        return 0;
      }
      len := Min(outbufLen - outbufWritten, buflen);
      var from := outbuf + outbufWritten;
      ghost var text := PendingOut().text;
      CopyOut(buf, stack, from, len);
      assert text[..len] == stack[from..from + len];
      assert text[len..] == stack[from + len..outbuf + outbufLen];
      outbufWritten := outbufWritten + len;
    }

    /** read_msg, and the inner loop on the message read. */
    method TakeMessage()
      requires Valid() && InputOk() && outbuf == 0 && outbufWritten == 0 && input != [] && Handled(state, input[0])
      modifies this, stack, fillerClause
      ensures Valid() && InputOk() && OutbufKept() && PendingOut() != Bytes("")
      ensures Abs() == old(Transducer.Settle(Abs(), input[0]))
      ensures input == old(input[1..]) && Consumed(old(input[..1]))
      ensures state != WaitingForHeader && (outbufLen == -1 ==> state != Working && old(state) != Working)
    {
      hide StateCall, Spin, Told, ForksIn, Childed, Tallied;
      NeedsMore(Abs(), input[0]);
      HeadTail(input);
      assert input[..1] == [input[0]];
      lastMsg := input[0];
      input := input[1..];
      if lastMsg.Header? {
        header := lastMsg.data;
      }
      Settle(lastMsg);
    }

    /** One more message, as part of a read. */
    method TakeAnother(ghost before: Account, ghost p: Phase, ghost all: seq<Msg>, ghost taken: seq<Msg>)
      returns (ghost more: seq<Msg>)
      requires Valid() && InputOk() && outbuf == 0 && outbufWritten == 0 && input != [] && Handled(state, input[0])
      requires ConsumedFrom(before, p, all, taken)
      requires if taken == [] then state == p else state != Working && p != Working
      modifies this, stack, fillerClause
      ensures Valid() && InputOk() && OutbufKept() && PendingOut() != Bytes("")
      ensures Abs() == old(Transducer.Settle(Abs(), input[0])) && input == old(input[1..])
      ensures ConsumedFrom(before, p, all, more) && more != []
      ensures outbufLen == -1 ==> state != Working && p != Working
    {
      hide StateCall, Spin, Told, ForksIn, Childed, Tallied, Handled, Transducer.Settle;
      ghost var m, mid := input[..1], Tally();
      TakeNext(all, taken, input);
      TakeMessage();
      if p != Working { TalliedConcat(before, mid, Tally(), taken, m, p == WaitingForHeader, world); }
      more := taken + m;
    }

    /** The outer loop of advance_state: messages are read until one produces output. */
    method ReceiveMessages(ghost given: string, ghost k: nat) returns (exited: bool, ghost taken: seq<Msg>)
      requires Valid() && InputOk() && outbuf == 0 && outbufWritten == 0
      requires PullMachine.Receiving(Blocked(given, k), input).0.rt.out != Hung
      modifies this, stack, fillerClause
      ensures Valid() && InputOk() && (exited || outbufLen != -1) && Consumed(taken)
      ensures var (q, rest) := old(PullMachine.Receiving(Blocked(given, k), input));
              if exited then q.call.Reading? && q.given == given
              else (q, rest) == (FinishRead(Proc(Abs(), Idle, given, false), k), input)
    {
      hide Spin, Chunk, DropChunk, Receive, Told, ForksIn, Childed, Tallied;
      ghost var (q, rest) := PullMachine.Receiving(Blocked(given, k), input);
      ghost var before, p, all := Tally(), state, input;
      TalliedNothing(before, p == WaitingForHeader, world);
      NilLeft(input);
      taken := [];
      outbufLen := -1;
      exited := false;
      while outbufLen == -1
        invariant ConsumedFrom(before, p, all, taken)
        invariant outbufLen == -1 ==> if taken == [] then state == p else state != Working && p != Working
        invariant Valid() && InputOk() && outbufWritten == 0 && (outbufLen == -1 ==> outbuf == 0)
        invariant (q, rest) == if outbufLen == -1 then PullMachine.Receiving(Blocked(given, k), input)
                               else (FinishRead(Proc(Abs(), Idle, given, false), k), input)
        decreases |input|, outbufLen == -1
      {
        if input == [] {
          exited := true;
          return;
        }
        taken := TakeAnother(before, p, all, taken);
      }
    }

    /** The process blocked in a read of size k, as a value. */
    ghost function Blocked(given: string, k: nat): Proc
      requires Valid()
      reads this, stack, fillerClause
    {
      Proc(Abs().(out := NeedMessage), Reading(k), given, false)
    }

    method RepeatState()
      requires Valid() && InputOk() && outbuf == 0 && outbufWritten == 0 && outbufLen != -2
      requires repeatState && state == ReadingMatrix && lastMsg == Solve
      modifies this, stack, fillerClause
      ensures Valid() && InputOk() && outbufLen != -1 && input == old(input) && Unreported()
      ensures state != WaitingForHeader
      ensures Abs() == old(StateCall(Fresh(Abs()), lastMsg))
    {
      CallBoots(Fresh(Abs()), lastMsg);
      hide StateCall, Told, ForksIn, Childed, Tallied;
      hide Transducer.OnHeader, Transducer.OnPrefix, Transducer.OnBlock, Transducer.OnClause;
      outbufLen := 0;
      assert Abs() == old(Fresh(Abs()));
      CallState(lastMsg);
    }

    /** advance_state */
    method AdvanceState(ghost given: string, ghost k: nat) returns (exited: bool, ghost taken: seq<Msg>)
      requires Valid() && InputOk() && outbuf == 0 && outbufWritten == 0
      requires repeatState ==> state == ReadingMatrix && lastMsg == Solve
      requires outbufLen == -2 || repeatState || PullMachine.Receiving(Blocked(given, k), input).0.rt.out != Hung
      modifies this, stack, fillerClause
      ensures Valid() && InputOk() && (exited || outbufLen != -1) && Consumed(taken)
      ensures old(outbufLen == -2 || repeatState) ==> taken == []
      ensures old(outbufLen == -2) ==> !exited && Abs() == old(Abs()) && input == old(input)
      ensures old(outbufLen != -2 && repeatState) ==>
                !exited && Abs() == old(StateCall(Fresh(Abs()), lastMsg)) && input == old(input)
      ensures old(outbufLen != -2 && !repeatState) ==>
                var (q, rest) := old(PullMachine.Receiving(Blocked(given, k), input));
                if exited then q.call.Reading? && q.given == given
                else (q, rest) == (FinishRead(Proc(Abs(), Idle, given, false), k), input)
    {
      hide StateCall, PullMachine.Receiving, Spin, Told, ForksIn, Childed, Tallied;
      TalliedNothing(Tally(), state == WaitingForHeader, world);
      NilLeft(input);
      taken := [];
      if outbufLen == -2 {
        return false, [];
      }
      if repeatState {
        RepeatState();
        return false, [];
      }
      exited, taken := ReceiveMessages(given, k);
    }

    /** The second half of quapi_read: nothing was pending, so the state advances. */
    method Refill(buf: array<char>, buflen: nat, ghost given: string)
      returns (bytes: nat, exited: bool, ghost taken: seq<Msg>)
      requires Valid() && InputOk() && buf != stack && buf != fillerClause && buflen <= buf.Length
      requires outbufLen != -1 && RtOk(Abs()) && Chunk(Abs(), buflen) == ""
      requires PullMachine.Refill(Abs(), given, input, buflen).0.rt.out != Hung
      modifies this, stack, fillerClause, buf
      ensures Valid() && InputOk() && Consumed(taken) && (old(outbufLen == -2) ==> taken == [])
      ensures var (q, rest) := old(PullMachine.Refill(Abs(), given, input, buflen));
              if exited then q.call.Reading? && q.given == given
              else bytes <= buflen && outbufLen != -1 && rest == input &&
                   q == Proc(Abs(), Idle, given + buf[..bytes], bytes == 0)
    {
      hide StateCall, PullMachine.Receiving, Told, ForksIn, Childed, Tallied;
      outbuf, outbufWritten := 0, 0;
      exited, taken := AdvanceState(given, buflen);
      bytes := 0;
      if !exited {
        bytes := UpdateBuf(buf, buflen);
      }
    }

    /** One read of a solver that was given `given` so far: the bytes it returns
        extend that text, unless the peer is gone; and the messages it takes make the
        process tell the library what they call for, in their order. */
    method QuapiRead(buf: array<char>, buflen: nat, ghost given: string)
      returns (bytes: nat, exited: bool, ghost taken: seq<Msg>)
      requires Valid() && InputOk() && buf != stack && buf != fillerClause && buflen <= buf.Length
      requires outbufLen != -1 && RtOk(Abs())
      requires Pull(Proc(Abs(), Idle, given, false), input, buflen).0.rt.out != Hung
      modifies this, stack, fillerClause, buf
      ensures Valid() && InputOk() && Consumed(taken) && (old(outbufLen == -2) ==> taken == [])
      ensures var (q, rest) := old(Pull(Proc(Abs(), Idle, given, false), input, buflen));
              if exited then q.call.Reading? && q.given == given
              else bytes <= buflen && outbufLen != -1 && rest == input &&
                   q == Proc(Abs(), Idle, given + buf[..bytes], bytes == 0) &&
                   (bytes > 0 || buflen == 0 || buf[0] == EOF_CHAR)
    {
      hide PullMachine.Refill, Pull, RtOk, Chunk, DropChunk, StateCall, EOF_CHAR, Fresh, Told, ForksIn, Childed, Tallied;
      PullCases(Abs(), given, input, buflen);
      TalliedNothing(Tally(), state == WaitingForHeader, world);
      NilLeft(input);
      exited, taken := false, [];
      bytes := UpdateBuf(buf, buflen);
      if bytes == 0 {
        EmptyChunk(old(Abs()), buflen);
        NoBytes(buf);
        bytes, exited, taken := Refill(buf, buflen, given);
      }
      if bytes == 0 && buflen > 0 {
        NoBytes(buf);
        buf[0] := EOF_CHAR;
        NoBytes(buf);
      }
    }
  }

  /** (char)EOF */
  const EOF_CHAR: char := 255 as char

  lemma SpinningStays(q: Proc, c: seq<Msg>, rest: seq<Msg>)
    requires Synced(q, c) && After(BOOT, c + rest).out != Hung
    ensures q.rt.out != Hung && RtOk(q.rt)
  {
    EmitConcat(BOOT, c, rest);
    hide Emit, After, RtOk, Owed;
    if After(BOOT, c).out == Hung {
      DeafEmitsNothing(After(BOOT, c), rest);
    }
  }

  /** A read of a process whose messages are all handled never spins. */
  lemma PullDoesNotSpin(p: Proc, c: seq<Msg>, ms: seq<Msg>, k: nat) returns (taken: seq<Msg>)
    requires Synced(p, c) && p.call == Idle && !p.ended && k > 0
    requires After(BOOT, c + ms).out != Hung
    ensures var (q, rest) := Pull(p, ms, k);
            && ms == taken + rest && Synced(q, c + taken) && Fed(p, q) && q.rt.out != Hung && RtOk(p.rt)
            && Faithful(q, c + ms)
  {
    hide Synced, Pull, After, RtOk, Faithful, Fed;
    taken := PullSynced(p, c, ms, k);
    var q := Pull(p, ms, k);
    assert c + ms == c + taken + q.1;
    SpinningStays(p, c, ms);
    SpinningStays(q.0, c + taken, q.1);
    SyncedFaithful(q.0, c + taken, q.1);
  }

  /** The runtime stands after the messages c of all, the solver was given text, and the
      library was told what these messages call for. */
  ghost predicate InStep(r: Runtime, text: string, c: seq<Msg>, all: seq<Msg>, before: Account)
    reads r, r.stack, r.fillerClause
  {
    && r.Valid() && r.InputOk() && r.outbufLen != -1
    && Synced(Proc(r.Abs(), Idle, text, false), c)
    && Accounted(r, c, all, before)
  }

  ghost predicate Accounted(r: Runtime, c: seq<Msg>, all: seq<Msg>, before: Account)
    reads r
  {
    && c + r.input == all
    && (r.state == WaitingForHeader <==> c == [])
    && Tallied(before, r.Tally(), c, true, r.world)
  }

  lemma WorkingIsClosed(p: Proc, c: seq<Msg>)
    requires Synced(p, c) && !p.ended && p.rt.phase == Working
    ensures p.rt.out == Closed
  {
    hide After, Emit, Owed;
  }

  lemma SameTail(a: seq<Msg>, b: seq<Msg>, rest: seq<Msg>)
    requires a + rest == b + rest
    ensures a == b
  {
    assert |a| == |b|;
    assert a == (a + rest)[..|a|] && b == (b + rest)[..|b|];
  }

  /** One read, into a buffer of the given size. */
  method ReadOnce(r: Runtime, size: nat, given: string, ghost c: seq<Msg>, ghost all: seq<Msg>, ghost before: Account)
    returns (text: string, done: bool, ghost c': seq<Msg>)
    requires InStep(r, given, c, all, before) && size > 0 && After(BOOT, all).out != Hung
    modifies r, r.stack, r.fillerClause
    ensures given <= text <= Emit(BOOT, all) && Accounted(r, c', all, before)
    ensures if done then text == Emit(BOOT, all) else |text| > |given| && InStep(r, text, c', all, before)
  {
    hide Synced, Pull, Emit, After, RtOk, Told, ForksIn, Childed, Tallied;
    var buf := new char[size];
    ghost var p := Proc(r.Abs(), Idle, given, false);
    ghost var taken := PullDoesNotSpin(p, c, r.input, size);
    assert c + taken + Pull(p, r.input, size).1 == all;
    if r.state == Working { WorkingIsClosed(p, c); }
    ghost var mid, rest := r.Tally(), Pull(p, r.input, size).1;
    var bytes, exited;
    ghost var read;
    bytes, exited, read := r.QuapiRead(buf, size, given);
    if !exited { SameTail(read, taken, rest); }
    if old(r.state) != Working { TalliedConcat(before, mid, r.Tally(), c, read, true, r.world); }
    Assoc(c, read, r.input);
    NilRight(c);
    c' := c + read;
    text := if exited then given else given + buf[..bytes];
    done := exited || bytes == 0;
  }

  /** A solver reading a fresh runtime with the buffer sizes `sizes` until a read
      returns 0 or the peer is gone: it is given the text of the runtime's
      messages, and nothing else, however it chooses the sizes.  What the library is told
      and the forks made are those of the messages read. */
  method ReadInput(r: Runtime, sizes: seq<nat>) returns (text: string, done: bool, ghost taken: seq<Msg>)
    requires r.Valid() && r.InputOk() && r.Abs() == BOOT
    requires forall i :: 0 <= i < |sizes| ==> sizes[i] > 0
    requires After(BOOT, r.input).out != Hung
    modifies r, r.stack, r.fillerClause
    ensures text <= Emit(BOOT, old(r.input))
    ensures done ==> text == Emit(BOOT, old(r.input))
    ensures |sizes| > |Emit(BOOT, old(r.input))| ==> done
    ensures old(r.input) == taken + r.input
    ensures r.sent == old(r.sent) + Told(taken, true, old(r.forks), r.world)
    ensures r.forks == old(r.forks) + ForksIn(taken, true)
    ensures r.isChild <==> old(r.isChild) || Childed(taken, true, old(r.forks), r.world)
  {
    ghost var all, before := r.input, Account(r.sent, r.forks, r.isChild);
    taken := [];
    text, done := "", false;
    NewbornSynced();
    TalliedNothing(r.Tally(), true, r.world);
    NilLeft(all);
    hide Synced, Emit, After, Told, ForksIn, Childed;
    for i := 0 to |sizes|
      invariant text <= Emit(BOOT, all)
      invariant InStep(r, text, taken, all, before) && |text| >= i
    {
      text, done, taken := ReadOnce(r, sizes[i], text, taken, all, before);
      if done {
        return;
      }
    }
  }

  lemma ZeroText()
    ensures Text(0) == "0"
  {
  }

  /** Everything snprintf is asked to print fits the 64-byte buffers. */
  lemma LengthsFit(lit: int, h: HeaderData)
    requires IsLit(lit) && IsLit(h.literals) && IsLit(h.clauses)
    ensures |Text(lit)| <= 11 && |Text(Numerals.Abs(lit))| <= 10
    ensures 0 < |TautologyText(lit)| <= 28 && |HeaderLine(h)| <= 30
  {
    hide Text;
    TextLength(lit);
    TextLength(Numerals.Abs(lit));
    TextLength(h.literals);
    TextLength(h.clauses);
  }
}
