/** The preloaded runtime as a value: what each state function does to the
    runtime record, and what one call of quapi_read does to a process. */
module Transducer {
  import opened Numerals
  import opened Messages

  datatype Phase =
    | WaitingForHeader | ReadingPrefix | ReadingExists | ReadingForall
    | ReadingClause | ReadingMatrix | Working

  /** The output side: text still to be handed out (outbuf_len >= 0), a request
      for another message (-1), closed (-2), or a state function that is called
      for ever on a message it does not handle. */
  datatype Out = Bytes(text: string) | NeedMessage | Closed | Hung

  datatype Rt = Rt(
    phase: Phase, header: HeaderData, filler: string, written: int,
    repeat: bool, quantifiers: nat, last: Msg, out: Out)

  const NO_PIPE := Pipe(0, 0)
  const NO_HEADER := HeaderData(0, 0, 0, NO_PIPE, NO_PIPE, NO_PIPE)
  const DEFAULT_FILLER: string := "-1 1 0\n"

  /** The runtime record before its first message. */
  const BOOT := Rt(WaitingForHeader, NO_HEADER, DEFAULT_FILLER, 0, false, 0, Destructed, Bytes(""))

  // ----- the state functions -----

  function HeaderLine(h: HeaderData): string {
    "p cnf " + Text(h.literals) + " " + Text(h.clauses) + "\n"
  }

  function TautologyText(v: int): string {
    Text(v) + " -" + Text(v) + " 0\n"
  }

  function OnHeader(r: Rt): Rt {
    r.(phase := ReadingPrefix, out := Bytes(HeaderLine(r.header)),
       filler := if r.header.literals == 0 then "0\n" else r.filler)
  }

  function OnPrefix(r: Rt, m: Msg): Rt {
    if m.Quantifier? && m.lit > 0 then
      r.(phase := ReadingExists, out := Bytes("e " + Text(m.lit)), quantifiers := r.quantifiers + 1,
         filler := if r.quantifiers == 0 then TautologyText(m.lit) else r.filler)
    else if m.Quantifier? && m.lit < 0 then
      r.(phase := ReadingForall, out := Bytes("a " + Text(-m.lit)), quantifiers := r.quantifiers + 1)
    else if m.Literal? then r.(phase := ReadingMatrix)
    else if m.Fork? then r.(out := NeedMessage)
    else if m.Solve? then r.(phase := ReadingMatrix, repeat := true)
    else r
  }

  /** READING_EXISTS (ex) and READING_FORALL (!ex). */
  function OnBlock(r: Rt, m: Msg, ex: bool): Rt {
    if m.Quantifier? && m.lit == 0 then r.(phase := ReadingPrefix, out := Bytes(" 0\n"))
    else if m.Quantifier? then
      r.(phase := if m.lit > 0 then ReadingExists else ReadingForall,
         quantifiers := r.quantifiers + 1,
         out := Bytes(if (m.lit > 0) == ex then " " + Text(Abs(m.lit))
                      else " 0\n" + (if m.lit > 0 then "e " else "a ") + Text(Abs(m.lit))))
    else if m.Literal? then r.(phase := ReadingClause, out := Bytes(" 0\n" + Text(m.lit)))
    else r.(phase := ReadingExists)
  }

  function OnClause(r: Rt, m: Msg): Rt {
    if !m.Literal? then r.(phase := ReadingMatrix)
    else if m.lit == 0 then r.(phase := ReadingMatrix, out := Bytes(" 0\n"), written := r.written + 1)
    else r.(out := Bytes(" " + Text(m.lit)))
  }

  function OnMatrix(r: Rt, m: Msg): Rt {
    if m.Literal? then
      r.(phase := if m.lit == 0 then ReadingMatrix else ReadingClause, out := Bytes(Text(m.lit)))
    else if m.Fork? then r.(out := NeedMessage)
    else if !m.Solve? then r
    else if r.written < r.header.clauses then
      r.(out := Bytes(r.filler), written := r.written + 1, repeat := true)
    else
      r.(phase := Working, repeat := false)
  }

  /** One call of the current state function, the output being empty before. */
  function StateCall(r: Rt, m: Msg): Rt {
    match r.phase
    case WaitingForHeader => OnHeader(r)
    case ReadingPrefix => OnPrefix(r, m)
    case ReadingExists => OnBlock(r, m, true)
    case ReadingForall => OnBlock(r, m, false)
    case ReadingClause => OnClause(r, m)
    case ReadingMatrix => OnMatrix(r, m)
    case Working => r.(out := Closed)
  }

  // ----- the inner loop of advance_state -----

  /** The messages a phase makes progress on. */
  predicate Handled(p: Phase, m: Msg) {
    match p
    case WaitingForHeader => true
    case ReadingPrefix => m.Literal? || m.Fork? || m.Solve? || (m.Quantifier? && m.lit != 0)
    case ReadingExists => m.Quantifier? || m.Literal?
    case ReadingForall => m.Quantifier? || m.Literal?
    case ReadingClause => m.Literal? || m.Fork? || m.Solve?
    case ReadingMatrix => m.Literal? || m.Fork? || m.Solve?
    case Working => true
  }

  /** At most n calls of the state function, stopping at the first that produces output. */
  function Spin(r: Rt, m: Msg, n: nat): Rt
    decreases n
  {
    if n == 0 then r
    else
      var s := StateCall(r, m);
      if s.out == Bytes("") then Spin(s, m, n - 1) else s
  }

  function Fresh(r: Rt): Rt { r.(out := Bytes("")) }

  /** The message is recorded, and a header message also fills the header data. */
  function Receive(r: Rt, m: Msg): Rt {
    var q := r.(last := m, out := Bytes(""));
    if m.Header? then q.(header := m.data) else q
  }

  /** The inner loop of advance_state on a message just received. */
  function Settle(r: Rt, m: Msg): Rt {
    if Handled(r.phase, m) then Spin(Receive(r, m), m, 3) else Receive(r, m).(out := Hung)
  }

  lemma SpinEnds(r: Rt, m: Msg, n: nat)
    ensures n == 0 ==> Spin(r, m, n) == r
  {
  }

  lemma SpinStep(r: Rt, m: Msg, n: nat)
    requires n > 0
    ensures Spin(r, m, n) == var s := StateCall(r, m); if s.out == Bytes("") then Spin(s, m, n - 1) else s
  {
  }

  /** Progress: three calls suffice on every message the phase handles. */
  lemma SpinHandled(r: Rt, m: Msg, n: nat)
    requires r.out == Bytes("") && r.filler != "" && Handled(r.phase, m) && n >= 3
    ensures Spin(r, m, n) == Spin(r, m, 3)
    ensures Spin(r, m, n).out != Bytes("")
  {
    var s := StateCall(r, m);
    SpinStep(r, m, n);
    SpinStep(r, m, 3);
    if s.out == Bytes("") {
      var t := StateCall(s, m);
      SpinStep(s, m, n - 1);
      SpinStep(s, m, 2);
      if t.out == Bytes("") {
        assert t.phase == Working;
        SpinStep(t, m, n - 2);
        SpinStep(t, m, 1);
      }
    }
  }

  /** On any other message the loop runs for ever: no number of calls produces output. */
  lemma {:induction false} SpinUnhandled(r: Rt, m: Msg, n: nat)
    requires r.out == Bytes("") && !Handled(r.phase, m)
    ensures Spin(r, m, n).out == Bytes("")
    decreases n
  {
    if n == 0 {
    } else {
      SpinUnhandled(StateCall(r, m), m, n - 1);
    }
  }

  /** No state function goes back to waiting for the header. */
  lemma CallBoots(r: Rt, m: Msg)
    ensures StateCall(r, m).phase != WaitingForHeader
  {
  }

  lemma {:induction false} SpinBoots(r: Rt, m: Msg, n: nat)
    requires r.phase != WaitingForHeader
    ensures Spin(r, m, n).phase != WaitingForHeader
    decreases n
  {
    hide StateCall;
    if n == 0 {
    } else {
      CallBoots(r, m);
      SpinBoots(StateCall(r, m), m, n - 1);
    }
  }
}
