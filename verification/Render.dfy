/** The formula text a session stands for: QDIMACS 1.1, section "Input Format",
    written without reference to the runtime's states, and the proof that the
    runtime's messages print exactly that text. */
module Render {
  import opened Numerals
  import opened Messages
  import opened Transducer
  import opened PullMachine
  import opened Seqs

  // ----- reference text -----

  /** A clause or quantifier line: numbers separated by blanks, closed by 0. */
  function Line(ls: seq<int>): string {
    if ls == [] then "0\n" else Text(ls[0]) + " " + Line(ls[1..])
  }

  function Lines(cs: seq<seq<int>>): string {
    if cs == [] then "" else Line(cs[0]) + Lines(cs[1..])
  }

  /** A quantifier block: its kind and its variables, outermost first. */
  datatype Block = Block(existential: bool, vars: seq<int>)

  /** Length of the leading run of quantifiers of one kind. */
  function Run(existential: bool, qs: seq<int>): (n: nat)
    ensures n <= |qs|
  {
    if qs == [] || qs[0] == 0 || (qs[0] > 0) != existential then 0 else 1 + Run(existential, qs[1..])
  }

  function AbsAll(qs: seq<int>): seq<int> {
    seq(|qs|, i requires 0 <= i < |qs| => Abs(qs[i]))
  }

  /** Maximal runs of one kind, zeros ending a block and otherwise dropped. */
  function Blocks(qs: seq<int>): seq<Block>
    decreases |qs|
  {
    if qs == [] then []
    else if qs[0] == 0 then Blocks(qs[1..])
    else
      var n := 1 + Run(qs[0] > 0, qs[1..]);
      [Block(qs[0] > 0, AbsAll(qs[..n]))] + Blocks(qs[n..])
  }

  function Letter(existential: bool): string { if existential then "e " else "a " }

  function PrefixText(bs: seq<Block>): string {
    if bs == [] then "" else Letter(bs[0].existential) + Line(bs[0].vars) + PrefixText(bs[1..])
  }

  /** The clause that pads a formula up to its announced size. */
  function FillerClause(literals: int, qs: seq<int>): seq<int> {
    if qs != [] && qs[0] > 0 then [qs[0], -qs[0]] else if literals == 0 then [] else [-1, 1]
  }

  function Copies<T>(x: T, n: nat): seq<T> { seq(n, _ => x) }

  function Padded(h: HeaderData, qs: seq<int>, cs: seq<seq<int>>): seq<seq<int>> {
    cs + Copies(FillerClause(h.literals, qs), if |cs| < h.clauses then h.clauses - |cs| else 0)
  }

  /** The text of a formula: header line, quantifier blocks, clauses, fillers. */
  function Formula(h: HeaderData, qs: seq<int>, cs: seq<seq<int>>): string {
    HeaderLine(h) + PrefixText(Blocks(qs)) + Lines(Padded(h, qs, cs))
  }

  // ----- the messages of a session -----

  function QuantifierMsgs(qs: seq<int>): seq<Msg> {
    if qs == [] then [] else [Quantifier(qs[0])] + QuantifierMsgs(qs[1..])
  }

  function LiteralMsgs(ls: seq<int>): seq<Msg> {
    if ls == [] then [] else [Literal(ls[0])] + LiteralMsgs(ls[1..])
  }

  function ClauseMsgs(cs: seq<seq<int>>): seq<Msg> {
    if cs == [] then [] else LiteralMsgs(cs[0] + [0]) + ClauseMsgs(cs[1..])
  }

  /** Zeros only close an open block. */
  predicate PrefixOk(open: bool, qs: seq<int>)
    decreases |qs|
  {
    qs == [] || (if qs[0] == 0 then open && PrefixOk(false, qs[1..]) else PrefixOk(true, qs[1..]))
  }

  predicate ClauseOk(c: seq<int>) { c != [] && forall i :: 0 <= i < |c| ==> c[i] != 0 }

  predicate ClausesOk(cs: seq<seq<int>>) { forall i :: 0 <= i < |cs| ==> ClauseOk(cs[i]) }

  predicate BlockOpen(qs: seq<int>) { qs != [] && qs[|qs| - 1] != 0 }

  // ----- settled runtimes -----

  /** A runtime that waits for its next message. */
  function Waiting(p: Phase, h: HeaderData, f: string, w: int, q: nat): Rt {
    Rt(p, h, f, w, false, q, Destructed, Bytes(""))
  }

  lemma StepHeader(v: int, h: HeaderData)
    ensures Process(BOOT, Header(v, h)) ==
            (HeaderLine(h), Waiting(ReadingPrefix, h, if h.literals == 0 then "0\n" else DEFAULT_FILLER, 0, 0))
  {
    SpinStep(Receive(BOOT, Header(v, h)), Header(v, h), 3);
  }

  lemma StepClause(h: HeaderData, f: string, w: int, q: nat, l: int)
    ensures Process(Waiting(ReadingClause, h, f, w, q), Literal(l)) ==
            if l == 0 then (" 0\n", Waiting(ReadingMatrix, h, f, w + 1, q))
            else (" " + Text(l), Waiting(ReadingClause, h, f, w, q))
  {
    var r := Waiting(ReadingClause, h, f, w, q);
    SpinStep(Receive(r, Literal(l)), Literal(l), 3);
  }

  /** A first literal starts its clause from the matrix, a closed or an open prefix. */
  lemma StepFirst(p: Phase, h: HeaderData, f: string, w: int, q: nat, l: int)
    requires p != WaitingForHeader && p != ReadingClause && p != Working && l != 0
    ensures Process(Waiting(p, h, f, w, q), Literal(l)) ==
            (if p == ReadingExists || p == ReadingForall then " 0\n" + Text(l) else Text(l),
             Waiting(ReadingClause, h, f, w, q))
  {
    var r := Receive(Waiting(p, h, f, w, q), Literal(l));
    SpinStep(r, Literal(l), 3);
    SpinStep(StateCall(r, Literal(l)), Literal(l), 2);
  }

  predicate Open(p: Phase) { p == ReadingExists || p == ReadingForall }

  predicate BetweenClauses(p: Phase) { p == ReadingPrefix || p == ReadingMatrix }

  function BlockPhase(existential: bool): Phase { if existential then ReadingExists else ReadingForall }

  lemma StepFirstQuantifier(h: HeaderData, f: string, w: int, q: nat, lit: int)
    requires lit != 0
    ensures Process(Waiting(ReadingPrefix, h, f, w, q), Quantifier(lit)) ==
            (Letter(lit > 0) + Text(Abs(lit)),
             Waiting(BlockPhase(lit > 0), h, if lit > 0 && q == 0 then TautologyText(lit) else f, w, q + 1))
  {
    var r := Receive(Waiting(ReadingPrefix, h, f, w, q), Quantifier(lit));
    SpinStep(r, Quantifier(lit), 3);
  }

  lemma StepQuantifier(ex: bool, h: HeaderData, f: string, w: int, q: nat, lit: int)
    ensures Process(Waiting(BlockPhase(ex), h, f, w, q), Quantifier(lit)) ==
            if lit == 0 then (" 0\n", Waiting(ReadingPrefix, h, f, w, q))
            else (if (lit > 0) == ex then " " + Text(Abs(lit)) else " 0\n" + Letter(lit > 0) + Text(Abs(lit)),
                  Waiting(BlockPhase(lit > 0), h, f, w, q + 1))
  {
    var r := Receive(Waiting(BlockPhase(ex), h, f, w, q), Quantifier(lit));
    SpinStep(r, Quantifier(lit), 3);
  }

  lemma StepFork(p: Phase, h: HeaderData, f: string, w: int, q: nat, wait: bool)
    requires BetweenClauses(p)
    ensures Process(Waiting(p, h, f, w, q), Fork(wait)) == ("", Waiting(p, h, f, w, q))
  {
    SpinStep(Receive(Waiting(p, h, f, w, q), Fork(wait)), Fork(wait), 3);
  }

  lemma StepSolve(p: Phase, h: HeaderData, f: string, w: int, q: nat)
    requires BetweenClauses(p) && f != ""
    ensures Process(Waiting(p, h, f, w, q), Solve).0 == Times(f, if w < h.clauses then h.clauses - w else 0)
    ensures Process(Waiting(p, h, f, w, q), Solve).1.phase == Working
    ensures Process(Waiting(p, h, f, w, q), Solve).1.written == if w < h.clauses then h.clauses else w
  {
    var r := Receive(Waiting(p, h, f, w, q), Solve);
    SpinStep(r, Solve, 3);
    SpinStep(StateCall(r, Solve), Solve, 2);
    SpinStep(StateCall(StateCall(r, Solve), Solve), Solve, 1);
  }

  // ----- clauses -----

  lemma LiteralMsgsCons(l: int, ls: seq<int>)
    ensures LiteralMsgs([l] + ls) == [Literal(l)] + LiteralMsgs(ls)
  {
    Cons(l, ls);
  }

  lemma NoMsgs()
    ensures LiteralMsgs([]) == [] && ClauseMsgs([]) == [] && QuantifierMsgs([]) == [] && Lines([]) == ""
            && Line([]) == "0\n"
  {
  }

  lemma LineCons(l: int, ls: seq<int>)
    ensures Line([l] + ls) == Text(l) + " " + Line(ls)
  {
    hide Text;
    Cons(l, ls);
  }

  lemma ClauseMsgsCons(c: seq<int>, cs: seq<seq<int>>)
    ensures ClauseMsgs([c] + cs) == LiteralMsgs(c + [0]) + ClauseMsgs(cs) && Lines([c] + cs) == Line(c) + Lines(cs)
  {
    hide LiteralMsgs, Line;
    Cons(c, cs);
  }

  lemma QuantifierMsgsCons(q: int, qs: seq<int>)
    ensures QuantifierMsgs([q] + qs) == [Quantifier(q)] + QuantifierMsgs(qs)
  {
    Cons(q, qs);
  }

  lemma {:induction false} EmitClauseTail(h: HeaderData, f: string, w: int, q: nat, ls: seq<int>)
    requires forall i :: 0 <= i < |ls| ==> ls[i] != 0
    ensures Emit(Waiting(ReadingClause, h, f, w, q), LiteralMsgs(ls + [0])) == " " + Line(ls)
    ensures After(Waiting(ReadingClause, h, f, w, q), LiteralMsgs(ls + [0])) == Waiting(ReadingMatrix, h, f, w + 1, q)
    decreases |ls|
  {
    hide Process, Emit, After, LiteralMsgs, Line, Text;
    var r := Waiting(ReadingClause, h, f, w, q);
    NoMsgs();
    if ls == [] {
      StepClause(h, f, w, q, 0);
      NilLeft([0]);
      NilRight([0]);
      NilRight([Literal(0)]);
      LiteralMsgsCons(0, []);
      EmitCons(r, Literal(0), []);
      EmitNil(Waiting(ReadingMatrix, h, f, w + 1, q));
      assert " 0\n" + "" == " " + "0\n";
    } else {
      var t := ls[1..];
      StepClause(h, f, w, q, ls[0]);
      HeadTail(ls);
      Assoc([ls[0]], t, [0]);
      LiteralMsgsCons(ls[0], t + [0]);
      EmitCons(r, Literal(ls[0]), LiteralMsgs(t + [0]));
      EmitClauseTail(h, f, w, q, t);
      LineCons(ls[0], t);
      Assoc(" ", Text(ls[0]), " " + Line(t));
      Assoc(Text(ls[0]), " ", Line(t));
    }
  }

  function Closing(p: Phase): string { if Open(p) then " 0\n" else "" }

  lemma EmitClause(p: Phase, h: HeaderData, f: string, w: int, q: nat, c: seq<int>)
    requires (Open(p) || BetweenClauses(p)) && ClauseOk(c)
    ensures Emit(Waiting(p, h, f, w, q), LiteralMsgs(c + [0])) == Closing(p) + Line(c)
    ensures After(Waiting(p, h, f, w, q), LiteralMsgs(c + [0])) == Waiting(ReadingMatrix, h, f, w + 1, q)
  {
    hide Process, Text, Emit, After, LiteralMsgs, Line;
    var t := c[1..];
    HeadTail(c);
    Assoc([c[0]], t, [0]);
    LiteralMsgsCons(c[0], t + [0]);
    StepFirst(p, h, f, w, q, c[0]);
    EmitCons(Waiting(p, h, f, w, q), Literal(c[0]), LiteralMsgs(t + [0]));
    EmitClauseTail(h, f, w, q, t);
    LineCons(c[0], t);
    Assoc(Text(c[0]), " ", Line(t));
    Assoc(" 0\n", Text(c[0]), " " + Line(t));
    NilLeft(Line(c));
  }

  lemma {:induction false} EmitClauses(p: Phase, h: HeaderData, f: string, w: int, q: nat, cs: seq<seq<int>>)
    requires (Open(p) || BetweenClauses(p)) && ClausesOk(cs)
    ensures Emit(Waiting(p, h, f, w, q), ClauseMsgs(cs)) == if cs == [] then "" else Closing(p) + Lines(cs)
    ensures After(Waiting(p, h, f, w, q), ClauseMsgs(cs)) ==
            Waiting(if cs == [] then p else ReadingMatrix, h, f, w + |cs|, q)
    decreases |cs|
  {
    hide Process, LiteralMsgs, ClauseMsgs, Emit, After, Lines, Line;
    NoMsgs();
    if cs == [] {
      EmitNil(Waiting(p, h, f, w, q));
    } else {
      var m, t := LiteralMsgs(cs[0] + [0]), cs[1..];
      HeadTail(cs);
      ClauseMsgsCons(cs[0], t);
      EmitClause(p, h, f, w, q, cs[0]);
      EmitConcat(Waiting(p, h, f, w, q), m, ClauseMsgs(t));
      EmitClauses(ReadingMatrix, h, f, w + 1, q, t);
      Assoc(Closing(p), Line(cs[0]), Lines(t));
      NilLeft(Lines(t));
    }
  }

  // ----- prefix -----

  /** Text of the quantifiers that follow an open block's first variable. */
  function OpenText(ex: bool, qs: seq<int>): string {
    " " + Line(AbsAll(qs[..Run(ex, qs)])) + PrefixText(Blocks(qs[Run(ex, qs)..]))
  }

  lemma LineOfRun(qs: seq<int>, n: nat)
    requires 0 < n <= |qs|
    ensures Line(AbsAll(qs[..n])) == Text(Abs(qs[0])) + " " + Line(AbsAll(qs[1..][..n - 1]))
  {
    assert AbsAll(qs[..n])[1..] == AbsAll(qs[1..][..n - 1]);
  }

  lemma FreshBlock(qs: seq<int>)
    requires qs != [] && qs[0] != 0
    ensures PrefixText(Blocks(qs)) == Letter(qs[0] > 0) + Text(Abs(qs[0])) + OpenText(qs[0] > 0, qs[1..])
  {
    hide Text, AbsAll, Run, Letter;
    var n := 1 + Run(qs[0] > 0, qs[1..]);
    var b := Block(qs[0] > 0, AbsAll(qs[..n]));
    assert Blocks(qs) == [b] + Blocks(qs[n..]);
    hide Blocks;
    assert ([b] + Blocks(qs[n..]))[1..] == Blocks(qs[n..]);
    assert qs[1..][n - 1..] == qs[n..];
    LineOfRun(qs, n);
    hide Line, PrefixText;
    Reassociate(Letter(qs[0] > 0), Text(Abs(qs[0])), " ", Line(AbsAll(qs[1..][..n - 1])), PrefixText(Blocks(qs[n..])));
  }

  lemma Reassociate(a: string, b: string, c: string, d: string, e: string)
    ensures a + (b + c + d) + e == a + b + (c + d + e)
  {
  }

  lemma FromStart(qs: seq<int>)
    ensures qs[..0] == [] && qs[0..] == qs
  {
  }

  lemma BlocksOf(qs: seq<int>)
    ensures qs == [] ==> PrefixText(Blocks(qs)) == ""
    ensures qs != [] && qs[0] == 0 ==> Blocks(qs) == Blocks(qs[1..])
  {
  }

  lemma OpenTextCases(ex: bool, qs: seq<int>)
    ensures qs == [] ==> OpenText(ex, qs) == " 0\n"
    ensures qs != [] && qs[0] == 0 ==> OpenText(ex, qs) == " 0\n" + PrefixText(Blocks(qs[1..]))
    ensures qs != [] && qs[0] != 0 && (qs[0] > 0) != ex ==> OpenText(ex, qs) == " 0\n" + PrefixText(Blocks(qs))
  {
    hide Text, Blocks, PrefixText, Letter;
    NoMsgs();
    if qs == [] || qs[0] == 0 || (qs[0] > 0) != ex {
      assert Run(ex, qs) == 0;
      FromStart(qs);
      assert AbsAll([]) == [];
      assert " " + "0\n" == " 0\n";
      hide Line, Run, AbsAll;
      BlocksOf(qs);
      NilRight(" 0\n");
    }
  }

  lemma SameRun(a: string, b: string, c: string)
    ensures " " + (a + " " + b) + c == " " + a + (" " + b + c)
  {
  }

  lemma OpenTextSame(ex: bool, qs: seq<int>)
    requires qs != [] && qs[0] != 0 && (qs[0] > 0) == ex
    ensures OpenText(ex, qs) == " " + Text(Abs(qs[0])) + OpenText(ex, qs[1..])
  {
    hide Text, Blocks, PrefixText, Line, AbsAll;
    var n := Run(ex, qs);
    LineOfRun(qs, n);
    assert qs[1..][n - 1..] == qs[n..] && n - 1 == Run(ex, qs[1..]);
    hide Run;
    SameRun(Text(Abs(qs[0])), Line(AbsAll(qs[1..][..n - 1])), PrefixText(Blocks(qs[n..])));
  }

  function EndPhase(p: Phase, qs: seq<int>): Phase {
    if qs == [] then p else if qs[|qs| - 1] == 0 then ReadingPrefix else BlockPhase(qs[|qs| - 1] > 0)
  }

  function Variables(qs: seq<int>): nat {
    if qs == [] then 0 else (if qs[0] == 0 then 0 else 1) + Variables(qs[1..])
  }

  /** The text of quantifiers read from phase p, the closing of a block left open included. */
  function QuantifierText(p: Phase, qs: seq<int>): string {
    if p == ReadingPrefix then PrefixText(Blocks(qs)) else OpenText(p == ReadingExists, qs)
  }

  lemma EndPhaseStep(p: Phase, qs: seq<int>)
    requires qs != []
    ensures EndPhase(p, qs) == EndPhase(EndPhase(p, qs[..1]), qs[1..])
  {
  }

  lemma {:induction false} EmitQuantifiers(p: Phase, h: HeaderData, f: string, w: int, q: nat, qs: seq<int>)
    requires (p == ReadingPrefix || Open(p)) && PrefixOk(Open(p), qs) && q > 0
    ensures Emit(Waiting(p, h, f, w, q), QuantifierMsgs(qs)) + Closing(EndPhase(p, qs)) == QuantifierText(p, qs)
    ensures After(Waiting(p, h, f, w, q), QuantifierMsgs(qs)) == Waiting(EndPhase(p, qs), h, f, w, q + Variables(qs))
    decreases |qs|
  {
    hide Process, OpenText, PrefixText, Blocks, Text, Line, Emit, After, QuantifierMsgs, Letter, Abs;
    if qs == [] {
      NoMsgs();
      EmitNil(Waiting(p, h, f, w, q));
      OpenTextCases(p == ReadingExists, qs);
      BlocksNil();
      NilLeft(Closing(p));
    } else {
      var t := qs[1..];
      var (x, r) := Process(Waiting(p, h, f, w, q), Quantifier(qs[0]));
      HeadTail(qs);
      QuantifierMsgsCons(qs[0], t);
      EmitCons(Waiting(p, h, f, w, q), Quantifier(qs[0]), QuantifierMsgs(t));
      EndPhaseStep(p, qs);
      Assoc(x, Emit(r, QuantifierMsgs(t)), Closing(EndPhase(p, qs)));
      if p == ReadingPrefix {
        StepFirstQuantifier(h, f, w, q, qs[0]);
        FreshBlock(qs);
        EmitQuantifiers(BlockPhase(qs[0] > 0), h, f, w, q + 1, t);
      } else {
        var ex := p == ReadingExists;
        StepQuantifier(ex, h, f, w, q, qs[0]);
        OpenTextCases(ex, qs);
        if qs[0] == 0 {
          EmitQuantifiers(ReadingPrefix, h, f, w, q, t);
        } else {
          EmitQuantifiers(BlockPhase(qs[0] > 0), h, f, w, q + 1, t);
          if (qs[0] > 0) == ex {
            OpenTextSame(ex, qs);
          } else {
            FreshBlock(qs);
            Assoc(" 0\n" + Letter(!ex), Text(Abs(qs[0])), OpenText(!ex, t));
            Assoc(" 0\n", Letter(!ex), Text(Abs(qs[0])) + OpenText(!ex, t));
            Assoc(Letter(!ex), Text(Abs(qs[0])), OpenText(!ex, t));
          }
        }
      }
    }
  }

  lemma BlocksNil()
    ensures PrefixText(Blocks([])) == ""
  {
  }

  // ----- whole sessions -----

  function FillerText(h: HeaderData, qs: seq<int>): string { Line(FillerClause(h.literals, qs)) }

  lemma One()
    ensures Text(1) == "1" && Text(-1) == "-1"
  {
    assert Dec(1) == "1";
  }

  lemma TautologyIs(d: string)
    ensures d + " " + ("-" + d + " " + "0\n") == d + " -" + d + " 0\n"
  {
  }

  lemma FillerTexts(h: HeaderData, v: int)
    requires v > 0
    ensures FillerText(h, []) == if h.literals == 0 then "0\n" else DEFAULT_FILLER
    ensures Line([v, -v]) == TautologyText(v)
  {
    hide Dec;
    NoMsgs();
    One();
    NilRight([-v]);
    NilRight([1]);
    LineCons(-v, []);
    LineCons(v, [-v]);
    assert [v] + [-v] == [v, -v];
    LineCons(1, []);
    LineCons(-1, [1]);
    assert [-1] + [1] == [-1, 1];
    hide Line;
    TautologyIs(Dec(v));
  }

  lemma FillerUpdate(h: HeaderData, qs: seq<int>)
    requires qs != [] && qs[0] != 0
    ensures FillerText(h, qs) == if qs[0] > 0 then TautologyText(qs[0]) else FillerText(h, [])
  {
    if qs[0] > 0 {
      FillerTexts(h, qs[0]);
    }
  }

  function BaseMsgs(v: int, h: HeaderData, qs: seq<int>, cs: seq<seq<int>>): seq<Msg> {
    [Header(v, h)] + QuantifierMsgs(qs) + ClauseMsgs(cs)
  }

  function BasePhase(qs: seq<int>, cs: seq<seq<int>>): Phase {
    if cs == [] then EndPhase(ReadingPrefix, qs) else ReadingMatrix
  }

  /** The runtime after header, quantifiers qs and clauses cs. */
  function Base(h: HeaderData, qs: seq<int>, cs: seq<seq<int>>): Rt {
    Waiting(BasePhase(qs, cs), h, FillerText(h, qs), |cs|, Variables(qs))
  }

  lemma EmitPrefix(h: HeaderData, qs: seq<int>)
    requires PrefixOk(false, qs)
    ensures var r := Waiting(ReadingPrefix, h, FillerText(h, []), 0, 0);
            && Emit(r, QuantifierMsgs(qs)) + Closing(EndPhase(ReadingPrefix, qs)) == PrefixText(Blocks(qs))
            && After(r, QuantifierMsgs(qs)) ==
               Waiting(EndPhase(ReadingPrefix, qs), h, FillerText(h, qs), 0, Variables(qs))
  {
    hide Process, OpenText, PrefixText, Blocks, Text, FillerText, TautologyText, HeaderLine, Emit, After,
         QuantifierMsgs;
    hide Letter, Abs;
    var r := Waiting(ReadingPrefix, h, FillerText(h, []), 0, 0);
    if qs == [] {
      NoMsgs();
      EmitNil(r);
      BlocksNil();
      NilLeft("");
    } else {
      var b, t := BlockPhase(qs[0] > 0), qs[1..];
      HeadTail(qs);
      QuantifierMsgsCons(qs[0], t);
      EmitCons(r, Quantifier(qs[0]), QuantifierMsgs(t));
      FillerUpdate(h, qs);
      StepFirstQuantifier(h, FillerText(h, []), 0, 0, qs[0]);
      EmitQuantifiers(b, h, FillerText(h, qs), 0, 1, t);
      EndPhaseStep(ReadingPrefix, qs);
      FreshBlock(qs);
      Assoc(Letter(qs[0] > 0) + Text(Abs(qs[0])), Emit(Waiting(b, h, FillerText(h, qs), 0, 1), QuantifierMsgs(t)),
            Closing(EndPhase(ReadingPrefix, qs)));
    }
  }

  lemma NoClosing()
    ensures Closing(ReadingMatrix) == ""
  {
  }

  lemma GlueEmpty(a: string, b: string, c: string)
    ensures a + (b + "") + c == a + (b + c) + ""
  {
  }

  lemma Glue(a: string, b: string, c: string, d: string)
    ensures a + (b + (c + d)) + "" == a + (b + c) + d
  {
  }

  lemma EmitBase(v: int, h: HeaderData, qs: seq<int>, cs: seq<seq<int>>)
    requires PrefixOk(false, qs) && ClausesOk(cs)
    ensures Emit(BOOT, BaseMsgs(v, h, qs, cs)) + Closing(BasePhase(qs, cs)) ==
            HeaderLine(h) + PrefixText(Blocks(qs)) + Lines(cs)
    ensures After(BOOT, BaseMsgs(v, h, qs, cs)) == Base(h, qs, cs)
  {
    hide Process, PrefixText, Blocks, Text, Line, HeaderLine, Emit, After, Lines, QuantifierMsgs, ClauseMsgs,
         FillerText;
    hide DEFAULT_FILLER;
    var r := Waiting(ReadingPrefix, h, FillerText(h, []), 0, 0);
    var q, c := QuantifierMsgs(qs), ClauseMsgs(cs);
    var cl := Closing(EndPhase(ReadingPrefix, qs));
    StepHeader(v, h);
    FillerTexts(h, 1);
    Assoc([Header(v, h)], q, c);
    EmitCons(BOOT, Header(v, h), q + c);
    EmitConcat(r, q, c);
    EmitPrefix(h, qs);
    EmitClauses(BasePhase(qs, []), h, FillerText(h, qs), 0, Variables(qs), cs);
    NoMsgs();
    hide Closing, Waiting;
    if cs == [] {
      GlueEmpty(HeaderLine(h), Emit(r, q), cl);
    } else {
      NoClosing();
      Glue(HeaderLine(h), Emit(r, q), cl, Lines(cs));
    }
  }

  lemma {:induction false} LinesConcat(a: seq<seq<int>>, b: seq<seq<int>>)
    ensures Lines(a + b) == Lines(a) + Lines(b)
  {
    hide Line, Lines;
    NoMsgs();
    if a == [] {
      NilLeft(b);
      NilLeft(Lines(b));
    } else {
      HeadTail(a);
      Assoc([a[0]], a[1..], b);
      ClauseMsgsCons(a[0], a[1..]);
      ClauseMsgsCons(a[0], a[1..] + b);
      LinesConcat(a[1..], b);
      Assoc(Line(a[0]), Lines(a[1..]), Lines(b));
    }
  }

  lemma {:induction false} FillersAreLines(f: seq<int>, n: nat)
    ensures Times(Line(f), n) == Lines(Copies(f, n))
  {
    if n == 0 {
    } else {
      assert Copies(f, n)[1..] == Copies(f, n - 1);
      FillersAreLines(f, n - 1);
    }
  }

  predicate SolvableBase(qs: seq<int>, cs: seq<seq<int>>) { cs != [] || !BlockOpen(qs) }

  /** The messages of one solved session print exactly the reference text. */
  lemma SessionText(v: int, h: HeaderData, qs: seq<int>, cs: seq<seq<int>>)
    requires PrefixOk(false, qs) && ClausesOk(cs) && SolvableBase(qs, cs)
    ensures Emit(BOOT, BaseMsgs(v, h, qs, cs) + [Solve]) == Formula(h, qs, cs)
    ensures After(BOOT, BaseMsgs(v, h, qs, cs) + [Solve]).phase == Working
  {
    hide Process, PrefixText, Blocks, Line, HeaderLine;
    EmitBase(v, h, qs, cs);
    EmitSnoc(BOOT, BaseMsgs(v, h, qs, cs), Solve);
    LineNonempty(FillerClause(h.literals, qs));
    StepSolve(BasePhase(qs, cs), h, FillerText(h, qs), |cs|, Variables(qs));
    var n := if |cs| < h.clauses then h.clauses - |cs| else 0;
    FillersAreLines(FillerClause(h.literals, qs), n);
    LinesConcat(cs, Copies(FillerClause(h.literals, qs), n));
    assert Closing(BasePhase(qs, cs)) == "";
    hide Emit, After, Lines, BaseMsgs, Times, Closing;
    var e, l, m := Emit(BOOT, BaseMsgs(v, h, qs, cs)), Lines(cs), Lines(Copies(FillerClause(h.literals, qs), n));
    assert e + "" == e;
    assert HeaderLine(h) + PrefixText(Blocks(qs)) + l + m == HeaderLine(h) + PrefixText(Blocks(qs)) + (l + m);
  }

  lemma LineNonempty(ls: seq<int>)
    ensures Line(ls) != ""
  {
  }
}
