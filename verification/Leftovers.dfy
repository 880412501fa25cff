/** What a child prints when its fork finds messages of earlier rounds in the pipe: it
    reads them first, and it stops at the first solve message, whoever sent it. */
module Leftovers {
  import opened Numerals
  import opened Messages
  import opened Transducer
  import opened PullMachine
  import opened Render
  import opened Sessions
  import opened Seqs
  import opened Qbf

  // ----- what can be left -----

  /** Whole unit clauses and solve messages. */
  predicate Tidy(ms: seq<Msg>) {
    || ms == []
    || (ms[0] == Solve && Tidy(ms[1..]))
    || (|ms| >= 2 && ms[0].Literal? && ms[0].lit != 0 && ms[1] == Literal(0) && Tidy(ms[2..]))
  }

  /** The 0 of a unit clause whose literal an earlier child has read. */
  predicate Stray(ms: seq<Msg>) { ms != [] && ms[0] == Literal(0) }

  predicate LeftOver(ms: seq<Msg>) { if Stray(ms) then Tidy(ms[1..]) else Tidy(ms) }

  lemma {:induction false} TidyConcat(a: seq<Msg>, b: seq<Msg>)
    requires Tidy(a) && Tidy(b)
    ensures Tidy(a + b)
    decreases |a|
  {
    if a == [] {
      NilLeft(b);
    } else if a[0] == Solve {
      TailConcat(a, b);
      TidyConcat(a[1..], b);
    } else {
      assert (a + b)[2..] == a[2..] + b;
      TidyConcat(a[2..], b);
    }
  }

  lemma LeftOverConcat(a: seq<Msg>, b: seq<Msg>)
    requires LeftOver(a) && Tidy(b)
    ensures LeftOver(a + b) && (a != [] ==> (Stray(a + b) <==> Stray(a)))
  {
    hide Tidy;
    if Stray(a) {
      TailConcat(a, b);
      TidyConcat(a[1..], b);
    } else {
      TidyConcat(a, b);
      TidyNotStray(a + b);
    }
  }

  lemma TidyNotStray(ms: seq<Msg>)
    requires Tidy(ms)
    ensures !Stray(ms)
  {
  }

  lemma {:induction false} TidySuffix(ms: seq<Msg>, n: nat)
    requires Tidy(ms) && n <= |ms|
    ensures LeftOver(ms[n..])
    decreases |ms|
  {
    if n == 0 {
      assert ms[0..] == ms;
      TidyNotStray(ms);
    } else if ms[0] == Solve {
      assert ms[1..][n - 1..] == ms[n..];
      TidySuffix(ms[1..], n - 1);
    } else if n == 1 {
      assert ms[1..][1..] == ms[2..];
    } else {
      assert ms[2..][n - 2..] == ms[n..];
      TidySuffix(ms[2..], n - 2);
    }
  }

  /** Whatever a child reads of it, the rest is left over again. */
  lemma LeftOverSuffix(ms: seq<Msg>, n: nat)
    requires LeftOver(ms) && n <= |ms|
    ensures LeftOver(ms[n..])
  {
    hide Tidy;
    if n == 0 {
      assert ms[0..] == ms;
    } else if Stray(ms) {
      assert ms[1..][n - 1..] == ms[n..];
      TidySuffix(ms[1..], n - 1);
    } else {
      TidySuffix(ms, n);
    }
  }

  lemma {:induction false} UnitMsgsTidy(us: seq<int>)
    requires NoZero(us)
    ensures Tidy(ClauseMsgs(Units(us)))
  {
    hide ClauseMsgs, Units;
    if us == [] {
      NoUnits();
      NoMsgs();
    } else {
      UnitMsgsTidy(us[1..]);
      UnitsCons(us);
      UnitMsg(us[0]);
      ClauseMsgsCons([us[0]], Units(us[1..]));
      var rest := ClauseMsgs(Units(us[1..]));
      assert ([Literal(us[0]), Literal(0)] + rest)[2..] == rest;
    }
  }

  lemma NoUnits()
    ensures Units([]) == []
  {
  }

  lemma UnitsCons(us: seq<int>)
    requires us != []
    ensures Units(us) == [[us[0]]] + Units(us[1..])
  {
  }

  lemma UnitMsg(u: int)
    ensures LiteralMsgs([u] + [0]) == [Literal(u), Literal(0)]
  {
    hide LiteralMsgs;
    NoMsgs();
    LiteralMsgsCons(u, [0]);
    LiteralMsgsCons(0, []);
    NilRight([0]);
  }

  lemma RoundTidy(us: seq<int>, solved: bool)
    requires NoZero(us)
    ensures Tidy(RoundMsgs(us, solved))
  {
    UnitMsgsTidy(us);
    TidyConcat(ClauseMsgs(Units(us)), if solved then [Solve] else []);
  }

  // ----- what is read of it -----

  /** Up to the first solve message and with it; all if there is none. */
  function FirstSolve(ms: seq<Msg>): seq<Msg> {
    if ms == [] then [] else if ms[0] == Solve then [Solve] else [ms[0]] + FirstSolve(ms[1..])
  }

  /** The literals of the unit clauses. */
  function UnitsIn(ms: seq<Msg>): seq<int> {
    if ms == [] then []
    else (if ms[0].Literal? && ms[0].lit != 0 then [ms[0].lit] else []) + UnitsIn(ms[1..])
  }

  function ReadUnits(ms: seq<Msg>): seq<int> { UnitsIn(FirstSolve(ms)) }

  /** No solve message but the last. */
  predicate Unsolved(own: seq<Msg>) { forall i :: 0 <= i < |own| - 1 ==> own[i] != Solve }

  /** A process that stops at the first solve message has read a part of that. */
  lemma {:induction false} OwnPrefix(own: seq<Msg>, rest: seq<Msg>)
    requires Unsolved(own)
    ensures own <= FirstSolve(own + rest)
    ensures own != [] && own[|own| - 1] == Solve ==> own == FirstSolve(own + rest)
  {
    if own == [] {
    } else {
      TailConcat(own, rest);
      if own[0] == Solve {
        assert |own| == 1;
      } else {
        assert forall i :: 0 <= i < |own[1..]| - 1 ==> own[1..][i] == own[i + 1];
        OwnPrefix(own[1..], rest);
      }
    }
  }

  lemma {:induction false} FirstSolveConcat(a: seq<Msg>, b: seq<Msg>)
    ensures Solve in a ==> FirstSolve(a + b) == FirstSolve(a)
    ensures Solve !in a ==> FirstSolve(a + b) == a + FirstSolve(b)
  {
    if a == [] {
      NilLeft(b);
      NilLeft(FirstSolve(b));
    } else {
      TailConcat(a, b);
      HeadTail(a);
      FirstSolveConcat(a[1..], b);
      if a[0] != Solve {
        Assoc([a[0]], a[1..], FirstSolve(b));
      }
    }
  }

  lemma {:induction false} TidyRead(ms: seq<Msg>)
    requires Tidy(ms)
    ensures NoZero(ReadUnits(ms))
    ensures FirstSolve(ms) == RoundMsgs(ReadUnits(ms), Solve in ms)
    decreases |ms|
  {
    hide ClauseMsgs, Units;
    NoUnits();
    NoMsgs();
    if ms == [] {
      NilLeft([Solve]);
    } else if ms[0] == Solve {
      assert UnitsIn([Solve]) == UnitsIn([Solve][1..]) == [];
      NilLeft([Solve]);
    } else {
      var u, rest := ms[0].lit, ms[2..];
      assert ms == [ms[0], ms[1]] + rest;
      TidyRead(rest);
      var us := ReadUnits(rest);
      FirstPair(ms);
      UnitsCons([u] + us);
      Cons(u, us);
      UnitMsg(u);
      ClauseMsgsCons([u], Units(us));
      Assoc([Literal(u), Literal(0)], ClauseMsgs(Units(us)), if Solve in rest then [Solve] else []);
    }
  }

  lemma {:induction false} UnitsOfRound(us: seq<int>)
    requires NoZero(us)
    ensures UnitsIn(RoundMsgs(us, true)) == us && FirstSolve(RoundMsgs(us, true)) == RoundMsgs(us, true)
  {
    hide ClauseMsgs, Units;
    NoUnits();
    NoMsgs();
    if us == [] {
      NilLeft([Solve]);
      UnitsInCons(Solve, []);
      NilRight([Solve]);
    } else {
      var t := RoundMsgs(us[1..], true);
      UnitsOfRound(us[1..]);
      UnitsCons(us);
      UnitMsg(us[0]);
      ClauseMsgsCons([us[0]], Units(us[1..]));
      Assoc([Literal(us[0]), Literal(0)], ClauseMsgs(Units(us[1..])), [Solve]);
      var ms := [Literal(us[0]), Literal(0)] + t;
      assert ms[2..] == t;
      FirstPair(ms);
      HeadTail(us);
      FirstSolveAll(us[0], t);
    }
  }

  lemma FirstSolveAll(u: int, t: seq<Msg>)
    requires u != 0 && FirstSolve(t) == t
    ensures var ms := [Literal(u), Literal(0)] + t; FirstSolve(ms) == ms && UnitsIn(ms) == [u] + UnitsIn(t)
  {
    var ms := [Literal(u), Literal(0)] + t;
    assert ms[2..] == t;
    FirstPair(ms);
    hide FirstSolve, UnitsIn;
  }

  lemma RoundRead(us: seq<int>)
    requires NoZero(us)
    ensures !Stray(RoundMsgs(us, true)) && ReadUnits(RoundMsgs(us, true)) == us && Solve in RoundMsgs(us, true)
  {
    UnitsOfRound(us);
    RoundTidy(us, true);
    TidyNotStray(RoundMsgs(us, true));
    hide ClauseMsgs, Units;
    assert RoundMsgs(us, true)[|ClauseMsgs(Units(us))|] == Solve;
  }

  lemma FirstSolveCons(ms: seq<Msg>)
    requires ms != [] && ms[0] != Solve
    ensures FirstSolve(ms) == [ms[0]] + FirstSolve(ms[1..])
  {
  }

  lemma UnitsInCons(m: Msg, ms: seq<Msg>)
    ensures UnitsIn([m] + ms) == (if m.Literal? && m.lit != 0 then [m.lit] else []) + UnitsIn(ms)
  {
    Cons(m, ms);
  }

  lemma PairSplits(ms: seq<Msg>)
    requires |ms| >= 2
    ensures ms[1..][0] == ms[1] && ms[1..][1..] == ms[2..] && [ms[0]] + [ms[1]] == [ms[0], ms[1]]
    ensures ms[0] != Solve && ms[1] != Solve ==> (Solve in ms <==> Solve in ms[2..])
  {
    assert ms == [ms[0], ms[1]] + ms[2..];
  }

  lemma PairFirst(ms: seq<Msg>, f: seq<Msg>)
    requires |ms| >= 2 && ms[0].Literal? && ms[0].lit != 0 && ms[1] == Literal(0)
    ensures [ms[0]] + ([ms[1]] + f) == [ms[0], ms[1]] + f
    ensures UnitsIn([ms[0], ms[1]] + f) == [ms[0].lit] + UnitsIn(f)
  {
    hide *;
    UnitsInCons(ms[0], [ms[1]] + f);
    UnitsInCons(ms[1], f);
    NilLeft(UnitsIn(f));
    assert [ms[0]] + ([ms[1]] + f) == [ms[0], ms[1]] + f;
  }

  lemma FirstPair(ms: seq<Msg>)
    requires |ms| >= 2 && ms[0].Literal? && ms[0].lit != 0 && ms[1] == Literal(0)
    ensures FirstSolve(ms) == [ms[0], ms[1]] + FirstSolve(ms[2..])
    ensures ReadUnits(ms) == [ms[0].lit] + ReadUnits(ms[2..])
    ensures Solve in ms <==> Solve in ms[2..]
  {
    hide FirstSolve, UnitsIn;
    PairSplits(ms);
    FirstSolveCons(ms);
    FirstSolveCons(ms[1..]);
    PairFirst(ms, FirstSolve(ms[2..]));
  }

  // ----- what is printed -----

  function Missing(h: HeaderData, n: nat): nat { if n < h.clauses then h.clauses - n else 0 }

  /** The text of a formula, its last unit clauses apart; a stray 0 before them leaves
      its digit. */
  function TextWith(h: HeaderData, qs: seq<int>, cs: seq<seq<int>>, stray: bool, us: seq<int>): string {
    HeaderLine(h) + PrefixText(Blocks(qs)) + Lines(cs) + (if stray then "0" else "") +
    (Lines(Units(us)) + Lines(Copies(FillerClause(h.literals, qs), Missing(h, |cs| + |us|))))
  }

  lemma TextWithout(h: HeaderData, qs: seq<int>, cs: seq<seq<int>>, us: seq<int>)
    ensures TextWith(h, qs, cs, false, us) == Formula(h, qs, cs + Units(us))
  {
    hide Blocks, PrefixText, HeaderLine, Lines, FillerClause;
    var f := Copies(FillerClause(h.literals, qs), Missing(h, |cs| + |us|));
    LinesConcat(cs + Units(us), f);
    LinesConcat(cs, Units(us));
    NilRight(HeaderLine(h) + PrefixText(Blocks(qs)) + Lines(cs));
    Assoc(HeaderLine(h) + PrefixText(Blocks(qs)), Lines(cs), Lines(Units(us)) + Lines(f));
    Assoc(Lines(cs), Lines(Units(us)), Lines(f));
  }

  lemma StepStray(p: Phase, h: HeaderData, f: string, w: int, q: nat)
    requires BetweenClauses(p)
    ensures Process(Waiting(p, h, f, w, q), Literal(0)) == ("0", Waiting(ReadingMatrix, h, f, w, q))
  {
    var r := Receive(Waiting(p, h, f, w, q), Literal(0));
    assert Text(0) == "0";
    SpinStep(r, Literal(0), 3);
    SpinStep(StateCall(r, Literal(0)), Literal(0), 2);
  }

  /** What is printed after the base by a tidy rest that ends in a solve. */
  lemma RestText(p: Phase, h: HeaderData, f: seq<int>, w: nat, q: nat, us: seq<int>)
    requires BetweenClauses(p) && NoZero(us)
    ensures var (r, ms) := (Waiting(p, h, Line(f), w, q), RoundMsgs(us, true));
            && Emit(r, ms) == Lines(Units(us)) + Lines(Copies(f, Missing(h, w + |us|)))
            && After(r, ms).phase == Working && After(r, ms).written == w + |us| + Missing(h, w + |us|)
  {
    hide Process, Emit, After, Lines, Line, ClauseMsgs, Times;
    var r := Waiting(p, h, Line(f), w, q);
    var c, n := ClauseMsgs(Units(us)), Missing(h, w + |us|);
    var p2 := if Units(us) == [] then p else ReadingMatrix;
    UnitsOk(us);
    EmitClauses(p, h, Line(f), w, q, Units(us));
    NoClosing();
    NoMsgs();
    NilLeft(Lines(Units(us)));
    LineNonempty(f);
    StepSolve(p2, h, Line(f), w + |us|, q);
    EmitSnoc(r, c, Solve);
    FillersAreLines(f, n);
  }

  lemma SentText(sent: seq<Msg>, h: HeaderData, qs: seq<int>, cs: seq<seq<int>>)
    requires Carries(sent, h, qs, cs, []) && SolvableBase(qs, cs)
    ensures Emit(BOOT, sent) == HeaderLine(h) + PrefixText(Blocks(qs)) + Lines(cs)
    ensures BetweenClauses(BasePhase(qs, cs))
    ensures After(BOOT, sent) == Waiting(BasePhase(qs, cs), h, Line(FillerClause(h.literals, qs)), |cs|, Variables(qs))
  {
    hide Process, Emit, After, Lines, Line, PrefixText, Blocks, HeaderLine, Conforming, Plain, PrefixOk, FillerClause;
    CarriedRecord(sent, h, qs, cs, []);
    ForksInvisible(BOOT, sent);
    NoMsgs();
    NilRight(BaseMsgs(API_VERSION, h, qs, cs));
    EmitBase(API_VERSION, h, qs, cs);
    EndPhaseKinds(qs);
    NilRight(Emit(BOOT, BaseMsgs(API_VERSION, h, qs, cs)));
  }

  /** The text of a child that was forked after `sent` and finds ms in its pipe: what is
      left over of earlier rounds, then its own. */
  lemma ReadText(sent: seq<Msg>, h: HeaderData, qs: seq<int>, cs: seq<seq<int>>, ms: seq<Msg>)
    requires Carries(sent, h, qs, cs, []) && SolvableBase(qs, cs) && LeftOver(ms) && Solve in ms
    ensures Emit(BOOT, sent + FirstSolve(ms)) == TextWith(h, qs, cs, Stray(ms), ReadUnits(ms))
    ensures var a := After(BOOT, sent + FirstSolve(ms)); var n := |cs| + |ReadUnits(ms)|;
            a.phase == Working && a.written == n + Missing(h, n)
  {
    hide Process, Emit, After, Lines, Line, PrefixText, Blocks, HeaderLine, Carries, FillerClause, Tidy, FirstSolve;
    hide RoundMsgs, UnitsIn, SolvableBase;
    var f := FillerClause(h.literals, qs);
    var r := Waiting(BasePhase(qs, cs), h, Line(f), |cs|, Variables(qs));
    SentText(sent, h, qs, cs);
    EmitConcat(BOOT, sent, FirstSolve(ms));
    if Stray(ms) {
      var t := ms[1..];
      HeadTail(ms);
      assert Solve in t;
      TidyRead(t);
      FirstSolveCons(ms);
      UnitsInCons(ms[0], FirstSolve(t));
      NilLeft(ReadUnits(t));
      StepStray(BasePhase(qs, cs), h, Line(f), |cs|, Variables(qs));
      EmitCons(r, Literal(0), FirstSolve(t));
      RestText(ReadingMatrix, h, f, |cs|, Variables(qs), ReadUnits(t));
      Assoc(Emit(BOOT, sent), "0", Emit(Waiting(ReadingMatrix, h, Line(f), |cs|, Variables(qs)), FirstSolve(t)));
    } else {
      TidyRead(ms);
      RestText(BasePhase(qs, cs), h, f, |cs|, Variables(qs), ReadUnits(ms));
      NilRight(Emit(BOOT, sent));
    }
  }
}
