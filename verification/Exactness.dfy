/** Isolation between rounds, exactly: when a child that found messages of earlier rounds
    in its pipe is nevertheless given its own round's text. */
module Exactness {
  import opened Numerals
  import opened Messages
  import opened Transducer
  import opened Render
  import opened Seqs
  import opened Sessions
  import opened Leftovers
  import opened Qbf
  import opened RoundTrip
  import opened Protocol
  import opened Isolation
  import opened EndToEnd
  import Meaning
  import P = Parser

  // ----- texts tell their clauses -----

  /** A line and what follows it can be told apart in one way only. */
  lemma {:induction false} LineDecodes(a: seq<int>, x: string, b: seq<int>, y: string)
    requires Literals(a) && Literals(b) && Line(a) + x == Line(b) + y
    ensures a == b && x == y
    decreases |a|
  {
    hide Text, Line, P.NextToken;
    NoMsgs();
    FirstToken(a, x);
    FirstToken(b, y);
    if a == [] {
    } else {
      assert Literals(a[1..]) && Literals(b[1..]);
      LineDecodes(a[1..], x, b[1..], y);
      HeadTail(a);
      HeadTail(b);
    }
  }

  lemma FirstToken(a: seq<int>, x: string)
    requires Literals(a)
    ensures P.NextToken(P.Normal, Line(a) + x) ==
            if a == [] then P.Number(0, x) else P.Number(a[0], Line(a[1..]) + x)
  {
    hide Text, Line, P.NextToken;
    NoMsgs();
    if a == [] {
      ZeroToken(P.Normal, x);
    } else {
      HeadTail(a);
      LineCons(a[0], a[1..]);
      Assoc(Text(a[0]) + " ", Line(a[1..]), x);
      TextToken(P.Normal, a[0], Line(a[1..]) + x);
    }
  }

  lemma {:induction false} LinesDecode(cs: seq<seq<int>>, ds: seq<seq<int>>)
    requires ClauseLiterals(cs) && ClauseLiterals(ds) && Lines(cs) == Lines(ds)
    ensures cs == ds
    decreases |cs|
  {
    hide Lines, Line;
    NoMsgs();
    if cs == [] {
      if ds != [] { SomeLine(ds); }
    } else if ds == [] {
      SomeLine(cs);
    } else {
      SomeLine(cs);
      SomeLine(ds);
      LineDecodes(cs[0], Lines(cs[1..]), ds[0], Lines(ds[1..]));
      LinesDecode(cs[1..], ds[1..]);
      HeadTail(cs);
      HeadTail(ds);
    }
  }

  lemma SomeLine(cs: seq<seq<int>>)
    requires cs != []
    ensures Lines(cs) == Line(cs[0]) + Lines(cs[1..]) && Lines(cs) != ""
  {
    LineNonempty(cs[0]);
    HeadTail(cs);
    ClauseMsgsCons(cs[0], cs[1..]);
    hide Lines, Line;
  }

  // ----- different unit clauses, different texts -----

  /** The unit clauses and the fillers after them. */
  function StillOwed(h: HeaderData, qs: seq<int>, n: nat, us: seq<int>): seq<seq<int>> {
    Units(us) + Copies(FillerClause(h.literals, qs), Missing(h, n + |us|))
  }

  lemma FillerShape(h: HeaderData, qs: seq<int>)
    requires AllLits(qs)
    ensures Literals(FillerClause(h.literals, qs)) && |FillerClause(h.literals, qs)| != 1
  {
  }

  lemma RestLiterals(h: HeaderData, qs: seq<int>, n: nat, us: seq<int>)
    requires AllLits(qs) && Literals(us)
    ensures ClauseLiterals(StillOwed(h, qs, n, us))
  {
    FillerShape(h, qs);
    hide FillerClause;
  }

  lemma RestShorter(h: HeaderData, qs: seq<int>, n: nat, us: seq<int>, vs: seq<int>)
    requires AllLits(qs) && |us| < |vs|
    ensures StillOwed(h, qs, n, us) != StillOwed(h, qs, n, vs)
  {
    FillerShape(h, qs);
    hide FillerClause;
    var a, b, k := StillOwed(h, qs, n, us), StillOwed(h, qs, n, vs), |us|;
    assert b[k] == Units(vs)[k] == [vs[k]];
    if |a| > k {
      assert a[k] == FillerClause(h.literals, qs);
    }
  }

  lemma RestDiffers(h: HeaderData, qs: seq<int>, n: nat, us: seq<int>, vs: seq<int>)
    requires AllLits(qs) && |us| <= |vs| && StillOwed(h, qs, n, us) == StillOwed(h, qs, n, vs)
    ensures us == vs
  {
    if |us| < |vs| {
      RestShorter(h, qs, n, us, vs);
    } else {
      var a, b := StillOwed(h, qs, n, us), StillOwed(h, qs, n, vs);
      hide FillerClause;
      assert forall i :: 0 <= i < |us| ==> a[i] == [us[i]] && b[i] == [vs[i]];
      assert forall i :: 0 <= i < |us| ==> us[i] == vs[i];
    }
  }

  lemma TextRest(h: HeaderData, qs: seq<int>, cs: seq<seq<int>>, stray: bool, us: seq<int>)
    ensures TextWith(h, qs, cs, stray, us) ==
            HeaderLine(h) + PrefixText(Blocks(qs)) + Lines(cs)
                + ((if stray then "0" else "") + Lines(StillOwed(h, qs, |cs|, us)))
  {
    hide HeaderLine, PrefixText, Blocks, Lines, FillerClause;
    LinesConcat(Units(us), Copies(FillerClause(h.literals, qs), Missing(h, |cs| + |us|)));
    Assoc(HeaderLine(h) + PrefixText(Blocks(qs)) + Lines(cs), if stray then "0" else "",
          Lines(StillOwed(h, qs, |cs|, us)));
  }

  lemma Cancel(a: string, x: string, y: string)
    requires a + x == a + y
    ensures x == y
  {
    assert (a + x)[|a|..] == x && (a + y)[|a|..] == y;
  }

  /** After a stray 0 no clause of the reference text follows. */
  lemma StrayDiffers(cs: seq<seq<int>>, ds: seq<seq<int>>)
    requires ClauseLiterals(cs) && ClauseLiterals(ds)
    ensures "0" + Lines(cs) != Lines(ds)
  {
    hide Lines, Line;
    if "0" + Lines(cs) == Lines(ds) {
      NoMsgs();
      assert ds != [];
      SomeLine(ds);
      FirstChar(ds[0]);
      assert (Line(ds[0]) + Lines(ds[1..]))[0] == '0';
      assert Line(ds[0]) == "0\n" && ("0" + Lines(cs))[1] == '\n';
      assert cs != [];
      SomeLine(cs);
      FirstChar(cs[0]);
    }
  }

  lemma FirstChar(c: seq<int>)
    requires Literals(c)
    ensures Line(c) != "" && Line(c)[0] != '\n' && (c != [] ==> Line(c)[0] != '0')
    ensures c == [] ==> Line(c) == "0\n"
  {
    LineNonempty(c);
    if c != [] {
      HeadTail(c);
      LineCons(c[0], c[1..]);
      TextStarts(c[0]);
      hide Text, Line;
    }
  }

  lemma TextStarts(l: int)
    requires l != 0
    ensures Text(l)[0] != '\n' && Text(l)[0] != '0'
  {
    DecRoundTrip(Abs(l));
  }

  /** Texts with the same base are equal exactly when they have the same unit clauses and
      neither, or both, begin them with a stray 0. */
  lemma TextsTell(h: HeaderData, qs: seq<int>, cs: seq<seq<int>>, stray: bool, us: seq<int>, vs: seq<int>)
    requires AllLits(qs) && Literals(us) && Literals(vs)
    ensures TextWith(h, qs, cs, stray, us) == TextWith(h, qs, cs, false, vs) <==> !stray && us == vs
  {
    hide TextWith, HeaderLine, PrefixText, Blocks, Lines, StillOwed;
    TextRest(h, qs, cs, stray, us);
    TextRest(h, qs, cs, false, vs);
    RestLiterals(h, qs, |cs|, us);
    RestLiterals(h, qs, |cs|, vs);
    var a, b := StillOwed(h, qs, |cs|, us), StillOwed(h, qs, |cs|, vs);
    NilLeft(Lines(a));
    NilLeft(Lines(b));
    if TextWith(h, qs, cs, stray, us) == TextWith(h, qs, cs, false, vs) {
      Cancel(HeaderLine(h) + PrefixText(Blocks(qs)) + Lines(cs), (if stray then "0" else "") + Lines(a), Lines(b));
      if stray {
        StrayDiffers(a, b);
      } else {
        LinesDecode(a, b);
        if |us| <= |vs| { RestDiffers(h, qs, |cs|, us, vs); } else { RestDiffers(h, qs, |cs|, vs, us); }
      }
    }
  }

  // ----- the exact condition -----

  /** What was left over does no harm: there is nothing, or it begins with this very
      round's messages up to the solve. */
  predicate Harmless(r: Round) { r.stale == [] || FirstSolve(r.stale) == RoundMsgs(r.units, true) }

  /** A child's text is its own round's exactly if what was left over does no harm. */
  lemma HarmlessExact(h: HeaderData, r: Round)
    requires RoundValues(r) && LeftOver(r.stale) && Solve in Due(r)
    ensures GivenText(h, r) == RoundFormula(h, r) <==> Harmless(r)
  {
    AsReadValues(r);
    EffectiveLits(h, r.user);
    hide TextWith, Formula, SentBy;
    LitsNonzero(r.units);
    TextWithout(h, SentBy(h, r.user), r.clauses, r.units);
    TextsTell(h, SentBy(h, r.user), r.clauses, Stray(Due(r)), ReadUnits(Due(r)), r.units);
    HarmlessReads(r);
  }

  lemma EffectiveLits(h: HeaderData, user: seq<int>)
    requires AllLits(user)
    ensures AllLits(SentBy(h, user))
  {
    Meaning.EffectiveWeakens(user, h.prefixdepth);
    WeakenedLits(user, SentBy(h, user));
  }

  lemma LitsNonzero(us: seq<int>)
    requires Literals(us)
    ensures NoZero(us)
  {
  }

  lemma HarmlessReads(r: Round)
    requires NoZero(r.units) && LeftOver(r.stale) && Solve in Due(r)
    ensures Harmless(r) <==> !Stray(Due(r)) && ReadUnits(Due(r)) == r.units
  {
    var own := RoundMsgs(r.units, r.solved);
    RoundTidy(r.units, r.solved);
    RoundRead(r.units);
    UnitsOfRound(r.units);
    FirstSolveConcat(r.stale, own);
    if r.stale == [] {
      NilLeft(own);
      NothingLeft(r);
    } else {
      LeftOverConcat(r.stale, own);
      if Stray(r.stale) {
        StrayFirst(r.stale);
      } else if Solve in r.stale {
        TidyRead(r.stale);
      } else {
        NoSolveReads(r);
      }
    }
  }

  lemma StrayFirst(ms: seq<Msg>)
    requires Stray(ms)
    ensures Stray(FirstSolve(ms))
  {
  }

  lemma {:induction false} UnitsInConcat(a: seq<Msg>, b: seq<Msg>)
    ensures UnitsIn(a + b) == UnitsIn(a) + UnitsIn(b)
  {
    hide UnitsIn;
    NoUnitsIn();
    if a == [] {
      NilLeft(b);
      NilLeft(UnitsIn(b));
    } else {
      HeadTail(a);
      Assoc([a[0]], a[1..], b);
      UnitsInCons(a[0], a[1..]);
      UnitsInCons(a[0], a[1..] + b);
      UnitsInConcat(a[1..], b);
      Assoc(if a[0].Literal? && a[0].lit != 0 then [a[0].lit] else [], UnitsIn(a[1..]), UnitsIn(b));
    }
  }

  lemma NoUnitsIn()
    ensures UnitsIn([]) == []
  {
  }

  /** Left-over unit clauses with no solve behind them come in front of the round's own. */
  lemma NoSolveReads(r: Round)
    requires NoZero(r.units) && r.stale != [] && Tidy(r.stale) && Solve !in r.stale && Solve in Due(r)
    ensures ReadUnits(Due(r)) != r.units && FirstSolve(r.stale) != RoundMsgs(r.units, true)
  {
    var own := RoundMsgs(r.units, r.solved);
    FirstSolveConcat(r.stale, own);
    FirstSolveConcat(r.stale, []);
    NilRight(r.stale);
    assert FirstSolve([]) == [];
    TidyRead(r.stale);
    UnitsOfRound(r.units);
    RoundRead(r.units);
    assert Solve in own;
    if !r.solved { NothingLeft(r.(stale := [], solved := false)); }
    UnitsInConcat(r.stale, own);
    assert UnitsIn(r.stale) != [] by { SomeUnit(r.stale); }
    hide UnitsIn, FirstSolve, RoundMsgs;
  }

  lemma SomeUnit(ms: seq<Msg>)
    requires Tidy(ms) && ms != [] && Solve !in ms
    ensures UnitsIn(ms) != []
  {
    HeadTail(ms);
    UnitsInCons(ms[0], ms[1..]);
    assert ms[0] != Solve;
  }

  // ----- over every run -----

  lemma InvLeftOver(s: Sys, i: nat)
    requires s.hist.alone && i < |s.hist.rounds| && Inv(s)
    ensures LeftOver(s.hist.rounds[i].stale)
  {
    hide SeedSync, CallsSync, ReportsSync, KidsSync, RoundsOk, Forks, LeftOver, Due;
  }

  /** Isolation, exactly, over every run in which no round began with an earlier child left
      to read from the pipe: a child that has read its input to its end was given its own
      round's text if and only if what earlier rounds had left in the pipe at its fork
      does no harm. */
  lemma IsolationExact(h: HeaderData, exitCodeMode: bool, callback: bool, steps: seq<Step>, i: nat)
    requires Legal(Init(h, exitCodeMode, callback), steps)
    ensures var s := Final(Init(h, exitCodeMode, callback), steps);
            s.hist.alone && i < |s.kids| && i < |s.hist.rounds| && s.kids[i].proc.ended ==>
              var r := s.hist.rounds[i];
              s.kids[i].proc.given == RoundFormula(h, r) <==> Harmless(r)
  {
    hide Legal, Final, GivenText, RoundFormula, Harmless, RoundValues, Due, LeftOver, Inv;
    var init := Init(h, exitCodeMode, callback);
    var s := Final(init, steps);
    InitKeeps(h, exitCodeMode, callback);
    RunKeeps(init, steps);
    ChildText(h, exitCodeMode, callback, steps, i);
    ValuesRun(init, steps);
    hide Init;
    if s.hist.alone && i < |s.kids| && i < |s.hist.rounds| && s.kids[i].proc.ended {
      InvLeftOver(s, i);
      HarmlessExact(h, s.hist.rounds[i]);
    }
  }
}
