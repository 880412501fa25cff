/** Message histories of conforming sessions: forks are invisible in the text, and
    the runtime's phase is determined by what the user has called so far. */
module Sessions {
  import opened Messages
  import opened Transducer
  import opened PullMachine
  import opened Render
  import opened Seqs
  import opened Qbf

  /** m comes when the runtime expects it; forks only come between clauses. */
  predicate Expected(r: Rt, m: Msg) {
    && r == Waiting(r.phase, r.header, r.filler, r.written, r.quantifiers)
    && Handled(r.phase, m) && (m.Fork? ==> BetweenClauses(r.phase))
  }

  predicate Conforming(r: Rt, ms: seq<Msg>)
    decreases |ms|
  {
    ms == [] || (Expected(r, ms[0]) && Conforming(Process(r, ms[0]).1, ms[1..]))
  }

  function Plain(ms: seq<Msg>): seq<Msg> {
    if ms == [] then [] else (if ms[0].Fork? then [] else [ms[0]]) + Plain(ms[1..])
  }

  lemma {:induction false} PlainConcat(a: seq<Msg>, b: seq<Msg>)
    ensures Plain(a + b) == Plain(a) + Plain(b)
  {
    if a == [] {
      assert a + b == b;
    } else {
      assert (a + b)[1..] == a[1..] + b;
      PlainConcat(a[1..], b);
    }
  }

  lemma {:induction false} ConformingConcat(r: Rt, a: seq<Msg>, b: seq<Msg>)
    ensures Conforming(r, a + b) <==> Conforming(r, a) && Conforming(After(r, a), b)
    decreases |a|
  {
    hide Process, Expected;
    if a == [] {
      assert a + b == b;
    } else {
      assert (a + b)[0] == a[0] && (a + b)[1..] == a[1..] + b;
      ConformingConcat(Process(r, a[0]).1, a[1..], b);
    }
  }

  lemma ConformingSnoc(r: Rt, a: seq<Msg>, m: Msg)
    requires Conforming(r, a) && Expected(After(r, a), m)
    ensures Conforming(r, a + [m])
  {
    ConformingConcat(r, a, [m]);
    hide Process, Expected, After;
    assert [m][1..] == [];
  }

  lemma ForkInvisible(r: Rt, m: Msg)
    requires m.Fork? && Expected(r, m)
    ensures Process(r, m) == ("", r)
  {
    StepFork(r.phase, r.header, r.filler, r.written, r.quantifiers, m.waitForExitCode);
  }

  /** Forks between clauses leave no trace in the text or in the record. */
  lemma {:induction false} ForksInvisible(r: Rt, ms: seq<Msg>)
    requires Conforming(r, ms)
    ensures Emit(r, ms) == Emit(r, Plain(ms)) && After(r, ms) == After(r, Plain(ms))
    decreases |ms|
  {
    hide Process, Expected;
    if ms == [] {
    } else {
      var q := Process(r, ms[0]).1;
      ForksInvisible(q, ms[1..]);
      if ms[0].Fork? {
        ForkInvisible(r, ms[0]);
        assert Plain(ms) == Plain(ms[1..]);
        assert "" + Emit(r, ms[1..]) == Emit(r, ms[1..]);
      } else {
        assert Plain(ms)[0] == ms[0] && Plain(ms)[1..] == Plain(ms[1..]);
      }
    }
  }

  // ----- what has been sent to the seed -----

  /** ms carries header h, quantifiers qs, clauses cs and the literals of an open clause. */
  ghost predicate Carries(ms: seq<Msg>, h: HeaderData, qs: seq<int>, cs: seq<seq<int>>, open: seq<int>) {
    && PrefixOk(false, qs) && ClausesOk(cs) && (open == [] || ClauseOk(open))
    && Plain(ms) == BaseMsgs(API_VERSION, h, qs, cs) + LiteralMsgs(open)
    && Conforming(BOOT, ms)
  }

  function PhaseNow(qs: seq<int>, cs: seq<seq<int>>, open: seq<int>): Phase {
    if open != [] then ReadingClause else BasePhase(qs, cs)
  }

  lemma {:induction false} OpenTail(h: HeaderData, f: string, w: int, q: nat, ls: seq<int>)
    requires forall i :: 0 <= i < |ls| ==> ls[i] != 0
    ensures After(Waiting(ReadingClause, h, f, w, q), LiteralMsgs(ls)) == Waiting(ReadingClause, h, f, w, q)
    decreases |ls|
  {
    hide Process;
    if ls == [] {
    } else {
      StepClause(h, f, w, q, ls[0]);
      OpenTail(h, f, w, q, ls[1..]);
    }
  }

  lemma EndPhaseKinds(qs: seq<int>)
    ensures var p := EndPhase(ReadingPrefix, qs); p == ReadingPrefix || Open(p)
    ensures Open(EndPhase(ReadingPrefix, qs)) <==> BlockOpen(qs)
  {
  }

  /** The record after a history, exactly. */
  lemma CarriedRecord(ms: seq<Msg>, h: HeaderData, qs: seq<int>, cs: seq<seq<int>>, open: seq<int>)
    requires Carries(ms, h, qs, cs, open)
    ensures After(BOOT, ms) == Waiting(PhaseNow(qs, cs, open), h, FillerText(h, qs), |cs|, Variables(qs))
  {
    hide Process, FillerText, Conforming, Plain, BaseMsgs;
    ForksInvisible(BOOT, ms);
    EmitBase(API_VERSION, h, qs, cs);
    EmitConcat(BOOT, BaseMsgs(API_VERSION, h, qs, cs), LiteralMsgs(open));
    EndPhaseKinds(qs);
    if open != [] {
      StepFirst(BasePhase(qs, cs), h, FillerText(h, qs), |cs|, Variables(qs), open[0]);
      OpenTail(h, FillerText(h, qs), |cs|, Variables(qs), open[1..]);
    }
  }

  lemma QuantifierSnoc(qs: seq<int>, q: int)
    ensures QuantifierMsgs(qs + [q]) == QuantifierMsgs(qs) + [Quantifier(q)]
  {
    if qs != [] {
      assert (qs + [q])[1..] == qs[1..] + [q];
      QuantifierSnoc(qs[1..], q);
    } else {
      assert qs + [q] == [q] && [q][1..] == [];
    }
  }

  lemma LiteralSnoc(ls: seq<int>, l: int)
    ensures LiteralMsgs(ls + [l]) == LiteralMsgs(ls) + [Literal(l)]
  {
    if ls != [] {
      assert (ls + [l])[1..] == ls[1..] + [l];
      LiteralSnoc(ls[1..], l);
    } else {
      assert ls + [l] == [l] && [l][1..] == [];
    }
  }

  lemma ClauseSnoc(cs: seq<seq<int>>, c: seq<int>)
    ensures ClauseMsgs(cs + [c]) == ClauseMsgs(cs) + LiteralMsgs(c + [0])
  {
    if cs != [] {
      assert (cs + [c])[1..] == cs[1..] + [c];
      ClauseSnoc(cs[1..], c);
    } else {
      assert cs + [c] == [c] && [c][1..] == [];
    }
  }

  lemma PrefixSnoc(open: bool, qs: seq<int>, q: int)
    requires PrefixOk(open, qs)
    ensures PrefixOk(open, qs + [q]) <==> q != 0 || (if qs == [] then open else BlockOpen(qs))
    decreases |qs|
  {
    if qs != [] {
      assert (qs + [q])[1..] == qs[1..] + [q];
      PrefixSnoc(qs[0] != 0, qs[1..], q);
    } else {
      assert qs + [q] == [q] && [q][1..] == [];
    }
  }

  lemma PlainOne(m: Msg)
    requires !m.Fork?
    ensures Plain([m]) == [m]
  {
    assert [m][1..] == [];
  }

  lemma CarriesQuantifier(ms: seq<Msg>, h: HeaderData, qs: seq<int>, q: int)
    requires Carries(ms, h, qs, [], []) && (q != 0 || BlockOpen(qs))
    ensures Carries(ms + [Quantifier(q)], h, qs + [q], [], [])
  {
    hide Conforming, After, FillerText, Plain, QuantifierMsgs, PrefixOk, ClauseMsgs, LiteralMsgs;
    CarriedRecord(ms, h, qs, [], []);
    EndPhaseKinds(qs);
    ConformingSnoc(BOOT, ms, Quantifier(q));
    QuantifierSnoc(qs, q);
    PrefixSnoc(false, qs, q);
    PlainConcat(ms, [Quantifier(q)]);
    PlainOne(Quantifier(q));
    NoMsgs();
    var b := [Header(API_VERSION, h)] + QuantifierMsgs(qs);
    NilRight(b);
    Assoc([Header(API_VERSION, h)], QuantifierMsgs(qs), [Quantifier(q)]);
    NilRight([Header(API_VERSION, h)] + QuantifierMsgs(qs + [q]));
  }

  lemma LiteralExpected(ms: seq<Msg>, h: HeaderData, qs: seq<int>, cs: seq<seq<int>>, open: seq<int>, l: int)
    requires Carries(ms, h, qs, cs, open) && (l != 0 || open != [])
    ensures Conforming(BOOT, ms + [Literal(l)])
    ensures Plain(ms + [Literal(l)]) == BaseMsgs(API_VERSION, h, qs, cs) + LiteralMsgs(open + [l])
  {
    CarriedRecord(ms, h, qs, cs, open);
    EndPhaseKinds(qs);
    ConformingSnoc(BOOT, ms, Literal(l));
    hide Conforming, After, FillerText, BaseMsgs;
    LiteralSnoc(open, l);
    PlainConcat(ms, [Literal(l)]);
    assert Plain([Literal(l)]) == [Literal(l)];
  }

  lemma CarriesLiteral(ms: seq<Msg>, h: HeaderData, qs: seq<int>, cs: seq<seq<int>>, open: seq<int>, l: int)
    requires Carries(ms, h, qs, cs, open) && l != 0
    ensures Carries(ms + [Literal(l)], h, qs, cs, open + [l])
  {
    LiteralExpected(ms, h, qs, cs, open, l);
    hide Conforming, BaseMsgs, Plain, LiteralMsgs, PrefixOk;
  }

  lemma CarriesClauseEnd(ms: seq<Msg>, h: HeaderData, qs: seq<int>, cs: seq<seq<int>>, open: seq<int>)
    requires Carries(ms, h, qs, cs, open) && open != []
    ensures Carries(ms + [Literal(0)], h, qs, cs + [open], [])
  {
    hide Conforming, Plain, PrefixOk, LiteralMsgs, ClauseMsgs, QuantifierMsgs;
    LiteralExpected(ms, h, qs, cs, open, 0);
    ClauseSnoc(cs, open);
    NoMsgs();
    var b, c := [Header(API_VERSION, h)] + QuantifierMsgs(qs), ClauseMsgs(cs);
    Assoc(b, c, LiteralMsgs(open));
    Assoc(b, c + LiteralMsgs(open), [Literal(0)]);
    NilRight(BaseMsgs(API_VERSION, h, qs, cs + [open]));
    AllOk(cs, [open]);
  }

  lemma CarriesFork(ms: seq<Msg>, h: HeaderData, qs: seq<int>, cs: seq<seq<int>>, wait: bool)
    requires Carries(ms, h, qs, cs, []) && SolvableBase(qs, cs)
    ensures Carries(ms + [Fork(wait)], h, qs, cs, [])
  {
    CarriedRecord(ms, h, qs, cs, []);
    EndPhaseKinds(qs);
    ConformingSnoc(BOOT, ms, Fork(wait));
    hide Conforming, After, FillerText;
    PlainConcat(ms, [Fork(wait)]);
    assert Plain([Fork(wait)]) == [];
  }

  // ----- one round -----

  /** The messages of a round on the child's pipe: a unit clause per assumption, then the solve. */
  function RoundMsgs(us: seq<int>, solved: bool): seq<Msg> {
    ClauseMsgs(Units(us)) + (if solved then [Solve] else [])
  }

  lemma {:induction false} ClauseMsgsConcat(a: seq<seq<int>>, b: seq<seq<int>>)
    ensures ClauseMsgs(a + b) == ClauseMsgs(a) + ClauseMsgs(b)
  {
    hide LiteralMsgs;
    if a == [] {
      assert a + b == b;
    } else {
      assert (a + b)[1..] == a[1..] + b;
      ClauseMsgsConcat(a[1..], b);
    }
  }

  lemma RoundSnoc(us: seq<int>, u: int)
    ensures RoundMsgs(us + [u], false) == RoundMsgs(us, false) + [Literal(u), Literal(0)]
    ensures RoundMsgs(us, true) == RoundMsgs(us, false) + [Solve]
  {
    assert Units(us + [u]) == Units(us) + [[u]];
    ClauseSnoc(Units(us), [u]);
    assert ([u] + [0])[1..] == [0] && [0][1..] == [];
    assert LiteralMsgs([0]) == [Literal(0)];
    assert LiteralMsgs([u] + [0]) == [Literal(u)] + LiteralMsgs([0]);
  }

  lemma AllOk(cs: seq<seq<int>>, ds: seq<seq<int>>)
    requires ClausesOk(cs) && ClausesOk(ds)
    ensures ClausesOk(cs + ds)
  {
  }

  lemma UnitsOk(us: seq<int>)
    requires NoZero(us)
    ensures ClausesOk(Units(us))
  {
  }

  /** What a child that was forked after `sent` prints for its round. */
  lemma RoundText(sent: seq<Msg>, h: HeaderData, qs: seq<int>, cs: seq<seq<int>>, us: seq<int>)
    requires Carries(sent, h, qs, cs, []) && SolvableBase(qs, cs) && NoZero(us)
    ensures Emit(BOOT, sent + RoundMsgs(us, true)) == Formula(h, qs, cs + Units(us))
    ensures After(BOOT, sent + RoundMsgs(us, true)).phase == Working
  {
    hide Process, Formula, SolvableBase, Emit, After, ClauseMsgs, LiteralMsgs, QuantifierMsgs, Units, Line;
    hide Conforming, Plain, PrefixOk;
    var all := cs + Units(us);
    var base, c, d := BaseMsgs(API_VERSION, h, qs, cs), ClauseMsgs(cs), ClauseMsgs(Units(us));
    NoMsgs();
    NilRight(base);
    ForksInvisible(BOOT, sent);
    EmitConcat(BOOT, sent, RoundMsgs(us, true));
    EmitConcat(BOOT, base, RoundMsgs(us, true));
    ClauseMsgsConcat(cs, Units(us));
    UnitsOk(us);
    AllOk(cs, Units(us));
    BaseGrows(qs, cs, Units(us));
    SessionText(API_VERSION, h, qs, all);
    Assoc([Header(API_VERSION, h)] + QuantifierMsgs(qs), c, d + [Solve]);
    Assoc(c, d, [Solve]);
    Assoc([Header(API_VERSION, h)] + QuantifierMsgs(qs), c + d, [Solve]);
  }

  lemma BaseGrows(qs: seq<int>, cs: seq<seq<int>>, ds: seq<seq<int>>)
    requires SolvableBase(qs, cs)
    ensures SolvableBase(qs, cs + ds)
  {
  }

  // ----- no solve before the round's -----

  lemma {:induction false} QuantifiersUnsolved(qs: seq<int>)
    ensures Solve !in QuantifierMsgs(qs)
  {
    if qs == [] {
    } else {
      QuantifiersUnsolved(qs[1..]);
    }
  }

  lemma {:induction false} LiteralsUnsolved(ls: seq<int>)
    ensures Solve !in LiteralMsgs(ls)
  {
    if ls == [] {
    } else {
      LiteralsUnsolved(ls[1..]);
    }
  }

  lemma {:induction false} ClausesUnsolved(cs: seq<seq<int>>)
    ensures Solve !in ClauseMsgs(cs)
  {
    if cs == [] {
    } else {
      LiteralsUnsolved(cs[0] + [0]);
      ClausesUnsolved(cs[1..]);
    }
  }

  lemma {:induction false} PlainUnsolved(ms: seq<Msg>)
    requires Solve !in Plain(ms)
    ensures Solve !in ms
  {
    if ms == [] {
    } else {
      PlainUnsolved(ms[1..]);
      HeadTail(ms);
    }
  }

  /** What is sent to the seed has no solve message. */
  lemma CarriesUnsolved(ms: seq<Msg>, h: HeaderData, qs: seq<int>, cs: seq<seq<int>>, open: seq<int>)
    requires Carries(ms, h, qs, cs, open)
    ensures Solve !in ms
  {
    hide Conforming, Plain, PrefixOk;
    QuantifiersUnsolved(qs);
    ClausesUnsolved(cs);
    LiteralsUnsolved(open);
    hide QuantifierMsgs, ClauseMsgs, LiteralMsgs;
    PlainUnsolved(ms);
  }
}
