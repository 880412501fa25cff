/** A quapify run: the formula is parsed twice, first to count and then into the library,
    and the loop over the assumption list asks one round per set. */
module Rounds {
  import opened Numerals
  import opened Messages
  import opened Qbf
  import opened Seqs
  import opened Parser
  import Acceptance
  import opened EndToEnd
  import opened Meaning
  import opened Render
  import opened RoundTrip
  import Odometer
  import Cubes
  import Quapify
  import Sessions
  import Isolation
  import L = Library

  // ----- the first pass -----

  /** The largest variable of a clause. */
  function LargestVariable(calls: seq<Call>): nat {
    if calls == [] then 0
    else
      var m, c := LargestVariable(calls[..|calls| - 1]), calls[|calls| - 1];
      if c.AddLit? && Abs(c.l) > m then Abs(c.l) else m
  }

  /** It bounds them all, and some clause mentions it unless it is 0. */
  lemma {:induction false} LargestExact(calls: seq<Call>)
    ensures forall i :: 0 <= i < |calls| && calls[i].AddLit? ==> Abs(calls[i].l) <= LargestVariable(calls)
    ensures LargestVariable(calls) > 0 ==>
              exists i :: 0 <= i < |calls| && calls[i].AddLit? && Abs(calls[i].l) == LargestVariable(calls)
  {
    if calls == [] {
    } else {
      var p := calls[..|calls| - 1];
      LargestExact(p);
      assert forall i :: 0 <= i < |p| ==> p[i] == calls[i];
      assert calls[|calls| - 1].AddLit? ==> Abs(calls[|calls| - 1].l) <= LargestVariable(calls);
    }
  }

  lemma {:induction false} PrefixSnoc(calls: seq<Call>)
    requires calls != []
    ensures var p, c := calls[..|calls| - 1], calls[|calls| - 1];
            PrefixOf(calls) == if c.AddQuantifier? then PrefixOf(p) + [c.q] else PrefixOf(p)
    decreases |calls|
  {
    if |calls| == 1 {
      assert calls[..0] == [] && calls[1..] == [];
    } else {
      var p, t := calls[..|calls| - 1], calls[1..];
      assert t[..|t| - 1] == p[1..];
      PrefixSnoc(t);
      PrefixUnfold(calls);
      PrefixUnfold(p);
      hide PrefixOf;
      var first := if calls[0].AddQuantifier? then [calls[0].q] else [];
      Assoc(first, PrefixOf(p[1..]), [if calls[|calls| - 1].AddQuantifier? then calls[|calls| - 1].q else 0]);
    }
  }

  lemma PrefixUnfold(calls: seq<Call>)
    requires calls != []
    ensures PrefixOf(calls) == (if calls[0].AddQuantifier? then [calls[0].q] else []) + PrefixOf(calls[1..])
  {
  }

  /** add_quantifier and add_lit before there is a solver. */
  method CountPass(calls: seq<Call>) returns (quantifiers: seq<int>, varcount: nat, clausecount: nat)
    ensures quantifiers == PrefixOf(calls) && varcount == LargestVariable(calls)
    ensures clausecount == Acceptance.Closings(calls) == |MatrixOf(calls, [])|
    ensures forall i :: 0 <= i < |calls| && calls[i].AddLit? ==> Abs(calls[i].l) <= varcount
    ensures varcount > 0 ==> exists i :: 0 <= i < |calls| && calls[i].AddLit? && Abs(calls[i].l) == varcount
  {
    hide PrefixOf, MatrixOf;
    quantifiers, varcount, clausecount := [], 0, 0;
    assert calls[..0] == [] && PrefixOf([]) == [] by { NoCalls(); }
    for i := 0 to |calls|
      invariant quantifiers == PrefixOf(calls[..i]) && varcount == LargestVariable(calls[..i])
      invariant clausecount == Acceptance.Closings(calls[..i])
    {
      var c := calls[i];
      assert calls[..i + 1][..i] == calls[..i];
      PrefixSnoc(calls[..i + 1]);
      match c {
        case AddQuantifier(q) => quantifiers := quantifiers + [q];
        case AddLit(lit) =>
          if lit == 0 {
            clausecount := clausecount + 1;
          } else if Abs(lit) > varcount {
            varcount := Abs(lit);
          }
      }
    }
    assert calls[..|calls|] == calls;
    LargestExact(calls);
    MatrixCount(calls, []);
  }

  lemma NoCalls()
    ensures PrefixOf([]) == []
  {
  }

  // ----- the second pass -----

  /** The library accepts quantifiers only before the first literal. */
  predicate QuantifiersFirst(calls: seq<Call>) {
    forall i, j :: 0 <= i < j < |calls| && calls[j].AddQuantifier? ==> calls[i].AddQuantifier?
  }

  function AfterCalls(l: L.Lib, calls: seq<Call>): L.Lib {
    if calls == [] then l
    else
      var m, c := AfterCalls(l, calls[..|calls| - 1]), calls[|calls| - 1];
      if c.AddQuantifier? then L.Quantified(m, c.q) else L.Added(m, c.l)
  }

  /** What the calls send: each literal as it is, each quantifier as es has it. */
  predicate Relays(calls: seq<Call>, es: seq<int>, ms: seq<Msg>) {
    && |ms| == |calls|
    && forall i :: 0 <= i < |calls| ==>
         if calls[i].AddLit? then ms[i] == Literal(calls[i].l) else i < |es| && ms[i] == Quantifier(es[i])
  }

  lemma RelaysSnoc(calls: seq<Call>, c: Call, es: seq<int>, fs: seq<int>, ms: seq<Msg>, m: Msg)
    requires Relays(calls, es, ms) && es <= fs
    requires if c.AddLit? then m == Literal(c.l) else |calls| < |fs| && m == Quantifier(fs[|calls|])
    ensures Relays(calls + [c], fs, ms + [m])
  {
  }

  lemma {:induction false} OnlyLiterals(calls: seq<Call>)
    requires forall i :: 0 <= i < |calls| ==> calls[i].AddLit?
    ensures PrefixOf(calls) == []
    decreases |calls|
  {
    if calls == [] {
    } else {
      assert forall i :: 0 <= i < |calls| - 1 ==> calls[1..][i] == calls[i + 1];
      OnlyLiterals(calls[1..]);
    }
  }

  lemma {:induction false} OnlyQuantifiers(calls: seq<Call>)
    requires forall i :: 0 <= i < |calls| ==> calls[i].AddQuantifier?
    ensures |PrefixOf(calls)| == |calls|
    decreases |calls|
  {
    if calls == [] {
    } else {
      assert forall i :: 0 <= i < |calls| - 1 ==> calls[1..][i] == calls[i + 1];
      OnlyQuantifiers(calls[1..]);
    }
  }

  /** add_quantifier and add_lit with the solver there.  Every call goes to the seed, in
      order: the literals as they are, the quantifiers as Effective has them; for closed
      calls that is the prefix and the clauses the calls describe. */
  method FeedPass(solver: L.Solver, calls: seq<Call>)
    requires QuantifiersFirst(calls) && solver.state == L.Input
    modifies solver
    ensures solver.Abs() == AfterCalls(old(solver.Abs()), calls) && solver.toChild == old(solver.toChild)
    ensures var es := Effective(PrefixOf(calls), solver.header.prefixdepth, old(solver.writtenQuantifiers));
            var n := |old(solver.toSeed)|;
            && |solver.toSeed| == n + |calls| && solver.toSeed[..n] == old(solver.toSeed)
            && (forall i :: 0 <= i < |calls| && calls[i].AddLit? ==> solver.toSeed[n + i] == Literal(calls[i].l))
            && (forall i :: 0 <= i < |calls| && calls[i].AddQuantifier? ==>
                  i < |es| && solver.toSeed[n + i] == Quantifier(es[i]))
            && (Closed(calls) ==>
                  solver.toSeed == old(solver.toSeed) + QuantifierMsgs(es) + ClauseMsgs(MatrixOf(calls, [])))
  {
    hide Effective, PrefixOf, MatrixOf, Relays, QuantifierMsgs, ClauseMsgs, Variables, Closed;
    ghost var before, was, w: nat := solver.Abs(), solver.toSeed, solver.writtenQuantifiers;
    ghost var depth := solver.header.prefixdepth;
    ghost var ms: seq<Msg> := [];
    NoRelay(depth, w);
    assert calls[..0] == [];
    for i := 0 to |calls|
      invariant solver.Abs() == AfterCalls(before, calls[..i]) && solver.toChild == old(solver.toChild)
      invariant solver.state == L.Input || (solver.state == L.InputLiterals && i > 0 && calls[i - 1].AddLit?)
      invariant solver.toSeed == was + ms && Relays(calls[..i], Effective(PrefixOf(calls[..i]), depth, w), ms)
      invariant solver.writtenQuantifiers == w + Variables(PrefixOf(calls[..i]))
    {
      var c := calls[i];
      assert calls[..i + 1][..i] == calls[..i] && calls[..i + 1] == calls[..i] + [c];
      ghost var m := if c.AddLit? then Literal(c.l) else Quantifier(L.SentAs(solver.Abs(), c.q));
      RelayOne(calls, i, solver.Abs(), depth, w, ms, m);
      match c {
        case AddQuantifier(q) => solver.Quantify(q);
        case AddLit(lit) => solver.Add(lit);
      }
      ms := ms + [m];
    }
    assert calls[..|calls|] == calls;
    RelayEntries(calls, Effective(PrefixOf(calls), depth, w), was, ms);
    if Closed(calls) {
      RelayedFormula(calls, Effective(PrefixOf(calls), depth, w), ms);
    }
    Assoc(was, QuantifierMsgs(Effective(PrefixOf(calls), depth, w)), ClauseMsgs(MatrixOf(calls, [])));
  }

  /** No clause is left open. */
  predicate Closed(calls: seq<Call>) {
    calls != [] && calls[|calls| - 1].AddLit? ==> calls[|calls| - 1].l == 0
  }

  lemma NoRelay(depth: int, w: nat)
    ensures Relays([], Effective(PrefixOf([]), depth, w), []) && Variables(PrefixOf([])) == 0
  {
  }

  lemma RelayEntries(calls: seq<Call>, es: seq<int>, was: seq<Msg>, ms: seq<Msg>)
    requires Relays(calls, es, ms)
    ensures |ms| == |calls| && (was + ms)[..|was|] == was
    ensures forall i :: 0 <= i < |calls| && calls[i].AddLit? ==> (was + ms)[|was| + i] == Literal(calls[i].l)
    ensures forall i :: 0 <= i < |calls| && calls[i].AddQuantifier? ==>
              i < |es| && (was + ms)[|was| + i] == Quantifier(es[i])
  {
  }

  lemma RelayOne(calls: seq<Call>, i: nat, l: L.Lib, depth: int, w: nat, ms: seq<Msg>, m: Msg)
    requires i < |calls| && QuantifiersFirst(calls) && l.header.prefixdepth == depth
    requires l.writtenQuantifiers == w + Variables(PrefixOf(calls[..i]))
    requires Relays(calls[..i], Effective(PrefixOf(calls[..i]), depth, w), ms)
    requires m == if calls[i].AddLit? then Literal(calls[i].l) else Quantifier(L.SentAs(l, calls[i].q))
    ensures Relays(calls[..i + 1], Effective(PrefixOf(calls[..i + 1]), depth, w), ms + [m])
    ensures Variables(PrefixOf(calls[..i + 1])) ==
              Variables(PrefixOf(calls[..i])) + (if calls[i].AddQuantifier? && calls[i].q != 0 then 1 else 0)
  {
    hide PrefixOf, Effective, Variables, Relays;
    var p, c := calls[..i], calls[i];
    assert calls[..i + 1] == p + [c] && (p + [c])[..i] == p;
    PrefixSnoc(p + [c]);
    if c.AddQuantifier? {
      forall j | 0 <= j < i ensures p[j].AddQuantifier? { assert p[j] == calls[j]; }
      OnlyQuantifiers(p);
      Isolation.EffectiveSnoc(PrefixOf(p), c.q, depth, w);
    }
    RelaysSnoc(p, c, Effective(PrefixOf(p), depth, w), Effective(PrefixOf(p + [c]), depth, w), ms, m);
  }

  /** Literals that close their last clause are the messages of the clauses they spell. */
  lemma {:induction false} RelayedClauses(calls: seq<Call>, open: seq<int>, es: seq<int>, ms: seq<Msg>)
    requires Relays(calls, es, ms) && (forall i :: 0 <= i < |calls| ==> calls[i].AddLit?)
    requires if calls == [] then open == [] else calls[|calls| - 1].l == 0
    ensures LiteralMsgs(open) + ms == ClauseMsgs(MatrixOf(calls, open))
    decreases |calls|
  {
    if calls == [] {
      assert LiteralMsgs([]) + ms == [];
    } else {
      var t, us, l := calls[1..], ms[1..], calls[0].l;
      RelaysRest(calls, es, ms);
      Sessions.LiteralSnoc(open, l);
      Assoc(LiteralMsgs(open), [Literal(l)], us);
      assert MatrixOf(calls, open) == if l == 0 then [open] + MatrixOf(t, []) else MatrixOf(t, open + [l]);
      if l == 0 {
        RelayedClauses(t, [], es, us);
        NilLeft(us);
        assert LiteralMsgs([]) == [];
        hide *;
        ClauseFirst(open, MatrixOf(t, []));
      } else {
        RelayedClauses(t, open + [l], es, us);
        hide *;
      }
    }
  }

  lemma RelaysRest(calls: seq<Call>, es: seq<int>, ms: seq<Msg>)
    requires Relays(calls, es, ms) && calls != [] && calls[0].AddLit?
    requires forall i :: 0 <= i < |calls| ==> calls[i].AddLit?
    ensures Relays(calls[1..], es, ms[1..]) && ms == [Literal(calls[0].l)] + ms[1..]
    ensures forall i :: 0 <= i < |calls[1..]| ==> calls[1..][i].AddLit?
  {
  }

  lemma ClauseFirst(c: seq<int>, cs: seq<seq<int>>)
    ensures ClauseMsgs([c] + cs) == LiteralMsgs(c + [0]) + ClauseMsgs(cs)
  {
    Cons(c, cs);
  }

  lemma {:induction false} RelayedFormula(calls: seq<Call>, es: seq<int>, ms: seq<Msg>)
    requires Relays(calls, es, ms) && QuantifiersFirst(calls) && |es| == |PrefixOf(calls)| && Closed(calls)
    ensures ms == QuantifierMsgs(es) + ClauseMsgs(MatrixOf(calls, []))
    decreases |calls|
  {
    if calls == [] || calls[0].AddLit? {
      OnlyLiterals(calls);
      RelayedClauses(calls, [], es, ms);
      assert LiteralMsgs([]) == [] && QuantifierMsgs([]) == [];
      hide PrefixOf, MatrixOf, LiteralMsgs, ClauseMsgs, QuantifierMsgs;
      NilLeft(ms);
      NilLeft(ClauseMsgs(MatrixOf(calls, [])));
    } else {
      var t, fs, us := calls[1..], es[1..], ms[1..];
      assert forall i :: 0 <= i < |t| ==> t[i] == calls[i + 1];
      RelaysTail(calls, es, ms);
      RelayedFormula(t, fs, us);
      assert ms == [Quantifier(es[0])] + us;
      Assoc([Quantifier(es[0])], QuantifierMsgs(fs), ClauseMsgs(MatrixOf(t, [])));
    }
  }

  lemma RelaysTail(calls: seq<Call>, es: seq<int>, ms: seq<Msg>)
    requires Relays(calls, es, ms) && es != [] && calls != [] && calls[0].AddQuantifier?
    requires QuantifiersFirst(calls)
    ensures Relays(calls[1..], es[1..], ms[1..]) && ms[0] == Quantifier(es[0])
  {
  }

  /** The library after a pass with so many closed clauses, and what a prefix alone makes of
      it. */
  predicate Fed(h: HeaderData, l: L.Lib, m: L.Lib, closed: nat, literals: bool) {
    && l.header == h && l.writtenClauses == closed && l.writtenAssumptions == 0
    && l.universalDepth == m.universalDepth && l.writtenQuantifiers == m.writtenQuantifiers && m.header == h
    && (l.state == L.InputLiterals <==> literals)
    && (l.state == L.Input || l.state == L.InputLiterals)
  }

  lemma FedOne(h: HeaderData, l: L.Lib, m: L.Lib, closed: nat, literals: bool, c: Call)
    requires Fed(h, l, m, closed, literals)
    ensures if c.AddQuantifier? then Fed(h, L.Quantified(l, c.q), L.Quantified(m, c.q), closed, literals)
            else Fed(h, L.Added(l, c.l), m, closed + (if c.l == 0 then 1 else 0), true)
  {
  }

  predicate HasLiteral(calls: seq<Call>) { exists i :: 0 <= i < |calls| && calls[i].AddLit? }

  /** What the library holds after the second pass: all clauses counted, the prefix
      remembered. */
  lemma {:induction false} FedCounts(h: HeaderData, mode: bool, calls: seq<Call>)
    ensures var l, m := AfterCalls(L.Opened(h, mode), calls),
                        Quapify.QuantifyAll(L.Opened(h, mode), PrefixOf(calls));
            && l.header == h && l.writtenClauses == Acceptance.Closings(calls) && l.writtenAssumptions == 0
            && l.universalDepth == m.universalDepth && l.writtenQuantifiers == m.writtenQuantifiers && m.header == h
            && (l.state == L.InputLiterals <==> exists i :: 0 <= i < |calls| && calls[i].AddLit?)
            && (l.state == L.Input || l.state == L.InputLiterals)
  {
    FedAll(h, mode, calls);
    hide AfterCalls, Quapify.QuantifyAll, PrefixOf, Acceptance.Closings;
  }

  lemma {:induction false} FedAll(h: HeaderData, mode: bool, calls: seq<Call>)
    ensures Fed(h, AfterCalls(L.Opened(h, mode), calls), Quapify.QuantifyAll(L.Opened(h, mode), PrefixOf(calls)),
                Acceptance.Closings(calls), HasLiteral(calls))
    decreases |calls|
  {
    if calls == [] {
    } else {
      var p, c := calls[..|calls| - 1], calls[|calls| - 1];
      FedAll(h, mode, p);
      PrefixSnoc(calls);
      var l0 := L.Opened(h, mode);
      assert AfterCalls(l0, calls) ==
        if c.AddQuantifier? then L.Quantified(AfterCalls(l0, p), c.q) else L.Added(AfterCalls(l0, p), c.l);
      assert p + [c] == calls;
      Acceptance.CallAdded(p, c);
      QuantifiedNext(l0, PrefixOf(p), c);
      SomeLiteral(p, c);
      hide *;
      FedOne(h, AfterCalls(l0, p), Quapify.QuantifyAll(l0, PrefixOf(p)), Acceptance.Closings(p), HasLiteral(p), c);
    }
  }

  lemma SomeLiteral(p: seq<Call>, c: Call)
    ensures HasLiteral(p + [c]) <==> c.AddLit? || HasLiteral(p)
  {
    var calls := p + [c];
    assert calls[|p|] == c;
    assert forall i :: 0 <= i < |p| ==> p[i] == calls[i];
  }

  lemma QuantifiedNext(l: L.Lib, qs: seq<int>, c: Call)
    ensures c.AddQuantifier? ==> Quapify.QuantifyAll(l, qs + [c.q]) == L.Quantified(Quapify.QuantifyAll(l, qs), c.q)
  {
    if c.AddQuantifier? {
      assert (qs + [c.q])[..|qs|] == qs;
    }
  }

  // ----- the loop over the assumption list -----

  /** Where the loop is: the library's counters, the rounds solved with the assumptions
      made in each, those of the round under way, the index of the set, and whether the
      run was given up. */
  datatype Loop = Loop(lib: L.Lib, rounds: seq<seq<int>>, current: seq<int>, id: nat, failed: bool)

  /** One entry of the list.  A round that quapi_solve refuses stays open. */
  function Entry(s: Loop, a: int, selected: int, vars: nat, allowMissing: bool): Loop {
    if s.failed then s
    else if a != 0 then
      if selected != -1 && s.id != selected then s
      else if Abs(a) > vars || L.Refused(s.lib) then s.(failed := true)
      else s.(lib := L.OneMore(s.lib), current := s.current + [a])
    else if selected != -1 && s.id != selected then s.(id := s.id + 1)
    else if L.TooFewAssumptions(s.lib) && !allowMissing then s.(id := s.id + 1)
    else Loop(L.Solved(s.lib), s.rounds + [s.current], [], s.id + 1, false)
  }

  function Entries(s: Loop, ls: seq<int>, selected: int, vars: nat, allowMissing: bool): Loop {
    if ls == [] then s
    else Entry(Entries(s, ls[..|ls| - 1], selected, vars, allowMissing), ls[|ls| - 1], selected, vars, allowMissing)
  }

  function Begin(l: L.Lib): Loop { Loop(l, [], [], 0, false) }

  /** The loop of main, on the library's counters. */
  method AskRounds(l: L.Lib, ls: seq<int>, selected: int, vars: nat, allowMissing: bool)
    returns (lib: L.Lib, rounds: seq<seq<int>>, ok: bool)
    ensures var e := Entries(Begin(l), ls, selected, vars, allowMissing);
            lib == e.lib && rounds == e.rounds && ok == !e.failed
  {
    lib, rounds, ok := l, [], true;
    var i, id := 0, 0;
    var current: seq<int> := [];
    assert ls[..0] == [];
    while i < |ls|
      invariant i <= |ls|
      invariant Entries(Begin(l), ls[..i], selected, vars, allowMissing) == Loop(lib, rounds, current, id, false)
    {
      assert ls[..i + 1][..i] == ls[..i];
      if ls[i] != 0 {
        if selected == -1 || id == selected {
          if Abs(ls[i]) > vars || L.Refused(lib) {
            ok := false;
            GivenUp(Begin(l), ls, i + 1, selected, vars, allowMissing);
            return;
          }
          lib := L.OneMore(lib);
          current := current + [ls[i]];
        }
      } else {
        if (selected == -1 || id == selected) && (!L.TooFewAssumptions(lib) || allowMissing) {
          lib := L.Solved(lib);
          rounds := rounds + [current];
          current := [];
        }
        id := id + 1;
      }
      i := i + 1;
    }
    assert ls[..|ls|] == ls;
  }

  lemma {:induction false} GivenUp(s: Loop, ls: seq<int>, i: nat, selected: int, vars: nat, allowMissing: bool)
    requires i <= |ls| && Entries(s, ls[..i], selected, vars, allowMissing).failed
    ensures Entries(s, ls, selected, vars, allowMissing) == Entries(s, ls[..i], selected, vars, allowMissing)
    decreases |ls|
  {
    if i == |ls| {
      assert ls[..i] == ls;
    } else {
      var p := ls[..|ls| - 1];
      assert p[..i] == ls[..i];
      GivenUp(s, p, i, selected, vars, allowMissing);
    }
  }

  // ----- what is asked -----

  /** The sets that are to be asked. */
  function Chosen(sets: seq<seq<int>>, selected: int): seq<seq<int>> {
    if selected == -1 then sets else if 0 <= selected < |sets| then [sets[selected]] else []
  }

  lemma ChosenSnoc(sets: seq<seq<int>>, s: seq<int>, selected: int)
    ensures Chosen(sets + [s], selected) ==
            Chosen(sets, selected) + (if selected == -1 || selected == |sets| then [s] else [])
  {
  }

  /** Every set to be asked is long enough for the library's check. */
  predicate LongEnough(l: L.Lib, sets: seq<seq<int>>, allowMissing: bool) {
    allowMissing || forall i :: 0 <= i < |sets| ==> |sets[i]| >= l.universalDepth
  }

  /** Whether the set that comes after this part of the list is to be asked. */
  predicate On(ls: seq<int>, selected: int) { selected == -1 || selected == |Quapify.Sets(ls)| }

  /** Every literal to be assumed is over a variable of the clauses. */
  predicate Known(ls: seq<int>, selected: int, vars: nat) {
    ls == [] ||
    (var p, a := ls[..|ls| - 1], ls[|ls| - 1]; Known(p, selected, vars) && (On(p, selected) ==> Abs(a) <= vars))
  }

  /** The literals since the last 0. */
  function Pending(ls: seq<int>): seq<int> {
    Quapify.TailFits(ls);
    ls[|ls| - Odometer.Tail(ls)..]
  }

  /** The budget the library starts with. */
  predicate Opening(l: L.Lib, n: nat) {
    && l.writtenClauses == n && l.writtenAssumptions == 0
    && l.header.clauses >= n && l.header.prefixdepth >= 0
  }

  /** As long as no set is too short, the loop is where the list is, and the library's
      counters are where they were, up to the round under way. */
  predicate OnTrack(l: L.Lib, s: Loop, ls: seq<int>, selected: int) {
    var sets := Quapify.Sets(ls);
    && !s.failed && s.id == |sets| && s.rounds == Chosen(sets, selected)
    && s.current == (if On(ls, selected) then Pending(ls) else [])
    && s.lib.writtenAssumptions == |s.current| && s.lib.writtenClauses == l.writtenClauses + |s.current|
    && s.lib.header == l.header && s.lib.universalDepth == l.universalDepth
  }

  lemma SetsSnoc(ls: seq<int>)
    requires ls != []
    ensures var p, a := ls[..|ls| - 1], ls[|ls| - 1];
            Quapify.Sets(ls) == Quapify.Sets(p) + (if a == 0 then [Pending(p)] else [])
  {
    hide Odometer.Tail;
    NilRight(Quapify.Sets(ls[..|ls| - 1]));
  }

  lemma PendingSnoc(ls: seq<int>)
    requires ls != []
    ensures var p, a := ls[..|ls| - 1], ls[|ls| - 1];
            Pending(ls) == (if a == 0 then [] else Pending(p) + [a]) && |Pending(ls)| == Odometer.Tail(ls)
  {
    var p, a := ls[..|ls| - 1], ls[|ls| - 1];
    Quapify.TailFits(ls);
    Quapify.TailFits(p);
    var t, k := Odometer.Tail(ls), Odometer.Tail(p);
    assert t == if a == 0 then 0 else 1 + k;
    hide Odometer.Tail;
    if a != 0 {
      LastOf(ls, k);
    }
  }

  lemma LastOf(ls: seq<int>, k: nat)
    requires k < |ls|
    ensures var p := ls[..|ls| - 1]; ls[|ls| - (k + 1)..] == p[|p| - k..] + [ls[|ls| - 1]]
  {
  }

  lemma ListSnoc(ls: seq<int>)
    requires ls != []
    ensures var p, a := ls[..|ls| - 1], ls[|ls| - 1];
            && (a != 0 ==> Quapify.Sets(ls) == Quapify.Sets(p) && Pending(ls) == Pending(p) + [a])
            && (a == 0 ==> Quapify.Sets(ls) == Quapify.Sets(p) + [Pending(p)] && Pending(ls) == [])
            && |Pending(ls)| == Odometer.Tail(ls)
  {
    hide Quapify.Sets;
    SetsSnoc(ls);
    NilRight(Quapify.Sets(ls[..|ls| - 1]));
    PendingSnoc(ls);
  }

  lemma TrackZero(l: L.Lib, s: Loop, p: seq<int>, ls: seq<int>, selected: int, vars: nat, allow: bool)
    requires OnTrack(l, s, p, selected) && (On(p, selected) && !allow ==> |Pending(p)| >= l.universalDepth)
    requires Quapify.Sets(ls) == Quapify.Sets(p) + [Pending(p)] && Pending(ls) == []
    requires Chosen(Quapify.Sets(ls), selected) ==
             Chosen(Quapify.Sets(p), selected) + (if On(p, selected) then [Pending(p)] else [])
    ensures OnTrack(l, Entry(s, 0, selected, vars, allow), ls, selected)
  {
    hide Quapify.Sets, Pending, Chosen, Odometer.Tail;
    NilRight(Chosen(Quapify.Sets(p), selected));
  }

  lemma TrackStep(l: L.Lib, n: nat, s: Loop, p: seq<int>, ls: seq<int>, selected: int, vars: nat, allow: bool)
    requires ls != [] && p == ls[..|ls| - 1] && Opening(l, n) && OnTrack(l, s, p, selected)
    requires On(p, selected) ==> Abs(ls[|ls| - 1]) <= vars
    requires |Pending(ls)| <= l.header.clauses - n
    requires ls[|ls| - 1] == 0 && On(p, selected) && !allow ==> |Pending(p)| >= l.universalDepth
    ensures OnTrack(l, Entry(s, ls[|ls| - 1], selected, vars, allow), ls, selected)
  {
    hide Quapify.Sets, Pending, Chosen, Odometer.Tail;
    ListSnoc(ls);
    ChosenSnoc(Quapify.Sets(p), Pending(p), selected);
    NilRight(Chosen(Quapify.Sets(p), selected));
    if ls[|ls| - 1] == 0 { TrackZero(l, s, p, ls, selected, vars, allow); }
  }

  /** The loop stays on track up to the first set that is too short. */
  lemma {:induction false} StaysOnTrack(l: L.Lib, n: nat, ls: seq<int>, all: seq<int>, selected: int, vars: nat,
      allow: bool)
    requires Opening(l, n) && ls <= all && all != [] && all[|all| - 1] == 0 && Known(ls, selected, vars)
    requires l.header.clauses >= n + Odometer.Longest(all)
    requires LongEnough(l, Chosen(Quapify.Sets(ls), selected), allow)
    ensures OnTrack(l, Entries(Begin(l), ls, selected, vars, allow), ls, selected)
    decreases |ls|
  {
    if ls == [] {
      NothingListed();
      hide Quapify.Sets, Pending, Odometer.Longest;
    } else {
      hide Quapify.Sets, Odometer.Tail, Odometer.Longest, Pending, OnTrack, LongEnough, Entry;
      var p, a := ls[..|ls| - 1], ls[|ls| - 1];
      ListSnoc(ls);
      ChosenSnoc(Quapify.Sets(p), Pending(p), selected);
      hide Chosen;
      LongPrefix(l, Chosen(Quapify.Sets(p), selected), Chosen(Quapify.Sets(ls), selected), allow);
      StaysOnTrack(l, n, p, all, selected, vars, allow);
      TailWithin(ls, all);
      if a == 0 { LastLong(l, Chosen(Quapify.Sets(p), selected), Pending(p), On(p, selected), allow); }
      TrackStep(l, n, Entries(Begin(l), p, selected, vars, allow), p, ls, selected, vars, allow);
    }
  }

  lemma NothingListed()
    ensures Quapify.Sets([]) == [] && Pending([]) == []
  {
  }

  lemma LongPrefix(l: L.Lib, a: seq<seq<int>>, b: seq<seq<int>>, allow: bool)
    requires LongEnough(l, b, allow) && a <= b
    ensures LongEnough(l, a, allow)
  {
  }

  lemma LastLong(l: L.Lib, a: seq<seq<int>>, s: seq<int>, on: bool, allow: bool)
    requires LongEnough(l, a + (if on then [s] else []), allow)
    ensures on && !allow ==> |s| >= l.universalDepth
  {
    if on {
      assert (a + [s])[|a|] == s;
    }
  }

  /** What is pending in a list that ends closed is no longer than its longest set. */
  lemma {:induction false} TailWithin(ls: seq<int>, all: seq<int>)
    requires ls <= all && all != [] && all[|all| - 1] == 0
    ensures Odometer.Tail(ls) <= Odometer.Longest(all)
    decreases |all| - |ls|
  {
    if |ls| == |all| {
      assert ls == all;
    } else {
      var m := all[..|ls| + 1];
      assert m[..|ls|] == ls;
      if m[|ls|] == 0 {
        LongestGrows(m, all);
      } else {
        TailWithin(m, all);
      }
    }
  }

  lemma {:induction false} LongestGrows(ls: seq<int>, all: seq<int>)
    requires ls <= all
    ensures Odometer.Longest(ls) <= Odometer.Longest(all)
    decreases |all|
  {
    if |ls| == |all| {
      assert ls == all;
    } else {
      var p := all[..|all| - 1];
      assert ls <= p;
      LongestGrows(ls, p);
    }
  }

  /** A set that is too short is never asked by itself: its round stays open. */
  lemma {:induction false} TooShortLags(l: L.Lib, n: nat, ls: seq<int>, all: seq<int>, selected: int, vars: nat)
    requires Opening(l, n) && ls <= all && all != [] && all[|all| - 1] == 0
    requires l.header.clauses >= n + Odometer.Longest(all)
    requires !LongEnough(l, Chosen(Quapify.Sets(ls), selected), false)
    ensures var e := Entries(Begin(l), ls, selected, vars, false);
            e.failed || |e.rounds| < |Chosen(Quapify.Sets(ls), selected)|
    decreases |ls|
  {
    if ls == [] {
      NothingListed();
    } else {
      hide Quapify.Sets, Odometer.Tail, Odometer.Longest, Pending, Known, OnTrack, Entry, LongEnough;
      var p, a := ls[..|ls| - 1], ls[|ls| - 1];
      var s := Entries(Begin(l), p, selected, vars, false);
      var on := On(p, selected);
      ListSnoc(ls);
      ChosenSnoc(Quapify.Sets(p), Pending(p), selected);
      EntriesCounted(l, p, selected, vars, false);
      EntryRounds(s, a, selected, vars);
      var sets := Chosen(Quapify.Sets(p), selected);
      hide Chosen, Entries, Opening;
      if !LongEnough(l, sets, false) {
        TooShortLags(l, n, p, all, selected, vars);
      } else if !s.failed {
        NilRight(sets);
        ShortNow(l, sets, Pending(p), on, Chosen(Quapify.Sets(ls), selected));
        NotFailedKnown(l, p, selected, vars, false);
        StaysOnTrack(l, n, p, all, selected, vars, false);
        AtShort(l, s, p, selected);
      }
    }
  }

  lemma EntryRounds(s: Loop, a: int, selected: int, vars: nat)
    ensures var t := Entry(s, a, selected, vars, false);
            && (s.failed ==> t.failed)
            && (a != 0 || (selected != -1 && s.id != selected) ==> t.rounds == s.rounds)
            && |t.rounds| <= |s.rounds| + 1
            && (a == 0 && !s.failed && L.TooFewAssumptions(s.lib) ==> t.rounds == s.rounds)
  {
  }

  lemma AtShort(l: L.Lib, s: Loop, p: seq<int>, selected: int)
    requires OnTrack(l, s, p, selected) && On(p, selected) && |Pending(p)| < l.universalDepth
    ensures L.TooFewAssumptions(s.lib) && |s.rounds| == |Chosen(Quapify.Sets(p), selected)|
  {
    hide Chosen, Quapify.Sets, Pending;
  }

  lemma ShortNow(l: L.Lib, a: seq<seq<int>>, s: seq<int>, on: bool, b: seq<seq<int>>)
    requires LongEnough(l, a, false) && !LongEnough(l, b, false) && (b == a || b == a + (if on then [s] else []))
    ensures on && b == a + [s] && |s| < l.universalDepth
  {
    assert b != a;
    assert forall i :: 0 <= i < |a| ==> (a + [s])[i] == a[i];
  }

  lemma {:induction false} EntriesCounted(l: L.Lib, ls: seq<int>, selected: int, vars: nat, allow: bool)
    ensures var e := Entries(Begin(l), ls, selected, vars, allow); e.failed || e.id == |Quapify.Sets(ls)|
  {
    if ls == [] {
      NothingListed();
    } else {
      hide Quapify.Sets, Pending;
      ListSnoc(ls);
      EntriesCounted(l, ls[..|ls| - 1], selected, vars, allow);
    }
  }

  lemma {:induction false} NotFailedKnown(l: L.Lib, ls: seq<int>, selected: int, vars: nat, allow: bool)
    requires !Entries(Begin(l), ls, selected, vars, allow).failed
    ensures Known(ls, selected, vars)
  {
    if ls == [] {
    } else {
      var p := ls[..|ls| - 1];
      EntriesCounted(l, p, selected, vars, allow);
      hide Quapify.Sets;
      NotFailedKnown(l, p, selected, vars, allow);
    }
  }

  lemma EntriesSnoc(s: Loop, ls: seq<int>, a: int, selected: int, vars: nat, allow: bool)
    ensures Entries(s, ls + [a], selected, vars, allow) ==
              Entry(Entries(s, ls, selected, vars, allow), a, selected, vars, allow)
  {
    assert (ls + [a])[..|ls|] == ls;
  }

  lemma NoEntries(s: Loop, vars: nat)
    ensures Entries(s, [], -1, vars, false) == s
  {
  }

  lemma EntryAssumed(s: Loop, ls: seq<int>, a: int, vars: nat) returns (t: Loop)
    requires var e := Entries(s, ls, -1, vars, false); !e.failed && !L.Refused(e.lib)
    requires a != 0 && Abs(a) <= vars
    ensures var e := Entries(s, ls, -1, vars, false); t == e.(lib := L.OneMore(e.lib), current := e.current + [a])
    ensures Entries(s, ls + [a], -1, vars, false) == t
  {
    EntriesSnoc(s, ls, a, -1, vars, false);
    hide Entries;
    t := Entry(Entries(s, ls, -1, vars, false), a, -1, vars, false);
  }

  lemma EntryRefused(s: Loop, vars: nat)
    requires !s.failed && L.TooFewAssumptions(s.lib)
    ensures Entry(s, 0, -1, vars, false) == s.(id := s.id + 1)
  {
  }

  lemma EntrySolved(s: Loop, vars: nat)
    requires !s.failed && !L.TooFewAssumptions(s.lib)
    ensures Entry(s, 0, -1, vars, false).rounds == s.rounds + [s.current]
  {
  }

  /** A set that is too short, followed by a longer one: the round asked has the
      assumptions of both. */
  lemma ShortSetStays(l: L.Lib, vars: nat)
    requires l.universalDepth == 2 && l.writtenAssumptions == 0 && vars >= 3
    requires l.writtenClauses + 4 <= l.header.clauses + l.header.prefixdepth
    ensures Entries(Begin(l), [1, 0, 1, 2, 3, 0], -1, vars, false).rounds == [[1, 1, 2, 3]]
  {
    hide Entry, Entries;
    var s := Begin(l);
    NoEntries(s, vars);
    var a := EntryAssumed(s, [], 1, vars);
    EntriesSnoc(s, [1], 0, -1, vars, false);
    EntryRefused(a, vars);
    NilLeft([1]);
    var b := a.(id := 1);
    assert [1] + [0] == [1, 0];
    var c := EntryAssumed(s, [1, 0], 1, vars);
    var d := EntryAssumed(s, [1, 0] + [1], 2, vars);
    var e := EntryAssumed(s, [1, 0] + [1] + [2], 3, vars);
    EntriesSnoc(s, [1, 0] + [1] + [2] + [3], 0, -1, vars, false);
    EntrySolved(e, vars);
    assert [1, 0] + [1] + [2] + [3] + [0] == [1, 0, 1, 2, 3, 0];
    assert [1] + [1] + [2] + [3] == [1, 1, 2, 3];
  }

  // ----- the run -----

  lemma {:induction false} MatrixCount(calls: seq<Call>, open: seq<int>)
    ensures |MatrixOf(calls, open)| == Acceptance.Closings(calls)
    decreases |calls|
  {
    if calls == [] {
    } else {
      var c, t := calls[0], calls[1..];
      HeadTail(calls);
      ClosingsConcat([c], t);
      assert [c][..0] == [];
      MatrixCount(t, open);
      MatrixCount(t, []);
      if c.AddLit? { MatrixCount(t, open + [c.l]); }
      hide Acceptance.Closings;
    }
  }

  /** The library after quapify's second pass. */
  function Prepared(calls: seq<Call>, ls: seq<int>, pipes: HeaderData, mode: bool): L.Lib {
    var h := L.Announced(LargestVariable(calls), Acceptance.Closings(calls), Odometer.Longest(ls), pipes);
    AfterCalls(L.Opened(h, mode), calls)
  }

  /** A quapify run, exactly, for every formula and every closed list of assumptions: it
      goes through, asking one round per chosen set with exactly that set's assumptions,
      if and only if all of them are over variables of the clauses and no set is shorter
      than the position the library's check compares with. */
  lemma RunAsksEachSet(calls: seq<Call>, ls: seq<int>, selected: int, pipes: HeaderData, mode: bool, allow: bool)
    requires ls == [] || ls[|ls| - 1] == 0
    ensures var l, vars := Prepared(calls, ls, pipes, mode), LargestVariable(calls);
            var e, sets := Entries(Begin(l), ls, selected, vars, allow), Chosen(Quapify.Sets(ls), selected);
            !e.failed && e.rounds == sets <==> ClausesBounded(vars, sets) && LongEnough(l, sets, allow)
  {
    var l, vars := Prepared(calls, ls, pipes, mode), LargestVariable(calls);
    var n := Acceptance.Closings(calls);
    FedCounts(L.Announced(vars, n, Odometer.Longest(ls), pipes), mode, calls);
    KnownExact(ls, selected, vars);
    ClosedPending(ls);
    hide AfterCalls, Known, Quapify.Sets, Odometer.Longest, Acceptance.Closings, LargestVariable, ClausesBounded, Pending;
    if ls == [] {
      NothingListed();
      KnownNothing(selected, vars);
    } else {
      hide Chosen, Entries, LongEnough, OnTrack;
      if Known(ls, selected, vars) && LongEnough(l, Chosen(Quapify.Sets(ls), selected), allow) {
        StaysOnTrack(l, n, ls, ls, selected, vars, allow);
        TrackRounds(l, Entries(Begin(l), ls, selected, vars, allow), ls, selected);
      } else if !Entries(Begin(l), ls, selected, vars, allow).failed {
        NotFailedKnown(l, ls, selected, vars, allow);
        NotAllowed(l, Chosen(Quapify.Sets(ls), selected), allow);
        TooShortLags(l, n, ls, ls, selected, vars);
      }
    }
  }

  /** Known, without recursion: all chosen sets are over variables of the clauses, and so
      is what is pending if it will be chosen. */
  lemma {:induction false} KnownExact(ls: seq<int>, selected: int, vars: nat)
    ensures Known(ls, selected, vars) <==>
              ClausesBounded(vars, Chosen(Quapify.Sets(ls), selected)) &&
              (On(ls, selected) ==> Bounded(vars, Pending(ls)))
    decreases |ls|
  {
    if ls == [] {
      NothingListed();
      hide Quapify.Sets, Pending;
    } else {
      var p, a := ls[..|ls| - 1], ls[|ls| - 1];
      KnownExact(p, selected, vars);
      KnownStep(ls, selected, vars);
      ListSnoc(ls);
      ChosenSnoc(Quapify.Sets(p), Pending(p), selected);
      hide Known, Quapify.Sets, Pending, Chosen, ClausesBounded, Bounded;
      if a == 0 {
        BoundedSets(vars, Chosen(Quapify.Sets(p), selected), Pending(p));
        NilRight(Chosen(Quapify.Sets(p), selected));
        BoundedLiterals(vars, Pending(p), 0);
      } else {
        BoundedLiterals(vars, Pending(p), a);
      }
    }
  }

  lemma KnownStep(ls: seq<int>, selected: int, vars: nat)
    requires ls != []
    ensures var p, a := ls[..|ls| - 1], ls[|ls| - 1];
            Known(ls, selected, vars) <==> Known(p, selected, vars) && (On(p, selected) ==> Abs(a) <= vars)
  {
    hide Quapify.Sets;
  }

  lemma BoundedSets(vars: nat, sets: seq<seq<int>>, s: seq<int>)
    ensures ClausesBounded(vars, sets + [s]) <==> ClausesBounded(vars, sets) && Bounded(vars, s)
  {
    var all := sets + [s];
    assert all[|sets|] == s;
    assert forall i :: 0 <= i < |sets| ==> all[i] == sets[i];
  }

  lemma BoundedLiterals(vars: nat, s: seq<int>, a: int)
    ensures Bounded(vars, s + [a]) <==> Bounded(vars, s) && Abs(a) <= vars
    ensures Bounded(vars, [])
  {
    var all := s + [a];
    assert all[|s|] == a;
    assert forall i :: 0 <= i < |s| ==> all[i] == s[i];
  }

  lemma ClosedPending(ls: seq<int>)
    requires ls == [] || ls[|ls| - 1] == 0
    ensures Pending(ls) == []
  {
    if ls == [] { NothingListed(); } else { ListSnoc(ls); }
  }

  lemma KnownNothing(selected: int, vars: nat)
    ensures Known([], selected, vars) && Chosen([], selected) == []
  {
  }

  lemma NotAllowed(l: L.Lib, sets: seq<seq<int>>, allow: bool)
    requires !LongEnough(l, sets, allow)
    ensures !allow && !LongEnough(l, sets, false)
  {
  }

  lemma TrackRounds(l: L.Lib, s: Loop, ls: seq<int>, selected: int)
    requires OnTrack(l, s, ls, selected)
    ensures !s.failed && s.rounds == Chosen(Quapify.Sets(ls), selected)
  {
  }

  /** And then every round emits exactly the announced number of clauses. */
  lemma RoundsFillTheBudget(calls: seq<Call>, ls: seq<int>, selected: int, pipes: HeaderData, mode: bool,
      qs: seq<int>, i: nat)
    requires i < |Chosen(Quapify.Sets(ls), selected)|
    ensures var h, us := Prepared(calls, ls, pipes, mode).header, Chosen(Quapify.Sets(ls), selected)[i];
            && h.clauses == Acceptance.Closings(calls) + Odometer.Longest(ls)
            && |Padded(h, qs, MatrixOf(calls, []) + Units(us))| == h.clauses
  {
    var vars, n := LargestVariable(calls), Acceptance.Closings(calls);
    FedCounts(L.Announced(vars, n, Odometer.Longest(ls), pipes), mode, calls);
    Quapify.SetsBounded(ls);
    MatrixCount(calls, []);
    hide AfterCalls, Quapify.Sets, Odometer.Longest, MatrixOf;
  }

  // ----- integer-split runs -----

  /** A set written behind a closed list. */
  lemma {:induction false} SetAppended(ls: seq<int>, c: seq<int>)
    requires Odometer.Tail(ls) == 0 && NoZero(c)
    ensures Quapify.Sets(ls + c) == Quapify.Sets(ls) && Odometer.Tail(ls + c) == |c|
    ensures Odometer.Longest(ls + c) == Odometer.Longest(ls) && Pending(ls + c) == c
    decreases |c|
  {
    if c == [] {
      NilRight(ls);
      assert ls[|ls|..] == [];
    } else {
      var p, n := c[..|c| - 1], |c| - 1;
      SetAppended(ls, p);
      assert (ls + c)[..|ls + c| - 1] == ls + p;
      ListSnoc(ls + c);
      hide Quapify.Sets, Pending;
      assert p + [c[n]] == c;
    }
  }

  lemma SetClosed(ls: seq<int>, c: seq<int>)
    requires Odometer.Tail(ls) == 0 && NoZero(c)
    ensures Quapify.Sets(ls + c + [0]) == Quapify.Sets(ls) + [c] && Odometer.Tail(ls + c + [0]) == 0
    ensures Odometer.Longest(ls + c + [0]) == if |c| > Odometer.Longest(ls) then |c| else Odometer.Longest(ls)
  {
    SetAppended(ls, c);
    var all := ls + c + [0];
    assert all[..|all| - 1] == ls + c;
    ListSnoc(all);
    hide Quapify.Sets, Pending;
  }

  /** The first k cubes. */
  function CubesTo(vars: seq<int>, splits: seq<nat>, k: nat): seq<seq<int>>
    requires Cubes.TotalLength(splits) <= |vars| && forall i :: 0 <= i < |splits| ==> splits[i] > 0
  {
    seq(k, i requires 0 <= i < k => Cubes.Cube(vars, splits, Odometer.Tuple(splits, i)))
  }

  lemma NoCubes(vars: seq<int>, splits: seq<nat>)
    requires Cubes.TotalLength(splits) <= |vars| && forall i :: 0 <= i < |splits| ==> splits[i] > 0
    ensures var ls := Odometer.Listing(vars, splits, 0);
            Quapify.Sets(ls) == CubesTo(vars, splits, 0) && Odometer.Tail(ls) == 0 && Odometer.Longest(ls) == 0
  {
    NothingListed();
  }

  lemma ListingNext(vars: seq<int>, splits: seq<nat>, k: nat)
    requires Cubes.TotalLength(splits) <= |vars| && k > 0 && forall i :: 0 <= i < |splits| ==> splits[i] > 0
    ensures var c := Cubes.Cube(vars, splits, Odometer.Tuple(splits, k - 1));
            && Odometer.Listing(vars, splits, k) == Odometer.Listing(vars, splits, k - 1) + c + [0]
            && CubesTo(vars, splits, k) == CubesTo(vars, splits, k - 1) + [c]
  {
    hide Cubes.Cube, Odometer.Tuple;
  }

  lemma {:induction false} ListingSets(vars: seq<int>, splits: seq<nat>, k: nat)
    requires Cubes.TotalLength(splits) <= |vars| && forall i :: 0 <= i < |splits| ==> splits[i] > 0
    requires Cubes.NoZeroVars(vars) && Cubes.DistinctVars(vars)
    ensures var ls := Odometer.Listing(vars, splits, k);
            && Quapify.Sets(ls) == CubesTo(vars, splits, k) && Odometer.Tail(ls) == 0
            && Odometer.Longest(ls) == (if k == 0 then 0 else Cubes.TotalLength(splits))
    decreases k
  {
    hide Cubes.Cube, Odometer.Tuple, Odometer.Listing, Odometer.Longest, Odometer.Tail, Quapify.Sets, CubesTo;
    hide Cubes.TotalLength;
    if k == 0 {
      NoCubes(vars, splits);
    } else {
      var t := Odometer.Tuple(splits, k - 1);
      ListingNext(vars, splits, k);
      Cubes.CubeConsistent(vars, splits, t);
      Cubes.CubeVars(vars, splits, t);
      ListingSets(vars, splits, k - 1);
      SetClosed(Odometer.Listing(vars, splits, k - 1), Cubes.Cube(vars, splits, t));
    }
  }

  /** An integer-split run over the formula's own prefix asks every cube in a round of its
      own, as long as the cubes' variables occur in the clauses; no set is too short. */
  lemma SplitRunAsksEachCube(calls: seq<Call>, splits: seq<nat>, pipes: HeaderData, mode: bool, allow: bool)
    requires forall i :: 0 <= i < |splits| ==> splits[i] > 0
    requires var qs := PrefixOf(calls);
             NoZero(qs) && Cubes.DistinctVars(qs) && Cubes.TotalLength(splits) <= |qs| && Odometer.Product(splits) > 0
    ensures var qs, n := PrefixOf(calls), Odometer.Product(splits);
            var ls, vars := Odometer.Listing(qs, splits, n), LargestVariable(calls);
            var l := Prepared(calls, ls, pipes, mode);
            var e := Entries(Begin(l), ls, -1, vars, allow);
            && l.header.prefixdepth == Cubes.TotalLength(splits)
            && (!e.failed && e.rounds == CubesTo(qs, splits, n) <==> ClausesBounded(vars, CubesTo(qs, splits, n)))
  {
    var qs, n := PrefixOf(calls), Odometer.Product(splits);
    var ls, vars := Odometer.Listing(qs, splits, n), LargestVariable(calls);
    var l := Prepared(calls, ls, pipes, mode);
    var h := L.Announced(vars, Acceptance.Closings(calls), Odometer.Longest(ls), pipes);
    ListingSets(qs, splits, n);
    FedCounts(h, mode, calls);
    Quapify.RememberedDepth(h, mode, qs);
    ListingCloses(qs, splits, n);
    RunAsksEachSet(calls, ls, -1, pipes, mode, allow);
    CubesLong(l, qs, splits, n, allow);
    hide Prepared, Entries, ClausesBounded, Odometer.Listing, AfterCalls, Quapify.Sets, LongEnough;
  }

  lemma ListingCloses(vars: seq<int>, splits: seq<nat>, k: nat)
    requires forall i :: 0 <= i < |splits| ==> splits[i] > 0
    ensures var ls := Odometer.Listing(vars, splits, k); ls == [] || ls[|ls| - 1] == 0
  {
    hide Cubes.Cube, Odometer.Tuple;
  }

  lemma CubesLong(l: L.Lib, vars: seq<int>, splits: seq<nat>, k: nat, allow: bool)
    requires Cubes.TotalLength(splits) <= |vars| && forall i :: 0 <= i < |splits| ==> splits[i] > 0
    requires l.universalDepth <= Cubes.TotalLength(splits)
    ensures LongEnough(l, CubesTo(vars, splits, k), allow)
  {
    forall i | 0 <= i < k ensures |CubesTo(vars, splits, k)[i]| == Cubes.TotalLength(splits) {
      Cubes.CubeVars(vars, splits, Odometer.Tuple(splits, i));
    }
    hide Cubes.Cube, Odometer.Tuple;
  }
}
