/** The parser undoes the renderer: which rendered formulas each strictness
    accepts, and what is called back. */
module RoundTrip {
  import opened Numerals
  import opened Messages
  import opened Transducer
  import opened Render
  import opened Seqs
  import P = Parser

  // ----- numbers -----

  lemma {:induction false} RunOfDigits(d: string, r: string)
    requires AllDigits(d) && !P.Digits(r)
    ensures P.Run(d + r) == |d|
  {
    if d == "" {
      assert d + r == r;
    } else {
      assert (d + r)[1..] == d[1..] + r;
      RunOfDigits(d[1..], r);
    }
  }

  lemma DecToken(strict: P.Strictness, negative: bool, n: nat, c: char, r: string)
    requires n <= INT_MAX && (c == ' ' || c == '\n')
    ensures P.NumberToken(strict, negative, Dec(n) + [c] + r) == P.Number(if negative then -(n as int) else n, r)
  {
    var d, s := Dec(n), Dec(n) + [c] + r;
    hide Dec;
    assert s == d + ([c] + r);
    RunOfDigits(d, [c] + r);
    assert s[..|d|] == d && s[|d|..] == [c] + r;
    DecRoundTrip(n);
    hide P.Run, Value;
    assert ([c] + r)[1..] == r;
  }

  lemma NextDigits(strict: P.Strictness, s: string)
    requires P.Digits(s)
    ensures P.NextToken(strict, s) == P.NumberToken(strict, false, s)
  {
    hide P.NumberToken;
  }

  lemma NextMinus(strict: P.Strictness, s: string)
    requires P.Digits(s) && s[0] != '0'
    ensures P.NextToken(strict, "-" + s) == P.NumberToken(strict, true, s)
  {
    hide P.NumberToken;
    assert ("-" + s)[1..] == s;
  }

  lemma TextToken(strict: P.Strictness, l: int, r: string)
    requires IsLit(l) && l != 0
    ensures P.NextToken(strict, Text(l) + " " + r) == P.Number(l, r)
  {
    hide P.NumberToken, P.NextToken, Dec;
    var n := Abs(l);
    var s := Dec(n) + " " + r;
    DecRoundTrip(n);
    DecToken(strict, l < 0, n, ' ', r);
    assert s[0] == Dec(n)[0];
    if l < 0 {
      NextMinus(strict, s);
      assert Text(l) + " " + r == "-" + s;
    } else {
      NextDigits(strict, s);
    }
  }

  lemma ZeroToken(strict: P.Strictness, r: string)
    ensures P.NextToken(strict, "0\n" + r) == P.Number(0, r)
  {
    hide P.NumberToken, P.NextToken;
    DecToken(strict, false, 0, '\n', r);
    assert Dec(0) + "\n" + r == "0\n" + r;
    NextDigits(strict, "0\n" + r);
  }

  // ----- lines -----

  predicate Bounded(vars: int, ls: seq<int>) { forall i :: 0 <= i < |ls| ==> Abs(ls[i]) <= vars }

  predicate Literals(ls: seq<int>) { forall i :: 0 <= i < |ls| ==> IsLit(ls[i]) && ls[i] != 0 }

  /** What the parser calls back for one number inside the given block. */
  function CallOf(b: P.BlockKind, l: int): P.Call {
    if b == P.NoBlock then P.AddLit(l)
    else if b == P.ExistsBlock then P.AddQuantifier(Abs(l))
    else P.AddQuantifier(-(Abs(l) as int))
  }

  function CallsOf(b: P.BlockKind, ls: seq<int>): seq<P.Call> {
    if ls == [] then [] else [CallOf(b, ls[0])] + CallsOf(b, ls[1..])
  }

  /** The parser's state after a whole line. */
  function LineDone(st: P.State, ls: seq<int>): P.State {
    if st.block == P.NoBlock then P.State(P.NoBlock, st.parsed + 1, 0, st.calls + CallsOf(st.block, ls) + [P.AddLit(0)])
    else P.State(P.NoBlock, st.parsed, 0, st.calls + CallsOf(st.block, ls))
  }

  predicate LineFits(strict: P.Strictness, vars: nat, clauses: nat, ls: seq<int>, st: P.State) {
    strict == P.Relaxed || (Bounded(vars, ls) && st.parsed != clauses)
  }

  lemma BodyNumber(strict: P.Strictness, vars: nat, clauses: nat, l: int, r: string, st: P.State)
    requires IsLit(l)
    ensures var n := P.OnNumber(strict, vars, clauses, st, l);
            P.Body(strict, vars, clauses, (if l == 0 then "0\n" else Text(l) + " ") + r, st) ==
            if n.Fail? then (P.Rejected(n.error), st.calls) else P.Body(strict, vars, clauses, r, n.state)
  {
    if l == 0 {
      ZeroToken(strict, r);
    } else {
      TextToken(strict, l, r);
    }
    hide P.OnNumber, P.NextToken, Text;
  }

  lemma NoneOnLine(strict: P.Strictness, vars: nat, clauses: nat, st: P.State)
    ensures var n := P.OnNumber(strict, vars, clauses, st, 0);
            if LineFits(strict, vars, clauses, [], st) then n == P.Next(LineDone(st, [])) else n.Fail?
  {
    NilRight(st.calls);
  }

  /** The first number of a line, and the rest of it. */
  lemma OneOnLine(strict: P.Strictness, vars: nat, clauses: nat, ls: seq<int>, st: P.State)
    requires Literals(ls) && ls != []
    ensures var n := P.OnNumber(strict, vars, clauses, st, ls[0]);
            && (n.Fail? ==> !LineFits(strict, vars, clauses, ls, st))
            && (n.Next? ==>
                  && (LineFits(strict, vars, clauses, ls, st) <==> LineFits(strict, vars, clauses, ls[1..], n.state))
                  && LineDone(n.state, ls[1..]) == LineDone(st, ls))
  {
    assert st.calls + CallsOf(st.block, ls) == st.calls + [CallOf(st.block, ls[0])] + CallsOf(st.block, ls[1..]);
    assert forall i :: 1 <= i < |ls| ==> ls[i] == ls[1..][i - 1];
    hide CallsOf;
  }

  lemma {:induction false} BodyLine(strict: P.Strictness, vars: nat, clauses: nat, ls: seq<int>, r: string, st: P.State)
    requires Literals(ls)
    ensures var b := P.Body(strict, vars, clauses, Line(ls) + r, st);
            if LineFits(strict, vars, clauses, ls, st) then b == P.Body(strict, vars, clauses, r, LineDone(st, ls))
            else b.0.Rejected?
    decreases |ls|
  {
    hide P.Body, Text, Line, CallsOf, P.OnNumber;
    if ls == [] {
      NoMsgs();
      BodyNumber(strict, vars, clauses, 0, r, st);
      NoneOnLine(strict, vars, clauses, st);
    } else {
      var l, t := ls[0], ls[1..];
      HeadTail(ls);
      LineCons(l, t);
      Assoc(Text(l) + " ", Line(t), r);
      BodyNumber(strict, vars, clauses, l, Line(t) + r, st);
      var n := P.OnNumber(strict, vars, clauses, st, l);
      OneOnLine(strict, vars, clauses, ls, st);
      if n.Next? { BodyLine(strict, vars, clauses, t, r, n.state); }
    }
  }

  // ----- clauses -----

  predicate ClausesBounded(vars: int, cs: seq<seq<int>>) { forall i :: 0 <= i < |cs| ==> Bounded(vars, cs[i]) }

  predicate ClauseLiterals(cs: seq<seq<int>>) { forall i :: 0 <= i < |cs| ==> Literals(cs[i]) }

  function ClauseCalls(cs: seq<seq<int>>): seq<P.Call> {
    if cs == [] then [] else CallsOf(P.NoBlock, cs[0]) + [P.AddLit(0)] + ClauseCalls(cs[1..])
  }

  predicate ClausesFit(strict: P.Strictness, vars: nat, clauses: nat, cs: seq<seq<int>>, st: P.State) {
    strict == P.Relaxed || (ClausesBounded(vars, cs) && st.parsed + |cs| <= clauses)
  }

  function ClausesDone(st: P.State, cs: seq<seq<int>>): P.State {
    P.State(P.NoBlock, st.parsed + |cs|, 0, st.calls + ClauseCalls(cs))
  }

  /** Clause lines, whatever follows them. */
  lemma {:induction false} ClausesThen(
    strict: P.Strictness, vars: nat, clauses: nat, cs: seq<seq<int>>, r: string, st: P.State)
    requires ClauseLiterals(cs) && st.block == P.NoBlock && st.lit == 0 && (strict == P.Relaxed || st.parsed <= clauses)
    ensures var b := P.Body(strict, vars, clauses, Lines(cs) + r, st);
            if ClausesFit(strict, vars, clauses, cs, st)
            then b == P.Body(strict, vars, clauses, r, ClausesDone(st, cs)) else b.0.Rejected?
    decreases |cs|
  {
    hide P.Body, Line, CallsOf, Bounded, Literals;
    if cs == [] {
      NilLeft(r);
      NilRight(st.calls);
    } else {
      var t := Lines(cs[1..]);
      Assoc(Line(cs[0]), t, r);
      BodyLine(strict, vars, clauses, cs[0], t + r, st);
      assert ClausesBounded(vars, cs) <==> Bounded(vars, cs[0]) && ClausesBounded(vars, cs[1..]);
      if LineFits(strict, vars, clauses, cs[0], st) {
        var d := LineDone(st, cs[0]);
        ClausesThen(strict, vars, clauses, cs[1..], r, d);
        DoneCons(st, cs);
      }
    }
  }

  lemma DoneCons(st: P.State, cs: seq<seq<int>>)
    requires cs != [] && st.block == P.NoBlock
    ensures ClausesDone(LineDone(st, cs[0]), cs[1..]) == ClausesDone(st, cs)
  {
    var c, t := CallsOf(P.NoBlock, cs[0]), ClauseCalls(cs[1..]);
    hide CallsOf;
    Assoc(st.calls, c, [P.AddLit(0)]);
    Assoc(st.calls, c + [P.AddLit(0)], t);
  }

  /** Clause lines up to the end of the file. */
  lemma BodyClauses(strict: P.Strictness, vars: nat, clauses: nat, cs: seq<seq<int>>, st: P.State)
    requires ClauseLiterals(cs) && st.block == P.NoBlock && st.lit == 0 && (strict == P.Relaxed || st.parsed <= clauses)
    ensures var b := P.Body(strict, vars, clauses, Lines(cs), st);
            && (b.0.Accepted? <==> strict == P.Relaxed || (ClausesBounded(vars, cs) && st.parsed + |cs| == clauses))
            && (b.0.Accepted? ==> b.1 == st.calls + ClauseCalls(cs))
  {
    hide P.Body, Lines, ClauseCalls, ClausesBounded, ClauseLiterals;
    NilRight(Lines(cs));
    ClausesThen(strict, vars, clauses, cs, "", st);
    BodyEnd(strict, vars, clauses, ClausesDone(st, cs));
  }

  lemma BodyEnd(strict: P.Strictness, vars: nat, clauses: nat, st: P.State)
    ensures P.Body(strict, vars, clauses, "", st) == (P.Finish(strict, clauses, st), st.calls)
  {
  }

  // ----- quantifier blocks -----

  predicate BlockLiterals(bs: seq<Block>) { forall i :: 0 <= i < |bs| ==> Literals(bs[i].vars) }

  predicate BlocksBounded(vars: int, bs: seq<Block>) { forall i :: 0 <= i < |bs| ==> Bounded(vars, bs[i].vars) }

  function KindOf(existential: bool): P.BlockKind { if existential then P.ExistsBlock else P.ForallBlock }

  function BlockCalls(bs: seq<Block>): seq<P.Call> {
    if bs == [] then [] else CallsOf(KindOf(bs[0].existential), bs[0].vars) + BlockCalls(bs[1..])
  }

  lemma BodyOpen(strict: P.Strictness, vars: nat, clauses: nat, ex: bool, r: string, st: P.State)
    requires st.block == P.NoBlock
    ensures P.Body(strict, vars, clauses, Letter(ex) + r, st) ==
            P.Body(strict, vars, clauses, r, st.(block := KindOf(ex)))
  {
    assert (Letter(ex) + r)[2..] == r;
    assert P.NextToken(strict, Letter(ex) + r) == P.Open(ex, r);
    hide P.NextToken;
  }

  lemma NoText()
    ensures PrefixText([]) == "" && BlockCalls([]) == []
  {
  }

  lemma PrefixSplits(bs: seq<Block>, r: string)
    requires bs != []
    ensures PrefixText(bs) + r == Letter(bs[0].existential) + (Line(bs[0].vars) + (PrefixText(bs[1..]) + r))
    ensures BlockCalls(bs) == CallsOf(KindOf(bs[0].existential), bs[0].vars) + BlockCalls(bs[1..])
  {
    var l, v, t := Letter(bs[0].existential), Line(bs[0].vars), PrefixText(bs[1..]);
    hide Letter, Line, CallsOf;
    Assoc(l + v, t, r);
    Assoc(l, v, t + r);
  }

  lemma {:induction false} BodyPrefix(strict: P.Strictness, vars: nat, clauses: nat, bs: seq<Block>, r: string,
      st: P.State)
    requires BlockLiterals(bs) && st.block == P.NoBlock && st.lit == 0
    ensures var b := P.Body(strict, vars, clauses, PrefixText(bs) + r, st);
            if strict == P.Relaxed || bs == [] || (BlocksBounded(vars, bs) && st.parsed != clauses)
            then b == P.Body(strict, vars, clauses, r, st.(calls := st.calls + BlockCalls(bs)))
            else b.0.Rejected?
    decreases |bs|
  {
    hide P.Body, Line, CallsOf, Bounded, Literals, Letter, PrefixText, BlockCalls;
    if bs == [] {
      NoText();
      NilLeft(r);
      NilRight(st.calls);
    } else {
      var b := bs[0];
      var t := PrefixText(bs[1..]) + r;
      PrefixSplits(bs, r);
      BodyOpen(strict, vars, clauses, b.existential, Line(b.vars) + t, st);
      var o := st.(block := KindOf(b.existential));
      BodyLine(strict, vars, clauses, b.vars, t, o);
      assert BlocksBounded(vars, bs) <==> Bounded(vars, b.vars) && BlocksBounded(vars, bs[1..]);
      if LineFits(strict, vars, clauses, b.vars, o) {
        Assoc(st.calls, CallsOf(o.block, b.vars), BlockCalls(bs[1..]));
        BodyPrefix(strict, vars, clauses, bs[1..], r, LineDone(o, b.vars));
      }
    }
  }

  // ----- blocks against the quantifier sequence -----

  function QuantifierCalls(qs: seq<int>): seq<P.Call> {
    if qs == [] then []
    else (if qs[0] == 0 then [] else [P.AddQuantifier(qs[0])]) + QuantifierCalls(qs[1..])
  }

  predicate AllZero(qs: seq<int>) { forall i :: 0 <= i < |qs| ==> qs[i] == 0 }

  predicate AllLits(qs: seq<int>) { forall i :: 0 <= i < |qs| ==> IsLit(qs[i]) }

  lemma NoCalls(ex: bool, qs: seq<int>)
    ensures qs[..0] == [] && QuantifierCalls(qs) == CallsOf(KindOf(ex), AbsAll(qs[..0])) + QuantifierCalls(qs[0..])
  {
    assert AbsAll(qs[..0]) == [] && qs[0..] == qs;
    hide QuantifierCalls;
    NilLeft(QuantifierCalls(qs));
  }

  lemma AbsAllHead(qs: seq<int>, n: nat)
    requires 0 < n <= |qs|
    ensures AbsAll(qs[..n]) == [Abs(qs[0]) as int] + AbsAll(qs[1..][..n - 1])
  {
  }

  lemma CallsCons(b: P.BlockKind, l: int, ls: seq<int>)
    ensures CallsOf(b, [l] + ls) == [CallOf(b, l)] + CallsOf(b, ls)
  {
    Cons(l, ls);
  }

  lemma QuantifierCallsHead(qs: seq<int>)
    requires qs != [] && qs[0] != 0
    ensures QuantifierCalls(qs) == [P.AddQuantifier(qs[0])] + QuantifierCalls(qs[1..])
  {
  }

  lemma CallOfKind(q: int)
    ensures q > 0 ==> CallOf(KindOf(true), Abs(q)) == P.AddQuantifier(q)
    ensures q < 0 ==> CallOf(KindOf(false), Abs(q)) == P.AddQuantifier(q)
  {
  }

  lemma RunHead(qs: seq<int>, ex: bool, n: nat)
    requires 0 < n <= |qs| && qs[0] != 0 && (qs[0] > 0) == ex
    ensures CallsOf(KindOf(ex), AbsAll(qs[..n])) == [P.AddQuantifier(qs[0])]
            + CallsOf(KindOf(ex), AbsAll(qs[1..][..n - 1]))
  {
    hide *;
    CallOfKind(qs[0]);
    AbsAllHead(qs, n);
    CallsCons(KindOf(ex), Abs(qs[0]), AbsAll(qs[1..][..n - 1]));
  }

  lemma RunTail(qs: seq<int>, ex: bool)
    requires Run(ex, qs) > 0
    ensures qs != [] && qs[0] != 0 && (qs[0] > 0) == ex && Run(ex, qs) == 1 + Run(ex, qs[1..])
  {
  }

  lemma SliceTail(qs: seq<int>, n: nat)
    requires 0 < n <= |qs|
    ensures qs[1..][n - 1..] == qs[n..]
  {
  }

  /** A run of one kind is called back unchanged. */
  lemma {:induction false} RunCalls(qs: seq<int>, ex: bool, n: nat)
    requires n <= Run(ex, qs)
    ensures n <= |qs| && QuantifierCalls(qs) == CallsOf(KindOf(ex), AbsAll(qs[..n])) + QuantifierCalls(qs[n..])
  {
    hide *;
    if n == 0 {
      NoCalls(ex, qs);
    } else {
      RunTail(qs, ex);
      RunCalls(qs[1..], ex, n - 1);
      RunHead(qs, ex, n);
      QuantifierCallsHead(qs);
      SliceTail(qs, n);
      Assoc([P.AddQuantifier(qs[0])], CallsOf(KindOf(ex), AbsAll(qs[1..][..n - 1])), QuantifierCalls(qs[n..]));
    }
  }

  lemma {:induction false} RunNonzero(qs: seq<int>, ex: bool)
    ensures forall i :: 0 <= i < Run(ex, qs) ==> qs[i] != 0
  {
    if Run(ex, qs) == 0 {
    } else {
      RunNonzero(qs[1..], ex);
      forall i | 0 <= i < Run(ex, qs) ensures qs[i] != 0 {
        if i > 0 { assert qs[i] == qs[1..][i - 1]; }
      }
    }
  }

  /** A block is the first run of one kind; the rest follows it. */
  lemma BlocksHead(qs: seq<int>)
    requires qs != [] && qs[0] != 0
    ensures var n := Run(qs[0] > 0, qs);
            n > 0 && Blocks(qs) == [Block(qs[0] > 0, AbsAll(qs[..n]))] + Blocks(qs[n..])
  {
  }

  lemma BlocksSkip(qs: seq<int>)
    requires qs != [] && qs[0] == 0
    ensures Blocks(qs) == Blocks(qs[1..]) && QuantifierCalls(qs) == QuantifierCalls(qs[1..])
    ensures AllZero(qs) <==> AllZero(qs[1..])
    ensures AllLits(qs) <==> AllLits(qs[1..])
    ensures forall vars: nat :: Bounded(vars, qs) <==> Bounded(vars, qs[1..])
  {
    hide Blocks, QuantifierCalls;
    SkipFacts(qs);
    assert forall i :: 1 <= i < |qs| ==> qs[i] == qs[1..][i - 1];
  }

  lemma SkipFacts(qs: seq<int>)
    requires qs != [] && qs[0] == 0
    ensures Blocks(qs) == Blocks(qs[1..]) && QuantifierCalls(qs) == QuantifierCalls(qs[1..])
  {
    NilLeft(QuantifierCalls(qs[1..]));
  }

  lemma NoBlocks()
    ensures Blocks([]) == [] && BlockCalls([]) == [] && QuantifierCalls([]) == []
  {
  }

  lemma BlockCallsCons(b: Block, bs: seq<Block>)
    ensures BlockCalls([b] + bs) == CallsOf(KindOf(b.existential), b.vars) + BlockCalls(bs)
  {
    Cons(b, bs);
  }

  lemma {:induction false} BlocksCalls(qs: seq<int>)
    ensures BlockCalls(Blocks(qs)) == QuantifierCalls(qs)
    ensures Blocks(qs) == [] <==> AllZero(qs)
    decreases |qs|
  {
    hide Blocks, BlockCalls, Run, CallsOf, QuantifierCalls, AbsAll;
    if qs == [] {
      NoBlocks();
    } else if qs[0] == 0 {
      BlocksSkip(qs);
      BlocksCalls(qs[1..]);
    } else {
      var ex := qs[0] > 0;
      var n := Run(ex, qs);
      BlocksHead(qs);
      BlocksCalls(qs[n..]);
      RunCalls(qs, ex, n);
      BlockCallsCons(Block(ex, AbsAll(qs[..n])), Blocks(qs[n..]));
    }
  }

  lemma {:induction false} BlocksBounds(qs: seq<int>, vars: int)
    requires AllLits(qs) && vars >= 0
    ensures BlockLiterals(Blocks(qs))
    ensures BlocksBounded(vars, Blocks(qs)) <==> Bounded(vars, qs)
    decreases |qs|
  {
    hide Blocks, BlockCalls, Run, CallsOf, QuantifierCalls, AbsAll;
    if qs == [] {
      NoBlocks();
    } else if qs[0] == 0 {
      BlocksSkip(qs);
      BlocksBounds(qs[1..], vars);
    } else {
      var ex := qs[0] > 0;
      var n := Run(ex, qs);
      BlocksHead(qs);
      BlocksBounds(qs[n..], vars);
      RunNonzero(qs, ex);
      AbsLiterals(qs, n);
      BoundedSplit(vars, qs, n);
      hide Bounded, Literals;
      BlocksCons(vars, Block(ex, AbsAll(qs[..n])), Blocks(qs[n..]));
    }
  }

  lemma AbsLiterals(qs: seq<int>, n: nat)
    requires n <= |qs| && AllLits(qs)
    requires forall i :: 0 <= i < n ==> qs[i] != 0
    ensures Literals(AbsAll(qs[..n]))
  {
    var a := AbsAll(qs[..n]);
    forall i | 0 <= i < |a| ensures IsLit(a[i]) && a[i] != 0 {
      assert a[i] == Abs(qs[..n][i]);
    }
  }

  lemma BlocksCons(vars: int, b: Block, bs: seq<Block>)
    ensures BlocksBounded(vars, [b] + bs) <==> Bounded(vars, b.vars) && BlocksBounded(vars, bs)
    ensures BlockLiterals([b] + bs) <==> Literals(b.vars) && BlockLiterals(bs)
  {
    assert ([b] + bs)[0] == b && ([b] + bs)[1..] == bs;
    hide Bounded, Literals;
    assert forall i :: 0 <= i < |bs| ==> ([b] + bs)[i + 1] == bs[i];
  }

  lemma BoundedSplit(vars: int, qs: seq<int>, n: nat)
    requires n <= |qs|
    ensures Bounded(vars, qs) <==> Bounded(vars, AbsAll(qs[..n])) && Bounded(vars, qs[n..])
  {
    var a, z := AbsAll(qs[..n]), qs[n..];
    assert forall i :: 0 <= i < n ==> a[i] == Abs(qs[i]);
    assert forall i :: n <= i < |qs| ==> qs[i] == z[i - n];
  }

  // ----- header -----

  lemma CountText(n: nat, c: char, r: string)
    requires n <= INT_MAX && !IsDigit(c)
    ensures var s := Dec(n) + [c] + r;
            var k := P.Run(s);
            k > 0 && Value(s[..k]) == n && s[k..] == [c] + r
    ensures forall strict :: P.Blanks(strict, Dec(n) + [c] + r) == Dec(n) + [c] + r
  {
    var d, s := Dec(n), Dec(n) + [c] + r;
    assert s[0] == d[0];
    hide Dec;
    assert s == d + ([c] + r);
    RunOfDigits(d, [c] + r);
    assert s[..|d|] == d && s[|d|..] == [c] + r;
    DecRoundTrip(n);
  }

  lemma HeaderText(h: HeaderData, body: string)
    requires 0 <= h.literals && 0 <= h.clauses
    ensures HeaderLine(h) + body == "p cnf " + (Dec(h.literals) + " " + (Dec(h.clauses) + "\n" + body))
  {
    hide Dec;
    var l, c := Dec(h.literals), Dec(h.clauses);
    calc {
      HeaderLine(h) + body;
      "p cnf " + l + " " + c + "\n" + body;
      { Assoc("p cnf " + l + " " + c, "\n", body); Assoc("p cnf " + l + " ", c, "\n" + body); Assoc(c, "\n", body); }
      "p cnf " + l + " " + (c + "\n" + body);
      { Assoc("p cnf " + l, " ", c + "\n" + body); Assoc("p cnf ", l, " " + (c + "\n" + body)); }
      "p cnf " + (l + (" " + (c + "\n" + body)));
      { Assoc(l, " ", c + "\n" + body); }
      "p cnf " + (l + " " + (c + "\n" + body));
    }
  }

  /** The parts of a header one after the other. */
  lemma HeaderThenBody(strict: P.Strictness, file: string, a: string, b: string, c: string, body: string, vars: nat,
                       clauses: nat)
    requires P.FindHeader(strict, file, true) == P.At(a) && P.FormatName(strict, a) == P.At(b)
    requires P.VariableCount(strict, b) == P.Count(vars, c) && P.ClauseCount(strict, c) == P.Count(clauses, body)
    ensures P.Parse(strict, file) == P.Body(strict, vars, clauses, body, P.START)
  {
    hide P.FindHeader, P.FormatName, P.VariableCount, P.ClauseCount, P.Body;
  }

  lemma ParseHeader(strict: P.Strictness, h: HeaderData, body: string)
    requires 0 <= h.literals <= INT_MAX && 0 <= h.clauses <= INT_MAX
    ensures P.Parse(strict, HeaderLine(h) + body) == P.Body(strict, h.literals, h.clauses, body, P.START)
  {
    hide P.Parse, P.Body, P.FindHeader, P.FormatName, P.VariableCount, P.ClauseCount, P.Blanks, P.Run, Value, Dec,
         HeaderLine;
    var c := Dec(h.clauses) + "\n" + body;
    var v := Dec(h.literals) + " " + c;
    HeaderText(h, body);
    FindsHeader(strict, v);
    FindsFormat(strict, v);
    CountText(h.literals, ' ', c);
    CountText(h.clauses, '\n', body);
    ParsesVariableCount(strict, h.literals, c);
    ParsesClauseCount(strict, h.clauses, body);
    HeaderThenBody(strict, "p cnf " + v, " cnf " + v, v, c, body, h.literals, h.clauses);
  }

  lemma FindsHeader(strict: P.Strictness, v: string)
    ensures P.FindHeader(strict, "p cnf " + v, true) == P.At(" cnf " + v)
  {
    assert ("p cnf " + v)[1..] == " cnf " + v;
  }

  lemma FindsFormat(strict: P.Strictness, v: string)
    ensures P.FormatName(strict, " cnf " + v) == P.At(P.Blanks(strict, v))
  {
    var t := "cnf " + v;
    assert (" cnf " + v)[1..] == t;
    assert P.Blanks(strict, t) == t;
    hide P.Blanks;
    assert t[1..] == "nf " + v && t[2..] == "f " + v && t[3..] == " " + v && t[4..] == v;
  }

  lemma AfterCount(strict: P.Strictness, n: nat, r: string)
    ensures P.AfterMaxVar(strict, n, " " + r) == P.Count(n, P.Blanks(strict, r))
    ensures P.EndOfHeader(n, P.Blanks(strict, "\n" + r)) == P.Count(n, r)
  {
    assert (" " + r)[1..] == r && ("\n" + r)[1..] == r;
    assert P.Blanks(strict, "\n" + r) == "\n" + r;
    hide P.Blanks;
  }

  lemma ParsesVariableCount(strict: P.Strictness, n: nat, r: string)
    requires n <= INT_MAX
    ensures P.VariableCount(strict, Dec(n) + " " + r) == P.Count(n, P.Blanks(strict, r))
  {
    hide Dec, P.Run, Value, P.Blanks, P.AfterMaxVar;
    CountText(n, ' ', r);
    AfterCount(strict, n, r);
  }

  lemma ParsesClauseCount(strict: P.Strictness, n: nat, r: string)
    requires n <= INT_MAX
    ensures P.ClauseCount(strict, Dec(n) + "\n" + r) == P.Count(n, r)
  {
    hide Dec, P.Run, Value, P.Blanks, P.EndOfHeader;
    CountText(n, '\n', r);
    AfterCount(strict, n, r);
  }

  // ----- the formula -----

  /** Everything a rendered formula makes the parser call back: its quantifiers
      without zeros, then its literals, a 0 after each clause. */
  function FormulaCalls(h: HeaderData, qs: seq<int>, cs: seq<seq<int>>): seq<P.Call> {
    QuantifierCalls(qs) + ClauseCalls(Padded(h, qs, cs))
  }

  predicate WellFormed(h: HeaderData, qs: seq<int>, cs: seq<seq<int>>) {
    0 <= h.literals <= INT_MAX && 0 <= h.clauses <= INT_MAX && AllLits(qs) && ClauseLiterals(cs)
  }

  /** Round trip: a rendered formula is accepted exactly if parsing is relaxed, or
      no variable exceeds the announced maximum, the clauses do not exceed the
      announced count, and that count is positive when there are quantifiers; and
      then the callbacks are its quantifiers and its literals. */
  lemma ParseRendered(strict: P.Strictness, h: HeaderData, qs: seq<int>, cs: seq<seq<int>>)
    requires WellFormed(h, qs, cs)
    ensures var p := P.Parse(strict, Formula(h, qs, cs));
            && (p.0.Accepted? <==>
                  strict == P.Relaxed ||
                  (Bounded(h.literals, qs) && ClausesBounded(h.literals, cs) && |cs| <= h.clauses &&
                   (h.clauses > 0 || AllZero(qs))))
            && (p.0.Accepted? ==> p.1 == FormulaCalls(h, qs, cs))
  {
    hide P.Parse, P.Body, Lines, PrefixText, Blocks, HeaderLine, Bounded, Literals, QuantifierCalls, ClauseCalls;
    var full := Padded(h, qs, cs);
    var bs := Blocks(qs);
    ParseHeader(strict, h, PrefixText(bs) + Lines(full));
    assert Formula(h, qs, cs) == HeaderLine(h) + (PrefixText(bs) + Lines(full));
    BlocksCalls(qs);
    BlocksBounds(qs, h.literals);
    BodyPrefix(strict, h.literals, h.clauses, bs, Lines(full), P.START);
    assert P.START.calls + BlockCalls(bs) == BlockCalls(bs);
    PaddedFacts(h, qs, cs);
    BodyClauses(strict, h.literals, h.clauses, full, P.START.(calls := BlockCalls(bs)));
  }

  /** Whether the parser gets past the blocks and the first clauses of a text. */
  predicate BaseFits(strict: P.Strictness, h: HeaderData, qs: seq<int>, cs: seq<seq<int>>) {
    strict == P.Relaxed ||
    ((AllZero(qs) || (Bounded(h.literals, qs) && h.clauses > 0)) && ClausesBounded(h.literals, cs) && |cs| <= h.clauses)
  }

  /** What is parsed after the header, the blocks and some clauses. */
  lemma ParseThen(strict: P.Strictness, h: HeaderData, qs: seq<int>, cs: seq<seq<int>>, r: string)
    requires WellFormed(h, qs, cs)
    ensures var p := P.Parse(strict, HeaderLine(h) + PrefixText(Blocks(qs)) + Lines(cs) + r);
            if BaseFits(strict, h, qs, cs)
            then p == P.Body(strict, h.literals, h.clauses, r,
                             P.State(P.NoBlock, |cs|, 0, QuantifierCalls(qs) + ClauseCalls(cs)))
            else p.0.Rejected?
  {
    hide P.Parse, P.Body, Lines, PrefixText, Blocks, HeaderLine, Bounded, Literals, QuantifierCalls, ClauseCalls;
    var bs := Blocks(qs);
    Assoc(HeaderLine(h) + PrefixText(bs), Lines(cs), r);
    Assoc(HeaderLine(h), PrefixText(bs), Lines(cs) + r);
    ParseHeader(strict, h, PrefixText(bs) + (Lines(cs) + r));
    BlocksCalls(qs);
    BlocksBounds(qs, h.literals);
    BodyPrefix(strict, h.literals, h.clauses, bs, Lines(cs) + r, P.START);
    NilLeft(BlockCalls(bs));
    ClausesThen(strict, h.literals, h.clauses, cs, r, P.START.(calls := BlockCalls(bs)));
  }

  lemma PaddedFacts(h: HeaderData, qs: seq<int>, cs: seq<seq<int>>)
    requires WellFormed(h, qs, cs)
    ensures ClauseLiterals(Padded(h, qs, cs))
    ensures |Padded(h, qs, cs)| == if |cs| < h.clauses then h.clauses else |cs|
    ensures Bounded(h.literals, qs) ==>
              (ClausesBounded(h.literals, Padded(h, qs, cs)) <==> ClausesBounded(h.literals, cs))
  {
    var f := FillerClause(h.literals, qs);
    assert Literals(f);
    assert Bounded(h.literals, qs) ==> Bounded(h.literals, f);
    hide FillerClause;
    var full := Padded(h, qs, cs);
    assert forall i :: 0 <= i < |cs| ==> full[i] == cs[i];
    assert forall i :: |cs| <= i < |full| ==> full[i] == f;
  }
}
