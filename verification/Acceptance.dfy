/** What acceptance by the parser means, for every file. */
module Acceptance {
  import opened Numerals
  import opened Messages
  import opened Transducer
  import opened RoundTrip
  import opened Parser
  import opened Seqs

  // ----- accepted files are complete -----

  predicate InBounds(calls: seq<Call>, vars: nat) {
    forall i :: 0 <= i < |calls| ==> Abs(if calls[i].AddLit? then calls[i].l else calls[i].q) <= vars
  }

  /** The clauses closed. */
  function Closings(calls: seq<Call>): nat {
    if calls == [] then 0 else Closings(calls[..|calls| - 1]) + (if calls[|calls| - 1] == AddLit(0) then 1 else 0)
  }

  /** No clause is left open, and no quantifier follows the last clause. */
  predicate Finished(calls: seq<Call>) { calls == [] || calls[|calls| - 1] == AddLit(0) }

  /** What the clause loop keeps when it checks against the header. */
  predicate Checked(st: State, vars: nat, clauses: nat) {
    && InBounds(st.calls, vars) && Closings(st.calls) == st.parsed <= clauses
    && (st.parsed == clauses ==> st.lit != 0 || Finished(st.calls))
  }

  lemma CallAdded(calls: seq<Call>, c: Call)
    ensures Closings(calls + [c]) == Closings(calls) + (if c == AddLit(0) then 1 else 0)
    ensures forall vars: nat ::
              InBounds(calls, vars) && Abs(if c.AddLit? then c.l else c.q) <= vars ==> InBounds(calls + [c], vars)
  {
    assert (calls + [c])[..|calls|] == calls;
  }

  lemma NumberKeeps(strict: Strictness, vars: nat, clauses: nat, st: State, l: int)
    requires strict != Relaxed && Checked(st, vars, clauses) && OnNumber(strict, vars, clauses, st, l).Next?
    ensures Checked(OnNumber(strict, vars, clauses, st, l).state, vars, clauses)
  {
    hide Closings, InBounds;
    CallAdded(st.calls, AddLit(l));
    CallAdded(st.calls, AddQuantifier(Abs(l)));
    CallAdded(st.calls, AddQuantifier(-(Abs(l) as int)));
  }

  lemma {:induction false} BodyComplete(strict: Strictness, vars: nat, clauses: nat, s: string, st: State)
    requires strict != Relaxed && Checked(st, vars, clauses)
    ensures var (outcome, calls) := Body(strict, vars, clauses, s, st);
            outcome.Accepted? ==> InBounds(calls, vars) && Closings(calls) == clauses && Finished(calls)
    decreases |s|
  {
    hide Closings, InBounds, NextToken, OnNumber, Finished;
    TokenShrinks(strict, s);
    var t := NextToken(strict, s);
    if t.Skip? {
      BodyComplete(strict, vars, clauses, t.rest, st);
    } else if t.Open? {
      if st.block == NoBlock {
        BodyComplete(strict, vars, clauses, t.rest, st.(block := if t.existential then ExistsBlock else ForallBlock));
      }
    } else if t.Number? {
      var n := OnNumber(strict, vars, clauses, st, t.lit);
      if n.Next? {
        NumberKeeps(strict, vars, clauses, st, t.lit);
        BodyComplete(strict, vars, clauses, t.rest, n.state);
      }
    }
  }

  /** The counts of the header line and the text after it; none of it if there is none. */
  function HeaderOf(strict: Strictness, file: string): (nat, nat, string) {
    var h := FindHeader(strict, file, true);
    if h.Stop? then (0, 0, "")
    else
      var f := FormatName(strict, h.rest);
      if f.Stop? then (0, 0, "")
      else
        var v := VariableCount(strict, f.rest);
        if v.NoCount? then (0, 0, "")
        else
          var c := ClauseCount(strict, v.rest);
          if c.NoCount? then (0, 0, "") else (v.value, c.value, c.rest)
  }

  lemma AcceptedBody(strict: Strictness, file: string)
    requires Parse(strict, file).0.Accepted?
    ensures var (vars, clauses, rest) := HeaderOf(strict, file);
            Parse(strict, file) == Body(strict, vars, clauses, rest, START)
  {
    hide FindHeader, FormatName, VariableCount, ClauseCount, Body;
  }

  /** For every file and both modes that check: acceptance means that all variables
      called back are at most the announced maximum, exactly the announced number of
      clauses was closed, and nothing is left over. */
  lemma AcceptedComplete(strict: Strictness, file: string)
    requires strict != Relaxed && Parse(strict, file).0.Accepted?
    ensures var (vars, clauses, _) := HeaderOf(strict, file);
            var calls := Parse(strict, file).1;
            InBounds(calls, vars) && Closings(calls) == clauses && Finished(calls)
  {
    AcceptedBody(strict, file);
    var (vars, clauses, rest) := HeaderOf(strict, file);
    hide Parse, HeaderOf, Body;
    BodyComplete(strict, vars, clauses, rest, START);
  }

  // ----- clauses left open -----

  /** The last literal called back for a clause; 0 if there is none. */
  function LastClauseCall(calls: seq<Call>): int {
    if calls == [] then 0
    else if calls[|calls| - 1].AddLit? then calls[|calls| - 1].l
    else LastClauseCall(calls[..|calls| - 1])
  }

  /** A clause has been begun and not been closed. */
  predicate LeftOpen(calls: seq<Call>) { LastClauseCall(calls) != 0 }

  lemma LastCallAdded(calls: seq<Call>, c: Call)
    ensures LastClauseCall(calls + [c]) == if c.AddLit? then c.l else LastClauseCall(calls)
  {
    assert (calls + [c])[..|calls|] == calls;
  }

  /** Whether, in what is left of the file, a quantifier block closes while a clause is
      open and no number of a clause follows; hit says that one has so far. */
  predicate Interrupted(strict: Strictness, s: string, block: BlockKind, open: bool, hit: bool)
    decreases |s|
  {
    TokenShrinks(strict, s);
    match NextToken(strict, s)
    case Skip(rest) => Interrupted(strict, rest, block, open, hit)
    case End => hit
    case Open(ex, rest) => Interrupted(strict, rest, if ex then ExistsBlock else ForallBlock, open, hit)
    case Number(l, rest) =>
      if block == NoBlock then Interrupted(strict, rest, NoBlock, l != 0, false)
      else if l == 0 then Interrupted(strict, rest, NoBlock, open, hit || open)
      else Interrupted(strict, rest, block, open, hit)
    case Bad(_) => hit
  }

  /** The clause loop, exactly: acceptance leaves a clause open if and only if the scan
      finds it interrupted. */
  lemma {:induction false} BodyLeavesOpen(strict: Strictness, vars: nat, clauses: nat, s: string, st: State, hit: bool)
    requires (hit ==> LeftOpen(st.calls)) && (LeftOpen(st.calls) && !hit ==> st.lit != 0)
    ensures var (outcome, calls) := Body(strict, vars, clauses, s, st);
            outcome.Accepted? ==> (LeftOpen(calls) <==> Interrupted(strict, s, st.block, LeftOpen(st.calls), hit))
    decreases |s|
  {
    hide NextToken, LastClauseCall;
    TokenShrinks(strict, s);
    var t := NextToken(strict, s);
    if t.Skip? {
      BodyLeavesOpen(strict, vars, clauses, t.rest, st, hit);
    } else if t.Open? {
      if st.block == NoBlock {
        var block := if t.existential then ExistsBlock else ForallBlock;
        BodyLeavesOpen(strict, vars, clauses, t.rest, st.(block := block), hit);
      }
    } else if t.Number? {
      var n := OnNumber(strict, vars, clauses, st, t.lit);
      if n.Next? {
        LastCallAdded(st.calls, AddLit(t.lit));
        LastCallAdded(st.calls, AddQuantifier(Abs(t.lit)));
        LastCallAdded(st.calls, AddQuantifier(-(Abs(t.lit) as int)));
        var now := if st.block == NoBlock then false else if t.lit == 0 then hit || LeftOpen(st.calls) else hit;
        BodyLeavesOpen(strict, vars, clauses, t.rest, n.state, now);
      }
    }
  }

  /** Unfinished clauses, exactly, for every accepted file in every mode: the callbacks
      leave a clause open if and only if, after the header, a quantifier block closes
      while a clause is open and no number of a clause follows. */
  lemma UnfinishedExact(strict: Strictness, file: string)
    requires Parse(strict, file).0.Accepted?
    ensures LeftOpen(Parse(strict, file).1) <==> Interrupted(strict, HeaderOf(strict, file).2, NoBlock, false, false)
  {
    AcceptedBody(strict, file);
    var (vars, clauses, rest) := HeaderOf(strict, file);
    hide Parse, HeaderOf, Body, Interrupted;
    BodyLeavesOpen(strict, vars, clauses, rest, START, false);
  }

  /** The modes that check never leave a clause open. */
  lemma CheckedFinishes(strict: Strictness, file: string)
    requires strict != Relaxed && Parse(strict, file).0.Accepted?
    ensures !LeftOpen(Parse(strict, file).1)
    ensures !Interrupted(strict, HeaderOf(strict, file).2, NoBlock, false, false)
  {
    AcceptedComplete(strict, file);
    UnfinishedExact(strict, file);
    hide Parse, Interrupted;
  }

  /** Relaxed mode does: a clause interrupted by a quantifier block is accepted without
      its 0. */
  lemma RelaxedUnfinished(h: HeaderData)
    requires h.literals == 0 && h.clauses == 0
    ensures var (outcome, calls) := Parse(Relaxed, HeaderLine(h) + ("1 " + ("e " + ("2 " + ("0\n" + "")))));
            outcome.Accepted? && calls == [AddLit(1), AddQuantifier(2)] && LeftOpen(calls)
  {
    hide HeaderLine, Body, Text, Dec;
    ParseHeader(Relaxed, h, "1 " + ("e " + ("2 " + ("0\n" + ""))));
    OneAndTwo();
    BodyNumber(Relaxed, 0, 0, 1, "e " + ("2 " + ("0\n" + "")), START);
    NilLeft([AddLit(1)]);
    var st := State(NoBlock, 0, 1, [AddLit(1)]);
    BodyOpen(Relaxed, 0, 0, true, "2 " + ("0\n" + ""), st);
    st := st.(block := ExistsBlock);
    BodyNumber(Relaxed, 0, 0, 2, "0\n" + "", st);
    assert [AddLit(1)] + [AddQuantifier(2)] == [AddLit(1), AddQuantifier(2)];
    st := State(ExistsBlock, 0, 2, [AddLit(1), AddQuantifier(2)]);
    BodyNumber(Relaxed, 0, 0, 0, "", st);
    BodyEnd(Relaxed, 0, 0, st.(block := NoBlock, lit := 0));
    LastCallAdded([AddLit(1)], AddQuantifier(2));
    LastCallAdded([], AddLit(1));
    NilLeft([AddLit(1)]);
  }

  lemma OneAndTwo()
    ensures Text(1) + " " == "1 " && Text(2) + " " == "2 "
  {
    assert Dec(1) == "1" && Dec(2) == "2";
  }

  // ----- stricter modes accept less and call back the same -----

  /** The mode a accepts no more than b. */
  predicate Stricter(a: Strictness, b: Strictness) { a == b || a == Pedantic || b == Relaxed }

  lemma NoBlanks(s: string)
    requires !Blank(s)
    ensures SkipBlanks(s) == s
  {
  }

  lemma {:induction false} HeaderFound(a: Strictness, b: Strictness, s: string, first: bool)
    requires Stricter(a, b) && FindHeader(a, s, first).At?
    ensures FindHeader(b, s, first) == FindHeader(a, s, first)
    decreases |s|
  {
    if s != "" && s[0] == '\r' {
      HeaderFound(a, b, AfterReturn(s[1..]).rest, false);
    } else if s != "" && s[0] == '\n' {
      HeaderFound(a, b, s[1..], false);
    } else if s != "" && s[0] == 'c' {
      HeaderCommentShrinks(s[1..]);
      HeaderFound(a, b, HeaderComment(s[1..]).rest, false);
    }
  }

  lemma TokenSame(a: Strictness, b: Strictness, s: string)
    requires Stricter(a, b) && !NextToken(a, s).Bad?
    ensures NextToken(b, s) == NextToken(a, s)
  {
    hide AfterLine, Value, Parser.Run;
  }

  lemma {:induction false} BodySame(a: Strictness, b: Strictness, vars: nat, clauses: nat, s: string, st: State)
    requires Stricter(a, b) && Body(a, vars, clauses, s, st).0.Accepted?
    ensures Body(b, vars, clauses, s, st) == Body(a, vars, clauses, s, st)
    decreases |s|
  {
    hide NextToken;
    TokenShrinks(a, s);
    var t := NextToken(a, s);
    assert !t.Bad?;
    TokenSame(a, b, s);
    if t.Skip? {
      BodySame(a, b, vars, clauses, t.rest, st);
    } else if t.Open? {
      BodySame(a, b, vars, clauses, t.rest, st.(block := if t.existential then ExistsBlock else ForallBlock));
    } else if t.Number? {
      BodySame(a, b, vars, clauses, t.rest, OnNumber(a, vars, clauses, st, t.lit).state);
    }
  }

  lemma FormatSame(a: Strictness, b: Strictness, s: string)
    requires Stricter(a, b) && FormatName(a, s).At? && Digits(FormatName(a, s).rest)
    ensures FormatName(b, s) == FormatName(a, s)
  {
    if a == Pedantic {
      NoBlanks(s[1..]);
      NoBlanks(s[1..][4..]);
    }
    hide SkipBlanks;
  }

  lemma VariablesSame(a: Strictness, b: Strictness, s: string)
    requires Stricter(a, b) && VariableCount(a, s).Count? && Digits(VariableCount(a, s).rest)
    ensures VariableCount(b, s) == VariableCount(a, s)
  {
    hide Value, Parser.Run;
    if a == Pedantic {
      NoBlanks(s[Parser.Run(s)..][1..]);
    }
    hide SkipBlanks;
  }

  lemma ClausesSame(a: Strictness, b: Strictness, s: string)
    requires Stricter(a, b) && ClauseCount(a, s).Count?
    ensures ClauseCount(b, s) == ClauseCount(a, s)
  {
    hide Value, Parser.Run;
    if a == Pedantic {
      NoBlanks(s[Parser.Run(s)..]);
    }
    hide SkipBlanks;
  }

  lemma CountsDigits(strict: Strictness, s: string)
    ensures VariableCount(strict, s).Count? || ClauseCount(strict, s).Count? ==> Digits(s)
  {
    hide Value, SkipBlanks;
  }

  /** For every file: what a stricter mode accepts is accepted by every laxer one, with
      the same callbacks. */
  lemma StricterAcceptsLess(a: Strictness, b: Strictness, file: string)
    requires Stricter(a, b) && Parse(a, file).0.Accepted?
    ensures Parse(b, file) == Parse(a, file)
  {
    hide FindHeader, FormatName, VariableCount, ClauseCount, Body;
    var h := FindHeader(a, file, true);
    HeaderFound(a, b, file, true);
    var f := FormatName(a, h.rest);
    var v := VariableCount(a, f.rest);
    var c := ClauseCount(a, v.rest);
    CountsDigits(a, f.rest);
    CountsDigits(a, v.rest);
    FormatSame(a, b, h.rest);
    VariablesSame(a, b, f.rest);
    ClausesSame(a, b, v.rest);
    BodySame(a, b, v.value, c.value, c.rest, START);
  }
}
