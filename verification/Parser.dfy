/** quapify's DIMACS parser, extended to quantifier blocks.  The functions say
    what is accepted and called back on the text still unread; the methods scan
    a file with one character of look-ahead, as the program does. */
module Parser {
  import opened Numerals

  datatype Strictness = Relaxed | Normal | Pedantic

  datatype Error =
    | EmptyFile | EofBeforeHeader | NewlineAfterReturn | UnexpectedEmptyLine | EofInHeaderComment | ExpectedCOrP
    | SpaceAfterP | CAfterP | NAfterPC | FAfterPCN | SpaceAfterPCnf
    | DigitAfterPCnf | MaxVarTooLarge | EofInMaxVar | NewlineAfterMaxVar | SpaceAfterMaxVar
    | ClauseCountExpected | ClauseCountTooLarge | EofInClauseCount | EofAfterClauseCount | NewlineAfterClauseCount
    | EofInComment | EofAfterMinus | NewlineAfterMinus | DigitAfterMinus | ZeroAfterMinus
    | BlockNotClosed | DigitExpected | VariableTooLarge | EofAfterLiteral | EofAfterZero | EofInLiteralComment
    | SpaceAfterLiteral | VariableExceeded | TooManyClauses
    | TrailingZeroMissing | OneClauseMissing | ClausesMissing

  /** The callbacks: add_quantifier and add_lit. */
  datatype Call = AddQuantifier(q: int) | AddLit(l: int)

  datatype Outcome = Accepted | Rejected(error: Error)

  datatype Skipped = At(rest: string) | Stop(error: Error)

  predicate Starts(s: string, c: char) { s != "" && s[0] == c }

  predicate Blank(s: string) { Starts(s, ' ') || Starts(s, '\t') }

  predicate Digits(s: string) { s != "" && IsDigit(s[0]) }

  // ----- header -----

  /** After a carriage return. */
  function AfterReturn(s: string): Skipped { if Starts(s, '\n') then At(s[1..]) else Stop(NewlineAfterReturn) }

  function HeaderComment(s: string): Skipped {
    if s == "" then Stop(EofInHeaderComment)
    else if s[0] == '\n' then At(s[1..])
    else if s[0] == '\r' then AfterReturn(s[1..])
    else HeaderComment(s[1..])
  }

  lemma HeaderCommentShrinks(s: string)
    ensures HeaderComment(s).At? ==> |HeaderComment(s).rest| < |s|
  {
  }

  /** The text after the 'p' that starts the header line. */
  function FindHeader(strict: Strictness, s: string, first: bool): Skipped
    decreases |s|
  {
    if s == "" then Stop(if first then EmptyFile else EofBeforeHeader)
    else if s[0] == 'p' then At(s[1..])
    else if s[0] == '\r' then
      var r := AfterReturn(s[1..]);
      if r.Stop? then r else if strict == Pedantic then Stop(UnexpectedEmptyLine) else FindHeader(strict, r.rest, false)
    else if s[0] == '\n' then
      if strict == Pedantic then Stop(UnexpectedEmptyLine) else FindHeader(strict, s[1..], false)
    else if s[0] == 'c' then
      HeaderCommentShrinks(s[1..]);
      var r := HeaderComment(s[1..]);
      if r.Stop? then r else FindHeader(strict, r.rest, false)
    else Stop(ExpectedCOrP)
  }

  function SkipBlanks(s: string): (r: string)
    ensures |r| <= |s|
  {
    if Blank(s) then SkipBlanks(s[1..]) else s
  }

  function Blanks(strict: Strictness, s: string): string { if strict == Pedantic then s else SkipBlanks(s) }

  /** " cnf ", up to the variable count. */
  function FormatName(strict: Strictness, s: string): Skipped {
    if !Starts(s, ' ') then Stop(SpaceAfterP)
    else
      var t := Blanks(strict, s[1..]);
      if !Starts(t, 'c') then Stop(CAfterP)
      else if !Starts(t[1..], 'n') then Stop(NAfterPC)
      else if !Starts(t[2..], 'f') then Stop(FAfterPCN)
      else if !Starts(t[3..], ' ') then Stop(SpaceAfterPCnf)
      else At(Blanks(strict, t[4..]))
  }

  /** Length of the leading run of digits. */
  function Run(s: string): (n: nat)
    ensures n <= |s| && AllDigits(s[..n]) && !Digits(s[n..])
  {
    if Digits(s) then 1 + Run(s[1..]) else 0
  }

  datatype Count = Count(value: nat, rest: string) | NoCount(error: Error)

  function VariableCount(strict: Strictness, s: string): Count {
    var n := Run(s);
    if n == 0 then NoCount(DigitAfterPCnf)
    else if Value(s[..n]) > MAX_VARS then NoCount(MaxVarTooLarge)
    else AfterMaxVar(strict, Value(s[..n]), s[n..])
  }

  function AfterMaxVar(strict: Strictness, value: nat, t: string): Count {
    if t == "" then NoCount(EofInMaxVar)
    else if t[0] == '\r' then NoCount(if Starts(t[1..], '\n') then NewlineAfterMaxVar else NewlineAfterReturn)
    else if t[0] == '\n' then NoCount(NewlineAfterMaxVar)
    else if t[0] != ' ' then NoCount(SpaceAfterMaxVar)
    else Count(value, Blanks(strict, t[1..]))
  }

  function ClauseCount(strict: Strictness, s: string): Count {
    var n := Run(s);
    if n == 0 then NoCount(ClauseCountExpected)
    else if Value(s[..n]) > UINT64_MAX then NoCount(ClauseCountTooLarge)
    else if s[n..] == "" then NoCount(EofInClauseCount)
    else EndOfHeader(Value(s[..n]), Blanks(strict, s[n..]))
  }

  function EndOfHeader(value: nat, t: string): Count {
    if t == "" then NoCount(EofAfterClauseCount)
    else if t[0] == '\r' then
      (if Starts(t[1..], '\n') then Count(value, t[2..]) else NoCount(NewlineAfterReturn))
    else if t[0] != '\n' then NoCount(NewlineAfterClauseCount)
    else Count(value, t[1..])
  }

  // ----- body -----

  /** The text after the next newline. */
  function AfterLine(s: string): Skipped {
    if s == "" then Stop(EofInComment) else if s[0] == '\n' then At(s[1..]) else AfterLine(s[1..])
  }

  lemma AfterLineShrinks(s: string)
    ensures AfterLine(s).At? ==> |AfterLine(s).rest| < |s|
  {
  }

  datatype Token =
    | Skip(rest: string)
    | End
    | Open(existential: bool, rest: string)
    | Number(lit: int, rest: string)
    | Bad(error: Error)

  /** What ends a number: end of file, a line end, a comment, or white space. */
  function EndOfNumber(strict: Strictness, l: int, t: string): Token {
    if t == "" then
      if strict == Pedantic then Bad(if l != 0 then EofAfterLiteral else EofAfterZero) else Number(l, "")
    else if t[0] == '\r' then
      (if Starts(t[1..], '\n') then Number(l, t[2..]) else Bad(NewlineAfterReturn))
    else if t[0] == 'c' then
      var r := AfterLine(t[1..]);
      if r.At? then Number(l, r.rest) else if strict == Pedantic then Bad(EofInLiteralComment) else Number(l, "")
    else if t[0] == ' ' || t[0] == '\t' || t[0] == '\n' then Number(l, t[1..])
    else Bad(SpaceAfterLiteral)
  }

  /** A number and the white space, newline or comment that ends it. */
  function NumberToken(strict: Strictness, negative: bool, s: string): Token
    requires Digits(s)
  {
    var v: int := Value(s[..Run(s)]);
    if v > MAX_VARS then Bad(VariableTooLarge)
    else EndOfNumber(strict, if negative then -v else v, s[Run(s)..])
  }

  function NextToken(strict: Strictness, s: string): Token {
    if s == "" then End
    else if s[0] == ' ' || s[0] == '\t' || s[0] == '\n' then Skip(s[1..])
    else if s[0] == '\r' then
      (if Starts(s[1..], '\n') then Skip(s[2..]) else Bad(NewlineAfterReturn))
    else if s[0] == 'c' then
      var r := AfterLine(s[1..]);
      if r.At? then Skip(r.rest) else if strict == Pedantic then Bad(EofInComment) else End
    else if s[0] == '-' then
      if s[1..] == "" then Bad(EofAfterMinus)
      else if s[1] == '\n' then Bad(NewlineAfterMinus)
      else if !IsDigit(s[1]) then Bad(DigitAfterMinus)
      else if s[1] == '0' then Bad(ZeroAfterMinus)
      else NumberToken(strict, true, s[1..])
    else if s[0] == 'e' || s[0] == 'a' then
      Open(s[0] == 'e', if |s| == 1 then "" else s[2..])
    else if IsDigit(s[0]) then NumberToken(strict, false, s)
    else Bad(DigitExpected)
  }

  lemma NumberShrinks(strict: Strictness, negative: bool, s: string)
    ensures Digits(s) ==>
              var t := NumberToken(strict, negative, s); (t.Number? && |t.rest| < |s|) || t.Bad?
  {
    if Digits(s) && s[Run(s)..] != "" {
      AfterLineShrinks(s[Run(s)..][1..]);
    }
  }

  lemma TokenShrinks(strict: Strictness, s: string)
    ensures var t := NextToken(strict, s); t.Skip? || t.Open? || t.Number? ==> |t.rest| < |s|
  {
    hide NumberToken, AfterLine;
    if s != "" {
      AfterLineShrinks(s[1..]);
      NumberShrinks(strict, false, s);
      NumberShrinks(strict, true, s[1..]);
      assert |s| > 1 ==> s[1..][0] == s[1];
    }
  }

  datatype BlockKind = NoBlock | ExistsBlock | ForallBlock

  datatype State = State(block: BlockKind, parsed: nat, lit: int, calls: seq<Call>)

  datatype Step = Next(state: State) | Fail(error: Error)

  function OnNumber(strict: Strictness, vars: nat, clauses: nat, st: State, l: int): Step {
    if strict != Relaxed && Abs(l) > vars then Fail(VariableExceeded)
    else if l == 0 then
      if strict != Relaxed && st.parsed == clauses then Fail(TooManyClauses)
      else if st.block != NoBlock then Next(st.(block := NoBlock, lit := 0))
      else Next(st.(parsed := st.parsed + 1, lit := 0, calls := st.calls + [AddLit(0)]))
    else
      Next(st.(lit := l, calls := st.calls +
        [match st.block
         case NoBlock => AddLit(l)
         case ExistsBlock => AddQuantifier(Abs(l))
         case ForallBlock => AddQuantifier(-(Abs(l) as int))]))
  }

  function Finish(strict: Strictness, clauses: nat, st: State): Outcome {
    if st.lit != 0 then Rejected(TrailingZeroMissing)
    else if strict != Relaxed && st.parsed < clauses then
      Rejected(if st.parsed + 1 == clauses then OneClauseMissing else ClausesMissing)
    else Accepted
  }

  /** What the clause loop does with the text that is left: outcome and callbacks. */
  function Body(strict: Strictness, vars: nat, clauses: nat, s: string, st: State): (Outcome, seq<Call>)
    decreases |s|
  {
    TokenShrinks(strict, s);
    var t := NextToken(strict, s);
    match t
    case Skip(rest) => Body(strict, vars, clauses, rest, st)
    case End => (Finish(strict, clauses, st), st.calls)
    case Open(ex, rest) =>
      if st.block != NoBlock then (Rejected(BlockNotClosed), st.calls)
      else Body(strict, vars, clauses, rest, st.(block := if ex then ExistsBlock else ForallBlock))
    case Number(l, rest) =>
      var n := OnNumber(strict, vars, clauses, st, l);
      if n.Fail? then (Rejected(n.error), st.calls) else Body(strict, vars, clauses, rest, n.state)
    case Bad(e) => (Rejected(e), st.calls)
  }

  const START := State(NoBlock, 0, 0, [])

  /** The whole parse: outcome and callbacks. */
  function Parse(strict: Strictness, file: string): (Outcome, seq<Call>) {
    var h := FindHeader(strict, file, true);
    if h.Stop? then (Rejected(h.error), [])
    else
      var f := FormatName(strict, h.rest);
      if f.Stop? then (Rejected(f.error), [])
      else
        var v := VariableCount(strict, f.rest);
        if v.NoCount? then (Rejected(v.error), [])
        else
          var c := ClauseCount(strict, v.rest);
          if c.NoCount? then (Rejected(c.error), [])
          else Body(strict, v.value, c.value, c.rest, START)
  }

  // ----- the scanner -----

  const EOF := -1

  /** The character at position i, or EOF. */
  function CharAt(file: string, i: nat): int { if i < |file| then file[i] as int else EOF }

  /** The text from position i on. */
  function From(file: string, i: nat): string { if i <= |file| then file[i..] else "" }

  lemma FromStep(file: string, i: nat)
    ensures i < |file| ==> From(file, i) == [file[i]] + From(file, i + 1) && From(file, i)[1..] == From(file, i + 1)
    ensures i >= |file| ==> From(file, i) == ""
  {
  }

  datatype Scan = Pos(i: nat) | Error(error: Error)

  /** A scan result against what the specification says of the unread text. */
  ghost predicate SameScan(file: string, scan: Scan, r: Skipped) {
    match scan
    case Pos(i) => i <= |file| && r == At(From(file, i))
    case Error(e) => r == Stop(e)
  }

  lemma {:induction false} RunIs(s: string, k: nat)
    requires k <= |s| && AllDigits(s[..k])
    ensures k <= Run(s) && (!Digits(s[k..]) ==> k == Run(s))
  {
    if k == 0 {
    } else {
      assert s[0] == s[..k][0] && s[1..][..k - 1] == s[..k][1..] && s[1..][k - 1..] == s[k..];
      RunIs(s[1..], k - 1);
    }
  }

  /** A prefix of the digits that already exceeds max decides the whole number. */
  lemma RunExceeds(s: string, k: nat, max: nat)
    requires k <= |s| && AllDigits(s[..k]) && Value(s[..k]) > max
    ensures Value(s[..Run(s)]) > max
  {
    RunIs(s, k);
    var n := Run(s);
    assert s[..n][..k] == s[..k];
    ValueMonotone(s[..n], k);
  }

  lemma ValueStep(s: string, k: nat)
    requires k < |s| && AllDigits(s[..k]) && IsDigit(s[k])
    ensures AllDigits(s[..k + 1]) && Value(s[..k + 1]) == 10 * Value(s[..k]) + DigitValue(s[k])
  {
    assert s[..k + 1][..k] == s[..k];
  }

  /** Digits accumulated with the two overflow tests of the program: refused
      exactly when the number they denote exceeds max. */
  method ScanNumber(file: string, start: nat, max: nat) returns (value: nat, i: nat, ok: bool)
    requires start < |file| && IsDigit(file[start]) && max >= 9
    ensures var n := Run(From(file, start));
            && (ok <==> Value(From(file, start)[..n]) <= max)
            && (ok ==> value == Value(From(file, start)[..n]) && i == start + n && i <= |file|)
  {
    ghost var s := From(file, start);
    ok := true;
    ValueStep(s, 0);
    value := DigitValue(file[start]);
    i := start + 1;
    while i < |file| && IsDigit(file[i])
      invariant start < i <= |file| && ok
      invariant AllDigits(s[..i - start]) && value == Value(s[..i - start]) && value <= max
    {
      ghost var k := i - start;
      ValueStep(s, k);
      var digit := DigitValue(file[i]);
      if max / 10 < value {
        ok := false;
      } else {
        value := value * 10;
        if max - digit < value {
          ok := false;
        }
      }
      if !ok {
        RunExceeds(s, k + 1, max);
        return;
      }
      value := value + digit;
      i := i + 1;
    }
    RunIs(s, i - start);
  }

  lemma AfterReturnAt(file: string, i: nat)
    ensures AfterReturn(From(file, i)) ==
            if CharAt(file, i) == '\n' as int then At(From(file, i + 1)) else Stop(NewlineAfterReturn)
  {
    FromStep(file, i);
  }

  lemma HeaderCommentAt(file: string, i: nat)
    ensures HeaderComment(From(file, i)) ==
            if i >= |file| then Stop(EofInHeaderComment)
            else if file[i] == '\n' then At(From(file, i + 1))
            else if file[i] == '\r' then AfterReturn(From(file, i + 1))
            else HeaderComment(From(file, i + 1))
  {
    hide AfterReturn;
    FromStep(file, i);
  }

  method ScanHeaderComment(file: string, start: nat) returns (r: Scan)
    requires start <= |file|
    ensures SameScan(file, r, HeaderComment(From(file, start)))
    ensures r.Pos? ==> r.i > start
  {
    hide AfterReturn, HeaderComment, From;
    var i := start;
    while i < |file|
      invariant start <= i <= |file| && HeaderComment(From(file, i)) == HeaderComment(From(file, start))
    {
      HeaderCommentAt(file, i);
      var ch := file[i];
      i := i + 1;
      if ch == '\n' {
        return Pos(i);
      }
      if ch == '\r' {
        AfterReturnAt(file, i);
        return if CharAt(file, i) != '\n' as int then Error(NewlineAfterReturn) else Pos(i + 1);
      }
    }
    HeaderCommentAt(file, i);
    r := Error(EofInHeaderComment);
  }

  lemma FromAll(file: string)
    ensures From(file, 0) == file
  {
  }

  /** The search for the header line, at position i. */
  lemma HeaderAt(strict: Strictness, file: string, i: nat, first: bool)
    ensures FindHeader(strict, From(file, i), first) ==
            if i >= |file| then Stop(if first then EmptyFile else EofBeforeHeader)
            else if file[i] == 'p' then At(From(file, i + 1))
            else if file[i] == '\r' then
              if CharAt(file, i + 1) != '\n' as int then Stop(NewlineAfterReturn)
              else if strict == Pedantic then Stop(UnexpectedEmptyLine)
              else FindHeader(strict, From(file, i + 2), false)
            else if file[i] == '\n' then
              if strict == Pedantic then Stop(UnexpectedEmptyLine) else FindHeader(strict, From(file, i + 1), false)
            else if file[i] == 'c' then
              var r := HeaderComment(From(file, i + 1));
              if r.Stop? then r else FindHeader(strict, r.rest, false)
            else Stop(ExpectedCOrP)
  {
    hide HeaderComment;
    FromStep(file, i);
    FromStep(file, i + 1);
    hide From;
  }

  /** The lines in front of the header line. */
  method ScanToHeader(strict: Strictness, file: string) returns (r: Scan)
    ensures SameScan(file, r, FindHeader(strict, file, true))
  {
    hide FindHeader, From, HeaderComment;
    var i, first := 0, true;
    FromAll(file);
    while i < |file|
      invariant i <= |file| && FindHeader(strict, From(file, i), first) == FindHeader(strict, file, true)
      decreases |file| - i
    {
      HeaderAt(strict, file, i, first);
      var ch := file[i];
      i := i + 1;
      if ch == 'p' {
        return Pos(i);
      }
      first := false;
      if ch == '\r' {
        if CharAt(file, i) != '\n' as int {
          return Error(NewlineAfterReturn);
        }
        i := i + 1;
      }
      if ch == '\r' || ch == '\n' {
        if strict == Pedantic {
          return Error(UnexpectedEmptyLine);
        }
      } else if ch == 'c' {
        r := ScanHeaderComment(file, i);
        if r.Error? {
          return;
        }
        i := r.i;
      } else {
        return Error(ExpectedCOrP);
      }
    }
    HeaderAt(strict, file, i, first);
    r := Error(if first then EmptyFile else EofBeforeHeader);
  }

  lemma BlankStep(file: string, i: nat)
    requires i <= |file|
    ensures var s := From(file, i);
            SkipBlanks(s) ==
              if i < |file| && (file[i] == ' ' || file[i] == '\t') then SkipBlanks(From(file, i + 1)) else s
  {
    FromStep(file, i);
    hide From;
  }

  /** Blanks are only skipped when parsing is not pedantic. */
  method ScanBlanks(strict: Strictness, file: string, start: nat) returns (i: nat)
    requires start <= |file|
    ensures start <= i <= |file| && From(file, i) == Blanks(strict, From(file, start))
  {
    hide SkipBlanks, From;
    i := start;
    if strict != Pedantic {
      while i < |file| && (file[i] == ' ' || file[i] == '\t')
        invariant start <= i <= |file| && SkipBlanks(From(file, i)) == SkipBlanks(From(file, start))
      {
        BlankStep(file, i);
        i := i + 1;
      }
      BlankStep(file, i);
    }
  }

  /** The name, character by character, i being where its letters begin. */
  lemma FormatNameAt(strict: Strictness, file: string, start: nat, i: nat)
    requires start < |file| && i <= |file| && From(file, i) == Blanks(strict, From(file, start + 1))
    ensures FormatName(strict, From(file, start)) ==
            if CharAt(file, start) != ' ' as int then Stop(SpaceAfterP)
            else if CharAt(file, i) != 'c' as int then Stop(CAfterP)
            else if CharAt(file, i + 1) != 'n' as int then Stop(NAfterPC)
            else if CharAt(file, i + 2) != 'f' as int then Stop(FAfterPCN)
            else if CharAt(file, i + 3) != ' ' as int then Stop(SpaceAfterPCnf)
            else At(Blanks(strict, From(file, i + 4)))
  {
    hide Blanks;
    FromStep(file, start);
    var t := From(file, i);
    assert forall k :: 0 <= k <= 4 && k <= |t| ==> t[k..] == From(file, i + k);
  }

  method ScanFormatName(strict: Strictness, file: string, start: nat) returns (r: Scan)
    requires start <= |file|
    ensures SameScan(file, r, FormatName(strict, From(file, start)))
  {
    hide Blanks, FormatName;
    if CharAt(file, start) != ' ' as int {
      assert FormatName(strict, From(file, start)) == Stop(SpaceAfterP) by { NoName(strict, file, start); }
      return Error(SpaceAfterP);
    }
    var i := ScanBlanks(strict, file, start + 1);
    FormatNameAt(strict, file, start, i);
    if CharAt(file, i) != 'c' as int {
      return Error(CAfterP);
    }
    if CharAt(file, i + 1) != 'n' as int {
      return Error(NAfterPC);
    }
    if CharAt(file, i + 2) != 'f' as int {
      return Error(FAfterPCN);
    }
    if CharAt(file, i + 3) != ' ' as int {
      return Error(SpaceAfterPCnf);
    }
    i := ScanBlanks(strict, file, i + 4);
    r := Pos(i);
  }

  lemma NoName(strict: Strictness, file: string, start: nat)
    requires CharAt(file, start) != ' ' as int
    ensures FormatName(strict, From(file, start)) == Stop(SpaceAfterP)
  {
    hide Blanks;
    FromStep(file, start);
  }

  /** A count scanned from position start. */
  ghost predicate Counted(file: string, value: nat, r: Scan, c: Count) {
    match r
    case Pos(i) => i <= |file| && c == Count(value, From(file, i))
    case Error(e) => c == NoCount(e)
  }

  method ScanVariableCount(strict: Strictness, file: string, start: nat) returns (value: nat, r: Scan)
    requires start <= |file|
    ensures Counted(file, value, r, VariableCount(strict, From(file, start)))
  {
    hide Value, AfterMaxVar;
    value := 0;
    if start == |file| || !IsDigit(file[start]) {
      return value, Error(DigitAfterPCnf);
    }
    var i, ok;
    value, i, ok := ScanNumber(file, start, MAX_VARS);
    if !ok {
      return value, Error(MaxVarTooLarge);
    }
    assert From(file, start)[i - start..] == From(file, i);
    hide Run;
    r := ScanAfterMaxVar(strict, file, i, value);
  }

  method ScanAfterMaxVar(strict: Strictness, file: string, start: nat, ghost value: nat) returns (r: Scan)
    requires start <= |file|
    ensures Counted(file, value, r, AfterMaxVar(strict, value, From(file, start)))
  {
    hide Blanks;
    FromStep(file, start);
    var ch := CharAt(file, start);
    if ch == EOF {
      return Error(EofInMaxVar);
    }
    if ch == '\r' as int {
      return Error(if CharAt(file, start + 1) != '\n' as int then NewlineAfterReturn else NewlineAfterMaxVar);
    }
    if ch == '\n' as int {
      return Error(NewlineAfterMaxVar);
    }
    if ch != ' ' as int {
      return Error(SpaceAfterMaxVar);
    }
    var i := ScanBlanks(strict, file, start + 1);
    r := Pos(i);
  }

  lemma FromFrom(file: string, i: nat, k: nat)
    requires i <= k <= |file|
    ensures From(file, i)[k - i..] == From(file, k)
  {
  }

  lemma DigitsAt(file: string, i: nat)
    requires i < |file| && IsDigit(file[i])
    ensures Run(From(file, i)) > 0
  {
    FromStep(file, i);
    hide From;
  }

  lemma NoDigits(strict: Strictness, file: string, i: nat)
    requires i >= |file| || !IsDigit(file[i])
    ensures ClauseCount(strict, From(file, i)) == NoCount(ClauseCountExpected)
  {
    FromStep(file, i);
    hide From;
  }

  method ScanClauseCount(strict: Strictness, file: string, start: nat) returns (value: nat, r: Scan)
    requires start <= |file|
    ensures Counted(file, value, r, ClauseCount(strict, From(file, start)))
  {
    hide Value, EndOfHeader, Blanks, Run, From;
    value := 0;
    if start == |file| || !IsDigit(file[start]) {
      NoDigits(strict, file, start);
      return value, Error(ClauseCountExpected);
    }
    ghost var s := From(file, start);
    DigitsAt(file, start);
    var i, ok;
    value, i, ok := ScanNumber(file, start, UINT64_MAX);
    if !ok {
      return value, Error(ClauseCountTooLarge);
    }
    FromFrom(file, start, i);
    FromStep(file, i);
    if i == |file| {
      return value, Error(EofInClauseCount);
    }
    i := ScanBlanks(strict, file, i);
    r := ScanEndOfHeader(file, i, value);
  }

  method ScanEndOfHeader(file: string, start: nat, ghost value: nat) returns (r: Scan)
    requires start <= |file|
    ensures Counted(file, value, r, EndOfHeader(value, From(file, start)))
  {
    var i := start;
    FromStep(file, i);
    FromStep(file, i + 1);
    if CharAt(file, i) == '\r' as int {
      if CharAt(file, i + 1) != '\n' as int {
        return Error(NewlineAfterReturn);
      }
      assert From(file, i)[2..] == From(file, i + 2);
      i := i + 1;
    } else if i == |file| {
      return Error(EofAfterClauseCount);
    } else if file[i] != '\n' {
      return Error(NewlineAfterClauseCount);
    }
    r := Pos(i + 1);
  }

  // ----- the clause loop -----

  /** The rest of a line; EOF is left to the caller. */
  method ScanLine(file: string, start: nat) returns (i: nat, found: bool)
    requires start <= |file|
    ensures start <= i <= |file| && (found ==> i > start)
    ensures AfterLine(From(file, start)) == if found then At(From(file, i)) else Stop(EofInComment)
    ensures !found ==> i == |file|
  {
    i := start;
    while i < |file|
      invariant start <= i <= |file| && AfterLine(From(file, i)) == AfterLine(From(file, start))
    {
      FromStep(file, i);
      i := i + 1;
      if file[i - 1] == '\n' {
        return i, true;
      }
    }
    FromStep(file, i);
    found := false;
  }

  /** A number token against the position the scanner has reached. */
  ghost predicate Tokened(file: string, lit: int, r: Scan, t: Token) {
    match r
    case Pos(i) => i <= |file| && t == Number(lit, From(file, i))
    case Error(e) => t == Bad(e)
  }

  lemma SkipTwo(file: string, i: nat)
    ensures i + 1 < |file| ==> From(file, i)[2..] == From(file, i + 2)
    ensures From(file, |file|) == ""
  {
  }

  method ScanEndOfNumber(strict: Strictness, file: string, start: nat, lit: int) returns (r: Scan)
    requires start <= |file|
    ensures Tokened(file, lit, r, EndOfNumber(strict, lit, From(file, start)))
    ensures r.Pos? ==> r.i >= start
  {
    var i := start;
    FromStep(file, i);
    FromStep(file, i + 1);
    SkipTwo(file, i);
    hide From;
    var ch := CharAt(file, i);
    i := if i < |file| then i + 1 else i;
    if ch == EOF {
      if strict == Pedantic {
        return Error(if lit != 0 then EofAfterLiteral else EofAfterZero);
      }
    } else if ch == '\r' as int {
      if CharAt(file, i) != '\n' as int {
        return Error(NewlineAfterReturn);
      }
      i := i + 1;
    } else if ch == 'c' as int {
      var found;
      i, found := ScanLine(file, i);
      if !found && strict == Pedantic {
        return Error(EofInLiteralComment);
      }
    } else if ch != ' ' as int && ch != '\t' as int && ch != '\n' as int {
      return Error(SpaceAfterLiteral);
    }
    r := Pos(i);
  }

  /** A token with the position the scanner has reached, instead of the text left. */
  datatype Item =
    | SkipTo(i: nat)
    | AtEnd
    | OpenAt(existential: bool, i: nat)
    | NumberAt(lit: int, i: nat)
    | BadAt(error: Error)

  ghost predicate Scanned(file: string, start: nat, item: Item, t: Token) {
    match item
    case SkipTo(i) => start < i <= |file| && t == Skip(From(file, i))
    case AtEnd => t == End
    case OpenAt(ex, i) => start < i <= |file| && t == Open(ex, From(file, i))
    case NumberAt(l, i) => start < i <= |file| && t == Number(l, From(file, i))
    case BadAt(e) => t == Bad(e)
  }

  method ScanNumberToken(strict: Strictness, file: string, start: nat, negative: bool) returns (item: Item)
    requires start < |file| && IsDigit(file[start])
    ensures Scanned(file, start, item, NumberToken(strict, negative, From(file, start)))
  {
    hide Value, EndOfNumber;
    var idx, i, ok := ScanNumber(file, start, MAX_VARS);
    if !ok {
      return BadAt(VariableTooLarge);
    }
    assert From(file, start)[i - start..] == From(file, i);
    RunIs(From(file, start), 1);
    hide Run, From;
    var lit: int := if negative then -(idx as int) else idx;
    var end := ScanEndOfNumber(strict, file, i, lit);
    item := if end.Pos? then NumberAt(lit, end.i) else BadAt(end.error);
  }

  method ScanMinus(strict: Strictness, file: string, start: nat) returns (item: Item)
    requires start < |file| && file[start] == '-'
    ensures Scanned(file, start, item, NextToken(strict, From(file, start)))
  {
    hide NumberToken, AfterLine;
    FromStep(file, start);
    FromStep(file, start + 1);
    var ch := CharAt(file, start + 1);
    if ch == EOF {
      return BadAt(EofAfterMinus);
    }
    if ch == '\n' as int {
      return BadAt(NewlineAfterMinus);
    }
    if !IsDigit(file[start + 1]) {
      return BadAt(DigitAfterMinus);
    }
    if ch == '0' as int {
      return BadAt(ZeroAfterMinus);
    }
    item := ScanNumberToken(strict, file, start + 1, true);
  }

  lemma EndToken(strict: Strictness)
    ensures NextToken(strict, "") == End
  {
  }

  lemma OpenToken(strict: Strictness, file: string, i: nat)
    requires i < |file| && (file[i] == 'e' || file[i] == 'a')
    ensures NextToken(strict, From(file, i)) ==
              Open(file[i] == 'e', From(file, if i + 1 == |file| then i + 1 else i + 2))
  {
    assert i + 1 < |file| ==> file[i..][2..] == file[i + 2..];
  }

  lemma DigitToken(strict: Strictness, s: string)
    requires Digits(s)
    ensures NextToken(strict, s) == NumberToken(strict, false, s)
  {
    hide NumberToken, AfterLine;
  }

  lemma BadToken(strict: Strictness, s: string)
    requires s != "" && !Separates(s[0]) && s[0] != '-' && s[0] != 'e' && s[0] != 'a' && !IsDigit(s[0])
    ensures NextToken(strict, s) == Bad(DigitExpected)
  {
    hide NumberToken, AfterLine;
  }

  predicate Separates(c: char) { c == ' ' || c == '\t' || c == '\n' || c == '\r' || c == 'c' }

  /** White space and comments between tokens. */
  method ScanSeparator(strict: Strictness, file: string, start: nat) returns (item: Item)
    requires start < |file| && Separates(file[start])
    ensures Scanned(file, start, item, NextToken(strict, From(file, start)))
  {
    FromStep(file, start);
    var ch := file[start];
    if ch == '\r' {
      AfterReturnAt(file, start + 1);
      if CharAt(file, start + 1) != '\n' as int {
        return BadAt(NewlineAfterReturn);
      }
      assert From(file, start)[2..] == From(file, start + 2);
      return SkipTo(start + 2);
    }
    if ch == 'c' {
      var i, found := ScanLine(file, start + 1);
      return if found then SkipTo(i) else if strict == Pedantic then BadAt(EofInComment) else AtEnd;
    }
    item := SkipTo(start + 1);
  }

  method ScanToken(strict: Strictness, file: string, start: nat) returns (item: Item)
    requires start <= |file|
    ensures Scanned(file, start, item, NextToken(strict, From(file, start)))
  {
    hide NextToken, From;
    FromStep(file, start);
    ghost var s := From(file, start);
    if start == |file| {
      EndToken(strict);
      return AtEnd;
    }
    var ch := file[start];
    if ch == ' ' || ch == '\t' || ch == '\n' || ch == '\r' || ch == 'c' {
      item := ScanSeparator(strict, file, start);
    } else if ch == '-' {
      item := ScanMinus(strict, file, start);
    } else if ch == 'e' || ch == 'a' {
      OpenToken(strict, file, start);
      item := OpenAt(ch == 'e', if start + 1 == |file| then start + 1 else start + 2);
    } else if IsDigit(ch) {
      DigitToken(strict, s);
      item := ScanNumberToken(strict, file, start, false);
    } else {
      BadToken(strict, s);
      item := BadAt(DigitExpected);
    }
  }

  function Kind(blockExists: bool, blockForall: bool): BlockKind {
    if blockExists then ExistsBlock else if blockForall then ForallBlock else NoBlock
  }

  /** The clause loop, with the variables of the program. */
  method ParseBody(strict: Strictness, file: string, start: nat, vars: nat, clauses: nat)
    returns (outcome: Outcome, calls: seq<Call>)
    requires start <= |file|
    ensures (outcome, calls) == Body(strict, vars, clauses, From(file, start), START)
  {
    hide From, NextToken;
    var blockExists, blockForall := false, false;
    var parsed: nat, lit := 0, 0;
    var i := start;
    calls := [];
    while true
      invariant i <= |file| && !(blockExists && blockForall)
      invariant Body(strict, vars, clauses, From(file, i), State(Kind(blockExists, blockForall), parsed, lit, calls))
             == Body(strict, vars, clauses, From(file, start), START)
      decreases |file| - i
    {
      var item := ScanToken(strict, file, i);
      match item {
        case SkipTo(next) =>
          i := next;
        case AtEnd =>
          break;
        case BadAt(e) =>
          return Rejected(e), calls;
        case OpenAt(existential, next) =>
          if blockExists || blockForall {
            return Rejected(BlockNotClosed), calls;
          }
          if existential {
            blockExists := true;
          } else {
            blockForall := true;
          }
          i := next;
        case NumberAt(l, next) =>
          i := next;
          if strict != Relaxed && Abs(l) > vars {
            return Rejected(VariableExceeded), calls;
          }
          if l == 0 {
            if strict != Relaxed && parsed == clauses {
              return Rejected(TooManyClauses), calls;
            }
            if !blockExists && !blockForall {
              parsed := parsed + 1;
            }
          }
          lit := l;
          if blockExists || blockForall {
            if lit != 0 {
              calls := calls + [AddQuantifier(if blockForall then -(Abs(lit) as int) else Abs(lit))];
            } else {
              blockExists, blockForall := false, false;
            }
          } else {
            calls := calls + [AddLit(lit)];
          }
      }
    }
    outcome := Finish(strict, clauses, State(Kind(blockExists, blockForall), parsed, lit, calls));
  }

  /** parse_dimacs: outcome and callbacks. */
  method ParseDimacs(strict: Strictness, file: string) returns (outcome: Outcome, calls: seq<Call>)
    ensures (outcome, calls) == Parse(strict, file)
  {
    hide FindHeader, FormatName, VariableCount, ClauseCount, Body, From;
    var r := ScanToHeader(strict, file);
    if r.Error? {
      return Rejected(r.error), [];
    }
    r := ScanFormatName(strict, file, r.i);
    if r.Error? {
      return Rejected(r.error), [];
    }
    var vars, clauses;
    vars, r := ScanVariableCount(strict, file, r.i);
    if r.Error? {
      return Rejected(r.error), [];
    }
    clauses, r := ScanClauseCount(strict, file, r.i);
    if r.Error? {
      return Rejected(r.error), [];
    }
    outcome, calls := ParseBody(strict, file, r.i, vars, clauses);
  }
}
