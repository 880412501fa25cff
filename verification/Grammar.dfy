/** The file format the parser accepts, written down as syntax trees with their text, and
    what a tree means.  The parser accepts exactly the texts of the trees that fit. */
module Grammar {
  import opened Numerals
  import opened Parser
  import opened Seqs
  import RoundTrip

  // ----- trees and their text -----

  /** What separates: a blank, a tab, a line end, or a comment with ps line end. */
  datatype Gap = Space | Tab | Newline | Return | Comment(text: string)

  predicate OneLine(w: string) { forall i :: 0 <= i < |w| ==> w[i] != '\n' }

  predicate GapOk(g: Gap) { g.Comment? ==> OneLine(g.text) }

  function GapText(g: Gap): string {
    match g
    case Space => " "
    case Tab => "\t"
    case Newline => "\n"
    case Return => "\r\n"
    case Comment(w) => "c" + (w + "\n")
  }

  /** The character after a quantifier letter is skipped, whatever it is. */
  datatype Piece =
    | Between(gap: Gap)
    | Block(existential: bool, next: char)
    | Numeral(negative: bool, digits: string, end: Gap)

  predicate NumeralOk(negative: bool, digits: string) {
    digits != "" && AllDigits(digits) && Value(digits) <= MAX_VARS && (negative ==> digits[0] != '0')
  }

  predicate PieceOk(p: Piece) {
    match p
    case Between(g) => GapOk(g)
    case Block(_, _) => true
    case Numeral(negative, digits, end) => NumeralOk(negative, digits) && GapOk(end)
  }

  function Letter(existential: bool): char { if existential then 'e' else 'a' }

  function Sign(negative: bool): string { if negative then "-" else "" }

  function PieceText(p: Piece): string {
    match p
    case Between(g) => GapText(g)
    case Block(ex, next) => [Letter(ex)] + [next]
    case Numeral(negative, digits, end) => Sign(negative) + (digits + GapText(end))
  }

  function PiecesText(ps: seq<Piece>): string {
    if ps == [] then "" else PieceText(ps[0]) + PiecesText(ps[1..])
  }

  predicate PiecesOk(ps: seq<Piece>) { forall i :: 0 <= i < |ps| ==> PieceOk(ps[i]) }

  /** How a file ends: behind a piece, in a comment, behind a quantifier letter, or behind a
      number or in the comment that ends it. */
  datatype Ending = Nothing | InComment(text: string) | AfterLetter(existential: bool)
    | AfterNumeral(negative: bool, digits: string, comment: string)

  /** The pedantic mode wants a line end behind comments and numbers. */
  predicate EndingOk(strict: Strictness, e: Ending) {
    match e
    case Nothing => true
    case InComment(w) => OneLine(w) && strict != Pedantic
    case AfterLetter(_) => true
    case AfterNumeral(negative, digits, w) =>
      NumeralOk(negative, digits) && (w == "" || (w[0] == 'c' && OneLine(w))) && strict != Pedantic
  }

  function EndingText(e: Ending): string {
    match e
    case Nothing => ""
    case InComment(w) => "c" + w
    case AfterLetter(ex) => [Letter(ex)]
    case AfterNumeral(negative, digits, w) => Sign(negative) + (digits + w)
  }

  // ----- what a tree means -----

  /** The quantifier letters and the numbers, in order. */
  datatype Mark = Opens(existential: bool) | Num(l: int)

  function Denoted(negative: bool, digits: string): int
    requires AllDigits(digits)
  {
    if negative then -(Value(digits) as int) else Value(digits)
  }

  function PieceMarks(p: Piece): seq<Mark>
    requires PieceOk(p)
  {
    match p
    case Between(_) => []
    case Block(ex, _) => [Opens(ex)]
    case Numeral(negative, digits, _) => [Num(Denoted(negative, digits))]
  }

  function Marks(ps: seq<Piece>): seq<Mark>
    requires PiecesOk(ps)
  {
    if ps == [] then [] else PieceMarks(ps[0]) + Marks(ps[1..])
  }

  function EndingMarks(strict: Strictness, e: Ending): seq<Mark>
    requires EndingOk(strict, e)
  {
    match e
    case Nothing => []
    case InComment(_) => []
    case AfterLetter(ex) => [Opens(ex)]
    case AfterNumeral(negative, digits, _) => [Num(Denoted(negative, digits))]
  }

  /** The block a next number belongs to: that of the last letter, until a 0. */
  function BlockAfter(ms: seq<Mark>): BlockKind {
    if ms == [] then NoBlock
    else
      match ms[|ms| - 1]
      case Opens(ex) => if ex then ExistsBlock else ForallBlock
      case Num(l) => if l == 0 then NoBlock else BlockAfter(ms[..|ms| - 1])
  }

  /** The clauses closed: the zeros outside blocks. */
  function ClausesIn(ms: seq<Mark>): nat {
    if ms == [] then 0
    else
      var front := ms[..|ms| - 1];
      ClausesIn(front) + (if ms[|ms| - 1] == Num(0) && BlockAfter(front) == NoBlock then 1 else 0)
  }

  /** The last number; 0 before the first. */
  function LastNumber(ms: seq<Mark>): int {
    if ms == [] then 0 else if ms[|ms| - 1].Num? then ms[|ms| - 1].l else LastNumber(ms[..|ms| - 1])
  }

  /** Numbers outside blocks are literals, those of blocks quantified variables; a block's 0
      is not called back. */
  function CalledFor(block: BlockKind, m: Mark): seq<Call> {
    match m
    case Opens(_) => []
    case Num(l) =>
      if block == NoBlock then [AddLit(l)]
      else if l == 0 then []
      else [AddQuantifier(if block == ExistsBlock then Abs(l) else -(Abs(l) as int))]
  }

  function Callbacks(ms: seq<Mark>): seq<Call> {
    if ms == [] then []
    else var front := ms[..|ms| - 1]; Callbacks(front) + CalledFor(BlockAfter(front), ms[|ms| - 1])
  }

  /** m may follow ms: blocks do not nest, and modes that check want variables up to the
      maximum and no 0 once all clauses are closed. */
  predicate Allowed(strict: Strictness, vars: nat, clauses: nat, ms: seq<Mark>, m: Mark) {
    match m
    case Opens(_) => BlockAfter(ms) == NoBlock
    case Num(l) => strict == Relaxed || (Abs(l) <= vars && (l == 0 ==> ClausesIn(ms) < clauses))
  }

  predicate AllowedTo(strict: Strictness, vars: nat, clauses: nat, ms: seq<Mark>, n: nat)
    requires n <= |ms|
  {
    forall k :: 0 <= k < n ==> Allowed(strict, vars, clauses, ms[..k], ms[k])
  }

  /** Every mark is allowed, the last number is a 0, and modes that check find the announced
      number of clauses. */
  predicate Fits(strict: Strictness, vars: nat, clauses: nat, ms: seq<Mark>) {
    && AllowedTo(strict, vars, clauses, ms, |ms|)
    && LastNumber(ms) == 0
    && (strict != Relaxed ==> ClausesIn(ms) == clauses)
  }

  /** The first mark that is not allowed, from mark n on. */
  function FirstRefused(strict: Strictness, vars: nat, clauses: nat, ms: seq<Mark>, n: nat): (k: nat)
    requires n <= |ms|
    ensures n <= k <= |ms|
    decreases |ms| - n
  {
    if n == |ms| || !Allowed(strict, vars, clauses, ms[..n], ms[n]) then n
    else FirstRefused(strict, vars, clauses, ms, n + 1)
  }

  function Refusal(vars: nat, m: Mark): Error {
    if m.Opens? then BlockNotClosed else if Abs(m.l) > vars then VariableExceeded else TooManyClauses
  }

  function AtEnd(strict: Strictness, clauses: nat, ms: seq<Mark>): Outcome {
    if LastNumber(ms) != 0 then Rejected(TrailingZeroMissing)
    else if strict == Relaxed || ClausesIn(ms) >= clauses then Accepted
    else Rejected(if clauses - ClausesIn(ms) == 1 then OneClauseMissing else ClausesMissing)
  }

  /** What the marks lead to: they are called back up to the first that is refused. */
  function Meaning(strict: Strictness, vars: nat, clauses: nat, ms: seq<Mark>, n: nat): (Outcome, seq<Call>)
    requires n <= |ms|
  {
    var k := FirstRefused(strict, vars, clauses, ms, n);
    (if k < |ms| then Rejected(Refusal(vars, ms[k])) else AtEnd(strict, clauses, ms), Callbacks(ms[..k]))
  }

  // ----- the text of a tree, token by token -----

  function TokenOf(m: Mark, rest: string): Token {
    if m.Opens? then Open(m.existential, rest) else Number(m.l, rest)
  }

  lemma {:induction false} AfterLineAt(w: string, rest: string)
    requires OneLine(w)
    ensures AfterLine(w + "\n" + rest) == At(rest)
  {
    if w == "" {
      assert "" + "\n" + rest == "\n" + rest;
      assert ("\n" + rest)[1..] == rest;
    } else {
      assert (w + "\n" + rest)[0] == w[0] && (w + "\n" + rest)[1..] == w[1..] + "\n" + rest;
      AfterLineAt(w[1..], rest);
    }
  }

  lemma {:induction false} NoLineEnd(w: string)
    requires OneLine(w)
    ensures AfterLine(w) == Stop(EofInComment)
  {
    if w != "" { NoLineEnd(w[1..]); }
  }

  lemma CommentText(w: string, rest: string)
    ensures var t := "c" + (w + "\n") + rest; t != "" && t[0] == 'c' && t[1..] == w + "\n" + rest
  {
  }

  /** Every gap is skipped. */
  lemma GapToken(strict: Strictness, g: Gap, rest: string)
    requires GapOk(g)
    ensures NextToken(strict, GapText(g) + rest) == Skip(rest)
  {
    if g.Comment? {
      CommentText(g.text, rest);
      AfterLineAt(g.text, rest);
    } else {
      var t := GapText(g) + rest;
      assert t[1..] == (if g.Return? then "\n" + rest else rest) && (g.Return? ==> t[2..] == rest);
    }
    hide NumberToken, AfterLine;
  }

  /** Every gap ends a number. */
  lemma GapEnds(strict: Strictness, l: int, g: Gap, rest: string)
    requires GapOk(g)
    ensures EndOfNumber(strict, l, GapText(g) + rest) == Number(l, rest)
    ensures !Digits(GapText(g) + rest)
  {
    if g.Comment? {
      CommentText(g.text, rest);
      AfterLineAt(g.text, rest);
    } else {
      var t := GapText(g) + rest;
      assert t[1..] == (if g.Return? then "\n" + rest else rest) && (g.Return? ==> t[2..] == rest);
    }
    hide AfterLine;
  }

  lemma NumeralToken(strict: Strictness, negative: bool, digits: string, t: string)
    requires NumeralOk(negative, digits) && !Digits(t)
    ensures NextToken(strict, Sign(negative) + (digits + t)) == EndOfNumber(strict, Denoted(negative, digits), t)
  {
    var s := digits + t;
    assert s[0] == digits[0];
    RoundTrip.RunOfDigits(digits, t);
    assert s[..|digits|] == digits && s[|digits|..] == t;
    hide EndOfNumber, Value, Parser.Run, NextToken;
    assert NumberToken(strict, negative, s) == EndOfNumber(strict, Denoted(negative, digits), t);
    hide NumberToken;
    if negative {
      RoundTrip.NextMinus(strict, s);
    } else {
      NilLeft(s);
      RoundTrip.NextDigits(strict, s);
    }
  }

  lemma PieceToken(strict: Strictness, p: Piece, rest: string)
    requires PieceOk(p)
    ensures NextToken(strict, PieceText(p) + rest) ==
            if p.Between? then Skip(rest) else TokenOf(PieceMarks(p)[0], rest)
  {
    hide GapOk, GapText, EndOfNumber, NumberToken, AfterLine, Value;
    match p
    case Between(g) => GapToken(strict, g, rest);
    case Block(ex, next) =>
      var t := [Letter(ex)] + [next] + rest;
      assert t[2..] == rest && |t| > 1;
    case Numeral(negative, digits, end) =>
      hide NextToken;
      GapEnds(strict, Denoted(negative, digits), end, rest);
      NumeralToken(strict, negative, digits, GapText(end) + rest);
      Assoc(digits, GapText(end), rest);
      Assoc(Sign(negative), digits + GapText(end), rest);
  }

  lemma EndingToken(strict: Strictness, e: Ending)
    requires EndingOk(strict, e)
    ensures NextToken(strict, EndingText(e)) ==
            if e.Nothing? || e.InComment? then End else TokenOf(EndingMarks(strict, e)[0], "")
  {
    hide NumberToken, NumeralOk;
    match e
    case Nothing =>
    case InComment(w) =>
      assert ("c" + w)[1..] == w;
      NoLineEnd(w);
    case AfterLetter(ex) =>
    case AfterNumeral(negative, digits, w) =>
      NumeralToken(strict, negative, digits, w);
      if w != "" {
        NoLineEnd(w[1..]);
      }
  }

  /** Comments, blanks, tabs and line ends change nothing, wherever they stand. */
  lemma GapsMeanNothing(strict: Strictness, vars: nat, clauses: nat, g: Gap, rest: string, st: State)
    requires GapOk(g)
    ensures Body(strict, vars, clauses, GapText(g) + rest, st) == Body(strict, vars, clauses, rest, st)
  {
    GapToken(strict, g, rest);
    hide NextToken, GapText, OnNumber, Finish;
  }

  /** It does not matter which of them ends a number. */
  lemma GapsEndNumbers(strict: Strictness, vars: nat, clauses: nat, negative: bool, digits: string, g: Gap, h: Gap,
                       rest: string, st: State)
    requires NumeralOk(negative, digits) && GapOk(g) && GapOk(h)
    ensures Body(strict, vars, clauses, PieceText(Numeral(negative, digits, g)) + rest, st) ==
            Body(strict, vars, clauses, PieceText(Numeral(negative, digits, h)) + rest, st)
  {
    PieceToken(strict, Numeral(negative, digits, g), rest);
    PieceToken(strict, Numeral(negative, digits, h), rest);
    hide NextToken, PieceText, OnNumber, Finish, NumeralOk, GapOk;
  }

  // ----- the clause loop on the text of a tree -----

  function StateOf(ms: seq<Mark>): State { State(BlockAfter(ms), ClausesIn(ms), LastNumber(ms), Callbacks(ms)) }

  predicate Counted(strict: Strictness, clauses: nat, ms: seq<Mark>) { strict == Relaxed || ClausesIn(ms) <= clauses }

  lemma StateSnoc(ms: seq<Mark>, m: Mark)
    ensures var b := BlockAfter(ms);
            StateOf(ms + [m]) ==
            if m.Opens? then StateOf(ms).(block := if m.existential then ExistsBlock else ForallBlock)
            else
              State(if m.l == 0 then NoBlock else b, ClausesIn(ms) + (if m.l == 0 && b == NoBlock then 1 else 0), m.l,
                    Callbacks(ms) + CalledFor(b, m))
  {
    assert (ms + [m])[..|ms|] == ms;
    NilRight(Callbacks(ms));
  }

  /** One number, in the loop and as a mark. */
  lemma NumberStep(strict: Strictness, vars: nat, clauses: nat, ms: seq<Mark>, l: int)
    requires Counted(strict, clauses, ms)
    ensures OnNumber(strict, vars, clauses, StateOf(ms), l) ==
            if Allowed(strict, vars, clauses, ms, Num(l)) then Next(StateOf(ms + [Num(l)]))
            else Fail(Refusal(vars, Num(l)))
    ensures Allowed(strict, vars, clauses, ms, Num(l)) ==> Counted(strict, clauses, ms + [Num(l)])
  {
    StateSnoc(ms, Num(l));
    NilRight(Callbacks(ms));
    hide BlockAfter, ClausesIn, Callbacks, LastNumber;
  }

  /** What the loop does with a token that has this mark. */
  lemma MarkStep(strict: Strictness, vars: nat, clauses: nat, s: string, rest: string, ms: seq<Mark>, m: Mark)
    requires Counted(strict, clauses, ms)
    requires NextToken(strict, s) == TokenOf(m, rest)
    ensures Body(strict, vars, clauses, s, StateOf(ms)) ==
            if Allowed(strict, vars, clauses, ms, m) then Body(strict, vars, clauses, rest, StateOf(ms + [m]))
            else (Rejected(Refusal(vars, m)), Callbacks(ms))
    ensures Allowed(strict, vars, clauses, ms, m) ==> Counted(strict, clauses, ms + [m])
  {
    StateSnoc(ms, m);
    if m.Num? { NumberStep(strict, vars, clauses, ms, m.l); }
    hide BlockAfter, ClausesIn, Callbacks, LastNumber, NextToken, OnNumber, Finish, CalledFor;
  }

  lemma MeaningEnds(strict: Strictness, vars: nat, clauses: nat, ms: seq<Mark>, n: nat)
    requires n <= |ms|
    ensures n == |ms| ==> Meaning(strict, vars, clauses, ms, n) == (AtEnd(strict, clauses, ms), Callbacks(ms))
    ensures n < |ms| ==>
              Meaning(strict, vars, clauses, ms, n) ==
              if Allowed(strict, vars, clauses, ms[..n], ms[n]) then Meaning(strict, vars, clauses, ms, n + 1)
              else (Rejected(Refusal(vars, ms[n])), Callbacks(ms[..n]))
  {
    hide Allowed, AtEnd, Callbacks;
    assert ms[..|ms|] == ms;
  }

  /** The text s from mark n on of all marks. */
  lemma MeaningStep(strict: Strictness, vars: nat, clauses: nat, s: string, rest: string, all: seq<Mark>, n: nat)
    requires n < |all| && Counted(strict, clauses, all[..n])
    requires NextToken(strict, s) == TokenOf(all[n], rest)
    requires Counted(strict, clauses, all[..n + 1]) ==>
               Body(strict, vars, clauses, rest, StateOf(all[..n + 1])) == Meaning(strict, vars, clauses, all, n + 1)
    ensures Body(strict, vars, clauses, s, StateOf(all[..n])) == Meaning(strict, vars, clauses, all, n)
  {
    hide NextToken, Body, Meaning, StateOf, Allowed, Counted;
    assert all[..n] + [all[n]] == all[..n + 1];
    MarkStep(strict, vars, clauses, s, rest, all[..n], all[n]);
    MeaningEnds(strict, vars, clauses, all, n);
  }

  lemma NothingLeft(strict: Strictness, vars: nat, clauses: nat, s: string, ms: seq<Mark>)
    requires NextToken(strict, s) == End && Counted(strict, clauses, ms)
    ensures Body(strict, vars, clauses, s, StateOf(ms)) == Meaning(strict, vars, clauses, ms, |ms|)
  {
    hide NextToken, BlockAfter, ClausesIn, Callbacks, LastNumber;
    MeaningEnds(strict, vars, clauses, ms, |ms|);
  }

  lemma EndingMeaning(strict: Strictness, vars: nat, clauses: nat, e: Ending, all: seq<Mark>, n: nat)
    requires EndingOk(strict, e) && n <= |all| && all[n..] == EndingMarks(strict, e)
    requires Counted(strict, clauses, all[..n])
    ensures Body(strict, vars, clauses, EndingText(e), StateOf(all[..n])) == Meaning(strict, vars, clauses, all, n)
  {
    EndingToken(strict, e);
    hide NextToken, Body, Meaning, StateOf, Counted, EndingText, NumeralOk, OneLine;
    assert n < |all| ==> all[n] == all[n..][0];
    assert all[..|all|] == all;
    if e.Nothing? || e.InComment? {
      NothingLeft(strict, vars, clauses, EndingText(e), all);
    } else {
      if Counted(strict, clauses, all[..n + 1]) {
        assert NextToken(strict, "") == End by { EndingToken(strict, Nothing); }
        NothingLeft(strict, vars, clauses, "", all);
      }
      MeaningStep(strict, vars, clauses, EndingText(e), "", all, n);
    }
  }

  lemma PiecesHead(ps: seq<Piece>, more: string)
    requires ps != [] && PiecesOk(ps)
    ensures PieceOk(ps[0]) && PiecesOk(ps[1..]) && Marks(ps) == PieceMarks(ps[0]) + Marks(ps[1..])
    ensures PiecesText(ps) + more == PieceText(ps[0]) + (PiecesText(ps[1..]) + more)
  {
    hide PieceOk, PieceMarks, PieceText;
    Assoc(PieceText(ps[0]), PiecesText(ps[1..]), more);
  }

  /** The loop on the text of a tree does what the tree's marks call for. */
  lemma {:induction false} PiecesMeaning(strict: Strictness, vars: nat, clauses: nat, ps: seq<Piece>, e: Ending,
                                         all: seq<Mark>, n: nat)
    requires PiecesOk(ps) && EndingOk(strict, e) && n <= |all| && all[n..] == Marks(ps) + EndingMarks(strict, e)
    requires Counted(strict, clauses, all[..n])
    ensures Body(strict, vars, clauses, PiecesText(ps) + EndingText(e), StateOf(all[..n])) ==
            Meaning(strict, vars, clauses, all, n)
    decreases |ps|, 0
  {
    hide Body, Meaning, StateOf, Counted, EndingOk, EndingMarks, EndingText, NextToken, PieceOk, PieceText, PieceMarks;
    if ps == [] {
      NilLeft(EndingText(e));
      NilLeft(EndingMarks(strict, e));
      EndingMeaning(strict, vars, clauses, e, all, n);
    } else {
      PiecesHead(ps, EndingText(e));
      OnePiece(strict, vars, clauses, ps, e, all, n);
    }
  }

  lemma {:induction false} OnePiece(strict: Strictness, vars: nat, clauses: nat, ps: seq<Piece>, e: Ending,
                                    all: seq<Mark>, n: nat)
    requires ps != [] && PieceOk(ps[0]) && PiecesOk(ps[1..]) && EndingOk(strict, e) && n <= |all|
    requires all[n..] == PieceMarks(ps[0]) + Marks(ps[1..]) + EndingMarks(strict, e)
    requires Counted(strict, clauses, all[..n])
    ensures Body(strict, vars, clauses, PieceText(ps[0]) + (PiecesText(ps[1..]) + EndingText(e)), StateOf(all[..n])) ==
            Meaning(strict, vars, clauses, all, n)
    decreases |ps| - 1, 1
  {
    var p, rest := ps[0], PiecesText(ps[1..]) + EndingText(e);
    PieceToken(strict, p, rest);
    hide Body, Meaning, StateOf, Counted, EndingOk, EndingMarks, EndingText, NextToken, PieceText, Marks, PiecesText;
    if p.Between? {
      NilLeft(Marks(ps[1..]));
      PiecesMeaning(strict, vars, clauses, ps[1..], e, all, n);
      GapsMeanNothing(strict, vars, clauses, p.gap, rest, StateOf(all[..n]));
      assert PieceText(p) == GapText(p.gap) by { hide *; BetweenText(p.gap); }
    } else {
      Assoc(PieceMarks(p), Marks(ps[1..]), EndingMarks(strict, e));
      FirstMark(all, n, PieceMarks(p)[0], Marks(ps[1..]) + EndingMarks(strict, e));
      if Counted(strict, clauses, all[..n + 1]) {
        PiecesMeaning(strict, vars, clauses, ps[1..], e, all, n + 1);
      }
      MeaningStep(strict, vars, clauses, PieceText(p) + rest, rest, all, n);
    }
  }

  lemma BetweenText(g: Gap)
    ensures PieceText(Between(g)) == GapText(g)
  {
  }

  lemma FirstMark(all: seq<Mark>, n: nat, m: Mark, more: seq<Mark>)
    requires n <= |all| && all[n..] == [m] + more
    ensures n < |all| && all[n] == m && all[n + 1..] == more
  {
    assert all[n..][0] == m && all[n..][1..] == more;
  }

  // ----- acceptance -----

  /** Modes that check never close more clauses than announced. */
  lemma {:induction false} StaysCounted(strict: Strictness, vars: nat, clauses: nat, ms: seq<Mark>, n: nat)
    requires n <= |ms| && AllowedTo(strict, vars, clauses, ms, n)
    ensures Counted(strict, clauses, ms[..n])
  {
    if n > 0 {
      StaysCounted(strict, vars, clauses, ms, n - 1);
      assert ms[..n][..n - 1] == ms[..n - 1];
      assert Allowed(strict, vars, clauses, ms[..n - 1], ms[n - 1]);
    }
  }

  lemma {:induction false} FirstRefusedIs(strict: Strictness, vars: nat, clauses: nat, ms: seq<Mark>, n: nat)
    requires n <= |ms| && AllowedTo(strict, vars, clauses, ms, n)
    ensures var k := FirstRefused(strict, vars, clauses, ms, n);
            && AllowedTo(strict, vars, clauses, ms, k)
            && (k < |ms| ==> !Allowed(strict, vars, clauses, ms[..k], ms[k]))
    decreases |ms| - n
  {
    hide Allowed;
    if n < |ms| && Allowed(strict, vars, clauses, ms[..n], ms[n]) {
      FirstRefusedIs(strict, vars, clauses, ms, n + 1);
    }
  }

  /** The marks are accepted exactly when they fit, and then all of them are called back. */
  lemma FitsExact(strict: Strictness, vars: nat, clauses: nat, ms: seq<Mark>)
    ensures var (outcome, calls) := Meaning(strict, vars, clauses, ms, 0);
            && (outcome.Accepted? <==> Fits(strict, vars, clauses, ms))
            && (outcome.Accepted? ==> calls == Callbacks(ms))
  {
    FirstRefusedIs(strict, vars, clauses, ms, 0);
    hide FirstRefused, Allowed, ClausesIn, LastNumber, Callbacks, Refusal;
    assert ms[..|ms|] == ms;
    if AllowedTo(strict, vars, clauses, ms, |ms|) {
      StaysCounted(strict, vars, clauses, ms, |ms|);
    }
  }

  lemma {:induction false} LineOf(s: string) returns (w: string)
    ensures AfterLine(s).At? ==> OneLine(w) && s == w + "\n" + AfterLine(s).rest
    ensures AfterLine(s).Stop? ==> OneLine(s)
  {
    w := "";
    if s != "" && s[0] != '\n' {
      w := LineOf(s[1..]);
      HeadTail(s);
      Assoc([s[0]], w, "\n");
      Assoc([s[0]], w + "\n", if AfterLine(s).At? then AfterLine(s).rest else "");
      w := [s[0]] + w;
    } else if s != "" {
      NilLeft("\n");
      HeadTail(s);
    }
  }

  lemma TwoChars(s: string)
    requires |s| >= 2
    ensures s == [s[0]] + [s[1]] + s[2..] && s[1..] != "" && s[1..][0] == s[1]
  {
  }

  /** Which tokens begin how. */
  lemma TokenKinds(strict: Strictness, s: string)
    ensures var t := NextToken(strict, s);
            && (t.End? ==> s == "" || (s[0] == 'c' && AfterLine(s[1..]).Stop? && strict != Pedantic))
            && (t.Open? ==> s != "" && s[0] == Letter(t.existential) && t.rest == if |s| == 1 then "" else s[2..])
            && (t.Skip? ==>
                  s != "" && if s[0] == 'c' then AfterLine(s[1..]) == At(t.rest)
                             else if s[0] == '\r' then Starts(s[1..], '\n') && t.rest == s[2..]
                             else (s[0] == ' ' || s[0] == '\t' || s[0] == '\n') && t.rest == s[1..])
            && (t.Number? ==>
                  s != "" && if s[0] == '-' then Digits(s[1..]) && s[1] != '0' && t == NumberToken(strict, true, s[1..])
                             else Digits(s) && t == NumberToken(strict, false, s))
  {
    if s != "" {
      NumberShrinks(strict, false, s);
      NumberShrinks(strict, true, s[1..]);
    }
    hide NumberToken, AfterLine;
  }

  /** What is skipped is a gap. */
  lemma GapOf(strict: Strictness, s: string) returns (g: Gap)
    requires NextToken(strict, s).Skip?
    ensures GapOk(g) && s == GapText(g) + NextToken(strict, s).rest
  {
    TokenKinds(strict, s);
    HeadTail(s);
    hide NextToken, NumberToken, AfterLine;
    if s[0] == 'c' {
      var w := LineOf(s[1..]);
      Assoc("c", w + "\n", AfterLine(s[1..]).rest);
      g := Comment(w);
    } else if s[0] == '\r' {
      TwoChars(s);
      g := Return;
    } else {
      g := if s[0] == ' ' then Space else if s[0] == '\t' then Tab else Newline;
    }
  }

  /** What follows a number is a gap, or the end of the file. */
  lemma GapBehind(strict: Strictness, l: int, t: string) returns (g: Gap, ends: bool)
    requires EndOfNumber(strict, l, t).Number?
    ensures EndOfNumber(strict, l, t).lit == l
    ensures !ends ==> GapOk(g) && t == GapText(g) + EndOfNumber(strict, l, t).rest
    ensures ends ==>
              strict != Pedantic && (t == "" || (t[0] == 'c' && OneLine(t))) && EndOfNumber(strict, l, t).rest == ""
  {
    g, ends := Newline, t == "";
    if t != "" {
      HeadTail(t);
      if t[0] == 'c' {
        var w := LineOf(t[1..]);
        if AfterLine(t[1..]).At? {
          Assoc("c", w + "\n", AfterLine(t[1..]).rest);
          g := Comment(w);
        } else {
          ends := true;
          assert forall i :: 1 <= i < |t| ==> t[i] == t[1..][i - 1];
        }
      } else if t[0] == '\r' {
        TwoChars(t);
        g := Return;
      } else {
        g := if t[0] == ' ' then Space else if t[0] == '\t' then Tab else Newline;
      }
    }
  }

  /** The numeral at the front of a text with a number token. */
  lemma DigitsOf(strict: Strictness, negative: bool, s: string) returns (digits: string, t: string)
    requires Digits(s) && NumberToken(strict, negative, s).Number? && (negative ==> s[0] != '0')
    ensures NumeralOk(negative, digits) && s == digits + t
    ensures NumberToken(strict, negative, s) == EndOfNumber(strict, Denoted(negative, digits), t)
  {
    hide EndOfNumber, Value;
    var n := Parser.Run(s);
    digits, t := s[..n], s[n..];
    assert n > 0;
  }

  /** A number token is a numeral. */
  lemma NumeralOf(strict: Strictness, s: string) returns (negative: bool, digits: string, t: string)
    requires NextToken(strict, s).Number?
    ensures NumeralOk(negative, digits) && s == Sign(negative) + (digits + t)
    ensures NextToken(strict, s) == EndOfNumber(strict, Denoted(negative, digits), t)
  {
    TokenKinds(strict, s);
    hide NextToken, NumberToken, EndOfNumber, Value, AfterLine;
    negative := s[0] == '-';
    if negative {
      HeadTail(s);
      digits, t := DigitsOf(strict, true, s[1..]);
    } else {
      digits, t := DigitsOf(strict, false, s);
      NilLeft(s);
    }
  }

  /** The piece a token was made of, or the end of the file. */
  lemma PieceOf(strict: Strictness, s: string) returns (p: Piece, e: Ending, ends: bool)
    requires !NextToken(strict, s).Bad?
    ensures var t := NextToken(strict, s);
            && (ends ==> EndingOk(strict, e) && s == EndingText(e))
            && (!ends ==> PieceOk(p) && !t.End? && s == PieceText(p) + t.rest)
            && (t.End? ==> ends)
  {
    var t := NextToken(strict, s);
    p, e, ends := Between(Newline), Nothing, false;
    if t.Skip? {
      var g := GapOf(strict, s);
      p := Between(g);
    } else if t.End? {
      ends := true;
      e := EndOf(strict, s);
    } else if t.Open? {
      p, e, ends := BlockOf(strict, s);
    } else {
      p, e, ends := NumeralPiece(strict, s);
    }
    hide NextToken, GapText, GapOk;
  }

  lemma EndOf(strict: Strictness, s: string) returns (e: Ending)
    requires NextToken(strict, s).End?
    ensures EndingOk(strict, e) && s == EndingText(e)
  {
    TokenKinds(strict, s);
    hide NextToken, AfterLine;
    e := Nothing;
    if s != "" {
      var _ := LineOf(s[1..]);
      HeadTail(s);
      e := InComment(s[1..]);
    }
  }

  lemma BlockOf(strict: Strictness, s: string) returns (p: Piece, e: Ending, ends: bool)
    requires NextToken(strict, s).Open?
    ensures ends ==> EndingOk(strict, e) && s == EndingText(e)
    ensures !ends ==> PieceOk(p) && s == PieceText(p) + NextToken(strict, s).rest
  {
    TokenKinds(strict, s);
    hide NextToken;
    var ex := s[0] == 'e';
    HeadTail(s);
    if |s| > 1 { TwoChars(s); }
    p, e, ends := if |s| > 1 then Block(ex, s[1]) else Between(Newline), AfterLetter(ex), |s| == 1;
  }

  lemma NumeralPiece(strict: Strictness, s: string) returns (p: Piece, e: Ending, ends: bool)
    requires NextToken(strict, s).Number?
    ensures ends ==> EndingOk(strict, e) && s == EndingText(e)
    ensures !ends ==> PieceOk(p) && s == PieceText(p) + NextToken(strict, s).rest
  {
    var negative, digits, t := NumeralOf(strict, s);
    var l := Denoted(negative, digits);
    hide NextToken, EndOfNumber, GapText, GapOk, Value;
    var g;
    g, ends := GapBehind(strict, l, t);
    p, e := Numeral(negative, digits, g), AfterNumeral(negative, digits, t);
    if !ends {
      var rest := EndOfNumber(strict, l, t).rest;
      Assoc(digits, GapText(g), rest);
      Assoc(Sign(negative), digits + GapText(g), rest);
    }
  }

  lemma PiecesCons(p: Piece, ps: seq<Piece>, e: Ending)
    requires PieceOk(p) && PiecesOk(ps)
    ensures PiecesOk([p] + ps)
    ensures PiecesText([p] + ps) + EndingText(e) == PieceText(p) + (PiecesText(ps) + EndingText(e))
  {
    hide PieceOk, PieceText, EndingText;
    Cons(p, ps);
    Assoc(PieceText(p), PiecesText(ps), EndingText(e));
  }

  lemma AcceptedGoesOn(strict: Strictness, vars: nat, clauses: nat, s: string, st: State) returns (next: State)
    requires Body(strict, vars, clauses, s, st).0.Accepted?
    ensures var t := NextToken(strict, s);
            && !t.Bad? && (!t.End? ==> |t.rest| < |s| && Body(strict, vars, clauses, t.rest, next).0.Accepted?)
  {
    TokenShrinks(strict, s);
    var t := NextToken(strict, s);
    next := if t.Open? then st.(block := if t.existential then ExistsBlock else ForallBlock)
            else if t.Number? && OnNumber(strict, vars, clauses, st, t.lit).Next? then
              OnNumber(strict, vars, clauses, st, t.lit).state
            else st;
    hide NextToken, OnNumber;
  }

  /** Every text the loop accepts is the text of a tree. */
  lemma {:induction false} TreeOf(strict: Strictness, vars: nat, clauses: nat, s: string, st: State)
    returns (ps: seq<Piece>, e: Ending)
    requires Body(strict, vars, clauses, s, st).0.Accepted?
    ensures PiecesOk(ps) && EndingOk(strict, e) && s == PiecesText(ps) + EndingText(e)
    decreases |s|
  {
    hide *;
    var next := AcceptedGoesOn(strict, vars, clauses, s, st);
    var p, ends;
    p, e, ends := PieceOf(strict, s);
    if ends {
      ps := [];
      NoPieces(e);
    } else {
      var rest := NextToken(strict, s).rest;
      ps, e := TreeOf(strict, vars, clauses, rest, next);
      PiecesCons(p, ps, e);
      ps := [p] + ps;
    }
  }

  lemma NoPieces(e: Ending)
    ensures PiecesOk([]) && PiecesText([]) + EndingText(e) == EndingText(e)
  {
  }
}
