/** Whole files: the lines before the header, the header line, and the body.  The parser
    accepts exactly the texts of the documents that fit, and calls back what they say. */
module Documents {
  import opened Numerals
  import opened Parser
  import opened Grammar
  import opened Seqs
  import RoundTrip

  // ----- documents and their text -----

  /** A line before the header; cr says whether it ends with a carriage return. */
  datatype HeadLine = Empty(cr: bool) | Remark(text: string, cr: bool)

  predicate RemarkOk(w: string) { forall i :: 0 <= i < |w| ==> w[i] != '\n' && w[i] != '\r' }

  predicate HeadLineOk(strict: Strictness, l: HeadLine) {
    if l.Remark? then RemarkOk(l.text) else strict != Pedantic
  }

  function LineEnd(cr: bool): string { if cr then "\r\n" else "\n" }

  function HeadLineText(l: HeadLine): string {
    match l
    case Empty(cr) => LineEnd(cr)
    case Remark(w, cr) => "c" + (w + LineEnd(cr))
  }

  function HeadLinesText(ls: seq<HeadLine>): string {
    if ls == [] then "" else HeadLineText(ls[0]) + HeadLinesText(ls[1..])
  }

  predicate HeadLinesOk(strict: Strictness, ls: seq<HeadLine>) {
    forall i :: 0 <= i < |ls| ==> HeadLineOk(strict, ls[i])
  }

  /** The header line: the digits of the two counts, the blanks before and after them, and
      those behind the "p " at ps front. */
  datatype Heading = Heading(
    lines: seq<HeadLine>, front: string, before: string, vars: string, between: string, clauses: string, behind: string,
    cr: bool)

  /** The pedantic mode wants no more blanks than needed. */
  predicate BlanksOk(strict: Strictness, b: string) {
    (forall i :: 0 <= i < |b| ==> b[i] == ' ' || b[i] == '\t') && (strict == Pedantic ==> b == "")
  }

  predicate NumberOk(digits: string, max: nat) { digits != "" && AllDigits(digits) && Value(digits) <= max }

  predicate HeadingOk(strict: Strictness, h: Heading) {
    && HeadLinesOk(strict, h.lines)
    && BlanksOk(strict, h.front) && BlanksOk(strict, h.before)
    && BlanksOk(strict, h.between) && BlanksOk(strict, h.behind)
    && NumberOk(h.vars, MAX_VARS) && NumberOk(h.clauses, UINT64_MAX)
  }

  function NameText(front: string, before: string, rest: string): string { " " + (front + ("cnf " + (before + rest))) }

  function HeadingText(h: Heading, body: string): string {
    HeadLinesText(h.lines) +
    ("p" +
     NameText(h.front, h.before, h.vars + (" " + (h.between + (h.clauses + (h.behind + (LineEnd(h.cr) + body)))))))
  }

  datatype Document = Document(heading: Heading, pieces: seq<Piece>, ending: Ending)

  predicate DocumentOk(strict: Strictness, d: Document) {
    HeadingOk(strict, d.heading) && PiecesOk(d.pieces) && EndingOk(strict, d.ending)
  }

  function DocumentText(d: Document): string { HeadingText(d.heading, PiecesText(d.pieces) + EndingText(d.ending)) }

  function DocumentMarks(strict: Strictness, d: Document): seq<Mark>
    requires DocumentOk(strict, d)
  {
    Marks(d.pieces) + EndingMarks(strict, d.ending)
  }

  /** The document's marks fit the counts in ps header line. */
  predicate DocumentFits(strict: Strictness, d: Document) {
    DocumentOk(strict, d) && Fits(strict, Value(d.heading.vars), Value(d.heading.clauses), DocumentMarks(strict, d))
  }

  // ----- before the header -----

  lemma LineEndAt(cr: bool, rest: string)
    ensures var t := LineEnd(cr) + rest;
            && t != "" && t[0] == (if cr then '\r' else '\n') && t[1..] == (if cr then "\n" + rest else rest)
            && (cr ==> AfterReturn(t[1..]) == At(rest) && t[2..] == rest)
  {
    assert ("\n" + rest)[1..] == rest;
  }

  lemma {:induction false} HeaderCommentAt(w: string, cr: bool, rest: string)
    requires RemarkOk(w)
    ensures HeaderComment(w + (LineEnd(cr) + rest)) == At(rest)
  {
    if w == "" {
      NilLeft(LineEnd(cr) + rest);
      LineEndAt(cr, rest);
    } else {
      TailConcat(w, LineEnd(cr) + rest);
      HeaderCommentAt(w[1..], cr, rest);
    }
  }

  /** Header comments, and outside the pedantic mode empty lines, are skipped. */
  lemma HeadLineSkipped(strict: Strictness, l: HeadLine, rest: string, first: bool)
    requires HeadLineOk(strict, l)
    ensures FindHeader(strict, HeadLineText(l) + rest, first) == FindHeader(strict, rest, false)
  {
    hide AfterReturn;
    if l.Remark? {
      HeaderCommentAt(l.text, l.cr, rest);
      Assoc(l.text, LineEnd(l.cr), rest);
      Assoc("c", l.text + LineEnd(l.cr), rest);
      Cons('c', l.text + LineEnd(l.cr) + rest);
    } else {
      LineEndAt(l.cr, rest);
    }
    hide HeaderComment, LineEnd;
  }

  lemma {:induction false} HeaderFound(strict: Strictness, ls: seq<HeadLine>, rest: string, first: bool)
    requires HeadLinesOk(strict, ls)
    ensures FindHeader(strict, HeadLinesText(ls) + ("p" + rest), first) == At(rest)
    decreases |ls|
  {
    if ls == [] {
      NilLeft("p" + rest);
      Cons('p', rest);
    } else {
      hide FindHeader, HeadLineText, HeadLineOk;
      Assoc(HeadLineText(ls[0]), HeadLinesText(ls[1..]), "p" + rest);
      HeadLineSkipped(strict, ls[0], HeadLinesText(ls[1..]) + ("p" + rest), first);
      HeaderFound(strict, ls[1..], rest, false);
    }
  }

  // ----- the header line -----

  lemma {:induction false} BlanksSkipped(b: string, rest: string)
    requires (forall i :: 0 <= i < |b| ==> b[i] == ' ' || b[i] == '\t') && !Blank(rest)
    ensures SkipBlanks(b + rest) == rest
  {
    if b == "" {
      NilLeft(rest);
    } else {
      TailConcat(b, rest);
      BlanksSkipped(b[1..], rest);
    }
  }

  lemma BlanksAt(strict: Strictness, b: string, rest: string)
    requires BlanksOk(strict, b) && !Blank(rest)
    ensures Blanks(strict, b + rest) == rest
  {
    BlanksSkipped(b, rest);
    NilLeft(rest);
  }

  lemma NameAt(strict: Strictness, front: string, before: string, rest: string)
    requires BlanksOk(strict, front) && BlanksOk(strict, before) && !Blank(rest)
    ensures FormatName(strict, NameText(front, before, rest)) == At(rest)
  {
    var t := "cnf " + (before + rest);
    Cons(' ', front + t);
    BlanksAt(strict, front, t);
    BlanksAt(strict, before, rest);
    assert t[4..] == before + rest && t[1..][0] == 'n' && t[2..][0] == 'f' && t[3..][0] == ' ';
    hide Blanks;
  }

  lemma RunAt(digits: string, rest: string)
    requires AllDigits(digits) && !Digits(rest)
    ensures var s := digits + rest; Run(s) == |digits| && s[..Run(s)] == digits && s[Run(s)..] == rest
  {
    RoundTrip.RunOfDigits(digits, rest);
  }

  lemma VariablesAt(strict: Strictness, vars: string, between: string, rest: string)
    requires NumberOk(vars, MAX_VARS) && BlanksOk(strict, between) && !Blank(rest)
    ensures VariableCount(strict, vars + (" " + (between + rest))) == Count(Value(vars), rest)
  {
    var t := " " + (between + rest);
    assert !Digits(t);
    RunAt(vars, t);
    hide AfterMaxVar, Value, Run, AllDigits, Digits;
    assert VariableCount(strict, vars + t) == AfterMaxVar(strict, Value(vars), t);
    BehindVariables(strict, Value(vars), between, rest);
    hide VariableCount;
  }

  lemma BehindVariables(strict: Strictness, value: nat, between: string, rest: string)
    requires BlanksOk(strict, between) && !Blank(rest)
    ensures AfterMaxVar(strict, value, " " + (between + rest)) == Count(value, rest)
  {
    Cons(' ', between + rest);
    BlanksAt(strict, between, rest);
    hide Blanks;
  }

  lemma ClausesAt(strict: Strictness, clauses: string, behind: string, cr: bool, rest: string)
    requires NumberOk(clauses, UINT64_MAX) && BlanksOk(strict, behind)
    ensures ClauseCount(strict, clauses + (behind + (LineEnd(cr) + rest))) == Count(Value(clauses), rest)
  {
    LineEndAt(cr, rest);
    var t := LineEnd(cr) + rest;
    if behind == "" { NilLeft(t); } else { TailConcat(behind, t); }
    RunAt(clauses, behind + t);
    BlanksAt(strict, behind, t);
    assert t[1..] != "" && cr ==> t[1..][0] == '\n';
    hide Blanks, Value, Run, AfterReturn;
  }

  /** A heading is read up to the body. */
  lemma HeadingRead(strict: Strictness, h: Heading, body: string)
    requires HeadingOk(strict, h)
    ensures Parse(strict, HeadingText(h, body)) == Body(strict, Value(h.vars), Value(h.clauses), body, START)
  {
    var c := h.clauses + (h.behind + (LineEnd(h.cr) + body));
    var v := h.vars + (" " + (h.between + c));
    assert !Blank(c) && !Blank(v);
    HeaderFound(strict, h.lines, NameText(h.front, h.before, v), true);
    hide FindHeader, HeadLinesText, HeadLinesOk, Body, Value, FormatName, VariableCount, ClauseCount, NameText;
    NameAt(strict, h.front, h.before, v);
    VariablesAt(strict, h.vars, h.between, c);
    ClausesAt(strict, h.clauses, h.behind, h.cr, body);
  }

  /** Every document, in every mode: outcome and callbacks are what ps marks call for; the
      gaps between them, the comments and the lines before the header have no part in it. */
  lemma DocumentRead(strict: Strictness, d: Document)
    requires DocumentOk(strict, d)
    ensures Parse(strict, DocumentText(d)) ==
            Meaning(strict, Value(d.heading.vars), Value(d.heading.clauses), DocumentMarks(strict, d), 0)
    ensures Parse(strict, DocumentText(d)).0.Accepted? <==> DocumentFits(strict, d)
  {
    var vars, clauses, all := Value(d.heading.vars), Value(d.heading.clauses), DocumentMarks(strict, d);
    var body := PiecesText(d.pieces) + EndingText(d.ending);
    hide Parse, HeadingText, Body, Meaning, Value, PiecesOk, EndingOk, EndingText, EndingMarks, PiecesText, Marks;
    HeadingRead(strict, d.heading, body);
    assert all[0..] == all && all[..0] == [];
    PiecesMeaning(strict, vars, clauses, d.pieces, d.ending, all, 0);
    FitsExact(strict, vars, clauses, all);
  }

  // ----- accepted files are documents -----

  lemma {:induction false} RemarkOf(s: string) returns (w: string, cr: bool)
    requires HeaderComment(s).At?
    ensures RemarkOk(w) && s == w + (LineEnd(cr) + HeaderComment(s).rest)
  {
    w, cr := "", s[0] == '\r';
    HeadTail(s);
    if s[0] == '\n' || s[0] == '\r' {
      NilLeft(s);
      if cr { TwoChars(s); }
    } else {
      w, cr := RemarkOf(s[1..]);
      Assoc([s[0]], w, LineEnd(cr) + HeaderComment(s).rest);
      w := [s[0]] + w;
    }
  }

  lemma LinesCons(strict: Strictness, l: HeadLine, ls: seq<HeadLine>, more: string)
    requires HeadLineOk(strict, l) && HeadLinesOk(strict, ls)
    ensures HeadLinesOk(strict, [l] + ls)
    ensures HeadLinesText([l] + ls) + more == HeadLineText(l) + (HeadLinesText(ls) + more)
  {
    hide HeadLineOk, HeadLineText;
    Cons(l, ls);
    Assoc(HeadLineText(l), HeadLinesText(ls), more);
  }

  /** One line before the header. */
  lemma HeadLineOf(strict: Strictness, s: string, first: bool) returns (l: HeadLine, rest: string)
    requires FindHeader(strict, s, first).At? && s[0] != 'p'
    ensures HeadLineOk(strict, l) && s == HeadLineText(l) + rest && |rest| < |s|
    ensures FindHeader(strict, rest, false) == FindHeader(strict, s, first)
  {
    HeadTail(s);
    if s[0] == 'c' {
      HeaderCommentShrinks(s[1..]);
      var w, cr := RemarkOf(s[1..]);
      l, rest := Remark(w, cr), HeaderComment(s[1..]).rest;
      Assoc(w, LineEnd(cr), rest);
      Assoc("c", w + LineEnd(cr), rest);
    } else {
      if s[0] == '\r' { TwoChars(s); }
      l, rest := Empty(s[0] == '\r'), if s[0] == '\r' then s[2..] else s[1..];
    }
  }

  lemma {:induction false} LinesOf(strict: Strictness, s: string, first: bool) returns (ls: seq<HeadLine>)
    requires FindHeader(strict, s, first).At?
    ensures HeadLinesOk(strict, ls) && s == HeadLinesText(ls) + ("p" + FindHeader(strict, s, first).rest)
    decreases |s|
  {
    ls := [];
    if s[0] == 'p' {
      HeadTail(s);
      NilLeft(s);
    } else {
      hide HeadLineOk, HeadLineText;
      var l, rest := HeadLineOf(strict, s, first);
      hide FindHeader;
      ls := LinesOf(strict, rest, false);
      LinesCons(strict, l, ls, "p" + FindHeader(strict, s, first).rest);
      ls := [l] + ls;
    }
  }

  lemma {:induction false} SkippedOf(s: string) returns (b: string)
    ensures (forall i :: 0 <= i < |b| ==> b[i] == ' ' || b[i] == '\t') && s == b + SkipBlanks(s)
  {
    b := "";
    NilLeft(s);
    if Blank(s) {
      HeadTail(s);
      b := SkippedOf(s[1..]);
      Assoc([s[0]], b, SkipBlanks(s));
      b := [s[0]] + b;
    }
  }

  lemma BlanksOf(strict: Strictness, s: string) returns (b: string)
    ensures BlanksOk(strict, b) && s == b + Blanks(strict, s)
  {
    b := SkippedOf(s);
    if strict == Pedantic { b := ""; }
    NilLeft(s);
  }

  lemma NameOf(strict: Strictness, s: string) returns (front: string, before: string)
    requires FormatName(strict, s).At?
    ensures BlanksOk(strict, front) && BlanksOk(strict, before)
    ensures s == NameText(front, before, FormatName(strict, s).rest)
  {
    HeadTail(s);
    var t := Blanks(strict, s[1..]);
    front := BlanksOf(strict, s[1..]);
    before := BlanksOf(strict, t[4..]);
    assert t[1..][0] == t[1] && t[2..][0] == t[2] && t[3..][0] == t[3];
    assert t == "cnf " + t[4..];
    hide Blanks, BlanksOk;
  }

  lemma DigitsRun(s: string)
    ensures Run(s) > 0 <==> Digits(s)
  {
  }

  lemma VariablesOf(strict: Strictness, s: string) returns (vars: string, between: string)
    requires VariableCount(strict, s).Count?
    ensures NumberOk(vars, MAX_VARS) && BlanksOk(strict, between)
    ensures s == vars + (" " + (between + VariableCount(strict, s).rest))
    ensures VariableCount(strict, s).value == Value(vars)
  {
    hide Value, Run, Blanks, BlanksOk;
    vars := s[..Run(s)];
    var t := s[Run(s)..];
    HeadTail(t);
    between := BlanksOf(strict, t[1..]);
  }

  lemma ClausesOf(strict: Strictness, s: string) returns (clauses: string, behind: string, cr: bool)
    requires ClauseCount(strict, s).Count?
    ensures NumberOk(clauses, UINT64_MAX) && BlanksOk(strict, behind)
    ensures s == clauses + (behind + (LineEnd(cr) + ClauseCount(strict, s).rest))
    ensures ClauseCount(strict, s).value == Value(clauses)
  {
    hide Value, Run, Blanks, BlanksOk;
    clauses := s[..Run(s)];
    var t := s[Run(s)..];
    behind := BlanksOf(strict, t);
    var u := Blanks(strict, t);
    HeadTail(u);
    cr := u[0] == '\r';
    if cr { TwoChars(u); }
  }

  lemma HeadingOf(strict: Strictness, file: string) returns (h: Heading, body: string)
    requires Parse(strict, file).0.Accepted?
    ensures HeadingOk(strict, h) && file == HeadingText(h, body)
    ensures Parse(strict, file) == Body(strict, Value(h.vars), Value(h.clauses), body, START)
  {
    hide FindHeader, FormatName, VariableCount, ClauseCount, Body, Value, NameText, HeadLinesOk, HeadLinesText;
    hide BlanksOk;
    var f := FindHeader(strict, file, true);
    var n := FormatName(strict, f.rest);
    var v := VariableCount(strict, n.rest);
    var lines := LinesOf(strict, file, true);
    var front, before := NameOf(strict, f.rest);
    var vars, between := VariablesOf(strict, n.rest);
    var clauses, behind, cr := ClausesOf(strict, v.rest);
    h, body := Heading(lines, front, before, vars, between, clauses, behind, cr), ClauseCount(strict, v.rest).rest;
    hide Parse;
  }

  /** Every accepted file is a document that fits, and what was called back is what the
      document says. */
  lemma AcceptedDocument(strict: Strictness, file: string) returns (d: Document)
    requires Parse(strict, file).0.Accepted?
    ensures DocumentFits(strict, d) && file == DocumentText(d)
    ensures Parse(strict, file).1 == Callbacks(DocumentMarks(strict, d))
  {
    var h, body := HeadingOf(strict, file);
    hide Parse, HeadingText, Body, Value, PiecesOk, EndingOk, EndingText, EndingMarks, PiecesText, Marks, Fits;
    hide HeadingOk;
    var ps, e := TreeOf(strict, Value(h.vars), Value(h.clauses), body, START);
    d := Document(h, ps, e);
    DocumentRead(strict, d);
    FitsExact(strict, Value(h.vars), Value(h.clauses), DocumentMarks(strict, d));
    hide Meaning;
  }
}
