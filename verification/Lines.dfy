/** The line buffer between the solver's output and the verdict on its lines. */
module Lines {

  // ----- splitting at newlines -----

  /** The position of the first c, or the length. */
  function Index(s: string, c: char): (k: nat)
    ensures k <= |s| && c !in s[..k] && (k < |s| <==> c in s) && (k < |s| ==> s[k] == c)
  {
    if s == "" then 0
    else if s[0] == c then 0
    else
      assert s == [s[0]] + s[1..];
      1 + Index(s[1..], c)
  }

  /** The complete lines, without their newlines. */
  function Split(s: string): seq<string> {
    var k := Index(s, '\n');
    if k == |s| then [] else [s[..k]] + Split(s[k + 1..])
  }

  /** What follows the last newline. */
  function Rest(s: string): string {
    var k := Index(s, '\n');
    if k == |s| then s else Rest(s[k + 1..])
  }

  function Unsplit(ls: seq<string>, rest: string): string {
    if ls == [] then rest else ls[0] + "\n" + Unsplit(ls[1..], rest)
  }

  function Newlines(s: string): nat {
    if s == "" then 0 else Newlines(s[..|s| - 1]) + (if s[|s| - 1] == '\n' then 1 else 0)
  }

  predicate Unbroken(ls: seq<string>) { forall i :: 0 <= i < |ls| ==> '\n' !in ls[i] }

  lemma IndexIs(s: string, c: char, k: nat)
    requires k <= |s| && c !in s[..k] && (k < |s| ==> s[k] == c)
    ensures Index(s, c) == k
  {
    assert Index(s, c) <= k;
  }

  lemma SplitCons(line: string, s: string)
    requires '\n' !in line
    ensures Split(line + "\n" + s) == [line] + Split(s) && Rest(line + "\n" + s) == Rest(s)
  {
    var t := line + "\n" + s;
    assert t[..|line|] == line && t[|line|] == '\n' && t[|line| + 1..] == s;
    IndexIs(t, '\n', |line|);
  }

  lemma SplitNone(s: string)
    requires '\n' !in s
    ensures Split(s) == [] && Rest(s) == s
  {
  }

  lemma CutAt(s: string, k: nat)
    requires k < |s| && s[k] == '\n'
    ensures s == s[..k] + "\n" + s[k + 1..]
  {
  }

  lemma Regroup(line: string, u: string, t: string)
    ensures line + "\n" + u + t == line + "\n" + (u + t)
  {
  }

  lemma NoLines(ls: seq<string>)
    ensures [] + ls == ls
  {
  }

  lemma UnsplitCons(line: string, ls: seq<string>, rest: string)
    ensures Unsplit([line] + ls, rest) == line + "\n" + Unsplit(ls, rest)
  {
    assert ([line] + ls)[1..] == ls;
  }

  /** Split and Rest are the only way to cut the text into newline-free lines. */
  lemma {:induction false} SplitUnsplit(ls: seq<string>, rest: string)
    requires Unbroken(ls) && '\n' !in rest
    ensures Split(Unsplit(ls, rest)) == ls && Rest(Unsplit(ls, rest)) == rest
  {
    if ls == [] {
      SplitNone(rest);
    } else {
      SplitUnsplit(ls[1..], rest);
      SplitCons(ls[0], Unsplit(ls[1..], rest));
    }
  }

  lemma {:induction false} UnsplitSplit(s: string)
    ensures Unsplit(Split(s), Rest(s)) == s && Unbroken(Split(s)) && '\n' !in Rest(s)
    decreases |s|
  {
    var k := Index(s, '\n');
    if k < |s| {
      var line, t := s[..k], s[k + 1..];
      hide Index, Split, Rest, Unsplit;
      UnsplitSplit(t);
      CutAt(s, k);
      SplitCons(line, t);
      UnsplitCons(line, Split(t), Rest(t));
    } else {
      SplitNone(s);
    }
  }

  lemma {:induction false} NewlinesConcat(s: string, t: string)
    ensures Newlines(s + t) == Newlines(s) + Newlines(t)
    decreases |t|
  {
    if t == "" {
      assert s + t == s;
    } else {
      assert (s + t)[..|s + t| - 1] == s + t[..|t| - 1];
      NewlinesConcat(s, t[..|t| - 1]);
    }
  }

  lemma {:induction false} NoNewlines(s: string)
    ensures Newlines(s) == 0 <==> '\n' !in s
  {
    if s == "" {
    } else {
      NoNewlines(s[..|s| - 1]);
      assert s == s[..|s| - 1] + [s[|s| - 1]];
    }
  }

  lemma OneNewline()
    ensures Newlines("\n") == 1
  {
    assert "\n"[..0] == "";
  }

  lemma CutOne(s: string, k: nat)
    requires k < |s| && k == Index(s, '\n')
    ensures Newlines(s) == 1 + Newlines(s[k + 1..])
  {
    hide Newlines, Index;
    var a, b := s[..k], s[k + 1..];
    CutAt(s, k);
    NewlinesConcat(a + "\n", b);
    NewlinesConcat(a, "\n");
    OneNewline();
    NoNewlines(a);
  }

  /** Cutting a text in two: the first part's remainder goes with the second part. */
  lemma {:induction false} SplitConcat(s: string, t: string)
    ensures Split(s + t) == Split(s) + Split(Rest(s) + t)
    ensures Rest(s + t) == Rest(Rest(s) + t)
    decreases |s|
  {
    hide Index, Split, Rest;
    var k := Index(s, '\n');
    if k < |s| {
      var line, u := s[..k], s[k + 1..];
      SplitConcat(u, t);
      CutAt(s, k);
      Regroup(line, u, t);
      SplitCons(line, u);
      SplitCons(line, u + t);
      ConsConcat(line, Split(u), Split(Rest(u) + t));
    } else {
      SplitNone(s);
      NoLines(Split(s + t));
    }
  }

  lemma ConsConcat(line: string, ls: seq<string>, ms: seq<string>)
    ensures [line] + ls + ms == [line] + (ls + ms)
  {
  }

  // ----- the verdict on a line -----

  /** What the two patterns and the callback make of a line.  The patterns see the
      line with the zero byte put in place of its newline; the callback may depend
      on all the lines it was given.  Without a callback it is constantly 0. */
  datatype Judge = Judge(sat: string -> bool, unsat: string -> bool, callback: seq<string> -> int)

  function Verdict(j: Judge, seen: seq<string>, line: string): int {
    if j.sat(line + "\0") then 10
    else if j.unsat(line + "\0") then 20
    else j.callback(seen + [line])
  }

  datatype Examined = Examined(lines: seq<string>, code: int)

  /** The lines in order up to and including the first decisive one, and its code;
      code 0 where none is decisive. */
  function Examine(j: Judge, seen: seq<string>, ls: seq<string>): Examined
    decreases |ls|
  {
    if ls == [] then Examined(seen, 0)
    else
      var v := Verdict(j, seen, ls[0]);
      if v != 0 then Examined(seen + [ls[0]], v) else Examine(j, seen + [ls[0]], ls[1..])
  }

  lemma {:induction false} ExamineConcat(j: Judge, seen: seq<string>, ls: seq<string>, ms: seq<string>)
    ensures var e := Examine(j, seen, ls);
            Examine(j, seen, ls + ms) == if e.code != 0 then e else Examine(j, e.lines, ms)
    decreases |ls|
  {
    if ls == [] {
      assert ls + ms == ms;
    } else {
      assert (ls + ms)[1..] == ls[1..] + ms;
      ExamineConcat(j, seen + [ls[0]], ls[1..], ms);
    }
  }

  lemma NoneYet(seen: seq<string>, ls: seq<string>)
    ensures seen + ls[..0] == seen
    ensures ls != [] ==> seen + ls[..1] == seen + [ls[0]]
  {
    assert ls != [] ==> ls[..1] == [ls[0]];
  }

  lemma Shift(seen: seq<string>, ls: seq<string>, i: nat)
    requires 0 < i <= |ls|
    ensures seen + ls[..i] == seen + [ls[0]] + ls[1..][..i - 1]
  {
  }

  /** Which lines are examined, without recursion: all up to the first one whose
      verdict is not 0. */
  lemma {:induction false} ExamineFirst(j: Judge, seen: seq<string>, ls: seq<string>)
    ensures var e := Examine(j, seen, ls);
            var n := |e.lines| - |seen|;
            && 0 <= n <= |ls| && e.lines == seen + ls[..n]
            && (forall i :: 0 <= i < n && i < n - 1 ==> Verdict(j, seen + ls[..i], ls[i]) == 0)
            && (e.code == 0 ==> n == |ls| && (n > 0 ==> Verdict(j, seen + ls[..n - 1], ls[n - 1]) == 0))
            && (e.code != 0 ==> n > 0 && Verdict(j, seen + ls[..n - 1], ls[n - 1]) == e.code)
    decreases |ls|
  {
    hide Verdict;
    NoneYet(seen, ls);
    if ls != [] && Verdict(j, seen, ls[0]) == 0 {
      var t, s := ls[1..], seen + [ls[0]];
      ExamineFirst(j, s, t);
      var n := |Examine(j, seen, ls).lines| - |seen|;
      hide Examine;
      Shift(seen, ls, n);
      if n > 1 { Shift(seen, ls, n - 1); }
      forall i | 0 <= i < n && i < n - 1 ensures Verdict(j, seen + ls[..i], ls[i]) == 0 {
        if i > 0 {
          Shift(seen, ls, i);
          assert t[i - 1] == ls[i];
        }
      }
    }
  }

  /** Neither pattern matches the line, and the callback has no result for the lines so
      far. */
  predicate Undecided(j: Judge, before: seq<string>, line: string) {
    !j.sat(line + "\0") && !j.unsat(line + "\0") && j.callback(before + [line]) == 0
  }

  lemma VerdictCases(j: Judge, before: seq<string>, line: string)
    ensures Verdict(j, before, line) == 0 <==> Undecided(j, before, line)
    ensures j.sat(line + "\0") ==> Verdict(j, before, line) == 10
    ensures !j.sat(line + "\0") && j.unsat(line + "\0") ==> Verdict(j, before, line) == 20
    ensures !j.sat(line + "\0") && !j.unsat(line + "\0") ==> Verdict(j, before, line) == j.callback(before + [line])
  {
  }

  /** What an examination says of the lines, in terms of the patterns and the callback:
      the lines are examined up to the first that decides, and the code is 10 if the
      satisfiability pattern matches that line, else 20 if the other one does, else what
      the callback made of the lines. */
  lemma FirstDecisive(j: Judge, seen: seq<string>, ls: seq<string>)
    ensures var (all, code) := (Examine(j, seen, ls).lines, Examine(j, seen, ls).code);
            var n := |all| - |seen|;
            && 0 <= n <= |ls| && all == seen + ls[..n]
            && (forall i :: 0 <= i < n && (i < n - 1 || code == 0) ==> Undecided(j, seen + ls[..i], ls[i]))
            && (code == 0 ==> n == |ls|)
            && (code != 0 ==> n > 0 && !Undecided(j, seen + ls[..n - 1], ls[n - 1]))
            && (code != 0 ==>
                  code == if j.sat(ls[n - 1] + "\0") then 10 else if j.unsat(ls[n - 1] + "\0") then 20
                          else j.callback(all))
  {
    hide *;
    ExamineFirst(j, seen, ls);
    var n := |Examine(j, seen, ls).lines| - |seen|;
    forall i | 0 <= i < n
      ensures Verdict(j, seen + ls[..i], ls[i]) == 0 <==> Undecided(j, seen + ls[..i], ls[i])
    {
      VerdictCases(j, seen + ls[..i], ls[i]);
    }
    if n > 0 {
      VerdictCases(j, seen + ls[..n - 1], ls[n - 1]);
      TakeLast(seen, ls, n);
    }
  }

  lemma TakeLast(seen: seq<string>, ls: seq<string>, n: nat)
    requires 0 < n <= |ls|
    ensures seen + ls[..n] == seen + ls[..n - 1] + [ls[n - 1]]
  {
  }

  // ----- any way of cutting the output -----

  function Joined(chunks: seq<string>): string {
    if chunks == [] then "" else chunks[0] + Joined(chunks[1..])
  }

  datatype Feeding = Feeding(examined: Examined, kept: string)

  /** The chunks one after the other, each with the remainder of the ones before,
      until a line is decisive. */
  function Feed(j: Judge, seen: seq<string>, kept: string, chunks: seq<string>): Feeding
    decreases |chunks|
  {
    if chunks == [] then Feeding(Examined(seen, 0), kept)
    else
      var e := Examine(j, seen, Split(kept + chunks[0]));
      if e.code != 0 then Feeding(e, kept) else Feed(j, e.lines, Rest(kept + chunks[0]), chunks[1..])
  }

  /** The lines examined, and the result, do not depend on how the output was cut. */
  lemma {:induction false} CutsDoNotMatter(j: Judge, seen: seq<string>, kept: string, chunks: seq<string>)
    requires '\n' !in kept
    ensures var f := Feed(j, seen, kept, chunks);
            && f.examined == Examine(j, seen, Split(kept + Joined(chunks)))
            && (f.examined.code == 0 ==> f.kept == Rest(kept + Joined(chunks)))
    decreases |chunks|
  {
    if chunks == [] {
      assert kept + "" == kept;
      SplitNone(kept);
    } else {
      var s, t := kept + chunks[0], Joined(chunks[1..]);
      assert kept + Joined(chunks) == s + t;
      SplitConcat(s, t);
      ExamineConcat(j, seen, Split(s), Split(Rest(s) + t));
      UnsplitSplit(s);
      var e := Examine(j, seen, Split(s));
      if e.code == 0 {
        CutsDoNotMatter(j, e.lines, Rest(s), chunks[1..]);
      }
    }
  }

  // ----- the buffer -----

  /** What one read takes of the bytes available: all before the first zero byte. */
  function UpToNul(chunk: string): string { chunk[..Index(chunk, '\0')] }

  const INITIAL: nat := 1024

  class LineBuffer {
    var buf: array?<char>
    var datalen: nat
    var buflen: nat
    var seen: seq<string>          // the lines judged so far

    /** Between any two steps there is room for one more character and the
        terminating zero. */
    ghost predicate Valid()
      reads this, buf
    {
      if buf == null then datalen == 0 else buf.Length == buflen && datalen + 1 < buflen
    }

    ghost function Contents(): string
      reads this, buf
      requires Valid()
    {
      if buf == null then "" else buf[..datalen]
    }

    constructor ()
      ensures Valid() && Contents() == "" && seen == [] && buf == null
    {
      buf, datalen, buflen, seen := null, 0, 0, [];
    }

    method Append(c: char)
      requires Valid() && buf != null
      modifies this`buf, this`datalen, this`buflen, buf
      ensures Valid() && buf != null && (buf == old(buf) || fresh(buf))
      ensures Contents() == old(Contents()) + [c]
    {
      buf[datalen] := c;
      datalen := datalen + 1;
      assert buf[..datalen] == old(buf[..datalen]) + [c];
      if datalen + 1 == buflen {
        var was := buf;
        var now := new char[2 * buflen];
        forall k | 0 <= k < was.Length { now[k] := was[k]; }
        buflen := 2 * buflen;
        buf := now;
        assert now[..datalen] == was[..datalen];
      }
    }

    method Allocate()
      requires Valid()
      modifies this`buf, this`buflen
      ensures Valid() && buf != null && (buf == old(buf) || fresh(buf)) && Contents() == old(Contents())
    {
      if buf == null {
        buflen := INITIAL;
        buf := new char[INITIAL];
      }
    }

    /** Appends what is available and counts its newlines. */
    method ReadAllAvailable(chunk: string) returns (linecount: nat)
      requires Valid()
      modifies this`buf, this`datalen, this`buflen, buf
      ensures Valid() && buf != null && (buf == old(buf) || fresh(buf)) && buf[datalen] == '\0'
      ensures Contents() == old(Contents()) + UpToNul(chunk) && linecount == Newlines(UpToNul(chunk))
    {
      Allocate();
      linecount := 0;
      var i := 0;
      while i < |chunk| && chunk[i] != '\0'
        invariant i <= |chunk| && '\0' !in chunk[..i]
        invariant Valid() && buf != null && (buf == old(buf) || fresh(buf))
        invariant Contents() == old(Contents()) + chunk[..i]
        invariant linecount == Newlines(chunk[..i])
      {
        var c := chunk[i];
        if c == '\n' {
          linecount := linecount + 1;
        }
        Append(c);
        assert chunk[..i + 1] == chunk[..i] + [c] && chunk[..i + 1][..i] == chunk[..i];
        i := i + 1;
      }
      buf[datalen] := '\0';
      IndexIs(chunk, '\0', i);
    }

    /** Puts a zero byte in place of the first newline; the length of the line with
        it, or 0 if there is no newline. */
    method CutoutLine() returns (linelength: nat)
      requires Valid() && buf != null && '\0' !in Contents()
      requires '\n' in Contents() || buf[datalen] == '\0'
      modifies buf
      ensures Valid()
      ensures linelength == 0 <==> '\n' !in old(Contents())
      ensures linelength > 0 ==> linelength - 1 == Index(old(Contents()), '\n') < datalen
      ensures linelength > 0 ==> buf[..linelength] == old(Contents())[..linelength - 1] + "\0"
      ensures forall k :: linelength <= k < buf.Length ==> buf[k] == old(buf[k])
    {
      ghost var text := Contents();
      assert text[..datalen] == text && forall i :: 0 <= i < datalen ==> buf[i] == text[i] && text[i] in text;
      var k := 0;
      while buf[k] != '\n' && buf[k] != '\0'
        invariant k <= datalen && '\n' !in text[..k]
        decreases datalen - k
      {
        assert text[..k + 1] == text[..k] + [buf[k]];
        k := k + 1;
      }
      if buf[k] != '\n' {
        return 0;
      }
      IndexIs(text, '\n', k);
      buf[k] := '\0';
      linelength := k + 1;
      assert buf[..k] == text[..k];
    }

    method MoveNextLineToFront(linelength: nat)
      requires Valid() && buf != null && linelength <= datalen
      modifies this`datalen, buf
      ensures Valid() && Contents() == old(Contents())[linelength..]
    {
      forall k | 0 <= k < datalen - linelength { buf[k] := buf[k + linelength]; }
      datalen := datalen - linelength;
    }

    /** The output available is read and its complete lines judged, first to last,
        until one is decisive. */
    method HandleSolverChild(chunk: string, j: Judge) returns (code: int)
      requires Valid() && '\n' !in Contents() && '\0' !in Contents()
      modifies this, buf
      ensures Valid() && buf != null && (buf == old(buf) || fresh(buf))
      ensures var text := old(Contents()) + UpToNul(chunk);
              && Examined(seen, code) == Examine(j, old(seen), Split(text))
              && (code == 0 ==> Contents() == Rest(text) && '\n' !in Contents() && '\0' !in Contents())
      ensures var ls, n := Split(old(Contents()) + UpToNul(chunk)), |seen| - |old(seen)|;
              && 0 <= n <= |ls| && seen == old(seen) + ls[..n] && (code == 0 ==> n == |ls|) && (code != 0 ==> n > 0)
              && (forall i :: 0 <= i < n && (i < n - 1 || code == 0) ==> Undecided(j, old(seen) + ls[..i], ls[i]))
              && (code != 0 ==>
                    && !Undecided(j, old(seen) + ls[..n - 1], ls[n - 1])
                    && code == if j.sat(ls[n - 1] + "\0") then 10 else if j.unsat(ls[n - 1] + "\0") then 20
                               else j.callback(seen))
    {
      hide Index, Split, Rest, Examine, Verdict, Newlines, UpToNul, Undecided;
      ghost var text := Contents() + UpToNul(chunk);
      UpToNulIs(chunk);
      var lines := ReadAllAvailable(chunk);
      LinesCounted(old(Contents()), UpToNul(chunk));
      while lines > 0
        invariant Valid() && buf != null && (buf == old(buf) || fresh(buf))
        invariant '\0' !in Contents() && lines == Newlines(Contents())
        invariant Examine(j, seen, Split(Contents())) == Examine(j, old(seen), Split(text))
        invariant Rest(Contents()) == Rest(text)
      {
        ghost var before, now := seen, Contents();
        code := JudgeLine(j);
        JudgedOne(j, before, now, code);
        if code != 0 {
          FirstDecisive(j, old(seen), Split(text));
          return;
        }
        lines := lines - 1;
      }
      NoNewlines(Contents());
      SplitNone(Contents());
      NothingToJudge(j, seen);
      code := 0;
      FirstDecisive(j, old(seen), Split(text));
    }

    /** One round of the loop: the first line leaves the buffer unless it is decisive. */
    method JudgeLine(j: Judge) returns (code: int)
      requires Valid() && buf != null && '\0' !in Contents() && Newlines(Contents()) > 0
      modifies this`datalen, this`seen, buf
      ensures Valid()
      ensures var text, k := old(Contents()), Index(old(Contents()), '\n');
              && k < |text| && seen == old(seen) + [text[..k]]
              && code == Verdict(j, old(seen), text[..k])
              && (code == 0 ==> Contents() == text[k + 1..])
    {
      hide Newlines, Index;
      ghost var text := Contents();
      NoNewlines(text);
      assert forall k :: 0 <= k < datalen ==> buf[k] == text[k];
      var linelength := CutoutLine();
      assert linelength != 0;
      var line := buf[..linelength - 1];
      assert buf[..linelength] == line + "\0" && line == text[..linelength - 1];
      var before := seen;
      seen := seen + [line];
      if j.sat(buf[..linelength]) {
        return 10;
      }
      if j.unsat(buf[..linelength]) {
        return 20;
      }
      code := j.callback(seen);
      if code == 0 {
        RestOf(linelength, text);
        MoveNextLineToFront(linelength);
      }
    }

    lemma RestOf(n: nat, text: string)
      requires Valid() && buf != null && n <= datalen == |text|
      requires forall k :: n <= k < datalen ==> buf[k] == text[k]
      ensures Contents()[n..] == text[n..]
    {
    }
  }

  lemma LinesCounted(kept: string, more: string)
    requires '\n' !in kept
    ensures Newlines(kept + more) == Newlines(more)
  {
    NewlinesConcat(kept, more);
    NoNewlines(kept);
  }

  lemma UpToNulIs(chunk: string)
    ensures '\0' !in UpToNul(chunk)
  {
  }

  lemma NothingToJudge(j: Judge, seen: seq<string>)
    ensures Examine(j, seen, []) == Examined(seen, 0)
  {
  }

  lemma JudgedOne(j: Judge, seen: seq<string>, text: string, code: int)
    requires '\n' in text && '\0' !in text
    requires code == Verdict(j, seen, text[..Index(text, '\n')])
    ensures var k := Index(text, '\n');
            var (line, after) := (text[..k], text[k + 1..]);
            && Newlines(text) == 1 + Newlines(after) && '\0' !in after && Rest(text) == Rest(after)
            && Examine(j, seen, Split(text)) ==
               if code != 0 then Examined(seen + [line], code) else Examine(j, seen + [line], Split(after))
  {
    var k := Index(text, '\n');
    CutOne(text, k);
    hide Newlines, Verdict;
    assert Split(text)[1..] == Split(text[k + 1..]);
  }

  function Available(chunks: seq<string>): (ts: seq<string>)
    ensures |ts| == |chunks|
  {
    seq(|chunks|, i requires 0 <= i < |chunks| => UpToNul(chunks[i]))
  }

  lemma FeedOne(j: Judge, seen: seq<string>, kept: string, chunks: seq<string>)
    requires chunks != []
    ensures var e := Examine(j, seen, Split(kept + chunks[0]));
            Feed(j, seen, kept, chunks) ==
            if e.code != 0 then Feeding(e, kept) else Feed(j, e.lines, Rest(kept + chunks[0]), chunks[1..])
  {
  }

  lemma FeedNone(j: Judge, seen: seq<string>, kept: string)
    ensures Feed(j, seen, kept, []) == Feeding(Examined(seen, 0), kept)
  {
  }

  /** One wait for a result: the output arrives in any chunks, and the lines judged and
      the result are those of the newline split of the whole output, up to the first
      line that decides: 10 if the satisfiability pattern matches it, else 20 if the other
      one does, else what the callback returned; 0 if no line decides. */
  method JudgeOutput(chunks: seq<string>, j: Judge) returns (seen: seq<string>, code: int)
    ensures var lines := Split(Joined(Available(chunks)));
            && seen <= lines && (code == 0 ==> seen == lines) && (code != 0 ==> seen != [])
            && (forall i :: 0 <= i < |seen| && (i < |seen| - 1 || code == 0) ==> Undecided(j, lines[..i], lines[i]))
            && (code != 0 ==>
                  var line := seen[|seen| - 1];
                  && !Undecided(j, seen[..|seen| - 1], line)
                  && code == if j.sat(line + "\0") then 10 else if j.unsat(line + "\0") then 20 else j.callback(seen))
  {
    seen, code := ExamineOutput(chunks, j);
    hide Split, Examine, Joined, Available;
    ghost var lines, none: seq<string> := Split(Joined(Available(chunks))), [];
    FirstDecisive(j, none, lines);
    NoLines(lines[..|seen|]);
    forall i | 0 <= i < |seen| ensures none + lines[..i] == lines[..i] { NoLines(lines[..i]); }
    assert |seen| > 0 ==> seen[..|seen| - 1] == lines[..|seen| - 1];
  }

  /** The chunks of one wait, one after the other, on one buffer. */
  method ExamineOutput(chunks: seq<string>, j: Judge) returns (seen: seq<string>, code: int)
    ensures Examined(seen, code) == Examine(j, [], Split(Joined(Available(chunks))))
  {
    hide Split, Rest, Examine, UpToNul, Joined, Index, Feed, Undecided;
    ghost var ts := Available(chunks);
    var b := new LineBuffer();
    ghost var none: seq<string> := [];
    CutsDoNotMatter(j, none, "", ts);
    assert "" + Joined(ts) == Joined(ts);
    ghost var goal := Feed(j, none, "", ts).examined;
    code := 0;
    for i := 0 to |chunks|
      invariant b.Valid() && fresh(b) && (b.buf == null || fresh(b.buf))
      invariant '\n' !in b.Contents() && '\0' !in b.Contents()
      invariant code == 0 && Feed(j, b.seen, b.Contents(), ts[i..]).examined == goal
    {
      FeedOne(j, b.seen, b.Contents(), ts[i..]);
      assert ts[i..][0] == UpToNul(chunks[i]) && ts[i..][1..] == ts[i + 1..];
      code := b.HandleSolverChild(chunks[i], j);
      if code != 0 {
        return b.seen, code;
      }
    }
    assert ts[|chunks|..] == [];
    FeedNone(j, b.seen, b.Contents());
    seen := b.seen;
  }
}
