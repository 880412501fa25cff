/** The clause counters of library, seed and child agree over whole runs. */
module Accounting {
  import opened Messages
  import opened Transducer
  import opened PullMachine
  import opened Render
  import opened Sessions
  import opened Leftovers
  import opened Qbf
  import opened Protocol
  import opened Isolation
  import opened Seqs
  import L = Library

  /** The library counts the user's clauses and the current round's assumptions. */
  ghost predicate CountSync(l: L.Lib, stage: Stage, hist: Hist) {
    && l.writtenClauses == |hist.clauses| + l.writtenAssumptions
    && (L.NeedsFork(l) || stage == Awaiting ==> l.writtenAssumptions == 0)
    && (stage == Awaiting ==> l.state == L.InputAssumptions)
    && (l.state == L.InputAssumptions || l.state == L.Working ==>
          && hist.rounds != []
          && hist.rounds[|hist.rounds| - 1].clauses == hist.clauses
          && |hist.rounds[|hist.rounds| - 1].units| == l.writtenAssumptions)
  }

  predicate Quiet(st: Step) {
    || st.FlushSeed? || st.FlushChild? || st.SeedRead? || st.SeedReceive? || st.SeedReap?
    || st.KidRead? || st.KidFetch? || st.KidReceive? || st.KidExit?
  }

  lemma CountQuiet(s: Sys, st: Step)
    requires Enabled(s, st) && Quiet(st)
    ensures var t := Apply(s, st);
            && t.lib == s.lib && t.stage == s.stage && t.hist.clauses == s.hist.clauses
               && t.hist.rounds == s.hist.rounds
            && t.hist.user == s.hist.user && t.hist.open == s.hist.open
  {
    hide Deliver, BeginRead;
  }

  lemma CountCall(s: Sys, st: Step)
    requires Enabled(s, st) && CountSync(s.lib, s.stage, s.hist)
    requires st.Quantify? || st.Add? || st.SendFork? || st.Assume? || st.SendSolve?
    ensures CountSync(Apply(s, st).lib, Apply(s, st).stage, Apply(s, st).hist)
  {
    hide Sent, SolvableBase, BlockOpen;
  }

  lemma CountWait(s: Sys, st: Step)
    requires Enabled(s, st) && CountSync(s.lib, s.stage, s.hist)
    requires !Quiet(st) && !st.Quantify? && !st.Add? && !st.SendFork? && !st.Assume? && !st.SendSolve?
    ensures CountSync(Apply(s, st).lib, Apply(s, st).stage, Apply(s, st).hist)
  {
    hide Deliver, BeginRead;
  }

  lemma CountStep(s: Sys, st: Step)
    requires Enabled(s, st) && CountSync(s.lib, s.stage, s.hist)
    ensures CountSync(Apply(s, st).lib, Apply(s, st).stage, Apply(s, st).hist)
  {
    hide Enabled, Apply;
    if Quiet(st) {
      CountQuiet(s, st);
    } else if st.Quantify? || st.Add? || st.SendFork? || st.Assume? || st.SendSolve? {
      CountCall(s, st);
    } else {
      CountWait(s, st);
    }
  }

  lemma {:induction false} CountRun(s: Sys, steps: seq<Step>)
    requires Legal(s, steps) && CountSync(s.lib, s.stage, s.hist)
    ensures var f := Final(s, steps); CountSync(f.lib, f.stage, f.hist)
    decreases |steps|
  {
    hide CountSync, Enabled, Apply;
    if steps == [] {
    } else {
      CountStep(s, steps[0]);
      CountRun(Apply(s, steps[0]), steps[1..]);
    }
  }

  /** The record of a child that has read a round's unit clauses. */
  lemma UnitsRecord(sent: seq<Msg>, h: HeaderData, qs: seq<int>, cs: seq<seq<int>>, us: seq<int>)
    requires Carries(sent, h, qs, cs, []) && SolvableBase(qs, cs) && NoZero(us)
    ensures After(BOOT, sent + RoundMsgs(us, false)).written == |cs| + |us|
    ensures After(BOOT, sent + RoundMsgs(us, false)).phase != Working
  {
    hide Process, FillerText, Carries, EndPhase;
    CarriedRecord(sent, h, qs, cs, []);
    UnitsOk(us);
    EmitConcat(BOOT, sent, RoundMsgs(us, false));
    EndPhaseKinds(qs);
    EmitClauses(BasePhase(qs, cs), h, FillerText(h, qs), |cs|, Variables(qs), Units(us));
    assert RoundMsgs(us, false) == ClauseMsgs(Units(us));
  }

  /** Over every run: the library's clauses without its assumptions are the clauses the
      user completed; a seed that has read everything has counted exactly those; and
      a child that has read its round's unit clauses has counted all the library has. */
  lemma ClausesCounted(h: HeaderData, exitCodeMode: bool, callback: bool, steps: seq<Step>)
    requires Legal(Init(h, exitCodeMode, callback), steps)
    ensures var s := Final(Init(h, exitCodeMode, callback), steps);
            && s.lib.writtenClauses - s.lib.writtenAssumptions == |s.hist.clauses|
            && (s.seedPipe == [] && s.seedOut == [] ==>
                  s.seed.rt.written == s.lib.writtenClauses - s.lib.writtenAssumptions)
            && (ChildDrained(s) ==> s.kids[|s.kids| - 1].proc.rt.written == s.lib.writtenClauses)
  {
    hide Legal, Final, Inv, CountSync, Init, ChildDrained;
    var init := Init(h, exitCodeMode, callback);
    InitKeeps(h, exitCodeMode, callback);
    RunKeeps(init, steps);
    CountInit(h, exitCodeMode, callback);
    CountRun(init, steps);
    var s := Final(init, steps);
    CountedNow(s);
    if s.seedPipe == [] && s.seedOut == [] {
      SeedCounted(s);
    }
    if ChildDrained(s) {
      KidCounted(s);
    }
  }

  /** Between calls of a round under way, with nothing on its way to the child. */
  predicate ChildDrained(s: Sys) {
    && s.stage == Calling && s.lib.state == L.InputAssumptions && s.kids != [] && Clean(s.hist)
    && s.childPipe == [] && s.childOut == [] && s.kids[|s.kids| - 1].ahead == []
  }

  /** A child that has ended has counted the announced number of clauses, or those added
      and all unit clauses it read if that is more. */
  predicate Emitted(h: HeaderData, p: Proc, r: Round) {
    p.ended ==>
      && p.rt.written == Max(h.clauses, |r.clauses| + |ReadUnits(Due(r))|)
      && (r.stale == [] ==> ReadUnits(Due(r)) == r.units)
  }

  /** What a round emits, in every run in which no round began with an earlier child left
      to read from the pipe. */
  lemma RoundEmits(h: HeaderData, exitCodeMode: bool, callback: bool, steps: seq<Step>, i: nat)
    requires Legal(Init(h, exitCodeMode, callback), steps)
    ensures var s := Final(Init(h, exitCodeMode, callback), steps);
            s.hist.alone && i < |s.kids| && i < |s.hist.rounds| ==> Emitted(h, s.kids[i].proc, s.hist.rounds[i])
  {
    var s := Final(Init(h, exitCodeMode, callback), steps);
    InitKeeps(h, exitCodeMode, callback);
    RunKeeps(Init(h, exitCodeMode, callback), steps);
    hide Inv, Final, Legal, Init, Emitted;
    if s.hist.alone && i < |s.kids| && i < |s.hist.rounds| {
      InvEmits(s, i);
    }
  }

  lemma InvEmits(s: Sys, i: nat)
    requires s.hist.alone && i < |s.kids| && i < |s.hist.rounds| && Inv(s)
    ensures Emitted(s.lib.header, s.kids[i].proc, s.hist.rounds[i])
  {
    hide Inv, Due, GivenText, RoundFormula, ReadUnits, Carries, SolvableBase;
    if s.kids[i].proc.ended {
      InvChild(s, i);
      RoundAt(s, i);
      if s.hist.rounds[i].stale == [] {
        NothingLeft(s.hist.rounds[i]);
        OwnText(s.lib.header, s.hist.rounds[i]);
      }
    }
  }

  function Max(a: int, b: int): int { if a < b then b else a }

  lemma CountInit(h: HeaderData, exitCodeMode: bool, callback: bool)
    ensures var s := Init(h, exitCodeMode, callback); CountSync(s.lib, s.stage, s.hist)
  {
  }

  lemma CountedNow(s: Sys)
    requires CountSync(s.lib, s.stage, s.hist)
    ensures s.lib.writtenClauses - s.lib.writtenAssumptions == |s.hist.clauses|
  {
  }

  lemma SeedCounted(s: Sys)
    requires Inv(s) && s.seedPipe == [] && s.seedOut == []
    ensures s.seed.rt.written == |s.hist.clauses|
  {
    hide KidsSync, PipeSync, RoundsOk, InOrder, ReportsSync, Forks, Owed;
    assert s.hist.taken + ([] + []) == s.hist.taken;
    CarriedRecord(s.hist.toSeed, s.lib.header, Sent(s), s.hist.clauses, s.hist.open);
    hide Emit, After, Carries, RtOk, FillerText;
  }

  lemma KidCounted(s: Sys)
    requires ChildDrained(s) && Inv(s) && CountSync(s.lib, s.stage, s.hist)
    ensures s.kids[|s.kids| - 1].proc.rt.written == s.lib.writtenClauses
  {
    DrainedKid(s);
    RoundAt(s, |s.hist.rounds| - 1);
    hide Inv, RoundOk, Synced;
    UnitsCounted(s.lib.header, s.kids[|s.kids| - 1].proc, s.hist.rounds[|s.hist.rounds| - 1]);
  }

  lemma UnitsCounted(h: HeaderData, p: Proc, r: Round)
    requires RoundOk(h, r) && Synced(p, r.sent + RoundMsgs(r.units, false))
    ensures p.rt.written == |r.clauses| + |r.units|
  {
    hide RoundMsgs, Owed, Emit, After, Carries, SolvableBase;
    UnitsRecord(r.sent, h, SentBy(h, r.user), r.clauses, r.units);
  }

  lemma DrainedFacts(s: Sys)
    requires ChildDrained(s) && Inv(s)
    ensures |s.kids| == |s.hist.rounds| > 0 && KidsSync(s.kids) && PipeSync(s.kids, s.hist.rounds, [])
    ensures var k, r := s.kids[|s.kids| - 1], s.hist.rounds[|s.kids| - 1];
            k.ahead == [] && r.stale == [] && !r.solved && k.base == r.sent
  {
    hide KidsSync, PipeSync, RoundsOk, SeedSync, CallsSync, ReportsSync, Forks;
    NilRight<Msg>([]);
  }

  lemma NothingUnder(kids: seq<Kid>, rounds: seq<Round>)
    requires |kids| == |rounds| > 0 && KidsSync(kids) && PipeSync(kids, rounds, [])
    requires kids[|kids| - 1].ahead == [] && rounds[|kids| - 1].stale == []
    ensures kids[|kids| - 1].own == RoundMsgs(rounds[|kids| - 1].units, rounds[|kids| - 1].solved)
    ensures Synced(kids[|kids| - 1].proc, kids[|kids| - 1].base + kids[|kids| - 1].own)
  {
    hide RoundMsgs, Synced, LeftOver, Unsolved, Heard;
    var k, r := kids[|kids| - 1], rounds[|kids| - 1];
    NilRight(k.own);
    NilRight(k.own + []);
    NilLeft(RoundMsgs(r.units, r.solved));
  }

  lemma DrainedKid(s: Sys)
    requires ChildDrained(s) && Inv(s)
    ensures |s.kids| == |s.hist.rounds| > 0
    ensures var k, r := s.kids[|s.kids| - 1], s.hist.rounds[|s.kids| - 1];
            Synced(k.proc, r.sent + RoundMsgs(r.units, false)) && !r.solved
  {
    hide *;
    DrainedFacts(s);
    NothingUnder(s.kids, s.hist.rounds);
  }
}
