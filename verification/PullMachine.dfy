/** A solver process pulling its formula out of the runtime with quapi_read, and
    the text a message sequence stands for.  The main result is that the two
    agree however the process chooses its buffer sizes. */
module PullMachine {
  import opened Messages
  import opened Transducer
  import opened Seqs

  // ----- the text of a message sequence -----

  function Times(s: string, n: nat): string {
    if n == 0 then "" else s + Times(s, n - 1)
  }

  function MissingClauses(r: Rt): nat {
    if r.written < r.header.clauses then r.header.clauses - r.written else 0
  }

  /** Output of a settled runtime not yet handed out, fillers to come included. */
  function Owed(r: Rt): string {
    var pending := if r.out.Bytes? then r.out.text else "";
    if r.repeat then pending + Times(r.filler, MissingClauses(r)) else pending
  }

  /** The runtime once everything it owes is handed out. */
  function Settled(r: Rt): Rt {
    if r.repeat then
      r.(phase := Working, written := r.written + MissingClauses(r), repeat := false, last := Destructed, out := Closed)
    else
      r.(last := Destructed, out := if r.phase == Working then Closed else if r.out == Hung then Hung else Bytes(""))
  }

  /** Finished or spinning: no further message is taken. */
  predicate Deaf(r: Rt) { r.phase == Working || r.out == Hung }

  /** What one message makes the runtime print, and the runtime after it. */
  function Process(r: Rt, m: Msg): (string, Rt) {
    if Deaf(r) then ("", r) else var s := Settle(r, m); (Owed(s), Settled(s))
  }

  function Emit(r: Rt, ms: seq<Msg>): string
    decreases |ms|
  {
    if ms == [] then "" else Process(r, ms[0]).0 + Emit(Process(r, ms[0]).1, ms[1..])
  }

  function After(r: Rt, ms: seq<Msg>): Rt
    decreases |ms|
  {
    if ms == [] then r else After(Process(r, ms[0]).1, ms[1..])
  }

  lemma {:induction false} EmitConcat(r: Rt, a: seq<Msg>, b: seq<Msg>)
    ensures Emit(r, a + b) == Emit(r, a) + Emit(After(r, a), b)
    ensures After(r, a + b) == After(After(r, a), b)
    decreases |a|
  {
    hide Process;
    if a == [] {
      assert a + b == b;
    } else {
      assert (a + b)[0] == a[0] && (a + b)[1..] == a[1..] + b;
      EmitConcat(Process(r, a[0]).1, a[1..], b);
    }
  }

  lemma EmitCons(r: Rt, m: Msg, ms: seq<Msg>)
    ensures Emit(r, [m] + ms) == Process(r, m).0 + Emit(Process(r, m).1, ms)
    ensures After(r, [m] + ms) == After(Process(r, m).1, ms)
  {
    hide Process;
    Cons(m, ms);
  }

  lemma EmitNil(r: Rt)
    ensures Emit(r, []) == "" && After(r, []) == r
  {
  }

  lemma {:induction false} EmitSnoc(r: Rt, a: seq<Msg>, m: Msg)
    ensures Emit(r, a + [m]) == Emit(r, a) + Process(After(r, a), m).0
    ensures After(r, a + [m]) == Process(After(r, a), m).1
  {
    EmitConcat(r, a, [m]);
    var q := After(r, a);
    assert [m][1..] == [];
    assert Emit(q, [m]) == Process(q, m).0 + Emit(Process(q, m).1, []);
    assert After(q, [m]) == After(Process(q, m).1, []);
  }

  // ----- one process -----

  datatype ReadCall = Idle | Reading(size: nat)

  /** A process: its runtime record, whether it is blocked inside quapi_read, the
      bytes its solver has been given, and whether some call returned 0. */
  datatype Proc = Proc(rt: Rt, call: ReadCall, given: string, ended: bool)

  const NEWBORN := Proc(BOOT, Idle, "", false)

  function Min(a: nat, b: nat): nat { if a < b then a else b }

  /** update_buf: at most k pending bytes. */
  function Chunk(r: Rt, k: nat): string {
    if r.out.Bytes? then r.out.text[..Min(k, |r.out.text|)] else ""
  }

  function DropChunk(r: Rt, k: nat): Rt {
    if r.out.Bytes? then r.(out := Bytes(r.out.text[Min(k, |r.out.text|)..])) else r
  }

  /** The second update_buf of quapi_read, and its return. */
  function FinishRead(p: Proc, k: nat): Proc {
    Proc(DropChunk(p.rt, k), Idle, p.given + Chunk(p.rt, k), p.ended || Chunk(p.rt, k) == "")
  }

  /** quapi_read up to the point where it either returns or waits for a message. */
  function BeginRead(p: Proc, k: nat): Proc {
    if Chunk(p.rt, k) != "" then p.(rt := DropChunk(p.rt, k), given := p.given + Chunk(p.rt, k))
    else if p.rt.out == Closed then p.(ended := true)
    else if p.rt.repeat then FinishRead(p.(rt := StateCall(Fresh(p.rt), p.rt.last)), k)
    else p.(rt := p.rt.(out := NeedMessage), call := Reading(k))
  }

  /** A blocked quapi_read receives a message; it returns unless the message was
      a fork, or one the runtime spins on. */
  function Deliver(p: Proc, m: Msg): Proc
    requires p.call.Reading?
  {
    var r := Settle(p.rt, m);
    if r.out == NeedMessage || r.out == Hung then p.(rt := r) else FinishRead(p.(rt := r), p.call.size)
  }

  // ----- pull independence -----

  ghost predicate RtOk(r: Rt) {
    && r.filler != ""
    && (r.repeat ==> r.phase == ReadingMatrix && r.last == Solve && r.out.Bytes?)
    && (r.out == Closed ==> r.phase == Working)
    && (r.phase == Working ==> r.out == Closed || r.out == Bytes(""))
  }

  /** p has consumed exactly the messages c: what its solver was given, together
      with what the runtime still owes, is the text of c. */
  ghost predicate Synced(p: Proc, c: seq<Msg>) {
    && RtOk(p.rt)
    && Settled(p.rt) == After(BOOT, c)
    && p.given + Owed(p.rt) == Emit(BOOT, c)
    && (p.call.Reading? ==> p.call.size > 0 && Owed(p.rt) == "" && !p.rt.repeat && p.rt.phase != Working)
    && (p.call == Idle ==> p.rt.out != Hung)
    && (p.ended ==> p.rt.phase == Working)
    && (p.rt.phase == Working && p.rt.out.Bytes? ==> p.ended)
  }

  /** From p to q the solver was given more text if its read returned, unless it returned 0. */
  ghost predicate Fed(p: Proc, q: Proc) {
    && p.given <= q.given
    && (q.call == Idle && !q.ended ==> |q.given| > |p.given|)
  }

  lemma NewbornSynced()
    ensures Synced(NEWBORN, [])
  {
  }

  lemma SettleOk(r: Rt, m: Msg)
    requires RtOk(r) && !Deaf(r) && !r.repeat
    ensures RtOk(Settle(r, m)) && Settle(r, m).out != Bytes("")
    ensures Settle(r, m).out == NeedMessage || Settle(r, m).out == Hung ==>
              !Settle(r, m).repeat && Settle(r, m).phase != Working
  {
    hide Times;
    if Handled(r.phase, m) {
      SpinHandled(Receive(r, m), m, 3);
    }
  }

  /** Settle forgets what was printed before. */
  lemma SettleFresh(r: Rt, m: Msg)
    requires r.phase != Working && r.out != Hung && !r.repeat
    ensures Settled(r).out != Hung && !Deaf(Settled(r)) && Settle(Settled(r), m) == Settle(r, m)
  {
  }

  /** Handing out a chunk moves text from what is owed to what was given. */
  lemma ChunkSplitsOwed(r: Rt, k: nat)
    requires RtOk(r)
    ensures Chunk(r, k) + Owed(DropChunk(r, k)) == Owed(r)
    ensures RtOk(DropChunk(r, k)) && Settled(DropChunk(r, k)) == Settled(r)
  {
    hide Times;
    if r.out.Bytes? {
      var t := r.out.text;
      var n := Min(k, |t|);
      assert t[..n] + t[n..] == t;
      Assoc(t[..n], t[n..], Times(r.filler, MissingClauses(r)));
    } else {
      NilLeft(Owed(r));
    }
  }

  /** A repeated state call hands over one filler clause, or ends the stream. */
  lemma RepeatCall(r: Rt)
    requires RtOk(r) && r.repeat && r.out == Bytes("")
    ensures var s := StateCall(Fresh(r), r.last);
            && RtOk(s) && Owed(s) == Owed(r) && Settled(s) == Settled(r) && (s.out == Bytes("") ==> s.phase == Working)
            && (s.out.Bytes? || s.out == Closed)
  {
  }

  lemma FinishReadSynced(p: Proc, c: seq<Msg>, k: nat)
    requires RtOk(p.rt) && k > 0 && (p.rt.out.Bytes? && p.rt.out.text == "" ==> p.rt.phase == Working)
    requires p.rt.out.Bytes? || p.rt.out == Closed
    requires Settled(p.rt) == After(BOOT, c) && p.given + Owed(p.rt) == Emit(BOOT, c)
    requires p.ended ==> p.rt.phase == Working
    ensures Synced(FinishRead(p, k), c)
  {
    hide Emit, After, Settled, Owed;
    ChunkSplitsOwed(p.rt, k);
    Assoc(p.given, Chunk(p.rt, k), Owed(DropChunk(p.rt, k)));
  }

  lemma AskingOwesNothing(r: Rt, k: nat)
    requires Chunk(r, k) == "" && k > 0 && !r.repeat
    ensures Owed(r) == "" && Owed(r.(out := NeedMessage)) == ""
    ensures r.out != Closed && r.out != Hung && r.phase != Working ==> Settled(r.(out := NeedMessage)) == Settled(r)
  {
  }

  lemma BeginReadSynced(p: Proc, c: seq<Msg>, k: nat)
    requires Synced(p, c) && p.call == Idle && k > 0 && !p.ended
    ensures Synced(BeginRead(p, k), c) && Fed(p, BeginRead(p, k))
  {
    hide Emit, After, StateCall, Settled, Owed;
    ChunkSplitsOwed(p.rt, k);
    if Chunk(p.rt, k) != "" {
      Assoc(p.given, Chunk(p.rt, k), Owed(DropChunk(p.rt, k)));
    } else if p.rt.repeat {
      RepeatCall(p.rt);
      FinishReadSynced(p.(rt := StateCall(Fresh(p.rt), p.rt.last)), c, k);
    } else {
      AskingOwesNothing(p.rt, k);
    }
  }

  lemma DeliverSynced(p: Proc, c: seq<Msg>, m: Msg)
    requires Synced(p, c) && p.call.Reading? && p.rt.out != Hung
    ensures Synced(Deliver(p, m), c + [m]) && Fed(p, Deliver(p, m))
  {
    var r := Settle(p.rt, m);
    SettleOk(p.rt, m);
    SettleFresh(p.rt, m);
    EmitSnoc(BOOT, c, m);
    assert Process(After(BOOT, c), m) == (Owed(r), Settled(r));
    assert p.given == Emit(BOOT, c);
    hide Emit, After, Process, Settle;
    if r.out != NeedMessage && r.out != Hung {
      FinishReadSynced(p.(rt := r), c + [m], p.call.size);
    }
  }

  lemma {:induction false} DeafEmitsNothing(r: Rt, ms: seq<Msg>)
    requires Deaf(r)
    ensures Emit(r, ms) == "" && After(r, ms) == r
    decreases |ms|
  {
    if ms == [] {
    } else {
      DeafEmitsNothing(r, ms[1..]);
    }
  }

  /** A blocked quapi_read takes messages until it can return. */
  function Receiving(p: Proc, ms: seq<Msg>): (Proc, seq<Msg>)
    decreases |ms|
  {
    if !p.call.Reading? || p.rt.out == Hung || ms == [] then (p, ms)
    else Receiving(Deliver(p, ms[0]), ms[1..])
  }

  /** One quapi_read of a process whose pipe delivers ms. */
  function Pull(p: Proc, ms: seq<Msg>, k: nat): (Proc, seq<Msg>) {
    Receiving(BeginRead(p, k), ms)
  }

  /** quapi_read with nothing pending: the state advances before bytes are handed over. */
  function Refill(r: Rt, given: string, ms: seq<Msg>, k: nat): (Proc, seq<Msg>) {
    if r.out == Closed then (Proc(r, Idle, given, true), ms)
    else if r.repeat then (FinishRead(Proc(StateCall(Fresh(r), r.last), Idle, given, false), k), ms)
    else Receiving(Proc(r.(out := NeedMessage), Reading(k), given, false), ms)
  }

  lemma PullCases(r: Rt, given: string, ms: seq<Msg>, k: nat)
    ensures Pull(Proc(r, Idle, given, false), ms, k) ==
            if Chunk(r, k) != "" then (Proc(DropChunk(r, k), Idle, given + Chunk(r, k), false), ms)
            else Refill(r, given, ms, k)
  {
    hide StateCall;
  }

  lemma EmptyChunk(r: Rt, k: nat)
    requires Chunk(r, k) == ""
    ensures DropChunk(r, k) == r
  {
  }

  /** A solver reading with the buffer sizes ks, until a read returns 0 or blocks. */
  function PullAll(p: Proc, ms: seq<Msg>, ks: seq<nat>): (Proc, seq<Msg>)
    decreases |ks|
  {
    if ks == [] || p.ended || p.call != Idle then (p, ms)
    else var (q, rest) := Pull(p, ms, ks[0]); PullAll(q, rest, ks[1..])
  }

  lemma {:induction false} ReceivingSynced(p: Proc, b: Proc, c: seq<Msg>, ms: seq<Msg>) returns (taken: seq<Msg>)
    requires Synced(b, c) && Fed(p, b)
    ensures var q := Receiving(b, ms).0;
            && Synced(q, c + taken) && Fed(p, q)
            && (q.call.Reading? ==> Receiving(b, ms).1 == [] || q.rt.out == Hung)
    ensures ms == taken + Receiving(b, ms).1
    decreases |ms|
  {
    hide Synced, Deliver;
    if !b.call.Reading? || b.rt.out == Hung || ms == [] {
      taken := [];
      assert c + [] == c;
    } else {
      DeliverSynced(b, c, ms[0]);
      taken := ReceivingSynced(p, Deliver(b, ms[0]), c + [ms[0]], ms[1..]);
      assert c + [ms[0]] + taken == c + ([ms[0]] + taken);
      taken := [ms[0]] + taken;
    }
  }

  lemma PullSynced(p: Proc, c: seq<Msg>, ms: seq<Msg>, k: nat) returns (taken: seq<Msg>)
    requires Synced(p, c) && p.call == Idle && !p.ended && k > 0
    ensures var q := Pull(p, ms, k).0;
            && Synced(q, c + taken) && Fed(p, q)
            && (q.call.Reading? ==> Pull(p, ms, k).1 == [] || q.rt.out == Hung)
    ensures ms == taken + Pull(p, ms, k).1
  {
    hide BeginRead, Synced, Receiving, Fed;
    BeginReadSynced(p, c, k);
    taken := ReceivingSynced(p, BeginRead(p, k), c, ms);
  }

  /** The text given so far, against the text of all messages. */
  ghost predicate Faithful(p: Proc, all: seq<Msg>) {
    && p.given <= Emit(BOOT, all)
    && (p.ended || p.call.Reading? ==> p.given == Emit(BOOT, all))
  }

  lemma SyncedFaithful(p: Proc, c: seq<Msg>, rest: seq<Msg>)
    requires Synced(p, c) && (p.call.Reading? ==> rest == [] || p.rt.out == Hung)
    ensures Faithful(p, c + rest)
  {
    EmitConcat(BOOT, c, rest);
    if p.ended || (p.call.Reading? && p.rt.out == Hung) {
      DeafEmitsNothing(After(BOOT, c), rest);
    }
    hide Emit, After;
    assert p.given <= Emit(BOOT, c);
  }

  lemma {:induction false} PullAllFrom(p: Proc, c: seq<Msg>, ms: seq<Msg>, ks: seq<nat>)
    requires Synced(p, c) && (forall i :: 0 <= i < |ks| ==> ks[i] > 0)
    requires p.call.Reading? ==> ms == [] || p.rt.out == Hung
    ensures var q := PullAll(p, ms, ks).0;
            && Faithful(q, c + ms)
            && (q.call == Idle && !q.ended ==> |q.given| >= |p.given| + |ks|)
    decreases |ks|
  {
    hide Pull, Synced, Faithful;
    if ks == [] || p.ended || p.call != Idle {
      SyncedFaithful(p, c, ms);
    } else {
      var taken := PullSynced(p, c, ms, ks[0]);
      var q := Pull(p, ms, ks[0]);
      assert (c + taken) + q.1 == c + ms;
      PullAllFrom(q.0, c + taken, q.1, ks[1..]);
    }
  }

  /** Pull independence: however a solver chooses its positive buffer sizes, it is
      given the text of the messages, in order; a read that returns 0 or blocks
      has handed over all of it, and every other read hands over something. */
  lemma PullIndependence(ms: seq<Msg>, ks: seq<nat>)
    requires forall i :: 0 <= i < |ks| ==> ks[i] > 0
    ensures var q := PullAll(NEWBORN, ms, ks).0;
            && q.given <= Emit(BOOT, ms)
            && (q.ended || q.call.Reading? ==> q.given == Emit(BOOT, ms))
            && (|ks| > |Emit(BOOT, ms)| ==> q.ended || q.call.Reading?)
  {
    PullAllFrom(NEWBORN, [], ms, ks);
    assert [] + ms == ms;
  }

  // ----- what ends the input -----

  lemma CallStays(r: Rt, m: Msg)
    requires m != Solve && r.phase != Working && !r.repeat
    ensures StateCall(r, m).phase != Working && !StateCall(r, m).repeat
  {
  }

  lemma {:induction false} SpinStays(r: Rt, m: Msg, n: nat)
    requires m != Solve && r.phase != Working && !r.repeat
    ensures Spin(r, m, n).phase != Working && !Spin(r, m, n).repeat
    decreases n
  {
    hide StateCall;
    if n == 0 {
    } else {
      CallStays(r, m);
      SpinStays(StateCall(r, m), m, n - 1);
    }
  }

  lemma ProcessStays(r: Rt, m: Msg)
    requires m != Solve && r.phase != Working && !r.repeat
    ensures Process(r, m).1.phase != Working && !Process(r, m).1.repeat
  {
    hide Spin, Owed;
    SpinStays(Receive(r, m), m, 3);
  }

  lemma {:induction false} RunStays(r: Rt, ms: seq<Msg>)
    requires Solve !in ms && r.phase != Working && !r.repeat
    ensures After(r, ms).phase != Working
    decreases |ms|
  {
    hide Process;
    if ms == [] {
    } else {
      ProcessStays(r, ms[0]);
      RunStays(Process(r, ms[0]).1, ms[1..]);
    }
  }

  /** Only a solve message ends the input: a process whose read returned 0 has had one. */
  lemma EndedOnSolve(p: Proc, c: seq<Msg>)
    requires Synced(p, c) && p.ended
    ensures Solve in c
  {
    hide After, Emit, Owed;
    if Solve !in c { RunStays(BOOT, c); }
  }
}
