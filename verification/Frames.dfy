/** The zero-copy pipe as a machine over whole messages: which step can be taken, what it
    moves, and what follows for every schedule of the two processes. */
module Frames {
  import opened Messages
  import opened Seqs
  import ZeroCopy

  // ----- the machine -----

  /** Where the next write was prepared: in which buffer, how far in. */
  datatype Slot = NoSlot | Slot(buffer: nat, off: nat)

  /** Which buffer is being written and the messages in it, those of the frame in the pipe
      (none: the pipe is empty), those the reader has not yet taken from its memory. */
  datatype View = View(current: nat, buffer: seq<Msg>, frame: seq<Msg>, memory: seq<Msg>, slot: Slot)

  const EMPTY: View := View(0, [], [], [], NoSlot)

  /** The steps of the two processes. */
  datatype Step = Prepare | Send(msg: Msg) | Flush | Receive

  function Size(ms: seq<Msg>): nat {
    if ms == [] then 0 else Size(ms[..|ms| - 1]) + (if ms[|ms| - 1].Header? then 44 else 5)
  }

  predicate Full(v: View, size: nat) { Size(v.buffer) + size + ZeroCopy.COUNTER >= ZeroCopy.BUF_SIZE }

  /** The next write goes to the place prepared last. */
  predicate SlotReady(v: View) { v.slot == Slot(v.current, Size(v.buffer)) }

  /** The buffer goes into the empty pipe, the other one is started. */
  function Handed(v: View): View { v.(current := (v.current + 1) % 2, buffer := [], frame := v.buffer) }

  function WithRoom(v: View, size: nat): View { if Full(v, size) then Handed(v) else v }

  /** The step waits for the other process; or, for a message, no place was prepared. */
  predicate WouldBlock(v: View, step: Step) {
    match step
    case Prepare => Full(v, 5) && v.frame != []
    case Send(m) => if m.Header? then Full(v, 44) && v.frame != [] else !SlotReady(v) || Full(v, 5)
    case Flush => v.buffer != [] && v.frame != []
    case Receive => v.memory == [] && v.frame == []
  }

  function Next(v: View, step: Step): View
    requires !WouldBlock(v, step)
  {
    match step
    case Prepare => var w := WithRoom(v, 5); w.(slot := Slot(w.current, Size(w.buffer)))
    case Send(m) =>
      if m.Header? then var w := WithRoom(v, 44); w.(buffer := w.buffer + [m])
      else v.(buffer := v.buffer + [m], slot := Slot(v.current, Size(v.buffer) + 5))
    case Flush => if v.buffer == [] then v else Handed(v)
    case Receive =>
      if v.memory != [] then v.(memory := v.memory[1..]) else v.(memory := v.frame[1..], frame := [])
  }

  /** What a step hands to the receiver. */
  function Delivered(v: View, step: Step): seq<Msg>
    requires !WouldBlock(v, step)
  {
    if !step.Receive? then [] else if v.memory != [] then [v.memory[0]] else [v.frame[0]]
  }

  /** A schedule from the beginning: the view at its end, what was received, and which
      steps were taken; a step that blocks is passed over. */
  datatype Outcome = Outcome(view: View, received: seq<Msg>, taken: seq<bool>)

  function Run(v: View, schedule: seq<Step>): (o: Outcome)
    ensures |o.taken| == |schedule|
    decreases |schedule|
  {
    if schedule == [] then Outcome(v, [], [])
    else
      var o, step := Run(v, schedule[..|schedule| - 1]), schedule[|schedule| - 1];
      if WouldBlock(o.view, step) then o.(taken := o.taken + [false])
      else Outcome(Next(o.view, step), o.received + Delivered(o.view, step), o.taken + [true])
  }

  // ----- conservation -----

  /** All that is under way, oldest first. */
  function Underway(v: View): seq<Msg> { v.memory + v.frame + v.buffer }

  function SendOf(step: Step): seq<Msg> { if step.Send? then [step.msg] else [] }

  /** The messages of the Send steps taken. */
  function SentIn(schedule: seq<Step>, taken: seq<bool>): seq<Msg>
    requires |schedule| == |taken|
    decreases |schedule|
  {
    if schedule == [] then []
    else
      var n := |schedule| - 1;
      SentIn(schedule[..n], taken[..n]) + (if taken[n] then SendOf(schedule[n]) else [])
  }

  lemma RoomConserves(v: View, size: nat)
    ensures Underway(Handed(v.(frame := []))) == Underway(v.(frame := []))
    ensures !(Full(v, size) && v.frame != []) ==>
              var w := WithRoom(v, size); Underway(w) == Underway(v) && w.memory == v.memory
  {
    hide Size;
    NilRight(v.memory + v.buffer);
    NilRight(v.memory);
  }

  lemma SendConserves(v: View, m: Msg)
    requires !WouldBlock(v, Send(m))
    ensures [] + Underway(Next(v, Send(m))) == Underway(v) + [m]
  {
    hide Size, Full, SlotReady, WithRoom;
    RoomConserves(v, 44);
    var w := if m.Header? then WithRoom(v, 44) else v;
    Assoc(w.memory + w.frame, w.buffer, [m]);
    NilLeft(Underway(Next(v, Send(m))));
  }

  lemma ReceiveConserves(v: View)
    requires !WouldBlock(v, Receive)
    ensures Delivered(v, Receive) + Underway(Next(v, Receive)) == Underway(v) + []
  {
    NilRight(Underway(v));
    if v.memory != [] {
      HeadTail(v.memory);
      Assoc([v.memory[0]], v.memory[1..], v.frame);
      Assoc([v.memory[0]], v.memory[1..] + v.frame, v.buffer);
    } else {
      HeadTail(v.frame);
      NilLeft(v.frame);
      NilRight(v.frame[1..]);
      Assoc([v.frame[0]], v.frame[1..], v.buffer);
    }
  }

  lemma StepConserves(v: View, step: Step)
    requires !WouldBlock(v, step)
    ensures Delivered(v, step) + Underway(Next(v, step)) == Underway(v) + SendOf(step)
  {
    hide Size, Full, SlotReady, WithRoom;
    RoomConserves(v, 5);
    RoomConserves(v, 44);
    if step.Send? {
      SendConserves(v, step.msg);
    } else if step.Receive? {
      ReceiveConserves(v);
    } else {
      NilRight(Underway(v));
      NilLeft(Underway(Next(v, step)));
    }
  }

  lemma {:induction false} RunConserves(schedule: seq<Step>)
    ensures var o := Run(EMPTY, schedule); o.received + Underway(o.view) == SentIn(schedule, o.taken)
  {
    hide Underway, Next, WouldBlock, Delivered, SendOf;
    if schedule == [] {
      assert Underway(EMPTY) == [] by { NothingUnderway(); }
    } else {
      var n := |schedule| - 1;
      var o, step := Run(EMPTY, schedule[..n]), schedule[n];
      RunConserves(schedule[..n]);
      var p := Run(EMPTY, schedule);
      assert p.taken[..n] == o.taken;
      if WouldBlock(o.view, step) {
        NilRight(SentIn(schedule[..n], o.taken));
      } else {
        StepConserves(o.view, step);
        Assoc(o.received, Delivered(o.view, step), Underway(p.view));
        Assoc(o.received, Underway(o.view), SendOf(step));
      }
    }
  }

  lemma NothingUnderway()
    ensures Underway(EMPTY) == []
  {
  }

  predicate Drained(v: View) { v.memory == [] && v.frame == [] && v.buffer == [] }

  /** Over every schedule: what was received is a prefix of what was sent, and all of it
      exactly if nothing is under way. */
  lemma ReceivedInOrder(schedule: seq<Step>)
    ensures var o := Run(EMPTY, schedule);
            && o.received <= SentIn(schedule, o.taken)
            && (o.received == SentIn(schedule, o.taken) <==> Drained(o.view))
  {
    RunConserves(schedule);
    hide Run, SentIn;
    var o := Run(EMPTY, schedule);
    assert |o.received + Underway(o.view)| == |o.received| + |Underway(o.view)|;
    if Drained(o.view) { NilRight(o.received); }
  }

  // ----- frames -----

  /** No step of the writer touches a frame in the pipe. */
  lemma WriterKeepsFrame(v: View, step: Step)
    requires !WouldBlock(v, step) && !step.Receive? && v.frame != []
    ensures Next(v, step).frame == v.frame && Next(v, step).memory == v.memory
    ensures Next(v, step).current == v.current && v.buffer <= Next(v, step).buffer
  {
    hide Size;
  }

  /** The reader neither sees nor disturbs the writer: wherever both can move, they come
      to the same state and the reader gets the same message in either order. */
  lemma SidesCommute(v: View, step: Step)
    requires !step.Receive? && !WouldBlock(v, step) && !WouldBlock(v, Receive)
    ensures !WouldBlock(Next(v, step), Receive) && !WouldBlock(Next(v, Receive), step)
    ensures Next(Next(v, step), Receive) == Next(Next(v, Receive), step)
    ensures Delivered(Next(v, step), Receive) == Delivered(v, Receive)
    ensures Next(v, Receive).buffer == v.buffer && Next(v, Receive).slot == v.slot
  {
    hide Size;
  }

  // ----- progress -----

  function Receives(n: nat): seq<Step> { seq(n, _ => Receive) }

  lemma RunStep(v: View, schedule: seq<Step>, step: Step)
    ensures var o, p := Run(v, schedule), Run(v, schedule + [step]);
            p == if WouldBlock(o.view, step) then o.(taken := o.taken + [false])
                 else Outcome(Next(o.view, step), o.received + Delivered(o.view, step), o.taken + [true])
  {
    assert (schedule + [step])[..|schedule|] == schedule;
    hide Next, WouldBlock, Delivered;
  }

  /** Enough reads take over all that has left the writer. */
  lemma {:induction false} ReadsEmpty(v: View, schedule: seq<Step>, n: nat)
    ensures var o, p := Run(v, schedule), Run(v, schedule + Receives(n));
            && p.view.buffer == o.view.buffer
            && |p.view.memory| + |p.view.frame| <= (if n < |o.view.memory| + |o.view.frame|
                                                     then |o.view.memory| + |o.view.frame| - n else 0)
    decreases n
  {
    hide Run;
    if n == 0 {
      NilRight(schedule);
    } else {
      var before := schedule + Receives(n - 1);
      ReadsEmpty(v, schedule, n - 1);
      assert schedule + Receives(n) == before + [Receive];
      RunStep(v, before, Receive);
    }
  }

  /** From wherever a schedule has got to: as many reads as there are messages under way,
      a flush, and as many reads again leave nothing under way, so that everything sent
      has been received. */
  lemma FlushDrains(schedule: seq<Step>, n: nat)
    requires n >= |Underway(Run(EMPTY, schedule).view)|
    ensures var all := schedule + Receives(n) + [Flush] + Receives(n);
            var o := Run(EMPTY, all);
            Drained(o.view) && o.received == SentIn(all, o.taken)
  {
    hide Run;
    var a := schedule + Receives(n);
    var b := a + [Flush];
    ReadsEmpty(EMPTY, schedule, n);
    RunStep(EMPTY, a, Flush);
    ReadsEmpty(EMPTY, b, n);
    BufferStays(schedule, n);
    ReceivedInOrder(b + Receives(n));
  }

  lemma BufferStays(schedule: seq<Step>, n: nat)
    ensures var o := Run(EMPTY, schedule).view; |o.memory| + |o.frame| + |o.buffer| == |Underway(o)|
  {
  }

  /** Once the pipe is empty the writer can prepare and send any message. */
  lemma WriterMoves(v: View, m: Msg)
    requires v.frame == []
    ensures !WouldBlock(v, Prepare) && !WouldBlock(Next(v, Prepare), Send(m))
  {
    assert Size([]) == 0;
  }
}
