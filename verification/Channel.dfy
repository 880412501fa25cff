/** Messages over the zero-copy pipe, for every interleaving of the two processes. */
module Channel {
  import opened Messages
  import opened Codec
  import opened ZeroCopy
  import opened Frames
  import Seqs

  /** A message on its way, with what its memory held before. */
  datatype Transfer = Transfer(msg: Msg, stale: seq<Byte>)

  predicate Sendable(s: Transfer) { Encodable(s.msg) && |s.stale| == 4 }

  predicate AllSendable(ss: seq<Transfer>) { forall i :: 0 <= i < |ss| ==> Sendable(ss[i]) }

  /** A header is read in two pieces. */
  function PiecesOf(s: Transfer): (ps: seq<Piece>)
    requires |s.stale| == 4
    ensures ps != []
  {
    var b := Encode(s.msg, s.stale);
    if s.msg.Header? then [Piece(b[..5], false), Piece(b[5..], true)] else [Piece(b, true)]
  }

  function AllPieces(ss: seq<Transfer>): seq<Piece>
    requires AllSendable(ss)
  {
    if ss == [] then [] else PiecesOf(ss[0]) + AllPieces(ss[1..])
  }

  function MessagesOf(ss: seq<Transfer>): (ms: seq<Msg>)
    ensures |ms| == |ss|
  {
    seq(|ss|, i requires 0 <= i < |ss| => ss[i].msg)
  }

  lemma PiecesAreOneWrite(s: Transfer)
    requires |s.stale| == 4
    ensures OneWrite(PiecesOf(s), Encode(s.msg, s.stale))
  {
    hide Encode;
    var b := Encode(s.msg, s.stale);
    if s.msg.Header? {
      var p, q := Piece(b[..5], false), Piece(b[5..], true);
      assert [p, q] == [p] + [q];
      JoinConcat([p], [q]);
      JoinOne(p);
      JoinOne(q);
    } else {
      JoinOne(Piece(b, true));
    }
  }

  lemma {:induction false} AllPiecesSnoc(ss: seq<Transfer>, s: Transfer)
    requires Sendable(s) && AllSendable(ss)
    ensures AllSendable(ss + [s])
    ensures AllPieces(ss + [s]) == AllPieces(ss) + PiecesOf(s)
  {
    hide PiecesOf;
    if ss == [] {
      assert [] + [s] == [s] && [s][1..] == [];
    } else {
      AllPiecesSnoc(ss[1..], s);
      assert (ss + [s])[1..] == ss[1..] + [s];
      assert PiecesOf(ss[0]) + (AllPieces(ss[1..]) + PiecesOf(s)) == AllPieces(ss) + PiecesOf(s);
    }
  }

  lemma MessagesSnoc(ss: seq<Transfer>, s: Transfer)
    ensures MessagesOf(ss + [s]) == MessagesOf(ss) + [s.msg]
  {
  }

  lemma MessagesTail(ss: seq<Transfer>)
    requires ss != []
    ensures MessagesOf(ss)[0] == ss[0].msg && MessagesOf(ss)[1..] == MessagesOf(ss[1..])
  {
  }

  lemma NoPieces(ss: seq<Transfer>)
    requires AllSendable(ss)
    ensures AllPieces(ss) == [] <==> ss == []
  {
  }

  /** The bytes of messages take the room the machine counts. */
  lemma {:induction false} PieceSizes(ss: seq<Transfer>)
    requires AllSendable(ss)
    ensures |Join(AllPieces(ss))| == Size(MessagesOf(ss))
  {
    hide PiecesOf, AllPieces, MessagesOf, Join, Encode, Encodable;
    if ss == [] {
      NoPieces([]);
      JoinSomething([]);
      assert MessagesOf([]) == [];
    } else {
      var n := |ss| - 1;
      PieceSizes(ss[..n]);
      AllPiecesSnoc(ss[..n], ss[n]);
      assert ss == ss[..n] + [ss[n]];
      MessagesSnoc(ss[..n], ss[n]);
      JoinConcat(AllPieces(ss[..n]), PiecesOf(ss[n]));
      PiecesAreOneWrite(ss[n]);
      var ms := MessagesOf(ss);
      assert ms[..n] == MessagesOf(ss[..n]) && ms[n] == ss[n].msg;
    }
  }

  class Channel {
    const w: Writer
    const r: Reader
    ghost var buffer: seq<Transfer>    // being written
    ghost var frame: seq<Transfer>     // in the pipe
    ghost var memory: seq<Transfer>    // with the reader

    ghost predicate Apart()
      reads this
    {
      && w.link == r.link
      && r.memory != w.buf0 && r.memory != w.buf1
      && r.memory.bytes != w.buf0.bytes && r.memory.bytes != w.buf1.bytes
    }

    ghost function Repr(): set<object>
      reads this
    {
      {this, w, r, w.link, w.buf0, w.buf1, w.buf0.bytes, w.buf1.bytes, r.memory, r.memory.bytes}
    }

    ghost predicate Linked()
      reads Repr()
    {
      Apart() && w.Valid() && r.Valid()
    }

    ghost predicate Valid()
      reads Repr()
    {
      && Linked()
      && AllSendable(buffer) && AllSendable(frame) && AllSendable(memory)
      && w.Buffered() == AllPieces(buffer) && w.InPipe() == AllPieces(frame) && r.rest == AllPieces(memory)
    }

    ghost function SlotOf(p: Pointer): Slot {
      if p.Pointer? && p.base == w.buf0.bytes then Slot(0, p.off)
      else if p.Pointer? && p.base == w.buf1.bytes then Slot(1, p.off)
      else NoSlot
    }

    /** The state as the machine sees it. */
    ghost function Abs(): View
      reads this, w
    {
      View(w.current, MessagesOf(buffer), MessagesOf(frame), MessagesOf(memory), SlotOf(w.prepared))
    }

    constructor ()
      ensures Valid() && Abs() == EMPTY && fresh(Repr())
    {
      hide Join, NonEmpty, Closed;
      var link := new Link();
      w := new Writer(link);
      r := new Reader(link);
      buffer, frame, memory := [], [], [];
    }

    /** What the two processes can see of whether a step blocks. */
    lemma Guards(size: nat)
      requires Valid()
      ensures w.MustFlush(size) <==> Full(Abs(), size)
      ensures w.Current().written == Size(Abs().buffer)
      ensures w.Current().written == 0 <==> Abs().buffer == []
      ensures w.link.frame == null <==> Abs().frame == []
      ensures r.readPos < r.memory.written <==> Abs().memory != []
      ensures r.rest == [] <==> Abs().memory == []
      ensures w.prepared == w.End() <==> SlotReady(Abs())
    {
      PieceSizes(buffer);
      NoPieces(buffer);
      NoPieces(frame);
      NoPieces(memory);
      JoinSomething(r.rest);
      JoinSomething(w.Buffered());
      hide Join, AllPieces, Size;
    }

    ghost method Hand()
      requires Linked() && AllSendable(buffer) && AllSendable(memory)
      requires w.Buffered() == [] && w.InPipe() == AllPieces(buffer) && r.rest == AllPieces(memory)
      modifies this`buffer, this`frame
      ensures Valid() && buffer == [] && frame == old(buffer)
    {
      hide AllPieces;
      NoPieces([]);
      frame := buffer;
      buffer := [];
    }

    method Prepare()
      requires Valid() && !WouldBlock(Abs(), Step.Prepare)
      modifies w, w.link, w.buf0, w.buf1, this`buffer, this`frame
      ensures Valid() && Abs() == Next(old(Abs()), Step.Prepare) && w.FrameKept()
    {
      hide AllPieces, AllSendable, Join, Size;
      Guards(5);
      ghost var full := w.MustFlush(5);
      var p := w.PrepareWrite(5);
      if full { Hand(); }
      Guards(5);
    }

    method Flush()
      requires Valid() && !WouldBlock(Abs(), Step.Flush)
      modifies w, w.link, w.buf0, w.buf1, this`buffer, this`frame
      ensures Valid() && Abs() == Next(old(Abs()), Step.Flush) && w.FrameKept()
    {
      hide AllPieces, AllSendable, Join, Size;
      Guards(0);
      ghost var some := w.Current().written > 0;
      w.Flush();
      if some { Hand(); }
    }

    /** A message goes out from the prepared memory; a header is filled in elsewhere,
        serialised and copied. */
    method Send(m: Msg)
      requires Valid() && Encodable(m) && !WouldBlock(Abs(), Step.Send(m))
      modifies w, w.link, w.buf0, w.buf1, w.buf0.bytes, w.buf1.bytes, this`buffer, this`frame
      ensures Valid() && Abs() == Next(old(Abs()), Step.Send(m)) && w.FrameKept()
    {
      if m.Header? {
        SendHeader(m);
      } else {
        SendPlain(m);
      }
    }

    method SendHeader(m: Msg)
      requires Valid() && m.Header? && Encodable(m) && !WouldBlock(Abs(), Step.Send(m))
      modifies w, w.link, w.buf0, w.buf1, w.buf0.bytes, w.buf1.bytes, this`buffer, this`frame
      ensures Valid() && Abs() == Next(old(Abs()), Step.Send(m)) && w.FrameKept()
    {
      hide Encode, PiecesOf, AllPieces, Encodable, Join, Size, NonEmpty, Closed, AllSendable, EMPTY;
      Guards(44);
      var data;
      ghost var s;
      data, s := HeaderBytes(m);
      ghost var before := if w.MustFlush(44) then [] else buffer;
      Put(Pointer(data, 0), 44, s);
      MessagesSnoc(before, s);
    }

    method HeaderBytes(m: Msg) returns (data: array<Byte>, ghost s: Transfer)
      requires m.Header?
      ensures fresh(data) && data.Length == 44 && s.msg == m && |s.stale| == 4
      ensures data[0..44] == Encode(s.msg, s.stale)
    {
      hide Encode, DataBytes;
      var memory := new Byte[5];
      s := Transfer(m, memory[..4]);
      FillMessage(memory, 0, m);
      FirstFour(memory[..], DataBytes(m, s.stale), TypeCode(m));
      data := SerializeHeader(memory, 0, m, s.stale);
      assert data[0..44] == data[..];
    }

    method SendPlain(m: Msg)
      requires Valid() && !m.Header? && Encodable(m) && !WouldBlock(Abs(), Step.Send(m))
      modifies w, w.link, w.buf0, w.buf1, w.buf0.bytes, w.buf1.bytes, this`buffer, this`frame
      ensures Valid() && Abs() == Next(old(Abs()), Step.Send(m)) && w.FrameKept()
    {
      hide Encode, DataBytes, PiecesOf, AllPieces, Encodable, Join, Size;
      Guards(5);
      ghost var stale := Fill(m);
      ghost var s := Transfer(m, stale);
      PlainBytes(m, s.stale);
      Put(w.prepared, 5, s);
      MessagesSnoc(old(buffer), s);
      Guards(0);
      SizeSnoc(old(Abs()).buffer, m);
    }

    method Fill(m: Msg) returns (ghost stale: seq<Byte>)
      requires Valid() && w.prepared == w.End() && !w.MustFlush(5)
      modifies w.Current().bytes
      ensures Valid() && |stale| == 4 && w.FrameKept()
      ensures w.prepared.base[w.prepared.off..w.prepared.off + 5] == DataBytes(m, stale) + [TypeCode(m)]
    {
      hide DataBytes, AllPieces, TypeCode, Encodable;
      stale := w.FillPrepared(m);
    }

    /** One write of the bytes of one message. */
    method Put(data: Pointer, size: nat, ghost s: Transfer)
      requires Valid() && Sendable(s) && size + COUNTER < BUF_SIZE
      requires w.MustFlush(size) ==> w.link.frame == null
      requires data.Pointer? && data.off + size <= data.base.Length
      requires data == w.prepared ==> data == w.End() && !w.MustFlush(size)
      requires data != w.prepared ==> data.base != w.buf0.bytes && data.base != w.buf1.bytes
      requires data.base[data.off..data.off + size] == Encode(s.msg, s.stale)
      modifies w, w.link, w.buf0, w.buf1, w.buf0.bytes, w.buf1.bytes, this`buffer, this`frame
      ensures Valid() && w.FrameKept()
      ensures w.prepared == if data == old(w.prepared) then w.End() else old(w.prepared)
      ensures w.current == if old(w.MustFlush(size)) then 1 - old(w.current) else old(w.current)
      ensures frame == if old(w.MustFlush(size)) then old(buffer) else old(frame)
      ensures buffer == (if old(w.MustFlush(size)) then [] else old(buffer)) + [s]
    {
      hide Encode, PiecesOf, AllPieces, Encodable, OneWrite, Join, NonEmpty, Closed, AllSendable, Size, EMPTY;
      PiecesAreOneWrite(s);
      ghost var full := w.MustFlush(size);
      w.Write(data, size, PiecesOf(s));
      Record(s, full);
    }

    ghost method Record(s: Transfer, handed: bool)
      requires Linked() && Sendable(s) && AllSendable(buffer) && AllSendable(frame) && AllSendable(memory)
      requires r.rest == AllPieces(memory)
      requires w.Buffered() == (if handed then [] else AllPieces(buffer)) + PiecesOf(s)
      requires w.InPipe() == if handed then AllPieces(buffer) else AllPieces(frame)
      modifies this`buffer, this`frame
      ensures Valid()
      ensures buffer == (if handed then [] else old(buffer)) + [s]
      ensures frame == if handed then old(buffer) else old(frame)
    {
      hide PiecesOf, AllPieces, Encodable, Join, NonEmpty, Closed;
      NoPieces([]);
      AllPiecesSnoc(if handed then [] else buffer, s);
      frame := if handed then buffer else frame;
      buffer := (if handed then [] else buffer) + [s];
    }

    /** The next piece, as the reader sees it in its memory; the frame in the pipe is taken
        over when the memory is used up. */
    method ReadPiece(size: nat) returns (p: Pointer)
      requires Linked() && r.Ready() != [] && size == |r.Ready()[0].bytes|
      modifies r, w.link, r.memory, r.memory.bytes
      ensures Linked() && r.rest == old(r.Ready())[1..]
      ensures w.Buffered() == old(w.Buffered())
      ensures w.InPipe() == if old(r.rest) == [] then [] else old(w.InPipe())
      ensures p.Pointer? && p.base == r.memory.bytes && p.off + size <= p.base.Length
      ensures p.base[p.off..p.off + size] == old(r.Ready())[0].bytes
      ensures old(r.rest) != [] ==> unchanged(r.memory.bytes)
      ensures !old(r.Ready())[0].last ==> r.rest != []
    {
      hide Join, NonEmpty, Closed;
      p := r.Read(size);
    }

    /** The next message: 5 bytes, and 39 more for a header. */
    method ReceiveMessage() returns (m: Msg)
      requires Valid() && !WouldBlock(Abs(), Step.Receive)
      modifies r, w.link, r.memory, r.memory.bytes, this`memory, this`frame
      ensures Valid() && Abs() == Next(old(Abs()), Step.Receive) && [m] == Delivered(old(Abs()), Step.Receive)
    {
      hide Encode, PlainMessage, AllPieces, PiecesOf, Sendable, FieldsFrom, Size, Join, NonEmpty, Closed;
      Guards(0);
      ghost var from := if memory != [] then memory else frame;
      NoPieces(memory);
      NoPieces(frame);
      FirstPiece(from);
      SendableAt(from);
      MessagesTail(from);
      ghost var first := from[0];
      ghost var b := Encode(first.msg, first.stale);
      var p := ReadBlock(b);
      var code := p.base[p.off + 4];
      if code == 1 {
        HeaderDecoded(first, b);
        m := ReceiveHeader(p, b);
      } else {
        PlainDecoded(first, b);
        m := PlainMessage(p.base[p.off..p.off + 4], code, NO_DATA);
      }
      Arrived(from);
    }

    ghost method Arrived(from: seq<Transfer>)
      requires Linked() && from != [] && AllSendable(from) && r.rest == AllPieces(from[1..])
      requires AllSendable(buffer) && AllSendable(frame) && w.Buffered() == AllPieces(buffer)
      requires w.InPipe() == if memory == [] then [] else AllPieces(frame)
      modifies this`memory, this`frame
      ensures Valid() && memory == from[1..] && frame == if old(memory) == [] then [] else old(frame)
    {
      hide AllPieces;
      NoPieces([]);
      frame := if memory == [] then [] else frame;
      memory := from[1..];
    }

    method ReadBlock(ghost b: seq<Byte>) returns (p: Pointer)
      requires Linked() && |b| >= 5 && r.Ready() != [] && r.Ready()[0].bytes == b[..5]
      modifies r, w.link, r.memory, r.memory.bytes
      ensures Linked() && r.rest == old(r.Ready())[1..]
      ensures w.Buffered() == old(w.Buffered())
      ensures w.InPipe() == if old(r.rest) == [] then [] else old(w.InPipe())
      ensures p.Pointer? && p.base == r.memory.bytes && p.off + 5 <= p.base.Length
      ensures p.base[p.off..p.off + 4] == b[..4] && p.base[p.off + 4] == b[4]
      ensures !old(r.Ready())[0].last ==> r.rest != []
    {
      hide Join, NonEmpty, Closed;
      p := ReadPiece(5);
      BlockBytes(p.base[p.off..p.off + 5], b, p.base[p.off..p.off + 4]);
    }

    method ReceiveTrailing(ghost b: seq<Byte>) returns (h: HeaderData)
      requires Linked() && r.rest != [] && |b| == 44 && r.rest[0].bytes == b[5..]
      modifies r, w.link, r.memory, r.memory.bytes
      ensures Linked() && r.rest == old(r.rest)[1..]
      ensures w.Buffered() == old(w.Buffered()) && w.InPipe() == old(w.InPipe())
      ensures forall k :: 0 <= k < r.memory.bytes.Length ==> r.memory.bytes[k] == old(r.memory.bytes[k])
      ensures h == FromFields(FieldsFrom(b[8..44], 9))
    {
      hide FieldsFrom, Join, NonEmpty, Closed;
      var q := ReadPiece(39);
      h := ReadTrailing(q.base, q.off + 3);
      TrailingSlice(q.base, q.off, b);
    }

    /** The first 5 bytes are still in place when the rest has been read. */
    method ReceiveHeader(p: Pointer, ghost b: seq<Byte>) returns (m: Msg)
      requires Linked() && r.rest != [] && |b| == 44 && r.rest[0].bytes == b[5..]
      requires p.Pointer? && p.base == r.memory.bytes && p.off + 5 <= p.base.Length
      requires p.base[p.off..p.off + 4] == b[..4]
      modifies r, w.link, r.memory, r.memory.bytes
      ensures Linked() && r.rest == old(r.rest)[1..]
      ensures w.Buffered() == old(w.Buffered()) && w.InPipe() == old(w.InPipe())
      ensures m == PlainMessage(b[..4], 1, FromFields(FieldsFrom(b[8..44], 9)))
    {
      hide PlainMessage, FieldsFrom, Join, NonEmpty, Closed;
      ghost var data := p.base[p.off..p.off + 4];
      var h := ReceiveTrailing(b);
      assert p.base[p.off..p.off + 4] == data;
      m := PlainMessage(p.base[p.off..p.off + 4], 1, h);
    }
  }

  lemma TrailingSlice(a: array<Byte>, off: nat, b: seq<Byte>)
    requires off + 39 <= a.Length && |b| == 44 && a[off..off + 39] == b[5..]
    ensures a[off + 3..off + 39] == b[8..44]
  {
    assert a[off..off + 39][3..] == a[off + 3..off + 39];
  }

  lemma SendableAt(ss: seq<Transfer>)
    requires ss != [] && AllSendable(ss)
    ensures Sendable(ss[0]) && AllSendable(ss[1..])
  {
  }

  lemma BlockBytes(block: seq<Byte>, b: seq<Byte>, data: seq<Byte>)
    requires |block| == 5 <= |b| && block == b[..5] && data == block[..4]
    ensures block[4] == b[4] && data == b[..4]
  {
  }

  lemma TypeAt(s: Transfer)
    requires Sendable(s)
    ensures var b := Encode(s.msg, s.stale); |b| >= 5 && b[4] == TypeCode(s.msg)
  {
  }

  lemma AllPiecesCons(ss: seq<Transfer>)
    requires ss != [] && AllSendable(ss)
    ensures AllSendable(ss[1..]) && Sendable(ss[0]) && AllPieces(ss) == PiecesOf(ss[0]) + AllPieces(ss[1..])
  {
    hide PiecesOf;
  }

  /** The next message of a nonempty flight. */
  lemma FirstPiece(ss: seq<Transfer>)
    requires ss != [] && AllSendable(ss)
    ensures var q := AllPieces(ss);
            var b := Encode(ss[0].msg, ss[0].stale);
            && q != [] && |b| >= 5 && q[0].bytes == b[..5]
            && (b[4] == 1 <==> ss[0].msg.Header?) && b[4] <= 9
            && (ss[0].msg.Header? ==>
                  !q[0].last && |q| > 1 && |b| == 44 && q[1].bytes == b[5..] && q[1..][1..] == AllPieces(ss[1..]))
            && (!ss[0].msg.Header? ==> q[1..] == AllPieces(ss[1..]))
  {
    hide Encode, AllPieces;
    var s, b, t := ss[0], Encode(ss[0].msg, ss[0].stale), AllPieces(ss[1..]);
    TypeAt(s);
    AllPiecesCons(ss);
    if s.msg.Header? {
      var p, q := Piece(b[..5], false), Piece(b[5..], true);
      assert [p, q] == [p] + [q];
      Seqs.Assoc([p], [q], t);
      Seqs.Cons(p, [q] + t);
      Seqs.Cons(q, t);
    } else {
      assert b[..5] == b;
      Seqs.Cons(Piece(b, true), t);
    }
  }

  lemma PlainDecoded(s: Transfer, b: seq<Byte>)
    requires Sendable(s) && !s.msg.Header? && b == Encode(s.msg, s.stale)
    ensures |b| == 5 && b[4] <= 9 && PlainMessage(b[..4], b[4], NO_DATA) == s.msg
  {
    hide PlainMessage, Encode, Encodable;
    DecodeEncode(s.msg, s.stale, []);
    assert b + [] == b;
  }

  lemma HeaderDecoded(s: Transfer, b: seq<Byte>)
    requires Sendable(s) && s.msg.Header? && b == Encode(s.msg, s.stale)
    ensures |b| == 44 && PlainMessage(b[..4], 1, FromFields(FieldsFrom(b[8..44], 9))) == s.msg
  {
    hide PlainMessage, Encode, Encodable, FieldsFrom;
    DecodeEncode(s.msg, s.stale, []);
    assert b + [] == b;
  }

  lemma PlainBytes(m: Msg, stale: seq<Byte>)
    requires !m.Header? && |stale| == 4
    ensures Encode(m, stale) == DataBytes(m, stale) + [TypeCode(m)]
  {
  }

  lemma FirstFour(block: seq<Byte>, data: seq<Byte>, code: Byte)
    requires |data| == 4 && |block| == 5 && block[0..5] == data + [code]
    ensures block[0..4] == data
  {
    assert block[0..5][..4] == data;
  }

  lemma SizeSnoc(ms: seq<Msg>, m: Msg)
    ensures Size(ms + [m]) == Size(ms) + (if m.Header? then 44 else 5)
  {
    assert (ms + [m])[..|ms|] == ms;
  }

  // ----- every schedule -----

  /** The program against the machine: for every schedule of writer and reader steps, the
      steps taken are exactly those that do not block, and what is received is exactly
      what the machine hands over. */
  method Interleave(schedule: seq<Step>) returns (received: seq<Msg>, taken: seq<bool>, drained: bool)
    requires forall i :: 0 <= i < |schedule| && schedule[i].Send? ==> Encodable(schedule[i].msg)
    ensures var o := Run(EMPTY, schedule);
            received == o.received && taken == o.taken && (drained <==> Drained(o.view))
  {
    hide Run, Encodable, Size, EMPTY, Drained, WouldBlock, Next, Delivered;
    var c := new Channel();
    received, taken := [], [];
    RunNone();
    assert schedule[..0] == [];
    for i := 0 to |schedule|
      invariant c.Valid() && fresh(c.Repr())
      invariant Run(EMPTY, schedule[..i]) == Outcome(c.Abs(), received, taken)
    {
      received, taken := Continue(c, schedule, i, received, taken);
    }
    assert schedule[..|schedule|] == schedule;
    drained := IsDrained(c);
  }

  method IsDrained(c: Channel) returns (drained: bool)
    requires c.Valid()
    ensures drained <==> Drained(c.Abs())
  {
    hide Size;
    c.Guards(0);
    drained := c.w.Current().written == 0 && c.w.link.frame == null && c.r.readPos >= c.r.memory.written;
  }

  method Continue(c: Channel, schedule: seq<Step>, i: nat, had: seq<Msg>, were: seq<bool>)
    returns (received: seq<Msg>, taken: seq<bool>)
    requires c.Valid() && i < |schedule| && (schedule[i].Send? ==> Encodable(schedule[i].msg))
    requires Run(EMPTY, schedule[..i]) == Outcome(c.Abs(), had, were)
    modifies c.Repr()
    ensures c.Valid() && Run(EMPTY, schedule[..i + 1]) == Outcome(c.Abs(), received, taken)
  {
    hide Run, Encodable, Size, EMPTY, WouldBlock, Next, Delivered;
    var ok, got := Advance(c, schedule[i]);
    assert schedule[..i + 1] == schedule[..i] + [schedule[i]];
    RunStep(EMPTY, schedule[..i], schedule[i]);
    Seqs.NilRight(had);
    received, taken := had + got, were + [ok];
  }

  lemma RunNone()
    ensures Run(EMPTY, []) == Outcome(EMPTY, [], [])
  {
  }

  /** One step, taken unless it blocks. */
  method Advance(c: Channel, step: Step) returns (ok: bool, got: seq<Msg>)
    requires c.Valid() && (step.Send? ==> Encodable(step.msg))
    modifies c.Repr()
    ensures c.Valid() && ok == !WouldBlock(old(c.Abs()), step)
    ensures if ok then c.Abs() == Next(old(c.Abs()), step) && got == Delivered(old(c.Abs()), step)
            else c.Abs() == old(c.Abs()) && got == []
  {
    got := [];
    ok := CanStep(c, step);
    if ok {
      match step {
        case Prepare => c.Prepare();
        case Send(m) => c.Send(m);
        case Flush => c.Flush();
        case Receive =>
          var m := c.ReceiveMessage();
          got := [m];
      }
    }
  }

  /** What the processes look at before a step that may block. */
  method CanStep(c: Channel, step: Step) returns (ok: bool)
    requires c.Valid()
    ensures ok == !WouldBlock(c.Abs(), step)
  {
    hide Size;
    c.Guards(5);
    c.Guards(44);
    var w := c.w;
    var free := w.link.frame == null;
    match step {
      case Prepare => ok := !w.MustFlush(5) || free;
      case Send(m) => ok := if m.Header? then !w.MustFlush(44) || free else w.prepared == w.End() && !w.MustFlush(5);
      case Flush => ok := w.Current().written == 0 || free;
      case Receive => ok := c.r.readPos < c.r.memory.written || !free;
    }
  }
}
