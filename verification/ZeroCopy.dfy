/** The zero-copy pipe: two alternating buffers that the kernel holds by reference,
    and a reader that takes one whole frame at a time. */
module ZeroCopy {
  import opened Messages
  import opened Codec

  const BUF_SIZE: nat := 65536
  const COUNTER: nat := 8
  const ROOM: nat := BUF_SIZE - COUNTER

  /** What one read takes.  A write is one piece or, for a header message, two; the
      last piece of a write is marked. */
  datatype Piece = Piece(bytes: seq<Byte>, last: bool)

  function Join(ps: seq<Piece>): seq<Byte> {
    if ps == [] then [] else Join(ps[..|ps| - 1]) + ps[|ps| - 1].bytes
  }

  predicate NonEmpty(ps: seq<Piece>) { forall i :: 0 <= i < |ps| ==> ps[i].bytes != [] }

  /** Nothing is left of a write that was begun. */
  predicate Closed(ps: seq<Piece>) { ps == [] || ps[|ps| - 1].last }

  /** The pieces of one write. */
  predicate OneWrite(ps: seq<Piece>, bytes: seq<Byte>) {
    ps != [] && NonEmpty(ps) && Join(ps) == bytes && forall i :: 0 <= i < |ps| ==> (ps[i].last <==> i == |ps| - 1)
  }

  lemma {:induction false} JoinConcat(ps: seq<Piece>, qs: seq<Piece>)
    ensures Join(ps + qs) == Join(ps) + Join(qs)
    decreases |qs|
  {
    if qs == [] {
      assert ps + qs == ps;
    } else {
      var n := |qs| - 1;
      assert (ps + qs)[..|ps + qs| - 1] == ps + qs[..n];
      JoinConcat(ps, qs[..n]);
      assert Join(ps) + Join(qs[..n]) + qs[n].bytes == Join(ps) + (Join(qs[..n]) + qs[n].bytes);
    }
  }

  lemma JoinSomething(ps: seq<Piece>)
    requires NonEmpty(ps)
    ensures Join(ps) == [] <==> ps == []
  {
  }

  lemma JoinOne(p: Piece)
    ensures Join([p]) == p.bytes
  {
    assert [p][..0] == [];
  }

  method CopyBytes(dst: array<Byte>, at: nat, src: array<Byte>, from: nat, size: nat)
    requires dst != src && at + size <= dst.Length && from + size <= src.Length
    modifies dst
    ensures dst[..at] == old(dst[..at]) && dst[at..at + size] == src[from..from + size]
  {
    forall k | 0 <= k < size { dst[at + k] := src[from + k]; }
    ghost var d, f := dst[at..at + size], src[from..from + size];
    assert forall k :: 0 <= k < size ==> d[k] == f[k];
  }

  /** A page-aligned buffer: the counter in its first 8 bytes, then the bytes.  The
      pieces are what the written bytes are made of. */
  class Buffer {
    var written: nat
    const bytes: array<Byte>
    ghost var pieces: seq<Piece>

    ghost predicate Valid()
      reads this, bytes
    {
      && bytes.Length == ROOM && written < ROOM
      && bytes[..written] == Join(pieces) && NonEmpty(pieces) && Closed(pieces)
    }

    constructor ()
      ensures Valid() && pieces == [] && fresh(this) && fresh(bytes)
    {
      written := 0;
      bytes := new Byte[ROOM];
      pieces := [];
    }

    /** Counts in the size bytes that follow the written ones. */
    method Grow(size: nat, ghost ps: seq<Piece>)
      requires Valid() && written + size < ROOM && OneWrite(ps, bytes[written..written + size])
      modifies this
      ensures Valid() && pieces == old(pieces) + ps && written == old(written) + size
    {
      hide Join;
      JoinConcat(pieces, ps);
      assert bytes[..written + size] == bytes[..written] + bytes[written..written + size];
      written := written + size;
      pieces := pieces + ps;
    }
  }

  /** The kernel's pipe: room for one frame, held by reference. */
  class Link {
    var frame: Buffer?

    constructor ()
      ensures frame == null
    {
      frame := null;
    }
  }

  datatype Pointer = Null | Pointer(base: array<Byte>, off: nat)

  class Writer {
    const link: Link
    const buf0: Buffer
    const buf1: Buffer
    var current: nat
    var prepared: Pointer

    function Current(): Buffer
      reads this
    {
      if current == 0 then buf0 else buf1
    }

    function Other(): Buffer
      reads this
    {
      if current == 0 then buf1 else buf0
    }

    /** The frame in the pipe, if any, is never the buffer being written. */
    ghost predicate Valid()
      reads this, link, buf0, buf1, buf0.bytes, buf1.bytes
    {
      && current < 2 && buf0 != buf1 && buf0.bytes != buf1.bytes
      && Current().Valid()
      && (link.frame != null ==> link.frame == Other() && Other().Valid() && Other().pieces != [])
      && Other().bytes.Length == ROOM
    }

    /** What is in the pipe, and what is being written. */
    ghost function InPipe(): seq<Piece>
      reads this, link, buf0, buf1
    {
      if link.frame != null then Other().pieces else []
    }

    ghost function Buffered(): seq<Piece>
      reads this, buf0, buf1
    {
      Current().pieces
    }

    constructor (l: Link)
      requires l.frame == null
      ensures Valid() && link == l && fresh(buf0) && fresh(buf1) && fresh(buf0.bytes) && fresh(buf1.bytes)
      ensures InPipe() == [] && Buffered() == [] && Current().written == 0 && current == 0 && prepared == Null
    {
      link := l;
      buf0 := new Buffer();
      buf1 := new Buffer();
      current := 0;
      prepared := Null;
    }

    predicate MustFlush(size: nat)
      reads this, buf0, buf1
    {
      Current().written + size + COUNTER >= BUF_SIZE
    }

    /** The current buffer went into the pipe and the other one is being written. */
    twostate predicate Handed()
      reads this, link, buf0, buf1
    {
      && link.frame == old(Current()) && Current() == old(Other()) && current == 1 - old(current)
      && InPipe() == old(Buffered()) && Buffered() == [] && Current().written == 0
    }

    /** Blocks until the pipe is empty; then hands over the current buffer by
        reference and starts the other one. */
    method FlushOut()
      requires Valid() && Buffered() != []
      requires link.frame == null
      modifies this`current, link, buf0, buf1
      ensures Valid() && Handed()
    {
      link.frame := Current();
      current := (current + 1) % 2;
      var b := Current();
      b.written := 0;
      b.pieces := [];
      assert b.bytes[..0] == [];
    }

    /** A frame in the pipe stays there as it is. */
    twostate predicate FrameKept()
      reads this, link, buf0, buf1, buf0.bytes, buf1.bytes
    {
      old(link.frame) != null ==>
        link.frame == old(link.frame) && current == old(current) && unchanged(Other()) && unchanged(Other().bytes)
    }

    method Flush()
      requires Valid() && (Current().written > 0 ==> link.frame == null)
      modifies this`current, link, buf0, buf1
      ensures Valid() && FrameKept()
      ensures if old(Current().written) > 0 then Handed()
              else unchanged(this) && unchanged(link) && unchanged(buf0) && unchanged(buf1)
      ensures Buffered() == [] && Current().written == 0
    {
      JoinSomething(Current().pieces);
      if Current().written > 0 {
        FlushOut();
      }
    }

    method EnsureSpaceFree(size: nat)
      requires Valid() && size + COUNTER < BUF_SIZE
      requires MustFlush(size) ==> link.frame == null
      modifies this`current, link, buf0, buf1
      ensures Valid() && FrameKept() && !MustFlush(size)
      ensures if old(MustFlush(size)) then Handed()
              else unchanged(this) && unchanged(link) && unchanged(buf0) && unchanged(buf1)
    {
      JoinSomething(Current().pieces);
      if Current().written + size + COUNTER >= BUF_SIZE {
        FlushOut();
      }
    }

    /** The pointer where the next byte goes. */
    function End(): Pointer
      reads this, buf0, buf1
    {
      Pointer(Current().bytes, Current().written)
    }

    /** Hands out the memory the next write will use, so that it needs no copy. */
    method PrepareWrite(size: nat) returns (p: Pointer)
      requires Valid() && size + COUNTER < BUF_SIZE
      requires MustFlush(size) ==> link.frame == null
      modifies this, link, buf0, buf1
      ensures Valid() && FrameKept() && !MustFlush(size) && p == prepared == End()
      ensures if old(MustFlush(size)) then Handed()
              else current == old(current) && unchanged(link) && unchanged(buf0) && unchanged(buf1)
    {
      EnsureSpaceFree(size);
      prepared := Pointer(Current().bytes, Current().written);
      p := prepared;
    }

    /** The caller fills in a message at the prepared pointer. */
    method FillPrepared(m: Msg) returns (ghost stale: seq<Byte>)
      requires Valid() && prepared == End() && !MustFlush(5)
      modifies Current().bytes
      ensures Valid() && |stale| == 4
      ensures prepared.base[prepared.off..prepared.off + 5] == DataBytes(m, stale) + [TypeCode(m)]
      ensures prepared.base[prepared.off..prepared.off + 4] == DataBytes(m, stale)
    {
      var b := Current();
      stale := b.bytes[b.written..b.written + 4];
      FillMessage(b.bytes, b.written, m);
      ghost var now := b.bytes[b.written..b.written + 5];
      assert now[..4] == b.bytes[b.written..b.written + 4];
      assert b.bytes[..b.written] == old(b.bytes[..b.written]);
    }

    /** Appends size bytes to the stream: those already in place if data is the
        prepared pointer, else a copy.  A frame in the pipe is not touched. */
    method Write(data: Pointer, size: nat, ghost ps: seq<Piece>)
      requires Valid() && size + COUNTER < BUF_SIZE
      requires MustFlush(size) ==> link.frame == null
      requires data.Pointer? && data.off + size <= data.base.Length
      requires data == prepared ==> data == End() && !MustFlush(size)
      requires data != prepared ==> data.base != buf0.bytes && data.base != buf1.bytes
      requires OneWrite(ps, data.base[data.off..data.off + size])
      modifies this, link, buf0, buf1, buf0.bytes, buf1.bytes
      ensures Valid() && FrameKept()
      ensures prepared == if data == old(prepared) then End() else old(prepared)
      ensures current == if old(MustFlush(size)) then 1 - old(current) else old(current)
      ensures link.frame == if old(MustFlush(size)) then old(Current()) else old(link.frame)
      ensures InPipe() == if old(MustFlush(size)) then old(Buffered()) else old(InPipe())
      ensures Buffered() == (if old(MustFlush(size)) then [] else old(Buffered())) + ps
    {
      EnsureSpaceFree(size);
      Append(data, size, ps);
    }

    /** The rest of Write, with the space there. */
    method Append(data: Pointer, size: nat, ghost ps: seq<Piece>)
      requires Valid() && !MustFlush(size)
      requires data.Pointer? && data.off + size <= data.base.Length
      requires data == prepared ==> data == End()
      requires data != prepared ==> data.base != buf0.bytes && data.base != buf1.bytes
      requires OneWrite(ps, data.base[data.off..data.off + size])
      modifies this`prepared, Current(), Current().bytes
      ensures Valid() && InPipe() == old(InPipe()) && Buffered() == old(Buffered()) + ps
      ensures prepared == if data == old(prepared) then End() else old(prepared)
    {
      var b := Current();
      if data == prepared {
        prepared := Pointer(data.base, data.off + size);
      } else {
        CopyBytes(b.bytes, b.written, data.base, data.off, size);
      }
      b.Grow(size, ps);
    }
  }

  class Reader {
    const link: Link
    const memory: Buffer
    var readPos: nat
    ghost var rest: seq<Piece>     // the pieces not yet taken from the memory

    ghost predicate Valid()
      reads this, memory, memory.bytes
    {
      && memory.bytes.Length == ROOM && readPos <= memory.written < ROOM
      && memory.bytes[readPos..memory.written] == Join(rest) && NonEmpty(rest) && Closed(rest)
    }

    constructor (l: Link)
      ensures Valid() && link == l && rest == [] && fresh(memory) && fresh(memory.bytes)
    {
      link := l;
      memory := new Buffer();
      readPos := 0;
      rest := [];
    }

    /** Blocks until a frame is in the pipe; takes all of it and empties the pipe. */
    method FlushRead()
      requires link.frame != null && link.frame.Valid() && memory.bytes.Length == ROOM
      requires link.frame != memory && link.frame.bytes != memory.bytes
      modifies link, memory, memory.bytes
      ensures link.frame == null && memory.written == old(link.frame.written)
      ensures memory.written < ROOM && memory.bytes[..memory.written] == Join(old(link.frame.pieces))
    {
      var frame := link.frame;
      CopyBytes(memory.bytes, 0, frame.bytes, 0, ROOM);
      assert memory.bytes[..frame.written] == memory.bytes[0..ROOM][..frame.written];
      assert frame.bytes[..frame.written] == frame.bytes[0..ROOM][..frame.written];
      memory.written := frame.written;
      link.frame := null;
    }

    /** What there is to read, in this process or in the pipe. */
    ghost function Ready(): seq<Piece>
      reads this, link, link.frame
    {
      if rest != [] then rest else if link.frame != null then link.frame.pieces else []
    }

    ghost predicate CanRefill()
      reads this, link, link.frame, if link.frame != null then {link.frame.bytes} else {}
    {
      link.frame != null ==> link.frame.Valid() && link.frame != memory && link.frame.bytes != memory.bytes
    }

    /** Takes the next piece.  A piece never crosses a frame, nor does a write: only
        after the last piece of a write is a new frame fetched. */
    method Read(size: nat) returns (p: Pointer)
      requires Valid() && CanRefill() && Ready() != [] && size == |Ready()[0].bytes|
      modifies this, link, memory, memory.bytes
      ensures Valid() && rest == old(Ready())[1..]
      ensures p.Pointer? && p.base == memory.bytes && p.off + size <= p.base.Length
      ensures p.base[p.off..p.off + size] == old(Ready())[0].bytes
      ensures old(rest) != [] ==> link.frame == old(link.frame) && unchanged(memory) && unchanged(memory.bytes)
      ensures old(rest) == [] ==> link.frame == null
      ensures !old(Ready())[0].last ==> rest != []
    {
      hide Join;
      ghost var todo := Ready();
      ghost var first, more := todo[0], todo[1..];
      assert todo == [first] + more;
      JoinConcat([first], more);
      JoinOne(first);
      JoinSomething(rest);
      if readPos + size > memory.written {
        assert readPos - memory.written == 0;
        FlushRead();
        readPos := 0;
      }
      p := Take(size, first, more);
    }

    /** Hands out the next size bytes of the memory, without copying them. */
    method Take(size: nat, ghost first: Piece, ghost more: seq<Piece>) returns (p: Pointer)
      requires memory.bytes.Length == ROOM && readPos <= memory.written < ROOM && size == |first.bytes|
      requires memory.bytes[readPos..memory.written] == first.bytes + Join(more)
      requires NonEmpty(more) && Closed(more)
      modifies this
      ensures Valid() && rest == more && p == Pointer(memory.bytes, old(readPos))
      ensures old(readPos) + size <= ROOM && memory.bytes[old(readPos)..old(readPos) + size] == first.bytes
    {
      hide Join;
      ghost var left := memory.bytes[readPos..memory.written];
      assert left[..size] == first.bytes && left[size..] == Join(more);
      assert memory.bytes[readPos..readPos + size] == left[..size];
      assert memory.bytes[readPos + size..memory.written] == left[size..];
      p := Pointer(memory.bytes, readPos);
      readPos := readPos + size;
      rest := more;
    }
  }
}
