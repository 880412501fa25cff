/** The byte format of messages: 5 bytes each, the header 44. */
module Codec {
  import opened Messages

  type Byte = b: int | 0 <= b < 256

  // ----- integers -----

  const WORD32: int := 0x1_0000_0000

  predicate IsInt32(n: int) { -0x8000_0000 <= n < 0x8000_0000 }

  /** Little-endian two's complement. */
  function Bytes32(n: int): (b: seq<Byte>)
    ensures |b| == 4
  {
    var w := n % WORD32;
    [w % 256, w / 256 % 256, w / 65536 % 256, w / 16777216]
  }

  function Int32(b: seq<Byte>): int
    requires |b| == 4
  {
    var w: int := b[0] as int + 256 * (b[1] as int) + 65536 * (b[2] as int) + 16777216 * (b[3] as int);
    if w >= 0x8000_0000 then w - WORD32 else w
  }

  lemma SplitWord(w: int)
    requires 0 <= w < WORD32
    ensures w == w % 256 + 256 * (w / 256 % 256) + 65536 * (w / 65536 % 256) + 16777216 * (w / 16777216)
  {
    var q, r := w / 256, w / 65536;
    assert w == 256 * q + w % 256;
    assert q == 256 * (q / 256) + q % 256 && q / 256 == r;
    assert r == 256 * (r / 256) + r % 256 && r / 256 == w / 16777216;
  }

  lemma Int32OfBytes(n: int)
    requires IsInt32(n)
    ensures Int32(Bytes32(n)) == n
  {
    SplitWord(n % WORD32);
    assert n % WORD32 == if n < 0 then n + WORD32 else n;
  }

  lemma LowByte(b: int, q: int)
    requires 0 <= b < 256
    ensures (b + 256 * q) / 256 == q && (b + 256 * q) % 256 == b
  {
  }

  lemma Shifts(w: int)
    ensures w / 65536 == w / 256 / 256 && w / 16777216 == w / 256 / 256 / 256
  {
  }

  lemma BytesOfInt32(b: seq<Byte>)
    requires |b| == 4
    ensures IsInt32(Int32(b)) && Bytes32(Int32(b)) == b
  {
    var b0: int, x: int, y: int, z: int := b[0], b[1], b[2], b[3];
    var w := b0 + 256 * x + 65536 * y + 16777216 * z;
    var w1, w2 := x + 256 * (y + 256 * z), y + 256 * z;
    assert Int32(b) % WORD32 == w;
    LowByte(b0, w1);
    LowByte(x, w2);
    LowByte(y, z);
    assert w == b0 + 256 * w1;
    Shifts(w);
    var n := Int32(b);
    hide Int32;
    assert Bytes32(n) == [b0, x, y, z];
  }

  /** The low byte comes first: the bytes are the digits of the number to base 256, and of
      2^32 more than it if it is negative. */
  lemma ByteOrder(n: int)
    requires IsInt32(n)
    ensures var b, w := Bytes32(n), if n < 0 then n + 0x1_0000_0000 else n;
            w == b[0] as int + 0x100 * b[1] as int + 0x1_0000 * b[2] as int + 0x100_0000 * b[3] as int
  {
    SplitWord(n % WORD32);
    assert n % WORD32 == if n < 0 then n + WORD32 else n;
  }

  // ----- messages -----

  function Fields(h: HeaderData): (fs: seq<int>)
    ensures |fs| == 9
  {
    [h.literals, h.clauses, h.prefixdepth, h.childRead.readEnd, h.childRead.writeEnd,
     h.childWrite.readEnd, h.childWrite.writeEnd, h.toParent.readEnd, h.toParent.writeEnd]
  }

  function FromFields(fs: seq<int>): HeaderData
    requires |fs| == 9
  {
    HeaderData(fs[0], fs[1], fs[2], Pipe(fs[3], fs[4]), Pipe(fs[5], fs[6]), Pipe(fs[7], fs[8]))
  }

  function TypeCode(m: Msg): Byte {
    match m
    case Undefined => 0
    case Header(_, _) => 1
    case Quantifier(_) => 2
    case Literal(_) => 3
    case Fork(_) => 4
    case ForkReport(_) => 5
    case Started(_) => 6
    case Solve => 7
    case ExitCode(_) => 8
    case Destructed => 9
  }

  /** Whether the message carries one integer, and which. */
  predicate HasPayload(m: Msg) {
    m.Header? || m.Quantifier? || m.Literal? || m.ForkReport? || m.Started? || m.ExitCode?
  }

  function Payload(m: Msg): int
    requires HasPayload(m)
  {
    if m.Header? then m.apiVersion
    else if m.Quantifier? then m.lit
    else if m.Literal? then m.lit
    else if m.ForkReport? then m.pid
    else if m.Started? then m.version
    else m.code
  }

  /** The four data bytes.  Only the bits of the message's own member are written;
      the rest keep what the memory held before. */
  function DataBytes(m: Msg, stale: seq<Byte>): (d: seq<Byte>)
    requires |stale| == 4
    ensures |d| == 4
  {
    if HasPayload(m) then Bytes32(Payload(m))
    else if m.Fork? then stale[0 := stale[0] - stale[0] % 2 + (if m.waitForExitCode then 1 else 0)]
    else stale
  }

  predicate Encodable(m: Msg) {
    && (HasPayload(m) ==> IsInt32(Payload(m)))
    && (m.Header? ==> forall k :: 0 <= k < 9 ==> IsInt32(Fields(m.data)[k]))
  }

  function FieldBytes(fs: seq<int>): (b: seq<Byte>)
    ensures |b| == 4 * |fs|
  {
    if fs == [] then [] else FieldBytes(fs[..|fs| - 1]) + Bytes32(fs[|fs| - 1])
  }

  function Trailing(h: HeaderData): (b: seq<Byte>)
    ensures |b| == 39
  {
    [0, 0, 0] + FieldBytes(Fields(h))
  }

  /** A message as sent from memory that held stale. */
  function Encode(m: Msg, stale: seq<Byte>): (b: seq<Byte>)
    requires |stale| == 4
    ensures |b| == if m.Header? then 44 else 5
  {
    if m.Header? then DataBytes(m, stale) + [TypeCode(m)] + Trailing(m.data)
    else DataBytes(m, stale) + [TypeCode(m)]
  }

  function EncodeAll(ms: seq<Msg>, stales: seq<seq<Byte>>): seq<Byte>
    requires |ms| == |stales| && forall i :: 0 <= i < |ms| ==> |stales[i]| == 4
  {
    if ms == [] then [] else Encode(ms[0], stales[0]) + EncodeAll(ms[1..], stales[1..])
  }

  datatype Decoded = Got(msg: Msg, size: nat) | EndOfStream | UnknownType

  /** A signed bit field of width one: 1 reads as -1. */
  function SignedBit(b: Byte): int { if b % 2 == 1 then -1 else 0 }

  function FieldsFrom(b: seq<Byte>, n: nat): (fs: seq<int>)
    requires |b| == 4 * n
    ensures |fs| == n
  {
    if n == 0 then [] else FieldsFrom(b[..4 * n - 4], n - 1) + [Int32(b[4 * n - 4..])]
  }

  /** The message of a 5-byte block; a header gets its data from the trailing bytes. */
  function PlainMessage(data: seq<Byte>, code: Byte, h: HeaderData): Msg
    requires |data| == 4 && code <= 9
  {
    if code == 0 then Undefined
    else if code == 1 then Header(Int32(data), h)
    else if code == 2 then Quantifier(Int32(data))
    else if code == 3 then Literal(Int32(data))
    else if code == 4 then Fork(SignedBit(data[0]) != 0)
    else if code == 5 then ForkReport(Int32(data))
    else if code == 6 then Started(Int32(data))
    else if code == 7 then Solve
    else if code == 8 then ExitCode(Int32(data))
    else Destructed
  }

  /** Reading one message from the bytes still in the stream. */
  function Decode(b: seq<Byte>): (d: Decoded)
    ensures d.Got? ==> 0 < d.size <= |b|
  {
    if |b| < 5 then EndOfStream
    else if b[4] > 9 then UnknownType
    else if b[4] == 1 then
      if |b| < 44 then EndOfStream
      else Got(PlainMessage(b[..4], 1, FromFields(FieldsFrom(b[8..44], 9))), 44)
    else Got(PlainMessage(b[..4], b[4], NO_DATA), 5)
  }

  const NO_DATA: HeaderData := HeaderData(0, 0, 0, Pipe(0, 0), Pipe(0, 0), Pipe(0, 0))

  /** All messages up to the end of the stream or the first unknown type. */
  function DecodeAll(b: seq<Byte>): (seq<Msg>, Decoded)
    decreases |b|
  {
    var d := Decode(b);
    if d.Got? then
      var (ms, end) := DecodeAll(b[d.size..]);
      ([d.msg] + ms, end)
    else ([], d)
  }

  // ----- round trip -----

  lemma {:induction false} FieldsRoundTrip(fs: seq<int>)
    requires forall k :: 0 <= k < |fs| ==> IsInt32(fs[k])
    ensures FieldsFrom(FieldBytes(fs), |fs|) == fs
  {
    if fs == [] {
    } else {
      var n := |fs|;
      var b := FieldBytes(fs);
      FieldsRoundTrip(fs[..n - 1]);
      Int32OfBytes(fs[n - 1]);
      assert b[..4 * n - 4] == FieldBytes(fs[..n - 1]) && b[4 * n - 4..] == Bytes32(fs[n - 1]);
      assert fs[..n - 1] + [fs[n - 1]] == fs;
      hide Int32, Bytes32;
    }
  }

  lemma PlainRoundTrip(m: Msg, stale: seq<Byte>, h: HeaderData)
    requires Encodable(m) && |stale| == 4
    ensures PlainMessage(DataBytes(m, stale), TypeCode(m), h) == if m.Header? then m.(data := h) else m
  {
    hide Int32, Bytes32, IsInt32;
    if HasPayload(m) { Int32OfBytes(Payload(m)); }
  }

  /** The message comes back, whatever the memory held before it was filled in. */
  lemma DecodeEncode(m: Msg, stale: seq<Byte>, rest: seq<Byte>)
    requires Encodable(m) && |stale| == 4
    ensures Decode(Encode(m, stale) + rest) == Got(m, |Encode(m, stale)|)
  {
    hide DataBytes, PlainMessage, FieldsFrom, FieldBytes, Encodable, Payload, IsInt32;
    var b := Encode(m, stale) + rest;
    assert b[..4] == DataBytes(m, stale) && b[4] == TypeCode(m);
    if m.Header? {
      assert Encodable(m) ==> forall k :: 0 <= k < 9 ==> IsInt32(Fields(m.data)[k]) by { EncodableFields(m); }
      FieldsRoundTrip(Fields(m.data));
      assert b[8..44] == FieldBytes(Fields(m.data));
      PlainRoundTrip(m, stale, m.data);
    } else {
      PlainRoundTrip(m, stale, NO_DATA);
    }
  }

  lemma EncodableFields(m: Msg)
    ensures Encodable(m) && m.Header? ==> forall k :: 0 <= k < 9 ==> IsInt32(Fields(m.data)[k])
  {
  }

  /** Whatever follows a list of messages in the stream, the list is read first. */
  lemma {:induction false} DecodeEncodeAll(ms: seq<Msg>, stales: seq<seq<Byte>>, rest: seq<Byte>)
    requires |ms| == |stales| && (forall i :: 0 <= i < |ms| ==> |stales[i]| == 4 && Encodable(ms[i]))
    ensures var (after, end) := DecodeAll(rest);
            DecodeAll(EncodeAll(ms, stales) + rest) == (ms + after, end)
  {
    hide Encode, Decode;
    var (after, end) := DecodeAll(rest);
    if ms == [] {
      assert [] + rest == rest && [] + after == after;
    } else {
      var first, more := Encode(ms[0], stales[0]), EncodeAll(ms[1..], stales[1..]) + rest;
      DecodeEncode(ms[0], stales[0], more);
      DecodeEncodeAll(ms[1..], stales[1..], rest);
      assert EncodeAll(ms, stales) + rest == first + more;
      assert (first + more)[|first|..] == more;
      assert [ms[0]] + (ms[1..] + after) == ms + after;
    }
  }

  // ----- where everything is -----

  /** The int at a position of the stream. */
  function WordAt(b: seq<Byte>, k: nat): int
    requires k + 4 <= |b|
  {
    Int32(b[k..k + 4])
  }

  lemma {:induction false} FieldBytesAt(fs: seq<int>, k: nat)
    requires k < |fs|
    ensures FieldBytes(fs)[4 * k..4 * k + 4] == Bytes32(fs[k])
  {
    var n := |fs| - 1;
    hide Bytes32;
    if k < n {
      FieldBytesAt(fs[..n], k);
      assert FieldBytes(fs)[..4 * n] == FieldBytes(fs[..n]);
      assert FieldBytes(fs)[4 * k..4 * k + 4] == FieldBytes(fs[..n])[4 * k..4 * k + 4];
    }
  }

  lemma TrailingAt(m: Msg, stale: seq<Byte>, k: nat, at: nat)
    requires m.Header? && Encodable(m) && |stale| == 4 && k < 9 && at == 8 + 4 * k
    ensures WordAt(Encode(m, stale), at) == Fields(m.data)[k]
  {
    var fs, b := Fields(m.data), Encode(m, stale);
    Int32OfBytes(fs[k]);
    FieldBytesAt(fs, k);
    hide Bytes32, Int32, DataBytes, FieldBytes, IsInt32, Fields, TypeCode;
    assert b[8..] == FieldBytes(fs);
    WindowAt(b, 4 * k);
  }

  lemma WindowAt(b: seq<Byte>, i: nat)
    requires 8 + i + 4 <= |b|
    ensures b[8 + i..8 + i + 4] == b[8..][i..i + 4]
  {
    var whole, tail := b[8 + i..8 + i + 4], b[8..];
    assert |whole| == 4 && |tail[i..i + 4]| == 4;
    forall j | 0 <= j < 4 ensures whole[j] == tail[i..i + 4][j] {
      assert whole[j] == b[8 + i + j] && tail[i + j] == b[8 + i + j];
    }
  }

  /** The layout of a header message: the version, the type and three zero bytes, then the
      counts and the two ends of each pipe, an int each. */
  lemma HeaderLayout(m: Msg, stale: seq<Byte>)
    requires m.Header? && Encodable(m) && |stale| == 4
    ensures var b, h := Encode(m, stale), m.data;
            && WordAt(b, 0) == m.apiVersion && b[4] == 1 && b[5] == b[6] == b[7] == 0
            && WordAt(b, 8) == h.literals && WordAt(b, 12) == h.clauses && WordAt(b, 16) == h.prefixdepth
            && WordAt(b, 20) == h.childRead.readEnd && WordAt(b, 24) == h.childRead.writeEnd
            && WordAt(b, 28) == h.childWrite.readEnd && WordAt(b, 32) == h.childWrite.writeEnd
            && WordAt(b, 36) == h.toParent.readEnd && WordAt(b, 40) == h.toParent.writeEnd
  {
    MessageLayout(m, stale);
    TrailingAt(m, stale, 0, 8);
    TrailingAt(m, stale, 1, 12);
    TrailingAt(m, stale, 2, 16);
    TrailingAt(m, stale, 3, 20);
    TrailingAt(m, stale, 4, 24);
    TrailingAt(m, stale, 5, 28);
    TrailingAt(m, stale, 6, 32);
    TrailingAt(m, stale, 7, 36);
    TrailingAt(m, stale, 8, 40);
    hide WordAt, FieldBytes, Encode, DataBytes, Encodable, TypeCode;
  }

  /** The layout of every message: the member's int, or its one bit, and behind it the
      place of its type among the message types. */
  lemma MessageLayout(m: Msg, stale: seq<Byte>)
    requires Encodable(m) && |stale| == 4
    ensures var b := Encode(m, stale);
            && (m.Undefined? ==> b == stale + [0])
            && (m.Header? ==> b[4] == 1 && WordAt(b, 0) == m.apiVersion && b[5] == b[6] == b[7] == 0)
            && (m.Quantifier? ==> b[4] == 2 && WordAt(b, 0) == m.lit)
            && (m.Literal? ==> b[4] == 3 && WordAt(b, 0) == m.lit)
            && (m.Fork? ==> b[4] == 4 && (b[0] % 2 == 1 <==> m.waitForExitCode) && b[0] / 2 == stale[0] / 2
                            && b[1..4] == stale[1..])
            && (m.ForkReport? ==> b[4] == 5 && WordAt(b, 0) == m.pid)
            && (m.Started? ==> b[4] == 6 && WordAt(b, 0) == m.version)
            && (m.Solve? ==> b == stale + [7])
            && (m.ExitCode? ==> b[4] == 8 && WordAt(b, 0) == m.code)
            && (m.Destructed? ==> b == stale + [9])
  {
    var b := Encode(m, stale);
    if HasPayload(m) { Int32OfBytes(Payload(m)); }
    hide Bytes32, Int32, FieldBytes, IsInt32;
    assert b[..4] == DataBytes(m, stale) && (HasPayload(m) ==> b[0..4] == Bytes32(Payload(m)));
    assert m.Fork? ==> b[1..4] == DataBytes(m, stale)[1..] == stale[1..];
  }

  // ----- writing into and reading from memory -----

  /** Stores one int at index i of the buffer. */
  method WriteVar(data: array<Byte>, i: nat, n: int) returns (next: nat)
    requires i + 4 <= data.Length
    modifies data
    ensures next == i + 4 && data[..next] == old(data[..i]) + Bytes32(n)
  {
    var w := n % WORD32;
    data[i] := w % 256;
    data[i + 1] := w / 256 % 256;
    data[i + 2] := w / 65536 % 256;
    data[i + 3] := w / 16777216;
    next := i + 4;
    assert data[..i] == old(data[..i]);
    assert data[i..next] == Bytes32(n);
    assert data[..next] == data[..i] + data[i..next];
  }

  lemma FieldBytesSnoc(fs: seq<int>, n: int)
    ensures FieldBytes(fs + [n]) == FieldBytes(fs) + Bytes32(n)
  {
    assert (fs + [n])[..|fs|] == fs;
  }

  /** Sets the message's own member and its type in 5 bytes of memory at off. */
  method FillMessage(memory: array<Byte>, off: nat, m: Msg)
    requires off + 5 <= memory.Length
    modifies memory
    ensures memory[off..off + 5] == DataBytes(m, old(memory[off..off + 4])) + [TypeCode(m)]
    ensures forall k :: 0 <= k < off || off + 5 <= k < memory.Length ==> memory[k] == old(memory[k])
  {
    ghost var stale := memory[off..off + 4];
    if m.Fork? {
      memory[off] := memory[off] - memory[off] % 2 + (if m.waitForExitCode then 1 else 0);
    } else if m.Header? || m.Quantifier? || m.Literal? || m.ForkReport? || m.Started? || m.ExitCode? {
      var n := Payload(m);
      var w := n % WORD32;
      memory[off] := w % 256;
      memory[off + 1] := w / 256 % 256;
      memory[off + 2] := w / 65536 % 256;
      memory[off + 3] := w / 16777216;
    }
    assert memory[off..off + 4] == DataBytes(m, stale);
    memory[off + 4] := TypeCode(m);
    assert memory[off..off + 5] == memory[off..off + 4] + [memory[off + 4]];
  }

  /** The 44 bytes of a header message; the fields go in one by one. */
  method SerializeHeader(memory: array<Byte>, off: nat, m: Msg, ghost stale: seq<Byte>) returns (data: array<Byte>)
    requires m.Header? && off + 4 <= memory.Length && |stale| == 4
    requires memory[off..off + 4] == DataBytes(m, stale)
    ensures fresh(data) && data[..] == Encode(m, stale)
  {
    hide Bytes32, DataBytes, FieldBytes, TypeCode;
    data := new Byte[44];
    var h := m.data;
    ghost var head := WriteHead(data, memory, off, m);
    var i := 8;
    ghost var done: seq<int> := [];
    NoFieldBytes(head);
    i, done := WriteField(data, i, h.literals, head, done);
    i, done := WriteField(data, i, h.clauses, head, done);
    i, done := WriteField(data, i, h.prefixdepth, head, done);
    i, done := WritePipe(data, i, h.childRead, head, done);
    i, done := WritePipe(data, i, h.childWrite, head, done);
    i, done := WritePipe(data, i, h.toParent, head, done);
    assert done == Fields(h);
    assert data[..44] == data[..];
    assert head + FieldBytes(done) == DataBytes(m, stale) + [TypeCode(m)] + ([0, 0, 0] + FieldBytes(done));
  }

  lemma NoFieldBytes(head: seq<Byte>)
    ensures head + FieldBytes([]) == head
  {
  }

  /** The message itself and the padding. */
  method WriteHead(data: array<Byte>, memory: array<Byte>, off: nat, m: Msg) returns (ghost head: seq<Byte>)
    requires off + 4 <= memory.Length && data.Length == 44 && data != memory
    modifies data
    ensures data[..8] == head == memory[off..off + 4] + [TypeCode(m)] + [0, 0, 0]
  {
    hide TypeCode;
    forall k | 0 <= k < 4 { data[k] := memory[off + k]; }
    data[4] := TypeCode(m);
    data[5], data[6], data[7] := 0, 0, 0;
    head := data[..8];
    assert data[..4] == memory[off..off + 4];
  }

  method WritePipe(data: array<Byte>, i: nat, p: Pipe, ghost head: seq<Byte>, ghost done: seq<int>)
    returns (next: nat, ghost now: seq<int>)
    requires i + 8 <= data.Length && data[..i] == head + FieldBytes(done)
    modifies data
    ensures next == i + 8 && now == done + [p.readEnd, p.writeEnd] && data[..next] == head + FieldBytes(now)
  {
    next, now := WriteField(data, i, p.readEnd, head, done);
    next, now := WriteField(data, next, p.writeEnd, head, now);
  }

  method WriteField(data: array<Byte>, i: nat, n: int, ghost head: seq<Byte>, ghost done: seq<int>)
    returns (next: nat, ghost now: seq<int>)
    requires i + 4 <= data.Length && data[..i] == head + FieldBytes(done)
    modifies data
    ensures next == i + 4 && now == done + [n] && data[..next] == head + FieldBytes(now)
  {
    next := WriteVar(data, i, n);
    now := done + [n];
    FieldBytesSnoc(done, n);
    assert head + FieldBytes(done) + Bytes32(n) == head + (FieldBytes(done) + Bytes32(n));
  }

  method ReadVar(data: array<Byte>, i: nat) returns (n: int, next: nat)
    requires i + 4 <= data.Length
    ensures n == Int32(data[i..i + 4]) && next == i + 4
  {
    var w: int := data[i] as int + 256 * (data[i + 1] as int) + 65536 * (data[i + 2] as int)
                  + 16777216 * (data[i + 3] as int);
    n := if w >= 0x8000_0000 then w - WORD32 else w;
    next := i + 4;
  }

  /** One message, read at a position of the stream. */
  method ReadMessage(stream: array<Byte>, pos: nat) returns (d: Decoded)
    requires pos <= stream.Length
    ensures d == Decode(stream[pos..])
  {
    ghost var b := stream[pos..];
    if stream.Length - pos < 5 {
      return EndOfStream;
    }
    assert b[4] == stream[pos + 4] && b[..4] == stream[pos..pos + 4];
    var code := stream[pos + 4];
    if code > 9 {
      return UnknownType;
    }
    var h := NO_DATA;
    if code == 1 {
      if stream.Length - pos < 44 {
        return EndOfStream;
      }
      assert b[8..44] == stream[pos + 8..pos + 44];
      h := ReadTrailing(stream, pos + 8);
      d := Got(PlainMessage(stream[pos..pos + 4], 1, h), 44);
    } else {
      d := Got(PlainMessage(stream[pos..pos + 4], code, h), 5);
    }
  }

  lemma NoFields()
    ensures FieldsFrom([], 0) == []
  {
  }

  lemma FieldsSnoc(b: seq<Byte>, n: nat)
    requires n > 0 && |b| == 4 * n
    ensures FieldsFrom(b, n) == FieldsFrom(b[..4 * n - 4], n - 1) + [Int32(b[4 * n - 4..])]
  {
  }

  method ReadTrailing(data: array<Byte>, start: nat) returns (h: HeaderData)
    requires start + 36 <= data.Length
    ensures h == FromFields(FieldsFrom(data[start..start + 36], 9))
  {
    hide Int32, FieldsFrom;
    var fs := new int[9];
    var i, k := start, 0;
    NoFields();
    while k < 9
      invariant k <= 9 && i == start + 4 * k
      invariant fs[..k] == FieldsFrom(data[start..i], k)
    {
      ghost var b := data[start..i + 4];
      ghost var before := fs[..k];
      FieldsSnoc(b, k + 1);
      assert b[..4 * k] == data[start..i] && b[4 * k..] == data[i..i + 4];
      fs[k], i := ReadVar(data, i);
      k := k + 1;
      assert fs[..k] == before + [fs[k - 1]];
    }
    assert fs[..9] == [fs[0], fs[1], fs[2], fs[3], fs[4], fs[5], fs[6], fs[7], fs[8]];
    h := HeaderData(fs[0], fs[1], fs[2], Pipe(fs[3], fs[4]), Pipe(fs[5], fs[6]), Pipe(fs[7], fs[8]));
  }
}
