/**
 * Length-prefixed frames: four little-endian bytes of length, then the payload.
 * Readers of `legacy/rust-src/daemon.rs`, `legacy/native-host/Sources/main.swift` and
 * `legacy/deno/src/daemon.ts`.
 */
module Frames {
  import opened Wrappers
  import opened Bytes
  import opened ModularArithmetic
  import Bits

  const RUST_MAX_PAYLOAD: nat := 32 * 1024
  const SWIFT_MAX_PAYLOAD: nat := 16 * 1024
  const DENO_MAX_PAYLOAD: nat := 16 * 1024

  // ---------- the format ----------

  function LittleEndian(n: nat): (bs: seq<Byte>)
    requires n < 0x1_0000_0000
    ensures |bs| == 4
  {
    [n % 0x100, n / 0x100 % 0x100, n / 0x100 / 0x100 % 0x100, n / 0x100 / 0x100 / 0x100]
  }

  function FromLittleEndian(bs: seq<Byte>): nat
    requires |bs| == 4
  {
    var b0: nat, b1: nat, b2: nat, b3: nat := bs[0], bs[1], bs[2], bs[3];
    b0 + 0x100 * (b1 + 0x100 * (b2 + 0x100 * b3))
  }

  lemma LengthRoundTrip(n: nat)
    requires n < 0x1_0000_0000
    ensures FromLittleEndian(LittleEndian(n)) == n
  {
  }

  lemma HeaderRoundTrip(header: seq<Byte>)
    requires |header| == 4
    ensures FromLittleEndian(header) < 0x1_0000_0000 && LittleEndian(FromLittleEndian(header)) == header
  {
    var b1: nat, b2: nat, b3: nat := header[1], header[2], header[3];
    var high := b2 + 0x100 * b3;
    var middle := b1 + 0x100 * high;
    assert FromLittleEndian(header) / 0x100 == middle && middle / 0x100 == high && high / 0x100 == b3;
  }

  /** Swift reduces the four bytes with shift and or, byte by byte. */
  function SwiftLength(bs: seq<Byte>): nat
    requires |bs| <= 4
  {
    if bs == [] then 0
    else
      var offset := |bs| - 1;
      Bits.Or(SwiftLength(bs[..offset]), Bits.ShiftLeft(bs[offset], offset * 8))
  }

  /** One more byte on top of the bytes already combined. */
  lemma SwiftLengthStep(bs: seq<Byte>, offset: nat)
    requires offset < |bs| <= 4 && SwiftLength(bs[..offset]) < Pow(2, offset * 8)
    ensures SwiftLength(bs[..offset + 1]) == SwiftLength(bs[..offset]) + bs[offset] as nat * Pow(2, offset * 8)
  {
    assert bs[..offset + 1][..offset] == bs[..offset];
    Bits.OrDisjoint(bs[offset], SwiftLength(bs[..offset]), offset * 8);
  }

  lemma PowersOf256()
    ensures Pow(2, 0) == 1 && Pow(2, 8) == 0x100 && Pow(2, 16) == 0x1_0000 && Pow(2, 24) == 0x100_0000
  {
    PowAdd(2, 8, 8);
    PowAdd(2, 16, 8);
  }

  lemma SwiftLengthIsLittleEndian(bs: seq<Byte>)
    requires |bs| == 4
    ensures SwiftLength(bs) == FromLittleEndian(bs)
  {
    PowersOf256();
    assert bs[..0] == [] && bs[..4] == bs;
    SwiftLengthStep(bs, 0);
    SwiftLengthStep(bs, 1);
    SwiftLengthStep(bs, 2);
    SwiftLengthStep(bs, 3);
  }

  function Frame(payload: seq<Byte>): seq<Byte>
    requires |payload| < 0x1_0000_0000
  {
    LittleEndian(|payload|) + payload
  }

  datatype FrameError = Closed | BadSize | Broken

  /** The first frame of a byte string, and what follows it. */
  function DecodeFrame(data: seq<Byte>, cap: nat): Result<(seq<Byte>, seq<Byte>), FrameError> {
    if |data| < 4 then Err(Closed)
    else
      var length := FromLittleEndian(data[..4]);
      if length == 0 || length > cap then Err(BadSize)
      else if |data| < 4 + length then Err(Closed)
      else Ok((data[4..4 + length], data[4 + length..]))
  }

  /** A written frame decodes to its payload exactly when the payload has a legal length. */
  lemma FrameRoundTrip(payload: seq<Byte>, rest: seq<Byte>, cap: nat)
    requires |payload| < 0x1_0000_0000
    ensures 1 <= |payload| <= cap ==> DecodeFrame(Frame(payload) + rest, cap) == Ok((payload, rest))
    ensures !(1 <= |payload| <= cap) ==> DecodeFrame(Frame(payload) + rest, cap) == Err(BadSize)
  {
    var data := Frame(payload) + rest;
    LengthRoundTrip(|payload|);
    assert data[..4] == LittleEndian(|payload|);
    if 1 <= |payload| <= cap {
      assert data[4..4 + |payload|] == payload;
      assert data[4 + |payload|..] == rest;
    }
  }

  /** Two caps give the same answer exactly when the announced length is not between them. */
  lemma CapsAgreeExactly(data: seq<Byte>)
    ensures DecodeFrame(data, SWIFT_MAX_PAYLOAD) == DecodeFrame(data, RUST_MAX_PAYLOAD)
            <==> (|data| < 4 || !(SWIFT_MAX_PAYLOAD < FromLittleEndian(data[..4]) <= RUST_MAX_PAYLOAD))
  {
  }

  // ---------- streams that deliver bytes in pieces ----------

  datatype ReadEvent = Interrupted | Partial(atMost: nat) | Failure

  datatype ReadResult = Bytes(chunk: seq<Byte>) | Retry | Fault

  /** A stream as a value: the bytes to come, and what its reads will do. */
  datatype Wire = Wire(data: seq<Byte>, script: seq<ReadEvent>)

  function Smaller(a: nat, b: nat): nat {
    if a <= b then a else b
  }

  /**
   * How many bytes one read delivers: all that is asked for and there, or as many of them as
   * the script says, but one at least.
   */
  function Delivered(w: Wire, limit: nat): nat {
    var count := Smaller(limit, |w.data|);
    if w.script != [] && w.script[0].Partial? then
      Smaller(if w.script[0].atMost == 0 then 1 else w.script[0].atMost, count)
    else count
  }

  function ReadFrom(w: Wire, limit: nat): (ReadResult, Wire) {
    var rest := if w.script == [] then [] else w.script[1..];
    if w.script != [] && w.script[0].Interrupted? then (Retry, Wire(w.data, rest))
    else if w.script != [] && w.script[0].Failure? then (Fault, Wire(w.data, rest))
    else
      var count := Delivered(w, limit);
      (Bytes(w.data[..count]), Wire(w.data[count..], rest))
  }

  /** A byte stream whose reads follow an arbitrary script of short reads and interruptions. */
  class ByteStream {
    var data: seq<Byte>
    var script: seq<ReadEvent>

    ghost function View(): Wire
      reads this
    {
      Wire(data, script)
    }

    constructor (data: seq<Byte>, script: seq<ReadEvent>)
      ensures View() == Wire(data, script)
    {
      this.data, this.script := data, script;
    }

    ghost predicate Reliable()
      reads this
    {
      Failure !in script
    }

    /** What the script says of the next read, to the byte. */
    method Read(limit: nat) returns (r: ReadResult)
      requires limit > 0
      modifies this
      ensures (r, View()) == ReadFrom(old(View()), limit)
    {
      ghost var w := View();
      var count := if limit <= |data| then limit else |data|;
      if script != [] {
        var event := script[0];
        script := script[1..];
        match event {
          case Interrupted => return Retry;
          case Failure => return Fault;
          case Partial(n) =>
            if 1 <= n < count {
              count := n;
            } else if n == 0 && count > 1 {
              count := 1;
            }
        }
      }
      assert count == Delivered(w, limit);
      r := Bytes(data[..count]);
      data := data[count..];
    }

    /** Up to `limit` bytes, at least one unless the stream has ended. */
    method ReadSome(limit: nat) returns (r: ReadResult)
      requires limit > 0
      modifies this
      ensures script == (if old(script) == [] then [] else old(script)[1..])
      ensures r.Retry? || r.Fault? ==> old(script) != [] && data == old(data)
      ensures r.Retry? ==> old(script)[0].Interrupted?
      ensures r.Fault? ==> old(script)[0].Failure?
      ensures r.Bytes? ==> |r.chunk| <= limit && old(data) == r.chunk + data && (r.chunk == [] <==> old(data) == [])
    {
      r := Read(limit);
    }
  }

  method CopyInto(buffer: array<Byte>, at: nat, chunk: seq<Byte>)
    requires at + |chunk| <= buffer.Length
    modifies buffer
    ensures buffer[..at + |chunk|] == old(buffer[..at]) + chunk
  {
    for i := 0 to |chunk|
      invariant buffer[..at] == old(buffer[..at])
      invariant buffer[at..at + i] == chunk[..i]
    {
      buffer[at + i] := chunk[i];
    }
    assert buffer[..at + |chunk|] == buffer[..at] + buffer[at..at + |chunk|];
  }

  /** A chunk read after the first `filled` bytes. */
  lemma Advance(data: seq<Byte>, filled: nat, chunk: seq<Byte>, rest: seq<Byte>)
    requires filled <= |data| && data[filled..] == chunk + rest
    ensures filled + |chunk| <= |data|
    ensures data[..filled + |chunk|] == data[..filled] + chunk && data[filled + |chunk|..] == rest
  {
    assert data[filled..][..|chunk|] == chunk && data[filled..][|chunk|..] == rest;
    assert data[filled + |chunk|..] == data[filled..][|chunk|..];
  }

  /** `read_native_host_exact`: fill the buffer in place, retrying interrupted reads. */
  method ReadNativeHostExact(stream: ByteStream, buffer: array<Byte>) returns (r: Result<(), FrameError>)
    modifies stream, buffer
    ensures r.Ok? ==> buffer.Length <= |old(stream.data)|
    ensures r.Ok? ==> buffer[..] == old(stream.data)[..buffer.Length]
    ensures r.Ok? ==> stream.data == old(stream.data)[buffer.Length..]
    ensures r.Err? && old(stream.Reliable()) ==> r == Err(Closed) && |old(stream.data)| < buffer.Length
    ensures old(stream.Reliable()) ==> stream.Reliable()
  {
    var filled: nat := 0;
    while filled < buffer.Length
      invariant filled <= buffer.Length && filled <= |old(stream.data)|
      invariant buffer[..filled] == old(stream.data)[..filled]
      invariant stream.data == old(stream.data)[filled..]
      invariant old(stream.Reliable()) ==> stream.Reliable()
      decreases |stream.script|, buffer.Length - filled
    {
      var got := stream.ReadSome(buffer.Length - filled);
      match got {
        case Retry =>
        case Fault => return Err(Broken);
        case Bytes(chunk) =>
          if chunk == [] {
            return Err(Closed);
          }
          ghost var start := stream.data;
          CopyInto(buffer, filled, chunk);
          Advance(old(stream.data), filled, chunk, start);
          filled := filled + |chunk|;
      }
    }
    r := Ok(());
  }

  /** `read_native_host_frame`. */
  method ReadNativeHostFrame(stream: ByteStream) returns (r: Result<seq<Byte>, FrameError>)
    modifies stream
    ensures r.Ok? ==> DecodeFrame(old(stream.data), RUST_MAX_PAYLOAD) == Ok((r.value, stream.data))
    ensures old(stream.Reliable()) ==> Matches(DecodeFrame(old(stream.data), RUST_MAX_PAYLOAD), r)
    ensures old(stream.Reliable()) ==> stream.Reliable()
  {
    var header := new Byte[4];
    var got := ReadNativeHostExact(stream, header);
    if got.Err? {
      return Err(got.error);
    }
    var length := FromLittleEndian(header[..]);
    if length == 0 || length > RUST_MAX_PAYLOAD {
      return Err(BadSize);
    }
    var payload := new Byte[length];
    got := ReadNativeHostExact(stream, payload);
    if got.Err? {
      return Err(got.error);
    }
    assert old(stream.data)[4..][..length] == old(stream.data)[4..4 + length];
    r := Ok(payload[..]);
  }

  ghost predicate Matches(decoded: Result<(seq<Byte>, seq<Byte>), FrameError>, r: Result<seq<Byte>, FrameError>) {
    r == if decoded.Ok? then Ok(decoded.value.0) else Err(decoded.error)
  }

  /** `readExact` in Swift: append chunks until there are enough bytes. */
  method SwiftReadExact(stream: ByteStream, count: nat) returns (r: Result<seq<Byte>, FrameError>)
    modifies stream
    ensures r.Ok? ==> count <= |old(stream.data)| && r.value == old(stream.data)[..count]
    ensures r.Ok? ==> stream.data == old(stream.data)[count..]
    ensures r.Err? && old(OnlyPartial(stream.script)) ==> r == Err(Closed) && |old(stream.data)| < count
    ensures old(OnlyPartial(stream.script)) ==> OnlyPartial(stream.script)
  {
    var data: seq<Byte> := [];
    while |data| < count
      invariant |data| <= count && |data| <= |old(stream.data)|
      invariant data == old(stream.data)[..|data|] && stream.data == old(stream.data)[|data|..]
      invariant old(OnlyPartial(stream.script)) ==> OnlyPartial(stream.script)
      decreases count - |data|
    {
      var got := stream.ReadSome(count - |data|);
      if !got.Bytes? {
        return Err(Broken);
      }
      if got.chunk == [] {
        return Err(Closed);
      }
      Advance(old(stream.data), |data|, got.chunk, stream.data);
      data := data + got.chunk;
    }
    r := Ok(data);
  }

  ghost predicate OnlyPartial(script: seq<ReadEvent>) {
    forall i :: 0 <= i < |script| ==> script[i].Partial?
  }

  /** `readFrame` in Swift. */
  method SwiftReadFrame(stream: ByteStream) returns (r: Result<seq<Byte>, FrameError>)
    modifies stream
    ensures r.Ok? ==> DecodeFrame(old(stream.data), SWIFT_MAX_PAYLOAD) == Ok((r.value, stream.data))
    ensures old(OnlyPartial(stream.script)) ==> Matches(DecodeFrame(old(stream.data), SWIFT_MAX_PAYLOAD), r)
  {
    var header := SwiftReadExact(stream, 4);
    if header.Err? {
      return Err(header.error);
    }
    var length := SwiftLength(header.value);
    SwiftLengthIsLittleEndian(header.value);
    if length <= 0 || length > SWIFT_MAX_PAYLOAD {
      return Err(BadSize);
    }
    r := SwiftReadExact(stream, length);
    assert r.Ok? ==> old(stream.data)[4..][..length] == old(stream.data)[4..4 + length];
  }

  /**
   * Both writers: refuse an oversized payload, otherwise write header, then payload. The sink
   * takes `room` bytes before it fails; whatever it took stays written.
   */
  method WriteFrame(sink: ByteStream, payload: seq<Byte>, cap: nat, room: nat, flushes: bool)
    returns (r: Result<(), FrameError>)
    requires cap < 0x1_0000_0000
    modifies sink`data
    ensures |payload| > cap ==> r == Err(BadSize) && sink.data == old(sink.data)
    ensures |payload| <= cap ==>
      && sink.data == old(sink.data) + Frame(payload)[..Smaller(room, |Frame(payload)|)]
      && r == if room >= |Frame(payload)| && flushes then Ok(()) else Err(Broken)
  {
    if |payload| > cap {
      return Err(BadSize);
    }
    var header := LittleEndian(|payload|);
    if room < |header| {
      sink.data := sink.data + header[..room];
      assert header[..room] == Frame(payload)[..room];
      return Err(Broken);
    }
    sink.data := sink.data + header;
    if room - |header| < |payload| {
      sink.data := sink.data + payload[..room - |header|];
      assert header + payload[..room - |header|] == Frame(payload)[..room];
      return Err(Broken);
    }
    sink.data := sink.data + payload;
    assert header + payload == Frame(payload)[..|Frame(payload)|];
    r := if flushes then Ok(()) else Err(Broken);
  }

  /** What a failed write leaves behind never reads as a frame. */
  lemma CutFrameIsClosed(payload: seq<Byte>, cut: nat, cap: nat)
    requires |payload| <= cap < 0x1_0000_0000 && cut < |Frame(payload)|
    ensures DecodeFrame(Frame(payload)[..cut], cap) == Err(Closed)
  {
    LengthRoundTrip(|payload|);
    if cut >= 4 {
      assert Frame(payload)[..cut][..4] == LittleEndian(|payload|);
    }
  }

  // ---------- lists of frames ----------

  ghost predicate Legal(payloads: seq<seq<Byte>>, cap: nat) {
    forall i :: 0 <= i < |payloads| ==> 1 <= |payloads[i]| <= cap
  }

  ghost function Encode(payloads: seq<seq<Byte>>): seq<Byte>
    requires forall i :: 0 <= i < |payloads| ==> |payloads[i]| < 0x1_0000_0000
  {
    if payloads == [] then [] else Frame(payloads[0]) + Encode(payloads[1..])
  }

  /** Reading one frame after another gives back the list that was written, however the bytes arrive. */
  method ReadAll(stream: ByteStream, ghost payloads: seq<seq<Byte>>, ghost rest: seq<Byte>, count: nat)
    returns (read: seq<seq<Byte>>)
    requires Legal(payloads, RUST_MAX_PAYLOAD) && count == |payloads|
    requires stream.data == Encode(payloads) + rest && stream.Reliable()
    modifies stream
    ensures read == payloads && stream.data == rest
  {
    read := [];
    while |read| < count
      invariant |read| <= count && read == payloads[..|read|]
      invariant stream.data == Encode(payloads[|read|..]) + rest && stream.Reliable()
      decreases count - |read|
    {
      ghost var todo := payloads[|read|..];
      assert stream.data == Frame(todo[0]) + (Encode(todo[1..]) + rest);
      FrameRoundTrip(todo[0], Encode(todo[1..]) + rest, RUST_MAX_PAYLOAD);
      var frame := ReadNativeHostFrame(stream);
      read := read + [frame.value];
    }
    assert payloads[|read|..] == [] && payloads[..|read|] == payloads;
  }

  // ---------- reads that are abandoned half-way ----------

  datatype Poll = Ready(result: Result<seq<Byte>, FrameError>) | Pending(consumed: nat)

  predicate LegalLength(length: nat) {
    1 <= length <= RUST_MAX_PAYLOAD
  }

  /** These bytes are the beginning of a frame, and not all of it. */
  predicate InFrame(got: seq<Byte>) {
    |got| < 4 || (LegalLength(FromLittleEndian(got[..4])) && |got| < 4 + FromLittleEndian(got[..4]))
  }

  /** How far the read in progress has to get: through the header, then through the payload. */
  function Goal(got: seq<Byte>): (goal: nat)
    requires InFrame(got)
    ensures |got| < goal
  {
    if |got| < 4 then 4 else 4 + FromLittleEndian(got[..4])
  }

  /** A frame read goes on with what it has got, or is over. */
  datatype Step = GoesOn(got: seq<Byte>) | Over(result: Result<seq<Byte>, FrameError>)

  /** What a chunk does to a frame read. */
  function WithChunk(got: seq<Byte>, chunk: seq<Byte>): (s: Step)
    requires InFrame(got) && |chunk| <= Goal(got) - |got|
    ensures s.GoesOn? ==> InFrame(s.got) && s.got == got + chunk && chunk != []
  {
    var more := got + chunk;
    assert |got| >= 4 ==> more[..4] == got[..4];
    if chunk == [] then Over(Err(Closed))
    else if |more| < Goal(got) then GoesOn(more)
    else if |got| >= 4 then Over(Ok(more[4..]))
    else if LegalLength(FromLittleEndian(more[..4])) then GoesOn(more)
    else Over(Err(BadSize))
  }

  /** What a read of the stream does to it. */
  function AfterRead(got: seq<Byte>, r: ReadResult): (s: Step)
    requires InFrame(got) && (r.Bytes? ==> |r.chunk| <= Goal(got) - |got|)
    ensures s.GoesOn? ==> InFrame(s.got)
  {
    match r
    case Retry => GoesOn(got)
    case Fault => Over(Err(Broken))
    case Bytes(chunk) => WithChunk(got, chunk)
  }

  function Once(w: Wire, got: seq<Byte>): (Step, Wire)
    requires InFrame(got)
  {
    var (r, v) := ReadFrom(w, Goal(got) - |got|);
    (AfterRead(got, r), v)
  }

  /** A frame read that has `got` some bytes and may read the stream `budget` times more. */
  function Polling(w: Wire, got: seq<Byte>, budget: nat): (Poll, Wire)
    requires InFrame(got)
    decreases budget
  {
    if budget == 0 then (Pending(|got|), w)
    else
      var (step, v) := Once(w, got);
      match step
      case GoesOn(more) => Polling(v, more, budget - 1)
      case Over(result) => (Ready(result), v)
  }

  /** The reader's bookkeeping for one chunk: `length` is known once the header is complete. */
  method TakeChunk(got: seq<Byte>, length: Option<nat>, chunk: seq<Byte>) returns (s: Step, known: Option<nat>)
    requires InFrame(got) && |chunk| <= Goal(got) - |got|
    requires length == HeaderLength(got)
    ensures s == WithChunk(got, chunk)
    ensures s.GoesOn? ==> known == HeaderLength(s.got)
  {
    known := length;
    if chunk == [] {
      return Over(Err(Closed)), known;
    }
    var goal := if length.None? then 4 else 4 + length.value;
    var more := got + chunk;
    assert |got| >= 4 ==> more[..4] == got[..4];
    if |more| < goal {
      return GoesOn(more), known;
    }
    if length.Some? {
      return Over(Ok(more[4..])), known;
    }
    known := Some(FromLittleEndian(more[..4]));
    if known.value == 0 || known.value > RUST_MAX_PAYLOAD {
      return Over(Err(BadSize)), known;
    }
    s := GoesOn(more);
  }

  /** One read of the stream, and what it does to the frame read. */
  method PollOnce(stream: ByteStream, got: seq<Byte>, length: Option<nat>) returns (s: Step, known: Option<nat>)
    requires InFrame(got) && length == HeaderLength(got)
    modifies stream
    ensures (s, stream.View()) == Once(old(stream.View()), got)
    ensures s.GoesOn? ==> known == HeaderLength(s.got)
  {
    var limit := if length.None? then 4 - |got| else 4 + length.value - |got|;
    assert limit == Goal(got) - |got|;
    var r := stream.Read(limit);
    match r
    case Retry => s, known := GoesOn(got), length;
    case Fault => s, known := Over(Err(Broken)), length;
    case Bytes(chunk) => s, known := TakeChunk(got, length, chunk);
  }

  function HeaderLength(got: seq<Byte>): Option<nat> {
    if |got| < 4 then None else Some(FromLittleEndian(got[..4]))
  }

  /** A frame read that is given so many reads of the stream, and dropped if they do not suffice. */
  method PollFrame(stream: ByteStream, budget: nat) returns (p: Poll)
    modifies stream
    ensures (p, stream.View()) == Polling(old(stream.View()), [], budget)
    ensures p.Ready? && p.result.Ok? ==>
      DecodeFrame(old(stream.data), RUST_MAX_PAYLOAD) == Ok((p.result.value, stream.data))
    ensures p.Ready? && old(stream.Reliable()) ==> Matches(DecodeFrame(old(stream.data), RUST_MAX_PAYLOAD), p.result)
    ensures p.Pending? ==> p.consumed <= |old(stream.data)| && stream.data == old(stream.data)[p.consumed..]
    ensures old(stream.Reliable()) ==> stream.Reliable()
  {
    PollingDecodes(stream.View(), stream.data, [], budget);
    p := PollReads(stream, budget);
  }

  method PollReads(stream: ByteStream, budget: nat) returns (p: Poll)
    modifies stream
    ensures (p, stream.View()) == Polling(old(stream.View()), [], budget)
  {
    var got: seq<Byte> := [];
    var length: Option<nat> := None;
    var left: nat := budget;
    while left > 0
      invariant InFrame(got) && length == HeaderLength(got)
      invariant Polling(old(stream.View()), [], budget) == Polling(stream.View(), got, left)
      decreases left
    {
      left := left - 1;
      var step, known := PollOnce(stream, got, length);
      if step.Over? {
        return Ready(step.result);
      }
      got, length := step.got, known;
    }
    p := Pending(|got|);
  }

  /** What has been read so far and what is still to come. */
  ghost predicate Splits(data: seq<Byte>, got: seq<Byte>, rest: seq<Byte>) {
    data == got + rest
  }

  /** One more read moves bytes from what is to come to what has been read. */
  lemma ReadMoves(w: Wire, data: seq<Byte>, got: seq<Byte>, limit: nat)
    requires Splits(data, got, w.data) && limit > 0
    ensures var (r, v) := ReadFrom(w, limit);
      && Splits(data, if r.Bytes? then got + r.chunk else got, v.data)
      && v.script == (if w.script == [] then [] else w.script[1..])
      && (r.Bytes? ==> |r.chunk| <= limit && (r.chunk == [] <==> w.data == []))
  {
  }

  lemma WholeFrame(data: seq<Byte>, got: seq<Byte>, rest: seq<Byte>)
    requires Splits(data, got, rest) && |got| >= 4 && LegalLength(FromLittleEndian(got[..4]))
    requires |got| == 4 + FromLittleEndian(got[..4])
    ensures DecodeFrame(data, RUST_MAX_PAYLOAD) == Ok((got[4..], rest))
  {
    assert data[..4] == got[..4] && data[4..|got|] == got[4..] && data[|got|..] == rest;
  }

  lemma BadHeader(data: seq<Byte>, got: seq<Byte>, rest: seq<Byte>)
    requires Splits(data, got, rest) && |got| == 4 && !LegalLength(FromLittleEndian(got[..4]))
    ensures DecodeFrame(data, RUST_MAX_PAYLOAD) == Err(BadSize)
  {
    assert data[..4] == got[..4];
  }

  lemma CutShort(data: seq<Byte>, got: seq<Byte>)
    requires Splits(data, got, []) && InFrame(got)
    ensures DecodeFrame(data, RUST_MAX_PAYLOAD) == Err(Closed)
  {
    assert data == got;
  }

  /** One read keeps the split; if it ends the frame read, then with what the whole data decode to. */
  lemma OnceDecodes(w: Wire, data: seq<Byte>, got: seq<Byte>)
    requires InFrame(got) && Splits(data, got, w.data)
    ensures var (s, v) := Once(w, got);
      && (Failure !in w.script ==> Failure !in v.script)
      && (s.GoesOn? ==> Splits(data, s.got, v.data))
      && (s.Over? && s.result.Ok? ==> DecodeFrame(data, RUST_MAX_PAYLOAD) == Ok((s.result.value, v.data)))
      && (s.Over? && s.result.Err? && s.result.error != Broken ==>
            DecodeFrame(data, RUST_MAX_PAYLOAD) == Err(s.result.error))
      && (s == Over(Err(Broken)) ==> Failure in w.script)
  {
    var (r, v) := ReadFrom(w, Goal(got) - |got|);
    ReadMoves(w, data, got, Goal(got) - |got|);
    if r.Bytes? {
      ChunkDecodes(data, got, r.chunk, v.data);
    }
  }

  lemma ChunkDecodes(data: seq<Byte>, got: seq<Byte>, chunk: seq<Byte>, rest: seq<Byte>)
    requires InFrame(got) && |chunk| <= Goal(got) - |got| && Splits(data, got + chunk, rest)
    requires chunk == [] ==> rest == []
    ensures var s := WithChunk(got, chunk);
      && (s.GoesOn? ==> Splits(data, s.got, rest))
      && (s.Over? ==> DecodeFrame(data, RUST_MAX_PAYLOAD)
                      == if s.result.Ok? then Ok((s.result.value, rest)) else Err(s.result.error))
  {
    var more := got + chunk;
    assert |got| >= 4 ==> more[..4] == got[..4];
    if chunk == [] {
      assert more == got;
      CutShort(data, got);
    } else if |more| == Goal(got) && |got| >= 4 {
      WholeFrame(data, more, rest);
    } else if |more| == 4 && !LegalLength(FromLittleEndian(more[..4])) {
      BadHeader(data, more, rest);
    }
  }

  lemma SplitRest(data: seq<Byte>, got: seq<Byte>, rest: seq<Byte>)
    requires Splits(data, got, rest)
    ensures |got| <= |data| && data[|got|..] == rest
  {
  }

  /** A read that is ready has decoded the frame, or met its error; one that is pending has taken its bytes along. */
  lemma {:induction false} PollingDecodes(w: Wire, data: seq<Byte>, got: seq<Byte>, budget: nat)
    requires InFrame(got) && Splits(data, got, w.data)
    ensures var (p, v) := Polling(w, got, budget);
      && (Failure !in w.script ==> Failure !in v.script)
      && (p.Pending? ==> p.consumed <= |data| && v.data == data[p.consumed..])
      && (p.Ready? && p.result != Err(Broken) ==> Matches(DecodeFrame(data, RUST_MAX_PAYLOAD), p.result))
      && (p == Ready(Err(Broken)) ==> Failure in w.script)
      && (p.Ready? && p.result.Ok? ==> DecodeFrame(data, RUST_MAX_PAYLOAD) == Ok((p.result.value, v.data)))
    decreases budget
  {
    if budget == 0 {
      SplitRest(data, got, w.data);
    } else {
      var (s, v) := Once(w, got);
      OnceDecodes(w, data, got);
      match s
      case GoesOn(more) =>
        PollingDecodes(v, data, more, budget - 1);
        assert Polling(w, got, budget) == Polling(v, more, budget - 1);
      case Over(result) =>
        assert Polling(w, got, budget) == (Ready(result), v);
    }
  }

  /** A read is only left pending when its whole budget has been spent on the stream. */
  lemma {:induction false} PendingSpends(w: Wire, got: seq<Byte>, budget: nat)
    requires InFrame(got) && Polling(w, got, budget).0.Pending?
    ensures Polling(w, got, budget).1.script == w.script[Smaller(budget, |w.script|)..]
    decreases budget
  {
    if budget > 0 {
      var (r, v) := ReadFrom(w, Goal(got) - |got|);
      PendingSpends(v, if r.Bytes? then got + r.chunk else got, budget - 1);
    }
  }

  /** Reads still needed once nothing comes in the way: for the header, for the payload, to see the end. */
  function Needed(got: seq<Byte>, data: seq<Byte>): nat {
    if data == [] then 1 else if |got| < 4 then 3 else 2
  }

  /** Enough reads always end the frame: one for each event of the script, and three more. */
  lemma {:induction false} EnoughReads(w: Wire, got: seq<Byte>, budget: nat)
    requires InFrame(got) && budget >= |w.script| + Needed(got, w.data)
    ensures Polling(w, got, budget).0.Ready?
    decreases budget
  {
    var (r, v) := ReadFrom(w, Goal(got) - |got|);
    var more := if r.Bytes? then got + r.chunk else got;
    assert |got| >= 4 ==> more[..4] == got[..4];
    if InFrame(more) && (r.Retry? || (r.Bytes? && r.chunk != [])) {
      EnoughReads(v, more, budget - 1);
    }
  }

  ghost predicate OnlyInterrupted(script: seq<ReadEvent>) {
    forall i :: 0 <= i < |script| ==> script[i].Interrupted?
  }

  lemma OneMoreInterrupted(script: seq<ReadEvent>, count: nat)
    requires 0 < count <= |script|
    ensures OnlyInterrupted(script[..count]) <==> script[0].Interrupted? && OnlyInterrupted(script[1..][..count - 1])
  {
    var all, tail := script[..count], script[1..][..count - 1];
    assert all == [script[0]] + tail;
    if OnlyInterrupted(all) {
      forall i | 0 <= i < |tail| ensures tail[i].Interrupted? {
        assert tail[i] == all[i + 1];
      }
    }
  }

  /** A read is dropped without having taken anything exactly when each of its reads was interrupted. */
  lemma {:induction false} PendingEmptyExactly(w: Wire, budget: nat)
    ensures Polling(w, [], budget).0 == Pending(0) <==> budget <= |w.script| && OnlyInterrupted(w.script[..budget])
    decreases budget
  {
    if budget > 0 {
      if budget <= |w.script| {
        OneMoreInterrupted(w.script, budget);
      }
      if w.script != [] && w.script[0].Interrupted? {
        var v := Wire(w.data, w.script[1..]);
        assert Once(w, []) == (GoesOn([]), v);
        PendingEmptyExactly(v, budget - 1);
      } else {
        PendingKeepsBytes(w, [], budget);
      }
    }
  }

  /** What a pending read has got is never less than what it had. */
  lemma {:induction false} PendingKeepsBytes(w: Wire, got: seq<Byte>, budget: nat)
    requires InFrame(got)
    ensures Polling(w, got, budget).0.Pending? ==> Polling(w, got, budget).0.consumed >= |got|
    ensures Polling(w, got, budget).0 == Pending(|got|) && budget > 0 ==> ReadFrom(w, Goal(got) - |got|).0.Retry?
    decreases budget
  {
    if budget > 0 {
      var (r, v) := ReadFrom(w, Goal(got) - |got|);
      var more := if r.Bytes? then got + r.chunk else got;
      assert |got| >= 4 ==> more[..4] == got[..4];
      if InFrame(more) && (r.Retry? || (r.Bytes? && r.chunk != [])) {
        PendingKeepsBytes(v, more, budget - 1);
      }
    }
  }

  /**
   * One turn of the loop: the frame read ran to its end, or a request to be sent cut it short,
   * or the stream failed under it.
   */
  datatype Turn = Whole | Abandoned(consumed: nat) | Failed

  /** The payloads the loop sees; it ends with the first read that fails. */
  ghost function Recovered(data: seq<Byte>, turns: seq<Turn>): seq<seq<Byte>>
    decreases |turns|
  {
    if turns == [] then []
    else match turns[0]
      case Whole =>
        var frame := DecodeFrame(data, RUST_MAX_PAYLOAD);
        if frame.Err? then [] else [frame.value.0] + Recovered(frame.value.1, turns[1..])
      case Abandoned(consumed) => Recovered(data[Smaller(consumed, |data|)..], turns[1..])
      case Failed => []
  }

  /** What is still to come after these turns, unless one of them ended the loop. */
  ghost function Remaining(data: seq<Byte>, turns: seq<Turn>): Option<seq<Byte>>
    decreases |turns|
  {
    if turns == [] then Some(data)
    else match turns[0]
      case Whole =>
        var frame := DecodeFrame(data, RUST_MAX_PAYLOAD);
        if frame.Err? then None else Remaining(frame.value.1, turns[1..])
      case Abandoned(consumed) => Remaining(data[Smaller(consumed, |data|)..], turns[1..])
      case Failed => None
  }

  /** How many bytes the abandoned reads took with them. */
  ghost function Lost(data: seq<Byte>, turns: seq<Turn>): nat
    decreases |turns|
  {
    if turns == [] then 0
    else match turns[0]
      case Whole =>
        var frame := DecodeFrame(data, RUST_MAX_PAYLOAD);
        if frame.Err? then 0 else Lost(frame.value.1, turns[1..])
      case Abandoned(consumed) =>
        Smaller(consumed, |data|) + Lost(data[Smaller(consumed, |data|)..], turns[1..])
      case Failed => 0
  }

  /** How many frame reads ran to their end, up to a failure. */
  ghost function Wholes(turns: seq<Turn>): nat {
    if turns == [] || turns[0].Failed? then 0
    else (if turns[0].Whole? then 1 else 0) + Wholes(turns[1..])
  }

  lemma {:induction false} OneMoreTurn(data: seq<Byte>, turns: seq<Turn>, turn: Turn)
    requires Remaining(data, turns).Some?
    ensures var rest := Remaining(data, turns).value;
      && Recovered(data, turns + [turn]) == Recovered(data, turns) + Recovered(rest, [turn])
      && Remaining(data, turns + [turn]) == Remaining(rest, [turn])
    decreases |turns|
  {
    if turns == [] {
      assert turns + [turn] == [turn];
    } else {
      assert (turns + [turn])[1..] == turns[1..] + [turn];
      match turns[0]
      case Whole => OneMoreTurn(DecodeFrame(data, RUST_MAX_PAYLOAD).value.1, turns[1..], turn);
      case Abandoned(consumed) => OneMoreTurn(data[Smaller(consumed, |data|)..], turns[1..], turn);
    }
  }

  /** The turns the loop takes on a stream, each with the number of reads its frame read is given. */
  function Turns(w: Wire, budgets: seq<nat>): seq<Turn>
    decreases |budgets|
  {
    if budgets == [] then []
    else
      var (p, v) := Polling(w, [], budgets[0]);
      match p
      case Pending(consumed) => [Abandoned(consumed)] + Turns(v, budgets[1..])
      case Ready(result) => [TurnOf(p)] + if result.Err? then [] else Turns(v, budgets[1..])
  }

  function TurnOf(p: Poll): Turn {
    match p
    case Pending(consumed) => Abandoned(consumed)
    case Ready(result) => if result == Err(Broken) then Failed else Whole
  }

  /** One turn adds the payload its read decoded, if it did, and leaves the stream where the read left it. */
  lemma TurnTaken(data: seq<Byte>, turns: seq<Turn>, w: Wire, budget: nat, p: Poll, v: Wire)
    requires Remaining(data, turns) == Some(w.data) && (p, v) == Polling(w, [], budget)
    ensures Recovered(data, turns + [TurnOf(p)])
         == Recovered(data, turns) + (if p.Ready? && p.result.Ok? then [p.result.value] else [])
    ensures Remaining(data, turns + [TurnOf(p)]) == (if p.Ready? && p.result.Err? then None else Some(v.data))
  {
    PollingDecodes(w, w.data, [], budget);
    OneMoreTurn(data, turns, TurnOf(p));
    TurnAlone(w.data, TurnOf(p));
  }

  /** The turns taken so far, and then those of the stream as it is now. */
  ghost predicate TurnsSoFar(start: Wire, budgets: seq<nat>, turns: seq<Turn>, now: Wire) {
    |turns| <= |budgets| && Turns(start, budgets) == turns + Turns(now, budgets[|turns|..])
  }

  lemma NextTurn(start: Wire, budgets: seq<nat>, turns: seq<Turn>, now: Wire, p: Poll, v: Wire)
    requires TurnsSoFar(start, budgets, turns, now) && |turns| < |budgets|
    requires (p, v) == Polling(now, [], budgets[|turns|])
    ensures if p.Ready? && p.result.Err? then Turns(start, budgets) == turns + [TurnOf(p)]
            else TurnsSoFar(start, budgets, turns + [TurnOf(p)], v)
  {
    var rest := budgets[|turns|..];
    assert rest[1..] == budgets[|turns| + 1..];
    var after := if p.Ready? && p.result.Err? then [] else Turns(v, rest[1..]);
    assert Turns(now, rest) == [TurnOf(p)] + after;
    Reassociate(turns, [TurnOf(p)], after);
    assert turns + [TurnOf(p)] + [] == turns + [TurnOf(p)];
  }

  lemma Reassociate(a: seq<Turn>, b: seq<Turn>, c: seq<Turn>)
    ensures a + (b + c) == a + b + c
  {
  }

  /** The loop over `select!`. */
  method SelectLoop(stream: ByteStream, budgets: seq<nat>) returns (read: seq<seq<Byte>>, ghost turns: seq<Turn>)
    modifies stream
    ensures turns == Turns(old(stream.View()), budgets) && read == Recovered(old(stream.data), turns)
    ensures if Remaining(old(stream.data), turns).None? then |turns| <= |budgets|
            else |turns| == |budgets| && Remaining(old(stream.data), turns) == Some(stream.data)
  {
    read, turns := [], [];
    for next := 0 to |budgets|
      invariant |turns| == next
      invariant TurnsSoFar(old(stream.View()), budgets, turns, stream.View())
      invariant read == Recovered(old(stream.data), turns)
      invariant Remaining(old(stream.data), turns) == Some(stream.data)
    {
      ghost var now := stream.View();
      var poll := PollReads(stream, budgets[next]);
      NextTurn(old(stream.View()), budgets, turns, now, poll, stream.View());
      TurnTaken(old(stream.data), turns, now, budgets[next], poll, stream.View());
      turns := turns + [TurnOf(poll)];
      if poll.Ready? {
        if poll.result.Err? {
          return;
        }
        read := read + [poll.result.value];
      }
    }
  }

  lemma TurnAlone(data: seq<Byte>, turn: Turn)
    ensures turn.Abandoned? ==>
      Recovered(data, [turn]) == [] && Remaining(data, [turn]) == Some(data[Smaller(turn.consumed, |data|)..])
    ensures turn.Failed? ==> Recovered(data, [turn]) == [] && Remaining(data, [turn]) == None
    ensures turn.Whole? ==>
      var frame := DecodeFrame(data, RUST_MAX_PAYLOAD);
      && Recovered(data, [turn]) == (if frame.Ok? then [frame.value.0] else [])
      && Remaining(data, [turn]) == if frame.Ok? then Some(frame.value.1) else None
  {
  }

  /** Every byte the loop turned into payloads or lost was on the stream. */
  lemma {:induction false} BytesAccounted(data: seq<Byte>, turns: seq<Turn>)
    ensures Legal(Recovered(data, turns), RUST_MAX_PAYLOAD)
    ensures |Encode(Recovered(data, turns))| + Lost(data, turns) <= |data|
    decreases |turns|
  {
    if turns != [] {
      match turns[0]
      case Whole =>
        var frame := DecodeFrame(data, RUST_MAX_PAYLOAD);
        if frame.Ok? {
          BytesAccounted(frame.value.1, turns[1..]);
          var found := Recovered(data, turns);
          assert found[1..] == Recovered(frame.value.1, turns[1..]);
        }
      case Abandoned(consumed) => BytesAccounted(data[Smaller(consumed, |data|)..], turns[1..]);
      case Failed =>
    }
  }

  lemma {:induction false} NothingLost(payloads: seq<seq<Byte>>, turns: seq<Turn>)
    requires Legal(payloads, RUST_MAX_PAYLOAD) && Wholes(turns) >= |payloads|
    requires Lost(Encode(payloads), turns) == 0
    ensures Recovered(Encode(payloads), turns) == payloads
    decreases |turns|
  {
    if turns != [] {
      var data := Encode(payloads);
      match turns[0]
      case Failed =>
      case Abandoned(consumed) =>
        assert data[Smaller(consumed, |data|)..] == data;
        NothingLost(payloads, turns[1..]);
      case Whole =>
        if payloads != [] {
          FrameRoundTrip(payloads[0], Encode(payloads[1..]), RUST_MAX_PAYLOAD);
          NothingLost(payloads[1..], turns[1..]);
          assert payloads == [payloads[0]] + payloads[1..];
        }
    }
  }

  /** Each payload took a frame read that ran to its end. */
  lemma {:induction false} NoMoreThanWholes(data: seq<Byte>, turns: seq<Turn>)
    ensures |Recovered(data, turns)| <= Wholes(turns)
    decreases |turns|
  {
    if turns != [] {
      match turns[0]
      case Whole =>
        var frame := DecodeFrame(data, RUST_MAX_PAYLOAD);
        if frame.Ok? {
          NoMoreThanWholes(frame.value.1, turns[1..]);
        }
      case Abandoned(consumed) => NoMoreThanWholes(data[Smaller(consumed, |data|)..], turns[1..]);
      case Failed =>
    }
  }

  /**
   * On a stream of legal frames the loop sees the payloads that were written exactly when no
   * abandoned read had consumed anything and as many frame reads ran to their end.
   */
  lemma RecoveredExactly(payloads: seq<seq<Byte>>, turns: seq<Turn>)
    requires Legal(payloads, RUST_MAX_PAYLOAD)
    ensures Recovered(Encode(payloads), turns) == payloads
            <==> Lost(Encode(payloads), turns) == 0 && Wholes(turns) >= |payloads|
  {
    BytesAccounted(Encode(payloads), turns);
    NoMoreThanWholes(Encode(payloads), turns);
    if Lost(Encode(payloads), turns) == 0 && Wholes(turns) >= |payloads| {
      NothingLost(payloads, turns);
    }
  }

  ghost predicate NothingTaken(turns: seq<Turn>) {
    forall i :: 0 <= i < |turns| && turns[i].Abandoned? ==> turns[i].consumed == 0
  }

  /** All the turns the loop takes happen, so the bytes lost are those the abandoned reads took. */
  lemma {:induction false} LostIsTaken(w: Wire, budgets: seq<nat>)
    ensures Lost(w.data, Turns(w, budgets)) == 0 <==> NothingTaken(Turns(w, budgets))
    decreases |budgets|
  {
    if budgets != [] {
      var (p, v) := Polling(w, [], budgets[0]);
      var turns := Turns(w, budgets);
      PollingDecodes(w, w.data, [], budgets[0]);
      if p.Pending? || p.result.Ok? {
        LostIsTaken(v, budgets[1..]);
        assert turns[1..] == Turns(v, budgets[1..]);
        TakenCons(turns);
      }
    }
  }

  lemma TakenCons(turns: seq<Turn>)
    requires turns != []
    ensures NothingTaken(turns) <==> (turns[0].Abandoned? ==> turns[0].consumed == 0) && NothingTaken(turns[1..])
  {
    if NothingTaken(turns[1..]) && (turns[0].Abandoned? ==> turns[0].consumed == 0) {
      forall i | 0 <= i < |turns| && turns[i].Abandoned? ensures turns[i].consumed == 0 {
        assert i > 0 ==> turns[i] == turns[1..][i - 1];
      }
    }
  }

  /**
   * On a stream that carries legal frames, whatever its reads do and however often requests to
   * be sent come in between, the loop sees the payloads that were written exactly when no read
   * it dropped had taken a byte and as many of its frame reads ran to their end.
   */
  lemma SelectRecoversExactly(payloads: seq<seq<Byte>>, script: seq<ReadEvent>, budgets: seq<nat>)
    requires Legal(payloads, RUST_MAX_PAYLOAD)
    ensures var turns := Turns(Wire(Encode(payloads), script), budgets);
      Recovered(Encode(payloads), turns) == payloads <==> NothingTaken(turns) && Wholes(turns) >= |payloads|
  {
    var w := Wire(Encode(payloads), script);
    LostIsTaken(w, budgets);
    RecoveredExactly(payloads, Turns(w, budgets));
  }

  /**
   * It does happen, to any payload: the header arrives alone, a request to be sent comes first,
   * and the frame read is dropped with the header; nothing the loop does later brings the
   * payload back.
   */
  lemma HeaderDroppedLosesPayload(payload: seq<Byte>, script: seq<ReadEvent>, later: seq<nat>)
    requires 1 <= |payload| <= RUST_MAX_PAYLOAD
    ensures var turns := Turns(Wire(Frame(payload), [Partial(4)] + script), [1] + later);
      turns[..1] == [Abandoned(4)] && Recovered(Frame(payload), turns) != [payload]
  {
    var w := Wire(Frame(payload), [Partial(4)] + script);
    LengthRoundTrip(|payload|);
    assert w.data[..4] == LittleEndian(|payload|) && w.script[1..] == script;
    var budgets := [1] + later;
    assert budgets[1..] == later;
    var v := Wire(w.data[4..], script);
    assert ReadFrom(w, 4) == (Bytes(w.data[..4]), v);
    assert Polling(w, [], 1) == Polling(v, [] + w.data[..4], 0) == (Pending(4), v);
    var turns := Turns(w, budgets);
    assert turns == [Abandoned(4)] + Turns(v, later);
    BytesAccounted(w.data, turns);
    assert Lost(w.data, turns) >= 4;
    assert Encode([payload]) == Frame(payload) + [] by {
      assert [payload][1..] == [];
    }
  }

  // ---------- the Deno reader: one frame out of arbitrary chunks ----------

  datatype DenoError = HelperClosed | TooLarge | InvalidSize | TrailingBytes

  /** What the reader answers once `seen` has arrived and `chunks` are still to come. */
  ghost function DenoDecode(seen: seq<Byte>, chunks: seq<Option<seq<Byte>>>): Result<seq<Byte>, DenoError>
    decreases |chunks|
  {
    if chunks == [] then Err(HelperClosed)
    else if chunks[0].None? then DenoDecode(seen, chunks[1..])
    else
      var now := seen + chunks[0].value;
      if |now| > DENO_MAX_PAYLOAD then Err(TooLarge)
      else if |now| < 4 then DenoDecode(now, chunks[1..])
      else
        var length := FromLittleEndian(now[..4]);
        if length == 0 || length > DENO_MAX_PAYLOAD then Err(InvalidSize)
        else if |now| < length + 4 then DenoDecode(now, chunks[1..])
        else if |now| > length + 4 then Err(TrailingBytes)
        else Ok(now[4..])
  }

  function Concat(chunks: seq<seq<Byte>>): seq<Byte> {
    if chunks == [] then [] else Concat(chunks[..|chunks| - 1]) + chunks[|chunks| - 1]
  }

  /** `readFramedResponse`; an absent value is a chunk the reader skips. */
  method ReadFramedResponse(reader: seq<Option<seq<Byte>>>) returns (r: Result<seq<Byte>, DenoError>)
    ensures r == DenoDecode([], reader)
  {
    var chunks: seq<seq<Byte>> := [];
    var totalBytes := 0;
    var expectedLength: Option<nat> := None;
    var next := 0;
    while true
      invariant next <= |reader|
      invariant totalBytes == |Concat(chunks)| <= DENO_MAX_PAYLOAD
      invariant expectedLength.None? <==> totalBytes < 4
      invariant expectedLength.Some? ==>
        expectedLength.value == FromLittleEndian(Concat(chunks)[..4])
        && 0 < expectedLength.value <= DENO_MAX_PAYLOAD && totalBytes < expectedLength.value + 4
      invariant DenoDecode([], reader) == DenoDecode(Concat(chunks), reader[next..])
      decreases |reader| - next
    {
      if next == |reader| {
        return Err(HelperClosed);
      }
      var value := reader[next];
      assert reader[next..][1..] == reader[next + 1..];
      next := next + 1;
      if value.None? {
        continue;
      }
      ghost var before := Concat(chunks);
      assert chunks + [value.value] != [] && (chunks + [value.value])[..|chunks|] == chunks;
      totalBytes := totalBytes + |value.value|;
      if totalBytes > DENO_MAX_PAYLOAD {
        return Err(TooLarge);
      }
      chunks := chunks + [value.value];
      var combined := Concat(chunks);
      assert |before| >= 4 ==> combined[..4] == before[..4];
      if expectedLength.None? && |combined| >= 4 {
        expectedLength := Some(FromLittleEndian(combined[..4]));
        if expectedLength.value <= 0 || expectedLength.value > DENO_MAX_PAYLOAD {
          return Err(InvalidSize);
        }
      }
      if expectedLength.Some? {
        if |combined| < expectedLength.value + 4 {
          continue;
        }
        if |combined| > expectedLength.value + 4 {
          return Err(TrailingBytes);
        }
        return Ok(combined[4..]);
      }
    }
  }

  /** `frameForHelper`, writing the header buffer in place. */
  method FrameForHelper(value: seq<Byte>) returns (r: Option<seq<Byte>>)
    ensures r == if |value| <= DENO_MAX_PAYLOAD then Some(Frame(value)) else None
  {
    if |value| > DENO_MAX_PAYLOAD {
      return None;
    }
    var header := new Byte[4];
    header[0], header[1] := |value| % 0x100, |value| / 0x100 % 0x100;
    header[2], header[3] := |value| / 0x100 / 0x100 % 0x100, |value| / 0x100 / 0x100 / 0x100;
    assert header[..] == LittleEndian(|value|);
    r := Some(header[..] + value);
  }

  ghost function Joined(chunks: seq<Option<seq<Byte>>>): seq<Byte> {
    if chunks == [] then []
    else (if chunks[0].Some? then chunks[0].value else []) + Joined(chunks[1..])
  }

  ghost predicate Readable(payload: seq<Byte>) {
    1 <= |payload| <= DENO_MAX_PAYLOAD - 4
  }

  /** Reading on from `seen`, a proper prefix of the frame, to the exact end of the frame. */
  lemma {:induction false} DecodeChunks(seen: seq<Byte>, chunks: seq<Option<seq<Byte>>>, payload: seq<Byte>, cut: nat)
    requires Readable(payload) && |seen| < |Frame(payload)|
    requires cut <= |Frame(payload)| && seen + Joined(chunks) == Frame(payload)[..cut]
    ensures DenoDecode(seen, chunks) == if cut == |Frame(payload)| then Ok(payload) else Err(HelperClosed)
    decreases |chunks|
  {
    var frame := Frame(payload);
    LengthRoundTrip(|payload|);
    assert frame[..4] == LittleEndian(|payload|);
    if chunks == [] {
      assert seen == frame[..cut];
    } else if chunks[0].None? {
      DecodeChunks(seen, chunks[1..], payload, cut);
    } else {
      assert seen + Joined(chunks) == seen + chunks[0].value + Joined(chunks[1..]);
      var now := seen + chunks[0].value;
      PrefixOfFrame(now, Joined(chunks[1..]), frame, cut);
      if |now| < |frame| {
        DecodeChunks(now, chunks[1..], payload, cut);
      } else {
        assert now == frame && now[4..] == payload;
      }
    }
  }

  lemma PrefixOfFrame(now: seq<Byte>, later: seq<Byte>, frame: seq<Byte>, cut: nat)
    requires cut <= |frame| && now + later == frame[..cut]
    ensures |now| <= |frame| && now == frame[..|now|]
    ensures |now| >= 4 ==> now[..4] == frame[..4]
  {
    assert now == (now + later)[..|now|];
    assert now == frame[..|now|];
  }

  /** However a readable frame is cut into chunks, empty ones included, its payload comes out. */
  lemma ChunkIndependence(chunks: seq<Option<seq<Byte>>>, payload: seq<Byte>)
    requires Readable(payload) && Joined(chunks) == Frame(payload)
    ensures DenoDecode([], chunks) == Ok(payload)
  {
    assert Frame(payload)[..|Frame(payload)|] == Frame(payload);
    DecodeChunks([], chunks, payload, |Frame(payload)|);
  }

  /** A stream that ends inside a frame is an error, never a shorter payload. */
  lemma TruncationIsAnError(chunks: seq<Option<seq<Byte>>>, payload: seq<Byte>, cut: nat)
    requires Readable(payload) && cut < |Frame(payload)| && Joined(chunks) == Frame(payload)[..cut]
    ensures DenoDecode([], chunks) == Err(HelperClosed)
  {
    assert [] + Joined(chunks) == Joined(chunks);
    DecodeChunks([], chunks, payload, cut);
  }

  /** Whatever arrives, an answer is the payload of a frame that ended at a chunk boundary. */
  lemma {:induction false} AnswersAreFrames(seen: seq<Byte>, chunks: seq<Option<seq<Byte>>>) returns (k: nat)
    requires DenoDecode(seen, chunks).Ok?
    ensures k <= |chunks|
    ensures Readable(DenoDecode(seen, chunks).value)
    ensures seen + Joined(chunks[..k]) == Frame(DenoDecode(seen, chunks).value)
    decreases |chunks|
  {
    if chunks[0].None? {
      k := AnswersAreFrames(seen, chunks[1..]);
      assert chunks[..k + 1][1..] == chunks[1..][..k];
      k := k + 1;
    } else {
      var now := seen + chunks[0].value;
      if |now| < 4 || |now| < FromLittleEndian(now[..4]) + 4 {
        k := AnswersAreFrames(now, chunks[1..]);
        assert chunks[..k + 1][1..] == chunks[1..][..k];
        assert seen + Joined(chunks[..k + 1]) == now + Joined(chunks[1..][..k]);
        k := k + 1;
      } else {
        k := 1;
        assert chunks[..1][1..] == [];
        assert seen + Joined(chunks[..1]) == now;
        HeaderOf(now);
      }
    }
  }

  lemma HeaderOf(data: seq<Byte>)
    requires |data| >= 4 && |data| == FromLittleEndian(data[..4]) + 4 && |data| < 0x1_0000_0000
    ensures Frame(data[4..]) == data
  {
    HeaderRoundTrip(data[..4]);
    assert data == data[..4] + data[4..];
  }

  lemma {:induction false} LaterChunksIgnored(seen: seq<Byte>, chunks: seq<Option<seq<Byte>>>, k: nat)
    requires k <= |chunks| && DenoDecode(seen, chunks[..k]).Ok?
    ensures DenoDecode(seen, chunks) == DenoDecode(seen, chunks[..k])
    decreases |chunks|
  {
    assert k > 0 && chunks[..k][1..] == chunks[1..][..k - 1];
    if chunks[0].None? {
      LaterChunksIgnored(seen, chunks[1..], k - 1);
    } else {
      var now := seen + chunks[0].value;
      if |now| < 4 || |now| < FromLittleEndian(now[..4]) + 4 {
        LaterChunksIgnored(now, chunks[1..], k - 1);
      }
    }
  }

  /** On every stream: a payload is returned exactly when its readable frame ends at some chunk boundary. */
  lemma AnswerExactly(chunks: seq<Option<seq<Byte>>>, payload: seq<Byte>)
    ensures DenoDecode([], chunks) == Ok(payload)
            <==> (Readable(payload) && exists k :: 0 <= k <= |chunks| && Joined(chunks[..k]) == Frame(payload))
  {
    if DenoDecode([], chunks) == Ok(payload) {
      var k := AnswersAreFrames([], chunks);
      assert [] + Joined(chunks[..k]) == Joined(chunks[..k]);
    }
    if Readable(payload) {
      forall k | 0 <= k <= |chunks| && Joined(chunks[..k]) == Frame(payload)
        ensures DenoDecode([], chunks) == Ok(payload)
      {
        ChunkIndependence(chunks[..k], payload);
        LaterChunksIgnored([], chunks, k);
      }
    }
  }

  /** Enough to answer: too much, a header with an illegal length, or at least a whole frame. */
  ghost predicate Decisive(data: seq<Byte>) {
    || |data| > DENO_MAX_PAYLOAD
    || (|data| >= 4
        && (var length := FromLittleEndian(data[..4]);
            length == 0 || length > DENO_MAX_PAYLOAD || |data| >= length + 4))
  }

  ghost function Verdict(data: seq<Byte>): Result<seq<Byte>, DenoError>
    requires Decisive(data)
  {
    if |data| > DENO_MAX_PAYLOAD then Err(TooLarge)
    else
      var length := FromLittleEndian(data[..4]);
      if length == 0 || length > DENO_MAX_PAYLOAD then Err(InvalidSize)
      else if |data| > length + 4 then Err(TrailingBytes)
      else Ok(data[4..])
  }

  /** The answer is read off the first decisive beginning of the stream, errors included. */
  lemma VerdictExactly(chunks: seq<Option<seq<Byte>>>) returns (k: nat)
    ensures k <= |chunks| && forall i :: 0 <= i < k ==> !Decisive(Joined(chunks[..i]))
    ensures var data := Joined(chunks[..k]);
      if Decisive(data) then DenoDecode([], chunks) == Verdict(data)
      else k == |chunks| && DenoDecode([], chunks) == Err(HelperClosed)
  {
    k := VerdictFrom([], chunks);
    forall i | 0 <= i <= |chunks| ensures [] + Joined(chunks[..i]) == Joined(chunks[..i]) {}
  }

  lemma OneChunk(seen: seq<Byte>, chunks: seq<Option<seq<Byte>>>, now: seq<Byte>)
    requires !Decisive(seen) && chunks != []
    requires now == if chunks[0].Some? then seen + chunks[0].value else seen
    ensures DenoDecode(seen, chunks) == if Decisive(now) then Verdict(now) else DenoDecode(now, chunks[1..])
  {
  }

  lemma {:induction false} VerdictFrom(seen: seq<Byte>, chunks: seq<Option<seq<Byte>>>) returns (k: nat)
    requires !Decisive(seen)
    ensures k <= |chunks| && forall i :: 0 <= i < k ==> !Decisive(seen + Joined(chunks[..i]))
    ensures var data := seen + Joined(chunks[..k]);
      if Decisive(data) then DenoDecode(seen, chunks) == Verdict(data)
      else k == |chunks| && DenoDecode(seen, chunks) == Err(HelperClosed)
    decreases |chunks|
  {
    assert seen + Joined(chunks[..0]) == seen;
    k := 0;
    if chunks != [] {
      var now := if chunks[0].Some? then seen + chunks[0].value else seen;
      OneChunk(seen, chunks, now);
      JoinedFrom(seen, now, chunks);
      if Decisive(now) {
        k := 1;
        assert now + Joined(chunks[1..][..0]) == now;
      } else {
        k := VerdictFrom(now, chunks[1..]);
        k := k + 1;
      }
    }
  }

  lemma JoinedFrom(seen: seq<Byte>, now: seq<Byte>, chunks: seq<Option<seq<Byte>>>)
    requires chunks != [] && now == if chunks[0].Some? then seen + chunks[0].value else seen
    ensures forall i :: 0 < i <= |chunks| ==> seen + Joined(chunks[..i]) == now + Joined(chunks[1..][..i - 1])
  {
    forall i | 0 < i <= |chunks|
      ensures seen + Joined(chunks[..i]) == now + Joined(chunks[1..][..i - 1])
    {
      assert chunks[..i][1..] == chunks[1..][..i - 1];
    }
  }

  /**
   * The writer accepts payloads the reader will not: of the frames `frameForHelper`
   * makes, exactly those with 1 to MAX - 4 bytes of payload survive the trip.
   */
  lemma DenoTripExactly(chunks: seq<Option<seq<Byte>>>, payload: seq<Byte>)
    requires |payload| <= DENO_MAX_PAYLOAD && Joined(chunks) == Frame(payload)
    ensures DenoDecode([], chunks) == Ok(payload) <==> Readable(payload)
  {
    if Readable(payload) {
      ChunkIndependence(chunks, payload);
    } else if DenoDecode([], chunks) == Ok(payload) {
      var k := AnswersAreFrames([], chunks);
      assert false;
    }
  }
}
