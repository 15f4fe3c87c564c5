/** LeCroy VICP framing over TCP: one message is a run of frames, the last of which
    carries the EOI flag. */
module Vicp {
  import opened Common

  const VERSION: Byte := 1
  const HEADER_SIZE: nat := 8
  const LIMIT: nat := 0x1_0000_0000

  /** OP_DATA | OP_REMOTE, plus OP_EOI (bit 0) on a last frame. */
  function Operation(eoi: bool): Byte { if eoi then 0x89 else 0x88 }

  /** `struct.pack(">L", n)`. */
  function BigEndian(n: nat): seq<Byte>
    requires n < LIMIT
  {
    [n / 256 / 256 / 256, n / 256 / 256 % 256, n / 256 % 256, n % 256]
  }

  function FromBigEndian(b: seq<Byte>): nat
    requires |b| == 4
  {
    256 * (256 * (256 * b[0] as int + b[1] as int) + b[2] as int) + b[3] as int
  }

  lemma BigEndianRoundTrip(n: nat)
    requires n < LIMIT
    ensures FromBigEndian(BigEndian(n)) == n
  {
    var q := n / 256;
    assert n == 256 * q + n % 256 && q == 256 * (q / 256) + q % 256;
  }

  datatype Error = StructError | ProtocolError | ConnectionClosed | TimedOut

  /** `encode_vicp_message`; packing fails on payloads of 4 GiB or more. */
  function EncodeMessage(payload: seq<Byte>, sequence: int, eoi: bool): Result<seq<Byte>, Error> {
    if |payload| >= LIMIT then Err(StructError)
    else Ok([Operation(eoi), VERSION, sequence % 256, 0] + BigEndian(|payload|) + payload)
  }

  datatype Header = Header(
    operation: Byte, version: Byte, sequence: Byte, spare: Byte, payloadLen: nat, eoi: bool, data: bool)

  /** `decode_vicp_frame_header`; the flags are bit 0 and bit 7 of the operation. */
  function DecodeHeader(h: seq<Byte>): Result<Header, Error> {
    if |h| != HEADER_SIZE then Err(ProtocolError)
    else Ok(Header(h[0], h[1], h[2], h[3], FromBigEndian(h[4..]), h[0] % 2 == 1, h[0] >= 128))
  }

  /** Decoding a frame's first eight bytes gives back what it was encoded from. */
  lemma HeaderRoundTrip(payload: seq<Byte>, sequence: int, eoi: bool)
    requires |payload| < LIMIT
    ensures var frame := EncodeMessage(payload, sequence, eoi).value;
      && |frame| == HEADER_SIZE + |payload| && frame[HEADER_SIZE..] == payload
      && DecodeHeader(frame[..HEADER_SIZE])
          == Ok(Header(if eoi then 0x89 else 0x88, 1, sequence % 256, 0, |payload|, eoi, true))
  {
    var frame := EncodeMessage(payload, sequence, eoi).value;
    BigEndianRoundTrip(|payload|);
    assert frame[..HEADER_SIZE][4..] == BigEndian(|payload|);
  }

  lemma OperationBits(eoi: bool)
    ensures forall k: nat | k < 8 :: Bit(Operation(eoi), k) <==> k == 7 || k == 3 || (k == 0 && eoi)
  {
    var b := Operation(eoi);
    LowBits(b);
    LowBits(b / 16);
    forall k: nat | 4 <= k < 8 ensures Bit(b, k) <==> Bit(b / 16, k - 4) {
      HighBits(b, k - 4);
    }
  }

  /** What is on the wire, byte by byte: DATA and REMOTE are bits 7 and 3, EOI is bit 0,
      and the length is written with its most significant byte first. */
  lemma FrameOnTheWire(payload: seq<Byte>, sequence: int, eoi: bool) returns (frame: seq<Byte>)
    requires |payload| < 4294967296
    ensures EncodeMessage(payload, sequence, eoi) == Ok(frame) && |frame| == 8 + |payload| && frame[8..] == payload
    ensures forall k: nat | k < 8 :: Bit(frame[0], k) <==> k == 7 || k == 3 || (k == 0 && eoi)
    ensures frame[1] == 1 && frame[2] == sequence % 256 && frame[3] == 0
    ensures 16777216 * frame[4] as int + 65536 * frame[5] as int + 256 * frame[6] as int + frame[7] as int == |payload|
  {
    frame := EncodeMessage(payload, sequence, eoi).value;
    BigEndianRoundTrip(|payload|);
    OperationBits(eoi);
  }

  /** Payloads of 4 GiB are not packed. */
  lemma PackedExactly(payload: seq<Byte>, sequence: int, eoi: bool)
    ensures EncodeMessage(payload, sequence, eoi).Ok? <==> |payload| < 4294967296
    ensures EncodeMessage(payload, sequence, eoi).Err? ==> EncodeMessage(payload, sequence, eoi).error == StructError
  {}

  /** What a reader takes from eight bytes, and that it takes nothing else. */
  lemma HeaderOnTheWire(h: seq<Byte>)
    ensures |h| != 8 ==> DecodeHeader(h) == Err(ProtocolError)
    ensures |h| == 8 ==>
      && DecodeHeader(h).Ok?
      && var d := DecodeHeader(h).value;
      && d.operation == h[0] && d.version == h[1] && d.sequence == h[2] && d.spare == h[3]
      && d.payloadLen == 16777216 * h[4] as int + 65536 * h[5] as int + 256 * h[6] as int + h[7] as int
      && (d.eoi <==> Bit(h[0], 0)) && (d.data <==> Bit(h[0], 7))
  {
    if |h| == 8 {
      LowBits(h[0]);
      HighBits(h[0], 3);
      LowBits(h[0] / 16);
    }
  }

  // ---- messages in a byte stream ------------------------------------------------

  datatype Parsed = Truncated | Message(payload: seq<Byte>, rest: seq<Byte>)

  /** The first message of a stream and what follows it. */
  function Parse(stream: seq<Byte>): Parsed
    decreases |stream|
  {
    if |stream| < HEADER_SIZE then Truncated
    else
      var h := DecodeHeader(stream[..HEADER_SIZE]).value;
      var end := HEADER_SIZE + h.payloadLen;
      if |stream| < end then Truncated
      else if h.eoi then Message(stream[HEADER_SIZE..end], stream[end..])
      else
        match Parse(stream[end..])
        case Truncated => Truncated
        case Message(payload, rest) => Message(stream[HEADER_SIZE..end] + payload, rest)
  }

  predicate Encodable(fragments: seq<seq<Byte>>) { forall i | 0 <= i < |fragments| :: |fragments[i]| < LIMIT }

  /** A message cut into fragments (empty ones allowed), EOI only on the last;
      fragment `i` carries sequence number `numbers(i)`. */
  function Frames(fragments: seq<seq<Byte>>, numbers: nat -> int, i: nat): seq<Byte>
    requires fragments != [] && Encodable(fragments)
    decreases |fragments|
  {
    EncodeMessage(fragments[0], numbers(i), |fragments| == 1).value
    + if |fragments| == 1 then [] else Frames(fragments[1..], numbers, i + 1)
  }

  lemma ParseFrame(payload: seq<Byte>, sequence: int, eoi: bool, rest: seq<Byte>)
    requires |payload| < LIMIT
    ensures Parse(EncodeMessage(payload, sequence, eoi).value + rest) ==
      if eoi then Message(payload, rest)
      else match Parse(rest) case Truncated => Truncated case Message(p, r) => Message(payload + p, r)
  {
    var frame := EncodeMessage(payload, sequence, eoi).value;
    var stream := frame + rest;
    HeaderRoundTrip(payload, sequence, eoi);
    assert stream[..HEADER_SIZE] == frame[..HEADER_SIZE];
    assert stream[HEADER_SIZE..|frame|] == payload;
    assert stream[|frame|..] == rest;
  }

  /** Every fragmentation of a payload is reassembled, and the stream is left
      exactly at the bytes that follow the message. */
  lemma {:induction false} Reassembly(fragments: seq<seq<Byte>>, numbers: nat -> int, i: nat, rest: seq<Byte>)
    requires fragments != [] && Encodable(fragments)
    ensures Parse(Frames(fragments, numbers, i) + rest) == Message(Flatten(fragments), rest)
    decreases |fragments|
  {
    var last := |fragments| == 1;
    var frame := EncodeMessage(fragments[0], numbers(i), last).value;
    var tail := if last then [] else Frames(fragments[1..], numbers, i + 1);
    assert frame + tail + rest == frame + (tail + rest);
    ParseFrame(fragments[0], numbers(i), last, tail + rest);
    if last {
      assert tail + rest == rest;
      assert Flatten(fragments) == fragments[0] + [];
    } else {
      Reassembly(fragments[1..], numbers, i + 1, rest);
    }
  }

  /** `k` messages read one after the other; None when the stream ends too early. */
  function ParseMany(stream: seq<Byte>, k: nat): Option<(seq<seq<Byte>>, seq<Byte>)>
    decreases k
  {
    if k == 0 then Some(([], stream))
    else
      match Parse(stream)
      case Truncated => None
      case Message(payload, rest) =>
        match ParseMany(rest, k - 1)
        case None => None
        case Some((payloads, end)) => Some(([payload] + payloads, end))
  }

  datatype Sent = Sent(fragments: seq<seq<Byte>>, numbers: nat -> int)

  predicate AllEncodable(messages: seq<Sent>) {
    forall i | 0 <= i < |messages| :: messages[i].fragments != [] && Encodable(messages[i].fragments)
  }

  function Stream(messages: seq<Sent>): seq<Byte>
    requires AllEncodable(messages)
  {
    if messages == [] then [] else Frames(messages[0].fragments, messages[0].numbers, 0) + Stream(messages[1..])
  }

  function Payloads(messages: seq<Sent>): seq<seq<Byte>> {
    if messages == [] then [] else [Flatten(messages[0].fragments)] + Payloads(messages[1..])
  }

  /** Back-to-back messages are recovered in order. */
  lemma {:induction false} MessagesRecovered(messages: seq<Sent>, rest: seq<Byte>)
    requires AllEncodable(messages)
    ensures ParseMany(Stream(messages) + rest, |messages|) == Some((Payloads(messages), rest))
    decreases |messages|
  {
    if messages == [] {
      assert [] + rest == rest;
    } else {
      var first, others := messages[0], messages[1..];
      assert Stream(messages) + rest == Frames(first.fragments, first.numbers, 0) + (Stream(others) + rest);
      Reassembly(first.fragments, first.numbers, 0, Stream(others) + rest);
      MessagesRecovered(others, rest);
    }
  }

  /** `payload` is already in hand and the rest of the message is still to come. */
  function Continue(payload: seq<Byte>, p: Parsed): Parsed {
    match p case Truncated => Truncated case Message(q, rest) => Message(payload + q, rest)
  }

  /** A message that starts with a frame holding `chunk`, followed by `rest`. */
  function FirstFrame(chunk: seq<Byte>, eoi: bool, rest: seq<Byte>): Parsed {
    if eoi then Message(chunk, rest) else Continue(chunk, Parse(rest))
  }

  lemma ContinueNothing(p: Parsed)
    ensures Continue([], p) == p
  {
    if p.Message? { assert [] + p.payload == p.payload; }
  }

  lemma ContinueTwice(a: seq<Byte>, b: seq<Byte>, p: Parsed)
    ensures Continue(a, Continue(b, p)) == Continue(a + b, p)
  {
    if p.Message? { assert a + (b + p.payload) == a + b + p.payload; }
  }

  // ---- what a peer sees of many sends ---------------------------------------------

  /** The bytes of successive sends, the first numbered `sequence`. */
  function Sends(payloads: seq<seq<Byte>>, sequence: nat): seq<Byte>
    requires Encodable(payloads)
    decreases |payloads|
  {
    if payloads == [] then []
    else EncodeMessage(payloads[0], sequence, true).value + Sends(payloads[1..], (sequence + 1) % 256)
  }

  lemma SameNumber(payload: seq<Byte>, a: int, b: int)
    requires a % 256 == b % 256
    ensures EncodeMessage(payload, a, true) == EncodeMessage(payload, b, true)
  {}

  lemma Reassociate(a: seq<Byte>, b: seq<Byte>, c: seq<Byte>)
    ensures a + (b + c) == (a + b) + c
  {}

  lemma NextNumber(sequence: nat, i: nat)
    requires i > 0
    ensures ((sequence + 1) % 256 + (i - 1)) % 256 == (sequence + i) % 256
  {}

  lemma SendsUnfold(payloads: seq<seq<Byte>>, sequence: nat) returns (first: seq<Byte>, tail: seq<Byte>)
    requires Encodable(payloads) && payloads != []
    ensures first == EncodeMessage(payloads[0], sequence, true).value
        && tail == Sends(payloads[1..], (sequence + 1) % 256)
    ensures Sends(payloads, sequence) == first + tail
  {
    first, tail := EncodeMessage(payloads[0], sequence, true).value, Sends(payloads[1..], (sequence + 1) % 256);
  }

  /** One command more is one frame more, with the next number. */
  lemma {:induction false} SendsGrow(payloads: seq<seq<Byte>>, last: seq<Byte>, sequence: nat, number: int)
    returns (frame: seq<Byte>)
    requires Encodable(payloads) && |last| < LIMIT && number % 256 == (sequence + |payloads|) % 256
    ensures frame == EncodeMessage(last, number, true).value && Encodable(payloads + [last])
    ensures Sends(payloads + [last], sequence) == Sends(payloads, sequence) + frame
    decreases |payloads|
  {
    var all := payloads + [last];
    var first, rest := SendsUnfold(all, sequence);
    if payloads == [] {
      SameNumber(last, sequence, number);
      frame := first;
      assert all[1..] == [] && rest == [];
    } else {
      NextNumber(sequence, |payloads|);
      assert all[1..] == payloads[1..] + [last];
      frame := SendsGrow(payloads[1..], last, (sequence + 1) % 256, number);
      var same, tail := SendsUnfold(payloads, sequence);
      Reassociate(first, tail, frame);
    }
  }

  /** `outgoing` is what was there `before`, then the frames of `sent`, and `next` comes next. */
  predicate Numbered(before: seq<Byte>, sent: seq<seq<Byte>>, next: nat, outgoing: seq<Byte>) {
    Encodable(sent) && next == |sent| % 256 && outgoing == before + Sends(sent, 0)
  }

  lemma NumberedGrows(before: seq<Byte>, sent: seq<seq<Byte>>, next: nat, outgoing: seq<Byte>, payload: seq<Byte>,
                      frame: seq<Byte>)
    requires Numbered(before, sent, next, outgoing) && EncodeMessage(payload, next, true) == Ok(frame)
    ensures Numbered(before, sent + [payload], (next + 1) % 256, outgoing + frame)
  {
    var last := SendsGrow(sent, payload, 0, next);
    Reassociate(before, Sends(sent, 0), last);
  }

  lemma ParseManyStep(stream: seq<Byte>, payload: seq<Byte>, rest: seq<Byte>, k: nat, payloads: seq<seq<Byte>>,
                      end: seq<Byte>)
    requires Parse(stream) == Message(payload, rest) && ParseMany(rest, k) == Some((payloads, end))
    ensures ParseMany(stream, k + 1) == Some(([payload] + payloads, end))
  {}

  /** The peer recovers every command, and the frames are numbered consecutively modulo 256. */
  lemma {:induction false} SendsAreParsed(payloads: seq<seq<Byte>>, sequence: nat)
    requires Encodable(payloads)
    ensures ParseMany(Sends(payloads, sequence), |payloads|) == Some((payloads, []))
    decreases |payloads|
  {
    if payloads != [] {
      var rest := Sends(payloads[1..], (sequence + 1) % 256);
      ParseFrame(payloads[0], sequence, true, rest);
      SendsAreParsed(payloads[1..], (sequence + 1) % 256);
      ParseManyStep(Sends(payloads, sequence), payloads[0], rest, |payloads| - 1, payloads[1..], []);
      assert payloads == [payloads[0]] + payloads[1..];
    }
  }

  /** Where the `i`-th send's frame starts. */
  function Offset(payloads: seq<seq<Byte>>, i: nat): nat
    requires i <= |payloads|
  {
    if i == 0 then 0 else HEADER_SIZE + |payloads[0]| + Offset(payloads[1..], i - 1)
  }

  lemma SliceBehind(a: seq<Byte>, b: seq<Byte>, c: seq<Byte>, n: nat)
    requires n <= |b|
    ensures (a + (b + c))[|a|..|a| + n] == b[..n]
  {}

  /** The `i`-th frame of the stream is the `i`-th command, numbered `sequence + i`. */
  lemma {:induction false} FrameOfSend(payloads: seq<seq<Byte>>, sequence: nat, i: nat)
    returns (before: seq<Byte>, after: seq<Byte>)
    requires Encodable(payloads) && i < |payloads|
    ensures Sends(payloads, sequence) == before + (EncodeMessage(payloads[i], sequence + i, true).value + after)
    ensures |before| == Offset(payloads, i)
    decreases i
  {
    var first := EncodeMessage(payloads[0], sequence, true).value;
    if i == 0 {
      before, after := [], Sends(payloads[1..], (sequence + 1) % 256);
    } else {
      before, after := FrameOfSend(payloads[1..], (sequence + 1) % 256, i - 1);
      NextNumber(sequence, i);
      SameNumber(payloads[i], (sequence + 1) % 256 + (i - 1), sequence + i);
      Reassociate(first, before, EncodeMessage(payloads[i], sequence + i, true).value + after);
      HeaderRoundTrip(payloads[0], sequence, true);
      before := first + before;
    }
  }

  /** The peer reads sequence numbers that count up from `sequence`, modulo 256. */
  lemma SendsAreNumbered(payloads: seq<seq<Byte>>, sequence: nat, i: nat)
    requires Encodable(payloads) && i < |payloads|
    ensures Offset(payloads, i) + HEADER_SIZE <= |Sends(payloads, sequence)|
    ensures var at := Offset(payloads, i);
      DecodeHeader(Sends(payloads, sequence)[at..at + HEADER_SIZE]) ==
      Ok(Header(0x89, 1, (sequence + i) % 256, 0, |payloads[i]|, true, true))
  {
    var before, after := FrameOfSend(payloads, sequence, i);
    var frame := EncodeMessage(payloads[i], sequence + i, true).value;
    HeaderRoundTrip(payloads[i], sequence + i, true);
    SliceBehind(before, frame, after, HEADER_SIZE);
  }

  // ---- the transport -------------------------------------------------------------

  /** `data[offset:offset + len(part)] = part`. */
  method CopyInto(data: array<Byte>, offset: nat, part: seq<Byte>)
    requires offset + |part| <= data.Length
    modifies data
    ensures data[..] == old(data[..offset]) + part + old(data[offset + |part|..])
  {
    forall i | 0 <= i < |part| {
      data[offset + i] := part[i];
    }
  }

  /** A connected socket: the bytes the peer sends before it closes, how many the
      `n`-th `recv_into` is offered, which calls time out, and the bytes sent. */
  class Socket {
    const incoming: seq<Byte>
    const offers: nat -> nat
    const timeouts: nat -> bool
    var pos: nat
    var calls: nat
    var outgoing: seq<Byte>

    constructor (incoming: seq<Byte>, offers: nat -> nat, timeouts: nat -> bool)
      ensures Valid() && this.incoming == incoming && this.offers == offers && this.timeouts == timeouts
      ensures pos == 0 && calls == 0 && outgoing == []
    {
      this.incoming, this.offers, this.timeouts, pos, calls, outgoing := incoming, offers, timeouts, 0, 0, [];
    }

    predicate Valid()
      reads this
    {
      pos <= |incoming|
    }

    function Remaining(): seq<Byte>
      requires Valid()
      reads this
    {
      incoming[pos..]
    }

    /** `recv_into(view[offset:], size)`: at least one byte unless the peer has closed. */
    method RecvInto(data: array<Byte>, offset: nat, size: nat) returns (r: Result<nat, Error>)
      requires Valid() && 0 < size && offset + size <= data.Length
      modifies this`pos, this`calls, data
      ensures Valid() && calls == old(calls) + 1
      ensures timeouts(old(calls)) <==> r.Err?
      ensures r.Err? ==> r == Err(TimedOut) && pos == old(pos) && data[..] == old(data[..])
      ensures r.Ok? ==> r.value <= size && pos == old(pos) + r.value && (r.value == 0 <==> old(pos) == |incoming|)
      ensures r.Ok? ==> data[..] == old(data[..offset]) + incoming[old(pos)..pos] + old(data[offset + r.value..])
    {
      calls := calls + 1;
      if timeouts(calls - 1) {
        return Err(TimedOut);
      }
      var available := |incoming| - pos;
      var most := if available < size then available else size;
      var offer := offers(calls - 1);
      var n := if offer > most then most else if offer == 0 && most > 0 then 1 else offer;
      CopyInto(data, offset, incoming[pos..pos + n]);
      pos := pos + n;
      return Ok(n);
    }
  }

  class Transport {
    const socket: Socket
    var sequence: nat
    /** What the socket had sent before, and the commands sent since. */
    ghost const before: seq<Byte>
    ghost var sent: seq<seq<Byte>>

    constructor (socket: Socket)
      ensures this.socket == socket && sequence == 0 && sent == [] && before == socket.outgoing && InSequence()
    {
      this.socket, sequence, before, sent := socket, 0, socket.outgoing, [];
    }

    /** The bytes sent are the frames of the commands sent, numbered from 0 on. */
    ghost predicate InSequence()
      reads this, socket
    {
      Numbered(before, sent, sequence, socket.outgoing)
    }

    /** `_recv_exact_into`. */
    method RecvExactInto(size: nat) returns (r: Result<array<Byte>, Error>)
      requires socket.Valid()
      modifies socket`pos, socket`calls
      ensures socket.Valid() && old(socket.calls) <= socket.calls && old(socket.pos) <= socket.pos
      ensures r.Ok? ==> fresh(r.value) && r.value[..] == socket.incoming[old(socket.pos)..socket.pos]
      ensures r.Ok? ==> socket.pos == old(socket.pos) + size
      ensures r.Err? ==> r.error == ConnectionClosed || r.error == TimedOut
      ensures r == Err(ConnectionClosed) ==> |old(socket.Remaining())| < size
      ensures r == Err(TimedOut) ==> exists k: nat :: old(socket.calls) <= k < socket.calls && socket.timeouts(k)
    {
      var data := new Byte[size](i => 0);
      var offset := 0;
      while offset < size
        invariant offset <= size && socket.Valid() && old(socket.calls) <= socket.calls
        invariant socket.pos == old(socket.pos) + offset
        invariant data[..offset] == socket.incoming[old(socket.pos)..socket.pos]
      {
        var before := offset;
        var received := socket.RecvInto(data, offset, size - offset);
        if received.Err? {
          assert socket.timeouts(socket.calls - 1);
          return Err(received.error);
        }
        if received.value == 0 {
          return Err(ConnectionClosed);
        }
        offset := offset + received.value;
        assert data[..offset] == socket.incoming[old(socket.pos)..socket.pos];
      }
      assert data[..] == data[..offset];
      return Ok(data);
    }

    /** One frame: its payload, and whether it ends the message. */
    method ReadFrame() returns (r: Result<(seq<Byte>, bool), Error>)
      requires socket.Valid()
      modifies socket`pos, socket`calls
      ensures socket.Valid() && old(socket.calls) <= socket.calls
      ensures r.Ok? ==> |socket.Remaining()| < old(|socket.Remaining()|)
      ensures r.Ok? ==>
        old(Parse(socket.Remaining())) == FirstFrame(r.value.0, r.value.1, socket.Remaining())
      ensures r.Err? ==> r.error == ConnectionClosed || r.error == TimedOut
      ensures r == Err(ConnectionClosed) ==> old(Parse(socket.Remaining())) == Truncated
      ensures r == Err(TimedOut) ==> exists k: nat :: old(socket.calls) <= k < socket.calls && socket.timeouts(k)
    {
      ghost var stream := socket.Remaining();
      var header := RecvExactInto(HEADER_SIZE);
      if header.Err? { return Err(header.error); }
      assert header.value[..] == stream[..HEADER_SIZE];
      var decoded := DecodeHeader(header.value[..]).value;
      var chunk := RecvExactInto(decoded.payloadLen);
      if chunk.Err? { return Err(chunk.error); }
      assert chunk.value[..] == stream[HEADER_SIZE..HEADER_SIZE + decoded.payloadLen];
      assert socket.Remaining() == stream[HEADER_SIZE + decoded.payloadLen..];
      return Ok((chunk.value[..], decoded.eoi));
    }

    /** The final copy of all chunks into one buffer. */
    method Join(payloads: seq<seq<Byte>>) returns (joined: seq<Byte>)
      ensures joined == Flatten(payloads)
    {
      var totalSize := |Flatten(payloads)|;
      var payload := new Byte[totalSize](i => 0);
      var offset := 0;
      for k := 0 to |payloads|
        invariant offset == |Flatten(payloads[..k])| <= totalSize
        invariant payload[..offset] == Flatten(payloads[..k])
      {
        var chunk := payloads[k];
        FlattenSnoc(payloads[..k], chunk);
        assert payloads[..k + 1] == payloads[..k] + [chunk];
        FlattenAppend(payloads[..k + 1], payloads[k + 1..]);
        assert payloads == payloads[..k + 1] + payloads[k + 1..];
        CopyInto(payload, offset, chunk);
        offset := offset + |chunk|;
        assert payload[..offset] == Flatten(payloads[..k]) + chunk;
      }
      assert payloads[..|payloads|] == payloads;
      return payload[..];
    }

    /** `read_raw`. */
    method ReadRaw() returns (r: Result<seq<Byte>, Error>)
      requires socket.Valid()
      modifies socket`pos, socket`calls
      ensures socket.Valid()
      ensures r.Ok? ==> old(Parse(socket.Remaining())) == Message(r.value, socket.Remaining())
      ensures r.Err? ==> r.error == ConnectionClosed || r.error == TimedOut
      ensures r == Err(ConnectionClosed) ==> old(Parse(socket.Remaining())) == Truncated
      ensures r == Err(TimedOut) ==> exists k: nat :: old(socket.calls) <= k < socket.calls && socket.timeouts(k)
    {
      var payloads: seq<seq<Byte>> := [];
      var eoi := false;
      ghost var whole := Parse(socket.Remaining());
      ContinueNothing(whole);
      while !eoi
        invariant socket.Valid() && old(socket.calls) <= socket.calls
        invariant whole == if eoi then Message(Flatten(payloads), socket.Remaining())
            else Continue(Flatten(payloads), Parse(socket.Remaining()))
        invariant eoi ==> payloads != []
        decreases |socket.Remaining()|, !eoi
      {
        var frame := ReadFrame();
        if frame.Err? { return Err(frame.error); }
        var (chunk, last) := frame.value;
        FlattenSnoc(payloads, chunk);
        ContinueTwice(Flatten(payloads), chunk, Parse(socket.Remaining()));
        payloads := payloads + [chunk];
        eoi := last;
      }
      if |payloads| == 1 {
        assert Flatten(payloads) == payloads[0] + [];
        return Ok(payloads[0]);
      }
      var joined := Join(payloads);
      return Ok(joined);
    }

    /** `_send`: one frame, numbered modulo 256; a timeout may cut the frame short. Any
        number of successful sends leaves the transport in sequence. */
    method Send(payload: seq<Byte>, sentBytes: nat, timedOut: bool) returns (e: Option<Error>)
      modifies this`sequence, this`sent, socket`outgoing
      ensures old(InSequence()) && e == None ==> InSequence() && sent == old(sent) + [payload]
      ensures old(InSequence()) && e == Some(StructError) ==> InSequence() && sent == old(sent)
      ensures match EncodeMessage(payload, old(sequence), true)
        case Err(error) => e == Some(error) && sequence == old(sequence) && socket.outgoing == old(socket.outgoing)
        case Ok(frame) =>
          && sequence == (old(sequence) + 1) % 256
          && (!timedOut ==> e == None && socket.outgoing == old(socket.outgoing) + frame)
          && (timedOut ==>
                e == Some(TimedOut) && old(socket.outgoing) <= socket.outgoing <= old(socket.outgoing) + frame)
    {
      var frame := EncodeMessage(payload, sequence, true);
      if frame.Err? { return Some(frame.error); }
      sequence := (sequence + 1) % 256;
      if timedOut {
        var cut := if sentBytes < |frame.value| then sentBytes else |frame.value|;
        socket.outgoing := socket.outgoing + frame.value[..cut];
        return Some(TimedOut);
      }
      socket.outgoing := socket.outgoing + frame.value;
      sent := sent + [payload];
      if old(InSequence()) {
        NumberedGrows(before, old(sent), old(sequence), old(socket.outgoing), payload, frame.value);
      }
      return None;
    }
  }
}
