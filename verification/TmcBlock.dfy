/** IEEE 488.2 definite-length blocks (section 8.7.9 of IEEE 488.2-1992) and the
    loop that assembles one of them from a raw TCP stream. */
module TmcBlock {
  import opened Common

  const HASH: Byte := 35
  const LF: Byte := 10
  const CR: Byte := 13

  predicate IsDigit(c: Byte) { 48 <= c <= 57 }

  /** Header length `#<N><Length>`; None stands for the ValueError of a bad or `#0` header. */
  function HeaderBytes(buff: seq<Byte>): Option<nat> {
    if |buff| < 2 then Some(0)
    else if !IsDigit(buff[1]) || buff[1] == 48 then None
    else Some(buff[1] - 46)
  }

  /** `int(text)` over ASCII digits; None is the ValueError of an empty or non-numeric text. */
  function Decimal(text: seq<Byte>): Option<nat> {
    if text == [] then None
    else if !IsDigit(text[|text| - 1]) then None
    else if |text| == 1 then Some(text[0] - 48)
    else match Decimal(text[..|text| - 1])
      case None => None
      case Some(v) => Some(10 * v + (text[|text| - 1] - 48))
  }

  function Min(a: int, b: int): int { if a < b then a else b }

  /** Declared payload length, with every malformed header read as 0. */
  function DataBytes(buff: seq<Byte>): nat {
    match HeaderBytes(buff)
    case None => 0
    case Some(h) =>
      if h <= 2 then 0
      else match Decimal(buff[2..Min(h, |buff|)]) case None => 0 case Some(v) => v
  }

  /** Header, payload and one terminator byte. */
  function BuffBytes(buff: seq<Byte>): Option<nat> {
    match HeaderBytes(buff) case None => None case Some(h) => Some(h + DataBytes(buff) + 1)
  }

  datatype BlockError = NoHeader | BadHeader | IncompleteHeader | IncompleteBlock | BadTerminator

  type Answer = Result<seq<Byte>, BlockError>

  /** What is left of a stream once everything before its first '#' is dropped;
      a stream without '#' is kept whole. */
  function FromMarker(stream: seq<Byte>): seq<Byte> {
    match Find(stream, [HASH], 0) case None => stream case Some(i) => stream[i..]
  }

  predicate AtMarker(r: seq<Byte>) { |r| > 0 && r[0] == HASH }

  /** The header has arrived in full, so the receive loop knows the block's size. */
  predicate SizeKnown(r: seq<Byte>) {
    AtMarker(r) && |r| >= 2 && HeaderBytes(r).Some? && |r| >= HeaderBytes(r).value
  }

  predicate Complete(r: seq<Byte>) {
    SizeKnown(r) && |r| >= BuffBytes(r).value
  }

  /** The checks made after the receive loop, on the bytes it collected. */
  function Check(r: seq<Byte>): Answer {
    if !AtMarker(r) then Err(NoHeader)
    else if HeaderBytes(r).None? then Err(BadHeader)
    else
      var h, total := HeaderBytes(r).value, BuffBytes(r).value;
      if |r| < h then Err(IncompleteHeader)
      else if |r| < total then Err(IncompleteBlock)
      else if r[total - 1] != LF && r[total - 1] != CR then Err(BadTerminator)
      else Ok(r[..total])
  }

  /** The answer a byte stream determines, however it was cut into chunks. */
  function BlockOf(stream: seq<Byte>): Answer { Check(FromMarker(stream)) }

  // ---- one turn of the receive loop -------------------------------------------

  /** What one pass of the loop sees: `recv` returned `chunk` (empty when nothing
      was ready or the peer closed; `idle` then says that the silence already
      exceeds the idle limit), or raised.  The list of events ends where the
      overall deadline falls. */
  datatype Event = Poll(chunk: seq<Byte>, idle: bool) | Fault

  function BytesOf(e: Event): seq<Byte> { if e.Poll? then e.chunk else [] }

  /** All bytes the events deliver. */
  function Received(events: seq<Event>): seq<Byte> {
    if events == [] then [] else BytesOf(events[0]) + Received(events[1..])
  }

  /** The loop as a function of the bytes so far and the events still to come. */
  function Outcome(stream: seq<Byte>, events: seq<Event>): Answer
    decreases |events|
  {
    if events == [] then BlockOf(stream)
    else
      match events[0]
      case Fault => Outcome(stream, events[1..])
      case Poll(chunk, idle) =>
        var stream' := stream + chunk;
        if chunk == [] && !SizeKnown(FromMarker(stream)) && idle then BlockOf(stream)
        else if chunk != [] && Complete(FromMarker(stream')) then BlockOf(stream')
        else Outcome(stream', events[1..])
  }

  // ---- facts about the marker --------------------------------------------------

  lemma MarkerMeaning(s: seq<Byte>)
    ensures HASH in s <==> Find(s, [HASH], 0).Some?
    ensures AtMarker(FromMarker(s)) <==> HASH in s
    ensures HASH !in s ==> FromMarker(s) == s
    ensures AtMarker(s) ==> FromMarker(s) == s
  {
    FindMeaning(s, [HASH], 0);
    forall j: nat | j < |s| ensures Occurs(s, [HASH], j) <==> s[j] == HASH {
      assert s[j..j + 1] == [s[j]];
    }
    if HASH in s {
      var j: nat :| j < |s| && s[j] == HASH;
      assert Occurs(s, [HASH], j);
    }
    if AtMarker(s) {
      assert Occurs(s, [HASH], 0);
      assert s[0..] == s;
    }
  }

  /** Trimming before or after a chunk arrives makes no difference. */
  lemma MarkerStable(s: seq<Byte>, t: seq<Byte>)
    ensures AtMarker(FromMarker(s)) ==> FromMarker(s + t) == FromMarker(s) + t
    ensures FromMarker(s + t) == FromMarker(FromMarker(s) + t)
  {
    MarkerMeaning(s);
    if HASH in s {
      FindStable(s, t, [HASH]);
      var i := Find(s, [HASH], 0).value;
      assert (s + t)[i..] == s[i..] + t;
      MarkerMeaning(FromMarker(s) + t);
    }
  }

  /** The loop's own trimming step keeps `response` at the stream's first '#'. */
  lemma ChunkArrives(s: seq<Byte>, chunk: seq<Byte>)
    ensures var x := FromMarker(s) + chunk;
      FromMarker(s + chunk) ==
        if AtMarker(x) then x else match Find(x, [HASH], 0) case None => x case Some(i) => x[i..]
  {
    MarkerStable(s, chunk);
    MarkerMeaning(FromMarker(s) + chunk);
  }

  /** Everything in front of the first '#' is noise. */
  lemma {:induction false} NoiseDropped(noise: seq<Byte>, s: seq<Byte>)
    requires HASH !in noise && AtMarker(s)
    ensures FromMarker(noise + s) == s
  {
    var w := noise + s;
    MarkerMeaning(w);
    FindMeaning(w, [HASH], 0);
    assert w[|noise|] == HASH;
    var i := Find(w, [HASH], 0).value;
    assert w[i..i + 1] == [w[i]];
    assert w[|noise|..|noise| + 1] == [HASH];
    assert Occurs(w, [HASH], |noise|);
    assert i == |noise|;
  }

  // ---- completeness is final ---------------------------------------------------

  lemma SizeStable(r: seq<Byte>, t: seq<Byte>)
    requires SizeKnown(r)
    ensures SizeKnown(r + t) && HeaderBytes(r + t) == HeaderBytes(r) && BuffBytes(r + t) == BuffBytes(r)
  {
    var h := HeaderBytes(r).value;
    assert (r + t)[2..h] == r[2..h];
  }

  lemma CheckStable(r: seq<Byte>, t: seq<Byte>)
    requires Complete(r)
    ensures Complete(r + t) && Check(r + t) == Check(r)
  {
    SizeStable(r, t);
    var total := BuffBytes(r).value;
    assert (r + t)[..total] == r[..total];
  }

  lemma CheckTruncated(r: seq<Byte>)
    requires Complete(r)
    ensures Check(r[..BuffBytes(r).value]) == Check(r)
  {
    var total := BuffBytes(r).value;
    var h := HeaderBytes(r).value;
    assert r[..total][2..h] == r[2..h];
    assert r[..total][..total] == r[..total];
  }

  /** Only a complete block can be accepted. */
  lemma AcceptedIsComplete(r: seq<Byte>)
    ensures Check(r).Ok? ==> Complete(r)
  {
    if |r| == 1 && AtMarker(r) {
      assert r[0] == HASH;
    }
  }

  /** Appending bytes never changes the answer of a stream that holds a whole block. */
  lemma CompleteIsFinal(s: seq<Byte>, t: seq<Byte>)
    requires Complete(FromMarker(s))
    ensures Complete(FromMarker(s + t)) && BlockOf(s + t) == BlockOf(s)
  {
    MarkerMeaning(s);
    MarkerStable(s, t);
    CheckStable(FromMarker(s), t);
  }

  // ---- the receive loop against the stream ------------------------------------

  /** The binary branch of `command` after the query was sent. */
  method Receive(events: seq<Event>) returns (answer: Answer)
    ensures answer == Outcome([], events)
  {
    var response: seq<Byte> := [];
    var totalExpected: Option<nat> := None;
    var next := 0;
    ghost var stream: seq<Byte> := [];
    while next < |events|
      invariant 0 <= next <= |events|
      invariant response == FromMarker(stream) && !Complete(response)
      invariant totalExpected == if SizeKnown(response) then BuffBytes(response) else None
      invariant Outcome([], events) == Outcome(stream, events[next..])
    {
      var event := events[next];
      next := next + 1;
      if event.Poll? {
        if event.chunk != [] {
          ChunkArrives(stream, event.chunk);
          stream := stream + event.chunk;
          response := response + event.chunk;
          if !AtMarker(response) {
            var marker := Find(response, [HASH], 0);
            if marker.Some? {
              response := response[marker.value..];
            }
          }
          assert response == FromMarker(stream);
          if AtMarker(response) && |response| >= 2 && IsDigit(response[1]) {
            var headerLength := 2 + (response[1] - 48);
            if |response| >= headerLength && BuffBytes(response).Some? {
              assert SizeKnown(response);
              totalExpected := BuffBytes(response);
              if |response| >= totalExpected.value {
                CheckTruncated(response);
                response := response[..totalExpected.value];
                answer := Check(response);
                return;
              }
            }
          }
        } else {
          assert stream + event.chunk == stream;
          if totalExpected.Some? && |response| >= totalExpected.value {
            assert false;
          }
          if totalExpected.None? && event.idle {
            break;
          }
        }
      }
    }
    answer := Check(response);
  }

  /** No time or idle limit can turn a block into another block: whatever the loop
      accepts is the block that the whole received stream determines. */
  lemma {:induction false} NeverWrong(stream: seq<Byte>, events: seq<Event>)
    ensures Outcome(stream, events).Ok? ==> BlockOf(stream + Received(events)) == Outcome(stream, events)
    decreases |events|
  {
    if events == [] {
      assert stream + [] == stream;
    } else {
      var head, tail := BytesOf(events[0]), Received(events[1..]);
      assert stream + (head + tail) == (stream + head) + tail;
      assert events[0].Fault? ==> stream + head == stream;
      NeverWrong(stream + head, events[1..]);
      AcceptedIsComplete(FromMarker(stream));
      if BlockOf(stream).Ok? { CompleteIsFinal(stream, head + tail); }
      if Complete(FromMarker(stream + head)) { CompleteIsFinal(stream + head, tail); }
    }
  }

  /** The idle limit does not fire before the header is in: chunk boundaries,
      faults and quiet polls are otherwise arbitrary. */
  predicate Patient(stream: seq<Byte>, events: seq<Event>)
    decreases |events|
  {
    events == [] ||
    (&& (events[0].Poll? && events[0].idle && events[0].chunk == [] ==> SizeKnown(FromMarker(stream)))
     && Patient(stream + BytesOf(events[0]), events[1..]))
  }

  /** If the bytes of a whole block arrive before the limits are hit, the loop's
      answer is a function of the concatenated bytes alone. */
  lemma {:induction false} ChunkingIrrelevant(stream: seq<Byte>, events: seq<Event>)
    requires Patient(stream, events)
    requires Complete(FromMarker(stream + Received(events)))
    ensures Outcome(stream, events) == BlockOf(stream + Received(events))
    decreases |events|
  {
    if events == [] {
      assert stream + [] == stream;
    } else {
      var head, tail := BytesOf(events[0]), Received(events[1..]);
      assert stream + (head + tail) == (stream + head) + tail;
      assert head == [] ==> stream + head == stream;
      ChunkingIrrelevant(stream + head, events[1..]);
      if Complete(FromMarker(stream + head)) { CompleteIsFinal(stream + head, tail); }
    }
  }

  /** Silence past the idle limit ends the wait for a header, whatever was still to come,
      and is refused; any other pass without bytes changes nothing. */
  lemma SilenceRefuses(stream: seq<Byte>, idle: bool, rest: seq<Event>)
    ensures idle && !SizeKnown(FromMarker(stream)) ==> Outcome(stream, [Poll([], idle)] + rest).Err?
    ensures !idle || SizeKnown(FromMarker(stream)) ==> Outcome(stream, [Poll([], idle)] + rest) == Outcome(stream, rest)
    ensures Outcome(stream, [Fault] + rest) == Outcome(stream, rest)
  {
    AcceptedIsComplete(FromMarker(stream));
    assert ([Poll([], idle)] + rest)[1..] == rest && ([Fault] + rest)[1..] == rest;
    assert stream + [] == stream;
  }

  /** Two deliveries of the same bytes give the same answer. */
  lemma SameBytesSameAnswer(a: seq<Event>, b: seq<Event>)
    requires Patient([], a) && Patient([], b)
    requires Received(a) == Received(b) && Complete(FromMarker(Received(a)))
    ensures Outcome([], a) == Outcome([], b)
  {
    assert [] + Received(a) == Received(a);
    assert [] + Received(b) == Received(b);
    ChunkingIrrelevant([], a);
    ChunkingIrrelevant([], b);
  }

  // ---- building a block --------------------------------------------------------

  function Power10(n: nat): nat { if n == 0 then 1 else 10 * Power10(n - 1) }

  /** `v` in `width` ASCII digits, zero-padded. */
  function Digits(v: nat, width: nat): (ds: seq<Byte>)
    ensures |ds| == width
  {
    if width == 0 then [] else Digits(v / 10, width - 1) + [48 + v % 10]
  }

  lemma {:induction false} DigitsRoundTrip(v: nat, width: nat)
    requires width > 0 && v < Power10(width)
    ensures Decimal(Digits(v, width)) == Some(v)
  {
    var ds := Digits(v, width);
    assert ds[..|ds| - 1] == Digits(v / 10, width - 1);
    if width > 1 {
      assert v / 10 < Power10(width - 1);
      DigitsRoundTrip(v / 10, width - 1);
    } else {
      assert Power10(1) == 10 * Power10(0);
    }
  }

  /** The block an instrument sends for `data`, its length in `width` digits. */
  function Encode(data: seq<Byte>, width: nat, terminator: Byte): seq<Byte>
    requires 1 <= width <= 9 && |data| < Power10(width)
  {
    [HASH, 48 + width] + Digits(|data|, width) + data + [terminator]
  }

  lemma EncodeShape(data: seq<Byte>, width: nat, terminator: Byte, rest: seq<Byte>)
    requires 1 <= width <= 9 && |data| < Power10(width)
    ensures var b := Encode(data, width, terminator);
      && Complete(b + rest)
      && HeaderBytes(b + rest) == Some(2 + width) && DataBytes(b + rest) == |data|
      && (b + rest)[..|b|] == b && b[2 + width..2 + width + |data|] == data
      && |b| == 3 + width + |data|
  {
    var b := Encode(data, width, terminator);
    assert (b + rest)[2..2 + width] == Digits(|data|, width);
    DigitsRoundTrip(|data|, width);
  }

  /** Round trip of one block behind arbitrary noise and in front of anything. */
  lemma DecodeEncode(noise: seq<Byte>, data: seq<Byte>, width: nat, terminator: Byte, rest: seq<Byte>)
    requires 1 <= width <= 9 && |data| < Power10(width) && HASH !in noise
    ensures var b := Encode(data, width, terminator);
      BlockOf(noise + b + rest) == if terminator == LF || terminator == CR then Ok(b) else Err(BadTerminator)
  {
    var b := Encode(data, width, terminator);
    assert noise + b + rest == noise + (b + rest);
    NoiseDropped(noise, b + rest);
    EncodeShape(data, width, terminator, rest);
  }

  /** A definite-length block, with no reference to the receiver: '#', a length
      digit 1..9, that many length characters (read as 0 when they are not all
      digits), the declared payload, and a line feed or carriage return. */
  predicate IsBlock(b: seq<Byte>) {
    && |b| >= 3 && b[0] == 35 && 49 <= b[1] <= 57
    && var w := b[1] - 48;
    && |b| >= 2 + w
    && |b| == 2 + w + (match Decimal(b[2..2 + w]) case None => 0 case Some(v) => v) + 1
    && (b[|b| - 1] == 10 || b[|b| - 1] == 13)
  }

  ghost predicate Framed(stream: seq<Byte>, noise: seq<Byte>, b: seq<Byte>, rest: seq<Byte>) {
    stream == noise + b + rest && 35 !in noise && IsBlock(b)
  }

  lemma BlocksAreAccepted(b: seq<Byte>)
    requires IsBlock(b)
    ensures Complete(b) && Check(b) == Ok(b)
  {
    assert BuffBytes(b) == Some(|b|);
    assert b[..|b|] == b;
  }

  lemma AcceptedAreBlocks(r: seq<Byte>)
    requires Check(r).Ok?
    ensures IsBlock(Check(r).value) && Check(r).value <= r
  {
    AcceptedIsComplete(r);
    var h, b := HeaderBytes(r).value, Check(r).value;
    assert b[2..h] == r[2..h];
    assert |b| == h + DataBytes(r) + 1;
  }

  lemma FramedIsAccepted(stream: seq<Byte>, noise: seq<Byte>, b: seq<Byte>, rest: seq<Byte>)
    requires Framed(stream, noise, b, rest)
    ensures BlockOf(stream) == Ok(b)
  {
    assert stream == noise + (b + rest);
    NoiseDropped(noise, b + rest);
    BlocksAreAccepted(b);
    CheckStable(b, rest);
  }

  lemma MarkerSplits(s: seq<Byte>) returns (noise: seq<Byte>)
    requires HASH in s
    ensures HASH !in noise && s == noise + FromMarker(s)
  {
    MarkerMeaning(s);
    var i := Find(s, [HASH], 0).value;
    noise := s[..i];
    FindMeaning(s, [HASH], 0);
    forall j: nat | j < i ensures s[j] != HASH {
      assert !Occurs(s, [HASH], j);
      assert s[j..j + 1] == [s[j]];
    }
  }

  lemma SplitAtPrefix(a: seq<Byte>, b: seq<Byte>, r: seq<Byte>)
    requires b <= r
    ensures a + r == a + b + r[|b|..]
  {
    assert r == b + r[|b|..];
  }

  lemma AcceptedIsFramed(stream: seq<Byte>, b: seq<Byte>) returns (noise: seq<Byte>, rest: seq<Byte>)
    requires BlockOf(stream) == Ok(b)
    ensures Framed(stream, noise, b, rest)
  {
    var r := FromMarker(stream);
    AcceptedAreBlocks(r);
    MarkerMeaning(stream);
    noise := MarkerSplits(stream);
    rest := r[|b|..];
    SplitAtPrefix(noise, b, r);
  }

  /** A stream yields block `b` exactly when `b` stands at its first '#'. */
  lemma AcceptedExactlyWhenFramed(stream: seq<Byte>, b: seq<Byte>)
    ensures BlockOf(stream) == Ok(b) <==> exists noise, rest :: Framed(stream, noise, b, rest)
  {
    if BlockOf(stream) == Ok(b) {
      var noise, rest := AcceptedIsFramed(stream, b);
    }
    if noise, rest :| Framed(stream, noise, b, rest) {
      FramedIsAccepted(stream, noise, b, rest);
    }
  }
}
