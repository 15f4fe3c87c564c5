/** Bytes of an earlier reply that are still on the wire when the next block is asked
    for: `command` empties the Telnet queues, but not the socket. */
module Leftovers {
  import opened Common
  import opened RigolRead
  import opened TmcBlock

  /** `r` starts a block with a payload that is there in full and ends well, or of which
      so much is missing that its terminator can be found behind the next header. */
  predicate CanEndWell(r: seq<Byte>) {
    && SizeKnown(r) && DataBytes(r) > 0
    && var total := BuffBytes(r).value;
    if |r| >= total then r[total - 1] == LF || r[total - 1] == CR else total - |r| >= 4
  }

  predicate Harmful(noise: seq<Byte>) { CanEndWell(FromMarker(noise)) }

  predicate Encodable(size: nat, width: nat) { 1 <= width <= 9 && size < Power10(width) }

  // ---- harmless leftovers --------------------------------------------------------

  lemma {:induction false} NotANumber(text: seq<Byte>, i: nat)
    requires i < |text| && !IsDigit(text[i])
    ensures Decimal(text) == None
  {
    if i < |text| - 1 { NotANumber(text[..|text| - 1], i); }
  }

  lemma {:induction false} FirstDigit(v: nat, width: nat)
    requires width > 0
    ensures IsDigit(Digits(v, width)[0])
    decreases width
  {
    if width > 1 { FirstDigit(v / 10, width - 1); }
  }

  /** The first bytes of a block: '#', the length of the length, and a digit. */
  lemma BlockStart(data: seq<Byte>, width: nat, terminator: Byte)
    requires Encodable(|data|, width)
    ensures var b := Encode(data, width, terminator);
      |b| >= 4 && b[0] == HASH && IsDigit(b[1]) && IsDigit(b[2])
  {
    var b := Encode(data, width, terminator);
    assert b[2] == Digits(|data|, width)[0];
    FirstDigit(|data|, width);
  }

  /** The accepted block declares what the bytes it was cut from declare. */
  lemma DeclaredKept(x: seq<Byte>)
    requires Check(x).Ok?
    ensures HeaderBytes(Check(x).value) == HeaderBytes(x) && DataBytes(Check(x).value) == DataBytes(x)
  {
    AcceptedIsComplete(x);
    var h, total := HeaderBytes(x).value, BuffBytes(x).value;
    assert x[..total][2..h] == x[2..h];
  }

  /** A header that the next block completes declares nothing. */
  lemma CutHeader(r: seq<Byte>, b: seq<Byte>)
    requires AtMarker(r) && !SizeKnown(r) && b != [] && b[0] == HASH
    ensures BlockReply(Check(r + b)) == Refused
  {
    var x := r + b;
    if |r| >= 2 && HeaderBytes(r).Some? {
      var h := HeaderBytes(r).value;
      var text := x[2..Min(h, |x|)];
      assert text[|r| - 2] == HASH;
      NotANumber(text, |r| - 2);
      if Check(x).Ok? { assert DataBytes(Check(x).value) == 0 by { DeclaredKept(x); } }
    }
  }

  /** The block in the leftovers has a length, but declares nothing or ends badly. */
  lemma SpoiltBlock(r: seq<Byte>, b: seq<Byte>)
    requires AtMarker(r) && SizeKnown(r)
    requires DataBytes(r) > 0 ==>
      var total := BuffBytes(r).value;
      |r + b| >= total && (r + b)[total - 1] != LF && (r + b)[total - 1] != CR
    ensures BlockReply(Check(r + b)) == Refused
  {
    SizeStable(r, b);
    if Check(r + b).Ok? { DeclaredKept(r + b); }
  }

  /** Where its terminator is missing by less than four bytes stands the next header. */
  lemma EndsBadly(r: seq<Byte>, b: seq<Byte>, total: nat)
    requires |b| >= 4 && b[0] == HASH && IsDigit(b[1]) && IsDigit(b[2]) && total > 0
    requires if |r| >= total then r[total - 1] != LF && r[total - 1] != CR else total - |r| < 4
    ensures |r + b| >= total && (r + b)[total - 1] != LF && (r + b)[total - 1] != CR
  {
    assert (r + b)[total - 1] == if |r| >= total then r[total - 1] else b[total - 1 - |r|];
  }

  lemma SpoiltTail(r: seq<Byte>, b: seq<Byte>)
    requires AtMarker(r) && !CanEndWell(r)
    requires |b| >= 4 && b[0] == HASH && IsDigit(b[1]) && IsDigit(b[2])
    ensures BlockReply(Check(r + b)) == Refused
  {
    if SizeKnown(r) {
      if DataBytes(r) > 0 { EndsBadly(r, b, BuffBytes(r).value); }
      SpoiltBlock(r, b);
    } else {
      CutHeader(r, b);
    }
  }

  lemma MarkedLeftovers(noise: seq<Byte>, b: seq<Byte>)
    requires HASH in noise && !Harmful(noise)
    requires |b| >= 4 && b[0] == HASH && IsDigit(b[1]) && IsDigit(b[2])
    ensures BlockReply(BlockOf(noise + b)) == Refused
  {
    MarkerMeaning(noise);
    MarkerStable(noise, b);
    SpoiltTail(FromMarker(noise), b);
  }

  lemma BlockReplyOfEncode(data: seq<Byte>, width: nat, terminator: Byte)
    requires Encodable(|data|, width)
    ensures BlockReply(Ok(Encode(data, width, terminator))) == if data == [] then Refused else Block(data, |data|)
  {
    var block := Encode(data, width, terminator);
    EncodeShape(data, width, terminator, []);
    assert block + [] == block;
  }

  lemma AllArrived(received: seq<Byte>, noise: seq<Byte>, b: seq<Byte>)
    requires received <= noise + b && HASH !in noise && BlockOf(received) == Ok(b)
    ensures received == noise + b
  {
    var before, rest := AcceptedIsFramed(received, b);
    MarkerMeaning(received);
    assert received[|before|] == b[0] == HASH;
    forall k | 0 <= k < |noise| && k < |received| ensures received[k] != HASH {
      assert received[k] == (noise + b)[k] == noise[k];
    }
    assert |received| == |before| + |b| + |rest|;
  }

  /** Behind harmless leftovers, whatever part of a sent block arrives is refused or is
      the block that was sent, and then all of it has arrived. */
  lemma HarmlessIsSafe(received: seq<Byte>, noise: seq<Byte>, data: seq<Byte>, width: nat, terminator: Byte)
    requires !Harmful(noise) && Encodable(|data|, width)
    requires received <= noise + Encode(data, width, terminator)
    ensures var reply := BlockReply(BlockOf(received));
      reply.Block? ==> data != [] && reply == Block(data, |data|) && received == noise + Encode(data, width, terminator)
  {
    var b := Encode(data, width, terminator);
    var sent := noise + b;
    if BlockOf(received).Ok? {
      AcceptedIsComplete(FromMarker(received));
      CompleteIsFinal(received, sent[|received|..]);
      assert received + sent[|received|..] == sent;
      BlockStart(data, width, terminator);
      if HASH in noise {
        MarkedLeftovers(noise, b);
      } else {
        DecodeEncode(noise, data, width, terminator, []);
        assert sent + [] == sent;
        BlockReplyOfEncode(data, width, terminator);
        AllArrived(received, noise, b);
      }
    }
  }

  // ---- harmful leftovers -----------------------------------------------------------

  predicate SafeFor(noise: seq<Byte>, window: seq<Byte>, size: nat, width: nat, terminator: Byte)
    requires size <= |window| && Encodable(size, width)
  {
    var reply := BlockReply(BlockOf(noise + Encode(window[..size], width, terminator)));
    reply.Block? ==> reply.payload[..GotBytes(reply)] <= window
  }

  /** After these leftovers, every block that is sent is refused or read as sent. */
  ghost predicate Safe(noise: seq<Byte>) {
    forall window: seq<Byte>, size: nat, width: nat, terminator: Byte |
      size <= |window| && Encodable(size, width) :: SafeFor(noise, window, size, width, terminator)
  }

  lemma {:induction false} DecimalBound(text: seq<Byte>)
    requires Decimal(text).Some?
    ensures Decimal(text).value < Power10(|text|)
  {
    if |text| > 1 { DecimalBound(text[..|text| - 1]); } else { assert Power10(1) == 10 * Power10(0); }
  }

  lemma {:induction false} Power10Grows(a: nat, b: nat)
    requires a <= b
    ensures 1 <= Power10(a) <= Power10(b)
    decreases b
  {
    if b > 0 {
      if a < b { Power10Grows(a, b - 1); } else { Power10Grows(a - 1, b - 1); }
    }
  }

  /** What an opened block is read as once its terminator is found in the next one. */
  lemma StaleReply(r: seq<Byte>, b: seq<Byte>)
    requires SizeKnown(r) && DataBytes(r) > 0 && |r + b| >= BuffBytes(r).value
    requires (r + b)[BuffBytes(r).value - 1] == LF
    ensures var reply := BlockReply(Check(r + b));
      reply.Block? && |reply.payload| == reply.declared == DataBytes(r) == GotBytes(reply)
  {
    SizeStable(r, b);
    DeclaredKept(r + b);
  }

  /** A length of the next block that puts its own terminator where the open block's
      terminator is missing. */
  lemma FittingSize(missing: nat) returns (size: nat, width: nat)
    requires 4 <= missing <= Power10(9)
    ensures Encodable(size, width) && 3 + width + size == missing
  {
    assert Power10(1) == 10 * Power10(0);
    if missing < 14 {
      size, width := missing - 4, 1;
    } else {
      size, width := missing - 12, 9;
    }
  }

  lemma DeclaredKeptWhenComplete(r: seq<Byte>, b: seq<Byte>)
    requires Complete(r) && DataBytes(r) > 0 && Check(r).Ok?
    ensures var reply := BlockReply(Check(r + b));
      reply.Block? && |reply.payload| == reply.declared == DataBytes(r) == GotBytes(reply)
  {
    CheckStable(r, b);
    DeclaredKept(r);
  }

  lemma CompleteIsHarmful(noise: seq<Byte>)
    requires Harmful(noise) && Complete(FromMarker(noise))
    ensures !SafeFor(noise, [], 0, 1, LF)
  {
    var none: seq<Byte> := [];
    var r, b := FromMarker(noise), Encode(none, 1, LF);
    assert none[..0] == none;
    MarkerStable(noise, b);
    MarkerMeaning(noise);
    SizeStable(r, b);
    DeclaredKeptWhenComplete(r, b);
  }

  lemma CutOffIsHarmful(noise: seq<Byte>) returns (window: seq<Byte>, width: nat)
    requires Harmful(noise) && !Complete(FromMarker(noise))
    ensures Encodable(|window|, width) && !SafeFor(noise, window, |window|, width, LF)
  {
    var r := FromMarker(noise);
    var missing := BuffBytes(r).value - |r|;
    var size;
    DecimalBound(r[2..HeaderBytes(r).value]);
    Power10Grows(HeaderBytes(r).value - 2, 9);
    size, width := FittingSize(missing);
    window := seq(size, i => 0);
    var b := Encode(window, width, LF);
    assert window[..|window|] == window;
    MarkerStable(noise, b);
    MarkerMeaning(noise);
    assert (r + b)[BuffBytes(r).value - 1] == b[|b| - 1];
    StaleReply(r, b);
  }

  /** Exactly these leftovers can pass for data: whatever is sent next is refused or read
      as sent if and only if they hold no block that can still end well. */
  lemma SafeExactlyWhenHarmless(noise: seq<Byte>)
    ensures Safe(noise) <==> !Harmful(noise)
  {
    if !Harmful(noise) {
      forall window: seq<Byte>, size: nat, width: nat, terminator: Byte | size <= |window| && Encodable(size, width)
        ensures SafeFor(noise, window, size, width, terminator)
      {
        HarmlessIsSafe(noise + Encode(window[..size], width, terminator), noise, window[..size], width, terminator);
      }
    } else if Complete(FromMarker(noise)) {
      CompleteIsHarmful(noise);
      assert !Safe(noise) by { assert Encodable(0, 1); }
    } else {
      var window, width := CutOffIsHarmful(noise);
    }
  }

  // ---- successive requests on one connection ----------------------------------------

  /** One request: the block sent for it and what its receiver saw of leftovers and block
      until it stopped listening; or a text query, its reply and how many bytes were read
      off the socket for it.  A later text query may still use those; a block request
      drops them. */
  datatype Exchange =
    | BlockRequest(data: seq<Byte>, width: nat, terminator: Byte, events: seq<Event>)
    | TextQuery(text: seq<Byte>, heard: nat)

  function Reply(x: Exchange): RigolRead.Reply
    requires x.BlockRequest?
  {
    BlockReply(Outcome([], x.events))
  }

  predicate Plausible(x: Exchange, noise: seq<Byte>) {
    match x
    case BlockRequest(data, width, terminator, events) =>
      Encodable(|data|, width) && Received(events) <= noise + Encode(data, width, terminator)
    case TextQuery(text, heard) => HASH !in text && heard <= |noise + text|
  }

  /** What a request leaves unread. */
  function Unread(x: Exchange, noise: seq<Byte>): seq<Byte>
    requires Plausible(x, noise)
  {
    match x
    case BlockRequest(data, width, terminator, events) =>
      (noise + Encode(data, width, terminator))[|Received(events)|..]
    case TextQuery(text, heard) => (noise + text)[heard..]
  }

  /** Each request starts with what the one before it left unread. */
  predicate Conversation(noise: seq<Byte>, xs: seq<Exchange>)
    decreases |xs|
  {
    xs == [] || (Plausible(xs[0], noise) && Conversation(Unread(xs[0], noise), xs[1..]))
  }

  /** A request that gets a block gets its own, and leaves nothing behind. */
  lemma AnswerCleansLine(x: Exchange, noise: seq<Byte>)
    requires x.BlockRequest? && Plausible(x, noise) && !Harmful(noise) && Reply(x).Block?
    ensures Reply(x) == Block(x.data, |x.data|) && Unread(x, noise) == []
  {
    NeverWrong([], x.events);
    assert [] + Received(x.events) == Received(x.events);
    HarmlessIsSafe(Received(x.events), noise, x.data, x.width, x.terminator);
  }

  /** No '#' on the line; or harmless leftovers that meet a block request first. */
  predicate Clean(noise: seq<Byte>, xs: seq<Exchange>) {
    HASH !in noise || (xs != [] && xs[0].BlockRequest? && !Harmful(noise))
  }

  lemma StepKeepsClean(noise: seq<Byte>, xs: seq<Exchange>)
    requires xs != [] && Clean(noise, xs) && Plausible(xs[0], noise)
    requires xs[0].BlockRequest? ==> Reply(xs[0]).Block?
    ensures xs[0].BlockRequest? ==> Reply(xs[0]) == Block(xs[0].data, |xs[0].data|)
    ensures HASH !in Unread(xs[0], noise)
  {
    MarkerMeaning(noise);
    if xs[0].BlockRequest? { AnswerCleansLine(xs[0], noise); }
  }

  /** So as long as every block request gets a block, the next one, in this read or a
      later one, is refused or gets its own block, whatever the text queries in between
      read or leave. */
  lemma {:induction false} CleanLine(noise: seq<Byte>, xs: seq<Exchange>, k: nat)
    requires Conversation(noise, xs) && Clean(noise, xs) && k < |xs| && xs[k].BlockRequest?
    requires forall i | 0 <= i < k && xs[i].BlockRequest? :: Reply(xs[i]).Block?
    ensures Reply(xs[k]).Block? ==> Reply(xs[k]) == Block(xs[k].data, |xs[k].data|)
    decreases k
  {
    if k == 0 {
      if Reply(xs[0]).Block? { StepKeepsClean(noise, xs); }
    } else {
      StepKeepsClean(noise, xs);
      forall i | 0 <= i < k - 1 && xs[1..][i].BlockRequest? ensures Reply(xs[1..][i]).Block? {
        assert Reply(xs[i + 1]).Block?;
      }
      CleanLine(Unread(xs[0], noise), xs[1..], k - 1);
    }
  }

  // ---- a line that never recovers -----------------------------------------------------

  const WIDTH: nat := 9

  predicate Sendable(datas: seq<seq<Byte>>) {
    forall i | 0 <= i < |datas| :: datas[i] != [] && Encodable(|datas[i]|, WIDTH)
  }

  /** A block request whose receiver hears just these bytes, or nothing until its idle
      limit. */
  function Lagging(stale: seq<Byte>, data: seq<Byte>): Exchange {
    BlockRequest(data, WIDTH, LF, [Poll(stale, stale == [])])
  }

  /** Requests made one after the other, each hearing what was sent for the one before. */
  function LagOn(stale: seq<Byte>, datas: seq<seq<Byte>>): (xs: seq<Exchange>)
    requires Sendable(datas)
    ensures |xs| == |datas|
    decreases |datas|
  {
    if datas == [] then []
    else [Lagging(stale, datas[0])] + LagOn(Encode(datas[0], WIDTH, LF), datas[1..])
  }

  lemma LaggingLeaves(stale: seq<Byte>, data: seq<Byte>)
    requires Encodable(|data|, WIDTH)
    ensures var x := Lagging(stale, data);
      Plausible(x, stale) && Unread(x, stale) == Encode(data, WIDTH, LF)
  {
    var x := Lagging(stale, data);
    assert Received(x.events) == stale + Received([]) == stale;
  }

  /** The whole block of an earlier request is taken for the answer. */
  lemma LaggingReply(earlier: seq<Byte>, data: seq<Byte>)
    requires Encodable(|earlier|, WIDTH) && earlier != []
    ensures Reply(Lagging(Encode(earlier, WIDTH, LF), data)) == Block(earlier, |earlier|)
  {
    var stale := Encode(earlier, WIDTH, LF);
    var none: seq<Byte> := [];
    assert none + stale + none == stale && none + stale == stale;
    DecodeEncode(none, earlier, WIDTH, LF, none);
    AcceptedIsComplete(FromMarker(stale));
    assert Outcome([], [Poll(stale, false)]) == Ok(stale);
    BlockReplyOfEncode(earlier, WIDTH, LF);
  }

  lemma SilenceIsRefused(data: seq<Byte>)
    ensures Reply(Lagging([], data)) == Refused
  {
    MarkerMeaning([]);
  }

  lemma {:induction false} LagConverses(stale: seq<Byte>, datas: seq<seq<Byte>>)
    requires Sendable(datas)
    ensures Conversation(stale, LagOn(stale, datas))
    decreases |datas|
  {
    if datas != [] {
      LaggingLeaves(stale, datas[0]);
      LagConverses(Encode(datas[0], WIDTH, LF), datas[1..]);
    }
  }

  lemma {:induction false} LagAt(stale: seq<Byte>, datas: seq<seq<Byte>>, k: nat)
    requires Sendable(datas) && k < |datas|
    ensures LagOn(stale, datas)[k] == Lagging(if k == 0 then stale else Encode(datas[k - 1], WIDTH, LF), datas[k])
    decreases k
  {
    if k > 0 {
      var next, rest := Encode(datas[0], WIDTH, LF), datas[1..];
      LagAt(next, rest, k - 1);
      assert LagOn(stale, datas)[k] == LagOn(next, rest)[k - 1];
      assert rest[k - 1] == datas[k] && (k > 1 ==> rest[k - 2] == datas[k - 1]);
    }
  }

  /** After one request that heard nothing until its limit, block requests made one after
      the other can each get the block of the one before, without end. */
  lemma StaleEverAfter(datas: seq<seq<Byte>>, k: nat)
    requires Sendable(datas) && k < |datas|
    ensures var xs := LagOn([], datas);
      && Conversation([], xs) && xs[k].BlockRequest? && xs[k].data == datas[k]
      && Reply(xs[k]) == if k == 0 then Refused else Block(datas[k - 1], |datas[k - 1]|)
  {
    LagConverses([], datas);
    LagAt([], datas, k);
    if k == 0 { SilenceIsRefused(datas[0]); } else { LaggingReply(datas[k - 1], datas[k]); }
  }
}
