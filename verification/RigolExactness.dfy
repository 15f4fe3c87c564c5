/** What the batched read returns: the exact record or an error, its cost, and the
    environment assumptions without which it returns something else. */
module RigolExactness {
  import opened Common
  import opened RigolRead
  import opened Leftovers
  import TmcBlock

  /** A reply never holds anything but leading bytes of the window in force. */
  predicate Genuine(reply: Reply, record: seq<Byte>, bpp: Width, a: nat, b: nat)
    requires 1 <= a <= b && Bytes(b, bpp) <= |record|
  {
    reply.Block? ==> reply.payload[..GotBytes(reply)] <= record[Bytes(a - 1, bpp)..Bytes(b, bpp)]
  }

  /** The instrument answers honestly about the window in force and serves data
      from it; it may alter the window it was given, send fewer bytes than the
      window holds (even half points, or none), or fail. */
  ghost predicate Truthful(scope: Scope, record: seq<Byte>, n: nat, bpp: Width) {
    && |record| == Bytes(n, bpp)
    && (forall k: nat, a: nat, b: nat | 1 <= a <= b <= n :: Genuine(scope.block(k, a, b), record, bpp, a, b))
    && (forall k: nat, a: int, b: int ::
          scope.readback(k, a, b).Some? ==> scope.readback(k, a, b).value == scope.inForce(k, a, b))
  }

  /** The window put in force starts at the point asked for and ends inside the record. */
  predicate Kept(window: (int, int), a: int, n: nat) { window.0 == a && a <= window.1 <= n }

  /** The instrument never moves the start of a window it is asked for. */
  ghost predicate KeepsStart(scope: Scope, n: nat) {
    forall k: nat, a: nat, b: nat | 1 <= a <= b <= n :: Kept(scope.inForce(k, a, b), a, n)
  }

  /** The next window is verified, or kept. */
  predicate Trusted(scope: Scope, st: Loop, n: nat, verify: bool) {
    st.start <= n ==> verify || Kept(scope.inForce(|st.log|, st.start, Stop(st, n)), st.start, n)
  }

  /** The chunks joined so far are the first `start - 1` points. */
  predicate Exact(st: Loop, record: seq<Byte>, n: nat, bpp: Width) {
    && Sane(st, n) && st.start <= n + 1 && |record| == Bytes(n, bpp)
    && st.got == record[..Bytes(st.start - 1, bpp)]
  }

  lemma ExtendPrefix(record: seq<Byte>, lo: nat, hi: nat, part: seq<Byte>, m: nat)
    requires lo <= hi <= |record| && part <= record[lo..hi] && m <= |part|
    ensures record[..lo] + part[..m] == record[..lo + m]
  {}

  lemma AbsorbKeepsExact(st: Loop, reply: Reply, record: seq<Byte>, n: nat, bpp: Width, end: nat)
    requires Exact(st, record, n, bpp) && st.start <= end <= n && reply.Block?
    requires Genuine(reply, record, bpp, st.start, end)
    ensures Points(GotBytes(reply), bpp) <= end - st.start + 1
    ensures var st' := Absorb(st, n, bpp, reply);
      if st'.emptyTries <= EMPTY_CHUNK_RETRIES then Exact(st', record, n, bpp) else st'.got == st.got
  {
    var a, m := st.start, Bytes(Points(GotBytes(reply), bpp), bpp);
    ExtendPrefix(record, Bytes(a - 1, bpp), Bytes(end, bpp), reply.payload[..GotBytes(reply)], m);
    assert reply.payload[..GotBytes(reply)][..m] == reply.payload[..m];
  }

  lemma ReplyIsGenuine(scope: Scope, k: nat, a: nat, b: nat, record: seq<Byte>, n: nat, bpp: Width, verify: bool)
    returns (end: nat)
    requires Truthful(scope, record, n, bpp) && (verify || Kept(scope.inForce(k, a, b), a, n))
    requires 1 <= a <= b <= n && !Raises(scope, k, a, b, verify)
    ensures a <= end <= n && scope.inForce(k, a, b) == (a as int, end as int)
    ensures Genuine(ReplyAt(scope, k, a, b), record, bpp, a, end)
  {
    if verify {
      assert scope.readback(k, a, b).Some? && scope.readback(k, a, b).value == scope.inForce(k, a, b);
    }
    end := scope.inForce(k, a, b).1;
    assert Genuine(scope.block(k, a, end), record, bpp, a, end);
  }

  lemma PassKeepsExact(scope: Scope, st: Loop, record: seq<Byte>, n: nat, bpp: Width, verify: bool)
    requires Exact(st, record, n, bpp) && Truthful(scope, record, n, bpp) && Trusted(scope, st, n, verify)
    ensures match Pass(scope, st, n, bpp, verify)
      case Again(st') => Exact(st', record, n, bpp)
      case Done(Raised(_)) => true
      case Done(Finished(payload, _)) => payload == record[..Bytes(st.start - 1, bpp)]
  {
    var k, a, b := |st.log|, st.start, Stop(st, n);
    if st.start <= n && !Raises(scope, k, a, b, verify) {
      var end := ReplyIsGenuine(scope, k, a, b, record, n, bpp, verify);
      AbsorbKeepsExact(st, ReplyAt(scope, k, a, b), record, n, bpp, end);
    }
  }

  /** Exact prefix or an exception, whatever the sizes of the transfers, if no window's
      start is moved; with `verify`, for an instrument that alters windows as it likes. */
  lemma {:induction false} ReadsExactPrefix(scope: Scope, st: Loop, record: seq<Byte>, n: nat, bpp: Width, verify: bool)
    requires Exact(st, record, n, bpp)
    requires Truthful(scope, record, n, bpp) && (verify || KeepsStart(scope, n))
    ensures var r := Run(scope, st, n, bpp, verify);
      r.Finished? ==> r.payload <= record && |r.payload| == Bytes(Points(|r.payload|, bpp), bpp)
    decreases n + 1 - st.start, EMPTY_CHUNK_RETRIES + 1 - st.emptyTries
  {
    PassKeepsExact(scope, st, record, n, bpp, verify);
    match Pass(scope, st, n, bpp, verify)
    case Done(_) =>
    case Again(st') => ReadsExactPrefix(scope, st', record, n, bpp, verify);
  }

  /** What is left to do once the bytes are an exact prefix. */
  lemma PrefixGivesCodes(r: Read, codes: seq<nat>, bpp: Width)
    requires InRange(codes, bpp) && r.Finished? && r.payload <= Memory(codes, bpp)
    requires |r.payload| == Bytes(Points(|r.payload|, bpp), bpp) && Points(|r.payload|, bpp) >= |codes|
    ensures r.payload[..Bytes(Points(|r.payload|, bpp), bpp)] == Memory(codes, bpp)
    ensures Codes(Memory(codes, bpp), bpp) == codes
  {
    CodesOfMemory(codes, bpp);
  }

  /** The whole stack: the codes in the instrument's memory, or an error. */
  lemma ChannelIsExactOrError(scope: Scope, fmt: string, stopped: bool, codes: seq<nat>, calibrated: bool, verify: bool)
    requires Supported(fmt) && InRange(codes, BytesPerPoint(fmt))
    requires Truthful(scope, Memory(codes, BytesPerPoint(fmt)), |codes|, BytesPerPoint(fmt))
    requires verify || KeepsStart(scope, |codes|)
    ensures var r := ChannelCodes(scope, fmt, stopped, Some(|codes|), calibrated, verify);
      r.Err? || r == Ok(codes)
  {
    var bpp := BytesPerPoint(fmt);
    ReadsExactPrefix(scope, Init(|codes|), Memory(codes, bpp), |codes|, bpp, verify);
    var r := Run(scope, Init(|codes|), |codes|, bpp, verify);
    if r.Finished? && Points(|r.payload|, bpp) >= |codes| {
      PrefixGivesCodes(r, codes, bpp);
    }
  }

  // ---- liveness ----------------------------------------------------------------

  /** A request for points a..b goes through: it reads back as asked if that is checked,
      and otherwise puts in force a window that starts where it should. */
  predicate SteadyAt(scope: Scope, k: nat, a: nat, b: nat, n: nat, verify: bool) {
    if verify then scope.readback(k, a, b) == Some((a as int, b as int)) else Kept(scope.inForce(k, a, b), a, n)
  }

  ghost predicate Steady(scope: Scope, n: nat, verify: bool) {
    forall k: nat, a: nat, b: nat | 1 <= a <= b <= n :: SteadyAt(scope, k, a, b, n, verify)
  }

  predicate Productive(scope: Scope, k: nat, a: nat, b: nat, bpp: Width) {
    var reply := ReplyAt(scope, k, a, b);
    reply.Block? && Points(GotBytes(reply), bpp) > 0
  }

  /** Of four consecutive requests for these points, at least one yields a point. */
  ghost predicate Revives(scope: Scope, k: nat, a: nat, b: nat, bpp: Width) {
    exists j: nat :: k <= j <= k + EMPTY_CHUNK_RETRIES && Productive(scope, j, a, b, bpp)
  }

  /** No request fails, and none stays empty for four requests running. */
  ghost predicate Lively(scope: Scope, n: nat, bpp: Width) {
    forall k: nat, a: nat, b: nat | 1 <= a <= b <= n :: ReplyAt(scope, k, a, b).Block? && Revives(scope, k, a, b, bpp)
  }

  /** The retries already spent on the current window were spent on empty replies. */
  ghost predicate Spent(scope: Scope, st: Loop, n: nat, bpp: Width) {
    && st.emptyTries <= |st.log|
    && (st.start <= n && st.window > 0 ==>
          forall j: nat | |st.log| - st.emptyTries <= j < |st.log| :: !Productive(scope, j, st.start, Stop(st, n), bpp))
  }

  /** A window whose retries were all spent is not asked for again. */
  lemma SpentKept(scope: Scope, st: Loop, n: nat, bpp: Width, reply: Reply) returns (st': Loop)
    requires Sane(st, n) && st.start <= n && Spent(scope, st, n, bpp)
    requires reply == ReplyAt(scope, |st.log|, st.start, Stop(st, n)) && reply.Block?
    requires Revives(scope, |st.log| - st.emptyTries, st.start, Stop(st, n), bpp)
    ensures st' == Absorb(st, n, bpp, reply) && st'.emptyTries <= EMPTY_CHUNK_RETRIES && Spent(scope, st', n, bpp)
  {
    var k: nat, a: nat, b: nat := |st.log|, st.start, Stop(st, n);
    st' := Absorb(st, n, bpp, reply);
    if !Productive(scope, k, a, b, bpp) {
      var from: nat := k - st.emptyTries;
      var j: nat :| from <= j <= from + EMPTY_CHUNK_RETRIES && Productive(scope, j, a, b, bpp);
      assert j > k;
    }
  }

  lemma LivelyPass(scope: Scope, st: Loop, record: seq<Byte>, n: nat, bpp: Width, verify: bool) returns (st': Loop)
    requires Exact(st, record, n, bpp) && Spent(scope, st, n, bpp) && st.start <= n
    requires Truthful(scope, record, n, bpp) && Steady(scope, n, verify) && Lively(scope, n, bpp)
    ensures Pass(scope, st, n, bpp, verify) == Again(st') && Exact(st', record, n, bpp) && Spent(scope, st', n, bpp)
  {
    var k: nat, a: nat, b: nat := |st.log|, st.start, Stop(st, n);
    var reply := ReplyAt(scope, k, a, b);
    assert SteadyAt(scope, k, a, b, n, verify);
    assert reply.Block? && Revives(scope, k - st.emptyTries, a, b, bpp) by {
      assert ReplyAt(scope, k - st.emptyTries, a, b).Block?;
    }
    var end := ReplyIsGenuine(scope, k, a, b, record, n, bpp, verify);
    AbsorbKeepsExact(st, reply, record, n, bpp, end);
    st' := SpentKept(scope, st, n, bpp, reply);
  }

  lemma {:induction false} LivelyReadsEverything(scope: Scope, st: Loop, record: seq<Byte>, n: nat, bpp: Width,
                                                 verify: bool)
    requires Exact(st, record, n, bpp) && Spent(scope, st, n, bpp)
    requires Truthful(scope, record, n, bpp) && Steady(scope, n, verify) && Lively(scope, n, bpp)
    ensures var r := Run(scope, st, n, bpp, verify); r.Finished? && r.payload == record
    decreases n + 1 - st.start, EMPTY_CHUNK_RETRIES + 1 - st.emptyTries
  {
    if st.start > n {
      assert record[..|record|] == record;
    } else {
      var st' := LivelyPass(scope, st, record, n, bpp, verify);
      LivelyReadsEverything(scope, st', record, n, bpp, verify);
    }
  }

  lemma CompleteGivesCodes(scope: Scope, fmt: string, codes: seq<nat>, verify: bool, r: Read)
    requires Supported(fmt) && InRange(codes, BytesPerPoint(fmt)) && codes != []
    requires r == Run(scope, Init(|codes|), |codes|, BytesPerPoint(fmt), verify)
    requires r.Finished? && r.payload == Memory(codes, BytesPerPoint(fmt))
    ensures ChannelCodes(scope, fmt, true, Some(|codes|), true, verify) == Ok(codes)
  {
    CodesOfMemory(codes, BytesPerPoint(fmt));
    assert r.payload[..|r.payload|] == r.payload;
  }

  /** A truthful, steady and lively instrument: the record is read in full. */
  lemma LivelyChannelSucceeds(scope: Scope, fmt: string, codes: seq<nat>, verify: bool)
    requires Supported(fmt)
    requires InRange(codes, BytesPerPoint(fmt)) && codes != []
    requires Truthful(scope, Memory(codes, BytesPerPoint(fmt)), |codes|, BytesPerPoint(fmt))
    requires Steady(scope, |codes|, verify) && Lively(scope, |codes|, BytesPerPoint(fmt))
    ensures ChannelCodes(scope, fmt, true, Some(|codes|), true, verify) == Ok(codes)
  {
    var bpp := BytesPerPoint(fmt);
    LivelyReadsEverything(scope, Init(|codes|), Memory(codes, bpp), |codes|, bpp, verify);
    CompleteGivesCodes(scope, fmt, codes, verify, Run(scope, Init(|codes|), |codes|, bpp, verify));
  }

  // ---- composition with the socket --------------------------------------------

  /** What one DATA? request puts on the wire: a block with the first `size` bytes of the
      window, behind leftovers that cannot pass for data; `received` is what has come
      through of it before the receiver stops listening. */
  ghost predicate Transmission(received: seq<Byte>, window: seq<Byte>, noise: seq<Byte>, size: nat, width: nat,
                               terminator: Byte) {
    && !Harmful(noise) && size <= |window| && Encodable(size, width)
    && received <= noise + TmcBlock.Encode(window[..size], width, terminator)
  }

  /** A block received from a truthful transmission carries the window's bytes,
      under every chunking, fault, idle period and deadline. */
  lemma WireReplyIsGenuine(events: seq<TmcBlock.Event>, record: seq<Byte>, bpp: Width, a: nat, b: nat,
                           noise: seq<Byte>, size: nat, width: nat, terminator: Byte)
    requires 1 <= a <= b && Bytes(b, bpp) <= |record|
    requires Transmission(TmcBlock.Received(events), record[Bytes(a - 1, bpp)..Bytes(b, bpp)], noise, size, width,
        terminator)
    ensures Genuine(BlockReply(TmcBlock.Outcome([], events)), record, bpp, a, b)
  {
    var window := record[Bytes(a - 1, bpp)..Bytes(b, bpp)];
    if TmcBlock.Outcome([], events).Ok? {
      var received := TmcBlock.Received(events);
      assert [] + received == received;
      TmcBlock.NeverWrong([], events);
      HarmlessIsSafe(received, noise, window[..size], width, terminator);
    }
  }

  ghost predicate Transmits(received: seq<Byte>, window: seq<Byte>) {
    exists noise: seq<Byte>, size: nat, width: nat, terminator: Byte ::
        Transmission(received, window, noise, size, width, terminator)
  }

  /** A scope behind a socket whose transmissions are truthful. */
  ghost predicate TruthfulWire(scope: Scope, events: (nat, int, int) -> seq<TmcBlock.Event>, record: seq<Byte>, n: nat,
                               bpp: Width) {
    && scope.block == Blocks(Wire(events)) && |record| == Bytes(n, bpp)
    && (forall k: nat, a: int, b: int ::
          scope.readback(k, a, b).Some? ==> scope.readback(k, a, b).value == scope.inForce(k, a, b))
    && (forall k: nat, a: nat, b: nat | 1 <= a <= b <= n ::
          Transmits(TmcBlock.Received(events(k, a, b)), record[Bytes(a - 1, bpp)..Bytes(b, bpp)]))
  }

  lemma WireIsTruthful(scope: Scope, events: (nat, int, int) -> seq<TmcBlock.Event>, record: seq<Byte>, n: nat,
                       bpp: Width)
    requires TruthfulWire(scope, events, record, n, bpp)
    ensures Truthful(scope, record, n, bpp)
  {
    forall k: nat, a: nat, b: nat | 1 <= a <= b <= n
      ensures Genuine(scope.block(k, a, b), record, bpp, a, b)
    {
      var received := events(k, a, b);
      assert Transmits(TmcBlock.Received(received), record[Bytes(a - 1, bpp)..Bytes(b, bpp)]);
      var noise: seq<Byte>, size: nat, width: nat, terminator: Byte :|
        Transmission(TmcBlock.Received(received), record[Bytes(a - 1, bpp)..Bytes(b, bpp)], noise, size, width,
            terminator);
      WireReplyIsGenuine(received, record, bpp, a, b, noise, size, width, terminator);
    }
  }

  /** End to end: from the instrument's memory through blocks, chunks and batches
      to the returned codes, nothing but the exact record is ever a success. */
  lemma EndToEndExactness(scope: Scope, events: (nat, int, int) -> seq<TmcBlock.Event>, fmt: string, stopped: bool,
                          codes: seq<nat>, calibrated: bool, verify: bool)
    requires Supported(fmt)
    requires InRange(codes, BytesPerPoint(fmt))
    requires TruthfulWire(scope, events, Memory(codes, BytesPerPoint(fmt)), |codes|, BytesPerPoint(fmt))
    requires verify || KeepsStart(scope, |codes|)
    ensures var r := ChannelCodes(scope, fmt, stopped, Some(|codes|), calibrated, verify);
      r.Err? || r == Ok(codes)
  {
    WireIsTruthful(scope, events, Memory(codes, BytesPerPoint(fmt)), |codes|, BytesPerPoint(fmt));
    ChannelIsExactOrError(scope, fmt, stopped, codes, calibrated, verify);
  }

  /** The whole block for at least one point arrives, in any pieces, before the
      receiver's idle and overall limits. */
  ghost predicate Delivery(events: seq<TmcBlock.Event>, window: seq<Byte>, bpp: Width, noise: seq<Byte>, size: nat,
                           width: nat, terminator: Byte) {
    && TmcBlock.Patient([], events)
    && TmcBlock.HASH !in noise && bpp <= size <= |window| && 1 <= width <= 9 && size < TmcBlock.Power10(width)
    && (terminator == TmcBlock.LF || terminator == TmcBlock.CR)
    && TmcBlock.Received(events) == noise + TmcBlock.Encode(window[..size], width, terminator)
  }

  ghost predicate Delivers(events: seq<TmcBlock.Event>, window: seq<Byte>, bpp: Width) {
    exists noise: seq<Byte>, size: nat, width: nat, terminator: Byte ::
        Delivery(events, window, bpp, noise, size, width, terminator)
  }

  lemma DeliveryIsRead(events: seq<TmcBlock.Event>, window: seq<Byte>, bpp: Width, noise: seq<Byte>, size: nat,
                       width: nat, terminator: Byte)
    requires Delivery(events, window, bpp, noise, size, width, terminator)
    ensures BlockReply(TmcBlock.Outcome([], events)) == Block(window[..size], size)
  {
    var data, received := window[..size], TmcBlock.Received(events);
    var block := TmcBlock.Encode(data, width, terminator);
    assert received + [] == received && [] + received == received;
    TmcBlock.DecodeEncode(noise, data, width, terminator, []);
    TmcBlock.AcceptedIsComplete(TmcBlock.FromMarker(received));
    TmcBlock.ChunkingIrrelevant([], events);
    BlockReplyOfEncode(data, width, terminator);
  }

  ghost predicate DeliveringWire(scope: Scope, events: (nat, int, int) -> seq<TmcBlock.Event>, record: seq<Byte>,
                                 n: nat, bpp: Width, verify: bool) {
    && scope.block == Blocks(Wire(events)) && |record| == Bytes(n, bpp) && Steady(scope, n, verify)
    && (forall k: nat, a: int, b: int ::
          scope.readback(k, a, b).Some? ==> scope.readback(k, a, b).value == scope.inForce(k, a, b))
    && (forall k: nat, a: nat, b: nat | 1 <= a <= b <= n ::
        Delivers(events(k, a, b), record[Bytes(a - 1, bpp)..Bytes(b, bpp)], bpp))
  }

  lemma DeliveredBlock(scope: Scope, events: (nat, int, int) -> seq<TmcBlock.Event>, record: seq<Byte>, n: nat,
                       bpp: Width, verify: bool, k: nat, a: nat, b: nat)
    requires DeliveringWire(scope, events, record, n, bpp, verify) && 1 <= a <= b <= n
    ensures Genuine(scope.block(k, a, b), record, bpp, a, b)
    ensures scope.block(k, a, b).Block? && Points(GotBytes(scope.block(k, a, b)), bpp) > 0
  {
    var window := record[Bytes(a - 1, bpp)..Bytes(b, bpp)];
    assert Delivers(events(k, a, b), window, bpp);
    var noise: seq<Byte>, size: nat, width: nat, terminator: Byte :|
        Delivery(events(k, a, b), window, bpp, noise, size, width, terminator);
    DeliveryIsRead(events(k, a, b), window, bpp, noise, size, width, terminator);
    assert scope.block(k, a, b) == Block(window[..size], size);
    assert window[..size][..size] == window[..size];
  }

  lemma DeliveringWireIsLively(scope: Scope, events: (nat, int, int) -> seq<TmcBlock.Event>, record: seq<Byte>, n: nat,
                               bpp: Width, verify: bool)
    requires DeliveringWire(scope, events, record, n, bpp, verify)
    ensures Truthful(scope, record, n, bpp) && Lively(scope, n, bpp)
  {
    forall k: nat, a: nat, b: nat | 1 <= a <= b <= n ensures Genuine(scope.block(k, a, b), record, bpp, a, b) {
      DeliveredBlock(scope, events, record, n, bpp, verify, k, a, b);
    }
    forall k: nat, a: nat, b: nat | 1 <= a <= b <= n
      ensures ReplyAt(scope, k, a, b).Block? && Productive(scope, k, a, b, bpp) && Revives(scope, k, a, b, bpp)
    {
      assert SteadyAt(scope, k, a, b, n, verify);
      DeliveredBlock(scope, events, record, n, bpp, verify, k, a, scope.inForce(k, a, b).1);
      assert Productive(scope, k, a, b, bpp);
    }
  }

  /** End to end, the other half: if every block arrives, the read succeeds with the codes
      in memory, whatever the transfer sizes and chunk boundaries, and whatever happens to
      the ends of the windows if they are not read back. */
  lemma EndToEndSuccess(scope: Scope, events: (nat, int, int) -> seq<TmcBlock.Event>, fmt: string, codes: seq<nat>,
                        verify: bool)
    requires Supported(fmt)
    requires InRange(codes, BytesPerPoint(fmt)) && codes != []
    requires DeliveringWire(scope, events, Memory(codes, BytesPerPoint(fmt)), |codes|, BytesPerPoint(fmt), verify)
    ensures ChannelCodes(scope, fmt, true, Some(|codes|), true, verify) == Ok(codes)
  {
    DeliveringWireIsLively(scope, events, Memory(codes, BytesPerPoint(fmt)), |codes|, BytesPerPoint(fmt), verify);
    LivelyChannelSucceeds(scope, fmt, codes, verify);
  }
}
