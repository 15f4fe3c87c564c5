/** The batched memory read of the Rigol DHO800 driver, on top of block reads that
    are either scripted or assembled from a TCP stream. */
module RigolRead {
  import opened Common
  import TmcBlock

  const EMPTY_CHUNK_RETRIES: nat := 3

  /** Bytes per point: 1 for BYTE, 2 for WORD. */
  type Width = w: nat | w == 1 || w == 2 witness 1

  function Bytes(points: nat, bpp: Width): nat { if bpp == 1 then points else 2 * points }

  /** `bytes // bytes_per_point`. */
  function Points(bytes: nat, bpp: Width): (n: nat)
    ensures Bytes(n, bpp) <= bytes < Bytes(n + 1, bpp)
  {
    if bpp == 1 then bytes else bytes / 2
  }

  // ---- the instrument ----------------------------------------------------------

  /** `_read_block`: it raises, or returns a payload and the length declared for it. */
  datatype Reply = Refused | Block(payload: seq<Byte>, declared: nat)

  /** A scope for one record read. For request `k` asking for points `a..b`: the
      window the firmware puts in force, what STARt? and STOP? answer (None: a
      reply that is not a number), and the block read with window `a..b` in force. */
  datatype Scope = Scope(
    inForce: (nat, int, int) -> (int, int),
    readback: (nat, int, int) -> Option<(int, int)>,
    block: (nat, int, int) -> Reply)

  /** Where blocks come from: any function of the request number and the window in
      force, or the events of the socket while that request is answered. */
  datatype DataPath =
    | Scripted(block: (nat, int, int) -> Reply)
    | Wire(events: (nat, int, int) -> seq<TmcBlock.Event>)

  /** `_read_block` applied to the answer of `command`. */
  function BlockReply(answer: TmcBlock.Answer): Reply {
    match answer
    case Err(_) => Refused
    case Ok(resp) =>
      if !TmcBlock.AtMarker(resp) then Refused
      else
        var declared := TmcBlock.DataBytes(resp);
        match TmcBlock.HeaderBytes(resp)
        case None => Refused
        case Some(h) =>
          if declared <= 0 then Refused
          else Block(resp[TmcBlock.Min(h, |resp|)..TmcBlock.Min(h + declared, |resp|)], declared)
  }

  function Blocks(path: DataPath): (nat, int, int) -> Reply {
    match path
    case Scripted(block) => block
    case Wire(events) => (k: nat, a: int, b: int) => BlockReply(TmcBlock.Outcome([], events(k, a, b)))
  }

  function GotBytes(reply: Reply): nat
    requires reply.Block?
  {
    TmcBlock.Min(|reply.payload|, reply.declared)
  }

  // ---- the loop as a function --------------------------------------------------

  /** One DATA? request: the window asked for and the whole points it yielded. */
  datatype Request = Request(start: nat, stop: nat, points: nat)

  datatype Loop = Loop(start: nat, window: nat, first: bool, emptyTries: nat, got: seq<Byte>, log: seq<Request>)

  datatype Read = Finished(payload: seq<Byte>, log: seq<Request>) | Raised(log: seq<Request>)

  function Init(nTotal: nat): Loop { Loop(1, nTotal, true, 0, [], []) }

  predicate Sane(st: Loop, nTotal: nat) {
    st.start >= 1 && (st.start <= nTotal ==> st.window >= 1) && st.emptyTries <= EMPTY_CHUNK_RETRIES
  }

  function Stop(st: Loop, nTotal: nat): int { TmcBlock.Min(st.start + st.window - 1, nTotal) }

  /** The reply to request `k` for points `start..stop`, from the window then in force. */
  function ReplyAt(scope: Scope, k: nat, start: int, stop: int): Reply {
    var window := scope.inForce(k, start, stop);
    scope.block(k, window.0, window.1)
  }

  /** The request just made raised: the read-back differs, is no number, or no block came. */
  predicate Raises(scope: Scope, k: nat, start: int, stop: int, verify: bool) {
    (verify && scope.readback(k, start, stop) != Some((start, stop))) || ReplyAt(scope, k, start, stop).Refused?
  }

  /** What the loop makes of one reply. */
  function Absorb(st: Loop, nTotal: nat, bpp: Width, reply: Reply): Loop
    requires Sane(st, nTotal) && st.start <= nTotal && reply.Block?
  {
    var points := Points(GotBytes(reply), bpp);
    var log := st.log + [Request(st.start, Stop(st, nTotal), points)];
    if points <= 0 then st.(emptyTries := st.emptyTries + 1, log := log)
    else Loop(st.start + points, if st.first && points < nTotal then points else st.window, false, 0,
              st.got + reply.payload[..Bytes(points, bpp)], log)
  }

  datatype Turn = Done(read: Read) | Again(st: Loop)

  /** One pass of the loop. */
  function Pass(scope: Scope, st: Loop, nTotal: nat, bpp: Width, verify: bool): (t: Turn)
    requires Sane(st, nTotal)
    ensures t.Again? ==>
      && Sane(t.st, nTotal) && st.start <= nTotal && st.start <= t.st.start
      && (st.start < t.st.start || (st.start == t.st.start && st.emptyTries < t.st.emptyTries))
  {
    var k, stop := |st.log|, Stop(st, nTotal);
    if st.start > nTotal then Done(Finished(st.got, st.log))
    else if Raises(scope, k, st.start, stop, verify) then Done(Raised(st.log))
    else
      var st' := Absorb(st, nTotal, bpp, ReplyAt(scope, k, st.start, stop));
      if st'.emptyTries > EMPTY_CHUNK_RETRIES then Done(Finished(st'.got, st'.log)) else Again(st')
  }

  function Run(scope: Scope, st: Loop, nTotal: nat, bpp: Width, verify: bool): Read
    requires Sane(st, nTotal)
    decreases nTotal + 1 - st.start, EMPTY_CHUNK_RETRIES + 1 - st.emptyTries
  {
    match Pass(scope, st, nTotal, bpp, verify)
    case Done(read) => read
    case Again(st') => Run(scope, st', nTotal, bpp, verify)
  }

  // ---- from bytes to codes -----------------------------------------------------

  /** Python's white space. */
  predicate IsSpace(c: char) {
    var u := c as int;
    9 <= u <= 13 || 28 <= u <= 32 || u == 0x85 || u == 0xA0 || u == 0x1680 || 0x2000 <= u <= 0x200A
    || u == 0x2028 || u == 0x2029 || u == 0x202F || u == 0x205F || u == 0x3000
  }

  function Strip(s: string): string {
    if s != [] && IsSpace(s[0]) then Strip(s[1..])
    else if s != [] && IsSpace(s[|s| - 1]) then Strip(s[..|s| - 1])
    else s
  }

  /** Upper case, as far as it matters here: no other character becomes a letter of
      WORD or BYTE. */
  function Upper(s: string): (u: string)
    ensures |u| == |s|
  {
    seq(|s|, i requires 0 <= i < |s| => if 'a' <= s[i] <= 'z' then (s[i] as int - 32) as char else s[i])
  }

  /** `str(fmt).strip().upper()`. */
  function FormatName(fmt: string): string { Upper(Strip(fmt)) }

  predicate Supported(fmt: string) { FormatName(fmt) == "WORD" || FormatName(fmt) == "BYTE" }

  function BytesPerPoint(fmt: string): Width { if FormatName(fmt) == "WORD" then 2 else 1 }

  lemma ByteFormat()
    ensures FormatName("BYTE") == "BYTE"
  {}

  datatype Failure =
    | UnsupportedFormat | NotStopped | BadMemoryDepth | NoCalibration | ReadFailed | NoSamples | Incomplete

  /** `frombuffer` with uint8 or little-endian uint16. */
  function Codes(bytes: seq<Byte>, bpp: Width): seq<nat>
    requires |bytes| == Bytes(Points(|bytes|, bpp), bpp)
  {
    seq(Points(|bytes|, bpp), i requires 0 <= i < Points(|bytes|, bpp) =>
      if bpp == 1 then bytes[i] as int else bytes[2 * i] as int + 256 * (bytes[2 * i + 1] as int))
  }

  predicate InRange(codes: seq<nat>, bpp: Width) {
    forall i | 0 <= i < |codes| :: codes[i] < if bpp == 1 then 256 else 65536
  }

  /** The bytes an instrument holds for `codes`. */
  function Memory(codes: seq<nat>, bpp: Width): seq<Byte>
    requires InRange(codes, bpp)
  {
    seq(Bytes(|codes|, bpp), i requires 0 <= i < Bytes(|codes|, bpp) =>
      if bpp == 1 then codes[i] else if i % 2 == 0 then codes[i / 2] % 256 else codes[i / 2] / 256)
  }

  lemma CodesOfMemory(codes: seq<nat>, bpp: Width)
    requires InRange(codes, bpp)
    ensures |Memory(codes, bpp)| == Bytes(|codes|, bpp) && Points(|Memory(codes, bpp)|, bpp) == |codes|
    ensures Codes(Memory(codes, bpp), bpp) == codes
  {
    var m := Memory(codes, bpp);
    forall i | 0 <= i < |codes| ensures Codes(m, bpp)[i] == codes[i] {
      if bpp == 2 {
        assert m[2 * i] == codes[i] % 256 && m[2 * i + 1] == codes[i] / 256;
      }
    }
  }

  function ChannelCodes(scope: Scope, fmt: string, stopped: bool, depth: Option<int>, calibrated: bool, verify: bool)
    : Result<seq<nat>, Failure>
  {
    if !Supported(fmt) then Err(UnsupportedFormat)
    else if !stopped then Err(NotStopped)
    else if depth.None? || depth.value <= 0 then Err(BadMemoryDepth)
    else if !calibrated then Err(NoCalibration)
    else
      var bpp := BytesPerPoint(fmt);
      match Run(scope, Init(depth.value), depth.value, bpp, verify)
      case Raised(_) => Err(ReadFailed)
      case Finished(payload, _) =>
        var n := Points(|payload|, bpp);
        if n <= 0 then Err(NoSamples)
        else if n < depth.value then Err(Incomplete)
        else Ok(Codes(payload[..Bytes(n, bpp)], bpp))
  }

  // ---- from codes to volts and seconds ---------------------------------------------

  /** The answers to the six calibration queries. */
  datatype Calibration = Calibration(
    xIncrement: real, xOrigin: real, xReference: real, yIncrement: real, yOrigin: real, yReference: real)

  datatype Waveform = Waveform(raw: seq<nat>, voltage: seq<real>, time: seq<real>)

  function Voltage(code: nat, c: Calibration): real { (code as real - c.yOrigin - c.yReference) * c.yIncrement }

  function Time(i: nat, c: Calibration): real { c.xOrigin + (i as real - c.xReference) * c.xIncrement }

  function Convert(codes: seq<nat>, c: Calibration): (w: Waveform)
    ensures w.raw == codes && |w.voltage| == |w.time| == |codes|
  {
    Waveform(codes,
             seq(|codes|, i requires 0 <= i < |codes| => Voltage(codes[i], c)),
             seq(|codes|, i requires 0 <= i < |codes| => Time(i, c)))
  }

  lemma NoZeroProduct(a: real, b: real)
    requires b != 0.0
    ensures a * b == 0.0 <==> a == 0.0
  {
    if a * b == 0.0 { assert a == a * b / b == 0.0; }
  }

  lemma Distributes(a: real, b: real, zero: real, step: real)
    ensures (a - zero) * step - (b - zero) * step == (a - b) * step
  {}

  /** A sample is at 0 V exactly when its code is yOrigin + yReference, a code higher by d
      is d yIncrements higher, and so equal voltages mean equal codes.  Sample i is at
      xOrigin when i is xReference, and the times are xIncrement apart. */
  lemma ConversionIsFaithful(codes: seq<nat>, c: Calibration, i: nat, j: nat)
    requires c.yIncrement != 0.0 && i < |codes| && j < |codes|
    ensures var w := Convert(codes, c);
      && (w.voltage[i] == 0.0 <==> codes[i] as real == c.yOrigin + c.yReference)
      && w.voltage[j] - w.voltage[i] == (codes[j] as real - codes[i] as real) * c.yIncrement
      && (w.voltage[i] == w.voltage[j] <==> codes[i] == codes[j])
      && (i as real == c.xReference ==> w.time[i] == c.xOrigin)
      && w.time[j] - w.time[i] == (j as real - i as real) * c.xIncrement
  {
    NoZeroProduct(codes[i] as real - c.yOrigin - c.yReference, c.yIncrement);
    NoZeroProduct(codes[j] as real - codes[i] as real, c.yIncrement);
    Distributes(codes[j] as real, codes[i] as real, c.yOrigin + c.yReference, c.yIncrement);
    Distributes(j as real, i as real, c.xReference, c.xIncrement);
  }

  // ---- the driver --------------------------------------------------------------

  class RigolDHO800 {
    const inForce: (nat, int, int) -> (int, int)
    const readback: (nat, int, int) -> Option<(int, int)>
    const path: DataPath
    const scope := Scope(inForce, readback, Blocks(path))
    /** DATA? requests of the current record read. */
    var log: seq<Request>

    constructor (inForce: (nat, int, int) -> (int, int), readback: (nat, int, int) -> Option<(int, int)>,
                 path: DataPath)
      ensures scope == Scope(inForce, readback, Blocks(path)) && log == []
    {
      this.inForce, this.readback, this.path, log := inForce, readback, path, [];
    }

    /** `_read_block(':WAVeform:DATA?')` for request `k` with window `a..b` in force. */
    method ReadBlock(k: nat, a: int, b: int) returns (reply: Reply)
      ensures reply == scope.block(k, a, b)
    {
      match path
      case Scripted(block) => reply := block(k, a, b);
      case Wire(events) =>
        var answer := TmcBlock.Receive(events(k, a, b));
        reply := BlockReply(answer);
    }

    /** `_read_full_waveform`. */
    method ReadFullWaveform(nTotal: nat, bpp: Width, verifyWindow: bool) returns (r: Read)
      modifies this
      ensures r == Run(scope, Init(nTotal), nTotal, bpp, verifyWindow) && log == r.log
    {
      var chunks: seq<seq<Byte>> := [];
      var start: nat, window: nat, first, emptyTries: nat := 1, nTotal, true, 0;
      log := [];
      ghost var st := Init(nTotal);
      ghost var sc := scope;
      while start <= nTotal
        invariant Sane(st, nTotal)
        invariant st.start == start && st.window == window && st.first == first && st.emptyTries == emptyTries
        invariant st.log == log && st.got == Flatten(chunks)
        invariant sc == scope
        invariant Run(sc, Init(nTotal), nTotal, bpp, verifyWindow) == Run(sc, st, nTotal, bpp, verifyWindow)
        decreases nTotal + 1 - start, EMPTY_CHUNK_RETRIES + 1 - emptyTries
      {
        var k, stop := |log|, TmcBlock.Min(start + window - 1, nTotal);
        if verifyWindow {
          var got := readback(k, start, stop);
          if got != Some((start, stop)) {
            return Raised(log);
          }
        }
        var forced := inForce(k, start, stop);
        var reply := ReadBlock(k, forced.0, forced.1);
        if reply.Refused? {
          return Raised(log);
        }
        st := Absorb(st, nTotal, bpp, reply);
        var gotBytes := TmcBlock.Min(|reply.payload|, reply.declared);
        var pointsGot := Points(gotBytes, bpp);
        log := log + [Request(start, stop, pointsGot)];
        if pointsGot <= 0 {
          emptyTries := emptyTries + 1;
          if emptyTries > EMPTY_CHUNK_RETRIES {
            break;
          }
          continue;
        }
        emptyTries := 0;
        FlattenSnoc(chunks, reply.payload[..Bytes(pointsGot, bpp)]);
        chunks := chunks + [reply.payload[..Bytes(pointsGot, bpp)]];
        if first && pointsGot < nTotal {
          window := pointsGot;
        }
        first := false;
        start := start + pointsGot;
      }
      r := Finished(Flatten(chunks), log);
    }

    /** `read_channel`. `stopped`, `depth` and `calibration` are the outcomes of the
        state, memory-depth and calibration queries. */
    method ReadChannel(fmt: string, stopped: bool, depth: Option<int>, calibration: Option<Calibration>,
                       verifyWindow: bool)
      returns (r: Result<Waveform, Failure>)
      modifies this
      ensures match ChannelCodes(scope, fmt, stopped, depth, calibration.Some?, verifyWindow)
        case Err(e) => r == Err(e)
        case Ok(codes) => calibration.Some? && r == Ok(Convert(codes, calibration.value))
    {
      if !Supported(fmt) { return Err(UnsupportedFormat); }
      var bpp := BytesPerPoint(fmt);
      if !stopped { return Err(NotStopped); }
      if depth.None? || depth.value <= 0 { return Err(BadMemoryDepth); }
      if calibration.None? { return Err(NoCalibration); }
      var read := ReadFullWaveform(depth.value, bpp, verifyWindow);
      if read.Raised? { return Err(ReadFailed); }
      var n := Points(|read.payload|, bpp);
      if n <= 0 { return Err(NoSamples); }
      if n < depth.value { return Err(Incomplete); }
      r := Ok(Convert(Codes(read.payload[..Bytes(n, bpp)], bpp), calibration.value));
    }
  }
}
