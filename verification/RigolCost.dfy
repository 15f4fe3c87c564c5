/** Shape and cost of the batched read for any instrument whatever, and the runs
    that show which environment assumptions exactness needs. */
module RigolCost {
  import opened Common
  import opened RigolRead
  import opened RigolExactness

  // ---- windows tile the record -------------------------------------------------

  /** First point not yet read after these requests. */
  function Next(log: seq<Request>): nat {
    if log == [] then 1 else log[|log| - 1].start + log[|log| - 1].points
  }

  /** Consecutive requests: each starts where the points so far end, inside the record. */
  predicate Tiles(log: seq<Request>, n: nat) {
    log == [] ||
    var before, last := log[..|log| - 1], log[|log| - 1];
    last.start == Next(before) && 1 <= last.start <= last.stop <= n && Tiles(before, n)
  }

  /** Request by request: each starts right behind the points of the one before. */
  lemma {:induction false} TilesPointwise(log: seq<Request>, n: nat, i: nat)
    requires Tiles(log, n) && i < |log|
    ensures 1 <= log[i].start <= log[i].stop <= n
    ensures log[i].start == if i == 0 then 1 else log[i - 1].start + log[i - 1].points
  {
    if i < |log| - 1 { TilesPointwise(log[..|log| - 1], n, i); }
  }

  lemma TilesGrow(log: seq<Request>, last: Request, n: nat)
    requires Tiles(log, n) && last.start == Next(log) && 1 <= last.start <= last.stop <= n
    ensures Tiles(log + [last], n) && Next(log + [last]) == last.start + last.points
  {
    assert (log + [last])[..|log|] == log;
  }

  predicate Tiled(st: Loop, n: nat, bpp: Width) {
    Tiles(st.log, n) && Next(st.log) == st.start && |st.got| == Bytes(st.start - 1, bpp)
  }

  predicate TiledRead(r: Read, n: nat, bpp: Width) {
    Tiles(r.log, n) && (r.Finished? ==> |r.payload| == Bytes(Next(r.log) - 1, bpp))
  }

  lemma AbsorbTiles(st: Loop, reply: Reply, n: nat, bpp: Width)
    requires Sane(st, n) && Tiled(st, n, bpp) && st.start <= n && reply.Block?
    ensures Tiled(Absorb(st, n, bpp, reply), n, bpp)
  {
    var points := Points(GotBytes(reply), bpp);
    TilesGrow(st.log, Request(st.start, Stop(st, n), points), n);
    assert |reply.payload[..Bytes(points, bpp)]| == Bytes(points, bpp);
  }

  lemma PassTiles(scope: Scope, st: Loop, n: nat, bpp: Width, verify: bool)
    requires Sane(st, n) && Tiled(st, n, bpp)
    ensures match Pass(scope, st, n, bpp, verify)
      case Done(r) => TiledRead(r, n, bpp)
      case Again(st') => Tiled(st', n, bpp)
  {
    var k, a, b := |st.log|, st.start, Stop(st, n);
    if st.start <= n && !Raises(scope, k, a, b, verify) {
      AbsorbTiles(st, ReplyAt(scope, k, a, b), n, bpp);
    }
  }

  lemma {:induction false} RequestsTile(scope: Scope, st: Loop, n: nat, bpp: Width, verify: bool)
    requires Sane(st, n) && Tiled(st, n, bpp)
    ensures TiledRead(Run(scope, st, n, bpp, verify), n, bpp)
    decreases n + 1 - st.start, EMPTY_CHUNK_RETRIES + 1 - st.emptyTries
  {
    PassTiles(scope, st, n, bpp, verify);
    match Pass(scope, st, n, bpp, verify)
    case Done(_) =>
    case Again(st') => RequestsTile(scope, st', n, bpp, verify);
  }

  // ---- cost --------------------------------------------------------------------

  function ProductiveReads(log: seq<Request>): nat {
    if log == [] then 0
    else ProductiveReads(log[..|log| - 1]) + if log[|log| - 1].points > 0 then 1 else 0
  }

  /** Requests so far: at most four per productive read, and the current retries. */
  predicate WithinBudget(log: seq<Request>, retries: nat) {
    |log| <= ProductiveReads(log) * (EMPTY_CHUNK_RETRIES + 1) + retries
  }

  lemma PassWithinBudget(scope: Scope, st: Loop, n: nat, bpp: Width, verify: bool)
    requires Sane(st, n) && WithinBudget(st.log, st.emptyTries)
    ensures match Pass(scope, st, n, bpp, verify)
      case Done(r) => WithinBudget(r.log, EMPTY_CHUNK_RETRIES + 1)
      case Again(st') => WithinBudget(st'.log, st'.emptyTries)
  {
    var k, a, b := |st.log|, st.start, Stop(st, n);
    if st.start <= n && !Raises(scope, k, a, b, verify) {
      var st' := Absorb(st, n, bpp, ReplyAt(scope, k, a, b));
      assert st'.log[..|st'.log| - 1] == st.log;
    }
  }

  lemma {:induction false} RequestBound(scope: Scope, st: Loop, n: nat, bpp: Width, verify: bool)
    requires Sane(st, n) && WithinBudget(st.log, st.emptyTries)
    ensures WithinBudget(Run(scope, st, n, bpp, verify).log, EMPTY_CHUNK_RETRIES + 1)
    decreases n + 1 - st.start, EMPTY_CHUNK_RETRIES + 1 - st.emptyTries
  {
    PassWithinBudget(scope, st, n, bpp, verify);
    match Pass(scope, st, n, bpp, verify)
    case Done(_) =>
    case Again(st') => RequestBound(scope, st', n, bpp, verify);
  }

  /** With `s` productive reads and R retries, at most (s + 1)(R + 1) requests. */
  lemma RequestsAreBounded(scope: Scope, n: nat, bpp: Width, verify: bool)
    ensures var log := Run(scope, Init(n), n, bpp, verify).log;
      |log| <= (ProductiveReads(log) + 1) * (EMPTY_CHUNK_RETRIES + 1)
  {
    RequestBound(scope, Init(n), n, bpp, verify);
  }

  // ---- a constant transfer cap -------------------------------------------------

  /** The instrument puts every requested window in force unchanged. */
  ghost predicate Obedient(scope: Scope) {
    forall k: nat, a: int, b: int :: scope.inForce(k, a, b) == (a, b)
  }

  /** Every request yields the window's points, but never more than `cap`. */
  ghost predicate Capped(scope: Scope, n: nat, bpp: Width, cap: nat) {
    && Obedient(scope)
    && (forall k: nat, a: nat, b: nat | 1 <= a <= b <= n ::
          var reply := scope.block(k, a, b);
          reply.Block? && Points(GotBytes(reply), bpp) == if b - a + 1 < cap then b - a + 1 else cap)
    && (forall k: nat, a: int, b: int :: scope.readback(k, a, b) == Some(scope.inForce(k, a, b)))
  }

  function CeilDiv(m: nat, c: nat): nat
    requires c > 0
  {
    if m == 0 then 0 else if m <= c then 1 else 1 + CeilDiv(m - c, c)
  }

  /** The requests that read points `start..n` in steps of `cap`. */
  function Steps(start: nat, n: nat, cap: nat): seq<Request>
    requires 1 <= start && cap > 0
    decreases n + 1 - start
  {
    if start > n then []
    else
      var stop := if start + cap - 1 < n then start + cap - 1 else n;
      [Request(start, stop, stop - start + 1)] + Steps(stop + 1, n, cap)
  }

  lemma {:induction false} StepsCount(start: nat, n: nat, cap: nat)
    requires 1 <= start <= n + 1 && cap > 0
    ensures |Steps(start, n, cap)| == CeilDiv(n + 1 - start, cap)
    decreases n + 1 - start
  {
    if start + cap - 1 < n { StepsCount(start + cap, n, cap); }
  }

  lemma CappedReply(scope: Scope, k: nat, a: nat, b: nat, n: nat, bpp: Width, cap: nat, verify: bool)
    requires Capped(scope, n, bpp, cap) && 1 <= a <= b <= n
    ensures !Raises(scope, k, a, b, verify)
    ensures Points(GotBytes(ReplyAt(scope, k, a, b)), bpp) == if b - a + 1 < cap then b - a + 1 else cap
  {
    assert scope.inForce(k, a, b) == (a as int, b as int);
    assert scope.readback(k, a, b) == Some(scope.inForce(k, a, b));
    assert scope.block(k, a, b).Block?;
  }

  /** The loop has learned the cap and made progress with its last request. */
  predicate Learned(st: Loop, n: nat, cap: nat) {
    !st.first && st.emptyTries == 0 && 1 <= st.start <= n + 1 && st.window == cap
  }

  lemma CappedTurn(scope: Scope, st: Loop, n: nat, bpp: Width, cap: nat, verify: bool) returns (st': Loop)
    requires Capped(scope, n, bpp, cap) && cap > 0 && Learned(st, n, cap) && st.start <= n
    ensures Pass(scope, st, n, bpp, verify) == Again(st') && Learned(st', n, cap)
    ensures var stop := Stop(st, n);
      st'.start == stop + 1 && st'.log == st.log + [Request(st.start, stop, stop - st.start + 1)]
  {
    var k, a, b := |st.log|, st.start, Stop(st, n);
    CappedReply(scope, k, a, b, n, bpp, cap, verify);
    st' := Absorb(st, n, bpp, ReplyAt(scope, k, a, b));
  }

  lemma StepsExtend(log: seq<Request>, start: nat, n: nat, cap: nat)
    requires 1 <= start <= n && cap > 0
    ensures var stop := if start + cap - 1 < n then start + cap - 1 else n;
      log + Steps(start, n, cap) == log + [Request(start, stop, stop - start + 1)] + Steps(stop + 1, n, cap)
  {}

  /** After the first read the loop asks for windows of the learned size only. */
  lemma {:induction false} CappedTail(scope: Scope, st: Loop, n: nat, bpp: Width, cap: nat, verify: bool)
    requires Capped(scope, n, bpp, cap) && cap > 0 && Learned(st, n, cap)
    ensures var r := Run(scope, st, n, bpp, verify);
      r.Finished? && r.log == st.log + Steps(st.start, n, cap)
    decreases n + 1 - st.start
  {
    if st.start <= n {
      var st' := CappedTurn(scope, st, n, bpp, cap, verify);
      StepsExtend(st.log, st.start, n, cap);
      CappedTail(scope, st', n, bpp, cap, verify);
    }
  }

  lemma CappedFirst(scope: Scope, n: nat, bpp: Width, cap: nat, verify: bool) returns (st: Loop)
    requires Capped(scope, n, bpp, cap) && cap > 0 && n > 0
    ensures Pass(scope, Init(n), n, bpp, verify) == Again(st)
    ensures var points := if cap < n then cap else n;
      && st.start == points + 1 && st.log == [Request(1, n, points)] && !st.first && st.emptyTries == 0
      && st.window == points
  {
    CappedReply(scope, 0, 1, n, n, bpp, cap, verify);
    st := Absorb(Init(n), n, bpp, ReplyAt(scope, 0, 1, n));
  }

  /** Against a constant cap: the first request asks for everything, the following
      ones tile the rest in windows of `cap` points, and there are exactly
      ceil(n / cap) of them. */
  lemma CappedRead(scope: Scope, n: nat, bpp: Width, cap: nat, verify: bool)
    requires Capped(scope, n, bpp, cap) && cap > 0 && n > 0
    ensures var r := Run(scope, Init(n), n, bpp, verify);
      var points := if cap < n then cap else n;
      && r.Finished? && r.log == [Request(1, n, points)] + Steps(points + 1, n, cap)
      && |r.log| == CeilDiv(n, cap)
  {
    var points := if cap < n then cap else n;
    var st := CappedFirst(scope, n, bpp, cap, verify);
    if cap < n { CappedTail(scope, st, n, bpp, cap, verify); }
    StepsCount(points + 1, n, cap);
  }

  /** `CeilDiv(m, c)` is the least `q` with `m <= q * c`. */
  lemma {:induction false} CeilDivIsCeiling(m: nat, c: nat)
    requires c > 0
    ensures m <= CeilDiv(m, c) * c && (m > 0 ==> (CeilDiv(m, c) - 1) * c < m)
  {
    if m > c {
      CeilDivIsCeiling(m - c, c);
      var q := CeilDiv(m - c, c);
      assert (q + 1) * c == q * c + c && (q - 1) * c + c == q * c;
    }
  }

  // ---- what fails without the assumptions --------------------------------------

  /** Serves points `a..b` of the record 0, 1, 2, 3, at most two at a time. */
  function FourPoints(k: nat, a: int, b: int): Reply {
    if 1 <= a <= b <= 4 then
      var m := if b == a then 1 else 2;
      Block([0, 1, 2, 3][a - 1..a - 1 + m], m)
    else Refused
  }

  /** Firmware that moves STARt back by one whenever it is not 1. */
  function Shifting(): Scope {
    Scope((k, a, b) => if a == 1 then (a, b) else (a - 1, b - 1),
          (k, a, b) => Some(if a == 1 then (a, b) else (a - 1, b - 1)),
          FourPoints)
  }

  lemma ShiftingIsTruthful()
    ensures Truthful(Shifting(), Memory([0, 1, 2, 3], 1), 4, 1)
  {
    assert Memory([0, 1, 2, 3], 1) == [0, 1, 2, 3];
  }

  lemma FirstHalf(scope: Scope, verify: bool)
    requires scope == Shifting()
    ensures Run(scope, Init(4), 4, 1, verify)
        == Run(scope, Loop(3, 2, false, 0, [0, 1], [Request(1, 4, 2)]), 4, 1, verify)
  {
    assert scope.readback(0, 1, 4) == Some((1, 4));
    assert ReplyAt(scope, 0, 1, 4) == Block([0, 1], 2);
    assert Absorb(Init(4), 4, 1, Block([0, 1], 2)) == Loop(3, 2, false, 0, [0, 1], [Request(1, 4, 2)]);
  }

  lemma SecondHalf(scope: Scope, verify: bool)
    requires scope == Shifting()
    ensures var r := Run(scope, Loop(3, 2, false, 0, [0, 1], [Request(1, 4, 2)]), 4, 1, verify);
      if verify then r.Raised? else r.Finished? && r.payload == [0, 1, 1, 2]
  {
    var st1 := Loop(3, 2, false, 0, [0, 1], [Request(1, 4, 2)]);
    assert scope.readback(1, 3, 4) == Some((2, 3));
    assert ReplyAt(scope, 1, 3, 4) == Block([1, 2], 2);
    var st2 := Absorb(st1, 4, 1, Block([1, 2], 2));
    assert st2.got == [0, 1, 1, 2];
  }

  /** Without window verification an altered window shifts the record silently;
      with it the same truthful instrument makes the read fail. */
  lemma ShiftGoesUnnoticedUnlessVerified()
    ensures Truthful(Shifting(), Memory([0, 1, 2, 3], 1), 4, 1) && BytesPerPoint("BYTE") == 1
    ensures ChannelCodes(Shifting(), "BYTE", true, Some(4), true, false) == Ok([0, 1, 1, 2])
    ensures ChannelCodes(Shifting(), "BYTE", true, Some(4), true, true) == Err(ReadFailed)
  {
    var scope := Shifting();
    ByteFormat();
    ShiftingIsTruthful();
    FirstHalf(scope, false);
    FirstHalf(scope, true);
    SecondHalf(scope, false);
    SecondHalf(scope, true);
    assert Codes([0, 1, 1, 2], 1) == [0, 1, 1, 2];
    assert [0, 1, 1, 2][..4] == [0, 1, 1, 2];
  }

  /** An instrument that sends three points when asked for two. */
  function Overlong(): Scope {
    Scope((k, a, b) => (a, b), (k, a, b) => Some((a, b)), (k, a, b) => Block([7, 8, 9], 3))
  }

  /** Only short records are rejected: surplus points are returned as data. */
  lemma SurplusIsAccepted()
    ensures ChannelCodes(Overlong(), "BYTE", true, Some(2), true, true) == Ok([7, 8, 9])
  {
    var scope := Overlong();
    ByteFormat();
    assert scope.readback(0, 1, 2) == Some((1, 2));
    assert ReplyAt(scope, 0, 1, 2) == Block([7, 8, 9], 3);
    var st1 := Absorb(Init(2), 2, 1, Block([7, 8, 9], 3));
    assert st1.got == [7, 8, 9];
    assert Codes([7, 8, 9], 1) == [7, 8, 9];
    assert [7, 8, 9][..3] == [7, 8, 9];
  }
}
