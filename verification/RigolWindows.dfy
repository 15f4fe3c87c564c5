/** For which firmware the batched read is right without window verification, and for
    which transfer bounds its length is right: exactly, over every instrument. */
module RigolWindows {
  import opened Common
  import opened RigolRead
  import opened RigolExactness
  import TmcBlock

  /** The end of the window that starts at `a` once windows of `w` points are in use. */
  function End(a: nat, w: nat, n: nat): int { TmcBlock.Min(a + w - 1, n) }

  // ---- firmware that alters windows -----------------------------------------------

  /** Every request for points a..b puts f(a, b) in force. */
  ghost predicate Firmware(scope: Scope, f: (int, int) -> (int, int)) {
    forall k: nat, a: int, b: int :: scope.inForce(k, a, b) == f(a, b)
  }

  predicate KeptAt(f: (int, int) -> (int, int), a: nat, w: nat, n: nat) { Kept(f(a, End(a, w, n)), a, n) }

  /** `f` keeps the start, inside the record, of every window the loop can come to ask
      for: all points at first, then windows of any size `w` the first reply can have. */
  ghost predicate KeepsReachable(f: (int, int) -> (int, int), n: nat) {
    && KeptAt(f, 1, n, n)
    && forall w: nat, a: nat | 1 <= w <= f(1, n).1 && w < a <= n :: KeptAt(f, a, w, n)
  }

  /** The loop's window is one of those. */
  predicate Reached(st: Loop, f: (int, int) -> (int, int), n: nat) {
    if st.first then st.start == 1 && st.window == n
    else st.start <= n ==> 1 <= st.window < st.start && st.window <= f(1, n).1
  }

  lemma PassKeepsReached(scope: Scope, f: (int, int) -> (int, int), st: Loop, record: seq<Byte>, n: nat, bpp: Width)
    requires Firmware(scope, f) && KeepsReachable(f, n) && Truthful(scope, record, n, bpp)
    requires Exact(st, record, n, bpp) && Reached(st, f, n)
    ensures Trusted(scope, st, n, false)
    ensures match Pass(scope, st, n, bpp, false)
      case Again(st') => Exact(st', record, n, bpp) && Reached(st', f, n)
      case Done(Raised(_)) => true
      case Done(Finished(payload, _)) => payload == record[..Bytes(st.start - 1, bpp)]
  {
    if st.start <= n {
      var k, a, b := |st.log|, st.start, Stop(st, n);
      assert KeptAt(f, a, st.window, n);
      assert scope.inForce(k, a, b) == f(a, b);
      PassKeepsExact(scope, st, record, n, bpp, false);
      if !Raises(scope, k, a, b, false) {
        var end := ReplyIsGenuine(scope, k, a, b, record, n, bpp, false);
        AbsorbKeepsExact(st, ReplyAt(scope, k, a, b), record, n, bpp, end);
      }
    }
  }

  lemma {:induction false} ReadsPrefixUnverified(scope: Scope, f: (int, int) -> (int, int), st: Loop,
                                                 record: seq<Byte>, n: nat, bpp: Width)
    requires Firmware(scope, f) && KeepsReachable(f, n) && Truthful(scope, record, n, bpp)
    requires Exact(st, record, n, bpp) && Reached(st, f, n)
    ensures var r := Run(scope, st, n, bpp, false);
      r.Finished? ==> r.payload <= record && |r.payload| == Bytes(Points(|r.payload|, bpp), bpp)
    decreases n + 1 - st.start, EMPTY_CHUNK_RETRIES + 1 - st.emptyTries
  {
    PassKeepsReached(scope, f, st, record, n, bpp);
    match Pass(scope, st, n, bpp, false)
    case Done(_) =>
    case Again(st') => ReadsPrefixUnverified(scope, f, st', record, n, bpp);
  }

  // ---- firmware that moves a start is not noticed --------------------------------

  /** A record that is 1 at point `a` and 0 elsewhere. */
  function Spike(n: nat, a: nat): (codes: seq<nat>)
    ensures |codes| == n
  {
    seq(n, i => if i + 1 == a then 1 else 0)
  }

  function Zeros(bpp: Width): (b: seq<Byte>)
    ensures |b| == Bytes(1, bpp)
  {
    if bpp == 1 then [0] else [0, 0]
  }

  /** Points `x` to `x + m - 1` of the record. */
  function Part(record: seq<Byte>, n: nat, bpp: Width, x: nat, m: nat): (b: seq<Byte>)
    requires |record| == Bytes(n, bpp) && 1 <= x && x + m - 1 <= n
    ensures |b| == Bytes(m, bpp)
  {
    record[Bytes(x - 1, bpp)..Bytes(x - 1 + m, bpp)]
  }

  /** Every point but `a` is 0. */
  predicate FlatBut(record: seq<Byte>, n: nat, a: nat, bpp: Width) {
    |record| == Bytes(n, bpp) && forall x: nat | 1 <= x <= n && x != a :: Part(record, n, bpp, x, 1) == Zeros(bpp)
  }

  lemma SpikeIsFlatBut(n: nat, a: nat, bpp: Width)
    ensures InRange(Spike(n, a), bpp) && FlatBut(Memory(Spike(n, a), bpp), n, a, bpp)
  {
    var m := Memory(Spike(n, a), bpp);
    forall x: nat | 1 <= x <= n && x != a ensures Part(m, n, bpp, x, 1) == Zeros(bpp) {
      assert bpp == 2 ==> m[2 * (x - 1)] == Spike(n, a)[x - 1] % 256 && m[2 * (x - 1) + 1] == Spike(n, a)[x - 1] / 256;
    }
  }

  /** A truthful answer with `m` points if the window holds them, else with one; what
      lies outside the record reads as 0. */
  function Honest(record: seq<Byte>, n: nat, bpp: Width, m: nat, x: int, y: int): Reply
    requires |record| == Bytes(n, bpp) && m >= 1
  {
    if 1 <= x && x + m - 1 <= y <= n then Block(Part(record, n, bpp, x, m), Bytes(m, bpp))
    else if 1 <= x <= y <= n then Block(Part(record, n, bpp, x, 1), Bytes(1, bpp))
    else Block(Zeros(bpp), Bytes(1, bpp))
  }

  /** An instrument with firmware `f` that sends `w` points first, then one at a time. */
  function Slowly(record: seq<Byte>, n: nat, bpp: Width, w: nat, f: (int, int) -> (int, int)): Scope
    requires |record| == Bytes(n, bpp) && w >= 1
  {
    Scope((k: nat, a: int, b: int) => f(a, b),
          (k: nat, a: int, b: int) => None,
          (k: nat, x: int, y: int) => Honest(record, n, bpp, if k == 0 then w else 1, x, y))
  }

  lemma HonestIsGenuine(record: seq<Byte>, n: nat, bpp: Width, m: nat, a: nat, b: nat)
    requires |record| == Bytes(n, bpp) && m >= 1 && 1 <= a <= b <= n
    ensures Genuine(Honest(record, n, bpp, m, a, b), record, bpp, a, b)
  {
    var size := if a + m - 1 <= b then m else 1;
    var part := Part(record, n, bpp, a, size);
    assert part[..|part|] == part;
    assert part <= record[Bytes(a - 1, bpp)..Bytes(b, bpp)];
  }

  lemma SlowlyIsTruthful(record: seq<Byte>, n: nat, bpp: Width, w: nat, f: (int, int) -> (int, int))
    requires |record| == Bytes(n, bpp) && w >= 1
    ensures Truthful(Slowly(record, n, bpp, w, f), record, n, bpp) && Firmware(Slowly(record, n, bpp, w, f), f)
  {
    var scope := Slowly(record, n, bpp, w, f);
    forall k: nat, a: nat, b: nat | 1 <= a <= b <= n ensures Genuine(scope.block(k, a, b), record, bpp, a, b) {
      HonestIsGenuine(record, n, bpp, if k == 0 then w else 1, a, b);
    }
  }

  /** Point `a` of these bytes is 0. */
  predicate Flat(bytes: seq<Byte>, a: nat, bpp: Width) {
    a >= 1 && Bytes(a, bpp) <= |bytes| && bytes[Bytes(a - 1, bpp)..Bytes(a, bpp)] == Zeros(bpp)
  }

  /** The points so far, one at a time, with a 0 at the spike once it is behind. */
  predicate Creeping(st: Loop, n: nat, bpp: Width, a: nat, w: nat) {
    && !st.first && st.emptyTries == 0 && st.log != [] && 1 <= st.start <= n + 1 && a <= n
    && |st.got| == Bytes(st.start - 1, bpp) && (st.start <= n ==> st.window == w >= 1)
    && (st.start > a ==> Flat(st.got, a, bpp))
  }

  lemma AppendPoint(got: seq<Byte>, part: seq<Byte>, start: nat, a: nat, bpp: Width)
    requires start >= 1 && a >= 1 && |got| == Bytes(start - 1, bpp) && |part| == Bytes(1, bpp)
    requires start == a ==> part == Zeros(bpp)
    requires start > a ==> Flat(got, a, bpp)
    ensures |got + part| == Bytes(start, bpp) && (start >= a ==> Flat(got + part, a, bpp))
  {
    if start > a {
      assert (got + part)[Bytes(a - 1, bpp)..Bytes(a, bpp)] == got[Bytes(a - 1, bpp)..Bytes(a, bpp)];
    }
  }

  /** The answer to a request past the first: one point, which is 0 for the spike if the
      window of the spike is moved. */
  lemma PointReply(record: seq<Byte>, n: nat, bpp: Width, a: nat, start: nat, stop: int, f: (int, int) -> (int, int))
    returns (reply: Reply)
    requires FlatBut(record, n, a, bpp) && 1 <= start <= n && (start == a ==> !Kept(f(start, stop), start, n))
    ensures var (x, y) := f(start, stop); reply == Honest(record, n, bpp, 1, x, y)
    ensures reply.Block? && |reply.payload| == reply.declared == Bytes(1, bpp)
        && reply.payload[..Bytes(1, bpp)] == reply.payload
    ensures start == a ==> reply.payload == Zeros(bpp)
  {
    var (x, y) := f(start, stop);
    reply := Honest(record, n, bpp, 1, x, y);
  }

  lemma CreepingTurn(scope: Scope, st: Loop, record: seq<Byte>, n: nat, bpp: Width, a: nat, w: nat,
                     f: (int, int) -> (int, int)) returns (st': Loop)
    requires FlatBut(record, n, a, bpp) && w >= 1 && a >= 1 && scope == Slowly(record, n, bpp, w, f)
    requires Creeping(st, n, bpp, a, w) && st.start <= n && (st.start <= a ==> !KeptAt(f, a, w, n))
    ensures Pass(scope, st, n, bpp, false) == Again(st') && st'.start == st.start + 1 && Creeping(st', n, bpp, a, w)
  {
    var k, stop := |st.log|, Stop(st, n);
    var reply := PointReply(record, n, bpp, a, st.start, stop, f);
    assert ReplyAt(scope, k, st.start, stop) == reply;
    AppendPoint(st.got, reply.payload, st.start, a, bpp);
    st' := Absorb(st, n, bpp, reply);
  }

  lemma {:induction false} CreepingRun(scope: Scope, st: Loop, record: seq<Byte>, n: nat, bpp: Width, a: nat, w: nat,
                                       f: (int, int) -> (int, int))
    requires FlatBut(record, n, a, bpp) && w >= 1 && a >= 1 && scope == Slowly(record, n, bpp, w, f)
    requires Creeping(st, n, bpp, a, w) && (st.start <= a ==> !KeptAt(f, a, w, n))
    ensures var r := Run(scope, st, n, bpp, false);
      r.Finished? && |r.payload| == Bytes(n, bpp) && Flat(r.payload, a, bpp)
    decreases n + 1 - st.start
  {
    if st.start <= n {
      var st' := CreepingTurn(scope, st, record, n, bpp, a, w, f);
      CreepingRun(scope, st', record, n, bpp, a, w, f);
    }
  }

  /** The first window that is moved is the one asked for at point `a`: the first of all,
      or one of the `w`-point windows that follow. */
  predicate Astray(f: (int, int) -> (int, int), n: nat, a: nat, w: nat) {
    if a == 1 then w == 1 && !KeptAt(f, 1, n, n)
    else KeptAt(f, 1, n, n) && w <= f(1, n).1 && w < a && !KeptAt(f, a, w, n)
  }

  /** The first request of such a run: `w` points, or one if its own window is moved. */
  lemma CreepingStart(record: seq<Byte>, n: nat, bpp: Width, a: nat, w: nat, f: (int, int) -> (int, int))
    returns (st: Loop)
    requires FlatBut(record, n, a, bpp) && 1 <= a <= n && w >= 1
    requires Astray(f, n, a, w)
    ensures Pass(Slowly(record, n, bpp, w, f), Init(n), n, bpp, false) == Again(st)
    ensures Creeping(st, n, bpp, a, w) && st.start == w + 1
  {
    var (x, y) := f(1, n);
    var reply := Honest(record, n, bpp, w, x, y);
    assert ReplyAt(Slowly(record, n, bpp, w, f), 0, 1, n) == reply;
    assert |reply.payload| == reply.declared == Bytes(w, bpp);
    assert reply.payload[..Bytes(w, bpp)] == reply.payload;
    if a == 1 {
      assert reply.payload == Zeros(bpp);
      assert reply.payload[Bytes(0, bpp)..Bytes(1, bpp)] == reply.payload;
    }
    st := Absorb(Init(n), n, bpp, reply);
    assert st.got == reply.payload;
  }

  // ---- the exact condition ---------------------------------------------------------

  /** The read is right for this instrument and record, or fails. */
  ghost predicate Right(scope: Scope, f: (int, int) -> (int, int), codes: seq<nat>, fmt: string) {
    var bpp := BytesPerPoint(fmt);
    InRange(codes, bpp) && Truthful(scope, Memory(codes, bpp), |codes|, bpp) && Firmware(scope, f) ==>
      var r := ChannelCodes(scope, fmt, true, Some(|codes|), true, false);
      r.Err? || r == Ok(codes)
  }

  /** For every truthful instrument with this firmware and every record of `n` points. */
  ghost predicate ExactOrError(f: (int, int) -> (int, int), n: nat, fmt: string) {
    forall scope: Scope, codes: seq<nat> | |codes| == n :: Right(scope, f, codes, fmt)
  }

  lemma KeptIsRight(scope: Scope, f: (int, int) -> (int, int), codes: seq<nat>, fmt: string)
    requires Supported(fmt) && codes != [] && KeepsReachable(f, |codes|)
    ensures Right(scope, f, codes, fmt)
  {
    var bpp, n := BytesPerPoint(fmt), |codes|;
    if InRange(codes, bpp) && Truthful(scope, Memory(codes, bpp), n, bpp) && Firmware(scope, f) {
      ReadsPrefixUnverified(scope, f, Init(n), Memory(codes, bpp), n, bpp);
      var r := Run(scope, Init(n), n, bpp, false);
      if r.Finished? && Points(|r.payload|, bpp) >= n { PrefixGivesCodes(r, codes, bpp); }
    }
  }

  lemma FlatIsNoSpike(payload: seq<Byte>, n: nat, a: nat, bpp: Width)
    requires |payload| == Bytes(n, bpp) && 1 <= a <= n && Flat(payload, a, bpp)
    ensures Points(|payload|, bpp) == n && Codes(payload, bpp) != Spike(n, a)
  {
    assert payload[Bytes(a - 1, bpp)] == Zeros(bpp)[0];
    assert bpp == 2 ==> payload[Bytes(a - 1, bpp) + 1] == Zeros(bpp)[1];
    assert Codes(payload, bpp)[a - 1] == 0;
  }

  lemma CreepingWhole(record: seq<Byte>, n: nat, bpp: Width, a: nat, w: nat, f: (int, int) -> (int, int))
    returns (r: Read)
    requires FlatBut(record, n, a, bpp) && 1 <= a <= n && w >= 1 && Astray(f, n, a, w)
    ensures r == Run(Slowly(record, n, bpp, w, f), Init(n), n, bpp, false)
    ensures r.Finished? && |r.payload| == Bytes(n, bpp) && Flat(r.payload, a, bpp)
  {
    var scope := Slowly(record, n, bpp, w, f);
    var st := CreepingStart(record, n, bpp, a, w, f);
    CreepingRun(scope, st, record, n, bpp, a, w, f);
    r := Run(scope, st, n, bpp, false);
  }

  lemma MovedIsWrong(f: (int, int) -> (int, int), n: nat, fmt: string, a: nat, w: nat) returns (scope: Scope)
    requires Supported(fmt) && 1 <= a <= n && w >= 1 && Astray(f, n, a, w)
    ensures !Right(scope, f, Spike(n, a), fmt)
  {
    var bpp := BytesPerPoint(fmt);
    SpikeIsFlatBut(n, a, bpp);
    var record := Memory(Spike(n, a), bpp);
    scope := Slowly(record, n, bpp, w, f);
    SlowlyIsTruthful(record, n, bpp, w, f);
    var r := CreepingWhole(record, n, bpp, a, w, f);
    FlatIsNoSpike(r.payload, n, a, bpp);
    assert r.payload[..Bytes(n, bpp)] == r.payload;
  }

  /** Without verification the read is exact or fails, for every truthful instrument with
      firmware `f`, if and only if `f` keeps the start of every window it can be asked for. */
  lemma UnverifiedExactlyWhenStartsKept(f: (int, int) -> (int, int), n: nat, fmt: string)
    requires Supported(fmt) && n > 0
    ensures ExactOrError(f, n, fmt) <==> KeepsReachable(f, n)
  {
    if KeepsReachable(f, n) {
      forall scope: Scope, codes: seq<nat> | |codes| == n ensures Right(scope, f, codes, fmt) {
        KeptIsRight(scope, f, codes, fmt);
      }
    } else if !KeptAt(f, 1, n, n) {
      var scope := MovedIsWrong(f, n, fmt, 1, 1);
    } else {
      var w: nat, a: nat :| 1 <= w <= f(1, n).1 && w < a <= n && !KeptAt(f, a, w, n);
      var scope := MovedIsWrong(f, n, fmt, a, w);
    }
  }

  // ---- bounds on transfers, and the length of the record --------------------------

  predicate Within(reply: Reply, m: nat, bpp: Width) { reply.Block? ==> Points(GotBytes(reply), bpp) <= m }

  /** A request for points a..b never yields more than most(a, b) points. */
  ghost predicate Bounded(scope: Scope, most: (int, int) -> nat, n: nat, bpp: Width) {
    forall k: nat, a: nat, b: nat | 1 <= a <= b <= n :: Within(ReplyAt(scope, k, a, b), most(a, b), bpp)
  }

  /** With windows of `w` points, transfers within the bound can end just before `a`. */
  ghost predicate Reaches(most: (int, int) -> nat, n: nat, w: nat, a: nat)
    decreases a
  {
    a == w + 1 || exists s: nat | w < s < a :: Reaches(most, n, w, s) && a - s <= most(s, End(s, w, n))
  }

  predicate FitsAt(most: (int, int) -> nat, n: nat, w: nat, a: nat) { most(a, End(a, w, n)) <= n - a + 1 }

  /** No window the loop can come to ask for can be answered past the record's end. */
  ghost predicate Fits(most: (int, int) -> nat, n: nat) {
    && most(1, n) <= n
    && forall w: nat, a: nat | 1 <= w <= most(1, n) && w < a <= n && Reaches(most, n, w, a) :: FitsAt(most, n, w, a)
  }

  predicate InStep(st: Loop, n: nat, bpp: Width) {
    Sane(st, n) && st.start <= n + 1 && |st.got| == Bytes(st.start - 1, bpp)
  }

  ghost predicate Wide(st: Loop, most: (int, int) -> nat, n: nat) {
    if st.first then st.start == 1 && st.window == n
    else st.start <= n ==> 1 <= st.window < st.start && st.window <= most(1, n) && Reaches(most, n, st.window, st.start)
  }

  lemma PassKeepsLength(scope: Scope, most: (int, int) -> nat, st: Loop, n: nat, bpp: Width, verify: bool)
    requires Bounded(scope, most, n, bpp) && Fits(most, n) && InStep(st, n, bpp) && Wide(st, most, n)
    ensures match Pass(scope, st, n, bpp, verify)
      case Again(st') => InStep(st', n, bpp) && Wide(st', most, n)
      case Done(Raised(_)) => true
      case Done(Finished(payload, _)) => |payload| == Bytes(st.start - 1, bpp)
  {
    var k, a, b := |st.log|, st.start, Stop(st, n);
    if st.start <= n && !Raises(scope, k, a, b, verify) {
      var reply := ReplyAt(scope, k, a, b);
      assert Within(reply, most(a, b), bpp);
      assert !st.first ==> FitsAt(most, n, st.window, a);
    }
  }

  lemma {:induction false} RunKeepsLength(scope: Scope, most: (int, int) -> nat, st: Loop, n: nat, bpp: Width,
                                          verify: bool)
    requires Bounded(scope, most, n, bpp) && Fits(most, n) && InStep(st, n, bpp) && Wide(st, most, n)
    ensures var r := Run(scope, st, n, bpp, verify);
      r.Finished? ==> |r.payload| <= Bytes(n, bpp) && |r.payload| == Bytes(Points(|r.payload|, bpp), bpp)
    decreases n + 1 - st.start, EMPTY_CHUNK_RETRIES + 1 - st.emptyTries
  {
    PassKeepsLength(scope, most, st, n, bpp, verify);
    match Pass(scope, st, n, bpp, verify)
    case Done(_) =>
    case Again(st') => RunKeepsLength(scope, most, st', n, bpp, verify);
  }

  // ---- a bound that does not fit ---------------------------------------------------

  /** The sizes of successive transfers that lead to `a` with windows of `w` points. */
  predicate Route(most: (int, int) -> nat, n: nat, w: nat, a: nat, sizes: seq<nat>) {
    sizes != [] &&
    var last := sizes[|sizes| - 1];
    if |sizes| == 1 then last == w && a == w + 1
    else
      && w < a - last < a && last <= most(a - last, End(a - last, w, n))
      && Route(most, n, w, a - last, sizes[..|sizes| - 1])
  }

  lemma {:induction false} FindRoute(most: (int, int) -> nat, n: nat, w: nat, a: nat) returns (sizes: seq<nat>)
    requires Reaches(most, n, w, a)
    ensures Route(most, n, w, a, sizes)
    decreases a
  {
    if a == w + 1 {
      sizes := [w];
    } else {
      var s: nat :| w < s < a && Reaches(most, n, w, s) && a - s <= most(s, End(s, w, n));
      var front := FindRoute(most, n, w, s);
      sizes := front + [a - s];
      assert sizes[..|sizes| - 1] == front;
    }
  }

  function Blank(m: nat, bpp: Width): (b: seq<Byte>)
    ensures |b| == Bytes(m, bpp)
  {
    seq(Bytes(m, bpp), i => 0)
  }

  /** Sends `sizes` in order, as far as the bound allows, and obeys every window. */
  function Dealing(sizes: seq<nat>, most: (int, int) -> nat, bpp: Width): Scope {
    Scope((k: nat, a: int, b: int) => (a, b),
          (k: nat, a: int, b: int) => Some((a, b)),
          (k: nat, a: int, b: int) =>
            if k >= |sizes| || sizes[k] > most(a, b) then Refused
            else Block(Blank(sizes[k], bpp), Bytes(sizes[k], bpp)))
  }

  lemma DealingIsBounded(sizes: seq<nat>, most: (int, int) -> nat, n: nat, bpp: Width)
    ensures Bounded(Dealing(sizes, most, bpp), most, n, bpp)
  {}

  lemma DealingPass(sizes: seq<nat>, most: (int, int) -> nat, st: Loop, n: nat, bpp: Width, verify: bool)
    returns (st': Loop)
    requires Sane(st, n) && st.start <= n && |st.log| < |sizes| && |st.got| == Bytes(st.start - 1, bpp)
    requires 1 <= sizes[|st.log|] <= most(st.start, Stop(st, n))
    ensures Pass(Dealing(sizes, most, bpp), st, n, bpp, verify) == Again(st')
    ensures var m := sizes[|st.log|];
      && st'.start == st.start + m && |st'.log| == |st.log| + 1 && !st'.first && st'.emptyTries == 0
      && st'.window == (if st.first && m < n then m else st.window) && |st'.got| == Bytes(st'.start - 1, bpp)
  {
    var m := sizes[|st.log|];
    var reply := ReplyAt(Dealing(sizes, most, bpp), |st.log|, st.start, Stop(st, n));
    assert reply == Block(Blank(m, bpp), Bytes(m, bpp));
    assert Points(GotBytes(reply), bpp) == m;
    st' := Absorb(st, n, bpp, reply);
  }

  predicate AtEnd(st: Loop, w: nat, a: nat, sizes: seq<nat>, n: nat, bpp: Width) {
    && Sane(st, n) && !st.first && st.emptyTries == 0 && st.window == w && st.start == a && |st.log| == |sizes|
    && |st.got| == Bytes(a - 1, bpp)
  }

  lemma RouteStarts(all: seq<nat>, most: (int, int) -> nat, n: nat, bpp: Width, w: nat, verify: bool) returns (st: Loop)
    requires all != [] && all[0] == w && 1 <= w <= most(1, n) && w < n
    ensures AtEnd(st, w, w + 1, [w], n, bpp)
    ensures Pass(Dealing(all, most, bpp), Init(n), n, bpp, verify) == Again(st)
  {
    st := DealingPass(all, most, Init(n), n, bpp, verify);
  }

  lemma RouteGoesOn(all: seq<nat>, front: seq<nat>, most: (int, int) -> nat, st: Loop, n: nat, bpp: Width, w: nat,
                    a: nat, verify: bool) returns (st': Loop)
    requires |front| < |all| && AtEnd(st, w, a, front, n, bpp) && w < a
    requires a + all[|front|] <= n && 1 <= all[|front|] <= most(a, End(a, w, n))
    ensures AtEnd(st', w, a + all[|front|], front + [all[|front|]], n, bpp)
    ensures Pass(Dealing(all, most, bpp), st, n, bpp, verify) == Again(st')
  {
    st' := DealingPass(all, most, st, n, bpp, verify);
  }

  lemma {:induction false} FollowRoute(all: seq<nat>, sizes: seq<nat>, most: (int, int) -> nat, n: nat, bpp: Width,
                                       w: nat, a: nat, verify: bool) returns (st: Loop)
    requires sizes <= all && Route(most, n, w, a, sizes) && 1 <= w <= most(1, n) && w < n && a <= n
    ensures AtEnd(st, w, a, sizes, n, bpp)
    ensures Run(Dealing(all, most, bpp), Init(n), n, bpp, verify) == Run(Dealing(all, most, bpp), st, n, bpp, verify)
    decreases |sizes|
  {
    if |sizes| == 1 {
      assert all[0] == sizes[0];
      st := RouteStarts(all, most, n, bpp, w, verify);
    } else {
      var front, last := sizes[..|sizes| - 1], sizes[|sizes| - 1];
      assert all[|front|] == last;
      var before := FollowRoute(all, front, most, n, bpp, w, a - last, verify);
      st := RouteGoesOn(all, front, most, before, n, bpp, w, a - last, verify);
    }
  }

  predicate TooLong(r: Read, n: nat, bpp: Width) {
    r.Finished? && |r.payload| > Bytes(n, bpp) && |r.payload| == Bytes(Points(|r.payload|, bpp), bpp)
  }

  /** One transfer more runs past the end, and the read ends with too many bytes. */
  lemma Overrun(all: seq<nat>, st: Loop, most: (int, int) -> nat, n: nat, bpp: Width, verify: bool)
    requires Sane(st, n) && st.start <= n && |st.got| == Bytes(st.start - 1, bpp) && |all| == |st.log| + 1
    requires n - st.start + 1 < all[|st.log|] <= most(st.start, Stop(st, n))
    ensures TooLong(Run(Dealing(all, most, bpp), st, n, bpp, verify), n, bpp)
  {
    var st' := DealingPass(all, most, st, n, bpp, verify);
  }

  // ---- the exact condition ---------------------------------------------------------

  ghost predicate LengthRight(scope: Scope, most: (int, int) -> nat, n: nat, fmt: string, verify: bool) {
    var r := ChannelCodes(scope, fmt, true, Some(n), true, verify);
    Bounded(scope, most, n, BytesPerPoint(fmt)) && r.Ok? ==> |r.value| == n
  }

  /** Every instrument within the bound gives exactly `n` codes when it gives any. */
  ghost predicate LengthExact(most: (int, int) -> nat, n: nat, fmt: string, verify: bool) {
    forall scope: Scope :: LengthRight(scope, most, n, fmt, verify)
  }

  lemma RouteOverruns(most: (int, int) -> nat, n: nat, bpp: Width, w: nat, a: nat, verify: bool) returns (all: seq<nat>)
    requires 1 <= w <= most(1, n) && w < a <= n && Reaches(most, n, w, a) && !FitsAt(most, n, w, a)
    ensures TooLong(Run(Dealing(all, most, bpp), Init(n), n, bpp, verify), n, bpp)
  {
    var sizes := FindRoute(most, n, w, a);
    all := sizes + [most(a, End(a, w, n))];
    var st := FollowRoute(all, sizes, most, n, bpp, w, a, verify);
    Overrun(all, st, most, n, bpp, verify);
  }

  lemma MisfitOverruns(most: (int, int) -> nat, n: nat, bpp: Width, verify: bool) returns (all: seq<nat>)
    requires n > 0 && !Fits(most, n)
    ensures TooLong(Run(Dealing(all, most, bpp), Init(n), n, bpp, verify), n, bpp)
  {
    if most(1, n) > n {
      all := [most(1, n)];
      Overrun(all, Init(n), most, n, bpp, verify);
    } else {
      var w: nat, a: nat :| 1 <= w <= most(1, n) && w < a <= n && Reaches(most, n, w, a) && !FitsAt(most, n, w, a);
      all := RouteOverruns(most, n, bpp, w, a, verify);
    }
  }

  /** For every instrument within the bound a success has exactly `n` points, if and only
      if no window that can be reached may be answered past the end of the record. */
  lemma LengthExactWhenBoundFits(most: (int, int) -> nat, n: nat, fmt: string, verify: bool)
    requires Supported(fmt) && n > 0
    ensures LengthExact(most, n, fmt, verify) <==> Fits(most, n)
  {
    var bpp := BytesPerPoint(fmt);
    if Fits(most, n) {
      forall scope: Scope ensures LengthRight(scope, most, n, fmt, verify) {
        if Bounded(scope, most, n, bpp) { RunKeepsLength(scope, most, Init(n), n, bpp, verify); }
      }
    } else {
      var all := MisfitOverruns(most, n, bpp, verify);
      DealingIsBounded(all, most, n, bpp);
      assert !LengthRight(Dealing(all, most, bpp), most, n, fmt, verify);
    }
  }
}
