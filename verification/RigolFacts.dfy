/** What a caller of `read_channel` can rely on without knowing how it is computed: which
    format names it takes, what the bytes mean, when it refuses and how often it retries. */
module RigolFacts {
  import opened Common
  import opened RigolRead

  // ---- the format name -----------------------------------------------------------

  predicate Spaces(s: string) { forall i | 0 <= i < |s| :: IsSpace(s[i]) }

  /** `word` is `name`, letter by letter, in either case. */
  predicate Spells(word: string, name: string) {
    |word| == |name| && forall i | 0 <= i < |word| :: word[i] == name[i] || word[i] as int == name[i] as int + 32
  }

  predicate Padded(fmt: string, front: string, word: string, back: string) {
    fmt == front + word + back && Spaces(front) && Spaces(back)
  }

  lemma PadFront(s: string, front: string, word: string, back: string)
    requires s != [] && IsSpace(s[0]) && Padded(s[1..], front, word, back)
    ensures Padded(s, [s[0]] + front, word, back)
  {
    assert s == [s[0]] + (front + word + back) == [s[0]] + front + word + back;
  }

  lemma PadBack(s: string, front: string, word: string, back: string)
    requires s != [] && IsSpace(s[|s| - 1]) && Padded(s[..|s| - 1], front, word, back)
    ensures Padded(s, front, word, back + [s[|s| - 1]])
  {
    assert s == front + word + back + [s[|s| - 1]] == front + word + (back + [s[|s| - 1]]);
  }

  lemma {:induction false} StripSplits(s: string) returns (front: string, back: string)
    ensures Padded(s, front, Strip(s), back)
    decreases |s|
  {
    if s != [] && IsSpace(s[0]) {
      front, back := StripSplits(s[1..]);
      PadFront(s, front, Strip(s), back);
      front := [s[0]] + front;
    } else if s != [] && IsSpace(s[|s| - 1]) {
      front, back := StripSplits(s[..|s| - 1]);
      PadBack(s, front, Strip(s), back);
      back := back + [s[|s| - 1]];
    } else {
      front, back := [], [];
      assert s == [] + s + [];
    }
  }

  lemma {:induction false} StripPadded(fmt: string, front: string, word: string, back: string)
    requires Padded(fmt, front, word, back) && word != []
    requires !IsSpace(word[0]) && !IsSpace(word[|word| - 1])
    ensures Strip(fmt) == word
    decreases |front| + |back|
  {
    if front != [] {
      assert fmt[0] == front[0] && fmt[1..] == front[1..] + word + back;
      StripPadded(fmt[1..], front[1..], word, back);
    } else if back != [] {
      assert fmt[0] == word[0] && fmt[|fmt| - 1] == back[|back| - 1];
      assert fmt[..|fmt| - 1] == front + word + back[..|back| - 1];
      StripPadded(fmt[..|fmt| - 1], front, word, back[..|back| - 1]);
    } else {
      assert fmt == word;
    }
  }

  lemma UpperSpells(word: string, name: string)
    requires forall i | 0 <= i < |name| :: 'A' <= name[i] <= 'Z'
    ensures Upper(word) == name <==> Spells(word, name)
  {
    if Upper(word) == name {
      forall i | 0 <= i < |word| ensures word[i] == name[i] || word[i] as int == name[i] as int + 32 {
        assert Upper(word)[i] == name[i];
      }
    }
  }

  /** WORD and BYTE are taken in any mixture of cases and between any white space. */
  lemma FormatTaken(fmt: string, name: string)
    requires name == "WORD" || name == "BYTE"
    ensures FormatName(fmt) == name <==>
      exists front, word, back :: Padded(fmt, front, word, back) && Spells(word, name)
  {
    UpperSpells(Strip(fmt), name);
    if FormatName(fmt) == name {
      var front, back := StripSplits(fmt);
    }
    if front, word, back :| Padded(fmt, front, word, back) && Spells(word, name) {
      StripPadded(fmt, front, word, back);
      UpperSpells(word, name);
    }
  }

  lemma Taken(fmt: string, front: string, word: string, back: string, name: string)
    requires (name == "WORD" || name == "BYTE") && Padded(fmt, front, word, back) && Spells(word, name)
    ensures FormatName(fmt) == name
  {
    FormatTaken(fmt, name);
  }

  lemma LowerCaseTaken()
    ensures FormatName(" word") == "WORD" && FormatName("byte\t\n") == "BYTE"
  {
    Taken(" word", " ", "word", "", "WORD");
    Taken("byte\t\n", "", "byte", "\t\n", "BYTE");
  }

  // ---- codes -----------------------------------------------------------------------

  /** Every success of a WORD request is a finished read of two bytes per point: one code
      per two bytes of the payload, the low byte first. */
  lemma WordCodes(scope: Scope, fmt: string, stopped: bool, depth: Option<int>, calibrated: bool, verify: bool)
    returns (payload: seq<Byte>)
    requires FormatName(fmt) == "WORD"
    ensures var r := ChannelCodes(scope, fmt, stopped, depth, calibrated, verify);
      r.Ok? ==>
        && depth.Some? && depth.value > 0 && Run(scope, Init(depth.value), depth.value, 2, verify).Finished?
        && payload == Run(scope, Init(depth.value), depth.value, 2, verify).payload
        && 2 * |r.value| <= |payload| < 2 * |r.value| + 2
        && forall i | 0 <= i < |r.value| :: r.value[i] == payload[2 * i] as int + 256 * payload[2 * i + 1] as int
  {
    payload := [];
    if ChannelCodes(scope, fmt, stopped, depth, calibrated, verify).Ok? {
      payload := Run(scope, Init(depth.value), depth.value, 2, verify).payload;
    }
  }

  /** And of a BYTE request one code per byte. */
  lemma ByteCodes(scope: Scope, fmt: string, stopped: bool, depth: Option<int>, calibrated: bool, verify: bool)
    returns (payload: seq<Byte>)
    requires FormatName(fmt) == "BYTE"
    ensures var r := ChannelCodes(scope, fmt, stopped, depth, calibrated, verify);
      r.Ok? ==>
        && depth.Some? && depth.value > 0 && Run(scope, Init(depth.value), depth.value, 1, verify).Finished?
        && payload == Run(scope, Init(depth.value), depth.value, 1, verify).payload
        && |r.value| == |payload| && forall i | 0 <= i < |r.value| :: r.value[i] == payload[i]
  {
    payload := [];
    if ChannelCodes(scope, fmt, stopped, depth, calibrated, verify).Ok? {
      payload := Run(scope, Init(depth.value), depth.value, 1, verify).payload;
    }
  }

  // ---- refusals --------------------------------------------------------------------

  /** The first thing that is wrong decides: an unknown format, a scope that is not stopped,
      no positive memory depth, missing calibration. */
  lemma RefusedBeforeReading(scope: Scope, fmt: string, stopped: bool, depth: Option<int>, calibrated: bool,
                             verify: bool)
    ensures var r := ChannelCodes(scope, fmt, stopped, depth, calibrated, verify);
      var known := FormatName(fmt) == "WORD" || FormatName(fmt) == "BYTE";
      && (r == Err(UnsupportedFormat) <==> !known)
      && (r == Err(NotStopped) <==> known && !stopped)
      && (r == Err(BadMemoryDepth) <==> known && stopped && (depth.None? || depth.value <= 0))
      && (r == Err(NoCalibration) <==> known && stopped && depth.Some? && depth.value > 0 && !calibrated)
  {}

  /** And then the read: it raised, or brought less than a point, or fewer points than the
      memory depth; otherwise it is a success. */
  lemma RefusedAfterReading(scope: Scope, fmt: string, depth: int, bpp: Width, verify: bool)
    requires depth > 0 && FormatName(fmt) == if bpp == 2 then "WORD" else "BYTE"
    ensures var r := ChannelCodes(scope, fmt, true, Some(depth), true, verify);
      match Run(scope, Init(depth), depth, bpp, verify)
      case Raised(_) => r == Err(ReadFailed)
      case Finished(payload, _) =>
        && (r == Err(NoSamples) <==> |payload| < bpp)
        && (r == Err(Incomplete) <==> bpp <= |payload| < bpp * depth)
        && (r.Ok? <==> |payload| >= bpp * depth)
  {}

  // ---- retries ---------------------------------------------------------------------

  /** The reply to request `k` for these points is a block without a whole point. */
  predicate Empty(scope: Scope, k: nat, a: int, b: int, bpp: Width, verify: bool) {
    !Raises(scope, k, a, b, verify) && Points(GotBytes(ReplyAt(scope, k, a, b)), bpp) == 0
  }

  function Asked(st: Loop, n: nat, times: nat): seq<Request>
    requires Sane(st, n) && st.start <= n
  {
    seq(times, i => Request(st.start, Stop(st, n), 0))
  }

  /** After `done` empty replies in a row nothing but the count and the log has changed. */
  lemma {:induction false} EmptyReplies(scope: Scope, st: Loop, n: nat, bpp: Width, verify: bool, done: nat)
    requires Sane(st, n) && st.start <= n && st.emptyTries == 0 && done <= 3
    requires forall k: nat | |st.log| <= k < |st.log| + done :: Empty(scope, k, st.start, Stop(st, n), bpp, verify)
    ensures Run(scope, st, n, bpp, verify)
         == Run(scope, st.(emptyTries := done, log := st.log + Asked(st, n, done)), n, bpp, verify)
    decreases done
  {
    if done == 0 {
      assert st.log + Asked(st, n, 0) == st.log;
    } else {
      EmptyReplies(scope, st, n, bpp, verify, done - 1);
      var before := st.(emptyTries := done - 1, log := st.log + Asked(st, n, done - 1));
      assert Empty(scope, |before.log|, st.start, Stop(st, n), bpp, verify);
      assert before.log + [Request(st.start, Stop(st, n), 0)] == st.log + Asked(st, n, done);
      assert Pass(scope, before, n, bpp, verify) == Again(st.(emptyTries := done, log := st.log + Asked(st, n, done)));
    }
  }

  /** A third empty reply is still retried, with the same window; a fourth in a row ends
      the read with what it has. */
  lemma FourthEmptyReplyEnds(scope: Scope, st: Loop, n: nat, bpp: Width, verify: bool)
    requires Sane(st, n) && st.start <= n && st.emptyTries == 0
    requires forall k: nat | |st.log| <= k < |st.log| + 3 :: Empty(scope, k, st.start, Stop(st, n), bpp, verify)
    ensures Run(scope, st, n, bpp, verify)
         == Run(scope, st.(emptyTries := 3, log := st.log + Asked(st, n, 3)), n, bpp, verify)
    ensures Empty(scope, |st.log| + 3, st.start, Stop(st, n), bpp, verify) ==>
      Run(scope, st, n, bpp, verify) == Finished(st.got, st.log + Asked(st, n, 4))
    ensures !Raises(scope, |st.log| + 3, st.start, Stop(st, n), verify)
            && !Empty(scope, |st.log| + 3, st.start, Stop(st, n), bpp, verify) ==>
      Pass(scope, st.(emptyTries := 3, log := st.log + Asked(st, n, 3)), n, bpp, verify).Again?
  {
    EmptyReplies(scope, st, n, bpp, verify, 3);
    assert st.log + Asked(st, n, 3) + [Request(st.start, Stop(st, n), 0)] == st.log + Asked(st, n, 4);
  }
}
