/** Segmented LeCroy acquisition: one response carries the descriptor, four blocks of
    declared length, and the samples of all segments end to end. */
module SequenceMode {
  import opened Common
  import opened Wavedesc

  datatype WaveError = NoData | BadCommType | NotSequence | Ragged | EmptySegments | NoSamples | OutOfBuffer
    | PartialSample | Unshapeable | NegativeCount

  // ---- sequence.py ---------------------------------------------------------------

  /** `bytes_per_sample`. */
  function BytesPerSample(commType: int): Result<nat, WaveError> {
    if commType == 1 then Ok(2) else if commType == 0 then Ok(1) else Err(BadCommType)
  }

  datatype Counts = Counts(total: int, perSegment: int)

  /** `segment_sample_count`; Python's floor division agrees with `/` for positive divisors. */
  function SegmentSampleCount(subarrayCount: int, waveArray1: int, commType: int): (r: Result<Counts, WaveError>)
    ensures r.Ok? ==>
      subarrayCount >= 2 && r.value.total == subarrayCount * r.value.perSegment && r.value.perSegment != 0
  {
    if subarrayCount < 2 then Err(NotSequence)
    else
      match BytesPerSample(commType)
      case Err(e) => Err(e)
      case Ok(width) =>
        var total := waveArray1 / width;
        if total % subarrayCount != 0 then Err(Ragged)
        else if total / subarrayCount == 0 then Err(EmptySegments)
        else Ok(Counts(total, total / subarrayCount))
  }

  /** One row less. */
  lemma RowLess(k: nat, n: nat)
    requires k > 0
    ensures n <= k * n && (k - 1) * n == k * n - n
  {}

  /** `split_segments`: the flat array, row by row. */
  function SplitSegments<T>(flat: seq<T>, k: nat, n: nat): (segments: seq<seq<T>>)
    requires |flat| == k * n
    ensures |segments| == k
    decreases k
  {
    if k == 0 then []
    else
      RowLess(k, n);
      [flat[..n]] + SplitSegments(flat[n..], k - 1, n)
  }

  /** Splitting loses and reorders nothing. */
  lemma {:induction false} SegmentsJoin<T>(flat: seq<T>, k: nat, n: nat)
    requires |flat| == k * n
    ensures Flatten(SplitSegments(flat, k, n)) == flat
    ensures forall i | 0 <= i < k :: |SplitSegments(flat, k, n)[i]| == n
    decreases k
  {
    if k > 0 {
      RowLess(k, n);
      SegmentsJoin(flat[n..], k - 1, n);
      assert flat == flat[..n] + flat[n..];
      assert ([flat[..n]] + SplitSegments(flat[n..], k - 1, n))[1..] == SplitSegments(flat[n..], k - 1, n);
    }
  }

  /** Sample `j` of segment `i` is element `i * n + j` of the flat array. */
  lemma {:induction false} SegmentElement<T>(flat: seq<T>, k: nat, n: nat, i: nat, j: nat)
    requires |flat| == k * n && i < k && j < n
    ensures i * n + j < |flat| && |SplitSegments(flat, k, n)[i]| == n
    ensures SplitSegments(flat, k, n)[i][j] == flat[i * n + j]
    decreases k
  {
    SegmentsJoin(flat, k, n);
    RowLess(k, n);
    if i == 0 {
      assert i * n == 0;
    } else {
      SegmentElement(flat[n..], k - 1, n, i - 1, j);
      RowLess(i, n);
    }
  }

  /** Equal segments laid end to end are recovered by the split. */
  lemma {:induction false} SplitJoined<T>(segments: seq<seq<T>>, n: nat)
    requires forall i | 0 <= i < |segments| :: |segments[i]| == n
    ensures |Flatten(segments)| == |segments| * n && SplitSegments(Flatten(segments), |segments|, n) == segments
  {
    if segments != [] {
      SplitJoined(segments[1..], n);
      var k := |segments|;
      RowLess(k, n);
      assert Flatten(segments)[..n] == segments[0] && Flatten(segments)[n..] == Flatten(segments[1..]);
      assert segments == [segments[0]] + segments[1..];
    }
  }

  /** numpy's `reshape(k, n)`: a negative `n` stands for whatever width fits. */
  function Reshape<T>(flat: seq<T>, k: nat, n: int): Result<seq<seq<T>>, WaveError>
    requires k > 0 && (n >= 0 ==> |flat| == k * n)
  {
    if n >= 0 then Ok(SplitSegments(flat, k, n))
    else if |flat| % k != 0 then Err(Unshapeable)
    else Ok(SplitSegments(flat, k, |flat| / k))
  }

  // ---- samples -------------------------------------------------------------------

  type SampleWidth = w: nat | w == 1 || w == 2 witness 1

  /** Bytes taken by `count` samples. */
  function Span(count: nat, width: SampleWidth): (bytes: nat)
    ensures bytes == width * count
  {
    if width == 1 then count else 2 * count
  }

  /** Little-endian int16 or int8 samples of a buffer of the right size. */
  function DecodeSamples(b: seq<Byte>, width: SampleWidth, count: nat): (samples: seq<int>)
    requires |b| == Span(count, width)
    ensures |samples| == count
    decreases count
  {
    if count == 0 then [] else [Signed(b[..width])] + DecodeSamples(b[width..], width, count - 1)
  }

  predicate SamplesFit(samples: seq<int>, width: SampleWidth) {
    forall i | 0 <= i < |samples| :: -Half(width) <= samples[i] < Half(width)
  }

  function EncodeSamples(samples: seq<int>, width: SampleWidth): (b: seq<Byte>)
    ensures |b| == Span(|samples|, width)
  {
    if samples == [] then [] else LittleEndian(samples[0], width) + EncodeSamples(samples[1..], width)
  }

  lemma {:induction false} SamplesRoundTrip(samples: seq<int>, width: SampleWidth)
    requires SamplesFit(samples, width)
    ensures DecodeSamples(EncodeSamples(samples, width), width, |samples|) == samples
  {
    if samples != [] {
      var first, rest := LittleEndian(samples[0], width), EncodeSamples(samples[1..], width);
      SignedInverts(samples[0], width);
      SamplesRoundTrip(samples[1..], width);
      assert (first + rest)[..width] == first && (first + rest)[width..] == rest;
      assert samples == [samples[0]] + samples[1..];
    }
  }

  lemma DropThenSlice(b: seq<Byte>, d: nat, i: nat, j: nat)
    requires d <= |b| && i <= j <= |b| - d
    ensures b[d..][i..j] == b[d + i..d + j]
  {}

  lemma {:induction false} SampleAt(b: seq<Byte>, width: SampleWidth, count: nat, m: nat)
    requires |b| == Span(count, width) && m < count
    ensures Span(m, width) + width <= |b|
    ensures DecodeSamples(b, width, count)[m] == Signed(b[Span(m, width)..Span(m, width) + width])
    decreases m
  {
    if m > 0 {
      var rest, lo := b[width..], Span(m - 1, width);
      SampleAt(rest, width, count - 1, m - 1);
      DropThenSlice(b, width, lo, lo + width);
    }
  }

  // ---- scope.py ------------------------------------------------------------------

  /** An integer field of a decoded descriptor. */
  function Int(wd: seq<Value>, i: nat): int
    requires |wd| == FIELDS && i < FIELDS
  {
    match wd[i] case Num(n) => n case _ => 0
  }

  /** Sample count outside sequence mode; `int(x / 2)` truncates toward zero. */
  function RealTimeSamples(wd: seq<Value>): int
    requires |wd| == FIELDS
  {
    var bytes := Int(wd, WAVE_ARRAY_1);
    if Int(wd, COMM_TYPE) == 0 then bytes else if bytes >= 0 then bytes / 2 else -(-bytes / 2)
  }

  /** `parse_wavedesc`: only the offset of the first sample is used in sequence mode. */
  function FirstSample(wd: seq<Value>): Result<int, WaveError>
    requires |wd| == FIELDS
  {
    if Int(wd, COMM_TYPE) != 0 && Int(wd, COMM_TYPE) != 1 then Err(BadCommType)
    else if RealTimeSamples(wd) == 0 then Err(NoSamples)
    else Ok(PREAMBLE + SIZE + Int(wd, USER_TEXT) + Int(wd, TRIGTIME_ARRAY) + Int(wd, RIS_TIME_ARRAY)
            + Int(wd, RES_ARRAY1))
  }

  /** `_parse_wave_array` before scaling. A negative count makes numpy's `frombuffer`
      read the rest of the buffer. */
  function ParseWaveArray(response: seq<Byte>, width: SampleWidth, count: int, offset: int)
    : (r: Result<seq<int>, WaveError>)
    ensures r.Ok? && count >= 0 ==> |r.value| == count
  {
    if offset < 0 || offset > |response| then Err(OutOfBuffer)
    else if count < 0 then
      if (|response| - offset) % width != 0 then Err(PartialSample)
      else Ok(DecodeSamples(response[offset..], width, (|response| - offset) / width))
    else if offset + Span(count, width) > |response| then Err(OutOfBuffer)
    else Ok(DecodeSamples(response[offset..offset + Span(count, width)], width, count))
  }

  /** What a descriptor announces: `k` segments of `n` samples from byte `ndx0` on. */
  datatype Plan = Plan(k: nat, n: int, width: SampleWidth, ndx0: int)

  /** The checks made between decoding the descriptor and reading the samples. */
  function PlanOf(wd: seq<Value>): (r: Result<Plan, WaveError>)
    requires |wd| == FIELDS
    ensures r.Ok? ==> r.value.k >= 2 && r.value.n != 0
  {
    match SegmentSampleCount(Int(wd, SUBARRAY_COUNT), Int(wd, WAVE_ARRAY_1), Int(wd, COMM_TYPE))
    case Err(e) => Err(e)
    case Ok(counts) =>
      match FirstSample(wd)
      case Err(e) => Err(e)
      case Ok(ndx0) =>
        Ok(Plan(Int(wd, SUBARRAY_COUNT), counts.perSegment, if Int(wd, COMM_TYPE) == 1 then 2 else 1, ndx0))
  }

  lemma SignOfProduct(k: nat, n: int)
    requires k > 0
    ensures k * n >= 0 <==> n >= 0
  {
    if n < 0 { assert k * n <= k * -1; }
  }

  /** Reading and splitting the samples of a plan. */
  function Gather(response: seq<Byte>, p: Plan): Result<seq<seq<int>>, WaveError>
    requires p.k >= 2 && p.n != 0
  {
    match ParseWaveArray(response, p.width, p.k * p.n, p.ndx0)
    case Err(e) => Err(e)
    case Ok(flat) =>
      SignOfProduct(p.k, p.n);
      Reshape(flat, p.k, p.n)
  }

  function AcquireDecoded(response: seq<Byte>, wd: seq<Value>): Result<seq<seq<int>>, WaveError>
    requires |wd| == FIELDS
  {
    match PlanOf(wd)
    case Err(e) => Err(e)
    case Ok(plan) => Gather(response, plan)
  }

  /** `acquire_sequence_data` on one response. */
  function AcquireSequence(response: seq<Byte>): Result<seq<seq<int>>, WaveError> {
    if |response| < PREAMBLE + SIZE then Err(NoData)
    else AcquireDecoded(response, Decode(response[PREAMBLE..PREAMBLE + SIZE]).value)
  }

  // ---- what an acquisition returns -----------------------------------------------

  /** The plan behind a successful acquisition. */
  lemma AcquiredByPlan(response: seq<Byte>) returns (p: Plan)
    requires AcquireSequence(response).Ok?
    ensures |response| >= PREAMBLE + SIZE && PlanOf(Decode(response[PREAMBLE..PREAMBLE + SIZE]).value) == Ok(p)
    ensures Gather(response, p) == AcquireSequence(response)
  {
    p := PlanOf(Decode(response[PREAMBLE..PREAMBLE + SIZE]).value).value;
  }

  /** `k` segments of `n` samples lie behind ndx0: as many as the plan says, or all
      there are if the plan's count is negative. */
  predicate Extent(response: seq<Byte>, p: Plan, n: nat) {
    && 0 <= p.ndx0 && p.ndx0 + Span(p.k * n, p.width) <= |response|
    && if p.n > 0 then n == p.n else p.ndx0 + Span(p.k * n, p.width) == |response|
  }

  lemma RestIsSpan(rest: nat, width: SampleWidth, k: nat)
    requires rest % width == 0 && k > 0 && rest / width % k == 0
    ensures rest == Span(rest / width, width) && rest / width == k * (rest / width / k)
  {
    var m := rest / width;
    assert m == k * (m / k) + m % k;
  }

  /** The flat data array behind a successful read. */
  lemma GatheredFrom(response: seq<Byte>, p: Plan) returns (flat: seq<int>, n: nat)
    requires p.k >= 2 && p.n != 0 && Gather(response, p).Ok?
    ensures Extent(response, p, n)
    ensures flat == DecodeSamples(response[p.ndx0..p.ndx0 + Span(p.k * n, p.width)], p.width, p.k * n)
    ensures Gather(response, p) == Ok(SplitSegments(flat, p.k, n))
  {
    SignOfProduct(p.k, p.n);
    flat := ParseWaveArray(response, p.width, p.k * p.n, p.ndx0).value;
    if p.n > 0 {
      n := p.n;
    } else {
      n := |flat| / p.k;
      RestIsSpan(|response| - p.ndx0, p.width, p.k);
      var end := p.ndx0 + Span(p.k * n, p.width);
      assert response[p.ndx0..] == response[p.ndx0..end];
    }
  }

  /** Any successful acquisition: k equally long segments, which joined are the whole
      data array; it ends where wave_array_1 says, or with the response if that field
      is negative. */
  lemma SegmentsAreTheDataArray(response: seq<Byte>) returns (p: Plan, n: nat)
    requires AcquireSequence(response).Ok?
    ensures |response| >= PREAMBLE + SIZE && PlanOf(Decode(response[PREAMBLE..PREAMBLE + SIZE]).value) == Ok(p)
    ensures Extent(response, p, n)
    ensures var segments := AcquireSequence(response).value;
      && |segments| == p.k && (forall s | 0 <= s < p.k :: |segments[s]| == n)
      && Flatten(segments) == DecodeSamples(response[p.ndx0..p.ndx0 + Span(p.k * n, p.width)], p.width, p.k * n)
  {
    p := AcquiredByPlan(response);
    var flat;
    flat, n := GatheredFrom(response, p);
    SegmentsJoin(flat, p.k, n);
  }

  /** Sample `m` of the data array that starts at byte `lo` of the response. */
  lemma SampleInResponse(response: seq<Byte>, lo: nat, width: SampleWidth, count: nat, m: nat)
    requires lo + Span(count, width) <= |response| && m < count
    ensures var at := lo + Span(m, width);
      && at + width <= |response|
      && DecodeSamples(response[lo..lo + Span(count, width)], width, count)[m] == Signed(response[at..at + width])
  {
    SampleAt(response[lo..lo + Span(count, width)], width, count, m);
    var at := Span(m, width);
    SliceOfSlice(response, lo, lo + Span(count, width), at, at + width);
  }

  lemma SampleOfPlan(response: seq<Byte>, p: Plan, i: nat, j: nat, m: int)
    requires p.k >= 2 && p.n != 0 && Gather(response, p).Ok?
    requires var segments := Gather(response, p).value;
      i < |segments| && j < |segments[i]| && m == i * |segments[i]| + j
    ensures m >= 0 && p.ndx0 >= 0
    ensures var at := p.ndx0 + Span(m, p.width);
      at + p.width <= |response| && Gather(response, p).value[i][j] == Signed(response[at..at + p.width])
  {
    var flat, n := GatheredFrom(response, p);
    SegmentsJoin(flat, p.k, n);
    SegmentElement(flat, p.k, n, i, j);
    SampleInResponse(response, p.ndx0, p.width, p.k * n, m);
  }

  /** Sample `j` of segment `i`, each of n samples, comes from byte
      ndx0 + width * (i * n + j) of the response. */
  lemma SampleOrigin(response: seq<Byte>, i: nat, j: nat, m: int) returns (p: Plan)
    requires AcquireSequence(response).Ok?
    requires var segments := AcquireSequence(response).value;
      i < |segments| && j < |segments[i]| && m == i * |segments[i]| + j
    ensures |response| >= PREAMBLE + SIZE && PlanOf(Decode(response[PREAMBLE..PREAMBLE + SIZE]).value) == Ok(p)
    ensures m >= 0 && p.ndx0 >= 0
    ensures var at := p.ndx0 + Span(m, p.width);
      at + p.width <= |response| && AcquireSequence(response).value[i][j] == Signed(response[at..at + p.width])
  {
    p := AcquiredByPlan(response);
    SampleOfPlan(response, p, i, j, m);
  }

  /** The end of `n` steps of `dt` from `t0`. */
  function Stop(t0: real, dt: real, n: nat): real { t0 + n as real * dt }

  /** `np.linspace(t0, stop, n, endpoint=False)` in exact arithmetic. */
  function Linspace(t0: real, stop: real, n: nat): (t: seq<real>)
    ensures |t| == n
  {
    seq(n, j requires 0 <= j < n => t0 + j as real * ((stop - t0) / n as real))
  }

  /** `time_array`, for the descriptor of the last acquisition and the values `t0` and
      `dt` of its horizontal offset and interval. */
  function TimeArray(wd: seq<Value>, t0: real, dt: real): Result<seq<real>, WaveError>
    requires |wd| == FIELDS
  {
    var samples :=
      if Int(wd, SUBARRAY_COUNT) > 1 then
        match SegmentSampleCount(Int(wd, SUBARRAY_COUNT), Int(wd, WAVE_ARRAY_1), Int(wd, COMM_TYPE))
        case Err(e) => Err(e)
        case Ok(counts) => Ok(counts.perSegment)
      else Ok(RealTimeSamples(wd));
    match samples
    case Err(e) => Err(e)
    case Ok(n) => if n < 0 then Err(NegativeCount) else Ok(Linspace(t0, Stop(t0, dt, n), n))
  }

  /** The same with the descriptor's own values, for any meaning of its float bits. */
  function OwnTimeArray(wd: seq<Value>, meaning: Value -> real): Result<seq<real>, WaveError>
    requires |wd| == FIELDS
  {
    TimeArray(wd, meaning(wd[HORIZ_OFFSET]), meaning(wd[HORIZ_INTERVAL]))
  }

  /** Times `dt` apart from `t0` on. */
  predicate Axis(t: seq<real>, t0: real, dt: real) {
    forall j | 0 <= j < |t| :: t[j] == t0 + j as real * dt
  }

  lemma LinspaceIsAxis(t0: real, dt: real, n: nat)
    requires n > 0
    ensures Axis(Linspace(t0, Stop(t0, dt, n), n), t0, dt)
  {
    assert (n as real * dt) / n as real == dt;
  }

  /** Outside sequence mode the axis has one entry per byte, or per two; half of an odd
      count is cut off towards zero, so -1 counts as no samples. */
  lemma TimeArrayOfOneSegment(wd: seq<Value>, t0: real, dt: real) returns (r: Result<seq<real>, WaveError>)
    requires |wd| == FIELDS && Int(wd, SUBARRAY_COUNT) <= 1
    ensures r == TimeArray(wd, t0, dt) && (r.Err? ==> r.error == NegativeCount)
    ensures var bytes := Int(wd, WAVE_ARRAY_1);
      if Int(wd, COMM_TYPE) == 0 then (r.Ok? <==> bytes >= 0) && (r.Ok? ==> |r.value| == bytes)
      else (r.Ok? <==> bytes >= -1) && (r.Ok? && bytes >= 0 ==> 2 * |r.value| == bytes - bytes % 2)
           && (r.Ok? && bytes < 0 ==> r.value == [])
    ensures r.Ok? ==> Axis(r.value, t0, dt)
  {
    r := TimeArray(wd, t0, dt);
    if r.Ok? && |r.value| > 0 { LinspaceIsAxis(t0, dt, |r.value|); }
  }

  lemma TimeArrayOfPlan(wd: seq<Value>, p: Plan, t0: real, dt: real)
    requires |wd| == FIELDS && PlanOf(wd) == Ok(p)
    ensures TimeArray(wd, t0, dt) == if p.n > 0 then Ok(Linspace(t0, Stop(t0, dt, p.n), p.n)) else Err(NegativeCount)
  {}

  /** The plan's count has the sign of the byte count it comes from. */
  lemma PlanSign(wd: seq<Value>, p: Plan)
    requires |wd| == FIELDS && PlanOf(wd) == Ok(p)
    ensures p.n > 0 <==> Int(wd, WAVE_ARRAY_1) >= 0
  {
    var bytes, total := Int(wd, WAVE_ARRAY_1), p.k * p.n;
    assert total == if p.width == 2 then bytes / 2 else bytes;
    SignOfProduct(p.k, p.n);
  }

  lemma TimeArrayOfDecoded(response: seq<Byte>, wd: seq<Value>, t0: real, dt: real)
    requires |wd| == FIELDS && AcquireDecoded(response, wd).Ok?
    ensures TimeArray(wd, t0, dt).Ok? <==> Int(wd, WAVE_ARRAY_1) >= 0
    ensures TimeArray(wd, t0, dt).Ok? ==>
      && Axis(TimeArray(wd, t0, dt).value, t0, dt)
      && forall s | s in AcquireDecoded(response, wd).value :: |s| == |TimeArray(wd, t0, dt).value|
  {
    var p := PlanOf(wd).value;
    PlanSign(wd, p);
    TimeArrayOfPlan(wd, p, t0, dt);
    if p.n > 0 {
      LinspaceIsAxis(t0, dt, p.n);
      var flat, n := GatheredFrom(response, p);
      SegmentsJoin(flat, p.k, n);
    }
  }

  /** After a successful acquisition `time_array` succeeds exactly when wave_array_1 is
      not negative; one axis then fits every segment, as long as it and `dt` apart. */
  lemma TimeArrayFitsSegments(response: seq<Byte>, t0: real, dt: real) returns (wd: seq<Value>)
    requires AcquireSequence(response).Ok?
    ensures |response| >= PREAMBLE + SIZE && Decode(response[PREAMBLE..PREAMBLE + SIZE]) == Some(wd)
    ensures |wd| == FIELDS && (TimeArray(wd, t0, dt).Ok? <==> Int(wd, WAVE_ARRAY_1) >= 0)
    ensures TimeArray(wd, t0, dt).Ok? ==>
      && Axis(TimeArray(wd, t0, dt).value, t0, dt)
      && forall s | s in AcquireSequence(response).value :: |s| == |TimeArray(wd, t0, dt).value|
  {
    wd := Decode(response[PREAMBLE..PREAMBLE + SIZE]).value;
    TimeArrayOfDecoded(response, wd, t0, dt);
  }

  // ---- scaling to volts ------------------------------------------------------------

  function Volt(sample: int, gain: real, offset: real): real { sample as real * gain - offset }

  function Volts(samples: seq<int>, gain: real, offset: real): (v: seq<real>)
    ensures |v| == |samples|
    ensures forall i | 0 <= i < |samples| :: v[i] == Volt(samples[i], gain, offset)
  {
    seq(|samples|, i requires 0 <= i < |samples| => Volt(samples[i], gain, offset))
  }

  lemma VoltsOfParts(flat: seq<int>, n: nat, gain: real, offset: real)
    requires n <= |flat|
    ensures Volts(flat, gain, offset)[..n] == Volts(flat[..n], gain, offset)
    ensures Volts(flat, gain, offset)[n..] == Volts(flat[n..], gain, offset)
  {}

  function EachInVolts(segments: seq<seq<int>>, gain: real, offset: real): (v: seq<seq<real>>)
    ensures |v| == |segments|
  {
    seq(|segments|, i requires 0 <= i < |segments| => Volts(segments[i], gain, offset))
  }

  /** The flat array is scaled, then split. */
  function GatherVolts(response: seq<Byte>, p: Plan, gain: real, offset: real): Result<seq<seq<real>>, WaveError>
    requires p.k >= 2 && p.n != 0
  {
    match ParseWaveArray(response, p.width, p.k * p.n, p.ndx0)
    case Err(e) => Err(e)
    case Ok(flat) =>
      SignOfProduct(p.k, p.n);
      Reshape(Volts(flat, gain, offset), p.k, p.n)
  }

  lemma {:induction false} SplitOfVolts(flat: seq<int>, k: nat, n: nat, gain: real, offset: real)
    requires |flat| == k * n
    ensures SplitSegments(Volts(flat, gain, offset), k, n) == EachInVolts(SplitSegments(flat, k, n), gain, offset)
    decreases k
  {
    if k > 0 {
      RowLess(k, n);
      SplitOfVolts(flat[n..], k - 1, n, gain, offset);
      VoltsOfParts(flat, n, gain, offset);
    }
  }

  lemma VoltsOfSegments(response: seq<Byte>, p: Plan, gain: real, offset: real)
    requires p.k >= 2 && p.n != 0
    ensures GatherVolts(response, p, gain, offset) ==
      match Gather(response, p) case Err(e) => Err(e) case Ok(segments) => Ok(EachInVolts(segments, gain, offset))
  {
    match ParseWaveArray(response, p.width, p.k * p.n, p.ndx0)
    case Err(_) =>
    case Ok(flat) =>
      SignOfProduct(p.k, p.n);
      if p.n > 0 {
        SplitOfVolts(flat, p.k, p.n, gain, offset);
      } else if |flat| % p.k == 0 {
        SplitOfVolts(flat, p.k, |flat| / p.k, gain, offset);
      }
  }

  function AcquireDecodedVolts(response: seq<Byte>, wd: seq<Value>, gain: real, offset: real)
    : Result<seq<seq<real>>, WaveError>
    requires |wd| == FIELDS
  {
    match PlanOf(wd)
    case Err(e) => Err(e)
    case Ok(plan) => GatherVolts(response, plan, gain, offset)
  }

  /** The default `acquire_sequence_data`, for any meaning of the descriptor's float bits. */
  function AcquireVolts(response: seq<Byte>, meaning: Value -> real): Result<seq<seq<real>>, WaveError> {
    if |response| < PREAMBLE + SIZE then Err(NoData)
    else
      var wd := Decode(response[PREAMBLE..PREAMBLE + SIZE]).value;
      AcquireDecodedVolts(response, wd, meaning(wd[VERTICAL_GAIN]), meaning(wd[VERTICAL_OFFSET]))
  }

  lemma DecodedVolts(response: seq<Byte>, wd: seq<Value>, gain: real, offset: real)
    requires |wd| == FIELDS
    ensures AcquireDecodedVolts(response, wd, gain, offset) ==
      match AcquireDecoded(response, wd)
      case Err(e) => Err(e)
      case Ok(segments) => Ok(EachInVolts(segments, gain, offset))
  {
    if PlanOf(wd).Ok? { VoltsOfSegments(response, PlanOf(wd).value, gain, offset); }
  }

  /** Scaling commutes with splitting: with `raw=False` the segments are those of
      `raw=True`, each sample times the gain minus the offset; the errors are the same. */
  lemma ScalingCommutes(response: seq<Byte>, wd: seq<Value>, meaning: Value -> real)
    requires |response| >= PREAMBLE + SIZE && Decode(response[PREAMBLE..PREAMBLE + SIZE]) == Some(wd) && |wd| == FIELDS
    ensures AcquireVolts(response, meaning) ==
      match AcquireSequence(response)
      case Err(e) => Err(e)
      case Ok(segments) => Ok(EachInVolts(segments, meaning(wd[VERTICAL_GAIN]), meaning(wd[VERTICAL_OFFSET])))
  {
    DecodedVolts(response, wd, meaning(wd[VERTICAL_GAIN]), meaning(wd[VERTICAL_OFFSET]));
  }

  // ---- round trip ----------------------------------------------------------------

  /** A descriptor that declares these blocks and `k` segments of `n` samples. */
  predicate Declares(wd: seq<Value>, user: nat, trig: nat, ris: nat, res: nat, k: nat, n: nat, width: SampleWidth) {
    && Matches(Format(), wd) && |wd| == FIELDS
    && Int(wd, USER_TEXT) == user && Int(wd, TRIGTIME_ARRAY) == trig && Int(wd, RIS_TIME_ARRAY) == ris
    && Int(wd, RES_ARRAY1) == res
    && Int(wd, COMM_TYPE) == width - 1 && Int(wd, SUBARRAY_COUNT) == k && Int(wd, WAVE_ARRAY_1) == Span(k * n, width)
  }

  /** What the scope sends. */
  function Response(preamble: seq<Byte>, wd: seq<Value>, blocks: seq<Byte>, segments: seq<seq<int>>,
                    width: SampleWidth): seq<Byte>
    requires Matches(Format(), wd)
  {
    preamble + Encode(wd) + blocks + EncodeSamples(Flatten(segments), width)
  }

  lemma LargeMultiple(k: nat, d: nat)
    requires d > 0
    ensures k * d >= k
  {
    assert k * (d - 1) >= 0;
  }

  lemma Remainder(x: int, k: nat, n: int, q: int, r: int)
    requires k > 0 && x == k * n && x == q * k + r && 0 <= r < k
    ensures q == n && r == 0
  {
    assert k * (n - q) == r && k * (q - n) == -r;
    if n > q {
      LargeMultiple(k, n - q);
    } else if n < q {
      LargeMultiple(k, q - n);
    }
  }

  lemma DivideBack(k: nat, n: nat)
    requires k > 0
    ensures k * n % k == 0 && k * n / k == n
  {
    var x := k * n;
    Remainder(x, k, n, x / k, x % k);
  }

  lemma CountsOfDeclared(k: nat, n: nat, width: SampleWidth)
    requires k >= 2 && n >= 1
    ensures SegmentSampleCount(k, Span(k * n, width), width - 1) == Ok(Counts(k * n, n))
  {
    assert Span(k * n, width) / width == k * n;
    DivideBack(k, n);
  }

  lemma ResponseParts(preamble: seq<Byte>, header: seq<Byte>, blocks: seq<Byte>, data: seq<Byte>)
    requires |preamble| == PREAMBLE && |header| == SIZE
    ensures var r := preamble + header + blocks + data;
      var lo := PREAMBLE + SIZE + |blocks|;
      && |r| == lo + |data| && r[PREAMBLE..PREAMBLE + SIZE] == header && r[lo..lo + |data|] == data
  {}

  lemma AllSamplesFit(segments: seq<seq<int>>, width: SampleWidth)
    requires forall i | 0 <= i < |segments| :: SamplesFit(segments[i], width)
    ensures SamplesFit(Flatten(segments), width)
  {
    if segments != [] {
      AllSamplesFit(segments[1..], width);
    }
  }

  /** The checks accept a declared descriptor and find its plan. */
  lemma PlanOfDeclared(wd: seq<Value>, user: nat, trig: nat, ris: nat, res: nat, k: nat, n: nat, width: SampleWidth,
                       ndx0: nat)
    requires |wd| == FIELDS && k >= 2 && n >= 1
    requires Int(wd, USER_TEXT) == user && Int(wd, TRIGTIME_ARRAY) == trig && Int(wd, RIS_TIME_ARRAY) == ris
        && Int(wd, RES_ARRAY1) == res
    requires Int(wd, COMM_TYPE) == width - 1 && Int(wd, SUBARRAY_COUNT) == k
        && Int(wd, WAVE_ARRAY_1) == Span(k * n, width)
    requires ndx0 == PREAMBLE + SIZE + user + trig + ris + res
    ensures PlanOf(wd) == Ok(Plan(k, n, width, ndx0))
  {
    CountsOfDeclared(k, n, width);
    RowLess(k, n);
  }

  /** Reading the samples where the plan says gives back the segments laid out there. */
  lemma GatherLaidOut(response: seq<Byte>, p: Plan, segments: seq<seq<int>>)
    requires p.k == |segments| >= 2 && p.n > 0 && p.ndx0 >= 0
    requires forall i | 0 <= i < |segments| :: |segments[i]| == p.n && SamplesFit(segments[i], p.width)
    requires p.ndx0 + Span(|Flatten(segments)|, p.width) <= |response|
    requires response[p.ndx0..p.ndx0 + Span(|Flatten(segments)|, p.width)] == EncodeSamples(Flatten(segments), p.width)
    ensures Gather(response, p) == Ok(segments)
  {
    SplitJoined(segments, p.n);
    AllSamplesFit(segments, p.width);
    SamplesRoundTrip(Flatten(segments), p.width);
  }

  lemma AcquireLaidOut(response: seq<Byte>, wd: seq<Value>, data: seq<Byte>, segments: seq<seq<int>>, p: Plan)
    requires |wd| == FIELDS && PlanOf(wd) == Ok(p) && p.k == |segments| && p.n > 0 && p.ndx0 >= 0
    requires forall i | 0 <= i < |segments| :: |segments[i]| == p.n && SamplesFit(segments[i], p.width)
    requires data == EncodeSamples(Flatten(segments), p.width)
    requires p.ndx0 + |data| <= |response| && response[p.ndx0..p.ndx0 + |data|] == data
    ensures AcquireDecoded(response, wd) == Ok(segments)
  {
    GatherLaidOut(response, p, segments);
  }

  lemma AcquireFromParts(preamble: seq<Byte>, header: seq<Byte>, wd: seq<Value>, blocks: seq<Byte>, data: seq<Byte>,
                         segments: seq<seq<int>>, p: Plan)
    requires |preamble| == PREAMBLE && |header| == SIZE && |wd| == FIELDS
    requires PlanOf(wd) == Ok(p) && p.ndx0 == PREAMBLE + SIZE + |blocks| && p.k == |segments| && p.n > 0
    requires forall i | 0 <= i < |segments| :: |segments[i]| == p.n && SamplesFit(segments[i], p.width)
    requires data == EncodeSamples(Flatten(segments), p.width)
    ensures var r := preamble + header + blocks + data;
      && |r| >= PREAMBLE + SIZE && r[PREAMBLE..PREAMBLE + SIZE] == header
      && AcquireDecoded(r, wd) == Ok(segments)
  {
    ResponseParts(preamble, header, blocks, data);
    AcquireLaidOut(preamble + header + blocks + data, wd, data, segments, p);
  }

  /** Laying out a preamble, a descriptor, the four blocks and the samples of k >= 2
      equal segments, then acquiring, gives back those segments. */
  lemma AcquireInvertsLayout(preamble: seq<Byte>, wd: seq<Value>, user: seq<Byte>, trig: seq<Byte>, ris: seq<Byte>,
                             res: seq<Byte>, segments: seq<seq<int>>, n: nat, width: SampleWidth)
    requires |preamble| == PREAMBLE && |segments| >= 2 && n >= 1
    requires forall i | 0 <= i < |segments| :: |segments[i]| == n && SamplesFit(segments[i], width)
    requires Declares(wd, |user|, |trig|, |ris|, |res|, |segments|, n, width)
    ensures AcquireSequence(Response(preamble, wd, user + trig + ris + res, segments, width)) == Ok(segments)
  {
    var blocks := user + trig + ris + res;
    DescriptorRoundTrips(wd, []);
    var ndx0 := PREAMBLE + SIZE + |blocks|;
    PlanOfDeclared(wd, |user|, |trig|, |ris|, |res|, |segments|, n, width, ndx0);
    var data := EncodeSamples(Flatten(segments), width);
    AcquireFromParts(preamble, Encode(wd), wd, blocks, data, segments, Plan(|segments|, n, width, ndx0));
  }

  // ---- a negative byte count -------------------------------------------------------

  function Zero(k: Kind): (v: Value)
    ensures Fits(k, v)
  {
    match k
    case Text(w) => Str(seq(w, i => 0))
    case Single => Bits([0, 0, 0, 0])
    case Double => Bits([0, 0, 0, 0, 0, 0, 0, 0])
    case _ => Num(0)
  }

  /** Two segments of bytes, wave_array_1 of -2, and zeros. */
  function NegativeDescriptor(): (wd: seq<Value>)
    ensures |wd| == FIELDS
  {
    Layout();
    seq(FIELDS, i requires 0 <= i < FIELDS => Zero(Format()[i]))[SUBARRAY_COUNT := Num(2)][WAVE_ARRAY_1 := Num(-2)]
  }

  lemma FirstFields()
    ensures |HeadFormat()| == SWEEPS_PER_ACQ
    ensures HeadFormat()[COMM_TYPE] == Short && forall i | USER_TEXT <= i <= WAVE_ARRAY_1 :: HeadFormat()[i] == Long
  {
    var front := Repeat(2, Text(16)) + Repeat(2, Short) + Repeat(10, Long);
    var back := Repeat(1, Text(16)) + Repeat(1, Long) + Repeat(1, Text(16)) + Repeat(2, Short) + Repeat(8, Long);
    assert |front| == 14 && front[COMM_TYPE] == Short;
    assert forall i | USER_TEXT <= i <= WAVE_ARRAY_1 :: front[i] == Repeat(10, Long)[i - 4];
    assert HeadFormat() == front + back;
  }

  lemma LastCount()
    ensures |HeadFormat()| == SWEEPS_PER_ACQ && HeadFormat()[SUBARRAY_COUNT] == Long
  {
    HeadLayout();
    assert HeadFormat()[SUBARRAY_COUNT] == Repeat(8, Long)[7];
  }

  lemma CountFields()
    ensures |Format()| == FIELDS
    ensures Format()[COMM_TYPE] == Short && Format()[SUBARRAY_COUNT] == Long
    ensures forall i | USER_TEXT <= i <= WAVE_ARRAY_1 :: Format()[i] == Long
  {
    Layout();
    FirstFields();
    LastCount();
    assert forall i | 0 <= i < SWEEPS_PER_ACQ :: Format()[i] == HeadFormat()[i];
  }

  lemma NegativeDescriptorPlan()
    ensures Matches(Format(), NegativeDescriptor())
    ensures PlanOf(NegativeDescriptor()) == Ok(Plan(2, -1, 1, PREAMBLE + SIZE))
    ensures Int(NegativeDescriptor(), WAVE_ARRAY_1) == -2
  {
    CountFields();
    var wd := NegativeDescriptor();
    assert wd[COMM_TYPE] == Num(0) && wd[SUBARRAY_COUNT] == Num(2) && wd[WAVE_ARRAY_1] == Num(-2);
  }

  lemma FourSamples()
    ensures DecodeSamples([1, 2, 3, 4], 1, 4) == [1, 2, 3, 4]
    ensures SplitSegments([1, 2, 3, 4], 2, 2) == [[1, 2], [3, 4]]
  {
    assert EncodeSamples([1, 2, 3, 4], 1) == [1, 2, 3, 4];
    SamplesRoundTrip([1, 2, 3, 4], 1);
    var segments: seq<seq<int>> := [[1, 2], [3, 4]];
    assert segments[1..] == [[3, 4]] && segments[1..][1..] == [];
    assert Flatten(segments) == [1, 2, 3, 4];
    SplitJoined(segments, 2);
  }

  lemma RestAcquired(preamble: seq<Byte>, header: seq<Byte>, wd: seq<Value>, p: Plan)
    requires |preamble| == PREAMBLE && |header| == SIZE && |wd| == FIELDS
    requires PlanOf(wd) == Ok(p) && p == Plan(2, -1, 1, PREAMBLE + SIZE)
    ensures var r := preamble + header + [1, 2, 3, 4];
      r[PREAMBLE..PREAMBLE + SIZE] == header && AcquireDecoded(r, wd) == Ok([[1, 2], [3, 4]])
  {
    var r := preamble + header + [1, 2, 3, 4];
    assert r[p.ndx0..] == [1, 2, 3, 4];
    FourSamples();
  }

  /** Such a response is acquired, as two halves of everything behind the descriptor,
      and `time_array` then raises. */
  lemma NegativeCountAcquired(preamble: seq<Byte>, t0: real, dt: real)
    requires |preamble| == PREAMBLE
    ensures Matches(Format(), NegativeDescriptor())
    ensures AcquireSequence(preamble + Encode(NegativeDescriptor()) + [1, 2, 3, 4]) == Ok([[1, 2], [3, 4]])
    ensures TimeArray(NegativeDescriptor(), t0, dt) == Err(NegativeCount)
  {
    NegativeDescriptorPlan();
    var wd := NegativeDescriptor();
    var p := Plan(2, -1, 1, PREAMBLE + SIZE);
    DescriptorRoundTrips(wd, []);
    TimeArrayOfPlan(wd, p, t0, dt);
    RestAcquired(preamble, Encode(wd), wd, p);
  }
}
