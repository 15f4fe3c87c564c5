/** A segmented acquisition told from the bytes of the response alone: which are the
    samples, what they are worth in volts, and when they were taken. */
module SequenceBytes {
  import opened Common
  import opened Wavedesc
  import opened WavedescFields
  import opened SequenceMode

  // ---- the fields in the response --------------------------------------------------

  /** comm_type, subarray_count, wave_array_1 and what lies between the descriptor and the
      samples (user_text, trigtime_array, ris_time_array, res_array1), each at 15 bytes
      behind its place in the descriptor. */
  datatype Declared = Declared(commType: int, segments: int, dataBytes: int, blockBytes: int)

  function DeclaredIn(response: seq<Byte>): Declared
    requires |response| >= 361
  {
    Declared(Signed(response[47..49]), Signed(response[159..163]), Signed(response[75..79]),
             Signed(response[55..59]) + Signed(response[63..67]) + Signed(response[67..71]) + Signed(response[71..75]))
  }

  function DeclaredBy(wd: seq<Value>): Declared
    requires |wd| == FIELDS
  {
    Declared(Int(wd, COMM_TYPE), Int(wd, SUBARRAY_COUNT), Int(wd, WAVE_ARRAY_1),
             Int(wd, USER_TEXT) + Int(wd, TRIGTIME_ARRAY) + Int(wd, RIS_TIME_ARRAY) + Int(wd, RES_ARRAY1))
  }

  lemma CountSlices(response: seq<Byte>, b: seq<Byte>)
    requires |response| >= 361 && b == response[15..361]
    ensures b[32..34] == response[47..49] && b[144..148] == response[159..163] && b[60..64] == response[75..79]
    ensures b[40..44] == response[55..59] && b[48..52] == response[63..67]
    ensures b[52..56] == response[67..71] && b[56..60] == response[71..75]
  {
    SliceOfSlice(response, 15, 361, 32, 34);
    SliceOfSlice(response, 15, 361, 40, 44);
    SliceOfSlice(response, 15, 361, 48, 52);
    SliceOfSlice(response, 15, 361, 52, 56);
    SliceOfSlice(response, 15, 361, 56, 60);
    SliceOfSlice(response, 15, 361, 60, 64);
    SliceOfSlice(response, 15, 361, 144, 148);
  }

  lemma ScaleSlices(response: seq<Byte>, b: seq<Byte>)
    requires |response| >= 361 && b == response[15..361]
    ensures b[156..160] == response[171..175] && b[160..164] == response[175..179]
    ensures b[176..180] == response[191..195] && b[180..188] == response[195..203]
  {
    SliceOfSlice(response, 15, 361, 156, 160);
    SliceOfSlice(response, 15, 361, 160, 164);
    SliceOfSlice(response, 15, 361, 176, 180);
    SliceOfSlice(response, 15, 361, 180, 188);
  }

  lemma DeclaredAgree(response: seq<Byte>, b: seq<Byte>, wd: seq<Value>)
    requires |response| >= 361 && b == response[15..361] && Decode(b) == Some(wd)
    ensures |wd| == FIELDS && DeclaredBy(wd) == DeclaredIn(response)
  {
    CountFieldsAt(b, wd);
    CountSlices(response, b);
  }

  /** A whole number of samples, and more than none, for each of at least two segments,
      in samples of one byte or two. */
  predicate Segmented(d: Declared) {
    && (d.commType == 0 || d.commType == 1) && d.segments >= 2
    && d.dataBytes / (d.commType + 1) != 0 && d.dataBytes / (d.commType + 1) % d.segments == 0
  }

  predicate PlanIs(d: Declared, p: Plan) {
    && p.k == d.segments && p.width == d.commType + 1
    && p.k * p.n == d.dataBytes / p.width && p.ndx0 == 361 + d.blockBytes
  }

  lemma PlanOfDeclaredBy(wd: seq<Value>, d: Declared)
    requires |wd| == FIELDS && DeclaredBy(wd) == d
    ensures PlanOf(wd).Ok? <==> Segmented(d)
    ensures PlanOf(wd).Ok? ==> PlanIs(d, PlanOf(wd).value)
  {
    if d.segments >= 2 && (d.commType == 0 || d.commType == 1) {
      var total := d.dataBytes / (d.commType + 1);
      assert total == d.segments * (total / d.segments) + total % d.segments;
    }
  }

  /** The plan of an acquisition, and whether there is one, read off the response. */
  lemma PlanFromBytes(response: seq<Byte>, wd: seq<Value>)
    requires |response| >= 361 && Decode(response[15..361]) == Some(wd)
    ensures |wd| == FIELDS && (PlanOf(wd).Ok? <==> Segmented(DeclaredIn(response)))
    ensures PlanOf(wd).Ok? ==> PlanIs(DeclaredIn(response), PlanOf(wd).value)
  {
    DeclaredAgree(response, response[15..361], wd);
    PlanOfDeclaredBy(wd, DeclaredIn(response));
  }

  // ---- samples ---------------------------------------------------------------------

  /** A successful acquisition has a descriptor, and it declares segments. */
  lemma Acquired(response: seq<Byte>) returns (wd: seq<Value>, p: Plan, segments: seq<seq<int>>)
    requires AcquireSequence(response).Ok?
    ensures AcquireSequence(response) == Ok(segments)
    ensures |response| >= 361 && Decode(response[15..361]) == Some(wd)
    ensures Segmented(DeclaredIn(response)) && PlanIs(DeclaredIn(response), p)
    ensures |wd| == FIELDS && PlanOf(wd) == Ok(p) && p.k >= 2 && p.n != 0 && Gather(response, p) == Ok(segments)
  {
    segments := AcquireSequence(response).value;
    wd := Decode(response[15..361]).value;
    p := AcquiredByPlan(response);
    PlanFromBytes(response, wd);
  }

  lemma SampleOfDeclared(response: seq<Byte>, d: Declared, p: Plan, segments: seq<seq<int>>, i: nat, j: nat)
    returns (at: int)
    requires PlanIs(d, p) && p.k >= 2 && p.n != 0 && Gather(response, p) == Ok(segments)
    requires i < |segments| && j < |segments[i]|
    ensures |segments| == d.segments
    ensures at == 361 + d.blockBytes + (d.commType + 1) * (i * |segments[i]| + j)
    ensures 0 <= at && 0 <= d.commType && at + d.commType + 1 <= |response|
    ensures segments[i][j] == Signed(response[at..at + d.commType + 1])
  {
    var m := i * |segments[i]| + j;
    var flat, n := GatheredFrom(response, p);
    SegmentsJoin(flat, p.k, n);
    SampleOfPlan(response, p, i, j, m);
    at := p.ndx0 + Span(m, p.width);
  }

  /** Sample `j` of segment `i` of a successful acquisition, by its bytes. */
  lemma SampleFromBytes(response: seq<Byte>, segments: seq<seq<int>>, i: nat, j: nat) returns (d: Declared, at: int)
    requires AcquireSequence(response) == Ok(segments) && i < |segments| && j < |segments[i]|
    ensures |response| >= 361 && d == DeclaredIn(response)
    ensures |segments| == d.segments && (d.commType == 0 || d.commType == 1)
    ensures at == 361 + d.blockBytes + (d.commType + 1) * (i * |segments[i]| + j)
    ensures 0 <= at && at + d.commType + 1 <= |response|
    ensures segments[i][j] == Signed(response[at..at + d.commType + 1])
  {
    var wd, p, same := Acquired(response);
    d := DeclaredIn(response);
    at := SampleOfDeclared(response, d, p, segments, i, j);
  }

  /** The declared samples lie in the response; with a negative count, everything behind
      the blocks is whole samples, as many for each segment. */
  predicate InBuffer(response: seq<Byte>, d: Declared)
    requires Segmented(d)
  {
    var lo, width := 361 + d.blockBytes, d.commType + 1;
    && 0 <= lo <= |response|
    && if d.dataBytes >= 0 then lo + width * (d.dataBytes / width) <= |response|
       else (|response| - lo) % width == 0 && (|response| - lo) / width % d.segments == 0
  }

  lemma GatherExactly(response: seq<Byte>, d: Declared, p: Plan)
    requires Segmented(d) && PlanIs(d, p) && p.n != 0
    ensures Gather(response, p).Ok? <==> InBuffer(response, d)
  {
    SignOfProduct(p.k, p.n);
  }

  /** An acquisition succeeds if and only if the response has a whole descriptor that
      declares segments and holds the samples it declares. */
  lemma AcquiredExactly(response: seq<Byte>)
    ensures AcquireSequence(response).Ok? <==>
      |response| >= 361 && Segmented(DeclaredIn(response)) && InBuffer(response, DeclaredIn(response))
  {
    if |response| >= 361 {
      var wd := Decode(response[15..361]).value;
      PlanFromBytes(response, wd);
      if PlanOf(wd).Ok? { GatherExactly(response, DeclaredIn(response), PlanOf(wd).value); }
    }
  }

  // ---- volts and seconds -----------------------------------------------------------

  lemma ScalesInResponse(response: seq<Byte>, b: seq<Byte>, wd: seq<Value>)
    requires |response| >= 361 && b == response[15..361] && Decode(b) == Some(wd)
    ensures |wd| == FIELDS
    ensures wd[VERTICAL_GAIN] == Bits(response[171..175]) && wd[VERTICAL_OFFSET] == Bits(response[175..179])
    ensures wd[HORIZ_INTERVAL] == Bits(response[191..195]) && wd[HORIZ_OFFSET] == Bits(response[195..203])
  {
    var gain, offset, interval, start := ScaleFieldsAt(b, wd);
    ScaleSlices(response, b);
  }

  /** Gain, offset, interval and start, as they stand in the response. */
  datatype Scales = Scales(gain: real, offset: real, interval: real, start: real)

  function ScalesIn(response: seq<Byte>, meaning: Value -> real): Scales
    requires |response| >= 361
  {
    Scales(meaning(Bits(response[171..175])), meaning(Bits(response[175..179])),
           meaning(Bits(response[191..195])), meaning(Bits(response[195..203])))
  }

  lemma ScalesAgree(response: seq<Byte>, wd: seq<Value>, meaning: Value -> real)
    requires |response| >= 361 && Decode(response[15..361]) == Some(wd)
    ensures |wd| == FIELDS && ScalesIn(response, meaning)
      == Scales(meaning(wd[VERTICAL_GAIN]), meaning(wd[VERTICAL_OFFSET]), meaning(wd[HORIZ_INTERVAL]),
          meaning(wd[HORIZ_OFFSET]))
  {
    ScalesInResponse(response, response[15..361], wd);
  }

  lemma VoltOfSegments(segments: seq<seq<int>>, gain: real, offset: real, i: nat, j: nat)
    requires i < |segments| && j < |segments[i]|
    ensures var volts := EachInVolts(segments, gain, offset);
      |volts[i]| == |segments[i]| && volts[i][j] == segments[i][j] as real * gain - offset
  {}

  lemma VoltsAcquired(response: seq<Byte>, wd: seq<Value>, meaning: Value -> real, segments: seq<seq<int>>)
    requires |response| >= 361 && Decode(response[15..361]) == Some(wd) && |wd| == FIELDS
    requires AcquireSequence(response) == Ok(segments)
    ensures AcquireVolts(response, meaning)
         == Ok(EachInVolts(segments, meaning(wd[VERTICAL_GAIN]), meaning(wd[VERTICAL_OFFSET])))
  {
    ScalingCommutes(response, wd, meaning);
  }

  /** Each volt of the default acquisition is the raw sample times the gain minus the
      offset that stand in the response. */
  lemma VoltFromBytes(response: seq<Byte>, segments: seq<seq<int>>, meaning: Value -> real, i: nat, j: nat)
    returns (volts: seq<seq<real>>, scales: Scales)
    requires AcquireSequence(response) == Ok(segments) && i < |segments| && j < |segments[i]|
    ensures |response| >= 361 && scales == ScalesIn(response, meaning) && AcquireVolts(response, meaning) == Ok(volts)
    ensures |volts| == |segments| && |volts[i]| == |segments[i]|
    ensures volts[i][j] == segments[i][j] as real * scales.gain - scales.offset
  {
    var wd, p, same := Acquired(response);
    VoltsAcquired(response, wd, meaning, segments);
    ScalesAgree(response, wd, meaning);
    scales := ScalesIn(response, meaning);
    volts := EachInVolts(segments, scales.gain, scales.offset);
    VoltOfSegments(segments, scales.gain, scales.offset, i, j);
  }

  lemma TimeOfPlan(wd: seq<Value>, p: Plan, meaning: Value -> real, scales: Scales)
    returns (r: Result<seq<real>, WaveError>)
    requires |wd| == FIELDS && PlanOf(wd) == Ok(p)
    requires scales.start == meaning(wd[HORIZ_OFFSET]) && scales.interval == meaning(wd[HORIZ_INTERVAL])
    ensures r == OwnTimeArray(wd, meaning) && (r.Ok? <==> p.n > 0)
    ensures r.Ok? ==> |r.value| == p.n && Axis(r.value, scales.start, scales.interval)
  {
    r := OwnTimeArray(wd, meaning);
    TimeArrayOfPlan(wd, p, scales.start, scales.interval);
    if p.n > 0 { LinspaceIsAxis(scales.start, scales.interval, p.n); }
  }

  lemma PlanSignDeclared(response: seq<Byte>, wd: seq<Value>, p: Plan)
    requires |response| >= 361 && Decode(response[15..361]) == Some(wd) && |wd| == FIELDS && PlanOf(wd) == Ok(p)
    ensures p.n > 0 <==> DeclaredIn(response).dataBytes >= 0
  {
    DeclaredAgree(response, response[15..361], wd);
    PlanSign(wd, p);
  }

  /** Sample `j` of any segment was taken `j` intervals after the horizontal offset, both
      as they stand in the response. */
  lemma TimeFromBytes(response: seq<Byte>, meaning: Value -> real, j: nat)
    returns (wd: seq<Value>, r: Result<seq<real>, WaveError>, scales: Scales)
    requires AcquireSequence(response).Ok?
    ensures |response| >= 361 && Decode(response[15..361]) == Some(wd) && |wd| == FIELDS
    ensures scales == ScalesIn(response, meaning) && r == OwnTimeArray(wd, meaning)
    ensures r.Ok? <==> DeclaredIn(response).dataBytes >= 0
    ensures r.Ok? && j < |r.value| ==> r.value[j] == scales.start + j as real * scales.interval
  {
    var p, segments;
    wd, p, segments := Acquired(response);
    PlanSignDeclared(response, wd, p);
    ScalesAgree(response, wd, meaning);
    scales := ScalesIn(response, meaning);
    r := TimeOfPlan(wd, p, meaning, scales);
  }
}
