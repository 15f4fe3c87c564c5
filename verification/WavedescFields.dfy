/** Where in the 346 bytes of a descriptor the fields lie that the drivers use, and what
    their bytes mean. */
module WavedescFields {
  import opened Common
  import opened Wavedesc

  /** Two and four bytes, least significant first, in two's complement. */
  lemma SignedMeaning(b: seq<Byte>)
    ensures |b| == 1 ==> Signed(b) == if b[0] < 128 then b[0] as int else b[0] as int - 256
    ensures |b| == 2 ==>
      Signed(b) == b[0] as int + 256 * b[1] as int - if b[1] < 128 then 0 else 65536
    ensures |b| == 4 ==>
      Signed(b) == b[0] as int + 256 * b[1] as int + 65536 * b[2] as int + 16777216 * b[3] as int
                   - if b[3] < 128 then 0 else 4294967296
  {
    if |b| > 1 {
      assert b[1..][0] == b[1];
      if |b| == 4 {
        assert b[1..][1..] == b[2..] && b[2..][1..] == b[3..] && b[3..] == [b[3]];
        assert Signed(b[2..]) == b[2] as int + 256 * Signed(b[3..]);
      } else if |b| == 2 {
        assert b[1..] == [b[1]];
      }
    }
  }

  // ---- the format string -----------------------------------------------------------

  function KindOf(c: char): Kind {
    match c case 'h' => Short case 'l' => Long case 'f' => Single case 'd' => Double case _ => Octet
  }

  /** A run of one-letter fields of a `struct` format. */
  function Letters(s: string): (f: seq<Kind>)
    ensures |f| == |s|
  {
    seq(|s|, i requires 0 <= i < |s| => KindOf(s[i]))
  }

  lemma RunOfLetters(s: string, c: char)
    requires forall i | 0 <= i < |s| :: s[i] == c
    ensures Letters(s) == Repeat(|s|, KindOf(c))
  {}

  lemma MoreLetters(s: string, t: string)
    ensures Letters(s + t) == Letters(s) + Letters(t)
  {}

  lemma HeadAsWritten()
    ensures HeadFormat() + [Long] ==
      [Text(16), Text(16)] + Letters("hhllllllllll") + [Text(16)] + Letters("l") + [Text(16)] + Letters("hhlllllllll")
  {
    assert Repeat(2, Text(16)) == [Text(16), Text(16)] && Repeat(1, Text(16)) == [Text(16)];
    RunOfLetters("hh", 'h');
    RunOfLetters("llllllllll", 'l');
    RunOfLetters("l", 'l');
    RunOfLetters("lllllllll", 'l');
    MoreLetters("hh", "llllllllll");
    MoreLetters("hh", "lllllllll");
    assert "hh" + "llllllllll" == "hhllllllllll" && "hh" + "lllllllll" == "hhlllllllll";
    assert Repeat(8, Long) + [Long] == Repeat(9, Long);
  }

  lemma MiddleAsWritten()
    ensures MiddleFormat() == Letters("hhffffhhfdd") + [Text(48), Text(48)]
  {
    assert Repeat(2, Text(48)) == [Text(48), Text(48)];
    assert Repeat(2, Short) + Repeat(4, Single) + Repeat(2, Short) + Repeat(1, Single) + Repeat(2, Double)
        == Letters("hhffffhhfdd");
  }

  lemma TailAsWritten()
    ensures TailFormat() == Letters("fdBBBBhhfhhhhhhfhhffh")
  {}

  /** `WAVEDESC_FMT`, piece by piece. */
  lemma FormatAsWritten()
    ensures Format() ==
      [Text(16), Text(16)] + Letters("hhllllllllll") + [Text(16)] + Letters("l") + [Text(16)] + Letters("hhlllllllll")
      + Letters("hhffffhhfdd") + [Text(48), Text(48)] + Letters("fdBBBBhhfhhhhhhfhhffh")
  {
    HeadAsWritten();
    MiddleAsWritten();
    TailAsWritten();
    var head := HeadFormat() + [Long];
    assert Format() == head + MiddleFormat() + TailFormat();
    assert head + (Letters("hhffffhhfdd") + [Text(48), Text(48)]) + TailFormat()
        == head + Letters("hhffffhhfdd") + [Text(48), Text(48)] + TailFormat();
  }

  // ---- where a field stands ------------------------------------------------------

  /** Field `i` of a format is of kind `k` and starts at byte `lo`. */
  predicate Stands(fmt: seq<Kind>, i: nat, k: Kind, lo: nat) { i < |fmt| && fmt[i] == k && Size(fmt[..i]) == lo }

  lemma InRepeat(n: nat, k: Kind, i: nat)
    requires i < n
    ensures Stands(Repeat(n, k), i, k, i * Width(k))
  {
    assert Repeat(n, k)[..i] == Repeat(i, k);
    RepeatSize(i, k);
  }

  lemma InFront(f: seq<Kind>, g: seq<Kind>, i: nat, k: Kind, lo: nat)
    requires Stands(f, i, k, lo)
    ensures Stands(f + g, i, k, lo)
  {
    assert (f + g)[..i] == f[..i];
  }

  lemma Behind(f: seq<Kind>, g: seq<Kind>, i: nat, k: Kind, lo: nat)
    requires Stands(g, i, k, lo)
    ensures Stands(f + g, |f| + i, k, Size(f) + lo)
  {
    assert (f + g)[..|f| + i] == f + g[..i];
    SizeAppend(f, g[..i]);
  }

  lemma UnpackAt(fmt: seq<Kind>, b: seq<Byte>, i: nat, k: Kind, lo: nat)
    requires |b| == Size(fmt) && Stands(fmt, i, k, lo)
    ensures lo + Width(k) <= |b| && Unpack(fmt, b)[i] == Get(k, b[lo..lo + Width(k)])
  {
    PieceAt(fmt, b, i);
  }

  /** A field of the descriptor. */
  lemma FieldAt(b: seq<Byte>, wd: seq<Value>, i: nat, k: Kind, lo: nat)
    requires Decode(b) == Some(wd) && Stands(Format(), i, k, lo)
    ensures i < |wd| == FIELDS && lo + Width(k) <= |b| && wd[i] == Get(k, b[lo..lo + Width(k)])
  {
    Layout();
    UnpackAt(Format(), b, i, k, lo);
  }

  lemma InHead(i: nat, k: Kind, lo: nat)
    requires Stands(HeadFormat(), i, k, lo)
    ensures Stands(Format(), i, k, lo)
  {
    InFront(HeadFormat(), [Long] + (MiddleFormat() + TailFormat()), i, k, lo);
  }

  /** descriptor_name .. wave_array_1 and three more Longs. */
  function Leading(): seq<Kind> { Repeat(2, Text(16)) + Repeat(2, Short) + Repeat(10, Long) }

  lemma LeadingInHead(i: nat, k: Kind, lo: nat)
    requires Stands(Leading(), i, k, lo)
    ensures Stands(Format(), i, k, lo)
  {
    var rest := Repeat(1, Text(16)) + Repeat(1, Long) + Repeat(1, Text(16)) + Repeat(2, Short) + Repeat(8, Long);
    InFront(Leading(), rest, i, k, lo);
    assert HeadFormat() == Leading() + rest;
    InHead(i, k, lo);
  }

  lemma CommTypeStands()
    ensures Stands(Format(), 2, Short, 32)
  {
    InRepeat(2, Short, 0);
    RepeatSize(2, Text(16));
    Behind(Repeat(2, Text(16)), Repeat(2, Short), 0, Short, 0);
    InFront(Repeat(2, Text(16)) + Repeat(2, Short), Repeat(10, Long), 2, Short, 32);
    LeadingInHead(2, Short, 32);
  }

  lemma LongStands(i: nat, lo: nat)
    requires 4 <= i < 14 && lo == 36 + 4 * (i - 4)
    ensures Stands(Format(), i, Long, lo)
  {
    InRepeat(10, Long, i - 4);
    RepeatSize(2, Text(16));
    var front := Grow(Repeat(2, Text(16)), 2, Short);
    Behind(front, Repeat(10, Long), i - 4, Long, (i - 4) * 4);
    LeadingInHead(i, Long, lo);
  }

  /** The last Long of the head. */
  lemma LastCount(front: seq<Kind>)
    requires |HeadFormat()| == 27 && Size(HeadFormat()) == 148 && front == HeadFormat()[..26]
    ensures Stands(HeadFormat(), 26, Long, 144)
  {
    assert HeadFormat()[26] == Repeat(8, Long)[7];
    assert HeadFormat() == front + [Long];
    SizeAppend(front, [Long]);
    assert Size([Long]) == 4;
  }

  lemma SubarrayCountStands()
    ensures Stands(Format(), 26, Long, 144)
  {
    HeadLayout();
    var front := HeadFormat()[..26];
    LastCount(front);
    InHead(26, Long, 144);
  }

  // ---- behind the sweep counter ----------------------------------------------------

  lemma InMiddle(i: nat, k: Kind, lo: nat)
    requires Stands(MiddleFormat(), i, k, lo)
    ensures Stands(Format(), 28 + i, k, 152 + lo)
  {
    HeadLayout();
    InFront(MiddleFormat(), TailFormat(), i, k, lo);
    Behind([Long], MiddleFormat() + TailFormat(), i, k, lo);
    assert Size([Long]) == 4;
    Behind(HeadFormat(), [Long] + (MiddleFormat() + TailFormat()), 1 + i, k, 4 + lo);
  }

  /** Gain and offset are the first two of four Singles. */
  lemma VerticalStands(i: nat, lo: nat)
    requires 30 <= i < 32 && lo == 156 + 4 * (i - 30)
    ensures Stands(Format(), i, Single, lo)
  {
    InRepeat(4, Single, i - 30);
    RepeatSize(2, Short);
    Behind(Repeat(2, Short), Repeat(4, Single), i - 30, Single, (i - 30) * 4);
    var front := Repeat(2, Short) + Repeat(4, Single);
    var rest := Repeat(2, Short) + Repeat(1, Single) + Repeat(2, Double) + Repeat(2, Text(48));
    InFront(front, rest, i - 28, Single, lo - 152);
    assert MiddleFormat() == front + rest;
    InMiddle(i - 28, Single, lo - 152);
  }

  /** points_per_pair .. nom_subarray_count. */
  lemma NominalEnd() returns (f: seq<Kind>)
    ensures f == Repeat(2, Short) + Repeat(4, Single) + Repeat(2, Short) && |f| == 8 && Size(f) == 24
  {
    RepeatSize(2, Short);
    f := Grow(Repeat(2, Short), 4, Single);
    f := Grow(f, 2, Short);
  }

  lemma IntervalStands()
    ensures Stands(Format(), 36, Single, 176)
  {
    var front := NominalEnd();
    var rest := Repeat(2, Double) + Repeat(2, Text(48));
    InRepeat(1, Single, 0);
    Behind(front, Repeat(1, Single), 0, Single, 0);
    InFront(front + Repeat(1, Single), rest, 8, Single, 24);
    assert MiddleFormat() == front + Repeat(1, Single) + rest;
    InMiddle(8, Single, 24);
  }

  lemma OffsetStands()
    ensures Stands(Format(), 37, Double, 180)
  {
    var front := NominalEnd();
    front := Grow(front, 1, Single);
    InRepeat(2, Double, 0);
    Behind(front, Repeat(2, Double), 0, Double, 0);
    InFront(front + Repeat(2, Double), Repeat(2, Text(48)), 9, Double, 28);
    InMiddle(9, Double, 28);
  }

  // ---- the fields by their bytes ---------------------------------------------------

  lemma CommTypeField(b: seq<Byte>, wd: seq<Value>)
    requires Decode(b) == Some(wd)
    ensures |wd| == FIELDS && |b| == 346 && wd[COMM_TYPE] == Num(Signed(b[32..34]))
  {
    CommTypeStands();
    FieldAt(b, wd, 2, Short, 32);
  }

  lemma SubarrayCountField(b: seq<Byte>, wd: seq<Value>)
    requires Decode(b) == Some(wd)
    ensures |wd| == FIELDS && |b| == 346 && wd[SUBARRAY_COUNT] == Num(Signed(b[144..148]))
  {
    SubarrayCountStands();
    FieldAt(b, wd, 26, Long, 144);
  }

  lemma BlockFields(b: seq<Byte>, wd: seq<Value>)
    requires Decode(b) == Some(wd)
    ensures |b| == 346 && |wd| == FIELDS
    ensures wd[USER_TEXT] == Num(Signed(b[40..44])) && wd[TRIGTIME_ARRAY] == Num(Signed(b[48..52]))
    ensures wd[RIS_TIME_ARRAY] == Num(Signed(b[52..56])) && wd[RES_ARRAY1] == Num(Signed(b[56..60]))
    ensures wd[WAVE_ARRAY_1] == Num(Signed(b[60..64]))
  {
    LongStands(5, 40);
    FieldAt(b, wd, 5, Long, 40);
    LongStands(7, 48);
    FieldAt(b, wd, 7, Long, 48);
    LongStands(8, 52);
    FieldAt(b, wd, 8, Long, 52);
    LongStands(9, 56);
    FieldAt(b, wd, 9, Long, 56);
    LongStands(10, 60);
    FieldAt(b, wd, 10, Long, 60);
  }

  /** The fields that tell where the samples are. */
  lemma CountFieldsAt(b: seq<Byte>, wd: seq<Value>)
    requires Decode(b) == Some(wd)
    ensures |b| == 346 && |wd| == FIELDS
    ensures wd[COMM_TYPE] == Num(Signed(b[32..34])) && wd[SUBARRAY_COUNT] == Num(Signed(b[144..148]))
    ensures wd[USER_TEXT] == Num(Signed(b[40..44])) && wd[TRIGTIME_ARRAY] == Num(Signed(b[48..52]))
    ensures wd[RIS_TIME_ARRAY] == Num(Signed(b[52..56])) && wd[RES_ARRAY1] == Num(Signed(b[56..60]))
    ensures wd[WAVE_ARRAY_1] == Num(Signed(b[60..64]))
  {
    CommTypeField(b, wd);
    SubarrayCountField(b, wd);
    BlockFields(b, wd);
  }

  lemma GainField(b: seq<Byte>, wd: seq<Value>)
    requires Decode(b) == Some(wd)
    ensures |b| == 346 && |wd| == FIELDS && wd[VERTICAL_GAIN] == Bits(b[156..160])
  {
    VerticalStands(30, 156);
    FieldAt(b, wd, 30, Single, 156);
  }

  lemma OffsetField(b: seq<Byte>, wd: seq<Value>)
    requires Decode(b) == Some(wd)
    ensures |b| == 346 && |wd| == FIELDS && wd[VERTICAL_OFFSET] == Bits(b[160..164])
  {
    VerticalStands(31, 160);
    FieldAt(b, wd, 31, Single, 160);
  }

  lemma HorizontalFields(b: seq<Byte>, wd: seq<Value>)
    requires Decode(b) == Some(wd)
    ensures |b| == 346 && |wd| == FIELDS
    ensures wd[HORIZ_INTERVAL] == Bits(b[176..180]) && wd[HORIZ_OFFSET] == Bits(b[180..188])
  {
    IntervalStands();
    FieldAt(b, wd, 36, Single, 176);
    OffsetStands();
    FieldAt(b, wd, 37, Double, 180);
  }

  /** The fields that scale samples to volts and seconds. */
  lemma ScaleFieldsAt(b: seq<Byte>, wd: seq<Value>) returns (gain: Value, offset: Value, interval: Value, start: Value)
    requires Decode(b) == Some(wd)
    ensures |b| == 346 && |wd| == FIELDS
    ensures gain == wd[VERTICAL_GAIN] == Bits(b[156..160]) && offset == wd[VERTICAL_OFFSET] == Bits(b[160..164])
    ensures interval == wd[HORIZ_INTERVAL] == Bits(b[176..180]) && start == wd[HORIZ_OFFSET] == Bits(b[180..188])
  {
    GainField(b, wd);
    OffsetField(b, wd);
    HorizontalFields(b, wd);
    gain, offset, interval, start := wd[VERTICAL_GAIN], wd[VERTICAL_OFFSET], wd[HORIZ_INTERVAL], wd[HORIZ_OFFSET];
  }
}
