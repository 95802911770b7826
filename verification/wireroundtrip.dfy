/**
 * Round trips: reading what was written gives back the message, and what the writers
 * change is exactly the sign of negative zeros in plain double fields.
 */
module WireRoundTrip {
  import opened WireScalars
  import opened WireMessages
  import opened WireReader
  import WireFormat

  /** Bytes that consist of whole fields, all numbered above `max`: what a reader keeps aside. */
  ghost predicate Unknowns(u: bytes, max: nat)
    decreases |u|
  {
    u != [] ==> SkipField(u).Ok? && Skips(u, max, SkipField(u).value) && Unknowns(u[SkipField(u).value..], max)
  }

  /** A field of `k` bytes, numbered above `max`, comes first. */
  ghost predicate Skips(u: bytes, max: nat, k: nat) {
    ReadTag(u).Ok? && ReadTag(u).value.field > max && SkipField(u) == Ok(k)
  }

  lemma UnknownsFirst(u: bytes, max: nat) returns (k: nat, tail: bytes)
    requires u != [] && Unknowns(u, max)
    ensures 1 <= k <= |u| && Skips(u, max, k) && tail == u[k..] && Unknowns(tail, max)
  {
    k := SkipField(u).value;
    tail := u[k..];
  }

  /** The one-byte tags of all fields here. */
  predicate IsTag(tag: byte, t: Tag) {
    8 <= tag < 128 && tag % 8 != 4 && t == Tag(tag / 8, tag % 8, 1)
  }

  lemma TagOf(tag: byte, s: bytes, t: Tag)
    requires IsTag(tag, t) && s != [] && s[0] == tag
    ensures ReadTag(s) == Ok(t)
  {
  }

  // ----- regrouping -----

  lemma Regroup(a: bytes, u: bytes, k: nat, tail: bytes)
    requires k <= |u| && tail == u[k..]
    ensures (a + u[..k]) + tail == a + u
  {
  }

  lemma Grow<T>(a: seq<T>, ys: seq<T>)
    requires ys != []
    ensures (a + [ys[0]]) + ys[1..] == a + ys
  {
  }

  lemma FieldInFront(tag: byte, payload: bytes, rest: bytes, s: bytes, n: nat)
    requires s == [tag] + payload + rest && n == 1 + |payload|
    ensures s != [] && s[0] == tag && s[1..] == payload + rest && s[n..] == rest
  {
  }

  // ----- a field at the front is consumed; unknown fields are kept -----

  lemma LabelStep(tag: byte, payload: bytes, rest: bytes, t: Tag, m: Label, m': Label)
    requires IsTag(tag, t) && LabelField(m, t, payload + rest) == Ok(Known(m', |payload|))
    ensures ParseLabel([tag] + payload + rest, m) == ParseLabel(rest, m')
  {
    var s, n := [tag] + payload + rest, 1 + |payload|;
    FieldInFront(tag, payload, rest, s, n);
    TagOf(tag, s, t);
    assert NextLabel(s, m) == Ok(Read(m', n));
  }

  lemma LabelKeeps(u: bytes, k: nat, tail: bytes, m: Label, m': Label, last: Label)
    requires Skips(u, 2, k) && tail == u[k..] && m' == m.(unrecognized := m.unrecognized + u[..k])
    requires ParseLabel(tail, m') == Ok(last)
    ensures ParseLabel(u, m) == Ok(last)
  {
    var t := ReadTag(u).value;
    assert LabelField(m, t, u[t.n..]) == Ok(Unknown);
    assert NextLabel(u, m) == Ok(Read(m', k));
  }

  lemma {:induction false} LabelUnknowns(u: bytes, m: Label, last: Label)
    requires Unknowns(u, 2) && last == m.(unrecognized := m.unrecognized + u)
    ensures ParseLabel(u, m) == Ok(last)
    decreases |u|
  {
    if u == [] {
      assert last == m;
    } else {
      var k, tail := UnknownsFirst(u, 2);
      var m' := m.(unrecognized := m.unrecognized + u[..k]);
      Regroup(m.unrecognized, u, k, tail);
      LabelUnknowns(tail, m', last);
      LabelKeeps(u, k, tail, m, m', last);
    }
  }

  lemma SampleStep(tag: byte, payload: bytes, rest: bytes, t: Tag, m: Sample, m': Sample)
    requires IsTag(tag, t) && SampleField(m, t, payload + rest) == Ok(Known(m', |payload|))
    ensures ParseSample([tag] + payload + rest, m) == ParseSample(rest, m')
  {
    var s, n := [tag] + payload + rest, 1 + |payload|;
    FieldInFront(tag, payload, rest, s, n);
    TagOf(tag, s, t);
    assert NextSample(s, m) == Ok(Read(m', n));
  }

  lemma SampleKeeps(u: bytes, k: nat, tail: bytes, m: Sample, m': Sample, last: Sample)
    requires Skips(u, 2, k) && tail == u[k..] && m' == m.(unrecognized := m.unrecognized + u[..k])
    requires ParseSample(tail, m') == Ok(last)
    ensures ParseSample(u, m) == Ok(last)
  {
    var t := ReadTag(u).value;
    assert SampleField(m, t, u[t.n..]) == Ok(Unknown);
    assert NextSample(u, m) == Ok(Read(m', k));
  }

  lemma {:induction false} SampleUnknowns(u: bytes, m: Sample, last: Sample)
    requires Unknowns(u, 2) && last == m.(unrecognized := m.unrecognized + u)
    ensures ParseSample(u, m) == Ok(last)
    decreases |u|
  {
    if u == [] {
      assert last == m;
    } else {
      var k, tail := UnknownsFirst(u, 2);
      var m' := m.(unrecognized := m.unrecognized + u[..k]);
      Regroup(m.unrecognized, u, k, tail);
      SampleUnknowns(tail, m', last);
      SampleKeeps(u, k, tail, m, m', last);
    }
  }

  lemma SpanStep(tag: byte, payload: bytes, rest: bytes, t: Tag, m: BucketSpan, m': BucketSpan)
    requires IsTag(tag, t) && SpanField(m, t, payload + rest) == Ok(Known(m', |payload|))
    ensures ParseSpan([tag] + payload + rest, m) == ParseSpan(rest, m')
  {
    var s, n := [tag] + payload + rest, 1 + |payload|;
    FieldInFront(tag, payload, rest, s, n);
    TagOf(tag, s, t);
    assert NextSpan(s, m) == Ok(Read(m', n));
  }

  lemma SpanKeeps(u: bytes, k: nat, tail: bytes, m: BucketSpan, m': BucketSpan, last: BucketSpan)
    requires Skips(u, 2, k) && tail == u[k..] && m' == m.(unrecognized := m.unrecognized + u[..k])
    requires ParseSpan(tail, m') == Ok(last)
    ensures ParseSpan(u, m) == Ok(last)
  {
    var t := ReadTag(u).value;
    assert SpanField(m, t, u[t.n..]) == Ok(Unknown);
    assert NextSpan(u, m) == Ok(Read(m', k));
  }

  lemma {:induction false} SpanUnknowns(u: bytes, m: BucketSpan, last: BucketSpan)
    requires Unknowns(u, 2) && last == m.(unrecognized := m.unrecognized + u)
    ensures ParseSpan(u, m) == Ok(last)
    decreases |u|
  {
    if u == [] {
      assert last == m;
    } else {
      var k, tail := UnknownsFirst(u, 2);
      var m' := m.(unrecognized := m.unrecognized + u[..k]);
      Regroup(m.unrecognized, u, k, tail);
      SpanUnknowns(tail, m', last);
      SpanKeeps(u, k, tail, m, m', last);
    }
  }

  lemma ExemplarStep(tag: byte, payload: bytes, rest: bytes, t: Tag, m: Exemplar, m': Exemplar)
    requires IsTag(tag, t) && ExemplarField(m, t, payload + rest) == Ok(Known(m', |payload|))
    ensures ParseExemplar([tag] + payload + rest, m) == ParseExemplar(rest, m')
  {
    var s, n := [tag] + payload + rest, 1 + |payload|;
    FieldInFront(tag, payload, rest, s, n);
    TagOf(tag, s, t);
    assert NextExemplar(s, m) == Ok(Read(m', n));
  }

  lemma ExemplarKeeps(u: bytes, k: nat, tail: bytes, m: Exemplar, m': Exemplar, last: Exemplar)
    requires Skips(u, 3, k) && tail == u[k..] && m' == m.(unrecognized := m.unrecognized + u[..k])
    requires ParseExemplar(tail, m') == Ok(last)
    ensures ParseExemplar(u, m) == Ok(last)
  {
    var t := ReadTag(u).value;
    assert ExemplarField(m, t, u[t.n..]) == Ok(Unknown);
    assert NextExemplar(u, m) == Ok(Read(m', k));
  }

  lemma {:induction false} ExemplarUnknowns(u: bytes, m: Exemplar, last: Exemplar)
    requires Unknowns(u, 3) && last == m.(unrecognized := m.unrecognized + u)
    ensures ParseExemplar(u, m) == Ok(last)
    decreases |u|
  {
    if u == [] {
      assert last == m;
    } else {
      var k, tail := UnknownsFirst(u, 3);
      var m' := m.(unrecognized := m.unrecognized + u[..k]);
      Regroup(m.unrecognized, u, k, tail);
      ExemplarUnknowns(tail, m', last);
      ExemplarKeeps(u, k, tail, m, m', last);
    }
  }

  lemma HistogramStep(tag: byte, payload: bytes, rest: bytes, t: Tag, m: Histogram, m': Histogram)
    requires IsTag(tag, t) && HistogramField(m, t, payload + rest) == Ok(Known(m', |payload|))
    ensures ParseHistogram([tag] + payload + rest, m) == ParseHistogram(rest, m')
  {
    var s, n := [tag] + payload + rest, 1 + |payload|;
    FieldInFront(tag, payload, rest, s, n);
    TagOf(tag, s, t);
    assert NextHistogram(s, m) == Ok(Read(m', n));
  }

  lemma HistogramKeeps(u: bytes, k: nat, tail: bytes, m: Histogram, m': Histogram)
    requires Skips(u, 15, k) && tail == u[k..] && m' == m.(unrecognized := m.unrecognized + u[..k])
    ensures ParseHistogram(u, m) == ParseHistogram(tail, m')
  {
    var t := ReadTag(u).value;
    assert HistogramField(m, t, u[t.n..]) == Ok(Unknown);
    assert NextHistogram(u, m) == Ok(Read(m', k));
  }

  lemma {:induction false} HistogramUnknowns(u: bytes, m: Histogram, last: Histogram)
    requires Unknowns(u, 15) && last == m.(unrecognized := m.unrecognized + u)
    ensures ParseHistogram(u, m) == Ok(last)
    decreases |u|
  {
    if u == [] {
      assert m.unrecognized + u == m.unrecognized;
    } else {
      var k, tail := UnknownsFirst(u, 15);
      var m' := m.(unrecognized := m.unrecognized + u[..k]);
      Regroup(m.unrecognized, u, k, tail);
      HistogramKeeps(u, k, tail, m, m');
      HistogramUnknowns(tail, m', last);
    }
  }

  lemma TimeSeriesStep(tag: byte, payload: bytes, rest: bytes, t: Tag, m: TimeSeries, m': TimeSeries)
    requires IsTag(tag, t) && TimeSeriesField(m, t, payload + rest) == Ok(Known(m', |payload|))
    ensures ParseTimeSeries([tag] + payload + rest, m) == ParseTimeSeries(rest, m')
  {
    var s, n := [tag] + payload + rest, 1 + |payload|;
    FieldInFront(tag, payload, rest, s, n);
    TagOf(tag, s, t);
    assert NextTimeSeries(s, m) == Ok(Read(m', n));
  }

  lemma TimeSeriesKeeps(u: bytes, k: nat, tail: bytes, m: TimeSeries, m': TimeSeries)
    requires Skips(u, 4, k) && tail == u[k..] && m' == m.(unrecognized := m.unrecognized + u[..k])
    ensures ParseTimeSeries(u, m) == ParseTimeSeries(tail, m')
  {
    var t := ReadTag(u).value;
    assert TimeSeriesField(m, t, u[t.n..]) == Ok(Unknown);
    assert NextTimeSeries(u, m) == Ok(Read(m', k));
  }

  lemma {:induction false} TimeSeriesUnknowns(u: bytes, m: TimeSeries, last: TimeSeries)
    requires Unknowns(u, 4) && last == m.(unrecognized := m.unrecognized + u)
    ensures ParseTimeSeries(u, m) == Ok(last)
    decreases |u|
  {
    if u == [] {
      assert m.unrecognized + u == m.unrecognized;
    } else {
      var k, tail := UnknownsFirst(u, 4);
      var m' := m.(unrecognized := m.unrecognized + u[..k]);
      Regroup(m.unrecognized, u, k, tail);
      TimeSeriesKeeps(u, k, tail, m, m');
      TimeSeriesUnknowns(tail, m', last);
    }
  }

  // ----- one field after another -----

  /** What a plain double field keeps: -0.0 is not written, so it comes back as +0.0. */
  function Plain(d: u64): u64 {
    if IsZero(d) then 0 else d
  }

  lemma Sint32Read(x: i32)
    ensures Unzig32(Zig32(x) % TWO_32) == x && (Zig32(x) == 0 <==> x == 0)
  {
    ZigZag(x);
  }

  lemma IntRead(x: i64)
    ensures Signed64(Unsigned64(x) % TWO_64) == x && (Unsigned64(x) == 0 <==> x == 0)
    ensures -0x8000_0000 <= x < 0x8000_0000 ==> Signed32(Unsigned64(x) % TWO_32) == x
  {
    TwosComplement(x);
  }

  lemma LabelName(x: bytes, rest: bytes, m: Label, m': Label)
    requires |x| < TWO_63 && m.name == [] && m' == m.(name := x)
    ensures ParseLabel(BytesField(0x0a, x) + rest, m) == ParseLabel(rest, m')
  {
    if x == [] {
      assert BytesField(0x0a, x) + rest == rest;
    } else {
      var payload := Delimited(x);
      ReadBytesOf(x, rest);
      LabelStep(0x0a, payload, rest, Tag(1, 2, 1), m, m');
    }
  }

  lemma LabelValue(x: bytes, rest: bytes, m: Label, m': Label)
    requires |x| < TWO_63 && m.value == [] && m' == m.(value := x)
    ensures ParseLabel(BytesField(0x12, x) + rest, m) == ParseLabel(rest, m')
  {
    if x == [] {
      assert BytesField(0x12, x) + rest == rest;
    } else {
      var payload := Delimited(x);
      ReadBytesOf(x, rest);
      LabelStep(0x12, payload, rest, Tag(2, 2, 1), m, m');
    }
  }

  lemma SampleValue(x: u64, rest: bytes, m: Sample, m': Sample)
    requires m.value == 0 && m' == m.(value := Plain(x))
    ensures ParseSample(FixedField(0x09, x) + rest, m) == ParseSample(rest, m')
  {
    if IsZero(x) {
      assert FixedField(0x09, x) + rest == rest;
    } else {
      var payload := LittleEndian(x, 8);
      ReadFixed64Of(x, rest);
      SampleStep(0x09, payload, rest, Tag(1, 1, 1), m, m');
    }
  }

  lemma SampleTimestamp(x: i64, rest: bytes, m: Sample, m': Sample)
    requires m.timestamp == 0 && m' == m.(timestamp := x)
    ensures ParseSample(VarintField(0x10, Unsigned64(x)) + rest, m) == ParseSample(rest, m')
  {
    if x == 0 {
      assert VarintField(0x10, Unsigned64(x)) + rest == rest;
    } else {
      var payload := Varint(Unsigned64(x));
      IntRead(x);
      ReadVarintOf(Unsigned64(x), rest);
      SampleStep(0x10, payload, rest, Tag(2, 0, 1), m, m');
    }
  }

  lemma SpanOffset(x: i32, rest: bytes, m: BucketSpan, m': BucketSpan)
    requires m.offset == 0 && m' == m.(offset := x)
    ensures ParseSpan(VarintField(0x08, Zig32(x)) + rest, m) == ParseSpan(rest, m')
  {
    if x == 0 {
      assert VarintField(0x08, Zig32(x)) + rest == rest;
    } else {
      var payload := Varint(Zig32(x));
      Sint32Read(x);
      ReadVarintOf(Zig32(x), rest);
      SpanStep(0x08, payload, rest, Tag(1, 0, 1), m, m');
    }
  }

  lemma SpanLength(x: u32, rest: bytes, m: BucketSpan, m': BucketSpan)
    requires m.length == 0 && m' == m.(length := x)
    ensures ParseSpan(VarintField(0x10, x) + rest, m) == ParseSpan(rest, m')
  {
    if x == 0 {
      assert VarintField(0x10, x) + rest == rest;
    } else {
      var payload := Varint(x);
      ReadVarintOf(x, rest);
      SpanStep(0x10, payload, rest, Tag(2, 0, 1), m, m');
    }
  }

  lemma ExemplarValue(x: u64, rest: bytes, m: Exemplar, m': Exemplar)
    requires m.value == 0 && m' == m.(value := Plain(x))
    ensures ParseExemplar(FixedField(0x11, x) + rest, m) == ParseExemplar(rest, m')
  {
    if IsZero(x) {
      assert FixedField(0x11, x) + rest == rest;
    } else {
      var payload := LittleEndian(x, 8);
      ReadFixed64Of(x, rest);
      ExemplarStep(0x11, payload, rest, Tag(2, 1, 1), m, m');
    }
  }

  lemma ExemplarTimestamp(x: i64, rest: bytes, m: Exemplar, m': Exemplar)
    requires m.timestamp == 0 && m' == m.(timestamp := x)
    ensures ParseExemplar(VarintField(0x18, Unsigned64(x)) + rest, m) == ParseExemplar(rest, m')
  {
    if x == 0 {
      assert VarintField(0x18, Unsigned64(x)) + rest == rest;
    } else {
      var payload := Varint(Unsigned64(x));
      IntRead(x);
      ReadVarintOf(Unsigned64(x), rest);
      ExemplarStep(0x18, payload, rest, Tag(3, 0, 1), m, m');
    }
  }

  lemma HistogramSum(x: u64, rest: bytes, m: Histogram, m': Histogram)
    requires m.sum == 0 && m' == m.(sum := Plain(x))
    ensures ParseHistogram(FixedField(0x19, x) + rest, m) == ParseHistogram(rest, m')
  {
    if IsZero(x) {
      assert FixedField(0x19, x) + rest == rest;
    } else {
      var payload := LittleEndian(x, 8);
      ReadFixed64Of(x, rest);
      HistogramStep(0x19, payload, rest, Tag(3, 1, 1), m, m');
    }
  }

  lemma HistogramSchema(x: i32, rest: bytes, m: Histogram, m': Histogram)
    requires m.schema == 0 && m' == m.(schema := x)
    ensures ParseHistogram(VarintField(0x20, Zig32(x)) + rest, m) == ParseHistogram(rest, m')
  {
    if x == 0 {
      assert VarintField(0x20, Zig32(x)) + rest == rest;
    } else {
      var payload := Varint(Zig32(x));
      Sint32Read(x);
      ReadVarintOf(Zig32(x), rest);
      HistogramStep(0x20, payload, rest, Tag(4, 0, 1), m, m');
    }
  }

  lemma HistogramZeroThreshold(x: u64, rest: bytes, m: Histogram, m': Histogram)
    requires m.zeroThreshold == 0 && m' == m.(zeroThreshold := Plain(x))
    ensures ParseHistogram(FixedField(0x29, x) + rest, m) == ParseHistogram(rest, m')
  {
    if IsZero(x) {
      assert FixedField(0x29, x) + rest == rest;
    } else {
      var payload := LittleEndian(x, 8);
      ReadFixed64Of(x, rest);
      HistogramStep(0x29, payload, rest, Tag(5, 1, 1), m, m');
    }
  }

  lemma HistogramResetHint(x: i32, rest: bytes, m: Histogram, m': Histogram)
    requires m.resetHint == 0 && m' == m.(resetHint := x)
    ensures ParseHistogram(VarintField(0x70, Unsigned64(x)) + rest, m) == ParseHistogram(rest, m')
  {
    if x == 0 {
      assert VarintField(0x70, Unsigned64(x)) + rest == rest;
    } else {
      var payload := Varint(Unsigned64(x));
      IntRead(x);
      ReadVarintOf(Unsigned64(x), rest);
      HistogramStep(0x70, payload, rest, Tag(14, 0, 1), m, m');
    }
  }

  lemma HistogramTimestamp(x: i64, rest: bytes, m: Histogram, m': Histogram)
    requires m.timestamp == 0 && m' == m.(timestamp := x)
    ensures ParseHistogram(VarintField(0x78, Unsigned64(x)) + rest, m) == ParseHistogram(rest, m')
  {
    if x == 0 {
      assert VarintField(0x78, Unsigned64(x)) + rest == rest;
    } else {
      var payload := Varint(Unsigned64(x));
      IntRead(x);
      ReadVarintOf(Unsigned64(x), rest);
      HistogramStep(0x78, payload, rest, Tag(15, 0, 1), m, m');
    }
  }

  lemma HistogramCount(x: Count, rest: bytes, m: Histogram, m': Histogram)
    requires m.count == NoCount && m' == m.(count := x)
    ensures ParseHistogram(CountField(0x08, 0x11, x) + rest, m) == ParseHistogram(rest, m')
  {
    match x
    case NoCount =>
      assert CountField(0x08, 0x11, x) + rest == rest;
    case CountInt(i) =>
      ReadVarintOf(i, rest);
      HistogramStep(0x08, Varint(i), rest, Tag(1, 0, 1), m, m');
    case CountFloat(f) =>
      ReadFixed64Of(f, rest);
      HistogramStep(0x11, LittleEndian(f, 8), rest, Tag(2, 1, 1), m, m');
  }

  lemma HistogramZeroCount(x: Count, rest: bytes, m: Histogram, m': Histogram)
    requires m.zeroCount == NoCount && m' == m.(zeroCount := x)
    ensures ParseHistogram(CountField(0x30, 0x39, x) + rest, m) == ParseHistogram(rest, m')
  {
    match x
    case NoCount =>
      assert CountField(0x30, 0x39, x) + rest == rest;
    case CountInt(i) =>
      ReadVarintOf(i, rest);
      HistogramStep(0x30, Varint(i), rest, Tag(6, 0, 1), m, m');
    case CountFloat(f) =>
      ReadFixed64Of(f, rest);
      HistogramStep(0x39, LittleEndian(f, 8), rest, Tag(7, 1, 1), m, m');
  }

  // ----- packed payloads -----

  lemma DeltaOf(d: i64)
    ensures Unzig64(Zig64(d) % TWO_64) == d
  {
    ZigZag(d);
  }

  lemma ReadDeltasStep(s: bytes, n: nat, len: int, d: i64, acc: seq<i64>, s': bytes, len': nat, acc': seq<i64>, all: seq<i64>)
    requires ReadVarint(s) == Ok(Read(Zig64(d), n)) && s' == s[n..] && len > 0 && len' == len - n && acc' == acc + [d]
    requires ReadDeltas(s', len', acc') == Ok(Read(all, len'))
    ensures ReadDeltas(s, len, acc) == Ok(Read(all, len))
  {
    DeltaOf(d);
  }

  lemma DeltasFirst(d: i64, head: bytes, tail: bytes, s: bytes)
    requires head == Varint(Zig64(d)) && s == head + tail
    ensures ReadVarint(s) == Ok(Read(Zig64(d), |head|))
  {
    ReadVarintOf(Zig64(d), tail);
  }

  lemma {:induction false} ReadDeltasOf(ds: seq<i64>, rest: bytes, len: nat, acc: seq<i64>, all: seq<i64>)
    requires len == |Deltas(ds)| && all == acc + ds
    ensures ReadDeltas(Deltas(ds) + rest, len, acc) == Ok(Read(all, len))
    decreases |ds|
  {
    if ds == [] {
      assert acc + ds == acc;
    } else {
      var d, tail, acc' := ds[0], Deltas(ds[1..]), acc + [ds[0]];
      var head: bytes := Varint(Zig64(d));
      var s, s' := Deltas(ds) + rest, tail + rest;
      assert s == head + s' && s[|head|..] == s';
      assert acc' + ds[1..] == all;
      DeltasFirst(d, head, s', s);
      ReadDeltasOf(ds[1..], rest, |tail|, acc', all);
      ReadDeltasStep(s, |head|, len, d, acc, s', |tail|, acc', all);
    }
  }

  lemma ReadDoublesStep(s: bytes, n: nat, len: int, d: u64, acc: seq<u64>, s': bytes, len': nat, acc': seq<u64>, all: seq<u64>)
    requires ReadFixed64(s) == Ok(Read(d, n)) && s' == s[n..] && len > 0 && len' == len - n && acc' == acc + [d]
    requires ReadDoubles(s', len', acc') == Ok(Read(all, len'))
    ensures ReadDoubles(s, len, acc) == Ok(Read(all, len))
  {
  }

  lemma DoublesFirst(d: u64, head: bytes, tail: bytes, s: bytes)
    requires head == LittleEndian(d, 8) && s == head + tail
    ensures ReadFixed64(s) == Ok(Read(d, |head|))
  {
    ReadFixed64Of(d, tail);
  }

  lemma {:induction false} ReadDoublesOf(ds: seq<u64>, rest: bytes, len: nat, acc: seq<u64>, all: seq<u64>)
    requires len == |Doubles(ds)| && all == acc + ds
    ensures ReadDoubles(Doubles(ds) + rest, len, acc) == Ok(Read(all, len))
    decreases |ds|
  {
    if ds == [] {
      assert acc + ds == acc;
    } else {
      var d, tail, acc' := ds[0], Doubles(ds[1..]), acc + [ds[0]];
      var head: bytes := LittleEndian(d, 8);
      var s, s' := Doubles(ds) + rest, tail + rest;
      assert s == head + s' && s[|head|..] == s';
      assert acc' + ds[1..] == all;
      DoublesFirst(d, head, s', s);
      ReadDoublesOf(ds[1..], rest, |tail|, acc', all);
      ReadDoublesStep(s, |head|, len, d, acc, s', |tail|, acc', all);
    }
  }

  lemma ReadLengthOf(len: nat, head: bytes, tail: bytes, s: bytes)
    requires len < TWO_63 && len <= |tail| && head == Varint(len) && s == head + tail
    ensures ReadLength(s) == Ok(Read(len, |head|)) && s[|head|..] == tail
  {
    ReadVarintOf(len, tail);
    assert len % TWO_64 == len;
  }

  lemma DeltasFieldOf(ds: seq<i64>, payload: bytes, rest: bytes, acc: seq<i64>, all: seq<i64>)
    requires payload == Deltas(ds) && |payload| < TWO_63 && all == acc + ds
    ensures DeltasField(acc, 2, Delimited(payload) + rest) == Ok(Read(all, |Delimited(payload)|))
  {
    var len, tail, s := |payload|, payload + rest, Delimited(payload) + rest;
    assert s == Varint(len) + tail;
    ReadLengthOf(len, Varint(len), tail, s);
    assert ReadDeltas(tail, len, acc) == Ok(Read(all, len)) by {
      ReadDeltasOf(ds, rest, len, acc, all);
    }
  }

  lemma DoublesFieldOf(ds: seq<u64>, payload: bytes, rest: bytes, acc: seq<u64>, all: seq<u64>)
    requires payload == Doubles(ds) && |payload| < TWO_63 && all == acc + ds
    ensures DoublesField(acc, 2, Delimited(payload) + rest) == Ok(Read(all, |Delimited(payload)|))
  {
    var len, tail, s := |payload|, payload + rest, Delimited(payload) + rest;
    assert s == Varint(len) + tail;
    ReadLengthOf(len, Varint(len), tail, s);
    assert ReadDoubles(tail, len, acc) == Ok(Read(all, len)) by {
      ReadDoublesOf(ds, rest, len, acc, all);
    }
  }

  lemma DeltasNonEmpty(ds: seq<i64>)
    requires ds != []
    ensures Deltas(ds) != []
  {
    ReadVarintOf(Zig64(ds[0]), []);
  }

  lemma DoublesNonEmpty(ds: seq<u64>)
    requires ds != []
    ensures Doubles(ds) != []
  {
    ReadFixed64Of(ds[0], []);
  }

  lemma HistogramNegativeDeltas(x: seq<i64>, rest: bytes, m: Histogram, m': Histogram)
    requires |Deltas(x)| < TWO_63 && m.negativeDeltas == [] && m' == m.(negativeDeltas := x)
    ensures ParseHistogram(BytesField(0x4a, Deltas(x)) + rest, m) == ParseHistogram(rest, m')
  {
    if x == [] {
      assert BytesField(0x4a, Deltas(x)) + rest == rest;
    } else {
      DeltasNonEmpty(x);
      DeltasFieldOf(x, Deltas(x), rest, [], x);
      HistogramStep(0x4a, Delimited(Deltas(x)), rest, Tag(9, 2, 1), m, m');
    }
  }

  lemma HistogramNegativeCounts(x: seq<u64>, rest: bytes, m: Histogram, m': Histogram)
    requires |Doubles(x)| < TWO_63 && m.negativeCounts == [] && m' == m.(negativeCounts := x)
    ensures ParseHistogram(BytesField(0x52, Doubles(x)) + rest, m) == ParseHistogram(rest, m')
  {
    if x == [] {
      assert BytesField(0x52, Doubles(x)) + rest == rest;
    } else {
      DoublesNonEmpty(x);
      DoublesFieldOf(x, Doubles(x), rest, [], x);
      HistogramStep(0x52, Delimited(Doubles(x)), rest, Tag(10, 2, 1), m, m');
    }
  }

  lemma HistogramPositiveDeltas(x: seq<i64>, rest: bytes, m: Histogram, m': Histogram)
    requires |Deltas(x)| < TWO_63 && m.positiveDeltas == [] && m' == m.(positiveDeltas := x)
    ensures ParseHistogram(BytesField(0x62, Deltas(x)) + rest, m) == ParseHistogram(rest, m')
  {
    if x == [] {
      assert BytesField(0x62, Deltas(x)) + rest == rest;
    } else {
      DeltasNonEmpty(x);
      DeltasFieldOf(x, Deltas(x), rest, [], x);
      HistogramStep(0x62, Delimited(Deltas(x)), rest, Tag(12, 2, 1), m, m');
    }
  }

  lemma HistogramPositiveCounts(x: seq<u64>, rest: bytes, m: Histogram, m': Histogram)
    requires |Doubles(x)| < TWO_63 && m.positiveCounts == [] && m' == m.(positiveCounts := x)
    ensures ParseHistogram(BytesField(0x6a, Doubles(x)) + rest, m) == ParseHistogram(rest, m')
  {
    if x == [] {
      assert BytesField(0x6a, Doubles(x)) + rest == rest;
    } else {
      DoublesNonEmpty(x);
      DoublesFieldOf(x, Doubles(x), rest, [], x);
      HistogramStep(0x6a, Delimited(Doubles(x)), rest, Tag(13, 2, 1), m, m');
    }
  }

  // ----- clean messages -----

  /** The unrecognized bytes are fields the message does not know, as every reader leaves them. */
  ghost predicate CleanLabel(m: Label) { Unknowns(m.unrecognized, 2) }
  ghost predicate CleanSample(m: Sample) { Unknowns(m.unrecognized, 2) }
  ghost predicate CleanSpan(m: BucketSpan) { Unknowns(m.unrecognized, 2) }

  ghost predicate CleanLabels(ms: seq<Label>) { ms != [] ==> CleanLabel(ms[0]) && CleanLabels(ms[1..]) }
  ghost predicate CleanSamples(ms: seq<Sample>) { ms != [] ==> CleanSample(ms[0]) && CleanSamples(ms[1..]) }
  ghost predicate CleanSpans(ms: seq<BucketSpan>) { ms != [] ==> CleanSpan(ms[0]) && CleanSpans(ms[1..]) }

  ghost predicate CleanExemplar(m: Exemplar) {
    CleanLabels(m.labels) && Unknowns(m.unrecognized, 3)
  }

  ghost predicate CleanExemplars(ms: seq<Exemplar>) {
    ms != [] ==> CleanExemplar(ms[0]) && CleanExemplars(ms[1..])
  }

  ghost predicate CleanHistogram(m: Histogram) {
    CleanSpans(m.negativeSpans) && CleanSpans(m.positiveSpans) && Unknowns(m.unrecognized, 15)
  }

  ghost predicate CleanHistograms(ms: seq<Histogram>) {
    ms != [] ==> CleanHistogram(ms[0]) && CleanHistograms(ms[1..])
  }

  ghost predicate Clean(m: TimeSeries) {
    && CleanLabels(m.labels) && CleanSamples(m.samples) && CleanExemplars(m.exemplars)
    && CleanHistograms(m.histograms) && Unknowns(m.unrecognized, 4)
  }

  // ----- negative zeros -----

  function NormalSample(m: Sample): Sample { m.(value := Plain(m.value)) }
  function NormalExemplar(m: Exemplar): Exemplar { m.(value := Plain(m.value)) }
  function NormalHistogram(m: Histogram): Histogram {
    m.(sum := Plain(m.sum), zeroThreshold := Plain(m.zeroThreshold))
  }

  function NormalSamples(ms: seq<Sample>): seq<Sample> {
    if ms == [] then [] else [NormalSample(ms[0])] + NormalSamples(ms[1..])
  }

  function NormalExemplars(ms: seq<Exemplar>): seq<Exemplar> {
    if ms == [] then [] else [NormalExemplar(ms[0])] + NormalExemplars(ms[1..])
  }

  function NormalHistograms(ms: seq<Histogram>): seq<Histogram> {
    if ms == [] then [] else [NormalHistogram(ms[0])] + NormalHistograms(ms[1..])
  }

  /** Every plain double that is -0.0 becomes +0.0; nothing else changes. */
  function Normal(m: TimeSeries): TimeSeries {
    m.(samples := NormalSamples(m.samples), exemplars := NormalExemplars(m.exemplars),
       histograms := NormalHistograms(m.histograms))
  }

  // ----- repeated messages -----

  function Messages(tag: byte, bs: seq<bytes>): bytes {
    if bs == [] then [] else MessageField(tag, bs[0]) + Messages(tag, bs[1..])
  }

  lemma MessagesFirst(tag: byte, bs: seq<bytes>, rest: bytes)
    requires bs != []
    ensures Messages(tag, bs) + rest == MessageField(tag, bs[0]) + (Messages(tag, bs[1..]) + rest)
  {
  }

  /** No payload is too long for its length prefix. */
  ghost predicate Fit(bs: seq<bytes>) {
    bs != [] ==> |bs[0]| < TWO_63 && Fit(bs[1..])
  }

  lemma {:induction false} MessagesFit(tag: byte, bs: seq<bytes>)
    requires |Messages(tag, bs)| < TWO_63
    ensures Fit(bs)
    decreases |bs|
  {
    if bs != [] {
      assert |bs[0]| < |MessageField(tag, bs[0])|;
      MessagesFit(tag, bs[1..]);
    }
  }

  function LabelPayloads(xs: seq<Label>): seq<bytes> {
    if xs == [] then [] else [EncodeLabel(xs[0])] + LabelPayloads(xs[1..])
  }

  /** Payload `i` reads as message `i`. */
  ghost predicate LabelsRead(bs: seq<bytes>, ys: seq<Label>) {
    && |bs| == |ys|
    && (bs != [] ==> |bs[0]| < TWO_63 && ParseLabel(bs[0], EMPTY_LABEL) == Ok(ys[0]) && LabelsRead(bs[1..], ys[1..]))
  }

  lemma {:induction false} LabelsAreMessages(xs: seq<Label>)
    ensures EncodeLabels(xs) == Messages(0x0a, LabelPayloads(xs))
    decreases |xs|
  {
    if xs != [] {
      LabelsAreMessages(xs[1..]);
      assert LabelPayloads(xs)[1..] == LabelPayloads(xs[1..]);
    }
  }

  function SamplePayloads(xs: seq<Sample>): seq<bytes> {
    if xs == [] then [] else [EncodeSample(xs[0])] + SamplePayloads(xs[1..])
  }

  /** Payload `i` reads as message `i`. */
  ghost predicate SamplesRead(bs: seq<bytes>, ys: seq<Sample>) {
    && |bs| == |ys|
    && (bs != [] ==> |bs[0]| < TWO_63 && ParseSample(bs[0], EMPTY_SAMPLE) == Ok(ys[0]) && SamplesRead(bs[1..], ys[1..]))
  }

  lemma {:induction false} SamplesAreMessages(xs: seq<Sample>)
    ensures EncodeSamples(xs) == Messages(0x12, SamplePayloads(xs))
    decreases |xs|
  {
    if xs != [] {
      SamplesAreMessages(xs[1..]);
      assert SamplePayloads(xs)[1..] == SamplePayloads(xs[1..]);
    }
  }

  function ExemplarPayloads(xs: seq<Exemplar>): seq<bytes> {
    if xs == [] then [] else [EncodeExemplar(xs[0])] + ExemplarPayloads(xs[1..])
  }

  /** Payload `i` reads as message `i`. */
  ghost predicate ExemplarsRead(bs: seq<bytes>, ys: seq<Exemplar>) {
    && |bs| == |ys|
    && (bs != [] ==> |bs[0]| < TWO_63 && ParseExemplar(bs[0], EMPTY_EXEMPLAR) == Ok(ys[0]) && ExemplarsRead(bs[1..], ys[1..]))
  }

  lemma {:induction false} ExemplarsAreMessages(xs: seq<Exemplar>)
    ensures EncodeExemplars(xs) == Messages(0x1a, ExemplarPayloads(xs))
    decreases |xs|
  {
    if xs != [] {
      ExemplarsAreMessages(xs[1..]);
      assert ExemplarPayloads(xs)[1..] == ExemplarPayloads(xs[1..]);
    }
  }

  function SpanPayloads(xs: seq<BucketSpan>): seq<bytes> {
    if xs == [] then [] else [EncodeSpan(xs[0])] + SpanPayloads(xs[1..])
  }

  /** Payload `i` reads as message `i`. */
  ghost predicate SpansRead(bs: seq<bytes>, ys: seq<BucketSpan>) {
    && |bs| == |ys|
    && (bs != [] ==> |bs[0]| < TWO_63 && ParseSpan(bs[0], EMPTY_SPAN) == Ok(ys[0]) && SpansRead(bs[1..], ys[1..]))
  }

  lemma {:induction false} SpansAreMessages(tag: byte, xs: seq<BucketSpan>)
    ensures EncodeSpans(tag, xs) == Messages(tag, SpanPayloads(xs))
    decreases |xs|
  {
    if xs != [] {
      SpansAreMessages(tag, xs[1..]);
      assert SpanPayloads(xs)[1..] == SpanPayloads(xs[1..]);
    }
  }

  function HistogramPayloads(xs: seq<Histogram>): seq<bytes> {
    if xs == [] then [] else [EncodeHistogram(xs[0])] + HistogramPayloads(xs[1..])
  }

  /** Payload `i` reads as message `i`. */
  ghost predicate HistogramsRead(bs: seq<bytes>, ys: seq<Histogram>) {
    && |bs| == |ys|
    && (bs != [] ==> |bs[0]| < TWO_63 && ParseHistogram(bs[0], EMPTY_HISTOGRAM) == Ok(ys[0]) && HistogramsRead(bs[1..], ys[1..]))
  }

  lemma {:induction false} HistogramsAreMessages(xs: seq<Histogram>)
    ensures EncodeHistograms(xs) == Messages(0x22, HistogramPayloads(xs))
    decreases |xs|
  {
    if xs != [] {
      HistogramsAreMessages(xs[1..]);
      assert HistogramPayloads(xs)[1..] == HistogramPayloads(xs[1..]);
    }
  }

  // ----- whole messages -----

  lemma LabelRoundTrip(m: Label)
    requires |EncodeLabel(m)| < TWO_63 && CleanLabel(m)
    ensures ParseLabel(EncodeLabel(m), EMPTY_LABEL) == Ok(m)
  {
    var m1 := EMPTY_LABEL.(name := m.name);
    var m2 := m1.(value := m.value);
    LabelName(m.name, BytesField(0x12, m.value) + m.unrecognized, EMPTY_LABEL, m1);
    LabelValue(m.value, m.unrecognized, m1, m2);
    assert m2.unrecognized + m.unrecognized == m.unrecognized;
    LabelUnknowns(m.unrecognized, m2, m);
  }

  lemma {:induction false} LabelPayloadsRead(xs: seq<Label>, bs: seq<bytes>, ys: seq<Label>)
    requires CleanLabels(xs) && bs == LabelPayloads(xs) && Fit(bs) && ys == xs
    ensures LabelsRead(bs, ys)
    decreases |xs|
  {
    if xs != [] {
      assert bs[1..] == LabelPayloads(xs[1..]) && ys[1..] == xs[1..] && ys[0] == xs[0];
      LabelRoundTrip(xs[0]);
      LabelPayloadsRead(xs[1..], bs[1..], ys[1..]);
    }
  }

  lemma LabelsReadable(xs: seq<Label>, bs: seq<bytes>, ys: seq<Label>)
    requires |EncodeLabels(xs)| < TWO_63 && CleanLabels(xs) && bs == LabelPayloads(xs) && ys == xs
    ensures EncodeLabels(xs) == Messages(0x0a, bs) && LabelsRead(bs, ys)
  {
    LabelsAreMessages(xs);
    MessagesFit(0x0a, bs);
    LabelPayloadsRead(xs, bs, ys);
  }

  lemma SampleRoundTrip(m: Sample)
    requires CleanSample(m)
    ensures ParseSample(EncodeSample(m), EMPTY_SAMPLE) == Ok(NormalSample(m))
  {
    var m1 := EMPTY_SAMPLE.(value := Plain(m.value));
    var m2 := m1.(timestamp := m.timestamp);
    SampleValue(m.value, VarintField(0x10, Unsigned64(m.timestamp)) + m.unrecognized, EMPTY_SAMPLE, m1);
    SampleTimestamp(m.timestamp, m.unrecognized, m1, m2);
    assert m2.unrecognized + m.unrecognized == m.unrecognized;
    SampleUnknowns(m.unrecognized, m2, NormalSample(m));
  }

  lemma {:induction false} SamplePayloadsRead(xs: seq<Sample>, bs: seq<bytes>, ys: seq<Sample>)
    requires CleanSamples(xs) && bs == SamplePayloads(xs) && Fit(bs) && ys == NormalSamples(xs)
    ensures SamplesRead(bs, ys)
    decreases |xs|
  {
    if xs != [] {
      assert bs[1..] == SamplePayloads(xs[1..]) && ys[1..] == NormalSamples(xs[1..]) && ys[0] == NormalSample(xs[0]);
      SampleRoundTrip(xs[0]);
      SamplePayloadsRead(xs[1..], bs[1..], ys[1..]);
    }
  }

  lemma SamplesReadable(xs: seq<Sample>, bs: seq<bytes>, ys: seq<Sample>)
    requires |EncodeSamples(xs)| < TWO_63 && CleanSamples(xs) && bs == SamplePayloads(xs) && ys == NormalSamples(xs)
    ensures EncodeSamples(xs) == Messages(0x12, bs) && SamplesRead(bs, ys)
  {
    SamplesAreMessages(xs);
    MessagesFit(0x12, bs);
    SamplePayloadsRead(xs, bs, ys);
  }

  lemma SpanRoundTrip(m: BucketSpan)
    requires CleanSpan(m)
    ensures ParseSpan(EncodeSpan(m), EMPTY_SPAN) == Ok(m)
  {
    var m1 := EMPTY_SPAN.(offset := m.offset);
    var m2 := m1.(length := m.length);
    SpanOffset(m.offset, VarintField(0x10, m.length) + m.unrecognized, EMPTY_SPAN, m1);
    SpanLength(m.length, m.unrecognized, m1, m2);
    assert m2.unrecognized + m.unrecognized == m.unrecognized;
    SpanUnknowns(m.unrecognized, m2, m);
  }

  lemma {:induction false} SpanPayloadsRead(xs: seq<BucketSpan>, bs: seq<bytes>, ys: seq<BucketSpan>)
    requires CleanSpans(xs) && bs == SpanPayloads(xs) && Fit(bs) && ys == xs
    ensures SpansRead(bs, ys)
    decreases |xs|
  {
    if xs != [] {
      assert bs[1..] == SpanPayloads(xs[1..]) && ys[1..] == xs[1..] && ys[0] == xs[0];
      SpanRoundTrip(xs[0]);
      SpanPayloadsRead(xs[1..], bs[1..], ys[1..]);
    }
  }

  lemma SpansReadable(tag: byte, xs: seq<BucketSpan>, bs: seq<bytes>, ys: seq<BucketSpan>)
    requires |EncodeSpans(tag, xs)| < TWO_63 && CleanSpans(xs) && bs == SpanPayloads(xs) && ys == xs
    ensures EncodeSpans(tag, xs) == Messages(tag, bs) && SpansRead(bs, ys)
  {
    SpansAreMessages(tag, xs);
    MessagesFit(tag, bs);
    SpanPayloadsRead(xs, bs, ys);
  }

  lemma ExemplarLabelsOne(b: bytes, y: Label, tail: bytes, m: Exemplar, m': Exemplar)
    requires |b| < TWO_63 && ParseLabel(b, EMPTY_LABEL) == Ok(y) && m' == m.(labels := m.labels + [y])
    ensures ParseExemplar(MessageField(0x0a, b) + tail, m) == ParseExemplar(tail, m')
  {
    var d := Delimited(b);
    ReadBytesOf(b, tail);
    assert BytesValue(2, d + tail) == Ok(Read(b, |d|));
    ExemplarStep(0x0a, d, tail, Tag(1, 2, 1), m, m');
  }

  lemma {:induction false} ExemplarLabels(bs: seq<bytes>, ys: seq<Label>, rest: bytes, m: Exemplar, last: Exemplar)
    requires LabelsRead(bs, ys) && last == m.(labels := m.labels + ys)
    ensures ParseExemplar(Messages(0x0a, bs) + rest, m) == ParseExemplar(rest, last)
    decreases |bs|
  {
    if bs == [] {
      assert Messages(0x0a, bs) + rest == rest && m.labels + ys == m.labels;
    } else {
      var tail, m' := Messages(0x0a, bs[1..]) + rest, m.(labels := m.labels + [ys[0]]);
      MessagesFirst(0x0a, bs, rest);
      Grow(m.labels, ys);
      ExemplarLabelsOne(bs[0], ys[0], tail, m, m');
      ExemplarLabels(bs[1..], ys[1..], rest, m', last);
    }
  }

  lemma ExemplarRoundTrip(m: Exemplar)
    requires |EncodeExemplar(m)| < TWO_63 && CleanExemplar(m)
    ensures ParseExemplar(EncodeExemplar(m), EMPTY_EXEMPLAR) == Ok(NormalExemplar(m))
  {
    var m1 := EMPTY_EXEMPLAR.(labels := m.labels);
    var m2 := m1.(value := Plain(m.value));
    var m3 := m2.(timestamp := m.timestamp);
    var rest2 := VarintField(0x18, Unsigned64(m.timestamp)) + m.unrecognized;
    assert EMPTY_EXEMPLAR.labels + m.labels == m.labels;
    var ls := LabelPayloads(m.labels);
    LabelsReadable(m.labels, ls, m.labels);
    ExemplarLabels(ls, m.labels, FixedField(0x11, m.value) + rest2, EMPTY_EXEMPLAR, m1);
    ExemplarValue(m.value, rest2, m1, m2);
    ExemplarTimestamp(m.timestamp, m.unrecognized, m2, m3);
    assert m3.unrecognized + m.unrecognized == m.unrecognized;
    ExemplarUnknowns(m.unrecognized, m3, NormalExemplar(m));
  }

  lemma {:induction false} ExemplarPayloadsRead(xs: seq<Exemplar>, bs: seq<bytes>, ys: seq<Exemplar>)
    requires CleanExemplars(xs) && bs == ExemplarPayloads(xs) && Fit(bs) && ys == NormalExemplars(xs)
    ensures ExemplarsRead(bs, ys)
    decreases |xs|
  {
    if xs != [] {
      assert bs[1..] == ExemplarPayloads(xs[1..]) && ys[1..] == NormalExemplars(xs[1..]) && ys[0] == NormalExemplar(xs[0]);
      ExemplarRoundTrip(xs[0]);
      ExemplarPayloadsRead(xs[1..], bs[1..], ys[1..]);
    }
  }

  lemma ExemplarsReadable(xs: seq<Exemplar>, bs: seq<bytes>, ys: seq<Exemplar>)
    requires |EncodeExemplars(xs)| < TWO_63 && CleanExemplars(xs) && bs == ExemplarPayloads(xs) && ys == NormalExemplars(xs)
    ensures EncodeExemplars(xs) == Messages(0x1a, bs) && ExemplarsRead(bs, ys)
  {
    ExemplarsAreMessages(xs);
    MessagesFit(0x1a, bs);
    ExemplarPayloadsRead(xs, bs, ys);
  }

  lemma SpanValueOf(s: bytes, b: bytes, n: nat, y: BucketSpan)
    requires BytesValue(2, s) == Ok(Read(b, n)) && ParseSpan(b, EMPTY_SPAN) == Ok(y)
    ensures SpanValue(2, s) == Ok(Read(y, n))
  {
  }

  lemma HistogramNegativeSpansRead(s: bytes, b: bytes, n: nat, y: BucketSpan, m: Histogram, m': Histogram)
    requires BytesValue(2, s) == Ok(Read(b, n)) && ParseSpan(b, EMPTY_SPAN) == Ok(y)
    requires m' == m.(negativeSpans := m.negativeSpans + [y])
    ensures HistogramField(m, Tag(8, 2, 1), s) == Ok(Known(m', n))
  {
    SpanValueOf(s, b, n, y);
    NegativeSpanField(s, n, y, m, m');
  }

  lemma NegativeSpanField(s: bytes, n: nat, y: BucketSpan, m: Histogram, m': Histogram)
    requires SpanValue(2, s) == Ok(Read(y, n)) && m' == m.(negativeSpans := m.negativeSpans + [y])
    ensures HistogramField(m, Tag(8, 2, 1), s) == Ok(Known(m', n))
  {
  }

  lemma HistogramNegativeSpansOne(b: bytes, y: BucketSpan, tail: bytes, m: Histogram, m': Histogram)
    requires |b| < TWO_63 && ParseSpan(b, EMPTY_SPAN) == Ok(y) && m' == m.(negativeSpans := m.negativeSpans + [y])
    ensures ParseHistogram(MessageField(0x42, b) + tail, m) == ParseHistogram(tail, m')
  {
    var d := Delimited(b);
    assert HistogramField(m, Tag(8, 2, 1), d + tail) == Ok(Known(m', |d|)) by {
      ReadBytesOf(b, tail);
      HistogramNegativeSpansRead(d + tail, b, |d|, y, m, m');
    }
    HistogramStep(0x42, d, tail, Tag(8, 2, 1), m, m');
  }

  lemma {:induction false} HistogramNegativeSpans(bs: seq<bytes>, ys: seq<BucketSpan>, rest: bytes, m: Histogram, last: Histogram)
    requires SpansRead(bs, ys) && last == m.(negativeSpans := m.negativeSpans + ys)
    ensures ParseHistogram(Messages(0x42, bs) + rest, m) == ParseHistogram(rest, last)
    decreases |bs|
  {
    if bs == [] {
      assert Messages(0x42, bs) + rest == rest && m.negativeSpans + ys == m.negativeSpans;
    } else {
      var tail, m' := Messages(0x42, bs[1..]) + rest, m.(negativeSpans := m.negativeSpans + [ys[0]]);
      MessagesFirst(0x42, bs, rest);
      Grow(m.negativeSpans, ys);
      HistogramNegativeSpansOne(bs[0], ys[0], tail, m, m');
      HistogramNegativeSpans(bs[1..], ys[1..], rest, m', last);
    }
  }

  lemma HistogramPositiveSpansRead(s: bytes, b: bytes, n: nat, y: BucketSpan, m: Histogram, m': Histogram)
    requires BytesValue(2, s) == Ok(Read(b, n)) && ParseSpan(b, EMPTY_SPAN) == Ok(y)
    requires m' == m.(positiveSpans := m.positiveSpans + [y])
    ensures HistogramField(m, Tag(11, 2, 1), s) == Ok(Known(m', n))
  {
    SpanValueOf(s, b, n, y);
    PositiveSpanField(s, n, y, m, m');
  }

  lemma PositiveSpanField(s: bytes, n: nat, y: BucketSpan, m: Histogram, m': Histogram)
    requires SpanValue(2, s) == Ok(Read(y, n)) && m' == m.(positiveSpans := m.positiveSpans + [y])
    ensures HistogramField(m, Tag(11, 2, 1), s) == Ok(Known(m', n))
  {
  }

  lemma HistogramPositiveSpansOne(b: bytes, y: BucketSpan, tail: bytes, m: Histogram, m': Histogram)
    requires |b| < TWO_63 && ParseSpan(b, EMPTY_SPAN) == Ok(y) && m' == m.(positiveSpans := m.positiveSpans + [y])
    ensures ParseHistogram(MessageField(0x5a, b) + tail, m) == ParseHistogram(tail, m')
  {
    var d := Delimited(b);
    assert HistogramField(m, Tag(11, 2, 1), d + tail) == Ok(Known(m', |d|)) by {
      ReadBytesOf(b, tail);
      HistogramPositiveSpansRead(d + tail, b, |d|, y, m, m');
    }
    HistogramStep(0x5a, d, tail, Tag(11, 2, 1), m, m');
  }

  lemma {:induction false} HistogramPositiveSpans(bs: seq<bytes>, ys: seq<BucketSpan>, rest: bytes, m: Histogram, last: Histogram)
    requires SpansRead(bs, ys) && last == m.(positiveSpans := m.positiveSpans + ys)
    ensures ParseHistogram(Messages(0x5a, bs) + rest, m) == ParseHistogram(rest, last)
    decreases |bs|
  {
    if bs == [] {
      assert Messages(0x5a, bs) + rest == rest && m.positiveSpans + ys == m.positiveSpans;
    } else {
      var tail, m' := Messages(0x5a, bs[1..]) + rest, m.(positiveSpans := m.positiveSpans + [ys[0]]);
      MessagesFirst(0x5a, bs, rest);
      Grow(m.positiveSpans, ys);
      HistogramPositiveSpansOne(bs[0], ys[0], tail, m, m');
      HistogramPositiveSpans(bs[1..], ys[1..], rest, m', last);
    }
  }

  /** Fields 14 and 15 and the unknown ones. */
  lemma TailRead(h: Histogram, m: Histogram, last: Histogram)
    requires Unknowns(h.unrecognized, 15) && m.resetHint == 0 && m.timestamp == 0 && m.unrecognized == []
    requires last == m.(resetHint := h.resetHint, timestamp := h.timestamp, unrecognized := h.unrecognized)
    ensures ParseHistogram(VarintField(0x70, Unsigned64(h.resetHint))
                           + (VarintField(0x78, Unsigned64(h.timestamp)) + h.unrecognized), m) == Ok(last)
  {
    var m1 := m.(resetHint := h.resetHint);
    var m2 := m1.(timestamp := h.timestamp);
    HistogramResetHint(h.resetHint, VarintField(0x78, Unsigned64(h.timestamp)) + h.unrecognized, m, m1);
    HistogramTimestamp(h.timestamp, h.unrecognized, m1, m2);
    assert m2.unrecognized + h.unrecognized == h.unrecognized;
    HistogramUnknowns(h.unrecognized, m2, last);
  }

  lemma NegativeSpansRead(xs: seq<BucketSpan>, rest: bytes, m: Histogram, m': Histogram)
    requires |EncodeSpans(0x42, xs)| < TWO_63 && CleanSpans(xs) && m.negativeSpans == [] && m' == m.(negativeSpans := xs)
    ensures ParseHistogram(EncodeSpans(0x42, xs) + rest, m) == ParseHistogram(rest, m')
  {
    assert m.negativeSpans + xs == xs;
    SpansReadable(0x42, xs, SpanPayloads(xs), xs);
    HistogramNegativeSpans(SpanPayloads(xs), xs, rest, m, m');
  }

  lemma PositiveSpansRead(xs: seq<BucketSpan>, rest: bytes, m: Histogram, m': Histogram)
    requires |EncodeSpans(0x5a, xs)| < TWO_63 && CleanSpans(xs) && m.positiveSpans == [] && m' == m.(positiveSpans := xs)
    ensures ParseHistogram(EncodeSpans(0x5a, xs) + rest, m) == ParseHistogram(rest, m')
  {
    assert m.positiveSpans + xs == xs;
    SpansReadable(0x5a, xs, SpanPayloads(xs), xs);
    HistogramPositiveSpans(SpanPayloads(xs), xs, rest, m, m');
  }

  lemma PositiveRead(h: Histogram, m: Histogram, last: Histogram)
    requires |EncodePositive(h)| < TWO_63 && CleanSpans(h.positiveSpans) && Unknowns(h.unrecognized, 15)
    requires m.positiveSpans == [] && m.positiveDeltas == [] && m.positiveCounts == []
    requires m.resetHint == 0 && m.timestamp == 0 && m.unrecognized == []
    requires last == m.(positiveSpans := h.positiveSpans, positiveDeltas := h.positiveDeltas,
                        positiveCounts := h.positiveCounts, resetHint := h.resetHint,
                        timestamp := h.timestamp, unrecognized := h.unrecognized)
    ensures ParseHistogram(EncodePositive(h), m) == Ok(last)
  {
    var m1 := m.(positiveSpans := h.positiveSpans);
    var m2 := m1.(positiveDeltas := h.positiveDeltas);
    var m3 := m2.(positiveCounts := h.positiveCounts);
    var rest3 := VarintField(0x70, Unsigned64(h.resetHint))
                 + (VarintField(0x78, Unsigned64(h.timestamp)) + h.unrecognized);
    var rest2 := BytesField(0x6a, Doubles(h.positiveCounts)) + rest3;
    PositiveSpansRead(h.positiveSpans, BytesField(0x62, Deltas(h.positiveDeltas)) + rest2, m, m1);
    HistogramPositiveDeltas(h.positiveDeltas, rest2, m1, m2);
    HistogramPositiveCounts(h.positiveCounts, rest3, m2, m3);
    TailRead(h, m3, last);
  }

  lemma BucketsRead(h: Histogram, m: Histogram, last: Histogram)
    requires |EncodeBuckets(h)| < TWO_63 && CleanHistogram(h)
    requires m == EMPTY_HISTOGRAM.(count := m.count, sum := m.sum, schema := m.schema,
                                  zeroThreshold := m.zeroThreshold, zeroCount := m.zeroCount)
    requires last == h.(count := m.count, sum := m.sum, schema := m.schema,
                        zeroThreshold := m.zeroThreshold, zeroCount := m.zeroCount)
    ensures ParseHistogram(EncodeBuckets(h), m) == Ok(last)
  {
    var m1 := m.(negativeSpans := h.negativeSpans);
    var m2 := m1.(negativeDeltas := h.negativeDeltas);
    var m3 := m2.(negativeCounts := h.negativeCounts);
    var rest3 := EncodePositive(h);
    var rest2 := BytesField(0x52, Doubles(h.negativeCounts)) + rest3;
    NegativeSpansRead(h.negativeSpans, BytesField(0x4a, Deltas(h.negativeDeltas)) + rest2, m, m1);
    HistogramNegativeDeltas(h.negativeDeltas, rest2, m1, m2);
    HistogramNegativeCounts(h.negativeCounts, rest3, m2, m3);
    PositiveRead(h, m3, last);
  }

  lemma HistogramRoundTrip(h: Histogram)
    requires |EncodeHistogram(h)| < TWO_63 && CleanHistogram(h)
    ensures ParseHistogram(EncodeHistogram(h), EMPTY_HISTOGRAM) == Ok(NormalHistogram(h))
  {
    var m1 := EMPTY_HISTOGRAM.(count := h.count);
    var m2 := m1.(sum := Plain(h.sum));
    var m3 := m2.(schema := h.schema);
    var m4 := m3.(zeroThreshold := Plain(h.zeroThreshold));
    var m5 := m4.(zeroCount := h.zeroCount);
    var rest5 := EncodeBuckets(h);
    var rest4 := CountField(0x30, 0x39, h.zeroCount) + rest5;
    var rest3 := FixedField(0x29, h.zeroThreshold) + rest4;
    var rest2 := VarintField(0x20, Zig32(h.schema)) + rest3;
    HistogramCount(h.count, FixedField(0x19, h.sum) + rest2, EMPTY_HISTOGRAM, m1);
    HistogramSum(h.sum, rest2, m1, m2);
    HistogramSchema(h.schema, rest3, m2, m3);
    HistogramZeroThreshold(h.zeroThreshold, rest4, m3, m4);
    HistogramZeroCount(h.zeroCount, rest5, m4, m5);
    BucketsRead(h, m5, NormalHistogram(h));
  }

  lemma {:induction false} HistogramPayloadsRead(xs: seq<Histogram>, bs: seq<bytes>, ys: seq<Histogram>)
    requires CleanHistograms(xs) && bs == HistogramPayloads(xs) && Fit(bs) && ys == NormalHistograms(xs)
    ensures HistogramsRead(bs, ys)
    decreases |xs|
  {
    if xs != [] {
      assert bs[1..] == HistogramPayloads(xs[1..]) && ys[1..] == NormalHistograms(xs[1..]) && ys[0] == NormalHistogram(xs[0]);
      HistogramRoundTrip(xs[0]);
      HistogramPayloadsRead(xs[1..], bs[1..], ys[1..]);
    }
  }

  lemma HistogramsReadable(xs: seq<Histogram>, bs: seq<bytes>, ys: seq<Histogram>)
    requires |EncodeHistograms(xs)| < TWO_63 && CleanHistograms(xs) && bs == HistogramPayloads(xs) && ys == NormalHistograms(xs)
    ensures EncodeHistograms(xs) == Messages(0x22, bs) && HistogramsRead(bs, ys)
  {
    HistogramsAreMessages(xs);
    MessagesFit(0x22, bs);
    HistogramPayloadsRead(xs, bs, ys);
  }

  lemma TimeSeriesLabelsOne(b: bytes, y: Label, tail: bytes, m: TimeSeries, m': TimeSeries)
    requires |b| < TWO_63 && ParseLabel(b, EMPTY_LABEL) == Ok(y) && m' == m.(labels := m.labels + [y])
    ensures ParseTimeSeries(MessageField(0x0a, b) + tail, m) == ParseTimeSeries(tail, m')
  {
    var d := Delimited(b);
    ReadBytesOf(b, tail);
    assert BytesValue(2, d + tail) == Ok(Read(b, |d|));
    TimeSeriesStep(0x0a, d, tail, Tag(1, 2, 1), m, m');
  }

  lemma {:induction false} TimeSeriesLabels(bs: seq<bytes>, ys: seq<Label>, rest: bytes, m: TimeSeries, last: TimeSeries)
    requires LabelsRead(bs, ys) && last == m.(labels := m.labels + ys)
    ensures ParseTimeSeries(Messages(0x0a, bs) + rest, m) == ParseTimeSeries(rest, last)
    decreases |bs|
  {
    if bs == [] {
      assert Messages(0x0a, bs) + rest == rest && m.labels + ys == m.labels;
    } else {
      var tail, m' := Messages(0x0a, bs[1..]) + rest, m.(labels := m.labels + [ys[0]]);
      MessagesFirst(0x0a, bs, rest);
      Grow(m.labels, ys);
      TimeSeriesLabelsOne(bs[0], ys[0], tail, m, m');
      TimeSeriesLabels(bs[1..], ys[1..], rest, m', last);
    }
  }

  lemma TimeSeriesSamplesOne(b: bytes, y: Sample, tail: bytes, m: TimeSeries, m': TimeSeries)
    requires |b| < TWO_63 && ParseSample(b, EMPTY_SAMPLE) == Ok(y) && m' == m.(samples := m.samples + [y])
    ensures ParseTimeSeries(MessageField(0x12, b) + tail, m) == ParseTimeSeries(tail, m')
  {
    var d := Delimited(b);
    ReadBytesOf(b, tail);
    assert BytesValue(2, d + tail) == Ok(Read(b, |d|));
    TimeSeriesStep(0x12, d, tail, Tag(2, 2, 1), m, m');
  }

  lemma {:induction false} TimeSeriesSamples(bs: seq<bytes>, ys: seq<Sample>, rest: bytes, m: TimeSeries, last: TimeSeries)
    requires SamplesRead(bs, ys) && last == m.(samples := m.samples + ys)
    ensures ParseTimeSeries(Messages(0x12, bs) + rest, m) == ParseTimeSeries(rest, last)
    decreases |bs|
  {
    if bs == [] {
      assert Messages(0x12, bs) + rest == rest && m.samples + ys == m.samples;
    } else {
      var tail, m' := Messages(0x12, bs[1..]) + rest, m.(samples := m.samples + [ys[0]]);
      MessagesFirst(0x12, bs, rest);
      Grow(m.samples, ys);
      TimeSeriesSamplesOne(bs[0], ys[0], tail, m, m');
      TimeSeriesSamples(bs[1..], ys[1..], rest, m', last);
    }
  }

  lemma TimeSeriesExemplarsOne(b: bytes, y: Exemplar, tail: bytes, m: TimeSeries, m': TimeSeries)
    requires |b| < TWO_63 && ParseExemplar(b, EMPTY_EXEMPLAR) == Ok(y) && m' == m.(exemplars := m.exemplars + [y])
    ensures ParseTimeSeries(MessageField(0x1a, b) + tail, m) == ParseTimeSeries(tail, m')
  {
    var d := Delimited(b);
    ReadBytesOf(b, tail);
    assert BytesValue(2, d + tail) == Ok(Read(b, |d|));
    TimeSeriesStep(0x1a, d, tail, Tag(3, 2, 1), m, m');
  }

  lemma {:induction false} TimeSeriesExemplars(bs: seq<bytes>, ys: seq<Exemplar>, rest: bytes, m: TimeSeries, last: TimeSeries)
    requires ExemplarsRead(bs, ys) && last == m.(exemplars := m.exemplars + ys)
    ensures ParseTimeSeries(Messages(0x1a, bs) + rest, m) == ParseTimeSeries(rest, last)
    decreases |bs|
  {
    if bs == [] {
      assert Messages(0x1a, bs) + rest == rest && m.exemplars + ys == m.exemplars;
    } else {
      var tail, m' := Messages(0x1a, bs[1..]) + rest, m.(exemplars := m.exemplars + [ys[0]]);
      MessagesFirst(0x1a, bs, rest);
      Grow(m.exemplars, ys);
      TimeSeriesExemplarsOne(bs[0], ys[0], tail, m, m');
      TimeSeriesExemplars(bs[1..], ys[1..], rest, m', last);
    }
  }

  lemma TimeSeriesHistogramsOne(b: bytes, y: Histogram, tail: bytes, m: TimeSeries, m': TimeSeries)
    requires |b| < TWO_63 && ParseHistogram(b, EMPTY_HISTOGRAM) == Ok(y) && m' == m.(histograms := m.histograms + [y])
    ensures ParseTimeSeries(MessageField(0x22, b) + tail, m) == ParseTimeSeries(tail, m')
  {
    var d := Delimited(b);
    ReadBytesOf(b, tail);
    assert BytesValue(2, d + tail) == Ok(Read(b, |d|));
    TimeSeriesStep(0x22, d, tail, Tag(4, 2, 1), m, m');
  }

  lemma {:induction false} TimeSeriesHistograms(bs: seq<bytes>, ys: seq<Histogram>, rest: bytes, m: TimeSeries, last: TimeSeries)
    requires HistogramsRead(bs, ys) && last == m.(histograms := m.histograms + ys)
    ensures ParseTimeSeries(Messages(0x22, bs) + rest, m) == ParseTimeSeries(rest, last)
    decreases |bs|
  {
    if bs == [] {
      assert Messages(0x22, bs) + rest == rest && m.histograms + ys == m.histograms;
    } else {
      var tail, m' := Messages(0x22, bs[1..]) + rest, m.(histograms := m.histograms + [ys[0]]);
      MessagesFirst(0x22, bs, rest);
      Grow(m.histograms, ys);
      TimeSeriesHistogramsOne(bs[0], ys[0], tail, m, m');
      TimeSeriesHistograms(bs[1..], ys[1..], rest, m', last);
    }
  }

  /** Reading what was written gives the message with its negative zeros made positive. */
  lemma TimeSeriesRoundTrip(m: TimeSeries)
    requires |EncodeTimeSeries(m)| < TWO_63 && Clean(m)
    ensures ParseTimeSeries(EncodeTimeSeries(m), EMPTY_TIME_SERIES) == Ok(Normal(m))
  {
    var m1 := EMPTY_TIME_SERIES.(labels := m.labels);
    var m2 := m1.(samples := NormalSamples(m.samples));
    var m3 := m2.(exemplars := NormalExemplars(m.exemplars));
    var m4 := m3.(histograms := NormalHistograms(m.histograms));
    var rest3 := EncodeHistograms(m.histograms) + m.unrecognized;
    var rest2 := EncodeExemplars(m.exemplars) + rest3;
    assert EMPTY_TIME_SERIES.labels + m.labels == m.labels;
    assert m1.samples + NormalSamples(m.samples) == NormalSamples(m.samples);
    assert m2.exemplars + NormalExemplars(m.exemplars) == NormalExemplars(m.exemplars);
    assert m3.histograms + NormalHistograms(m.histograms) == NormalHistograms(m.histograms);
    assert m4.unrecognized + m.unrecognized == m.unrecognized;
    var ls := LabelPayloads(m.labels);
    LabelsReadable(m.labels, ls, m.labels);
    TimeSeriesLabels(ls, m.labels, EncodeSamples(m.samples) + rest2, EMPTY_TIME_SERIES, m1);
    var ss := SamplePayloads(m.samples);
    SamplesReadable(m.samples, ss, NormalSamples(m.samples));
    TimeSeriesSamples(ss, NormalSamples(m.samples), rest2, m1, m2);
    var es := ExemplarPayloads(m.exemplars);
    ExemplarsReadable(m.exemplars, es, NormalExemplars(m.exemplars));
    TimeSeriesExemplars(es, NormalExemplars(m.exemplars), rest3, m2, m3);
    var hs := HistogramPayloads(m.histograms);
    HistogramsReadable(m.histograms, hs, NormalHistograms(m.histograms));
    TimeSeriesHistograms(hs, NormalHistograms(m.histograms), m.unrecognized, m3, m4);
    TimeSeriesUnknowns(m.unrecognized, m4, Normal(m));
  }

  /** The same for bytes given by the format alone. */
  lemma FormatRoundTrip(m: TimeSeries, s: bytes)
    requires s == WireFormat.TimeSeriesBytes(m) && |s| < TWO_63 && Clean(m)
    ensures ParseTimeSeries(s, EMPTY_TIME_SERIES) == Ok(Normal(m))
  {
    WireFormat.TimeSeriesFormat(m);
    TimeSeriesRoundTrip(m);
  }
}
