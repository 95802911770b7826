/**
 * The remote-write messages, their encoding as the Protocol Buffers specification defines
 * it (fields in ascending order, defaults omitted), and the generated size functions.
 * Doubles are their 64-bit patterns.
 */
module WireMessages {
  import opened WireScalars

  datatype Label = Label(name: bytes, value: bytes, unrecognized: bytes)
  datatype Sample = Sample(value: u64, timestamp: i64, unrecognized: bytes)
  datatype Exemplar = Exemplar(labels: seq<Label>, value: u64, timestamp: i64, unrecognized: bytes)
  datatype BucketSpan = BucketSpan(offset: i32, length: u32, unrecognized: bytes)

  /** A `oneof` of an integer and a float count. */
  datatype Count = NoCount | CountInt(i: u64) | CountFloat(f: u64)

  datatype Histogram = Histogram(
    count: Count, sum: u64, schema: i32, zeroThreshold: u64, zeroCount: Count,
    negativeSpans: seq<BucketSpan>, negativeDeltas: seq<i64>, negativeCounts: seq<u64>,
    positiveSpans: seq<BucketSpan>, positiveDeltas: seq<i64>, positiveCounts: seq<u64>,
    resetHint: i32, timestamp: i64, unrecognized: bytes)

  datatype TimeSeries = TimeSeries(
    labels: seq<Label>, samples: seq<Sample>, exemplars: seq<Exemplar>, histograms: seq<Histogram>,
    unrecognized: bytes)

  const EMPTY_LABEL := Label([], [], [])
  const EMPTY_SAMPLE := Sample(0, 0, [])
  const EMPTY_EXEMPLAR := Exemplar([], 0, 0, [])
  const EMPTY_SPAN := BucketSpan(0, 0, [])
  const EMPTY_HISTOGRAM := Histogram(NoCount, 0, 0, 0, NoCount, [], [], [], [], [], [], 0, 0, [])
  const EMPTY_TIME_SERIES := TimeSeries([], [], [], [], [])

  /** Whether `d != 0` fails: the patterns of +0.0 and of -0.0. */
  predicate IsZero(d: u64) {
    d == 0 || d == TWO_63
  }

  // ----- encoding -----

  function VarintField(tag: byte, v: u64): bytes {
    if v == 0 then [] else [tag] + Varint(v)
  }

  function FixedField(tag: byte, d: u64): bytes {
    if IsZero(d) then [] else [tag] + LittleEndian(d, 8)
  }

  function BytesField(tag: byte, b: bytes): bytes {
    if b == [] then [] else [tag] + Delimited(b)
  }

  function MessageField(tag: byte, b: bytes): bytes {
    [tag] + Delimited(b)
  }

  function CountField(tagInt: byte, tagFloat: byte, c: Count): bytes {
    match c
    case NoCount => []
    case CountInt(i) => [tagInt] + Varint(i)
    case CountFloat(f) => [tagFloat] + LittleEndian(f, 8)
  }

  /** Packed payloads. */
  function Deltas(ds: seq<i64>): bytes {
    if ds == [] then [] else Varint(Zig64(ds[0])) + Deltas(ds[1..])
  }

  function Doubles(ds: seq<u64>): bytes {
    if ds == [] then [] else LittleEndian(ds[0], 8) + Doubles(ds[1..])
  }

  function EncodeLabel(m: Label): bytes {
    BytesField(0x0a, m.name) + (BytesField(0x12, m.value) + m.unrecognized)
  }

  function EncodeSample(m: Sample): bytes {
    FixedField(0x09, m.value) + (VarintField(0x10, Unsigned64(m.timestamp)) + m.unrecognized)
  }

  function EncodeSpan(m: BucketSpan): bytes {
    VarintField(0x08, Zig32(m.offset)) + (VarintField(0x10, m.length) + m.unrecognized)
  }

  function EncodeLabels(ms: seq<Label>): bytes {
    if ms == [] then [] else MessageField(0x0a, EncodeLabel(ms[0])) + EncodeLabels(ms[1..])
  }

  function EncodeSamples(ms: seq<Sample>): bytes {
    if ms == [] then [] else MessageField(0x12, EncodeSample(ms[0])) + EncodeSamples(ms[1..])
  }

  function EncodeExemplar(m: Exemplar): bytes {
    EncodeLabels(m.labels) + (FixedField(0x11, m.value)
    + (VarintField(0x18, Unsigned64(m.timestamp)) + m.unrecognized))
  }

  function EncodeExemplars(ms: seq<Exemplar>): bytes {
    if ms == [] then [] else MessageField(0x1a, EncodeExemplar(ms[0])) + EncodeExemplars(ms[1..])
  }

  function EncodeSpans(tag: byte, ms: seq<BucketSpan>): bytes {
    if ms == [] then [] else MessageField(tag, EncodeSpan(ms[0])) + EncodeSpans(tag, ms[1..])
  }

  function EncodeHistogram(m: Histogram): bytes {
    CountField(0x08, 0x11, m.count) + (FixedField(0x19, m.sum) + (VarintField(0x20, Zig32(m.schema))
    + (FixedField(0x29, m.zeroThreshold) + (CountField(0x30, 0x39, m.zeroCount) + EncodeBuckets(m)))))
  }

  /** Fields 8 to 15 of a histogram. */
  function EncodeBuckets(m: Histogram): bytes {
    EncodeSpans(0x42, m.negativeSpans) + (BytesField(0x4a, Deltas(m.negativeDeltas))
    + (BytesField(0x52, Doubles(m.negativeCounts)) + EncodePositive(m)))
  }

  /** Fields 11 to 15 of a histogram. */
  function EncodePositive(m: Histogram): bytes {
    EncodeSpans(0x5a, m.positiveSpans) + (BytesField(0x62, Deltas(m.positiveDeltas))
    + (BytesField(0x6a, Doubles(m.positiveCounts)) + (VarintField(0x70, Unsigned64(m.resetHint))
    + (VarintField(0x78, Unsigned64(m.timestamp)) + m.unrecognized))))
  }

  function EncodeHistograms(ms: seq<Histogram>): bytes {
    if ms == [] then [] else MessageField(0x22, EncodeHistogram(ms[0])) + EncodeHistograms(ms[1..])
  }

  function EncodeTimeSeries(m: TimeSeries): bytes {
    EncodeLabels(m.labels) + (EncodeSamples(m.samples) + (EncodeExemplars(m.exemplars)
    + (EncodeHistograms(m.histograms) + m.unrecognized)))
  }

  // ----- the generated size functions -----

  function SizeOfVarint(v: u64): nat {
    if v == 0 then 0 else 1 + Sov(v)
  }

  function SizeOfFixed(d: u64): nat {
    if IsZero(d) then 0 else 9
  }

  function SizeOfBytes(l: nat): nat {
    if l > 0 then 1 + l + Sov(l) else 0
  }

  function SizeOfMessage(l: nat): nat {
    1 + l + Sov(l)
  }

  function SizeOfCount(c: Count): nat {
    match c
    case NoCount => 0
    case CountInt(i) => 1 + Sov(i)
    case CountFloat(_) => 9
  }

  /** `sozTypes(uint64(n))`: the 64-bit zigzag, also used for 32-bit fields. */
  function Soz(n: i64): nat {
    Sov(Zig64(n))
  }

  function SizeOfDeltas(ds: seq<i64>): nat {
    if ds == [] then 0 else Soz(ds[0]) + SizeOfDeltas(ds[1..])
  }

  function SizeOfLabel(m: Label): nat {
    SizeOfBytes(|m.name|) + SizeOfBytes(|m.value|) + |m.unrecognized|
  }

  function SizeOfSample(m: Sample): nat {
    SizeOfFixed(m.value) + SizeOfVarint(Unsigned64(m.timestamp)) + |m.unrecognized|
  }

  function SizeOfSpan(m: BucketSpan): nat {
    (if m.offset != 0 then 1 + Soz(m.offset) else 0) + SizeOfVarint(m.length) + |m.unrecognized|
  }

  function SizeOfLabels(ms: seq<Label>): nat {
    if ms == [] then 0 else SizeOfMessage(SizeOfLabel(ms[0])) + SizeOfLabels(ms[1..])
  }

  function SizeOfSamples(ms: seq<Sample>): nat {
    if ms == [] then 0 else SizeOfMessage(SizeOfSample(ms[0])) + SizeOfSamples(ms[1..])
  }

  function SizeOfExemplar(m: Exemplar): nat {
    SizeOfLabels(m.labels) + SizeOfFixed(m.value) + SizeOfVarint(Unsigned64(m.timestamp)) + |m.unrecognized|
  }

  function SizeOfExemplars(ms: seq<Exemplar>): nat {
    if ms == [] then 0 else SizeOfMessage(SizeOfExemplar(ms[0])) + SizeOfExemplars(ms[1..])
  }

  function SizeOfSpans(ms: seq<BucketSpan>): nat {
    if ms == [] then 0 else SizeOfMessage(SizeOfSpan(ms[0])) + SizeOfSpans(ms[1..])
  }

  function SizeOfHistogram(m: Histogram): nat {
    SizeOfCount(m.count)
    + SizeOfFixed(m.sum)
    + (if m.schema != 0 then 1 + Soz(m.schema) else 0)
    + SizeOfFixed(m.zeroThreshold)
    + SizeOfCount(m.zeroCount)
    + SizeOfSpans(m.negativeSpans)
    + SizeOfBytes(SizeOfDeltas(m.negativeDeltas))
    + SizeOfBytes(8 * |m.negativeCounts|)
    + SizeOfSpans(m.positiveSpans)
    + SizeOfBytes(SizeOfDeltas(m.positiveDeltas))
    + SizeOfBytes(8 * |m.positiveCounts|)
    + SizeOfVarint(Unsigned64(m.resetHint))
    + SizeOfVarint(Unsigned64(m.timestamp))
    + |m.unrecognized|
  }

  function SizeOfHistograms(ms: seq<Histogram>): nat {
    if ms == [] then 0 else SizeOfMessage(SizeOfHistogram(ms[0])) + SizeOfHistograms(ms[1..])
  }

  function SizeOfTimeSeries(m: TimeSeries): nat {
    SizeOfLabels(m.labels) + SizeOfSamples(m.samples) + SizeOfExemplars(m.exemplars)
    + SizeOfHistograms(m.histograms) + |m.unrecognized|
  }

  // ----- the sizes are exact -----

  lemma VarintSize(tag: byte, v: u64)
    ensures |VarintField(tag, v)| == SizeOfVarint(v)
  {
    SovExact(v);
  }

  lemma BytesSize(tag: byte, b: bytes)
    ensures |BytesField(tag, b)| == SizeOfBytes(|b|)
    ensures |MessageField(tag, b)| == SizeOfMessage(|b|)
  {
    SovExact(|b|);
  }

  lemma CountSize(tagInt: byte, tagFloat: byte, c: Count)
    ensures |CountField(tagInt, tagFloat, c)| == SizeOfCount(c)
  {
    if c.CountInt? {
      SovExact(c.i);
    }
  }

  lemma ZigSize(tag: byte, n: i32)
    ensures |VarintField(tag, Zig32(n))| == if n != 0 then 1 + Soz(n) else 0
  {
    ZigZag(n);
    SovExact(Zig64(n));
  }

  lemma {:induction false} PackedSizes(ds: seq<i64>)
    ensures |Deltas(ds)| == SizeOfDeltas(ds)
    ensures ds != [] ==> |Deltas(ds)| > 0
  {
    if ds != [] {
      SovExact(Zig64(ds[0]));
      PackedSizes(ds[1..]);
    }
  }

  lemma {:induction false} DoublesSize(ds: seq<u64>)
    ensures |Doubles(ds)| == 8 * |ds|
  {
    if ds != [] {
      DoublesSize(ds[1..]);
    }
  }

  lemma LabelSize(m: Label)
    ensures |EncodeLabel(m)| == SizeOfLabel(m)
  {
    BytesSize(0x0a, m.name);
    BytesSize(0x12, m.value);
  }

  lemma SampleSize(m: Sample)
    ensures |EncodeSample(m)| == SizeOfSample(m)
  {
    VarintSize(0x10, Unsigned64(m.timestamp));
  }

  lemma SpanSize(m: BucketSpan)
    ensures |EncodeSpan(m)| == SizeOfSpan(m)
  {
    ZigSize(0x08, m.offset);
    VarintSize(0x10, m.length);
  }

  lemma {:induction false} LabelsSize(ms: seq<Label>)
    ensures |EncodeLabels(ms)| == SizeOfLabels(ms)
  {
    if ms != [] {
      LabelSize(ms[0]);
      BytesSize(0x0a, EncodeLabel(ms[0]));
      LabelsSize(ms[1..]);
    }
  }

  lemma {:induction false} SamplesSize(ms: seq<Sample>)
    ensures |EncodeSamples(ms)| == SizeOfSamples(ms)
  {
    if ms != [] {
      SampleSize(ms[0]);
      BytesSize(0x12, EncodeSample(ms[0]));
      SamplesSize(ms[1..]);
    }
  }

  lemma {:induction false} SpansSize(tag: byte, ms: seq<BucketSpan>)
    ensures |EncodeSpans(tag, ms)| == SizeOfSpans(ms)
  {
    if ms != [] {
      SpanSize(ms[0]);
      BytesSize(tag, EncodeSpan(ms[0]));
      SpansSize(tag, ms[1..]);
    }
  }

  lemma ExemplarSize(m: Exemplar)
    ensures |EncodeExemplar(m)| == SizeOfExemplar(m)
  {
    LabelsSize(m.labels);
    VarintSize(0x18, Unsigned64(m.timestamp));
  }

  lemma {:induction false} ExemplarsSize(ms: seq<Exemplar>)
    ensures |EncodeExemplars(ms)| == SizeOfExemplars(ms)
  {
    if ms != [] {
      ExemplarSize(ms[0]);
      BytesSize(0x1a, EncodeExemplar(ms[0]));
      ExemplarsSize(ms[1..]);
    }
  }

  /** Sizes of fields 11 to 15 and of fields 8 to 10 of a histogram. */
  lemma PositiveSize(m: Histogram)
    ensures |EncodePositive(m)| == SizeOfSpans(m.positiveSpans) + SizeOfBytes(SizeOfDeltas(m.positiveDeltas))
            + SizeOfBytes(8 * |m.positiveCounts|) + SizeOfVarint(Unsigned64(m.resetHint))
            + SizeOfVarint(Unsigned64(m.timestamp)) + |m.unrecognized|
  {
    SpansSize(0x5a, m.positiveSpans);
    PackedSizes(m.positiveDeltas);
    DoublesSize(m.positiveCounts);
    BytesSize(0x62, Deltas(m.positiveDeltas));
    BytesSize(0x6a, Doubles(m.positiveCounts));
    VarintSize(0x70, Unsigned64(m.resetHint));
    VarintSize(0x78, Unsigned64(m.timestamp));
  }

  lemma NegativeSize(m: Histogram)
    ensures |EncodeBuckets(m)| == SizeOfSpans(m.negativeSpans) + SizeOfBytes(SizeOfDeltas(m.negativeDeltas))
            + SizeOfBytes(8 * |m.negativeCounts|) + |EncodePositive(m)|
  {
    SpansSize(0x42, m.negativeSpans);
    PackedSizes(m.negativeDeltas);
    DoublesSize(m.negativeCounts);
    BytesSize(0x4a, Deltas(m.negativeDeltas));
    BytesSize(0x52, Doubles(m.negativeCounts));
  }

  lemma HistogramSize(m: Histogram)
    ensures |EncodeHistogram(m)| == SizeOfHistogram(m)
  {
    CountSize(0x08, 0x11, m.count);
    ZigSize(0x20, m.schema);
    CountSize(0x30, 0x39, m.zeroCount);
    NegativeSize(m);
    PositiveSize(m);
  }

  lemma {:induction false} HistogramsSize(ms: seq<Histogram>)
    ensures |EncodeHistograms(ms)| == SizeOfHistograms(ms)
  {
    if ms != [] {
      HistogramSize(ms[0]);
      BytesSize(0x22, EncodeHistogram(ms[0]));
      HistogramsSize(ms[1..]);
    }
  }

  /** `Size()` is the length of the encoding, at every level of nesting. */
  lemma TimeSeriesSize(m: TimeSeries)
    ensures |EncodeTimeSeries(m)| == SizeOfTimeSeries(m)
  {
    LabelsSize(m.labels);
    SamplesSize(m.samples);
    ExemplarsSize(m.exemplars);
    HistogramsSize(m.histograms);
  }
}
