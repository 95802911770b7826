/**
 * The Protocol Buffers encoding as its specification describes it: digits and their weights,
 * records of a field number, a wire type and a payload, and the fields of each message. The
 * encodings of `WireMessages` are these.
 */
module WireFormat {
  import opened WireScalars
  import opened WireMessages

  // ----- digits -----

  lemma Quotients(v: nat, a: nat, b: nat)
    requires a > 0 && b > 0
    ensures a * b > 0 && v / a / b == v / (a * b)
  {
    var q, r := v / a, v / a / b;
    var rest := v - a * q + a * (q - b * r);
    assert v == (a * b) * r + rest by {
      assert a * (b * r) == (a * b) * r;
    }
    assert 0 <= rest < a * b by {
      Below(a, q - b * r, b);
    }
    Quotient(v, a * b, r, rest);
  }

  lemma Below(a: nat, m: nat, b: nat)
    requires m < b
    ensures a * m + a <= a * b
  {
    var more := b - m;
    assert a * b == a * m + a * more by {
      Distributes(a, m, more);
    }
    assert a * more >= a by {
      Distributes(a, 1, more - 1);
    }
  }

  lemma Distributes(a: nat, m: nat, n: nat)
    ensures a * (m + n) == a * m + a * n
  {
  }

  lemma Quotient(v: nat, d: nat, q: nat, rest: nat)
    requires d > 0 && v == d * q + rest && rest < d
    ensures v / d == q
  {
    var q' := v / d;
    assert v == d * q' + v % d;
    if q' < q {
      Below(d, q', q);
    } else if q' > q {
      Below(d, q, q');
    }
  }

  lemma {:induction false} Pow256Positive(k: nat)
    ensures Pow256(k) > 0
  {
    if k > 0 {
      Pow256Positive(k - 1);
    }
  }

  /** Byte `i` of a fixed-width value has the weight 256 to the `i`: the first is the least. */
  lemma {:induction false} LittleEndianAt(v: nat, n: nat, i: nat)
    requires i < n
    ensures Pow256(i) > 0 && LittleEndian(v, n)[i] == v / Pow256(i) % 256
    decreases n
  {
    Pow256Positive(i);
    if i > 0 {
      LittleEndianAt(v / 256, n - 1, i - 1);
      Pow256Positive(i - 1);
      Quotients(v, 256, Pow256(i - 1));
    }
  }

  /** Eight bytes, read with their weights. */
  lemma FromEight(s: bytes)
    requires |s| == 8
    ensures var b: seq<int> := s;
            FromLittleEndian(s)
            == b[0] + b[1] * 0x100 + b[2] * 0x1_0000 + b[3] * 0x100_0000 + b[4] * 0x1_0000_0000
               + b[5] * 0x100_0000_0000 + b[6] * 0x1_0000_0000_0000 + b[7] * 0x100_0000_0000_0000
  {
    FromFour(s);
    FromFour(s[4..]);
    assert FromLittleEndian(s[4..][4..]) == 0;
  }

  lemma FromFour(s: bytes)
    requires |s| >= 4
    ensures var b: seq<int> := s;
            FromLittleEndian(s)
            == b[0] + b[1] * 0x100 + b[2] * 0x1_0000 + b[3] * 0x100_0000 + 0x1_0000_0000 * FromLittleEndian(s[4..])
  {
    assert s[1..][1..] == s[2..] && s[2..][1..] == s[3..] && s[3..][1..] == s[4..];
    assert FromLittleEndian(s) == s[0] + 256 * FromLittleEndian(s[1..]);
    assert FromLittleEndian(s[1..]) == s[1] + 256 * FromLittleEndian(s[2..]);
    assert FromLittleEndian(s[2..]) == s[2] + 256 * FromLittleEndian(s[3..]);
    assert FromLittleEndian(s[3..]) == s[3] + 256 * FromLittleEndian(s[4..]);
  }

  lemma {:induction false} Pow128Positive(k: nat)
    ensures Pow128(k) > 0
  {
    if k > 0 {
      Pow128Positive(k - 1);
    }
  }

  /** Digit `i` of a varint has the weight 128 to the `i`; all but the last have the top bit set. */
  lemma {:induction false} VarintAt(v: nat, i: nat)
    requires i < |Varint(v)|
    ensures Pow128(i) > 0
    ensures Varint(v)[i] == v / Pow128(i) % 128 + (if i + 1 < |Varint(v)| then 128 else 0)
    decreases v
  {
    Pow128Positive(i);
    if i > 0 {
      VarintAt(v / 128, i - 1);
      Pow128Positive(i - 1);
      Quotients(v, 128, Pow128(i - 1));
    }
  }

  /** A varint has as many digits as it needs, and no more. */
  lemma {:induction false} VarintShortest(v: nat)
    ensures v < Pow128(|Varint(v)|)
    ensures |Varint(v)| > 1 ==> Pow128(|Varint(v)| - 1) <= v
    decreases v
  {
    if v >= 128 {
      VarintShortest(v / 128);
    }
  }

  /** What the first `n` bytes are worth: seven bits each, byte `i` with the weight 128 to the `i`. */
  function Digits(s: bytes, n: nat): nat
    requires n <= |s|
  {
    if n == 0 then 0 else Digits(s, n - 1) + Digit(s[n - 1], Pow128(n - 1))
  }

  lemma {:induction false} DigitsFirst(s: bytes, n: nat)
    requires 1 <= n <= |s|
    ensures Digits(s, n) == s[0] % 128 + 128 * Digits(s[1..], n - 1)
  {
    if n > 1 {
      DigitsFirst(s, n - 1);
      DigitUp(s[n - 1], Pow128(n - 2));
    }
  }

  lemma DigitUp(b: byte, weight: nat)
    ensures Digit(b, 128 * weight) == 128 * Digit(b, weight)
  {
  }

  /** A varint ends at the first byte without the top bit and is worth its digits; ten bytes at most. */
  lemma ReadVarintDigits(s: bytes, n: nat)
    requires n < 10 && n < |s| && s[n] < 128 && forall i :: 0 <= i < n ==> s[i] >= 128
    ensures ReadVarint(s) == Ok(Read(Digits(s, n + 1), n + 1))
  {
    ReadRawDigits(s, 10, n);
  }

  lemma {:induction false} ReadRawDigits(s: bytes, k: nat, n: nat)
    requires n < k && n < |s| && s[n] < 128 && forall i :: 0 <= i < n ==> s[i] >= 128
    ensures ReadRaw(s, k) == Ok(Read(Digits(s, n + 1), n + 1))
    decreases n
  {
    DigitsFirst(s, n + 1);
    if n == 0 {
      assert Digits(s[1..], 0) == 0;
    } else {
      ReadRawDigits(s[1..], k - 1, n - 1);
    }
  }

  /** Without such a byte it overflows, or the buffer ends first. */
  lemma {:induction false} ReadRawEndless(s: bytes, k: nat)
    requires forall i :: 0 <= i < |s| && i < k ==> s[i] >= 128
    ensures ReadRaw(s, k) == Err(if |s| >= k then IntOverflow else UnexpectedEOF)
    decreases k
  {
    if k > 0 && s != [] {
      ReadRawEndless(s[1..], k - 1);
    }
  }

  lemma ReadVarintEndless(s: bytes)
    requires forall i :: 0 <= i < |s| && i < 10 ==> s[i] >= 128
    ensures ReadVarint(s) == Err(if |s| >= 10 then IntOverflow else UnexpectedEOF)
  {
    ReadRawEndless(s, 10);
  }

  // ----- records -----

  datatype Payload = VarintOf(v: u64) | Fixed64(d: u64) | LengthDelimited(b: bytes)
  datatype Record = Record(number: nat, payload: Payload)

  function WireType(p: Payload): nat {
    match p
    case VarintOf(_) => 0
    case Fixed64(_) => 1
    case LengthDelimited(_) => 2
  }

  function Body(p: Payload): bytes {
    match p
    case VarintOf(v) => Varint(v)
    case Fixed64(d) => LittleEndian(d, 8)
    case LengthDelimited(b) => Varint(|b|) + b
  }

  /** The number and the wire type in one varint, then the payload. */
  function RecordBytes(r: Record): bytes {
    Varint(8 * r.number + WireType(r.payload)) + Body(r.payload)
  }

  /** The encodings of `xs`, one after the other. */
  function Packed<T>(xs: seq<T>, encode: T -> bytes): bytes {
    if xs == [] then [] else encode(xs[0]) + Packed(xs[1..], encode)
  }

  lemma {:induction false} PackedConcat<T>(a: seq<T>, b: seq<T>, encode: T -> bytes)
    ensures Packed(a + b, encode) == Packed(a, encode) + Packed(b, encode)
    decreases |a|
  {
    if a == [] {
      assert a + b == b;
    } else {
      PackedConcat(a[1..], b, encode);
      assert (a + b)[1..] == a[1..] + b;
    }
  }

  lemma PackedOne<T>(x: T, encode: T -> bytes)
    ensures Packed([x], encode) == encode(x)
  {
    assert Packed([x], encode) == encode(x) + Packed([], encode);
  }

  function Records(rs: seq<Record>): bytes {
    Packed(rs, RecordBytes)
  }

  lemma RecordsConcat(a: seq<Record>, b: seq<Record>)
    ensures Records(a + b) == Records(a) + Records(b)
  {
    PackedConcat(a, b, RecordBytes);
  }

  // ----- the fields of the messages -----

  /** Two's complement and zigzag. */
  function Word(n: i64): u64 {
    if n < 0 then n + 0x1_0000_0000_0000_0000 else n
  }

  function ZigZagged(n: i64): u64 {
    if n < 0 then -2 * n - 1 else 2 * n
  }

  /** Fields that are absent at their default, which for a double is zero of either sign. */
  function Number(n: nat, v: u64): seq<Record> {
    if v == 0 then [] else [Record(n, VarintOf(v))]
  }

  function Double(n: nat, d: u64): seq<Record> {
    if d == 0 || d == 0x8000_0000_0000_0000 then [] else [Record(n, Fixed64(d))]
  }

  function Blob(n: nat, b: bytes): seq<Record> {
    if b == [] then [] else [Record(n, LengthDelimited(b))]
  }

  /** A `oneof`, which is present at any value. */
  function Either(n: nat, m: nat, c: Count): seq<Record> {
    match c
    case NoCount => []
    case CountInt(i) => [Record(n, VarintOf(i))]
    case CountFloat(f) => [Record(m, Fixed64(f))]
  }

  /** A repeated message. */
  function Each<T>(n: nat, ms: seq<T>, encode: T -> bytes): seq<Record> {
    if ms == [] then [] else [Record(n, LengthDelimited(encode(ms[0])))] + Each(n, ms[1..], encode)
  }

  function SintBytes(d: i64): bytes {
    Varint(ZigZagged(d))
  }

  function DoubleBytes(d: u64): bytes {
    LittleEndian(d, 8)
  }

  function LabelBytes(m: Label): bytes {
    Records(Blob(1, m.name) + Blob(2, m.value)) + m.unrecognized
  }

  function SampleBytes(m: Sample): bytes {
    Records(Double(1, m.value) + Number(2, Word(m.timestamp))) + m.unrecognized
  }

  function ExemplarBytes(m: Exemplar): bytes {
    Records(Each(1, m.labels, LabelBytes) + Double(2, m.value) + Number(3, Word(m.timestamp))) + m.unrecognized
  }

  function SpanBytes(m: BucketSpan): bytes {
    Records(Number(1, ZigZagged(m.offset)) + Number(2, m.length)) + m.unrecognized
  }

  function HistogramBytes(m: Histogram): bytes {
    Records(
      Either(1, 2, m.count)
      + Double(3, m.sum)
      + Number(4, ZigZagged(m.schema))
      + Double(5, m.zeroThreshold)
      + Either(6, 7, m.zeroCount)
      + Each(8, m.negativeSpans, SpanBytes)
      + Blob(9, Packed(m.negativeDeltas, SintBytes))
      + Blob(10, Packed(m.negativeCounts, DoubleBytes))
      + Each(11, m.positiveSpans, SpanBytes)
      + Blob(12, Packed(m.positiveDeltas, SintBytes))
      + Blob(13, Packed(m.positiveCounts, DoubleBytes))
      + Number(14, Word(m.resetHint))
      + Number(15, Word(m.timestamp)))
    + m.unrecognized
  }

  function TimeSeriesBytes(m: TimeSeries): bytes {
    Records(
      Each(1, m.labels, LabelBytes)
      + Each(2, m.samples, SampleBytes)
      + Each(3, m.exemplars, ExemplarBytes)
      + Each(4, m.histograms, HistogramBytes))
    + m.unrecognized
  }

  // ----- the encodings are these -----

  /** Up to field 15 number and wire type fit one byte. */
  lemma OneRecord(n: nat, p: Payload, tag: byte)
    requires tag == 8 * n + WireType(p) < 128
    ensures Records([Record(n, p)]) == [tag] + Body(p)
  {
    assert RecordBytes(Record(n, p)) == [tag] + Body(p);
    PackedOne(Record(n, p), RecordBytes);
  }

  lemma NumberField(n: nat, v: u64, tag: byte)
    requires tag == 8 * n < 128
    ensures VarintField(tag, v) == Records(Number(n, v))
  {
    OneRecord(n, VarintOf(v), tag);
  }

  lemma DoubleField(n: nat, d: u64, tag: byte)
    requires tag == 8 * n + 1 < 128
    ensures FixedField(tag, d) == Records(Double(n, d))
  {
    OneRecord(n, Fixed64(d), tag);
  }

  lemma BlobField(n: nat, b: bytes, tag: byte)
    requires tag == 8 * n + 2 < 128
    ensures BytesField(tag, b) == Records(Blob(n, b))
    ensures MessageField(tag, b) == Records([Record(n, LengthDelimited(b))])
  {
    OneRecord(n, LengthDelimited(b), tag);
  }

  lemma EitherField(n: nat, m: nat, c: Count, tagInt: byte, tagFloat: byte)
    requires tagInt == 8 * n < 128 && tagFloat == 8 * m + 1 < 128
    ensures CountField(tagInt, tagFloat, c) == Records(Either(n, m, c))
  {
    match c
    case NoCount =>
    case CountInt(i) => OneRecord(n, VarintOf(i), tagInt);
    case CountFloat(f) => OneRecord(m, Fixed64(f), tagFloat);
  }

  lemma MoreRecords(a: seq<Record>, b: seq<Record>, u: bytes)
    ensures Records(a + b) + u == Records(a) + (Records(b) + u)
  {
    RecordsConcat(a, b);
  }

  lemma LabelFormat(m: Label)
    ensures EncodeLabel(m) == LabelBytes(m)
  {
    BlobField(1, m.name, 0x0a);
    BlobField(2, m.value, 0x12);
    MoreRecords(Blob(1, m.name), Blob(2, m.value), m.unrecognized);
  }

  lemma SampleFormat(m: Sample)
    ensures EncodeSample(m) == SampleBytes(m)
  {
    DoubleField(1, m.value, 0x09);
    NumberField(2, Word(m.timestamp), 0x10);
    MoreRecords(Double(1, m.value), Number(2, Word(m.timestamp)), m.unrecognized);
  }

  lemma SpanFormat(m: BucketSpan)
    ensures EncodeSpan(m) == SpanBytes(m)
  {
    ZigZag(m.offset);
    NumberField(1, ZigZagged(m.offset), 0x08);
    NumberField(2, m.length, 0x10);
    MoreRecords(Number(1, ZigZagged(m.offset)), Number(2, m.length), m.unrecognized);
  }

  lemma {:induction false} LabelsFormat(ms: seq<Label>)
    ensures EncodeLabels(ms) == Records(Each(1, ms, LabelBytes))
  {
    if ms != [] {
      LabelFormat(ms[0]);
      BlobField(1, LabelBytes(ms[0]), 0x0a);
      LabelsFormat(ms[1..]);
      RecordsConcat([Record(1, LengthDelimited(LabelBytes(ms[0])))], Each(1, ms[1..], LabelBytes));
    }
  }

  lemma {:induction false} SamplesFormat(ms: seq<Sample>)
    ensures EncodeSamples(ms) == Records(Each(2, ms, SampleBytes))
  {
    if ms != [] {
      SampleFormat(ms[0]);
      BlobField(2, SampleBytes(ms[0]), 0x12);
      SamplesFormat(ms[1..]);
      RecordsConcat([Record(2, LengthDelimited(SampleBytes(ms[0])))], Each(2, ms[1..], SampleBytes));
    }
  }

  lemma ExemplarFormat(m: Exemplar)
    ensures EncodeExemplar(m) == ExemplarBytes(m)
  {
    var labels, value, time := Each(1, m.labels, LabelBytes), Double(2, m.value), Number(3, Word(m.timestamp));
    LabelsFormat(m.labels);
    DoubleField(2, m.value, 0x11);
    NumberField(3, Word(m.timestamp), 0x18);
    MoreRecords(labels + value, time, m.unrecognized);
    MoreRecords(labels, value, Records(time) + m.unrecognized);
  }

  lemma {:induction false} ExemplarsFormat(ms: seq<Exemplar>)
    ensures EncodeExemplars(ms) == Records(Each(3, ms, ExemplarBytes))
  {
    if ms != [] {
      ExemplarFormat(ms[0]);
      BlobField(3, ExemplarBytes(ms[0]), 0x1a);
      ExemplarsFormat(ms[1..]);
      RecordsConcat([Record(3, LengthDelimited(ExemplarBytes(ms[0])))], Each(3, ms[1..], ExemplarBytes));
    }
  }

  lemma {:induction false} SpansFormat(n: nat, ms: seq<BucketSpan>, tag: byte)
    requires tag == 8 * n + 2 < 128
    ensures EncodeSpans(tag, ms) == Records(Each(n, ms, SpanBytes))
  {
    if ms != [] {
      SpanFormat(ms[0]);
      BlobField(n, SpanBytes(ms[0]), tag);
      SpansFormat(n, ms[1..], tag);
      RecordsConcat([Record(n, LengthDelimited(SpanBytes(ms[0])))], Each(n, ms[1..], SpanBytes));
    }
  }

  lemma {:induction false} DeltasFormat(ds: seq<i64>)
    ensures Deltas(ds) == Packed(ds, SintBytes)
  {
    if ds != [] {
      ZigZag(ds[0]);
      DeltasFormat(ds[1..]);
    }
  }

  lemma {:induction false} DoublesFormat(ds: seq<u64>)
    ensures Doubles(ds) == Packed(ds, DoubleBytes)
  {
    if ds != [] {
      DoublesFormat(ds[1..]);
    }
  }

  /** Fields 1 to 7, 8 to 10 and 11 to 15 of a histogram. */
  function Scalars(m: Histogram): seq<Record> {
    Either(1, 2, m.count) + Double(3, m.sum) + Number(4, ZigZagged(m.schema)) + Double(5, m.zeroThreshold)
    + Either(6, 7, m.zeroCount)
  }

  function Negative(m: Histogram): seq<Record> {
    Each(8, m.negativeSpans, SpanBytes) + Blob(9, Packed(m.negativeDeltas, SintBytes))
    + Blob(10, Packed(m.negativeCounts, DoubleBytes))
  }

  function Positive(m: Histogram): seq<Record> {
    Each(11, m.positiveSpans, SpanBytes) + Blob(12, Packed(m.positiveDeltas, SintBytes))
    + Blob(13, Packed(m.positiveCounts, DoubleBytes)) + Number(14, Word(m.resetHint)) + Number(15, Word(m.timestamp))
  }

  /** Concatenation of up to five groups of records. */
  lemma FiveGroups(a: seq<Record>, b: seq<Record>, c: seq<Record>, d: seq<Record>, e: seq<Record>, u: bytes)
    ensures Records(a + b + c + d + e) + u
            == Records(a) + (Records(b) + (Records(c) + (Records(d) + (Records(e) + u))))
  {
    MoreRecords(a + b + c + d, e, u);
    MoreRecords(a + b + c, d, Records(e) + u);
    MoreRecords(a + b, c, Records(d) + (Records(e) + u));
    MoreRecords(a, b, Records(c) + (Records(d) + (Records(e) + u)));
  }

  lemma ThreeGroups(a: seq<Record>, b: seq<Record>, c: seq<Record>, u: bytes)
    ensures Records(a + b + c) + u == Records(a) + (Records(b) + (Records(c) + u))
  {
    MoreRecords(a + b, c, u);
    MoreRecords(a, b, Records(c) + u);
  }

  lemma PositiveFormat(m: Histogram)
    ensures EncodePositive(m) == Records(Positive(m)) + m.unrecognized
  {
    SpansFormat(11, m.positiveSpans, 0x5a);
    DeltasFormat(m.positiveDeltas);
    BlobField(12, Deltas(m.positiveDeltas), 0x62);
    DoublesFormat(m.positiveCounts);
    BlobField(13, Doubles(m.positiveCounts), 0x6a);
    NumberField(14, Word(m.resetHint), 0x70);
    NumberField(15, Word(m.timestamp), 0x78);
    FiveGroups(Each(11, m.positiveSpans, SpanBytes), Blob(12, Packed(m.positiveDeltas, SintBytes)),
               Blob(13, Packed(m.positiveCounts, DoubleBytes)), Number(14, Word(m.resetHint)),
               Number(15, Word(m.timestamp)), m.unrecognized);
  }

  lemma NegativeFormat(m: Histogram)
    ensures EncodeBuckets(m) == Records(Negative(m)) + EncodePositive(m)
  {
    SpansFormat(8, m.negativeSpans, 0x42);
    DeltasFormat(m.negativeDeltas);
    BlobField(9, Deltas(m.negativeDeltas), 0x4a);
    DoublesFormat(m.negativeCounts);
    BlobField(10, Doubles(m.negativeCounts), 0x52);
    ThreeGroups(Each(8, m.negativeSpans, SpanBytes), Blob(9, Packed(m.negativeDeltas, SintBytes)),
                Blob(10, Packed(m.negativeCounts, DoubleBytes)), EncodePositive(m));
  }

  lemma ScalarsFormat(m: Histogram)
    ensures EncodeHistogram(m) == Records(Scalars(m)) + EncodeBuckets(m)
  {
    EitherField(1, 2, m.count, 0x08, 0x11);
    DoubleField(3, m.sum, 0x19);
    ZigZag(m.schema);
    NumberField(4, ZigZagged(m.schema), 0x20);
    DoubleField(5, m.zeroThreshold, 0x29);
    EitherField(6, 7, m.zeroCount, 0x30, 0x39);
    FiveGroups(Either(1, 2, m.count), Double(3, m.sum), Number(4, ZigZagged(m.schema)), Double(5, m.zeroThreshold),
               Either(6, 7, m.zeroCount), EncodeBuckets(m));
  }

  lemma HistogramFormat(m: Histogram)
    ensures EncodeHistogram(m) == HistogramBytes(m)
  {
    ScalarsFormat(m);
    NegativeFormat(m);
    PositiveFormat(m);
    ThreeGroups(Scalars(m), Negative(m), Positive(m), m.unrecognized);
    AllFields(m);
  }

  lemma AllFields(m: Histogram)
    ensures HistogramBytes(m) == Records(Scalars(m) + Negative(m) + Positive(m)) + m.unrecognized
  {
    Regroup(Scalars(m), Each(8, m.negativeSpans, SpanBytes), Blob(9, Packed(m.negativeDeltas, SintBytes)),
            Blob(10, Packed(m.negativeCounts, DoubleBytes)), Each(11, m.positiveSpans, SpanBytes),
            Blob(12, Packed(m.positiveDeltas, SintBytes)), Blob(13, Packed(m.positiveCounts, DoubleBytes)),
            Number(14, Word(m.resetHint)), Number(15, Word(m.timestamp)));
  }

  lemma Regroup<T>(s: seq<T>, a: seq<T>, b: seq<T>, c: seq<T>, d: seq<T>, e: seq<T>, f: seq<T>, g: seq<T>, h: seq<T>)
    ensures s + a + b + c + d + e + f + g + h == s + (a + b + c) + (d + e + f + g + h)
  {
    assert s + a + b + c == s + (a + b + c);
    var t := s + a + b + c;
    assert t + d + e + f == t + (d + e + f);
    assert t + (d + e + f) + g + h == t + (d + e + f + g + h);
  }

  lemma {:induction false} HistogramsFormat(ms: seq<Histogram>)
    ensures EncodeHistograms(ms) == Records(Each(4, ms, HistogramBytes))
  {
    if ms != [] {
      HistogramFormat(ms[0]);
      BlobField(4, HistogramBytes(ms[0]), 0x22);
      HistogramsFormat(ms[1..]);
      RecordsConcat([Record(4, LengthDelimited(HistogramBytes(ms[0])))], Each(4, ms[1..], HistogramBytes));
    }
  }

  /** The encoding of a time series is the one the specification gives its fields. */
  lemma TimeSeriesFormat(m: TimeSeries)
    ensures EncodeTimeSeries(m) == TimeSeriesBytes(m)
  {
    var a, b := Each(1, m.labels, LabelBytes), Each(2, m.samples, SampleBytes);
    var c, d := Each(3, m.exemplars, ExemplarBytes), Each(4, m.histograms, HistogramBytes);
    LabelsFormat(m.labels);
    SamplesFormat(m.samples);
    ExemplarsFormat(m.exemplars);
    HistogramsFormat(m.histograms);
    MoreRecords(a + b + c, d, m.unrecognized);
    ThreeGroups(a, b, c, Records(d) + m.unrecognized);
  }

  /** The value 1.0 at time 1. */
  lemma OneAtOne()
    ensures EncodeSample(Sample(0x3ff0_0000_0000_0000, 1, []))
            == [0x09, 0x00, 0x00, 0x00, 0x00, 0x00, 0x00, 0xf0, 0x3f, 0x10, 0x01]
  {
    assert LittleEndian(0x3ff0, 2) == [0xf0, 0x3f];
    assert LittleEndian(0x3f_f000, 3) == [0] + LittleEndian(0x3ff0, 2);
    assert LittleEndian(0x3ff0_0000, 4) == [0] + LittleEndian(0x3f_f000, 3);
    assert LittleEndian(0x3f_f000_0000, 5) == [0] + LittleEndian(0x3ff0_0000, 4);
    assert LittleEndian(0x3ff0_0000_0000, 6) == [0] + LittleEndian(0x3f_f000_0000, 5);
    assert LittleEndian(0x3f_f000_0000_0000, 7) == [0] + LittleEndian(0x3ff0_0000_0000, 6);
    assert LittleEndian(0x3ff0_0000_0000_0000, 8) == [0] + LittleEndian(0x3f_f000_0000_0000, 7);
  }
}
