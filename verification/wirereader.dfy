/**
 * The generated readers. A reader is total: on any bytes it either fails or accounts for
 * every byte. Functions give the result; the loops that move an index over the buffer are
 * methods proved equal to them.
 */
module WireReader {
  import opened WireScalars
  import opened WireMessages

  // ----- tags and unknown fields -----

  datatype Tag = Tag(field: int, wireType: nat, n: nat)

  /** Field number and wire type; end-group markers and non-positive numbers are refused. */
  function ReadTag(s: bytes): (r: Result<Tag>)
    ensures r.Ok? ==> 1 <= r.value.n <= |s|
  {
    var r :- ReadVarint(s);
    var wire := r.v % TWO_64;
    var field := Signed32((wire / 8) % TWO_32);
    if wire % 8 == 4 then Err(EndGroup)
    else if field <= 0 then Err(IllegalTag)
    else Ok(Tag(field, wire % 8, r.n))
  }

  /** Size of what follows a tag; it may reach past the end of the buffer. */
  function SkipBody(s: bytes, wireType: nat): Result<nat> {
    match wireType
    case 0 => var r :- ReadVarint(s); Ok(r.n)
    case 1 => Ok(8)
    case 2 =>
      var r :- ReadVarint(s);
      var len := Signed64(r.v % TWO_64);
      if len < 0 then Err(InvalidLength) else Ok(r.n + len)
    case 3 => Ok(0)
    case 4 => Ok(0)
    case 5 => Ok(4)
    case _ => Err(IllegalWireType)
  }

  /** Group depth after a tag. */
  function Nested(depth: nat, wireType: nat): nat
    requires wireType == 4 ==> depth > 0
  {
    if wireType == 3 then depth + 1 else if wireType == 4 then depth - 1 else depth
  }

  /** One round of skipping: bytes passed over and the group depth after them. */
  datatype Round = Round(n: nat, depth: nat)

  function SkipRound(s: bytes, depth: nat): (r: Result<Round>)
    ensures r.Ok? ==> r.value.n >= 1
  {
    var tag :- ReadVarint(s);
    var wireType := tag.v % 8;
    if wireType == 4 && depth == 0 then Err(UnexpectedEndOfGroup) else
      var body :- SkipBody(s[tag.n..], wireType);
      Ok(Round(tag.n + body, Nested(depth, wireType)))
  }

  /** `skipTypes`: the size of one field, with everything up to its end marker for a group. */
  function Skip(s: bytes, depth: nat): (r: Result<nat>)
    ensures r.Ok? ==> r.value >= 1
    decreases |s|
  {
    if s == [] then Err(UnexpectedEOF) else
      var h :- SkipRound(s, depth);
      if h.depth == 0 then Ok(h.n)
      else if h.n >= |s| then Err(UnexpectedEOF)
      else var rest :- Skip(s[h.n..], h.depth); Ok(h.n + rest)
  }

  /** An unknown field that lies within the buffer. */
  function SkipField(s: bytes): (r: Result<nat>)
    ensures r.Ok? ==> 1 <= r.value <= |s|
  {
    var k :- Skip(s, 0);
    if k > |s| then Err(UnexpectedEOF) else Ok(k)
  }

  /** Result of a field: the updated message and the bytes used, or a field to skip. */
  datatype Field<+M> = Known(m: M, n: nat) | Unknown

  // ----- packed payloads -----

  /** Reads varints until `len` bytes are used; the last may reach past them. */
  function ReadDeltas(s: bytes, len: int, acc: seq<i64>): (r: Result<Read<seq<i64>>>)
    ensures r.Ok? ==> r.value.n <= |s|
    decreases |s|
  {
    if len <= 0 then Ok(Read(acc, 0)) else
      var d :- ReadVarint(s);
      var r :- ReadDeltas(s[d.n..], len - d.n, acc + [Unzig64(d.v % TWO_64)]);
      Ok(Read(r.v, d.n + r.n))
  }

  function ReadDoubles(s: bytes, len: int, acc: seq<u64>): (r: Result<Read<seq<u64>>>)
    ensures r.Ok? ==> r.value.n <= |s|
    decreases |s|
  {
    if len <= 0 then Ok(Read(acc, 0)) else
      var d :- ReadFixed64(s);
      var r :- ReadDoubles(s[8..], len - 8, acc + [d.v]);
      Ok(Read(r.v, 8 + r.n))
  }

  /** A repeated zigzag field, single or packed. */
  function DeltasField(acc: seq<i64>, wireType: nat, s: bytes): (r: Result<Read<seq<i64>>>)
    ensures r.Ok? ==> r.value.n <= |s|
  {
    if wireType == 0 then
      var d :- ReadVarint(s);
      Ok(Read(acc + [Unzig64(d.v % TWO_64)], d.n))
    else if wireType == 2 then
      var len :- ReadLength(s);
      var r :- ReadDeltas(s[len.n..], len.v, acc);
      Ok(Read(r.v, len.n + r.n))
    else Err(WrongWireType)
  }

  /** A repeated double field, single or packed. */
  function DoublesField(acc: seq<u64>, wireType: nat, s: bytes): (r: Result<Read<seq<u64>>>)
    ensures r.Ok? ==> r.value.n <= |s|
  {
    if wireType == 1 then
      var d :- ReadFixed64(s);
      Ok(Read(acc + [d.v], 8))
    else if wireType == 2 then
      var len :- ReadLength(s);
      var r :- ReadDoubles(s[len.n..], len.v, acc);
      Ok(Read(r.v, len.n + r.n))
    else Err(WrongWireType)
  }

  // ----- scalar fields with their wire type check -----

  function VarintValue(wireType: nat, s: bytes): (r: Result<Read<nat>>)
    ensures r.Ok? ==> r.value.n <= |s|
  {
    if wireType != 0 then Err(WrongWireType) else ReadVarint(s)
  }

  function FixedValue(wireType: nat, s: bytes): (r: Result<Read<u64>>)
    ensures r.Ok? ==> r.value.n <= |s|
  {
    if wireType != 1 then Err(WrongWireType) else ReadFixed64(s)
  }

  function BytesValue(wireType: nat, s: bytes): (r: Result<Read<bytes>>)
    ensures r.Ok? ==> r.value.n <= |s| && |r.value.v| < r.value.n
  {
    if wireType != 2 then Err(WrongWireType) else ReadBytes(s)
  }

  // ----- messages -----

  function LabelField(m: Label, t: Tag, s: bytes): (r: Result<Field<Label>>)
    ensures r.Ok? && r.value.Known? ==> r.value.n <= |s|
  {
    match t.field
    case 1 => var r :- BytesValue(t.wireType, s); Ok(Known(m.(name := r.v), r.n))
    case 2 => var r :- BytesValue(t.wireType, s); Ok(Known(m.(value := r.v), r.n))
    case _ => Ok(Unknown)
  }

  function NextLabel(s: bytes, m: Label): (r: Result<Read<Label>>)
    ensures r.Ok? ==> 1 <= r.value.n <= |s|
  {
    var t :- ReadTag(s);
    var f :- LabelField(m, t, s[t.n..]);
    match f
    case Known(m', n) => Ok(Read(m', t.n + n))
    case Unknown =>
      var k :- SkipField(s);
      Ok(Read(m.(unrecognized := m.unrecognized + s[..k]), k))
  }

  function ParseLabel(s: bytes, m: Label): Result<Label>
    decreases |s|
  {
    if s == [] then Ok(m) else
      var r :- NextLabel(s, m);
      ParseLabel(s[r.n..], r.v)
  }

  function SampleField(m: Sample, t: Tag, s: bytes): (r: Result<Field<Sample>>)
    ensures r.Ok? && r.value.Known? ==> r.value.n <= |s|
  {
    match t.field
    case 1 => var r :- FixedValue(t.wireType, s); Ok(Known(m.(value := r.v), r.n))
    case 2 => var r :- VarintValue(t.wireType, s); Ok(Known(m.(timestamp := Signed64(r.v % TWO_64)), r.n))
    case _ => Ok(Unknown)
  }

  function NextSample(s: bytes, m: Sample): (r: Result<Read<Sample>>)
    ensures r.Ok? ==> 1 <= r.value.n <= |s|
  {
    var t :- ReadTag(s);
    var f :- SampleField(m, t, s[t.n..]);
    match f
    case Known(m', n) => Ok(Read(m', t.n + n))
    case Unknown =>
      var k :- SkipField(s);
      Ok(Read(m.(unrecognized := m.unrecognized + s[..k]), k))
  }

  function ParseSample(s: bytes, m: Sample): Result<Sample>
    decreases |s|
  {
    if s == [] then Ok(m) else
      var r :- NextSample(s, m);
      ParseSample(s[r.n..], r.v)
  }

  function SpanField(m: BucketSpan, t: Tag, s: bytes): (r: Result<Field<BucketSpan>>)
    ensures r.Ok? && r.value.Known? ==> r.value.n <= |s|
  {
    match t.field
    case 1 => var r :- VarintValue(t.wireType, s); Ok(Known(m.(offset := Unzig32(r.v % TWO_32)), r.n))
    case 2 => var r :- VarintValue(t.wireType, s); Ok(Known(m.(length := r.v % TWO_32), r.n))
    case _ => Ok(Unknown)
  }

  function NextSpan(s: bytes, m: BucketSpan): (r: Result<Read<BucketSpan>>)
    ensures r.Ok? ==> 1 <= r.value.n <= |s|
  {
    var t :- ReadTag(s);
    var f :- SpanField(m, t, s[t.n..]);
    match f
    case Known(m', n) => Ok(Read(m', t.n + n))
    case Unknown =>
      var k :- SkipField(s);
      Ok(Read(m.(unrecognized := m.unrecognized + s[..k]), k))
  }

  function ParseSpan(s: bytes, m: BucketSpan): Result<BucketSpan>
    decreases |s|
  {
    if s == [] then Ok(m) else
      var r :- NextSpan(s, m);
      ParseSpan(s[r.n..], r.v)
  }

  function SpanValue(wireType: nat, s: bytes): (r: Result<Read<BucketSpan>>)
    ensures r.Ok? ==> r.value.n <= |s|
  {
    var b :- BytesValue(wireType, s);
    var span :- ParseSpan(b.v, EMPTY_SPAN);
    Ok(Read(span, b.n))
  }

  function ExemplarField(m: Exemplar, t: Tag, s: bytes): (r: Result<Field<Exemplar>>)
    ensures r.Ok? && r.value.Known? ==> r.value.n <= |s|
  {
    match t.field
    case 1 =>
      var r :- BytesValue(t.wireType, s);
      var x :- ParseLabel(r.v, EMPTY_LABEL);
      Ok(Known(m.(labels := m.labels + [x]), r.n))
    case 2 => var r :- FixedValue(t.wireType, s); Ok(Known(m.(value := r.v), r.n))
    case 3 => var r :- VarintValue(t.wireType, s); Ok(Known(m.(timestamp := Signed64(r.v % TWO_64)), r.n))
    case _ => Ok(Unknown)
  }

  function NextExemplar(s: bytes, m: Exemplar): (r: Result<Read<Exemplar>>)
    ensures r.Ok? ==> 1 <= r.value.n <= |s|
  {
    var t :- ReadTag(s);
    var f :- ExemplarField(m, t, s[t.n..]);
    match f
    case Known(m', n) => Ok(Read(m', t.n + n))
    case Unknown =>
      var k :- SkipField(s);
      Ok(Read(m.(unrecognized := m.unrecognized + s[..k]), k))
  }

  function ParseExemplar(s: bytes, m: Exemplar): Result<Exemplar>
    decreases |s|
  {
    if s == [] then Ok(m) else
      var r :- NextExemplar(s, m);
      ParseExemplar(s[r.n..], r.v)
  }

  function HistogramField(m: Histogram, t: Tag, s: bytes): (r: Result<Field<Histogram>>)
    ensures r.Ok? && r.value.Known? ==> r.value.n <= |s|
  {
    match t.field
    case 1 => var r :- VarintValue(t.wireType, s); Ok(Known(m.(count := CountInt(r.v % TWO_64)), r.n))
    case 2 => var r :- FixedValue(t.wireType, s); Ok(Known(m.(count := CountFloat(r.v)), r.n))
    case 3 => var r :- FixedValue(t.wireType, s); Ok(Known(m.(sum := r.v), r.n))
    case 4 => var r :- VarintValue(t.wireType, s); Ok(Known(m.(schema := Unzig32(r.v % TWO_32)), r.n))
    case 5 => var r :- FixedValue(t.wireType, s); Ok(Known(m.(zeroThreshold := r.v), r.n))
    case 6 => var r :- VarintValue(t.wireType, s); Ok(Known(m.(zeroCount := CountInt(r.v % TWO_64)), r.n))
    case 7 => var r :- FixedValue(t.wireType, s); Ok(Known(m.(zeroCount := CountFloat(r.v)), r.n))
    case 8 =>
      var r :- SpanValue(t.wireType, s);
      Ok(Known(m.(negativeSpans := m.negativeSpans + [r.v]), r.n))
    case 9 => var r :- DeltasField(m.negativeDeltas, t.wireType, s); Ok(Known(m.(negativeDeltas := r.v), r.n))
    case 10 => var r :- DoublesField(m.negativeCounts, t.wireType, s); Ok(Known(m.(negativeCounts := r.v), r.n))
    case 11 =>
      var r :- SpanValue(t.wireType, s);
      Ok(Known(m.(positiveSpans := m.positiveSpans + [r.v]), r.n))
    case 12 => var r :- DeltasField(m.positiveDeltas, t.wireType, s); Ok(Known(m.(positiveDeltas := r.v), r.n))
    case 13 => var r :- DoublesField(m.positiveCounts, t.wireType, s); Ok(Known(m.(positiveCounts := r.v), r.n))
    case 14 => var r :- VarintValue(t.wireType, s); Ok(Known(m.(resetHint := Signed32(r.v % TWO_32)), r.n))
    case 15 => var r :- VarintValue(t.wireType, s); Ok(Known(m.(timestamp := Signed64(r.v % TWO_64)), r.n))
    case _ => Ok(Unknown)
  }

  function NextHistogram(s: bytes, m: Histogram): (r: Result<Read<Histogram>>)
    ensures r.Ok? ==> 1 <= r.value.n <= |s|
  {
    var t :- ReadTag(s);
    var f :- HistogramField(m, t, s[t.n..]);
    match f
    case Known(m', n) => Ok(Read(m', t.n + n))
    case Unknown =>
      var k :- SkipField(s);
      Ok(Read(m.(unrecognized := m.unrecognized + s[..k]), k))
  }

  function ParseHistogram(s: bytes, m: Histogram): Result<Histogram>
    decreases |s|
  {
    if s == [] then Ok(m) else
      var r :- NextHistogram(s, m);
      ParseHistogram(s[r.n..], r.v)
  }

  function TimeSeriesField(m: TimeSeries, t: Tag, s: bytes): (r: Result<Field<TimeSeries>>)
    ensures r.Ok? && r.value.Known? ==> r.value.n <= |s|
  {
    if 1 <= t.field <= 4 then
      var r :- BytesValue(t.wireType, s);
      match t.field
      case 1 => var x :- ParseLabel(r.v, EMPTY_LABEL); Ok(Known(m.(labels := m.labels + [x]), r.n))
      case 2 => var x :- ParseSample(r.v, EMPTY_SAMPLE); Ok(Known(m.(samples := m.samples + [x]), r.n))
      case 3 => var x :- ParseExemplar(r.v, EMPTY_EXEMPLAR); Ok(Known(m.(exemplars := m.exemplars + [x]), r.n))
      case _ => var x :- ParseHistogram(r.v, EMPTY_HISTOGRAM); Ok(Known(m.(histograms := m.histograms + [x]), r.n))
    else Ok(Unknown)
  }

  function NextTimeSeries(s: bytes, m: TimeSeries): (r: Result<Read<TimeSeries>>)
    ensures r.Ok? ==> 1 <= r.value.n <= |s|
  {
    var t :- ReadTag(s);
    var f :- TimeSeriesField(m, t, s[t.n..]);
    match f
    case Known(m', n) => Ok(Read(m', t.n + n))
    case Unknown =>
      var k :- SkipField(s);
      Ok(Read(m.(unrecognized := m.unrecognized + s[..k]), k))
  }

  /** `Unmarshal` into `m`. */
  function ParseTimeSeries(s: bytes, m: TimeSeries): Result<TimeSeries>
    decreases |s|
  {
    if s == [] then Ok(m) else
      var r :- NextTimeSeries(s, m);
      ParseTimeSeries(s[r.n..], r.v)
  }
}
