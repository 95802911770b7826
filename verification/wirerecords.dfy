/**
 * Reading any records, in any order: scalars are overwritten, repeated fields grow, packed or
 * not, unknown records are kept as they are, and a known field of the wrong wire type is an
 * error. Unknown groups are skipped as a whole, at any depth.
 */
module WireRecords {
  import opened WireScalars
  import opened WireMessages
  import opened WireFormat
  import opened WireReader
  import WireRoundTrip

  // ----- skipping -----

  /** What the format can hold: also fixed 32-bit values and groups, which no message here uses. */
  datatype Item =
    | Plain(r: Record)
    | Fixed32(number: nat, b: bytes)
    | Group(number: nat, items: seq<Item>)

  function ItemBytes(x: Item): bytes {
    match x
    case Plain(r) => RecordBytes(r)
    case Fixed32(n, b) => Varint(8 * n + 5) + b
    case Group(n, items) => Varint(8 * n + 3) + ItemsBytes(items) + Varint(8 * n + 4)
  }

  function ItemsBytes(xs: seq<Item>): bytes {
    if xs == [] then [] else ItemBytes(xs[0]) + ItemsBytes(xs[1..])
  }

  /** Field numbers of 31 bits, lengths of 63 bits. */
  predicate Legal(r: Record) {
    1 <= r.number < 0x8000_0000 && (r.payload.LengthDelimited? ==> |r.payload.b| < TWO_63)
  }

  predicate LegalItem(x: Item) {
    match x
    case Plain(r) => Legal(r)
    case Fixed32(n, b) => 1 <= n < 0x8000_0000 && |b| == 4
    case Group(n, items) => 1 <= n < 0x8000_0000 && LegalItems(items)
  }

  predicate LegalItems(xs: seq<Item>) {
    xs != [] ==> LegalItem(xs[0]) && LegalItems(xs[1..])
  }

  lemma KeyParts(n: nat, w: nat, v: nat)
    requires n < 0x8000_0000 && w < 8 && v == 8 * n + w
    ensures v < TWO_64 && v % TWO_64 == v && v % 8 == w && v / 8 == n && n % TWO_32 == n && Signed32(n) == n
  {
  }

  /** A tag in front of `tail`. */
  lemma KeyRead(n: nat, w: nat, v: nat, key: bytes, tail: bytes, s: bytes)
    requires n < 0x8000_0000 && w < 8 && v == 8 * n + w && key == Varint(v) && s == key + tail
    ensures ReadVarint(s) == Ok(Read(v, |key|)) && s[|key|..] == tail && s != [] && v % 8 == w
  {
    KeyParts(n, w, v);
    ReadVarintOf(v, tail);
  }

  lemma TagRead(n: nat, w: nat, v: nat, s: bytes, size: nat)
    requires 1 <= n < 0x8000_0000 && w < 8 && w != 4 && v == 8 * n + w && ReadVarint(s) == Ok(Read(v, size))
    ensures ReadTag(s) == Ok(Tag(n, w, size))
  {
    KeyParts(n, w, v);
  }

  /** The readers of all three kinds find `p` in the first `n` bytes of `s`. */
  predicate Bodied(p: Payload, s: bytes, n: nat) {
    match p
    case VarintOf(v) => ReadVarint(s) == Ok(Read(v, n))
    case Fixed64(d) => ReadFixed64(s) == Ok(Read(d, n))
    case LengthDelimited(b) => ReadBytes(s) == Ok(Read(b, n))
  }

  lemma BodyRead(p: Payload, rest: bytes)
    requires p.LengthDelimited? ==> |p.b| < TWO_63
    ensures Bodied(p, Body(p) + rest, |Body(p)|)
  {
    match p
    case VarintOf(v) => ReadVarintOf(v, rest);
    case Fixed64(d) => ReadFixed64Of(d, rest);
    case LengthDelimited(b) => ReadBytesOf(b, rest);
  }

  lemma LengthSkipped(len: nat, head: bytes, tail: bytes, s: bytes)
    requires len < TWO_63 && head == Varint(len) && s == head + tail
    ensures SkipBody(s, 2) == Ok(|head| + len)
  {
    ReadVarintOf(len, tail);
    assert len % TWO_64 == len && Signed64(len) == len;
  }

  lemma BodySkipped(p: Payload, rest: bytes)
    requires p.LengthDelimited? ==> |p.b| < TWO_63
    ensures SkipBody(Body(p) + rest, WireType(p)) == Ok(|Body(p)|)
  {
    match p
    case VarintOf(v) => ReadVarintOf(v, rest);
    case Fixed64(_) =>
    case LengthDelimited(b) =>
      assert Body(p) + rest == Varint(|b|) + (b + rest);
      LengthSkipped(|b|, Varint(|b|), b + rest, Body(p) + rest);
  }

  /** How much there is to skip after an item at the given group depth. */
  ghost predicate Remaining(rest: bytes, depth: nat, k: nat) {
    if depth == 0 then k == 0 else Skip(rest, depth) == Ok(k)
  }

  lemma SkipOne(s: bytes, depth: nat, n: nat, rest: bytes, depth': nat, k: nat)
    requires s != [] && SkipRound(s, depth) == Ok(Round(n, depth')) && n <= |s| && rest == s[n..]
    requires Remaining(rest, depth', k)
    ensures Skip(s, depth) == Ok(n + k)
  {
  }

  lemma Behind(a: bytes, b: bytes, s: bytes)
    requires s == a + b
    ensures s[|a|..] == b && s[..|a|] == a
  {
  }

  lemma SkipKey(s: bytes, v: nat, w: nat, size: nat, tail: bytes, body: nat, depth: nat, depth': nat, rest: bytes,
                k: nat, n: nat, total: nat)
    requires s != [] && ReadVarint(s) == Ok(Read(v, size)) && size <= |s| && v % 8 == w && s[size..] == tail
    requires SkipBody(tail, w) == Ok(body) && (w == 4 ==> depth > 0) && depth' == Nested(depth, w)
    requires n == size + body <= |s| && rest == s[n..] && Remaining(rest, depth', k) && total == n + k
    ensures Skip(s, depth) == Ok(total)
  {
    assert SkipRound(s, depth) == Ok(Round(n, depth'));
    SkipOne(s, depth, n, rest, depth', k);
  }

  /** A key and its payload. */
  lemma SkipKeyed(n: nat, w: nat, v: nat, key: bytes, body: bytes, tail: bytes, rest: bytes, s: bytes,
                  depth: nat, k: nat, total: nat)
    requires n < 0x8000_0000 && w < 8 && w != 3 && w != 4 && v == 8 * n + w && key == Varint(v)
    requires tail == body + rest && s == key + body + rest
    requires SkipBody(tail, w) == Ok(|body|) && Remaining(rest, depth, k) && total == |key| + |body| + k
    ensures Skip(s, depth) == Ok(total)
  {
    assert s == key + tail;
    KeyRead(n, w, v, key, tail, s);
    Behind(key + body, rest, s);
    SkipKey(s, v, w, |key|, tail, |body|, depth, depth, rest, k, |key| + |body|, total);
  }

  /** Both ends of a group. */
  lemma SkipStart(n: nat, v: nat, key: bytes, rest: bytes, s: bytes, depth: nat, deeper: nat, k: nat, total: nat)
    requires n < 0x8000_0000 && v == 8 * n + 3 && key == Varint(v) && s == key + rest && total == |key| + k
    requires deeper == depth + 1 && Remaining(rest, deeper, k)
    ensures Skip(s, depth) == Ok(total)
  {
    KeyRead(n, 3, v, key, rest, s);
    SkipKey(s, v, 3, |key|, rest, 0, depth, deeper, rest, k, |key|, total);
  }

  lemma SkipEnd(n: nat, v: nat, key: bytes, rest: bytes, s: bytes, depth: nat, deeper: nat, k: nat, total: nat)
    requires n < 0x8000_0000 && v == 8 * n + 4 && key == Varint(v) && s == key + rest && total == |key| + k
    requires deeper == depth + 1 && Remaining(rest, depth, k)
    ensures Skip(s, deeper) == Ok(total)
  {
    KeyRead(n, 4, v, key, rest, s);
    SkipKey(s, v, 4, |key|, rest, 0, deeper, depth, rest, k, |key|, total);
  }

  lemma SkipPlain(r: Record, rest: bytes, s: bytes, depth: nat, k: nat, total: nat)
    requires Legal(r) && s == RecordBytes(r) + rest && Remaining(rest, depth, k) && total == |RecordBytes(r)| + k
    ensures Skip(s, depth) == Ok(total)
  {
    var w := WireType(r.payload);
    BodySkipped(r.payload, rest);
    SkipKeyed(r.number, w, 8 * r.number + w, Varint(8 * r.number + w), Body(r.payload), Body(r.payload) + rest, rest, s,
              depth, k, total);
  }

  /** An item is skipped exactly, whatever follows it. */
  lemma {:induction false} SkipItem(x: Item, rest: bytes, s: bytes, depth: nat, k: nat, total: nat)
    requires LegalItem(x) && s == ItemBytes(x) + rest && Remaining(rest, depth, k) && total == |ItemBytes(x)| + k
    ensures Skip(s, depth) == Ok(total)
    decreases x, 0
  {
    match x
    case Plain(r) =>
      SkipPlain(r, rest, s, depth, k, total);
    case Fixed32(n, b) =>
      SkipKeyed(n, 5, 8 * n + 5, Varint(8 * n + 5), b, b + rest, rest, s, depth, k, total);
    case Group(n, items) =>
      var start, end, inner := Varint(8 * n + 3), Varint(8 * n + 4), ItemsBytes(items);
      assert s == start + (inner + (end + rest));
      SkipGroup(n, items, start, end, inner, rest, end + rest, inner + (end + rest), s, depth, depth + 1,
                k, |end| + k, |inner| + |end| + k, total);
  }

  lemma {:induction false} SkipGroup(n: nat, items: seq<Item>, start: bytes, end: bytes, inner: bytes,
                                     rest: bytes, tail: bytes, most: bytes, s: bytes,
                                     depth: nat, deeper: nat, k: nat, k1: nat, k2: nat, total: nat)
    requires 1 <= n < 0x8000_0000 && LegalItems(items) && Remaining(rest, depth, k) && deeper == depth + 1
    requires start == Varint(8 * n + 3) && end == Varint(8 * n + 4) && inner == ItemsBytes(items)
    requires tail == end + rest && most == inner + tail && s == start + most
    requires k1 == |end| + k && k2 == |inner| + k1 && total == |start| + k2
    ensures Skip(s, depth) == Ok(total)
    decreases items, 1
  {
    SkipEnd(n, 8 * n + 4, end, rest, tail, depth, deeper, k, k1);
    SkipItems(items, tail, most, deeper, k1, k2);
    SkipStart(n, 8 * n + 3, start, most, s, depth, deeper, k2, total);
  }

  lemma {:induction false} SkipItems(xs: seq<Item>, rest: bytes, s: bytes, depth: nat, k: nat, total: nat)
    requires LegalItems(xs) && s == ItemsBytes(xs) + rest && total == |ItemsBytes(xs)| + k
    requires depth > 0 && Skip(rest, depth) == Ok(k)
    ensures Skip(s, depth) == Ok(total)
    decreases xs, 0
  {
    if xs == [] {
      assert s == rest;
    } else {
      var first, more := xs[0], xs[1..];
      var tail, k1 := ItemsBytes(more) + rest, |ItemsBytes(more)| + k;
      SkipItems(more, rest, tail, depth, k, k1);
      ItemsFirst(xs, rest, tail);
      SkipItem(first, tail, s, depth, k1, total);
    }
  }

  lemma ItemsFirst(xs: seq<Item>, rest: bytes, tail: bytes)
    requires xs != [] && tail == ItemsBytes(xs[1..]) + rest
    ensures ItemsBytes(xs) + rest == ItemBytes(xs[0]) + tail
    ensures |ItemsBytes(xs)| == |ItemBytes(xs[0])| + |ItemsBytes(xs[1..])|
  {
    var a, b := ItemBytes(xs[0]), ItemsBytes(xs[1..]);
    assert ItemsBytes(xs) == a + b;
    Associates(a, b, rest);
  }

  lemma Associates(a: bytes, b: bytes, c: bytes)
    ensures (a + b) + c == a + (b + c)
  {
  }

  /** Skipping passes over exactly one item, also over a group with all that is in it. */
  lemma SkipsItem(x: Item, rest: bytes)
    requires LegalItem(x)
    ensures SkipField(ItemBytes(x) + rest) == Ok(|ItemBytes(x)|)
  {
    SkipItem(x, rest, ItemBytes(x) + rest, 0, 0, |ItemBytes(x)|);
  }

  // ----- what a record does to a message -----

  function SignedWord(v: u64): i64 {
    if v < 0x8000_0000_0000_0000 then v else v - 0x1_0000_0000_0000_0000
  }

  function Half(v: u64): u32 {
    v % 0x1_0000_0000
  }

  function SignedHalf(v: u32): i32 {
    if v < 0x8000_0000 then v else v - 0x1_0000_0000
  }

  function Unzigged(v: u64): i64 {
    if v % 2 == 0 then v / 2 else -1 - v / 2
  }

  lemma Scalar(v: u64)
    ensures v % TWO_64 == v && Signed64(v) == SignedWord(v) && Unzig64(v) == Unzigged(v)
    ensures v % TWO_32 == Half(v) && Signed32(Half(v)) == SignedHalf(Half(v)) && Unzig32(Half(v)) == Unzigged(Half(v))
  {
  }

  function OnVarint<M>(p: Payload, put: u64 -> M): Result<M> {
    if p.VarintOf? then Ok(put(p.v)) else Err(WrongWireType)
  }

  function OnFixed<M>(p: Payload, put: u64 -> M): Result<M> {
    if p.Fixed64? then Ok(put(p.d)) else Err(WrongWireType)
  }

  function OnBytes<M>(p: Payload, put: bytes -> M): Result<M> {
    if p.LengthDelimited? then Ok(put(p.b)) else Err(WrongWireType)
  }

  function OnMessage<X, M>(p: Payload, parse: bytes -> Result<X>, put: X -> M): Result<M> {
    if p.LengthDelimited? then var x :- parse(p.b); Ok(put(x)) else Err(WrongWireType)
  }

  function LabelWith(m: Label, r: Record): Result<Label> {
    match r.number
    case 1 => OnBytes(r.payload, b => m.(name := b))
    case 2 => OnBytes(r.payload, b => m.(value := b))
    case _ => Ok(m.(unrecognized := m.unrecognized + RecordBytes(r)))
  }

  function SampleWith(m: Sample, r: Record): Result<Sample> {
    match r.number
    case 1 => OnFixed(r.payload, d => m.(value := d))
    case 2 => OnVarint(r.payload, v => m.(timestamp := SignedWord(v)))
    case _ => Ok(m.(unrecognized := m.unrecognized + RecordBytes(r)))
  }

  function SpanWith(m: BucketSpan, r: Record): Result<BucketSpan> {
    match r.number
    case 1 => OnVarint(r.payload, v => m.(offset := Unzigged(Half(v))))
    case 2 => OnVarint(r.payload, v => m.(length := Half(v)))
    case _ => Ok(m.(unrecognized := m.unrecognized + RecordBytes(r)))
  }

  function ExemplarWith(m: Exemplar, r: Record): Result<Exemplar> {
    match r.number
    case 1 => OnMessage(r.payload, b => ParseLabel(b, EMPTY_LABEL), x => m.(labels := m.labels + [x]))
    case 2 => OnFixed(r.payload, d => m.(value := d))
    case 3 => OnVarint(r.payload, v => m.(timestamp := SignedWord(v)))
    case _ => Ok(m.(unrecognized := m.unrecognized + RecordBytes(r)))
  }

  function HistogramWith(m: Histogram, r: Record): Result<Histogram> {
    match r.number
    case 1 => OnVarint(r.payload, v => m.(count := CountInt(v)))
    case 2 => OnFixed(r.payload, d => m.(count := CountFloat(d)))
    case 3 => OnFixed(r.payload, d => m.(sum := d))
    case 4 => OnVarint(r.payload, v => m.(schema := Unzigged(Half(v))))
    case 5 => OnFixed(r.payload, d => m.(zeroThreshold := d))
    case 6 => OnVarint(r.payload, v => m.(zeroCount := CountInt(v)))
    case 7 => OnFixed(r.payload, d => m.(zeroCount := CountFloat(d)))
    case 8 => OnMessage(r.payload, b => ParseSpan(b, EMPTY_SPAN), x => m.(negativeSpans := m.negativeSpans + [x]))
    case 9 => OnVarint(r.payload, v => m.(negativeDeltas := m.negativeDeltas + [Unzigged(v)]))
    case 10 => OnFixed(r.payload, d => m.(negativeCounts := m.negativeCounts + [d]))
    case 11 => OnMessage(r.payload, b => ParseSpan(b, EMPTY_SPAN), x => m.(positiveSpans := m.positiveSpans + [x]))
    case 12 => OnVarint(r.payload, v => m.(positiveDeltas := m.positiveDeltas + [Unzigged(v)]))
    case 13 => OnFixed(r.payload, d => m.(positiveCounts := m.positiveCounts + [d]))
    case 14 => OnVarint(r.payload, v => m.(resetHint := SignedHalf(Half(v))))
    case 15 => OnVarint(r.payload, v => m.(timestamp := SignedWord(v)))
    case _ => Ok(m.(unrecognized := m.unrecognized + RecordBytes(r)))
  }

  /** Repeated numbers of a histogram may also come packed. */
  predicate IsPacked(r: Record) {
    r.payload.LengthDelimited? && (r.number == 9 || r.number == 10 || r.number == 12 || r.number == 13)
  }

  function TimeSeriesWith(m: TimeSeries, r: Record): Result<TimeSeries> {
    match r.number
    case 1 => OnMessage(r.payload, b => ParseLabel(b, EMPTY_LABEL), x => m.(labels := m.labels + [x]))
    case 2 => OnMessage(r.payload, b => ParseSample(b, EMPTY_SAMPLE), x => m.(samples := m.samples + [x]))
    case 3 => OnMessage(r.payload, b => ParseExemplar(b, EMPTY_EXEMPLAR), x => m.(exemplars := m.exemplars + [x]))
    case 4 => OnMessage(r.payload, b => ParseHistogram(b, EMPTY_HISTOGRAM), x => m.(histograms := m.histograms + [x]))
    case _ => Ok(m.(unrecognized := m.unrecognized + RecordBytes(r)))
  }

  // ----- the readers do that -----

  /** A message after a record of `n` bytes, or the error. */
  function Used<M>(m: Result<M>, n: nat): Result<Read<M>> {
    if m.Ok? then Ok(Read(m.value, n)) else Err(m.error)
  }

  /** The same for a field, known or not. */
  function Placed<M>(m: Result<M>, known: bool, n: nat): Result<Field<M>> {
    if !known then Ok(Unknown) else if m.Ok? then Ok(Known(m.value, n)) else Err(m.error)
  }

  /** A record in front of `rest`: its tag, its payload, and its size if it is skipped. */
  lemma RecordRead(r: Record, rest: bytes, s: bytes, key: nat)
    requires Legal(r) && s == RecordBytes(r) + rest && key == |Varint(8 * r.number + WireType(r.payload))|
    ensures s != [] && ReadTag(s) == Ok(Tag(r.number, WireType(r.payload), key))
    ensures s[key..] == Body(r.payload) + rest && key + |Body(r.payload)| == |RecordBytes(r)|
    ensures SkipField(s) == Ok(|RecordBytes(r)|) && s[..|RecordBytes(r)|] == RecordBytes(r)
    ensures s[|RecordBytes(r)|..] == rest
  {
    var k, body := Varint(8 * r.number + WireType(r.payload)), Body(r.payload);
    assert s == k + (body + rest);
    KeyRead(r.number, WireType(r.payload), 8 * r.number + WireType(r.payload), k, body + rest, s);
    TagRead(r.number, WireType(r.payload), 8 * r.number + WireType(r.payload), s, key);
    SkipsItem(Plain(r), rest);
    Behind(RecordBytes(r), rest, s);
  }

  predicate AllLegal(rs: seq<Record>) {
    rs != [] ==> Legal(rs[0]) && AllLegal(rs[1..])
  }

  /** One record after the other, until one is refused. */
  function Fold<M>(rs: seq<Record>, m: M, with: (M, Record) -> Result<M>): Result<M> {
    if rs == [] then Ok(m) else var m' :- with(m, rs[0]); Fold(rs[1..], m', with)
  }

  lemma RecordsFirst(rs: seq<Record>)
    requires rs != []
    ensures Records(rs) == RecordBytes(rs[0]) + Records(rs[1..])
  {
  }

  lemma LabelKnows(m: Label, r: Record, t: Tag, s: bytes, n: nat)
    requires t.field == r.number && t.wireType == WireType(r.payload) && Bodied(r.payload, s, n)
    ensures LabelField(m, t, s) == Placed(LabelWith(m, r), 1 <= r.number <= 2, n)
  {
    if r.payload.VarintOf? {
      Scalar(r.payload.v);
    }
  }

  lemma LabelRound(s: bytes, m: Label, t: Tag, after: Result<Label>, known: bool, n: nat, size: nat)
    requires ReadTag(s) == Ok(t) && LabelField(m, t, s[t.n..]) == Placed(after, known, n) && size == t.n + n <= |s|
    requires SkipField(s) == Ok(size) && (!known ==> after == Ok(m.(unrecognized := m.unrecognized + s[..size])))
    ensures NextLabel(s, m) == Used(after, size)
  {
    if !known {
      assert NextLabel(s, m) == Ok(Read(m.(unrecognized := m.unrecognized + s[..size]), size));
    } else if after.Err? {
      assert NextLabel(s, m) == Err(after.error);
    } else {
      assert NextLabel(s, m) == Ok(Read(after.value, size));
    }
  }

  lemma LabelTakes(m: Label, r: Record, rest: bytes)
    requires Legal(r)
    ensures NextLabel(RecordBytes(r) + rest, m) == Used(LabelWith(m, r), |RecordBytes(r)|)
  {
    var s, key := RecordBytes(r) + rest, |Varint(8 * r.number + WireType(r.payload))|;
    var t, body := Tag(r.number, WireType(r.payload), key), |Body(r.payload)|;
    RecordRead(r, rest, s, key);
    BodyRead(r.payload, rest);
    LabelKnows(m, r, t, s[key..], body);
    LabelRound(s, m, t, LabelWith(m, r), r.number <= 2, body, |RecordBytes(r)|);
  }

  lemma {:induction false} LabelRecords(rs: seq<Record>, m: Label)
    requires AllLegal(rs)
    ensures ParseLabel(Records(rs), m) == Fold(rs, m, LabelWith)
    decreases |rs|
  {
    if rs != [] {
      var s := Records(rs);
      RecordsFirst(rs);
      LabelTakes(m, rs[0], Records(rs[1..]));
      RecordRead(rs[0], Records(rs[1..]), s, |Varint(8 * rs[0].number + WireType(rs[0].payload))|);
      if LabelWith(m, rs[0]).Ok? {
        LabelRecords(rs[1..], LabelWith(m, rs[0]).value);
      }
    }
  }

  lemma SampleKnows(m: Sample, r: Record, t: Tag, s: bytes, n: nat)
    requires t.field == r.number && t.wireType == WireType(r.payload) && Bodied(r.payload, s, n)
    ensures SampleField(m, t, s) == Placed(SampleWith(m, r), 1 <= r.number <= 2, n)
  {
    if r.payload.VarintOf? {
      Scalar(r.payload.v);
    }
  }

  lemma SampleRound(s: bytes, m: Sample, t: Tag, after: Result<Sample>, known: bool, n: nat, size: nat)
    requires ReadTag(s) == Ok(t) && SampleField(m, t, s[t.n..]) == Placed(after, known, n) && size == t.n + n <= |s|
    requires SkipField(s) == Ok(size) && (!known ==> after == Ok(m.(unrecognized := m.unrecognized + s[..size])))
    ensures NextSample(s, m) == Used(after, size)
  {
    if !known {
      assert NextSample(s, m) == Ok(Read(m.(unrecognized := m.unrecognized + s[..size]), size));
    } else if after.Err? {
      assert NextSample(s, m) == Err(after.error);
    } else {
      assert NextSample(s, m) == Ok(Read(after.value, size));
    }
  }

  lemma SampleTakes(m: Sample, r: Record, rest: bytes)
    requires Legal(r)
    ensures NextSample(RecordBytes(r) + rest, m) == Used(SampleWith(m, r), |RecordBytes(r)|)
  {
    var s, key := RecordBytes(r) + rest, |Varint(8 * r.number + WireType(r.payload))|;
    var t, body := Tag(r.number, WireType(r.payload), key), |Body(r.payload)|;
    RecordRead(r, rest, s, key);
    BodyRead(r.payload, rest);
    SampleKnows(m, r, t, s[key..], body);
    SampleRound(s, m, t, SampleWith(m, r), r.number <= 2, body, |RecordBytes(r)|);
  }

  lemma {:induction false} SampleRecords(rs: seq<Record>, m: Sample)
    requires AllLegal(rs)
    ensures ParseSample(Records(rs), m) == Fold(rs, m, SampleWith)
    decreases |rs|
  {
    if rs != [] {
      var s := Records(rs);
      RecordsFirst(rs);
      SampleTakes(m, rs[0], Records(rs[1..]));
      RecordRead(rs[0], Records(rs[1..]), s, |Varint(8 * rs[0].number + WireType(rs[0].payload))|);
      if SampleWith(m, rs[0]).Ok? {
        SampleRecords(rs[1..], SampleWith(m, rs[0]).value);
      }
    }
  }

  lemma SpanKnows(m: BucketSpan, r: Record, t: Tag, s: bytes, n: nat)
    requires t.field == r.number && t.wireType == WireType(r.payload) && Bodied(r.payload, s, n)
    ensures SpanField(m, t, s) == Placed(SpanWith(m, r), 1 <= r.number <= 2, n)
  {
    if r.payload.VarintOf? {
      Scalar(r.payload.v);
    }
  }

  lemma SpanRound(s: bytes, m: BucketSpan, t: Tag, after: Result<BucketSpan>, known: bool, n: nat, size: nat)
    requires ReadTag(s) == Ok(t) && SpanField(m, t, s[t.n..]) == Placed(after, known, n) && size == t.n + n <= |s|
    requires SkipField(s) == Ok(size) && (!known ==> after == Ok(m.(unrecognized := m.unrecognized + s[..size])))
    ensures NextSpan(s, m) == Used(after, size)
  {
    if !known {
      assert NextSpan(s, m) == Ok(Read(m.(unrecognized := m.unrecognized + s[..size]), size));
    } else if after.Err? {
      assert NextSpan(s, m) == Err(after.error);
    } else {
      assert NextSpan(s, m) == Ok(Read(after.value, size));
    }
  }

  lemma SpanTakes(m: BucketSpan, r: Record, rest: bytes)
    requires Legal(r)
    ensures NextSpan(RecordBytes(r) + rest, m) == Used(SpanWith(m, r), |RecordBytes(r)|)
  {
    var s, key := RecordBytes(r) + rest, |Varint(8 * r.number + WireType(r.payload))|;
    var t, body := Tag(r.number, WireType(r.payload), key), |Body(r.payload)|;
    RecordRead(r, rest, s, key);
    BodyRead(r.payload, rest);
    SpanKnows(m, r, t, s[key..], body);
    SpanRound(s, m, t, SpanWith(m, r), r.number <= 2, body, |RecordBytes(r)|);
  }

  lemma {:induction false} SpanRecords(rs: seq<Record>, m: BucketSpan)
    requires AllLegal(rs)
    ensures ParseSpan(Records(rs), m) == Fold(rs, m, SpanWith)
    decreases |rs|
  {
    if rs != [] {
      var s := Records(rs);
      RecordsFirst(rs);
      SpanTakes(m, rs[0], Records(rs[1..]));
      RecordRead(rs[0], Records(rs[1..]), s, |Varint(8 * rs[0].number + WireType(rs[0].payload))|);
      if SpanWith(m, rs[0]).Ok? {
        SpanRecords(rs[1..], SpanWith(m, rs[0]).value);
      }
    }
  }

  lemma ExemplarKnows(m: Exemplar, r: Record, t: Tag, s: bytes, n: nat)
    requires t.field == r.number && t.wireType == WireType(r.payload) && Bodied(r.payload, s, n)
    ensures ExemplarField(m, t, s) == Placed(ExemplarWith(m, r), 1 <= r.number <= 3, n)
  {
    if r.payload.VarintOf? {
      Scalar(r.payload.v);
    }
  }

  lemma ExemplarRound(s: bytes, m: Exemplar, t: Tag, after: Result<Exemplar>, known: bool, n: nat, size: nat)
    requires ReadTag(s) == Ok(t) && ExemplarField(m, t, s[t.n..]) == Placed(after, known, n) && size == t.n + n <= |s|
    requires SkipField(s) == Ok(size) && (!known ==> after == Ok(m.(unrecognized := m.unrecognized + s[..size])))
    ensures NextExemplar(s, m) == Used(after, size)
  {
    if !known {
      assert NextExemplar(s, m) == Ok(Read(m.(unrecognized := m.unrecognized + s[..size]), size));
    } else if after.Err? {
      assert NextExemplar(s, m) == Err(after.error);
    } else {
      assert NextExemplar(s, m) == Ok(Read(after.value, size));
    }
  }

  lemma ExemplarTakes(m: Exemplar, r: Record, rest: bytes)
    requires Legal(r)
    ensures NextExemplar(RecordBytes(r) + rest, m) == Used(ExemplarWith(m, r), |RecordBytes(r)|)
  {
    var s, key := RecordBytes(r) + rest, |Varint(8 * r.number + WireType(r.payload))|;
    var t, body := Tag(r.number, WireType(r.payload), key), |Body(r.payload)|;
    RecordRead(r, rest, s, key);
    BodyRead(r.payload, rest);
    ExemplarKnows(m, r, t, s[key..], body);
    ExemplarRound(s, m, t, ExemplarWith(m, r), r.number <= 3, body, |RecordBytes(r)|);
  }

  lemma {:induction false} ExemplarRecords(rs: seq<Record>, m: Exemplar)
    requires AllLegal(rs)
    ensures ParseExemplar(Records(rs), m) == Fold(rs, m, ExemplarWith)
    decreases |rs|
  {
    if rs != [] {
      var s := Records(rs);
      RecordsFirst(rs);
      ExemplarTakes(m, rs[0], Records(rs[1..]));
      RecordRead(rs[0], Records(rs[1..]), s, |Varint(8 * rs[0].number + WireType(rs[0].payload))|);
      if ExemplarWith(m, rs[0]).Ok? {
        ExemplarRecords(rs[1..], ExemplarWith(m, rs[0]).value);
      }
    }
  }

  lemma HistogramKnows(m: Histogram, r: Record, t: Tag, s: bytes, n: nat)
    requires t.field == r.number && t.wireType == WireType(r.payload) && Bodied(r.payload, s, n) && !IsPacked(r)
    ensures HistogramField(m, t, s) == Placed(HistogramWith(m, r), 1 <= r.number <= 15, n)
  {
    if r.payload.VarintOf? {
      Scalar(r.payload.v);
    }
  }

  lemma HistogramRound(s: bytes, m: Histogram, t: Tag, after: Result<Histogram>, known: bool, n: nat, size: nat)
    requires ReadTag(s) == Ok(t) && HistogramField(m, t, s[t.n..]) == Placed(after, known, n) && size == t.n + n <= |s|
    requires SkipField(s) == Ok(size) && (!known ==> after == Ok(m.(unrecognized := m.unrecognized + s[..size])))
    ensures NextHistogram(s, m) == Used(after, size)
  {
    if !known {
      assert NextHistogram(s, m) == Ok(Read(m.(unrecognized := m.unrecognized + s[..size]), size));
    } else if after.Err? {
      assert NextHistogram(s, m) == Err(after.error);
    } else {
      assert NextHistogram(s, m) == Ok(Read(after.value, size));
    }
  }

  lemma HistogramTakes(m: Histogram, r: Record, rest: bytes)
    requires Legal(r) && !IsPacked(r)
    ensures NextHistogram(RecordBytes(r) + rest, m) == Used(HistogramWith(m, r), |RecordBytes(r)|)
  {
    var s, key := RecordBytes(r) + rest, |Varint(8 * r.number + WireType(r.payload))|;
    var t, body := Tag(r.number, WireType(r.payload), key), |Body(r.payload)|;
    RecordRead(r, rest, s, key);
    BodyRead(r.payload, rest);
    HistogramKnows(m, r, t, s[key..], body);
    HistogramRound(s, m, t, HistogramWith(m, r), r.number <= 15, body, |RecordBytes(r)|);
  }

  lemma {:induction false} HistogramRecords(rs: seq<Record>, m: Histogram)
    requires AllLegal(rs) && forall i :: 0 <= i < |rs| ==> !IsPacked(rs[i])
    ensures ParseHistogram(Records(rs), m) == Fold(rs, m, HistogramWith)
    decreases |rs|
  {
    if rs != [] {
      var s := Records(rs);
      RecordsFirst(rs);
      HistogramTakes(m, rs[0], Records(rs[1..]));
      RecordRead(rs[0], Records(rs[1..]), s, |Varint(8 * rs[0].number + WireType(rs[0].payload))|);
      if HistogramWith(m, rs[0]).Ok? {
        HistogramRecords(rs[1..], HistogramWith(m, rs[0]).value);
      }
    }
  }

  lemma TimeSeriesKnows(m: TimeSeries, r: Record, t: Tag, s: bytes, n: nat)
    requires t.field == r.number && t.wireType == WireType(r.payload) && Bodied(r.payload, s, n)
    ensures TimeSeriesField(m, t, s) == Placed(TimeSeriesWith(m, r), 1 <= r.number <= 4, n)
  {
    if r.payload.VarintOf? {
      Scalar(r.payload.v);
    }
  }

  lemma TimeSeriesRound(s: bytes, m: TimeSeries, t: Tag, after: Result<TimeSeries>, known: bool, n: nat, size: nat)
    requires ReadTag(s) == Ok(t) && TimeSeriesField(m, t, s[t.n..]) == Placed(after, known, n) && size == t.n + n <= |s|
    requires SkipField(s) == Ok(size) && (!known ==> after == Ok(m.(unrecognized := m.unrecognized + s[..size])))
    ensures NextTimeSeries(s, m) == Used(after, size)
  {
    if !known {
      assert NextTimeSeries(s, m) == Ok(Read(m.(unrecognized := m.unrecognized + s[..size]), size));
    } else if after.Err? {
      assert NextTimeSeries(s, m) == Err(after.error);
    } else {
      assert NextTimeSeries(s, m) == Ok(Read(after.value, size));
    }
  }

  lemma TimeSeriesTakes(m: TimeSeries, r: Record, rest: bytes)
    requires Legal(r)
    ensures NextTimeSeries(RecordBytes(r) + rest, m) == Used(TimeSeriesWith(m, r), |RecordBytes(r)|)
  {
    var s, key := RecordBytes(r) + rest, |Varint(8 * r.number + WireType(r.payload))|;
    var t, body := Tag(r.number, WireType(r.payload), key), |Body(r.payload)|;
    RecordRead(r, rest, s, key);
    BodyRead(r.payload, rest);
    TimeSeriesKnows(m, r, t, s[key..], body);
    TimeSeriesRound(s, m, t, TimeSeriesWith(m, r), r.number <= 4, body, |RecordBytes(r)|);
  }

  lemma {:induction false} TimeSeriesRecords(rs: seq<Record>, m: TimeSeries)
    requires AllLegal(rs)
    ensures ParseTimeSeries(Records(rs), m) == Fold(rs, m, TimeSeriesWith)
    decreases |rs|
  {
    if rs != [] {
      var s := Records(rs);
      RecordsFirst(rs);
      TimeSeriesTakes(m, rs[0], Records(rs[1..]));
      RecordRead(rs[0], Records(rs[1..]), s, |Varint(8 * rs[0].number + WireType(rs[0].payload))|);
      if TimeSeriesWith(m, rs[0]).Ok? {
        TimeSeriesRecords(rs[1..], TimeSeriesWith(m, rs[0]).value);
      }
    }
  }

  lemma NextDeltas(s: bytes, m: Histogram, n: nat, key: nat, size: nat, acc: seq<i64>, all: seq<i64>)
    requires (n == 9 || n == 12) && ReadTag(s) == Ok(Tag(n, 2, key))
    requires acc == (if n == 9 then m.negativeDeltas else m.positiveDeltas)
    requires DeltasField(acc, 2, s[key..]) == Ok(Read(all, size))
    ensures NextHistogram(s, m)
            == Ok(Read(if n == 9 then m.(negativeDeltas := all) else m.(positiveDeltas := all), key + size))
  {
    if n == 9 {
      assert HistogramField(m, Tag(9, 2, key), s[key..]) == Ok(Known(m.(negativeDeltas := all), size));
    } else {
      assert HistogramField(m, Tag(12, 2, key), s[key..]) == Ok(Known(m.(positiveDeltas := all), size));
    }
  }

  lemma NextDoubles(s: bytes, m: Histogram, n: nat, key: nat, size: nat, acc: seq<u64>, all: seq<u64>)
    requires (n == 10 || n == 13) && ReadTag(s) == Ok(Tag(n, 2, key))
    requires acc == (if n == 10 then m.negativeCounts else m.positiveCounts)
    requires DoublesField(acc, 2, s[key..]) == Ok(Read(all, size))
    ensures NextHistogram(s, m)
            == Ok(Read(if n == 10 then m.(negativeCounts := all) else m.(positiveCounts := all), key + size))
  {
    if n == 10 {
      assert HistogramField(m, Tag(10, 2, key), s[key..]) == Ok(Known(m.(negativeCounts := all), size));
    } else {
      assert HistogramField(m, Tag(13, 2, key), s[key..]) == Ok(Known(m.(positiveCounts := all), size));
    }
  }

  lemma PackedRead(r: Record, b: bytes, rest: bytes, s: bytes, key: nat, size: nat)
    requires Legal(r) && r.payload == LengthDelimited(b) && s == RecordBytes(r) + rest
    requires key == |Varint(8 * r.number + 2)| && size == |Delimited(b)|
    ensures ReadTag(s) == Ok(Tag(r.number, 2, key)) && s[key..] == Delimited(b) + rest && |RecordBytes(r)| == key + size
  {
    RecordRead(r, rest, s, key);
  }

  lemma TakeDeltas(m: Histogram, n: nat, ds: seq<i64>, b: bytes, rest: bytes, s: bytes, key: nat, size: nat,
                   acc: seq<i64>, all: seq<i64>)
    requires (n == 9 || n == 12) && b == Deltas(ds) && |b| < TWO_63 && size == |Delimited(b)|
    requires ReadTag(s) == Ok(Tag(n, 2, key)) && s[key..] == Delimited(b) + rest
    requires acc == (if n == 9 then m.negativeDeltas else m.positiveDeltas) && all == acc + ds
    ensures NextHistogram(s, m)
            == Ok(Read(if n == 9 then m.(negativeDeltas := all) else m.(positiveDeltas := all), key + size))
  {
    assert DeltasField(acc, 2, Delimited(b) + rest) == Ok(Read(all, size)) by {
      WireRoundTrip.DeltasFieldOf(ds, b, rest, acc, all);
    }
    NextDeltas(s, m, n, key, size, acc, all);
  }

  /** A packed field is appended as a whole. */
  lemma PackedDeltas(m: Histogram, n: nat, ds: seq<i64>, rest: bytes, r: Record)
    requires (n == 9 || n == 12) && r == Record(n, LengthDelimited(Packed(ds, SintBytes))) && Legal(r)
    ensures NextHistogram(RecordBytes(r) + rest, m)
            == Ok(Read(if n == 9 then m.(negativeDeltas := m.negativeDeltas + ds)
                       else m.(positiveDeltas := m.positiveDeltas + ds), |RecordBytes(r)|))
  {
    var acc := if n == 9 then m.negativeDeltas else m.positiveDeltas;
    DeltasFormat(ds);
    var b, s, key := r.payload.b, RecordBytes(r) + rest, |Varint(8 * n + 2)|;
    PackedRead(r, b, rest, s, key, |Delimited(b)|);
    TakeDeltas(m, n, ds, b, rest, s, key, |Delimited(b)|, acc, acc + ds);
  }

  lemma TakeDoubles(m: Histogram, n: nat, ds: seq<u64>, b: bytes, rest: bytes, s: bytes, key: nat, size: nat,
                   acc: seq<u64>, all: seq<u64>)
    requires (n == 10 || n == 13) && b == Doubles(ds) && |b| < TWO_63 && size == |Delimited(b)|
    requires ReadTag(s) == Ok(Tag(n, 2, key)) && s[key..] == Delimited(b) + rest
    requires acc == (if n == 10 then m.negativeCounts else m.positiveCounts) && all == acc + ds
    ensures NextHistogram(s, m)
            == Ok(Read(if n == 10 then m.(negativeCounts := all) else m.(positiveCounts := all), key + size))
  {
    assert DoublesField(acc, 2, Delimited(b) + rest) == Ok(Read(all, size)) by {
      WireRoundTrip.DoublesFieldOf(ds, b, rest, acc, all);
    }
    NextDoubles(s, m, n, key, size, acc, all);
  }

  lemma PackedDoubles(m: Histogram, n: nat, ds: seq<u64>, rest: bytes, r: Record)
    requires (n == 10 || n == 13) && r == Record(n, LengthDelimited(Packed(ds, DoubleBytes))) && Legal(r)
    ensures NextHistogram(RecordBytes(r) + rest, m)
            == Ok(Read(if n == 10 then m.(negativeCounts := m.negativeCounts + ds)
                       else m.(positiveCounts := m.positiveCounts + ds), |RecordBytes(r)|))
  {
    var acc := if n == 10 then m.negativeCounts else m.positiveCounts;
    DoublesFormat(ds);
    var b, s, key := r.payload.b, RecordBytes(r) + rest, |Varint(8 * n + 2)|;
    PackedRead(r, b, rest, s, key, |Delimited(b)|);
    TakeDoubles(m, n, ds, b, rest, s, key, |Delimited(b)|, acc, acc + ds);
  }
}
