/** The generated reading loops, which move an index over the buffer. */
module WireUnmarshal {
  import opened WireScalars
  import opened WireMessages
  import opened WireReader
  import WireFormat
  import WireRoundTrip

  lemma CutWire(v: nat)
    ensures Cut(v, true) % 8 == v % 8
  {
  }

  /** What follows a tag, from `index` on. */
  method SkipPayload(dAtA: bytes, index: nat, wireType: nat) returns (r: Result<nat>)
    requires index <= |dAtA|
    ensures r == SkipBody(dAtA[index..], wireType)
  {
    if wireType == 0 {
      var v := DecodeVarint(dAtA, index, true);
      if v.Err? {
        return Err(v.error);
      }
      return Ok(v.value.n);
    } else if wireType == 1 {
      return Ok(8);
    } else if wireType == 2 {
      var v := DecodeVarint(dAtA, index, true);
      if v.Err? {
        return Err(v.error);
      }
      var length := Signed64(v.value.v);
      if length < 0 {
        return Err(InvalidLength);
      }
      return Ok(v.value.n + length);
    } else if wireType == 3 || wireType == 4 {
      return Ok(0);
    } else if wireType == 5 {
      return Ok(4);
    }
    return Err(IllegalWireType);
  }

  /** One round of `skipTypes`. */
  method SkipOne(dAtA: bytes, index: nat, depth: nat) returns (r: Result<Round>)
    requires index <= |dAtA|
    ensures r == SkipRound(dAtA[index..], depth)
  {
    var tag := DecodeVarint(dAtA, index, true);
    if tag.Err? {
      return Err(tag.error);
    }
    var wireType := tag.value.v % 8;
    CutWire(ReadVarint(dAtA[index..]).value.v);
    if wireType == 4 && depth == 0 {
      return Err(UnexpectedEndOfGroup);
    }
    var body := SkipPayload(dAtA, index + tag.value.n, wireType);
    assert dAtA[index + tag.value.n..] == dAtA[index..][tag.value.n..];
    if body.Err? {
      return Err(body.error);
    }
    return Ok(Round(tag.value.n + body.value, Nested(depth, wireType)));
  }

  /** A size counted from `index` instead of from the start. */
  function Shifted(r: Result<nat>, index: nat): Result<nat> {
    if r.Ok? then Ok(index + r.value) else r
  }

  /** What skipping comes to when the loop stands at `index`, at nesting `depth`. */
  ghost function SkipFrom(dAtA: bytes, index: nat, depth: nat): Result<nat> {
    if index < |dAtA| then Shifted(Skip(dAtA[index..], depth), index) else Err(UnexpectedEOF)
  }

  lemma SkipShift(s: bytes, depth: nat, h: Round, tail: bytes, index: nat, index': nat)
    requires SkipRound(s, depth) == Ok(h) && h.depth > 0 && index' == index + h.n && h.n < |s| && tail == s[h.n..]
    ensures Shifted(Skip(s, depth), index) == Shifted(Skip(tail, h.depth), index')
  {
  }

  lemma SkipPast(s: bytes, depth: nat, h: Round)
    requires s != [] && SkipRound(s, depth) == Ok(h) && h.depth > 0 && h.n >= |s|
    ensures Skip(s, depth) == Err(UnexpectedEOF)
  {
  }

  /** A round that does not close the outermost field. */
  lemma SkipOn(dAtA: bytes, index: nat, depth: nat, h: Round, index': nat)
    requires index < |dAtA| && SkipRound(dAtA[index..], depth) == Ok(h) && h.depth > 0 && index' == index + h.n
    ensures SkipFrom(dAtA, index, depth) == SkipFrom(dAtA, index', h.depth)
  {
    var s := dAtA[index..];
    if index' < |dAtA| {
      assert dAtA[index'..] == s[h.n..];
      SkipShift(s, depth, h, dAtA[index'..], index, index');
    } else {
      SkipPast(s, depth, h);
    }
  }

  /** A round that closes it, or fails. */
  lemma SkipEnds(dAtA: bytes, index: nat, depth: nat, h: Result<Round>)
    requires index < |dAtA| && SkipRound(dAtA[index..], depth) == h
    ensures h.Err? ==> SkipFrom(dAtA, index, depth) == Err(h.error)
    ensures h.Ok? && h.value.depth == 0 ==> SkipFrom(dAtA, index, depth) == Ok(index + h.value.n)
  {
  }

  lemma SkipStarts(dAtA: bytes)
    ensures SkipFrom(dAtA, 0, 0) == Skip(dAtA, 0)
  {
    assert dAtA[0..] == dAtA;
  }

  /** `skipTypes`. */
  method SkipTypes(dAtA: bytes) returns (r: Result<nat>)
    ensures r == Skip(dAtA, 0)
  {
    var index: nat, depth: nat := 0, 0;
    SkipStarts(dAtA);
    ghost var goal := SkipFrom(dAtA, 0, 0);
    while index < |dAtA|
      invariant SkipFrom(dAtA, index, depth) == goal
      decreases |dAtA| - index
    {
      var h := SkipOne(dAtA, index, depth);
      SkipEnds(dAtA, index, depth, h);
      if h.Err? {
        return Err(h.error);
      }
      var index' := index + h.value.n;
      if h.value.depth == 0 {
        return Ok(index');
      }
      SkipOn(dAtA, index, depth, h.value, index');
      index, depth := index', h.value.depth;
    }
    return Err(UnexpectedEOF);
  }

  /** A length prefix and the bytes it announces. */
  method ReadDelimited(dAtA: bytes, index: nat) returns (r: Result<Read<bytes>>)
    requires index <= |dAtA|
    ensures r == ReadBytes(dAtA[index..])
  {
    var v := DecodeVarint(dAtA, index, true);
    if v.Err? {
      return Err(v.error);
    }
    var length := Signed64(v.value.v);
    if length < 0 {
      return Err(InvalidLength);
    }
    var first := index + v.value.n;
    var post := first + length;
    if post > |dAtA| {
      return Err(UnexpectedEOF);
    }
    assert dAtA[first..post] == dAtA[index..][v.value.n..v.value.n + length];
    return Ok(Read(dAtA[first..post], v.value.n + length));
  }

  /** The tag at `index`. */
  method DecodeTag(dAtA: bytes, index: nat) returns (r: Result<Tag>)
    requires index <= |dAtA|
    ensures r == ReadTag(dAtA[index..])
  {
    var v := DecodeVarint(dAtA, index, true);
    if v.Err? {
      return Err(v.error);
    }
    var wire := v.value.v;
    var field := Signed32((wire / 8) % TWO_32);
    if wire % 8 == 4 {
      return Err(EndGroup);
    }
    if field <= 0 {
      return Err(IllegalTag);
    }
    return Ok(Tag(field, wire % 8, v.value.n));
  }

  /** A field of a time series whose number is known. */
  method SeriesField(dAtA: bytes, index: nat, t: Tag, m: TimeSeries) returns (r: Result<Field<TimeSeries>>)
    requires index <= |dAtA| && 1 <= t.field <= 4
    ensures r == TimeSeriesField(m, t, dAtA[index..])
  {
    if t.wireType != 2 {
      return Err(WrongWireType);
    }
    var b := ReadDelimited(dAtA, index);
    if b.Err? {
      return Err(b.error);
    }
    var payload, n := b.value.v, b.value.n;
    if t.field == 1 {
      var x := ParseLabel(payload, EMPTY_LABEL);
      r := if x.Ok? then Ok(Known(m.(labels := m.labels + [x.value]), n)) else Err(x.error);
    } else if t.field == 2 {
      var x := ParseSample(payload, EMPTY_SAMPLE);
      r := if x.Ok? then Ok(Known(m.(samples := m.samples + [x.value]), n)) else Err(x.error);
    } else if t.field == 3 {
      var x := ParseExemplar(payload, EMPTY_EXEMPLAR);
      r := if x.Ok? then Ok(Known(m.(exemplars := m.exemplars + [x.value]), n)) else Err(x.error);
    } else {
      var x := ParseHistogram(payload, EMPTY_HISTOGRAM);
      r := if x.Ok? then Ok(Known(m.(histograms := m.histograms + [x.value]), n)) else Err(x.error);
    }
  }

  /** One round of the loop of `TimeSeries.Unmarshal`. */
  method SeriesRound(dAtA: bytes, index: nat, m: TimeSeries) returns (r: Result<Read<TimeSeries>>)
    requires index <= |dAtA|
    ensures r == NextTimeSeries(dAtA[index..], m)
  {
    var t := DecodeTag(dAtA, index);
    if t.Err? {
      return Err(t.error);
    }
    if 1 <= t.value.field <= 4 {
      var first := index + t.value.n;
      assert dAtA[first..] == dAtA[index..][t.value.n..];
      var f := SeriesField(dAtA, first, t.value, m);
      RoundKnown(dAtA[index..], m, t.value, f);
      r := if f.Ok? then Ok(Read(f.value.m, t.value.n + f.value.n)) else Err(f.error);
    } else {
      RoundUnknown(dAtA[index..], m, t.value);
      r := KeepField(dAtA, index, m);
    }
  }

  lemma RoundKnown(s: bytes, m: TimeSeries, t: Tag, f: Result<Field<TimeSeries>>)
    requires ReadTag(s) == Ok(t) && 1 <= t.field <= 4 && f == TimeSeriesField(m, t, s[t.n..])
    ensures f.Ok? ==> f.value.Known? && NextTimeSeries(s, m) == Ok(Read(f.value.m, t.n + f.value.n))
    ensures f.Err? ==> NextTimeSeries(s, m) == Err(f.error)
  {
  }

  lemma RoundUnknown(s: bytes, m: TimeSeries, t: Tag)
    requires ReadTag(s) == Ok(t) && !(1 <= t.field <= 4)
    ensures NextTimeSeries(s, m) == Kept(s, m)
  {
  }

  /** An unknown field goes to the unrecognized bytes as it stands. */
  method KeepField(dAtA: bytes, index: nat, m: TimeSeries) returns (r: Result<Read<TimeSeries>>)
    requires index <= |dAtA|
    ensures r == Kept(dAtA[index..], m)
  {
    var s := dAtA[index..];
    var k := SkipTypes(s);
    if k.Err? {
      return Err(k.error);
    }
    if index + k.value > |dAtA| {
      return Err(UnexpectedEOF);
    }
    r := Ok(Read(m.(unrecognized := m.unrecognized + s[..k.value]), k.value));
  }

  function Kept(s: bytes, m: TimeSeries): Result<Read<TimeSeries>> {
    var k :- SkipField(s);
    Ok(Read(m.(unrecognized := m.unrecognized + s[..k]), k))
  }

  lemma SeriesStep(s: bytes, m: TimeSeries, n: nat, m': TimeSeries, tail: bytes)
    requires s != [] && NextTimeSeries(s, m) == Ok(Read(m', n)) && tail == s[n..]
    ensures ParseTimeSeries(s, m) == ParseTimeSeries(tail, m')
  {
  }

  /** `TimeSeries.Unmarshal` on an empty message. */
  method Unmarshal(dAtA: bytes) returns (r: Result<TimeSeries>)
    ensures r == ParseTimeSeries(dAtA, EMPTY_TIME_SERIES)
    ensures forall x :: WireRoundTrip.Clean(x) && dAtA == WireFormat.TimeSeriesBytes(x) && |dAtA| < TWO_63 ==>
              r == Ok(WireRoundTrip.Normal(x))
  {
    forall x | WireRoundTrip.Clean(x) && dAtA == WireFormat.TimeSeriesBytes(x) && |dAtA| < TWO_63
      ensures ParseTimeSeries(dAtA, EMPTY_TIME_SERIES) == Ok(WireRoundTrip.Normal(x))
    {
      WireRoundTrip.FormatRoundTrip(x, dAtA);
    }
    var index: nat, m := 0, EMPTY_TIME_SERIES;
    assert dAtA[index..] == dAtA;
    while index < |dAtA|
      invariant index <= |dAtA|
      invariant ParseTimeSeries(dAtA[index..], m) == ParseTimeSeries(dAtA, EMPTY_TIME_SERIES)
    {
      ghost var s := dAtA[index..];
      var x := SeriesRound(dAtA, index, m);
      if x.Err? {
        return Err(x.error);
      }
      var index' := index + x.value.n;
      assert dAtA[index'..] == s[x.value.n..];
      SeriesStep(s, m, x.value.n, x.value.v, dAtA[index'..]);
      index, m := index', x.value.v;
    }
    r := Ok(m);
  }
}
