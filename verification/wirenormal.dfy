/**
 * Whatever the readers accept, they leave clean: unrecognized bytes are whole unknown
 * fields. So decoding, encoding and decoding again loses nothing but the sign of zeros.
 */
module WireNormal {
  import opened WireScalars
  import opened WireMessages
  import opened WireReader
  import opened WireRoundTrip

  // ----- readers look only at the bytes they consume -----

  /** `t` starts with the first `n` bytes of `s`. */
  ghost predicate Agree(s: bytes, t: bytes, n: nat) {
    n <= |s| && n <= |t| && s[..n] == t[..n]
  }

  lemma AgreeDrop(s: bytes, t: bytes, n: nat, k: nat)
    requires Agree(s, t, n) && k <= n
    ensures Agree(s[k..], t[k..], n - k) && Agree(s, t, k)
  {
    assert s[k..][..n - k] == s[..n][k..] && t[k..][..n - k] == t[..n][k..];
    assert s[..k] == s[..n][..k] && t[..k] == t[..n][..k];
  }

  lemma {:induction false} ReadRawLocal(s: bytes, t: bytes, k: nat, v: nat, n: nat)
    requires ReadRaw(s, k) == Ok(Read(v, n)) && Agree(s, t, n)
    ensures ReadRaw(t, k) == Ok(Read(v, n))
    decreases k
  {
    assert s[..n][0] == t[..n][0];
    if s[0] >= 128 {
      var r := ReadRaw(s[1..], k - 1).value;
      AgreeDrop(s, t, n, 1);
      ReadRawLocal(s[1..], t[1..], k - 1, r.v, r.n);
    }
  }

  lemma ReadTagLocal(s: bytes, t: bytes, n: nat)
    requires ReadTag(s).Ok? && ReadTag(s).value.n <= n && Agree(s, t, n)
    ensures ReadTag(t) == ReadTag(s)
  {
    var r := ReadVarint(s).value;
    AgreeDrop(s, t, n, r.n);
    ReadRawLocal(s, t, MAX_VARINT, r.v, r.n);
  }

  lemma SkipBodyLocal(s: bytes, t: bytes, wireType: nat, n: nat)
    requires SkipBody(s, wireType) == Ok(n) && Agree(s, t, n)
    ensures SkipBody(t, wireType) == Ok(n)
  {
    if wireType == 0 || wireType == 2 {
      var r := ReadVarint(s).value;
      AgreeDrop(s, t, n, r.n);
      ReadRawLocal(s, t, MAX_VARINT, r.v, r.n);
    }
  }

  lemma SkipRoundLocal(s: bytes, t: bytes, depth: nat, h: Round)
    requires SkipRound(s, depth) == Ok(h) && Agree(s, t, h.n)
    ensures SkipRound(t, depth) == Ok(h)
  {
    var tag := ReadVarint(s).value;
    var wireType, body := tag.v % 8, h.n - tag.n;
    AgreeDrop(s, t, h.n, tag.n);
    ReadRawLocal(s, t, MAX_VARINT, tag.v, tag.n);
    SkipBodyLocal(s[tag.n..], t[tag.n..], wireType, body);
  }

  lemma SkipStep(s: bytes, depth: nat, h: Round, tail: bytes, n: nat, k: nat)
    requires SkipRound(s, depth) == Ok(h) && h.depth > 0 && h.n < |s| && tail == s[h.n..] && k == h.n + n
    ensures Skip(s, depth) == Ok(k) <==> Skip(tail, h.depth) == Ok(n)
  {
  }

  lemma SkipDone(s: bytes, depth: nat, h: Round)
    requires SkipRound(s, depth) == Ok(h) && h.depth == 0
    ensures Skip(s, depth) == Ok(h.n)
  {
  }

  lemma {:induction false} SkipLocal(s: bytes, t: bytes, depth: nat, k: nat)
    requires Skip(s, depth) == Ok(k) && Agree(s, t, k)
    ensures Skip(t, depth) == Ok(k)
    decreases |s|
  {
    var h := SkipRound(s, depth).value;
    AgreeDrop(s, t, k, h.n);
    SkipRoundLocal(s, t, depth, h);
    if h.depth == 0 {
      SkipDone(s, depth, h);
      SkipDone(t, depth, h);
    } else {
      SkipLocalTail(s, t, depth, h, s[h.n..], t[h.n..], k - h.n, k);
    }
  }

  lemma {:induction false} SkipLocalTail(s: bytes, t: bytes, depth: nat, h: Round, s': bytes, t': bytes, n: nat, k: nat)
    requires SkipRound(s, depth) == Ok(h) && SkipRound(t, depth) == Ok(h) && h.depth > 0 && k == h.n + n
    requires 0 < h.n < |s| && h.n < |t| && s' == s[h.n..] && t' == t[h.n..]
    requires Skip(s, depth) == Ok(k) && Agree(s', t', n)
    ensures Skip(t, depth) == Ok(k)
    decreases |s|, 0
  {
    SkipStep(s, depth, h, s', n, k);
    SkipLocal(s', t', h.depth, n);
    SkipStep(t, depth, h, t', n, k);
  }

  lemma SkipsLocal(s: bytes, t: bytes, max: nat, k: nat)
    requires Skips(s, max, k) && Agree(s, t, k)
    ensures Skips(t, max, k)
  {
    SkipLocal(s, t, 0, k);
    ReadTagLocal(s, t, k);
  }

  lemma Splice(u: bytes, n: nat, tail: bytes, w: bytes, v: bytes)
    requires n <= |u| && tail == u[n..] && v == u + w
    ensures n <= |v| && v[..n] == u[..n] && v[n..] == tail + w
  {
  }

  lemma UnknownsCons(v: bytes, max: nat, n: nat)
    requires n <= |v| && Skips(v, max, n) && Unknowns(v[n..], max)
    ensures Unknowns(v, max)
  {
  }

  lemma UnknownsOne(s: bytes, max: nat, k: nat, v: bytes)
    requires k <= |s| && Skips(s, max, k) && v == s[..k]
    ensures Unknowns(v, max)
  {
    assert v[..k] == s[..k] && v[k..] == [];
    SkipsLocal(s, v, max, k);
    UnknownsCons(v, max, k);
  }

  lemma {:induction false} UnknownsAppend(u: bytes, s: bytes, max: nat, k: nat)
    requires Unknowns(u, max) && Skips(s, max, k)
    ensures Unknowns(u + s[..k], max)
    decreases |u|
  {
    if u == [] {
      assert u + s[..k] == s[..k];
      UnknownsOne(s, max, k, s[..k]);
    } else {
      var n, tail := UnknownsFirst(u, max);
      Splice(u, n, tail, s[..k], u + s[..k]);
      SkipsLocal(u, u + s[..k], max, n);
      UnknownsAppend(tail, s, max, k);
      UnknownsCons(u + s[..k], max, n);
    }
  }

  // ----- readers leave clean messages -----

  lemma {:induction false} CleanLabelsSnoc(ms: seq<Label>, x: Label)
    requires CleanLabels(ms) && CleanLabel(x)
    ensures CleanLabels(ms + [x])
    decreases |ms|
  {
    if ms != [] {
      CleanLabelsSnoc(ms[1..], x);
      assert (ms + [x])[1..] == ms[1..] + [x];
    }
  }

  lemma {:induction false} CleanSamplesSnoc(ms: seq<Sample>, x: Sample)
    requires CleanSamples(ms) && CleanSample(x)
    ensures CleanSamples(ms + [x])
    decreases |ms|
  {
    if ms != [] {
      CleanSamplesSnoc(ms[1..], x);
      assert (ms + [x])[1..] == ms[1..] + [x];
    }
  }

  lemma {:induction false} CleanSpansSnoc(ms: seq<BucketSpan>, x: BucketSpan)
    requires CleanSpans(ms) && CleanSpan(x)
    ensures CleanSpans(ms + [x])
    decreases |ms|
  {
    if ms != [] {
      CleanSpansSnoc(ms[1..], x);
      assert (ms + [x])[1..] == ms[1..] + [x];
    }
  }

  lemma {:induction false} CleanExemplarsSnoc(ms: seq<Exemplar>, x: Exemplar)
    requires CleanExemplars(ms) && CleanExemplar(x)
    ensures CleanExemplars(ms + [x])
    decreases |ms|
  {
    if ms != [] {
      CleanExemplarsSnoc(ms[1..], x);
      assert (ms + [x])[1..] == ms[1..] + [x];
    }
  }

  lemma {:induction false} CleanHistogramsSnoc(ms: seq<Histogram>, x: Histogram)
    requires CleanHistograms(ms) && CleanHistogram(x)
    ensures CleanHistograms(ms + [x])
    decreases |ms|
  {
    if ms != [] {
      CleanHistogramsSnoc(ms[1..], x);
      assert (ms + [x])[1..] == ms[1..] + [x];
    }
  }

  lemma LabelFieldClean(m: Label, t: Tag, s: bytes, m': Label, n: nat)
    requires CleanLabel(m) && LabelField(m, t, s) == Ok(Known(m', n))
    ensures CleanLabel(m')
  {
  }

  lemma NextLabelClean(s: bytes, m: Label)
    requires CleanLabel(m) && NextLabel(s, m).Ok?
    ensures CleanLabel(NextLabel(s, m).value.v)
  {
    var t := ReadTag(s).value;
    var f := LabelField(m, t, s[t.n..]).value;
    match f {
      case Known(m', n) => LabelFieldClean(m, t, s[t.n..], m', n);
      case Unknown => UnknownsAppend(m.unrecognized, s, 2, SkipField(s).value);
    }
  }

  lemma {:induction false} ParseLabelClean(s: bytes, m: Label)
    requires CleanLabel(m) && ParseLabel(s, m).Ok?
    ensures CleanLabel(ParseLabel(s, m).value)
    decreases |s|
  {
    if s != [] {
      var r := NextLabel(s, m).value;
      NextLabelClean(s, m);
      ParseLabelClean(s[r.n..], r.v);
    }
  }

  lemma SampleFieldClean(m: Sample, t: Tag, s: bytes, m': Sample, n: nat)
    requires CleanSample(m) && SampleField(m, t, s) == Ok(Known(m', n))
    ensures CleanSample(m')
  {
  }

  lemma NextSampleClean(s: bytes, m: Sample)
    requires CleanSample(m) && NextSample(s, m).Ok?
    ensures CleanSample(NextSample(s, m).value.v)
  {
    var t := ReadTag(s).value;
    var f := SampleField(m, t, s[t.n..]).value;
    match f {
      case Known(m', n) => SampleFieldClean(m, t, s[t.n..], m', n);
      case Unknown => UnknownsAppend(m.unrecognized, s, 2, SkipField(s).value);
    }
  }

  lemma {:induction false} ParseSampleClean(s: bytes, m: Sample)
    requires CleanSample(m) && ParseSample(s, m).Ok?
    ensures CleanSample(ParseSample(s, m).value)
    decreases |s|
  {
    if s != [] {
      var r := NextSample(s, m).value;
      NextSampleClean(s, m);
      ParseSampleClean(s[r.n..], r.v);
    }
  }

  lemma SpanFieldClean(m: BucketSpan, t: Tag, s: bytes, m': BucketSpan, n: nat)
    requires CleanSpan(m) && SpanField(m, t, s) == Ok(Known(m', n))
    ensures CleanSpan(m')
  {
  }

  lemma NextSpanClean(s: bytes, m: BucketSpan)
    requires CleanSpan(m) && NextSpan(s, m).Ok?
    ensures CleanSpan(NextSpan(s, m).value.v)
  {
    var t := ReadTag(s).value;
    var f := SpanField(m, t, s[t.n..]).value;
    match f {
      case Known(m', n) => SpanFieldClean(m, t, s[t.n..], m', n);
      case Unknown => UnknownsAppend(m.unrecognized, s, 2, SkipField(s).value);
    }
  }

  lemma {:induction false} ParseSpanClean(s: bytes, m: BucketSpan)
    requires CleanSpan(m) && ParseSpan(s, m).Ok?
    ensures CleanSpan(ParseSpan(s, m).value)
    decreases |s|
  {
    if s != [] {
      var r := NextSpan(s, m).value;
      NextSpanClean(s, m);
      ParseSpanClean(s[r.n..], r.v);
    }
  }

  lemma ExemplarFieldClean(m: Exemplar, t: Tag, s: bytes, m': Exemplar, n: nat)
    requires CleanExemplar(m) && ExemplarField(m, t, s) == Ok(Known(m', n))
    ensures CleanExemplar(m')
  {
    if t.field == 1 {
      var b := ReadBytes(s).value.v;
      ParseLabelClean(b, EMPTY_LABEL);
      CleanLabelsSnoc(m.labels, ParseLabel(b, EMPTY_LABEL).value);
    }
  }

  lemma NextExemplarClean(s: bytes, m: Exemplar)
    requires CleanExemplar(m) && NextExemplar(s, m).Ok?
    ensures CleanExemplar(NextExemplar(s, m).value.v)
  {
    var t := ReadTag(s).value;
    var f := ExemplarField(m, t, s[t.n..]).value;
    match f {
      case Known(m', n) => ExemplarFieldClean(m, t, s[t.n..], m', n);
      case Unknown => UnknownsAppend(m.unrecognized, s, 3, SkipField(s).value);
    }
  }

  lemma {:induction false} ParseExemplarClean(s: bytes, m: Exemplar)
    requires CleanExemplar(m) && ParseExemplar(s, m).Ok?
    ensures CleanExemplar(ParseExemplar(s, m).value)
    decreases |s|
  {
    if s != [] {
      var r := NextExemplar(s, m).value;
      NextExemplarClean(s, m);
      ParseExemplarClean(s[r.n..], r.v);
    }
  }

  /** Only fields 8 and 11 touch the spans, and none the unrecognized bytes. */
  lemma HistogramFieldFrame(m: Histogram, t: Tag, s: bytes, m': Histogram, n: nat)
    requires HistogramField(m, t, s) == Ok(Known(m', n))
    ensures m'.unrecognized == m.unrecognized
    ensures t.field != 8 ==> m'.negativeSpans == m.negativeSpans
    ensures t.field != 11 ==> m'.positiveSpans == m.positiveSpans
  {
    if t.field <= 7 {
      LowFieldFrame(m, t, s, m', n);
    } else {
      HighFieldFrame(m, t, s, m', n);
    }
  }

  lemma LowFieldFrame(m: Histogram, t: Tag, s: bytes, m': Histogram, n: nat)
    requires HistogramField(m, t, s) == Ok(Known(m', n)) && t.field <= 7
    ensures m'.unrecognized == m.unrecognized && m'.negativeSpans == m.negativeSpans && m'.positiveSpans == m.positiveSpans
  {
  }

  lemma HighFieldFrame(m: Histogram, t: Tag, s: bytes, m': Histogram, n: nat)
    requires HistogramField(m, t, s) == Ok(Known(m', n)) && t.field > 7
    ensures m'.unrecognized == m.unrecognized
    ensures t.field != 8 ==> m'.negativeSpans == m.negativeSpans
    ensures t.field != 11 ==> m'.positiveSpans == m.positiveSpans
  {
  }

  lemma HistogramFieldClean(m: Histogram, t: Tag, s: bytes, m': Histogram, n: nat)
    requires CleanHistogram(m) && HistogramField(m, t, s) == Ok(Known(m', n))
    ensures CleanHistogram(m')
  {
    HistogramFieldFrame(m, t, s, m', n);
    if t.field == 8 {
      var b := ReadBytes(s).value.v;
      ParseSpanClean(b, EMPTY_SPAN);
      CleanSpansSnoc(m.negativeSpans, ParseSpan(b, EMPTY_SPAN).value);
    } else if t.field == 11 {
      var b := ReadBytes(s).value.v;
      ParseSpanClean(b, EMPTY_SPAN);
      CleanSpansSnoc(m.positiveSpans, ParseSpan(b, EMPTY_SPAN).value);
    }
  }

  lemma NextHistogramClean(s: bytes, m: Histogram)
    requires CleanHistogram(m) && NextHistogram(s, m).Ok?
    ensures CleanHistogram(NextHistogram(s, m).value.v)
  {
    var t := ReadTag(s).value;
    var f := HistogramField(m, t, s[t.n..]).value;
    match f {
      case Known(m', n) => HistogramFieldClean(m, t, s[t.n..], m', n);
      case Unknown => UnknownsAppend(m.unrecognized, s, 15, SkipField(s).value);
    }
  }

  lemma {:induction false} ParseHistogramClean(s: bytes, m: Histogram)
    requires CleanHistogram(m) && ParseHistogram(s, m).Ok?
    ensures CleanHistogram(ParseHistogram(s, m).value)
    decreases |s|
  {
    if s != [] {
      var r := NextHistogram(s, m).value;
      NextHistogramClean(s, m);
      ParseHistogramClean(s[r.n..], r.v);
    }
  }

  lemma TimeSeriesFieldClean(m: TimeSeries, t: Tag, s: bytes, m': TimeSeries, n: nat)
    requires Clean(m) && TimeSeriesField(m, t, s) == Ok(Known(m', n))
    ensures Clean(m')
  {
    if t.field == 1 {
      var b := ReadBytes(s).value.v;
      ParseLabelClean(b, EMPTY_LABEL);
      CleanLabelsSnoc(m.labels, ParseLabel(b, EMPTY_LABEL).value);
    } else if t.field == 2 {
      var b := ReadBytes(s).value.v;
      ParseSampleClean(b, EMPTY_SAMPLE);
      CleanSamplesSnoc(m.samples, ParseSample(b, EMPTY_SAMPLE).value);
    } else if t.field == 3 {
      var b := ReadBytes(s).value.v;
      ParseExemplarClean(b, EMPTY_EXEMPLAR);
      CleanExemplarsSnoc(m.exemplars, ParseExemplar(b, EMPTY_EXEMPLAR).value);
    } else if t.field == 4 {
      var b := ReadBytes(s).value.v;
      ParseHistogramClean(b, EMPTY_HISTOGRAM);
      CleanHistogramsSnoc(m.histograms, ParseHistogram(b, EMPTY_HISTOGRAM).value);
    }
  }

  lemma NextTimeSeriesClean(s: bytes, m: TimeSeries)
    requires Clean(m) && NextTimeSeries(s, m).Ok?
    ensures Clean(NextTimeSeries(s, m).value.v)
  {
    var t := ReadTag(s).value;
    var f := TimeSeriesField(m, t, s[t.n..]).value;
    match f {
      case Known(m', n) => TimeSeriesFieldClean(m, t, s[t.n..], m', n);
      case Unknown => UnknownsAppend(m.unrecognized, s, 4, SkipField(s).value);
    }
  }

  lemma {:induction false} ParseTimeSeriesClean(s: bytes, m: TimeSeries)
    requires Clean(m) && ParseTimeSeries(s, m).Ok?
    ensures Clean(ParseTimeSeries(s, m).value)
    decreases |s|
  {
    if s != [] {
      var r := NextTimeSeries(s, m).value;
      NextTimeSeriesClean(s, m);
      ParseTimeSeriesClean(s[r.n..], r.v);
    }
  }

  // ----- what a round trip keeps -----

  ghost predicate NoNegativeZero(m: TimeSeries) {
    && (forall i :: 0 <= i < |m.samples| ==> m.samples[i].value != TWO_63)
    && (forall i :: 0 <= i < |m.exemplars| ==> m.exemplars[i].value != TWO_63)
    && (forall i :: 0 <= i < |m.histograms| ==>
          m.histograms[i].sum != TWO_63 && m.histograms[i].zeroThreshold != TWO_63)
  }

  lemma {:induction false} NormalAt(ms: seq<Sample>, es: seq<Exemplar>, hs: seq<Histogram>)
    ensures |NormalSamples(ms)| == |ms| && forall i :: 0 <= i < |ms| ==> NormalSamples(ms)[i] == NormalSample(ms[i])
    ensures |NormalExemplars(es)| == |es| && forall i :: 0 <= i < |es| ==> NormalExemplars(es)[i] == NormalExemplar(es[i])
    ensures |NormalHistograms(hs)| == |hs| && forall i :: 0 <= i < |hs| ==> NormalHistograms(hs)[i] == NormalHistogram(hs[i])
    decreases |ms| + |es| + |hs|
  {
    if ms != [] {
      NormalAt(ms[1..], es, hs);
    } else if es != [] {
      NormalAt(ms, es[1..], hs);
    } else if hs != [] {
      NormalAt(ms, es, hs[1..]);
    }
  }

  /** Exactly the messages without a negative zero in a plain double field survive unchanged. */
  lemma Lossless(m: TimeSeries)
    requires |EncodeTimeSeries(m)| < TWO_63 && Clean(m)
    ensures ParseTimeSeries(EncodeTimeSeries(m), EMPTY_TIME_SERIES) == Ok(m) <==> NoNegativeZero(m)
  {
    TimeSeriesRoundTrip(m);
    LosslessNormal(m);
  }

  /** One sample with the value -0.0, whose bit pattern is 2^63: it is read back as 0.0. */
  lemma NegativeZeroLost(m: TimeSeries)
    requires m == TimeSeries([], [Sample(TWO_63, 1, [])], [], [], [])
    ensures ParseTimeSeries(EncodeTimeSeries(m), EMPTY_TIME_SERIES) == Ok(TimeSeries([], [Sample(0, 1, [])], [], [], []))
  {
    assert |EncodeTimeSeries(m)| < 64 by {
      LoneSampleShort(m, m.samples[0]);
    }
    LoneSampleNormal(m, m.samples[0]);
    TimeSeriesRoundTrip(m);
  }

  lemma LoneSampleNormal(m: TimeSeries, x: Sample)
    requires m == TimeSeries([], [x], [], [], []) && x.unrecognized == []
    ensures Clean(m) && Normal(m) == m.(samples := [NormalSample(x)])
  {
    assert [x][1..] == [];
    assert NormalSamples([x]) == [NormalSample(x)] + [];
    assert NormalExemplars([]) == [] && NormalHistograms([]) == [];
  }

  lemma LoneSampleShort(m: TimeSeries, x: Sample)
    requires m == TimeSeries([], [x], [], [], []) && x.unrecognized == []
    ensures |EncodeTimeSeries(m)| < 64
  {
    var b := EncodeSample(x);
    assert |b| <= 20 by {
      ReadVarintOf(Unsigned64(x.timestamp), []);
    }
    assert [x][1..] == [];
    assert EncodeSamples([x]) == MessageField(0x12, b) + [];
    ReadVarintOf(|b|, []);
  }

  lemma LosslessNormal(m: TimeSeries)
    ensures Normal(m) == m <==> NoNegativeZero(m)
  {
    NormalAt(m.samples, m.exemplars, m.histograms);
    if Normal(m) == m {
      forall i | 0 <= i < |m.samples| ensures m.samples[i].value != TWO_63 {
        assert NormalSample(m.samples[i]) == m.samples[i];
      }
      forall i | 0 <= i < |m.exemplars| ensures m.exemplars[i].value != TWO_63 {
        assert NormalExemplar(m.exemplars[i]) == m.exemplars[i];
      }
      forall i | 0 <= i < |m.histograms|
        ensures m.histograms[i].sum != TWO_63 && m.histograms[i].zeroThreshold != TWO_63
      {
        assert NormalHistogram(m.histograms[i]) == m.histograms[i];
      }
    }
    if NoNegativeZero(m) {
      assert NormalSamples(m.samples) == m.samples;
      assert NormalExemplars(m.exemplars) == m.exemplars;
      assert NormalHistograms(m.histograms) == m.histograms;
    }
  }

  /** A message that came off the wire, written and read again, is itself up to zero signs. */
  lemma Reencode(s: bytes, m: TimeSeries)
    requires ParseTimeSeries(s, EMPTY_TIME_SERIES) == Ok(m) && |EncodeTimeSeries(m)| < TWO_63
    ensures ParseTimeSeries(EncodeTimeSeries(m), EMPTY_TIME_SERIES) == Ok(Normal(m))
  {
    ParseTimeSeriesClean(s, EMPTY_TIME_SERIES);
    TimeSeriesRoundTrip(m);
  }
}
