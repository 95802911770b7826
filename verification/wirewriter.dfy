/**
 * The generated writers: each fills a buffer from its end towards its start and returns the
 * index it stopped at. A writer that is handed the slice `dAtA[:i]` here takes the whole
 * buffer and `i`.
 */
module WireWriter {
  import opened WireScalars
  import opened WireMessages
  import WireFormat

  /** From `before` with the write index at `i` to `after` at `i'`: `b` was put in front. */
  ghost predicate Prepends(before: bytes, i: nat, after: bytes, i': nat, b: bytes) {
    && i <= |before| == |after|
    && i' + |b| == i
    && after[i'..] == b + before[i..]
    && after[..i'] == before[..i']
  }

  /** Putting `a` in front and then `b` puts `b + a` in front. */
  lemma PrependsTwice(s0: bytes, i0: nat, s1: bytes, i1: nat, s2: bytes, i2: nat, a: bytes, b: bytes)
    requires Prepends(s0, i0, s1, i1, a) && Prepends(s1, i1, s2, i2, b)
    ensures Prepends(s0, i0, s2, i2, b + a)
  {
    assert b + (a + s0[i0..]) == (b + a) + s0[i0..];
    assert s1[..i1][..i2] == s1[..i2];
  }

  /** One more base-128 digit behind `done`. */
  lemma DigitStep(done: bytes, v: nat, digit: byte, next: nat, goal: bytes)
    requires v >= 128 && digit == v % 128 + 128 && next == v / 128 && done + Varint(v) == goal
    ensures (done + [digit]) + Varint(next) == goal
    ensures |Varint(v)| == 1 + |Varint(next)|
  {
    assert done + ([digit] + Varint(next)) == (done + [digit]) + Varint(next);
  }

  /** `s` is `s0` with `done` written at `start`. */
  ghost predicate Written(s0: bytes, start: nat, done: bytes, s: bytes) {
    start + |done| <= |s0| && s == s0[..start] + done + s0[start + |done|..]
  }

  lemma WriteStep(s0: bytes, start: nat, done: bytes, s: bytes, at: nat, b: byte)
    requires Written(s0, start, done, s) && at == start + |done| < |s0|
    ensures Written(s0, start, done + [b], s[at := b])
  {
  }

  /** The digit loop: writes a varint forwards from `start`. */
  method WriteDigits(buf: array<byte>, start: nat, v0: u64) returns (end: nat)
    requires start + |Varint(v0)| <= buf.Length
    modifies buf
    ensures end == start + |Varint(v0)|
    ensures Written(old(buf[..]), start, Varint(v0), buf[..])
  {
    var offset, v: nat := start, v0;
    ghost var done: bytes := [];
    ghost var s0, goal := buf[..], Varint(v0);
    while v >= 128
      invariant offset == start + |done| && done + Varint(v) == goal
      invariant Written(s0, start, done, buf[..])
    {
      var digit := v % 128 + 128;
      DigitStep(done, v, digit, v / 128, goal);
      WriteStep(s0, start, done, buf[..], offset, digit);
      buf[offset] := digit;
      done := done + [digit];
      v := v / 128;
      offset := offset + 1;
    }
    WriteStep(s0, start, done, buf[..], offset, v);
    buf[offset] := v;
    end := offset + 1;
  }

  /** `encodeVarintTypes`: leaves room by the size function, then writes forwards. */
  method EncodeVarint(dAtA: array<byte>, offset: nat, v: u64) returns (base: nat)
    requires |Varint(v)| <= offset <= dAtA.Length
    modifies dAtA
    ensures Prepends(old(dAtA[..]), offset, dAtA[..], base, Varint(v))
  {
    SovExact(v);
    base := offset - Sov(v);
    var _ := WriteDigits(dAtA, base, v);
  }

  /** `copy(dAtA[i:], b)` after making room. */
  method PutBytes(dAtA: array<byte>, i: nat, b: bytes) returns (i': nat)
    requires |b| <= i <= dAtA.Length
    modifies dAtA
    ensures Prepends(old(dAtA[..]), i, dAtA[..], i', b)
  {
    i' := i - |b|;
    forall k | 0 <= k < |b| {
      dAtA[i' + k] := b[k];
    }
    assert dAtA[i'..i] == b;
    assert dAtA[i'..] == dAtA[i'..i] + dAtA[i..];
  }

  method PutTag(dAtA: array<byte>, i: nat, tag: byte) returns (i': nat)
    requires 1 <= i <= dAtA.Length
    modifies dAtA
    ensures Prepends(old(dAtA[..]), i, dAtA[..], i', [tag])
  {
    i' := i - 1;
    dAtA[i'] := tag;
    assert dAtA[i'..] == [tag] + dAtA[i..];
  }

  method PutVarintField(dAtA: array<byte>, i: nat, tag: byte, v: u64) returns (i': nat)
    requires |VarintField(tag, v)| <= i <= dAtA.Length
    modifies dAtA
    ensures Prepends(old(dAtA[..]), i, dAtA[..], i', VarintField(tag, v))
  {
    i' := i;
    if v != 0 {
      i' := EncodeVarint(dAtA, i, v);
      ghost var s1, i1 := dAtA[..], i';
      i' := PutTag(dAtA, i', tag);
      PrependsTwice(old(dAtA[..]), i, s1, i1, dAtA[..], i', Varint(v), [tag]);
    }
  }

  method PutFixedField(dAtA: array<byte>, i: nat, tag: byte, d: u64) returns (i': nat)
    requires |FixedField(tag, d)| <= i <= dAtA.Length
    modifies dAtA
    ensures Prepends(old(dAtA[..]), i, dAtA[..], i', FixedField(tag, d))
  {
    i' := i;
    if !IsZero(d) {
      i' := PutBytes(dAtA, i, LittleEndian(d, 8));
      ghost var s1, i1 := dAtA[..], i';
      i' := PutTag(dAtA, i', tag);
      PrependsTwice(old(dAtA[..]), i, s1, i1, dAtA[..], i', LittleEndian(d, 8), [tag]);
    }
  }

  method PutCount(dAtA: array<byte>, i: nat, tagInt: byte, tagFloat: byte, c: Count) returns (i': nat)
    requires |CountField(tagInt, tagFloat, c)| <= i <= dAtA.Length
    modifies dAtA
    ensures Prepends(old(dAtA[..]), i, dAtA[..], i', CountField(tagInt, tagFloat, c))
  {
    match c
    case NoCount =>
      i' := i;
    case CountInt(v) =>
      i' := EncodeVarint(dAtA, i, v);
      ghost var s1, i1 := dAtA[..], i';
      i' := PutTag(dAtA, i', tagInt);
      PrependsTwice(old(dAtA[..]), i, s1, i1, dAtA[..], i', Varint(v), [tagInt]);
    case CountFloat(f) =>
      i' := PutBytes(dAtA, i, LittleEndian(f, 8));
      ghost var s1, i1 := dAtA[..], i';
      i' := PutTag(dAtA, i', tagFloat);
      PrependsTwice(old(dAtA[..]), i, s1, i1, dAtA[..], i', LittleEndian(f, 8), [tagFloat]);
  }

  /** Size and tag in front of a payload that is already in place. */
  method PutHeader(dAtA: array<byte>, i: nat, tag: byte, size: nat,
                   ghost before: bytes, ghost end: nat, ghost payload: bytes)
    returns (i': nat)
    requires Prepends(before, end, dAtA[..], i, payload) && size == |payload| < TWO_64
    requires |MessageField(tag, payload)| <= end
    modifies dAtA
    ensures Prepends(before, end, dAtA[..], i', MessageField(tag, payload))
  {
    ghost var s1 := dAtA[..];
    i' := EncodeVarint(dAtA, i, size);
    ghost var s2, i2 := dAtA[..], i';
    PrependsTwice(before, end, s1, i, s2, i2, payload, Varint(size));
    i' := PutTag(dAtA, i', tag);
    PrependsTwice(before, end, s2, i2, dAtA[..], i', Delimited(payload), [tag]);
  }

  method PutBytesField(dAtA: array<byte>, i: nat, tag: byte, b: bytes) returns (i': nat)
    requires |BytesField(tag, b)| <= i <= dAtA.Length && |b| < TWO_64
    modifies dAtA
    ensures Prepends(old(dAtA[..]), i, dAtA[..], i', BytesField(tag, b))
  {
    i' := i;
    if |b| > 0 {
      i' := PutBytes(dAtA, i, b);
      i' := PutHeader(dAtA, i', tag, |b|, old(dAtA[..]), i, b);
    }
  }

  // ----- messages -----

  method MarshalLabel(dAtA: array<byte>, end: nat, m: Label) returns (i: nat)
    requires |EncodeLabel(m)| <= end <= dAtA.Length && |EncodeLabel(m)| < TWO_63
    modifies dAtA
    ensures Prepends(old(dAtA[..]), end, dAtA[..], i, EncodeLabel(m))
  {
    ghost var s0 := dAtA[..];
    i := PutBytes(dAtA, end, m.unrecognized);
    ghost var s1, i1 := dAtA[..], i;
    i := PutBytesField(dAtA, i, 0x12, m.value);
    ghost var s2, i2 := dAtA[..], i;
    PrependsTwice(s0, end, s1, i1, s2, i2, m.unrecognized, BytesField(0x12, m.value));
    i := PutBytesField(dAtA, i, 0x0a, m.name);
    PrependsTwice(s0, end, s2, i2, dAtA[..], i,
                  BytesField(0x12, m.value) + m.unrecognized, BytesField(0x0a, m.name));
  }

  method MarshalSample(dAtA: array<byte>, end: nat, m: Sample) returns (i: nat)
    requires |EncodeSample(m)| <= end <= dAtA.Length
    modifies dAtA
    ensures Prepends(old(dAtA[..]), end, dAtA[..], i, EncodeSample(m))
  {
    ghost var s0 := dAtA[..];
    ghost var ts := VarintField(0x10, Unsigned64(m.timestamp));
    i := PutBytes(dAtA, end, m.unrecognized);
    ghost var s1, i1 := dAtA[..], i;
    i := PutVarintField(dAtA, i, 0x10, Unsigned64(m.timestamp));
    ghost var s2, i2 := dAtA[..], i;
    PrependsTwice(s0, end, s1, i1, s2, i2, m.unrecognized, ts);
    i := PutFixedField(dAtA, i, 0x09, m.value);
    PrependsTwice(s0, end, s2, i2, dAtA[..], i, ts + m.unrecognized, FixedField(0x09, m.value));
  }

  method MarshalSpan(dAtA: array<byte>, end: nat, m: BucketSpan) returns (i: nat)
    requires |EncodeSpan(m)| <= end <= dAtA.Length
    modifies dAtA
    ensures Prepends(old(dAtA[..]), end, dAtA[..], i, EncodeSpan(m))
  {
    ghost var s0 := dAtA[..];
    ghost var len := VarintField(0x10, m.length);
    i := PutBytes(dAtA, end, m.unrecognized);
    ghost var s1, i1 := dAtA[..], i;
    i := PutVarintField(dAtA, i, 0x10, m.length);
    ghost var s2, i2 := dAtA[..], i;
    PrependsTwice(s0, end, s1, i1, s2, i2, m.unrecognized, len);
    i := PutVarintField(dAtA, i, 0x08, Zig32(m.offset));
    PrependsTwice(s0, end, s2, i2, dAtA[..], i, len + m.unrecognized, VarintField(0x08, Zig32(m.offset)));
  }

  lemma {:induction false} LabelsFrom(ms: seq<Label>, k: nat, rest: seq<Label>)
    requires k < |ms| && rest == ms[k + 1..]
    ensures EncodeLabels(ms[k..]) == MessageField(0x0a, EncodeLabel(ms[k])) + EncodeLabels(rest)
    ensures |EncodeLabels(ms[k..])| <= |EncodeLabels(ms)|
    decreases k
  {
    assert ms[k..][1..] == rest;
    if k > 0 {
      LabelsFrom(ms[1..], k - 1, rest);
      assert ms[1..][k - 1..] == ms[k..];
    }
  }

  /** A nested label with its size and tag. */
  method PutLabel(dAtA: array<byte>, end: nat, m: Label) returns (i: nat)
    requires |MessageField(0x0a, EncodeLabel(m))| <= end <= dAtA.Length && |EncodeLabel(m)| < TWO_63
    modifies dAtA
    ensures Prepends(old(dAtA[..]), end, dAtA[..], i, MessageField(0x0a, EncodeLabel(m)))
  {
    i := MarshalLabel(dAtA, end, m);
    i := PutHeader(dAtA, i, 0x0a, end - i, old(dAtA[..]), end, EncodeLabel(m));
  }

  method MarshalLabels(dAtA: array<byte>, end: nat, ms: seq<Label>) returns (i: nat)
    requires |EncodeLabels(ms)| <= end <= dAtA.Length && |EncodeLabels(ms)| < TWO_63
    modifies dAtA
    ensures Prepends(old(dAtA[..]), end, dAtA[..], i, EncodeLabels(ms))
  {
    ghost var s0 := dAtA[..];
    i := end;
    var k := |ms|;
    ghost var rest := ms[|ms|..];
    while k > 0
      invariant 0 <= k <= |ms| && rest == ms[k..]
      invariant Prepends(s0, end, dAtA[..], i, EncodeLabels(rest))
    {
      LabelsFrom(ms, k - 1, rest);
      ghost var s1 := dAtA[..];
      ghost var i1 := i;
      i := PutLabel(dAtA, i, ms[k - 1]);
      PrependsTwice(s0, end, s1, i1, dAtA[..], i, EncodeLabels(rest), MessageField(0x0a, EncodeLabel(ms[k - 1])));
      k := k - 1;
      rest := ms[k..];
    }
    assert ms[0..] == ms;
  }

  lemma {:induction false} SamplesFrom(ms: seq<Sample>, k: nat, rest: seq<Sample>)
    requires k < |ms| && rest == ms[k + 1..]
    ensures EncodeSamples(ms[k..]) == MessageField(0x12, EncodeSample(ms[k])) + EncodeSamples(rest)
    ensures |EncodeSamples(ms[k..])| <= |EncodeSamples(ms)|
    decreases k
  {
    assert ms[k..][1..] == rest;
    if k > 0 {
      SamplesFrom(ms[1..], k - 1, rest);
      assert ms[1..][k - 1..] == ms[k..];
    }
  }

  /** A nested sample with its size and tag. */
  method PutSample(dAtA: array<byte>, end: nat, m: Sample) returns (i: nat)
    requires |MessageField(0x12, EncodeSample(m))| <= end <= dAtA.Length && |EncodeSample(m)| < TWO_63
    modifies dAtA
    ensures Prepends(old(dAtA[..]), end, dAtA[..], i, MessageField(0x12, EncodeSample(m)))
  {
    i := MarshalSample(dAtA, end, m);
    i := PutHeader(dAtA, i, 0x12, end - i, old(dAtA[..]), end, EncodeSample(m));
  }

  method MarshalSamples(dAtA: array<byte>, end: nat, ms: seq<Sample>) returns (i: nat)
    requires |EncodeSamples(ms)| <= end <= dAtA.Length && |EncodeSamples(ms)| < TWO_63
    modifies dAtA
    ensures Prepends(old(dAtA[..]), end, dAtA[..], i, EncodeSamples(ms))
  {
    ghost var s0 := dAtA[..];
    i := end;
    var k := |ms|;
    ghost var rest := ms[|ms|..];
    while k > 0
      invariant 0 <= k <= |ms| && rest == ms[k..]
      invariant Prepends(s0, end, dAtA[..], i, EncodeSamples(rest))
    {
      SamplesFrom(ms, k - 1, rest);
      ghost var s1 := dAtA[..];
      ghost var i1 := i;
      i := PutSample(dAtA, i, ms[k - 1]);
      PrependsTwice(s0, end, s1, i1, dAtA[..], i, EncodeSamples(rest), MessageField(0x12, EncodeSample(ms[k - 1])));
      k := k - 1;
      rest := ms[k..];
    }
    assert ms[0..] == ms;
  }

  lemma {:induction false} SpansFrom(tag: byte, ms: seq<BucketSpan>, k: nat, rest: seq<BucketSpan>)
    requires k < |ms| && rest == ms[k + 1..]
    ensures EncodeSpans(tag, ms[k..]) == MessageField(tag, EncodeSpan(ms[k])) + EncodeSpans(tag, rest)
    ensures |EncodeSpans(tag, ms[k..])| <= |EncodeSpans(tag, ms)|
    decreases k
  {
    assert ms[k..][1..] == rest;
    if k > 0 {
      SpansFrom(tag, ms[1..], k - 1, rest);
      assert ms[1..][k - 1..] == ms[k..];
    }
  }

  /** A nested span with its size and tag. */
  method PutSpan(dAtA: array<byte>, end: nat, tag: byte, m: BucketSpan) returns (i: nat)
    requires |MessageField(tag, EncodeSpan(m))| <= end <= dAtA.Length && |EncodeSpan(m)| < TWO_63
    modifies dAtA
    ensures Prepends(old(dAtA[..]), end, dAtA[..], i, MessageField(tag, EncodeSpan(m)))
  {
    i := MarshalSpan(dAtA, end, m);
    i := PutHeader(dAtA, i, tag, end - i, old(dAtA[..]), end, EncodeSpan(m));
  }

  method MarshalSpans(dAtA: array<byte>, end: nat, tag: byte, ms: seq<BucketSpan>) returns (i: nat)
    requires |EncodeSpans(tag, ms)| <= end <= dAtA.Length && |EncodeSpans(tag, ms)| < TWO_63
    modifies dAtA
    ensures Prepends(old(dAtA[..]), end, dAtA[..], i, EncodeSpans(tag, ms))
  {
    ghost var s0 := dAtA[..];
    i := end;
    var k := |ms|;
    ghost var rest := ms[|ms|..];
    while k > 0
      invariant 0 <= k <= |ms| && rest == ms[k..]
      invariant Prepends(s0, end, dAtA[..], i, EncodeSpans(tag, rest))
    {
      SpansFrom(tag, ms, k - 1, rest);
      ghost var s1 := dAtA[..];
      ghost var i1 := i;
      i := PutSpan(dAtA, i, tag, ms[k - 1]);
      PrependsTwice(s0, end, s1, i1, dAtA[..], i, EncodeSpans(tag, rest), MessageField(tag, EncodeSpan(ms[k - 1])));
      k := k - 1;
      rest := ms[k..];
    }
    assert ms[0..] == ms;
  }

  method MarshalExemplar(dAtA: array<byte>, end: nat, m: Exemplar) returns (i: nat)
    requires |EncodeExemplar(m)| <= end <= dAtA.Length && |EncodeExemplar(m)| < TWO_63
    modifies dAtA
    ensures Prepends(old(dAtA[..]), end, dAtA[..], i, EncodeExemplar(m))
  {
    ghost var s0 := dAtA[..];
    ghost var ts, val := VarintField(0x18, Unsigned64(m.timestamp)), FixedField(0x11, m.value);
    i := PutBytes(dAtA, end, m.unrecognized);
    ghost var s1, i1 := dAtA[..], i;
    i := PutVarintField(dAtA, i, 0x18, Unsigned64(m.timestamp));
    ghost var s2, i2 := dAtA[..], i;
    PrependsTwice(s0, end, s1, i1, s2, i2, m.unrecognized, ts);
    i := PutFixedField(dAtA, i, 0x11, m.value);
    ghost var s3, i3 := dAtA[..], i;
    PrependsTwice(s0, end, s2, i2, s3, i3, ts + m.unrecognized, val);
    i := MarshalLabels(dAtA, i, m.labels);
    PrependsTwice(s0, end, s3, i3, dAtA[..], i, val + (ts + m.unrecognized), EncodeLabels(m.labels));
  }

  lemma {:induction false} ExemplarsFrom(ms: seq<Exemplar>, k: nat, rest: seq<Exemplar>)
    requires k < |ms| && rest == ms[k + 1..]
    ensures EncodeExemplars(ms[k..]) == MessageField(0x1a, EncodeExemplar(ms[k])) + EncodeExemplars(rest)
    ensures |EncodeExemplars(ms[k..])| <= |EncodeExemplars(ms)|
    decreases k
  {
    assert ms[k..][1..] == rest;
    if k > 0 {
      ExemplarsFrom(ms[1..], k - 1, rest);
      assert ms[1..][k - 1..] == ms[k..];
    }
  }

  /** A nested exemplar with its size and tag. */
  method PutExemplar(dAtA: array<byte>, end: nat, m: Exemplar) returns (i: nat)
    requires |MessageField(0x1a, EncodeExemplar(m))| <= end <= dAtA.Length && |EncodeExemplar(m)| < TWO_63
    modifies dAtA
    ensures Prepends(old(dAtA[..]), end, dAtA[..], i, MessageField(0x1a, EncodeExemplar(m)))
  {
    i := MarshalExemplar(dAtA, end, m);
    i := PutHeader(dAtA, i, 0x1a, end - i, old(dAtA[..]), end, EncodeExemplar(m));
  }

  method MarshalExemplars(dAtA: array<byte>, end: nat, ms: seq<Exemplar>) returns (i: nat)
    requires |EncodeExemplars(ms)| <= end <= dAtA.Length && |EncodeExemplars(ms)| < TWO_63
    modifies dAtA
    ensures Prepends(old(dAtA[..]), end, dAtA[..], i, EncodeExemplars(ms))
  {
    ghost var s0 := dAtA[..];
    i := end;
    var k := |ms|;
    ghost var rest := ms[|ms|..];
    while k > 0
      invariant 0 <= k <= |ms| && rest == ms[k..]
      invariant Prepends(s0, end, dAtA[..], i, EncodeExemplars(rest))
    {
      ExemplarsFrom(ms, k - 1, rest);
      ghost var s1 := dAtA[..];
      ghost var i1 := i;
      i := PutExemplar(dAtA, i, ms[k - 1]);
      PrependsTwice(s0, end, s1, i1, dAtA[..], i, EncodeExemplars(rest), MessageField(0x1a, EncodeExemplar(ms[k - 1])));
      k := k - 1;
      rest := ms[k..];
    }
    assert ms[0..] == ms;
  }

  /** What was written ends at `j`. */
  lemma WrittenEnd(s0: bytes, j0: nat, digits: bytes, s: bytes, j: nat)
    requires Written(s0, j0, digits, s) && j == j0 + |digits|
    ensures j <= |s| && s[..j] == s0[..j0] + digits
  {
  }

  lemma MoveFirst(before: bytes, first: bytes, rest: bytes)
    ensures before + (first + rest) == (before + first) + rest
  {
  }

  lemma DeltasNext(rest: seq<i64>)
    requires rest != []
    ensures Deltas(rest) == Varint(Zig64(rest[0])) + Deltas(rest[1..])
  {
  }

  lemma PackStep(s0: bytes, j0: nat, d: i64, s: bytes, j: nat, rest: seq<i64>, goal: bytes)
    requires rest != [] && rest[0] == d && j0 <= |s0| && s0[..j0] + Deltas(rest) == goal
    requires Written(s0, j0, Varint(Zig64(d)), s) && j == j0 + |Varint(Zig64(d))|
    ensures j <= |s| && s[..j] + Deltas(rest[1..]) == goal
  {
    var digits, tail := Varint(Zig64(d)), Deltas(rest[1..]);
    DeltasNext(rest);
    PackOne(s0, j0, digits, tail, s, j, goal);
  }

  lemma PackOne(s0: bytes, j0: nat, digits: bytes, tail: bytes, s: bytes, j: nat, goal: bytes)
    requires j0 <= |s0| && s0[..j0] + (digits + tail) == goal
    requires Written(s0, j0, digits, s) && j == j0 + |digits|
    ensures j <= |s| && s[..j] + tail == goal
  {
    WrittenEnd(s0, j0, digits, s, j);
    MoveFirst(s0[..j0], digits, tail);
  }

  /** The temporary buffer of a packed field: ten bytes for every delta, filled forwards. */
  method PackDeltas(ds: seq<i64>) returns (out: bytes)
    ensures out == Deltas(ds)
  {
    var tmp := new byte[10 * |ds|](_ => 0);
    var j := 0;
    ghost var rest := ds;
    for k := 0 to |ds|
      invariant 0 <= j <= 10 * k && rest == ds[k..]
      invariant tmp[..j] + Deltas(rest) == Deltas(ds)
    {
      ReadVarintOf(Zig64(ds[k]), []);
      ghost var s0, j0 := tmp[..], j;
      j := WriteDigits(tmp, j, Zig64(ds[k]));
      PackStep(s0, j0, ds[k], tmp[..], j, rest, Deltas(ds));
      rest := rest[1..];
    }
    out := tmp[..j];
    assert out + [] == out;
  }

  method PutDoubles(dAtA: array<byte>, i0: nat, tag: byte, ds: seq<u64>) returns (i: nat)
    requires |BytesField(tag, Doubles(ds))| <= i0 <= dAtA.Length && |Doubles(ds)| < TWO_63
    modifies dAtA
    ensures Prepends(old(dAtA[..]), i0, dAtA[..], i, BytesField(tag, Doubles(ds)))
  {
    ghost var s0 := dAtA[..];
    DoublesSize(ds);
    i := i0;
    if |ds| > 0 {
      var k := |ds|;
      while k > 0
        invariant 0 <= k <= |ds| && |Doubles(ds[k..])| == 8 * (|ds| - k)
        invariant Prepends(s0, i0, dAtA[..], i, Doubles(ds[k..]))
      {
        k := k - 1;
        ghost var s1, i1 := dAtA[..], i;
        i := PutBytes(dAtA, i, LittleEndian(ds[k], 8));
        assert ds[k..][1..] == ds[k + 1..];
        PrependsTwice(s0, i0, s1, i1, dAtA[..], i, Doubles(ds[k + 1..]), LittleEndian(ds[k], 8));
      }
      assert ds[0..] == ds;
      i := PutHeader(dAtA, i, tag, 8 * |ds|, s0, i0, Doubles(ds));
    }
  }

  method PutDeltas(dAtA: array<byte>, i: nat, tag: byte, ds: seq<i64>) returns (i': nat)
    requires |BytesField(tag, Deltas(ds))| <= i <= dAtA.Length && |Deltas(ds)| < TWO_63
    modifies dAtA
    ensures Prepends(old(dAtA[..]), i, dAtA[..], i', BytesField(tag, Deltas(ds)))
  {
    i' := i;
    PackedSizes(ds);
    if |ds| > 0 {
      var packed := PackDeltas(ds);
      i' := PutBytesField(dAtA, i, tag, packed);
    }
  }

  method MarshalPositive(dAtA: array<byte>, end: nat, m: Histogram) returns (i: nat)
    requires |EncodePositive(m)| <= end <= dAtA.Length && |EncodePositive(m)| < TWO_63
    modifies dAtA
    ensures Prepends(old(dAtA[..]), end, dAtA[..], i, EncodePositive(m))
  {
    ghost var s0 := dAtA[..];
    ghost var ts := VarintField(0x78, Unsigned64(m.timestamp)) + m.unrecognized;
    ghost var hint := VarintField(0x70, Unsigned64(m.resetHint)) + ts;
    ghost var counts := BytesField(0x6a, Doubles(m.positiveCounts)) + hint;
    ghost var deltas := BytesField(0x62, Deltas(m.positiveDeltas)) + counts;
    i := PutBytes(dAtA, end, m.unrecognized);
    ghost var s1, i1 := dAtA[..], i;
    i := PutVarintField(dAtA, i, 0x78, Unsigned64(m.timestamp));
    ghost var s2, i2 := dAtA[..], i;
    PrependsTwice(s0, end, s1, i1, s2, i2, m.unrecognized, VarintField(0x78, Unsigned64(m.timestamp)));
    i := PutVarintField(dAtA, i, 0x70, Unsigned64(m.resetHint));
    ghost var s3, i3 := dAtA[..], i;
    PrependsTwice(s0, end, s2, i2, s3, i3, ts, VarintField(0x70, Unsigned64(m.resetHint)));
    i := PutDoubles(dAtA, i, 0x6a, m.positiveCounts);
    ghost var s4, i4 := dAtA[..], i;
    PrependsTwice(s0, end, s3, i3, s4, i4, hint, BytesField(0x6a, Doubles(m.positiveCounts)));
    i := PutDeltas(dAtA, i, 0x62, m.positiveDeltas);
    ghost var s5, i5 := dAtA[..], i;
    PrependsTwice(s0, end, s4, i4, s5, i5, counts, BytesField(0x62, Deltas(m.positiveDeltas)));
    i := MarshalSpans(dAtA, i, 0x5a, m.positiveSpans);
    PrependsTwice(s0, end, s5, i5, dAtA[..], i, deltas, EncodeSpans(0x5a, m.positiveSpans));
  }

  method MarshalBuckets(dAtA: array<byte>, end: nat, m: Histogram) returns (i: nat)
    requires |EncodeBuckets(m)| <= end <= dAtA.Length && |EncodeBuckets(m)| < TWO_63
    modifies dAtA
    ensures Prepends(old(dAtA[..]), end, dAtA[..], i, EncodeBuckets(m))
  {
    ghost var s0 := dAtA[..];
    ghost var counts := BytesField(0x52, Doubles(m.negativeCounts)) + EncodePositive(m);
    ghost var deltas := BytesField(0x4a, Deltas(m.negativeDeltas)) + counts;
    i := MarshalPositive(dAtA, end, m);
    ghost var s1, i1 := dAtA[..], i;
    i := PutDoubles(dAtA, i, 0x52, m.negativeCounts);
    ghost var s2, i2 := dAtA[..], i;
    PrependsTwice(s0, end, s1, i1, s2, i2, EncodePositive(m), BytesField(0x52, Doubles(m.negativeCounts)));
    i := PutDeltas(dAtA, i, 0x4a, m.negativeDeltas);
    ghost var s3, i3 := dAtA[..], i;
    PrependsTwice(s0, end, s2, i2, s3, i3, counts, BytesField(0x4a, Deltas(m.negativeDeltas)));
    i := MarshalSpans(dAtA, i, 0x42, m.negativeSpans);
    PrependsTwice(s0, end, s3, i3, dAtA[..], i, deltas, EncodeSpans(0x42, m.negativeSpans));
  }

  method MarshalHistogram(dAtA: array<byte>, end: nat, m: Histogram) returns (i: nat)
    requires |EncodeHistogram(m)| <= end <= dAtA.Length && |EncodeHistogram(m)| < TWO_63
    modifies dAtA
    ensures Prepends(old(dAtA[..]), end, dAtA[..], i, EncodeHistogram(m))
  {
    ghost var s0 := dAtA[..];
    ghost var zero := CountField(0x30, 0x39, m.zeroCount) + EncodeBuckets(m);
    ghost var threshold := FixedField(0x29, m.zeroThreshold) + zero;
    ghost var schema := VarintField(0x20, Zig32(m.schema)) + threshold;
    ghost var sum := FixedField(0x19, m.sum) + schema;
    i := MarshalBuckets(dAtA, end, m);
    ghost var s1, i1 := dAtA[..], i;
    i := PutCount(dAtA, i, 0x30, 0x39, m.zeroCount);
    ghost var s2, i2 := dAtA[..], i;
    PrependsTwice(s0, end, s1, i1, s2, i2, EncodeBuckets(m), CountField(0x30, 0x39, m.zeroCount));
    i := PutFixedField(dAtA, i, 0x29, m.zeroThreshold);
    ghost var s3, i3 := dAtA[..], i;
    PrependsTwice(s0, end, s2, i2, s3, i3, zero, FixedField(0x29, m.zeroThreshold));
    i := PutVarintField(dAtA, i, 0x20, Zig32(m.schema));
    ghost var s4, i4 := dAtA[..], i;
    PrependsTwice(s0, end, s3, i3, s4, i4, threshold, VarintField(0x20, Zig32(m.schema)));
    i := PutFixedField(dAtA, i, 0x19, m.sum);
    ghost var s5, i5 := dAtA[..], i;
    PrependsTwice(s0, end, s4, i4, s5, i5, schema, FixedField(0x19, m.sum));
    i := PutCount(dAtA, i, 0x08, 0x11, m.count);
    PrependsTwice(s0, end, s5, i5, dAtA[..], i, sum, CountField(0x08, 0x11, m.count));
  }

  lemma {:induction false} HistogramsFrom(ms: seq<Histogram>, k: nat, rest: seq<Histogram>)
    requires k < |ms| && rest == ms[k + 1..]
    ensures EncodeHistograms(ms[k..]) == MessageField(0x22, EncodeHistogram(ms[k])) + EncodeHistograms(rest)
    ensures |EncodeHistograms(ms[k..])| <= |EncodeHistograms(ms)|
    decreases k
  {
    assert ms[k..][1..] == rest;
    if k > 0 {
      HistogramsFrom(ms[1..], k - 1, rest);
      assert ms[1..][k - 1..] == ms[k..];
    }
  }

  /** A nested histogram with its size and tag. */
  method PutHistogram(dAtA: array<byte>, end: nat, m: Histogram) returns (i: nat)
    requires |MessageField(0x22, EncodeHistogram(m))| <= end <= dAtA.Length && |EncodeHistogram(m)| < TWO_63
    modifies dAtA
    ensures Prepends(old(dAtA[..]), end, dAtA[..], i, MessageField(0x22, EncodeHistogram(m)))
  {
    i := MarshalHistogram(dAtA, end, m);
    i := PutHeader(dAtA, i, 0x22, end - i, old(dAtA[..]), end, EncodeHistogram(m));
  }

  method MarshalHistograms(dAtA: array<byte>, end: nat, ms: seq<Histogram>) returns (i: nat)
    requires |EncodeHistograms(ms)| <= end <= dAtA.Length && |EncodeHistograms(ms)| < TWO_63
    modifies dAtA
    ensures Prepends(old(dAtA[..]), end, dAtA[..], i, EncodeHistograms(ms))
  {
    ghost var s0 := dAtA[..];
    i := end;
    var k := |ms|;
    ghost var rest := ms[|ms|..];
    while k > 0
      invariant 0 <= k <= |ms| && rest == ms[k..]
      invariant Prepends(s0, end, dAtA[..], i, EncodeHistograms(rest))
    {
      HistogramsFrom(ms, k - 1, rest);
      ghost var s1 := dAtA[..];
      ghost var i1 := i;
      i := PutHistogram(dAtA, i, ms[k - 1]);
      PrependsTwice(s0, end, s1, i1, dAtA[..], i, EncodeHistograms(rest), MessageField(0x22, EncodeHistogram(ms[k - 1])));
      k := k - 1;
      rest := ms[k..];
    }
    assert ms[0..] == ms;
  }

  method MarshalTimeSeries(dAtA: array<byte>, end: nat, m: TimeSeries) returns (i: nat)
    requires |EncodeTimeSeries(m)| <= end <= dAtA.Length && |EncodeTimeSeries(m)| < TWO_63
    modifies dAtA
    ensures Prepends(old(dAtA[..]), end, dAtA[..], i, EncodeTimeSeries(m))
  {
    ghost var s0 := dAtA[..];
    ghost var hists := EncodeHistograms(m.histograms) + m.unrecognized;
    ghost var exemplars := EncodeExemplars(m.exemplars) + hists;
    ghost var samples := EncodeSamples(m.samples) + exemplars;
    i := PutBytes(dAtA, end, m.unrecognized);
    ghost var s1, i1 := dAtA[..], i;
    i := MarshalHistograms(dAtA, i, m.histograms);
    ghost var s2, i2 := dAtA[..], i;
    PrependsTwice(s0, end, s1, i1, s2, i2, m.unrecognized, EncodeHistograms(m.histograms));
    i := MarshalExemplars(dAtA, i, m.exemplars);
    ghost var s3, i3 := dAtA[..], i;
    PrependsTwice(s0, end, s2, i2, s3, i3, hists, EncodeExemplars(m.exemplars));
    i := MarshalSamples(dAtA, i, m.samples);
    ghost var s4, i4 := dAtA[..], i;
    PrependsTwice(s0, end, s3, i3, s4, i4, exemplars, EncodeSamples(m.samples));
    i := MarshalLabels(dAtA, i, m.labels);
    PrependsTwice(s0, end, s4, i4, dAtA[..], i, samples, EncodeLabels(m.labels));
  }

  /**
   * `Marshal`: the buffer of `Size()` bytes is filled exactly, the index ends at 0, and the
   * result is the encoding.
   */
  method Marshal(m: TimeSeries) returns (out: bytes)
    requires SizeOfTimeSeries(m) < TWO_63
    ensures out == EncodeTimeSeries(m) == WireFormat.TimeSeriesBytes(m) && |out| == SizeOfTimeSeries(m)
  {
    TimeSeriesSize(m);
    var size := SizeOfTimeSeries(m);
    var dAtA := new byte[size](_ => 0);
    var i := MarshalTimeSeries(dAtA, size, m);
    assert i == 0;
    var n := size - i;
    out := dAtA[..n];
    assert dAtA[0..] == EncodeTimeSeries(m) + [];
    WireFormat.TimeSeriesFormat(m);
  }
}
