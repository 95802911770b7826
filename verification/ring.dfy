/**
 * `sampleRing`: a growable ring buffer that keeps the samples of the last `delta`
 * milliseconds, in one typed buffer while the samples are homogeneous and in an
 * interface buffer once they are mixed.
 */
module Ring {
  import opened Options
  import opened Samples

  datatype BufType = NoBuf | IBuf | FBuf | HBuf | FHBuf

  /** Drops leading samples older than `tmin`. */
  function DropOld(s: seq<Sample>, tmin: int): seq<Sample> {
    if s != [] && s[0].t < tmin then DropOld(s[1..], tmin) else s
  }

  /** The oldest time kept when `s` is the newest sample. */
  function Tmin(s: Sample, delta: int): int {
    s.t - delta
  }

  /** Position of logical element `k` of a ring of `n` slots whose first element is at `f`. */
  function Slot(f: nat, k: nat, n: nat): (j: nat)
    requires f < n && k < n
    ensures j < n
  {
    if f + k < n then f + k else f + k - n
  }

  lemma {:induction false} SlotIsModular(f: nat, k: nat, n: nat)
    requires f < n && k < n
    ensures Slot(f, k, n) == (f + k) % n
  {
    if f + k >= n {
      Remainder(f + k, n, 1, f + k - n);
    } else {
      Remainder(f + k, n, 0, f + k);
    }
  }

  lemma Remainder(a: nat, n: nat, q: nat, r: nat)
    requires n > 0 && q <= 1 && r < n && a == n * q + r
    ensures a % n == r
  {
  }

  /** Index arithmetic of a ring over `n` slots: first `f`, newest `i`, `l` elements. */
  ghost predicate Indexed(n: int, i: int, f: int, l: int) {
    && 0 <= l <= n
    && (l == 0 ==> i == -1 && f == 0)
    && (l > 0 ==> 0 <= f < n && i == Slot(f, l - 1, n))
  }

  /** The `l` elements of a ring over `b` that starts at `f`, oldest first. */
  ghost function Unrolled(b: seq<Sample>, f: int, l: int): (s: seq<Sample>)
    requires 0 <= l <= |b| && (l > 0 ==> 0 <= f < |b|)
    ensures |s| == l
    ensures forall k :: 0 <= k < l ==> s[k] == b[Slot(f, k, |b|)]
  {
    seq(l, k requires 0 <= k < l => b[Slot(f, k, |b|)])
  }

  lemma UnrolledAppend(b: seq<Sample>, f: int, l: int, s: Sample)
    requires 0 <= l < |b| && 0 <= f < |b|
    ensures Unrolled(b[Slot(f, l, |b|) := s], f, l + 1) == Unrolled(b, f, l) + [s]
  {
  }

  lemma UnrolledTail(b: seq<Sample>, f: int, l: int)
    requires 0 < l <= |b| && 0 <= f < |b|
    ensures Unrolled(b, if f + 1 >= |b| then f + 1 - |b| else f + 1, l - 1) == Unrolled(b, f, l)[1..]
  {
  }

  /** One slot freed at the head. */
  lemma Freed(b: seq<Sample>, i: int, f: int, l: int, f': int, l': int)
    requires Indexed(|b|, i, f, l) && l > 1 && l' == l - 1 && f' == if f + 1 >= |b| then f + 1 - |b| else f + 1
    ensures Indexed(|b|, i, f', l') && Unrolled(b, f', l') == Unrolled(b, f, l)[1..]
  {
    UnrolledTail(b, f, l);
  }

  /** Which samples a typed buffer may hold. */
  predicate Fits(b: BufType, s: Sample) {
    match b
    case NoBuf => false
    case IBuf => true
    case FBuf => s.FSample?
    case HBuf => s.HSample?
    case FHBuf => s.FHSample?
  }

  class SampleRing {
    var delta: int

    var iBuf: array<Sample>
    var fBuf: array<Sample>
    var hBuf: array<Sample>
    var fhBuf: array<Sample>
    var bufInUse: BufType

    // The elements sit in `l` consecutive slots, modulo the buffer's length: `f` holds the oldest
    // and `i` the newest. An empty ring has `i` at -1 and `f` at 0.
    var i: int
    var f: int
    var l: int

    /** The abstract value of the ring: its elements, oldest first. */
    ghost var contents: seq<Sample>

    /** The buffers, current and past. */
    ghost var Repr: set<array<Sample>>

    function BufOf(b: BufType): array<Sample>
      reads this
    {
      match b
      case FBuf => fBuf
      case HBuf => hBuf
      case FHBuf => fhBuf
      case _ => iBuf
    }

    /** The buffer that holds the elements; the interface buffer when nothing is stored. */
    function Current(): array<Sample>
      reads this
    {
      BufOf(bufInUse)
    }

    /** The elements stored in `buf`, oldest first. */
    ghost function View(buf: array<Sample>): seq<Sample>
      requires Indexed(buf.Length, i, f, l)
      reads this, buf
    {
      Unrolled(buf[..], f, l)
    }

    ghost predicate Valid()
      reads this, Repr
    {
      && iBuf in Repr && fBuf in Repr && hBuf in Repr && fhBuf in Repr
      && delta >= 0
      && Indexed(Current().Length, i, f, l)
      && (bufInUse == NoBuf <==> l == 0)
      && (bufInUse != IBuf ==> iBuf.Length == 0)
      && contents == View(Current()) && |contents| == l
      && forall s :: s in contents ==> Fits(bufInUse, s)
    }

    constructor (delta: int)
      requires delta >= 0
      ensures Valid() && contents == [] && this.delta == delta && fresh(Repr)
    {
      this.delta := delta;
      iBuf, fBuf, hBuf, fhBuf := new Sample[0], new Sample[0], new Sample[0], new Sample[0];
      bufInUse, i, f, l := NoBuf, -1, 0, 0;
      contents := [];
      Repr := {iBuf, fBuf, hBuf, fhBuf};
    }

    method Reset()
      requires Valid()
      modifies this
      ensures Valid() && contents == [] && delta == old(delta)
      ensures fresh(Repr - old(Repr))
    {
      l, i, f, bufInUse := 0, -1, 0, NoBuf;
      iBuf := new Sample[0];
      contents := [];
      Repr := Repr + {iBuf};
    }

    /**
     * Doubles a full ring and claims the next slot. `addF`, `addH`, `addFH` and
     * `addSample` share this text; they differ in the element type only.
     */
    method ClaimSlot(buf0: array<Sample>) returns (buf: array<Sample>)
      requires Indexed(buf0.Length, i, f, l)
      modifies this`i, this`f
      ensures buf == buf0 || fresh(buf)
      ensures 0 <= f < buf.Length && 0 <= l < buf.Length && i == Slot(f, l, buf.Length)
      ensures Unrolled(buf[..], f, l) == old(View(buf0))
    {
      buf := buf0;
      var n := buf.Length;
      if n == 0 {
        buf := new Sample[16](_ => FSample(0, Finite(0.0)));
        n := 16;
      }
      if n == l {
        var newBuf := new Sample[2 * n](_ => FSample(0, Finite(0.0)));
        forall k | f <= k < n {
          newBuf[n + k] := buf[k];
        }
        forall k | 0 <= k < f {
          newBuf[k] := buf[k];
        }
        buf := newBuf;
        i := f;
        f := f + n;
      } else {
        i := i + 1;
        if i >= n {
          i := i - n;
        }
      }
    }

    /** Frees the head of `buf` of samples older than `tmin`; the newest is never that old. */
    method Evict(buf: array<Sample>, tmin: int)
      requires l > 0 && Indexed(buf.Length, i, f, l) && View(buf)[l - 1].t >= tmin
      modifies this`f, this`l
      ensures l > 0 && Indexed(buf.Length, i, f, l)
      ensures View(buf) == DropOld(old(View(buf)), tmin)
    {
      var n := buf.Length;
      ghost var b, left := buf[..], View(buf);
      while buf[f].t < tmin
        invariant l > 0 && Indexed(n, i, f, l) && left == Unrolled(b, f, l) && left[l - 1].t >= tmin
        invariant DropOld(left, tmin) == DropOld(old(View(buf)), tmin)
        decreases l
      {
        assert left[0] == buf[f];
        ghost var f0, l0 := f, l;
        f := f + 1;
        if f >= n {
          f := f - n;
        }
        l := l - 1;
        Freed(b, i, f0, l0, f, l);
        left := left[1..];
      }
      assert left[0] == buf[f];
    }

    /** Puts `s` into the slot that was claimed. */
    method Store(s: Sample, buf: array<Sample>)
      requires 0 <= f < buf.Length && 0 <= l < buf.Length && i == Slot(f, l, buf.Length)
      modifies this`l, buf
      ensures l == old(l) + 1 && Indexed(buf.Length, i, f, l)
      ensures View(buf) == old(Unrolled(buf[..], f, l)) + [s]
    {
      UnrolledAppend(buf[..], f, l, s);
      buf[i] := s;
      l := l + 1;
    }

    method AddTo(s: Sample, buf0: array<Sample>) returns (buf: array<Sample>)
      requires delta >= 0 && Indexed(buf0.Length, i, f, l)
      modifies this`i, this`f, this`l, buf0
      ensures buf == buf0 || fresh(buf)
      ensures l > 0 && Indexed(buf.Length, i, f, l)
      ensures View(buf) == DropOld(old(View(buf0)) + [s], Tmin(s, delta))
    {
      buf := ClaimSlot(buf0);
      Store(s, buf);
      Evict(buf, Tmin(s, delta));
    }

    /** Copies a typed buffer slot by slot. */
    static method Copy(src: array<Sample>) returns (dst: array<Sample>)
      ensures fresh(dst) && dst[..] == src[..]
    {
      dst := new Sample[src.Length](_ => FSample(0, Finite(0.0)));
      forall k | 0 <= k < src.Length {
        dst[k] := src[k];
      }
    }

    /** Moves the elements of a typed buffer to the interface buffer. */
    method Migrate()
      requires Valid() && bufInUse !in {NoBuf, IBuf}
      modifies this`iBuf, this`fBuf, this`hBuf, this`fhBuf, this`bufInUse, this`Repr
      ensures bufInUse == IBuf && Valid()
      ensures fresh(Repr - old(Repr))
    {
      var dst := Copy(Current());
      var none := new Sample[0];
      Use(bufInUse, none);
      Use(IBuf, dst);
    }

    /** Stores `buf` as the buffer of type `b` and uses it. */
    method Use(b: BufType, buf: array<Sample>)
      requires b != NoBuf
      modifies this`iBuf, this`fBuf, this`hBuf, this`fhBuf, this`bufInUse, this`Repr
      ensures bufInUse == b && Repr == old(Repr) + {buf}
      ensures iBuf == (if b == IBuf then buf else old(iBuf)) && fBuf == (if b == FBuf then buf else old(fBuf))
      ensures hBuf == (if b == HBuf then buf else old(hBuf)) && fhBuf == (if b == FHBuf then buf else old(fhBuf))
    {
      match b {
        case FBuf => fBuf := buf;
        case HBuf => hBuf := buf;
        case FHBuf => fhBuf := buf;
        case IBuf => iBuf := buf;
      }
      bufInUse := b;
      Repr := Repr + {buf};
    }

    /** Adds to the buffer of type `b`, which is in use or becomes so. */
    method AddInPlace(s: Sample, b: BufType)
      requires Valid() && Fits(b, s)
      requires bufInUse == b || (bufInUse == NoBuf && b != IBuf)
      modifies this, Repr
      ensures Valid() && delta == old(delta)
      ensures contents == DropOld(old(contents) + [s], Tmin(s, delta))
      ensures fresh(Repr - old(Repr))
    {
      ghost var now := DropOld(contents + [s], Tmin(s, delta));
      DropOldFits(b, contents + [s], Tmin(s, delta));
      var buf := BufOf(b);
      assert View(buf) == contents;
      buf := AddTo(s, buf);
      Use(b, buf);
      contents := now;
    }

    /** `add`, and `addF`/`addH`/`addFH`, which dispatch on the same two values. */
    method Add(s: Sample)
      requires Valid()
      modifies this, Repr
      ensures Valid() && delta == old(delta)
      ensures contents == DropOld(old(contents) + [s], Tmin(s, delta))
      ensures fresh(Repr - old(Repr))
    {
      var b := match s
        case FSample(_, _) => FBuf
        case HSample(_, _) => HBuf
        case FHSample(_, _) => FHBuf;
      if bufInUse == NoBuf || bufInUse == b {
        AddInPlace(s, b);
      } else {
        if bufInUse != IBuf {
          Migrate();
        }
        AddInPlace(s, IBuf);
      }
    }

    /** Drops what is older than `tmin` from a ring that is not empty. */
    method Shrink(tmin: int)
      requires Valid() && l > 0 && contents[l - 1].t >= tmin
      modifies this`f, this`l, this`contents
      ensures Valid() && contents == DropOld(old(contents), tmin)
    {
      DropOldFits(bufInUse, contents, tmin);
      Evict(Current(), tmin);
      contents := DropOld(contents, tmin);
    }

    /** Lowers the delta and drops what falls out of it; a higher delta is refused. */
    method ReduceDelta(d: int) returns (ok: bool)
      requires Valid() && d >= 0
      modifies this`delta, this`f, this`l, this`contents
      ensures Valid()
      ensures ok == (d <= old(delta))
      ensures delta == if ok then d else old(delta)
      ensures contents == Reduced(old(contents), old(delta), d)
    {
      if d > delta {
        return false;
      }
      delta := d;
      if l > 0 {
        assert contents[|contents| - 1] == Current()[i];
        Shrink(Tmin(Current()[i], d));
      }
      return true;
    }

    /** One operation of a ring program. */
    method Apply(op: Op)
      requires Valid()
      modifies this, Repr
      ensures Valid() && fresh(Repr - old(Repr))
      ensures RingState(delta, contents) == Step(RingState(old(delta), old(contents)), op)
    {
      match op {
        case OpAdd(s) => Add(s);
        case OpReduce(d) => var _ := ReduceDelta(d);
        case OpReset => Reset();
      }
    }

    /** The `k`-th oldest element, by the ring's own index arithmetic. */
    method At(k: int) returns (s: Sample)
      requires Valid() && 0 <= k < l
      ensures s == contents[k]
    {
      SlotIsModular(f, k, Current().Length);
      var j := (f + k) % Current().Length;
      s := Current()[j];
    }

    /** `nthLast`: the nth most recent element, if that many are buffered. */
    method NthLast(n: int) returns (s: Sample, ok: bool)
      requires Valid() && n >= 1
      ensures ok == (n <= |contents|)
      ensures ok ==> s == contents[|contents| - n]
    {
      if n > l {
        return FSample(0, Finite(0.0)), false;
      }
      s := At(l - n);
      ok := true;
    }

    /** `samples`: the elements as two copied runs, before and after the wrap. */
    method All() returns (res: seq<Sample>)
      requires Valid()
      ensures res == contents
    {
      if l == 0 {
        return [];
      }
      var buf := Current();
      var k, j := f + l, 0;
      if k > buf.Length {
        k := buf.Length;
        j := l - k + f;
      }
      res := buf[f..k] + buf[..j];
    }
  }

  /** `SampleRingIterator`: walks the ring; stale histogram pointers survive a step. */
  class SampleRingIterator {
    const r: SampleRing
    var i: int
    var t: int
    var f: Float
    var h: Option<Histogram>
    var fh: Option<FloatHistogram>

    ghost predicate Valid()
      reads this, r, r.Repr
    {
      r.Valid() && i >= -1 && (r.bufInUse == HBuf ==> fh.None?)
    }

    constructor (r: SampleRing)
      requires r.Valid()
      ensures Valid() && this.r == r && i == -1
    {
      this.r, i, t, f, h, fh := r, -1, 0, Finite(0.0), None, None;
    }

    /** `AtFloatHistogram`: a float histogram wins over an integer one left from before. */
    function Point(vt: ValueType): Option<Sample>
      reads this
    {
      match vt
      case ValNone => None
      case ValFloat => Some(FSample(t, f))
      case _ =>
        if fh.Some? then Some(FHSample(t, fh.value))
        else if h.Some? then Some(FHSample(t, ToFloat(h.value))) else None
    }

    /** Steps to the next element and reports its type; `Point` then reads that element. */
    method Next() returns (vt: ValueType)
      requires Valid() && i < r.l
      modifies this
      ensures Valid() && i == old(i) + 1
      ensures vt == if i < r.l then TypeOf(r.contents[i]) else ValNone
      ensures Point(vt) == if i < r.l then Some(r.contents[i].AsFloat()) else None
    {
      i := i + 1;
      if i >= r.l {
        return ValNone;
      }
      var s := r.At(i);
      assert s in r.contents && Fits(r.bufInUse, s);
      t := s.t;
      if r.bufInUse == FBuf {
        f := s.f;
        return ValFloat;
      } else if r.bufInUse == HBuf {
        h := Some(s.h);
        return ValHistogram;
      } else if r.bufInUse == FHBuf {
        fh := Some(s.fh);
        return ValFloatHistogram;
      }
      match s {
        case HSample(_, sh) =>
          h, fh := Some(sh), None;
          return ValHistogram;
        case FHSample(_, sfh) =>
          fh, h := Some(sfh), None;
          return ValFloatHistogram;
        case FSample(_, sf) =>
          f := sf;
          return ValFloat;
      }
    }
  }

  /** Contents after a delta reduction, given the delta before it. */
  function Reduced(s: seq<Sample>, delta: int, d: int): seq<Sample> {
    if d <= delta && s != [] then DropOld(s, Tmin(s[|s| - 1], d)) else s
  }

  lemma {:induction false} DropOldFits(b: BufType, s: seq<Sample>, tmin: int)
    requires forall x :: x in s ==> Fits(b, x)
    ensures forall x :: x in DropOld(s, tmin) ==> Fits(b, x)
    decreases |s|
  {
    if s != [] && s[0].t < tmin {
      DropOldFits(b, s[1..], tmin);
    }
  }

  // ----- whole runs -----

  datatype Op = OpAdd(s: Sample) | OpReduce(d: nat) | OpReset

  /** Abstract ring state: the delta in force and the buffered samples. */
  datatype RingState = RingState(delta: int, buffered: seq<Sample>)

  function Step(st: RingState, op: Op): RingState {
    match op
    case OpAdd(s) => st.(buffered := DropOld(st.buffered + [s], Tmin(s, st.delta)))
    case OpReduce(d) =>
      RingState(if d <= st.delta then d else st.delta, Reduced(st.buffered, st.delta, d))
    case OpReset => st.(buffered := [])
  }

  function Run(st: RingState, ops: seq<Op>): RingState {
    if ops == [] then st else Step(Run(st, ops[..|ops| - 1]), ops[|ops| - 1])
  }

  /** Any program of ring operations on a fresh ring ends in the abstract run's state. */
  method Execute(delta: nat, ops: seq<Op>) returns (ring: SampleRing)
    ensures fresh(ring) && ring.Valid()
    ensures RingState(ring.delta, ring.contents) == Run(RingState(delta, []), ops)
  {
    ring := new SampleRing(delta);
    for n := 0 to |ops|
      invariant fresh(ring) && fresh(ring.Repr) && ring.Valid()
      invariant RingState(ring.delta, ring.contents) == Run(RingState(delta, []), ops[..n])
    {
      assert ops[..n + 1][..n] == ops[..n];
      ring.Apply(ops[n]);
    }
    assert ops[..|ops|] == ops;
  }

  /** The samples added since the last reset. */
  function Added(ops: seq<Op>): seq<Sample> {
    if ops == [] then [] else
      var rest := Added(ops[..|ops| - 1]);
      match ops[|ops| - 1]
      case OpAdd(s) => rest + [s]
      case OpReduce(_) => rest
      case OpReset => []
  }

  /** The samples of a history within `delta` of its newest. */
  function Window(h: seq<Sample>, delta: int): seq<Sample> {
    if h == [] then [] else Since(h, Tmin(h[|h| - 1], delta))
  }

  lemma {:induction false} RunWindow(delta: nat, ops: seq<Op>)
    requires Increasing(Added(ops))
    ensures var st := Run(RingState(delta, []), ops);
            var h := Added(ops);
            && 0 <= st.delta <= delta
            && st.buffered == Window(h, st.delta)
    decreases |ops|
  {
    if ops != [] {
      var init := ops[..|ops| - 1];
      var h0 := Added(init);
      var st0 := Run(RingState(delta, []), init);
      match ops[|ops| - 1]
      case OpAdd(s) =>
        IncreasingInit(h0, s);
        RunWindow(delta, init);
        WindowAdd(h0, s, st0.delta);
      case OpReduce(d) =>
        RunWindow(delta, init);
        WindowReduce(h0, st0.delta, d);
      case OpReset =>
        ResetBounds(delta, init);
    }
  }

  /**
   * Closed form over whole runs: as long as samples arrive in time order, the ring holds
   * exactly the samples added since the last reset that lie within the current delta of
   * the newest one, whatever growths, migrations and reductions happened on the way.
   */
  lemma RunIsWindow(delta: nat, ops: seq<Op>)
    requires Increasing(Added(ops))
    ensures var st := Run(RingState(delta, []), ops);
            var h := Added(ops);
            && 0 <= st.delta <= delta
            && st.buffered == if h == [] then [] else Since(h, h[|h| - 1].t - st.delta)
  {
    RunWindow(delta, ops);
  }

  /** The current delta is the least of the first one and all that it was reduced to. */
  lemma {:induction false} DeltaIsLeast(delta: nat, ops: seq<Op>)
    ensures var d := Run(RingState(delta, []), ops).delta;
            && d <= delta && (forall i :: 0 <= i < |ops| && ops[i].OpReduce? ==> d <= ops[i].d)
            && (d == delta || exists i :: 0 <= i < |ops| && ops[i].OpReduce? && d == ops[i].d)
    decreases |ops|
  {
    if ops != [] {
      var init := ops[..|ops| - 1];
      DeltaIsLeast(delta, init);
      assert forall i :: 0 <= i < |init| ==> init[i] == ops[i];
    }
  }

  lemma WindowAdd(h: seq<Sample>, s: Sample, delta: nat)
    requires Increasing(h + [s])
    ensures DropOld(Window(h, delta) + [s], Tmin(s, delta)) == Window(h + [s], delta)
  {
    IncreasingInit(h, s);
    var lo0 := if h == [] then Tmin(s, delta) else Tmin(h[|h| - 1], delta);
    assert Window(h, delta) == Since(h, lo0);
    DropSinceAppend(h, s, lo0, Tmin(s, delta));
  }

  lemma WindowReduce(h: seq<Sample>, delta: nat, d: nat)
    requires Increasing(h)
    ensures Reduced(Window(h, delta), delta, d) == Window(h, if d <= delta then d else delta)
  {
    if h != [] && d <= delta {
      SinceLast(h, Tmin(h[|h| - 1], delta));
      DropSince(h, Tmin(h[|h| - 1], delta), Tmin(h[|h| - 1], d));
    }
  }

  lemma {:induction false} ResetBounds(delta: nat, ops: seq<Op>)
    ensures 0 <= Run(RingState(delta, []), ops).delta <= delta
    decreases |ops|
  {
    if ops != [] {
      ResetBounds(delta, ops[..|ops| - 1]);
    }
  }

  lemma {:induction false} SinceLast(h: seq<Sample>, lo: int)
    requires h != [] && h[|h| - 1].t >= lo
    ensures var r := Since(h, lo); r != [] && r[|r| - 1] == h[|h| - 1]
    decreases |h|
  {
    if |h| > 1 {
      SinceLast(h[1..], lo);
    }
  }

  /** On a time-ordered history, dropping from a window gives the narrower window. */
  lemma {:induction false} DropSince(h: seq<Sample>, lo0: int, lo: int)
    requires Increasing(h) && lo0 <= lo
    ensures DropOld(Since(h, lo0), lo) == Since(h, lo)
    decreases |h|
  {
    if h != [] {
      var rest := h[1..];
      IncreasingTail(h);
      DropSince(rest, lo0, lo);
      if lo0 <= h[0].t {
        assert ([h[0]] + Since(rest, lo0))[1..] == Since(rest, lo0);
        if lo <= h[0].t {
          SinceAll(rest, lo);
          SinceAll(rest, lo0);
        } else {
          assert Since(h, lo) == [] + Since(rest, lo);
        }
      } else {
        assert [] + Since(rest, lo0) == Since(rest, lo0);
        assert [] + Since(rest, lo) == Since(rest, lo);
      }
    }
  }

  lemma {:induction false} SinceAll(h: seq<Sample>, lo: int)
    requires forall i :: 0 <= i < |h| ==> lo <= h[i].t
    ensures Since(h, lo) == h
    decreases |h|
  {
    if h != [] {
      SinceAll(h[1..], lo);
    }
  }

  lemma {:induction false} SinceAppend(h: seq<Sample>, s: Sample, lo: int)
    requires lo <= s.t
    ensures Since(h + [s], lo) == Since(h, lo) + [s]
    decreases |h|
  {
    if h == [] {
      assert [] + [s] == [s];
    } else {
      var hs, rest := h + [s], h[1..];
      assert hs[0] == h[0] && hs[1..] == rest + [s];
      SinceAppend(rest, s, lo);
      var first := if lo <= h[0].t then [h[0]] else [];
      assert Since(hs, lo) == first + (Since(rest, lo) + [s]) == (first + Since(rest, lo)) + [s];
    }
  }

  lemma DropSinceAppend(h: seq<Sample>, s: Sample, lo0: int, lo: int)
    requires Increasing(h + [s]) && lo0 <= lo <= s.t
    ensures DropOld(Since(h, lo0) + [s], lo) == Since(h + [s], lo)
  {
    SinceAppend(h, s, lo0);
    DropSince(h + [s], lo0, lo);
  }
}
