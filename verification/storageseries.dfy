/**
 * `storageSeriesIterator`: presents the floats and histograms of a query result as one
 * time-ordered series, which is how subquery results re-enter the look-back machinery.
 */
module StorageSeries {
  import opened Options
  import opened Samples

  /** Time-ordered merge; on equal times the float comes first. */
  function Merge(fs: seq<Sample>, hs: seq<Sample>): seq<Sample>
    decreases |fs| + |hs|
  {
    if fs == [] then hs
    else if hs == [] then fs
    else if hs[0].t < fs[0].t then [hs[0]] + Merge(fs, hs[1..])
    else [fs[0]] + Merge(fs[1..], hs)
  }

  class StorageSeriesIterator {
    const floats: seq<Sample>
    const histograms: seq<Sample>
    var iFloats: int
    var iHistograms: int
    var currT: int
    var currF: Float
    var currH: Option<FloatHistogram>

    ghost function Series(): seq<Sample> {
      Merge(floats, histograms)
    }

    function Current(): Sample
      reads this
    {
      if currH.Some? then FHSample(currT, currH.value) else FSample(currT, currF)
    }

    ghost predicate Typed() {
      && (forall s :: s in floats ==> s.FSample?)
      && (forall s :: s in histograms ==> s.FHSample?)
    }

    /** Before the first sample (-1), on sample `p` of the merged series, or past its end. */
    ghost predicate On(p: int)
      reads this
    {
      && Typed() && -1 <= p <= |Series()|
      && (p == -1 ==> iFloats == -1 && iHistograms == 0 && currH.None? && currT == MIN_TIME)
      && (0 <= p < |Series()| ==>
            && 0 <= iFloats <= |floats| && 0 <= iHistograms <= |histograms|
            && Merge(floats[iFloats..], histograms[iHistograms..]) == Series()[p..]
            && Current() == Series()[p]
            && (if currH.Some? then iHistograms < |histograms| && Current() == histograms[iHistograms]
                else iFloats < |floats| && Current() == floats[iFloats]))
      && (p == |Series()| && p >= 0 && p != -1 ==> iFloats >= |floats| && iHistograms >= |histograms|)
    }

    constructor (floats: seq<Sample>, histograms: seq<Sample>)
      requires forall s :: s in floats ==> s.FSample?
      requires forall s :: s in histograms ==> s.FHSample?
      ensures On(-1) && this.floats == floats && this.histograms == histograms
    {
      this.floats, this.histograms := floats, histograms;
      iFloats, iHistograms := -1, 0;
      currT, currF, currH := MIN_TIME, Finite(0.0), None;
    }

    /** What is still to come, from sample `p` of the merged series on. */
    ghost predicate Pending(p: int)
      reads this
    {
      && Typed() && 0 <= p <= |Series()|
      && 0 <= iFloats <= |floats| && 0 <= iHistograms <= |histograms|
      && Merge(floats[iFloats..], histograms[iHistograms..]) == Series()[p..]
    }

    /** Leaves the current sample behind. */
    method Leave(ghost p: int)
      requires On(p)
      modifies this`iFloats, this`iHistograms
      ensures p < |Series()| ==> Pending(p + 1)
      ensures p == |Series()| ==> iFloats >= |floats| && iHistograms >= |histograms|
    {
      if 0 <= p < |Series()| {
        MergeTail(floats[iFloats..], histograms[iHistograms..], Current());
        assert iFloats < |floats| ==> floats[iFloats..][1..] == floats[iFloats + 1..];
        assert iHistograms < |histograms| ==> histograms[iHistograms..][1..] == histograms[iHistograms + 1..];
        assert Series()[p..][1..] == Series()[p + 1..];
      } else if p == -1 {
        assert floats[0..] == floats && histograms[0..] == histograms && Series()[0..] == Series();
      }
      if currH.Some? {
        iHistograms := iHistograms + 1;
      } else {
        iFloats := iFloats + 1;
      }
    }

    /** Advances by one sample of the merged series. */
    method Next(ghost p: int) returns (vt: ValueType, ghost p': int)
      requires On(p)
      modifies this
      ensures On(p') && p' == if p < |Series()| then p + 1 else p
      ensures 0 <= p' && vt == TypeAt(Series(), p')
    {
      Leave(p);
      p' := if p < |Series()| then p + 1 else p;
      var floatsExhausted := iFloats >= |floats|;
      var histogramsExhausted := iHistograms >= |histograms|;
      if floatsExhausted && histogramsExhausted {
        return ValNone, p';
      }
      ghost var rest := Merge(floats[iFloats..], histograms[iHistograms..]);
      assert rest[0] == Series()[p'];
      if floatsExhausted || (!histogramsExhausted && histograms[iHistograms].t < floats[iFloats].t) {
        var h := histograms[iHistograms];
        assert rest[0] == h && h in histograms;
        currT, currF, currH := h.t, Finite(0.0), Some(h.fh);
        vt := ValFloatHistogram;
      } else {
        var f := floats[iFloats];
        assert rest[0] == f && f in floats;
        currT, currF, currH := f.t, f.f, None;
        vt := ValFloat;
      }
    }

    /**
     * Meets the iterator contract for `Seek` on the merged series, with one exception: a fresh
     * iterator that is asked for the least time stays where it is and claims to be on a float.
     */
    method Seek(t: int, ghost p: int) returns (vt: ValueType, ghost p': int)
      requires On(p)
      modifies this
      ensures On(p')
      ensures p < 0 && t <= MIN_TIME ==> p' == p && vt == ValFloat
      ensures p >= 0 || MIN_TIME < t ==>
                0 <= p' && p' == SeekPos(Series(), if p < 0 then 0 else p, t) && vt == TypeAt(Series(), p')
    {
      p' := p;
      ghost var target := SeekPos(Series(), if p < 0 then 0 else p, t);
      if iFloats >= |floats| && iHistograms >= |histograms| {
        return ValNone, p;
      }
      while currT < t
        invariant On(p') && p' < |Series()| && (p < 0 && t <= MIN_TIME ==> p' == p)
        invariant if p' < 0 then p < 0 else SeekPos(Series(), p', t) == target
        decreases |Series()| - p'
      {
        var v;
        v, p' := Next(p');
        if v == ValNone {
          return ValNone, p';
        }
      }
      vt := if currH.Some? then ValFloatHistogram else ValFloat;
    }
  }

  lemma FirstAndRest(s: seq<Sample>)
    requires s != []
    ensures multiset(s) == multiset{s[0]} + multiset(s[1..])
  {
    assert s == [s[0]] + s[1..];
  }

  /** The merge is a permutation of the two lists. */
  lemma {:induction false} MergeKeepsAll(fs: seq<Sample>, hs: seq<Sample>)
    ensures multiset(Merge(fs, hs)) == multiset(fs) + multiset(hs)
    decreases |fs| + |hs|
  {
    if fs != [] && hs != [] {
      if hs[0].t < fs[0].t {
        MergeKeepsAll(fs, hs[1..]);
        FirstAndRest(hs);
      } else {
        MergeKeepsAll(fs[1..], hs);
        FirstAndRest(fs);
      }
    }
  }

  /** Two increasing lists without a common time merge into a series the look-back accepts. */
  lemma {:induction false} MergeIncreasing(fs: seq<Sample>, hs: seq<Sample>, lo: int)
    requires Increasing(fs) && Increasing(hs)
    requires forall i, j :: 0 <= i < |fs| && 0 <= j < |hs| ==> fs[i].t != hs[j].t
    requires (forall i :: 0 <= i < |fs| ==> lo < fs[i].t) && (forall j :: 0 <= j < |hs| ==> lo < hs[j].t)
    ensures Increasing(Merge(fs, hs))
    ensures forall k :: 0 <= k < |Merge(fs, hs)| ==> lo < Merge(fs, hs)[k].t
    decreases |fs| + |hs|
  {
    if fs != [] && hs != [] {
      IncreasingTail(fs);
      IncreasingTail(hs);
      if hs[0].t < fs[0].t {
        HeadFirst(fs);
        MergeIncreasing(fs, hs[1..], hs[0].t);
        ConsIncreasing(hs[0], Merge(fs, hs[1..]));
      } else {
        HeadFirst(hs);
        MergeIncreasing(fs[1..], hs, fs[0].t);
        ConsIncreasing(fs[0], Merge(fs[1..], hs));
      }
    }
  }

  lemma HeadFirst(s: seq<Sample>)
    requires s != [] && Increasing(s)
    ensures forall i :: 0 <= i < |s| ==> s[0].t <= s[i].t
  {
    forall i | 0 < i < |s|
      ensures s[0].t <= s[i].t
    {
      assert Earlier(s, 0, i);
    }
  }

  lemma ConsIncreasing(x: Sample, s: seq<Sample>)
    requires Increasing(s) && forall i :: 0 <= i < |s| ==> x.t < s[i].t
    ensures Increasing([x] + s)
  {
    forall i: nat, j: nat | i < j < |s| + 1
      ensures Earlier([x] + s, i, j)
    {
      assert i > 0 ==> Earlier(s, i - 1, j - 1);
    }
  }

  /** Consuming the head of either list consumes the head of the merge. */
  lemma MergeTail(fs: seq<Sample>, hs: seq<Sample>, head: Sample)
    requires fs != [] || hs != []
    requires head == Merge(fs, hs)[0]
    requires (forall s :: s in fs ==> s.FSample?) && (forall s :: s in hs ==> s.FHSample?)
    ensures head.FHSample? ==> hs != [] && Merge(fs, hs[1..]) == Merge(fs, hs)[1..]
    ensures head.FSample? ==> fs != [] && Merge(fs[1..], hs) == Merge(fs, hs)[1..]
  {
    if fs == [] {
      assert hs[0] in hs;
    } else if hs == [] {
      assert fs[0] in fs;
    } else {
      assert hs[0] in hs && fs[0] in fs;
    }
  }
}
