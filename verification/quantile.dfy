/**
 * `BucketQuantile`: the quantile of a classic histogram, over the reals. The buckets are
 * sorted, buckets of equal bound are merged, counts are made non-decreasing, and the quantile
 * is interpolated in the first bucket that reaches the rank.
 */
module Quantile {
  import opened Samples

  /** An upper bound; the highest bucket has none. */
  datatype Bound = Fin(r: real) | Inf

  datatype Bucket = Bucket(bound: Bound, count: real)

  predicate Below(a: Bound, b: Bound) {
    a.Fin? && (b.Inf? || a.r < b.r)
  }

  // ----- sorting -----

  ghost predicate Sorted(s: seq<Bucket>) {
    forall i, j :: 0 <= i < j < |s| ==> !Below(s[j].bound, s[i].bound)
  }

  function Insert(s: seq<Bucket>, x: Bucket): seq<Bucket> {
    if s == [] || !Below(x.bound, s[|s| - 1].bound) then s + [x]
    else Insert(s[..|s| - 1], x) + [s[|s| - 1]]
  }

  /** Stands for the library's sort by upper bound. */
  function SortedBuckets(s: seq<Bucket>): (r: seq<Bucket>)
    ensures |r| == |s|
  {
    if s == [] then [] else
      InsertSize(SortedBuckets(s[..|s| - 1]), s[|s| - 1]);
      Insert(SortedBuckets(s[..|s| - 1]), s[|s| - 1])
  }

  lemma {:induction false} InsertSize(s: seq<Bucket>, x: Bucket)
    ensures |Insert(s, x)| == |s| + 1
    decreases |s|
  {
    if s != [] {
      InsertSize(s[..|s| - 1], x);
    }
  }

  lemma {:induction false} InsertKeeps(s: seq<Bucket>, x: Bucket)
    ensures multiset(Insert(s, x)) == multiset(s) + multiset{x}
    decreases |s|
  {
    if !(s == [] || !Below(x.bound, s[|s| - 1].bound)) {
      var init, last := s[..|s| - 1], s[|s| - 1];
      InsertKeeps(init, x);
      assert s == init + [last];
    }
  }

  lemma {:induction false} InsertSorts(s: seq<Bucket>, x: Bucket)
    requires Sorted(s)
    ensures Sorted(Insert(s, x))
    decreases |s|
  {
    if s == [] || !Below(x.bound, s[|s| - 1].bound) {
      SortedSnoc(s, x);
    } else {
      var init, last := s[..|s| - 1], s[|s| - 1];
      InsertSorts(init, x);
      InsertKeeps(init, x);
      var r := Insert(init, x);
      forall i | 0 <= i < |r| ensures !Below(last.bound, r[i].bound) {
        assert r[i] in multiset(r);
        assert r[i] == x || r[i] in init;
      }
      SortedBefore(r, last);
    }
  }

  lemma SortedBefore(s: seq<Bucket>, x: Bucket)
    requires Sorted(s) && forall i :: 0 <= i < |s| ==> !Below(x.bound, s[i].bound)
    ensures Sorted(s + [x])
  {
  }

  lemma SortedSnoc(s: seq<Bucket>, x: Bucket)
    requires Sorted(s) && (s == [] || !Below(x.bound, s[|s| - 1].bound))
    ensures Sorted(s + [x])
  {
    forall i | 0 <= i < |s| ensures !Below(x.bound, s[i].bound) {
      assert i < |s| - 1 ==> !Below(s[|s| - 1].bound, s[i].bound);
    }
    SortedBefore(s, x);
  }

  lemma {:induction false} SortSorts(s: seq<Bucket>)
    ensures Sorted(SortedBuckets(s)) && multiset(SortedBuckets(s)) == multiset(s)
    decreases |s|
  {
    if s != [] {
      var init, last := s[..|s| - 1], s[|s| - 1];
      SortSorts(init);
      InsertSorts(SortedBuckets(init), last);
      InsertKeeps(SortedBuckets(init), last);
      assert s == init + [last];
    }
  }

  method SortInPlace(a: array<Bucket>)
    modifies a
    ensures a[..] == SortedBuckets(old(a[..]))
  {
    var s := SortedBuckets(a[..]);
    forall i | 0 <= i < a.Length {
      a[i] := s[i];
    }
  }

  // ----- merging buckets of equal bound -----

  /** One more bucket: added to the last one if it has the same bound. */
  function Absorb(r: seq<Bucket>, b: Bucket): (r': seq<Bucket>)
    requires r != []
    ensures 0 < |r'| <= |r| + 1
  {
    var last := r[|r| - 1];
    if b.bound == last.bound then r[..|r| - 1] + [Bucket(last.bound, last.count + b.count)] else r + [b]
  }

  function Coalesced(s: seq<Bucket>): (r: seq<Bucket>)
    requires s != []
    ensures 0 < |r| <= |s|
  {
    if |s| == 1 then s else Absorb(Coalesced(s[..|s| - 1]), s[|s| - 1])
  }

  lemma AbsorbShape(r: seq<Bucket>, b: Bucket)
    requires r != []
    ensures var last, r' := r[|r| - 1], Absorb(r, b);
            && (forall m :: 0 <= m < |r| - 1 ==> r'[m] == r[m])
            && if b.bound == last.bound then |r'| == |r| && r'[|r| - 1] == last.(count := last.count + b.count)
               else |r'| == |r| + 1 && r'[|r| - 1] == last && r'[|r|] == b
  {
  }

  lemma CoalescedStep(s: seq<Bucket>, k: nat, merged: seq<Bucket>)
    requires 0 < k < |s| && merged == Coalesced(s[..k])
    ensures Coalesced(s[..k + 1]) == Absorb(merged, s[k])
  {
    assert s[..k + 1][..k] == s[..k];
  }

  /** `coalesceBuckets`: in place; the result is the first `n` elements. */
  method CoalesceBuckets(a: array<Bucket>) returns (n: nat)
    requires a.Length > 0
    modifies a
    ensures n <= a.Length && a[..n] == Coalesced(old(a[..]))
  {
    var last := a[0];
    var i := 0;
    ghost var was, merged := a[..], [last];
    for k := 1 to a.Length
      invariant 0 <= i < k && (forall m :: k <= m < a.Length ==> a[m] == was[m])
      invariant merged == Coalesced(was[..k]) && |merged| == i + 1 && merged[i] == last
      invariant forall m :: 0 <= m < i ==> a[m] == merged[m]
    {
      var b := a[k];
      CoalescedStep(was, k, merged);
      AbsorbShape(merged, b);
      merged := Absorb(merged, b);
      last, i := MergeOne(a, i, last, b);
    }
    a[i] := last;
    n := i + 1;
    assert a[..n] == merged && was[..a.Length] == was;
  }

  /** One round of that loop: `b` is merged into `last`, or `last` is written out. */
  method MergeOne(a: array<Bucket>, i: nat, last: Bucket, b: Bucket) returns (last': Bucket, i': nat)
    requires i < a.Length
    modifies a
    ensures forall m :: 0 <= m < a.Length && m != i ==> a[m] == old(a[m])
    ensures if b.bound == last.bound then i' == i && last' == last.(count := last.count + b.count)
            else i' == i + 1 && last' == b && a[i] == last
  {
    if b.bound == last.bound {
      return last.(count := last.count + b.count), i;
    }
    a[i] := last;
    return b, i + 1;
  }

  /** Count of all buckets with bound `u`. */
  function CountAt(s: seq<Bucket>, u: Bound): real {
    if s == [] then 0.0 else CountAt(s[..|s| - 1], u) + (if s[|s| - 1].bound == u then s[|s| - 1].count else 0.0)
  }

  lemma CountSnoc(s: seq<Bucket>, b: Bucket, u: Bound)
    ensures CountAt(s + [b], u) == CountAt(s, u) + (if b.bound == u then b.count else 0.0)
  {
    assert (s + [b])[..|s|] == s;
  }

  lemma AbsorbCounts(r: seq<Bucket>, b: Bucket, u: Bound)
    requires r != []
    ensures CountAt(Absorb(r, b), u) == CountAt(r, u) + (if b.bound == u then b.count else 0.0)
  {
    var init, last := r[..|r| - 1], r[|r| - 1];
    if b.bound == last.bound {
      assert r == init + [last];
      CountSnoc(init, last, u);
      CountSnoc(init, Bucket(last.bound, last.count + b.count), u);
    } else {
      CountSnoc(r, b, u);
    }
  }

  /** Merging keeps the count per distinct bound. */
  lemma {:induction false} CoalescedCounts(s: seq<Bucket>, u: Bound)
    requires s != []
    ensures CountAt(Coalesced(s), u) == CountAt(s, u)
    decreases |s|
  {
    if |s| > 1 {
      CoalescedCounts(s[..|s| - 1], u);
      AbsorbCounts(Coalesced(s[..|s| - 1]), s[|s| - 1], u);
    }
  }

  ghost predicate Distinct(s: seq<Bucket>) {
    forall i, j :: 0 <= i < j < |s| ==> Below(s[i].bound, s[j].bound)
  }

  lemma AbsorbDistinct(r: seq<Bucket>, b: Bucket)
    requires r != [] && Distinct(r) && !Below(b.bound, r[|r| - 1].bound)
    ensures Distinct(Absorb(r, b)) && Absorb(r, b)[|Absorb(r, b)| - 1].bound == b.bound
  {
  }

  /** Merging sorted buckets leaves strictly increasing bounds. */
  lemma {:induction false} CoalescedDistinct(s: seq<Bucket>)
    requires s != [] && Sorted(s)
    ensures var r := Coalesced(s); Distinct(r) && r[|r| - 1].bound == s[|s| - 1].bound
    decreases |s|
  {
    if |s| > 1 {
      CoalescedDistinct(s[..|s| - 1]);
      AbsorbDistinct(Coalesced(s[..|s| - 1]), s[|s| - 1]);
    }
  }

  // ----- making counts non-decreasing -----

  /** Whether two counts differ by rounding only; any relation will do. */
  type Near = (real, real) -> bool

  function Corrected(near: Near, prev: real, curr: real): real {
    if curr == prev then curr else if near(prev, curr) || curr < prev then prev else curr
  }

  function Envelope(s: seq<Bucket>, near: Near): (r: seq<Bucket>)
    ensures |r| == |s|
  {
    if |s| <= 1 then s else
      var r, b := Envelope(s[..|s| - 1], near), s[|s| - 1];
      r + [b.(count := Corrected(near, r[|r| - 1].count, b.count))]
  }

  /** Some count was raised to that of the bucket below. */
  predicate Forced(s: seq<Bucket>, near: Near) {
    |s| > 1 &&
    var r, curr := Envelope(s[..|s| - 1], near), s[|s| - 1].count;
    var prev := r[|r| - 1].count;
    Forced(s[..|s| - 1], near) || (curr < prev && !near(prev, curr))
  }

  /** Some count was replaced for being near that of the bucket below. */
  predicate Fixed(s: seq<Bucket>, near: Near) {
    |s| > 1 &&
    var r, curr := Envelope(s[..|s| - 1], near), s[|s| - 1].count;
    var prev := r[|r| - 1].count;
    Fixed(s[..|s| - 1], near) || (curr != prev && near(prev, curr))
  }

  lemma EnvelopeStep(s: seq<Bucket>, k: nat, near: Near, env: seq<Bucket>)
    requires 0 < k < |s| && env == Envelope(s[..k], near)
    ensures var prev, curr := env[k - 1].count, s[k].count;
            && Envelope(s[..k + 1], near) == env + [s[k].(count := Corrected(near, prev, curr))]
            && Forced(s[..k + 1], near) == (Forced(s[..k], near) || (curr < prev && !near(prev, curr)))
            && Fixed(s[..k + 1], near) == (Fixed(s[..k], near) || (curr != prev && near(prev, curr)))
  {
    assert s[..k + 1][..k] == s[..k];
  }

  /** `ensureMonotonicAndIgnoreSmallDeltas` on the first `n` elements. */
  method EnsureMonotonic(a: array<Bucket>, n: nat, near: Near) returns (forced: bool, fixed: bool)
    requires 0 < n <= a.Length
    modifies a
    ensures a[..n] == Envelope(old(a[..n]), near)
    ensures forced == Forced(old(a[..n]), near) && fixed == Fixed(old(a[..n]), near)
  {
    forced, fixed := false, false;
    var prev := a[0].count;
    ghost var was, env := a[..n], a[..1];
    for i := 1 to n
      invariant env == Envelope(was[..i], near) && prev == env[i - 1].count
      invariant forced == Forced(was[..i], near) && fixed == Fixed(was[..i], near)
      invariant (forall m :: 0 <= m < i ==> a[m] == env[m]) && (forall m :: i <= m < n ==> a[m] == was[m])
    {
      EnvelopeStep(was, i, near, env);
      env := env + [was[i].(count := Corrected(near, prev, was[i].count))];
      var raised, near';
      prev, raised, near' := CorrectOne(a, i, prev, near);
      forced, fixed := forced || raised, fixed || near';
    }
    assert was[..n] == was && a[..n] == env;
  }

  /** One round of that loop. */
  method CorrectOne(a: array<Bucket>, i: nat, prev: real, near: Near) returns (next: real, forced: bool, fixed: bool)
    requires i < a.Length
    modifies a
    ensures next == Corrected(near, prev, old(a[i].count)) && a[i] == old(a[i]).(count := next)
    ensures forall m :: 0 <= m < a.Length && m != i ==> a[m] == old(a[m])
    ensures forced == (old(a[i].count) < prev && !near(prev, old(a[i].count)))
    ensures fixed == (old(a[i].count) != prev && near(prev, old(a[i].count)))
  {
    forced, fixed := false, false;
    var curr := a[i].count;
    if curr == prev {
      return prev, false, false;
    }
    if near(prev, curr) {
      a[i] := a[i].(count := prev);
      return prev, false, true;
    }
    if curr < prev {
      a[i] := a[i].(count := prev);
      return prev, true, false;
    }
    next := curr;
  }

  /** Each count is raised to the one below if it is less or nearly the same, and else kept. */
  lemma {:induction false} EnvelopeAt(s: seq<Bucket>, near: Near, i: nat)
    requires i < |s|
    ensures Envelope(s, near)[i].bound == s[i].bound
    ensures Envelope(s, near)[i].count
            == if i > 0 && (s[i].count < Envelope(s, near)[i - 1].count || near(Envelope(s, near)[i - 1].count, s[i].count))
               then Envelope(s, near)[i - 1].count else s[i].count
    decreases |s|
  {
    if i < |s| - 1 {
      EnvelopeAt(s[..|s| - 1], near, i);
    }
  }

  /** Count `i` was corrected, for being less or for being nearly the same. */
  predicate CorrectedAt(s: seq<Bucket>, near: Near, i: nat, small: bool) {
    0 < i < |s| &&
    var prev := Envelope(s, near)[i - 1].count;
    if small then s[i].count != prev && near(prev, s[i].count) else s[i].count < prev && !near(prev, s[i].count)
  }

  /** Which flag reports which correction. */
  lemma {:induction false} FlagsMean(s: seq<Bucket>, near: Near)
    ensures Forced(s, near) <==> exists i: nat :: CorrectedAt(s, near, i, false)
    ensures Fixed(s, near) <==> exists i: nat :: CorrectedAt(s, near, i, true)
    decreases |s|
  {
    if |s| > 1 {
      var init, last := s[..|s| - 1], |s| - 1;
      FlagsMean(init, near);
      forall i: nat, small: bool | i < last ensures CorrectedAt(init, near, i, small) <==> CorrectedAt(s, near, i, small) {
        assert Envelope(s, near)[..last] == Envelope(init, near);
      }
      var prev, curr := Envelope(init, near)[last - 1].count, s[last].count;
      assert CorrectedAt(s, near, last, false) <==> curr < prev && !near(prev, curr);
      assert CorrectedAt(s, near, last, true) <==> curr != prev && near(prev, curr);
    }
  }

  /** The flags are exact: neither is set if and only if nothing was changed. */
  lemma {:induction false} FlagsExact(s: seq<Bucket>, near: Near)
    ensures !Forced(s, near) && !Fixed(s, near) <==> Envelope(s, near) == s
    decreases |s|
  {
    if |s| > 1 {
      var init := s[..|s| - 1];
      FlagsExact(init, near);
      assert s == init + [s[|s| - 1]];
      assert Envelope(s, near)[..|s| - 1] == Envelope(init, near);
    }
  }

  ghost predicate NonDecreasing(s: seq<Bucket>) {
    forall i, j :: 0 <= i <= j < |s| ==> s[i].count <= s[j].count
  }

  lemma {:induction false} EnvelopeNonDecreasing(s: seq<Bucket>, near: Near)
    ensures NonDecreasing(Envelope(s, near))
    ensures forall i :: 0 <= i < |s| ==> Envelope(s, near)[i].bound == s[i].bound
    decreases |s|
  {
    if |s| > 1 {
      EnvelopeNonDecreasing(s[..|s| - 1], near);
    }
  }

  lemma EnvelopeSnoc(s: seq<Bucket>, b: Bucket, near: Near)
    requires s != []
    ensures var r := Envelope(s, near);
            Envelope(s + [b], near) == r + [b.(count := Corrected(near, r[|r| - 1].count, b.count))]
  {
    var t := s + [b];
    assert t[..|t| - 1] == s && t[|t| - 1] == b;
  }

  lemma CorrectedTwice(near: Near, prev: real, curr: real)
    ensures Corrected(near, prev, Corrected(near, prev, curr)) == Corrected(near, prev, curr)
  {
  }

  /** A second pass changes nothing, whatever the tolerance. */
  lemma {:induction false} EnvelopeIdempotent(s: seq<Bucket>, near: Near)
    ensures Envelope(Envelope(s, near), near) == Envelope(s, near)
    decreases |s|
  {
    if |s| > 1 {
      var init, b := s[..|s| - 1], s[|s| - 1];
      assert s == init + [b];
      EnvelopeIdempotent(init, near);
      EnvelopeAgain(init, b, near);
    }
  }

  lemma EnvelopeAgain(init: seq<Bucket>, b: Bucket, near: Near)
    requires init != [] && Envelope(Envelope(init, near), near) == Envelope(init, near)
    ensures Envelope(Envelope(init + [b], near), near) == Envelope(init + [b], near)
  {
    var r := Envelope(init, near);
    var prev := r[|r| - 1].count;
    var b' := b.(count := Corrected(near, prev, b.count));
    EnvelopeSnoc(init, b, near);
    EnvelopeSnoc(r, b', near);
    CorrectedTwice(near, prev, b.count);
  }

  /** Without tolerance it is the running maximum: the least non-decreasing counts above the given ones. */
  lemma {:induction false} EnvelopeIsMax(s: seq<Bucket>, near: Near, i: nat)
    requires i < |s| && forall x, y :: !near(x, y)
    ensures forall k :: 0 <= k <= i ==> s[k].count <= Envelope(s, near)[i].count
    ensures exists k :: 0 <= k <= i && s[k].count == Envelope(s, near)[i].count
    decreases |s|
  {
    var r := Envelope(s, near);
    if |s| == 1 {
      assert s[0].count == r[0].count;
    } else {
      var init := s[..|s| - 1];
      EnvelopeIsMax(init, near, if i < |init| then i else |init| - 1);
      assert forall k :: 0 <= k < |init| ==> init[k] == s[k];
      if i == |s| - 1 && s[i].count >= r[i - 1].count {
        assert s[i].count == r[i].count;
      }
    }
  }

  // ----- finding the bucket -----

  /** The first of the lower buckets that reaches `rank`, or the highest bucket. */
  ghost predicate Reaches(s: seq<Bucket>, rank: real, b: nat) {
    && s != [] && b < |s|
    && (forall i :: 0 <= i < b ==> s[i].count < rank)
    && (b < |s| - 1 ==> s[b].count >= rank)
  }

  /** `sort.Search`: binary search. */
  method Search(a: array<Bucket>, n: nat, rank: real) returns (b: nat)
    requires 0 < n <= a.Length && NonDecreasing(a[..n])
    ensures Reaches(a[..n], rank, b)
  {
    var i, j := 0, n - 1;
    while i < j
      invariant 0 <= i <= j <= n - 1
      invariant forall k :: 0 <= k < i ==> a[..n][k].count < rank
      invariant forall k :: j <= k < n - 1 ==> a[..n][k].count >= rank
    {
      var h := (i + j) / 2;
      assert a[h] == a[..n][h];
      if a[h].count < rank {
        assert forall k :: 0 <= k <= h ==> a[..n][k].count <= a[..n][h].count;
        i := h + 1;
      } else {
        assert forall k :: h <= k < n ==> a[..n][h].count <= a[..n][k].count;
        j := h;
      }
    }
    b := i;
  }

  lemma ReachesOne(s: seq<Bucket>, rank: real, b: nat, b': nat)
    requires Reaches(s, rank, b) && Reaches(s, rank, b')
    ensures b == b'
  {
  }

  // ----- interpolating -----

  /** Where bucket `b` starts, by value and by count. */
  function StartOf(s: seq<Bucket>, b: nat): (real, real)
    requires b < |s| && (b > 0 ==> s[b - 1].bound.Fin?)
  {
    if b > 0 then (s[b - 1].bound.r, s[b - 1].count) else (0.0, 0.0)
  }

  /** `start + (end - start) * (rank / count)`, with a zero count dividing as floats do. */
  function Interpolated(start: real, end: real, rank: real, count: real): Float {
    if count != 0.0 then Finite(start + (end - start) * (rank / count))
    else if rank == 0.0 || start == end then NaN
    else if (rank > 0.0) == (end > start) then PosInf
    else NegInf
  }

  /** Quantile at `rank`, which bucket `b` reaches. */
  function AtRank(s: seq<Bucket>, rank: real, b: nat): Float
    requires |s| >= 2 && b < |s| && forall i :: 0 <= i < |s| - 1 ==> s[i].bound.Fin?
  {
    if b == |s| - 1 then Finite(s[|s| - 2].bound.r)
    else if b == 0 && s[0].bound.r <= 0.0 then Finite(s[0].bound.r)
    else
      var (start, below) := StartOf(s, b);
      Interpolated(start, s[b].bound.r, rank - below, s[b].count - below)
  }

  /** Buckets as they are when the search begins. */
  ghost predicate Ready(s: seq<Bucket>) {
    s != [] && Distinct(s) && s[|s| - 1].bound.Inf? && NonDecreasing(s)
  }

  function Prepared(s: seq<Bucket>, near: Near): seq<Bucket>
    requires s != []
  {
    Envelope(Coalesced(SortedBuckets(s)), near)
  }

  lemma EnvelopeReady(s: seq<Bucket>, near: Near)
    requires s != [] && Distinct(s) && s[|s| - 1].bound.Inf?
    ensures Ready(Envelope(s, near))
  {
    EnvelopeNonDecreasing(s, near);
    var r := Envelope(s, near);
    forall i, j | 0 <= i < j < |r| ensures Below(r[i].bound, r[j].bound) {
      assert Below(s[i].bound, s[j].bound);
    }
  }

  lemma PreparedReady(s: seq<Bucket>, near: Near)
    requires s != [] && SortedBuckets(s)[|s| - 1].bound.Inf?
    ensures Ready(Prepared(s, near))
  {
    SortSorts(s);
    SortedReady(SortedBuckets(s), near);
  }

  lemma SortedReady(t: seq<Bucket>, near: Near)
    requires t != [] && Sorted(t) && t[|t| - 1].bound.Inf?
    ensures Ready(Envelope(Coalesced(t), near))
  {
    CoalescedDistinct(t);
    DistinctReady(Coalesced(t), near);
  }

  lemma DistinctReady(r: seq<Bucket>, near: Near)
    requires r != [] && Distinct(r) && r[|r| - 1].bound.Inf?
    ensures Ready(Envelope(r, near))
  {
    EnvelopeReady(r, near);
  }

  function FirstReach(s: seq<Bucket>, rank: real, i: nat): nat
    requires s != [] && i < |s|
    decreases |s| - i
  {
    if i == |s| - 1 || s[i].count >= rank then i else FirstReach(s, rank, i + 1)
  }

  lemma {:induction false} FirstReaches(s: seq<Bucket>, rank: real, i: nat)
    requires s != [] && i < |s| && forall k :: 0 <= k < i ==> s[k].count < rank
    ensures Reaches(s, rank, FirstReach(s, rank, i))
    decreases |s| - i
  {
    if !(i == |s| - 1 || s[i].count >= rank) {
      FirstReaches(s, rank, i + 1);
    }
  }

  /** The number of observations below the `q`-quantile. */
  function Rank(p: seq<Bucket>, q: real): real
    requires p != []
  {
    q * p[|p| - 1].count
  }

  /** The `q`-quantile of buckets that are ready for the search. */
  function QuantileOf(p: seq<Bucket>, q: real): Float
    requires p != [] && forall i :: 0 <= i < |p| - 1 ==> p[i].bound.Fin?
  {
    if |p| < 2 || p[|p| - 1].count == 0.0 then NaN else
      FirstReaches(p, Rank(p, q), 0);
      AtRank(p, Rank(p, q), FirstReach(p, Rank(p, q), 0))
  }

  /** What `BucketQuantile` returns for a quantile in `[0, 1]`. */
  function InUnit(q: real, s: seq<Bucket>, near: Near): Float
    requires s != []
  {
    if !SortedBuckets(s)[|s| - 1].bound.Inf? then NaN
    else
      PreparedReady(s, near);
      QuantileOf(Prepared(s, near), q)
  }

  function Spec(q: Float, s: seq<Bucket>, near: Near): Float
    requires s != []
  {
    match q
    case NaN => NaN
    case StaleNaN => NaN
    case NegInf => NegInf
    case PosInf => PosInf
    case Finite(x) => if x < 0.0 then NegInf else if x > 1.0 then PosInf else InUnit(x, s, near)
  }

  /** The search was reached, so that the corrections made on the way are reported. */
  predicate Searched(s: seq<Bucket>, near: Near)
    requires s != []
  {
    && SortedBuckets(s)[|s| - 1].bound.Inf?
    && var p := Prepared(s, near); |p| >= 2 && p[|p| - 1].count != 0.0
  }

  /** `BucketQuantile`. Like the code, it needs at least one bucket. */
  method BucketQuantile(q: Float, a: array<Bucket>, near: Near) returns (r: Float, forced: bool, fixed: bool)
    requires a.Length > 0
    modifies a
    ensures r == Spec(q, old(a[..]), near)
    ensures q.NaN? || q.StaleNaN? ==> r == NaN
    ensures q.NegInf? || (q.Finite? && q.r < 0.0) ==> r == NegInf
    ensures q.PosInf? || (q.Finite? && q.r > 1.0) ==> r == PosInf
    ensures q.Finite? && 0.0 <= q.r <= 1.0 && r.Finite? && NonNegative(old(a[..])) ==>
              IsQuantile(Prepared(old(a[..]), near), q.r, r.r)
    ensures var merged := Coalesced(SortedBuckets(old(a[..])));
            var reported := q.Finite? && 0.0 <= q.r <= 1.0 && Searched(old(a[..]), near);
            forced == (reported && Forced(merged, near)) && fixed == (reported && Fixed(merged, near))
  {
    match q
    case NaN => return NaN, false, false;
    case StaleNaN => return NaN, false, false;
    case NegInf => return NegInf, false, false;
    case PosInf => return PosInf, false, false;
    case Finite(x) =>
      if x < 0.0 {
        return NegInf, false, false;
      }
      if x > 1.0 {
        return PosInf, false, false;
      }
      ghost var s := a[..];
      r, forced, fixed := QuantileInUnit(x, a, near);
      if r.Finite? && NonNegative(s) {
        InUnitIsQuantile(x, s, near);
      }
  }

  method QuantileInUnit(q: real, a: array<Bucket>, near: Near) returns (r: Float, forced: bool, fixed: bool)
    requires a.Length > 0
    modifies a
    ensures r == InUnit(q, old(a[..]), near)
    ensures var merged := Coalesced(SortedBuckets(old(a[..])));
            && forced == (Searched(old(a[..]), near) && Forced(merged, near))
            && fixed == (Searched(old(a[..]), near) && Fixed(merged, near))
  {
    ghost var s := a[..];
    SortInPlace(a);
    ghost var sorted := SortedBuckets(s);
    assert sorted[a.Length - 1] == a[a.Length - 1];
    if !a[a.Length - 1].bound.Inf? {
      return NaN, false, false;
    }
    var n := CoalesceBuckets(a);
    forced, fixed := EnsureMonotonic(a, n, near);
    PreparedReady(s, near);
    assert a[..n] == Prepared(s, near);
    r := Locate(q, a, n);
    assert a[n - 1] == Prepared(s, near)[n - 1];
    if n < 2 || a[n - 1].count == 0.0 {
      forced, fixed := false, false;
    }
  }

  /** The search and the interpolation. */
  method Locate(q: real, a: array<Bucket>, n: nat) returns (r: Float)
    requires 0 < n <= a.Length && Ready(a[..n])
    ensures r == QuantileOf(a[..n], q)
  {
    ghost var p := a[..n];
    if n < 2 {
      return NaN;
    }
    assert a[n - 1] == p[n - 1];
    var observations := a[n - 1].count;
    if observations == 0.0 {
      return NaN;
    }
    var rank := q * observations;
    assert rank == Rank(p, q);
    var b := Search(a, n, rank);
    FirstReaches(p, rank, 0);
    ReachesOne(p, rank, b, FirstReach(p, rank, 0));
    r := ReadOff(a, n, rank, b);
  }

  /** The end of `BucketQuantile`. */
  method ReadOff(a: array<Bucket>, n: nat, rank0: real, b: nat) returns (r: Float)
    requires 2 <= n <= a.Length && b < n && forall i :: 0 <= i < n - 1 ==> a[..n][i].bound.Fin?
    ensures r == AtRank(a[..n], rank0, b)
  {
    assert forall i :: 0 <= i < n ==> a[..n][i] == a[i];
    if b == n - 1 {
      return Finite(a[n - 2].bound.r);
    }
    if b == 0 && a[0].bound.r <= 0.0 {
      return Finite(a[0].bound.r);
    }
    var start, end, count, rank := 0.0, a[b].bound.r, a[b].count, rank0;
    if b > 0 {
      start := a[b - 1].bound.r;
      count := count - a[b - 1].count;
      rank := rank - a[b - 1].count;
    }
    r := Interpolated(start, end, rank, count);
  }

  // ----- what the quantile is -----

  ghost predicate NonNegative(s: seq<Bucket>) {
    forall i :: 0 <= i < |s| ==> s[i].count >= 0.0
  }

  lemma Fraction(x: real, t: real)
    requires x >= 0.0 && 0.0 <= t <= 1.0
    ensures 0.0 <= x * t <= x
    ensures x > 0.0 && t > 0.0 ==> x * t > 0.0
  {
  }

  lemma ScaledOrder(x: real, t: real, t': real)
    requires x >= 0.0 && t <= t'
    ensures x * t <= x * t'
  {
  }

  lemma Ratio(r: real, c: real)
    requires 0.0 <= r <= c && 0.0 < c
    ensures 0.0 <= r / c <= 1.0 && (r > 0.0 ==> r / c > 0.0) && (r / c) * c == r
  {
  }

  lemma RatioOrder(r: real, r': real, c: real)
    requires r <= r' && 0.0 < c
    ensures r / c <= r' / c
  {
  }

  /** The bucket's own ends: the lowest one starts at 0 if it ends above. */
  lemma BucketEnds(p: seq<Bucket>, b: nat)
    requires Ready(p) && b < |p| - 1 && (b == 0 ==> p[0].bound.r > 0.0)
    ensures StartOf(p, b).0 < p[b].bound.r
  {
    assert b > 0 ==> Below(p[b - 1].bound, p[b].bound);
  }

  /** `rank` falls into bucket `b`, which is not the highest and not a lowest one below zero. */
  ghost predicate Inside(p: seq<Bucket>, rank: real, b: nat) {
    && Ready(p) && NonNegative(p) && |p| >= 2 && 0.0 <= rank && Reaches(p, rank, b)
    && b < |p| - 1 && (b == 0 ==> p[0].bound.r > 0.0)
  }

  /** Interpolation stays inside the bucket; only rank 0 in an empty lowest bucket has no value. */
  lemma InterpolationInside(p: seq<Bucket>, rank: real, b: nat)
    requires Inside(p, rank, b)
    ensures rank == 0.0 && p[b].count == 0.0 ==> AtRank(p, rank, b) == NaN
    ensures !(rank == 0.0 && p[b].count == 0.0) ==>
              && AtRank(p, rank, b).Finite?
              && StartOf(p, b).0 <= AtRank(p, rank, b).r <= p[b].bound.r
              && (rank > 0.0 ==> StartOf(p, b).0 < AtRank(p, rank, b).r)
  {
    var (start, below) := StartOf(p, b);
    var r, c := rank - below, p[b].count - below;
    BucketEnds(p, b);
    if c > 0.0 {
      BetweenEnds(start, p[b].bound.r, r, c);
    }
  }

  /** A point at the share `r` of `c` between two ends lies between them. */
  lemma BetweenEnds(start: real, end: real, r: real, c: real)
    requires start < end && 0.0 <= r <= c && 0.0 < c
    ensures start <= start + (end - start) * (r / c) <= end
    ensures r > 0.0 ==> start < start + (end - start) * (r / c)
  {
    Ratio(r, c);
    Fraction(end - start, r / c);
  }

  /** How many observations lie below `x`, spread evenly over bucket `b`. */
  function CumulativeIn(p: seq<Bucket>, b: nat, x: real): real
    requires b < |p| && p[b].bound.Fin? && (b > 0 ==> p[b - 1].bound.Fin?) && StartOf(p, b).0 < p[b].bound.r
  {
    var (start, below) := StartOf(p, b);
    below + (x - start) / (p[b].bound.r - start) * (p[b].count - below)
  }

  lemma Unscale(w: real, t: real, c: real)
    requires w > 0.0
    ensures (w * t) / w * c == t * c
  {
    assert (w * t) / w == t;
  }

  /** The quantile is the inverse of the interpolated cumulative count, and `b` is the bucket it lies in. */
  lemma QuantileInverts(p: seq<Bucket>, rank: real, b: nat)
    requires Inside(p, rank, b) && rank > 0.0
    ensures StartOf(p, b).0 < p[b].bound.r && AtRank(p, rank, b).Finite?
    ensures var v := AtRank(p, rank, b).r;
            && CumulativeIn(p, b, v) == rank
            && v <= p[b].bound.r && forall i :: 0 <= i < b ==> p[i].bound.r < v
  {
    var (start, below) := StartOf(p, b);
    var r, c, w := rank - below, p[b].count - below, p[b].bound.r - start;
    BucketEnds(p, b);
    InterpolationInside(p, rank, b);
    Ratio(r, c);
    Unscale(w, r / c, c);
    var v := AtRank(p, rank, b).r;
    assert v - start == w * (r / c);
    forall i | 0 <= i < b ensures p[i].bound.r < v {
      assert i < b - 1 ==> Below(p[i].bound, p[b - 1].bound);
    }
  }

  lemma ReachesLater(p: seq<Bucket>, rank: real, b: nat, rank': real, b': nat)
    requires Reaches(p, rank, b) && Reaches(p, rank', b') && rank <= rank'
    ensures b <= b'
  {
  }

  lemma InterpolatedOrder(start: real, end: real, r: real, r': real, c: real)
    requires start <= end && r <= r' && c > 0.0
    ensures Interpolated(start, end, r, c).Finite? && Interpolated(start, end, r', c).Finite?
    ensures Interpolated(start, end, r, c).r <= Interpolated(start, end, r', c).r
  {
    RatioOrder(r, r', c);
    ScaledOrder(end - start, r / c, r' / c);
  }

  lemma SameBucketOrder(p: seq<Bucket>, rank: real, rank': real, b: nat)
    requires Inside(p, rank, b) && Inside(p, rank', b) && rank <= rank' && AtRank(p, rank, b).Finite? && AtRank(p, rank', b).Finite?
    ensures AtRank(p, rank, b).r <= AtRank(p, rank', b).r
  {
    var (start, below) := StartOf(p, b);
    BucketEnds(p, b);
    InterpolatedOrder(start, p[b].bound.r, rank - below, rank' - below, p[b].count - below);
  }

  /** The value lies between the bound below bucket `b` and the bound of bucket `b`. */
  lemma ValueBounds(p: seq<Bucket>, rank: real, b: nat)
    requires Ready(p) && NonNegative(p) && |p| >= 2 && 0.0 <= rank && Reaches(p, rank, b) && AtRank(p, rank, b).Finite?
    ensures b < |p| - 1 ==> AtRank(p, rank, b).r <= p[b].bound.r
    ensures b > 0 ==> p[b - 1].bound.r <= AtRank(p, rank, b).r
  {
    if b < |p| - 1 && !(b == 0 && p[0].bound.r <= 0.0) {
      InterpolationInside(p, rank, b);
    }
  }

  /** A higher rank never gives a lower value. */
  lemma RankMonotone(p: seq<Bucket>, rank: real, b: nat, rank': real, b': nat)
    requires Ready(p) && NonNegative(p) && |p| >= 2 && 0.0 <= rank <= rank'
    requires Reaches(p, rank, b) && Reaches(p, rank', b')
    requires AtRank(p, rank, b).Finite? && AtRank(p, rank', b').Finite?
    ensures AtRank(p, rank, b).r <= AtRank(p, rank', b').r
  {
    ReachesLater(p, rank, b, rank', b');
    if b < b' {
      ValueBounds(p, rank, b);
      ValueBounds(p, rank', b');
      assert b < b' - 1 ==> Below(p[b].bound, p[b' - 1].bound);
    } else if b < |p| - 1 && !(b == 0 && p[0].bound.r <= 0.0) {
      SameBucketOrder(p, rank, rank', b);
    }
  }

  // ----- the quantile in terms of q -----

  /**
   * The observations up to `v`, spread evenly over bucket `b`, are `target`: the ratio of the
   * distances to the bucket's lower end is that of the counts. The lowest bucket starts at 0.
   */
  predicate Splits(p: seq<Bucket>, target: real, v: real, b: nat)
    requires b < |p| && p[b].bound.Fin? && (b > 0 ==> p[b - 1].bound.Fin?)
  {
    var start, below := if b == 0 then 0.0 else p[b - 1].bound.r, if b == 0 then 0.0 else p[b - 1].count;
    && start <= v <= p[b].bound.r
    && (v - start) * (p[b].count - below) == (p[b].bound.r - start) * (target - below)
  }

  /** `v` is the value in bucket `b` up to which there are `target` observations. */
  ghost predicate IsIn(p: seq<Bucket>, target: real, v: real, b: nat) {
    && |p| >= 2 && b < |p| && (forall i :: 0 <= i < |p| - 1 ==> p[i].bound.Fin?)
    && (forall i :: 0 <= i < b ==> p[i].count < target)
    && if b == |p| - 1 then p[|p| - 2].count < target && v == p[|p| - 2].bound.r
       else
         && target <= p[b].count
         && if b == 0 && p[0].bound.r <= 0.0 then v == p[0].bound.r else Splits(p, target, v, b)
  }

  ghost predicate IsAt(p: seq<Bucket>, target: real, v: real) {
    exists b :: IsIn(p, target, v, b)
  }

  /** `v` is the `q`-quantile: up to it there is the share `q` of all observations. */
  ghost predicate IsQuantile(p: seq<Bucket>, q: real, v: real) {
    p != [] && IsAt(p, q * p[|p| - 1].count, v)
  }

  lemma Shares(start: real, end: real, r: real, c: real, v: real)
    requires c != 0.0 && v == start + (end - start) * (r / c)
    ensures (v - start) * c == (end - start) * r
  {
    var w, t := end - start, r / c;
    assert t * c == r;
    assert (w * t) * c == w * (t * c);
  }

  lemma RankIsIn(p: seq<Bucket>, rank: real, b: nat)
    requires Ready(p) && NonNegative(p) && |p| >= 2 && 0.0 <= rank && Reaches(p, rank, b) && AtRank(p, rank, b).Finite?
    ensures IsIn(p, rank, AtRank(p, rank, b).r, b)
  {
    if b < |p| - 1 && !(b == 0 && p[0].bound.r <= 0.0) {
      var (start, below) := StartOf(p, b);
      InterpolationInside(p, rank, b);
      Shares(start, p[b].bound.r, rank - below, p[b].count - below, AtRank(p, rank, b).r);
    }
  }

  lemma ReadyIsQuantile(p: seq<Bucket>, q: real, target: real)
    requires Ready(p) && NonNegative(p) && 0.0 <= q && QuantileOf(p, q).Finite? && target == q * p[|p| - 1].count
    ensures IsAt(p, target, QuantileOf(p, q).r)
  {
    RankSign(p, q);
    FirstReaches(p, target, 0);
    RankIsIn(p, target, FirstReach(p, target, 0));
  }

  lemma QuantileOfIsQuantile(p: seq<Bucket>, q: real)
    requires Ready(p) && NonNegative(p) && 0.0 <= q && QuantileOf(p, q).Finite?
    ensures IsQuantile(p, q, QuantileOf(p, q).r)
  {
    ReadyIsQuantile(p, q, q * p[|p| - 1].count);
  }

  /** A value that is returned for a quantile in `[0, 1]` is that quantile. */
  lemma InUnitIsQuantile(q: real, s: seq<Bucket>, near: Near)
    requires s != [] && NonNegative(s) && 0.0 <= q && InUnit(q, s, near).Finite?
    ensures IsQuantile(Prepared(s, near), q, InUnit(q, s, near).r)
  {
    var p := Prepared(s, near);
    PreparedReady(s, near);
    PreparedNonNegative(s, near);
    assert InUnit(q, s, near) == QuantileOf(p, q);
    QuantileOfIsQuantile(p, q);
  }

  // ----- from the buckets as given -----

  lemma {:induction false} CoalescedNonNegative(s: seq<Bucket>)
    requires s != [] && NonNegative(s)
    ensures NonNegative(Coalesced(s))
    decreases |s|
  {
    if |s| > 1 {
      CoalescedNonNegative(s[..|s| - 1]);
    }
  }

  lemma {:induction false} EnvelopeNonNegative(s: seq<Bucket>, near: Near)
    requires NonNegative(s)
    ensures NonNegative(Envelope(s, near))
    decreases |s|
  {
    if |s| > 1 {
      EnvelopeNonNegative(s[..|s| - 1], near);
    }
  }

  lemma PreparedNonNegative(s: seq<Bucket>, near: Near)
    requires s != [] && NonNegative(s)
    ensures NonNegative(Prepared(s, near))
  {
    SortSorts(s);
    var r := SortedBuckets(s);
    forall i | 0 <= i < |r| ensures r[i].count >= 0.0 {
      assert r[i] in multiset(r);
      assert r[i] in s;
    }
    CoalescedNonNegative(r);
    EnvelopeNonNegative(Coalesced(r), near);
  }

  /** There is an observation, and the lowest bucket is not empty, or ends at zero or below, or the quantile is above 0. */
  predicate ReadyHasValue(p: seq<Bucket>, q: real)
    requires |p| >= 2
  {
    p[|p| - 1].count > 0.0 && !(q == 0.0 && p[0].count == 0.0 && p[0].bound.Fin? && p[0].bound.r > 0.0)
  }

  lemma RankSign(p: seq<Bucket>, q: real)
    requires p != [] && 0.0 <= q && p[|p| - 1].count > 0.0
    ensures Rank(p, q) >= 0.0 && (Rank(p, q) == 0.0 <==> q == 0.0)
  {
  }

  lemma RankOrder(p: seq<Bucket>, q: real, q': real)
    requires p != [] && q <= q' && p[|p| - 1].count > 0.0
    ensures Rank(p, q) <= Rank(p, q')
  {
    ScaledOrder(p[|p| - 1].count, q, q');
  }

  lemma ReadyValueOrNaN(p: seq<Bucket>, q: real)
    requires Ready(p) && NonNegative(p) && 0.0 <= q <= 1.0
    ensures if |p| >= 2 && ReadyHasValue(p, q) then QuantileOf(p, q).Finite? else QuantileOf(p, q) == NaN
  {
    if |p| >= 2 && p[|p| - 1].count != 0.0 {
      var rank := Rank(p, q);
      RankSign(p, q);
      FirstReaches(p, rank, 0);
      var b := FirstReach(p, rank, 0);
      assert rank == 0.0 ==> b == 0;
      assert p[0].bound.Fin?;
      if b < |p| - 1 && !(b == 0 && p[0].bound.r <= 0.0) {
        InterpolationInside(p, rank, b);
      }
    }
  }

  lemma ReadyMonotone(p: seq<Bucket>, q: real, q': real)
    requires Ready(p) && NonNegative(p) && 0.0 <= q <= q' <= 1.0
    requires QuantileOf(p, q).Finite? && QuantileOf(p, q').Finite?
    ensures QuantileOf(p, q).r <= QuantileOf(p, q').r
  {
    var rank, rank' := Rank(p, q), Rank(p, q');
    RankSign(p, q);
    RankOrder(p, q, q');
    FirstReaches(p, rank, 0);
    FirstReaches(p, rank', 0);
    RankMonotone(p, rank, FirstReach(p, rank, 0), rank', FirstReach(p, rank', 0));
  }

  // ----- the given buckets -----

  /** `u` is the least of the bounds. */
  ghost predicate Least(s: seq<Bucket>, u: Bound) {
    (exists i :: 0 <= i < |s| && s[i].bound == u) && forall i :: 0 <= i < |s| ==> !Below(s[i].bound, u)
  }

  /** The lowest of the given buckets end above zero, and all of them are empty. */
  ghost predicate EmptyLowest(s: seq<Bucket>) {
    exists u: real :: u > 0.0 && Least(s, Fin(u)) && CountAt(s, Fin(u)) == 0.0
  }

  ghost predicate TwoBounds(s: seq<Bucket>) {
    exists i, j :: 0 <= i < |s| && 0 <= j < |s| && s[i].bound != s[j].bound
  }

  /** An observation is left when counts that differ by rounding only are made equal. */
  predicate Observed(s: seq<Bucket>, near: Near)
    requires s != []
  {
    var p := Prepared(s, near);
    p[|p| - 1].count > 0.0
  }

  lemma {:induction false} InsertCounts(s: seq<Bucket>, x: Bucket, u: Bound)
    ensures CountAt(Insert(s, x), u) == CountAt(s, u) + (if x.bound == u then x.count else 0.0)
    decreases |s|
  {
    if s == [] || !Below(x.bound, s[|s| - 1].bound) {
      CountSnoc(s, x, u);
    } else {
      var init, last := s[..|s| - 1], s[|s| - 1];
      InsertCounts(init, x, u);
      CountSnoc(Insert(init, x), last, u);
    }
  }

  lemma {:induction false} SortCounts(s: seq<Bucket>, u: Bound)
    ensures CountAt(SortedBuckets(s), u) == CountAt(s, u)
    decreases |s|
  {
    if s != [] {
      var init, last := s[..|s| - 1], s[|s| - 1];
      SortCounts(init, u);
      InsertCounts(SortedBuckets(init), last, u);
    }
  }

  lemma {:induction false} CoalescedFirst(s: seq<Bucket>)
    requires s != []
    ensures Coalesced(s)[0].bound == s[0].bound
    ensures |Coalesced(s)| == 1 <==> forall i :: 0 <= i < |s| ==> s[i].bound == s[0].bound
    decreases |s|
  {
    if |s| > 1 {
      var init := s[..|s| - 1];
      CoalescedFirst(init);
      AbsorbShape(Coalesced(init), s[|s| - 1]);
      assert forall i :: 0 <= i < |init| ==> init[i] == s[i];
    }
  }

  lemma {:induction false} DistinctFirst(s: seq<Bucket>)
    requires s != [] && Distinct(s)
    ensures CountAt(s, s[0].bound) == s[0].count
    decreases |s|
  {
    if |s| > 1 {
      DistinctFirst(s[..|s| - 1]);
      assert Below(s[0].bound, s[|s| - 1].bound);
    } else {
      assert s[..0] == [];
    }
  }

  lemma {:induction false} EnvelopeFirst(s: seq<Bucket>, near: Near)
    requires s != []
    ensures Envelope(s, near)[0] == s[0]
    decreases |s|
  {
    if |s| > 1 {
      EnvelopeFirst(s[..|s| - 1], near);
    }
  }

  /** The first of sorted buckets has the least bound. */
  lemma SortedLeast(s: seq<Bucket>)
    requires s != []
    ensures Least(s, SortedBuckets(s)[0].bound)
  {
    SortSorts(s);
    var t := SortedBuckets(s);
    assert t[0] in multiset(t) && t[0] in s;
    forall i | 0 <= i < |s| ensures !Below(s[i].bound, t[0].bound) {
      assert s[i] in multiset(s) && s[i] in t;
    }
  }

  /** The lowest bucket after preparation, in terms of the given ones. */
  lemma PreparedLowest(s: seq<Bucket>, near: Near)
    requires s != []
    ensures var low := Prepared(s, near)[0]; Least(s, low.bound) && low.count == CountAt(s, low.bound)
  {
    var t := SortedBuckets(s);
    var r := Coalesced(t);
    SortedLeast(s);
    CoalescedFirst(t);
    EnvelopeFirst(r, near);
    assert CountAt(r, r[0].bound) == r[0].count by {
      SortSorts(s);
      CoalescedDistinct(t);
      DistinctFirst(r);
    }
    CoalescedCounts(t, r[0].bound);
    SortCounts(s, r[0].bound);
  }

  lemma PreparedTwo(s: seq<Bucket>, near: Near)
    requires s != []
    ensures |Prepared(s, near)| >= 2 <==> TwoBounds(s)
  {
    var t := SortedBuckets(s);
    SortSorts(s);
    CoalescedFirst(t);
    if TwoBounds(s) {
      var i, j :| 0 <= i < |s| && 0 <= j < |s| && s[i].bound != s[j].bound;
      assert s[i] in multiset(s) && s[j] in multiset(s) && s[i] in t && s[j] in t;
    } else {
      forall i | 0 <= i < |t| ensures t[i].bound == t[0].bound {
        assert t[i] in multiset(t) && t[0] in multiset(t) && t[i] in s && t[0] in s;
      }
    }
  }

  lemma LeastIsUnique(s: seq<Bucket>, u: Bound, v: Bound)
    requires Least(s, u) && Least(s, v)
    ensures u == v
  {
    var i, j :| 0 <= i < |s| && 0 <= j < |s| && s[i].bound == u && s[j].bound == v;
    assert !Below(s[i].bound, v) && !Below(s[j].bound, u);
  }

  lemma LowestIsEmpty(s: seq<Bucket>, near: Near)
    requires s != []
    ensures var low := Prepared(s, near)[0];
            EmptyLowest(s) <==> low.count == 0.0 && low.bound.Fin? && low.bound.r > 0.0
  {
    PreparedLowest(s, near);
    var low := Prepared(s, near)[0];
    if EmptyLowest(s) {
      var u: real :| u > 0.0 && Least(s, Fin(u)) && CountAt(s, Fin(u)) == 0.0;
      LeastIsUnique(s, Fin(u), low.bound);
    } else if low.bound.Fin? {
      assert Least(s, Fin(low.bound.r));
    }
  }

  /**
   * For quantiles in `[0, 1]` of non-negative buckets with an infinite one, the result is a value
   * exactly if there are two distinct bounds, an observation, and not both a quantile of 0 and
   * only empty buckets at a least bound above 0; otherwise it is NaN.
   */
  lemma ValueOrNaN(q: real, s: seq<Bucket>, near: Near)
    requires s != [] && NonNegative(s) && 0.0 <= q <= 1.0 && SortedBuckets(s)[|s| - 1].bound.Inf?
    ensures if TwoBounds(s) && Observed(s, near) && !(q == 0.0 && EmptyLowest(s))
            then InUnit(q, s, near).Finite? else InUnit(q, s, near) == NaN
  {
    PreparedReady(s, near);
    PreparedNonNegative(s, near);
    PreparedTwo(s, near);
    LowestIsEmpty(s, near);
    ReadyValueOrNaN(Prepared(s, near), q);
  }

  ghost predicate SomePositive(s: seq<Bucket>) {
    exists i :: 0 <= i < |s| && s[i].count > 0.0
  }

  lemma SomePositiveSnoc(s: seq<Bucket>, b: Bucket)
    ensures SomePositive(s + [b]) <==> SomePositive(s) || b.count > 0.0
  {
    var t := s + [b];
    if SomePositive(s) {
      var i :| 0 <= i < |s| && s[i].count > 0.0;
      assert t[i].count > 0.0;
    }
    if b.count > 0.0 {
      assert t[|s|].count > 0.0;
    }
  }

  lemma AbsorbPositive(r: seq<Bucket>, b: Bucket)
    requires r != [] && NonNegative(r) && b.count >= 0.0
    ensures SomePositive(Absorb(r, b)) <==> SomePositive(r) || b.count > 0.0
  {
    var rest, last := r[..|r| - 1], r[|r| - 1];
    assert r == rest + [last];
    SomePositiveSnoc(rest, last);
    if b.bound == last.bound {
      SomePositiveSnoc(rest, Bucket(last.bound, last.count + b.count));
    } else {
      SomePositiveSnoc(r, b);
    }
  }

  lemma {:induction false} CoalescedPositive(s: seq<Bucket>)
    requires s != [] && NonNegative(s)
    ensures SomePositive(Coalesced(s)) <==> SomePositive(s)
    decreases |s|
  {
    if |s| > 1 {
      var init, b := s[..|s| - 1], s[|s| - 1];
      CoalescedPositive(init);
      CoalescedNonNegative(init);
      PositiveNext(s, init, Coalesced(init), b);
    }
  }

  lemma PositiveNext(s: seq<Bucket>, init: seq<Bucket>, r: seq<Bucket>, b: Bucket)
    requires s != [] && init == s[..|s| - 1] && b == s[|s| - 1]
    requires r != [] && NonNegative(r) && b.count >= 0.0 && (SomePositive(r) <==> SomePositive(init))
    ensures SomePositive(Absorb(r, b)) <==> SomePositive(s)
  {
    AbsorbPositive(r, b);
    assert s == init + [b];
    SomePositiveSnoc(init, b);
  }

  /** Zero is not taken for rounding. */
  ghost predicate ZeroApart(near: Near) {
    forall x: real :: x > 0.0 ==> !near(0.0, x)
  }

  lemma CorrectedPositive(near: Near, prev: real, curr: real)
    requires ZeroApart(near) && prev >= 0.0 && curr >= 0.0
    ensures Corrected(near, prev, curr) >= 0.0
    ensures Corrected(near, prev, curr) > 0.0 <==> prev > 0.0 || curr > 0.0
  {
  }

  lemma {:induction false} EnvelopePositive(s: seq<Bucket>, near: Near)
    requires s != [] && NonNegative(s) && ZeroApart(near)
    ensures Envelope(s, near)[|s| - 1].count > 0.0 <==> SomePositive(s)
    ensures Envelope(s, near)[|s| - 1].count >= 0.0
    decreases |s|
  {
    if |s| > 1 {
      var init, b := s[..|s| - 1], s[|s| - 1];
      assert s == init + [b];
      EnvelopePositive(init, near);
      SomePositiveSnoc(init, b);
      EnvelopeSnoc(init, b, near);
      CorrectedPositive(near, Envelope(init, near)[|init| - 1].count, b.count);
    }
  }

  /** If zero is not taken for rounding, an observation is left exactly if a given count is positive. */
  lemma ObservedExactly(s: seq<Bucket>, near: Near)
    requires s != [] && NonNegative(s) && ZeroApart(near)
    ensures Observed(s, near) <==> SomePositive(s)
  {
    var t := SortedBuckets(s);
    SortPositive(s, t);
    CoalescedPositive(t);
    CoalescedNonNegative(t);
    EnvelopePositive(Coalesced(t), near);
  }

  lemma SortPositive(s: seq<Bucket>, t: seq<Bucket>)
    requires t == SortedBuckets(s) && NonNegative(s)
    ensures NonNegative(t) && (SomePositive(t) <==> SomePositive(s))
  {
    SortSorts(s);
    forall i | 0 <= i < |t| ensures t[i] in s {
      assert t[i] in multiset(t);
    }
    forall i | 0 <= i < |s| ensures s[i] in t {
      assert s[i] in multiset(s);
    }
  }

  /** One observation above 1 and none below: the 0-quantile is zero divided by zero. */
  lemma ZeroQuantileLost(s: seq<Bucket>, near: Near)
    requires s == [Bucket(Fin(1.0), 0.0), Bucket(Inf, 1.0)]
    ensures InUnit(0.0, s, near) == NaN
  {
    var low := [s[0]];
    assert s[..1] == low && low[..0] == [] && s == low + [s[1]];
    assert SortedBuckets(low) == low;
    assert SortedBuckets(s) == s;
    assert Coalesced(low) == low;
    assert Coalesced(s) == s;
    assert Envelope(low, near) == low;
    assert Prepared(s, near)[0] == s[0] && |Prepared(s, near)| == 2;
    ValueOrNaN(0.0, s, near);
  }

  /** The quantile never decreases as `q` grows, wherever it has a value. */
  lemma QuantileMonotone(q: real, q': real, s: seq<Bucket>, near: Near)
    requires s != [] && NonNegative(s) && 0.0 <= q <= q' <= 1.0
    requires InUnit(q, s, near).Finite? && InUnit(q', s, near).Finite?
    ensures InUnit(q, s, near).r <= InUnit(q', s, near).r
  {
    PreparedReady(s, near);
    PreparedNonNegative(s, near);
    ReadyMonotone(Prepared(s, near), q, q');
  }
}
