/**
 * `topk` and `bottomk` at one step: per group a heap of at most `k` float samples with the
 * worst one on top, which is overwritten when a better one comes along.
 */
module TopK {
  import opened Options
  import opened Samples

  /** A sample of the input vector; it holds a float or a histogram. */
  datatype Item = Item(series: nat, f: Float, histogram: bool)

  datatype Op = Top | Bottom

  predicate IsNaN(f: Float) {
    f.NaN? || f.StaleNaN?
  }

  /** `<` on floats; false when either is NaN. */
  predicate Lt(a: Float, b: Float) {
    && !IsNaN(a) && !IsNaN(b) && a != b
    && (a.NegInf? || b.PosInf? || (a.Finite? && b.Finite? && a.r < b.r))
  }

  /** `Less` of `vectorByValueHeap` and of `vectorByReverseValueHeap`; not irreflexive on NaN. */
  predicate Less(op: Op, a: Item, b: Item) {
    IsNaN(a.f) || (if op.Top? then Lt(a.f, b.f) else Lt(b.f, a.f))
  }

  /** `a` is no better than `b`: nothing is worse than NaN, and otherwise the value decides. */
  predicate NoBetter(op: Op, a: Item, b: Item) {
    IsNaN(a.f) || (!IsNaN(b.f) && (a.f == b.f || if op.Top? then Lt(a.f, b.f) else Lt(b.f, a.f)))
  }

  lemma NoBetterIsOrder(op: Op, a: Item, b: Item, c: Item)
    ensures NoBetter(op, a, b) || NoBetter(op, b, a)
    ensures NoBetter(op, a, b) && NoBetter(op, b, c) ==> NoBetter(op, a, c)
    ensures !Less(op, a, b) ==> NoBetter(op, b, a)
    ensures Less(op, a, b) ==> NoBetter(op, a, b)
  {
  }

  // ----- the heap -----

  function Parent(c: nat): nat
    requires c > 0
  {
    (c - 1) / 2
  }

  /** Element `c` is no worse than its parent. */
  predicate Ordered(op: Op, h: seq<Item>, c: nat)
    requires 0 < c < |h|
  {
    NoBetter(op, h[Parent(c)], h[c])
  }

  ghost predicate IsHeap(op: Op, h: seq<Item>) {
    forall c: nat :: 0 < c < |h| ==> Ordered(op, h, c)
  }

  /** A heap but for the pair of `j` and its parent; what is below `j` fits under that parent. */
  ghost predicate HeapUpTo(op: Op, h: seq<Item>, j: nat) {
    && (forall c: nat :: 0 < c < |h| && c != j ==> Ordered(op, h, c))
    && (j > 0 ==> forall c: nat :: 0 < c < |h| && Parent(c) == j && Parent(j) < |h| ==> NoBetter(op, h[Parent(j)], h[c]))
  }

  /** A heap but for the pairs of `i` and its children, which fit under the parent of `i`. */
  ghost predicate HeapDownTo(op: Op, h: seq<Item>, i: nat) {
    && (forall c: nat :: 0 < c < |h| && Parent(c) != i ==> Ordered(op, h, c))
    && (i > 0 ==> forall c: nat :: 0 < c < |h| && Parent(c) == i ==> Parent(i) < |h| && NoBetter(op, h[Parent(i)], h[c]))
  }

  function Swapped(h: seq<Item>, i: nat, j: nat): seq<Item>
    requires i < |h| && j < |h|
  {
    h[i := h[j]][j := h[i]]
  }

  lemma SwapKeeps(h: seq<Item>, i: nat, j: nat)
    requires i < |h| && j < |h|
    ensures multiset(Swapped(h, i, j)) == multiset(h)
  {
  }

  lemma UpStep(op: Op, h: seq<Item>, j: nat)
    requires 0 < j < |h| && HeapUpTo(op, h, j) && Less(op, h[j], h[Parent(j)])
    ensures HeapUpTo(op, Swapped(h, Parent(j), j), Parent(j))
  {
    var i := Parent(j);
    var h' := Swapped(h, i, j);
    NoBetterIsOrder(op, h[j], h[i], h[i]);
    forall c: nat | 0 < c < |h'| && c != i ensures Ordered(op, h', c) {
      if c != j {
        assert Ordered(op, h, c);
        NoBetterIsOrder(op, h[j], h[i], h[c]);
      }
    }
    if i > 0 {
      assert Ordered(op, h, i);
      forall c: nat | 0 < c < |h'| && Parent(c) == i ensures NoBetter(op, h'[Parent(i)], h'[c]) {
        if c != j {
          assert Ordered(op, h, c);
          NoBetterIsOrder(op, h[Parent(i)], h[i], h[c]);
        }
      }
    }
  }

  lemma DownStep(op: Op, h: seq<Item>, i: nat, j: nat)
    requires i < |h| && 0 < j < |h| && Parent(j) == i && HeapDownTo(op, h, i)
    requires Less(op, h[j], h[i]) && forall c: nat :: 0 < c < |h| && Parent(c) == i ==> NoBetter(op, h[j], h[c])
    ensures HeapDownTo(op, Swapped(h, i, j), j)
  {
    var h' := Swapped(h, i, j);
    NoBetterIsOrder(op, h[j], h[i], h[i]);
    forall c: nat | 0 < c < |h'| && Parent(c) != j ensures Ordered(op, h', c) {
      if c == i {
        assert NoBetter(op, h[Parent(i)], h[j]);
      } else if Parent(c) != i {
        assert Ordered(op, h, c);
      }
    }
    forall c: nat | 0 < c < |h'| && Parent(c) == j ensures NoBetter(op, h'[Parent(j)], h'[c]) {
      assert Ordered(op, h, c);
    }
  }

  /** Both children of `i` are no worse than the better-placed one picked by `down`. */
  lemma Picked(op: Op, h: seq<Item>, i: nat, j: nat)
    requires 2 * i + 1 < |h|
    requires j == if 2 * i + 2 < |h| && Less(op, h[2 * i + 2], h[2 * i + 1]) then 2 * i + 2 else 2 * i + 1
    ensures 0 < j < |h| && Parent(j) == i
    ensures forall c: nat :: 0 < c < |h| && Parent(c) == i ==> NoBetter(op, h[j], h[c])
  {
    forall c: nat | 0 < c < |h| && Parent(c) == i ensures NoBetter(op, h[j], h[c]) {
      assert c == 2 * i + 1 || c == 2 * i + 2;
      NoBetterIsOrder(op, h[j], h[c], h[c]);
      if 2 * i + 2 < |h| {
        NoBetterIsOrder(op, h[2 * i + 2], h[2 * i + 1], h[c]);
      }
    }
  }

  /** `up` of `container/heap`. */
  method Up(op: Op, h0: seq<Item>, j0: nat) returns (h: seq<Item>)
    requires j0 < |h0| && HeapUpTo(op, h0, j0)
    ensures IsHeap(op, h) && multiset(h) == multiset(h0)
  {
    h := h0;
    var j: nat := j0;
    while true
      invariant j < |h| && HeapUpTo(op, h, j) && multiset(h) == multiset(h0)
      decreases j
    {
      if j == 0 {
        return;
      }
      var i := Parent(j);
      if !Less(op, h[j], h[i]) {
        NoBetterIsOrder(op, h[j], h[i], h[i]);
        assert Ordered(op, h, j);
        return;
      }
      UpStep(op, h, j);
      SwapKeeps(h, i, j);
      h := Swapped(h, i, j);
      j := i;
    }
  }

  /** `down` of `container/heap`. */
  method Down(op: Op, h0: seq<Item>, i0: nat) returns (h: seq<Item>)
    requires i0 < |h0| && HeapDownTo(op, h0, i0)
    ensures IsHeap(op, h) && multiset(h) == multiset(h0)
  {
    h := h0;
    var i: nat := i0;
    while true
      invariant i < |h| && HeapDownTo(op, h, i) && multiset(h) == multiset(h0)
      decreases |h| - i
    {
      var j := 2 * i + 1;
      if j >= |h| {
        return;
      }
      if j + 1 < |h| && Less(op, h[j + 1], h[j]) {
        j := j + 1;
      }
      Picked(op, h, i, j);
      if !Less(op, h[j], h[i]) {
        DownDone(op, h, i, j);
        return;
      }
      DownStep(op, h, i, j);
      SwapKeeps(h, i, j);
      h := Swapped(h, i, j);
      i := j;
    }
  }

  lemma DownDone(op: Op, h: seq<Item>, i: nat, j: nat)
    requires i < |h| && 0 < j < |h| && HeapDownTo(op, h, i) && !Less(op, h[j], h[i])
    requires forall c: nat :: 0 < c < |h| && Parent(c) == i ==> NoBetter(op, h[j], h[c])
    ensures IsHeap(op, h)
  {
    forall c: nat | 0 < c < |h| ensures Ordered(op, h, c) {
      if Parent(c) == i {
        NoBetterIsOrder(op, h[j], h[i], h[i]);
        NoBetterIsOrder(op, h[i], h[j], h[c]);
      }
    }
  }

  /** `heap.Push`. */
  method Push(op: Op, h0: seq<Item>, x: Item) returns (h: seq<Item>)
    requires IsHeap(op, h0)
    ensures IsHeap(op, h) && multiset(h) == multiset(h0) + multiset{x}
  {
    var appended := h0 + [x];
    forall c: nat | 0 < c < |appended| && c != |h0| ensures Ordered(op, appended, c) {
      assert Ordered(op, h0, c);
    }
    h := Up(op, appended, |h0|);
  }

  /** Overwrites the top and restores the heap with `heap.Fix`, which is skipped for one element. */
  method Replace(op: Op, h0: seq<Item>, x: Item) returns (h: seq<Item>)
    requires IsHeap(op, h0) && h0 != []
    ensures IsHeap(op, h) && multiset(h) == multiset(h0) - multiset{h0[0]} + multiset{x}
  {
    h := h0[0 := x];
    assert h0 == [h0[0]] + h0[1..] && h == [x] + h0[1..];
    if |h0| > 1 {
      forall c: nat | 0 < c < |h| && Parent(c) != 0 ensures Ordered(op, h, c) {
        assert Ordered(op, h0, c);
      }
      h := Down(op, h, 0);
    }
  }

  /** The top is the worst. */
  lemma {:induction false} TopIsWorst(op: Op, h: seq<Item>, c: nat)
    requires IsHeap(op, h) && c < |h|
    ensures NoBetter(op, h[0], h[c])
  {
    NoBetterIsOrder(op, h[0], h[0], h[0]);
    if c > 0 {
      TopIsWorst(op, h, Parent(c));
      assert Ordered(op, h, c);
      NoBetterIsOrder(op, h[0], h[Parent(c)], h[c]);
    }
  }

  // ----- the best k -----

  function Min(a: nat, b: nat): nat {
    if a < b then a else b
  }

  /** `kept` is a choice of the `k` best: nothing left out is better than anything kept. */
  ghost predicate Best(op: Op, k: nat, all: multiset<Item>, kept: multiset<Item>) {
    && kept <= all && |kept| == Min(k, |all|)
    && forall x, y :: x in kept && y in all - kept ==> NoBetter(op, y, x)
  }

  /** Two choices of the `k` best differ in ties only. */
  lemma BestIsUnique(op: Op, k: nat, all: multiset<Item>, a: multiset<Item>, b: multiset<Item>, x: Item, y: Item)
    requires Best(op, k, all, a) && Best(op, k, all, b) && x in a - b && y in b - a
    ensures NoBetter(op, x, y) && NoBetter(op, y, x) && |a| == |b|
  {
    assert x in a && y in all - a;
    assert y in b && x in all - b;
  }

  lemma BestGrows(op: Op, k: nat, all: multiset<Item>, h: seq<Item>, x: Item)
    requires Best(op, k, all, multiset(h)) && |h| < k
    ensures Best(op, k, all + multiset{x}, multiset(h) + multiset{x})
  {
    Fewer(all, multiset(h));
  }

  lemma Fewer(all: multiset<Item>, kept: multiset<Item>)
    requires kept <= all && |kept| == |all|
    ensures kept == all
  {
    assert all == kept + (all - kept);
    assert |all - kept| == 0;
  }

  lemma BestKeeps(op: Op, k: nat, all: multiset<Item>, h: seq<Item>, x: Item)
    requires Best(op, k, all, multiset(h)) && |h| == k > 0 && IsHeap(op, h) && NoBetter(op, x, h[0])
    ensures Best(op, k, all + multiset{x}, multiset(h))
  {
    var kept := multiset(h);
    forall a, y | a in kept && y in all + multiset{x} - kept ensures NoBetter(op, y, a) {
      if y in all - kept {
      } else {
        assert y == x;
        var c :| 0 <= c < |h| && h[c] == a;
        TopIsWorst(op, h, c);
        NoBetterIsOrder(op, x, h[0], a);
      }
    }
  }

  lemma BestReplaces(op: Op, k: nat, all: multiset<Item>, h: seq<Item>, x: Item, kept: multiset<Item>)
    requires Best(op, k, all, multiset(h)) && |h| == k > 0 && IsHeap(op, h) && NoBetter(op, h[0], x)
    requires kept == multiset(h) - multiset{h[0]} + multiset{x}
    ensures Best(op, k, all + multiset{x}, kept)
  {
    var all' := all + multiset{x};
    assert h[0] in multiset(h);
    assert all' - kept == all - multiset(h) + multiset{h[0]};
    forall a, y | a in kept && y in all' - kept ensures NoBetter(op, y, a) {
      assert NoBetter(op, h[0], a) by {
        if a != x {
          assert a in multiset(h);
          var c :| 0 <= c < |h| && h[c] == a;
          TopIsWorst(op, h, c);
        }
      }
      if y != h[0] {
        assert y in all - multiset(h);
        assert NoBetter(op, y, h[0]);
        NoBetterIsOrder(op, y, h[0], a);
      }
    }
  }

  // ----- one step of the aggregation -----

  /** State of a group; the heap of a group that was not seen is left over from an earlier step. */
  datatype Group = Group(seen: bool, heap: seq<Item>)

  /** The group holds a choice of the `k` best of `all`, and was seen exactly if there are any. */
  ghost predicate Holds(op: Op, k: nat, g: Group, all: multiset<Item>) {
    if g.seen then all != multiset{} && IsHeap(op, g.heap) && Best(op, k, all, multiset(g.heap))
    else all == multiset{}
  }

  /** One sample of the group. */
  method Offer(op: Op, k: nat, g: Group, x: Item, ghost all: multiset<Item>) returns (g': Group)
    requires k >= 1 && Holds(op, k, g, all)
    ensures Holds(op, k, g', if x.histogram then all else all + multiset{x})
  {
    if !g.seen {
      if x.histogram {
        return Group(false, []);
      }
      var h := Push(op, [], x);
      BestGrows(op, k, all, [], x);
      return Group(true, h);
    }
    if x.histogram {
      return g;
    }
    if |g.heap| < k {
      BestGrows(op, k, all, g.heap, x);
      var h := Push(op, g.heap, x);
      return Group(true, h);
    }
    var top := g.heap[0];
    NoBetterIsOrder(op, x, top, top);
    if (if op.Top? then Lt(top.f, x.f) else Lt(x.f, top.f)) || (IsNaN(top.f) && !IsNaN(x.f)) {
      var h := Replace(op, g.heap, x);
      BestReplaces(op, k, all, g.heap, x, multiset(h));
      return Group(true, h);
    }
    BestKeeps(op, k, all, g.heap, x);
    return g;
  }

  /** The float samples of group `g`: series without a value at this step do not take part. */
  ghost function FloatsOf(inputs: seq<Option<Item>>, groupOf: seq<nat>, g: nat): multiset<Item>
    requires |inputs| == |groupOf|
    decreases |inputs|
  {
    if inputs == [] then multiset{} else
      var n := |inputs| - 1;
      var rest := FloatsOf(inputs[..n], groupOf[..n], g);
      if inputs[n].Some? && !inputs[n].value.histogram && groupOf[n] == g then rest + multiset{inputs[n].value}
      else rest
  }

  /**
   * `aggregationK` for `topk` and `bottomk`: whatever the order of the input and wherever the
   * histograms are in it, each group ends with a choice of the `k` best of its floats.
   */
  method AggregationK(op: Op, k: nat, inputs: seq<Option<Item>>, groupOf: seq<nat>, groups0: seq<Group>)
    returns (groups: seq<Group>)
    requires k >= 1 && |inputs| == |groupOf| && forall i :: 0 <= i < |groupOf| ==> groupOf[i] < |groups0|
    ensures |groups| == |groups0|
    ensures forall g: nat :: g < |groups| ==> Holds(op, k, groups[g], FloatsOf(inputs, groupOf, g))
  {
    groups := [];
    for i := 0 to |groups0|
      invariant |groups| == i && forall g: nat :: g < i ==> !groups[g].seen
    {
      groups := groups + [groups0[i].(seen := false)];
    }
    for n := 0 to |inputs|
      invariant |groups| == |groups0|
      invariant forall g: nat :: g < |groups| ==> Holds(op, k, groups[g], FloatsOf(inputs[..n], groupOf[..n], g))
    {
      assert inputs[..n + 1][..n] == inputs[..n] && groupOf[..n + 1][..n] == groupOf[..n];
      if inputs[n].Some? {
        var gi := groupOf[n];
        var g' := Offer(op, k, groups[gi], inputs[n].value, FloatsOf(inputs[..n], groupOf[..n], gi));
        groups := groups[gi := g'];
      }
    }
    assert inputs[..|inputs|] == inputs && groupOf[..|groupOf|] == groupOf;
  }

  /** With at most `k` floats nothing is left out; otherwise NaN is kept only if all others are, too. */
  lemma NaNComesLast(op: Op, k: nat, all: multiset<Item>, kept: multiset<Item>, x: Item, y: Item)
    requires Best(op, k, all, kept)
    ensures |all| <= k ==> kept == all
    ensures x in kept && IsNaN(x.f) && y in all - kept ==> IsNaN(y.f)
  {
    if |all| <= k {
      Fewer(all, kept);
    }
  }

  /**
   * In numbers: what `topk` leaves out is at most what it keeps, and what `bottomk` leaves out at
   * least; infinities are beyond all numbers.
   */
  lemma ValuesDecide(op: Op, k: nat, all: multiset<Item>, kept: multiset<Item>, x: Item, y: Item)
    requires Best(op, k, all, kept) && x in kept && y in all - kept && !IsNaN(y.f)
    ensures |kept| == k
    ensures x.f.Finite? && y.f.Finite? ==> if op.Top? then y.f.r <= x.f.r else x.f.r <= y.f.r
    ensures op.Top? && (y.f.PosInf? || x.f.NegInf?) ==> x.f == y.f
    ensures op.Bottom? && (y.f.NegInf? || x.f.PosInf?) ==> x.f == y.f
  {
    if |all| <= k {
      Fewer(all, kept);
    }
  }
}
