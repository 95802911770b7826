/**
 * A counter with a limit, as the evaluator keeps one: every entry moves the counter, and a
 * checked entry must not leave it above the limit.
 */
module Ledger {
  datatype Entry = Entry(cost: int, checked: bool)

  function Total(es: seq<Entry>): int {
    if es == [] then 0 else es[0].cost + Total(es[1..])
  }

  predicate Admits(e: Entry, balance: int, max: int) {
    e.checked ==> balance + e.cost <= max
  }

  /** Starting from `balance`, all entries are admitted. */
  predicate Pays(es: seq<Entry>, balance: int, max: int)
    decreases |es|
  {
    es == [] || (Admits(es[0], balance, max) && Pays(es[1..], balance + es[0].cost, max))
  }

  /** The first `n` values of `f`. */
  function Tabulate<T>(f: nat -> T, n: nat): (r: seq<T>)
    ensures |r| == n
  {
    if n == 0 then [] else Tabulate(f, n - 1) + [f(n - 1)]
  }

  lemma {:induction false} TabulateAt<T>(f: nat -> T, n: nat, k: nat)
    requires k < n
    ensures Tabulate(f, n)[k] == f(k) && Tabulate(f, n)[..k] == Tabulate(f, k)
  {
    var init := Tabulate(f, n - 1);
    if k < n - 1 {
      TabulateAt(f, n - 1, k);
      assert (init + [f(n - 1)])[..k] == init[..k];
    } else {
      assert (init + [f(n - 1)])[..k] == init;
    }
  }

  lemma {:induction false} TotalConcat(a: seq<Entry>, b: seq<Entry>)
    ensures Total(a + b) == Total(a) + Total(b)
    decreases |a|
  {
    if a == [] {
      assert a + b == b;
    } else {
      assert (a + b)[1..] == a[1..] + b;
      TotalConcat(a[1..], b);
    }
  }

  lemma {:induction false} PaysConcat(a: seq<Entry>, b: seq<Entry>, balance: int, max: int)
    ensures Pays(a + b, balance, max) <==> Pays(a, balance, max) && Pays(b, balance + Total(a), max)
    decreases |a|
  {
    if a == [] {
      assert a + b == b;
    } else {
      assert (a + b)[1..] == a[1..] + b;
      PaysConcat(a[1..], b, balance + a[0].cost, max);
    }
  }

  lemma PaysSnoc(a: seq<Entry>, e: Entry, balance: int, max: int)
    ensures Pays(a + [e], balance, max) <==> Pays(a, balance, max) && Admits(e, balance + Total(a), max)
    ensures Total(a + [e]) == Total(a) + e.cost
  {
    PaysConcat(a, [e], balance, max);
    TotalConcat(a, [e]);
  }

  /** The entries from `k` on are admitted. */
  predicate PaysFrom(es: seq<Entry>, k: nat, balance: int, max: int)
    decreases |es| - k
  {
    k >= |es| || (Admits(es[k], balance, max) && PaysFrom(es, k + 1, balance + es[k].cost, max))
  }

  function TotalFrom(es: seq<Entry>, k: nat): int
    decreases |es| - k
  {
    if k >= |es| then 0 else es[k].cost + TotalFrom(es, k + 1)
  }

  lemma {:induction false} FromIsRest(es: seq<Entry>, k: nat, balance: int, max: int)
    requires k <= |es|
    ensures PaysFrom(es, k, balance, max) == Pays(es[k..], balance, max) && TotalFrom(es, k) == Total(es[k..])
    decreases |es| - k
  {
    if k < |es| {
      assert es[k..][1..] == es[k + 1..];
      FromIsRest(es, k + 1, balance + es[k].cost, max);
    }
  }

  lemma FromStart(es: seq<Entry>, balance: int, max: int)
    ensures PaysFrom(es, 0, balance, max) == Pays(es, balance, max) && TotalFrom(es, 0) == Total(es)
  {
    FromIsRest(es, 0, balance, max);
    assert es[0..] == es;
  }

  /** Entry `k` takes the counter from `balance` to `balance'`, if it is admitted. */
  lemma PaysNext(es: seq<Entry>, k: nat, k': nat, balance: int, balance': int, max: int)
    requires k < |es| && k' == k + 1 && balance' == balance + es[k].cost
    ensures PaysFrom(es, k, balance, max) <==> Admits(es[k], balance, max) && PaysFrom(es, k', balance', max)
    ensures balance + TotalFrom(es, k) == balance' + TotalFrom(es, k')
  {
  }

  lemma PaysNot(es: seq<Entry>, k: nat, balance: int, max: int)
    requires k < |es| && !Admits(es[k], balance, max)
    ensures !PaysFrom(es, k, balance, max)
  {
  }

  /** Given that entry `k - 1` had room, entry `k` is admitted exactly if it has room. */
  ghost predicate Linked(es: seq<Entry>, room: nat -> bool, k: nat, balance: int, max: int) {
    k < |es| && (k > 0 ==> room(k - 1)) ==> (Admits(es[k], balance + Total(es[..k]), max) <==> room(k))
  }

  lemma {:induction false} PaysLinked(es: seq<Entry>, n: nat, room: nat -> bool, balance: int, max: int)
    requires n <= |es| && forall k: nat :: Linked(es, room, k, balance, max)
    ensures Pays(es[..n], balance, max) <==> forall k: nat :: k < n ==> room(k)
  {
    if n > 0 {
      var m := n - 1;
      PaysLinked(es, m, room, balance, max);
      assert es[..n] == es[..m] + [es[m]];
      PaysSnoc(es[..m], es[m], balance, max);
      assert Linked(es, room, m, balance, max);
    }
  }
}
