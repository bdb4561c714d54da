/** What the entries of a list contribute together does not depend on their order. */
module Bags {
  import Sorting

  function Bag<T, C>(s: seq<T>, one: T -> multiset<C>): multiset<C> {
    if s == [] then multiset{} else Bag(s[..|s| - 1], one) + one(s[|s| - 1])
  }

  lemma {:induction false} BagOfBoth<T, C>(a: seq<T>, b: seq<T>, one: T -> multiset<C>)
    ensures Bag(a + b, one) == Bag(a, one) + Bag(b, one)
    decreases |b|
  {
    if b == [] {
      assert a + b == a;
    } else {
      BagOfBoth(a, b[..|b| - 1], one);
      assert (a + b)[..|a + b| - 1] == a + b[..|b| - 1];
    }
  }

  lemma BagOfOne<T, C>(x: T, one: T -> multiset<C>)
    ensures Bag([x], one) == one(x)
  {
    assert [x][..0] == [];
  }

  lemma Cut<T>(s: seq<T>, k: nat)
    requires k < |s|
    ensures s == s[..k] + ([s[k]] + s[k + 1..])
    ensures multiset(s) == multiset(s[..k] + s[k + 1..]) + multiset{s[k]}
  {
  }

  lemma Swap<C>(a: multiset<C>, b: multiset<C>, c: multiset<C>)
    ensures a + (b + c) == a + c + b
  {
  }

  lemma BagOfThree<T, C>(a: seq<T>, x: T, b: seq<T>, one: T -> multiset<C>)
    ensures Bag(a + ([x] + b), one) == Bag(a + b, one) + one(x)
  {
    BagOfBoth(a, [x] + b, one);
    BagOfBoth([x], b, one);
    BagOfOne(x, one);
    BagOfBoth(a, b, one);
    Swap(Bag(a, one), one(x), Bag(b, one));
  }

  lemma TakenOut<T, C>(s: seq<T>, k: nat, one: T -> multiset<C>)
    requires k < |s|
    ensures Bag(s, one) == Bag(s[..k] + s[k + 1..], one) + one(s[k])
    ensures multiset(s) == multiset(s[..k] + s[k + 1..]) + multiset{s[k]}
  {
    Cut(s, k);
    BagOfThree(s[..k], s[k], s[k + 1..], one);
  }

  lemma Cancel<T>(a: multiset<T>, b: multiset<T>, x: T)
    requires a + multiset{x} == b + multiset{x}
    ensures a == b
  {
    assert a == a + multiset{x} - multiset{x};
    assert b == b + multiset{x} - multiset{x};
  }

  lemma {:induction false} BagIgnoresOrder<T(!new), C>(s: seq<T>, t: seq<T>, one: T -> multiset<C>)
    requires multiset(s) == multiset(t)
    ensures Bag(s, one) == Bag(t, one)
    decreases |s|
  {
    Sorting.SameEntries(s, t);
    if s != [] {
      var n := |s| - 1;
      assert s[n] in s;
      var k :| 0 <= k < |t| && t[k] == s[n];
      TakenOut(s, n, one);
      TakenOut(t, k, one);
      Cancel(multiset(s[..n] + s[n + 1..]), multiset(t[..k] + t[k + 1..]), s[n]);
      BagIgnoresOrder(s[..n] + s[n + 1..], t[..k] + t[k + 1..], one);
    }
  }
}
