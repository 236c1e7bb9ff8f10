/** Sums over sequences and over sequences of shards, and the bags of elements they hold. */
module Sums {

  /** The left-to-right sum of `f` over `s`. */
  function Sum<T>(f: T -> real, s: seq<T>): real {
    if s == [] then 0.0 else Sum(f, s[..|s| - 1]) + f(s[|s| - 1])
  }

  /** The sum of `f` over everything that the shards hold. */
  function Total<T>(f: T -> real, shards: seq<seq<T>>): real {
    if shards == [] then 0.0 else Total(f, shards[..|shards| - 1]) + Sum(f, shards[|shards| - 1])
  }

  /** Everything that the shards hold, with multiplicity. */
  ghost function Bag<T>(shards: seq<seq<T>>): multiset<T> {
    if shards == [] then multiset{} else Bag(shards[..|shards| - 1]) + multiset(shards[|shards| - 1])
  }

  lemma SumSnoc<T>(f: T -> real, s: seq<T>, x: T)
    ensures Sum(f, s + [x]) == Sum(f, s) + f(x)
  {
  }

  lemma {:induction false} SumConcat<T>(f: T -> real, a: seq<T>, b: seq<T>)
    ensures Sum(f, a + b) == Sum(f, a) + Sum(f, b)
  {
    if b == [] {
      assert a + b == a;
    } else {
      var b' := b[..|b| - 1];
      SumConcat(f, a, b');
      assert a + b == (a + b') + [b[|b| - 1]];
      SumSnoc(f, a + b', b[|b| - 1]);
    }
  }

  /** A sequence without its i-th element. */
  function Without<T>(s: seq<T>, i: nat): seq<T>
    requires i < |s|
  {
    s[..i] + s[i + 1..]
  }

  lemma WithoutBag<T>(s: seq<T>, i: nat)
    requires i < |s|
    ensures multiset(s) == multiset(Without(s, i)) + multiset{s[i]}
    ensures multiset(Without(s, i)) == multiset(s) - multiset{s[i]}
  {
    assert s == s[..i] + ([s[i]] + s[i + 1..]);
  }

  lemma SumMiddle<T>(f: T -> real, a: seq<T>, x: T, b: seq<T>)
    ensures Sum(f, a + [x] + b) == Sum(f, a + b) + f(x)
  {
    SumConcat(f, a, b);
    SumConcat(f, a + [x], b);
    SumSnoc(f, a, x);
  }

  lemma CountSnoc<T>(s: seq<T>, y: T, x: T)
    ensures multiset(s + [y])[x] == multiset(s)[x] + if y == x then 1 else 0
  {
  }

  lemma LastBag<T>(s: seq<T>)
    requires s != []
    ensures multiset(s) == multiset(s[..|s| - 1]) + multiset{s[|s| - 1]}
  {
    assert s == s[..|s| - 1] + [s[|s| - 1]];
  }

  /** The sum depends on the elements only, not on their order. */
  lemma {:induction false} SumOfPermutation<T>(f: T -> real, a: seq<T>, b: seq<T>)
    requires multiset(a) == multiset(b)
    ensures Sum(f, a) == Sum(f, b)
  {
    if a == [] {
      assert |multiset(b)| == 0;
    } else {
      var x := a[|a| - 1];
      var i := IndexOf(b, x) by { assert x in multiset(a); }
      WithoutBag(b, i);
      LastBag(a);
      assert multiset(a[..|a| - 1]) == multiset(a) - multiset{x};
      SumOfPermutation(f, a[..|a| - 1], Without(b, i));
      assert Sum(f, b) == Sum(f, Without(b, i)) + f(x) by {
        SumMiddle(f, b[..i], x, b[i + 1..]);
        assert b == b[..i] + [x] + b[i + 1..];
      }
    }
  }

  lemma IndexOf<T>(s: seq<T>, x: T) returns (i: nat)
    requires x in multiset(s)
    ensures i < |s| && s[i] == x
  {
    i :| 0 <= i < |s| && s[i] == x;
  }

  function Flatten<T>(shards: seq<seq<T>>): seq<T> {
    if shards == [] then [] else Flatten(shards[..|shards| - 1]) + shards[|shards| - 1]
  }

  lemma {:induction false} FlattenKeepsAll<T>(f: T -> real, shards: seq<seq<T>>)
    ensures Sum(f, Flatten(shards)) == Total(f, shards)
    ensures multiset(Flatten(shards)) == Bag(shards)
  {
    if shards != [] {
      var n := |shards| - 1;
      FlattenKeepsAll(f, shards[..n]);
      SumConcat(f, Flatten(shards[..n]), shards[n]);
    }
  }

  /** Two distributions of the same elements, one of them partly undone, have the same total. */
  lemma TotalOfSplit<T>(f: T -> real, a: seq<seq<T>>, b: seq<seq<T>>, rest: seq<T>)
    requires Bag(a) == Bag(b) + multiset(rest)
    ensures Total(f, a) == Total(f, b) + Sum(f, rest)
  {
    FlattenKeepsAll(f, a);
    FlattenKeepsAll(f, b);
    SumConcat(f, Flatten(b), rest);
    SumOfPermutation(f, Flatten(a), Flatten(b) + rest);
  }

  lemma {:induction false} BagAppend<T>(shards: seq<seq<T>>, i: nat, x: T)
    requires i < |shards|
    ensures Bag(shards[i := shards[i] + [x]]) == Bag(shards) + multiset{x}
  {
    var n := |shards| - 1;
    var after := shards[i := shards[i] + [x]];
    if i < n {
      BagAppend(shards[..n], i, x);
      assert after[..n] == shards[..n][i := shards[..n][i] + [x]];
    } else {
      assert after[..n] == shards[..n];
    }
  }

  lemma {:induction false} BagHolds<T>(shards: seq<seq<T>>, i: nat, x: T)
    requires i < |shards| && x in shards[i]
    ensures x in Bag(shards)
  {
    var n := |shards| - 1;
    if i < n {
      BagHolds(shards[..n], i, x);
    }
  }

  lemma {:induction false} BagComesFrom<T>(shards: seq<seq<T>>, x: T) returns (i: nat)
    requires x in Bag(shards)
    ensures i < |shards| && x in shards[i]
  {
    var n := |shards| - 1;
    if x in shards[n] {
      i := n;
    } else {
      i := BagComesFrom(shards[..n], x);
    }
  }

  /** n copies of x added up. Proofs about loads stay linear in terms of it. */
  function Times(n: nat, x: real): real {
    if n == 0 then 0.0 else Times(n - 1, x) + x
  }

  lemma {:induction false} TimesIsProduct(n: nat, x: real)
    ensures Times(n, x) == n as real * x
  {
    if n > 0 {
      TimesIsProduct(n - 1, x);
    }
  }

  lemma {:induction false} TotalAtMost<T>(f: T -> real, shards: seq<seq<T>>, bound: real)
    requires forall i :: 0 <= i < |shards| ==> Sum(f, shards[i]) <= bound
    ensures Total(f, shards) <= Times(|shards|, bound)
  {
    if shards != [] {
      TotalAtMost(f, shards[..|shards| - 1], bound);
    }
  }

  lemma {:induction false} TotalAtLeast<T>(f: T -> real, shards: seq<seq<T>>, bound: real)
    requires forall i :: 0 <= i < |shards| ==> Sum(f, shards[i]) >= bound
    ensures Total(f, shards) >= Times(|shards|, bound)
  {
    if shards != [] {
      TotalAtLeast(f, shards[..|shards| - 1], bound);
    }
  }

  /** A sum of non-negative terms is at least each of its terms. */
  lemma {:induction false} SumDominates<T>(f: T -> real, s: seq<T>, i: nat)
    requires forall x :: x in s ==> f(x) >= 0.0
    requires i <= |s|
    ensures Sum(f, s) >= 0.0
    ensures i < |s| ==> Sum(f, s) >= f(s[i])
  {
    if s != [] {
      var n := |s| - 1;
      SumDominates(f, s[..n], if i < n then i else n);
    }
  }

  /** The union of the bags `f(x)` over the elements of `s`. */
  ghost function Collect<T, U>(f: T -> multiset<U>, s: seq<T>): multiset<U> {
    if s == [] then multiset{} else Collect(f, s[..|s| - 1]) + f(s[|s| - 1])
  }

  lemma CollectSnoc<T, U>(f: T -> multiset<U>, s: seq<T>, x: T)
    ensures Collect(f, s + [x]) == Collect(f, s) + f(x)
  {
  }

  lemma {:induction false} CollectWithout<T, U>(f: T -> multiset<U>, s: seq<T>, i: nat)
    requires i < |s|
    ensures Collect(f, s) == Collect(f, Without(s, i)) + f(s[i])
  {
    var n := |s| - 1;
    if i == n {
      assert Without(s, i) == s[..n];
    } else {
      var rest := Without(s[..n], i);
      assert Collect(f, s[..n]) == Collect(f, rest) + f(s[i]) by { CollectWithout(f, s[..n], i); }
      assert Collect(f, Without(s, i)) == Collect(f, rest) + f(s[n]) by {
        assert Without(s, i) == rest + [s[n]];
        CollectSnoc(f, rest, s[n]);
      }
    }
  }

  /** The collected bag depends on the elements only, not on their order. */
  lemma {:induction false} CollectOfPermutation<T, U>(f: T -> multiset<U>, a: seq<T>, b: seq<T>)
    requires multiset(a) == multiset(b)
    ensures Collect(f, a) == Collect(f, b)
  {
    if a == [] {
      assert |multiset(b)| == 0;
    } else {
      var x := a[|a| - 1];
      var i := IndexOf(b, x) by { assert x in multiset(a); }
      WithoutBag(b, i);
      LastBag(a);
      assert multiset(a[..|a| - 1]) == multiset(a) - multiset{x};
      CollectOfPermutation(f, a[..|a| - 1], Without(b, i));
      CollectWithout(f, b, i);
    }
  }

  ghost function BagOf<T>(s: seq<T>): multiset<T> {
    multiset(s)
  }

  lemma {:induction false} BagIsCollect<T>(shards: seq<seq<T>>)
    ensures Bag(shards) == Collect(BagOf, shards)
  {
    if shards != [] {
      BagIsCollect(shards[..|shards| - 1]);
    }
  }

  function Map<T, U>(f: T -> U, s: seq<T>): (r: seq<U>)
    ensures |r| == |s|
  {
    if s == [] then [] else Map(f, s[..|s| - 1]) + [f(s[|s| - 1])]
  }

  lemma {:induction false} MapAt<T, U>(f: T -> U, s: seq<T>, i: nat)
    requires i < |s|
    ensures Map(f, s)[i] == f(s[i])
  {
    if i < |s| - 1 {
      MapAt(f, s[..|s| - 1], i);
    }
  }

  lemma MapSnoc<T, U>(f: T -> U, s: seq<T>, x: T)
    ensures Map(f, s + [x]) == Map(f, s) + [f(x)]
  {
    assert (s + [x])[..|s|] == s;
  }

  /** `r` lists the elements of `s` that satisfy `p`, in order; `idx` are their places in `s`. */
  ghost predicate Selects<T>(s: seq<T>, p: T -> bool, r: seq<T>, idx: seq<nat>) {
    && |r| == |idx|
    && (forall j, k :: 0 <= j < k < |idx| ==> idx[j] < idx[k])
    && (forall k :: 0 <= k < |idx| ==> idx[k] < |s| && r[k] == s[idx[k]])
    && (forall i: nat :: i < |s| ==> (i in idx <==> p(s[i])))
  }

  lemma SelectsSnoc<T>(s: seq<T>, p: T -> bool, r: seq<T>, idx: seq<nat>, x: T) returns (idx': seq<nat>)
    requires Selects(s, p, r, idx)
    ensures Selects(s + [x], p, if p(x) then r + [x] else r, idx')
  {
    if p(x) {
      idx' := idx + [|s|];
      forall i: nat | i < |s + [x]| ensures i in idx' <==> p((s + [x])[i]) {
        assert i in idx' <==> i in idx || i == |s|;
        assert i < |s| ==> (s + [x])[i] == s[i];
      }
    } else {
      idx' := idx;
      forall i: nat | i < |s + [x]| ensures i in idx' <==> p((s + [x])[i]) {
        assert i < |s| ==> (s + [x])[i] == s[i];
      }
    }
  }

  /** The loop that maps a sequence. */
  method MapLoop<T, U>(f: T -> U, s: seq<T>) returns (r: seq<U>)
    ensures r == Map(f, s)
  {
    r := [];
    for i := 0 to |s|
      invariant r == Map(f, s[..i])
    {
      MapSnoc(f, s[..i], s[i]);
      assert s[..i + 1] == s[..i] + [s[i]];
      r := r + [f(s[i])];
    }
    assert s[..|s|] == s;
  }
}
