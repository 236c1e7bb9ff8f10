/** The greedy distribution of tests over shards: costliest test first, always to the shard
    with the smallest load. Costs are reals; Python's floats and their rounding are not modelled. */
module Greedy {
  import opened Wrappers
  import opened Sorting
  import opened Sums

  type Shards = seq<seq<string>>
  type Costs = string -> real

  ghost predicate Ascending(cost: Costs, s: seq<string>) {
    forall i, j :: 0 <= i < j < |s| ==> cost(s[i]) <= cost(s[j])
  }

  ghost predicate NonNegative(cost: Costs, names: seq<string>) {
    forall n :: n in names ==> cost(n) >= 0.0
  }

  /** `a` distributes exactly the tests `names` over `m` shards. */
  ghost predicate Distributes(a: Shards, names: seq<string>, m: nat) {
    |a| == m && Bag(a) == multiset(names)
  }

  /** No shard's load exceeds `bound`. */
  ghost predicate LoadsAtMost(cost: Costs, shards: Shards, bound: real) {
    forall i :: 0 <= i < |shards| ==> Sum(cost, shards[i]) <= bound
  }

  // ---------- Python's stable sort ----------

  function ByCost(cost: Costs): (string, string) -> bool {
    (a, b) => cost(a) < cost(b)
  }

  function SortByCost(cost: Costs, s: seq<string>): seq<string> {
    Sort(ByCost(cost), s)
  }

  /** The elements of one cost class, in their order. */
  function OfCost(cost: Costs, c: real, s: seq<string>): seq<string> {
    if s == [] then []
    else (if cost(s[0]) == c then [s[0]] else []) + OfCost(cost, c, s[1..])
  }

  lemma OfCostCons(cost: Costs, c: real, x: string, s: seq<string>)
    ensures OfCost(cost, c, [x] + s) == (if cost(x) == c then [x] else []) + OfCost(cost, c, s)
  {
    assert ([x] + s)[1..] == s;
  }

  lemma {:induction false} InsertStable(cost: Costs, x: string, s: seq<string>, c: real)
    ensures OfCost(cost, c, Insert(ByCost(cost), x, s)) == OfCost(cost, c, [x] + s)
  {
    OfCostCons(cost, c, x, s);
    if s != [] && cost(s[0]) < cost(x) {
      InsertStable(cost, x, s[1..], c);
      OfCostCons(cost, c, x, s[1..]);
      OfCostCons(cost, c, s[0], Insert(ByCost(cost), x, s[1..]));
    }
  }

  lemma {:induction false} SortStable(cost: Costs, s: seq<string>, c: real)
    ensures OfCost(cost, c, SortByCost(cost, s)) == OfCost(cost, c, s)
  {
    if s != [] {
      var t := SortByCost(cost, s[1..]);
      SortStable(cost, s[1..], c);
      InsertStable(cost, s[0], t, c);
      OfCostCons(cost, c, s[0], t);
    }
  }

  /** `list.sort(key=...)`: ascending, a permutation, and stable within each cost. */
  lemma SortByCostSpec(cost: Costs, s: seq<string>)
    ensures Ascending(cost, SortByCost(cost, s))
    ensures multiset(SortByCost(cost, s)) == multiset(s)
    ensures forall c :: OfCost(cost, c, SortByCost(cost, s)) == OfCost(cost, c, s)
  {
    SortSorted(ByCost(cost), s);
    SortBag(ByCost(cost), s);
    forall c ensures OfCost(cost, c, SortByCost(cost, s)) == OfCost(cost, c, s) {
      SortStable(cost, s, c);
    }
  }

  // ---------- the greedy loop ----------

  /** The lowest-numbered shard of smallest load. */
  function Lightest(cost: Costs, shards: Shards): (r: nat)
    requires shards != []
    ensures r < |shards|
    ensures forall i :: 0 <= i < |shards| ==> Sum(cost, shards[r]) <= Sum(cost, shards[i])
    ensures forall i :: 0 <= i < r ==> Sum(cost, shards[r]) < Sum(cost, shards[i])
  {
    var n := |shards| - 1;
    if n == 0 then 0
    else
      var r := Lightest(cost, shards[..n]);
      assert forall i :: 0 <= i < n ==> shards[..n][i] == shards[i];
      if Sum(cost, shards[n]) < Sum(cost, shards[r]) then n else r
  }

  function AddToLightest(cost: Costs, shards: Shards, x: string): Shards
    requires shards != []
  {
    var s := Lightest(cost, shards);
    shards[s := shards[s] + [x]]
  }

  /** Pops `todo` from its end until it is empty. */
  function Place(cost: Costs, todo: seq<string>, shards: Shards): (r: Shards)
    requires shards != []
    ensures |r| == |shards|
  {
    if todo == [] then shards
    else Place(cost, todo[..|todo| - 1], AddToLightest(cost, shards, todo[|todo| - 1]))
  }

  function EmptyShards(m: nat): Shards {
    seq(m, _ => [])
  }

  /** The computed schedule; None when there are tests and no shard to put them on. */
  function Schedule(cost: Costs, names: seq<string>, m: nat): (r: Option<Shards>)
    ensures r.Some? ==> |r.value| == m
  {
    if m > 0 then Some(Place(cost, SortByCost(cost, names), EmptyShards(m)))
    else if names == [] then Some([])
    else None
  }

  /** `min` over the shards' loads: the first of the smallest. */
  method ShortestShard(cost: Costs, shards: Shards) returns (s: nat)
    requires shards != []
    ensures s == Lightest(cost, shards)
  {
    s := 0;
    var least := Sum(cost, shards[0]);
    for i := 1 to |shards|
      invariant s < i
      invariant least == Sum(cost, shards[s])
      invariant forall k :: 0 <= k < i ==> least <= Sum(cost, shards[k])
      invariant forall k :: 0 <= k < s ==> least < Sum(cost, shards[k])
    {
      var load := Sum(cost, shards[i]);
      if load < least {
        s, least := i, load;
      }
    }
    LightestIsUnique(cost, shards, s);
  }

  method BuildShards(cost: Costs, testNames: seq<string>, shardCount: nat) returns (r: Option<Shards>)
    ensures r == Schedule(cost, testNames, shardCount)
  {
    var testTimes := SortByCost(cost, testNames);
    var shards := EmptyShards(shardCount);
    while testTimes != []
      invariant |shards| == shardCount
      invariant shardCount == 0 ==> testTimes == SortByCost(cost, testNames) && shards == []
      invariant shardCount > 0 ==> Schedule(cost, testNames, shardCount) == Some(Place(cost, testTimes, shards))
      decreases |testTimes|
    {
      var testName := testTimes[|testTimes| - 1];
      testTimes := testTimes[..|testTimes| - 1];
      if shardCount == 0 {
        return None;
      }
      var s := ShortestShard(cost, shards);
      shards := shards[s := shards[s] + [testName]];
    }
    r := Some(shards);
  }

  // ---------- only the costs of the submitted tests matter ----------

  ghost predicate SameCosts(cost: Costs, cost': Costs, s: seq<string>) {
    forall i :: 0 <= i < |s| ==> cost(s[i]) == cost'(s[i])
  }

  lemma {:induction false} SumsAgree(cost: Costs, cost': Costs, s: seq<string>)
    requires SameCosts(cost, cost', s)
    ensures Sum(cost, s) == Sum(cost', s)
  {
    if s != [] {
      SumsAgree(cost, cost', s[..|s| - 1]);
    }
  }

  lemma {:induction false} SortsAgree(cost: Costs, cost': Costs, s: seq<string>)
    requires SameCosts(cost, cost', s)
    ensures SortByCost(cost, s) == SortByCost(cost', s)
    ensures SameCosts(cost, cost', SortByCost(cost, s))
  {
    if s != [] {
      SortsAgree(cost, cost', s[1..]);
      InsertsAgree(cost, cost', s[0], SortByCost(cost, s[1..]));
    }
  }

  lemma {:induction false} InsertsAgree(cost: Costs, cost': Costs, x: string, s: seq<string>)
    requires SameCosts(cost, cost', s) && cost(x) == cost'(x)
    ensures Insert(ByCost(cost), x, s) == Insert(ByCost(cost'), x, s)
    ensures SameCosts(cost, cost', Insert(ByCost(cost), x, s))
  {
    if s != [] {
      InsertsAgree(cost, cost', x, s[1..]);
    }
  }

  lemma LightestIsUnique(cost: Costs, shards: Shards, r: nat)
    requires r < |shards|
    requires forall i :: 0 <= i < |shards| ==> Sum(cost, shards[r]) <= Sum(cost, shards[i])
    requires forall i :: 0 <= i < r ==> Sum(cost, shards[r]) < Sum(cost, shards[i])
    ensures r == Lightest(cost, shards)
  {
  }

  lemma {:induction false} PlacesAgree(cost: Costs, cost': Costs, todo: seq<string>, shards: Shards)
    requires shards != [] && SameCosts(cost, cost', todo)
    requires forall i :: 0 <= i < |shards| ==> SameCosts(cost, cost', shards[i])
    ensures Place(cost, todo, shards) == Place(cost', todo, shards)
  {
    if todo != [] {
      forall i | 0 <= i < |shards| ensures Sum(cost, shards[i]) == Sum(cost', shards[i]) {
        SumsAgree(cost, cost', shards[i]);
      }
      LightestIsUnique(cost, shards, Lightest(cost', shards));
      var after := AddToLightest(cost, shards, todo[|todo| - 1]);
      PlacesAgree(cost, cost', todo[..|todo| - 1], after);
    }
  }

  lemma SchedulesAgree(cost: Costs, cost': Costs, names: seq<string>, m: nat)
    requires SameCosts(cost, cost', names)
    ensures Schedule(cost, names, m) == Schedule(cost', names, m)
  {
    SortsAgree(cost, cost', names);
    if m > 0 {
      PlacesAgree(cost, cost', SortByCost(cost, names), EmptyShards(m));
    }
  }

  // ---------- every test is placed exactly once ----------

  lemma {:induction false} PlaceKeepsAll(cost: Costs, todo: seq<string>, shards: Shards)
    requires shards != []
    ensures |Place(cost, todo, shards)| == |shards|
    ensures Bag(Place(cost, todo, shards)) == Bag(shards) + multiset(todo)
  {
    if todo != [] {
      var x, rest := todo[|todo| - 1], todo[..|todo| - 1];
      BagAppend(shards, Lightest(cost, shards), x);
      PlaceKeepsAll(cost, rest, AddToLightest(cost, shards, x));
      LastBag(todo);
    }
  }

  lemma {:induction false} EmptyShardsHoldNothing(m: nat)
    ensures Bag(EmptyShards(m)) == multiset{}
  {
    if m > 0 {
      EmptyShardsHoldNothing(m - 1);
      assert EmptyShards(m)[..m - 1] == EmptyShards(m - 1);
    }
  }

  /** The schedule is a partition of the submitted tests, and it exists unless there are tests
      and no shards. */
  lemma SchedulePartitions(cost: Costs, names: seq<string>, m: nat)
    ensures Schedule(cost, names, m).None? <==> m == 0 && names != []
    ensures Schedule(cost, names, m).Some? ==> Distributes(Schedule(cost, names, m).value, names, m)
  {
    SortByCostSpec(cost, names);
    EmptyShardsHoldNothing(m);
    if m > 0 {
      PlaceKeepsAll(cost, SortByCost(cost, names), EmptyShards(m));
    }
  }

  /** Every shard lists its costliest test first. */
  ghost predicate EachDescends(cost: Costs, shards: Shards) {
    forall i, j, k :: 0 <= i < |shards| && 0 <= j < k < |shards[i]| ==> cost(shards[i][j]) >= cost(shards[i][k])
  }

  lemma {:induction false} PlaceDescends(cost: Costs, todo: seq<string>, shards: Shards)
    requires shards != [] && EachDescends(cost, shards) && CostliestFirst(cost, shards, todo)
    ensures EachDescends(cost, Place(cost, todo, shards))
  {
    if todo != [] {
      var x := todo[|todo| - 1];
      var s, after := Lightest(cost, shards), AddToLightest(cost, shards, x);
      forall k | 0 <= k < |shards[s]| ensures cost(shards[s][k]) >= cost(x) {
        BagHolds(shards, s, shards[s][k]);
      }
      AddKeepsCostliestFirst(cost, shards, todo);
      PlaceDescends(cost, todo[..|todo| - 1], after);
    }
  }

  lemma ScheduleDescends(cost: Costs, names: seq<string>, m: nat)
    requires m > 0
    ensures EachDescends(cost, Schedule(cost, names, m).value)
  {
    SortByCostSpec(cost, names);
    EmptyShardsHoldNothing(m);
    PlaceDescends(cost, SortByCost(cost, names), EmptyShards(m));
  }

  // ---------- which shard each test is put on ----------

  /** The tests of `order` that `place` puts on shard i, in order. */
  function OnShard(order: seq<string>, place: seq<nat>, i: nat): seq<string>
    requires |order| == |place|
  {
    if order == [] then []
    else
      var n := |order| - 1;
      var before := OnShard(order[..n], place[..n], i);
      if place[n] == i then before + [order[n]] else before
  }

  /** The load of shard i before the k-th test of `order` is put on a shard. */
  function LoadBefore(cost: Costs, order: seq<string>, place: seq<nat>, k: nat, i: nat): real
    requires k <= |order| == |place|
  {
    Sum(cost, OnShard(order[..k], place[..k], i))
  }

  /** The k-th test is put on the first of the m shards that are least loaded at that moment. */
  ghost predicate PutOnLightest(cost: Costs, order: seq<string>, place: seq<nat>, m: nat, k: nat)
    requires k < |order| == |place|
  {
    && place[k] < m
    && forall i: nat :: i < m ==>
         && LoadBefore(cost, order, place, k, place[k]) <= LoadBefore(cost, order, place, k, i)
         && (i < place[k] ==> LoadBefore(cost, order, place, k, place[k]) < LoadBefore(cost, order, place, k, i))
  }

  ghost predicate PlacesGreedily(cost: Costs, order: seq<string>, place: seq<nat>, m: nat) {
    |order| == |place| && forall k :: 0 <= k < |order| ==> PutOnLightest(cost, order, place, m, k)
  }

  /** The shards hold what `place` says. */
  ghost predicate Realizes(shards: Shards, order: seq<string>, place: seq<nat>) {
    |order| == |place| && forall i :: 0 <= i < |shards| ==> shards[i] == OnShard(order, place, i)
  }

  function Reversed(s: seq<string>): (r: seq<string>)
    ensures |r| == |s|
    ensures forall k :: 0 <= k < |s| ==> r[k] == s[|s| - 1 - k]
  {
    if s == [] then [] else [s[|s| - 1]] + Reversed(s[..|s| - 1])
  }

  lemma OnShardSnoc(order: seq<string>, place: seq<nat>, x: string, s: nat, i: nat)
    requires |order| == |place|
    ensures OnShard(order + [x], place + [s], i) == if s == i then OnShard(order, place, i) + [x] else OnShard(order, place, i)
  {
    assert (order + [x])[..|order|] == order && (place + [s])[..|place|] == place;
  }

  lemma LoadBeforeSnoc(cost: Costs, order: seq<string>, place: seq<nat>, x: string, s: nat, k: nat, i: nat)
    requires k <= |order| == |place|
    ensures LoadBefore(cost, order + [x], place + [s], k, i) == LoadBefore(cost, order, place, k, i)
  {
    assert (order + [x])[..k] == order[..k] && (place + [s])[..k] == place[..k];
  }

  lemma LoadNow(cost: Costs, shards: Shards, order: seq<string>, place: seq<nat>, i: nat)
    requires Realizes(shards, order, place) && i < |shards|
    ensures LoadBefore(cost, order, place, |order|, i) == Sum(cost, shards[i])
  {
    assert order[..|order|] == order && place[..|place|] == place;
  }

  lemma AddRealizes(cost: Costs, shards: Shards, order: seq<string>, place: seq<nat>, x: string)
    requires shards != [] && Realizes(shards, order, place)
    ensures Realizes(AddToLightest(cost, shards, x), order + [x], place + [Lightest(cost, shards)])
  {
    var s := Lightest(cost, shards);
    forall i | 0 <= i < |shards| ensures AddToLightest(cost, shards, x)[i] == OnShard(order + [x], place + [s], i) {
      OnShardSnoc(order, place, x, s, i);
    }
  }

  lemma StillOnLightest(cost: Costs, order: seq<string>, place: seq<nat>, m: nat, k: nat, x: string, s: nat)
    requires k < |order| == |place| && PutOnLightest(cost, order, place, m, k)
    ensures PutOnLightest(cost, order + [x], place + [s], m, k)
  {
    forall i: nat | i < m ensures LoadBefore(cost, order + [x], place + [s], k, i) == LoadBefore(cost, order, place, k, i) {
      LoadBeforeSnoc(cost, order, place, x, s, k, i);
    }
  }

  lemma LastOnLightest(cost: Costs, shards: Shards, order: seq<string>, place: seq<nat>, x: string, s: nat)
    requires shards != [] && Realizes(shards, order, place) && s == Lightest(cost, shards)
    ensures PutOnLightest(cost, order + [x], place + [s], |shards|, |order|)
  {
    forall i: nat | i < |shards|
      ensures LoadBefore(cost, order + [x], place + [s], |order|, i) == Sum(cost, shards[i])
    {
      LoadBeforeSnoc(cost, order, place, x, s, |order|, i);
      LoadNow(cost, shards, order, place, i);
    }
  }

  lemma AddPlacesGreedily(cost: Costs, shards: Shards, order: seq<string>, place: seq<nat>, x: string, s: nat)
    requires shards != [] && Realizes(shards, order, place) && PlacesGreedily(cost, order, place, |shards|)
    requires s == Lightest(cost, shards)
    ensures PlacesGreedily(cost, order + [x], place + [s], |shards|)
  {
    forall k | 0 <= k < |order + [x]| ensures PutOnLightest(cost, order + [x], place + [s], |shards|, k) {
      if k < |order| {
        StillOnLightest(cost, order, place, |shards|, k, x, s);
      } else {
        LastOnLightest(cost, shards, order, place, x, s);
      }
    }
  }

  lemma {:induction false} PlaceIsGreedy(cost: Costs, todo: seq<string>, shards: Shards, order: seq<string>, place: seq<nat>)
    returns (place': seq<nat>)
    requires shards != [] && Realizes(shards, order, place) && PlacesGreedily(cost, order, place, |shards|)
    ensures Realizes(Place(cost, todo, shards), order + Reversed(todo), place')
    ensures PlacesGreedily(cost, order + Reversed(todo), place', |shards|)
  {
    if todo == [] {
      assert order + Reversed(todo) == order;
      place' := place;
    } else {
      var x, rest := todo[|todo| - 1], todo[..|todo| - 1];
      AddRealizes(cost, shards, order, place, x);
      AddPlacesGreedily(cost, shards, order, place, x, Lightest(cost, shards));
      place' := PlaceIsGreedy(cost, rest, AddToLightest(cost, shards, x), order + [x], place + [Lightest(cost, shards)]);
      assert order + Reversed(todo) == order + [x] + Reversed(rest);
    }
  }

  /** The tests in the order in which they are popped, and the shard that each is put on: always the
      first of those that are least loaded at that moment. Every shard of the schedule is the list of
      the tests put on it, in that order. */
  lemma ScheduleIsGreedy(cost: Costs, names: seq<string>, m: nat) returns (order: seq<string>, place: seq<nat>)
    requires m > 0
    ensures |order| == |names| && forall k :: 0 <= k < |names| ==> order[k] == SortByCost(cost, names)[|names| - 1 - k]
    ensures PlacesGreedily(cost, order, place, m)
    ensures Realizes(Schedule(cost, names, m).value, order, place)
  {
    order := Reversed(SortByCost(cost, names));
    assert [] + order == order;
    place := PlaceIsGreedy(cost, SortByCost(cost, names), EmptyShards(m), [], []);
  }

  // ---------- how good the schedule is ----------

  /** What any distribution `a` of the tests owes when the greedy loop is about to place `x`:
      the loads so far and `x` together fit into the loads of `a`. */
  lemma Budget(f: Costs, a: Shards, shards: Shards, todo: seq<string>)
    requires todo != [] && Bag(a) == Bag(shards) + multiset(todo)
    requires forall n :: n in todo ==> f(n) >= 0.0
    ensures Total(f, a) >= Total(f, shards) + f(todo[|todo| - 1])
  {
    TotalOfSplit(f, a, shards, todo);
    SumDominates(f, todo, |todo| - 1);
  }

  /** A shard of `a` is at least as loaded as any one test on it. */
  lemma TestFitsSomewhere(cost: Costs, a: Shards, bound: real, x: string)
    requires x in Bag(a)
    requires forall n :: n in Bag(a) ==> cost(n) >= 0.0
    requires LoadsAtMost(cost, a, bound)
    ensures 0.0 <= cost(x) <= bound
  {
    var i := BagComesFrom(a, x);
    var k :| 0 <= k < |a[i]| && a[i][k] == x;
    forall n | n in a[i] ensures cost(n) >= 0.0 { BagHolds(a, i, n); }
    SumDominates(cost, a[i], k);
  }

  /** The averaging argument: a test of cost p lands on a shard whose load is at most
      bound - p/m. */
  lemma LightestIsBelowAverage(cost: Costs, a: Shards, bound: real, shards: Shards, todo: seq<string>)
    returns (load: real)
    requires |a| == |shards| > 0
    requires todo != [] && Bag(a) == Bag(shards) + multiset(todo)
    requires forall n :: n in Bag(a) ==> cost(n) >= 0.0
    requires LoadsAtMost(cost, a, bound)
    ensures load == Sum(cost, shards[Lightest(cost, shards)])
    ensures Times(|a|, load) + cost(todo[|todo| - 1]) <= Times(|a|, bound)
  {
    load := Sum(cost, shards[Lightest(cost, shards)]);
    forall n | n in todo ensures cost(n) >= 0.0 { assert n in Bag(a); }
    Budget(cost, a, shards, todo);
    TotalAtMost(cost, a, bound);
    TotalAtLeast(cost, shards, load);
  }

  /** The weight of a test against a last test of cost p: 0 when it is cheaper than p, 2 when it
      cannot share a shard of `a` with a test of cost p, and 1 otherwise. */
  function Weight(cost: Costs, bound: real, p: real): Costs {
    n => if cost(n) < p then 0.0 else if cost(n) > bound - p then 2.0 else 1.0
  }

  /** When three tests of cost p exceed the bound, a shard within the bound weighs at most 2. */
  lemma {:induction false} WeightWithinBound(cost: Costs, bound: real, p: real, s: seq<string>)
    requires 0.0 <= p <= bound < 3.0 * p
    requires forall n :: n in s ==> cost(n) >= 0.0
    ensures Sum(cost, s) >= 0.0
    ensures Sum(Weight(cost, bound, p), s) > 0.0 ==> Sum(cost, s) >= p
    ensures Sum(Weight(cost, bound, p), s) > 1.0 ==> Sum(cost, s) >= 2.0 * p || Sum(cost, s) > bound - p
    ensures Sum(Weight(cost, bound, p), s) > 2.0 ==> Sum(cost, s) > bound
  {
    if s != [] {
      WeightWithinBound(cost, bound, p, s[..|s| - 1]);
    }
  }

  /** A shard of tests that all cost at least p and whose load exceeds bound - p weighs at
      least 2. */
  lemma {:induction false} WeightAboveThreshold(cost: Costs, bound: real, p: real, s: seq<string>)
    requires 0.0 <= p <= bound
    requires forall n :: n in s ==> cost(n) >= p
    ensures Sum(Weight(cost, bound, p), s) >= |s| as real
    ensures Sum(cost, s) > bound - p ==> Sum(Weight(cost, bound, p), s) >= 2.0
  {
    if s != [] {
      var n := |s| - 1;
      WeightAboveThreshold(cost, bound, p, s[..n]);
    }
  }

  /** The counting argument: when three tests of cost p exceed the bound and every placed test
      costs at least p, the next test of cost p still fits below the bound. Otherwise the placed
      tests would weigh 2m already, and `a` holds weight at most 2m with the next test. */
  lemma LightestHasRoom(cost: Costs, a: Shards, bound: real, shards: Shards, todo: seq<string>)
    requires |a| == |shards| > 0
    requires todo != [] && Bag(a) == Bag(shards) + multiset(todo)
    requires forall n :: n in Bag(a) ==> cost(n) >= 0.0
    requires forall n :: n in Bag(shards) ==> cost(n) >= cost(todo[|todo| - 1])
    requires LoadsAtMost(cost, a, bound)
    requires 3.0 * cost(todo[|todo| - 1]) > bound
    ensures Sum(cost, shards[Lightest(cost, shards)]) + cost(todo[|todo| - 1]) <= bound
  {
    var x := todo[|todo| - 1];
    var p := cost(x);
    assert x in Bag(a);
    TestFitsSomewhere(cost, a, bound, x);
    if Sum(cost, shards[Lightest(cost, shards)]) + p > bound {
      var w := Weight(cost, bound, p);
      forall i | 0 <= i < |a| ensures Sum(w, a[i]) <= 2.0 {
        forall n | n in a[i] ensures cost(n) >= 0.0 { BagHolds(a, i, n); }
        WeightWithinBound(cost, bound, p, a[i]);
      }
      TotalAtMost(w, a, 2.0);
      forall i | 0 <= i < |shards| ensures Sum(w, shards[i]) >= 2.0 {
        forall n | n in shards[i] ensures cost(n) >= p { BagHolds(shards, i, n); }
        WeightAboveThreshold(cost, bound, p, shards[i]);
      }
      TotalAtLeast(w, shards, 2.0);
      Budget(w, a, shards, todo);
      assert false;
    }
  }

  lemma FourThirds(m: nat, load: real, p: real, bound: real, limit: real)
    requires m >= 1 && 0.0 <= p && 3.0 * p <= bound && Times(m, load) + p <= Times(m, bound)
    requires 3.0 * Times(m, limit) == 4.0 * Times(m, bound) - bound
    ensures load + p <= limit
  {
    TimesIsProduct(m, load);
    TimesIsProduct(m, bound);
    TimesIsProduct(m, limit);
    FourThirdsOfReals(m as real, load, p, bound, limit);
  }

  lemma FourThirdsOfReals(m: real, load: real, p: real, bound: real, limit: real)
    requires m >= 1.0 && 0.0 <= p && 3.0 * p <= bound && m * load + p <= m * bound
    requires 3.0 * (m * limit) == 4.0 * (m * bound) - bound
    ensures load + p <= limit
  {
  }

  lemma FourThirdsIsAboveOne(m: nat, bound: real, limit: real)
    requires m >= 1 && 0.0 <= bound
    requires 3.0 * Times(m, limit) == 4.0 * Times(m, bound) - bound
    ensures bound <= limit
  {
    TimesIsProduct(m, bound);
    TimesIsProduct(m, limit);
    AboveOneOfReals(m as real, bound, limit);
  }

  lemma AboveOneOfReals(m: real, bound: real, limit: real)
    requires m >= 1.0 && 0.0 <= bound && 3.0 * (m * limit) == 4.0 * (m * bound) - bound
    ensures bound <= limit
  {
  }

  /** One step of a costliest-first run keeps the new load within 4/3 - 1/(3m) of `a`. */
  lemma StepWithinFourThirds(cost: Costs, a: Shards, bound: real, limit: real, shards: Shards, todo: seq<string>)
    requires |a| == |shards| > 0
    requires todo != [] && Bag(a) == Bag(shards) + multiset(todo)
    requires forall n :: n in Bag(a) ==> cost(n) >= 0.0
    requires forall n :: n in Bag(shards) ==> cost(n) >= cost(todo[|todo| - 1])
    requires LoadsAtMost(cost, a, bound)
    requires 3.0 * Times(|a|, limit) == 4.0 * Times(|a|, bound) - bound
    ensures Sum(cost, shards[Lightest(cost, shards)]) + cost(todo[|todo| - 1]) <= limit
  {
    var x := todo[|todo| - 1];
    assert x in Bag(a);
    TestFitsSomewhere(cost, a, bound, x);
    if 3.0 * cost(x) <= bound {
      var load := LightestIsBelowAverage(cost, a, bound, shards, todo);
      FourThirds(|a|, load, cost(x), bound, limit);
    } else {
      LightestHasRoom(cost, a, bound, shards, todo);
      FourThirdsIsAboveOne(|a|, bound, limit);
    }
  }

  lemma AddKeepsLoads(cost: Costs, shards: Shards, x: string, limit: real)
    requires shards != [] && LoadsAtMost(cost, shards, limit)
    requires Sum(cost, shards[Lightest(cost, shards)]) + cost(x) <= limit
    ensures LoadsAtMost(cost, AddToLightest(cost, shards, x), limit)
    ensures Bag(AddToLightest(cost, shards, x)) == Bag(shards) + multiset{x}
  {
    var s := Lightest(cost, shards);
    SumSnoc(cost, shards[s], x);
    BagAppend(shards, s, x);
  }

  /** Nothing left to place costs more than anything placed, and the costliest is last. */
  ghost predicate CostliestFirst(cost: Costs, shards: Shards, todo: seq<string>) {
    && Ascending(cost, todo)
    && (forall n, i :: n in Bag(shards) && 0 <= i < |todo| ==> cost(n) >= cost(todo[i]))
  }

  lemma AddKeepsCostliestFirst(cost: Costs, shards: Shards, todo: seq<string>)
    requires shards != [] && todo != [] && CostliestFirst(cost, shards, todo)
    ensures CostliestFirst(cost, AddToLightest(cost, shards, todo[|todo| - 1]), todo[..|todo| - 1])
  {
    var x, rest := todo[|todo| - 1], todo[..|todo| - 1];
    var after := AddToLightest(cost, shards, x);
    BagAppend(shards, Lightest(cost, shards), x);
    forall n, i | n in Bag(after) && 0 <= i < |rest| ensures cost(n) >= cost(rest[i]) {
      assert rest[i] == todo[i];
      assert n == x || n in Bag(shards);
    }
  }

  lemma {:induction false} PlaceWithinFourThirds(cost: Costs, a: Shards, bound: real, limit: real, todo: seq<string>, shards: Shards)
    requires |a| == |shards| > 0 && Bag(a) == Bag(shards) + multiset(todo)
    requires forall n :: n in Bag(a) ==> cost(n) >= 0.0
    requires CostliestFirst(cost, shards, todo)
    requires LoadsAtMost(cost, a, bound)
    requires 3.0 * Times(|a|, limit) == 4.0 * Times(|a|, bound) - bound
    requires LoadsAtMost(cost, shards, limit)
    ensures LoadsAtMost(cost, Place(cost, todo, shards), limit)
  {
    if todo != [] {
      var x, rest := todo[|todo| - 1], todo[..|todo| - 1];
      var after := AddToLightest(cost, shards, x);
      StepWithinFourThirds(cost, a, bound, limit, shards, todo);
      AddKeepsLoads(cost, shards, x, limit);
      AddKeepsCostliestFirst(cost, shards, todo);
      LastBag(todo);
      PlaceWithinFourThirds(cost, a, bound, limit, rest, after);
    }
  }

  lemma {:induction false} PlaceBigTests(cost: Costs, a: Shards, bound: real, todo: seq<string>, shards: Shards)
    requires |a| == |shards| > 0 && Bag(a) == Bag(shards) + multiset(todo)
    requires forall n :: n in Bag(a) ==> cost(n) >= 0.0 && 3.0 * cost(n) > bound
    requires CostliestFirst(cost, shards, todo)
    requires LoadsAtMost(cost, a, bound) && LoadsAtMost(cost, shards, bound)
    ensures LoadsAtMost(cost, Place(cost, todo, shards), bound)
  {
    if todo != [] {
      var x := todo[|todo| - 1];
      assert x in Bag(a);
      LightestHasRoom(cost, a, bound, shards, todo);
      AddKeepsLoads(cost, shards, x, bound);
      AddKeepsCostliestFirst(cost, shards, todo);
      LastBag(todo);
      PlaceBigTests(cost, a, bound, todo[..|todo| - 1], AddToLightest(cost, shards, x));
    }
  }

  /** When every test costs more than a third of what some distribution needs, no distribution does
      better: the schedule meets that load itself. */
  lemma ScheduleIsOptimalForBigTests(cost: Costs, names: seq<string>, m: nat, a: Shards, bound: real)
    requires m > 0 && NonNegative(cost, names) && forall n :: n in names ==> 3.0 * cost(n) > bound
    requires Distributes(a, names, m) && LoadsAtMost(cost, a, bound)
    ensures LoadsAtMost(cost, Schedule(cost, names, m).value, bound)
  {
    SortByCostSpec(cost, names);
    EmptyShardsHoldNothing(m);
    BoundIsNonNegative(cost, a, names, m, bound);
    assert forall n :: n in Bag(a) ==> n in multiset(names);
    PlaceBigTests(cost, a, bound, SortByCost(cost, names), EmptyShards(m));
  }

  /** The largest load of a distribution of non-negative costs is not negative. */
  lemma BoundIsNonNegative(cost: Costs, a: Shards, names: seq<string>, m: nat, bound: real)
    requires m > 0 && NonNegative(cost, names)
    requires Distributes(a, names, m) && LoadsAtMost(cost, a, bound)
    ensures bound >= 0.0
  {
    forall n | n in a[0] ensures cost(n) >= 0.0 {
      BagHolds(a, 0, n);
      assert n in multiset(names);
    }
    SumDominates(cost, a[0], 0);
  }

  /** Graham's bound: no shard of the schedule carries more than 4/3 - 1/(3m) times the largest
      load of any other distribution of the same tests over the same number of shards. */
  lemma ScheduleWithinFourThirds(cost: Costs, names: seq<string>, m: nat, a: Shards, bound: real)
    requires m > 0 && NonNegative(cost, names)
    requires Distributes(a, names, m) && LoadsAtMost(cost, a, bound)
    ensures LoadsAtMost(cost, Schedule(cost, names, m).value, (4.0 / 3.0 - 1.0 / (3.0 * m as real)) * bound)
  {
    var sorted, limit := SortByCost(cost, names), (4.0 / 3.0 - 1.0 / (3.0 * m as real)) * bound;
    SortByCostSpec(cost, names);
    EmptyShardsHoldNothing(m);
    BoundIsNonNegative(cost, a, names, m, bound);
    assert forall n :: n in Bag(a) ==> n in multiset(names);
    FactorAsLimit(m, bound, limit);
    FourThirdsIsAboveOne(m, bound, limit);
    PlaceWithinFourThirds(cost, a, bound, limit, sorted, EmptyShards(m));
  }

  /** No distribution of the tests beats `shards` by more than Graham's factor. */
  ghost predicate NearOptimal(cost: Costs, shards: Shards, names: seq<string>, m: nat)
    requires m > 0
  {
    forall a, bound :: Distributes(a, names, m) && LoadsAtMost(cost, a, bound) ==>
                         LoadsAtMost(cost, shards, (4.0 / 3.0 - 1.0 / (3.0 * m as real)) * bound)
  }

  lemma ScheduleIsNearOptimal(cost: Costs, names: seq<string>, m: nat)
    requires m > 0 && NonNegative(cost, names)
    ensures NearOptimal(cost, Schedule(cost, names, m).value, names, m)
  {
    forall a, bound | Distributes(a, names, m) && LoadsAtMost(cost, a, bound)
      ensures LoadsAtMost(cost, Schedule(cost, names, m).value, (4.0 / 3.0 - 1.0 / (3.0 * m as real)) * bound)
    {
      ScheduleWithinFourThirds(cost, names, m, a, bound);
    }
  }

  lemma FactorAsLimit(m: nat, bound: real, limit: real)
    requires m >= 1 && limit == (4.0 / 3.0 - 1.0 / (3.0 * m as real)) * bound
    ensures 3.0 * Times(m, limit) == 4.0 * Times(m, bound) - bound
  {
    var r, k := m as real, 1.0 / (3.0 * m as real);
    FactorOfReals(r, k, bound, limit);
    TimesIsProduct(m, bound);
    TimesIsProduct(m, limit);
  }

  lemma FactorOfReals(r: real, k: real, bound: real, limit: real)
    requires r >= 1.0 && k == 1.0 / (3.0 * r) && limit == (4.0 / 3.0 - k) * bound
    ensures 3.0 * (r * limit) == 4.0 * (r * bound) - bound
  {
  }

  // ---------- what holds in whatever order the tests are placed ----------

  lemma BelowTwo(m: nat, load: real, p: real, bound: real, limit: real)
    requires m >= 1 && 0.0 <= p <= bound && Times(m, load) + p <= Times(m, bound)
    requires Times(m, limit) == 2.0 * Times(m, bound) - bound
    ensures load + p <= limit
  {
    TimesIsProduct(m, load);
    TimesIsProduct(m, bound);
    TimesIsProduct(m, limit);
    BelowTwoOfReals(m as real, load, p, bound, limit);
  }

  lemma BelowTwoOfReals(m: real, load: real, p: real, bound: real, limit: real)
    requires m >= 1.0 && 0.0 <= p <= bound && m * load + p <= m * bound
    requires m * limit == 2.0 * (m * bound) - bound
    ensures load + p <= limit
  {
  }

  lemma {:induction false} PlaceWithinTwo(cost: Costs, a: Shards, bound: real, limit: real, todo: seq<string>, shards: Shards)
    requires |a| == |shards| > 0 && Bag(a) == Bag(shards) + multiset(todo)
    requires forall n :: n in Bag(a) ==> cost(n) >= 0.0
    requires LoadsAtMost(cost, a, bound)
    requires Times(|a|, limit) == 2.0 * Times(|a|, bound) - bound
    requires LoadsAtMost(cost, shards, limit)
    ensures LoadsAtMost(cost, Place(cost, todo, shards), limit)
  {
    if todo != [] {
      var x := todo[|todo| - 1];
      assert x in Bag(a);
      TestFitsSomewhere(cost, a, bound, x);
      var load := LightestIsBelowAverage(cost, a, bound, shards, todo);
      BelowTwo(|a|, load, cost(x), bound, limit);
      AddKeepsLoads(cost, shards, x, limit);
      LastBag(todo);
      PlaceWithinTwo(cost, a, bound, limit, todo[..|todo| - 1], AddToLightest(cost, shards, x));
    }
  }

  /** Without the sort the loop still stays within 2 - 1/m of any distribution: sorting is what
      improves the bound to 4/3 - 1/(3m). */
  lemma AnyOrderWithinTwo(cost: Costs, order: seq<string>, m: nat, a: Shards, bound: real)
    requires m > 0 && NonNegative(cost, order)
    requires Distributes(a, order, m) && LoadsAtMost(cost, a, bound)
    ensures LoadsAtMost(cost, Place(cost, order, EmptyShards(m)), (2.0 - 1.0 / m as real) * bound)
  {
    var limit := (2.0 - 1.0 / m as real) * bound;
    EmptyShardsHoldNothing(m);
    BoundIsNonNegative(cost, a, order, m, bound);
    assert forall n :: n in Bag(a) ==> n in multiset(order);
    TwoAsLimit(m, bound, limit);
    PlaceWithinTwo(cost, a, bound, limit, order, EmptyShards(m));
  }

  lemma TwoAsLimit(m: nat, bound: real, limit: real)
    requires m >= 1 && limit == (2.0 - 1.0 / m as real) * bound && bound >= 0.0
    ensures Times(m, limit) == 2.0 * Times(m, bound) - bound
    ensures limit >= 0.0
  {
    TimesIsProduct(m, bound);
    TimesIsProduct(m, limit);
    TwoOfReals(m as real, 1.0 / m as real, bound, limit);
  }

  lemma TwoOfReals(r: real, k: real, bound: real, limit: real)
    requires r >= 1.0 && k == 1.0 / r && bound >= 0.0 && limit == (2.0 - k) * bound
    ensures r * limit == 2.0 * (r * bound) - bound
    ensures limit >= 0.0
  {
  }

  /** No two shards' loads are further apart than `c`. */
  ghost predicate SpreadAtMost(cost: Costs, shards: Shards, c: real) {
    forall i, j :: 0 <= i < |shards| && 0 <= j < |shards| ==> Sum(cost, shards[i]) <= Sum(cost, shards[j]) + c
  }

  lemma {:induction false} PlaceSpread(cost: Costs, todo: seq<string>, shards: Shards, c: real)
    requires shards != [] && forall n :: n in todo ==> 0.0 <= cost(n) <= c
    requires SpreadAtMost(cost, shards, c)
    ensures SpreadAtMost(cost, Place(cost, todo, shards), c)
  {
    if todo != [] {
      var x := todo[|todo| - 1];
      SumSnoc(cost, shards[Lightest(cost, shards)], x);
      PlaceSpread(cost, todo[..|todo| - 1], AddToLightest(cost, shards, x), c);
    }
  }

  /** The heaviest and the lightest shard differ by at most the cost of the costliest test. */
  lemma ScheduleSpread(cost: Costs, names: seq<string>, m: nat, c: real)
    requires m > 0 && c >= 0.0 && forall n :: n in names ==> 0.0 <= cost(n) <= c
    ensures SpreadAtMost(cost, Schedule(cost, names, m).value, c)
  {
    SortByCostSpec(cost, names);
    forall n | n in SortByCost(cost, names) ensures 0.0 <= cost(n) <= c {
      assert n in multiset(names);
    }
    PlaceSpread(cost, SortByCost(cost, names), EmptyShards(m), c);
  }
}
