/** Graham's bound is attained for every number m of shards: on costs m, m, m and two each of m+1
    up to 2m-1, the schedule has a shard of load 4m-1 where 3m would do. */
module GreedyTight {
  import opened Wrappers
  import opened Sorting
  import opened Strings
  import opened Sums
  import opened Greedy

  /** The name of the i-th cheapest test. */
  type JobOf = int -> string

  /** The costs in ascending order. */
  function CostAt(m: nat, i: nat): nat {
    if i == 0 then m else m + (i - 1) / 2
  }

  /** The k cheapest tests have these costs. */
  ghost predicate HasCosts(cost: Costs, job: JobOf, m: nat, k: nat) {
    k > 0 ==> cost(job(k - 1)) == CostAt(m, k - 1) as real && HasCosts(cost, job, m, k - 1)
  }

  lemma {:induction false} CostOfJob(cost: Costs, job: JobOf, m: nat, k: nat, i: nat)
    requires HasCosts(cost, job, m, k) && i < k
    ensures cost(job(i)) == CostAt(m, i) as real
  {
    if i < k - 1 {
      CostOfJob(cost, job, m, k - 1, i);
    }
  }

  /** The k cheapest tests. */
  function Jobs(job: JobOf, k: nat): (s: seq<string>)
    ensures |s| == k
  {
    if k == 0 then [] else Jobs(job, k - 1) + [job(k - 1)]
  }

  // ---------- a distribution that needs 3m ----------

  /** The three tests of cost m together, and each test of cost m+i with one of cost 2m-i. */
  function RivalShard(job: JobOf, m: nat, i: nat): seq<string>
    requires i < m
  {
    if i == 0 then [job(0)] + [job(1)] + [job(2)] else [job(2 * i + 1)] + [job(2 * (m - i) + 2)]
  }

  /** The first k shards. */
  function Rival(job: JobOf, m: nat, k: nat): (a: Shards)
    requires k <= m
    ensures |a| == k
  {
    if k == 0 then [] else Rival(job, m, k - 1) + [RivalShard(job, m, k - 1)]
  }

  lemma RivalShardLoad(cost: Costs, job: JobOf, m: nat, i: nat)
    requires HasCosts(cost, job, m, 2 * m + 1) && i < m
    ensures Sum(cost, RivalShard(job, m, i)) == 3.0 * m as real
  {
    if i == 0 {
      CostOfJob(cost, job, m, 2 * m + 1, 0);
      CostOfJob(cost, job, m, 2 * m + 1, 1);
      CostOfJob(cost, job, m, 2 * m + 1, 2);
      SumSnoc(cost, [job(0)], job(1));
      SumSnoc(cost, [job(0)] + [job(1)], job(2));
    } else {
      CostOfJob(cost, job, m, 2 * m + 1, 2 * i + 1);
      CostOfJob(cost, job, m, 2 * m + 1, 2 * (m - i) + 2);
      SumSnoc(cost, [job(2 * i + 1)], job(2 * (m - i) + 2));
      assert CostAt(m, 2 * i + 1) == m + i && CostAt(m, 2 * (m - i) + 2) == 2 * m - i;
    }
  }

  lemma {:induction false} RivalLoads(cost: Costs, job: JobOf, m: nat, k: nat)
    requires HasCosts(cost, job, m, 2 * m + 1) && k <= m
    ensures LoadsAtMost(cost, Rival(job, m, k), 3.0 * m as real)
  {
    if k > 0 {
      RivalLoads(cost, job, m, k - 1);
      RivalShardLoad(cost, job, m, k - 1);
    }
  }

  /** The sum of w over every second index, from 2*lo up to but not including 2*hi. */
  function Evens(w: int -> int, lo: int, hi: int): int
    decreases hi - lo
  {
    if hi <= lo then 0 else Evens(w, lo, hi - 1) + w(2 * hi - 2)
  }

  lemma {:induction false} EvensFirst(w: int -> int, lo: int, hi: int)
    requires lo < hi
    ensures Evens(w, lo, hi) == w(2 * lo) + Evens(w, lo + 1, hi)
    decreases hi - lo
  {
    if lo + 1 < hi {
      EvensFirst(w, lo, hi - 1);
    }
  }

  /** The sum of w over the odd indices from 3 up to but not including 2*k. */
  function Odds(w: int -> int, k: nat): int {
    if k <= 1 then 0 else Odds(w, k - 1) + w(2 * k - 1)
  }

  /** The sum of w over the tests on the first k shards, and over the first k tests. */
  function ShardCount(w: int -> int, m: nat, i: nat): int {
    if i == 0 then w(0) + w(1) + w(2) else w(2 * i + 1) + w(2 * (m - i) + 2)
  }

  function RivalCount(w: int -> int, m: nat, k: nat): int {
    if k == 0 then 0 else RivalCount(w, m, k - 1) + ShardCount(w, m, k - 1)
  }

  function JobsCount(w: int -> int, k: nat): int {
    if k == 0 then 0 else JobsCount(w, k - 1) + w(k - 1)
  }

  lemma {:induction false} RivalCountIs(w: int -> int, m: nat, k: nat)
    requires 1 <= k <= m
    ensures RivalCount(w, m, k) == w(0) + w(1) + w(2) + Odds(w, k) + Evens(w, m - k + 2, m + 1)
  {
    if k > 1 {
      RivalCountIs(w, m, k - 1);
      EvensFirst(w, m - k + 2, m + 1);
    }
  }

  lemma {:induction false} JobsCountIs(w: int -> int, k: nat)
    requires 1 <= k
    ensures JobsCount(w, 2 * k + 1) == w(0) + w(1) + w(2) + Odds(w, k) + Evens(w, 2, k + 1)
  {
    assert JobsCount(w, 2 * k + 1) == JobsCount(w, 2 * k - 1) + w(2 * k - 1) + w(2 * k);
    if k > 1 {
      JobsCountIs(w, k - 1);
    } else {
      assert JobsCount(w, 1) == w(0);
    }
  }

  lemma SameCount(w: int -> int, m: nat)
    requires m > 0
    ensures RivalCount(w, m, m) == JobsCount(w, 2 * m + 1)
  {
    RivalCountIs(w, m, m);
    JobsCountIs(w, m);
  }

  /** 1 for the indices whose test is x. */
  function Is(job: JobOf, x: string): int -> int {
    i => if job(i) == x then 1 else 0
  }

  lemma BagSnocCount(a: Shards, s: seq<string>, x: string)
    ensures Bag(a + [s])[x] == Bag(a)[x] + multiset(s)[x]
  {
    assert (a + [s])[..|a|] == a;
  }

  lemma BagOfThree(a: string, b: string, c: string, x: string)
    ensures multiset([a] + [b] + [c])[x] ==
            (if a == x then 1 else 0) + (if b == x then 1 else 0) + (if c == x then 1 else 0)
  {
    CountSnoc([a] + [b], c, x);
    CountSnoc([a], b, x);
  }

  lemma RivalShardBag(job: JobOf, m: nat, i: nat, x: string)
    requires i < m
    ensures multiset(RivalShard(job, m, i))[x] == ShardCount(Is(job, x), m, i)
  {
    if i == 0 {
      BagOfThree(job(0), job(1), job(2), x);
    } else {
      CountSnoc([job(2 * i + 1)], job(2 * (m - i) + 2), x);
    }
  }

  lemma RivalBagStep(w: int -> int, m: nat, k: nat, a: Shards, shard: seq<string>, x: string)
    requires Bag(a)[x] == RivalCount(w, m, k) && multiset(shard)[x] == ShardCount(w, m, k)
    ensures Bag(a + [shard])[x] == RivalCount(w, m, k + 1)
  {
    BagSnocCount(a, shard, x);
  }

  lemma RivalSnoc(job: JobOf, m: nat, k: nat)
    requires k < m
    ensures Rival(job, m, k + 1) == Rival(job, m, k) + [RivalShard(job, m, k)]
  {
  }

  lemma {:induction false} RivalBag(job: JobOf, m: nat, k: nat, x: string, a: Shards)
    requires k <= m && a == Rival(job, m, k)
    ensures Bag(a)[x] == RivalCount(Is(job, x), m, k)
  {
    if k == 0 {
      assert a == [];
    } else {
      var rest, shard := Rival(job, m, k - 1), RivalShard(job, m, k - 1);
      assert a == rest + [shard] by { RivalSnoc(job, m, k - 1); }
      RivalBag(job, m, k - 1, x, rest);
      RivalShardBag(job, m, k - 1, x);
      RivalBagStep(Is(job, x), m, k - 1, rest, shard, x);
    }
  }

  lemma {:induction false} JobsBag(job: JobOf, k: nat, x: string)
    ensures multiset(Jobs(job, k))[x] == JobsCount(Is(job, x), k)
  {
    if k > 0 {
      JobsBag(job, k - 1, x);
      CountSnoc(Jobs(job, k - 1), job(k - 1), x);
    }
  }

  lemma SameBag(job: JobOf, m: nat, x: string)
    requires m > 0
    ensures Bag(Rival(job, m, m))[x] == multiset(Jobs(job, 2 * m + 1))[x]
  {
    var w := Is(job, x);
    assert Bag(Rival(job, m, m))[x] == RivalCount(w, m, m) by { RivalBag(job, m, m, x, Rival(job, m, m)); }
    assert multiset(Jobs(job, 2 * m + 1))[x] == JobsCount(w, 2 * m + 1) by { JobsBag(job, 2 * m + 1, x); }
    SameCount(w, m);
  }

  lemma RivalDistributes(job: JobOf, m: nat)
    requires m > 0
    ensures Distributes(Rival(job, m, m), Jobs(job, 2 * m + 1), m)
  {
    var a, b := Bag(Rival(job, m, m)), multiset(Jobs(job, 2 * m + 1));
    forall x ensures a[x] == b[x] {
      SameBag(job, m, x);
    }
  }

  // ---------- the greedy run ----------

  function Loads(cost: Costs, shards: Shards): seq<real> {
    seq(|shards|, i requires 0 <= i < |shards| => Sum(cost, shards[i]))
  }

  /** Placing a test replaces the least load, whichever shard carries it. */
  lemma AddReplacesLeast(cost: Costs, shards: Shards, x: string, loads: seq<real>, i: nat)
    requires shards != [] && multiset(Loads(cost, shards)) == multiset(loads)
    requires i < |loads| && forall k :: 0 <= k < |loads| ==> loads[i] <= loads[k]
    ensures multiset(Loads(cost, AddToLightest(cost, shards, x))) == multiset(loads[i := loads[i] + cost(x)])
  {
    var r := Lightest(cost, shards);
    var before, after := Loads(cost, shards), Loads(cost, AddToLightest(cost, shards, x));
    SumSnoc(cost, shards[r], x);
    assert before[r] == loads[i] by {
      assert before[r] in multiset(loads);
      assert loads[i] in multiset(before);
    }
    assert after == before[r := before[r] + cost(x)];
  }

  /** The loads after k tests, up to their order. First every test gets a shard of its own; then each
      joins the cheapest test that is still alone, and the two cost 3m-1. */
  function LoadAfter(m: nat, k: nat, i: nat): nat
    requires i < m && k <= 2 * m
  {
    if i < k && i < 2 * m - k then CostAt(m, 2 * m - i) else if k <= m then 0 else 3 * m - 1
  }

  ghost predicate LoadsAfter(m: nat, k: nat, loads: seq<real>)
    requires k <= 2 * m
  {
    |loads| == m && forall i :: 0 <= i < m ==> loads[i] == LoadAfter(m, k, i) as real
  }

  /** The shard, in that order, that the next test is put on. */
  function Target(m: nat, k: nat): (i: nat)
    requires k < 2 * m
    ensures i < m
  {
    if k < m then k else 2 * m - 1 - k
  }

  lemma NextLoad(m: nat, k: nat, j: nat)
    requires k < 2 * m && j < m
    ensures LoadAfter(m, k, Target(m, k)) <= LoadAfter(m, k, j)
    ensures LoadAfter(m, k + 1, j) ==
            if j == Target(m, k) then LoadAfter(m, k, j) + CostAt(m, 2 * m - k) else LoadAfter(m, k, j)
  {
  }

  lemma NextLoads(m: nat, k: nat, loads: seq<real>)
    requires k < 2 * m && LoadsAfter(m, k, loads)
    ensures forall j :: 0 <= j < m ==> loads[Target(m, k)] <= loads[j]
    ensures LoadsAfter(m, k + 1, loads[Target(m, k) := loads[Target(m, k)] + CostAt(m, 2 * m - k) as real])
  {
    forall j | 0 <= j < m
      ensures LoadAfter(m, k, Target(m, k)) <= LoadAfter(m, k, j)
      ensures LoadAfter(m, k + 1, j) ==
              if j == Target(m, k) then LoadAfter(m, k, j) + CostAt(m, 2 * m - k) else LoadAfter(m, k, j)
    {
      NextLoad(m, k, j);
    }
  }

  /** One greedy step keeps the loads in that shape. */
  lemma StepLoads(cost: Costs, x: string, m: nat, k: nat, shards: Shards, loads: seq<real>) returns (next: seq<real>)
    requires k < 2 * m && |shards| == m && cost(x) == CostAt(m, 2 * m - k) as real
    requires LoadsAfter(m, k, loads) && multiset(Loads(cost, shards)) == multiset(loads)
    ensures LoadsAfter(m, k + 1, next) && multiset(Loads(cost, AddToLightest(cost, shards, x))) == multiset(next)
  {
    var i := Target(m, k);
    NextLoads(m, k, loads);
    AddReplacesLeast(cost, shards, x, loads, i);
    next := loads[i := loads[i] + cost(x)];
  }

  /** The greedy run over the k cheapest tests. */
  function PlaceJobs(cost: Costs, job: JobOf, k: nat, shards: Shards): Shards
    requires shards != []
  {
    if k == 0 then shards else PlaceJobs(cost, job, k - 1, AddToLightest(cost, shards, job(k - 1)))
  }

  lemma PlaceLast(cost: Costs, rest: seq<string>, x: string, shards: Shards)
    requires shards != []
    ensures Place(cost, rest + [x], shards) == Place(cost, rest, AddToLightest(cost, shards, x))
  {
    assert (rest + [x])[..|rest|] == rest;
  }

  lemma JobsLast(job: JobOf, k: nat)
    ensures Jobs(job, k + 1) == Jobs(job, k) + [job(k)]
  {
  }

  lemma {:induction false} PlaceJobsIsPlace(cost: Costs, job: JobOf, k: nat, shards: Shards)
    requires shards != []
    ensures Place(cost, Jobs(job, k), shards) == PlaceJobs(cost, job, k, shards)
  {
    if k > 0 {
      var after := AddToLightest(cost, shards, job(k - 1));
      assert Place(cost, Jobs(job, k - 1), after) == PlaceJobs(cost, job, k - 1, after) by {
        PlaceJobsIsPlace(cost, job, k - 1, after);
      }
      JobsLast(job, k - 1);
      PlaceLast(cost, Jobs(job, k - 1), job(k - 1), shards);
    }
  }

  /** All but the last test even the shards out. */
  lemma {:induction false} RunLoads(cost: Costs, job: JobOf, m: nat, k: nat, shards: Shards, loads: seq<real>)
    returns (even: Shards, last: seq<real>)
    requires HasCosts(cost, job, m, 2 * m + 1) && m > 0 && k <= 2 * m && |shards| == m
    requires LoadsAfter(m, k, loads) && multiset(Loads(cost, shards)) == multiset(loads)
    ensures |even| == m && LoadsAfter(m, 2 * m, last) && multiset(Loads(cost, even)) == multiset(last)
    ensures PlaceJobs(cost, job, 2 * m + 1 - k, shards) == AddToLightest(cost, even, job(0))
    decreases 2 * m - k
  {
    var x := job(2 * m - k);
    if k < 2 * m {
      CostOfJob(cost, job, m, 2 * m + 1, 2 * m - k);
      var next := StepLoads(cost, x, m, k, shards, loads);
      even, last := RunLoads(cost, job, m, k + 1, AddToLightest(cost, shards, x), next);
    } else {
      even, last := shards, loads;
    }
  }

  /** The last test has to go on top of a load of 3m-1. */
  lemma LastLoad(cost: Costs, x: string, m: nat, even: Shards, last: seq<real>) returns (i: nat)
    requires cost(x) == m as real && m > 0 && |even| == m
    requires LoadsAfter(m, 2 * m, last) && multiset(Loads(cost, even)) == multiset(last)
    ensures i < m && Sum(cost, AddToLightest(cost, even, x)[i]) == 4.0 * m as real - 1.0
  {
    i := Lightest(cost, even);
    SumSnoc(cost, even[i], x);
    assert Loads(cost, even)[i] in multiset(last);
  }

  lemma {:induction false} JobsAscend(cost: Costs, job: JobOf, m: nat, k: nat)
    requires HasCosts(cost, job, m, k)
    ensures Ascending(cost, Jobs(job, k))
    ensures forall i :: 0 <= i < k ==> 0.0 <= cost(Jobs(job, k)[i]) <= CostAt(m, k) as real
  {
    if k > 0 {
      JobsAscend(cost, job, m, k - 1);
    }
  }

  lemma NoLoads(cost: Costs, m: nat)
    ensures LoadsAfter(m, 0, Loads(cost, EmptyShards(m)))
  {
  }

  lemma ScheduleOfAscending(cost: Costs, names: seq<string>, m: nat)
    requires Ascending(cost, names) && m > 0
    ensures Schedule(cost, names, m) == Some(Place(cost, names, EmptyShards(m)))
  {
    SortOfSorted(ByCost(cost), names);
  }

  lemma ScheduleOfJobs(cost: Costs, job: JobOf, m: nat, k: nat)
    requires HasCosts(cost, job, m, k) && m > 0
    ensures Schedule(cost, Jobs(job, k), m) == Some(PlaceJobs(cost, job, k, EmptyShards(m)))
  {
    JobsAscend(cost, job, m, k);
    ScheduleOfAscending(cost, Jobs(job, k), m);
    PlaceJobsIsPlace(cost, job, k, EmptyShards(m));
  }

  lemma TightRun(cost: Costs, job: JobOf, m: nat, run: Shards) returns (i: nat)
    requires HasCosts(cost, job, m, 2 * m + 1) && m > 0
    requires run == PlaceJobs(cost, job, 2 * m + 1, EmptyShards(m))
    ensures i < m && i < |run| && Sum(cost, run[i]) == 4.0 * m as real - 1.0
  {
    NoLoads(cost, m);
    CostOfJob(cost, job, m, 2 * m + 1, 0);
    var even, last := RunLoads(cost, job, m, 0, EmptyShards(m), Loads(cost, EmptyShards(m)));
    i := LastLoad(cost, job(0), m, even, last);
  }

  // ---------- an instance with distinct names ----------

  /** Tests named by their index. */
  function Numbered(): JobOf {
    i => if i >= 0 then Decimal(i) else ""
  }

  function NumberedCost(m: nat): Costs {
    n => if AllDigits(n) then CostAt(m, Value(n)) as real else 0.0
  }

  lemma {:induction false} NumberedHasCosts(m: nat, k: nat)
    ensures HasCosts(NumberedCost(m), Numbered(), m, k)
  {
    if k > 0 {
      NumberedHasCosts(m, k - 1);
      ValueOfDecimal(k - 1);
    }
  }

  lemma {:induction false} NumberedAreDistinct(k: nat)
    ensures forall i :: 0 <= i < k ==> Jobs(Numbered(), k)[i] == Decimal(i)
    ensures forall i, j :: 0 <= i < j < k ==> Jobs(Numbered(), k)[i] != Jobs(Numbered(), k)[j]
  {
    if k > 0 {
      NumberedAreDistinct(k - 1);
      forall i | 0 <= i < k - 1 ensures Decimal(i) != Decimal(k - 1) {
        ValueOfDecimal(i);
        ValueOfDecimal(k - 1);
      }
    }
  }

  lemma TightRatio(m: nat)
    requires m > 0
    ensures 4.0 * m as real - 1.0 == (4.0 / 3.0 - 1.0 / (3.0 * m as real)) * (3.0 * m as real)
  {
    var r := m as real;
    assert 1.0 / (3.0 * r) * (3.0 * r) == 1.0;
  }

  /** Graham's factor cannot be lowered, for any number of shards: there are distinct tests and a
      distribution `a` of them that needs 3m, and the schedule has a shard whose load is exactly
      4/3 - 1/(3m) times that. */
  lemma FourThirdsIsTight(m: nat) returns (cost: Costs, names: seq<string>, a: Shards, i: nat)
    requires m > 0
    ensures NonNegative(cost, names)
    ensures forall j, k :: 0 <= j < k < |names| ==> names[j] != names[k]
    ensures Distributes(a, names, m) && LoadsAtMost(cost, a, 3.0 * m as real)
    ensures i < m && Sum(cost, Schedule(cost, names, m).value[i]) ==
                     (4.0 / 3.0 - 1.0 / (3.0 * m as real)) * (3.0 * m as real)
  {
    var job := Numbered();
    cost, names, a := NumberedCost(m), Jobs(job, 2 * m + 1), Rival(job, m, m);
    NumberedHasCosts(m, 2 * m + 1);
    NumberedAreDistinct(2 * m + 1);
    JobsAscend(cost, job, m, 2 * m + 1);
    RivalDistributes(job, m);
    RivalLoads(cost, job, m, m);
    ScheduleOfJobs(cost, job, m, 2 * m + 1);
    i := TightRun(cost, job, m, Schedule(cost, names, m).value);
    TightRatio(m);
  }
}
