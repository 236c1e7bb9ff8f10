/** The scheduler's datastore and its two request handlers, one request at a time. */
module Scheduler {
  import opened Wrappers
  import opened Strings
  import opened Ewma
  import opened Greedy
  import TestNames

  type Tests = map<string, TestStats>
  type Schedules = map<string, Shards>

  datatype Request = Request(testRun: string, shardCount: nat, shard: nat, names: seq<string>)

  /** How a `schedule` request ends. The two failures are Python's ValueError from `min` of nothing
      and its KeyError for a shard that the schedule does not have. */
  datatype Reply = Assigned(tests: seq<string>) | NoShards | NoSuchShard

  // ---------- schedule ids ----------

  /** `"%s-%d" % (test_run, shard_count)`. */
  function ScheduleId(testRun: string, shardCount: nat): string {
    testRun + "-" + Decimal(shardCount)
  }

  /** Two requests share an id only when run and shard count agree, whatever dashes and digits the
      run name contains. */
  lemma ScheduleIdIsInjective(r: string, m: nat, r': string, m': nat)
    requires ScheduleId(r, m) == ScheduleId(r', m')
    ensures r == r' && m == m'
  {
    UniqueSplit(r, Decimal(m), r', Decimal(m'), '-');
    ValueOfDecimal(m);
    ValueOfDecimal(m');
  }

  /** What an id looks like: the run name, a dash, and the shard count as a numeral without leading
      zeros. */
  lemma ScheduleIdReadsBack(testRun: string, shardCount: nat)
    ensures var id, n := ScheduleId(testRun, shardCount), |testRun|;
            && |id| > n + 1 && id[..n] == testRun && id[n] == '-'
            && AllDigits(id[n + 1..]) && Value(id[n + 1..]) == shardCount
            && (id[n + 1] == '0' ==> id[n + 1..] == "0")
  {
    var id, n := ScheduleId(testRun, shardCount), |testRun|;
    assert id[n + 1..] == Decimal(shardCount);
    ValueOfDecimal(shardCount);
  }

  // ---------- costs ----------

  /** `avg`: hosts times average run time; 1 for a test that was never recorded. */
  function Cost(tests: Tests, name: string): real {
    if name in tests then TestNames.Parallelism(name) as real * tests[name].totalRunTime else 1.0
  }

  function CostsOf(seen: map<string, real>): Costs {
    n => if n in seen then seen[n] else 0.0
  }

  function Record(tests: Tests, name: string, runtime: real): Tests {
    tests[name := Observe(if name in tests then tests[name] else FRESH, runtime)]
  }

  function Slice(shards: Shards, shard: nat): Reply {
    if shard < |shards| then Assigned(shards[shard]) else NoSuchShard
  }

  /** The outcome of a request that no other request interleaves with. */
  function Serve(tests: Tests, schedules: Schedules, req: Request): (Reply, Schedules) {
    var id := ScheduleId(req.testRun, req.shardCount);
    if id in schedules then (Slice(schedules[id], req.shard), schedules)
    else
      match Schedule(n => Cost(tests, n), req.names, req.shardCount)
      case None => (NoShards, schedules)
      case Some(shards) => (Slice(shards, req.shard), schedules[id := shards])
  }

  class Datastore {
    var tests: Tests
    var schedules: Schedules

    constructor ()
      ensures tests == map[] && schedules == map[]
    {
      tests, schedules := map[], map[];
    }

    /** The `record` handler, one transaction. */
    method RecordRun(testName: string, runtime: real)
      modifies this`tests
      ensures tests == Record(old(tests), testName, runtime)
      ensures tests == old(tests)[testName :=
                if testName in old(tests)
                then TestStats(0.7 * old(tests)[testName].totalRunTime + 0.3 * runtime, old(tests)[testName].totalRuns + 1)
                else TestStats(0.3 * runtime, 1)]
    {
      var test := FRESH;
      if testName in tests {
        test := tests[testName];
      }
      test := test.(totalRunTime := test.totalRunTime * (1.0 - ALPHA) + runtime * ALPHA);
      test := test.(totalRuns := test.totalRuns + 1);
      tests := tests[testName := test];
    }

    /** `Schedule.get_or_insert`, atomic. */
    method GetOrInsert(id: string, shards: Shards) returns (stored: Shards)
      modifies this`schedules
      ensures schedules == if id in old(schedules) then old(schedules) else old(schedules)[id := shards]
      ensures id in schedules && stored == schedules[id]
    {
      if id !in schedules {
        schedules := schedules[id := shards];
      }
      stored := schedules[id];
    }

    /** The `schedule` handler. */
    method ScheduleRequest(req: Request) returns (reply: Reply)
      modifies this`schedules
      ensures (reply, schedules) == Serve(tests, old(schedules), req)
    {
      var id := ScheduleId(req.testRun, req.shardCount);
      if id in schedules {
        return Slice(schedules[id], req.shard);
      }
      var known := tests;
      var shards := BuildShards(n => Cost(known, n), req.names, req.shardCount);
      if shards.None? {
        return NoShards;
      }
      var stored := GetOrInsert(id, shards.value);
      reply := Slice(stored, req.shard);
    }
  }
}
