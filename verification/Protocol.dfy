/** Any number of `schedule` requests and `record` calls, interleaved arbitrarily. A request looks
    up its schedule, reads the costs of its tests one by one if there is none, and then computes a
    schedule and gets or inserts it in one atomic step. */
module Protocol {
  import opened Wrappers
  import opened Sums
  import opened Ewma
  import opened Greedy
  import opened Scheduler
  import TestNames

  /** Where a request is. `seen` holds the costs read so far. */
  datatype Client = Waiting | Reading(seen: map<string, real>) | Done(reply: Reply)

  /** Who inserted a schedule, and the costs it was computed from. Kept for the proofs only. */
  datatype Origin = Origin(client: nat, seen: map<string, real>)

  datatype State = State(tests: Tests, schedules: Schedules, clients: seq<Client>, origins: map<string, Origin>)

  datatype Step = Lookup(client: nat) | Read(client: nat, name: string) | Insert(client: nat)
                | Post(name: string, runtime: real)

  function IdOf(req: Request): string {
    ScheduleId(req.testRun, req.shardCount)
  }

  function Init(reqs: seq<Request>): State {
    State(map[], map[], seq(|reqs|, _ => Waiting), map[])
  }

  predicate AllRead(req: Request, seen: map<string, real>) {
    forall i :: 0 <= i < |req.names| ==> req.names[i] in seen
  }

  function Become(s: State, i: nat, c: Client): State
    requires i < |s.clients|
  {
    s.(clients := s.clients[i := c])
  }

  function Store(s: State, id: string, shards: Shards, origin: Origin): State {
    s.(schedules := s.schedules[id := shards], origins := s.origins[id := origin])
  }

  function DoLookup(reqs: seq<Request>, s: State, i: nat): State
    requires i < |reqs| == |s.clients|
  {
    var id := IdOf(reqs[i]);
    Become(s, i, if id in s.schedules then Done(Slice(s.schedules[id], reqs[i].shard)) else Reading(map[]))
  }

  function DoInsert(reqs: seq<Request>, s: State, i: nat): State
    requires i < |reqs| == |s.clients| && s.clients[i].Reading?
  {
    var req, seen := reqs[i], s.clients[i].seen;
    var id := IdOf(req);
    match Schedule(CostsOf(seen), req.names, req.shardCount)
    case None => Become(s, i, Done(NoShards))
    case Some(shards) =>
      if id in s.schedules then Become(s, i, Done(Slice(s.schedules[id], req.shard)))
      else
        Become(Store(s, id, shards, Origin(i, seen)), i, Done(Slice(shards, req.shard)))
  }

  /** One step; a step that is not possible changes nothing. */
  function Next(reqs: seq<Request>, s: State, step: Step): State
    requires |s.clients| == |reqs|
  {
    match step
    case Lookup(i) =>
      if i < |reqs| && s.clients[i].Waiting? then DoLookup(reqs, s, i) else s
    case Read(i, name) =>
      if i < |reqs| && s.clients[i].Reading? && name in reqs[i].names && name !in s.clients[i].seen
      then Become(s, i, Reading(s.clients[i].seen[name := Cost(s.tests, name)])) else s
    case Insert(i) =>
      if i < |reqs| && s.clients[i].Reading? && AllRead(reqs[i], s.clients[i].seen)
      then DoInsert(reqs, s, i) else s
    case Post(name, runtime) => s.(tests := Record(s.tests, name, runtime))
  }

  function After(reqs: seq<Request>, s: State, steps: seq<Step>): (t: State)
    requires |s.clients| == |reqs|
    ensures |t.clients| == |reqs|
  {
    if steps == [] then s
    else Next(reqs, After(reqs, s, steps[..|steps| - 1]), steps[|steps| - 1])
  }

  /** The state after any interleaving. */
  function Run(reqs: seq<Request>, steps: seq<Step>): (s: State)
    ensures |s.clients| == |reqs|
  {
    After(reqs, Init(reqs), steps)
  }

  lemma {:induction false} AfterConcat(reqs: seq<Request>, s: State, a: seq<Step>, b: seq<Step>)
    requires |s.clients| == |reqs|
    ensures After(reqs, s, a + b) == After(reqs, After(reqs, s, a), b)
  {
    if b == [] {
      assert a + b == a;
    } else {
      var front, last := b[..|b| - 1], b[|b| - 1];
      AfterConcat(reqs, s, a, front);
      assert a + b == (a + front) + [last] && (a + b)[..|a + b| - 1] == a + front;
    }
  }

  lemma AfterSnoc(reqs: seq<Request>, s: State, a: seq<Step>, step: Step)
    requires |s.clients| == |reqs|
    ensures After(reqs, s, a + [step]) == Next(reqs, After(reqs, s, a), step)
  {
  }

  lemma AfterFirst(reqs: seq<Request>, s: State, step: Step)
    requires |s.clients| == |reqs|
    ensures After(reqs, s, [step]) == Next(reqs, s, step)
  {
  }

  // ---------- the invariant of every interleaving ----------

  ghost predicate ClientOk(reqs: seq<Request>, s: State, i: nat)
    requires i < |reqs| == |s.clients|
  {
    var id := IdOf(reqs[i]);
    match s.clients[i]
    case Done(Assigned(tests)) => id in s.schedules && Slice(s.schedules[id], reqs[i].shard) == Assigned(tests)
    case Done(NoSuchShard) => id in s.schedules && reqs[i].shard >= |s.schedules[id]|
    case Done(NoShards) => reqs[i].shardCount == 0 && reqs[i].names != []
    case _ => true
  }

  ghost predicate ScheduleOk(reqs: seq<Request>, s: State, id: string)
    requires id in s.schedules
  {
    && id in s.origins
    && var o := s.origins[id];
    && o.client < |reqs|
    && var req := reqs[o.client];
    && IdOf(req) == id && AllRead(req, o.seen)
    && Schedule(CostsOf(o.seen), req.names, req.shardCount) == Some(s.schedules[id])
  }

  ghost predicate Inv(reqs: seq<Request>, s: State) {
    && |s.clients| == |reqs|
    && (forall i :: 0 <= i < |reqs| ==> ClientOk(reqs, s, i))
    && (forall id :: id in s.schedules ==> ScheduleOk(reqs, s, id))
  }

  /** Schedules are only ever added. */
  ghost predicate Extends(s: State, t: State) {
    forall id :: id in s.schedules ==> id in t.schedules && t.schedules[id] == s.schedules[id]
  }

  /** What others see of a step that ends client i and leaves the schedules extended. */
  lemma EndKeepsInv(reqs: seq<Request>, s: State, t: State, i: nat)
    requires Inv(reqs, s) && i < |reqs|
    requires |t.clients| == |reqs| && t.clients == s.clients[i := t.clients[i]] && ClientOk(reqs, t, i)
    requires Extends(s, t)
    requires forall id :: id in t.schedules ==> ScheduleOk(reqs, t, id)
    ensures Inv(reqs, t)
  {
    forall k | 0 <= k < |reqs| ensures ClientOk(reqs, t, k) {
      assert ClientOk(reqs, s, k);
    }
  }

  /** Ending or advancing a client without touching the schedules. */
  lemma BecomeKeepsInv(reqs: seq<Request>, s: State, i: nat, c: Client)
    requires Inv(reqs, s) && i < |reqs| && ClientOk(reqs, Become(s, i, c), i)
    ensures Inv(reqs, Become(s, i, c))
    ensures Extends(s, Become(s, i, c))
  {
    var t := Become(s, i, c);
    forall id | id in t.schedules ensures ScheduleOk(reqs, t, id) {
      assert ScheduleOk(reqs, s, id);
    }
    EndKeepsInv(reqs, s, t, i);
  }

  lemma StoreKeepsInv(reqs: seq<Request>, s: State, id: string, shards: Shards, origin: Origin)
    requires Inv(reqs, s) && id !in s.schedules
    requires ScheduleOk(reqs, Store(s, id, shards, origin), id)
    ensures Inv(reqs, Store(s, id, shards, origin))
  {
    var t := Store(s, id, shards, origin);
    forall other | other in t.schedules ensures ScheduleOk(reqs, t, other) {
      if other != id {
        assert ScheduleOk(reqs, s, other);
      }
    }
    forall k | 0 <= k < |reqs| ensures ClientOk(reqs, t, k) {
      assert ClientOk(reqs, s, k);
    }
  }

  lemma FirstInsertKeepsInv(reqs: seq<Request>, s: State, i: nat, shards: Shards)
    requires Inv(reqs, s) && i < |reqs| && s.clients[i].Reading? && AllRead(reqs[i], s.clients[i].seen)
    requires Schedule(CostsOf(s.clients[i].seen), reqs[i].names, reqs[i].shardCount) == Some(shards)
    requires IdOf(reqs[i]) !in s.schedules
    ensures var t := Store(s, IdOf(reqs[i]), shards, Origin(i, s.clients[i].seen));
            Inv(reqs, Become(t, i, Done(Slice(shards, reqs[i].shard))))
  {
    var t := Store(s, IdOf(reqs[i]), shards, Origin(i, s.clients[i].seen));
    StoreKeepsInv(reqs, s, IdOf(reqs[i]), shards, Origin(i, s.clients[i].seen));
    BecomeKeepsInv(reqs, t, i, Done(Slice(shards, reqs[i].shard)));
  }

  lemma DoInsertKeepsInv(reqs: seq<Request>, s: State, i: nat)
    requires Inv(reqs, s) && i < |reqs| && s.clients[i].Reading? && AllRead(reqs[i], s.clients[i].seen)
    ensures Inv(reqs, DoInsert(reqs, s, i))
    ensures Extends(s, DoInsert(reqs, s, i))
  {
    var req, seen := reqs[i], s.clients[i].seen;
    match Schedule(CostsOf(seen), req.names, req.shardCount)
    case None =>
      SchedulePartitions(CostsOf(seen), req.names, req.shardCount);
      BecomeKeepsInv(reqs, s, i, Done(NoShards));
    case Some(shards) =>
      if IdOf(req) in s.schedules {
        BecomeKeepsInv(reqs, s, i, Done(Slice(s.schedules[IdOf(req)], req.shard)));
      } else {
        FirstInsertKeepsInv(reqs, s, i, shards);
      }
  }

  lemma PostKeepsInv(reqs: seq<Request>, s: State, tests: Tests)
    requires Inv(reqs, s)
    ensures Inv(reqs, s.(tests := tests))
  {
    var t := s.(tests := tests);
    forall id | id in t.schedules ensures ScheduleOk(reqs, t, id) {
      assert ScheduleOk(reqs, s, id);
    }
    forall k | 0 <= k < |reqs| ensures ClientOk(reqs, t, k) {
      assert ClientOk(reqs, s, k);
    }
  }

  lemma NextKeepsInv(reqs: seq<Request>, s: State, step: Step)
    requires Inv(reqs, s)
    ensures Inv(reqs, Next(reqs, s, step))
    ensures Extends(s, Next(reqs, s, step))
  {
    match step
    case Lookup(i) =>
      if i < |reqs| && s.clients[i].Waiting? {
        BecomeKeepsInv(reqs, s, i, DoLookup(reqs, s, i).clients[i]);
      }
    case Read(i, name) =>
      if i < |reqs| && s.clients[i].Reading? {
        BecomeKeepsInv(reqs, s, i, Reading(s.clients[i].seen[name := Cost(s.tests, name)]));
      }
    case Insert(i) =>
      if i < |reqs| && s.clients[i].Reading? && AllRead(reqs[i], s.clients[i].seen) {
        DoInsertKeepsInv(reqs, s, i);
      }
    case Post(name, runtime) =>
      PostKeepsInv(reqs, s, Record(s.tests, name, runtime));
  }

  lemma {:induction false} RunKeepsInv(reqs: seq<Request>, steps: seq<Step>)
    ensures Inv(reqs, Run(reqs, steps))
  {
    if steps != [] {
      RunKeepsInv(reqs, steps[..|steps| - 1]);
      NextKeepsInv(reqs, Run(reqs, steps[..|steps| - 1]), steps[|steps| - 1]);
    }
  }

  lemma RunNext(reqs: seq<Request>, steps: seq<Step>, more: seq<Step>)
    requires more != []
    ensures Run(reqs, steps + more) == Next(reqs, Run(reqs, steps + more[..|more| - 1]), more[|more| - 1])
  {
    AfterSnoc(reqs, Init(reqs), steps + more[..|more| - 1], more[|more| - 1]);
    assert steps + more == steps + more[..|more| - 1] + [more[|more| - 1]];
  }

  /** A stored schedule never changes and never goes away, however the run continues. */
  lemma {:induction false} SchedulesAreStable(reqs: seq<Request>, steps: seq<Step>, more: seq<Step>)
    ensures Extends(Run(reqs, steps), Run(reqs, steps + more))
  {
    if more == [] {
      assert steps + more == steps;
    } else {
      var n := |more| - 1;
      SchedulesAreStable(reqs, steps, more[..n]);
      RunNext(reqs, steps, more);
      RunKeepsInv(reqs, steps + more[..n]);
      NextKeepsInv(reqs, Run(reqs, steps + more[..n]), more[n]);
    }
  }

  lemma DoneStays(reqs: seq<Request>, s: State, step: Step, i: nat)
    requires i < |reqs| == |s.clients| && s.clients[i].Done?
    ensures Next(reqs, s, step).clients[i] == s.clients[i]
  {
  }

  lemma {:induction false} DoneIsFinal(reqs: seq<Request>, steps: seq<Step>, more: seq<Step>, i: nat)
    requires i < |reqs| && Run(reqs, steps).clients[i].Done?
    ensures Run(reqs, steps + more).clients[i] == Run(reqs, steps).clients[i]
  {
    if more == [] {
      assert steps + more == steps;
    } else {
      var n := |more| - 1;
      DoneIsFinal(reqs, steps, more[..n], i);
      RunNext(reqs, steps, more);
      DoneStays(reqs, Run(reqs, steps + more[..n]), more[n], i);
    }
  }

  // ---------- agreement ----------

  /** All requests of one id ask for as many shards as the stored schedule has. */
  lemma ShardCountsAgree(reqs: seq<Request>, steps: seq<Step>, i: nat)
    requires i < |reqs| && IdOf(reqs[i]) in Run(reqs, steps).schedules
    ensures |Run(reqs, steps).schedules[IdOf(reqs[i])]| == reqs[i].shardCount
  {
    var s, id := Run(reqs, steps), IdOf(reqs[i]);
    RunKeepsInv(reqs, steps);
    assert ScheduleOk(reqs, s, id);
    var w := reqs[s.origins[id].client];
    ScheduleIdIsInjective(w.testRun, w.shardCount, reqs[i].testRun, reqs[i].shardCount);
  }

  /** A request that has a reply got, and for the rest of any run keeps, its slice of the stored
      schedule; it fails exactly when the shard it asked for is out of range. */
  lemma RepliesAreSlices(reqs: seq<Request>, steps: seq<Step>, more: seq<Step>, i: nat)
    requires i < |reqs| && Run(reqs, steps).clients[i].Done?
    ensures var s, req := Run(reqs, steps + more), reqs[i];
            && s.clients[i] == Run(reqs, steps).clients[i]
            && (s.clients[i].reply.Assigned? <==> req.shard < req.shardCount)
            && (s.clients[i].reply.Assigned? ==>
                && IdOf(req) in s.schedules && |s.schedules[IdOf(req)]| == req.shardCount
                && s.clients[i].reply.tests == s.schedules[IdOf(req)][req.shard])
            && (s.clients[i].reply.NoSuchShard? ==> IdOf(req) in s.schedules && req.shard >= req.shardCount)
            && (s.clients[i].reply.NoShards? ==> req.shardCount == 0 && req.names != [])
  {
    RunKeepsInv(reqs, steps + more);
    DoneIsFinal(reqs, steps, more, i);
    assert ClientOk(reqs, Run(reqs, steps + more), i);
    if IdOf(reqs[i]) in Run(reqs, steps + more).schedules {
      ShardCountsAgree(reqs, steps + more, i);
    }
  }

  /** Whoever asks twice for the same slice of the same run is told the same tests, whatever test
      lists and costs the two requests carried. */
  lemma SameQuestionSameAnswer(reqs: seq<Request>, steps: seq<Step>, i: nat, j: nat)
    requires i < |reqs| && j < |reqs| && Run(reqs, steps).clients[i].Done? && Run(reqs, steps).clients[j].Done?
    requires reqs[i].testRun == reqs[j].testRun && reqs[i].shardCount == reqs[j].shardCount
    requires reqs[i].shard == reqs[j].shard < reqs[i].shardCount
    ensures Run(reqs, steps).clients[i] == Run(reqs, steps).clients[j]
  {
    assert steps + [] == steps;
    RepliesAreSlices(reqs, steps, [], i);
    RepliesAreSlices(reqs, steps, [], j);
  }

  /** `who` are answered requests for the shards 0, 1, ... of one run. */
  ghost predicate Asked(reqs: seq<Request>, s: State, who: seq<nat>, testRun: string)
    requires |s.clients| == |reqs|
  {
    forall k :: 0 <= k < |who| ==>
      && who[k] < |reqs| && s.clients[who[k]].Done?
      && reqs[who[k]].testRun == testRun && reqs[who[k]].shardCount == |who| && reqs[who[k]].shard == k
  }

  /** Together the replies for all shards of a run are the tests of one request of that run, each
      exactly as often as that request named it, even when the requests raced and computed
      different schedules. */
  lemma RepliesPartition(reqs: seq<Request>, steps: seq<Step>, who: seq<nat>, testRun: string, replies: Shards)
    returns (winner: nat)
    requires who != [] && Asked(reqs, Run(reqs, steps), who, testRun)
    requires |replies| == |who|
    requires forall k :: 0 <= k < |who| ==> Run(reqs, steps).clients[who[k]].reply == Assigned(replies[k])
    ensures winner < |reqs| && reqs[winner].testRun == testRun && reqs[winner].shardCount == |who|
    ensures Bag(replies) == multiset(reqs[winner].names)
  {
    var s, id := Run(reqs, steps), ScheduleId(testRun, |who|);
    assert steps + [] == steps;
    forall k | 0 <= k < |who| ensures id in s.schedules && |s.schedules[id]| == |who| && replies[k] == s.schedules[id][k] {
      RepliesAreSlices(reqs, steps, [], who[k]);
    }
    assert id in s.schedules && |s.schedules[id]| == |who| by { assert reqs[who[0]].shard == 0; }
    assert replies == s.schedules[id];
    RunKeepsInv(reqs, steps);
    assert ScheduleOk(reqs, s, id);
    winner := s.origins[id].client;
    var w := reqs[winner];
    ScheduleIdIsInjective(w.testRun, w.shardCount, testRun, |who|);
    SchedulePartitions(CostsOf(s.origins[id].seen), w.names, w.shardCount);
  }

  // ---------- what was recorded ----------

  /** The run times posted for one test, in order. */
  function Posted(name: string, steps: seq<Step>): seq<real> {
    if steps == [] then []
    else
      var before, last := Posted(name, steps[..|steps| - 1]), steps[|steps| - 1];
      if last.Post? && last.name == name then before + [last.runtime] else before
  }

  lemma TestsAfter(reqs: seq<Request>, s: State, step: Step)
    requires |s.clients| == |reqs|
    ensures Next(reqs, s, step).tests == if step.Post? then Record(s.tests, step.name, step.runtime) else s.tests
  {
  }

  /** No update is lost and none leaks to another test: an entity is exactly the moving average of
      the run times posted under its name. */
  lemma {:induction false} EntityIsReplay(reqs: seq<Request>, steps: seq<Step>, name: string)
    ensures name in Run(reqs, steps).tests <==> Posted(name, steps) != []
    ensures name in Run(reqs, steps).tests ==>
              && Run(reqs, steps).tests[name] == ObserveAll(FRESH, Posted(name, steps))
              && Run(reqs, steps).tests[name].totalRuns == |Posted(name, steps)|
  {
    AverageIsWeighted(FRESH, Posted(name, steps));
    if steps != [] {
      var n := |steps| - 1;
      EntityIsReplay(reqs, steps[..n], name);
      TestsAfter(reqs, Run(reqs, steps[..n]), steps[n]);
      if steps[n].Post? {
        ObserveAllSnoc(FRESH, Posted(name, steps[..n]), steps[n].runtime);
      }
    }
  }

  /** What a test costs after these run times were posted for it: 1 if there are none, and otherwise
      its host count times their exponentially weighted sum. */
  function CostAfter(name: string, runtimes: seq<real>): real {
    if runtimes == [] then 1.0 else TestNames.Parallelism(name) as real * Weighted(runtimes)
  }

  lemma CostOfEntity(tests: Tests, name: string, runtimes: seq<real>)
    requires name in tests <==> runtimes != []
    requires name in tests ==> tests[name] == ObserveAll(FRESH, runtimes)
    ensures Cost(tests, name) == CostAfter(name, runtimes)
  {
    FreshAverage(runtimes);
  }

  /** The cost of a test at any moment of any run depends on the run times posted for it only. */
  lemma CostOfHistory(reqs: seq<Request>, steps: seq<Step>, name: string)
    ensures Cost(Run(reqs, steps).tests, name) == CostAfter(name, Posted(name, steps))
  {
    EntityIsReplay(reqs, steps, name);
    CostOfEntity(Run(reqs, steps).tests, name, Posted(name, steps));
  }

  // ---------- how good the agreed schedule is ----------

  ghost predicate NonNegativePosts(steps: seq<Step>) {
    forall i :: 0 <= i < |steps| && steps[i].Post? ==> steps[i].runtime >= 0.0
  }

  /** At some moment of the run, after request i had found no schedule and before it was answered,
      the cost of `name` was `c`. */
  ghost predicate WasRead(reqs: seq<Request>, steps: seq<Step>, i: nat, name: string, c: real) {
    exists k :: 0 <= k <= |steps| && ReadAt(reqs, Run(reqs, steps[..k]), i, name, c)
  }

  ghost predicate ReadAt(reqs: seq<Request>, s: State, i: nat, name: string, c: real) {
    i < |s.clients| && s.clients[i].Reading? && c == Cost(s.tests, name)
  }

  /** All costs in `seen` were read by request i. */
  ghost predicate Observed(reqs: seq<Request>, steps: seq<Step>, i: nat, seen: map<string, real>) {
    forall n :: n in seen ==> WasRead(reqs, steps, i, n, seen[n])
  }

  lemma ObservedLater(reqs: seq<Request>, steps: seq<Step>, step: Step, i: nat, seen: map<string, real>)
    requires Observed(reqs, steps, i, seen)
    ensures Observed(reqs, steps + [step], i, seen)
  {
    forall n | n in seen ensures WasRead(reqs, steps + [step], i, n, seen[n]) {
      var k :| 0 <= k <= |steps| && ReadAt(reqs, Run(reqs, steps[..k]), i, n, seen[n]);
      assert (steps + [step])[..k] == steps[..k];
    }
  }

  /** All costs that a request has read, or that a stored schedule was computed from, were read by
      that request at some moment of the run. */
  ghost predicate AllObserved(reqs: seq<Request>, steps: seq<Step>, s: State) {
    && (forall i :: 0 <= i < |s.clients| && s.clients[i].Reading? ==> Observed(reqs, steps, i, s.clients[i].seen))
    && (forall id :: id in s.origins ==> Observed(reqs, steps, s.origins[id].client, s.origins[id].seen))
  }

  lemma AllObservedLater(reqs: seq<Request>, steps: seq<Step>, step: Step, s: State)
    requires AllObserved(reqs, steps, s)
    ensures AllObserved(reqs, steps + [step], s)
  {
    forall i | 0 <= i < |s.clients| && s.clients[i].Reading?
      ensures Observed(reqs, steps + [step], i, s.clients[i].seen)
    {
      ObservedLater(reqs, steps, step, i, s.clients[i].seen);
    }
    forall id | id in s.origins
      ensures Observed(reqs, steps + [step], s.origins[id].client, s.origins[id].seen)
    {
      ObservedLater(reqs, steps, step, s.origins[id].client, s.origins[id].seen);
    }
  }

  lemma InsertReadsNothing(reqs: seq<Request>, steps: seq<Step>, s: State, i: nat)
    requires |s.clients| == |reqs| && AllObserved(reqs, steps, s)
    ensures AllObserved(reqs, steps, Next(reqs, s, Insert(i)))
  {
    var t := Next(reqs, s, Insert(i));
    forall k | 0 <= k < |t.clients| && t.clients[k].Reading? ensures Observed(reqs, steps, k, t.clients[k].seen) {
      assert t.clients[k] == s.clients[k];
    }
  }

  lemma ReadIsObserved(reqs: seq<Request>, steps: seq<Step>, s: State, i: nat, name: string)
    requires |s.clients| == |reqs| && AllObserved(reqs, steps, s)
    requires i < |reqs| && s.clients[i].Reading? ==> WasRead(reqs, steps, i, name, Cost(s.tests, name))
    ensures AllObserved(reqs, steps, Next(reqs, s, Read(i, name)))
  {
  }

  lemma OthersReadNothing(reqs: seq<Request>, steps: seq<Step>, s: State, step: Step)
    requires |s.clients| == |reqs| && AllObserved(reqs, steps, s) && (step.Lookup? || step.Post?)
    ensures AllObserved(reqs, steps, Next(reqs, s, step))
  {
  }

  lemma CurrentCostIsRead(reqs: seq<Request>, before: seq<Step>, step: Step, i: nat, name: string)
    requires i < |reqs| && Run(reqs, before).clients[i].Reading?
    ensures WasRead(reqs, before + [step], i, name, Cost(Run(reqs, before).tests, name))
  {
    assert (before + [step])[..|before|] == before;
    assert ReadAt(reqs, Run(reqs, (before + [step])[..|before|]), i, name, Cost(Run(reqs, before).tests, name));
  }

  lemma {:induction false} CostsAreObserved(reqs: seq<Request>, steps: seq<Step>)
    ensures AllObserved(reqs, steps, Run(reqs, steps))
  {
    if steps != [] {
      var before, step := steps[..|steps| - 1], steps[|steps| - 1];
      var s := Run(reqs, before);
      CostsAreObserved(reqs, before);
      AllObservedLater(reqs, before, step, s);
      assert steps == before + [step];
      match step
      case Insert(i) => InsertReadsNothing(reqs, steps, s, i);
      case Read(i, name) =>
        if i < |reqs| && s.clients[i].Reading? {
          CurrentCostIsRead(reqs, before, step, i, name);
        }
        ReadIsObserved(reqs, steps, s, i, name);
      case _ => OthersReadNothing(reqs, steps, s, step);
    }
  }

  lemma CostOfNonNegative(tests: Tests, name: string)
    requires name in tests ==> tests[name].totalRunTime >= 0.0
    ensures Cost(tests, name) >= 0.0
  {
  }

  lemma CostIsNonNegative(reqs: seq<Request>, steps: seq<Step>, name: string)
    requires NonNegativePosts(steps)
    ensures Cost(Run(reqs, steps).tests, name) >= 0.0
  {
    var tests := Run(reqs, steps).tests;
    assert name in tests ==> tests[name].totalRunTime >= 0.0 by {
      EntityIsReplay(reqs, steps, name);
      PostedIsNonNegative(name, steps);
      NonNegativeAverage(Posted(name, steps));
    }
    CostOfNonNegative(tests, name);
  }

  lemma {:induction false} PostedIsNonNegative(name: string, steps: seq<Step>)
    requires NonNegativePosts(steps)
    ensures forall i :: 0 <= i < |Posted(name, steps)| ==> Posted(name, steps)[i] >= 0.0
  {
    if steps != [] {
      PostedIsNonNegative(name, steps[..|steps| - 1]);
    }
  }

  lemma ObservedIsNonNegative(reqs: seq<Request>, steps: seq<Step>, i: nat, name: string, c: real)
    requires NonNegativePosts(steps) && WasRead(reqs, steps, i, name, c)
    ensures c >= 0.0
  {
    var k :| 0 <= k <= |steps| && ReadAt(reqs, Run(reqs, steps[..k]), i, name, c);
    CostIsNonNegative(reqs, steps[..k], name);
  }

  /** The schedule that everybody is served was computed by one request of that id from costs that
      this request itself read, each between finding no schedule and being answered. When only
      non-negative run times were posted, that schedule is within 4/3 - 1/(3m) of every distribution
      of that request's tests, measured in those costs. */
  lemma AgreedScheduleIsGood(reqs: seq<Request>, steps: seq<Step>, id: string)
    returns (winner: nat, seen: map<string, real>)
    requires id in Run(reqs, steps).schedules
    ensures winner < |reqs| && IdOf(reqs[winner]) == id
    ensures AllRead(reqs[winner], seen) && Observed(reqs, steps, winner, seen)
    ensures Schedule(CostsOf(seen), reqs[winner].names, reqs[winner].shardCount) == Some(Run(reqs, steps).schedules[id])
    ensures NonNegativePosts(steps) && reqs[winner].shardCount > 0 ==>
              NearOptimal(CostsOf(seen), Run(reqs, steps).schedules[id], reqs[winner].names, reqs[winner].shardCount)
  {
    var s := Run(reqs, steps);
    RunKeepsInv(reqs, steps);
    CostsAreObserved(reqs, steps);
    assert ScheduleOk(reqs, s, id);
    winner, seen := s.origins[id].client, s.origins[id].seen;
    var w := reqs[winner];
    if NonNegativePosts(steps) && w.shardCount > 0 {
      ObservedCostsAreNonNegative(reqs, steps, winner, w, seen);
      ScheduleIsNearOptimal(CostsOf(seen), w.names, w.shardCount);
    }
  }

  lemma ObservedCostsAreNonNegative(reqs: seq<Request>, steps: seq<Step>, i: nat, req: Request, seen: map<string, real>)
    requires NonNegativePosts(steps) && Observed(reqs, steps, i, seen)
    ensures NonNegative(CostsOf(seen), req.names)
  {
    forall n | n in req.names ensures CostsOf(seen)(n) >= 0.0 {
      if n in seen {
        ObservedIsNonNegative(reqs, steps, i, n, seen[n]);
      }
    }
  }
}
