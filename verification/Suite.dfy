/** A whole CI run: the scheduler splits the suite over the shards, and every shard's runner runs
    its part. */
module Suite {
  import opened Sums
  import opened Greedy
  import opened Scheduler
  import P = Protocol
  import R = Runner
  import opened RunnerHeap
  import TestNames

  /** A finished run of one shard's runner. */
  ghost predicate ShardDone(names: seq<string>, hosts: seq<string>, trace: seq<R.State>) {
    R.IsRun(Map(TestOf, names), hosts, trace) && R.Complete(trace[|trace| - 1])
  }

  ghost function NameOf(t: R.Test): multiset<string> {
    multiset{t.name}
  }

  function TestsIn(finished: seq<R.Result>): seq<R.Test> {
    if finished == [] then [] else TestsIn(finished[..|finished| - 1]) + [finished[|finished| - 1].test]
  }

  /** The names whose results a runner has received, with multiplicity. */
  ghost function NamesRun(trace: seq<R.State>): multiset<string> {
    if trace == [] then multiset{} else Collect(NameOf, TestsIn(trace[|trace| - 1].finished))
  }

  lemma {:induction false} TestsInBag(finished: seq<R.Result>)
    ensures multiset(TestsIn(finished)) == R.Tested(finished)
  {
    if finished != [] {
      TestsInBag(finished[..|finished| - 1]);
    }
  }

  lemma {:induction false} NamesOfTests(names: seq<string>)
    ensures Collect(NameOf, Map(TestOf, names)) == multiset(names)
  {
    if names != [] {
      var n := |names| - 1;
      NamesOfTests(names[..n]);
      CollectSnoc(NameOf, Map(TestOf, names[..n]), TestOf(names[n]));
      LastBag(names);
    }
  }

  /** A shard's runner that leaves its loop has run exactly the names it was given. */
  lemma ShardRunsItsNames(names: seq<string>, hosts: seq<string>, trace: seq<R.State>)
    requires ShardDone(names, hosts, trace)
    ensures NamesRun(trace) == multiset(names)
  {
    var s := trace[|trace| - 1];
    R.RunKeepsInv(Map(TestOf, names), hosts, trace, |trace| - 1);
    assert multiset(Map(TestOf, names)) == R.Tested(s.finished);
    TestsInBag(s.finished);
    CollectOfPermutation(NameOf, Map(TestOf, names), TestsIn(s.finished));
    NamesOfTests(names);
  }

  /** All names run on all shards. */
  ghost function AllNamesRun(traces: seq<seq<R.State>>): multiset<string> {
    if traces == [] then multiset{}
    else AllNamesRun(traces[..|traces| - 1]) + NamesRun(traces[|traces| - 1])
  }

  lemma {:induction false} ShardsRunTheirNames(replies: Shards, hosts: seq<seq<string>>, traces: seq<seq<R.State>>)
    requires |replies| == |hosts| == |traces|
    requires forall k :: 0 <= k < |traces| ==> ShardDone(replies[k], hosts[k], traces[k])
    ensures AllNamesRun(traces) == Bag(replies)
  {
    if replies != [] {
      var n := |replies| - 1;
      ShardsRunTheirNames(replies[..n], hosts[..n], traces[..n]);
      ShardRunsItsNames(replies[n], hosts[n], traces[n]);
    }
  }

  /** When one answered request per shard hands its reply to a runner, and every runner leaves its
      loop, then all runners together have run the suite of the request that won the race: every test
      as often as it was submitted, and nothing else. This holds for every interleaving of the
      scheduler's requests and for every order of completions on every shard. */
  lemma SuiteRunsExactlyOnce(reqs: seq<Request>, steps: seq<P.Step>, who: seq<nat>, testRun: string,
                             replies: Shards, hosts: seq<seq<string>>, traces: seq<seq<R.State>>)
    returns (winner: nat)
    requires who != [] && P.Asked(reqs, P.Run(reqs, steps), who, testRun)
    requires |replies| == |who| == |hosts| == |traces|
    requires forall k :: 0 <= k < |who| ==> P.Run(reqs, steps).clients[who[k]].reply == Assigned(replies[k])
    requires forall k :: 0 <= k < |traces| ==> ShardDone(replies[k], hosts[k], traces[k])
    ensures winner < |reqs| && reqs[winner].testRun == testRun && reqs[winner].shardCount == |who|
    ensures AllNamesRun(traces) == multiset(reqs[winner].names)
  {
    winner := P.RepliesPartition(reqs, steps, who, testRun, replies);
    ShardsRunTheirNames(replies, hosts, traces);
  }

  lemma SignedIsNegative(names: seq<string>)
    requires "a_-2_test.sh" in names
    ensures R.SomeNegative(Map(TestOf, names))
  {
    var i :| 0 <= i < |names| && names[i] == "a_-2_test.sh";
    TestNames.DifferOnSign(names[i]);
    MapAt(TestOf, names, i);
    assert Map(TestOf, names)[i] in Map(TestOf, names);
  }

  /** One test with a signed host count brings the whole run down, whatever the others are and in
      whatever order they finish. */
  lemma SignedCountPanics(names: seq<string>, hosts: seq<string>, trace: seq<R.State>)
    requires "a_-2_test.sh" in names && hosts != []
    requires R.IsRun(Map(TestOf, names), hosts, trace) && R.Terminal(trace[|trace| - 1])
    ensures trace[|trace| - 1].panicked
  {
    SignedIsNegative(names);
    R.EndOfRun(Map(TestOf, names), hosts, trace);
  }
}
