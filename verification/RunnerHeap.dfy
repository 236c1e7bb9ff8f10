/** The parallel runner on the heap, with Go's slices: the queue shrinks in place, hosts are handed
    out as windows into the array behind the free hosts, and come back through append. */
module RunnerHeap {
  import opened Wrappers
  import opened Strings
  import opened Sums
  import opened GoSlices
  import opened Runner
  import TestNames

  function TestOf(name: string): Test {
    Test(name, TestNames.HostCount(name))
  }

  /** `getTests` without the scheduler: reads the host counts off the names. */
  method GetTests(testNames: seq<string>) returns (tests: seq<Test>)
    ensures tests == Map(TestOf, testNames)
    ensures |tests| == |testNames|
    ensures forall i :: 0 <= i < |tests| ==>
              tests[i].name == testNames[i] && tests[i].hosts == TestNames.HostCount(testNames[i])
  {
    tests := MapLoop(TestOf, testNames);
    forall i | 0 <= i < |tests| ensures tests[i] == Test(testNames[i], TestNames.HostCount(testNames[i])) {
      MapAt(TestOf, testNames, i);
    }
  }

  /** A host count that is written into a test's file name is the count that the runner gives it,
      up to Go's largest int. */
  lemma NamedCountIsUsed(testNames: seq<string>, i: nat, base: string, n: nat)
    requires i < |testNames| && testNames[i] == base + "_" + Decimal(n) + "_test.sh"
    requires n <= 0x7fff_ffff_ffff_ffff
    ensures Map(TestOf, testNames)[i] == Test(testNames[i], n)
  {
    MapAt(TestOf, testNames, i);
    TestNames.CountRoundTrip(base, n);
  }

  /** `sort.Sort(sort.Reverse(ts))`, in place. */
  method SortReverse(ts: Slice<Test>)
    requires ts.Ok()
    modifies ts.arr
    ensures ts.View() == SortDescending(old(ts.View()))
  {
    var queue := ts.arr[ts.off..ts.off + ts.len];
    var sorted := SortDescending(queue);
    forall k | 0 <= k < ts.len {
      ts.arr[ts.off + k] := sorted[k];
    }
  }

  /** `tests.pick`: removes the first test that fits from the queue, in place. */
  method Pick(ts: Slice<Test>, available: int) returns (left: Slice<Test>, picked: Option<Test>)
    requires ts.Ok()
    modifies ts.arr
    ensures left.Ok() && left.arr == ts.arr
    ensures var queue := old(ts.View());
            var i := FirstFit(queue, available);
            if i < |queue| then picked == Some(queue[i]) && left.View() == Without(queue, i)
            else picked == None && left.View() == queue
  {
    ghost var queue := ts.View();
    for i := 0 to ts.len
      invariant ts.View() == queue
      invariant forall k :: 0 <= k < i ==> queue[k].hosts > available
    {
      var test := ts.arr[ts.off + i];
      assert test == queue[i];
      if test.hosts <= available {
        left := RemoveAt(ts, i);
        return left, Some(test);
      }
    }
    return ts, None;
  }

  /** A started goroutine: its test and its window of hosts. */
  datatype Job = Job(test: Test, hosts: Slice<string>)

  /** How `parallel` ends: it returns its report, it never returns because it receives
      from a channel that nobody sends on, or Go panics on a negative slice bound. */
  datatype Verdict = Returned(report: Report, errored: bool) | Stuck | Panicked

  /** The slices and goroutines stand for the free and held hosts of an abstract state. */
  ghost predicate HostsMatch(s: State, hosts: Slice<string>, jobs: seq<Job>)
    reads hosts.arr, set j: Job | j in jobs :: j.hosts.arr
  {
    && hosts.Ok() && hosts.View() == s.free
    && |jobs| == |s.outstanding|
    && forall j :: 0 <= j < |jobs| ==>
         && jobs[j].test == s.outstanding[j].test
         && jobs[j].hosts.Ok() && jobs[j].hosts.View() == s.outstanding[j].hosts
  }

  ghost predicate QueueMatches(s: State, ts: Slice<Test>)
    reads ts.arr
  {
    ts.Ok() && ts.View() == s.queue
  }

  /** Windows that are out lie behind the free hosts, or in an array that is no longer appended to:
      this is why appending never overwrites the hosts of an outstanding run. */
  ghost predicate Behind(hosts: Slice<string>, jobs: seq<Job>) {
    forall j :: 0 <= j < |jobs| && jobs[j].hosts.arr == hosts.arr ==>
                  jobs[j].hosts.off + jobs[j].hosts.len <= hosts.off
  }

  ghost function Last(trace: seq<State>): State
    requires trace != []
  {
    trace[|trace| - 1]
  }

  lemma ExtendRun(ts: seq<Test>, hosts: seq<string>, trace: seq<State>, t: State)
    requires IsRun(ts, hosts, trace) && Next(Last(trace), t)
    ensures IsRun(ts, hosts, trace + [t])
  {
  }

  lemma FinishExtendsRun(ts: seq<Test>, hosts: seq<string>, trace: seq<State>, j: nat, errored: bool)
    requires IsRun(ts, hosts, trace) && !Last(trace).panicked && !CanStart(Last(trace)) && j < |Last(trace).outstanding|
    ensures IsRun(ts, hosts, trace + [Finish(Last(trace), j, errored)])
    ensures Remaining(Finish(Last(trace), j, errored)) < Remaining(Last(trace))
  {
    var s := Last(trace);
    assert Next(s, Finish(s, j, errored));
    ExtendRun(ts, hosts, trace, Finish(s, j, errored));
  }

  /** Carving the hosts of a started test off the front of the free hosts. */
  lemma CarveOff(s: State, hosts: Slice<string>, jobs: seq<Job>, test: Test)
    requires CanStart(s) && test == s.queue[FirstFit(s.queue, |s.free|)] && test.hosts >= 0
    requires HostsMatch(s, hosts, jobs) && Behind(hosts, jobs)
    ensures test.hosts <= hosts.len
    ensures HostsMatch(Start(s), hosts.Drop(test.hosts), jobs + [Job(test, hosts.Take(test.hosts))])
    ensures Behind(hosts.Drop(test.hosts), jobs + [Job(test, hosts.Take(test.hosts))])
  {
    var k, job := test.hosts, Job(test, hosts.Take(test.hosts));
    assert hosts.View()[..k] == hosts.Take(k).View();
    assert hosts.View()[k..] == hosts.Drop(k).View();
    assert Start(s).outstanding == s.outstanding + [Running(test, s.free[..k])];
    forall j | 0 <= j < |jobs + [job]|
      ensures var r, h := Start(s).outstanding[j], (jobs + [job])[j];
              h.test == r.test && h.hosts.Ok() && h.hosts.View() == r.hosts
    {
      if j < |jobs| {
        assert (jobs + [job])[j] == jobs[j] && Start(s).outstanding[j] == s.outstanding[j];
      }
    }
  }

  /** The inner loop: starts tests while hosts are free and some test fits. */
  method StartTests(ts: Slice<Test>, hosts: Slice<string>, jobs: seq<Job>,
                    ghost ts0: seq<Test>, ghost hosts0: seq<string>, ghost trace: seq<State>)
    returns (ts': Slice<Test>, hosts': Slice<string>, jobs': seq<Job>, panicked: bool, ghost trace': seq<State>)
    requires IsRun(ts0, hosts0, trace) && !Last(trace).panicked
    requires QueueMatches(Last(trace), ts) && HostsMatch(Last(trace), hosts, jobs) && Behind(hosts, jobs)
    modifies ts.arr
    ensures IsRun(ts0, hosts0, trace') && Last(trace').failed == Last(trace).failed
    ensures ts'.arr == ts.arr && hosts'.arr == hosts.arr
    ensures panicked == Last(trace').panicked
    ensures Remaining(Last(trace')) <= Remaining(Last(trace))
    ensures !panicked ==>
              && ts'.len + |jobs'| == ts.len + |jobs|
              && QueueMatches(Last(trace'), ts') && HostsMatch(Last(trace'), hosts', jobs') && Behind(hosts', jobs')
              && !CanStart(Last(trace'))
              && (hosts'.len == 0 || forall i :: 0 <= i < ts'.len ==> ts'.View()[i].hosts > hosts'.len)
  {
    ts', hosts', jobs', trace' := ts, hosts, jobs, trace;
    while hosts'.len > 0
      invariant IsRun(ts0, hosts0, trace') && Last(trace').failed == Last(trace).failed
      invariant ts'.arr == ts.arr && hosts'.arr == hosts.arr && !Last(trace').panicked
      invariant ts'.len + |jobs'| == ts.len + |jobs| && Remaining(Last(trace')) <= Remaining(Last(trace))
      invariant QueueMatches(Last(trace'), ts') && HostsMatch(Last(trace'), hosts', jobs') && Behind(hosts', jobs')
      decreases ts'.len
    {
      ghost var s := Last(trace');
      var picked;
      ts', picked := Pick(ts', hosts'.len);
      assert HostsMatch(s, hosts', jobs');
      if picked.None? {
        return ts', hosts', jobs', false, trace';
      }
      var test := picked.value;
      ExtendRun(ts0, hosts0, trace', Start(s));
      trace' := trace' + [Start(s)];
      if test.hosts < 0 {
        return ts', hosts', jobs', true, trace';
      }
      CarveOff(s, hosts', jobs', test);
      var testHosts := hosts'.Take(test.hosts);
      hosts' := hosts'.Drop(test.hosts);
      jobs' := jobs' + [Job(test, testHosts)];
    }
    panicked := false;
  }

  /** Forgetting goroutine j once its hosts are back. */
  lemma ForgetJob(s: State, hosts: Slice<string>, jobs: seq<Job>, j: nat, errored: bool)
    requires j < |jobs| == |s.outstanding| && Behind(hosts, jobs)
    requires hosts.Ok() && hosts.View() == s.free + s.outstanding[j].hosts
    requires forall k :: 0 <= k < |jobs| ==>
               && jobs[k].test == s.outstanding[k].test
               && jobs[k].hosts.Ok() && jobs[k].hosts.View() == s.outstanding[k].hosts
    ensures HostsMatch(Finish(s, j, errored), hosts, Without(jobs, j)) && Behind(hosts, Without(jobs, j))
  {
  }

  /** One receive: the hosts of goroutine j go back behind the free hosts. No other goroutine's
      hosts change. */
  method TakeBack(hosts: Slice<string>, jobs: seq<Job>, j: nat, errored: bool, ghost s: State)
    returns (hosts': Slice<string>, jobs': seq<Job>)
    requires j < |jobs| && HostsMatch(s, hosts, jobs) && Behind(hosts, jobs)
    modifies hosts.arr
    ensures HostsMatch(Finish(s, j, errored), hosts', jobs') && Behind(hosts', jobs')
    ensures |jobs'| == |jobs| - 1
    ensures hosts'.arr == hosts.arr || fresh(hosts'.arr)
  {
    hosts' := Append(hosts, jobs[j].hosts);
    forall k | 0 <= k < |jobs| ensures jobs[k].hosts.View() == s.outstanding[k].hosts {
      var h := jobs[k].hosts;
      if h.arr == hosts.arr {
        assert h.off + h.len <= hosts.off;
      }
      assert forall i :: h.off <= i < h.off + h.len ==> h.arr[i] == old(h.arr[i]);
      assert h.View() == old(h.View());
    }
    assert Behind(hosts', jobs);
    ForgetJob(s, hosts', jobs, j, errored);
    jobs' := Without(jobs, j);
  }

  /** The receiving half of the main loop: the result of an arbitrary goroutine, with an arbitrary
      outcome. */
  method Receive(hosts: Slice<string>, jobs: seq<Job>, failed: seq<Test>,
                 ghost ts0: seq<Test>, ghost hosts0: seq<string>, ghost trace: seq<State>)
    returns (hosts': Slice<string>, jobs': seq<Job>, failed': seq<Test>, ghost trace': seq<State>)
    requires IsRun(ts0, hosts0, trace) && !Last(trace).panicked && !CanStart(Last(trace)) && failed == Last(trace).failed
    requires jobs != [] && HostsMatch(Last(trace), hosts, jobs) && Behind(hosts, jobs)
    modifies hosts.arr
    ensures IsRun(ts0, hosts0, trace') && !Last(trace').panicked && failed' == Last(trace').failed
    ensures Last(trace').queue == Last(trace).queue
    ensures HostsMatch(Last(trace'), hosts', jobs') && Behind(hosts', jobs')
    ensures hosts'.arr == hosts.arr || fresh(hosts'.arr)
    ensures Remaining(Last(trace')) < Remaining(Last(trace))
  {
    var j: nat :| j < |jobs|;
    var errored: bool := *;
    FinishExtendsRun(ts0, hosts0, trace, j, errored);
    trace' := trace + [Finish(Last(trace), j, errored)];
    failed' := if errored then failed + [jobs[j].test] else failed;
    hosts', jobs' := TakeBack(hosts, jobs, j, errored, Last(trace));
  }

  /** The verdict is read off the last state of a run. */
  ghost predicate IsVerdict(verdict: Verdict, total: nat, s: State) {
    match verdict
    case Panicked => s.panicked
    case Stuck => !s.panicked && !Complete(s)
    case Returned(report, errored) => Complete(s) && report == Report(total, s.failed) && errored == (s.failed != [])
  }

  /** The main loop. The order in which results arrive and their outcomes are arbitrary. */
  method MainLoop(ts: Slice<Test>, hosts: Slice<string>, total: nat, ghost ts0: seq<Test>, ghost hosts0: seq<string>)
    returns (verdict: Verdict, ghost trace: seq<State>)
    requires QueueMatches(Init(ts0, hosts0), ts) && HostsMatch(Init(ts0, hosts0), hosts, [])
    modifies ts.arr, hosts.arr
    ensures IsRun(ts0, hosts0, trace) && Terminal(Last(trace)) && IsVerdict(verdict, total, Last(trace))
  {
    var queue, pool, jobs, failed := ts, hosts, [], [];
    trace := [Init(ts0, hosts0)];
    while queue.len > 0 || |jobs| > 0
      invariant IsRun(ts0, hosts0, trace) && !Last(trace).panicked && failed == Last(trace).failed
      invariant QueueMatches(Last(trace), queue) && HostsMatch(Last(trace), pool, jobs) && Behind(pool, jobs)
      invariant queue.arr == ts.arr && (pool.arr == hosts.arr || fresh(pool.arr))
      decreases Remaining(Last(trace))
    {
      var panicked;
      queue, pool, jobs, panicked, trace := StartTests(queue, pool, jobs, ts0, hosts0, trace);
      if panicked {
        return Panicked, trace;
      }
      if |jobs| == 0 {
        return Stuck, trace;
      }
      pool, jobs, failed, trace := Receive(pool, jobs, failed, ts0, hosts0, trace);
    }
    verdict := Returned(Report(total, failed), |failed| > 0);
  }

  /** `parallel`. The abstract states that the loop passes through are a run of the transition
      system that ends in a terminal state; the verdict is read off that state. */
  method Parallel(ts: Slice<Test>, hosts: Slice<string>) returns (verdict: Verdict, ghost trace: seq<State>)
    requires ts.Ok() && hosts.Ok()
    modifies ts.arr, hosts.arr
    ensures IsRun(old(ts.View()), old(hosts.View()), trace) && Terminal(Last(trace))
    ensures IsVerdict(verdict, ts.len, Last(trace))
    ensures verdict.Panicked? <==> hosts.len > 0 && SomeNegative(old(ts.View()))
    ensures verdict.Returned? <==> ts.len == 0 || (hosts.len > 0 && AllFit(old(ts.View()), hosts.len))
  {
    ghost var ts0, hosts0 := ts.View(), hosts.View();
    var testsCopy := ts;
    SortReverse(ts);
    verdict, trace := MainLoop(ts, hosts, testsCopy.len, ts0, hosts0);
    EndOfRun(ts0, hosts0, trace);
  }
}
