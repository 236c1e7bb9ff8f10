/** The parallel test runner as a transition system. Between two receives on the results channel
    the main loop is deterministic; which outstanding run is received next, and whether it failed,
    is arbitrary. */
module Runner {
  import opened Wrappers
  import opened Strings
  import opened Sorting
  import opened Sums

  datatype Test = Test(name: string, hosts: int)

  // ---------- the order of the queue ----------

  /** `tests.Less`. */
  predicate TestLess(a: Test, b: Test) {
    if a.hosts != b.hosts then a.hosts < b.hosts else Less(a.name, b.name)
  }

  /** Sorted by `sort.Reverse`: nothing is less than a later test. */
  ghost predicate Descending(ts: seq<Test>) {
    forall i, j :: 0 <= i < j < |ts| ==> !TestLess(ts[i], ts[j])
  }

  lemma TestLessIsTotal(a: Test, b: Test)
    ensures TestLess(a, b) || TestLess(b, a) || a == b
    ensures !(TestLess(a, b) && TestLess(b, a))
    ensures TestLess(a, b) ==> a != b
  {
    LessIsTotal(a.name, b.name);
  }

  lemma NotLessIsTransitive(a: Test, b: Test, c: Test)
    requires !TestLess(a, b) && !TestLess(b, c)
    ensures !TestLess(a, c)
  {
    LessIsTotal(a.name, b.name);
    LessIsTotal(b.name, c.name);
    LessIsTotal(a.name, c.name);
    if a.hosts == b.hosts == c.hosts && Less(a.name, c.name) {
      if Less(b.name, a.name) { LessIsTransitive(b.name, a.name, c.name); }
    }
  }

  /** `sort.Reverse`. */
  predicate Greater(a: Test, b: Test) {
    TestLess(b, a)
  }

  function SortDescending(ts: seq<Test>): (r: seq<Test>)
    ensures |r| == |ts|
  {
    Sort(Greater, ts)
  }

  lemma GreaterIsWeakOrder()
    ensures WeakOrder(Greater)
  {
    forall a, b | Greater(a, b) ensures !Greater(b, a) {
      TestLessIsTotal(a, b);
    }
    forall a, b, c | !Greater(b, a) && !Greater(c, b) ensures !Greater(c, a) {
      NotLessIsTransitive(a, b, c);
    }
  }

  /** Test `a` may stand in front of test `b`: it needs more hosts, or as many and its name is not
      less. */
  ghost predicate Before(a: Test, b: Test) {
    a.hosts > b.hosts || (a.hosts == b.hosts && !Less(a.name, b.name))
  }

  /** The queue: tests that need more hosts first, and of those that need as many the greater names
      first. */
  lemma SortDescendingSpec(ts: seq<Test>)
    ensures Descending(SortDescending(ts))
    ensures multiset(SortDescending(ts)) == multiset(ts)
    ensures forall i, j :: 0 <= i < j < |ts| ==> Before(SortDescending(ts)[i], SortDescending(ts)[j])
  {
    GreaterIsWeakOrder();
    SortSorted(Greater, ts);
    SortBag(Greater, ts);
  }

  lemma SameGreatest(a: seq<Test>, b: seq<Test>)
    requires Descending(a) && Descending(b) && a != [] && b != []
    requires a[0] in b && b[0] in a
    ensures a[0] == b[0]
  {
    TestLessIsTotal(a[0], b[0]);
  }

  lemma RestBag(ts: seq<Test>)
    requires ts != []
    ensures multiset(ts[1..]) == multiset(ts) - multiset{ts[0]}
  {
    assert ts == [ts[0]] + ts[1..];
  }

  /** Any sort gives the same queue: a descending arrangement of the same tests is unique, so it
      does not matter that `sort.Sort` is not stable. */
  lemma {:induction false} DescendingIsUnique(a: seq<Test>, b: seq<Test>)
    requires Descending(a) && Descending(b) && multiset(a) == multiset(b)
    ensures a == b
  {
    assert |multiset(a)| == |multiset(b)|;
    if a != [] {
      assert a[0] in multiset(a) && b[0] in multiset(b);
      SameGreatest(a, b);
      RestBag(a);
      RestBag(b);
      DescendingIsUnique(a[1..], b[1..]);
      assert a == [a[0]] + a[1..] && b == [b[0]] + b[1..];
    }
  }

  // ---------- pick ----------

  /** The index of the first test that fits, |ts| if none does. */
  function FirstFit(ts: seq<Test>, available: int): (i: nat)
    ensures i <= |ts|
    ensures i < |ts| ==> ts[i].hosts <= available
    ensures forall k :: 0 <= k < i ==> ts[k].hosts > available
  {
    if ts == [] || ts[0].hosts <= available then 0
    else
      var i := FirstFit(ts[1..], available);
      assert forall k :: 1 <= k < i + 1 ==> ts[k] == ts[1..][k - 1];
      i + 1
  }

  /** On a descending queue the first fit needs the most hosts of all tests that fit, with the
      greatest name among those, and what is left is the descending queue without it. */
  lemma FirstFitIsGreatest(ts: seq<Test>, available: int)
    requires Descending(ts) && FirstFit(ts, available) < |ts|
    ensures var i := FirstFit(ts, available);
            && (forall t :: t in ts && t.hosts <= available ==> !TestLess(ts[i], t))
            && (forall t :: t in ts && t.hosts <= available ==> Before(ts[i], t))
            && Descending(Without(ts, i))
            && multiset(Without(ts, i)) == multiset(ts) - multiset{ts[i]}
  {
    var i := FirstFit(ts, available);
    WithoutBag(ts, i);
    forall t | t in ts && t.hosts <= available ensures !TestLess(ts[i], t) && Before(ts[i], t) {
      FirstFitNeedsMost(ts, available, t);
    }
  }

  lemma FirstFitNeedsMost(ts: seq<Test>, available: int, t: Test)
    requires Descending(ts) && t in ts && t.hosts <= available && FirstFit(ts, available) < |ts|
    ensures var i := FirstFit(ts, available); !TestLess(ts[i], t) && Before(ts[i], t)
  {
    var i := FirstFit(ts, available);
    var k :| 0 <= k < |ts| && ts[k] == t;
    TestLessIsTotal(ts[i], ts[i]);
    assert k >= i;
  }

  // ---------- states and steps ----------

  datatype Running = Running(test: Test, hosts: seq<string>)
  datatype Result = Result(test: Test, errored: bool)

  /** `finished` lists the received results; it is kept for the proofs only. `panicked` is Go's
      bounds panic on a negative host count. */
  datatype State = State(queue: seq<Test>, free: seq<string>, outstanding: seq<Running>,
                         failed: seq<Test>, finished: seq<Result>, panicked: bool)

  function Init(ts: seq<Test>, hosts: seq<string>): State {
    State(SortDescending(ts), hosts, [], [], [], false)
  }

  /** The inner loop goes on: a host is free and some test fits. */
  predicate CanStart(s: State) {
    s.free != [] && FirstFit(s.queue, |s.free|) < |s.queue|
  }

  function Start(s: State): State
    requires CanStart(s)
  {
    var i := FirstFit(s.queue, |s.free|);
    var test := s.queue[i];
    if test.hosts < 0 then s.(panicked := true)
    else s.(queue := Without(s.queue, i),
            free := s.free[test.hosts..],
            outstanding := s.outstanding + [Running(test, s.free[..test.hosts])])
  }

  /** The main loop receives the result of outstanding run j. */
  function Finish(s: State, j: nat, errored: bool): State
    requires j < |s.outstanding|
  {
    var run := s.outstanding[j];
    s.(free := s.free + run.hosts,
       outstanding := Without(s.outstanding, j),
       failed := if errored then s.failed + [run.test] else s.failed,
       finished := s.finished + [Result(run.test, errored)])
  }

  /** A start takes the first test of the queue that fits, and its hosts off the front of the free
      hosts; nothing else changes. It panics when that test's host count is negative. */
  lemma StartSpec(s: State) returns (ahead: seq<Test>, test: Test, behind: seq<Test>, used: seq<string>)
    requires CanStart(s)
    ensures s.queue == ahead + [test] + behind && test.hosts <= |s.free|
    ensures forall t :: t in ahead ==> t.hosts > |s.free|
    ensures test.hosts < 0 ==> Start(s) == s.(panicked := true)
    ensures test.hosts >= 0 ==>
              && |used| == test.hosts && s.free == used + Start(s).free
              && Start(s) == State(ahead + behind, Start(s).free, s.outstanding + [Running(test, used)],
                                   s.failed, s.finished, s.panicked)
  {
    var i := FirstFit(s.queue, |s.free|);
    ahead, test, behind := s.queue[..i], s.queue[i], s.queue[i + 1..];
    used := if test.hosts >= 0 then s.free[..test.hosts] else [];
    assert s.queue == ahead + [test] + behind;
  }

  /** A receive puts the hosts of one outstanding run behind the free hosts, in order, and its result
      behind the received ones; nothing else changes. */
  lemma FinishSpec(s: State, j: nat, errored: bool) returns (older: seq<Running>, run: Running, newer: seq<Running>)
    requires j < |s.outstanding|
    ensures s.outstanding == older + [run] + newer && |older| == j
    ensures Finish(s, j, errored) ==
            State(s.queue, s.free + run.hosts, older + newer,
                  s.failed + if errored then [run.test] else [], s.finished + [Result(run.test, errored)], s.panicked)
  {
    older, run, newer := s.outstanding[..j], s.outstanding[j], s.outstanding[j + 1..];
    assert s.outstanding == older + [run] + newer;
    assert s.failed + [] == s.failed;
  }

  ghost predicate Next(s: State, t: State) {
    && !s.panicked
    && if CanStart(s) then t == Start(s)
       else exists j: nat, errored :: j < |s.outstanding| && t == Finish(s, j, errored)
  }

  /** No further step is possible. */
  predicate Terminal(s: State) {
    s.panicked || (!CanStart(s) && s.outstanding == [])
  }

  /** A run of the main loop, or a beginning of one. */
  ghost predicate IsRun(ts: seq<Test>, hosts: seq<string>, trace: seq<State>) {
    && trace != [] && trace[0] == Init(ts, hosts)
    && forall i :: 0 <= i < |trace| - 1 ==> Next(trace[i], trace[i + 1])
  }

  // ---------- what every reachable state satisfies ----------

  ghost function HostBag(run: Running): multiset<string> {
    multiset(run.hosts)
  }

  ghost function TestBag(run: Running): multiset<Test> {
    multiset{run.test}
  }

  ghost function ResultBag(result: Result): multiset<Test> {
    multiset{result.test}
  }

  /** All hosts that outstanding runs hold. */
  ghost function Held(outstanding: seq<Running>): multiset<string> {
    Collect(HostBag, outstanding)
  }

  ghost function TestsOf(outstanding: seq<Running>): multiset<Test> {
    Collect(TestBag, outstanding)
  }

  ghost function Tested(finished: seq<Result>): multiset<Test> {
    Collect(ResultBag, finished)
  }

  function FailedOf(finished: seq<Result>): seq<Test> {
    if finished == [] then []
    else
      var failed, last := FailedOf(finished[..|finished| - 1]), finished[|finished| - 1];
      if last.errored then failed + [last.test] else failed
  }

  function Errored(): Result -> bool {
    (result: Result) => result.errored
  }

  predicate SomeNegative(ts: seq<Test>) {
    exists t :: t in ts && t.hosts < 0
  }

  /** Every host is free or held by one run, and every run holds as many as it asked for. */
  ghost predicate HostsConserved(hosts: seq<string>, s: State) {
    && multiset(s.free) + Held(s.outstanding) == multiset(hosts)
    && forall j :: 0 <= j < |s.outstanding| ==> |s.outstanding[j].hosts| == s.outstanding[j].test.hosts
  }

  /** Every test is queued, running or finished, once. */
  ghost predicate TestsConserved(ts: seq<Test>, s: State) {
    multiset(s.queue) + TestsOf(s.outstanding) + Tested(s.finished) == multiset(ts)
  }

  ghost predicate Inv(ts: seq<Test>, hosts: seq<string>, s: State) {
    && HostsConserved(hosts, s) && TestsConserved(ts, s) && Descending(s.queue)
    && (forall j :: 0 <= j < |s.finished| ==> 0 <= s.finished[j].test.hosts <= |hosts|)
    && s.failed == FailedOf(s.finished)
    && (s.outstanding != [] || s.finished != [] ==> hosts != [])
    && (s.panicked ==> hosts != [] && SomeNegative(ts))
  }

  lemma HeldIsWithin(hosts: seq<string>, s: State, j: nat)
    requires j < |s.outstanding| && HostsConserved(hosts, s)
    ensures |s.outstanding[j].hosts| <= |hosts|
  {
    CollectWithout(HostBag, s.outstanding, j);
    var run, others := HostBag(s.outstanding[j]), Collect(HostBag, Without(s.outstanding, j));
    assert multiset(hosts) == multiset(s.free) + others + run;
    assert |multiset(hosts)| == |multiset(s.free)| + |others| + |run|;
  }

  lemma StartConservesHosts(hosts: seq<string>, s: State)
    requires HostsConserved(hosts, s) && CanStart(s)
    ensures HostsConserved(hosts, Start(s))
  {
    var test := s.queue[FirstFit(s.queue, |s.free|)];
    if test.hosts >= 0 {
      CollectSnoc(HostBag, s.outstanding, Running(test, s.free[..test.hosts]));
      assert s.free == s.free[..test.hosts] + s.free[test.hosts..];
    }
  }

  lemma StartConservesTests(ts: seq<Test>, s: State)
    requires TestsConserved(ts, s) && CanStart(s)
    ensures TestsConserved(ts, Start(s))
  {
    var i, t := FirstFit(s.queue, |s.free|), Start(s);
    var test := s.queue[i];
    if test.hosts >= 0 {
      assert TestsOf(t.outstanding) == TestsOf(s.outstanding) + multiset{test} by {
        CollectSnoc(TestBag, s.outstanding, Running(test, s.free[..test.hosts]));
      }
      assert multiset(s.queue) == multiset(t.queue) + multiset{test} by { WithoutBag(s.queue, i); }
      MoveOne(multiset(t.queue), multiset{test}, TestsOf(s.outstanding), Tested(s.finished));
    }
  }

  lemma MoveOne(queue: multiset<Test>, test: multiset<Test>, outstanding: multiset<Test>, finished: multiset<Test>)
    ensures queue + test + outstanding + finished == queue + (outstanding + test) + finished
  {
  }

  lemma FinishConservesHosts(hosts: seq<string>, s: State, j: nat, errored: bool)
    requires HostsConserved(hosts, s) && j < |s.outstanding|
    ensures HostsConserved(hosts, Finish(s, j, errored))
  {
    CollectWithout(HostBag, s.outstanding, j);
    assert multiset(s.free + s.outstanding[j].hosts) == multiset(s.free) + HostBag(s.outstanding[j]);
  }

  lemma FinishConservesTests(ts: seq<Test>, s: State, j: nat, errored: bool)
    requires TestsConserved(ts, s) && j < |s.outstanding|
    ensures TestsConserved(ts, Finish(s, j, errored))
  {
    CollectWithout(TestBag, s.outstanding, j);
    CollectSnoc(ResultBag, s.finished, Result(s.outstanding[j].test, errored));
  }

  lemma InitInv(ts: seq<Test>, hosts: seq<string>)
    ensures Inv(ts, hosts, Init(ts, hosts))
  {
    SortDescendingSpec(ts);
  }

  lemma QueuedTestIsGiven(ts: seq<Test>, s: State, i: nat)
    requires TestsConserved(ts, s) && i < |s.queue|
    ensures s.queue[i] in ts
  {
    assert s.queue[i] in multiset(ts);
  }

  lemma FreeHostIsGiven(hosts: seq<string>, s: State)
    requires HostsConserved(hosts, s) && s.free != []
    ensures hosts != []
  {
    assert s.free[0] in multiset(hosts);
  }

  lemma StartKeepsInv(ts: seq<Test>, hosts: seq<string>, s: State)
    requires Inv(ts, hosts, s) && CanStart(s) && !s.panicked
    ensures Inv(ts, hosts, Start(s))
  {
    StartConservesHosts(hosts, s);
    StartConservesTests(ts, s);
    FirstFitIsGreatest(s.queue, |s.free|);
    QueuedTestIsGiven(ts, s, FirstFit(s.queue, |s.free|));
    FreeHostIsGiven(hosts, s);
  }

  lemma FinishKeepsInv(ts: seq<Test>, hosts: seq<string>, s: State, j: nat, errored: bool)
    requires Inv(ts, hosts, s) && j < |s.outstanding|
    ensures Inv(ts, hosts, Finish(s, j, errored))
  {
    var run, t := s.outstanding[j], Finish(s, j, errored);
    FinishConservesHosts(hosts, s, j, errored);
    FinishConservesTests(ts, s, j, errored);
    HeldIsWithin(hosts, s, j);
    assert t.finished[..|s.finished|] == s.finished;
  }

  lemma {:induction false} RunKeepsInv(ts: seq<Test>, hosts: seq<string>, trace: seq<State>, i: nat)
    requires IsRun(ts, hosts, trace) && i < |trace|
    ensures Inv(ts, hosts, trace[i])
  {
    if i == 0 {
      InitInv(ts, hosts);
    } else {
      RunKeepsInv(ts, hosts, trace, i - 1);
      var s, t := trace[i - 1], trace[i];
      assert Next(s, t);
      if CanStart(s) {
        StartKeepsInv(ts, hosts, s);
      } else {
        var j: nat, errored :| j < |s.outstanding| && t == Finish(s, j, errored);
        FinishKeepsInv(ts, hosts, s, j, errored);
      }
    }
  }

  lemma {:induction false} FailedInOrder(finished: seq<Result>) returns (failures: seq<Result>, idx: seq<nat>)
    ensures Selects(finished, Errored(), failures, idx)
    ensures |FailedOf(finished)| == |failures|
    ensures forall k :: 0 <= k < |failures| ==> FailedOf(finished)[k] == failures[k].test
  {
    if finished == [] {
      failures, idx := [], [];
    } else {
      var before, last := finished[..|finished| - 1], finished[|finished| - 1];
      assert finished == before + [last];
      var earlier, shorter := FailedInOrder(before);
      idx := SelectsSnoc(before, Errored(), earlier, shorter, last);
      failures := if last.errored then earlier + [last] else earlier;
    }
  }

  /** At every moment of every run the failed tests are those of the failing results, in the order in
      which the results were received. */
  lemma FailuresInOrder(ts: seq<Test>, hosts: seq<string>, trace: seq<State>, i: nat)
    returns (failures: seq<Result>, idx: seq<nat>)
    requires IsRun(ts, hosts, trace) && i < |trace|
    ensures Selects(trace[i].finished, Errored(), failures, idx)
    ensures |trace[i].failed| == |failures| && forall k :: 0 <= k < |failures| ==> trace[i].failed[k] == failures[k].test
  {
    RunKeepsInv(ts, hosts, trace, i);
    failures, idx := FailedInOrder(trace[i].finished);
  }

  // ---------- exclusivity and waiting ----------

  /** A host that is listed once is never used by two outstanding runs, never twice by one, and
      never free while it is used. */
  lemma HostsAreExclusive(ts: seq<Test>, hosts: seq<string>, trace: seq<State>, i: nat, h: string)
    requires IsRun(ts, hosts, trace) && i < |trace| && multiset(hosts)[h] == 1
    ensures var s := trace[i];
            && multiset(s.free)[h] <= 1
            && (forall j :: 0 <= j < |s.outstanding| ==> multiset(s.outstanding[j].hosts)[h] <= 1)
            && (forall j :: 0 <= j < |s.outstanding| && h in s.free ==> h !in s.outstanding[j].hosts)
            && (forall j, k :: 0 <= j < k < |s.outstanding| ==>
                  !(h in s.outstanding[j].hosts && h in s.outstanding[k].hosts))
  {
    var s := trace[i];
    RunKeepsInv(ts, hosts, trace, i);
    assert multiset(hosts)[h] == multiset(s.free)[h] + Held(s.outstanding)[h];
    forall j | 0 <= j < |s.outstanding| ensures multiset(s.outstanding[j].hosts)[h] <= Held(s.outstanding)[h] {
      CollectWithout(HostBag, s.outstanding, j);
    }
    forall j, k | 0 <= j < k < |s.outstanding|
      ensures multiset(s.outstanding[j].hosts)[h] + multiset(s.outstanding[k].hosts)[h] <= Held(s.outstanding)[h]
    {
      CollectWithout(HostBag, s.outstanding, k);
      CollectWithout(HostBag, Without(s.outstanding, k), j);
    }
  }

  /** The main loop only waits when there is no free host or no queued test fits. */
  lemma WaitsOnlyWhenNothingFits(s: State)
    ensures !CanStart(s) <==> s.free == [] || forall i :: 0 <= i < |s.queue| ==> s.queue[i].hosts > |s.free|
  {
  }

  // ---------- how every run ends ----------

  /** Steps that are left, at most. */
  function Remaining(s: State): nat {
    2 * |s.queue| + |s.outstanding| + if s.panicked then 0 else 1
  }

  lemma NextDecreases(s: State, t: State)
    requires Next(s, t)
    ensures Remaining(t) < Remaining(s)
  {
  }

  lemma {:induction false} RunIsShort(ts: seq<Test>, hosts: seq<string>, trace: seq<State>, i: nat)
    requires IsRun(ts, hosts, trace) && i < |trace|
    ensures i + Remaining(trace[i]) <= 2 * |ts| + 1
  {
    if i == 0 {
    } else {
      RunIsShort(ts, hosts, trace, i - 1);
      assert Next(trace[i - 1], trace[i]);
      NextDecreases(trace[i - 1], trace[i]);
    }
  }

  /** A state that is not terminal has a next state, so a run can only end in a terminal one, and it
      does so after at most 2|ts| + 1 steps, in whatever order results arrive. */
  lemma RunsEnd(ts: seq<Test>, hosts: seq<string>, trace: seq<State>)
    requires IsRun(ts, hosts, trace)
    ensures |trace| <= 2 * |ts| + 2
    ensures Terminal(trace[|trace| - 1]) <==> !exists t :: IsRun(ts, hosts, trace + [t])
  {
    var n := |trace| - 1;
    var s := trace[n];
    RunIsShort(ts, hosts, trace, n);
    if !Terminal(s) {
      var t := if CanStart(s) then Start(s) else Finish(s, 0, false);
      assert Next(s, t);
      forall i | 0 <= i < |trace + [t]| - 1 ensures Next((trace + [t])[i], (trace + [t])[i + 1]) {
        if i < n { assert Next(trace[i], trace[i + 1]); }
      }
      assert IsRun(ts, hosts, trace + [t]);
    }
    forall t | IsRun(ts, hosts, trace + [t]) ensures !Terminal(s) {
      LastStep(ts, hosts, trace, t);
    }
  }

  lemma LastStep(ts: seq<Test>, hosts: seq<string>, trace: seq<State>, t: State)
    requires trace != [] && IsRun(ts, hosts, trace + [t])
    ensures Next(trace[|trace| - 1], t)
  {
    var n, all := |trace| - 1, trace + [t];
    assert Next(all[n], all[n + 1]);
  }

  /** Every test can be given its hosts. */
  predicate AllFit(ts: seq<Test>, n: nat) {
    forall t :: t in ts ==> 0 <= t.hosts <= n
  }

  /** The queue is empty and everything that was started has finished: the loop is left. */
  predicate Complete(s: State) {
    !s.panicked && s.queue == [] && s.outstanding == []
  }

  /** The tests that are never started: all without hosts, otherwise those that need more than there are. */
  function Unservable(ts: seq<Test>, n: nat): seq<Test> {
    if ts == [] then []
    else
      var rest, t := Unservable(ts[..|ts| - 1], n), ts[|ts| - 1];
      if n == 0 || t.hosts > n then rest + [t] else rest
  }

  lemma {:induction false} UnservableBag(ts: seq<Test>, n: nat, t: Test)
    ensures multiset(Unservable(ts, n))[t] == if n == 0 || t.hosts > n then multiset(ts)[t] else 0
  {
    if ts != [] {
      UnservableBag(ts[..|ts| - 1], n, t);
      LastBag(ts);
    }
  }

  lemma {:induction false} TestedComesFrom(finished: seq<Result>, t: Test) returns (j: nat)
    requires t in Tested(finished)
    ensures j < |finished| && finished[j].test == t
  {
    var n := |finished| - 1;
    if finished[n].test == t {
      j := n;
    } else {
      j := TestedComesFrom(finished[..n], t);
    }
  }

  /** One test at the end of a run that did not panic: it is still queued, as often as it was given,
      when it cannot be served, and else it was received that often. */
  lemma EndOfTest(ts: seq<Test>, hosts: seq<string>, s: State, t: Test)
    requires Inv(ts, hosts, s) && Terminal(s) && !s.panicked
    ensures multiset(s.queue)[t] == multiset(Unservable(ts, |hosts|))[t]
    ensures multiset(s.queue)[t] + Tested(s.finished)[t] == multiset(ts)[t]
    ensures Tested(s.finished)[t] > 0 ==> 0 <= t.hosts <= |hosts|
  {
    assert |multiset(s.free)| == |multiset(hosts)|;
    UnservableBag(ts, |hosts|, t);
    if Tested(s.finished)[t] > 0 {
      var j := TestedComesFrom(s.finished, t);
    }
    if t in s.queue {
      var i := IndexOf(s.queue, t);
      WaitsOnlyWhenNothingFits(s);
    }
  }

  /** How every run ends, whatever the order and the outcomes of the results: it panics exactly when
      there are hosts and some host count is negative; otherwise all hosts are free again, the tests
      that cannot be served are still queued, in order, and all others have been received once. The
      loop is left exactly when every test fits. */
  lemma EndOfRun(ts: seq<Test>, hosts: seq<string>, trace: seq<State>)
    requires IsRun(ts, hosts, trace) && Terminal(trace[|trace| - 1])
    ensures var s := trace[|trace| - 1];
            && (s.panicked <==> hosts != [] && SomeNegative(ts))
            && (Complete(s) <==> ts == [] || (hosts != [] && AllFit(ts, |hosts|)))
            && (!s.panicked ==>
                && multiset(s.free) == multiset(hosts)
                && s.queue == SortDescending(Unservable(ts, |hosts|))
                && Tested(s.finished) == multiset(ts) - multiset(s.queue))
  {
    var s := trace[|trace| - 1];
    RunKeepsInv(ts, hosts, trace, |trace| - 1);
    if !s.panicked {
      forall t ensures multiset(s.queue)[t] == multiset(Unservable(ts, |hosts|))[t]
                    && multiset(s.queue)[t] + Tested(s.finished)[t] == multiset(ts)[t] {
        EndOfTest(ts, hosts, s, t);
      }
      SortDescendingSpec(Unservable(ts, |hosts|));
      DescendingIsUnique(s.queue, SortDescending(Unservable(ts, |hosts|)));
      NegativeIsServed(ts, hosts, s);
      CompleteExactly(ts, hosts, s);
    } else {
      var t :| t in ts && t.hosts < 0;
    }
  }

  lemma NegativeIsServed(ts: seq<Test>, hosts: seq<string>, s: State)
    requires Inv(ts, hosts, s) && Terminal(s) && !s.panicked
    ensures hosts == [] || !SomeNegative(ts)
  {
    if hosts != [] {
      forall t | t in ts ensures t.hosts >= 0 {
        EndOfTest(ts, hosts, s, t);
        UnservableBag(ts, |hosts|, t);
        assert multiset(ts)[t] > 0;
      }
    }
  }

  lemma CompleteExactly(ts: seq<Test>, hosts: seq<string>, s: State)
    requires Inv(ts, hosts, s) && Terminal(s) && !s.panicked
    ensures Complete(s) <==> ts == [] || (hosts != [] && AllFit(ts, |hosts|))
  {
    NegativeIsServed(ts, hosts, s);
    if s.queue == [] {
      forall t | t in ts ensures hosts != [] && 0 <= t.hosts <= |hosts| {
        EndOfTest(ts, hosts, s, t);
        assert multiset(ts)[t] > 0;
        var j := TestedComesFrom(s.finished, t);
      }
    } else {
      var t := s.queue[0];
      QueuedTestIsGiven(ts, s, 0);
      EndOfTest(ts, hosts, s, t);
      UnservableBag(ts, |hosts|, t);
      assert multiset(s.queue)[t] > 0;
    }
  }

  // ---------- parallel agrees with sequential ----------

  /** What `sequential` collects when test t fails exactly when `fails(t)`. */
  function Failing(ts: seq<Test>, fails: Test -> bool): seq<Test> {
    if ts == [] then []
    else
      var rest, t := Failing(ts[..|ts| - 1], fails), ts[|ts| - 1];
      if fails(t) then rest + [t] else rest
  }

  /** What `summary` prints: the number of tests and the failed ones. */
  datatype Report = Report(total: nat, failed: seq<Test>)

  /** `sequential`. It reports the tests that fail in the order in which they were given; `idx` are
      their places. */
  method Sequential(ts: seq<Test>, fails: Test -> bool) returns (report: Report, errored: bool, ghost idx: seq<nat>)
    ensures report == Report(|ts|, Failing(ts, fails))
    ensures report.total == |ts| && Selects(ts, fails, report.failed, idx)
    ensures errored <==> exists t :: t in ts && fails(t)
  {
    var failed := [];
    for i := 0 to |ts|
      invariant failed == Failing(ts[..i], fails)
      invariant failed != [] <==> exists k :: 0 <= k < i && fails(ts[k])
    {
      assert ts[..i + 1][..i] == ts[..i];
      if fails(ts[i]) {
        failed := failed + [ts[i]];
      }
    }
    assert ts[..|ts|] == ts;
    idx := FailingInOrder(ts, fails);
    return Report(|ts|, failed), |failed| > 0, idx;
  }

  lemma {:induction false} FailingInOrder(ts: seq<Test>, fails: Test -> bool) returns (idx: seq<nat>)
    ensures Selects(ts, fails, Failing(ts, fails), idx)
  {
    if ts == [] {
      idx := [];
    } else {
      var before, t := ts[..|ts| - 1], ts[|ts| - 1];
      assert ts == before + [t];
      var shorter := FailingInOrder(before, fails);
      idx := SelectsSnoc(before, fails, Failing(before, fails), shorter, t);
    }
  }

  lemma {:induction false} FailingBag(ts: seq<Test>, fails: Test -> bool, t: Test)
    ensures multiset(Failing(ts, fails))[t] == if fails(t) then multiset(ts)[t] else 0
  {
    if ts != [] {
      FailingBag(ts[..|ts| - 1], fails, t);
      LastBag(ts);
    }
  }

  lemma {:induction false} FailedBag(finished: seq<Result>, fails: Test -> bool, t: Test)
    requires forall j :: 0 <= j < |finished| ==> finished[j].errored == fails(finished[j].test)
    ensures multiset(FailedOf(finished))[t] == if fails(t) then Tested(finished)[t] else 0
  {
    if finished != [] {
      FailedBag(finished[..|finished| - 1], fails, t);
    }
  }

  /** When a test's outcome depends on the test only, every complete run reports the failures that
      the sequential runner reports, each as often, and the same verdict. */
  lemma ParallelAgreesWithSequential(ts: seq<Test>, hosts: seq<string>, trace: seq<State>, fails: Test -> bool)
    requires IsRun(ts, hosts, trace) && Complete(trace[|trace| - 1])
    requires var done := trace[|trace| - 1].finished;
             forall j :: 0 <= j < |done| ==> done[j].errored == fails(done[j].test)
    ensures multiset(trace[|trace| - 1].failed) == multiset(Failing(ts, fails))
    ensures trace[|trace| - 1].failed != [] <==> exists t :: t in ts && fails(t)
  {
    var s := trace[|trace| - 1];
    RunKeepsInv(ts, hosts, trace, |trace| - 1);
    forall t ensures multiset(s.failed)[t] == multiset(Failing(ts, fails))[t]
                  && multiset(s.failed)[t] == if fails(t) then multiset(ts)[t] else 0 {
      FailingBag(ts, fails, t);
      FailedBag(s.finished, fails, t);
      assert multiset(s.queue)[t] == 0 && TestsOf(s.outstanding)[t] == 0;
    }
    if s.failed != [] {
      assert multiset(s.failed)[s.failed[0]] > 0;
      assert s.failed[0] in ts;
    }
    forall t | t in ts && fails(t) ensures s.failed != [] {
      assert multiset(ts)[t] > 0;
    }
  }
}
