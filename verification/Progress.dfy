/** Every schedule request is answered after few steps of its own, whatever the others do. */
module Progress {
  import opened Greedy
  import opened Scheduler
  import opened Protocol

  predicate IsOwn(step: Step, i: nat) {
    !step.Post? && step.client == i
  }

  /** The tests whose cost a request has still to read. */
  function Unread(req: Request, seen: map<string, real>): set<string> {
    set n | n in req.names && n !in seen
  }

  /** How many steps a request has still to take. */
  function Left(req: Request, c: Client): nat {
    match c
    case Waiting => |Unread(req, map[])| + 2
    case Reading(seen) => |Unread(req, seen)| + 1
    case Done(_) => 0
  }

  lemma {:induction false} FewNames(names: seq<string>)
    ensures |set n | n in names| <= |names|
  {
    if names != [] {
      var k := |names| - 1;
      FewNames(names[..k]);
      assert (set n | n in names) == (set n | n in names[..k]) + {names[k]};
    }
  }

  lemma LeftAtFirst(req: Request)
    ensures Left(req, Waiting) <= |req.names| + 2
  {
    FewNames(req.names);
    assert Unread(req, map[]) == set n | n in req.names;
  }

  lemma ReadShrinks(req: Request, seen: map<string, real>, name: string, c: real)
    requires name in req.names && name !in seen
    ensures |Unread(req, seen[name := c])| == |Unread(req, seen)| - 1
  {
    assert Unread(req, seen[name := c]) == Unread(req, seen) - {name};
  }

  /** Only a request's own steps change where it is, and each brings it closer to its answer. */
  lemma StepShrinks(reqs: seq<Request>, s: State, step: Step, i: nat)
    requires i < |reqs| == |s.clients| && Next(reqs, s, step).clients[i] != s.clients[i]
    ensures IsOwn(step, i)
    ensures Left(reqs[i], Next(reqs, s, step).clients[i]) < Left(reqs[i], s.clients[i])
  {
    if step.Read? && step.client == i {
      ReadShrinks(reqs[i], s.clients[i].seen, step.name, Cost(s.tests, step.name));
    }
  }

  /** The steps of a run that changed where request i is. */
  function OwnSteps(reqs: seq<Request>, steps: seq<Step>, i: nat): nat
    requires i < |reqs|
  {
    if steps == [] then 0
    else
      var before := steps[..|steps| - 1];
      OwnSteps(reqs, before, i) + if Run(reqs, steps).clients[i] != Run(reqs, before).clients[i] then 1 else 0
  }

  /** In every interleaving a request that has taken n effective steps of its own has at most
      |names| + 2 - n left, so that after |names| + 2 of them it is answered. */
  lemma {:induction false} AnsweredInTime(reqs: seq<Request>, steps: seq<Step>, i: nat)
    requires i < |reqs|
    ensures OwnSteps(reqs, steps, i) + Left(reqs[i], Run(reqs, steps).clients[i]) <= |reqs[i].names| + 2
    ensures OwnSteps(reqs, steps, i) >= |reqs[i].names| + 2 ==> Run(reqs, steps).clients[i].Done?
  {
    if steps == [] {
      LeftAtFirst(reqs[i]);
    } else {
      var before := steps[..|steps| - 1];
      AnsweredInTime(reqs, before, i);
      if Run(reqs, steps).clients[i] != Run(reqs, before).clients[i] {
        StepShrinks(reqs, Run(reqs, before), steps[|steps| - 1], i);
      }
    }
  }

  /** A request that is not answered always has a step that takes it further. */
  lemma CanGoOn(reqs: seq<Request>, s: State, i: nat) returns (step: Step)
    requires i < |reqs| == |s.clients| && !s.clients[i].Done?
    ensures IsOwn(step, i) && Next(reqs, s, step).clients[i] != s.clients[i]
  {
    if s.clients[i].Waiting? {
      step := Lookup(i);
    } else if AllRead(reqs[i], s.clients[i].seen) {
      step := Insert(i);
    } else {
      var k :| 0 <= k < |reqs[i].names| && reqs[i].names[k] !in s.clients[i].seen;
      step := Read(i, reqs[i].names[k]);
    }
  }

  /** From any state, however far a request has come, its own steps alone get it answered. */
  lemma {:induction false} FinishesAlone(reqs: seq<Request>, s: State, i: nat) returns (own: seq<Step>)
    requires i < |reqs| == |s.clients|
    ensures |own| <= Left(reqs[i], s.clients[i])
    ensures forall k :: 0 <= k < |own| ==> IsOwn(own[k], i)
    ensures After(reqs, s, own).clients[i].Done?
    decreases Left(reqs[i], s.clients[i])
  {
    if s.clients[i].Done? {
      own := [];
    } else {
      var step := CanGoOn(reqs, s, i);
      StepShrinks(reqs, s, step, i);
      var rest := FinishesAlone(reqs, Next(reqs, s, step), i);
      own := [step] + rest;
      AfterFirst(reqs, s, step);
      AfterConcat(reqs, s, [step], rest);
    }
  }

  // ---------- a request that nobody interferes with ----------

  /** Request i is not answered, and if it has begun, no schedule was stored and none of the costs
      that it has read has changed since. */
  ghost predicate Undisturbed(reqs: seq<Request>, s: State, i: nat)
    requires i < |reqs| == |s.clients|
  {
    match s.clients[i]
    case Waiting => true
    case Reading(seen) => IdOf(reqs[i]) !in s.schedules && forall n :: n in seen ==> seen[n] == Cost(s.tests, n)
    case Done(_) => false
  }

  /** Request i has the reply, and the datastore the schedules, of the sequential handler. */
  ghost predicate Served(reqs: seq<Request>, s: State, i: nat, t: State)
    requires i < |reqs| == |s.clients|
  {
    var out := Serve(s.tests, s.schedules, reqs[i]);
    t.clients == s.clients[i := Done(out.0)] && t.schedules == out.1 && t.tests == s.tests
  }

  lemma InsertIsServe(reqs: seq<Request>, s: State, i: nat)
    requires i < |reqs| == |s.clients| && s.clients[i].Reading? && Undisturbed(reqs, s, i)
    requires AllRead(reqs[i], s.clients[i].seen)
    ensures Served(reqs, s, i, Next(reqs, s, Insert(i)))
  {
    SchedulesAgree(CostsOf(s.clients[i].seen), n => Cost(s.tests, n), reqs[i].names, reqs[i].shardCount);
  }

  lemma ServedLater(reqs: seq<Request>, s: State, i: nat, c: Client, t: State)
    requires i < |reqs| == |s.clients| && Served(reqs, Become(s, i, c), i, t)
    ensures Served(reqs, s, i, t)
  {
    assert s.clients[i := c][i := t.clients[i]] == s.clients[i := t.clients[i]];
  }

  /** What one more step of an undisturbed request does. */
  lemma SoloStep(reqs: seq<Request>, s: State, i: nat) returns (step: Step)
    requires i < |reqs| == |s.clients| && Undisturbed(reqs, s, i)
    ensures IsOwn(step, i) && Next(reqs, s, step).clients[i] != s.clients[i]
    ensures var t := Next(reqs, s, step);
            if t.clients[i].Done? then Served(reqs, s, i, t)
            else t == Become(s, i, t.clients[i]) && Undisturbed(reqs, t, i)
  {
    if s.clients[i].Waiting? {
      step := Lookup(i);
    } else if AllRead(reqs[i], s.clients[i].seen) {
      step := Insert(i);
      InsertIsServe(reqs, s, i);
    } else {
      var k :| 0 <= k < |reqs[i].names| && reqs[i].names[k] !in s.clients[i].seen;
      step := Read(i, reqs[i].names[k]);
    }
  }

  /** An undisturbed request that takes its remaining steps alone gets the very reply, and leaves the
      very schedules, that the sequential handler gives. */
  lemma {:induction false} SoloIsServe(reqs: seq<Request>, s: State, i: nat) returns (own: seq<Step>)
    requires i < |reqs| == |s.clients| && Undisturbed(reqs, s, i)
    ensures |own| <= Left(reqs[i], s.clients[i])
    ensures forall k :: 0 <= k < |own| ==> IsOwn(own[k], i)
    ensures Served(reqs, s, i, After(reqs, s, own))
    decreases Left(reqs[i], s.clients[i])
  {
    var step := SoloStep(reqs, s, i);
    var t := Next(reqs, s, step);
    StepShrinks(reqs, s, step, i);
    AfterFirst(reqs, s, step);
    if t.clients[i].Done? {
      own := [step];
    } else {
      var rest := SoloIsServe(reqs, t, i);
      own := [step] + rest;
      AfterConcat(reqs, s, [step], rest);
      ServedLater(reqs, s, i, t.clients[i], After(reqs, t, rest));
    }
  }
}
