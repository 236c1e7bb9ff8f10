/** The garbage collector of test VMs: which instances it stops. */
module VmCollector {
  import opened Wrappers
  import opened Strings
  import opened Sums

  /** The name gce.sh gives to a VM of a CI build. */
  function VmName(index: nat, build: nat, shard: nat): string {
    "host" + Decimal(index) + "-" + Decimal(build) + "-" + Decimal(shard)
  }

  predicate IsNumeral(s: string) {
    s != [] && AllDigits(s)
  }

  /** `NAME_RE.match(name)` and `int` of its build group. The expression is anchored at both ends,
      but its dollar sign also matches before a final newline. */
  function BuildOf(name: string): Option<nat> {
    var body := if name != [] && name[|name| - 1] == '\n' then name[..|name| - 1] else name;
    if |body| < 4 || body[..4] != "host" then None
    else
      var parts := Split(body[4..], '-');
      if |parts| == 3 && IsNumeral(parts[0]) && IsNumeral(parts[1]) && IsNumeral(parts[2])
      then Some(Value(parts[1]))
      else None
  }

  lemma SplitOfThree(a: string, b: string, c: string)
    requires AllDigits(a) && AllDigits(b) && AllDigits(c)
    ensures Split(a + ['-'] + b + ['-'] + c, '-') == [a, b, c]
  {
    SplitAtSeparator(a + ['-'] + b, '-', c);
    SplitAtSeparator(a, '-', b);
    SplitWithoutSeparator(a, '-');
  }

  /** What the expression matches: "host", three numerals with dashes between, and perhaps a
      newline. */
  ghost predicate IsVmName(name: string, a: string, b: string, c: string, end: string) {
    && IsNumeral(a) && IsNumeral(b) && IsNumeral(c) && end in ["", "\n"]
    && name == "host" + (a + ['-'] + b + ['-'] + c) + end
  }

  lemma BuildOfMatch(name: string, a: string, b: string, c: string, end: string)
    requires IsVmName(name, a, b, c, end)
    ensures BuildOf(name) == Some(Value(b))
  {
    var text := a + ['-'] + b + ['-'] + c;
    SplitOfThree(a, b, c);
    var body := "host" + text;
    assert body[|body| - 1] == c[|c| - 1];
    assert name == body + end;
    assert end == "\n" ==> name[..|name| - 1] == body;
    assert end == "" ==> name == body;
    assert body[..4] == "host" && body[4..] == text;
  }

  /** Every name that a CI build gives to a VM is read back to its build. */
  lemma BuildRoundTrip(index: nat, build: nat, shard: nat)
    ensures BuildOf(VmName(index, build, shard)) == Some(build)
    ensures exists a, b, c :: IsVmName(VmName(index, build, shard), a, b, c, "")
                           && Value(a) == index && Value(b) == build && Value(c) == shard
  {
    var a, b, c := Decimal(index), Decimal(build), Decimal(shard);
    var name := VmName(index, build, shard);
    assert name == "host" + (a + ['-'] + b + ['-'] + c) + "";
    BuildOfMatch(name, a, b, c, "");
    ValueOfDecimal(index);
    ValueOfDecimal(build);
    ValueOfDecimal(shard);
    assert IsVmName(name, a, b, c, "");
  }

  /** Outside CI the script leaves the build and shard away, and such a VM belongs to no build. */
  lemma LocalNameHasNoBuild(index: nat)
    ensures BuildOf("host" + Decimal(index)) == None
  {
    var digits := Decimal(index);
    var name := "host" + digits;
    assert name[|name| - 1] == digits[|digits| - 1];
    assert name[4..] == digits;
    SplitWithoutSeparator(digits, '-');
  }

  lemma JoinOfThree(a: string, b: string, c: string)
    ensures Join([a, b, c], '-') == a + ['-'] + b + ['-'] + c
  {
    assert [a, b, c][..2] == [a, b] && [a, b][..1] == [a];
    assert Join([a], '-') == a && Join([a, b], '-') == a + ['-'] + b;
  }

  lemma MatchOfBuild(name: string) returns (a: string, b: string, c: string, end: string)
    requires BuildOf(name).Some?
    ensures IsVmName(name, a, b, c, end) && Value(b) == BuildOf(name).value
  {
    var newline := name != [] && name[|name| - 1] == '\n';
    var body := if newline then name[..|name| - 1] else name;
    end := if newline then "\n" else "";
    assert name == body + end;
    var parts := Split(body[4..], '-');
    a, b, c := parts[0], parts[1], parts[2];
    assert parts == [a, b, c];
    JoinOfSplit(body[4..], '-');
    JoinOfThree(a, b, c);
    assert body == "host" + body[4..] by { assert body == body[..4] + body[4..]; }
  }

  /** An instance belongs to build n exactly when its name is a VM name whose middle numeral
      denotes n. */
  lemma BuildOfSpec(name: string, n: nat)
    ensures BuildOf(name) == Some(n) <==> exists a, b, c, end :: IsVmName(name, a, b, c, end) && Value(b) == n
  {
    if BuildOf(name) == Some(n) {
      var a, b, c, end := MatchOfBuild(name);
    }
    forall a, b, c, end | IsVmName(name, a, b, c, end) && Value(b) == n ensures BuildOf(name) == Some(n) {
      BuildOfMatch(name, a, b, c, end);
    }
  }

  // ---------- the collection ----------

  type HostsByBuild = map<nat, seq<string>>

  /** The instances of one build, in listing order. */
  function OfBuild(instances: seq<string>, build: nat): seq<string> {
    if instances == [] then []
    else
      var n := |instances| - 1;
      var before := OfBuild(instances[..n], build);
      if BuildOf(instances[n]) == Some(build) then before + [instances[n]] else before
  }

  function IsOfBuild(build: nat): string -> bool {
    name => BuildOf(name) == Some(build)
  }

  /** They are the listing's entries of that build, in listing order. */
  lemma {:induction false} OfBuildInOrder(instances: seq<string>, build: nat) returns (idx: seq<nat>)
    ensures Selects(instances, IsOfBuild(build), OfBuild(instances, build), idx)
  {
    if instances == [] {
      idx := [];
    } else {
      var before, name := instances[..|instances| - 1], instances[|instances| - 1];
      assert instances == before + [name];
      var shorter := OfBuildInOrder(before, build);
      idx := SelectsSnoc(before, IsOfBuild(build), OfBuild(before, build), shorter, name);
    }
  }

  /** The instances of several builds, build after build. */
  function Batches(instances: seq<string>, builds: seq<nat>): seq<string> {
    if builds == [] then []
    else Batches(instances, builds[..|builds| - 1]) + OfBuild(instances, builds[|builds| - 1])
  }

  /** The instances that must be stopped: those of a build that is not running. */
  function Stale(instances: seq<string>, running: set<nat>): seq<string> {
    if instances == [] then []
    else
      var n := |instances| - 1;
      var build := BuildOf(instances[n]);
      var before := Stale(instances[..n], running);
      if build.Some? && build.value !in running then before + [instances[n]] else before
  }

  /** The stale instances of the builds in `visited` alone. */
  function StaleOf(instances: seq<string>, running: set<nat>, visited: set<nat>): seq<string> {
    if instances == [] then []
    else
      var n := |instances| - 1;
      var build := BuildOf(instances[n]);
      var before := StaleOf(instances[..n], running, visited);
      if build.Some? && build.value in visited && build.value !in running then before + [instances[n]] else before
  }

  /** `groups` is the grouping of the instances by build. */
  ghost predicate Groups(groups: HostsByBuild, instances: seq<string>) {
    && (forall b :: b in groups ==> groups[b] == OfBuild(instances, b))
    && (forall i :: 0 <= i < |instances| && BuildOf(instances[i]).Some? ==> BuildOf(instances[i]).value in groups)
  }

  /** Seen from one name: what visiting one more build adds. */
  lemma {:induction false} VisitCount(instances: seq<string>, running: set<nat>, visited: set<nat>, build: nat, x: string)
    requires build !in visited
    ensures multiset(StaleOf(instances, running, visited + {build}))[x] ==
            multiset(StaleOf(instances, running, visited))[x] +
            if build in running then 0 else multiset(OfBuild(instances, build))[x]
  {
    if instances != [] {
      var n := |instances| - 1;
      var before, y := instances[..n], instances[n];
      VisitCount(before, running, visited, build, x);
      CountSnoc(StaleOf(before, running, visited + {build}), y, x);
      CountSnoc(StaleOf(before, running, visited), y, x);
      CountSnoc(OfBuild(before, build), y, x);
    }
  }

  lemma VisitOne(instances: seq<string>, running: set<nat>, visited: set<nat>, build: nat)
    requires build !in visited
    ensures multiset(StaleOf(instances, running, visited + {build})) ==
            multiset(StaleOf(instances, running, visited)) +
            if build in running then multiset{} else multiset(OfBuild(instances, build))
  {
    var all, some, own := StaleOf(instances, running, visited + {build}), StaleOf(instances, running, visited), OfBuild(instances, build);
    forall x ensures multiset(all)[x] == multiset(some)[x] + if build in running then 0 else multiset(own)[x] {
      VisitCount(instances, running, visited, build, x);
    }
  }

  lemma {:induction false} VisitAll(instances: seq<string>, running: set<nat>, visited: set<nat>)
    requires forall i :: 0 <= i < |instances| && BuildOf(instances[i]).Some? ==> BuildOf(instances[i]).value in visited
    ensures StaleOf(instances, running, visited) == Stale(instances, running)
  {
    if instances != [] {
      VisitAll(instances[..|instances| - 1], running, visited);
    }
  }

  lemma {:induction false} VisitNone(instances: seq<string>, running: set<nat>)
    ensures StaleOf(instances, running, {}) == []
  {
    if instances != [] {
      VisitNone(instances[..|instances| - 1], running);
    }
  }

  lemma {:induction false} NoneYet(instances: seq<string>, build: nat)
    requires forall i :: 0 <= i < |instances| ==> BuildOf(instances[i]) != Some(build)
    ensures OfBuild(instances, build) == []
  {
    if instances != [] {
      NoneYet(instances[..|instances| - 1], build);
    }
  }

  function AddToGroup(groups: HostsByBuild, name: string): HostsByBuild {
    match BuildOf(name)
    case None => groups
    case Some(build) => groups[build := (if build in groups then groups[build] else []) + [name]]
  }

  lemma GroupsStep(groups: HostsByBuild, instances: seq<string>, name: string)
    requires Groups(groups, instances)
    ensures Groups(AddToGroup(groups, name), instances + [name])
  {
    assert (instances + [name])[..|instances|] == instances;
    match BuildOf(name)
    case None =>
    case Some(build) =>
      if build !in groups {
        NoneYet(instances, build);
      }
  }

  method GroupByBuild(instances: seq<string>) returns (groups: HostsByBuild)
    ensures Groups(groups, instances)
  {
    groups := map[];
    for i := 0 to |instances|
      invariant Groups(groups, instances[..i])
    {
      GroupsStep(groups, instances[..i], instances[i]);
      assert instances[..i + 1] == instances[..i] + [instances[i]];
      var build := BuildOf(instances[i]);
      if build.None? {
        continue;
      }
      var names := if build.value in groups then groups[build.value] else [];
      groups := groups[build.value := names + [instances[i]]];
    }
    assert instances[..|instances|] == instances;
  }

  /** The inner loop: one delete call per name. */
  method StopAll(before: seq<string>, names: seq<string>) returns (stopped: seq<string>)
    ensures stopped == before + names
  {
    stopped := before;
    for i := 0 to |names|
      invariant stopped == before + names[..i]
    {
      stopped := stopped + [names[i]];
    }
  }

  /** `stopped` is what visiting these builds stops; `order` lists those that were not skipped. */
  ghost predicate Collected(instances: seq<string>, running: set<nat>, visited: set<nat>, order: seq<nat>, stopped: seq<string>) {
    && stopped == Batches(instances, order)
    && multiset(stopped) == multiset(StaleOf(instances, running, visited))
    && NewBuilds(order, running, visited)
  }

  ghost predicate NewBuilds(order: seq<nat>, running: set<nat>, visited: set<nat>) {
    && (forall j, k :: 0 <= j < k < |order| ==> order[j] != order[k])
    && (forall k :: 0 <= k < |order| ==> order[k] !in running && order[k] in visited)
  }

  lemma VisitNext(instances: seq<string>, running: set<nat>, visited: set<nat>, order: seq<nat>, stopped: seq<string>, build: nat)
    requires Collected(instances, running, visited, order, stopped) && build !in visited
    ensures build in running ==> Collected(instances, running, visited + {build}, order, stopped)
    ensures build !in running ==>
              Collected(instances, running, visited + {build}, order + [build], stopped + OfBuild(instances, build))
  {
    VisitOne(instances, running, visited, build);
    if build !in running {
      BatchesSnoc(instances, order, build);
      OrderNext(order, running, visited, build);
    }
  }

  lemma OrderNext(order: seq<nat>, running: set<nat>, visited: set<nat>, build: nat)
    requires NewBuilds(order, running, visited) && build !in visited && build !in running
    ensures NewBuilds(order + [build], running, visited + {build})
  {
  }

  lemma BatchesSnoc(instances: seq<string>, order: seq<nat>, build: nat)
    ensures Batches(instances, order + [build]) == Batches(instances, order) + OfBuild(instances, build)
  {
  }

  /** Stops exactly the instances whose name belongs to a build that is not running, each as often as
      it is listed: build after build, in some order, and each build's instances in listing order.
      `None` is a listing without items. */
  method GcProject(items: Option<seq<string>>, running: set<nat>) returns (stopped: seq<string>, ghost order: seq<nat>)
    ensures items.None? ==> stopped == []
    ensures items.Some? ==> multiset(stopped) == multiset(Stale(items.value, running))
    ensures items.Some? ==> stopped == Batches(items.value, order)
    ensures forall j, k :: 0 <= j < k < |order| ==> order[j] != order[k]
    ensures forall k :: 0 <= k < |order| ==> order[k] !in running
  {
    stopped, order := [], [];
    if items.None? {
      return;
    }
    var instances := items.value;
    var hostByBuild := GroupByBuild(instances);
    var left := hostByBuild.Keys;
    VisitNone(instances, running);
    assert hostByBuild.Keys - left == {};
    while left != {}
      invariant left <= hostByBuild.Keys
      invariant Collected(instances, running, hostByBuild.Keys - left, order, stopped)
      decreases |left|
    {
      var build :| build in left;
      ghost var visited := hostByBuild.Keys - left;
      VisitNext(instances, running, visited, order, stopped, build);
      left := left - {build};
      assert hostByBuild.Keys - left == visited + {build};
      if build in running {
        continue;
      }
      stopped := StopAll(stopped, hostByBuild[build]);
      order := order + [build];
    }
    assert hostByBuild.Keys - {} == hostByBuild.Keys;
    VisitAll(instances, running, hostByBuild.Keys);
  }

  /** Seen from one instance name: it is stopped as often as it is listed when it names a VM of a
      build that is not running, and never otherwise. */
  lemma {:induction false} StaleExactly(instances: seq<string>, running: set<nat>, name: string)
    ensures multiset(Stale(instances, running))[name] ==
            if BuildOf(name).Some? && BuildOf(name).value !in running then multiset(instances)[name] else 0
  {
    if instances != [] {
      var n := |instances| - 1;
      StaleExactly(instances[..n], running, name);
      CountSnoc(instances[..n], instances[n], name);
      CountSnoc(Stale(instances[..n], running), instances[n], name);
      assert instances == instances[..n] + [instances[n]];
    }
  }
}
