/** The whole coverage merge: folding all profiles of all input files, by source file, and printing
    the result in the order of file names. */
module CoverMain {
  import opened Wrappers
  import opened Strings
  import opened Sorting
  import opened Sums
  import opened Cover

  /** For every source file the merged cells. */
  type Coverage = map<string, Cells>

  // ---------- the order-free meaning of the fold ----------

  /** One profile added; None once some merge has panicked. */
  ghost function Absorb(acc: Option<Coverage>, p: Profile): Option<Coverage> {
    match acc
    case None => None
    case Some(t) =>
      var f, cells := p.fileName, View(p.blocks);
      if f !in t then Some(t[f := cells])
      else if Compatible(t[f], cells) then Some(t[f := Add(t[f], cells)])
      else None
  }

  ghost function Fold(ps: seq<Profile>): Option<Coverage> {
    if ps == [] then Some(map[]) else Absorb(Fold(ps[..|ps| - 1]), ps[|ps| - 1])
  }

  lemma CompatibleWithSum(a: Cells, m: Cells, n: Cells)
    requires Compatible(a, m)
    ensures Compatible(Add(a, m), n) <==> Compatible(a, n) && Compatible(m, n)
  {
  }

  /** The result of adding two profiles to a third, in one of the two orders. */
  lemma AddIsAssociative(a: Cells, m: Cells, n: Cells)
    requires Compatible(a, m) && Compatible(a, n) && Compatible(m, n)
    ensures Add(Add(a, m), n) == Add(Add(a, n), m)
  {
  }

  /** The order of two profiles does not matter, panics included. */
  lemma AbsorbCommutes(acc: Option<Coverage>, p: Profile, q: Profile)
    ensures Absorb(Absorb(acc, p), q) == Absorb(Absorb(acc, q), p)
  {
    if acc.Some? {
      var m, n := View(p.blocks), View(q.blocks);
      if p.fileName == q.fileName {
        AbsorbTogether(acc.value, p, q);
      } else {
        AbsorbApart(acc.value, p, q);
      }
    }
  }

  lemma AbsorbTogether(t: Coverage, p: Profile, q: Profile)
    requires p.fileName == q.fileName
    ensures Absorb(Absorb(Some(t), p), q) == Absorb(Absorb(Some(t), q), p)
  {
    var f, m, n := p.fileName, View(p.blocks), View(q.blocks);
    AddIsCommutative(m, n);
    if f !in t {
      OverwriteTwice(t, f, m, Add(m, n));
      OverwriteTwice(t, f, n, Add(m, n));
    } else {
      var a := t[f];
      if Compatible(a, m) { CompatibleWithSum(a, m, n); }
      if Compatible(a, n) { CompatibleWithSum(a, n, m); }
      if Compatible(a, m) && Compatible(a, n) && Compatible(m, n) {
        AddIsAssociative(a, m, n);
        OverwriteTwice(t, f, Add(a, m), Add(Add(a, m), n));
        OverwriteTwice(t, f, Add(a, n), Add(Add(a, m), n));
      }
    }
  }

  lemma OverwriteTwice(t: Coverage, f: string, c: Cells, d: Cells)
    ensures t[f := c][f := d] == t[f := d]
  {
  }

  lemma AbsorbApart(t: Coverage, p: Profile, q: Profile)
    requires p.fileName != q.fileName
    ensures Absorb(Absorb(Some(t), p), q) == Absorb(Absorb(Some(t), q), p)
  {
    var f, g := p.fileName, q.fileName;
    if Absorb(Some(t), p).Some? && Absorb(Some(t), q).Some? {
      var c, d := Absorb(Some(t), p).value[f], Absorb(Some(t), q).value[g];
      assert t[f := c][g := d] == t[g := d][f := c];
    }
  }

  lemma FoldSnoc(ps: seq<Profile>, p: Profile)
    ensures Fold(ps + [p]) == Absorb(Fold(ps), p)
  {
  }

  lemma {:induction false} FoldMovesToEnd(ps: seq<Profile>, i: nat)
    requires i < |ps|
    ensures Fold(ps) == Absorb(Fold(Without(ps, i)), ps[i])
  {
    var n := |ps| - 1;
    if i == n {
      assert Without(ps, i) == ps[..n];
    } else {
      FoldMovesToEnd(ps[..n], i);
      AbsorbCommutes(Fold(Without(ps[..n], i)), ps[i], ps[n]);
      assert Without(ps, i) == Without(ps[..n], i) + [ps[n]];
      FoldSnoc(Without(ps[..n], i), ps[n]);
    }
  }

  lemma {:induction false} FoldOfPermutation(ps: seq<Profile>, qs: seq<Profile>)
    requires multiset(ps) == multiset(qs)
    ensures Fold(ps) == Fold(qs)
  {
    if ps == [] {
      assert |multiset(qs)| == 0;
    } else {
      var p := ps[|ps| - 1];
      assert p in multiset(ps);
      var i := IndexOf(qs, p);
      LastBag(ps);
      WithoutBag(qs, i);
      assert multiset(ps[..|ps| - 1]) == multiset(ps) - multiset{p};
      FoldOfPermutation(ps[..|ps| - 1], Without(qs, i));
      FoldMovesToEnd(qs, i);
    }
  }

  // ---------- when it panics, and what it counts ----------

  ghost predicate Clash(p: Profile, q: Profile) {
    p.fileName == q.fileName && !Compatible(View(p.blocks), View(q.blocks))
  }

  /** No merge of `q` with what the fold has gathered can panic. */
  ghost predicate Fits(t: Coverage, q: Profile) {
    q.fileName in t ==> Compatible(t[q.fileName], View(q.blocks))
  }

  lemma AbsorbFits(t: Coverage, p: Profile, q: Profile)
    requires Fits(t, p)
    ensures Absorb(Some(t), p).Some?
    ensures Fits(Absorb(Some(t), p).value, q) <==> Fits(t, q) && !Clash(p, q)
  {
  }

  lemma {:induction false} FoldFits(ps: seq<Profile>, q: Profile)
    requires Fold(ps).Some?
    ensures Fits(Fold(ps).value, q) <==> forall i :: 0 <= i < |ps| ==> !Clash(ps[i], q)
  {
    if ps != [] {
      var n := |ps| - 1;
      FoldFits(ps[..n], q);
      AbsorbFits(Fold(ps[..n]).value, ps[n], q);
      assert forall i :: 0 <= i < n ==> ps[..n][i] == ps[i];
    }
  }

  /** The merge of any number of profiles panics exactly when two of them, of the same source file,
      disagree about the extent of a block that both have. */
  lemma {:induction false} FoldPanicsOnClash(ps: seq<Profile>)
    ensures Fold(ps).None? <==> exists i, j :: 0 <= i < j < |ps| && Clash(ps[i], ps[j])
  {
    if ps != [] {
      var n := |ps| - 1;
      FoldPanicsOnClash(ps[..n]);
      assert forall i :: 0 <= i < n ==> ps[..n][i] == ps[i];
      if Fold(ps[..n]).Some? {
        FoldFits(ps[..n], ps[n]);
      }
    }
  }

  function CountAt(cells: Cells, pos: Pos): int {
    if pos in cells then cells[pos].count else 0
  }

  /** The executions of one block of one source file, over all profiles. */
  ghost function TotalCount(ps: seq<Profile>, f: string, pos: Pos): int {
    if ps == [] then 0
    else
      var p := ps[|ps| - 1];
      TotalCount(ps[..|ps| - 1], f, pos) + if p.fileName == f then CountAt(View(p.blocks), pos) else 0
  }

  /** Some profile of source file f has a block at pos. */
  ghost predicate Mentions(ps: seq<Profile>, f: string, pos: Pos) {
    exists i :: 0 <= i < |ps| && ps[i].fileName == f && pos in View(ps[i].blocks)
  }

  /** The merged coverage has exactly the blocks that some profile has, and each counts as often as
      in all profiles together. */
  lemma {:induction false} FoldAddsCounts(ps: seq<Profile>, f: string, pos: Pos)
    requires Fold(ps).Some?
    ensures f in Fold(ps).value <==> exists i :: 0 <= i < |ps| && ps[i].fileName == f
    ensures f in Fold(ps).value && pos in Fold(ps).value[f] <==> Mentions(ps, f, pos)
    ensures f in Fold(ps).value ==> CountAt(Fold(ps).value[f], pos) == TotalCount(ps, f, pos)
    ensures f !in Fold(ps).value ==> TotalCount(ps, f, pos) == 0
  {
    if ps != [] {
      var n := |ps| - 1;
      FoldAddsCounts(ps[..n], f, pos);
      assert forall i :: 0 <= i < n ==> ps[..n][i] == ps[i];
    }
  }

  /** Every profile agrees with the merged coverage about the extent of each of its blocks. */
  lemma {:induction false} FoldKeepsExtents(ps: seq<Profile>, k: nat, pos: Pos)
    requires Fold(ps).Some? && k < |ps| && pos in View(ps[k].blocks)
    ensures ps[k].fileName in Fold(ps).value && pos in Fold(ps).value[ps[k].fileName]
    ensures SameExtent(Fold(ps).value[ps[k].fileName][pos], View(ps[k].blocks)[pos])
  {
    var n := |ps| - 1;
    var t, cells := Fold(ps[..n]).value, View(ps[n].blocks);
    if k < n {
      FoldKeepsExtents(ps[..n], k, pos);
    } else if ps[n].fileName in t && pos in t[ps[n].fileName] {
      assert SameExtent(t[ps[n].fileName][pos], cells[pos]);
    }
  }

  // ---------- the program ----------

  datatype Row = Row(fileName: string, block: Block)

  /** What a run of the tool prints after its mode line, or its panic. */
  datatype Outcome = Panic | Printed(rows: seq<Row>)

  /** The profiles that the map holds while the input is folded. */
  type Profiles = map<string, Profile>

  ghost predicate Holds(outputs: Profiles, t: Coverage) {
    && outputs.Keys == t.Keys
    && forall f :: f in outputs ==>
         outputs[f].fileName == f && Sorted(outputs[f].blocks) && View(outputs[f].blocks) == t[f]
  }

  ghost predicate AllSorted(ps: seq<Profile>) {
    forall i :: 0 <= i < |ps| ==> Sorted(ps[i].blocks)
  }

  /** Ascending by file name, without repetition. */
  ghost predicate NamesAscend(ps: seq<Profile>) {
    forall i, j :: 0 <= i < j < |ps| ==> Less(ps[i].fileName, ps[j].fileName)
  }

  /** `ps` lists the coverage in printing order. */
  ghost predicate Lists(ps: seq<Profile>, t: Coverage) {
    && NamesAscend(ps)
    && (forall i :: 0 <= i < |ps| ==>
          ps[i].fileName in t && Sorted(ps[i].blocks) && View(ps[i].blocks) == t[ps[i].fileName])
    && (forall f :: f in t ==> exists i :: 0 <= i < |ps| && ps[i].fileName == f)
  }

  function RowsOf(ps: seq<Profile>): seq<Row> {
    if ps == [] then [] else RowsOf(ps[..|ps| - 1]) + RowsOfOne(ps[|ps| - 1])
  }

  function RowsOfOne(p: Profile): seq<Row> {
    seq(|p.blocks|, i requires 0 <= i < |p.blocks| => Row(p.fileName, p.blocks[i]))
  }

  /** The outcome that the profiles read from all input files demand. */
  ghost predicate IsOutcome(ps: seq<Profile>, out: Outcome) {
    match out
    case Panic => Fold(ps).None?
    case Printed(rows) => Fold(ps).Some? && exists listing :: Lists(listing, Fold(ps).value) && rows == RowsOf(listing)
  }

  // ---------- collecting and sorting ----------

  /** `byFileName.Less`. */
  predicate NameLess(p: Profile, q: Profile) {
    Less(p.fileName, q.fileName)
  }

  function SortByName(ps: seq<Profile>): (r: seq<Profile>)
    ensures |r| == |ps|
  {
    Sort(NameLess, ps)
  }

  ghost predicate Distinct(ps: seq<Profile>) {
    forall i, j :: 0 <= i < j < |ps| ==> ps[i].fileName != ps[j].fileName
  }

  lemma NameLessIsWeakOrder()
    ensures WeakOrder(NameLess)
  {
    forall p, q | NameLess(p, q) ensures !NameLess(q, p) {
      LessIsTotal(p.fileName, q.fileName);
    }
    forall p, q, r | !NameLess(q, p) && !NameLess(r, q) ensures !NameLess(r, p) {
      NotNameLess(p.fileName, q.fileName, r.fileName);
    }
  }

  lemma NotNameLess(a: string, b: string, c: string)
    requires !Less(b, a) && !Less(c, b)
    ensures !Less(c, a)
  {
    LessIsTotal(a, b);
    LessIsTotal(b, c);
    LessIsTotal(a, c);
    if Less(a, b) && Less(b, c) {
      LessIsTransitive(a, b, c);
    }
  }

  /** The names of a rearrangement of distinctly named profiles are distinct. */
  lemma {:induction false} DistinctOfPermutation(ps: seq<Profile>, qs: seq<Profile>)
    requires Distinct(ps) && multiset(ps) == multiset(qs)
    ensures Distinct(qs)
  {
    forall i, j | 0 <= i < j < |qs| ensures qs[i].fileName != qs[j].fileName {
      var k := IndexInPermutation(ps, qs, i);
      var l := IndexInPermutation(ps, qs, j);
      if k == l {
        TwiceInBag(qs, i, j);
        OnceInBag(ps, k);
      }
    }
  }

  lemma IndexInPermutation(ps: seq<Profile>, qs: seq<Profile>, i: nat) returns (k: nat)
    requires multiset(ps) == multiset(qs) && i < |qs|
    ensures k < |ps| && ps[k] == qs[i]
  {
    assert qs[i] in multiset(qs);
    k := IndexOf(ps, qs[i]);
  }

  lemma TwiceInBag(qs: seq<Profile>, i: nat, j: nat)
    requires i < j < |qs| && qs[i] == qs[j]
    ensures multiset(qs)[qs[i]] >= 2
  {
    WithoutBag(qs, j);
    assert Without(qs, j)[i] == qs[i];
    assert qs[i] in multiset(Without(qs, j));
  }

  lemma OnceInBag(ps: seq<Profile>, k: nat)
    requires Distinct(ps) && k < |ps|
    ensures multiset(ps)[ps[k]] == 1
  {
    WithoutBag(ps, k);
    assert ps[k] !in Without(ps, k);
  }

  lemma SortByNameSpec(ps: seq<Profile>)
    requires Distinct(ps)
    ensures NamesAscend(SortByName(ps)) && multiset(SortByName(ps)) == multiset(ps)
  {
    var sorted := SortByName(ps);
    NameLessIsWeakOrder();
    SortSorted(NameLess, ps);
    SortBag(NameLess, ps);
    DistinctOfPermutation(ps, sorted);
    forall i, j | 0 <= i < j < |sorted| ensures Less(sorted[i].fileName, sorted[j].fileName) {
      assert !NameLess(sorted[j], sorted[i]);
      LessIsTotal(sorted[i].fileName, sorted[j].fileName);
    }
  }

  /** `for _, profile := range outputProfiles`: collects the values in any order. */
  method CollectProfiles(outputs: Profiles) returns (profiles: array<Profile>)
    requires forall f :: f in outputs ==> outputs[f].fileName == f
    ensures fresh(profiles) && Distinct(profiles[..])
    ensures forall p :: p in profiles[..] <==> p.fileName in outputs && outputs[p.fileName] == p
  {
    var left, collected: seq<Profile> := outputs.Keys, [];
    while left != {}
      invariant left <= outputs.Keys && Distinct(collected)
      invariant forall p :: p in collected <==>
                  p.fileName in outputs && p.fileName !in left && outputs[p.fileName] == p
      decreases |left|
    {
      var f :| f in left;
      left := left - {f};
      collected := collected + [outputs[f]];
    }
    profiles := new Profile[|collected|](i requires 0 <= i < |collected| => collected[i]);
    assert profiles[..] == collected;
  }

  /** `sort.Sort(byFileName(profiles))`, in place. */
  method SortProfiles(profiles: array<Profile>)
    requires Distinct(profiles[..])
    modifies profiles
    ensures profiles[..] == SortByName(old(profiles[..]))
  {
    ghost var before := profiles[..];
    var sorted := SortByName(profiles[..]);
    forall i | 0 <= i < profiles.Length {
      profiles[i] := sorted[i];
    }
    assert profiles[..] == sorted;
  }

  /** `print`, one row per block. */
  method Print(profiles: array<Profile>) returns (rows: seq<Row>)
    ensures rows == RowsOf(profiles[..])
  {
    rows := [];
    for i := 0 to profiles.Length
      invariant rows == RowsOf(profiles[..i])
    {
      var profile := profiles[i];
      ghost var before := rows;
      for j := 0 to |profile.blocks|
        invariant rows == before + RowsOfOne(profile)[..j]
      {
        rows := rows + [Row(profile.fileName, profile.blocks[j])];
      }
      assert profiles[..i + 1][..i] == profiles[..i];
    }
    assert profiles[..profiles.Length] == profiles[..];
  }

  /** One iteration of the inner loop of `main`. */
  method AddProfile(outputs: Profiles, ip: Profile, ghost t: Coverage) returns (r: Option<Profiles>)
    requires Holds(outputs, t) && Sorted(ip.blocks)
    ensures r.None? <==> Absorb(Some(t), ip).None?
    ensures r.Some? ==> Holds(r.value, Absorb(Some(t), ip).value)
  {
    if ip.fileName !in outputs {
      return Some(outputs[ip.fileName := ip]);
    }
    var merged := Merge(outputs[ip.fileName], ip);
    if merged.None? {
      return None;
    }
    r := Some(outputs[ip.fileName := merged.value]);
  }

  lemma {:induction false} FoldStaysNone(ps: seq<Profile>, more: seq<Profile>)
    requires Fold(ps).None?
    ensures Fold(ps + more).None?
  {
    if more == [] {
      assert ps + more == ps;
    } else {
      FoldStaysNone(ps, more[..|more| - 1]);
      assert (ps + more)[..|ps + more| - 1] == ps + more[..|more| - 1];
    }
  }

  lemma {:induction false} NoneUpTo(inputs: seq<seq<Profile>>, i: nat, k: nat)
    requires i <= k <= |inputs| && Fold(Flatten(inputs[..i])).None?
    ensures Fold(Flatten(inputs[..k])).None?
  {
    if i < k {
      NoneUpTo(inputs, i, k - 1);
      assert inputs[..k][..k - 1] == inputs[..k - 1];
      FoldStaysNone(Flatten(inputs[..k - 1]), inputs[k - 1]);
    }
  }

  lemma FlattenNext(inputs: seq<seq<Profile>>, i: nat)
    requires i < |inputs|
    ensures Flatten(inputs[..i + 1]) == Flatten(inputs[..i]) + inputs[i]
  {
    assert inputs[..i + 1][..i] == inputs[..i];
  }

  lemma ListsSorted(outputs: Profiles, t: Coverage, collected: seq<Profile>, sorted: seq<Profile>)
    requires Holds(outputs, t) && NamesAscend(sorted) && multiset(sorted) == multiset(collected)
    requires forall p :: p in collected <==> p.fileName in outputs && outputs[p.fileName] == p
    ensures Lists(sorted, t)
  {
    forall i | 0 <= i < |sorted| ensures sorted[i] in collected {
      assert sorted[i] in multiset(collected);
    }
    forall f | f in t ensures exists i :: 0 <= i < |sorted| && sorted[i].fileName == f {
      assert outputs[f] in collected;
      assert outputs[f] in multiset(sorted);
      var i := IndexOf(sorted, outputs[f]);
    }
  }

  lemma FoldNext(before: seq<Profile>, ps: seq<Profile>, j: nat)
    requires j < |ps|
    ensures Fold(before + ps[..j + 1]) == Absorb(Fold(before + ps[..j]), ps[j])
    ensures Fold(before + ps[..j + 1]).None? ==> Fold(before + ps).None?
  {
    FoldSnoc(before + ps[..j], ps[j]);
    assert before + ps[..j + 1] == before + ps[..j] + [ps[j]];
    if Fold(before + ps[..j + 1]).None? {
      FoldStaysNone(before + ps[..j + 1], ps[j + 1..]);
      assert before + ps[..j + 1] + ps[j + 1..] == before + ps;
    }
  }

  /** The inner loop of `main`: one input file. */
  method AddFile(outputs: Profiles, inputProfiles: seq<Profile>, ghost before: seq<Profile>, ghost t: Coverage)
    returns (r: Option<Profiles>, ghost t': Coverage)
    requires AllSorted(inputProfiles) && Fold(before) == Some(t) && Holds(outputs, t)
    ensures r.None? ==> Fold(before + inputProfiles).None?
    ensures r.Some? ==> Fold(before + inputProfiles) == Some(t') && Holds(r.value, t')
  {
    var current := outputs;
    t' := t;
    assert before + inputProfiles[..0] == before;
    for j := 0 to |inputProfiles|
      invariant Fold(before + inputProfiles[..j]) == Some(t') && Holds(current, t')
    {
      var ip := inputProfiles[j];
      FoldNext(before, inputProfiles, j);
      var merged := AddProfile(current, ip, t');
      if merged.None? {
        return None, t';
      }
      current := merged.value;
      t' := Absorb(Some(t'), ip).value;
    }
    assert inputProfiles[..|inputProfiles|] == inputProfiles;
    r := Some(current);
  }

  /** `main`: folds the profiles of all input files, then collects, sorts and prints. The parser must
      deliver every profile's blocks in strictly ascending order. */
  method MergeFiles(inputs: seq<seq<Profile>>) returns (out: Outcome)
    requires forall i :: 0 <= i < |inputs| ==> AllSorted(inputs[i])
    ensures IsOutcome(Flatten(inputs), out)
  {
    var outputs: Profiles := map[];
    ghost var t: Coverage := map[];
    assert inputs[..|inputs|] == inputs;
    for i := 0 to |inputs|
      invariant Fold(Flatten(inputs[..i])) == Some(t) && Holds(outputs, t)
    {
      FlattenNext(inputs, i);
      var r;
      r, t := AddFile(outputs, inputs[i], Flatten(inputs[..i]), t);
      if r.None? {
        NoneUpTo(inputs, i + 1, |inputs|);
        return Panic;
      }
      outputs := r.value;
    }
    out := Report(outputs, t);
  }

  /** The second half of `main`. */
  method Report(outputs: Profiles, ghost t: Coverage) returns (out: Outcome)
    requires Holds(outputs, t)
    ensures out.Printed? && exists listing :: Lists(listing, t) && out.rows == RowsOf(listing)
  {
    var profiles := CollectProfiles(outputs);
    ghost var collected := profiles[..];
    SortProfiles(profiles);
    SortByNameSpec(collected);
    ListsSorted(outputs, t, collected, profiles[..]);
    var rows := Print(profiles);
    out := Printed(rows);
  }

  // ---------- the printed result does not depend on any order ----------

  ghost predicate Ascend(names: seq<string>) {
    forall i, j :: 0 <= i < j < |names| ==> Less(names[i], names[j])
  }

  lemma FirstIsMember(names: seq<string>)
    ensures names == [] || names[0] in names
  {
  }

  lemma FirstIsLeast(names: seq<string>, n: string)
    requires Ascend(names) && n in names
    ensures n == names[0] || Less(names[0], n)
  {
  }

  /** An ascending list is determined by its elements. */
  lemma {:induction false} AscendIsUnique(a: seq<string>, b: seq<string>)
    requires Ascend(a) && Ascend(b) && forall n :: n in a <==> n in b
    ensures a == b
  {
    if a == [] {
      FirstIsMember(b);
    } else {
      assert a[0] in b;
      assert b[0] in a;
      FirstIsLeast(a, b[0]);
      FirstIsLeast(b, a[0]);
      LessIsTotal(a[0], b[0]);
      forall n ensures n in a[1..] <==> n in b[1..] {
        RestOfAscend(a, n);
        RestOfAscend(b, n);
      }
      AscendIsUnique(a[1..], b[1..]);
      assert a == [a[0]] + a[1..] && b == [b[0]] + b[1..];
    }
  }

  lemma RestOfAscend(names: seq<string>, n: string)
    requires Ascend(names) && names != []
    ensures n in names[1..] <==> n in names && n != names[0]
  {
    LessIsTotal(n, n);
  }

  function NamesOf(ps: seq<Profile>): (names: seq<string>)
    ensures |names| == |ps| && forall i :: 0 <= i < |ps| ==> names[i] == ps[i].fileName
  {
    seq(|ps|, i requires 0 <= i < |ps| => ps[i].fileName)
  }

  lemma NamesListed(ps: seq<Profile>, t: Coverage)
    requires Lists(ps, t)
    ensures forall n :: n in NamesOf(ps) <==> n in t
  {
  }

  /** Two listings of one coverage differ at most in the modes. */
  lemma ListingsAgree(a: seq<Profile>, b: seq<Profile>, t: Coverage)
    requires Lists(a, t) && Lists(b, t)
    ensures |a| == |b|
    ensures forall i :: 0 <= i < |a| ==> a[i].fileName == b[i].fileName && a[i].blocks == b[i].blocks
  {
    NamesListed(a, t);
    NamesListed(b, t);
    AscendIsUnique(NamesOf(a), NamesOf(b));
    forall i | 0 <= i < |a| ensures a[i].fileName == b[i].fileName && a[i].blocks == b[i].blocks {
      assert NamesOf(a)[i] == NamesOf(b)[i];
      ViewDetermines(a[i].blocks, b[i].blocks);
    }
  }

  lemma {:induction false} SameRows(a: seq<Profile>, b: seq<Profile>)
    requires |a| == |b|
    requires forall i :: 0 <= i < |a| ==> a[i].fileName == b[i].fileName && a[i].blocks == b[i].blocks
    ensures RowsOf(a) == RowsOf(b)
  {
    if a != [] {
      var n := |a| - 1;
      SameRows(a[..n], b[..n]);
      assert RowsOfOne(a[n]) == RowsOfOne(b[n]);
    }
  }

  /** Reading the same profiles in any other order ends in the same panic or prints the same rows,
      whatever order the map of outputs is walked in. */
  lemma OrderDoesNotMatter(ps: seq<Profile>, qs: seq<Profile>, out: Outcome, out': Outcome)
    requires multiset(ps) == multiset(qs) && IsOutcome(ps, out) && IsOutcome(qs, out')
    ensures out == out'
  {
    FoldOfPermutation(ps, qs);
    if out.Printed? && out'.Printed? {
      var t := Fold(ps).value;
      var a :| Lists(a, t) && out.rows == RowsOf(a);
      var b :| Lists(b, t) && out'.rows == RowsOf(b);
      ListingsAgree(a, b, t);
      SameRows(a, b);
    }
  }

  /** The same files named in another order on the command line. */
  lemma FileOrderDoesNotMatter(inputs: seq<seq<Profile>>, others: seq<seq<Profile>>, out: Outcome, out': Outcome)
    requires multiset(inputs) == multiset(others)
    requires IsOutcome(Flatten(inputs), out) && IsOutcome(Flatten(others), out')
    ensures out == out'
  {
    BagIsCollect(inputs);
    BagIsCollect(others);
    CollectOfPermutation(BagOf, inputs, others);
    FlattenKeepsAll(_ => 0.0, inputs);
    FlattenKeepsAll(_ => 0.0, others);
    OrderDoesNotMatter(Flatten(inputs), Flatten(others), out, out');
  }

  // ---------- what is printed ----------

  predicate RowLess(r: Row, s: Row) {
    Less(r.fileName, s.fileName) || (r.fileName == s.fileName && PosLess(Start(r.block), Start(s.block)))
  }

  ghost predicate RowsAscend(rows: seq<Row>) {
    forall i, j :: 0 <= i < j < |rows| ==> RowLess(rows[i], rows[j])
  }

  /** `r` is the row of some block of some profile of the list. */
  ghost predicate IsRowOf(ps: seq<Profile>, r: Row) {
    exists i :: 0 <= i < |ps| && ps[i].fileName == r.fileName && r.block in ps[i].blocks
  }

  lemma {:induction false} RowsOfSpec(ps: seq<Profile>)
    requires NamesAscend(ps) && AllSorted(ps)
    ensures forall r :: r in RowsOf(ps) <==> IsRowOf(ps, r)
    ensures RowsAscend(RowsOf(ps))
  {
    if ps != [] {
      var n := |ps| - 1;
      var before, own := RowsOf(ps[..n]), RowsOfOne(ps[n]);
      RowsOfSpec(ps[..n]);
      forall r ensures r in own <==> ps[n].fileName == r.fileName && r.block in ps[n].blocks {
        if ps[n].fileName == r.fileName && r.block in ps[n].blocks {
          var j :| 0 <= j < |ps[n].blocks| && ps[n].blocks[j] == r.block;
          assert own[j] == r;
        }
      }
      forall r ensures r in RowsOf(ps) <==> IsRowOf(ps, r) {
        RowInSplit(ps, r);
      }
      forall r | r in before ensures Less(r.fileName, ps[n].fileName) {
        assert IsRowOf(ps[..n], r);
      }
    }
  }

  lemma RowInSplit(ps: seq<Profile>, r: Row)
    requires ps != []
    ensures IsRowOf(ps, r) <==> IsRowOf(ps[..|ps| - 1], r) ||
                                (ps[|ps| - 1].fileName == r.fileName && r.block in ps[|ps| - 1].blocks)
  {
  }

  /** If the profile has the row's block, it gives it the row's extent. */
  ghost predicate ExtentAgrees(r: Row, p: Profile) {
    p.fileName == r.fileName && Start(r.block) in View(p.blocks) ==>
      SameExtent(CellOf(r.block), View(p.blocks)[Start(r.block)])
  }

  lemma RowExtent(ps: seq<Profile>, t: Coverage, listing: seq<Profile>, r: Row, k: nat)
    requires Fold(ps) == Some(t) && Lists(listing, t) && IsRowOf(listing, r) && k < |ps|
    ensures ExtentAgrees(r, ps[k])
  {
    var i :| 0 <= i < |listing| && listing[i].fileName == r.fileName && r.block in listing[i].blocks;
    ViewOf(listing[i].blocks, Start(r.block));
    if ps[k].fileName == r.fileName && Start(r.block) in View(ps[k].blocks) {
      FoldKeepsExtents(ps, k, Start(r.block));
    }
  }

  /** The printed rows, read against the input: they ascend by file and position, they are for
      exactly the blocks that some profile has, and each carries the extent that all these profiles
      give the block, and its total count. */
  lemma PrintedRows(ps: seq<Profile>, rows: seq<Row>)
    requires IsOutcome(ps, Printed(rows))
    ensures RowsAscend(rows)
    ensures forall i :: 0 <= i < |rows| ==>
              && Mentions(ps, rows[i].fileName, Start(rows[i].block))
              && rows[i].block.count == TotalCount(ps, rows[i].fileName, Start(rows[i].block))
    ensures forall i, k :: 0 <= i < |rows| && 0 <= k < |ps| ==> ExtentAgrees(rows[i], ps[k])
    ensures forall f, pos :: Mentions(ps, f, pos) ==>
              exists i :: 0 <= i < |rows| && rows[i].fileName == f && Start(rows[i].block) == pos
  {
    var t := Fold(ps).value;
    var listing :| Lists(listing, t) && rows == RowsOf(listing);
    RowsOfSpec(listing);
    forall i | 0 <= i < |rows|
      ensures Mentions(ps, rows[i].fileName, Start(rows[i].block))
      ensures rows[i].block.count == TotalCount(ps, rows[i].fileName, Start(rows[i].block))
    {
      assert rows[i] in RowsOf(listing);
      RowIsTotal(ps, t, listing, rows[i]);
    }
    forall i, k | 0 <= i < |rows| && 0 <= k < |ps| ensures ExtentAgrees(rows[i], ps[k]) {
      assert rows[i] in RowsOf(listing);
      RowExtent(ps, t, listing, rows[i], k);
    }
    forall f, pos | Mentions(ps, f, pos)
      ensures exists i :: 0 <= i < |rows| && rows[i].fileName == f && Start(rows[i].block) == pos
    {
      var r := RowOfMention(ps, t, listing, f, pos);
      assert r in RowsOf(listing);
    }
  }

  lemma RowIsTotal(ps: seq<Profile>, t: Coverage, listing: seq<Profile>, r: Row)
    requires Fold(ps) == Some(t) && Lists(listing, t) && IsRowOf(listing, r)
    ensures Mentions(ps, r.fileName, Start(r.block))
    ensures r.block.count == TotalCount(ps, r.fileName, Start(r.block))
  {
    var i :| 0 <= i < |listing| && listing[i].fileName == r.fileName && r.block in listing[i].blocks;
    ViewOf(listing[i].blocks, Start(r.block));
    FoldAddsCounts(ps, r.fileName, Start(r.block));
  }

  lemma RowOfMention(ps: seq<Profile>, t: Coverage, listing: seq<Profile>, f: string, pos: Pos) returns (r: Row)
    requires Fold(ps) == Some(t) && Lists(listing, t) && Mentions(ps, f, pos)
    ensures IsRowOf(listing, r) && r.fileName == f && Start(r.block) == pos
  {
    FoldAddsCounts(ps, f, pos);
    var i :| 0 <= i < |listing| && listing[i].fileName == f;
    ViewOf(listing[i].blocks, pos);
    var j :| 0 <= j < |listing[i].blocks| && Start(listing[i].blocks[j]) == pos;
    r := Row(f, listing[i].blocks[j]);
  }

  // ---------- what is printed, field by field ----------

  /** How often the blocks that start at this line and column were executed. */
  function CountIn(blocks: seq<Block>, line: int, col: int): int {
    if blocks == [] then 0
    else
      var b := blocks[0];
      CountIn(blocks[1..], line, col) + if b.startLine == line && b.startCol == col then b.count else 0
  }

  /** How often that piece of source file f was executed, over all profiles. */
  function Executions(ps: seq<Profile>, f: string, line: int, col: int): int {
    if ps == [] then 0
    else
      var p := ps[|ps| - 1];
      Executions(ps[..|ps| - 1], f, line, col) + if p.fileName == f then CountIn(p.blocks, line, col) else 0
  }

  lemma {:induction false} CountInView(blocks: seq<Block>, line: int, col: int)
    requires Sorted(blocks)
    ensures CountIn(blocks, line, col) == CountAt(View(blocks), Pos(line, col))
  {
    if blocks != [] {
      SortedTail(blocks);
      CountInView(blocks[1..], line, col);
    }
  }

  lemma {:induction false} ExecutionsAreCounted(ps: seq<Profile>, f: string, line: int, col: int)
    requires AllSorted(ps)
    ensures Executions(ps, f, line, col) == TotalCount(ps, f, Pos(line, col))
  {
    if ps != [] {
      ExecutionsAreCounted(ps[..|ps| - 1], f, line, col);
      CountInView(ps[|ps| - 1].blocks, line, col);
    }
  }

  /** The row is for this block of the file. */
  predicate IsFor(r: Row, f: string, b: Block) {
    r.fileName == f && r.block.startLine == b.startLine && r.block.startCol == b.startCol
  }

  /** Row `r` is printed before row `s`: by file name, then line, then column. */
  predicate PrintsBefore(r: Row, s: Row) {
    || Less(r.fileName, s.fileName)
    || (r.fileName == s.fileName && r.block.startLine < s.block.startLine)
    || (r.fileName == s.fileName && r.block.startLine == s.block.startLine && r.block.startCol < s.block.startCol)
  }

  ghost predicate HasBlock(p: Profile, r: Row) {
    exists l :: 0 <= l < |p.blocks| && IsFor(r, p.fileName, p.blocks[l])
  }

  predicate SameFields(b: Block, c: Block) {
    b.endLine == c.endLine && b.endCol == c.endCol && b.numStmt == c.numStmt
  }

  lemma BlockForRow(ps: seq<Profile>, r: Row)
    requires AllSorted(ps) && Mentions(ps, r.fileName, Start(r.block))
    ensures SomeHasBlock(ps, r)
  {
    var k :| 0 <= k < |ps| && ps[k].fileName == r.fileName && Start(r.block) in View(ps[k].blocks);
    ViewOf(ps[k].blocks, Start(r.block));
    var l :| 0 <= l < |ps[k].blocks| && Start(ps[k].blocks[l]) == Start(r.block);
    assert IsFor(r, ps[k].fileName, ps[k].blocks[l]);
    assert HasBlock(ps[k], r);
  }

  lemma FieldsOfRow(p: Profile, l: nat, r: Row)
    requires Sorted(p.blocks) && l < |p.blocks| && IsFor(r, p.fileName, p.blocks[l]) && ExtentAgrees(r, p)
    ensures SameFields(r.block, p.blocks[l])
  {
    ViewOf(p.blocks, Start(r.block));
    assert Start(p.blocks[l]) == Start(r.block);
  }

  ghost predicate SomeHasBlock(ps: seq<Profile>, r: Row) {
    exists k :: 0 <= k < |ps| && HasBlock(ps[k], r)
  }

  ghost predicate SomeRowIsFor(rows: seq<Row>, f: string, b: Block) {
    exists i :: 0 <= i < |rows| && IsFor(rows[i], f, b)
  }

  ghost predicate EveryRowHasBlock(ps: seq<Profile>, rows: seq<Row>) {
    forall i :: 0 <= i < |rows| ==> SomeHasBlock(ps, rows[i])
  }

  ghost predicate EveryBlockHasRow(ps: seq<Profile>, rows: seq<Row>) {
    forall k, l :: 0 <= k < |ps| && 0 <= l < |ps[k].blocks| ==>
      SomeRowIsFor(rows, ps[k].fileName, ps[k].blocks[l])
  }

  ghost predicate RowsKeepFields(ps: seq<Profile>, rows: seq<Row>) {
    forall i, k, l :: 0 <= i < |rows| && 0 <= k < |ps| && 0 <= l < |ps[k].blocks| ==>
      IsFor(rows[i], ps[k].fileName, ps[k].blocks[l]) ==> SameFields(rows[i].block, ps[k].blocks[l])
  }

  ghost predicate RowsCount(ps: seq<Profile>, rows: seq<Row>) {
    forall i :: 0 <= i < |rows| ==>
      rows[i].block.count == Executions(ps, rows[i].fileName, rows[i].block.startLine, rows[i].block.startCol)
  }

  lemma RowsAreOrdered(rows: seq<Row>)
    requires RowsAscend(rows)
    ensures forall i, j :: 0 <= i < j < |rows| ==> PrintsBefore(rows[i], rows[j])
  {
    forall i, j | 0 <= i < j < |rows| ensures PrintsBefore(rows[i], rows[j]) {
      assert RowLess(rows[i], rows[j]);
    }
  }

  lemma RowsHaveBlocks(ps: seq<Profile>, rows: seq<Row>)
    requires AllSorted(ps) && forall i :: 0 <= i < |rows| ==> Mentions(ps, rows[i].fileName, Start(rows[i].block))
    ensures EveryRowHasBlock(ps, rows)
  {
    forall i | 0 <= i < |rows| ensures SomeHasBlock(ps, rows[i]) {
      BlockForRow(ps, rows[i]);
    }
  }

  lemma BlocksHaveRows(ps: seq<Profile>, rows: seq<Row>)
    requires AllSorted(ps)
    requires forall f, pos :: Mentions(ps, f, pos) ==>
               exists i :: 0 <= i < |rows| && rows[i].fileName == f && Start(rows[i].block) == pos
    ensures EveryBlockHasRow(ps, rows)
  {
    forall k, l | 0 <= k < |ps| && 0 <= l < |ps[k].blocks|
      ensures SomeRowIsFor(rows, ps[k].fileName, ps[k].blocks[l])
    {
      RowForBlock(ps, rows, k, l);
    }
  }

  lemma RowsHaveFields(ps: seq<Profile>, rows: seq<Row>)
    requires AllSorted(ps) && forall i, k :: 0 <= i < |rows| && 0 <= k < |ps| ==> ExtentAgrees(rows[i], ps[k])
    ensures RowsKeepFields(ps, rows)
  {
    forall i, k, l | 0 <= i < |rows| && 0 <= k < |ps| && 0 <= l < |ps[k].blocks| &&
                     IsFor(rows[i], ps[k].fileName, ps[k].blocks[l])
      ensures SameFields(rows[i].block, ps[k].blocks[l])
    {
      FieldsOfRow(ps[k], l, rows[i]);
    }
  }

  lemma RowsHaveCounts(ps: seq<Profile>, rows: seq<Row>)
    requires AllSorted(ps)
    requires forall i :: 0 <= i < |rows| ==>
               rows[i].block.count == TotalCount(ps, rows[i].fileName, Start(rows[i].block))
    ensures RowsCount(ps, rows)
  {
    forall i | 0 <= i < |rows|
      ensures rows[i].block.count == Executions(ps, rows[i].fileName, rows[i].block.startLine, rows[i].block.startCol)
    {
      ExecutionsAreCounted(ps, rows[i].fileName, rows[i].block.startLine, rows[i].block.startCol);
    }
  }

  /** The printed rows in terms of the blocks of the input: they ascend; there is a row for exactly the
      blocks of the input; a row ends where all these blocks end, has their number of statements, and
      counts their executions in all profiles together. */
  lemma PrintedFields(ps: seq<Profile>, rows: seq<Row>)
    requires AllSorted(ps) && IsOutcome(ps, Printed(rows))
    ensures forall i, j :: 0 <= i < j < |rows| ==> PrintsBefore(rows[i], rows[j])
    ensures EveryRowHasBlock(ps, rows) && EveryBlockHasRow(ps, rows)
    ensures RowsKeepFields(ps, rows) && RowsCount(ps, rows)
  {
    PrintedRows(ps, rows);
    RowsAreOrdered(rows);
    RowsHaveBlocks(ps, rows);
    BlocksHaveRows(ps, rows);
    RowsHaveFields(ps, rows);
    RowsHaveCounts(ps, rows);
  }

  lemma RowForBlock(ps: seq<Profile>, rows: seq<Row>, k: nat, l: nat)
    requires AllSorted(ps) && k < |ps| && l < |ps[k].blocks|
    requires forall f, pos :: Mentions(ps, f, pos) ==>
               exists i :: 0 <= i < |rows| && rows[i].fileName == f && Start(rows[i].block) == pos
    ensures SomeRowIsFor(rows, ps[k].fileName, ps[k].blocks[l])
  {
    ViewOf(ps[k].blocks, Start(ps[k].blocks[l]));
    assert Mentions(ps, ps[k].fileName, Start(ps[k].blocks[l]));
    var i :| 0 <= i < |rows| && rows[i].fileName == ps[k].fileName && Start(rows[i].block) == Start(ps[k].blocks[l]);
    assert IsFor(rows[i], ps[k].fileName, ps[k].blocks[l]);
  }

  /** The tool panics exactly when two profiles of one source file have blocks that start at one place
      and differ in where they end or in their number of statements. */
  lemma PanicsExactly(ps: seq<Profile>, out: Outcome)
    requires AllSorted(ps) && IsOutcome(ps, out)
    ensures out.Panic? <==> exists i, j :: 0 <= i < j < |ps| && ps[i].fileName == ps[j].fileName &&
                                           SomeDiffer(ps[i].blocks, ps[j].blocks)
  {
    FoldPanicsOnClash(ps);
    forall i, j | 0 <= i < j < |ps|
      ensures Clash(ps[i], ps[j]) <==> ps[i].fileName == ps[j].fileName && SomeDiffer(ps[i].blocks, ps[j].blocks)
    {
      CompatibleBlocks(ps[i].blocks, ps[j].blocks);
    }
  }
}
