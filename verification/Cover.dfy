/** Merging two coverage profiles of one source file. Counts are mathematical integers. */
module Cover {
  import opened Wrappers

  datatype Block = Block(startLine: int, startCol: int, endLine: int, endCol: int, numStmt: int, count: int)

  datatype Profile = Profile(fileName: string, mode: string, blocks: seq<Block>)

  datatype Pos = Pos(line: int, col: int)

  /** Everything of a block but its start. */
  datatype Cell = Cell(endLine: int, endCol: int, numStmt: int, count: int)

  type Cells = map<Pos, Cell>

  function Start(b: Block): Pos {
    Pos(b.startLine, b.startCol)
  }

  function CellOf(b: Block): Cell {
    Cell(b.endLine, b.endCol, b.numStmt, b.count)
  }

  predicate PosLess(p: Pos, q: Pos) {
    p.line < q.line || (p.line == q.line && p.col < q.col)
  }

  /** Strictly ascending by start: what the profile parser delivers. */
  ghost predicate Sorted(blocks: seq<Block>) {
    forall i, j :: 0 <= i < j < |blocks| ==> PosLess(Start(blocks[i]), Start(blocks[j]))
  }

  /** A block list as a finite map from start positions. */
  ghost function View(blocks: seq<Block>): Cells {
    if blocks == [] then map[] else View(blocks[1..])[Start(blocks[0]) := CellOf(blocks[0])]
  }

  predicate SameExtent(c: Cell, d: Cell) {
    c.endLine == d.endLine && c.endCol == d.endCol && c.numStmt == d.numStmt
  }

  ghost predicate Compatible(m: Cells, n: Cells) {
    forall p :: p in m && p in n ==> SameExtent(m[p], n[p])
  }

  /** Pointwise addition: extents are kept, counts add. */
  ghost function Add(m: Cells, n: Cells): Cells {
    map p | p in m.Keys + n.Keys ::
      if p in m && p in n then m[p].(count := m[p].count + n[p].count)
      else if p in m then m[p]
      else n[p]
  }

  // ---------- block lists and maps ----------

  lemma {:induction false} ViewOf(blocks: seq<Block>, p: Pos)
    requires Sorted(blocks)
    ensures p in View(blocks) <==> exists i :: 0 <= i < |blocks| && Start(blocks[i]) == p
    ensures forall i :: 0 <= i < |blocks| && Start(blocks[i]) == p ==> p in View(blocks) && View(blocks)[p] == CellOf(blocks[i])
  {
    if blocks != [] {
      ViewOf(blocks[1..], p);
      assert forall i :: 1 <= i < |blocks| ==> blocks[i] == blocks[1..][i - 1];
      if p in View(blocks[1..]) {
        var k :| 0 <= k < |blocks[1..]| && Start(blocks[1..][k]) == p;
        assert Start(blocks[k + 1]) == p;
      }
    }
  }

  ghost predicate Above(p: Pos, blocks: seq<Block>) {
    forall i :: 0 <= i < |blocks| ==> PosLess(p, Start(blocks[i]))
  }

  lemma AboveIsAboveKeys(p: Pos, blocks: seq<Block>)
    requires Sorted(blocks)
    ensures Above(p, blocks) <==> forall q :: q in View(blocks) ==> PosLess(p, q)
  {
  }

  lemma SortedTail(blocks: seq<Block>)
    requires Sorted(blocks) && blocks != []
    ensures Sorted(blocks[1..]) && Above(Start(blocks[0]), blocks[1..])
    ensures Start(blocks[0]) !in View(blocks[1..])
  {
    AboveIsAboveKeys(Start(blocks[0]), blocks[1..]);
  }

  lemma EmptyView(blocks: seq<Block>)
    ensures View(blocks) == map[] <==> blocks == []
  {
    if blocks != [] {
      assert Start(blocks[0]) in View(blocks);
    }
  }

  /** A sorted block list is determined by its map. */
  lemma {:induction false} ViewDetermines(a: seq<Block>, b: seq<Block>)
    requires Sorted(a) && Sorted(b) && View(a) == View(b)
    ensures a == b
  {
    EmptyView(a);
    EmptyView(b);
    if a != [] && b != [] {
      SortedTail(a);
      SortedTail(b);
      var p, q := Start(a[0]), Start(b[0]);
      AboveIsAboveKeys(p, a[1..]);
      AboveIsAboveKeys(q, b[1..]);
      assert p in View(b) && q in View(a);
      assert p == q;
      assert View(a)[p] == CellOf(a[0]) && View(b)[p] == CellOf(b[0]);
      assert View(a[1..]) == View(a) - {p} == View(b) - {p} == View(b[1..]);
      ViewDetermines(a[1..], b[1..]);
      assert a == [a[0]] + a[1..] && b == [b[0]] + b[1..];
    }
  }

  // ---------- merge ----------

  /** What the two-pointer loop of `merge` still has to do; None is the panic "Not run on same
      source!". */
  function Merged(a: seq<Block>, b: seq<Block>): Option<seq<Block>>
    decreases |a| + |b|
  {
    if a == [] then Some(b)
    else if b == [] then Some(a)
    else if Start(a[0]) == Start(b[0]) then
      if !SameExtent(CellOf(a[0]), CellOf(b[0])) then None
      else Prepend(a[0].(count := a[0].count + b[0].count), Merged(a[1..], b[1..]))
    else if PosLess(Start(a[0]), Start(b[0])) then Prepend(a[0], Merged(a[1..], b))
    else Prepend(b[0], Merged(a, b[1..]))
  }

  function Prepend(x: Block, r: Option<seq<Block>>): Option<seq<Block>> {
    match r
    case None => None
    case Some(s) => Some([x] + s)
  }

  /** `r` is the outcome that the maps demand. */
  ghost predicate IsMerge(a: seq<Block>, b: seq<Block>, r: Option<seq<Block>>) {
    && (r.None? <==> !Compatible(View(a), View(b)))
    && (r.Some? ==> Sorted(r.value) && View(r.value) == Add(View(a), View(b)))
  }

  lemma AddAtBoth(m: Cells, n: Cells, p: Pos, c: Cell, d: Cell)
    requires p !in m && p !in n
    ensures Compatible(m[p := c], n[p := d]) <==> SameExtent(c, d) && Compatible(m, n)
    ensures Add(m[p := c], n[p := d]) == Add(m, n)[p := c.(count := c.count + d.count)]
  {
    var m', n' := m[p := c], n[p := d];
    if Compatible(m', n') {
      assert SameExtent(m'[p], n'[p]);
      forall q | q in m && q in n ensures SameExtent(m[q], n[q]) { assert SameExtent(m'[q], n'[q]); }
    }
  }

  lemma AddAtOne(m: Cells, n: Cells, p: Pos, c: Cell)
    requires p !in m && p !in n
    ensures Compatible(m[p := c], n) <==> Compatible(m, n)
    ensures Add(m[p := c], n) == Add(m, n)[p := c]
  {
  }

  lemma AddIsCommutative(m: Cells, n: Cells)
    ensures Compatible(m, n) <==> Compatible(n, m)
    ensures Compatible(m, n) ==> Add(m, n) == Add(n, m)
  {
  }

  /** Putting a block in front of a merge of tails that it precedes. */
  lemma PrependBlock(x: Block, a: seq<Block>, b: seq<Block>, r: seq<Block>)
    requires Sorted(a) && Sorted(b) && Sorted(r) && View(r) == Add(View(a), View(b))
    requires Above(Start(x), a) && Above(Start(x), b)
    ensures Sorted([x] + r)
    ensures View([x] + r) == Add(View(a), View(b))[Start(x) := CellOf(x)]
  {
    AboveIsAboveKeys(Start(x), a);
    AboveIsAboveKeys(Start(x), b);
    AboveIsAboveKeys(Start(x), r);
    assert ([x] + r)[1..] == r;
  }

  lemma MergedEqual(a: seq<Block>, b: seq<Block>, rest: Option<seq<Block>>)
    requires Sorted(a) && Sorted(b) && a != [] && b != [] && Start(a[0]) == Start(b[0])
    requires IsMerge(a[1..], b[1..], rest)
    ensures IsMerge(a, b, if !SameExtent(CellOf(a[0]), CellOf(b[0])) then None
                          else Prepend(a[0].(count := a[0].count + b[0].count), rest))
  {
    SortedTail(a);
    SortedTail(b);
    var p, m, n := Start(a[0]), View(a[1..]), View(b[1..]);
    AddAtBoth(m, n, p, CellOf(a[0]), CellOf(b[0]));
    assert View(a) == m[p := CellOf(a[0])] && View(b) == n[p := CellOf(b[0])];
    if rest.Some? && SameExtent(CellOf(a[0]), CellOf(b[0])) {
      PrependBlock(a[0].(count := a[0].count + b[0].count), a[1..], b[1..], rest.value);
    }
  }

  lemma AboveAll(p: Pos, b: seq<Block>)
    requires Sorted(b) && (b != [] ==> PosLess(p, Start(b[0])))
    ensures Above(p, b) && p !in View(b)
  {
  }

  lemma MergedLess(a: seq<Block>, b: seq<Block>)
    requires Sorted(a) && Sorted(b) && a != [] && b != [] && PosLess(Start(a[0]), Start(b[0]))
    requires IsMerge(a[1..], b, Merged(a[1..], b))
    ensures IsMerge(a, b, Merged(a, b))
  {
    SortedTail(a);
    AboveAll(Start(a[0]), b);
    AddAtOne(View(a[1..]), View(b), Start(a[0]), CellOf(a[0]));
    if Merged(a, b).Some? {
      PrependBlock(a[0], a[1..], b, Merged(a[1..], b).value);
    }
  }

  lemma MergedGreater(a: seq<Block>, b: seq<Block>)
    requires Sorted(a) && Sorted(b) && a != [] && b != [] && PosLess(Start(b[0]), Start(a[0]))
    requires IsMerge(a, b[1..], Merged(a, b[1..]))
    ensures IsMerge(a, b, Merged(a, b))
  {
    SortedTail(b);
    AboveAll(Start(b[0]), a);
    AddAtOne(View(b[1..]), View(a), Start(b[0]), CellOf(b[0]));
    AddIsCommutative(View(a), View(b[1..]));
    AddIsCommutative(View(a), View(b));
    if Merged(a, b).Some? {
      PrependBlock(b[0], a, b[1..], Merged(a, b[1..]).value);
    }
  }

  /** The two-pointer merge is pointwise addition: it panics exactly when some common start has
      differing extents, and otherwise gives the sorted list of the summed map. */
  lemma {:induction false} MergedIsAdd(a: seq<Block>, b: seq<Block>)
    requires Sorted(a) && Sorted(b)
    ensures IsMerge(a, b, Merged(a, b))
    decreases |a| + |b|
  {
    if a == [] {
      assert Add(View(a), View(b)) == View(b);
    } else if b == [] {
      assert Add(View(a), View(b)) == View(a);
    } else if Start(a[0]) == Start(b[0]) {
      MergedIsAdd(a[1..], b[1..]);
      MergedEqual(a, b, Merged(a[1..], b[1..]));
    } else if PosLess(Start(a[0]), Start(b[0])) {
      MergedIsAdd(a[1..], b);
      MergedLess(a, b);
    } else {
      MergedIsAdd(a, b[1..]);
      MergedGreater(a, b);
    }
  }

  /** The two blocks start at one place but are not the same piece of source. */
  predicate Differ(b: Block, c: Block) {
    && b.startLine == c.startLine && b.startCol == c.startCol
    && (b.endLine != c.endLine || b.endCol != c.endCol || b.numStmt != c.numStmt)
  }

  ghost predicate SomeDiffer(a: seq<Block>, b: seq<Block>) {
    exists i, j :: 0 <= i < |a| && 0 <= j < |b| && Differ(a[i], b[j])
  }

  lemma CompatibleBlocks(a: seq<Block>, b: seq<Block>)
    requires Sorted(a) && Sorted(b)
    ensures Compatible(View(a), View(b)) <==> !SomeDiffer(a, b)
  {
    forall i, j | 0 <= i < |a| && 0 <= j < |b| && Differ(a[i], b[j]) ensures !Compatible(View(a), View(b)) {
      ViewOf(a, Start(a[i]));
      ViewOf(b, Start(b[j]));
    }
    forall p | p in View(a) && p in View(b) && !SomeDiffer(a, b) ensures SameExtent(View(a)[p], View(b)[p]) {
      ViewOf(a, p);
      ViewOf(b, p);
      var i :| 0 <= i < |a| && Start(a[i]) == p;
      var j :| 0 <= j < |b| && Start(b[j]) == p;
      assert !Differ(a[i], b[j]);
    }
  }

  function Behind(done: seq<Block>, r: Option<seq<Block>>): Option<seq<Block>> {
    match r
    case None => None
    case Some(s) => Some(done + s)
  }

  lemma BehindStep(done: seq<Block>, x: Block, r: Option<seq<Block>>)
    ensures Behind(done, Prepend(x, r)) == Behind(done + [x], r)
  {
    if r.Some? {
      assert done + ([x] + r.value) == done + [x] + r.value;
    }
  }

  /** What is merged so far and what is left, put together. */
  function Whole(done: seq<Block>, a: seq<Block>, i: nat, b: seq<Block>, j: nat): Option<seq<Block>>
    requires i <= |a| && j <= |b|
  {
    Behind(done, Merged(a[i..], b[j..]))
  }

  lemma TakeLeft(done: seq<Block>, a: seq<Block>, i: nat, b: seq<Block>, j: nat)
    requires i < |a| && j <= |b| && (j < |b| ==> PosLess(Start(a[i]), Start(b[j])))
    ensures Whole(done, a, i, b, j) == Whole(done + [a[i]], a, i + 1, b, j)
  {
    assert a[i..] == [a[i]] + a[i + 1..];
    assert j == |b| ==> b[j..] == [];
    BehindStep(done, a[i], Merged(a[i + 1..], b[j..]));
  }

  lemma TakeRight(done: seq<Block>, a: seq<Block>, i: nat, b: seq<Block>, j: nat)
    requires i <= |a| && j < |b| && (i < |a| ==> PosLess(Start(b[j]), Start(a[i])))
    ensures Whole(done, a, i, b, j) == Whole(done + [b[j]], a, i, b, j + 1)
  {
    assert b[j..] == [b[j]] + b[j + 1..];
    assert i == |a| ==> a[i..] == [];
    BehindStep(done, b[j], Merged(a[i..], b[j + 1..]));
  }

  lemma TakeBoth(done: seq<Block>, a: seq<Block>, i: nat, b: seq<Block>, j: nat)
    requires i < |a| && j < |b| && Start(a[i]) == Start(b[j])
    ensures Whole(done, a, i, b, j) ==
            if SameExtent(CellOf(a[i]), CellOf(b[j]))
            then Whole(done + [a[i].(count := a[i].count + b[j].count)], a, i + 1, b, j + 1)
            else None
  {
    assert a[i..] == [a[i]] + a[i + 1..] && b[j..] == [b[j]] + b[j + 1..];
    BehindStep(done, a[i].(count := a[i].count + b[j].count), Merged(a[i + 1..], b[j + 1..]));
  }

  /** `merge`: one loop over both lists and one loop for what is left of each. */
  method Merge(p1: Profile, p2: Profile) returns (r: Option<Profile>)
    requires Sorted(p1.blocks) && Sorted(p2.blocks)
    ensures r.None? <==> !Compatible(View(p1.blocks), View(p2.blocks))
    ensures r.None? <==> SomeDiffer(p1.blocks, p2.blocks)
    ensures r.Some? ==>
              && r.value.fileName == p1.fileName && r.value.mode == p1.mode && Sorted(r.value.blocks)
              && View(r.value.blocks) == Add(View(p1.blocks), View(p2.blocks))
  {
    var a, b := p1.blocks, p2.blocks;
    ghost var goal := Whole([], a, 0, b, 0);
    var blocks: seq<Block> := [];
    var i, j := 0, 0;
    while i < |a| && j < |b|
      invariant i <= |a| && j <= |b|
      invariant goal == Whole(blocks, a, i, b, j)
    {
      var bi, bj := a[i], b[j];
      if bi.startLine == bj.startLine && bi.startCol == bj.startCol {
        TakeBoth(blocks, a, i, b, j);
        if bi.endLine != bj.endLine || bi.endCol != bj.endCol || bi.numStmt != bj.numStmt {
          WholeIsAdd(a, b);
          return None;
        }
        blocks := blocks + [Block(bi.startLine, bi.startCol, bi.endLine, bi.endCol, bi.numStmt, bi.count + bj.count)];
        i, j := i + 1, j + 1;
      } else if bi.startLine < bj.startLine || (bi.startLine == bj.startLine && bi.startCol < bj.startCol) {
        TakeLeft(blocks, a, i, b, j);
        blocks := blocks + [bi];
        i := i + 1;
      } else {
        TakeRight(blocks, a, i, b, j);
        blocks := blocks + [bj];
        j := j + 1;
      }
    }
    while i < |a|
      invariant i <= |a| && j <= |b| && (i < |a| ==> j == |b|)
      invariant goal == Whole(blocks, a, i, b, j)
    {
      TakeLeft(blocks, a, i, b, j);
      blocks := blocks + [a[i]];
      i := i + 1;
    }
    while j < |b|
      invariant i == |a| && j <= |b|
      invariant goal == Whole(blocks, a, i, b, j)
    {
      TakeRight(blocks, a, i, b, j);
      blocks := blocks + [b[j]];
      j := j + 1;
    }
    WholeAtEnd(blocks, a, b);
    WholeIsAdd(a, b);
    r := Some(Profile(p1.fileName, p1.mode, blocks));
  }

  lemma WholeAtEnd(blocks: seq<Block>, a: seq<Block>, b: seq<Block>)
    ensures Whole(blocks, a, |a|, b, |b|) == Some(blocks)
  {
    assert a[|a|..] == [] && b[|b|..] == [] && blocks + [] == blocks;
  }

  lemma WholeIsAdd(a: seq<Block>, b: seq<Block>)
    requires Sorted(a) && Sorted(b)
    ensures IsMerge(a, b, Whole([], a, 0, b, 0))
    ensures Compatible(View(a), View(b)) <==> !SomeDiffer(a, b)
  {
    CompatibleBlocks(a, b);
    assert a[0..] == a && b[0..] == b;
    MergedIsAdd(a, b);
    assert Merged(a, b).Some? ==> [] + Merged(a, b).value == Merged(a, b).value;
  }
}
