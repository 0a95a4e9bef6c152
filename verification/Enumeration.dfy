/** `SparseArrayFind` and `SparseArrayNext`: what a run of `SparseArrayNext` visits. */
module Enumeration {
  import opened Basics
  import opened Trie
  import opened RefCounts

  /** `*index &= ~((0xff << shift) >> 8)`, as C evaluates it on 32-bit ints. */
  function ZeroMask(shift: nat, index: nat): nat {
    if shift == 8 then index - index % 0x100
    else if shift == 16 then index - (index % 0x10000 - index % 0x100)
    else index % 0x10000
  }

  /** The scan of a leaf from slot `j`; `index` keeps step with `j`. */
  function ScanLeaf(vs: seq<Option<Method>>, j: nat, index: nat): (Option<Method>, nat)
    requires |vs| == WIDTH
    decreases WIDTH - j
  {
    if j >= WIDTH then (None, index)
    else if vs[j].Some? then (vs[j], index)
    else ScanLeaf(vs, j + 1, index + 1)
  }

  /** The scan of the children of `p` from slot `j`.  The last child is never scanned. */
  function ScanKids(h: Heap, p: nat, j: nat, index: nat): (Option<Method>, nat)
    requires Typed(h, {}) && p in h && h[p].Inner?
    decreases Shift(h[p]), WIDTH - j
  {
    if j >= WIDTH - 1 then (None, index)
    else
      assert CellOk(h, p, {});
      match h[p].kids[j]
      case Blank(_) => ScanKids(h, p, j + 1, ZeroMask(h[p].shift, index + Stride(h[p].shift)))
      case At(q) =>
        var (v, next) := Find(h, q, index);
        if v.Some? then (v, next) else ScanKids(h, p, j + 1, next)
  }

  /** `SparseArrayFind`. */
  function Find(h: Heap, p: nat, index: nat): (Option<Method>, nat)
    requires Typed(h, {}) && p in h
    decreases Shift(h[p]), WIDTH + 1
  {
    assert CellOk(h, p, {});
    match h[p]
    case Leaf(_, vs) => ScanLeaf(vs, Digit(0, index), index)
    case Inner(s, _, _) => ScanKids(h, p, Digit(s, index), index)
  }

  /** `SparseArrayNext`: the index is advanced first. */
  function Next(h: Heap, p: nat, index: nat): (Option<Method>, nat)
    requires Typed(h, {}) && p in h
  {
    Find(h, p, index + 1)
  }

  /** The number of indices of a table of depth 16. */
  const BLOCK := 0x10000

  /** The indices below `Limit` are the ones that a run can reach. */
  function Limit(shift: nat): nat {
    if shift == 0 then WIDTH else (WIDTH - 1) * Stride(shift)
  }

  /** `r` is the first entry of `p` at or after `from` and before `to`. */
  ghost predicate First(h: Heap, p: nat, from: nat, to: nat, r: (Option<Method>, nat)) {
    match r.0
    case Some(_) => from <= r.1 < to && Walk(h, At(p), r.1) == r.0 && forall k: nat :: from <= k < r.1 ==> Walk(h, At(p), k) == None
    case None => r.1 == to && forall k: nat :: from <= k < to ==> Walk(h, At(p), k) == None
  }

  lemma {:induction false} ScanLeafFirst(h: Heap, p: nat, j: nat, index: nat)
    requires Typed(h, {}) && p in h && h[p].Leaf? && |h[p].values| == WIDTH && j <= WIDTH
    requires j < WIDTH ==> j == index % WIDTH
    requires j == WIDTH ==> index % WIDTH == 0
    ensures First(h, p, index, index + (WIDTH - j), ScanLeaf(h[p].values, j, index))
    decreases WIDTH - j
  {
    if j < WIDTH {
      WalkLeaf(h, At(p), index);
      if h[p].values[j].None? {
        ScanLeafFirst(h, p, j + 1, index + 1);
      }
    }
  }

  /** A child of a depth-16 table answers for its own 256 indices. */
  lemma KidWalk(h: Heap, p: nat, j: nat, index: nat)
    requires Typed(h, {}) && p in h && Shift(h[p]) == 8 && j < WIDTH && |h[p].kids| == WIDTH
    requires Digit(8, index) == j
    ensures Walk(h, At(p), index) == Walk(h, h[p].kids[j], index)
    ensures h[p].kids[j].Blank? ==> Walk(h, At(p), index) == None
  {
    WalkStep(h, At(p), index);
    if h[p].kids[j].Blank? { WalkLeaf(h, h[p].kids[j], index); }
  }

  lemma FirstJoin(h: Heap, p: nat, from: nat, mid: nat, to: nat, r: (Option<Method>, nat))
    requires First(h, p, from, mid, (None, mid)) && First(h, p, mid, to, r) && from <= mid <= to
    ensures First(h, p, from, to, r)
  {
  }

  /** The end of the 256 indices that `index` is one of. */
  function LeafEnd(index: nat): nat {
    index - index % WIDTH + WIDTH
  }

  /** Child `j` of a depth-16 table, from `index` to its end. */
  lemma KidFirst(h: Heap, p: nat, j: nat, index: nat)
    requires Typed(h, {}) && p in h && h[p].Inner? && Shift(h[p]) == 8 && j < WIDTH && |h[p].kids| == WIDTH
    requires Digit(8, index) == j
    ensures h[p].kids[j].Blank? ==> First(h, p, index, LeafEnd(index), (None, LeafEnd(index)))
    ensures h[p].kids[j].At? ==> h[p].kids[j].id in h
    ensures h[p].kids[j].At? ==> First(h, p, index, LeafEnd(index), Find(h, h[p].kids[j].id, index))
  {
    assert CellOk(h, p, {});
    forall k: nat | index <= k < LeafEnd(index) { KidWalk(h, p, j, k); }
    match h[p].kids[j]
    case Blank(_) =>
    case At(q) =>
      assert CellOk(h, q, {});
      ScanLeafFirst(h, q, index % WIDTH, index);
  }

  /** Where the scan of a depth-16 table that holds `index` ends. */
  function BlockTop(index: nat): nat {
    index - index % BLOCK + Limit(8)
  }

  lemma {:induction false} ScanKidsFirst(h: Heap, p: nat, j: nat, index: nat)
    requires Typed(h, {}) && p in h && h[p].Inner? && Shift(h[p]) == 8 && j <= WIDTH - 1
    requires Digit(8, index) == j
    requires j == WIDTH - 1 ==> index == BlockTop(index)
    ensures First(h, p, index, BlockTop(index), ScanKids(h, p, j, index))
    decreases WIDTH - j
  {
    assert CellOk(h, p, {});
    if j < WIDTH - 1 {
      var next := LeafEnd(index);
      KidFirst(h, p, j, index);
      LeafEnds(index);
      ScanKidsFirst(h, p, j + 1, next);
      var rest := ScanKids(h, p, j + 1, next);
      if h[p].kids[j].Blank? {
        FirstJoin(h, p, index, next, BlockTop(index), rest);
      } else if Find(h, h[p].kids[j].id, index).0.None? {
        FirstJoin(h, p, index, next, BlockTop(index), rest);
      }
    }
  }

  lemma LeafEnds(index: nat)
    requires Digit(8, index) < WIDTH - 1
    ensures Digit(8, LeafEnd(index)) == Digit(8, index) + 1 && BlockTop(LeafEnd(index)) == BlockTop(index)
    ensures LeafEnd(index) <= BlockTop(index) && ZeroMask(8, index + 0x100) == LeafEnd(index)
    ensures Digit(8, index) == WIDTH - 2 ==> LeafEnd(index) == BlockTop(index)
  {
    var q := index / BLOCK;
    assert index == BLOCK * q + WIDTH * Digit(8, index) + index % WIDTH;
    assert LeafEnd(index) == BLOCK * q + WIDTH * (Digit(8, index) + 1);
  }

  /** Below its limit, `SparseArrayNext` finds the next entry. */
  lemma NextFirst(h: Heap, p: nat, index: nat)
    requires Typed(h, {}) && p in h && Shift(h[p]) <= 8
    requires index + 1 < Limit(Shift(h[p])) || (Shift(h[p]) == 8 && index + 1 == Limit(8))
    ensures First(h, p, index + 1, Limit(Shift(h[p])), Next(h, p, index))
  {
    assert CellOk(h, p, {});
    match h[p]
    case Leaf(_, _) => ScanLeafFirst(h, p, index + 1, index + 1);
    case Inner(_, _, _) => ScanKidsFirst(h, p, (index + 1) / WIDTH, index + 1);
  }

  /** `while (SparseArrayNext(p, &index))` started at `from` visits exactly `run` and stops. */
  ghost predicate Run(h: Heap, p: nat, from: nat, run: seq<nat>)
    requires Typed(h, {}) && p in h
    decreases |run|
  {
    if run == [] then Next(h, p, from).0.None?
    else Next(h, p, from).0.Some? && Next(h, p, from).1 == run[0] && Run(h, p, run[0], run[1..])
  }

  ghost predicate Increasing(run: seq<nat>) {
    forall i, j :: 0 <= i < j < |run| ==> run[i] < run[j]
  }

  ghost predicate Has(h: Heap, p: nat, i: nat)
    requires p in h
  {
    i < Capacity(Shift(h[p])) && Walk(h, At(p), i).Some?
  }

  /** `run` lists the entries of `p` after `from`, in order. */
  ghost predicate Lists(h: Heap, p: nat, from: int, run: seq<nat>)
    requires p in h
  {
    && Increasing(run)
    && forall i: nat {:trigger i in run} {:trigger Has(h, p, i)} :: i in run <==> from < i && Has(h, p, i)
  }

  /** The first child from `j` on that is allocated, if there is one. */
  function FirstKid(kids: seq<Ref>, j: nat): (a: nat)
    requires j <= |kids|
    ensures j <= a <= |kids| && (a < |kids| ==> kids[a].At?) && forall i :: j <= i < a ==> kids[i].Blank?
    decreases |kids| - j
  {
    if j == |kids| || kids[j].At? then j else FirstKid(kids, j + 1)
  }

  /** No entry at 0, none at 255 in a table of depth 8, none from 0xff00 on at depth 16.  At
      depth 24 the same below the first child that is allocated, and no entry elsewhere.  At
      depth 32 all entries are below the first child, which is such a table. */
  ghost predicate Enumerable(h: Heap, p: nat)
    requires Typed(h, {}) && p in h
    decreases Shift(h[p])
  {
    assert CellOk(h, p, {});
    match h[p]
    case Leaf(_, _) => forall i: nat {:trigger Has(h, p, i)} :: Has(h, p, i) ==> 0 < i < WIDTH - 1
    case Inner(s, _, kids) =>
      if s == 8 then forall i: nat {:trigger Has(h, p, i)} :: Has(h, p, i) ==> 0 < i < Limit(8)
      else if s == 16 then
        var a := FirstKid(kids, 0);
        forall i: nat {:trigger Has(h, p, i)} :: Has(h, p, i) ==> a < WIDTH - 1 && a * BLOCK < i < a * BLOCK + Limit(8)
      else
        && (forall i: nat {:trigger Has(h, p, i)} :: Has(h, p, i) ==> i < Capacity(16))
        && (kids[0].At? ==> Enumerable(h, kids[0].id))
  }

  lemma ListsCons(h: Heap, p: nat, from: nat, next: nat, rest: seq<nat>)
    requires p in h && from < next && Has(h, p, next) && Lists(h, p, next, rest)
    requires forall k: nat :: from < k < next ==> !Has(h, p, k)
    ensures Lists(h, p, from, [next] + rest) && ([next] + rest)[1..] == rest
  {
    var run := [next] + rest;
    assert forall j :: 0 <= j < |rest| ==> rest[j] in rest;
    forall i: nat ensures i in run <==> from < i && Has(h, p, i) { assert i in run <==> i == next || i in rest; }
  }

  /** Below its limit, a table of depth 8 or 16 is enumerated. */
  lemma {:induction false} RunExists(h: Heap, p: nat, from: nat) returns (run: seq<nat>)
    requires Typed(h, {}) && p in h && Shift(h[p]) <= 8 && Enumerable(h, p)
    requires from < if Shift(h[p]) == 0 then Limit(0) - 1 else Limit(8)
    ensures Run(h, p, from, run) && Lists(h, p, from, run)
    decreases Limit(Shift(h[p])) - from
  {
    assert CellOk(h, p, {});
    NextFirst(h, p, from);
    var (v, next) := Next(h, p, from);
    if v.None? {
      run := [];
    } else {
      assert Has(h, p, next);
      var rest := RunExists(h, p, next);
      run := [next] + rest;
      ListsCons(h, p, from, next, rest);
    }
  }

  lemma {:induction false} ScanLeafAdvances(vs: seq<Option<Method>>, j: nat, index: nat)
    requires |vs| == WIDTH
    ensures ScanLeaf(vs, j, index).1 >= index
    ensures j < WIDTH && vs[WIDTH - 1].Some? ==> ScanLeaf(vs, j, index).0.Some?
    decreases WIDTH - j
  {
    if j < WIDTH && vs[j].None? { ScanLeafAdvances(vs, j + 1, index + 1); }
  }

  /** With an entry at 255 a table of depth 8 is never exhausted. */
  lemma {:induction false} NeverEnds(h: Heap, p: nat, from: nat, run: seq<nat>)
    requires Typed(h, {}) && p in h && Shift(h[p]) == 0 && Walk(h, At(p), WIDTH - 1).Some?
    ensures !Run(h, p, from, run)
    decreases |run|
  {
    assert CellOk(h, p, {});
    WalkLeaf(h, At(p), WIDTH - 1);
    ScanLeafAdvances(h[p].values, Digit(0, from + 1), from + 1);
    if run != [] { NeverEnds(h, p, run[0], run[1..]); }
  }

  /** A run that stops has kept to the reachable indices. */
  lemma {:induction false} RunInRange(h: Heap, p: nat, from: nat, run: seq<nat>)
    requires Typed(h, {}) && p in h && Shift(h[p]) <= 8 && Run(h, p, from, run)
    requires from < if Shift(h[p]) == 0 then Limit(0) - 1 else Limit(8)
    ensures forall i :: i in run ==> from < i < if Shift(h[p]) == 0 then Limit(0) - 1 else Limit(8)
    decreases |run|
  {
    assert CellOk(h, p, {});
    if run != [] {
      NextFirst(h, p, from);
      if Shift(h[p]) == 0 && run[0] == WIDTH - 1 {
        NeverEnds(h, p, run[0], run[1..]);
      } else {
        RunInRange(h, p, run[0], run[1..]);
        assert run == [run[0]] + run[1..];
      }
    }
  }

  lemma ShallowExact(h: Heap, p: nat)
    requires Typed(h, {}) && p in h && Shift(h[p]) <= 8
    ensures Enumerable(h, p) <==> exists run :: Run(h, p, 0, run) && Lists(h, p, -1, run)
  {
    if Enumerable(h, p) {
      var run := RunExists(h, p, 0);
      assert CellOk(h, p, {}) && !Has(h, p, 0);
      assert Lists(h, p, -1, run);
    }
    if run :| Run(h, p, 0, run) && Lists(h, p, -1, run) {
      assert CellOk(h, p, {});
      RunInRange(h, p, 0, run);
      forall i: nat | Has(h, p, i) ensures i in run { }
    }
  }

  /** A table of depth 24 holding only `m`, at 0x10000. */
  function Deep(m: Method): Heap {
    map[0 := Inner(16, 1, seq(WIDTH, i => if i == 1 then At(1) else Blank(8))),
        1 := Inner(8, 1, seq(WIDTH, i => if i == 0 then At(2) else Blank(0))),
        2 := Leaf(1, seq(WIDTH, i => if i == 0 then Some(m) else None))]
  }

  lemma {:induction false} ScanEmptyKids(h: Heap, p: nat, j: nat, index: nat)
    requires Typed(h, {}) && p in h && h[p].Inner? && |h[p].kids| == WIDTH
    requires forall i :: j <= i < WIDTH ==> h[p].kids[i].Blank?
    ensures ScanKids(h, p, j, index).0 == None
    decreases WIDTH - j
  {
    if j < WIDTH - 1 {
      ScanEmptyKids(h, p, j + 1, ZeroMask(h[p].shift, index + Stride(h[p].shift)));
    }
  }

  lemma {:induction false} ScanEmptyLeaf(vs: seq<Option<Method>>, j: nat, index: nat)
    requires |vs| == WIDTH && forall i :: j <= i < WIDTH ==> vs[i].None?
    ensures ScanLeaf(vs, j, index).0 == None
    decreases WIDTH - j
  {
    if j < WIDTH { ScanEmptyLeaf(vs, j + 1, index + 1); }
  }

  lemma DeepHolds(m: Method)
    ensures Typed(Deep(m), {}) && Walk(Deep(m), At(0), 0x10000) == Some(m)
  {
    var h := Deep(m);
    assert CellOk(h, 0, {}) && CellOk(h, 1, {}) && CellOk(h, 2, {});
    WalkStep(h, At(0), 0x10000);
    WalkStep(h, At(1), 0x10000);
    WalkLeaf(h, At(2), 0x10000);
  }

  /** At depth 24 the mask clears the wrong byte when a missing child is skipped, and
      an entry well inside the table is never visited. */
  lemma DepthTwentyFourSkips(m: Method)
    ensures Typed(Deep(m), {}) && Walk(Deep(m), At(0), 0x10000) == Some(m)
    ensures Next(Deep(m), 0, 0).0 == None
  {
    var h := Deep(m);
    DeepHolds(m);
    assert ZeroMask(16, 1 + 0x10000) == 0x10001;
    assert Next(h, 0, 0) == ScanKids(h, 0, 0, 1) == ScanKids(h, 0, 1, 0x10001);
    ScanEmptyLeaf(h[2].values, 1, 0x10001);
    assert Find(h, 2, 0x10001).0 == None;
    ScanEmptyKids(h, 1, 1, Find(h, 2, 0x10001).1);
    assert Find(h, 1, 0x10001) == ScanKids(h, 1, 0, 0x10001) == ScanKids(h, 1, 1, Find(h, 2, 0x10001).1);
    ScanEmptyKids(h, 0, 2, Find(h, 1, 0x10001).1);
    assert ScanKids(h, 0, 1, 0x10001) == ScanKids(h, 0, 2, Find(h, 1, 0x10001).1);
  }
}
