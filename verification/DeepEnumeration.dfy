/** What a run of `SparseArrayNext` visits in tables of depth 24 and 32.

    Above depth 16 the scan clears the wrong byte when it skips a missing child and carries
    no index past a child that it leaves.  So it reports entries under the index they have
    only in the first child that is allocated. */
module DeepEnumeration {
  import opened Basics
  import opened Trie
  import opened Sharing
  import opened Enumeration

  /** The number of indices of a table of depth 24. */
  const SECTION := 0x1000000

  lemma {:induction false} WalkAgrees(h: Heap, r: Ref, i: nat, j: nat)
    requires Typed(h, {}) && RefOk(h, r, Shift(Load(h, r))) && Agrees(Shift(Load(h, r)), i, j)
    ensures Walk(h, r, i) == Walk(h, r, j)
    decreases Shift(Load(h, r))
  {
    assert r.At? ==> CellOk(h, r.id, {});
    if Shift(Load(h, r)) == 0 {
      WalkLeaf(h, r, i);
      WalkLeaf(h, r, j);
    } else {
      var s := Shift(Load(h, r));
      AgreesStep(s, i, j);
      WalkStep(h, r, i);
      WalkStep(h, r, j);
      WalkAgrees(h, Kid(h, r, Digit(s, i)), i, j);
    }
  }

  /** Where entry `k` of child `j` lies in the table. */
  function Under(shift: nat, j: nat, k: nat): nat {
    if shift == 8 then j * 0x100 + k % 0x100 else if shift == 16 then j * 0x10000 + k % 0x10000 else j * 0x1000000 + k % 0x1000000
  }

  lemma UnderIs(shift: nat, j: nat, k: nat)
    requires Level(shift) && j < WIDTH
    ensures Under(shift, j, k) < Capacity(shift) && Digit(shift, Under(shift, j, k)) == j && Agrees(shift - 8, Under(shift, j, k), k)
  {
    var i := Under(shift, j, k);
    if shift == 8 {
      assert i / 0x100 == j && i % 0x100 == k % 0x100 && Capacity(0) == 0x100;
    } else if shift == 16 {
      assert i / 0x10000 == j && i % 0x10000 == k % 0x10000 && Capacity(8) == 0x10000;
    } else {
      assert i / 0x1000000 == j && i % 0x1000000 == k % 0x1000000 && Capacity(16) == 0x1000000;
    }
  }

  lemma KidEntry(h: Heap, p: nat, j: nat, k: nat)
    requires Typed(h, {}) && p in h && h[p].Inner? && j < WIDTH && |h[p].kids| == WIDTH
    ensures Walk(h, At(p), Under(Shift(h[p]), j, k)) == Walk(h, h[p].kids[j], k)
  {
    assert CellOk(h, p, {});
    var i := Under(Shift(h[p]), j, k);
    UnderIs(Shift(h[p]), j, k);
    WalkStep(h, At(p), i);
    WalkAgrees(h, h[p].kids[j], i, k);
  }

  lemma {:induction false} ScanLeafHit(vs: seq<Option<Method>>, j: nat, index: nat) returns (k: nat)
    requires |vs| == WIDTH && ScanLeaf(vs, j, index).0.Some?
    ensures k < WIDTH && vs[k] == ScanLeaf(vs, j, index).0
    decreases WIDTH - j
  {
    k := j;
    if vs[j].None? { k := ScanLeafHit(vs, j + 1, index + 1); }
  }

  /** What the scan finds is in the table, though perhaps not at the index reported. */
  lemma {:induction false} FindHit(h: Heap, p: nat, index: nat) returns (k: nat)
    requires Typed(h, {}) && p in h && Find(h, p, index).0.Some?
    ensures Has(h, p, k) && Walk(h, At(p), k) == Find(h, p, index).0
    decreases Shift(h[p]), WIDTH + 1
  {
    assert CellOk(h, p, {});
    match h[p]
    case Leaf(_, vs) =>
      k := ScanLeafHit(vs, Digit(0, index), index);
      WalkLeaf(h, At(p), k);
    case Inner(s, _, _) =>
      k := ScanKidsHit(h, p, Digit(s, index), index);
  }

  lemma {:induction false} ScanKidsHit(h: Heap, p: nat, j: nat, index: nat) returns (k: nat)
    requires Typed(h, {}) && p in h && h[p].Inner? && ScanKids(h, p, j, index).0.Some?
    ensures Has(h, p, k) && Digit(Shift(h[p]), k) >= j && Walk(h, At(p), k) == ScanKids(h, p, j, index).0
    decreases Shift(h[p]), WIDTH - j
  {
    assert CellOk(h, p, {});
    match h[p].kids[j]
    case Blank(_) =>
      k := ScanKidsHit(h, p, j + 1, ZeroMask(h[p].shift, index + Stride(h[p].shift)));
    case At(q) =>
      var (v, next) := Find(h, q, index);
      if v.Some? {
        var below := FindHit(h, q, index);
        k := Under(Shift(h[p]), j, below);
        UnderIs(Shift(h[p]), j, below);
        KidEntry(h, p, j, below);
      } else {
        k := ScanKidsHit(h, p, j + 1, next);
      }
  }

  /** `r` is the first entry from `from` on and before `to`, if there is one. */
  ghost predicate Ahead(h: Heap, p: nat, from: nat, to: nat, r: (Option<Method>, nat)) {
    match r.0
    case Some(_) => from <= r.1 < to && Walk(h, At(p), r.1) == r.0 && forall k: nat :: from <= k < r.1 ==> Walk(h, At(p), k) == None
    case None => forall k: nat :: from <= k < to ==> Walk(h, At(p), k) == None
  }

  lemma DigitLow(index: nat)
    ensures Digit(8, index) == (index % BLOCK) / WIDTH
  {
    var q, low := index / BLOCK, index % BLOCK;
    var d, b := low / WIDTH, low % WIDTH;
    assert index == WIDTH * (WIDTH * q + d) + b && b < WIDTH && d < WIDTH;
    assert index / WIDTH == WIDTH * q + d;
  }

  /** Where `index` is against the end of the scan. */
  lemma TopDigit(index: nat)
    ensures Digit(8, index) == WIDTH - 1 <==> index >= BlockTop(index)
  {
    DigitLow(index);
    assert BlockTop(index) - index == Limit(8) - index % BLOCK;
  }

  /** A table of depth 16 below another: the scan stays among the indices it is given. */
  lemma BlockFind(h: Heap, q: nat, index: nat)
    requires Typed(h, {}) && q in h && Shift(h[q]) == 8
    ensures var r := Find(h, q, index);
            && r.1 / BLOCK == index / BLOCK && (r.0.Some? ==> r.1 < BlockTop(index))
            && if index <= BlockTop(index) then First(h, q, index, BlockTop(index), r) else r == (None, index)
  {
    assert CellOk(h, q, {});
    TopDigit(index);
    assert Find(h, q, index) == ScanKids(h, q, Digit(8, index), index);
    if index <= BlockTop(index) {
      ScanKidsFirst(h, q, Digit(8, index), index);
      InBlock(index, Find(h, q, index).1);
    }
  }

  lemma BlockDigit(k: nat)
    requires k < SECTION
    ensures Digit(16, k) == k / BLOCK
  {
  }

  lemma BlockDigits(i: nat)
    requires i < 0x100000000
    ensures Digit(16, i) == (i / BLOCK) % WIDTH && Digit(24, i) == (i / BLOCK) / WIDTH && i / BLOCK < 0x10000
  {
    Sections(i);
  }

  lemma InBlock(index: nat, k: nat)
    requires index <= k <= BlockTop(index)
    ensures k / BLOCK == index / BLOCK
  {
    var q := index / BLOCK;
    assert index == BLOCK * q + index % BLOCK;
    assert k == BLOCK * q + (k - BLOCK * q) && 0 <= k - BLOCK * q < BLOCK;
  }

  lemma SkipsBlock(index: nat)
    requires Digit(16, index) < WIDTH - 1
    ensures var next := ZeroMask(16, index + BLOCK);
            && next == BLOCK * (index / BLOCK + 1) + index % WIDTH && next % WIDTH == index % WIDTH
            && Digit(16, next) == Digit(16, index) + 1 && next / SECTION == index / SECTION && next / BLOCK == index / BLOCK + 1
  {
    Masked(index);
    NextBlock(index / BLOCK, index % WIDTH);
    Sections(index);
  }

  lemma Masked(index: nat)
    ensures ZeroMask(16, index + BLOCK) == BLOCK * (index / BLOCK + 1) + index % WIDTH
  {
    assert (index + 0x10000) % 0x10000 == index % 0x10000;
    assert (index + 0x10000) % 0x100 == index % 0x100;
  }

  lemma NextBlock(q: nat, b: nat)
    requires q % WIDTH < WIDTH - 1 && b < WIDTH
    ensures var next := BLOCK * (q + 1) + b;
            next / BLOCK == q + 1 && next % WIDTH == b && Digit(16, next) == q % WIDTH + 1 && next / SECTION == q / WIDTH
  {
    var next := BLOCK * (q + 1) + b;
    assert next == WIDTH * (WIDTH * (q + 1)) + b;
    assert next / BLOCK == q + 1;
    assert (q + 1) % WIDTH == q % WIDTH + 1 && (q + 1) / WIDTH == q / WIDTH;
    Sections(next);
  }

  lemma Sections(i: nat)
    ensures i / SECTION == (i / BLOCK) / WIDTH
  {
    var q, b := i / BLOCK, i % BLOCK;
    var x, d := q / WIDTH, q % WIDTH;
    assert i == SECTION * x + (BLOCK * d + b) && BLOCK * d + b < SECTION;
  }

  /** Scanning the children of a table of depth 24 with an index that lags behind reports an
      index that lags behind the child where the entry is. */
  lemma {:induction false} ScanBlocks(h: Heap, p: nat, j: nat, index: nat) returns (kid: nat, k: nat)
    requires Typed(h, {}) && p in h && Shift(h[p]) == 16 && Digit(16, index) <= j
    ensures var r := ScanKids(h, p, j, index);
            && r.1 / SECTION == index / SECTION
            && (r.0.Some? ==>
                  && j <= kid < WIDTH - 1 && k < SECTION && k / BLOCK == kid && Walk(h, At(p), k) == r.0
                  && r.1 < BlockTop(r.1) && Digit(16, r.1) <= kid && (Digit(16, index) < j ==> Digit(16, r.1) < kid))
    decreases WIDTH - j
  {
    kid, k := 0, 0;
    if j < WIDTH - 1 {
      assert CellOk(h, p, {});
      match h[p].kids[j]
      case Blank(_) =>
        SkipsBlock(index);
        kid, k := ScanBlocks(h, p, j + 1, ZeroMask(16, index + BLOCK));
      case At(q) =>
        BlockFind(h, q, index);
        var (v, next) := Find(h, q, index);
        SameBlock(index, next);
        if v.Some? {
          kid, k := j, Under(16, j, next);
          FindAt(h, q, index);
          KidEntry(h, p, j, next);
        } else {
          kid, k := ScanBlocks(h, p, j + 1, next);
        }
    }
  }

  lemma SameBlock(i: nat, j: nat)
    requires i / BLOCK == j / BLOCK
    ensures Digit(16, i) == Digit(16, j) && i / SECTION == j / SECTION && BlockTop(i) == BlockTop(j)
  {
    Sections(i);
    Sections(j);
    assert i - i % BLOCK == BLOCK * (i / BLOCK) && j - j % BLOCK == BLOCK * (j / BLOCK);
  }

  lemma FindAt(h: Heap, q: nat, index: nat)
    requires Typed(h, {}) && q in h && Shift(h[q]) == 8 && Find(h, q, index).0.Some?
    ensures Walk(h, At(q), Find(h, q, index).1) == Find(h, q, index).0 && index <= Find(h, q, index).1
  {
    BlockFind(h, q, index);
    assert CellOk(h, q, {});
  }

  /** Children that are not allocated are skipped with the index in step, but for its second byte. */
  lemma {:induction false} SkipTo(h: Heap, p: nat, j: nat, a: nat, index: nat)
    requires Typed(h, {}) && p in h && Shift(h[p]) == 16 && |h[p].kids| == WIDTH && j <= a <= WIDTH - 1
    requires index < SECTION && index / BLOCK == j && forall i :: j <= i < a ==> h[p].kids[i].Blank?
    ensures ScanKids(h, p, j, index) == ScanKids(h, p, a, if j == a then index else a * BLOCK + index % WIDTH)
    decreases a - j
  {
    if j < a {
      SkipsBlock(index);
      var next := ZeroMask(16, index + BLOCK);
      SkipTo(h, p, j + 1, a, next);
      assert ScanKids(h, p, j, index) == ScanKids(h, p, j + 1, next);
    }
  }

  /** `a` is the first child of a table of depth 24 that is allocated, and it is scanned. */
  ghost predicate Leads(h: Heap, p: nat, a: nat) {
    && Typed(h, {}) && p in h && Shift(h[p]) == 16 && a < WIDTH - 1
    && |h[p].kids| == WIDTH && h[p].kids[a].At? && h[p].kids[a].id in h && Shift(h[h[p].kids[a].id]) == 8
    && forall i :: 0 <= i < a ==> h[p].kids[i].Blank?
  }

  /** Where a call from `from` starts among the indices of child `a`. */
  function StartAt(a: nat, from: nat): nat {
    if from == 0 then a * BLOCK + 1 else from + 1
  }

  /** One call comes to child `a` and, if it finds nothing there, goes on lagging. */
  lemma NextLeads(h: Heap, p: nat, a: nat, from: nat)
    requires Leads(h, p, a) && (from == 0 || a * BLOCK <= from < a * BLOCK + Limit(8))
    ensures StartAt(a, from) / BLOCK == a && StartAt(a, from) <= BlockTop(StartAt(a, from)) == a * BLOCK + Limit(8)
    ensures var r := Find(h, h[p].kids[a].id, StartAt(a, from));
            Next(h, p, from) == if r.0.Some? then r else ScanKids(h, p, a + 1, r.1)
  {
    var i := StartAt(a, from);
    assert i == a * BLOCK + (i - a * BLOCK) && 0 < i - a * BLOCK <= Limit(8);
    assert Next(h, p, from) == ScanKids(h, p, Digit(16, from + 1), from + 1);
    if from == 0 { SkipTo(h, p, 0, a, 1); }
  }

  /** When all entries are below child `a`, a call finds the next one of those it can reach. */
  lemma NextAhead(h: Heap, p: nat, a: nat, from: nat)
    requires Leads(h, p, a) && (from == 0 || a * BLOCK <= from < a * BLOCK + Limit(8))
    requires forall i: nat {:trigger Has(h, p, i)} :: Has(h, p, i) ==> i / BLOCK == a
    ensures Ahead(h, p, StartAt(a, from), a * BLOCK + Limit(8), Next(h, p, from))
  {
    var q, i := h[p].kids[a].id, StartAt(a, from);
    NextLeads(h, p, a, from);
    BlockFind(h, q, i);
    var r := Find(h, q, i);
    forall k: nat | i <= k <= BlockTop(i) ensures Walk(h, At(p), k) == Walk(h, At(q), k) {
      InBlock(i, k);
      KidEntry(h, p, a, k);
      assert Under(16, a, k) == k;
    }
    if r.0.None? && ScanKids(h, p, a + 1, r.1).0.Some? {
      var k := ScanKidsHit(h, p, a + 1, r.1);
      BlockDigit(k);
    }
  }

  lemma {:induction false} BlockRun(h: Heap, p: nat, a: nat, from: nat) returns (run: seq<nat>)
    requires Leads(h, p, a) && (from == 0 || a * BLOCK < from < a * BLOCK + Limit(8))
    requires forall i: nat {:trigger Has(h, p, i)} :: Has(h, p, i) ==> a * BLOCK < i < a * BLOCK + Limit(8)
    ensures Run(h, p, from, run) && Lists(h, p, from, run)
    decreases a * BLOCK + Limit(8) - from
  {
    forall i: nat | Has(h, p, i) ensures i / BLOCK == a { assert i == a * BLOCK + (i - a * BLOCK); }
    NextAhead(h, p, a, from);
    var (v, next) := Next(h, p, from);
    if v.None? {
      run := [];
      forall i: nat | Has(h, p, i) ensures i <= from { }
    } else {
      assert next < Capacity(16) && Has(h, p, next);
      var rest := BlockRun(h, p, a, next);
      run := [next] + rest;
      forall k: nat | from < k < next ensures !Has(h, p, k) { }
      ListsCons(h, p, from, next, rest);
    }
  }

  /** Entries are below children that are allocated. */
  lemma EntryKid(h: Heap, p: nat, i: nat)
    requires Typed(h, {}) && p in h && h[p].Inner? && |h[p].kids| == WIDTH && Has(h, p, i)
    ensures h[p].kids[Digit(Shift(h[p]), i)].At?
  {
    assert CellOk(h, p, {});
    WalkStep(h, At(p), i);
    BlankNone(h, h[p].kids[Digit(Shift(h[p]), i)], i);
  }

  lemma {:induction false} BlankNone(h: Heap, r: Ref, i: nat)
    requires Typed(h, {}) && RefOk(h, r, Shift(Load(h, r)))
    ensures r.Blank? ==> Walk(h, r, i) == None
    decreases Shift(Load(h, r))
  {
    if r.Blank? {
      if Shift(Load(h, r)) == 0 { WalkLeaf(h, r, i); } else {
        WalkStep(h, r, i);
        BlankNone(h, Kid(h, r, Digit(Shift(Load(h, r)), i)), i);
      }
    }
  }

  lemma NoneFound(h: Heap, p: nat, index: nat)
    requires Typed(h, {}) && p in h && forall i: nat {:trigger Has(h, p, i)} :: !Has(h, p, i)
    ensures Find(h, p, index).0 == None
  {
    if Find(h, p, index).0.Some? { var k := FindHit(h, p, index); }
  }

  /** From a child that is allocated and not the last with entries, no entry of the last is
      reported at its index. */
  lemma StepShort(h: Heap, p: nat, d: nat, index: nat, b: nat)
    requires Typed(h, {}) && p in h && Shift(h[p]) == 16 && |h[p].kids| == WIDTH && d < b && d < WIDTH - 1 && h[p].kids[d].At?
    requires index < SECTION && index / BLOCK == d
    requires forall i: nat {:trigger Has(h, p, i)} :: Has(h, p, i) ==> i / BLOCK <= b
    ensures var r := ScanKids(h, p, d, index);
            r.0.Some? && r.1 < SECTION ==> r.1 / BLOCK < b && r.1 < BlockTop(r.1)
  {
    assert CellOk(h, p, {});
    var q := h[p].kids[d].id;
    BlockFind(h, q, index);
    var (v, next) := Find(h, q, index);
    SameBlock(index, next);
    BlockDigit(index);
    if v.None? {
      var kid, k := ScanBlocks(h, p, d + 1, next);
      if ScanKids(h, p, d + 1, next).0.Some? {
        assert Has(h, p, k);
        if ScanKids(h, p, d + 1, next).1 < SECTION { BlockDigit(ScanKids(h, p, d + 1, next).1); }
      }
    }
  }

  lemma {:induction false} RunShort(h: Heap, p: nat, a: nat, b: nat, from: nat, run: seq<nat>)
    requires Leads(h, p, a) && a < b < WIDTH && Run(h, p, from, run) && forall i :: i in run ==> Has(h, p, i)
    requires forall i: nat {:trigger Has(h, p, i)} :: Has(h, p, i) ==> i / BLOCK <= b
    requires from == 0 || (Has(h, p, from) && from < BlockTop(from) && from / BLOCK < b)
    ensures forall i :: i in run ==> i / BLOCK < b
    decreases |run|
  {
    if run != [] {
      assert run[0] in run;
      if from == 0 {
        NextLeads(h, p, a, 0);
        SkipTo(h, p, 0, a, 1);
        StepShort(h, p, a, StartAt(a, 0), b);
      } else {
        EntryKid(h, p, from);
        BlockDigit(from);
        InBlock(from, from + 1);
        BlockDigit(from + 1);
        StepShort(h, p, from / BLOCK, from + 1, b);
      }
      assert forall i :: i in run[1..] ==> i in run;
      RunShort(h, p, a, b, run[0], run[1..]);
      assert run == [run[0]] + run[1..];
    }
  }

  lemma {:induction false} RunInBlock(h: Heap, p: nat, a: nat, from: nat, run: seq<nat>)
    requires Leads(h, p, a) && (from == 0 || a * BLOCK <= from < a * BLOCK + Limit(8)) && Run(h, p, from, run)
    requires forall i: nat {:trigger Has(h, p, i)} :: Has(h, p, i) ==> i / BLOCK == a
    ensures forall i :: i in run ==> a * BLOCK < i < a * BLOCK + Limit(8)
    decreases |run|
  {
    if run != [] {
      NextAhead(h, p, a, from);
      RunInBlock(h, p, a, run[0], run[1..]);
      assert run == [run[0]] + run[1..];
    }
  }

  /** A run that lists the entries lists them all below the first child that is allocated. */
  lemma MiddleListed(h: Heap, p: nat, run: seq<nat>)
    requires Typed(h, {}) && p in h && Shift(h[p]) == 16 && Run(h, p, 0, run) && Lists(h, p, -1, run)
    ensures Enumerable(h, p)
  {
    assert CellOk(h, p, {});
    var a := FirstKid(h[p].kids, 0);
    if run != [] {
      if a >= WIDTH - 1 { SkipTo(h, p, 0, WIDTH - 1, 1); }
      assert Leads(h, p, a);
      var last := run[|run| - 1];
      assert last in run && Has(h, p, last);
      var b := last / BLOCK;
      forall i: nat | Has(h, p, i) ensures a <= i / BLOCK <= b {
        assert i in run;
        EntryKid(h, p, i);
        BlockDigit(i);
      }
      if a < b { RunShort(h, p, a, b, 0, run); }
      RunInBlock(h, p, a, 0, run);
    }
    forall i: nat | Has(h, p, i) ensures a < WIDTH - 1 && a * BLOCK < i < a * BLOCK + Limit(8) { assert i in run; }
  }

  lemma MiddleExact(h: Heap, p: nat)
    requires Typed(h, {}) && p in h && Shift(h[p]) == 16
    ensures Enumerable(h, p) <==> exists run :: Run(h, p, 0, run) && Lists(h, p, -1, run)
  {
    assert CellOk(h, p, {});
    if Enumerable(h, p) {
      var run := [];
      if i: nat :| Has(h, p, i) {
        assert Leads(h, p, FirstKid(h[p].kids, 0));
        run := BlockRun(h, p, FirstKid(h[p].kids, 0), 0);
      } else {
        NoneFound(h, p, 1);
      }
      assert Run(h, p, 0, run) && Lists(h, p, -1, run);
    }
    if run :| Run(h, p, 0, run) && Lists(h, p, -1, run) { MiddleListed(h, p, run); }
  }

  /** The scan of a table of depth 24 stays among the indices it is given, and does not report
      the last ones. */
  lemma SectionFind(h: Heap, q: nat, index: nat)
    requires Typed(h, {}) && q in h && Shift(h[q]) == 16
    ensures var r := Find(h, q, index);
            r.1 / SECTION == index / SECTION && (r.0.Some? ==> (r.1 + 1) / SECTION == r.1 / SECTION)
  {
    assert CellOk(h, q, {});
    var kid, k := ScanBlocks(h, q, Digit(16, index), index);
    var r := Find(h, q, index);
    if r.0.Some? { Room(r.1); }
  }

  lemma Room(i: nat)
    requires Digit(16, i) < WIDTH - 1
    ensures (i + 1) / SECTION == i / SECTION
  {
    assert i / BLOCK == WIDTH * (i / SECTION) + Digit(16, i);
    assert i == BLOCK * (i / BLOCK) + i % BLOCK;
    assert i + 1 == SECTION * (i / SECTION) + (BLOCK * Digit(16, i) + i % BLOCK + 1);
  }

  /** At depth 32, an index that lags behind goes on lagging. */
  lemma {:induction false} ScanSections(h: Heap, p: nat, j: nat, index: nat) returns (k: nat)
    requires Typed(h, {}) && p in h && Shift(h[p]) == 24 && index / SECTION < j
    ensures var r := ScanKids(h, p, j, index);
            r.0.Some? ==> Has(h, p, k) && r.1 / SECTION < k / SECTION && (r.1 + 1) / SECTION == r.1 / SECTION
    decreases WIDTH - j
  {
    k := 0;
    if j < WIDTH - 1 {
      assert CellOk(h, p, {});
      match h[p].kids[j]
      case Blank(_) =>
        k := ScanSections(h, p, j + 1, ZeroMask(24, index + SECTION));
      case At(q) =>
        SectionFind(h, q, index);
        var (v, next) := Find(h, q, index);
        if v.Some? {
          var below := FindHit(h, q, index);
          k := Under(24, j, below);
          UnderIs(24, j, below);
          KidEntry(h, p, j, below);
          assert k / SECTION == j;
        } else {
          k := ScanSections(h, p, j + 1, next);
        }
    }
  }

  lemma SectionStep(h: Heap, p: nat, from: nat, b: nat)
    requires Typed(h, {}) && p in h && Shift(h[p]) == 24 && (from + 1) / SECTION == from / SECTION < b < WIDTH
    requires forall i: nat {:trigger Has(h, p, i)} :: Has(h, p, i) ==> i / SECTION <= b
    ensures var r := Next(h, p, from);
            r.0.Some? ==> r.1 / SECTION < b && (r.1 + 1) / SECTION == r.1 / SECTION
  {
    assert CellOk(h, p, {});
    var d, index := from / SECTION, from + 1;
    assert Digit(24, index) == d && Next(h, p, from) == ScanKids(h, p, d, index);
    match h[p].kids[d]
    case Blank(_) =>
      var next := ZeroMask(24, index + SECTION);
      assert ScanKids(h, p, d, index) == ScanKids(h, p, d + 1, next);
      var k := ScanSections(h, p, d + 1, next);
    case At(q) =>
      SectionFind(h, q, index);
      var (v, next) := Find(h, q, index);
      if v.None? {
        assert ScanKids(h, p, d, index) == ScanKids(h, p, d + 1, next);
        var k := ScanSections(h, p, d + 1, next);
      }
  }

  lemma {:induction false} SectionRun(h: Heap, p: nat, b: nat, from: nat, run: seq<nat>)
    requires Typed(h, {}) && p in h && Shift(h[p]) == 24 && Run(h, p, from, run) && b < WIDTH
    requires forall i: nat {:trigger Has(h, p, i)} :: Has(h, p, i) ==> i / SECTION <= b
    requires (from + 1) / SECTION == from / SECTION < b
    ensures forall i :: i in run ==> i / SECTION < b
    decreases |run|
  {
    if run != [] {
      SectionStep(h, p, from, b);
      SectionRun(h, p, b, run[0], run[1..]);
      assert run == [run[0]] + run[1..];
    }
  }

  /** Where all entries are below the first child of a table of depth 32, the runs are those of
      that child. */
  lemma {:induction false} RunSame(h: Heap, p: nat, from: nat, run: seq<nat>)
    requires Typed(h, {}) && p in h && Shift(h[p]) == 24 && h[p].Inner? && |h[p].kids| == WIDTH && h[p].kids[0].At? && h[p].kids[0].id in h
    requires Shift(h[h[p].kids[0].id]) == 16 && from + 1 < SECTION
    requires forall i: nat {:trigger Has(h, p, i)} :: Has(h, p, i) ==> i < SECTION
    ensures Run(h, p, from, run) <==> Run(h, h[p].kids[0].id, from, run)
    decreases |run|
  {
    var r := Next(h, h[p].kids[0].id, from);
    SectionFind(h, h[p].kids[0].id, from + 1);
    NextSame(h, p, from);
    if run != [] && r.0.Some? && run[0] == r.1 { RunSame(h, p, run[0], run[1..]); }
  }

  lemma ListsSame(h: Heap, p: nat, run: seq<nat>)
    requires Typed(h, {}) && p in h && Shift(h[p]) == 24 && h[p].Inner? && |h[p].kids| == WIDTH && h[p].kids[0].At? && h[p].kids[0].id in h
    requires Shift(h[h[p].kids[0].id]) == 16
    requires forall i: nat {:trigger Has(h, p, i)} :: Has(h, p, i) ==> i < SECTION
    ensures Lists(h, p, -1, run) <==> Lists(h, h[p].kids[0].id, -1, run)
  {
    hide Walk, Has;
    forall i: nat ensures Has(h, p, i) <==> Has(h, h[p].kids[0].id, i) { HasSame(h, p, i); }
  }

  lemma HasSame(h: Heap, p: nat, i: nat)
    requires Typed(h, {}) && p in h && Shift(h[p]) == 24 && h[p].Inner? && |h[p].kids| == WIDTH && h[p].kids[0].At? && h[p].kids[0].id in h
    requires Shift(h[h[p].kids[0].id]) == 16 && (Has(h, p, i) ==> i < SECTION)
    ensures Has(h, p, i) <==> Has(h, h[p].kids[0].id, i)
  {
    hide Walk;
    if i < SECTION {
      KidEntry(h, p, 0, i);
      assert i % 0x1000000 == i;
    }
  }

  /** Below the first child, or nowhere. */
  lemma TopListed(h: Heap, p: nat, run: seq<nat>)
    requires Typed(h, {}) && p in h && Shift(h[p]) == 24 && Run(h, p, 0, run) && Lists(h, p, -1, run)
    ensures forall i: nat {:trigger Has(h, p, i)} :: Has(h, p, i) ==> i < SECTION
  {
    if run != [] {
      var last := run[|run| - 1];
      assert last in run && Has(h, p, last);
      var b := last / SECTION;
      forall i: nat | Has(h, p, i) ensures i / SECTION <= b { assert i in run; }
      if b > 0 { SectionRun(h, p, b, 0, run); }
    }
    forall i: nat | Has(h, p, i) ensures i < SECTION { assert i in run; }
  }

  lemma TopExact(h: Heap, p: nat)
    requires Typed(h, {}) && p in h && Shift(h[p]) == 24
    ensures Enumerable(h, p) <==> exists run :: Run(h, p, 0, run) && Lists(h, p, -1, run)
  {
    assert CellOk(h, p, {});
    if run :| Run(h, p, 0, run) && Lists(h, p, -1, run) { TopListed(h, p, run); }
    if forall i: nat {:trigger Has(h, p, i)} :: Has(h, p, i) ==> i < SECTION {
      if h[p].kids[0].At? {
        forall run ensures Run(h, p, 0, run) && Lists(h, p, -1, run) <==> Run(h, h[p].kids[0].id, 0, run) && Lists(h, h[p].kids[0].id, -1, run) {
          RunSame(h, p, 0, run);
          ListsSame(h, p, run);
        }
        MiddleExact(h, h[p].kids[0].id);
      } else {
        forall i: nat ensures !Has(h, p, i) { if Has(h, p, i) { EntryKid(h, p, i); } }
        NoneFound(h, p, 1);
        assert Run(h, p, 0, []) && Lists(h, p, -1, []);
      }
    }
  }

  /** The loop over `SparseArrayNext` from 0 visits every entry once, in increasing order, and
      stops, exactly when the table is enumerable. */
  lemma EnumerationExact(h: Heap, p: nat)
    requires Typed(h, {}) && p in h
    ensures Enumerable(h, p) <==> exists run :: Run(h, p, 0, run) && Lists(h, p, -1, run)
  {
    assert CellOk(h, p, {});
    if Shift(h[p]) <= 8 { ShallowExact(h, p); } else if Shift(h[p]) == 16 { MiddleExact(h, p); } else { TopExact(h, p); }
  }

  /** Above depth 16 it is a matter of one or two pointers. */
  lemma HoldsIs(h: Heap, p: nat, j: nat)
    requires Typed(h, {}) && p in h
    ensures Shift(h[p]) <= 8 ==> Holds(h, At(p), j)
    ensures Shift(h[p]) == 16 ==> (Holds(h, At(p), j) <==> Kid(h, At(p), Digit(16, j)).At?)
    ensures Shift(h[p]) == 24 ==> (Holds(h, At(p), j) <==> var k := Kid(h, At(p), Digit(24, j)); k.At? && Kid(h, k, Digit(16, j)).At?)
    decreases Shift(h[p])
  {
    assert CellOk(h, p, {});
    if h[p].Inner? && h[p].shift > 8 && h[p].kids[Digit(h[p].shift, j)].At? { HoldsIs(h, h[p].kids[Digit(h[p].shift, j)].id, j); }
  }

  /** Below `a` begin, exclusively, the indices that an enumeration of one table of depth 16 at
      `a` reports. */
  function SpanLow(shift: nat, a: nat): nat {
    if shift <= 8 then 0 else a * BLOCK
  }

  /** Where they end. */
  function SpanHigh(shift: nat, a: nat): nat {
    if shift == 0 then WIDTH else if shift == 8 then Limit(8) else if a < WIDTH - 1 then a * BLOCK + Limit(8) else a * BLOCK
  }

  /** Nothing is allocated above depth 16 but the way to the table at `a`. */
  ghost predicate Straight(h: Heap, p: nat, a: nat)
    requires p in h
  {
    && a < WIDTH
    && (Shift(h[p]) == 16 ==> forall b: nat {:trigger b * BLOCK} :: b < WIDTH && Holds(h, At(p), b * BLOCK) ==> b == a)
    && (Shift(h[p]) == 24 ==> forall b: nat {:trigger b * BLOCK} :: b < 0x10000 && Holds(h, At(p), b * BLOCK) ==> b == a)
  }

  lemma BlockStart(b: nat)
    requires b < 0x10000
    ensures b * BLOCK / BLOCK == b && Digit(16, b * BLOCK) == b % WIDTH && Digit(24, b * BLOCK) == b / WIDTH
  {
    BlockDigits(b * BLOCK);
  }

  /** Then its entries are all at `a`. */
  lemma StraightEntry(h: Heap, p: nat, a: nat, i: nat)
    requires Typed(h, {}) && p in h && Shift(h[p]) >= 16 && Straight(h, p, a) && Has(h, p, i)
    ensures i / BLOCK == a
  {
    assert CellOk(h, p, {});
    EntryHolds(h, p, i);
    var b := i / BLOCK;
    BlockDigits(i);
    BlockStart(b);
    HoldsIs(h, p, i);
    HoldsIs(h, p, b * BLOCK);
  }

  lemma EntryHolds(h: Heap, p: nat, i: nat)
    requires Typed(h, {}) && p in h && Has(h, p, i)
    ensures Holds(h, At(p), i)
    decreases Shift(h[p])
  {
    assert CellOk(h, p, {});
    if Shift(h[p]) > 8 {
      EntryKid(h, p, i);
      WalkStep(h, At(p), i);
      var q := h[p].kids[Digit(Shift(h[p]), i)].id;
      WalkAgrees(h, At(q), i, i % Capacity(Shift(h[q])));
      HoldsAgrees(h, q, i, i % Capacity(Shift(h[q])));
      EntryHolds(h, q, i % Capacity(Shift(h[q])));
    }
  }

  lemma HoldsAgrees(h: Heap, p: nat, i: nat, j: nat)
    requires Typed(h, {}) && p in h && Shift(h[p]) <= 16 && j == i % Capacity(Shift(h[p]))
    ensures Holds(h, At(p), i) == Holds(h, At(p), j) && Agrees(Shift(h[p]), i, j)
  {
    assert CellOk(h, p, {});
    HoldsIs(h, p, i);
    HoldsIs(h, p, j);
    if Shift(h[p]) == 16 {
      Sections(i);
      assert i % SECTION == i - SECTION * (i / SECTION);
      BlockDigit(j);
      assert i / BLOCK == WIDTH * (i / SECTION) + j / BLOCK;
    }
  }

  /** One call on such a table. */
  lemma NextStraight(h: Heap, p: nat, a: nat, from: nat)
    requires Typed(h, {}) && p in h && Shift(h[p]) == 16 && Straight(h, p, a)
    requires from == 0 || SpanLow(16, a) < from < SpanHigh(16, a)
    ensures Ahead(h, p, StartAt(a, from), SpanHigh(16, a), Next(h, p, from))
  {
    assert CellOk(h, p, {});
    forall i: nat | Has(h, p, i) ensures i / BLOCK == a { StraightEntry(h, p, a, i); }
    if i: nat :| Has(h, p, i) {
      EntryKid(h, p, i);
      BlockDigit(i);
      forall j | 0 <= j < a && j < WIDTH ensures h[p].kids[j].Blank? {
        BlockStart(j);
        HoldsIs(h, p, j * BLOCK);
      }
      if a < WIDTH - 1 {
        assert Leads(h, p, a);
        NextAhead(h, p, a, from);
      } else {
        SkipTo(h, p, 0, WIDTH - 1, 1);
      }
    } else {
      NoneFound(h, p, from + 1);
      forall k: nat | k < Capacity(Shift(h[p])) ensures Walk(h, At(p), k) == None { assert !Has(h, p, k); }
    }
  }

  /** At depth 32 the call is one on the first child. */
  lemma NextStraightTop(h: Heap, p: nat, a: nat, from: nat)
    requires Typed(h, {}) && p in h && Shift(h[p]) == 24 && Straight(h, p, a)
    requires from == 0 || SpanLow(24, a) < from < SpanHigh(24, a)
    ensures Ahead(h, p, StartAt(a, from), SpanHigh(24, a), Next(h, p, from))
  {
    assert CellOk(h, p, {});
    forall i: nat | Has(h, p, i) ensures i < SECTION { StraightEntry(h, p, a, i); }
    if i: nat :| Has(h, p, i) {
      EntryKid(h, p, i);
      var q := h[p].kids[0].id;
      StraightBelow(h, p, a, q);
      NextStraight(h, q, a, from);
      NextSame(h, p, from);
      AheadSame(h, p, q, StartAt(a, from), SpanHigh(24, a), Next(h, q, from), Next(h, p, from));
    } else {
      NoneFound(h, p, from + 1);
      forall k: nat | k < Capacity(Shift(h[p])) ensures Walk(h, At(p), k) == None { assert !Has(h, p, k); }
    }
  }

  lemma AheadSame(h: Heap, p: nat, q: nat, from: nat, to: nat, r: (Option<Method>, nat), r': (Option<Method>, nat))
    requires Typed(h, {}) && p in h && Shift(h[p]) == 24 && |h[p].kids| == WIDTH && h[p].kids[0] == At(q) && to <= SECTION
    requires Ahead(h, q, from, to, r) && r'.0 == r.0 && (r.0.Some? ==> r' == r)
    ensures Ahead(h, p, from, to, r')
  {
    hide Walk;
    forall k: nat | k < SECTION ensures Walk(h, At(p), k) == Walk(h, At(q), k) {
      KidEntry(h, p, 0, k);
      assert k % 0x1000000 == k;
    }
  }

  lemma StraightBelow(h: Heap, p: nat, a: nat, q: nat)
    requires Typed(h, {}) && p in h && Shift(h[p]) == 24 && |h[p].kids| == WIDTH && Straight(h, p, a) && h[p].kids[0] == At(q) && q in h && Shift(h[q]) == 16
    ensures Straight(h, q, a)
  {
    forall b: nat | b < WIDTH && Holds(h, At(q), b * BLOCK) ensures b == a {
      BlockStart(b);
      HoldsIs(h, p, b * BLOCK);
      HoldsIs(h, q, b * BLOCK);
    }
  }

  lemma NextSame(h: Heap, p: nat, from: nat)
    requires Typed(h, {}) && p in h && Shift(h[p]) == 24 && h[p].Inner? && |h[p].kids| == WIDTH && h[p].kids[0].At? && h[p].kids[0].id in h
    requires Shift(h[h[p].kids[0].id]) == 16 && from + 1 < SECTION
    requires forall i: nat {:trigger Has(h, p, i)} :: Has(h, p, i) ==> i < SECTION
    ensures var r := Next(h, h[p].kids[0].id, from); Next(h, p, from).0 == r.0 && (r.0.Some? ==> Next(h, p, from) == r)
  {
    assert CellOk(h, p, {});
    var r := Find(h, h[p].kids[0].id, from + 1);
    assert Digit(24, from + 1) == 0;
    assert Next(h, p, from) == ScanKids(h, p, 0, from + 1);
    assert ScanKids(h, p, 0, from + 1) == if r.0.Some? then r else ScanKids(h, p, 1, r.1);
    if r.0.None? && ScanKids(h, p, 1, r.1).0.Some? { var k := ScanKidsHit(h, p, 1, r.1); }
  }
}
