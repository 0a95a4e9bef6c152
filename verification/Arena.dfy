/** `sarray2.c`: the operations on copy-on-write sparse arrays, on an explicit
    store so that sharing, reference counts and freeing are all visible. */
module SparseArrays {
  import opened Basics
  import opened Trie
  import opened RefCounts
  import opened Sharing
  import opened Enumeration
  import opened DeepEnumeration
  import opened Garbage

  /** What a caller can observe of one sparse array: its entries, and by enumerating it also
      which of its tables of depth 16 are allocated. */
  datatype Table = Table(shift: nat, entries: map<nat, Method>, blocks: set<nat>)

  ghost function Entries(h: Heap, p: nat): map<nat, Method>
    requires p in h
  {
    map i: nat | i < Capacity(Shift(h[p])) && Walk(h, At(p), i).Some? :: Walk(h, At(p), i).value
  }

  function BlockCount(shift: nat): nat {
    if shift <= 8 then 1 else if shift == 16 then 0x100 else 0x10000
  }

  ghost function Blocks(h: Heap, p: nat): set<nat>
    requires p in h
  {
    set b: nat | b < BlockCount(Shift(h[p])) && Holds(h, At(p), b * BLOCK)
  }

  ghost function View(h: Heap, p: nat): Table
    requires p in h
  {
    Table(Shift(h[p]), Entries(h, p), Blocks(h, p))
  }

  /** A table with nothing in it. */
  function EmptyTable(shift: nat): Table {
    Table(shift, map[], if shift <= 8 then {0} else {})
  }

  /** What lookup must answer. */
  function Get(t: Table, index: nat): Option<Method> {
    if index in t.entries then Some(t.entries[index]) else None
  }

  /** The table with one entry stored, or cleared when the value is NULL. */
  function Put(t: Table, index: nat, value: Option<Method>): Table {
    var blocks := if t.shift <= 8 then t.blocks else t.blocks + {index / BLOCK};
    match value
    case Some(m) => t.(entries := t.entries[index := m], blocks := blocks)
    case None => t.(entries := t.entries - {index}, blocks := blocks)
  }

  lemma ViewSame(h: Heap, h': Heap, p: nat)
    requires p in h && p in h' && Shift(h[p]) == Shift(h'[p])
    requires forall j: nat :: Walk(h', At(p), j) == Walk(h, At(p), j)
    requires forall j: nat :: Holds(h', At(p), j) == Holds(h, At(p), j)
    ensures View(h', p) == View(h, p)
  {
  }

  lemma ViewStored(h: Heap, h': Heap, p: nat, index: nat, value: Option<Method>)
    requires Typed(h, {}) && p in h && p in h' && Shift(h[p]) == Shift(h'[p]) && index < Capacity(Shift(h[p]))
    requires Stored(h, h', p, index, value)
    ensures View(h', p) == Put(View(h, p), index, value)
  {
    EntriesStored(h, h', p, index, value);
    BlocksStored(h, h', p, index, value);
  }

  lemma EntriesStored(h: Heap, h': Heap, p: nat, index: nat, value: Option<Method>)
    requires p in h && p in h' && Shift(h[p]) == Shift(h'[p]) && index < Capacity(Shift(h[p]))
    requires Stored(h, h', p, index, value)
    ensures Entries(h', p) == match value case Some(m) => Entries(h, p)[index := m] case None => Entries(h, p) - {index}
  {
    hide Walk, Holds;
    forall j: nat | j < Capacity(Shift(h[p]))
      ensures Walk(h', At(p), j) == if j == index then value else Walk(h, At(p), j)
    {
      AgreesBelow(Shift(h[p]), j, index);
    }
  }

  lemma BlocksStored(h: Heap, h': Heap, p: nat, index: nat, value: Option<Method>)
    requires Typed(h, {}) && p in h && p in h' && Shift(h[p]) == Shift(h'[p]) && index < Capacity(Shift(h[p]))
    requires Stored(h, h', p, index, value)
    ensures Blocks(h', p) == Put(View(h, p), index, value).blocks
  {
    assert CellOk(h, p, {});
    forall b: nat | b < BlockCount(Shift(h[p])) ensures Together(Shift(h[p]), b * BLOCK, index) <==> b == index / BLOCK {
      TogetherIs(Shift(h[p]), b, index);
    }
  }

  lemma TogetherIs(shift: nat, b: nat, index: nat)
    requires b < BlockCount(shift) && index < Capacity(shift) && (shift == 0 || Level(shift))
    ensures Together(shift, b * BLOCK, index) <==> b == index / BLOCK
    ensures index / BLOCK < BlockCount(shift)
  {
    BlockDigits(b * BLOCK);
    BlockDigits(index);
    var q := index / BLOCK;
    assert b * BLOCK / BLOCK == b;
    assert b == WIDTH * (b / WIDTH) + b % WIDTH && q == WIDTH * (q / WIDTH) + q % WIDTH;
  }

  /** The nodes named by a handle: nothing in the heap points to them. */
  ghost predicate Rooted(h: Heap, roots: multiset<nat>) {
    forall p {:trigger RootOk(h, roots, p)} :: p in roots ==> RootOk(h, roots, p)
  }

  ghost predicate RootOk(h: Heap, roots: multiset<nat>, p: nat) {
    p in h && h[p].refCount == 1 && roots[p] == 1 && Live(h, p, {}) == {}
  }

  lemma RootsOnce(h: Heap, roots: multiset<nat>)
    requires Rooted(h, roots)
    ensures forall p :: p in roots ==> p in h && h[p].refCount == 1 && roots[p] == 1
  {
    forall p | p in roots ensures p in h && h[p].refCount == 1 && roots[p] == 1 { assert RootOk(h, roots, p); }
  }

  /** `tables` shows what each handle names. */
  ghost predicate Shown(h: Heap, roots: multiset<nat>, tables: map<nat, Table>, p: nat) {
    (p in tables <==> p in roots) && (p in tables ==> p in h && View(h, p) == tables[p])
  }

  ghost predicate Pictured(h: Heap, roots: multiset<nat>, tables: map<nat, Table>) {
    forall p {:trigger Shown(h, roots, tables, p)} :: Shown(h, roots, tables, p)
  }

  class Arena {
    var heap: Heap
    /** Addresses from here on have never been allocated. */
    var brk: nat
    ghost var roots: multiset<nat>
    /** The abstract state: each handle names an independent table. */
    ghost var tables: map<nat, Table>

    ghost predicate Sound()
      reads this
    {
      && Inv(heap, roots, {}, {})
      && forall p :: p in heap ==> p < brk
    }

    ghost predicate Valid()
      reads this
    {
      Sound() && Rooted(heap, roots) && Pictured(heap, roots, tables)
    }

    constructor ()
      ensures Valid() && tables == map[]
    {
      heap, brk, roots, tables := map[], 0, multiset{}, map[];
    }

    /** A node fresh from `calloc`, with count 1 and no pointer that needs counting. */
    method Allocate(c: Cell) returns (p: nat)
      requires Sound()
      requires c.refCount == 1
      requires match c
               case Leaf(_, vs) => |vs| == WIDTH
               case Inner(s, _, ks) => Level(s) && |ks| == WIDTH && forall i :: 0 <= i < WIDTH ==> ks[i] == Blank(s - 8)
      modifies this`heap, this`brk, this`roots
      ensures Sound()
      ensures p == old(brk) && p !in old(heap) && heap == old(heap)[p := c] && roots == old(roots) + multiset{p}
    {
      p := brk;
      AllocateTyped(heap, p, c);
      RefCounts.Allocate(heap, roots, p, c, {});
      heap := heap[p := c];
      brk := brk + 1;
      roots := roots + multiset{p};
    }
  
    /** `SparseArrayCopy`: a new node with the same contents; the children are shared. */
    method CopyNode(s: nat) returns (p: nat)
      requires Sound() && s in heap
      modifies this`heap, this`brk, this`roots
      ensures Sound()
      ensures p == old(brk) && p !in old(heap) && heap.Keys == old(heap).Keys + {p} && DataKept(old(heap), heap)
      ensures heap[p] == WithCount(old(heap)[s], 1)
      ensures forall q :: q in old(heap) && Shift(old(heap)[q]) >= Shift(old(heap)[s]) ==> heap[q] == old(heap)[q]
      ensures roots == old(roots) + multiset{p}
    {
      p := brk;
      CopyStart(heap, roots, s, p);
      heap := heap[p := WithCount(heap[s], 1)];
      brk := brk + 1;
      roots := roots + multiset{p};
      ghost var h1 := heap;
      if heap[p].Inner? {
        for i := 0 to WIDTH
          invariant Copying(h1, heap, roots, p, i)
          invariant roots == old(roots) + multiset{p} && brk == p + 1
        {
          CopyStep(h1, heap, roots, p, i);
          var child := heap[p].kids[i];
          if child.At? {
            heap := heap[child.id := WithCount(heap[child.id], heap[child.id].refCount + 1)];
          }
        }
      }
      NoPending(heap, roots, p);
    }

    /** `SparseArrayDestroy`: gives one reference back and, when it was the last,
        releases the children and frees the node.  `dead` and `zombies` describe the
        enclosing destructions. */
    method Release(r: Ref, ghost dead: set<Edge>, ghost zombies: set<nat>)
      requires Inv(heap, roots, dead, zombies) && Handle(r) <= roots
      requires forall p :: p in heap ==> p < brk
      modifies this`heap, this`brk, this`roots
      ensures Inv(heap, roots, dead, zombies) && roots == old(roots) - Handle(r) && brk == old(brk)
      ensures Shrunk(old(heap), heap)
      ensures r.Blank? ==> heap == old(heap)
      ensures r.At? && old(heap)[r.id].refCount > 1 ==>
                heap == old(heap)[r.id := WithCount(old(heap)[r.id], old(heap)[r.id].refCount - 1)]
      decreases Shift(Load(heap, r)), 2
    {
      hide Inv;
      if r.Blank? {
        return;
      }
      var p := r.id;
      var last := Drop(p, dead, zombies);
      if !last {
        return;
      }
      ghost var h := heap;
      Reclaim(p, dead, zombies);
      ShrunkTrans(old(heap), h, heap);
    }

    /** The count is decremented; the answer is whether it has reached zero. */
    method Drop(p: nat, ghost dead: set<Edge>, ghost zombies: set<nat>) returns (last: bool)
      requires Inv(heap, roots, dead, zombies) && p in roots
      modifies this`heap, this`roots
      ensures roots == old(roots) - multiset{p} && p in old(heap) && p !in zombies
      ensures heap == old(heap)[p := WithCount(old(heap)[p], old(heap)[p].refCount - 1)] && Shrunk(old(heap), heap)
      ensures last <==> old(heap)[p].refCount <= 1
      ensures Inv(heap, roots, dead, if last then zombies + {p} else zombies)
      ensures forall e :: e in dead ==> e.0 in zombies
      ensures Shift(heap[p]) == Shift(old(heap)[p])
    {
      DropInv(heap, roots, dead, zombies, p);
      heap := heap[p := WithCount(heap[p], heap[p].refCount - 1)];
      roots := roots - multiset{p};
      last := heap[p].refCount <= 0;
    }

    /** The end of `SparseArrayDestroy`, when the count has reached zero. */
    method Reclaim(p: nat, ghost dead: set<Edge>, ghost zombies: set<nat>)
      requires Inv(heap, roots, dead, zombies + {p}) && p !in zombies
      requires forall e :: e in dead ==> e.0 in zombies
      requires forall q :: q in heap ==> q < brk
      modifies this`heap, this`brk, this`roots
      ensures Inv(heap, roots, dead, zombies) && roots == old(roots) && brk == old(brk)
      ensures Shrunk(old(heap), heap)
      decreases Shift(Load(heap, At(p))), 1
    {
      if heap[p].Inner? {
        ReleaseKids(p, dead, zombies);
      }
      FreeInv(old(heap), heap, roots, dead, zombies, p, heap - {p});
      heap := heap - {p};
    }

    /** The loop over the children of a node whose count has reached zero. */
    method ReleaseKids(p: nat, ghost dead: set<Edge>, ghost zombies: set<nat>)
      requires Inv(heap, roots, dead, zombies + {p}) && p !in zombies && heap[p].Inner?
      requires forall e :: e in dead ==> e.0 in zombies
      requires forall q :: q in heap ==> q < brk
      modifies this`heap, this`brk, this`roots
      ensures Inv(heap, roots, dead + SlotsBefore(p, WIDTH), zombies + {p}) && roots == old(roots) && brk == old(brk)
      ensures Shrunk(old(heap), heap)
      decreases Shift(Load(heap, At(p))), 0
    {
      ghost var zs := zombies + {p};
      assert p in zs && p in heap;
      hide Inv;
      ghost var done := dead;
      assert done == dead + SlotsBefore(p, 0);
      for i := 0 to WIDTH
        invariant Inv(heap, roots, done, zs) && done == dead + SlotsBefore(p, i)
        invariant Shrunk(old(heap), heap)
        invariant roots == old(roots) && brk == old(brk)
      {
        FreshSlot(dead, zombies, p, i);
        KidToRoot(old(heap), heap, roots, done, zs, p, i);
        var child := heap[p].kids[i];
        roots := roots + Handle(child);
        done := done + {(p, i)};
        ghost var h := heap;
        Release(child, done, zs);
        ShrunkTrans(old(heap), h, heap);
      }
    }

    /** The part of `SparseArrayInsert` that makes child `i` of `s` its own: a missing
        child is allocated and a shared one is copied. */
    method OwnKid(s: nat, i: nat) returns (c: nat)
      requires Sound() && s in heap && heap[s].refCount == 1 && heap[s].Inner? && i < WIDTH
      modifies this`heap, this`brk, this`roots
      ensures Sound() && roots == old(roots)
      ensures Prepared(old(heap), heap, s, i, c)
    {
      assert CellOk(heap, s, {});
      var child := heap[s].kids[i];
      if child.Blank? {
        c := Allocate(WithCount(BlankCell(heap[s].shift - 8), 1));
      } else if heap[child.id].refCount > 1 {
        c := CopyNode(child.id);
      } else {
        c := child.id;
        AlreadyOwn(heap, roots, s, i);
        return;
      }
      ghost var ha := heap;
      Adopt(s, i, c);
      Adopted(old(heap), ha, WithKid(ha, s, i, At(c)), heap, roots, s, i, c);
    }

    /** Stores the new child `c` in slot `i` of `s` and releases the one it replaces. */
    method Adopt(s: nat, i: nat, c: nat)
      requires Sound() && c in roots && s in heap && heap[s].Inner? && i < WIDTH && Level(heap[s].shift)
      requires |heap[s].kids| == WIDTH && heap[s].kids[i] != At(c) && Shift(heap[c]) == heap[s].shift - 8
      requires heap[s].kids[i].At? ==> heap[s].kids[i].id in heap && heap[heap[s].kids[i].id].refCount > 1
      modifies this`heap, this`brk, this`roots
      ensures Sound() && roots == old(roots) - multiset{c}
      ensures CountsOnly(WithKid(old(heap), s, i, At(c)), heap)
      ensures heap[s] == WithKid(old(heap), s, i, At(c))[s] && heap[c] == old(heap)[c]
    {
      assert c in heap;
      hide Inv, Handle;
      var child := heap[s].kids[i];
      RootsBack(roots, Handle(child), c);
      StoreKid(s, i, c);
      ghost var hb := heap;
      Release(child, {}, {});
      OneCount(hb, heap, child, s, c);
    }

    /** `s->data[i] = c`: the slot takes over the reference to `c`, and the caller
        is left holding the one to the child it replaces. */
    method StoreKid(s: nat, i: nat, c: nat)
      requires Sound() && c in roots && s in heap && heap[s].Inner? && i < WIDTH && Level(heap[s].shift)
      requires |heap[s].kids| == WIDTH && heap[s].kids[i] != At(c) && Shift(heap[c]) == heap[s].shift - 8
      modifies this`heap, this`brk, this`roots
      ensures Sound() && roots == old(roots) + Handle(old(heap)[s].kids[i]) - multiset{c}
      ensures heap == WithKid(old(heap), s, i, At(c)) && old(heap)[s].kids[i] != At(s)
    {
      AdoptInv(heap, roots, s, i, c);
      ghost var child := heap[s].kids[i];
      heap := heap[s := heap[s].(kids := heap[s].kids[i := At(c)])];
      roots := roots + Handle(child) - multiset{c};
    }

    /** `SparseArrayInsert`, below any node that only one pointer reaches.  `path` is
        the set of already existing nodes that were written. */
    method InsertNode(s: nat, index: nat, value: Option<Method>) returns (ghost path: set<nat>)
      requires Sound() && s in heap && heap[s].refCount == 1
      modifies this`heap, this`brk, this`roots
      ensures Sound() && roots == old(roots)
      ensures Private(old(heap), s, path) && OutsideKept(old(heap), heap, path)
      ensures Stored(old(heap), heap, s, index, value) && NoNewTargets(old(heap), heap)
      ensures forall q :: q in path && q != s ==> q !in roots
      decreases Shift(heap[s])
    {
      assert CellOk(heap, s, {});
      if heap[s].Inner? {
        var i := Digit(heap[s].shift, index);
        var c := OwnKid(s, i);
        ghost var h1 := heap;
        assert CellOk(h1, s, {});
        OnlySlot(h1, roots, (s, i), c);
        ghost var below := InsertNode(c, index, value);
        path := below * old(heap).Keys + {s};
        PathUp(old(heap), h1, heap, s, i, c, below);
        NoNewTargetsTrans(old(heap), h1, heap);
        forall j: nat { StoreUp(old(heap), h1, heap, s, i, c, below, index, value, j); }
      } else {
        SetValueInv(heap, roots, s, index, value);
        heap := heap[s := heap[s].(values := heap[s].values[Digit(0, index) := value])];
        path := {s};
      }
    }

    /** `SparseArrayNewWithDepth`. */
    method New(depth: nat) returns (t: nat)
      requires Valid() && (depth == 8 || depth == 16 || depth == 24 || depth == 32)
      modifies this
      ensures Valid() && t !in old(tables)
      ensures tables == old(tables)[t := EmptyTable(depth - 8)]
    {
      ghost var h, rs := heap, roots;
      t := Allocate(WithCount(BlankCell(depth - 8), 1));
      CopiedTargets(h, heap, Blank(depth - 8), t);
      RootAdded(h, heap, rs, tables, t);
      BlankView(heap, t);
      tables := tables[t := EmptyTable(depth - 8)];
    }

    /** `SparseArrayInsert`: one entry of one table changes, and no other table does. */
    method Insert(t: nat, index: nat, value: Option<Method>)
      requires Valid() && t in tables && index < Capacity(tables[t].shift)
      modifies this
      ensures Valid()
      ensures tables == old(tables)[t := Put(old(tables)[t], index, value)]
    {
      ghost var h := heap;
      assert Shown(h, roots, tables, t);
      RootsOnce(h, roots);
      ghost var path := InsertNode(t, index, value);
      RootedKept(h, heap, roots, roots);
      RootStored(h, heap, roots, tables, t, path, index, value);
      tables := tables[t := Put(tables[t], index, value)];
    }

    /** `SparseArrayCopy`: a second table with the same contents. */
    method Copy(t: nat) returns (copy: nat)
      requires Valid() && t in tables
      modifies this
      ensures Valid() && copy !in old(tables)
      ensures tables == old(tables)[copy := old(tables)[t]]
    {
      ghost var h, rs := heap, roots;
      assert Shown(h, rs, tables, t);
      copy := CopyNode(t);
      CopiedTargets(h, heap, At(t), copy);
      RootAdded(h, heap, rs, tables, copy);
      GrownView(h, heap, t);
      ViewCopy(heap, copy, t);
      tables := tables[copy := tables[t]];
    }

    /** `SparseArrayDestroy`: the table goes and no other table changes. */
    method Destroy(t: nat)
      requires Valid() && t in tables
      modifies this
      ensures Valid()
      ensures tables == old(tables) - {t}
      ensures forall q :: q in old(heap) ==> (q in heap <==> exists p :: p in roots && Reaches(old(heap), p, q))
    {
      ghost var h, rs := heap, roots;
      assert Shown(h, rs, tables, t);
      Release(At(t), {}, {});
      RootRemoved(h, heap, rs, tables, t);
      tables := tables - {t};
      forall q | q in h ensures q in heap <==> exists p :: p in roots && Reaches(h, p, q) {
        FreedExactly(h, heap, roots, q);
      }
    }

    /** `SparseArrayExpandingArray`: the table becomes the first child of a new root.
        Note the test against the shift, not the depth. */
    method Expand(t: nat, newDepth: nat) returns (t': nat)
      requires Valid() && t in tables && newDepth >= tables[t].shift && tables[t].shift <= 16
      modifies this
      ensures Valid()
      ensures newDepth == old(tables)[t].shift ==> t' == t && tables == old(tables)
      ensures newDepth != old(tables)[t].shift ==>
                t' !in old(tables) &&
                tables == (old(tables) - {t})[t' := old(tables)[t].(shift := old(tables)[t].shift + 8)]
      ensures newDepth != old(tables)[t].shift ==> t' !in old(heap) && heap == old(heap)[t' := Spine(old(tables)[t].shift + 8, t)]
    {
      assert Shown(heap, roots, tables, t);
      if newDepth == Shift(heap[t]) {
        return t;
      }
      RootsOnce(heap, roots);
      assert heap[t].refCount == 1;
      t' := brk;
      Expanded(heap, roots, tables, t, t', Spine(Shift(heap[t]) + 8, t));
      heap := heap[t' := Spine(Shift(heap[t]) + 8, t)];
      brk := brk + 1;
      roots := roots - multiset{t} + multiset{t'};
      tables := (tables - {t})[t' := tables[t].(shift := tables[t].shift + 8)];
    }

    /** The `shift` field of a table. */
    function ShiftOf(t: nat): (s: nat)
      requires Valid() && t in tables
      reads this
      ensures s == tables[t].shift
    {
      assert Shown(heap, roots, tables, t);
      Shift(heap[t])
    }

    /** `SparseArrayLookup` on a table. */
    function Read(t: nat, index: nat): (v: Option<Method>)
      requires Valid() && t in tables && index < Capacity(tables[t].shift)
      reads this
      ensures v == Get(tables[t], index)
    {
      assert Shown(heap, roots, tables, t);
      UnrolledIsWalk(heap, At(t), index);
      Lookup(heap, At(t), index)
    }

    /** `SparseArrayFind`, with its loops. */
    method FindFrom(p: nat, index: nat) returns (v: Option<Method>, next: nat)
      requires Sound() && p in heap
      ensures (v, next) == Find(heap, p, index)
      decreases Shift(heap[p])
    {
      assert CellOk(heap, p, {});
      next := index;
      match heap[p]
      case Leaf(_, values) =>
        var j := Digit(0, index);
        while j <= WIDTH - 1
          invariant 0 <= j <= WIDTH
          invariant ScanLeaf(values, j, next) == Find(heap, p, index)
        {
          if values[j] != None {
            return values[j], next;
          }
          next := next + 1;
          j := j + 1;
        }
        v := None;
      case Inner(shift, _, kids) =>
        var j := Digit(shift, index);
        while j < WIDTH - 1
          invariant 0 <= j <= WIDTH
          invariant ScanKids(heap, p, j, next) == Find(heap, p, index)
        {
          match kids[j] {
            case Blank(_) =>
              next := ZeroMask(shift, next + Stride(shift));
            case At(child) =>
              v, next := FindFrom(child, next);
              if v != None {
                return;
              }
          }
          j := j + 1;
        }
        v := None;
    }

    /** `SparseArrayNext` among the indices that it scans.  Above depth 16 only the table of
        depth 16 at `a` is allocated. */
    method Next(t: nat, index: nat, ghost a: nat) returns (v: Option<Method>, next: nat)
      requires Valid() && t in tables && (tables[t].shift > 8 ==> tables[t].blocks <= {a} && a < WIDTH)
      requires index == 0 || SpanLow(tables[t].shift, a) < index < SpanHigh(tables[t].shift, a)
      requires tables[t].shift == 0 ==> index + 1 < WIDTH
      ensures v.Some? ==> index < next && SpanLow(tables[t].shift, a) < next < SpanHigh(tables[t].shift, a) && Get(tables[t], next) == v
                          && forall k :: index < k < next && SpanLow(tables[t].shift, a) < k ==> k !in tables[t].entries
      ensures v.None? ==> forall k :: index < k < SpanHigh(tables[t].shift, a) && SpanLow(tables[t].shift, a) < k ==> k !in tables[t].entries
    {
      assert Shown(heap, roots, tables, t);
      NextView(heap, t, a, index);
      v, next := FindFrom(t, index + 1);
    }
  }

  /** What `Next` promises, of the nodes. */
  lemma NextView(h: Heap, p: nat, a: nat, index: nat)
    requires Typed(h, {}) && p in h && (Shift(h[p]) > 8 ==> Blocks(h, p) <= {a} && a < WIDTH)
    requires index == 0 || SpanLow(Shift(h[p]), a) < index < SpanHigh(Shift(h[p]), a)
    requires Shift(h[p]) == 0 ==> index + 1 < WIDTH
    ensures var low, high, r := SpanLow(Shift(h[p]), a), SpanHigh(Shift(h[p]), a), Enumeration.Next(h, p, index);
            && (r.0.Some? ==> index < r.1 && low < r.1 < high && Get(View(h, p), r.1) == r.0 && forall k :: index < k < r.1 && low < k ==> k !in Entries(h, p))
            && (r.0.None? ==> forall k :: index < k < high && low < k ==> k !in Entries(h, p))
  {
    assert CellOk(h, p, {});
    if Shift(h[p]) <= 8 {
      NextFirst(h, p, index);
    } else {
      forall b: nat | b < BlockCount(Shift(h[p])) && Holds(h, At(p), b * BLOCK) ensures b == a { assert b in Blocks(h, p); }
      if Shift(h[p]) == 16 { NextStraight(h, p, a, index); } else { NextStraightTop(h, p, a, index); }
      assert Enumeration.Next(h, p, index).0.Some? ==> Enumeration.Next(h, p, index).1 < Capacity(Shift(h[p]));
    }
  }

  /** The root that `SparseArrayExpandingArray` puts above `t`. */
  function Spine(shift: nat, t: nat): Cell
    requires shift >= 8
  {
    Inner(shift, 1, [At(t)] + seq(WIDTH - 1, _ => Blank(shift - 8)))
  }

  lemma ExpandInv(h: Heap, roots: multiset<nat>, t: nat, p: nat)
    requires Inv(h, roots, {}, {}) && t in roots && p !in h && Shift(h[t]) <= 16
    ensures Inv(h[p := Spine(Shift(h[t]) + 8, t)], roots - multiset{t} + multiset{p}, {}, {})
  {
    var c := Spine(Shift(h[t]) + 8, t);
    var h' := h[p := c];
    assert CellOk(h, t, {});
    AllocateTyped(h, p, c);
    RefCounts.Allocate(h, roots, p, c, {(p, 0)});
    RootToSlot(h', roots + multiset{p}, {(p, 0)}, (p, 0), t);
    assert {(p, 0)} - {(p, 0)} == {};
    assert roots + multiset{p} - multiset{t} == roots - multiset{t} + multiset{p};
  }

  lemma ExpandedWalk(h: Heap, t: nat, p: nat, j: nat)
    requires Typed(h, {}) && t in h && p !in h && Shift(h[t]) <= 16 && j < Capacity(Shift(h[t]) + 8)
    ensures Walk(h[p := Spine(Shift(h[t]) + 8, t)], At(p), j) ==
            if j < Capacity(Shift(h[t])) then Walk(h, At(t), j) else None
  {
    assert CellOk(h, t, {});
    var s := Shift(h[t]) + 8;
    var h' := h[p := Spine(s, t)];
    WalkGrown(h, h', At(t), j);
    var kid := h'[p].kids[Digit(s, j)];
    if j < Capacity(s - 8) {
      assert Digit(s, j) == 0;
    } else {
      assert Digit(s, j) != 0;
      BlankWalk(h', Blank(s - 8), j);
    }
  }

  lemma ExpandedView(h: Heap, t: nat, p: nat)
    requires Typed(h, {}) && t in h && p !in h && Shift(h[t]) <= 16
    ensures View(h[p := Spine(Shift(h[t]) + 8, t)], p) == View(h, t).(shift := Shift(h[t]) + 8)
  {
    assert CellOk(h, t, {});
    var h' := h[p := Spine(Shift(h[t]) + 8, t)];
    assert Capacity(Shift(h[t])) < Capacity(Shift(h'[p]));
    forall j: nat | j < Capacity(Shift(h'[p]))
      ensures Walk(h', At(p), j) == if j < Capacity(Shift(h[t])) then Walk(h, At(t), j) else None
    {
      ExpandedWalk(h, t, p, j);
    }
    assert View(h', p).entries == View(h, t).entries;
    AllocateTyped(h, p, h'[p]);
    forall b: nat | b < BlockCount(Shift(h'[p])) ensures b in Blocks(h', p) <==> b in Blocks(h, t) { ExpandedHolds(h, t, p, h', b); }
    assert Blocks(h', p) == Blocks(h, t);
  }

  lemma ExpandedHolds(h: Heap, t: nat, p: nat, h': Heap, b: nat)
    requires Typed(h, {}) && Typed(h', {}) && t in h && p !in h && Shift(h[t]) <= 16 && h' == h[p := Spine(Shift(h[t]) + 8, t)]
    requires b < BlockCount(Shift(h[t]) + 8)
    ensures b in Blocks(h', p) <==> b in Blocks(h, t)
  {
    BlockDigits(b * BLOCK);
    assert b * BLOCK / BLOCK == b;
    HoldsIs(h', p, b * BLOCK);
    HoldsIs(h, t, b * BLOCK);
    assert CellOk(h, t, {}) && CellOk(h', p, {});
  }

  lemma ExpandedRooted(h: Heap, roots: multiset<nat>, t: nat, p: nat, h': Heap, roots': multiset<nat>)
    requires Rooted(h, roots) && t in roots && p !in h && t in h && h' == h[p := Spine(Shift(h[t]) + 8, t)]
    requires roots' == roots - multiset{t} + multiset{p} && Inv(h', roots', {}, {})
    ensures Rooted(h', roots') && forall q :: q in roots' <==> (q in roots && q != t) || q == p
  {
    RootsOnce(h, roots);
    assert forall q :: q in roots' <==> (q in roots && q != t) || q == p;
    forall q | q in roots' ensures RootOk(h', roots', q) {
      assert CountOk(h', roots', {}, q);
      assert q in roots ==> RootOk(h, roots, q);
      forall e ensures q in roots && q != t ==> e !in Live(h', q, {}) {
        assert q in roots ==> e !in Live(h, q, {});
      }
    }
  }

  /** Exchanging handle `t` for `p` when no allocated node changes. */
  lemma RootExchanged(h: Heap, roots: multiset<nat>, tables: map<nat, Table>, t: nat, p: nat, h': Heap, roots': multiset<nat>)
    requires Inv(h, roots, {}, {}) && Pictured(h, roots, tables) && h.Keys <= h'.Keys && DataKept(h, h') && p in h'
    requires forall q :: q in roots' <==> (q in roots && q != t) || q == p
    ensures Pictured(h', roots', (tables - {t})[p := View(h', p)])
  {
    var tables' := (tables - {t})[p := View(h', p)];
    forall q ensures Shown(h', roots', tables', q) {
      assert Shown(h, roots, tables, q);
      if q in roots { GrownView(h, h', q); }
    }
  }

  lemma Expanded(h: Heap, roots: multiset<nat>, tables: map<nat, Table>, t: nat, p: nat, c: Cell)
    requires Inv(h, roots, {}, {}) && Rooted(h, roots) && Pictured(h, roots, tables) && t in roots && p !in h && Shift(h[t]) <= 16
    requires c == Spine(Shift(h[t]) + 8, t)
    ensures t in tables && p !in tables
    ensures var h', roots' := h[p := c], roots - multiset{t} + multiset{p};
            Inv(h', roots', {}, {}) && Rooted(h', roots')
            && Pictured(h', roots', (tables - {t})[p := tables[t].(shift := tables[t].shift + 8)])
  {
    var h', roots' := h[p := c], roots - multiset{t} + multiset{p};
    assert Shown(h, roots, tables, t) && Shown(h, roots, tables, p);
    ExpandInv(h, roots, t, p);
    ExpandedRooted(h, roots, t, p, h', roots');
    ExpandedView(h, t, p);
    RootExchanged(h, roots, tables, t, p, h', roots');
  }

  lemma BlankWalk(h: Heap, r: Ref, j: nat)
    requires SameData(Load(h, r), BlankCell(Shift(Load(h, r))))
    requires Shift(Load(h, r)) == 0 || Level(Shift(Load(h, r)))
    ensures Walk(h, r, j) == None
    decreases Shift(Load(h, r))
  {
    if Shift(Load(h, r)) > 0 {
      BlankWalk(h, Blank(Shift(Load(h, r)) - 8), j);
    }
  }

  lemma BlankView(h: Heap, p: nat)
    requires p in h && SameData(h[p], BlankCell(Shift(h[p]))) && (Shift(h[p]) == 0 || Level(Shift(h[p])))
    ensures View(h, p) == EmptyTable(Shift(h[p]))
  {
    forall j: nat ensures Walk(h, At(p), j) == None { BlankWalk(h, At(p), j); }
    forall b: nat | b < BlockCount(Shift(h[p])) ensures Holds(h, At(p), b * BLOCK) <==> Shift(h[p]) <= 8 { }
    assert Blocks(h, p) == EmptyTable(Shift(h[p])).blocks;
  }

  lemma ViewCopy(h: Heap, p: nat, q: nat)
    requires p in h && q in h && SameData(h[p], h[q])
    ensures View(h, p) == View(h, q)
  {
    forall j: nat ensures Walk(h, At(p), j) == Walk(h, At(q), j) { WalkCopy(h, At(p), At(q), j); }
  }

  lemma GrownView(h: Heap, h': Heap, p: nat)
    requires Typed(h, {}) && p in h && h.Keys <= h'.Keys && DataKept(h, h')
    ensures View(h', p) == View(h, p)
  {
    assert SameData(h[p], h'[p]);
    forall j: nat { WalkGrown(h, h', At(p), j); }
    ViewSame(h, h', p);
  }

  /** A new node holding a handle keeps every other table. */
  lemma RootAdded(h: Heap, h': Heap, roots: multiset<nat>, tables: map<nat, Table>, t: nat)
    requires Inv(h, roots, {}, {}) && Rooted(h, roots) && t !in h
    requires Inv(h', roots + multiset{t}, {}, {}) && h'.Keys == h.Keys + {t} && DataKept(h, h')
    requires h'[t].refCount == 1 && NoNewTargets(h, h') && Pictured(h, roots, tables)
    ensures Rooted(h', roots + multiset{t}) && t !in tables
    ensures Pictured(h', roots + multiset{t}, tables[t := View(h', t)])
  {
    RootsOnce(h, roots);
    RootedKept(h, h', roots, roots + multiset{t});
    assert Shown(h, roots, tables, t);
    var roots', tables' := roots + multiset{t}, tables[t := View(h', t)];
    forall p ensures Shown(h', roots', tables', p) {
      assert Shown(h, roots, tables, p);
      if p in roots { GrownView(h, h', p); }
    }
  }

  /** The new node points only to what `s`, if anything, already pointed to. */
  lemma CopiedTargets(h: Heap, h': Heap, r: Ref, t: nat)
    requires t !in h && h'.Keys == h.Keys + {t} && DataKept(h, h') && SameData(Load(h, r), h'[t])
    requires r.At? ==> r.id in h
    ensures NoNewTargets(h, h')
  {
    forall q, e: Edge | q in h && Points(h', e, q) ensures Live(h, q, {}) != {} {
      if e.0 != t {
        assert SameData(h[e.0], h'[e.0]);
        assert e in Live(h, q, {});
      } else if r.At? {
        assert (r.id, e.1) in Live(h, q, {});
      }
    }
  }

  lemma RootSame(h: Heap, h': Heap, roots: multiset<nat>, t: nat, path: set<nat>, p: nat)
    requires Inv(h, roots, {}, {}) && Rooted(h, roots) && t in roots && p in roots && p != t
    requires Private(h, t, path) && OutsideKept(h, h', path)
    requires forall q :: q in path && q != t ==> q !in roots
    ensures p in h' && View(h', p) == View(h, p)
  {
    assert RootOk(h, roots, t);
    forall e: Edge ensures !Points(h, e, t) { assert e !in Live(h, t, {}); }
    forall j: nat { OutsideSame(h, h', t, path, At(p), Shift(h[p]) + 1, j); }
    ViewSame(h, h', p);
  }

  lemma RootStored(h: Heap, h': Heap, roots: multiset<nat>, tables: map<nat, Table>, t: nat, path: set<nat>, index: nat, value: Option<Method>)
    requires Inv(h, roots, {}, {}) && Rooted(h, roots) && t in roots && index < Capacity(Shift(h[t]))
    requires Private(h, t, path) && OutsideKept(h, h', path)
    requires forall q :: q in path && q != t ==> q !in roots
    requires Stored(h, h', t, index, value) && Pictured(h, roots, tables)
    ensures t in tables && Pictured(h', roots, tables[t := Put(tables[t], index, value)])
  {
    ViewStored(h, h', t, index, value);
    assert Shown(h, roots, tables, t);
    var tables' := tables[t := Put(tables[t], index, value)];
    forall p ensures Shown(h', roots, tables', p) {
      assert Shown(h, roots, tables, p);
      if p in roots && p != t { RootSame(h, h', roots, t, path, p); }
    }
  }

  lemma ShrunkTargets(h: Heap, h': Heap)
    requires Shrunk(h, h')
    ensures NoNewTargets(h, h')
  {
    forall q, e: Edge | q in h && Points(h', e, q) ensures Live(h, q, {}) != {} {
      assert SameData(h[e.0], h'[e.0]);
      assert e in Live(h, q, {});
    }
  }

  lemma RootRemoved(h: Heap, h': Heap, roots: multiset<nat>, tables: map<nat, Table>, t: nat)
    requires Inv(h, roots, {}, {}) && Rooted(h, roots) && Pictured(h, roots, tables) && t in roots
    requires Inv(h', roots - multiset{t}, {}, {}) && Shrunk(h, h')
    ensures Rooted(h', roots - multiset{t}) && Pictured(h', roots - multiset{t}, tables - {t})
  {
    RootsOnce(h, roots);
    assert forall p :: p in roots - multiset{t} <==> p in roots && p != t;
    ShrunkTargets(h, h');
    RootedKept(h, h', roots, roots - multiset{t});
    var roots', tables' := roots - multiset{t}, tables - {t};
    forall p ensures Shown(h', roots', tables', p) {
      assert Shown(h, roots, tables, p);
      if p in roots - multiset{t} { GrownView(h', h, p); }
    }
  }

  lemma SetValueCells(h: Heap, roots: multiset<nat>, s: nat, values: seq<Option<Method>>)
    requires Inv(h, roots, {}, {}) && s in h && h[s].Leaf? && |values| == WIDTH
    ensures Inv(h[s := h[s].(values := values)], roots, {}, {})
  {
    var h' := h[s := h[s].(values := values)];
    forall q | q in h' ensures CellOk(h', q, {}) && CountOk(h', roots, {}, q) {
      assert CellOk(h, q, {}) && CountOk(h, roots, {}, q);
      SameLive(h, {}, h', {}, q);
    }
  }

  lemma SetValueInv(h: Heap, roots: multiset<nat>, s: nat, index: nat, value: Option<Method>)
    requires Inv(h, roots, {}, {}) && s in h && h[s].Leaf? && |h[s].values| == WIDTH
    ensures var h' := h[s := h[s].(values := h[s].values[Digit(0, index) := value])];
            Inv(h', roots, {}, {}) && Private(h, s, {s}) && OutsideKept(h, h', {s})
            && Stored(h, h', s, index, value) && NoNewTargets(h, h')
  {
    var h' := h[s := h[s].(values := h[s].values[Digit(0, index) := value])];
    SetValueCells(h, roots, s, h[s].values[Digit(0, index) := value]);
    forall q, e: Edge | q in h && Points(h', e, q) ensures Live(h, q, {}) != {} {
      assert e in Live(h, q, {});
    }
  }

  function WithKid(h: Heap, s: nat, i: nat, b: Ref): Heap
    requires s in h && h[s].Inner? && i < |h[s].kids|
  {
    h[s := h[s].(kids := h[s].kids[i := b])]
  }

  lemma RootsBack(roots: multiset<nat>, more: multiset<nat>, c: nat)
    requires c in roots
    ensures more <= roots + more - multiset{c} && roots + more - multiset{c} - more == roots - multiset{c}
  {
  }

  lemma OneCount(h: Heap, h': Heap, r: Ref, s: nat, c: nat)
    requires r != At(s) && r != At(c)
    requires r.Blank? ==> h' == h
    requires r.At? ==> r.id in h && h' == h[r.id := WithCount(h[r.id], h[r.id].refCount - 1)]
    requires s in h && c in h
    ensures CountsOnly(h, h') && h'[s] == h[s] && h'[c] == h[c]
  {
  }

  lemma OnlySlot(h: Heap, roots: multiset<nat>, e: Edge, c: nat)
    requires Exact(h, roots, {}) && c in h && h[c].refCount == 1 && Points(h, e, c)
    ensures c !in roots
    ensures forall f: Edge :: Points(h, f, c) ==> f == e
  {
    assert CountOk(h, roots, {}, c);
    var es := Live(h, c, {});
    assert e in es;
    assert |es - {e}| == |es| - 1;
    forall f: Edge | Points(h, f, c) ensures f == e {
      assert f in es;
    }
  }

  lemma AlreadyOwn(h: Heap, roots: multiset<nat>, s: nat, i: nat)
    requires Inv(h, roots, {}, {}) && s in h && h[s].Inner? && i < WIDTH && |h[s].kids| == WIDTH
    requires h[s].kids[i].At? && h[s].kids[i].id in h && h[h[s].kids[i].id].refCount <= 1
    ensures Prepared(h, h, s, i, h[s].kids[i].id)
  {
    assert CellOk(h, s, {});
    OnlySlot(h, roots, (s, i), h[s].kids[i].id);
  }

  lemma AdoptInv(h: Heap, roots: multiset<nat>, s: nat, i: nat, c: nat)
    requires Inv(h, roots, {}, {}) && c in roots
    requires s in h && h[s].Inner? && i < |h[s].kids| && h[s].kids[i] != At(c)
    requires Level(h[s].shift) && Shift(h[c]) == h[s].shift - 8
    ensures var h' := WithKid(h, s, i, At(c));
            Inv(h', roots + Handle(h[s].kids[i]) - multiset{c}, {}, {})
            && h[s].kids[i] != At(s) && (h[s].kids[i].At? ==> h'[h[s].kids[i].id] == h[h[s].kids[i].id]) && h'[c] == h[c]
  {
    var h' := WithKid(h, s, i, At(c));
    SetKidTyped(h, s, i, At(c), h');
    SetKid(h, roots, s, i, At(c), h');
    assert CellOk(h, s, {});
  }

  lemma Adopted(h0: Heap, ha: Heap, hb: Heap, h1: Heap, roots: multiset<nat>, s: nat, i: nat, c: nat)
    requires Typed(h0, {}) && Typed(ha, {}) && Inv(h1, roots, {}, {})
    requires s in h0 && h0.Keys <= ha.Keys && DataKept(h0, ha) && ha[s] == h0[s] && c !in h0 && ha.Keys == h0.Keys + {c}
    requires KidSet(ha, s, i, At(c), hb) && CountsOnly(hb, h1) && h1[s] == hb[s]
    requires SameData(ha[c], Load(ha, h0[s].kids[i])) && Level(h0[s].shift) && Shift(ha[c]) == h0[s].shift - 8
    requires h1[c].refCount == 1
    ensures Prepared(h0, h1, s, i, c)
  {
    assert CellOk(h0, s, {});
    SetKidTyped(ha, s, i, At(c), hb);
    OnlySlot(h1, roots, (s, i), c);
    forall q | q in h0 && q != s ensures SameData(h0[q], h1[q]) {
      assert SameData(h0[q], ha[q]) && SameData(hb[q], h1[q]);
    }
    forall q, e: Edge | q in h0 && Points(h1, e, q) ensures Live(h0, q, {}) != {} {
      AdoptedPoints(h0, ha, hb, h1, s, i, c, e, q);
    }
    forall j: nat ensures Walk(h1, At(s), j) == Walk(h0, At(s), j) {
      WalkGrown(h0, ha, At(s), j);
      forall k: nat { WalkCopy(ha, At(c), h0[s].kids[i], k); }
      WalkSetKid(ha, s, i, At(c), hb, At(s), j);
      WalkGrown(hb, h1, At(s), j);
    }
    forall j: nat ensures Holds(h1, At(s), j) <==> Holds(h0, At(s), j) || (h0[s].shift == 16 && Digit(16, j) == i) {
      AdoptedHolds(h0, ha, hb, h1, s, i, c, j);
    }
  }

  lemma AdoptedHolds(h0: Heap, ha: Heap, hb: Heap, h1: Heap, s: nat, i: nat, c: nat, j: nat)
    requires Typed(h0, {}) && Typed(h1, {})
    requires s in h0 && h0.Keys <= ha.Keys && DataKept(h0, ha) && ha[s] == h0[s] && c !in h0 && ha.Keys == h0.Keys + {c}
    requires KidSet(ha, s, i, At(c), hb) && CountsOnly(hb, h1) && h1[s] == hb[s]
    requires SameData(ha[c], Load(ha, h0[s].kids[i])) && Level(h0[s].shift)
    ensures Holds(h1, At(s), j) <==> Holds(h0, At(s), j) || (h0[s].shift == 16 && Digit(16, j) == i)
  {
    HoldsIs(h0, s, j);
    HoldsIs(h1, s, j);
    assert CellOk(h0, s, {}) && CellOk(h1, s, {});
    if h0[s].shift == 24 {
      var k := h1[s].kids[Digit(24, j)];
      if k.At? {
        assert CellOk(h1, k.id, {}) && SameData(hb[k.id], h1[k.id]);
        if k.id != c && k.id != s { assert SameData(h0[k.id], ha[k.id]); }
      }
      if h0[s].kids[i].At? { assert SameData(h0[h0[s].kids[i].id], ha[h0[s].kids[i].id]); }
    }
  }

  lemma AdoptedPoints(h0: Heap, ha: Heap, hb: Heap, h1: Heap, s: nat, i: nat, c: nat, e: Edge, q: nat)
    requires s in h0 && c !in h0 && ha.Keys == h0.Keys + {c} && DataKept(h0, ha) && ha[s] == h0[s]
    requires KidSet(ha, s, i, At(c), hb) && CountsOnly(hb, h1)
    requires Typed(h0, {}) && SameData(ha[c], Load(ha, h0[s].kids[i]))
    requires q in h0 && Points(h1, e, q)
    ensures Live(h0, q, {}) != {}
  {
    assert CellOk(h0, s, {});
    assert SameData(hb[e.0], h1[e.0]) && Points(hb, e, q);
    var f := if e.0 == c && h0[s].kids[i].At? then (h0[s].kids[i].id, e.1) else e;
    assert f.0 in h0 && SameData(h0[f.0], ha[f.0]);
    assert f in Live(h0, q, {});
  }

  lemma RootedKept(h: Heap, h': Heap, roots: multiset<nat>, roots': multiset<nat>)
    requires Rooted(h, roots) && NoNewTargets(h, h') && Inv(h', roots', {}, {})
    requires forall p :: p in roots' ==> roots'[p] == 1 && (p in roots || h'[p].refCount == 1)
    ensures Rooted(h', roots')
  {
    forall p | p in roots' ensures RootOk(h', roots', p) {
      assert CountOk(h', roots', {}, p);
      if p in roots {
        assert RootOk(h, roots, p);
        forall e ensures e !in Live(h', p, {}) { assert Live(h, p, {}) == {}; }
        assert Live(h', p, {}) == {};
      }
    }
  }

  /** Nothing was allocated, and what was not freed holds the same data. */
  ghost predicate Shrunk(h0: Heap, h: Heap) {
    h.Keys <= h0.Keys && DataKept(h0, h)
  }

  lemma ShrunkTrans(h0: Heap, h1: Heap, h2: Heap)
    requires Shrunk(h0, h1) && Shrunk(h1, h2)
    ensures Shrunk(h0, h2)
  {
  }

  ghost function SlotsBefore(p: nat, i: nat): set<Edge> {
    set j: nat | j < i :: (p, j)
  }

  lemma FreshSlot(dead: set<Edge>, zombies: set<nat>, p: nat, i: nat)
    requires forall e :: e in dead ==> e.0 in zombies
    requires p !in zombies
    ensures (p, i) !in dead + SlotsBefore(p, i)
    ensures dead + SlotsBefore(p, i) + {(p, i)} == dead + SlotsBefore(p, i + 1)
  {
  }

  lemma DropInv(h: Heap, roots: multiset<nat>, dead: set<Edge>, zombies: set<nat>, p: nat)
    requires Inv(h, roots, dead, zombies) && p in roots
    ensures p in h && p !in zombies
    ensures var h' := h[p := WithCount(h[p], h[p].refCount - 1)];
            Inv(h', roots - multiset{p}, dead, if h'[p].refCount == 0 then zombies + {p} else zombies)
  {
    assert CountOk(h, roots, dead, p);
    Drop(h, roots, dead, p, h[p := WithCount(h[p], h[p].refCount - 1)]);
  }

  lemma KidToRoot(h0: Heap, h: Heap, roots: multiset<nat>, dead: set<Edge>, zombies: set<nat>, p: nat, i: nat)
    requires Inv(h, roots, dead, zombies) && Shrunk(h0, h)
    requires p in zombies && p in h0 && h0[p].Inner? && i < WIDTH && (p, i) !in dead
    ensures h[p].Inner? && h[p].shift == h0[p].shift
    ensures |h[p].kids| == WIDTH && Level(h[p].shift) && RefOk(h, h[p].kids[i], h[p].shift - 8)
    ensures Inv(h, roots + Handle(h[p].kids[i]), dead + {(p, i)}, zombies)
  {
    assert CellOk(h, p, dead) && SameData(h0[p], h[p]);
    forall q | q in h ensures CellOk(h, q, dead + {(p, i)}) { assert CellOk(h, q, dead); }
    match h[p].kids[i]
    case At(c) =>
      SlotToRoot(h, roots, dead, (p, i), c);
    case Blank(_) =>
      assert roots + Handle(h[p].kids[i]) == roots;
      forall q | q in h ensures CountOk(h, roots, dead + {(p, i)}, q) {
        assert CountOk(h, roots, dead, q);
        SameLive(h, dead, h, dead + {(p, i)}, q);
      }
  }

  lemma FreeInv(h0: Heap, h: Heap, roots: multiset<nat>, dead: set<Edge>, zombies: set<nat>, p: nat, h': Heap)
    requires Inv(h, roots, if p in h && h[p].Inner? then dead + SlotsBefore(p, WIDTH) else dead, zombies + {p})
    requires p !in zombies && (forall e :: e in dead ==> e.0 in zombies)
    requires h' == h - {p} && Shrunk(h0, h)
    ensures Inv(h', roots, dead, zombies) && Shrunk(h0, h')
  {
    var all := if h[p].Inner? then dead + SlotsBefore(p, WIDTH) else dead;
    assert CountOk(h, roots, all, p);
    assert CellOk(h, p, all);
    FreeTyped(h, all, p, h', dead);
    Free(h, roots, all, p, h', dead);
  }

  /** The copy `p` is in place and its pointers before slot `i` have been counted. */
  ghost predicate Copying(h1: Heap, h: Heap, roots: multiset<nat>, p: nat, i: nat) {
    && p in h1
    && (h1[p].Inner? ==> |h1[p].kids| == WIDTH)
    && Typed(h, {})
    && Exact(h, roots, SlotsFrom(p, i))
    && CountsOnly(h1, h)
    && (forall q :: q in h1 && Shift(h1[q]) >= Shift(h1[p]) ==> h[q] == h1[q])
    && forall q :: q in h ==> h[q].refCount >= 1
  }

  lemma CopyStart(h: Heap, roots: multiset<nat>, s: nat, p: nat)
    requires Inv(h, roots, {}, {}) && s in h && p !in h
    ensures var h1 := h[p := WithCount(h[s], 1)]; Copying(h1, h1, roots + multiset{p}, p, 0)
  {
    assert CellOk(h, s, {});
    AllocateTyped(h, p, WithCount(h[s], 1));
    RefCounts.Allocate(h, roots, p, WithCount(h[s], 1), SlotsFrom(p, 0));
  }

  lemma CopyStep(h1: Heap, h: Heap, roots: multiset<nat>, p: nat, i: nat)
    requires Copying(h1, h, roots, p, i) && h[p].Inner? && i < WIDTH
    ensures var child := h[p].kids[i];
            if child.At?
            then child.id in h && Copying(h1, h[child.id := WithCount(h[child.id], h[child.id].refCount + 1)], roots, p, i + 1)
            else Copying(h1, h, roots, p, i + 1)
  {
    assert CellOk(h, p, {});
    NextSlot(p, i);
    match h[p].kids[i]
    case Blank(_) =>
      SkipBlank(h, roots, SlotsFrom(p, i), (p, i));
    case At(c) =>
      Retain(h, roots, SlotsFrom(p, i), (p, i), c, h[c := WithCount(h[c], h[c].refCount + 1)]);
  }

  lemma NoPending(h: Heap, roots: multiset<nat>, p: nat)
    requires p in h && (h[p].Inner? ==> |h[p].kids| == WIDTH)
    requires Exact(h, roots, SlotsFrom(p, if h[p].Inner? then WIDTH else 0))
    ensures Exact(h, roots, {})
  {
    var from := if h[p].Inner? then WIDTH else 0;
    forall q | q in h ensures CountOk(h, roots, {}, q) {
      assert CountOk(h, roots, SlotsFrom(p, from), q);
      SameLive(h, SlotsFrom(p, from), h, {}, q);
    }
  }
}
