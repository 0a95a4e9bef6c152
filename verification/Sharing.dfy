/** Why writing through one handle leaves every other trie alone. */
module Sharing {
  import opened Basics
  import opened Trie
  import opened RefCounts

  /** Indices that a node of this shift does not tell apart. */
  predicate Agrees(shift: nat, i: nat, j: nat) {
    i % Capacity(shift) == j % Capacity(shift)
  }

  lemma AgreesBelow(shift: nat, i: nat, j: nat)
    requires i < Capacity(shift) && j < Capacity(shift)
    ensures Agrees(shift, i, j) <==> i == j
  {
  }

  lemma AgreesStep(shift: nat, i: nat, j: nat)
    requires Level(shift)
    ensures Agrees(shift, i, j) <==> Digit(shift, i) == Digit(shift, j) && Agrees(shift - 8, i, j)
  {
    assert Capacity(shift - 8) == Stride(shift);
    Split(shift, i);
    Split(shift, j);
  }

  lemma Split(shift: nat, i: nat)
    requires Level(shift)
    ensures i % Capacity(shift) == Digit(shift, i) * Stride(shift) + i % Stride(shift)
  {
    var s := Stride(shift);
    var q, r := i / s, i % s;
    var a, b := q / WIDTH, q % WIDTH;
    if shift == 8 {
      assert i == 0x10000 * a + (b * 0x100 + r);
    } else if shift == 16 {
      assert i == 0x1000000 * a + (b * 0x10000 + r);
    } else {
      assert i == 0x100000000 * a + (b * 0x1000000 + r);
    }
  }

  /** The nodes of `good` point only to each other and to static nodes. */
  ghost predicate Closed(h: Heap, good: set<nat>) {
    forall q, i {:trigger h[q].kids[i]} ::
      q in good && q in h && h[q].Inner? && 0 <= i < |h[q].kids| && h[q].kids[i].At? ==> h[q].kids[i].id in good
  }

  ghost predicate SameOn(h: Heap, h': Heap, good: set<nat>) {
    && good <= h.Keys && good <= h'.Keys
    && forall q {:trigger SameData(h[q], h'[q])} :: q in good ==> SameData(h[q], h'[q])
  }

  lemma {:induction false} WalkSame(h: Heap, h': Heap, good: set<nat>, r: Ref, j: nat)
    requires Typed(h, {}) && RefOk(h, r, Shift(Load(h, r)))
    requires Closed(h, good) && SameOn(h, h', good)
    requires r.At? ==> r.id in good
    ensures Walk(h', r, j) == Walk(h, r, j) && Holds(h', r, j) == Holds(h, r, j)
    decreases Shift(Load(h, r))
  {
    if r.At? {
      assert CellOk(h, r.id, {}) && SameData(h[r.id], h'[r.id]);
    }
    if Level(Shift(Load(h, r))) {
      WalkSame(h, h', good, Kid(h, r, Digit(Shift(Load(h, r)), j)), j);
      LoadSame(h, h', good, Kid(h, r, Digit(Shift(Load(h, r)), j)));
    }
  }

  lemma LoadSame(h: Heap, h': Heap, good: set<nat>, r: Ref)
    requires SameOn(h, h', good) && (r.At? ==> r.id in good)
    ensures Shift(Load(h', r)) == Shift(Load(h, r))
  {
    if r.At? { assert SameData(h[r.id], h'[r.id]); }
  }

  /** Allocating nodes and adjusting counts changes no lookup. */
  lemma WalkGrown(h: Heap, h': Heap, r: Ref, j: nat)
    requires Typed(h, {}) && RefOk(h, r, Shift(Load(h, r)))
    requires h.Keys <= h'.Keys && DataKept(h, h')
    ensures Walk(h', r, j) == Walk(h, r, j) && Holds(h', r, j) == Holds(h, r, j)
  {
    forall q, i | q in h && h[q].Inner? && 0 <= i < |h[q].kids| && h[q].kids[i].At?
      ensures h[q].kids[i].id in h.Keys
    {
      assert CellOk(h, q, {});
    }
    WalkSame(h, h', h.Keys, r, j);
  }

  /** Nodes with the same data answer alike. */
  lemma WalkCopy(h: Heap, r: Ref, r': Ref, j: nat)
    requires SameData(Load(h, r), Load(h, r'))
    ensures Walk(h, r, j) == Walk(h, r', j) && (r.At? == r'.At? ==> Holds(h, r, j) == Holds(h, r', j))
  {
  }

  /** Replacing a child by one that answers alike changes no lookup. */
  lemma {:induction false} WalkSetKid(h: Heap, s: nat, i: nat, b: Ref, h': Heap, r: Ref, j: nat)
    requires Typed(h, {}) && RefOk(h, r, Shift(Load(h, r)))
    requires KidSet(h, s, i, b, h') && Level(h[s].shift) && RefOk(h, b, h[s].shift - 8)
    requires forall k: nat :: Walk(h, b, k) == Walk(h, h[s].kids[i], k)
    ensures Walk(h', r, j) == Walk(h, r, j)
    decreases Shift(Load(h, r))
  {
    if r.At? { assert CellOk(h, r.id, {}); }
    if Level(Shift(Load(h, r))) {
      var k := Kid(h, r, Digit(Shift(Load(h, r)), j));
      if r == At(s) && Digit(h[s].shift, j) == i {
        WalkSetKid(h, s, i, b, h', b, j);
      } else {
        WalkSetKid(h, s, i, b, h', k, j);
      }
    }
  }

  /** The nodes that an insertion below `s` may write: apart from `s` itself, each is
      a lower node to which only other such nodes point. */
  ghost predicate Private(h: Heap, s: nat, path: set<nat>) {
    && s in h && s in path
    && (forall q :: q in path && q != s ==> q in h && Shift(h[q]) < Shift(h[s]))
    && forall q, e: Edge {:trigger Points(h, e, q)} :: q in path && q != s && Points(h, e, q) ==> e.0 in path
  }

  ghost predicate OutsideKept(h: Heap, h': Heap, path: set<nat>) {
    && h.Keys <= h'.Keys
    && (forall q :: q in h ==> Shift(h'[q]) == Shift(h[q]))
    && forall q {:trigger SameData(h[q], h'[q])} :: q in h && q !in path ==> SameData(h[q], h'[q])
  }

  /** A node of this shift finds `i` and `j` in the same table of depth 16. */
  predicate Together(shift: nat, i: nat, j: nat) {
    shift <= 8 || (Digit(16, i) == Digit(16, j) && (shift == 16 || Digit(24, i) == Digit(24, j)))
  }

  /** `value` is now the answer at `index`, and every other answer below `s` is the old one;
      what was allocated still is, and with it the way to `index`. */
  ghost predicate Stored(h: Heap, h': Heap, s: nat, index: nat, value: Option<Method>)
    requires s in h
  {
    && (forall j: nat :: Walk(h', At(s), j) == if Agrees(Shift(h[s]), j, index) then value else Walk(h, At(s), j))
    && forall j: nat :: Holds(h', At(s), j) <==> Holds(h, At(s), j) || Together(Shift(h[s]), j, index)
  }

  /** Whatever is not on the path, and cannot reach it, answers as before. */
  lemma OutsideSame(h: Heap, h': Heap, s: nat, path: set<nat>, r: Ref, below: nat, j: nat)
    requires Typed(h, {}) && RefOk(h, r, Shift(Load(h, r)))
    requires Private(h, s, path) && OutsideKept(h, h', path)
    requires r.At? ==> r.id !in path && Shift(h[r.id]) < below
    requires forall e: Edge :: Points(h, e, s) ==> e.0 in h && Shift(h[e.0]) >= below
    ensures Walk(h', r, j) == Walk(h, r, j) && Holds(h', r, j) == Holds(h, r, j)
  {
    var good := set q | q in h && q !in path && Shift(h[q]) < below;
    forall q, i | q in good && h[q].Inner? && 0 <= i < |h[q].kids| && h[q].kids[i].At?
      ensures h[q].kids[i].id in good
    {
      assert CellOk(h, q, {});
      assert Points(h, (q, i), h[q].kids[i].id);
    }
    WalkSame(h, h', good, r, j);
  }

  /** No node to which nothing pointed has become a child. */
  ghost predicate NoNewTargets(h: Heap, h': Heap) {
    forall q, e: Edge {:trigger Points(h', e, q)} :: q in h && Points(h', e, q) ==> Live(h, q, {}) != {}
  }

  lemma NoNewTargetsTrans(h0: Heap, h1: Heap, h2: Heap)
    requires NoNewTargets(h0, h1) && NoNewTargets(h1, h2) && h0.Keys <= h1.Keys
    ensures NoNewTargets(h0, h2)
  {
    forall q, e: Edge | q in h0 && Points(h2, e, q) ensures Live(h0, q, {}) != {} {
      var f :| f in Live(h1, q, {});
      assert Points(h1, f, q);
    }
  }

  /** `s.kids[i]` is now a node of its own; nothing else has changed. */
  ghost predicate Prepared(h0: Heap, h1: Heap, s: nat, i: nat, c: nat) {
    && s in h0 && h0[s].Inner? && Level(h0[s].shift) && |h0[s].kids| == WIDTH && i < WIDTH
    && h0.Keys <= h1.Keys
    && (forall q {:trigger SameData(h0[q], h1[q])} :: q in h0 && q != s ==> SameData(h0[q], h1[q]))
    && h1[s] == h0[s].(kids := h0[s].kids[i := At(c)])
    && c in h1 && h1[c].refCount == 1
    && (forall e: Edge :: Points(h1, e, c) ==> e == (s, i))
    && NoNewTargets(h0, h1)
    && (forall j: nat :: Walk(h1, At(s), j) == Walk(h0, At(s), j))
    && forall j: nat :: Holds(h1, At(s), j) <==> Holds(h0, At(s), j) || (h0[s].shift == 16 && Digit(16, j) == i)
  }

  /** The nodes written below `c`, seen from the heap before `c` was made private. */
  lemma PathUp(h0: Heap, h1: Heap, h2: Heap, s: nat, i: nat, c: nat, below: set<nat>)
    requires Typed(h1, {}) && Prepared(h0, h1, s, i, c)
    requires Private(h1, c, below) && OutsideKept(h1, h2, below)
    ensures Private(h0, s, below * h0.Keys + {s}) && OutsideKept(h0, h2, below * h0.Keys + {s})
    ensures s !in below
  {
    var path := below * h0.Keys + {s};
    assert CellOk(h1, s, {});
    forall q | q in h0 ensures Shift(h1[q]) == Shift(h0[q]) {
      assert q != s ==> SameData(h0[q], h1[q]);
    }
    forall q, e: Edge | q in path && q != s && Points(h0, e, q) ensures e.0 in path {
      assert e.0 != s ==> SameData(h0[e.0], h1[e.0]);
      if e != (s, i) { assert Points(h1, e, q); }
    }
    forall q | q in h0 && q !in path ensures SameData(h0[q], h2[q]) {
      assert SameData(h0[q], h1[q]) && SameData(h1[q], h2[q]);
    }
  }

  /** Storing below the private child stores below `s`. */
  lemma StoreUp(h0: Heap, h1: Heap, h2: Heap, s: nat, i: nat, c: nat, below: set<nat>, index: nat, value: Option<Method>, j: nat)
    requires Typed(h1, {}) && Typed(h2, {}) && Prepared(h0, h1, s, i, c)
    requires Private(h1, c, below) && OutsideKept(h1, h2, below)
    requires Stored(h1, h2, c, index, value) && i == Digit(h0[s].shift, index)
    ensures Walk(h2, At(s), j) == if Agrees(Shift(h0[s]), j, index) then value else Walk(h0, At(s), j)
    ensures Holds(h2, At(s), j) <==> Holds(h0, At(s), j) || Together(Shift(h0[s]), j, index)
  {
    PathUp(h0, h1, h2, s, i, c, below);
    assert CellOk(h1, s, {}) && SameData(h1[s], h2[s]);
    var shift := h0[s].shift;
    AgreesStep(shift, j, index);
    WalkStep(h1, At(s), j);
    WalkStep(h2, At(s), j);
    if Digit(shift, j) != i {
      var k := Kid(h1, At(s), Digit(shift, j));
      if k.At? { assert Points(h1, (s, Digit(shift, j)), k.id); }
      OutsideSame(h1, h2, c, below, k, shift, j);
    }
  }
}
