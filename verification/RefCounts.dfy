/** Exact reference counts over a heap of shared trie nodes.

    `roots` counts the handles held outside the heap.  Two parameters describe a
    destruction in progress: `dead` holds the pointers that have already given
    their reference back, and `zombies` the nodes whose count has reached zero and
    whose children are being released. */
module RefCounts {
  import opened Basics
  import opened Trie

  /** Slot `e` holds a pointer to `p`. */
  ghost predicate Points(h: Heap, e: Edge, p: nat) {
    && e.0 in h
    && h[e.0].Inner?
    && e.1 < |h[e.0].kids|
    && h[e.0].kids[e.1] == At(p)
  }

  ghost function Slots(h: Heap): set<Edge> {
    set q: nat, i: nat | q in h && i < (match h[q] case Inner(_, _, ks) => |ks| case Leaf(_, _) => 0) :: (q, i)
  }

  /** The slots that hold a counted pointer to `p`. */
  ghost function Live(h: Heap, p: nat, dead: set<Edge>): (es: set<Edge>)
    ensures forall e :: e in es <==> Points(h, e, p) && e !in dead
  {
    assert forall e :: Points(h, e, p) ==> (e.0, e.1) in Slots(h);
    set e | e in Slots(h) && Points(h, e, p) && e !in dead
  }

  ghost predicate CountOk(h: Heap, roots: multiset<nat>, dead: set<Edge>, p: nat)
    requires p in h
  {
    h[p].refCount == |Live(h, p, dead)| + roots[p]
  }

  /** Each count is the number of parents plus the number of handles. */
  ghost predicate Exact(h: Heap, roots: multiset<nat>, dead: set<Edge>) {
    forall p {:trigger CountOk(h, roots, dead, p)} :: p in h ==> CountOk(h, roots, dead, p)
  }

  ghost predicate Inv(h: Heap, roots: multiset<nat>, dead: set<Edge>, zombies: set<nat>) {
    && Typed(h, dead)
    && Exact(h, roots, dead)
    && (forall p :: p in roots ==> p in h)
    && zombies <= h.Keys
    && (forall p {:trigger h[p].refCount} :: p in h ==> if p in zombies then h[p].refCount == 0 else h[p].refCount >= 1)
    && (forall e :: e in dead ==> e.0 in zombies)
  }

  function WithCount(c: Cell, n: int): Cell {
    match c
    case Leaf(_, vs) => Leaf(n, vs)
    case Inner(s, _, ks) => Inner(s, n, ks)
  }

  /** Equal up to the reference count. */
  predicate SameData(c: Cell, d: Cell) {
    WithCount(c, 0) == WithCount(d, 0)
  }

  /** Every surviving node holds what it held. */
  ghost predicate DataKept(h0: Heap, h: Heap) {
    forall p :: p in h && p in h0 ==> SameData(h0[p], h[p])
  }

  /** Two heaps count the same pointers to `p`. */
  lemma SameLive(h: Heap, dead: set<Edge>, h': Heap, dead': set<Edge>, p: nat)
    requires forall e :: Points(h, e, p) && e !in dead <==> Points(h', e, p) && e !in dead'
    ensures Live(h, p, dead) == Live(h', p, dead')
  {
  }

  /** `h'` counts exactly one pointer to `p` more than `h`. */
  lemma OneMoreLive(h: Heap, dead: set<Edge>, h': Heap, dead': set<Edge>, p: nat, e: Edge)
    requires !(Points(h, e, p) && e !in dead)
    requires Points(h', e, p) && e !in dead'
    requires forall f :: f != e ==> (Points(h, f, p) && f !in dead <==> Points(h', f, p) && f !in dead')
    ensures |Live(h', p, dead')| == |Live(h, p, dead)| + 1
  {
    assert Live(h', p, dead') == Live(h, p, dead) + {e};
  }

  lemma NothingPointsOutside(h: Heap, dead: set<Edge>, p: nat, e: Edge)
    requires Typed(h, dead) && p !in h
    ensures !(Points(h, e, p) && e !in dead)
  {
    if Points(h, e, p) { assert CellOk(h, e.0, dead); }
  }

  /** Only reference counts differ. */
  ghost predicate CountsOnly(h: Heap, h': Heap) {
    h.Keys == h'.Keys && DataKept(h, h')
  }

  lemma CountsOnlyKeeps(h: Heap, h': Heap, dead: set<Edge>)
    requires CountsOnly(h, h') && Typed(h, dead)
    ensures Typed(h', dead)
    ensures forall e, p :: Points(h, e, p) <==> Points(h', e, p)
  {
    forall p | p in h' ensures CellOk(h', p, dead) {
      assert p in h && SameData(h[p], h'[p]);
      assert CellOk(h, p, dead);
    }
  }

  lemma AllocateTyped(h: Heap, p: nat, c: Cell)
    requires Typed(h, {}) && p !in h && CellOk(h[p := c], p, {})
    ensures Typed(h[p := c], {})
  {
    forall q | q in h && q != p ensures CellOk(h[p := c], q, {}) {
      assert CellOk(h, q, {});
    }
  }

  /** One more node, filled with pointers that have not been counted yet. */
  lemma Allocate(h: Heap, roots: multiset<nat>, p: nat, c: Cell, pending: set<Edge>)
    requires Typed(h, {}) && Exact(h, roots, {}) && p !in h && p !in roots
    requires forall e :: e in pending ==> e.0 == p
    requires c.Inner? ==> forall i :: 0 <= i < |c.kids| && c.kids[i].At? ==> (p, i) in pending
    requires c.refCount == 1
    ensures Exact(h[p := c], roots + multiset{p}, pending)
  {
    var h' := h[p := c];
    forall q | q in h'
      ensures CountOk(h', roots + multiset{p}, pending, q)
    {
      assert q != p ==> CountOk(h, roots, {}, q);
      forall e ensures Points(h', e, q) && e !in pending <==> Points(h, e, q) && e !in {} {
      }
      SameLive(h, {}, h', pending, q);
      if q == p {
        forall e ensures !Points(h, e, p) { NothingPointsOutside(h, {}, p, e); }
        assert Live(h', p, pending) == {};
      }
    }
  }

  /** Counting one pending pointer to `c`. */
  lemma Retain(h: Heap, roots: multiset<nat>, pending: set<Edge>, e: Edge, c: nat, h': Heap)
    requires Typed(h, {}) && Exact(h, roots, pending)
    requires e in pending && Points(h, e, c) && c in h
    requires h' == h[c := WithCount(h[c], h[c].refCount + 1)]
    ensures Typed(h', {}) && Exact(h', roots, pending - {e})
  {
    CountsOnlyKeeps(h, h', {});
    forall q | q in h'
      ensures CountOk(h', roots, pending - {e}, q)
    {
      assert CountOk(h, roots, pending, q);
      if q == c {
        OneMoreLive(h, pending, h', pending - {e}, q, e);
      } else {
        SameLive(h, pending, h', pending - {e}, q);
      }
    }
  }

  /** A static child is not counted. */
  lemma SkipBlank(h: Heap, roots: multiset<nat>, pending: set<Edge>, e: Edge)
    requires Exact(h, roots, pending)
    requires forall p :: !Points(h, e, p)
    ensures Exact(h, roots, pending - {e})
  {
    forall q | q in h ensures CountOk(h, roots, pending - {e}, q) {
      assert CountOk(h, roots, pending, q);
      SameLive(h, pending, h, pending - {e}, q);
    }
  }

  /** The pointers of `p` from slot `from` on. */
  ghost function SlotsFrom(p: nat, from: nat): set<Edge> {
    set j: nat | from <= j < WIDTH :: (p, j)
  }

  lemma NextSlot(p: nat, i: nat)
    requires i < WIDTH
    ensures SlotsFrom(p, i) - {(p, i)} == SlotsFrom(p, i + 1)
  {
  }

  /** A slot about to be cleared hands its reference over to a handle. */
  lemma SlotToRoot(h: Heap, roots: multiset<nat>, dead: set<Edge>, e: Edge, c: nat)
    requires Exact(h, roots, dead) && Points(h, e, c) && e !in dead
    ensures Exact(h, roots + multiset{c}, dead + {e})
  {
    forall q | q in h
      ensures CountOk(h, roots + multiset{c}, dead + {e}, q)
    {
      assert CountOk(h, roots, dead, q);
      if q == c {
        OneMoreLive(h, dead + {e}, h, dead, q, e);
      } else {
        SameLive(h, dead, h, dead + {e}, q);
      }
    }
  }

  /** A slot takes over the reference that a handle held. */
  lemma RootToSlot(h: Heap, roots: multiset<nat>, pending: set<Edge>, e: Edge, c: nat)
    requires Exact(h, roots, pending) && Points(h, e, c) && e in pending && c in roots
    ensures Exact(h, roots - multiset{c}, pending - {e})
  {
    forall q | q in h
      ensures CountOk(h, roots - multiset{c}, pending - {e}, q)
    {
      assert CountOk(h, roots, pending, q);
      if q == c {
        OneMoreLive(h, pending, h, pending - {e}, q, e);
      } else {
        SameLive(h, pending, h, pending - {e}, q);
      }
    }
  }

  /** Giving one handle on `p` back. */
  lemma Drop(h: Heap, roots: multiset<nat>, dead: set<Edge>, p: nat, h': Heap)
    requires Typed(h, dead) && Exact(h, roots, dead) && p in roots && p in h
    requires h' == h[p := WithCount(h[p], h[p].refCount - 1)]
    ensures Typed(h', dead) && Exact(h', roots - multiset{p}, dead)
  {
    CountsOnlyKeeps(h, h', dead);
    forall q | q in h'
      ensures CountOk(h', roots - multiset{p}, dead, q)
    {
      assert CountOk(h, roots, dead, q);
      SameLive(h, dead, h', dead, q);
    }
  }

  /** `p` is unreferenced and has released all of its own pointers. */
  ghost predicate Spent(h: Heap, dead: set<Edge>, p: nat) {
    && p in h
    && Live(h, p, dead) == {}
    && (h[p].Inner? ==> forall i :: 0 <= i < |h[p].kids| && h[p].kids[i].At? ==> (p, i) in dead)
  }

  ghost predicate Without(h: Heap, dead: set<Edge>, p: nat, h': Heap, dead': set<Edge>) {
    && h' == h - {p}
    && forall e :: e in dead' <==> e in dead && e.0 != p
  }

  lemma FreeTyped(h: Heap, dead: set<Edge>, p: nat, h': Heap, dead': set<Edge>)
    requires Typed(h, dead) && Spent(h, dead, p) && Without(h, dead, p, h', dead')
    ensures Typed(h', dead')
  {
    forall q | q in h' ensures CellOk(h', q, dead') {
      assert CellOk(h, q, dead);
      if h[q].Inner? {
        forall i | 0 <= i < WIDTH ensures (q, i) in dead' || RefOk(h', h'[q].kids[i], h'[q].shift - 8) {
          assert Points(h, (q, i), p) ==> (q, i) in dead;
        }
      }
    }
  }

  /** Freeing a node that nothing counted points to and whose own pointers are dead. */
  lemma Free(h: Heap, roots: multiset<nat>, dead: set<Edge>, p: nat, h': Heap, dead': set<Edge>)
    requires Exact(h, roots, dead)
    requires Spent(h, dead, p) && Without(h, dead, p, h', dead')
    ensures Exact(h', roots, dead')
  {
    forall q | q in h' ensures CountOk(h', roots, dead', q) {
      assert CountOk(h, roots, dead, q);
      forall e: Edge ensures Points(h, e, q) && e !in dead <==> Points(h', e, q) && e !in dead' {
        assert Points(h, e, q) && e.0 == p ==> h[p].kids[e.1].At?;
      }
      SameLive(h, dead, h', dead', q);
    }
  }

  function Handle(r: Ref): multiset<nat> {
    match r
    case Blank(_) => multiset{}
    case At(p) => multiset{p}
  }

  ghost predicate KidSet(h: Heap, s: nat, i: nat, b: Ref, h': Heap) {
    && s in h && h[s].Inner? && i < |h[s].kids|
    && h' == h[s := h[s].(kids := h[s].kids[i := b])]
  }

  lemma SetKidTyped(h: Heap, s: nat, i: nat, b: Ref, h': Heap)
    requires Typed(h, {}) && KidSet(h, s, i, b, h')
    requires RefOk(h, b, if h[s].shift >= 8 then h[s].shift - 8 else 0)
    ensures Typed(h', {})
  {
    forall q | q in h' ensures CellOk(h', q, {}) { assert CellOk(h, q, {}); }
  }

  lemma SetKidPoints(h: Heap, s: nat, i: nat, b: Ref, h': Heap, e: Edge, q: nat)
    requires KidSet(h, s, i, b, h')
    ensures e != (s, i) ==> (Points(h, e, q) <==> Points(h', e, q))
    ensures Points(h', (s, i), q) <==> b == At(q)
    ensures Points(h, (s, i), q) <==> h[s].kids[i] == At(q)
  {
  }

  /** Overwriting slot `i` of `s`: the slot takes over the handle on the new child
      and leaves a handle on the old one. */
  lemma SetKid(h: Heap, roots: multiset<nat>, s: nat, i: nat, b: Ref, h': Heap)
    requires Exact(h, roots, {})
    requires KidSet(h, s, i, b, h')
    requires b != h[s].kids[i] && Handle(b) <= roots
    ensures Exact(h', roots + Handle(h[s].kids[i]) - Handle(b), {})
  {
    forall q | q in h'
      ensures CountOk(h', roots + Handle(h[s].kids[i]) - Handle(b), {}, q)
    {
      assert CountOk(h, roots, {}, q);
      forall e { SetKidPoints(h, s, i, b, h', e, q); }
      if h[s].kids[i] == At(q) {
        OneMoreLive(h', {}, h, {}, q, (s, i));
      } else if b == At(q) {
        OneMoreLive(h, {}, h', {}, q, (s, i));
      } else {
        SameLive(h, {}, h', {}, q);
      }
    }
  }
}
