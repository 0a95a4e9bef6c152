/** With exact counts, the allocated nodes are exactly those some handle reaches. */
module Garbage {
  import opened Basics
  import opened Trie
  import opened RefCounts

  ghost predicate Reaches(h: Heap, p: nat, q: nat)
    decreases if p in h then Shift(h[p]) else 0
  {
    && p in h
    && (p == q
        || (h[p].Inner? && exists i :: 0 <= i < |h[p].kids| && Steps(h, p, i) && Reaches(h, h[p].kids[i].id, q)))
  }

  ghost predicate Steps(h: Heap, p: nat, i: int)
    requires p in h && h[p].Inner? && 0 <= i < |h[p].kids|
  {
    h[p].kids[i].At? && h[p].kids[i].id in h && Shift(h[h[p].kids[i].id]) < h[p].shift
  }

  lemma {:induction false} ReachesOn(h: Heap, p: nat, e: Edge, q: nat)
    requires Typed(h, {}) && Reaches(h, p, e.0) && Points(h, e, q)
    ensures Reaches(h, p, q)
    decreases if p in h then Shift(h[p]) else 0
  {
    if p == e.0 {
      assert CellOk(h, p, {});
      assert Steps(h, p, e.1) && Reaches(h, q, q);
    } else {
      var i :| 0 <= i < |h[p].kids| && Steps(h, p, i) && Reaches(h, h[p].kids[i].id, e.0);
      ReachesOn(h, h[p].kids[i].id, e, q);
    }
  }

  /** No leak: every allocated node is reached from a handle. */
  lemma {:induction false} NoLeak(h: Heap, roots: multiset<nat>, q: nat)
    requires Inv(h, roots, {}, {}) && q in h
    ensures exists t :: t in roots && Reaches(h, t, q)
    decreases 24 - Shift(h[q])
  {
    assert CountOk(h, roots, {}, q);
    if q in roots {
      assert Reaches(h, q, q);
    } else {
      assert h[q].refCount >= 1;
      var e :| e in Live(h, q, {});
      assert CellOk(h, e.0, {});
      NoLeak(h, roots, e.0);
      var t :| t in roots && Reaches(h, t, e.0);
      ReachesOn(h, t, e, q);
    }
  }

  lemma {:induction false} ReachesSame(h: Heap, h': Heap, p: nat, q: nat)
    requires Typed(h', {}) && p in h' && h'.Keys <= h.Keys && DataKept(h, h')
    ensures Reaches(h, p, q) <==> Reaches(h', p, q)
    decreases if p in h' then Shift(h'[p]) else 0
  {
    assert SameData(h[p], h'[p]) && CellOk(h', p, {});
    if h'[p].Inner? {
      forall i | 0 <= i < WIDTH && h'[p].kids[i].At?
        ensures Steps(h, p, i) && Steps(h', p, i)
        ensures Reaches(h, h[p].kids[i].id, q) <==> Reaches(h', h'[p].kids[i].id, q)
      {
        assert SameData(h[h[p].kids[i].id], h'[h[p].kids[i].id]);
        ReachesSame(h, h', h'[p].kids[i].id, q);
      }
    }
  }

  /** A destruction frees exactly the nodes that no remaining handle reaches. */
  lemma FreedExactly(h: Heap, h': Heap, roots': multiset<nat>, q: nat)
    requires Inv(h', roots', {}, {}) && h'.Keys <= h.Keys && DataKept(h, h') && q in h
    ensures q in h' <==> exists t :: t in roots' && Reaches(h, t, q)
  {
    if q in h' {
      NoLeak(h', roots', q);
      var t :| t in roots' && Reaches(h', t, q);
      ReachesSame(h, h', t, q);
    }
    if t :| t in roots' && Reaches(h, t, q) {
      ReachesSame(h, h', t, q);
      ReachedAllocated(h', t, q);
    }
  }

  lemma {:induction false} ReachedAllocated(h: Heap, p: nat, q: nat)
    requires Reaches(h, p, q)
    ensures q in h
    decreases if p in h then Shift(h[p]) else 0
  {
    if p != q {
      var i :| 0 <= i < |h[p].kids| && Steps(h, p, i) && Reaches(h, h[p].kids[i].id, q);
      ReachedAllocated(h, h[p].kids[i].id, q);
    }
  }
}
