/** Moving a class to another superclass: unthreading, rethreading, and what it
    does to superclass chains and to the metaclass square. */
module Moving {
  import opened Basics
  import opened Hierarchy

  function Removed(xs: seq<nat>, k: nat): seq<nat>
    requires k < |xs|
  {
    xs[..k] + xs[k + 1..]
  }

  /** Taking `x`, the element at `k`, out of the subclass list of `p`. */
  ghost predicate Unthreaded(cls: Store, p: nat, xs: seq<nat>, k: nat, cls': Store) {
    && p in cls && k < |xs| && xs[k] in cls
    && if k == 0 then cls' == cls[p := cls[p].(subclassList := cls[xs[0]].siblingClass)]
       else xs[k - 1] in cls && cls' == cls[xs[k - 1] := cls[xs[k - 1]].(siblingClass := cls[xs[k]].siblingClass)]
  }

  lemma UnthreadedList(cls: Store, p: nat, xs: seq<nat>, k: nat, cls': Store)
    requires Unthreaded(cls, p, xs, k, cls') && Threaded(cls, p, xs) && cls[p].resolved && p !in xs
    ensures Threaded(cls', p, Removed(xs, k))
  {
    var ys := Removed(xs, k);
    assert SiblingOk(cls, xs, k);
    forall i | 0 <= i < |ys| ensures SiblingOk(cls', ys, i) {
      var j := if i < k then i else i + 1;
      assert SiblingOk(cls, xs, j) && ys[i] == xs[j];
    }
  }

  lemma UnthreadForest(cls: Store, rank: map<nat, nat>, kids: map<nat, seq<nat>>, detached: set<nat>, p: nat, k: nat, cls': Store)
    requires Forest(cls, kids, detached) && Ranked(cls, rank) && p in cls && cls[p].resolved
    requires Unthreaded(cls, p, kids[p], k, cls')
    ensures Forest(cls', kids[p := Removed(kids[p], k)], detached + {kids[p][k]})
  {
    var xs := kids[p];
    var kids', detached' := kids[p := Removed(xs, k)], detached + {xs[k]};
    assert Threaded(cls, p, xs);
    assert p !in xs by { assert SuperOk(cls, rank, p); }
    assert xs[k] in xs && (k > 0 ==> xs[k - 1] in xs);
    forall q | q in cls' ensures Threaded(cls', q, kids'[q]) {
      assert Threaded(cls, q, kids[q]);
      if q == p {
        UnthreadedList(cls, p, xs, k, cls');
      } else {
        forall i | 0 <= i < |kids[q]| ensures SiblingOk(cls', kids[q], i) {
          assert SiblingOk(cls, kids[q], i) && kids[q][i] in kids[q];
        }
      }
    }
    forall q, c | q in cls' ensures c in kids'[q] <==> IsKid(cls', detached', q, c) {
      assert c in kids[q] <==> IsKid(cls, detached, q, c);
      if q == p { RemovedMembers(xs, k); }
    }
  }

  lemma RemovedMembers(xs: seq<nat>, k: nat)
    requires k < |xs| && Distinct(xs)
    ensures forall c {:trigger c in Removed(xs, k)} :: c in Removed(xs, k) <==> c in xs && c != xs[k]
  {
    forall c | c in xs && c != xs[k] ensures c in Removed(xs, k) {
      var j :| 0 <= j < |xs| && xs[j] == c;
      assert Removed(xs, k)[if j < k then j else j - 1] == c;
    }
  }

  lemma UnthreadCore(cls: Store, rank: map<nat, nat>, owner: map<nat, nat>, head: Option<nat>, pending: seq<nat>,
                     kids: map<nat, seq<nat>>, detached: set<nat>, p: nat, k: nat, cls': Store)
    requires Core(cls, rank, owner, head, pending, kids, detached) && p in cls && cls[p].resolved
    requires Unthreaded(cls, p, kids[p], k, cls')
    ensures Core(cls', rank, owner, head, pending, kids[p := Removed(kids[p], k)], detached + {kids[p][k]})
    ensures SameShape(cls, cls')
    ensures MetaSupers(cls) ==> MetaSupers(cls')
    ensures MetaRoots(cls, rank) ==> MetaRoots(cls', rank)
  {
    UnthreadForest(cls, rank, kids, detached, p, k, cls');
    assert kids[p][k] in kids[p] && (k > 0 ==> kids[p][k - 1] in kids[p]);
    SameShapeKeeps(cls, cls', rank, owner);
    forall c | c in cls ensures IdleOk(cls', pending, c) { assert IdleOk(cls, pending, c); }
    forall i | 0 <= i < |pending| ensures WaitOk(cls', pending, i) { assert WaitOk(cls, pending, i); }
  }

  lemma RehungForest(cls: Store, kids: map<nat, seq<nat>>, detached: set<nat>, x: nat, p: nat, isa: nat, cls': Store)
    requires Forest(cls, kids, detached) && Rehung(cls, x, p, isa, cls') && x in detached
    ensures Forest(cls', kids, detached)
  {
    forall q | q in cls' ensures Threaded(cls', q, kids[q]) {
      assert Threaded(cls, q, kids[q]);
      forall i | 0 <= i < |kids[q]| ensures SiblingOk(cls', kids[q], i) { assert SiblingOk(cls, kids[q], i); }
    }
    forall q, c | q in cls' ensures c in kids[q] <==> IsKid(cls', detached, q, c) {
      assert c in kids[q] <==> IsKid(cls, detached, q, c);
    }
  }

  /** `x` gets a new superclass, and `isa`, while it is on no list. */
  lemma RehungCore(cls: Store, rank: map<nat, nat>, owner: map<nat, nat>, head: Option<nat>, pending: seq<nat>,
                   kids: map<nat, seq<nat>>, detached: set<nat>, x: nat, p: nat, isa: nat, cls': Store)
    requires Core(cls, rank, owner, head, pending, kids, detached)
    requires Rehung(cls, x, p, isa, cls') && x in detached && p in rank && !Desc(cls, rank, p, x)
    ensures Core(cls', Reranked(cls, rank, x, p), owner, head, pending, kids, detached)
  {
    RehungRanked(cls, rank, x, p, isa, cls');
    RehungForest(cls, kids, detached, x, p, isa, cls');
    RehungPairs(cls, owner, x, p, isa, cls');
    forall d | d in cls ensures IdleOk(cls', pending, d) { assert IdleOk(cls, pending, d); }
    forall i | 0 <= i < |pending| ensures WaitOk(cls', pending, i) { assert WaitOk(cls, pending, i); }
  }

  lemma RehungPairs(cls: Store, owner: map<nat, nat>, x: nat, p: nat, isa: nat, cls': Store)
    requires Pairs(cls, owner) && Rehung(cls, x, p, isa, cls')
    ensures Pairs(cls', owner)
  {
    forall d | d in cls ensures PairOk(cls', owner, d) {
      assert PairOk(cls, owner, d);
    }
  }

  /** What a resolved metaclass is below is the metaclass of something that its class is below,
      or the root class. */
  lemma {:induction false} MetaDesc(cls: Store, rank: map<nat, nat>, owner: map<nat, nat>, m: nat, x: nat)
    requires Pairs(cls, owner) && Ranked(cls, rank) && MetaSupers(cls)
    requires m in cls && cls[m].meta && cls[m].resolved && Desc(cls, rank, m, x)
    ensures x in cls && m in owner && owner[m] in cls
    ensures cls[x].meta ==> x in owner && Desc(cls, rank, owner[m], owner[x])
    ensures !cls[x].meta ==> cls[x].super == None
    decreases if m in rank then rank[m] else 0
  {
    assert PairOk(cls, owner, m) && SuperOk(cls, rank, m);
    var o := owner[m];
    assert PairOk(cls, owner, o) && MetaSuperOk(cls, o) && SuperOk(cls, rank, o);
    if m != x {
      match cls[o].super
      case None =>
        assert x == o;
      case Some(q) =>
        assert PairOk(cls, owner, q);
        MetaDesc(cls, rank, owner, cls[q].isa, x);
    }
  }

  /** The root above `d` once `c` has been put below `s`. */
  lemma {:induction false} RootMoved(cls: Store, rank: map<nat, nat>, cls': Store, rank': map<nat, nat>, c: nat, s: nat, d: nat)
    requires Ranked(cls, rank) && Ranked(cls', rank') && cls.Keys == cls'.Keys && c in cls && s in cls && d in cls
    requires !cls[d].meta && !cls[s].meta && cls'[c].super == Some(s) && !Desc(cls, rank, s, c)
    requires forall e {:trigger cls'[e]} :: e in cls && !cls[e].meta && e != c ==> cls'[e].super == cls[e].super
    ensures Root(cls', rank', d) == if Desc(cls, rank, d, c) then Root(cls, rank, s) else Root(cls, rank, d)
    decreases Desc(cls, rank, d, c), if d in rank then rank[d] else 0
  {
    assert SuperOk(cls, rank, d) && SuperOk(cls', rank', d);
    if d == c {
      RootMoved(cls, rank, cls', rank', c, s, s);
    } else if cls[d].super.Some? {
      RootMoved(cls, rank, cls', rank', c, s, cls[d].super.value);
    }
  }

  /** Only `c` and its metaclass have moved. */
  ghost predicate Moved(cls: Store, cls': Store, c: nat, s: nat) {
    && cls'.Keys == cls.Keys
    && c in cls && s in cls && cls[c].isa in cls && cls[s].isa in cls
    && (forall d {:trigger cls'[d]} :: d in cls ==>
          && cls'[d].meta == cls[d].meta && cls'[d].resolved == cls[d].resolved
          && (d != c && d != cls[c].isa ==> cls'[d].super == cls[d].super)
          && (d != cls[c].isa ==> cls'[d].isa == cls[d].isa))
    && cls'[c].super == Some(s)
    && cls'[cls[c].isa].super == Some(cls[s].isa)
    && cls'[cls[c].isa].isa == cls[cls[s].isa].isa
  }

  lemma MovedMetaSupers(cls: Store, rank: map<nat, nat>, owner: map<nat, nat>, cls': Store, c: nat, s: nat)
    requires Pairs(cls, owner) && Ranked(cls, rank) && MetaSupers(cls) && Moved(cls, cls', c, s)
    requires !cls[c].meta && !cls[s].meta
    ensures MetaSupers(cls')
  {
    assert PairOk(cls, owner, c) && PairOk(cls, owner, s);
    forall d | d in cls' ensures MetaSuperOk(cls', d) {
      assert MetaSuperOk(cls, d) && PairOk(cls, owner, d) && SuperOk(cls, rank, d);
    }
  }

  /** The move re-roots the metaclass of `c` but not those of its subclasses, so the
      square survives exactly when the root stays the same or there are none. */
  lemma MovedMetaRoots(cls: Store, rank: map<nat, nat>, owner: map<nat, nat>, cls': Store, rank': map<nat, nat>, c: nat, s: nat)
    requires Pairs(cls, owner) && Ranked(cls, rank) && MetaRoots(cls, rank) && Moved(cls, cls', c, s)
    requires Ranked(cls', rank') && !Desc(cls, rank, s, c)
    requires !cls[c].meta && !cls[s].meta && cls[c].resolved && cls[s].resolved
    ensures MetaRoots(cls', rank') <==>
            (Root(cls, rank, c) == Root(cls, rank, s)
             || forall d :: d in cls && !cls[d].meta && cls[d].resolved && Desc(cls, rank, d, c) ==> d == c)
  {
    assert PairOk(cls, owner, c) && PairOk(cls, owner, s) && MetaRootOk(cls, rank, s);
    var same := Root(cls, rank, c) == Root(cls, rank, s);
    forall d | d in cls && !cls[d].meta && cls[d].resolved
      ensures MetaRootOk(cls', rank', d) <==> (Desc(cls, rank, d, c) && d != c ==> same)
    {
      assert MetaRootOk(cls, rank, d) && PairOk(cls, owner, d);
      RootMoved(cls, rank, cls', rank', c, s, d);
      RootSame(cls, rank, cls, rank, s);
      RootSame(cls, rank, cls, rank, d);
      assert PairOk(cls, owner, Root(cls, rank, d)) && PairOk(cls, owner, Root(cls, rank, s));
      if Desc(cls, rank, d, c) { RootBelow(cls, rank, d, c); }
    }
  }

  lemma {:induction false} RootBelow(cls: Store, rank: map<nat, nat>, d: nat, c: nat)
    requires Ranked(cls, rank) && d in cls && Desc(cls, rank, d, c)
    ensures c in cls && Root(cls, rank, d) == Root(cls, rank, c)
    decreases if d in rank then rank[d] else 0
  {
    assert SuperOk(cls, rank, d);
    if d != c { RootBelow(cls, rank, cls[d].super.value, c); }
  }

  /** Roots 0 and 2, a class 4 below `above` and its subclass 6, with their metaclasses.
      The metaclass of class 4 has `isa` set to `metaRoot`. */
  function TwoRoots(above: nat, metaAbove: nat, metaRoot: nat): Store {
    map[0 := Class(1, None, None, None, true, false), 1 := Class(1, Some(0), None, None, true, true),
        2 := Class(3, None, None, None, true, false), 3 := Class(3, Some(2), None, None, true, true),
        4 := Class(5, Some(above), None, None, true, false), 5 := Class(metaRoot, Some(metaAbove), None, None, true, true),
        6 := Class(7, Some(4), None, None, true, false), 7 := Class(1, Some(5), None, None, true, true)]
  }

  function Heights(): map<nat, nat> {
    map[0 := 0, 1 := 1, 2 := 0, 3 := 1, 4 := 2, 5 := 3, 6 := 4, 7 := 5]
  }

  lemma TwoRootsRanked(root: nat, metaRoot: nat)
    requires (root == 0 && metaRoot == 1) || (root == 2 && metaRoot == 3)
    ensures Ranked(TwoRoots(root, metaRoot, metaRoot), Heights())
    ensures Root(TwoRoots(root, metaRoot, metaRoot), Heights(), 6) == root
    ensures Root(TwoRoots(root, metaRoot, metaRoot), Heights(), 4) == root
  {
    var cls := TwoRoots(root, metaRoot, metaRoot);
    forall c | c in cls ensures SuperOk(cls, Heights(), c) { }
    assert Root(cls, Heights(), root) == root;
    assert Root(cls, Heights(), 4) == Root(cls, Heights(), root);
    assert Root(cls, Heights(), 6) == Root(cls, Heights(), 4);
  }

  lemma TwoRootsSquare()
    requires Ranked(TwoRoots(0, 1, 1), Heights())
    ensures MetaRoots(TwoRoots(0, 1, 1), Heights())
  {
    TwoRootsRanked(0, 1);
    var cls := TwoRoots(0, 1, 1);
    forall c | c in cls ensures MetaRootOk(cls, Heights(), c) { }
  }

  /** Moving class 4 from root 0 to root 2 leaves the metaclass of class 6 an instance of
      the old root's metaclass. */
  lemma SquareLost()
    ensures Moved(TwoRoots(0, 1, 1), TwoRoots(2, 3, 3), 4, 2) && Ranked(TwoRoots(0, 1, 1), Heights()) && Ranked(TwoRoots(2, 3, 3), Heights())
    ensures MetaRoots(TwoRoots(0, 1, 1), Heights()) && !MetaRoots(TwoRoots(2, 3, 3), Heights())
  {
    TwoRootsRanked(0, 1);
    TwoRootsRanked(2, 3);
    TwoRootsSquare();
    assert !MetaRootOk(TwoRoots(2, 3, 3), Heights(), 6);
  }
}
