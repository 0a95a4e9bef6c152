/** Whether initializing a class keeps all tables in agreement, told from the hierarchy before
    the call, when the classes on the way up may be unresolved and their metaclasses unlinked. */
module Foreseeing {
  import opened Basics
  import opened Hierarchy
  import opened Moving
  import opened MethodLookup
  import opened Installing
  import opened Building
  import opened Spreading
  import opened Settling
  import opened Starting

  /** What the metaclass of `c` will answer once `c` is resolved. */
  ghost function MetaWalk(cls: Store, rank: map<nat, nat>, methods: MethodLists, c: nat, sel: nat): Option<Method>
    requires Known(cls, rank, methods) && c in cls
    decreases if c in rank then rank[c] else 0
  {
    assert SuperOk(cls, rank, c);
    var own := MetaOwn(cls, methods, c, sel);
    if own.Some? then own else AboveMeta(cls, rank, methods, c, sel)
  }

  ghost function MetaOwn(cls: Store, methods: MethodLists, c: nat, sel: nat): Option<Method>
    requires c in cls
  {
    if cls[c].isa in methods then Own(methods[cls[c].isa], sel) else None
  }

  /** What it will inherit. */
  ghost function AboveMeta(cls: Store, rank: map<nat, nat>, methods: MethodLists, c: nat, sel: nat): Option<Method>
    requires Known(cls, rank, methods) && c in cls
    decreases if c in rank then rank[c] else 0, 0
  {
    assert SuperOk(cls, rank, c);
    if cls[c].super.Some? then MetaWalk(cls, rank, methods, cls[c].super.value, sel) else Walk(cls, rank, methods, c, sel)
  }

  /** Neither the class nor its metaclass repeats an implementation that it overrides. */
  ghost predicate PairDistinctive(cls: Store, rank: map<nat, nat>, methods: MethodLists, c: nat)
    requires Known(cls, rank, methods) && c in cls
  {
    && Distinctive(cls, rank, methods, c)
    && forall sel: nat {:trigger MetaOwn(cls, methods, c, sel)} ::
         MetaOwn(cls, methods, c, sel).Some? && AboveMeta(cls, rank, methods, c, sel).Some? ==>
           AboveMeta(cls, rank, methods, c, sel).value.imp != MetaOwn(cls, methods, c, sel).value.imp
  }

  /** No class from `c` up that has no table yet does. */
  ghost predicate WayDistinctive(cls: Store, rank: map<nat, nat>, methods: MethodLists, hs: map<nat, nat>, c: nat)
    requires Known(cls, rank, methods) && c in cls
  {
    forall a {:trigger PairDistinctive(cls, rank, methods, a)} :: a in cls && Desc(cls, rank, c, a) && a !in hs ==> PairDistinctive(cls, rank, methods, a)
  }

  lemma {:induction false} MetaWalkIs(cls: Store, rank: map<nat, nat>, owner: map<nat, nat>, methods: MethodLists, c: nat, sel: nat)
    requires Known(cls, rank, methods) && Pairs(cls, owner) && MetaSupers(cls) && c in cls && !cls[c].meta && cls[c].resolved
    ensures cls[c].isa in cls && Walk(cls, rank, methods, cls[c].isa, sel) == MetaWalk(cls, rank, methods, c, sel)
    ensures cls[cls[c].isa].super.Some? && cls[cls[c].isa].super.value in cls
    ensures Walk(cls, rank, methods, cls[cls[c].isa].super.value, sel) == AboveMeta(cls, rank, methods, c, sel)
    decreases if c in rank then rank[c] else 0
  {
    assert PairOk(cls, owner, c) && SuperOk(cls, rank, c) && MetaSuperOk(cls, c) && SuperOk(cls, rank, cls[c].isa);
    if cls[c].super.Some? { MetaWalkIs(cls, rank, owner, methods, cls[c].super.value, sel); }
  }

  lemma PairIs(cls: Store, rank: map<nat, nat>, owner: map<nat, nat>, methods: MethodLists, c: nat)
    requires Known(cls, rank, methods) && Pairs(cls, owner) && MetaSupers(cls) && c in cls && !cls[c].meta && cls[c].resolved
    ensures cls[c].isa in cls
    ensures PairDistinctive(cls, rank, methods, c) <==> Distinctive(cls, rank, methods, c) && Distinctive(cls, rank, methods, cls[c].isa)
  {
    assert PairOk(cls, owner, c);
    forall sel: nat
      ensures MetaOwn(cls, methods, c, sel) == Own(methods[cls[c].isa], sel)
      ensures cls[cls[c].isa].super.Some? && cls[cls[c].isa].super.value in cls
      ensures Walk(cls, rank, methods, cls[cls[c].isa].super.value, sel) == AboveMeta(cls, rank, methods, c, sel)
    {
      MetaWalkIs(cls, rank, owner, methods, c, sel);
    }
  }

  /** All that matters is the way up from `c`. */
  ghost predicate SameWay(cls: Store, rank: map<nat, nat>, cls': Store, c: nat)
    requires Ranked(cls, rank) && c in cls
  {
    && cls'.Keys == cls.Keys
    && forall e {:trigger Desc(cls, rank, c, e)} :: e in cls && Desc(cls, rank, c, e) ==> cls'[e].super == cls[e].super && cls'[e].isa == cls[e].isa
  }

  lemma SameWayUp(cls: Store, rank: map<nat, nat>, cls': Store, c: nat, a: nat)
    requires Ranked(cls, rank) && c in cls && SameWay(cls, rank, cls', c) && a in cls && Desc(cls, rank, c, a)
    ensures SameWay(cls, rank, cls', a)
  {
    forall e | e in cls && Desc(cls, rank, a, e) ensures cls'[e].super == cls[e].super && cls'[e].isa == cls[e].isa { DescTrans(cls, rank, c, a, e); }
  }

  lemma {:induction false} MetaWalkSame(cls: Store, rank: map<nat, nat>, cls': Store, rank': map<nat, nat>, methods: MethodLists, c: nat, sel: nat)
    requires Known(cls, rank, methods) && Known(cls', rank', methods) && c in cls && SameWay(cls, rank, cls', c)
    ensures MetaWalk(cls', rank', methods, c, sel) == MetaWalk(cls, rank, methods, c, sel)
    ensures AboveMeta(cls', rank', methods, c, sel) == AboveMeta(cls, rank, methods, c, sel) && MetaOwn(cls', methods, c, sel) == MetaOwn(cls, methods, c, sel)
    decreases if c in rank then rank[c] else 0
  {
    assert SuperOk(cls, rank, c) && Desc(cls, rank, c, c);
    if cls[c].super.Some? {
      var s := cls[c].super.value;
      assert Desc(cls, rank, s, s) && Desc(cls, rank, c, s);
      SameWayUp(cls, rank, cls', c, s);
      MetaWalkSame(cls, rank, cls', rank', methods, s, sel);
    } else {
      WalkSame(cls, rank, methods, cls', rank', methods, c, sel);
    }
  }

  lemma PairSame(cls: Store, rank: map<nat, nat>, cls': Store, rank': map<nat, nat>, methods: MethodLists, c: nat)
    requires Known(cls, rank, methods) && Known(cls', rank', methods) && c in cls && SameWay(cls, rank, cls', c)
    ensures PairDistinctive(cls', rank', methods, c) <==> PairDistinctive(cls, rank, methods, c)
  {
    assert SuperOk(cls, rank, c) && Desc(cls, rank, c, c);
    forall sel: nat
      ensures AboveMeta(cls', rank', methods, c, sel) == AboveMeta(cls, rank, methods, c, sel) && MetaOwn(cls', methods, c, sel) == MetaOwn(cls, methods, c, sel)
      ensures cls[c].super.Some? ==> Walk(cls', rank', methods, cls[c].super.value, sel) == Walk(cls, rank, methods, cls[c].super.value, sel)
    {
      MetaWalkSame(cls, rank, cls', rank', methods, c, sel);
      if cls[c].super.Some? {
        var s := cls[c].super.value;
        assert Desc(cls, rank, s, s) && Desc(cls, rank, c, s);
        SameWayUp(cls, rank, cls', c, s);
        WalkSame(cls, rank, methods, cls', rank', methods, s, sel);
      }
    }
  }

  lemma WaySame(cls: Store, rank: map<nat, nat>, cls': Store, rank': map<nat, nat>, methods: MethodLists, hs: map<nat, nat>, c: nat)
    requires Known(cls, rank, methods) && Known(cls', rank', methods) && c in cls && SameWay(cls, rank, cls', c)
    ensures WayDistinctive(cls', rank', methods, hs, c) <==> WayDistinctive(cls, rank, methods, hs, c)
  {
    forall a | a in cls
      ensures Desc(cls, rank, c, a) <==> Desc(cls', rank', c, a)
      ensures Desc(cls, rank, c, a) ==> (PairDistinctive(cls', rank', methods, a) <==> PairDistinctive(cls, rank, methods, a))
    {
      DescSame(cls, rank, cls', rank', c, a);
      if Desc(cls, rank, c, a) {
        SameWayUp(cls, rank, cls', c, a);
        PairSame(cls, rank, cls', rank', methods, a);
      }
    }
  }

  /** The metaclasses above that of `c` are those of the classes above `c`, and then its root. */
  lemma {:induction false} WayUpMeta(cls: Store, rank: map<nat, nat>, owner: map<nat, nat>, c: nat, a: nat)
    requires Ranked(cls, rank) && Pairs(cls, owner) && MetaSupers(cls) && c in cls && !cls[c].meta && cls[c].resolved && Desc(cls, rank, c, a)
    ensures a in cls && cls[c].isa in cls && cls[a].isa in cls && Desc(cls, rank, cls[c].isa, cls[a].isa)
    decreases if c in rank then rank[c] else 0
  {
    assert PairOk(cls, owner, c) && SuperOk(cls, rank, c) && MetaSuperOk(cls, c);
    if c != a { WayUpMeta(cls, rank, owner, cls[c].super.value, a); }
  }

  lemma {:induction false} RootUp(cls: Store, rank: map<nat, nat>, owner: map<nat, nat>, c: nat, x: nat)
    requires Ranked(cls, rank) && Pairs(cls, owner) && MetaSupers(cls) && c in cls && !cls[c].meta && cls[c].resolved
    requires cls[c].isa in cls && Desc(cls, rank, cls[c].isa, x) && x in cls && !cls[x].meta
    ensures Desc(cls, rank, c, x)
    decreases if c in rank then rank[c] else 0
  {
    assert PairOk(cls, owner, c) && SuperOk(cls, rank, c) && MetaSuperOk(cls, c) && SuperOk(cls, rank, cls[c].isa);
    if cls[c].super.Some? {
      assert PairOk(cls, owner, cls[c].super.value);
      RootUp(cls, rank, owner, cls[c].super.value, x);
    } else {
      assert Desc(cls, rank, c, x);
    }
  }

  lemma WayOwner(cls: Store, rank: map<nat, nat>, owner: map<nat, nat>, hs: map<nat, nat>, c: nat, x: nat) returns (a: nat)
    requires Ranked(cls, rank) && Pairs(cls, owner) && MetaSupers(cls) && Paired(cls, hs) && c in cls && !cls[c].meta && cls[c].resolved
    requires OnWay(cls, rank, c, x) && x !in hs
    ensures x in cls && a in cls && Desc(cls, rank, c, a) && a !in hs && (x == a || x == cls[a].isa)
  {
    assert PairOk(cls, owner, c);
    if Desc(cls, rank, c, x) {
      DescUp(cls, rank, c, x);
      a := x;
    } else {
      DescUp(cls, rank, cls[c].isa, x);
      MetaDesc(cls, rank, owner, cls[c].isa, x);
      if cls[x].meta {
        a := owner[x];
        assert PairOk(cls, owner, x) && PairedAt(cls, hs, a);
      } else {
        RootUp(cls, rank, owner, c, x);
        a := x;
      }
    }
  }

  /** The condition on the classes that have got tables is one on the way up. */
  lemma WayIs(cls: Store, rank: map<nat, nat>, owner: map<nat, nat>, methods: MethodLists, hs: map<nat, nat>, hs': map<nat, nat>, c: nat)
    requires Known(cls, rank, methods) && Pairs(cls, owner) && MetaSupers(cls) && Paired(cls, hs)
    requires c in cls && !cls[c].meta && cls[c].resolved && Raised(cls, rank, hs, hs', c)
    ensures AllDistinctive(cls, rank, methods, hs, hs') <==> WayDistinctive(cls, rank, methods, hs, c)
  {
    if WayDistinctive(cls, rank, methods, hs, c) {
      forall x | x in hs' && x !in hs && x in cls ensures Distinctive(cls, rank, methods, x) {
        var a := WayOwner(cls, rank, owner, hs, c, x);
        DescUp(cls, rank, c, a);
        assert PairDistinctive(cls, rank, methods, a);
        PairIs(cls, rank, owner, methods, a);
      }
    }
    if AllDistinctive(cls, rank, methods, hs, hs') {
      forall a | a in cls && Desc(cls, rank, c, a) && a !in hs ensures PairDistinctive(cls, rank, methods, a) {
        DescUp(cls, rank, c, a);
        WayUpMeta(cls, rank, owner, c, a);
        PairIs(cls, rank, owner, methods, a);
        assert OnWay(cls, rank, c, a) && OnWay(cls, rank, c, cls[a].isa) && PairedAt(cls, hs, a);
        assert Distinctive(cls, rank, methods, a) && Distinctive(cls, rank, methods, cls[a].isa);
      }
    }
  }

  // -- Who is sent `+initialize` --

  /** The classes from `c` up that have no table yet and whose metaclass answers the selector,
      superclasses first. */
  ghost function SentTo(cls: Store, rank: map<nat, nat>, methods: MethodLists, hs: map<nat, nat>, c: nat, sel: nat): seq<nat>
    requires Known(cls, rank, methods) && c in cls
    decreases if c in rank then rank[c] else 0
  {
    assert SuperOk(cls, rank, c);
    if c in hs then []
    else (if cls[c].super.Some? then SentTo(cls, rank, methods, hs, cls[c].super.value, sel) else [])
         + if MetaWalk(cls, rank, methods, c, sel).Some? then [c] else []
  }

  lemma {:induction false} SentSame(cls: Store, rank: map<nat, nat>, cls': Store, rank': map<nat, nat>, methods: MethodLists, hs: map<nat, nat>, c: nat, sel: nat)
    requires Known(cls, rank, methods) && Known(cls', rank', methods) && c in cls && SameWay(cls, rank, cls', c)
    ensures SentTo(cls', rank', methods, hs, c, sel) == SentTo(cls, rank, methods, hs, c, sel)
    decreases if c in rank then rank[c] else 0
  {
    assert SuperOk(cls, rank, c) && Desc(cls, rank, c, c);
    MetaWalkSame(cls, rank, cls', rank', methods, c, sel);
    if cls[c].super.Some? {
      var s := cls[c].super.value;
      assert Desc(cls, rank, s, s) && Desc(cls, rank, c, s);
      SameWayUp(cls, rank, cls', c, s);
      SentSame(cls, rank, cls', rank', methods, hs, s, sel);
    }
  }

  /** The table of `d` answers for the selectors for which the walk finds something, and holds methods
      from above. */
  ghost predicate Good(cls: Store, rank: map<nat, nat>, methods: MethodLists, tabs: map<nat, Entries>, d: nat)
    requires Known(cls, rank, methods)
  {
    && d in cls && d in tabs && FromAbove(cls, rank, methods, tabs[d], d)
    && forall sel: nat {:trigger Covers(cls, rank, methods, tabs, d, sel)} :: Covers(cls, rank, methods, tabs, d, sel)
  }

  lemma AgreedGood(cls: Store, rank: map<nat, nat>, methods: MethodLists, tabs: map<nat, Entries>, d: nat)
    requires Known(cls, rank, methods) && d in cls && d in tabs && AgreeAt(cls, rank, methods, tabs, d)
    ensures Good(cls, rank, methods, tabs, d)
  {
    AgreedFromAbove(cls, rank, methods, tabs, d);
    forall sel: nat ensures Covers(cls, rank, methods, tabs, d, sel) { assert Entry(tabs[d], sel) == Walk(cls, rank, methods, d, sel); }
  }

  lemma ForeignAbove(cls: Store, rank: map<nat, nat>, methods: MethodLists, tabs: map<nat, Entries>, c: nat, sel: nat) returns (a: nat)
    requires Known(cls, rank, methods) && OneOwner(methods) && c in cls && sel in InhOf(cls, tabs, c)
    requires cls[c].super.Some? ==> Good(cls, rank, methods, tabs, cls[c].super.value)
    ensures a in cls && Desc(cls, rank, c, a) && InhOf(cls, tabs, c)[sel] in Flat(methods[a]) && InhOf(cls, tabs, c)[sel] !in Flat(methods[c])
  {
    assert SuperOk(cls, rank, c);
    var s := cls[c].super.value;
    a :| a in cls && Desc(cls, rank, s, a) && tabs[s][sel] in Flat(methods[a]);
    DescUp(cls, rank, s, a);
  }

  lemma WithGood(cls: Store, rank: map<nat, nat>, methods: MethodLists, tabs: map<nat, Entries>, c: nat)
    requires Known(cls, rank, methods) && OneOwner(methods) && c in cls
    requires cls[c].super.Some? ==> Good(cls, rank, methods, tabs, cls[c].super.value)
    ensures Good(cls, rank, methods, WithTable(cls, methods, tabs, c), c)
  {
    var inh, tabs' := InhOf(cls, tabs, c), WithTable(cls, methods, tabs, c);
    forall k | k in inh ensures inh[k] !in Flat(methods[c]) { var a := ForeignAbove(cls, rank, methods, tabs, c, k); }
    forall sel: nat ensures Covers(cls, rank, methods, tabs', c, sel) {
      if cls[c].super.Some? { assert Covers(cls, rank, methods, tabs, cls[c].super.value, sel); }
      WithCovers(cls, rank, methods, tabs, c, sel);
    }
    forall sel | sel in tabs'[c] ensures exists a :: a in cls && Desc(cls, rank, c, a) && tabs'[c][sel] in Flat(methods[a]) {
      if sel in inh { var a := ForeignAbove(cls, rank, methods, tabs, c, sel); }
      OverlayAt(inh, Flat(methods[c]), sel);
      assert Entry(tabs'[c], sel) == Some(tabs'[c][sel]) && Desc(cls, rank, c, c);
    }
  }

  lemma GoodKept(cls: Store, rank: map<nat, nat>, methods: MethodLists, tabs: map<nat, Entries>, tabs': map<nat, Entries>, d: nat)
    requires Known(cls, rank, methods) && Good(cls, rank, methods, tabs, d) && d in tabs' && tabs'[d] == tabs[d]
    ensures Good(cls, rank, methods, tabs', d)
  {
    forall sel: nat ensures Covers(cls, rank, methods, tabs', d, sel) { assert Covers(cls, rank, methods, tabs, d, sel); }
  }

  /** A class and its metaclass have tables, or neither has. */
  ghost predicate PairsIn(cls: Store, tabs: map<nat, Entries>) {
    forall d {:trigger cls[d].isa} :: d in cls && !cls[d].meta ==> (d in tabs <==> cls[d].isa in tabs)
  }

  /** The tables that are made on the way up answer for the right selectors, even if they repeat
      implementations. */
  lemma {:induction false} MadeGood(cls: Store, rank: map<nat, nat>, owner: map<nat, nat>, methods: MethodLists, tabs: map<nat, Entries>, region: set<nat>, c: nat)
    requires Known(cls, rank, methods) && OneOwner(methods) && Pairs(cls, owner) && MetaSupers(cls) && Closed(cls, region) && PairsIn(cls, tabs)
    requires AgreeOutside(cls, rank, methods, tabs, region)
    requires c in cls && cls[c].resolved && !cls[c].meta && c !in region && cls[c].isa !in region
    ensures Good(cls, rank, methods, Made(cls, rank, methods, tabs, c), c) && Good(cls, rank, methods, Made(cls, rank, methods, tabs, c), cls[c].isa)
    decreases if c in rank then rank[c] else 0
  {
    assert PairOk(cls, owner, c) && SuperOk(cls, rank, c) && MetaSuperOk(cls, c);
    var m := cls[c].isa;
    if c in tabs {
      assert AgreeAt(cls, rank, methods, tabs, c) && AgreeAt(cls, rank, methods, tabs, m);
      AgreedGood(cls, rank, methods, tabs, c);
      AgreedGood(cls, rank, methods, tabs, m);
      return;
    }
    var above := tabs;
    if cls[c].super.Some? {
      var s := cls[c].super.value;
      OutsideUp(cls, rank, owner, region, c);
      MadeGood(cls, rank, owner, methods, tabs, region, s);
      above := Made(cls, rank, methods, tabs, s);
    }
    PairGood(cls, rank, owner, methods, above, c);
  }

  lemma PairGood(cls: Store, rank: map<nat, nat>, owner: map<nat, nat>, methods: MethodLists, tabs: map<nat, Entries>, c: nat)
    requires Known(cls, rank, methods) && OneOwner(methods) && Pairs(cls, owner) && MetaSupers(cls) && c in cls && cls[c].resolved && !cls[c].meta
    requires cls[c].super.Some? ==> cls[c].super.value in cls && Good(cls, rank, methods, tabs, cls[c].super.value) && Good(cls, rank, methods, tabs, cls[cls[c].super.value].isa)
    ensures Good(cls, rank, methods, PairMade(cls, methods, tabs, c), c) && Good(cls, rank, methods, PairMade(cls, methods, tabs, c), cls[c].isa)
  {
    assert PairOk(cls, owner, c) && SuperOk(cls, rank, c) && MetaSuperOk(cls, c);
    var m, tabs1 := cls[c].isa, WithTable(cls, methods, tabs, c);
    WithGood(cls, rank, methods, tabs, c);
    if cls[c].super.Some? {
      assert PairOk(cls, owner, cls[c].super.value);
      GoodKept(cls, rank, methods, tabs, tabs1, cls[cls[c].super.value].isa);
    }
    WithGood(cls, rank, methods, tabs1, m);
    GoodKept(cls, rank, methods, tabs1, PairMade(cls, methods, tabs, c), c);
  }

  /** Whoever is sent `+initialize` can be told from the method lists. */
  lemma {:induction false} SendsIs(cls: Store, rank: map<nat, nat>, owner: map<nat, nat>, methods: MethodLists, hs: map<nat, nat>, tabs: map<nat, Entries>,
                                   region: set<nat>, c: nat, sel: nat)
    requires Known(cls, rank, methods) && OneOwner(methods) && Pairs(cls, owner) && MetaSupers(cls) && Closed(cls, region) && PairsIn(cls, tabs)
    requires AgreeOutside(cls, rank, methods, tabs, region) && (forall d :: d in hs <==> d in tabs)
    requires c in cls && cls[c].resolved && !cls[c].meta && c !in region && cls[c].isa !in region
    ensures Sends(cls, rank, methods, tabs, c, sel) == SentTo(cls, rank, methods, hs, c, sel)
    decreases if c in rank then rank[c] else 0
  {
    assert SuperOk(cls, rank, c);
    MadeGood(cls, rank, owner, methods, tabs, region, c);
    MetaWalkIs(cls, rank, owner, methods, c, sel);
    assert Covers(cls, rank, methods, Made(cls, rank, methods, tabs, c), cls[c].isa, sel);
    if cls[c].super.Some? {
      OutsideUp(cls, rank, owner, region, c);
      SendsIs(cls, rank, owner, methods, hs, tabs, region, cls[c].super.value, sel);
    }
  }
}
