/** What holds of the tables while a class moves to another superclass. */
module Rebuilding {
  import opened Basics
  import opened Hierarchy
  import opened SparseArrays
  import opened ClassTables
  import opened Moving
  import opened MethodLookup
  import opened Installing
  import opened Spreading
  import opened Building
  import opened Caching
  import opened Settling
  import opened Dispatch
  import opened Starting
  import opened Relocating

  /** What lies below `c` or below its metaclass. */
  ghost function Region(cls: Store, rank: map<nat, nat>, c: nat, m: nat): set<nat>
    requires Ranked(cls, rank)
  {
    set d | d in cls && (Desc(cls, rank, d, c) || Desc(cls, rank, d, m))
  }

  /** Outside `region`, resolved classes keep their superclass. */
  ghost predicate KeptOutside(cls: Store, cls': Store, region: set<nat>) {
    && cls'.Keys == cls.Keys && Closed(cls', region)
    && (forall d {:trigger cls'[d]} :: d in cls && cls[d].resolved ==>
          && cls'[d].resolved
          && (d !in region ==> cls'[d].super == cls[d].super)
          && (d in region ==> cls'[d].super == cls[d].super || (cls'[d].super.Some? && cls'[d].super.value !in region)))
  }

  /** What lies above a class outside the region is outside it. */
  lemma {:induction false} KeptAbove(cls: Store, rank: map<nat, nat>, cls': Store, rank': map<nat, nat>, region: set<nat>, d: nat, e: nat)
    requires Ranked(cls, rank) && Ranked(cls', rank') && KeptOutside(cls, cls', region) && d in cls && cls[d].resolved && d !in region && Desc(cls, rank, d, e)
    ensures e in cls && cls[e].resolved && e !in region
    decreases if d in rank then rank[d] else 0
  {
    assert SuperOk(cls, rank, d) && SuperOk(cls', rank', d);
    if d != e { KeptAbove(cls, rank, cls', rank', region, cls[d].super.value, e); }
  }

  /** Tables that agreed before the move agree outside the region after it, and inside it
      own methods are in place. */
  lemma HeldMoved(cls: Store, rank: map<nat, nat>, cls': Store, rank': map<nat, nat>, methods: MethodLists, tabs: map<nat, Entries>, region: set<nat>)
    requires InAgreement(cls, rank, methods, tabs) && Known(cls', rank', methods) && KeptOutside(cls, cls', region)
    requires forall d :: d in tabs ==> d in cls && cls[d].resolved
    ensures Held(cls', rank', methods, tabs, region) && AgreeOutside(cls', rank', methods, tabs, region)
  {
    forall d | d in tabs
      ensures HeldAt(cls', rank', methods, tabs, region, d) && (d !in region ==> AgreeAt(cls', rank', methods, tabs, d))
    {
      assert AgreeAt(cls, rank, methods, tabs, d) && SuperOk(cls, rank, d);
      if d in region {
        forall sel: nat | Own(methods[d], sel).Some? ensures Entry(tabs[d], sel) == Own(methods[d], sel) {
          assert Entry(tabs[d], sel) == Walk(cls, rank, methods, d, sel);
        }
      } else {
        forall e | e in cls && Desc(cls, rank, d, e) ensures cls'[e].super == cls[e].super { KeptAbove(cls, rank, cls', rank', region, d, e); }
        forall sel: nat ensures Entry(tabs[d], sel) == Walk(cls', rank', methods, d, sel) {
          WalkSame(cls, rank, methods, cls', rank', methods, d, sel);
        }
        AgreedFromAbove(cls', rank', methods, tabs, d);
      }
    }
  }

  /** The move leaves everything outside the region as it was. */
  lemma RelocatedKept(cls: Store, cls': Store, rank': map<nat, nat>, owner: map<nat, nat>, c: nat, s: nat)
    requires Relocated(cls, cls', c, s) && Ranked(cls', rank') && Pairs(cls', owner) && MetaSupers(cls')
    requires !cls[c].meta && !cls[s].meta && cls[c].resolved
    ensures var m, sm := cls[c].isa, cls'[s].isa; var region := Region(cls', rank', c, m);
            KeptOutside(cls, cls', region) && c in region && m in region && s !in region && sm !in region
  {
    var m, sm := cls[c].isa, cls'[s].isa;
    var region := Region(cls', rank', c, m);
    assert PairOk(cls', owner, c) && PairOk(cls', owner, s) && SuperOk(cls', rank', c) && SuperOk(cls', rank', m);
    assert Desc(cls', rank', c, c) && Desc(cls', rank', m, m);
    if Desc(cls', rank', s, c) { DescUp(cls', rank', s, c); }
    if Desc(cls', rank', s, m) { DescUp(cls', rank', s, m); }
    if Desc(cls', rank', sm, m) { DescUp(cls', rank', sm, m); }
    if Desc(cls', rank', sm, c) { MetaDesc(cls', rank', owner, sm, c); }
  }

  lemma TopDownFrom(cls: Store, rank: map<nat, nat>, uninstalled: nat, depth: nat, selectorCount: nat, hs: map<nat, nat>, ts: map<nat, Table>, top: nat)
    requires Ranked(cls, rank) && SupersFirst(cls, TabsOf(hs, ts)) && Layout(cls, uninstalled, depth, selectorCount, hs, ts)
    requires top in cls && cls[top].super.Some?
    ensures TopDown(cls, rank, hs, top)
  {
    var tabs := TabsOf(hs, ts);
    forall d | d in hs && d in cls && Desc(cls, rank, d, top) ensures cls[d].super.Some? && cls[d].super.value in hs {
      assert d in tabs;
    }
  }

  lemma RebasedTabs(cls: Store, rank: map<nat, nat>, methods: MethodLists, hs: map<nat, nat>, ts: map<nat, Table>, ts': map<nat, Table>, top: nat)
    requires Known(cls, rank, methods) && Separate(hs, ts) && hs.Keys <= cls.Keys && RebasedAll(cls, rank, methods, hs, ts, ts', top)
    ensures RebasedBelow(cls, rank, methods, TabsOf(hs, ts), top, TabsOf(hs, ts'))
  {
    forall d | d in hs ensures RebasedAt(cls, methods, hs, ts, ts', d) || SameTable(hs, ts, ts', d) { }
  }

  lemma {:induction false} RebasedFromAbove(cls: Store, rank: map<nat, nat>, methods: MethodLists, tabs: map<nat, Entries>, top: nat, tabs': map<nat, Entries>, d: nat)
    requires Known(cls, rank, methods) && SupersFirst(cls, tabs) && RebasedBelow(cls, rank, methods, tabs, top, tabs')
    requires top in tabs && top in cls && cls[top].super.Some?
    requires forall e {:trigger OwnOk(methods, tabs, e)} :: e in tabs && e in cls && Desc(cls, rank, e, top) ==> OwnOk(methods, tabs, e)
    requires cls[top].super.value in tabs' && cls[top].super.value in cls && FromAbove(cls, rank, methods, tabs'[cls[top].super.value], cls[top].super.value)
    requires d in tabs && d in cls && Desc(cls, rank, d, top)
    ensures FromAbove(cls, rank, methods, tabs'[d], d)
    decreases if d in rank then rank[d] else 0
  {
    assert SuperOk(cls, rank, d) && OwnOk(methods, tabs, d);
    if d != top { RebasedFromAbove(cls, rank, methods, tabs, top, tabs', cls[d].super.value); }
    var p := cls[d].super.value;
    assert Rebased(methods[d], tabs[d], tabs'[p], tabs'[d]);
    forall sel | sel in tabs'[d] ensures exists a :: a in cls && Desc(cls, rank, d, a) && tabs'[d][sel] in Flat(methods[a]) {
      assert Entry(tabs'[d], sel) == Some(tabs'[d][sel]);
      if Own(methods[d], sel).Some? {
        assert Desc(cls, rank, d, d);
      } else {
        assert sel in tabs'[p];
        var a :| a in cls && Desc(cls, rank, p, a) && tabs'[p][sel] in Flat(methods[a]);
        assert Desc(cls, rank, d, a);
      }
    }
  }

  /** Once the classes above the region have tables, every class with a table has a
      superclass with one. */
  lemma HeldSupersFirst(cls: Store, rank: map<nat, nat>, methods: MethodLists, tabs: map<nat, Entries>, c: nat, m: nat)
    requires Ranked(cls, rank) && Held(cls, rank, methods, tabs, Region(cls, rank, c, m))
    requires c in cls && m in cls && cls[c].super.Some? && cls[m].super.Some? && cls[c].super.value in tabs && cls[m].super.value in tabs
    ensures SupersFirst(cls, tabs)
  {
    var region := Region(cls, rank, c, m);
    forall d | d in tabs ensures d in cls && (cls[d].super.Some? ==> cls[d].super.value in tabs) {
      assert HeldAt(cls, rank, methods, tabs, region, d) && SuperOk(cls, rank, d);
      if d in region && d != c && d != m {
        assert cls[d].super.value in region;
      }
    }
  }

  /** Rebasing everything below `top` takes it out of the region, and loses no agreement. */
  lemma RebuildOnce(cls: Store, rank: map<nat, nat>, methods: MethodLists, tabs: map<nat, Entries>, tabs': map<nat, Entries>, region: set<nat>, below: set<nat>, top: nat)
    requires Held(cls, rank, methods, tabs, region) && SupersFirst(cls, tabs) && RebasedBelow(cls, rank, methods, tabs, top, tabs')
    requires top in tabs && top in cls && cls[top].super.Some? && cls[top].super.value in cls && cls[top].super.value !in region
    requires forall d :: d in below <==> d in cls && Desc(cls, rank, d, top)
    requires below <= region
    ensures Held(cls, rank, methods, tabs', region - below)
    ensures AgreeOutside(cls, rank, methods, tabs', region - below) <==> AgreeOutside(cls, rank, methods, tabs, region)
  {
    var p := cls[top].super.value;
    assert SuperOk(cls, rank, top) && HeldAt(cls, rank, methods, tabs, region, p);
    forall e | e in tabs && e in cls && Desc(cls, rank, e, top) ensures OwnOk(methods, tabs, e) {
      assert e in below && HeldAt(cls, rank, methods, tabs, region, e);
    }
    forall d | d in tabs' ensures HeldAt(cls, rank, methods, tabs', region - below, d) {
      assert HeldAt(cls, rank, methods, tabs, region, d);
      if d in below { RebasedFromAbove(cls, rank, methods, tabs, top, tabs', d); }
    }
    RebuiltClosed(cls, rank, region, below, top);
    if AgreeOutside(cls, rank, methods, tabs, region) {
      RebuiltAgrees(cls, rank, methods, tabs, tabs', region, below, top);
    }
    if AgreeOutside(cls, rank, methods, tabs', region - below) {
      forall d | d in tabs && d in cls && d !in region ensures AgreeAt(cls, rank, methods, tabs, d) {
        assert tabs'[d] == tabs[d] && AgreeAt(cls, rank, methods, tabs', d);
      }
    }
  }

  lemma RebuiltClosed(cls: Store, rank: map<nat, nat>, region: set<nat>, below: set<nat>, top: nat)
    requires Ranked(cls, rank) && Closed(cls, region) && top in cls && cls[top].super.Some? && cls[top].super.value !in region
    requires forall d :: d in below <==> d in cls && Desc(cls, rank, d, top)
    ensures Closed(cls, region - below)
  {
    forall d | d in cls && cls[d].super.Some? && cls[d].super.value in region - below ensures d in region - below {
      assert SuperOk(cls, rank, d);
    }
  }

  lemma RebuiltAgrees(cls: Store, rank: map<nat, nat>, methods: MethodLists, tabs: map<nat, Entries>, tabs': map<nat, Entries>, region: set<nat>, below: set<nat>, top: nat)
    requires Held(cls, rank, methods, tabs, region) && SupersFirst(cls, tabs) && RebasedBelow(cls, rank, methods, tabs, top, tabs')
    requires top in tabs && top in cls && cls[top].super.Some? && cls[top].super.value in cls && cls[top].super.value !in region
    requires forall d :: d in below <==> d in cls && Desc(cls, rank, d, top)
    requires below <= region && AgreeOutside(cls, rank, methods, tabs, region)
    ensures AgreeOutside(cls, rank, methods, tabs', region - below)
  {
    var p := cls[top].super.value;
    forall e | e in tabs && e in cls && Desc(cls, rank, e, top) ensures OwnOk(methods, tabs, e) {
      assert e in below && HeldAt(cls, rank, methods, tabs, region, e);
    }
    assert tabs'[p] == tabs[p] && AgreeAt(cls, rank, methods, tabs, p);
    forall d | d in tabs' && d in cls && d !in region - below ensures AgreeAt(cls, rank, methods, tabs', d) {
      if d in below {
        RebasedAgrees(cls, rank, methods, tabs, top, tabs', d);
      } else {
        assert tabs'[d] == tabs[d] && AgreeAt(cls, rank, methods, tabs, d);
      }
    }
  }

  /** The table of `d` is its own methods over its superclass's table. */
  ghost predicate Layered(cls: Store, methods: MethodLists, tabs: map<nat, Entries>, d: nat) {
    && d in cls && d in tabs && d in methods && cls[d].super.Some? && cls[d].super.value in tabs
    && forall sel: nat {:trigger Entry(tabs[d], sel)} ::
         Entry(tabs[d], sel) == if Own(methods[d], sel).Some? then Own(methods[d], sel) else Entry(tabs[cls[d].super.value], sel)
  }

  /** The tables in the region have been rebuilt so, and the others are the same. */
  ghost predicate Shifted(cls: Store, methods: MethodLists, tabs: map<nat, Entries>, tabs': map<nat, Entries>, region: set<nat>) {
    && tabs'.Keys == tabs.Keys
    && forall d {:trigger tabs'[d]} :: d in tabs ==> if d in region then Layered(cls, methods, tabs', d) else tabs'[d] == tabs[d]
  }

  lemma ShiftedAfter(cls: Store, methods: MethodLists, tabs: map<nat, Entries>, tabs1: map<nat, Entries>, tabs2: map<nat, Entries>, region: set<nat>)
    requires Alike(tabs, tabs1, region) && Shifted(cls, methods, tabs1, tabs2, region)
    ensures Shifted(cls, methods, tabs, tabs2, region)
  {
    forall d | d in tabs ensures if d in region then Layered(cls, methods, tabs2, d) else tabs2[d] == tabs[d] {
      if d !in region { assert tabs1[d] == tabs[d]; }
    }
  }

  /** What both rebuilds come to. */
  lemma RebuiltShifted(cls: Store, rank: map<nat, nat>, methods: MethodLists, tabs0: map<nat, Entries>, tabs1: map<nat, Entries>, tabs2: map<nat, Entries>, c: nat, m: nat)
    requires Known(cls, rank, methods) && Held(cls, rank, methods, tabs0, Region(cls, rank, c, m)) && SupersFirst(cls, tabs0)
    requires RebasedBelow(cls, rank, methods, tabs0, m, tabs1) && RebasedBelow(cls, rank, methods, tabs1, c, tabs2)
    requires c in cls && m in cls && cls[c].super.Some? && cls[m].super.Some?
    requires cls[c].super.value !in Region(cls, rank, c, m) && cls[m].super.value !in Region(cls, rank, c, m)
    requires forall d :: d in cls && Desc(cls, rank, d, c) ==> !Desc(cls, rank, d, m)
    ensures Shifted(cls, methods, tabs0, tabs2, Region(cls, rank, c, m))
  {
    var region := Region(cls, rank, c, m);
    forall d | d in tabs0 ensures if d in region then Layered(cls, methods, tabs2, d) else tabs2[d] == tabs0[d] {
      assert HeldAt(cls, rank, methods, tabs0, region, d) && SuperOk(cls, rank, d);
      if d in region { RebuiltLayer(cls, rank, methods, tabs0, tabs1, tabs2, c, m, d); }
    }
  }

  lemma RebuiltLayer(cls: Store, rank: map<nat, nat>, methods: MethodLists, tabs0: map<nat, Entries>, tabs1: map<nat, Entries>, tabs2: map<nat, Entries>, c: nat, m: nat, d: nat)
    requires Known(cls, rank, methods) && SupersFirst(cls, tabs0)
    requires RebasedBelow(cls, rank, methods, tabs0, m, tabs1) && RebasedBelow(cls, rank, methods, tabs1, c, tabs2)
    requires c in cls && m in cls && cls[c].super.Some? && cls[m].super.Some?
    requires cls[c].super.value !in Region(cls, rank, c, m) && cls[m].super.value !in Region(cls, rank, c, m)
    requires forall e :: e in cls && Desc(cls, rank, e, c) ==> !Desc(cls, rank, e, m)
    requires d in tabs0 && d in Region(cls, rank, c, m) && OwnOk(methods, tabs0, d)
    ensures Layered(cls, methods, tabs2, d)
  {
    assert SuperOk(cls, rank, d);
    var p: nat := cls[d].super.value;
    assert p in tabs0 && p in cls;
    var below := if Desc(cls, rank, d, m) then tabs1 else tabs2;
    assert tabs2[p] == below[p] && tabs2[d] == below[d];
    assert Rebased(methods[d], tabs0[d], below[p], below[d]);
    forall sel: nat ensures Entry(tabs2[d], sel) == (if Own(methods[d], sel).Some? then Own(methods[d], sel) else Entry(tabs2[p], sel)) {
      assert Entry(below[d], sel) == (if Own(methods[d], sel).Some? then Entry(tabs0[d], sel) else Entry(below[p], sel));
    }
  }

  /** Both rebuilds, of the metaclass's subtree and then of the class's. */
  lemma Rebuilt(cls: Store, rank: map<nat, nat>, methods: MethodLists, hs: map<nat, nat>, ts0: map<nat, Table>, ts1: map<nat, Table>, ts2: map<nat, Table>, c: nat, m: nat)
    requires Known(cls, rank, methods) && hs.Keys <= cls.Keys && Separate(hs, ts0) && Separate(hs, ts1)
    requires Held(cls, rank, methods, TabsOf(hs, ts0), Region(cls, rank, c, m)) && SupersFirst(cls, TabsOf(hs, ts0))
    requires RebasedAll(cls, rank, methods, hs, ts0, ts1, m) && RebasedAll(cls, rank, methods, hs, ts1, ts2, c)
    requires c in hs && m in hs && c in cls && m in cls && c != m && cls[c].super.Some? && cls[m].super.Some?
    requires cls[c].super.value in cls && cls[m].super.value in cls
    requires cls[c].super.value !in Region(cls, rank, c, m) && cls[m].super.value !in Region(cls, rank, c, m)
    ensures Held(cls, rank, methods, TabsOf(hs, ts2), {})
    ensures AgreeOutside(cls, rank, methods, TabsOf(hs, ts2), {}) <==> AgreeOutside(cls, rank, methods, TabsOf(hs, ts0), Region(cls, rank, c, m))
    ensures Shifted(cls, methods, TabsOf(hs, ts0), TabsOf(hs, ts2), Region(cls, rank, c, m))
  {
    var region := Region(cls, rank, c, m);
    var belowM := set d | d in cls && Desc(cls, rank, d, m);
    var belowC := set d | d in cls && Desc(cls, rank, d, c);
    forall d | d in belowC ensures d in region - belowM {
      if d in belowM { Comparable(cls, rank, d, c, m); }
    }
    assert region - belowM - belowC == {};
    var tabs0, tabs1, tabs2 := TabsOf(hs, ts0), TabsOf(hs, ts1), TabsOf(hs, ts2);
    RebasedTabs(cls, rank, methods, hs, ts0, ts1, m);
    RebuildOnce(cls, rank, methods, tabs0, tabs1, region, belowM, m);
    RebasedTabs(cls, rank, methods, hs, ts1, ts2, c);
    assert c in tabs1 && SupersFirst(cls, tabs1);
    RebuildOnce(cls, rank, methods, tabs1, tabs2, region - belowM, belowC, c);
    assert forall d :: d in cls && Desc(cls, rank, d, c) ==> d in belowC;
    RebuiltShifted(cls, rank, methods, tabs0, tabs1, tabs2, c, m);
  }

  lemma {:induction false} Comparable(cls: Store, rank: map<nat, nat>, d: nat, c: nat, m: nat)
    requires Ranked(cls, rank) && d in cls && c in cls && m in cls && Desc(cls, rank, d, c) && Desc(cls, rank, d, m)
    ensures Desc(cls, rank, c, m) || Desc(cls, rank, m, c)
    decreases if d in rank then rank[d] else 0
  {
    assert SuperOk(cls, rank, d);
    if d != c && d != m { Comparable(cls, rank, cls[d].super.value, c, m); }
  }

  /** `class_setSuperclass` is given a resolved class below the root, and a class that is
      not below it. */
  ghost predicate Movable(r: Runtime, c: nat, s: nat)
    requires r.Fixed()
    reads r`methods, r`depth, r`selectorCount, r.classes
  {
    && c in r.classes.cls && !r.classes.cls[c].meta && r.classes.cls[c].resolved && r.classes.cls[c].super.Some?
    && s in r.classes.cls && !r.classes.cls[s].meta && Hierarchy.Listed(r.classes.cls, r.classes.rank, r.classes.pending, s)
    && !Desc(r.classes.cls, r.classes.rank, s, c)
  }

  lemma StandingMoved(cls: Store, cls': Store, dtable: map<nat, nat>, uninstalled: nat, depth: nat, selectorCount: nat, hs: map<nat, nat>, ts: map<nat, Table>,
                      c: nat, s: nat)
    requires Relocated(cls, cls', c, s) && Layout(cls, uninstalled, depth, selectorCount, hs, ts) && Paired(cls, hs) && Together(cls, dtable, uninstalled)
    ensures Layout(cls', uninstalled, depth, selectorCount, hs, ts) && Paired(cls', hs)
    ensures Together(cls', dtable, uninstalled)
    ensures forall d :: d in TabsOf(hs, ts) ==> d in cls && cls[d].resolved
  {
    forall d | d in hs ensures HandleOk(cls', uninstalled, depth, selectorCount, hs, ts, d) && d in cls && cls[d].resolved {
      assert HandleOk(cls, uninstalled, depth, selectorCount, hs, ts, d);
    }
    forall d | d in cls' ensures PairedAt(cls', hs, d) { assert PairedAt(cls, hs, d); }
    forall d | d in cls' ensures TogetherAt(cls', dtable, uninstalled, d) { assert TogetherAt(cls, dtable, uninstalled, d); }
  }

  /** The first half of `class_setSuperclass`: the links. */
  method MoveLinks(r: Runtime, c: nat, s: nat) returns (oldSuper: nat, ghost region: set<nat>)
    requires r.Fixed() && Standing(r, {}) && AgreeOutside(r.classes.cls, r.classes.rank, r.methods, TabsOf(r.handles, r.arena.tables), {})
    requires Movable(r, c, s)
    modifies r.classes
    ensures r.Fixed() && Standing(r, region) && oldSuper == old(r.classes.cls[c].super.value)
    ensures AgreeOutside(r.classes.cls, r.classes.rank, r.methods, TabsOf(r.handles, r.arena.tables), region)
    ensures Relocated(old(r.classes.cls), r.classes.cls, c, s) && Drained(old(r.classes.cls), old(r.classes.rank), old(r.classes.pending), r.classes.cls, r.classes.pending, s)
    ensures oldSuper == s ==> region == {}
    ensures oldSuper != s ==> region == Region(r.classes.cls, r.classes.rank, c, r.classes.cls[c].isa)
                              && s !in region && r.classes.cls[s].isa !in region
  {
    hide SparseArrays.Arena.Valid, AgreeOutside, Layout, LookAside, Tracking, Together, Drained;
    ghost var cls, rank, tabs := r.classes.cls, r.classes.rank, TabsOf(r.handles, r.arena.tables);
    oldSuper := r.classes.SetSuperclass(c, s);
    region := {};
    if oldSuper != s {
      HeldAll(cls, rank, r.methods, tabs);
      StandingMoved(cls, r.classes.cls, r.dtable, r.uninstalled, r.depth, r.selectorCount, r.handles, r.arena.tables, c, s);
      RelocatedKept(cls, r.classes.cls, r.classes.rank, r.classes.owner, c, s);
      region := Region(r.classes.cls, r.classes.rank, c, cls[c].isa);
      HeldMoved(cls, rank, r.classes.cls, r.classes.rank, r.methods, tabs, region);
    }
  }

  /** `objc_update_dtable_for_new_superclass`, called for a class that has a table. */
  method UpdateForNewSuperclass(r: Runtime, c: nat, newSuper: nat)
    requires Rebasable(r) && c in r.classes.cls && r.classes.cls[c].super == Some(newSuper) && c in r.handles && newSuper in r.handles
    requires SupersFirst(r.classes.cls, TabsOf(r.handles, r.arena.tables))
    modifies r.arena, r`version
    ensures Rebasable(r) && r.version > old(r.version) && SupersFirst(r.classes.cls, TabsOf(r.handles, r.arena.tables))
    ensures RebasedAll(r.classes.cls, r.classes.rank, r.methods, r.handles, old(r.arena.tables), r.arena.tables, c)
  {
    hide SparseArrays.Arena.Valid, Layout, Tracking, RebasedAll;
    ghost var ts := r.arena.tables;
    var t := r.DtableForClass(c);
    if t == r.uninstalled {
      return;
    }
    TopDownFrom(r.classes.cls, r.classes.rank, r.uninstalled, r.depth, r.selectorCount, r.handles, ts, c);
    RebaseRecursive(r, c, newSuper);
    r.version := r.version + 1;
    SameKeys(r.classes.cls, r.classes.rank, r.methods, r.handles, ts, r.arena.tables, c);
  }

  lemma SameKeys(cls: Store, rank: map<nat, nat>, methods: MethodLists, hs: map<nat, nat>, ts: map<nat, Table>, ts': map<nat, Table>, c: nat)
    requires Ranked(cls, rank) && SupersFirst(cls, TabsOf(hs, ts)) && RebasedAll(cls, rank, methods, hs, ts, ts', c)
    ensures SupersFirst(cls, TabsOf(hs, ts'))
  {
    var tabs, tabs' := TabsOf(hs, ts), TabsOf(hs, ts');
    assert forall d :: d in tabs' <==> d in tabs;
  }

  /** Where the metaclass of `c` hangs once `c` hangs below `s`. */
  lemma MetaLink(cls: Store, rank: map<nat, nat>, owner: map<nat, nat>, c: nat, s: nat)
    requires Ranked(cls, rank) && Pairs(cls, owner) && MetaSupers(cls) && c in cls && cls[c].resolved && !cls[c].meta && cls[c].super == Some(s)
    ensures s in cls && cls[c].isa in cls && cls[s].isa in cls && cls[c].isa != c && cls[cls[c].isa].super == Some(cls[s].isa)
  {
    assert PairOk(cls, owner, c) && SuperOk(cls, rank, c) && MetaSuperOk(cls, c) && PairOk(cls, owner, s);
  }

  /** The two calls that end `class_setSuperclass`: first the metaclass, then the class. */
  method UpdateBoth(r: Runtime, c: nat, m: nat, s: nat, sm: nat) returns (ghost ts1: map<nat, Table>)
    requires Rebasable(r) && c in r.classes.cls && m in r.classes.cls && r.classes.cls[c].super == Some(s) && r.classes.cls[m].super == Some(sm)
    requires c in r.handles && m in r.handles && s in r.handles && sm in r.handles
    requires SupersFirst(r.classes.cls, TabsOf(r.handles, r.arena.tables))
    modifies r.arena, r`version
    ensures r.arena.Valid() && r.Laid(r.handles) && r.version > old(r.version) && Separate(r.handles, ts1)
    ensures RebasedAll(r.classes.cls, r.classes.rank, r.methods, r.handles, old(r.arena.tables), ts1, m)
    ensures RebasedAll(r.classes.cls, r.classes.rank, r.methods, r.handles, ts1, r.arena.tables, c)
  {
    UpdateForNewSuperclass(r, m, sm);
    ts1 := r.arena.tables;
    UpdateForNewSuperclass(r, c, s);
  }

  method RebuildTables(r: Runtime, c: nat, s: nat, ghost region: set<nat>)
    requires r.Fixed() && Standing(r, region) && r.Enumerates()
    requires c in r.classes.cls && !r.classes.cls[c].meta && r.classes.cls[c].resolved && r.classes.cls[c].super == Some(s)
    requires c in r.handles && s in r.handles && s in r.classes.cls && !r.classes.cls[s].meta
    requires region == Region(r.classes.cls, r.classes.rank, c, r.classes.cls[c].isa) && s !in region && r.classes.cls[s].isa !in region
    modifies r.arena, r`version
    ensures Standing(r, {}) && r.version > old(r.version)
    ensures AgreeOutside(r.classes.cls, r.classes.rank, r.methods, TabsOf(r.handles, r.arena.tables), {}) <==>
            AgreeOutside(r.classes.cls, r.classes.rank, r.methods, TabsOf(r.handles, old(r.arena.tables)), region)
    ensures Shifted(r.classes.cls, r.methods, TabsOf(r.handles, old(r.arena.tables)), TabsOf(r.handles, r.arena.tables), region)
  {
    hide SparseArrays.Arena.Valid, AgreeOutside, AllDistinctive, LookAside, Tracking, Together, RebasedAll, Shifted, Held, SupersFirst;
    ghost var cls, rank, hs, ts0 := r.classes.cls, r.classes.rank, r.handles, r.arena.tables;
    MetaLink(cls, rank, r.classes.owner, c, s);
    var m, sm := r.classes.cls[c].isa, r.classes.cls[s].isa;
    assert PairedAt(cls, hs, c) && PairedAt(cls, hs, s);
    HeldSupersFirst(cls, rank, r.methods, TabsOf(hs, ts0), c, m);
    ghost var ts1 := UpdateBoth(r, c, m, s, sm);
    Rebuilt(cls, rank, r.methods, hs, ts0, ts1, r.arena.tables, c, m);
  }

  lemma {:induction false} TabledTop(cls: Store, rank: map<nat, nat>, methods: MethodLists, tabs: map<nat, Entries>, c: nat, m: nat, top: nat, d: nat)
    requires Ranked(cls, rank) && Held(cls, rank, methods, tabs, Region(cls, rank, c, m)) && (top == c || top == m)
    requires d in tabs && d in cls && Desc(cls, rank, d, top)
    ensures top in tabs
    decreases if d in rank then rank[d] else 0
  {
    assert HeldAt(cls, rank, methods, tabs, Region(cls, rank, c, m), d) && SuperOk(cls, rank, d);
    if d != top { TabledTop(cls, rank, methods, tabs, c, m, top, cls[d].super.value); }
  }

  /** When the class that moved has no table, nothing below it has one and nothing waits. */
  lemma NoneWaiting(cls: Store, rank: map<nat, nat>, methods: MethodLists, tabs: map<nat, Entries>, c: nat, m: nat)
    requires Ranked(cls, rank) && Held(cls, rank, methods, tabs, Region(cls, rank, c, m)) && c !in tabs && m !in tabs
    requires AgreeOutside(cls, rank, methods, tabs, Region(cls, rank, c, m))
    ensures Held(cls, rank, methods, tabs, {}) && AgreeOutside(cls, rank, methods, tabs, {})
  {
    var region := Region(cls, rank, c, m);
    forall d | d in tabs ensures d !in region && HeldAt(cls, rank, methods, tabs, {}, d) {
      assert HeldAt(cls, rank, methods, tabs, region, d);
      if Desc(cls, rank, d, c) { TabledTop(cls, rank, methods, tabs, c, m, c, d); }
      if Desc(cls, rank, d, m) { TabledTop(cls, rank, methods, tabs, c, m, m, d); }
    }
  }

  /** `objc_send_initialize` on the new superclass, while the moved classes wait. */
  method Raise(r: Runtime, s: nat, initializeSel: nat, ghost region: set<nat>) returns (sent: seq<nat>)
    requires r.Fixed() && Standing(r, region) && initializeSel < r.selectorCount
    requires s in r.classes.cls && r.classes.cls[s].resolved && !r.classes.cls[s].meta && s !in region && r.classes.cls[s].isa !in region
    modifies r.arena, r`version, r`dtable, r`temporary, r`handles, r`initialized
    ensures Standing(r, region) && s in r.handles && Grown(old(r.handles), r.handles) && r.version >= old(r.version) && r.temporary == old(r.temporary)
    ensures Started(r.classes.cls, r.classes.rank, r.methods, old(r.handles), old(r.arena.tables), r.handles, r.arena.tables, region)
    ensures Raised(r.classes.cls, r.classes.rank, old(r.handles), r.handles, s)
    ensures Alike(Made(r.classes.cls, r.classes.rank, r.methods, TabsOf(old(r.handles), old(r.arena.tables)), s), TabsOf(r.handles, r.arena.tables), region)
    ensures sent == Sends(r.classes.cls, r.classes.rank, r.methods, TabsOf(old(r.handles), old(r.arena.tables)), s, initializeSel)
    ensures NewInstalled(old(r.dtable), old(r.handles), r.dtable, r.handles)
  {
    hide SparseArrays.Arena.Valid, AgreeOutside, AllDistinctive, Layout, LookAside, Tracking, Together, Alike, NewInstalled, Made, Sends;
    sent := SendInitialize(r, s, initializeSel, region);
    assert PairedAt(r.classes.cls, r.handles, s);
    Tabled(r.classes.cls, r.uninstalled, r.depth, r.selectorCount, r.handles, r.arena.tables);
    ProgressRaised(r.classes.cls, r.classes.rank, r.methods, old(r.handles), old(r.arena.tables), old(r.version), r.handles, r.arena.tables, r.version, region, s);
  }

  /** The tables once `c` has moved below `s`: the new superclass and those above it have got theirs,
      and from `c` and its metaclass down every table is the own methods over the superclass's. */
  ghost predicate MovedTables(cls: Store, rank: map<nat, nat>, methods: MethodLists, tabs: map<nat, Entries>, tabs': map<nat, Entries>, c: nat, s: nat) {
    && Known(cls, rank, methods) && c in cls && s in cls
    && Shifted(cls, methods, Made(cls, rank, methods, tabs, s), tabs', Region(cls, rank, c, cls[c].isa))
  }

  /** The second half of `class_setSuperclass`: the tables. */
  method MoveTables(r: Runtime, c: nat, s: nat, initializeSel: nat, ghost region: set<nat>) returns (sent: seq<nat>)
    requires r.Fixed() && Standing(r, region) && r.Enumerates() && initializeSel < r.selectorCount
    requires c in r.classes.cls && !r.classes.cls[c].meta && r.classes.cls[c].resolved && r.classes.cls[c].super == Some(s)
    requires s in r.classes.cls && !r.classes.cls[s].meta && r.classes.cls[s].resolved
    requires region == Region(r.classes.cls, r.classes.rank, c, r.classes.cls[c].isa) && s !in region && r.classes.cls[s].isa !in region
    requires AgreeOutside(r.classes.cls, r.classes.rank, r.methods, TabsOf(r.handles, r.arena.tables), region)
    modifies r.arena, r`version, r`dtable, r`temporary, r`handles, r`initialized
    ensures Standing(r, {})
    ensures AgreeOutside(r.classes.cls, r.classes.rank, r.methods, TabsOf(r.handles, r.arena.tables), {}) <==>
            AllDistinctive(r.classes.cls, r.classes.rank, r.methods, old(r.handles), r.handles)
    ensures r.version > old(r.version) || (r.version == old(r.version) && r.arena.tables == old(r.arena.tables))
    ensures if c in old(r.handles) then Raised(r.classes.cls, r.classes.rank, old(r.handles), r.handles, s) else r.handles == old(r.handles)
    ensures r.temporary == old(r.temporary) && NewInstalled(old(r.dtable), old(r.handles), r.dtable, r.handles)
    ensures if c in old(r.handles)
            then MovedTables(r.classes.cls, r.classes.rank, r.methods, TabsOf(old(r.handles), old(r.arena.tables)), TabsOf(r.handles, r.arena.tables), c, s)
                 && sent == Sends(r.classes.cls, r.classes.rank, r.methods, TabsOf(old(r.handles), old(r.arena.tables)), s, initializeSel)
            else r.arena.tables == old(r.arena.tables) && sent == []
  {
    hide SparseArrays.Arena.Valid, AgreeOutside, Layout, LookAside, Tracking, Together, Cached, Raised, Alike, NewInstalled, Made, Sends, Shifted, TabsOf, Held;
    sent := [];
    NewSelf(r.dtable, r.handles);
    Tabled(r.classes.cls, r.uninstalled, r.depth, r.selectorCount, r.handles, r.arena.tables);
    if c !in r.initialized {
      assert PairedAt(r.classes.cls, r.handles, c);
      NoneWaiting(r.classes.cls, r.classes.rank, r.methods, TabsOf(r.handles, r.arena.tables), c, r.classes.cls[c].isa);
      return;
    }
    ghost var tabs0 := TabsOf(r.handles, r.arena.tables);
    sent := Raise(r, s, initializeSel, region);
    ghost var tabs1 := TabsOf(r.handles, r.arena.tables);
    RebuildTables(r, c, s, region);
    ShiftedAfter(r.classes.cls, r.methods, Made(r.classes.cls, r.classes.rank, r.methods, tabs0, s), tabs1, TabsOf(r.handles, r.arena.tables), region);
  }

  /** `class_setSuperclass`: afterwards every table agrees with the method lists over the
      new hierarchy, exactly when no class initialized on the way overrides a method with
      its own implementation. */
  method SetSuperclass(r: Runtime, c: nat, s: nat, initializeSel: nat) returns (oldSuper: nat, sent: seq<nat>)
    requires r.Fixed() && Standing(r, {}) && AgreeOutside(r.classes.cls, r.classes.rank, r.methods, TabsOf(r.handles, r.arena.tables), {})
    requires Movable(r, c, s) && r.Enumerates() && initializeSel < r.selectorCount
    modifies r.classes, r.arena, r`version, r`dtable, r`temporary, r`handles, r`initialized
    ensures r.Fixed() && Standing(r, {}) && oldSuper == old(r.classes.cls[c].super.value) && Relocated(old(r.classes.cls), r.classes.cls, c, s)
    ensures Drained(old(r.classes.cls), old(r.classes.rank), old(r.classes.pending), r.classes.cls, r.classes.pending, s)
    ensures AgreeOutside(r.classes.cls, r.classes.rank, r.methods, TabsOf(r.handles, r.arena.tables), {}) <==>
            AllDistinctive(r.classes.cls, r.classes.rank, r.methods, old(r.handles), r.handles)
    ensures if oldSuper != s && c in old(r.handles) then s in r.classes.cls && Raised(r.classes.cls, r.classes.rank, old(r.handles), r.handles, s)
            else r.handles == old(r.handles)
    ensures r.temporary == old(r.temporary) && NewInstalled(old(r.dtable), old(r.handles), r.dtable, r.handles)
    ensures if oldSuper != s && c in old(r.handles)
            then MovedTables(r.classes.cls, r.classes.rank, r.methods, TabsOf(old(r.handles), old(r.arena.tables)), TabsOf(r.handles, r.arena.tables), c, s)
                 && sent == Sends(r.classes.cls, r.classes.rank, r.methods, TabsOf(old(r.handles), old(r.arena.tables)), s, initializeSel)
            else r.arena.tables == old(r.arena.tables) && sent == []
    ensures Cached(old(r.handles), old(r.arena.tables), old(r.version), r.arena.tables, r.version)
  {
    hide SparseArrays.Arena.Valid, ClassTables.ClassTable.Valid, AgreeOutside, Layout, LookAside, Tracking, Together, Held, MovedTables, Sends, Drained;
    ghost var region;
    sent := [];
    oldSuper, region := MoveLinks(r, c, s);
    if oldSuper == s {
      return;
    }
    sent := MoveTables(r, c, s, initializeSel, region);
  }
}
