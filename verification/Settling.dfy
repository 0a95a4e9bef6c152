/** Tables made while a part of the hierarchy still waits to be rebuilt. */
module Settling {
  import opened Basics
  import opened Hierarchy
  import opened SparseArrays
  import opened MethodLookup
  import opened Installing
  import opened Spreading
  import opened Building
  import opened Caching

  /** Every entry is a method of the class or of one above it. */
  ghost predicate FromAbove(cls: Store, rank: map<nat, nat>, methods: MethodLists, t: Entries, d: nat)
    requires Known(cls, rank, methods) && d in cls
  {
    forall sel {:trigger t[sel]} :: sel in t ==> exists a :: a in cls && Desc(cls, rank, d, a) && t[sel] in Flat(methods[a])
  }

  /** `region` is what waits to be rebuilt: there only own methods are sure to be in
      place.  Elsewhere tables exist from the top down. */
  ghost predicate HeldAt(cls: Store, rank: map<nat, nat>, methods: MethodLists, tabs: map<nat, Entries>, region: set<nat>, d: nat)
    requires Known(cls, rank, methods) && d in tabs
  {
    && d in cls
    && if d in region
       then OwnOk(methods, tabs, d) && (cls[d].super.Some? && cls[d].super.value in region ==> cls[d].super.value in tabs)
       else (cls[d].super.Some? ==> cls[d].super.value in tabs) && FromAbove(cls, rank, methods, tabs[d], d)
  }

  ghost predicate Closed(cls: Store, region: set<nat>) {
    forall d {:trigger d in region} :: d in cls && cls[d].super.Some? && cls[d].super.value in region ==> d in region
  }

  ghost predicate Held(cls: Store, rank: map<nat, nat>, methods: MethodLists, tabs: map<nat, Entries>, region: set<nat>) {
    && Known(cls, rank, methods) && OneOwner(methods) && Closed(cls, region)
    && forall d {:trigger HeldAt(cls, rank, methods, tabs, region, d)} :: d in tabs ==> HeldAt(cls, rank, methods, tabs, region, d)
  }

  ghost predicate AgreeOutside(cls: Store, rank: map<nat, nat>, methods: MethodLists, tabs: map<nat, Entries>, region: set<nat>)
    requires Known(cls, rank, methods)
  {
    forall d {:trigger AgreeAt(cls, rank, methods, tabs, d)} :: d in tabs && d in cls && d !in region ==> AgreeAt(cls, rank, methods, tabs, d)
  }

  /** No method of `c` has the implementation of the method that it overrides. */
  ghost predicate Distinctive(cls: Store, rank: map<nat, nat>, methods: MethodLists, c: nat)
    requires Known(cls, rank, methods) && c in cls
  {
    forall sel: nat {:trigger Own(methods[c], sel)} ::
      Own(methods[c], sel).Some? && cls[c].super.Some? && cls[c].super.value in cls
      && Walk(cls, rank, methods, cls[c].super.value, sel).Some? ==>
        Walk(cls, rank, methods, cls[c].super.value, sel).value.imp != Own(methods[c], sel).value.imp
  }

  lemma HeldAll(cls: Store, rank: map<nat, nat>, methods: MethodLists, tabs: map<nat, Entries>)
    ensures InAgreement(cls, rank, methods, tabs) <==> Held(cls, rank, methods, tabs, {}) && AgreeOutside(cls, rank, methods, tabs, {})
  {
    if InAgreement(cls, rank, methods, tabs) {
      forall d | d in tabs ensures HeldAt(cls, rank, methods, tabs, {}, d) {
        assert AgreeAt(cls, rank, methods, tabs, d);
        AgreedFromAbove(cls, rank, methods, tabs, d);
      }
    } else if Held(cls, rank, methods, tabs, {}) && AgreeOutside(cls, rank, methods, tabs, {}) {
      forall d | d in tabs ensures d in cls && (cls[d].super.Some? ==> cls[d].super.value in tabs) {
        assert HeldAt(cls, rank, methods, tabs, {}, d);
      }
    }
  }

  lemma AgreedFromAbove(cls: Store, rank: map<nat, nat>, methods: MethodLists, tabs: map<nat, Entries>, d: nat)
    requires Known(cls, rank, methods) && d in tabs && d in cls && AgreeAt(cls, rank, methods, tabs, d)
    ensures FromAbove(cls, rank, methods, tabs[d], d)
  {
    forall sel | sel in tabs[d] ensures exists a :: a in cls && Desc(cls, rank, d, a) && tabs[d][sel] in Flat(methods[a]) {
      assert Entry(tabs[d], sel) == Walk(cls, rank, methods, d, sel);
      WalkOwner(cls, rank, methods, d, sel);
    }
  }

  /** Outside the region a class has a table if one below it does. */
  lemma {:induction false} HeldAbove(cls: Store, rank: map<nat, nat>, methods: MethodLists, tabs: map<nat, Entries>, region: set<nat>, d: nat, c: nat)
    requires Held(cls, rank, methods, tabs, region) && d in tabs && d in cls && d !in region && Desc(cls, rank, d, c)
    ensures c in tabs
    decreases if d in rank then rank[d] else 0
  {
    assert HeldAt(cls, rank, methods, tabs, region, d) && SuperOk(cls, rank, d);
    if d != c { HeldAbove(cls, rank, methods, tabs, region, cls[d].super.value, c); }
  }

  /** The region lies below nothing outside it. */
  lemma {:induction false} ClosedBelow(cls: Store, rank: map<nat, nat>, region: set<nat>, d: nat, a: nat)
    requires Ranked(cls, rank) && Closed(cls, region) && d in cls && Desc(cls, rank, d, a) && a in region
    ensures d in region
    decreases if d in rank then rank[d] else 0
  {
    assert SuperOk(cls, rank, d);
    if d != a { ClosedBelow(cls, rank, region, cls[d].super.value, a); }
  }

  /** What the new table of `c` inherits belongs to classes above `c`. */
  lemma InheritedAbove(cls: Store, rank: map<nat, nat>, methods: MethodLists, tabs: map<nat, Entries>, region: set<nat>, c: nat, sel: nat)
    returns (a: nat)
    requires Held(cls, rank, methods, tabs, region) && c in cls && c !in region && sel in InhOf(cls, tabs, c)
    ensures cls[c].super.Some? && cls[c].super.value in cls && cls[c].super.value in tabs
    ensures a in cls && a != c && a !in region && Desc(cls, rank, cls[c].super.value, a) && Desc(cls, rank, c, a)
    ensures InhOf(cls, tabs, c)[sel] in Flat(methods[a])
  {
    assert SuperOk(cls, rank, c);
    var s := cls[c].super.value;
    assert HeldAt(cls, rank, methods, tabs, region, s);
    a :| a in cls && Desc(cls, rank, s, a) && tabs[s][sel] in Flat(methods[a]);
    DescUp(cls, rank, s, a);
    if a in region { ClosedBelow(cls, rank, region, s, a); }
  }

  lemma CreatedFromAbove(cls: Store, rank: map<nat, nat>, methods: MethodLists, tabs: map<nat, Entries>, region: set<nat>, c: nat)
    requires Held(cls, rank, methods, tabs, region) && c in cls && c !in region
    ensures FromAbove(cls, rank, methods, Overlay(InhOf(cls, tabs, c), Flat(methods[c])), c)
  {
    var inh, ms := InhOf(cls, tabs, c), Flat(methods[c]);
    var t := Overlay(inh, ms);
    forall sel | sel in t ensures exists a :: a in cls && Desc(cls, rank, c, a) && t[sel] in Flat(methods[a]) {
      if sel in inh { var a := InheritedAbove(cls, rank, methods, tabs, region, c, sel); }
      OverlayAt(inh, ms, sel);
      assert Entry(t, sel) == Some(t[sel]);
      assert Desc(cls, rank, c, c);
    }
  }

  /** The own methods of a waiting class survive whatever is installed above it. */
  lemma WaitingKept(cls: Store, rank: map<nat, nat>, methods: MethodLists, hs: map<nat, nat>, ts: map<nat, Table>, ts': map<nat, Table>,
                    region: set<nat>, c: nat, d: nat, sel: nat)
    requires Held(cls, rank, methods, TabsOf(hs, ts), region) && Separate(hs, ts) && c in cls && c !in region
    requires d in hs && d in cls && d in region && hs[d] in ts'
    requires OnlyInherited(hs, ts, ts', InhOf(cls, TabsOf(hs, ts), c), d) && Own(methods[d], sel).Some?
    ensures Entry(ts'[hs[d]].entries, sel) == Own(methods[d], sel)
  {
    var tabs := TabsOf(hs, ts);
    var inh := InhOf(cls, tabs, c);
    assert HeldAt(cls, rank, methods, tabs, region, d);
    assert Slot(hs, ts', d, sel) == Slot(hs, ts, d, sel) || Slot(hs, ts, d, sel) == Entry(inh, sel);
    if Entry(inh, sel) == Own(methods[d], sel) {
      var a := InheritedAbove(cls, rank, methods, tabs, region, c, sel);
      assert inh[sel] in Flat(methods[d]) && inh[sel] in Flat(methods[a]);
    }
  }

  /** The tables once `c` has got the table `t`, whose making disturbed others below `c`. */
  ghost predicate Joined(cls: Store, rank: map<nat, nat>, methods: MethodLists, hs: map<nat, nat>, ts: map<nat, Table>, ts': map<nat, Table>,
                         c: nat, t: nat)
    requires Known(cls, rank, methods) && c in cls
  {
    var inh := InhOf(cls, TabsOf(hs, ts), c);
    && c !in hs && t in ts' && ts'[t].entries == Overlay(inh, Flat(methods[c]))
    && (cls[c].super.Some? ==> cls[c].super.value in hs)
    && Disturbed(cls, rank, hs, ts, ts', c, inh)
  }

  lemma JoinedUnchanged(cls: Store, rank: map<nat, nat>, methods: MethodLists, hs: map<nat, nat>, ts: map<nat, Table>, ts': map<nat, Table>,
                        region: set<nat>, c: nat, t: nat, d: nat)
    requires Held(cls, rank, methods, TabsOf(hs, ts), region) && Separate(hs, ts) && c in cls
    requires Joined(cls, rank, methods, hs, ts, ts', c, t) && d in hs && d in cls && d !in region
    ensures hs[d] in ts' && ts'[hs[d]] == ts[hs[d]]
  {
    var tabs := TabsOf(hs, ts);
    assert d in tabs && OnlyInherited(hs, ts, ts', InhOf(cls, tabs, c), d);
    if Desc(cls, rank, d, c) { HeldAbove(cls, rank, methods, tabs, region, d, c); }
  }

  lemma JoinedHeld(cls: Store, rank: map<nat, nat>, methods: MethodLists, hs: map<nat, nat>, ts: map<nat, Table>, ts': map<nat, Table>,
                   region: set<nat>, c: nat, t: nat)
    requires Held(cls, rank, methods, TabsOf(hs, ts), region) && Separate(hs, ts) && c in cls && c !in region
    requires Joined(cls, rank, methods, hs, ts, ts', c, t)
    ensures Held(cls, rank, methods, TabsOf(hs[c := t], ts'), region)
  {
    var tabs, tabs' := TabsOf(hs, ts), TabsOf(hs[c := t], ts');
    forall d | d in hs ensures d in cls && hs[d] in ts' && d in tabs && d in tabs' {
      assert d in tabs && HeldAt(cls, rank, methods, tabs, region, d);
      assert OnlyInherited(hs, ts, ts', InhOf(cls, tabs, c), d);
    }
    assert c in tabs';
    forall d | d in tabs' ensures HeldAt(cls, rank, methods, tabs', region, d) {
      if d == c {
        CreatedFromAbove(cls, rank, methods, tabs, region, c);
      } else {
        assert HeldAt(cls, rank, methods, tabs, region, d);
        if d in region {
          assert OnlyInherited(hs, ts, ts', InhOf(cls, tabs, c), d);
          forall sel: nat | Own(methods[d], sel).Some? ensures Entry(tabs'[d], sel) == Own(methods[d], sel) {
            WaitingKept(cls, rank, methods, hs, ts, ts', region, c, d, sel);
          }
        } else {
          JoinedUnchanged(cls, rank, methods, hs, ts, ts', region, c, t, d);
        }
      }
    }
  }

  /** Making a table keeps agreement exactly when the class is distinctive. */
  lemma JoinedAgrees(cls: Store, rank: map<nat, nat>, methods: MethodLists, hs: map<nat, nat>, ts: map<nat, Table>, ts': map<nat, Table>,
                     region: set<nat>, c: nat, t: nat)
    requires Held(cls, rank, methods, TabsOf(hs, ts), region) && Separate(hs, ts) && c in cls && c !in region
    requires Joined(cls, rank, methods, hs, ts, ts', c, t)
    ensures AgreeOutside(cls, rank, methods, TabsOf(hs[c := t], ts'), region) <==>
              AgreeOutside(cls, rank, methods, TabsOf(hs, ts), region) && Distinctive(cls, rank, methods, c)
  {
    var tabs, tabs' := TabsOf(hs, ts), TabsOf(hs[c := t], ts');
    forall d | d in tabs && d in cls && d !in region
      ensures d in tabs' && (AgreeAt(cls, rank, methods, tabs', d) <==> AgreeAt(cls, rank, methods, tabs, d))
    {
      JoinedUnchanged(cls, rank, methods, hs, ts, ts', region, c, t, d);
      assert tabs'[d] == tabs[d];
    }
    if AgreeOutside(cls, rank, methods, tabs, region) {
      JoinedExact(cls, rank, methods, tabs, tabs', region, c);
    }
    assert forall d :: d in tabs' ==> d == c || d in tabs;
  }

  lemma JoinedExact(cls: Store, rank: map<nat, nat>, methods: MethodLists, tabs: map<nat, Entries>, tabs': map<nat, Entries>, region: set<nat>, c: nat)
    requires Held(cls, rank, methods, tabs, region) && AgreeOutside(cls, rank, methods, tabs, region) && c in cls && c !in region && c in tabs'
    requires tabs'[c] == Overlay(InhOf(cls, tabs, c), Flat(methods[c])) && (cls[c].super.Some? ==> cls[c].super.value in tabs)
    ensures AgreeAt(cls, rank, methods, tabs', c) <==> Distinctive(cls, rank, methods, c)
  {
    var inh := InhOf(cls, tabs, c);
    assert SuperOk(cls, rank, c);
    if cls[c].super.Some? {
      assert AgreeAt(cls, rank, methods, tabs, cls[c].super.value);
    }
    forall sel: nat
      ensures Entry(inh, sel) == if cls[c].super.Some? && cls[c].super.value in cls then Walk(cls, rank, methods, cls[c].super.value, sel) else None
    { }
    CreateExact(cls, rank, methods, c, inh, tabs');
    forall sel: nat ensures sel in inh <==> Entry(inh, sel).Some? { }
  }

  // -- What the tables hold once classes have got theirs --

  /** The tables with a new one for `c`. */
  ghost function WithTable(cls: Store, methods: MethodLists, tabs: map<nat, Entries>, c: nat): map<nat, Entries>
    requires c in cls && c in methods
  {
    tabs[c := Overlay(InhOf(cls, tabs, c), Flat(methods[c]))]
  }

  /** With new ones for `c` and its metaclass. */
  ghost function PairMade(cls: Store, methods: MethodLists, tabs: map<nat, Entries>, c: nat): map<nat, Entries>
    requires c in cls && c in methods
  {
    var tabs1 := WithTable(cls, methods, tabs, c);
    if cls[c].isa in cls && cls[c].isa in methods then WithTable(cls, methods, tabs1, cls[c].isa) else tabs1
  }

  /** With new ones for all from `c` up that have none, superclasses first. */
  ghost function Made(cls: Store, rank: map<nat, nat>, methods: MethodLists, tabs: map<nat, Entries>, c: nat): map<nat, Entries>
    requires Known(cls, rank, methods) && c in cls
    decreases if c in rank then rank[c] else 0
  {
    assert SuperOk(cls, rank, c);
    if c in tabs then tabs
    else PairMade(cls, methods, if cls[c].super.Some? then Made(cls, rank, methods, tabs, cls[c].super.value) else tabs, c)
  }

  /** The classes that `objc_send_initialize` on `c` sends `+initialize` to, in order. */
  ghost function Sends(cls: Store, rank: map<nat, nat>, methods: MethodLists, tabs: map<nat, Entries>, c: nat, sel: nat): seq<nat>
    requires Known(cls, rank, methods) && c in cls
    decreases if c in rank then rank[c] else 0
  {
    assert SuperOk(cls, rank, c);
    if c in tabs then []
    else (if cls[c].super.Some? then Sends(cls, rank, methods, tabs, cls[c].super.value, sel) else [])
         + if Answers(Made(cls, rank, methods, tabs, c), cls[c].isa, sel) then [c] else []
  }

  /** The table of `d` has an entry. */
  ghost predicate Answers(tabs: map<nat, Entries>, d: nat, sel: nat) {
    d in tabs && Entry(tabs[d], sel).Some?
  }

  /** The same tables outside the region. */
  ghost predicate Alike(tabs: map<nat, Entries>, tabs': map<nat, Entries>, region: set<nat>) {
    tabs'.Keys == tabs.Keys && forall d {:trigger tabs'[d]} :: d in tabs && d !in region ==> tabs'[d] == tabs[d]
  }

  lemma AlikeWith(cls: Store, rank: map<nat, nat>, methods: MethodLists, tabs: map<nat, Entries>, tabs': map<nat, Entries>, region: set<nat>, c: nat)
    requires Known(cls, rank, methods) && Closed(cls, region) && c in cls && c !in region && Alike(tabs, tabs', region)
    ensures Alike(WithTable(cls, methods, tabs, c), WithTable(cls, methods, tabs', c), region)
  {
    assert SuperOk(cls, rank, c);
    assert InhOf(cls, tabs', c) == InhOf(cls, tabs, c);
  }

  lemma AlikePair(cls: Store, rank: map<nat, nat>, methods: MethodLists, tabs: map<nat, Entries>, tabs': map<nat, Entries>, region: set<nat>, c: nat)
    requires Known(cls, rank, methods) && Closed(cls, region) && c in cls && c !in region && cls[c].isa !in region && Alike(tabs, tabs', region)
    ensures Alike(PairMade(cls, methods, tabs, c), PairMade(cls, methods, tabs', c), region)
  {
    AlikeWith(cls, rank, methods, tabs, tabs', region, c);
    if cls[c].isa in cls {
      AlikeWith(cls, rank, methods, WithTable(cls, methods, tabs, c), WithTable(cls, methods, tabs', c), region, cls[c].isa);
    }
  }

  lemma AlikeTrans(tabs: map<nat, Entries>, tabs1: map<nat, Entries>, tabs2: map<nat, Entries>, region: set<nat>)
    requires Alike(tabs, tabs1, region) && Alike(tabs1, tabs2, region)
    ensures Alike(tabs, tabs2, region)
  {
    forall d | d in tabs && d !in region ensures tabs2[d] == tabs[d] { assert tabs1[d] == tabs[d]; }
  }

  lemma AlikeAll(tabs: map<nat, Entries>, tabs': map<nat, Entries>)
    requires Alike(tabs, tabs', {})
    ensures tabs' == tabs
  {
  }

  /** Making a table does just that, outside what waits to be rebuilt. */
  lemma JoinedMade(cls: Store, rank: map<nat, nat>, methods: MethodLists, hs: map<nat, nat>, ts: map<nat, Table>, ts': map<nat, Table>,
                   region: set<nat>, c: nat, t: nat)
    requires Held(cls, rank, methods, TabsOf(hs, ts), region) && Separate(hs, ts) && c in cls && c !in region
    requires Joined(cls, rank, methods, hs, ts, ts', c, t)
    ensures Alike(WithTable(cls, methods, TabsOf(hs, ts), c), TabsOf(hs[c := t], ts'), region)
  {
    var tabs, tabs' := TabsOf(hs, ts), TabsOf(hs[c := t], ts');
    forall d | d in hs ensures d in cls && hs[d] in ts' && d in tabs && d in tabs' {
      assert d in tabs && HeldAt(cls, rank, methods, tabs, region, d);
      assert OnlyInherited(hs, ts, ts', InhOf(cls, tabs, c), d);
    }
    assert c in tabs';
    forall d | d in tabs && d !in region && d != c ensures tabs'[d] == tabs[d] {
      JoinedUnchanged(cls, rank, methods, hs, ts, ts', region, c, t, d);
    }
  }

  /** A table answers for the selectors for which the walk finds something. */
  ghost predicate Covers(cls: Store, rank: map<nat, nat>, methods: MethodLists, tabs: map<nat, Entries>, d: nat, sel: nat)
    requires Known(cls, rank, methods)
  {
    d in cls && d in tabs && (Entry(tabs[d], sel).Some? <==> Walk(cls, rank, methods, d, sel).Some?)
  }

  /** Even where it repeats an implementation, a new table does. */
  lemma WithCovers(cls: Store, rank: map<nat, nat>, methods: MethodLists, tabs: map<nat, Entries>, c: nat, sel: nat)
    requires Known(cls, rank, methods) && OneOwner(methods) && c in cls
    requires cls[c].super.Some? ==> Covers(cls, rank, methods, tabs, cls[c].super.value, sel)
    requires forall k :: k in InhOf(cls, tabs, c) ==> InhOf(cls, tabs, c)[k] !in Flat(methods[c])
    ensures Covers(cls, rank, methods, WithTable(cls, methods, tabs, c), c, sel)
  {
    assert SuperOk(cls, rank, c);
    OverlayAt(InhOf(cls, tabs, c), Flat(methods[c]), sel);
  }
}
