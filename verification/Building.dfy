/** Tables built from nothing and tables rebuilt after a move. */
module Building {
  import opened Basics
  import opened Hierarchy
  import opened MethodLookup
  import opened Installing

  /** `create_dtable_for_class`: a copy of the superclass's table, over which the
      class's methods are installed one by one, replacing only what was inherited. */
  function Overlay(inh: Entries, ms: seq<Method>): Entries {
    if ms == [] then inh
    else
      var t, m := Overlay(inh, ms[..|ms| - 1]), ms[|ms| - 1];
      if Replaces(Entry(t, m.selector), m, Entry(inh, m.selector), true) then t[m.selector := m] else t
  }

  lemma FirstSnoc(ms: seq<Method>, sel: nat)
    requires ms != []
    ensures var xs, m := ms[..|ms| - 1], ms[|ms| - 1];
            First(ms, sel) == if First(xs, sel).Some? then First(xs, sel) else if m.selector == sel then Some(m) else None
  {
    var xs, m := ms[..|ms| - 1], ms[|ms| - 1];
    assert ms == xs + [m];
    FirstAppend(xs, [m], sel);
  }

  lemma {:induction false} OverlayAt(inh: Entries, ms: seq<Method>, sel: nat)
    requires NoRepeats(ms) && (sel in inh ==> inh[sel] !in ms)
    ensures First(ms, sel) == None ==> Entry(Overlay(inh, ms), sel) == Entry(inh, sel)
    ensures First(ms, sel).Some? ==>
              (Entry(Overlay(inh, ms), sel) == First(ms, sel) <==> !(sel in inh && inh[sel].imp == First(ms, sel).value.imp))
    ensures Entry(Overlay(inh, ms), sel) == Entry(inh, sel) || (Entry(Overlay(inh, ms), sel).Some? && Entry(Overlay(inh, ms), sel).value in ms)
    decreases |ms|
  {
    if ms != [] {
      var xs, m := ms[..|ms| - 1], ms[|ms| - 1];
      assert forall x :: x in xs ==> x in ms;
      FirstSnoc(ms, sel);
      OverlayAt(inh, xs, sel);
      if First(xs, sel).Some? {
        assert First(xs, sel).value != m;
      }
    }
  }

  /** No method of the class has the implementation of the method it overrides. */
  ghost predicate Overridable(own: seq<seq<Method>>, inh: Entries) {
    forall sel: nat :: Own(own, sel).Some? && sel in inh ==> inh[sel].imp != Own(own, sel).value.imp
  }

  /** The table of a class agrees with the walk exactly when that is so. */
  lemma CreateExact(cls: Store, rank: map<nat, nat>, methods: MethodLists, c: nat, inh: Entries, tabs: map<nat, Entries>)
    requires Known(cls, rank, methods) && OneOwner(methods) && c in cls && c in tabs
    requires forall sel: nat :: Entry(inh, sel) ==
               if cls[c].super.Some? && cls[c].super.value in cls then Walk(cls, rank, methods, cls[c].super.value, sel) else None
    requires tabs[c] == Overlay(inh, Flat(methods[c]))
    ensures AgreeAt(cls, rank, methods, tabs, c) <==> Overridable(methods[c], inh)
  {
    forall sel: nat
      ensures Entry(tabs[c], sel) == Walk(cls, rank, methods, c, sel) <==>
              !(Own(methods[c], sel).Some? && sel in inh && inh[sel].imp == Own(methods[c], sel).value.imp)
    {
      assert SuperOk(cls, rank, c);
      assert sel in inh <==> Entry(inh, sel).Some?;
      if sel in inh { InheritedForeign(cls, rank, methods, c, sel); }
      OverlayAt(inh, Flat(methods[c]), sel);
    }
  }

  lemma InheritedForeign(cls: Store, rank: map<nat, nat>, methods: MethodLists, c: nat, sel: nat)
    requires Known(cls, rank, methods) && OneOwner(methods) && c in cls && cls[c].super.Some? && cls[c].super.value in cls
    requires Walk(cls, rank, methods, cls[c].super.value, sel).Some?
    ensures Walk(cls, rank, methods, cls[c].super.value, sel).value !in Flat(methods[c])
  {
    var s := cls[c].super.value;
    assert SuperOk(cls, rank, c);
    WalkOwner(cls, rank, methods, s, sel);
    var a :| a in cls && Desc(cls, rank, s, a) && Walk(cls, rank, methods, s, sel).value in Flat(methods[a]);
    DescUp(cls, rank, s, a);
  }

  /** The class's own methods are in its table, whatever it inherits. */
  ghost predicate OwnOk(methods: MethodLists, tabs: map<nat, Entries>, c: nat)
    requires c in methods && c in tabs
  {
    forall sel: nat :: Own(methods[c], sel).Some? ==> Entry(tabs[c], sel) == Own(methods[c], sel)
  }

  /** `rebaseDtableRecursive` on one class: own entries stay, the rest is the parent's. */
  ghost predicate Rebased(own: seq<seq<Method>>, t: Entries, parent: Entries, t': Entries) {
    forall sel: nat {:trigger Entry(t', sel)} :: Entry(t', sel) == if Own(own, sel).Some? then Entry(t, sel) else Entry(parent, sel)
  }

  /** Every class from `top` down that has a table has been rebased on its superclass's new one. */
  ghost predicate RebasedBelow(cls: Store, rank: map<nat, nat>, methods: MethodLists, tabs: map<nat, Entries>, top: nat, tabs': map<nat, Entries>)
    requires Known(cls, rank, methods)
  {
    && tabs'.Keys == tabs.Keys
    && forall d {:trigger tabs'[d]} :: d in tabs && d in cls ==>
         if Desc(cls, rank, d, top) && cls[d].super.Some? && cls[d].super.value in tabs
         then Rebased(methods[d], tabs[d], tabs'[cls[d].super.value], tabs'[d])
         else tabs'[d] == tabs[d]
  }

  lemma {:induction false} RebasedAgrees(cls: Store, rank: map<nat, nat>, methods: MethodLists, tabs: map<nat, Entries>, top: nat,
                                         tabs': map<nat, Entries>, d: nat)
    requires Known(cls, rank, methods) && SupersFirst(cls, tabs) && RebasedBelow(cls, rank, methods, tabs, top, tabs')
    requires top in tabs && top in cls && cls[top].super.Some?
    requires forall e {:trigger OwnOk(methods, tabs, e)} :: e in tabs && e in cls && Desc(cls, rank, e, top) ==> OwnOk(methods, tabs, e)
    requires AgreeAt(cls, rank, methods, tabs', cls[top].super.value)
    requires d in tabs && d in cls && Desc(cls, rank, d, top)
    ensures AgreeAt(cls, rank, methods, tabs', d)
    decreases if d in rank then rank[d] else 0
  {
    assert SuperOk(cls, rank, d) && OwnOk(methods, tabs, d);
    if d != top { RebasedAgrees(cls, rank, methods, tabs, top, tabs', cls[d].super.value); }
    assert Rebased(methods[d], tabs[d], tabs'[cls[d].super.value], tabs'[d]);
    forall sel: nat ensures Entry(tabs'[d], sel) == Walk(cls, rank, methods, d, sel) { }
  }

  /** Root 0, its subclass 1 and the subclass 2 of that. */
  function Chain(): Store {
    map[0 := Class(0, None, None, None, true, false),
        1 := Class(1, Some(0), None, None, true, false),
        2 := Class(2, Some(1), None, None, true, false)]
  }

  /** Class 2 overrides the root's method with the same implementation.  Its table keeps
      the root's entry, so that a method added to class 1 later replaces it: class 2 then
      dispatches to implementation 9 although its own list says 7. */
  lemma OverrideLost(tabs': map<nat, Entries>)
    requires var m1, m2, m3 := Method(1, 1, 7), Method(2, 1, 9), Method(3, 1, 7);
             var rank := map[0 := 0, 1 := 1, 2 := 2];
             var inh := map[1 := m1];
             BatchInstalled(Chain(), rank, map[0 := inh, 1 := inh, 2 := Overlay(inh, [m3])], 1, map[1 := m2], inh, tabs')
    ensures var m1, m2, m3 := Method(1, 1, 7), Method(2, 1, 9), Method(3, 1, 7);
            var rank := map[0 := 0, 1 := 1, 2 := 2];
            var methods := map[0 := [[m1]], 1 := [[m2]], 2 := [[m3]]];
            && 2 in tabs' && Entry(tabs'[2], 1) == Some(m2) && m2.imp == 9
            && Known(Chain(), rank, methods) && Walk(Chain(), rank, methods, 2, 1) == Some(m3) && m3.imp == 7
  {
    var m1, m2, m3 := Method(1, 1, 7), Method(2, 1, 9), Method(3, 1, 7);
    var rank := map[0 := 0, 1 := 1, 2 := 2];
    var inh := map[1 := m1];
    var methods := map[0 := [[m1]], 1 := [[m2]], 2 := [[m3]]];
    assert [m3][..|[m3]| - 1] == [] && Overlay(inh, []) == inh;
    var tabs := map[0 := inh, 1 := inh, 2 := Overlay(inh, [m3])];
    assert tabs[2] == inh;
    assert SuperOk(Chain(), rank, 2) && SuperOk(Chain(), rank, 1);
    assert Hit(Chain(), rank, tabs, 1, Some(m1), 1, 1) && Hit(Chain(), rank, tabs, 1, Some(m1), 1, 2);
    assert Entry(tabs'[2], 1) == BatchEntry(Chain(), rank, tabs, 1, map[1 := m2], inh, 2, 1);
    assert Flat([[m3]]) == [m3] by { assert [[m3]][1..] == []; }
  }
}
