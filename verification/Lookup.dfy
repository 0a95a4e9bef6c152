/** Method lookup by walking method lists, and what a dispatch table must hold to
    agree with it. */
module MethodLookup {
  import opened Basics
  import opened Hierarchy

  /** The entries of one dispatch table, by selector. */
  type Entries = map<nat, Method>

  function Entry(t: Entries, sel: nat): Option<Method> {
    if sel in t then Some(t[sel]) else None
  }

  /** The first method for `sel` in one method list. */
  function First(list: seq<Method>, sel: nat): (m: Option<Method>)
    ensures m.Some? ==> m.value in list && m.value.selector == sel
    ensures m.None? ==> forall x :: x in list ==> x.selector != sel
  {
    if list == [] then None
    else if list[0].selector == sel then Some(list[0])
    else First(list[1..], sel)
  }

  function Flat(lists: seq<seq<Method>>): seq<Method> {
    if lists == [] then [] else lists[0] + Flat(lists[1..])
  }

  /** The method that a class itself provides: its lists from front to back. */
  function Own(lists: seq<seq<Method>>, sel: nat): Option<Method> {
    First(Flat(lists), sel)
  }

  lemma {:induction false} FirstAppend(xs: seq<Method>, ys: seq<Method>, sel: nat)
    ensures First(xs + ys, sel) == if First(xs, sel).Some? then First(xs, sel) else First(ys, sel)
    decreases |xs|
  {
    if xs == [] {
      assert xs + ys == ys;
    } else {
      assert (xs + ys)[1..] == xs[1..] + ys;
      if xs[0].selector != sel { FirstAppend(xs[1..], ys, sel); }
    }
  }

  type MethodLists = map<nat, seq<seq<Method>>>

  ghost predicate Known(cls: Store, rank: map<nat, nat>, methods: MethodLists) {
    Ranked(cls, rank) && methods.Keys == cls.Keys
  }

  /** `class_getInstanceMethod` without dispatch tables: own lists, then the superclass's. */
  ghost function Walk(cls: Store, rank: map<nat, nat>, methods: MethodLists, c: nat, sel: nat): Option<Method>
    requires Known(cls, rank, methods) && c in cls
    decreases if c in rank then rank[c] else 0
  {
    assert SuperOk(cls, rank, c);
    var own := Own(methods[c], sel);
    if own.Some? then own
    else if cls[c].super.Some? then Walk(cls, rank, methods, cls[c].super.value, sel)
    else None
  }

  /** The walk depends only on the classes on the way up. */
  lemma {:induction false} WalkSame(cls: Store, rank: map<nat, nat>, methods: MethodLists, cls': Store, rank': map<nat, nat>, methods': MethodLists, c: nat, sel: nat)
    requires Known(cls, rank, methods) && Known(cls', rank', methods') && c in cls
    requires forall e {:trigger Desc(cls, rank, c, e)} :: e in cls && Desc(cls, rank, c, e) ==>
               e in cls' && cls'[e].super == cls[e].super && methods'[e] == methods[e]
    ensures c in cls' && Walk(cls', rank', methods', c, sel) == Walk(cls, rank, methods, c, sel)
    decreases if c in rank then rank[c] else 0
  {
    assert SuperOk(cls, rank, c) && Desc(cls, rank, c, c);
    if cls[c].super.Some? {
      forall e | e in cls && Desc(cls, rank, cls[c].super.value, e) ensures e in cls' && cls'[e].super == cls[e].super && methods'[e] == methods[e] {
        assert Desc(cls, rank, c, e);
      }
      WalkSame(cls, rank, methods, cls', rank', methods', cls[c].super.value, sel);
    }
  }

  /** Each method structure is in one class's lists, and there once. */
  ghost predicate OneOwner(methods: MethodLists) {
    && (forall c {:trigger Flat(methods[c])} :: c in methods ==> NoRepeats(Flat(methods[c])))
    && forall c, d, m {:trigger m in Flat(methods[c]), m in Flat(methods[d])} ::
         c in methods && d in methods && m in Flat(methods[c]) && m in Flat(methods[d]) ==> c == d
  }

  ghost predicate NoRepeats(ms: seq<Method>) {
    forall i, j :: 0 <= i < j < |ms| ==> ms[i] != ms[j]
  }

  /** The method found belongs to a class on the way up. */
  lemma {:induction false} WalkOwner(cls: Store, rank: map<nat, nat>, methods: MethodLists, c: nat, sel: nat)
    requires Known(cls, rank, methods) && c in cls && Walk(cls, rank, methods, c, sel).Some?
    ensures var m := Walk(cls, rank, methods, c, sel).value;
            m.selector == sel && exists a :: a in cls && Desc(cls, rank, c, a) && m in Flat(methods[a])
    decreases if c in rank then rank[c] else 0
  {
    assert SuperOk(cls, rank, c);
    if Own(methods[c], sel).Some? {
      assert Desc(cls, rank, c, c);
    } else {
      var s := cls[c].super.value;
      WalkOwner(cls, rank, methods, s, sel);
      var a :| a in cls && Desc(cls, rank, s, a) && Walk(cls, rank, methods, c, sel).value in Flat(methods[a]);
      assert Desc(cls, rank, c, a);
    }
  }

  /** The dispatch table of `c` answers as the walk does. */
  ghost predicate AgreeAt(cls: Store, rank: map<nat, nat>, methods: MethodLists, tabs: map<nat, Entries>, c: nat)
    requires Known(cls, rank, methods) && c in cls && c in tabs
  {
    forall sel: nat :: Entry(tabs[c], sel) == Walk(cls, rank, methods, c, sel)
  }

  ghost predicate Agree(cls: Store, rank: map<nat, nat>, methods: MethodLists, tabs: map<nat, Entries>)
    requires Known(cls, rank, methods)
  {
    forall c {:trigger AgreeAt(cls, rank, methods, tabs, c)} :: c in tabs && c in cls ==> AgreeAt(cls, rank, methods, tabs, c)
  }

  /** Tables exist from the top down. */
  ghost predicate SupersFirst(cls: Store, tabs: map<nat, Entries>) {
    forall c {:trigger c in tabs} :: c in tabs ==> c in cls && (cls[c].super.Some? ==> cls[c].super.value in tabs)
  }

  /** `d` gets its method for `sel` from `c` or from above `c`. */
  ghost predicate Inherits(cls: Store, rank: map<nat, nat>, methods: MethodLists, d: nat, c: nat, sel: nat)
    requires Known(cls, rank, methods) && d in cls
    decreases if d in rank then rank[d] else 0
  {
    assert SuperOk(cls, rank, d);
    d == c || (Own(methods[d], sel).None? && cls[d].super.Some? && Inherits(cls, rank, methods, cls[d].super.value, c, sel))
  }

  lemma {:induction false} InheritsWalk(cls: Store, rank: map<nat, nat>, methods: MethodLists, d: nat, c: nat, sel: nat)
    requires Known(cls, rank, methods) && d in cls && Inherits(cls, rank, methods, d, c, sel)
    ensures c in cls && Desc(cls, rank, d, c) && Walk(cls, rank, methods, d, sel) == Walk(cls, rank, methods, c, sel)
    decreases if d in rank then rank[d] else 0
  {
    assert SuperOk(cls, rank, d);
    if d != c { InheritsWalk(cls, rank, methods, cls[d].super.value, c, sel); }
  }

  /** A class below `c` that does not inherit from it answers with a method of a class
      strictly below `c`. */
  lemma {:induction false} OverridesWalk(cls: Store, rank: map<nat, nat>, methods: MethodLists, d: nat, c: nat, sel: nat) returns (e: nat)
    requires Known(cls, rank, methods) && d in cls && c in cls && Desc(cls, rank, d, c) && !Inherits(cls, rank, methods, d, c, sel)
    ensures e in cls && Desc(cls, rank, e, c) && e != c
    ensures Walk(cls, rank, methods, d, sel).Some? && Walk(cls, rank, methods, d, sel).value in Flat(methods[e])
    decreases if d in rank then rank[d] else 0
  {
    assert SuperOk(cls, rank, d);
    if Own(methods[d], sel).Some? {
      e := d;
    } else {
      e := OverridesWalk(cls, rank, methods, cls[d].super.value, c, sel);
    }
  }

  /** `d`'s walk over the old lists cannot return what `c` inherits, unless `d` inherits it too. */
  lemma InheritsExactly(cls: Store, rank: map<nat, nat>, methods: MethodLists, d: nat, c: nat, sel: nat)
    requires Known(cls, rank, methods) && OneOwner(methods) && d in cls && c in cls && Desc(cls, rank, d, c)
    ensures Inherits(cls, rank, methods, d, c, sel) <==>
            Walk(cls, rank, methods, d, sel) == Walk(cls, rank, methods, c, sel)
  {
    if Inherits(cls, rank, methods, d, c, sel) {
      InheritsWalk(cls, rank, methods, d, c, sel);
    } else {
      var e := OverridesWalk(cls, rank, methods, d, c, sel);
      var m := Walk(cls, rank, methods, d, sel);
      if m == Walk(cls, rank, methods, c, sel) {
        WalkOwner(cls, rank, methods, c, sel);
        var a :| a in cls && Desc(cls, rank, c, a) && m.value in Flat(methods[a]);
        DescUp(cls, rank, c, a);
        DescUp(cls, rank, e, c);
        NotBothWays(cls, rank, e, c, a);
      }
    }
  }

  lemma NotBothWays(cls: Store, rank: map<nat, nat>, e: nat, c: nat, a: nat)
    requires Ranked(cls, rank) && e in cls && c in cls && Desc(cls, rank, e, c) && Desc(cls, rank, c, a) && e != c
    ensures e != a
  {
    assert SuperOk(cls, rank, e);
    DescUp(cls, rank, cls[e].super.value, c);
    DescUp(cls, rank, c, a);
  }

  lemma {:induction false} FlatSnoc(lists: seq<seq<Method>>, k: nat)
    requires k < |lists|
    ensures Flat(lists[..k + 1]) == Flat(lists[..k]) + lists[k]
    decreases k
  {
    if k > 0 {
      assert lists[..k + 1][1..] == lists[1..][..k] && lists[..k][1..] == lists[1..][..k - 1];
      FlatSnoc(lists[1..], k - 1);
    } else {
      assert lists[..1][1..] == [] && lists[..0] == [];
    }
  }

  lemma {:induction false} FlatMembers(lists: seq<seq<Method>>, k: nat)
    requires k < |lists|
    ensures forall m :: m in lists[k] ==> m in Flat(lists)
    decreases k
  {
    if k > 0 { FlatMembers(lists[1..], k - 1); }
  }
}
