/** `class_setSuperclass` and the rebuilding of tables after it. */
module Relocating {
  import opened Basics
  import opened Trie
  import opened Hierarchy
  import opened SparseArrays
  import opened ClassTables
  import opened MethodLookup
  import opened Installing
  import opened Spreading
  import opened Building
  import opened Caching
  import opened Settling
  import opened Dispatch
  import opened Rebasing
  import Enumeration

  /** The new table of `d` is its old one rebased on its superclass's new one. */
  ghost predicate RebasedAt(cls: Store, methods: MethodLists, hs: map<nat, nat>, ts0: map<nat, Table>, ts: map<nat, Table>, d: nat)
    requires d in hs && d in cls
  {
    && d in methods && hs[d] in ts0 && hs[d] in ts && cls[d].super.Some? && cls[d].super.value in hs && hs[cls[d].super.value] in ts
    && Rebased(methods[d], ts0[hs[d]].entries, ts[hs[cls[d].super.value]].entries, ts[hs[d]].entries)
  }

  ghost predicate SameTable(hs: map<nat, nat>, ts0: map<nat, Table>, ts: map<nat, Table>, d: nat)
    requires d in hs
  {
    hs[d] in ts0 && hs[d] in ts && ts[hs[d]] == ts0[hs[d]]
  }

  /** Only tables of classes change, and none of them its depth. */
  ghost predicate Contained(hs: map<nat, nat>, ts0: map<nat, Table>, ts: map<nat, Table>) {
    && ts.Keys == ts0.Keys
    && forall t {:trigger ts[t]} :: t in ts0 ==> ts[t].shift == ts0[t].shift && (t !in hs.Values ==> ts[t] == ts0[t])
  }

  /** `c` and what lies below its first `i` subclasses have been rebased. */
  ghost predicate RebasedPart(cls: Store, rank: map<nat, nat>, methods: MethodLists, hs: map<nat, nat>, ts0: map<nat, Table>, ts: map<nat, Table>,
                              c: nat, xs: seq<nat>, i: nat)
    requires Ranked(cls, rank) && i <= |xs|
  {
    && Contained(hs, ts0, ts)
    && forall d {:trigger RebasedAt(cls, methods, hs, ts0, ts, d)} {:trigger SameTable(hs, ts0, ts, d)} :: d in hs && d in cls ==>
         if Under(cls, rank, c, xs, i, d) then RebasedAt(cls, methods, hs, ts0, ts, d) else SameTable(hs, ts0, ts, d)
  }

  /** `c` and everything below it has been rebased. */
  ghost predicate RebasedAll(cls: Store, rank: map<nat, nat>, methods: MethodLists, hs: map<nat, nat>, ts0: map<nat, Table>, ts: map<nat, Table>, c: nat)
    requires Ranked(cls, rank)
  {
    && Contained(hs, ts0, ts)
    && forall d {:trigger RebasedAt(cls, methods, hs, ts0, ts, d)} {:trigger SameTable(hs, ts0, ts, d)} :: d in hs && d in cls ==>
         if Desc(cls, rank, d, c) then RebasedAt(cls, methods, hs, ts0, ts, d) else SameTable(hs, ts0, ts, d)
  }

  /** Below `c`, tables exist from the top down. */
  ghost predicate TopDown(cls: Store, rank: map<nat, nat>, hs: map<nat, nat>, c: nat)
    requires Ranked(cls, rank)
  {
    forall d {:trigger d in hs} :: d in hs && d in cls && Desc(cls, rank, d, c) ==> cls[d].super.Some? && cls[d].super.value in hs
  }

  lemma RebaseStart(cls: Store, rank: map<nat, nat>, methods: MethodLists, hs: map<nat, nat>, ts: map<nat, Table>, ts': map<nat, Table>, c: nat, te: Entries, xs: seq<nat>)
    requires Ranked(cls, rank) && Separate(hs, ts) && c in hs && c in cls && c in methods && cls[c].super.Some? && cls[c].super.value in hs
    requires ts' == ts[hs[c] := ts[hs[c]].(entries := te)]
    requires Rebased(methods[c], ts[hs[c]].entries, ts[hs[cls[c].super.value]].entries, te)
    ensures RebasedPart(cls, rank, methods, hs, ts, ts', c, xs, 0)
  {
    assert SuperOk(cls, rank, c) && OwnTable(hs, c, cls[c].super.value);
    forall d | d in hs && d in cls
      ensures if Under(cls, rank, c, xs, 0, d) then RebasedAt(cls, methods, hs, ts, ts', d) else SameTable(hs, ts, ts', d)
    {
      assert OwnTable(hs, c, d);
    }
  }

  lemma RebaseStep(cls: Store, rank: map<nat, nat>, methods: MethodLists, hs: map<nat, nat>, ts0: map<nat, Table>, ts: map<nat, Table>, ts': map<nat, Table>,
                   c: nat, xs: seq<nat>, i: nat, d: nat)
    requires Ranked(cls, rank) && c in cls && Subclasses(cls, hs, c, xs) && i < |xs| && d in hs && d in cls
    requires RebasedPart(cls, rank, methods, hs, ts0, ts, c, xs, i) && RebasedAll(cls, rank, methods, hs, ts, ts', xs[i])
    ensures if Under(cls, rank, c, xs, i + 1, d) then RebasedAt(cls, methods, hs, ts0, ts', d) else SameTable(hs, ts0, ts', d)
  {
    var sub := xs[i];
    assert SuperOk(cls, rank, sub) && SuperOk(cls, rank, d) && SuperOk(cls, rank, c);
    if Desc(cls, rank, d, sub) {
      NotUnder(cls, rank, c, xs, i, d);
      assert Under(cls, rank, c, xs, i + 1, d);
      assert SameTable(hs, ts0, ts, d) && RebasedAt(cls, methods, hs, ts, ts', d);
    } else {
      assert Under(cls, rank, c, xs, i + 1, d) <==> Under(cls, rank, c, xs, i, d);
      assert SameTable(hs, ts, ts', d);
      if Under(cls, rank, c, xs, i, d) {
        assert RebasedAt(cls, methods, hs, ts0, ts, d);
        var s := cls[d].super.value;
        assert SameTable(hs, ts, ts', s);
      } else {
        assert SameTable(hs, ts0, ts, d);
      }
    }
  }

  lemma RebaseNext(cls: Store, rank: map<nat, nat>, methods: MethodLists, hs: map<nat, nat>, ts0: map<nat, Table>, ts: map<nat, Table>, ts': map<nat, Table>,
                   c: nat, xs: seq<nat>, i: nat)
    requires Ranked(cls, rank) && c in cls && Subclasses(cls, hs, c, xs) && i < |xs|
    requires RebasedPart(cls, rank, methods, hs, ts0, ts, c, xs, i)
    requires xs[i] in hs ==> RebasedAll(cls, rank, methods, hs, ts, ts', xs[i])
    requires xs[i] !in hs ==> ts' == ts && forall d :: d in hs && d in cls ==> !Desc(cls, rank, d, xs[i])
    ensures RebasedPart(cls, rank, methods, hs, ts0, ts', c, xs, i + 1)
  {
    forall d | d in hs && d in cls
      ensures if Under(cls, rank, c, xs, i + 1, d) then RebasedAt(cls, methods, hs, ts0, ts', d) else SameTable(hs, ts0, ts', d)
    {
      if xs[i] in hs {
        RebaseStep(cls, rank, methods, hs, ts0, ts, ts', c, xs, i, d);
      } else {
        assert Under(cls, rank, c, xs, i + 1, d) <==> Under(cls, rank, c, xs, i, d);
        assert RebasedAt(cls, methods, hs, ts0, ts, d) || SameTable(hs, ts0, ts, d);
      }
    }
  }

  lemma {:induction false} AllUnder(cls: Store, rank: map<nat, nat>, hs: map<nat, nat>, c: nat, xs: seq<nat>, d: nat)
    requires Ranked(cls, rank) && c in cls && Subclasses(cls, hs, c, xs) && TopDown(cls, rank, hs, c) && d in hs && d in cls && Desc(cls, rank, d, c)
    ensures Under(cls, rank, c, xs, |xs|, d)
    decreases if d in rank then rank[d] else 0
  {
    assert SuperOk(cls, rank, d);
    if d != c {
      var s := cls[d].super.value;
      if s == c {
        assert d in xs;
        var j :| 0 <= j < |xs| && xs[j] == d;
        assert Desc(cls, rank, d, xs[j]);
      } else {
        AllUnder(cls, rank, hs, c, xs, s);
        var j :| 0 <= j < |xs| && Desc(cls, rank, s, xs[j]);
        assert Desc(cls, rank, d, xs[j]);
      }
    }
  }

  lemma RebaseFinished(cls: Store, rank: map<nat, nat>, methods: MethodLists, hs: map<nat, nat>, ts0: map<nat, Table>, ts: map<nat, Table>, c: nat, xs: seq<nat>)
    requires Ranked(cls, rank) && c in cls && Subclasses(cls, hs, c, xs) && TopDown(cls, rank, hs, c)
    requires RebasedPart(cls, rank, methods, hs, ts0, ts, c, xs, |xs|)
    ensures RebasedAll(cls, rank, methods, hs, ts0, ts, c)
  {
    forall d | d in hs && d in cls ensures Under(cls, rank, c, xs, |xs|, d) <==> Desc(cls, rank, d, c) {
      if Desc(cls, rank, d, c) { AllUnder(cls, rank, hs, c, xs, d); }
      if Under(cls, rank, c, xs, |xs|, d) && d != c {
        var j :| 0 <= j < |xs| && Desc(cls, rank, d, xs[j]);
        assert SuperOk(cls, rank, xs[j]) && Desc(cls, rank, c, c) && Desc(cls, rank, xs[j], c);
        DescTrans(cls, rank, d, xs[j], c);
      }
    }
  }

  lemma HandleScannable(cls: Store, uninstalled: nat, depth: nat, selectorCount: nat, hs: map<nat, nat>, ts: map<nat, Table>, d: nat)
    requires Layout(cls, uninstalled, depth, selectorCount, hs, ts) && d in hs
    requires (depth == 8 && selectorCount <= Enumeration.Limit(0) - 1) || (depth == 16 && selectorCount <= Enumeration.Limit(8))
    ensures d in cls && hs[d] in ts && ts[hs[d]].shift + 8 == depth && Scannable(ts[hs[d]], selectorCount)
  {
    assert HandleOk(cls, uninstalled, depth, selectorCount, hs, ts, d);
  }

  lemma RebasedLayout(cls: Store, uninstalled: nat, depth: nat, selectorCount: nat, hs: map<nat, nat>, ts: map<nat, Table>, ts': map<nat, Table>, c: nat, te: Entries)
    requires Layout(cls, uninstalled, depth, selectorCount, hs, ts) && c in hs && hs[c] in ts
    requires ts' == ts[hs[c] := ts[hs[c]].(entries := te)] && Scannable(ts'[hs[c]], selectorCount)
    ensures Layout(cls, uninstalled, depth, selectorCount, hs, ts')
  {
    assert HandleOk(cls, uninstalled, depth, selectorCount, hs, ts, c);
    forall d | d in hs ensures HandleOk(cls, uninstalled, depth, selectorCount, hs, ts', d) {
      assert HandleOk(cls, uninstalled, depth, selectorCount, hs, ts, d) && OwnTable(hs, c, d);
    }
  }

  /** The table of one class. */
  method RebaseClass(r: Runtime, c: nat, newSuper: nat)
    requires r.arena.Valid() && r.Laid(r.handles) && r.Walkable() && r.Enumerates()
    requires c in r.handles && c in r.classes.cls && r.classes.cls[c].super == Some(newSuper) && newSuper in r.handles
    requires c in r.methods && forall m :: m in Flat(r.methods[c]) ==> Selector(m.selector, r.selectorCount)
    modifies r.arena
    ensures r.arena.Valid() && r.Laid(r.handles)
    ensures RebasedPart(r.classes.cls, r.classes.rank, r.methods, r.handles, old(r.arena.tables), r.arena.tables, c, r.classes.kids[c], 0)
  {
    ghost var cls, hs, ts := r.classes.cls, r.handles, r.arena.tables;
    HandleScannable(cls, r.uninstalled, r.depth, r.selectorCount, hs, ts, c);
    HandleScannable(cls, r.uninstalled, r.depth, r.selectorCount, hs, ts, newSuper);
    assert SuperOk(cls, r.classes.rank, c) && OwnTable(hs, c, newSuper);
    var parent := r.DtableForClass(newSuper);
    var t := r.DtableForClass(c);
    ghost var te := RebaseTable(r.arena, r.methods[c], parent, t, r.depth, r.selectorCount);
    RebasedLayout(cls, r.uninstalled, r.depth, r.selectorCount, hs, ts, r.arena.tables, c, te);
    RebaseStart(cls, r.classes.rank, r.methods, hs, ts, r.arena.tables, c, te, r.classes.kids[c]);
  }

  ghost predicate Rebasable(r: Runtime)
    reads r, r.classes, r.arena
  {
    && r.arena.Valid() && r.Laid(r.handles) && r.Walkable() && r.Enumerates()
    && r.methods.Keys == r.classes.cls.Keys && Registered(r.methods, r.selectorCount)
  }

  lemma TopDownBelow(cls: Store, rank: map<nat, nat>, hs: map<nat, nat>, c: nat, sub: nat)
    requires Ranked(cls, rank) && TopDown(cls, rank, hs, c) && c in cls && sub in cls && cls[sub].super == Some(c)
    ensures TopDown(cls, rank, hs, sub)
    ensures sub !in hs ==> forall d :: d in hs && d in cls ==> !Desc(cls, rank, d, sub)
  {
    assert SuperOk(cls, rank, sub) && Desc(cls, rank, c, c) && Desc(cls, rank, sub, c);
    forall d | d in hs && d in cls && Desc(cls, rank, d, sub) ensures Desc(cls, rank, d, c) && sub in hs {
      DescTrans(cls, rank, d, sub, c);
      AllTabled(cls, rank, hs, c, d, sub);
    }
  }

  lemma {:induction false} AllTabled(cls: Store, rank: map<nat, nat>, hs: map<nat, nat>, c: nat, d: nat, a: nat)
    requires Ranked(cls, rank) && TopDown(cls, rank, hs, c) && d in hs && d in cls && a in cls && Desc(cls, rank, d, a) && Desc(cls, rank, a, c)
    ensures a in hs
    decreases if d in rank then rank[d] else 0
  {
    assert SuperOk(cls, rank, d);
    if d != a {
      DescTrans(cls, rank, d, a, c);
      AllTabled(cls, rank, hs, c, cls[d].super.value, a);
    }
  }

  /** `rebaseDtableRecursive`. */
  method RebaseRecursive(r: Runtime, c: nat, newSuper: nat)
    requires Rebasable(r) && TopDown(r.classes.cls, r.classes.rank, r.handles, c)
    requires c in r.handles && c in r.classes.cls && r.classes.cls[c].super == Some(newSuper) && newSuper in r.handles
    modifies r.arena
    ensures Rebasable(r)
    ensures RebasedAll(r.classes.cls, r.classes.rank, r.methods, r.handles, old(r.arena.tables), r.arena.tables, c)
    decreases Below(r.classes.cls, r.classes.rank, c), 1
  {
    hide SparseArrays.Arena.Valid, Layout, Tracking, RebasedAll, RebasedPart;
    ghost var cls, rank, hs, ts0 := r.classes.cls, r.classes.rank, r.handles, r.arena.tables;
    KidsAre(cls, r.uninstalled, r.depth, r.selectorCount, hs, ts0, r.classes.kids, c);
    RebaseClass(r, c, newSuper);
    ghost var xs, i := r.classes.kids[c], 0;
    var sub := r.classes.cls[c].subclassList;
    while sub != None
      invariant 0 <= i <= |xs| && sub == if i < |xs| then Some(xs[i]) else None
      invariant Rebasable(r) && RebasedPart(cls, rank, r.methods, hs, ts0, r.arena.tables, c, xs, i)
      decreases |xs| - i
    {
      sub := RebaseKid(r, sub.value, c, ts0, i);
      i := i + 1;
    }
    RebaseFinished(cls, rank, r.methods, hs, ts0, r.arena.tables, c, xs);
  }

  method RebaseKid(r: Runtime, sub: nat, c: nat, ghost ts0: map<nat, Table>, ghost i: nat) returns (next: Option<nat>)
    requires Rebasable(r) && TopDown(r.classes.cls, r.classes.rank, r.handles, c) && c in r.handles && c in r.classes.cls
    requires i < |r.classes.kids[c]| && sub == r.classes.kids[c][i] && Subclasses(r.classes.cls, r.handles, c, r.classes.kids[c])
    requires RebasedPart(r.classes.cls, r.classes.rank, r.methods, r.handles, ts0, r.arena.tables, c, r.classes.kids[c], i)
    modifies r.arena
    ensures Rebasable(r) && next == After(r.classes.kids[c], i)
    ensures RebasedPart(r.classes.cls, r.classes.rank, r.methods, r.handles, ts0, r.arena.tables, c, r.classes.kids[c], i + 1)
    decreases Below(r.classes.cls, r.classes.rank, c), 0
  {
    ghost var cls, rank, ts := r.classes.cls, r.classes.rank, r.arena.tables;
    assert Desc(cls, rank, c, c);
    KidStep(cls, rank, r.classes.kids, c, i, c);
    TopDownBelow(cls, rank, r.handles, c, sub);
    var t := r.DtableForClass(sub);
    if t != r.uninstalled {
      RebaseRecursive(r, sub, c);
    }
    RebaseNext(cls, rank, r.methods, r.handles, ts0, ts, r.arena.tables, c, r.classes.kids[c], i);
    next := r.classes.cls[sub].siblingClass;
  }
}
