/** `objc_resize_dtables`. */
module Resizing {
  import opened Basics
  import opened Trie
  import opened Hierarchy
  import opened SparseArrays
  import opened ClassTables
  import opened MethodLookup
  import opened Spreading
  import opened Caching
  import opened Settling
  import opened Dispatch
  import opened Starting

  function Deeper(t: Table): Table {
    t.(shift := t.shift + 8)
  }

  /** The tables of the classes in `done` have been expanded, the others have not. */
  ghost predicate Expanded(hs0: map<nat, nat>, ts0: map<nat, Table>, hs: map<nat, nat>, ts: map<nat, Table>, done: set<nat>) {
    && hs.Keys == hs0.Keys && Separate(hs0, ts0) && Separate(hs, ts)
    && forall d {:trigger ExpandedAt(hs0, ts0, hs, ts, done, d)} :: d in hs0 ==> ExpandedAt(hs0, ts0, hs, ts, done, d)
  }

  ghost predicate ExpandedAt(hs0: map<nat, nat>, ts0: map<nat, Table>, hs: map<nat, nat>, ts: map<nat, Table>, done: set<nat>, d: nat)
    requires d in hs0
  {
    && d in hs && hs0[d] in ts0 && hs[d] in ts
    && if d in done then ts[hs[d]] == Deeper(ts0[hs0[d]]) else hs[d] == hs0[d] && ts[hs[d]] == ts0[hs0[d]]
  }

  /** Nodes have been added and none has changed; new tables are new nodes. */
  ghost predicate Extends(h: Heap, ts: map<nat, Table>, h': Heap, ts': map<nat, Table>) {
    && (forall p {:trigger h[p]} :: p in h ==> p in h' && h'[p] == h[p])
    && (forall t {:trigger t in ts'} :: t in ts' && t !in ts ==> t !in h)
  }

  /** The node `t` is the first child of the table `u`. */
  ghost predicate FirstChild(h: Heap, u: nat, t: nat) {
    u in h && h[u].Inner? && |h[u].kids| > 0 && h[u].kids[0] == At(t)
  }

  /** It is, and no table any more. */
  ghost predicate Buried(h: Heap, ts: map<nat, Table>, u: nat, t: nat) {
    FirstChild(h, u, t) && t in h && t !in ts && u in ts
  }

  lemma BuriedStays(h: Heap, ts: map<nat, Table>, h': Heap, ts': map<nat, Table>, u: nat, t: nat)
    requires Buried(h, ts, u, t) && Extends(h, ts, h', ts') && u in ts'
    ensures Buried(h', ts', u, t)
  {
    assert h[u] == h'[u] && h[t] == h'[t];
  }

  /** The table `u` belongs to no class. */
  ghost predicate Unowned(hs: map<nat, nat>, ts: map<nat, Table>, u: nat) {
    u in ts && u !in hs.Values
  }

  lemma ExpandStep(hs0: map<nat, nat>, ts0: map<nat, Table>, hs: map<nat, nat>, ts: map<nat, Table>, done: set<nat>, d: nat, t': nat, ts': map<nat, Table>, u: nat)
    requires Expanded(hs0, ts0, hs, ts, done) && d in hs0 && d !in done && t' !in ts && Unowned(hs, ts, u)
    requires hs[d] in ts && ts' == (ts - {hs[d]})[t' := Deeper(ts[hs[d]])]
    ensures Expanded(hs0, ts0, hs[d := t'], ts', done + {d}) && Unowned(hs[d := t'], ts', u) && ts'[u] == ts[u]
  {
    var hs', done' := hs[d := t'], done + {d};
    assert ExpandedAt(hs0, ts0, hs, ts, done, d);
    forall e | e in hs0 ensures ExpandedAt(hs0, ts0, hs', ts', done', e) && hs'[e] in ts' && hs'[e] != u {
      assert ExpandedAt(hs0, ts0, hs, ts, done, e) && OwnTable(hs, d, e) && hs[e] in hs.Values;
    }
    forall e, f ensures OwnTable(hs', e, f) {
      assert OwnTable(hs, e, f);
      if e in hs0 { assert ExpandedAt(hs0, ts0, hs, ts, done, e); }
      if f in hs0 { assert ExpandedAt(hs0, ts0, hs, ts, done, f); }
    }
  }

  /** `SparseArrayExpandingArray` on the table of `d`. */
  method ExpandTable(a: Arena, d: nat, t: nat, newDepth: nat, u: nat, ghost hs0: map<nat, nat>, ghost ts0: map<nat, Table>, ghost hs: map<nat, nat>, ghost done: set<nat>)
    returns (t': nat)
    requires a.Valid() && Expanded(hs0, ts0, hs, a.tables, done) && d in hs0 && d !in done && d in hs && t == hs[d] && Unowned(hs, a.tables, u)
    requires t in ts0 && ts0[t].shift + 16 == newDepth <= 32
    modifies a
    ensures a.Valid() && Expanded(hs0, ts0, hs[d := t'], a.tables, done + {d})
    ensures Unowned(hs[d := t'], a.tables, u) && a.tables[u] == old(a.tables)[u] && Extends(old(a.heap), old(a.tables), a.heap, a.tables)
  {
    ghost var ts := a.tables;
    assert ExpandedAt(hs0, ts0, hs, ts, done, d);
    t' := a.Expand(t, newDepth);
    ExpandStep(hs0, ts0, hs, ts, done, d, t', a.tables, u);
  }

  /** Entry `j` of the look-aside list is the table of its class. */
  ghost predicate AsideIs(list: seq<(nat, nat)>, hs: map<nat, nat>, j: int) {
    0 <= j < |list| ==> list[j].0 in hs && list[j].1 == hs[list[j].0]
  }

  ghost predicate AsideAll(list: seq<(nat, nat)>, hs: map<nat, nat>) {
    forall j {:trigger AsideIs(list, hs, j)} :: AsideIs(list, hs, j)
  }

  /** The classes on the list. */
  ghost function Busy(list: seq<(nat, nat)>): set<nat> {
    set j | 0 <= j < |list| :: list[j].0
  }

  lemma AsideStep(list: seq<(nat, nat)>, hs: map<nat, nat>, i: nat, t': nat)
    requires AsideAll(list, hs) && i < |list| && forall k, j {:trigger Apart(list, k, j)} :: Apart(list, k, j)
    ensures var list' := list[i := (list[i].0, t')];
            && AsideAll(list', hs[list[i].0 := t'])
            && (forall k, j {:trigger Apart(list', k, j)} :: Apart(list', k, j))
  {
    var list', hs' := list[i := (list[i].0, t')], hs[list[i].0 := t'];
    forall j ensures AsideIs(list', hs', j) {
      assert AsideIs(list, hs, j) && Apart(list, i, j) && Apart(list, j, i);
    }
    forall k, j ensures Apart(list', k, j) { assert Apart(list, k, j); }
  }

  lemma BusyStep(list: seq<(nat, nat)>, i: nat)
    requires i < |list| && forall k, j {:trigger Apart(list, k, j)} :: Apart(list, k, j)
    ensures Busy(list[..i + 1]) == Busy(list[..i]) + {list[i].0} && list[i].0 !in Busy(list[..i])
  {
    forall j | 0 <= j < i ensures list[j].0 != list[i].0 { assert Apart(list, j, i); }
    assert forall d :: d in Busy(list[..i + 1]) ==> d in Busy(list[..i]) || d == list[i].0;
    forall d | d in Busy(list[..i]) ensures d in Busy(list[..i + 1]) {
      var j :| 0 <= j < i && list[..i][j].0 == d;
      assert list[..i + 1][j].0 == d;
    }
    assert list[..i + 1][i].0 == list[i].0;
  }

  /** The classes on the list stay the same. */
  ghost predicate SameClasses(list: seq<(nat, nat)>, list': seq<(nat, nat)>) {
    |list'| == |list| && forall j {:trigger list'[j]} :: 0 <= j < |list| ==> list'[j].0 == list[j].0
  }

  /** The loop over the look-aside list. */
  method ExpandAside(r: Runtime, u: nat, newDepth: nat, ghost ts0: map<nat, Table>) returns (ghost hs: map<nat, nat>)
    requires r.arena.Valid() && newDepth <= 32 && Expanded(r.handles, ts0, r.handles, r.arena.tables, {}) && Unowned(r.handles, r.arena.tables, u)
    requires AsideAll(r.temporary, r.handles) && forall k, j {:trigger Apart(r.temporary, k, j)} :: Apart(r.temporary, k, j)
    requires forall d {:trigger r.handles[d]} :: d in r.handles ==> r.handles[d] in ts0 && ts0[r.handles[d]].shift + 16 == newDepth
    modifies r.arena, r`temporary
    ensures r.arena.Valid() && Expanded(r.handles, ts0, hs, r.arena.tables, Busy(old(r.temporary)))
    ensures Unowned(hs, r.arena.tables, u) && r.arena.tables[u] == old(r.arena.tables)[u] && Extends(old(r.arena.heap), old(r.arena.tables), r.arena.heap, r.arena.tables)
    ensures AsideAll(r.temporary, hs) && SameClasses(old(r.temporary), r.temporary)
  {
    hs := r.handles;
    ghost var list0 := r.temporary;
    var i := 0;
    assert Busy(list0[..0]) == {};
    while i < |r.temporary|
      invariant r.arena.Valid() && 0 <= i <= |r.temporary| && SameClasses(list0, r.temporary)
      invariant Expanded(r.handles, ts0, hs, r.arena.tables, Busy(list0[..i]))
      invariant Unowned(hs, r.arena.tables, u) && r.arena.tables[u] == old(r.arena.tables)[u] && Extends(old(r.arena.heap), old(r.arena.tables), r.arena.heap, r.arena.tables)
      invariant AsideAll(r.temporary, hs) && forall k, j {:trigger Apart(r.temporary, k, j)} :: Apart(r.temporary, k, j)
    {
      BusyStep(list0, i);
      var d := r.temporary[i].0;
      assert AsideIs(r.temporary, hs, i) && ExpandedAt(r.handles, ts0, hs, r.arena.tables, Busy(list0[..i]), d);
      var t := ExpandTable(r.arena, d, r.temporary[i].1, newDepth, u, r.handles, ts0, hs, Busy(list0[..i]));
      AsideStep(r.temporary, hs, i, t);
      r.temporary := r.temporary[i := (d, t)];
      hs := hs[d := t];
      i := i + 1;
    }
    assert list0[..|list0|] == list0;
  }

  /** What `cls->dtable` held before, and what it holds once the classes in `seen` have been visited. */
  ghost predicate SwitchedAt(dtable0: map<nat, nat>, u0: nat, dtable: map<nat, nat>, u: nat, hs: map<nat, nat>, seen: set<nat>, d: nat) {
    d in dtable0 ==>
      && d in dtable
      && if d !in seen then dtable[d] == dtable0[d]
         else if dtable0[d] == u0 then dtable[d] == u
         else d in hs && dtable[d] == hs[d]
  }

  ghost predicate Switched(dtable0: map<nat, nat>, u0: nat, dtable: map<nat, nat>, u: nat, hs: map<nat, nat>, seen: set<nat>) {
    && dtable.Keys == dtable0.Keys
    && forall d {:trigger SwitchedAt(dtable0, u0, dtable, u, hs, seen, d)} :: SwitchedAt(dtable0, u0, dtable, u, hs, seen, d)
  }

  /** `done` is the classes on the look-aside list and those visited that have a table. */
  ghost predicate DoneIs(done: set<nat>, busy: set<nat>, dtable0: map<nat, nat>, u0: nat, seen: set<nat>) {
    forall d {:trigger d in done} :: d in done <==> d in busy || (d in seen && d in dtable0 && dtable0[d] != u0)
  }

  /** An installed table is the class's table, and the class is not on the look-aside list. */
  ghost predicate InstalledAt(dtable0: map<nat, nat>, u0: nat, hs0: map<nat, nat>, ts0: map<nat, Table>, busy: set<nat>, newDepth: nat, d: nat) {
    d in dtable0 && dtable0[d] != u0 ==>
      d in hs0 && hs0[d] == dtable0[d] && d !in busy && hs0[d] in ts0 && ts0[hs0[d]].shift + 16 == newDepth
  }

  ghost predicate AllInstalled(dtable0: map<nat, nat>, u0: nat, hs0: map<nat, nat>, ts0: map<nat, Table>, busy: set<nat>, newDepth: nat) {
    forall d {:trigger InstalledAt(dtable0, u0, hs0, ts0, busy, newDepth, d)} :: InstalledAt(dtable0, u0, hs0, ts0, busy, newDepth, d)
  }

  lemma SwitchStep(dtable0: map<nat, nat>, u0: nat, dtable: map<nat, nat>, u: nat, hs: map<nat, nat>, seen: set<nat>, d: nat, t: nat, dtable': map<nat, nat>, hs': map<nat, nat>)
    requires Switched(dtable0, u0, dtable, u, hs, seen) && d in dtable0 && d !in seen && dtable' == dtable[d := t]
    requires if dtable0[d] == u0 then t == u && hs' == hs else hs' == hs[d := t]
    ensures Switched(dtable0, u0, dtable', u, hs', seen + {d})
  {
    forall e ensures SwitchedAt(dtable0, u0, dtable', u, hs', seen + {d}, e) { assert SwitchedAt(dtable0, u0, dtable, u, hs, seen, e); }
  }

  /** The state of the loop over the class table, when the classes in `seen` have been visited. */
  ghost predicate Midway(r: Runtime, u0: nat, newDepth: nat, dtable0: map<nat, nat>, ts0: map<nat, Table>, busy: set<nat>, hs: map<nat, nat>, done: set<nat>, seen: set<nat>)
    reads r, r.arena
  {
    && r.arena.Valid() && Expanded(r.handles, ts0, hs, r.arena.tables, done) && Unowned(hs, r.arena.tables, r.uninstalled)
    && Switched(dtable0, u0, r.dtable, r.uninstalled, hs, seen) && DoneIs(done, busy, dtable0, u0, seen)
    && AllInstalled(dtable0, u0, r.handles, ts0, busy, newDepth)
    && AsideAll(r.temporary, hs) && AsideIn(r.temporary, busy)
    && Buried(r.arena.heap, r.arena.tables, r.uninstalled, u0)
  }

  ghost predicate AsideIn(list: seq<(nat, nat)>, busy: set<nat>) {
    forall j {:trigger list[j]} :: 0 <= j < |list| ==> list[j].0 in busy
  }

  lemma AsideKept(list: seq<(nat, nat)>, busy: set<nat>, hs: map<nat, nat>, d: nat, t: nat)
    requires AsideAll(list, hs) && AsideIn(list, busy) && d !in busy
    ensures AsideAll(list, hs[d := t])
  {
    var hs' := hs[d := t];
    forall j ensures AsideIs(list, hs', j) { assert AsideIs(list, hs, j); }
  }

  /** A class without an installed table gets the new `uninstalled_dtable`. */
  method Unset(r: Runtime, d: nat, u0: nat, newDepth: nat, ghost dtable0: map<nat, nat>, ghost ts0: map<nat, Table>, ghost busy: set<nat>,
               ghost hs: map<nat, nat>, ghost done: set<nat>, ghost seen: set<nat>)
    requires Midway(r, u0, newDepth, dtable0, ts0, busy, hs, done, seen) && d in dtable0 && d !in seen && dtable0[d] == u0
    modifies r`dtable
    ensures Midway(r, u0, newDepth, dtable0, ts0, busy, hs, done, seen + {d})
  {
    ghost var dtable := r.dtable;
    r.dtable := r.dtable[d := r.uninstalled];
    SwitchStep(dtable0, u0, dtable, r.uninstalled, hs, seen, d, r.uninstalled, r.dtable, hs);
  }

  /** An installed table is expanded. */
  method Deepen(r: Runtime, d: nat, u0: nat, newDepth: nat, ghost dtable0: map<nat, nat>, ghost ts0: map<nat, Table>, ghost busy: set<nat>,
                ghost hs: map<nat, nat>, ghost done: set<nat>, ghost seen: set<nat>) returns (ghost hs': map<nat, nat>, ghost done': set<nat>)
    requires Midway(r, u0, newDepth, dtable0, ts0, busy, hs, done, seen) && d in dtable0 && d !in seen && dtable0[d] != u0 && newDepth <= 32
    modifies r.arena, r`dtable
    ensures Midway(r, u0, newDepth, dtable0, ts0, busy, hs', done', seen + {d})
    ensures r.arena.tables[r.uninstalled] == old(r.arena.tables)[r.uninstalled]
  {
    ghost var dtable := r.dtable;
    assert SwitchedAt(dtable0, u0, dtable, r.uninstalled, hs, seen, d) && InstalledAt(dtable0, u0, r.handles, ts0, busy, newDepth, d);
    assert ExpandedAt(r.handles, ts0, hs, r.arena.tables, done, d);
    var t := ExpandTable(r.arena, d, r.dtable[d], newDepth, r.uninstalled, r.handles, ts0, hs, done);
    r.dtable := r.dtable[d := t];
    hs', done' := hs[d := t], done + {d};
    AsideKept(r.temporary, busy, hs, d, t);
    SwitchStep(dtable0, u0, dtable, r.uninstalled, hs, seen, d, t, r.dtable, hs');
  }

  /** One turn of the loop over the class table: a class and its metaclass. */
  method SwitchPair(r: Runtime, c: nat, u0: nat, oldShift: nat, newDepth: nat, ghost dtable0: map<nat, nat>, ghost ts0: map<nat, Table>, ghost busy: set<nat>,
                    ghost hs: map<nat, nat>, ghost done: set<nat>, ghost seen: set<nat>) returns (ghost hs': map<nat, nat>, ghost done': set<nat>)
    requires Midway(r, u0, newDepth, dtable0, ts0, busy, hs, done, seen) && newDepth <= 32 && newDepth == oldShift + 16
    requires c in r.classes.cls && !r.classes.cls[c].meta && TogetherAt(r.classes.cls, dtable0, u0, c)
    requires c !in seen && r.classes.cls[c].isa !in seen && r.classes.cls[c].isa != c
    modifies r.arena, r`dtable
    ensures Midway(r, u0, newDepth, dtable0, ts0, busy, hs', done', seen + {c, r.classes.cls[c].isa})
    ensures r.arena.tables[r.uninstalled] == old(r.arena.tables)[r.uninstalled]
  {
    var m := r.classes.cls[c].isa;
    assert SwitchedAt(dtable0, u0, r.dtable, r.uninstalled, hs, seen, c) && InstalledAt(dtable0, u0, r.handles, ts0, busy, newDepth, c);
    assert seen + {c} + {m} == seen + {c, m};
    hs', done' := hs, done;
    if r.dtable[c] == u0 {
      Unset(r, c, u0, newDepth, dtable0, ts0, busy, hs, done, seen);
      Unset(r, m, u0, newDepth, dtable0, ts0, busy, hs, done, seen + {c});
      return;
    }
    assert ExpandedAt(r.handles, ts0, hs, r.arena.tables, done, c);
    if r.arena.ShiftOf(r.dtable[c]) == oldShift {
      hs', done' := Deepen(r, c, u0, newDepth, dtable0, ts0, busy, hs, done, seen);
      hs', done' := Deepen(r, m, u0, newDepth, dtable0, ts0, busy, hs', done', seen + {c});
    }
  }

  /** The class table holds classes, each once, and no metaclass. */
  ghost predicate Listing(cls: Store, list: seq<nat>) {
    Distinct(list) && forall d {:trigger d in list} :: d in list ==> d in cls && !cls[d].meta
  }

  /** The class, or the class of the metaclass, is in the class table. */
  ghost predicate Entered(cls: Store, owner: map<nat, nat>, list: seq<nat>, d: nat) {
    d in cls && if cls[d].meta then d in owner && owner[d] in list else d in list
  }

  ghost predicate AllEntered(cls: Store, owner: map<nat, nat>, list: seq<nat>) {
    forall d {:trigger Entered(cls, owner, list, d)} :: d in cls ==> Entered(cls, owner, list, d)
  }

  /** `seen` is the classes in the first `k` places of the class table, and their metaclasses. */
  ghost predicate SeenIs(cls: Store, owner: map<nat, nat>, list: seq<nat>, k: nat, seen: set<nat>)
    requires k <= |list|
  {
    forall d {:trigger d in seen} :: d in seen <==> Entered(cls, owner, list[..k], d)
  }

  lemma SeenNext(cls: Store, owner: map<nat, nat>, list: seq<nat>, k: nat, seen: set<nat>)
    requires Pairs(cls, owner) && Listing(cls, list) && k < |list| && SeenIs(cls, owner, list, k, seen)
    ensures var c := list[k];
            && c in cls && !cls[c].meta && cls[c].isa != c && c !in seen && cls[c].isa !in seen
            && SeenIs(cls, owner, list, k + 1, seen + {c, cls[c].isa})
  {
    var c := list[k];
    assert c in list && PairOk(cls, owner, c);
    assert list[..k + 1] == list[..k] + [c];
    forall d ensures d in seen + {c, cls[c].isa} <==> Entered(cls, owner, list[..k + 1], d) {
      if d in cls { assert PairOk(cls, owner, d); }
      assert d in seen <==> Entered(cls, owner, list[..k], d);
    }
  }

  /** The loop over the class table. */
  method SwitchAll(r: Runtime, list: seq<nat>, u0: nat, oldShift: nat, newDepth: nat, ghost dtable0: map<nat, nat>, ghost ts0: map<nat, Table>,
                   ghost busy: set<nat>, ghost hs: map<nat, nat>) returns (ghost hs': map<nat, nat>, ghost done: set<nat>, ghost seen: set<nat>)
    requires Midway(r, u0, newDepth, dtable0, ts0, busy, hs, busy, {}) && newDepth <= 32 && newDepth == oldShift + 16
    requires Pairs(r.classes.cls, r.classes.owner) && Listing(r.classes.cls, list) && Together(r.classes.cls, dtable0, u0)
    modifies r.arena, r`dtable
    ensures Midway(r, u0, newDepth, dtable0, ts0, busy, hs', done, seen) && SeenIs(r.classes.cls, r.classes.owner, list, |list|, seen)
    ensures r.arena.tables[r.uninstalled] == old(r.arena.tables)[r.uninstalled]
  {
    ghost var cls := r.classes.cls;
    hs', done, seen := hs, busy, {};
    for k := 0 to |list|
      invariant Midway(r, u0, newDepth, dtable0, ts0, busy, hs', done, seen) && SeenIs(cls, r.classes.owner, list, k, seen)
      invariant r.arena.tables[r.uninstalled] == old(r.arena.tables)[r.uninstalled]
    {
      SeenNext(cls, r.classes.owner, list, k, seen);
      assert TogetherAt(cls, dtable0, u0, list[k]);
      hs', done := SwitchPair(r, list[k], u0, oldShift, newDepth, dtable0, ts0, busy, hs', done, seen);
      seen := seen + {list[k], cls[list[k]].isa};
    }
  }

  lemma ExpandStart(cls: Store, u0: nat, depth: nat, selectorCount: nat, hs: map<nat, nat>, ts: map<nat, Table>, u: nat, ts': map<nat, Table>)
    requires Layout(cls, u0, depth, selectorCount, hs, ts) && u !in ts && ts' == (ts - {u0})[u := Deeper(ts[u0])]
    ensures Expanded(hs, ts, hs, ts', {}) && Unowned(hs, ts', u)
    ensures forall d {:trigger hs[d]} :: d in hs ==> hs[d] in ts && ts[hs[d]].shift + 8 == depth && hs[d] != u0
  {
    forall d | d in hs ensures ExpandedAt(hs, ts, hs, ts', {}, d) && hs[d] in ts && ts[hs[d]].shift + 8 == depth && hs[d] != u && hs[d] != u0 {
      assert HandleOk(cls, u0, depth, selectorCount, hs, ts, d);
    }
  }

  /** Every table has been expanded: same entries, one level deeper. */
  lemma ExpandedLayout(cls: Store, u0: nat, depth: nat, selectorCount: nat, hs: map<nat, nat>, ts: map<nat, Table>, hs': map<nat, nat>, ts': map<nat, Table>, u: nat, done: set<nat>)
    requires Layout(cls, u0, depth, selectorCount, hs, ts) && Expanded(hs, ts, hs', ts', done) && hs.Keys <= done
    requires Unowned(hs', ts', u) && ts'[u].shift == depth && ts'[u].entries == map[]
    ensures Layout(cls, u, depth + 8, selectorCount, hs', ts') && TabsOf(hs', ts') == TabsOf(hs, ts)
  {
    forall d | d in hs' ensures HandleOk(cls, u, depth + 8, selectorCount, hs', ts', d) && d in hs && ts'[hs'[d]].entries == ts[hs[d]].entries {
      assert ExpandedAt(hs, ts, hs', ts', done, d) && HandleOk(cls, u0, depth, selectorCount, hs, ts, d) && hs'[d] in hs'.Values;
    }
  }

  lemma {:induction false} TemporaryBoth(list: seq<(nat, nat)>, list': seq<(nat, nat)>, hs': map<nat, nat>, d: nat, u0: nat, u: nat)
    requires SameClasses(list, list') && AsideAll(list', hs') && (forall j {:trigger list[j]} :: 0 <= j < |list| ==> list[j].1 != u0)
    ensures Temporary(list, d, u0) != u0 ==> d in hs' && Temporary(list', d, u) == hs'[d]
    ensures Temporary(list, d, u0) == u0 ==> Temporary(list', d, u) == u
    decreases |list|
  {
    if list != [] && list[0].0 != d {
      assert list'[0].0 == list[0].0;
      forall j ensures AsideIs(list'[1..], hs', j) { assert AsideIs(list', hs', j + 1); }
      forall j {:trigger list'[1..][j]} | 0 <= j < |list[1..]| ensures list'[1..][j].0 == list[1..][j].0 { assert list'[j + 1].0 == list[j + 1].0; }
      TemporaryBoth(list[1..], list'[1..], hs', d, u0, u);
    } else if list != [] {
      assert AsideIs(list', hs', 0) && list'[0].0 == list[0].0;
    }
  }

  lemma {:induction false} TemporaryAt(list: seq<(nat, nat)>, j: nat, u0: nat)
    requires j < |list| && forall i, k {:trigger Apart(list, i, k)} :: Apart(list, i, k)
    ensures Temporary(list, list[j].0, u0) == list[j].1
    decreases |list|
  {
    if j > 0 {
      assert Apart(list, 0, j);
      forall i, k ensures Apart(list[1..], i, k) { assert Apart(list, i + 1, k + 1); }
      TemporaryAt(list[1..], j - 1, u0);
    }
  }

  lemma {:induction false} TemporaryBusy(list: seq<(nat, nat)>, d: nat, u0: nat)
    requires Temporary(list, d, u0) != u0
    ensures d in Busy(list)
    decreases |list|
  {
    if list[0].0 == d {
      assert list[0].0 in Busy(list);
    } else {
      TemporaryBusy(list[1..], d, u0);
      var j :| 0 <= j < |list[1..]| && list[1..][j].0 == d;
      assert list[j + 1].0 == d;
    }
  }

  /** How the look-aside list and the installed tables stand when the resize begins. */
  lemma BeforeResize(dtable: map<nat, nat>, u0: nat, list: seq<(nat, nat)>, hs: map<nat, nat>, ts: map<nat, Table>, newDepth: nat)
    requires Tracking(dtable, u0, list, hs) && LookAside(dtable, u0, list)
    requires forall d {:trigger hs[d]} :: d in hs ==> hs[d] in ts && ts[hs[d]].shift + 16 == newDepth
    ensures AsideAll(list, hs) && AllInstalled(dtable, u0, hs, ts, Busy(list), newDepth)
  {
    forall j ensures AsideIs(list, hs, j) {
      if 0 <= j < |list| {
        assert Aside(dtable, u0, list, j) && TracksAt(dtable, u0, list, hs, list[j].0);
        TemporaryAt(list, j, u0);
      }
    }
    forall d ensures InstalledAt(dtable, u0, hs, ts, Busy(list), newDepth, d) {
      if d in dtable && dtable[d] != u0 {
        assert TracksAt(dtable, u0, list, hs, d);
        forall j | 0 <= j < |list| ensures list[j].0 != d { assert Aside(dtable, u0, list, j); }
      }
    }
  }

  /** When every class has been visited, every class that had a table still has its own. */
  lemma AfterResize(dtable0: map<nat, nat>, u0: nat, list0: seq<(nat, nat)>, hs0: map<nat, nat>,
                    dtable: map<nat, nat>, u: nat, list: seq<(nat, nat)>, hs: map<nat, nat>, ts: map<nat, Table>, done: set<nat>)
    requires Tracking(dtable0, u0, list0, hs0) && LookAside(dtable0, u0, list0)
    requires Switched(dtable0, u0, dtable, u, hs, dtable0.Keys) && AsideAll(list, hs) && SameClasses(list0, list)
    requires DoneIs(done, Busy(list0), dtable0, u0, dtable0.Keys) && Unowned(hs, ts, u) && hs.Keys == hs0.Keys
    ensures Tracking(dtable, u, list, hs) && LookAside(dtable, u, list) && hs.Keys <= done
  {
    forall j {:trigger list0[j]} | 0 <= j < |list0| ensures list0[j].1 != u0 { assert Aside(dtable0, u0, list0, j); }
    forall d: nat ensures TracksAt(dtable, u, list, hs, d) && (d in hs ==> d in done) {
      assert TracksAt(dtable0, u0, list0, hs0, d) && SwitchedAt(dtable0, u0, dtable, u, hs, dtable0.Keys, d);
      TemporaryBoth(list0, list, hs, d, u0, u);
      assert d in hs ==> hs[d] in hs.Values;
      if d in dtable0 && Temporary(list0, d, u0) != u0 { TemporaryBusy(list0, d, u0); }
    }
    forall i ensures Aside(dtable, u, list, i) {
      assert Aside(dtable0, u0, list0, i) && AsideIs(list, hs, i);
      if 0 <= i < |list| {
        assert list[i].0 == list0[i].0 && SwitchedAt(dtable0, u0, dtable, u, hs, dtable0.Keys, list[i].0) && hs[list[i].0] in hs.Values;
      }
    }
    forall i, j ensures Apart(list, i, j) { assert Apart(list0, i, j); }
  }

  /** `uninstalled_dtable` and the look-aside list are expanded. */
  method ExpandFirst(r: Runtime) returns (u0: nat, oldShift: nat, ghost hs: map<nat, nat>)
    requires r.arena.Valid() && r.Laid(r.handles) && r.depth <= 24
    requires Tracking(r.dtable, r.uninstalled, r.temporary, r.handles) && LookAside(r.dtable, r.uninstalled, r.temporary)
    modifies r.arena, r`depth, r`uninstalled, r`temporary
    ensures r.depth == old(r.depth) + 8 == oldShift + 16 && u0 == old(r.uninstalled)
    ensures Midway(r, u0, r.depth, r.dtable, old(r.arena.tables), Busy(old(r.temporary)), hs, Busy(old(r.temporary)), {})
    ensures SameClasses(old(r.temporary), r.temporary) && r.arena.tables[r.uninstalled].shift == old(r.depth) && r.arena.tables[r.uninstalled].entries == map[]
  {
    ghost var ts0, list0 := r.arena.tables, r.temporary;
    u0 := r.uninstalled;
    oldShift := r.arena.ShiftOf(u0);
    r.depth := r.depth + 8;
    assert u0 in r.arena.heap by { assert Shown(r.arena.heap, r.arena.roots, r.arena.tables, u0); }
    r.uninstalled := r.arena.Expand(u0, r.depth);
    assert Buried(r.arena.heap, r.arena.tables, r.uninstalled, u0);
    ghost var h1, ts1, u := r.arena.heap, r.arena.tables, r.uninstalled;
    ExpandStart(r.classes.cls, u0, r.depth - 8, r.selectorCount, r.handles, ts0, r.uninstalled, r.arena.tables);
    BeforeResize(r.dtable, u0, list0, r.handles, ts0, r.depth);
    hs := ExpandAside(r, r.uninstalled, r.depth, ts0);
    BuriedStays(h1, ts1, r.arena.heap, r.arena.tables, u, u0);
    SwitchStart(r.dtable, u0, r.uninstalled, hs, Busy(list0), list0, r.temporary);
  }

  /** Everything that `objc_resize_dtables` does once it has decided to. */
  method ExpandAll(r: Runtime, list: seq<nat>) returns (ghost hs: map<nat, nat>, ghost done: set<nat>, ghost seen: set<nat>)
    requires r.arena.Valid() && r.Laid(r.handles) && Pairs(r.classes.cls, r.classes.owner) && r.dtable.Keys == r.classes.cls.Keys && r.depth <= 24
    requires Tracking(r.dtable, r.uninstalled, r.temporary, r.handles) && LookAside(r.dtable, r.uninstalled, r.temporary)
    requires Together(r.classes.cls, r.dtable, r.uninstalled) && Listing(r.classes.cls, list)
    modifies r.arena, r`depth, r`uninstalled, r`temporary, r`dtable
    ensures r.depth == old(r.depth) + 8
    ensures Midway(r, old(r.uninstalled), r.depth, old(r.dtable), old(r.arena.tables), Busy(old(r.temporary)), hs, done, seen)
    ensures SeenIs(r.classes.cls, r.classes.owner, list, |list|, seen) && SameClasses(old(r.temporary), r.temporary)
    ensures r.arena.tables[r.uninstalled].shift == old(r.depth) && r.arena.tables[r.uninstalled].entries == map[]
  {
    ghost var ts0, dtable0, list0 := r.arena.tables, r.dtable, r.temporary;
    var u0, oldShift, hs1 := ExpandFirst(r);
    hs, done, seen := SwitchAll(r, list, u0, oldShift, r.depth, dtable0, ts0, Busy(list0), hs1);
  }

  lemma SwitchStart(dtable0: map<nat, nat>, u0: nat, u: nat, hs: map<nat, nat>, busy: set<nat>, list0: seq<(nat, nat)>, list: seq<(nat, nat)>)
    requires busy == Busy(list0) && SameClasses(list0, list)
    ensures Switched(dtable0, u0, dtable0, u, hs, {}) && DoneIs(busy, busy, dtable0, u0, {}) && AsideIn(list, busy)
  {
    forall d ensures SwitchedAt(dtable0, u0, dtable0, u, hs, {}, d) { }
    forall j {:trigger list[j]} | 0 <= j < |list| ensures list[j].0 in busy { assert list0[j].0 in Busy(list0); }
  }

  lemma TogetherDeep(cls: Store, owner: map<nat, nat>, dtable0: map<nat, nat>, u0: nat, dtable: map<nat, nat>, u: nat, hs: map<nat, nat>)
    requires Pairs(cls, owner) && Together(cls, dtable0, u0) && Switched(dtable0, u0, dtable, u, hs, cls.Keys) && u !in hs.Values
    requires dtable0.Keys == cls.Keys
    ensures Together(cls, dtable, u)
  {
    forall d | d in cls ensures TogetherAt(cls, dtable, u, d) {
      assert TogetherAt(cls, dtable0, u0, d) && PairOk(cls, owner, d);
      assert SwitchedAt(dtable0, u0, dtable, u, hs, cls.Keys, d) && SwitchedAt(dtable0, u0, dtable, u, hs, cls.Keys, cls[d].isa);
      assert d in hs ==> hs[d] in hs.Values;
      assert cls[d].isa in hs ==> hs[cls[d].isa] in hs.Values;
    }
  }

  /** A class that is in the class table: it has a table or has none as before, and if it has one,
      that has the same entries one level deeper. */
  ghost predicate Deepened(dtable0: map<nat, nat>, u0: nat, hs0: map<nat, nat>, ts0: map<nat, Table>,
                           dtable: map<nat, nat>, u: nat, hs: map<nat, nat>, ts: map<nat, Table>, d: nat) {
    && d in dtable0 && d in dtable && (dtable[d] == u <==> dtable0[d] == u0)
    && (d in hs <==> d in hs0)
    && (d in hs0 ==> hs0[d] in ts0 && hs[d] in ts && ts[hs[d]] == Deeper(ts0[hs0[d]]))
  }

  /** A class that is not: what is in its structure stays.  A table of its own is as shallow as before.
      The table of the classes without one now passes for its own, but is a node of the new table of
      those classes. */
  ghost predicate Forgotten(dtable0: map<nat, nat>, u0: nat, ts0: map<nat, Table>, dtable: map<nat, nat>, u: nat, ts: map<nat, Table>, h: Heap, d: nat) {
    && d in dtable0 && d in dtable && dtable[d] == dtable0[d] && dtable[d] != u
    && if dtable0[d] == u0 then dtable[d] !in ts && FirstChild(h, u, dtable[d]) else dtable[d] in ts0 && dtable[d] in ts && ts[dtable[d]] == ts0[dtable[d]]
  }

  lemma DeepenedSeen(cls: Store, dtable0: map<nat, nat>, u0: nat, list0: seq<(nat, nat)>, hs0: map<nat, nat>, ts0: map<nat, Table>,
                     dtable: map<nat, nat>, u: nat, hs: map<nat, nat>, ts: map<nat, Table>, done: set<nat>, seen: set<nat>, d: nat)
    requires Tracking(dtable0, u0, list0, hs0) && Switched(dtable0, u0, dtable, u, hs, seen) && DoneIs(done, Busy(list0), dtable0, u0, seen)
    requires Expanded(hs0, ts0, hs, ts, done) && Unowned(hs, ts, u) && d in seen && d in dtable0
    ensures Deepened(dtable0, u0, hs0, ts0, dtable, u, hs, ts, d)
  {
    assert TracksAt(dtable0, u0, list0, hs0, d) && SwitchedAt(dtable0, u0, dtable, u, hs, seen, d);
    assert d in hs ==> hs[d] in hs.Values;
    if d in hs0 {
      if dtable0[d] == u0 { TemporaryBusy(list0, d, u0); }
      assert d in done && ExpandedAt(hs0, ts0, hs, ts, done, d);
    }
  }

  lemma ForgottenUnseen(dtable0: map<nat, nat>, u0: nat, hs0: map<nat, nat>, ts0: map<nat, Table>, busy: set<nat>, newDepth: nat,
                        dtable: map<nat, nat>, u: nat, hs: map<nat, nat>, ts: map<nat, Table>, h: Heap, done: set<nat>, seen: set<nat>, d: nat)
    requires Switched(dtable0, u0, dtable, u, hs, seen) && DoneIs(done, busy, dtable0, u0, seen) && Expanded(hs0, ts0, hs, ts, done) && Unowned(hs, ts, u)
    requires AllInstalled(dtable0, u0, hs0, ts0, busy, newDepth) && Buried(h, ts, u, u0) && d in dtable0 && d !in seen
    ensures Forgotten(dtable0, u0, ts0, dtable, u, ts, h, d)
  {
    assert SwitchedAt(dtable0, u0, dtable, u, hs, seen, d) && InstalledAt(dtable0, u0, hs0, ts0, busy, newDepth, d);
    if dtable0[d] != u0 { assert ExpandedAt(hs0, ts0, hs, ts, done, d) && hs[d] in hs.Values; }
  }

  /** A class that was forgotten is one too many for the invariant. */
  lemma ForgottenBreaks(cls: Store, dtable0: map<nat, nat>, u0: nat, ts0: map<nat, Table>, dtable: map<nat, nat>, u: nat, temporary: seq<(nat, nat)>,
                        hs: map<nat, nat>, ts: map<nat, Table>, h: Heap, depth: nat, selectorCount: nat, d: nat)
    requires Forgotten(dtable0, u0, ts0, dtable, u, ts, h, d) && (dtable0[d] != u0 ==> ts0[dtable0[d]].shift + 8 != depth)
    requires Tracking(dtable, u, temporary, hs)
    ensures !Layout(cls, u, depth, selectorCount, hs, ts)
  {
    assert TracksAt(dtable, u, temporary, hs, d) && d in hs;
    assert !HandleOk(cls, u, depth, selectorCount, hs, ts, d);
  }

  /** `objc_resize_dtables`: when the indices in use no longer fit, the tables of all classes in the
      class table get one level deeper and keep their entries.  The invariant holds afterwards
      exactly when all classes are in the class table. */
  method Resize(r: Runtime, newSize: nat, list: seq<nat>, ghost region: set<nat>)
    requires r.Fixed() && Standing(r, region) && Listing(r.classes.cls, list)
    requires Capacity(r.depth - 8) > newSize || r.depth <= 24
    modifies r.arena, r`depth, r`uninstalled, r`temporary, r`dtable, r`handles
    ensures r.Fixed() && SameClasses(old(r.temporary), r.temporary)
    ensures old(Capacity(r.depth - 8)) > newSize ==>
              Standing(r, region) && r.depth == old(r.depth) && r.handles == old(r.handles) && r.arena.tables == old(r.arena.tables)
    ensures old(Capacity(r.depth - 8)) <= newSize ==>
              && r.depth == old(r.depth) + 8
              && (Standing(r, region) <==> AllEntered(r.classes.cls, r.classes.owner, list))
              && (AllEntered(r.classes.cls, r.classes.owner, list) ==> TabsOf(r.handles, r.arena.tables) == TabsOf(old(r.handles), old(r.arena.tables)))
              && forall d :: d in r.classes.cls ==>
                   if Entered(r.classes.cls, r.classes.owner, list, d)
                   then Deepened(old(r.dtable), old(r.uninstalled), old(r.handles), old(r.arena.tables), r.dtable, r.uninstalled, r.handles, r.arena.tables, d)
                   else Forgotten(old(r.dtable), old(r.uninstalled), old(r.arena.tables), r.dtable, r.uninstalled, r.arena.tables, r.arena.heap, d)
  {
    hide SparseArrays.Arena.Valid, Held, Deepened, Layout, Tracking, Together, LookAside, Paired;
    if Capacity(r.depth - 8) > newSize {
      return;
    }
    ghost var dtable0, u0, list0, ts0, hs0 := r.dtable, r.uninstalled, r.temporary, r.arena.tables, r.handles;
    ghost var hs, done, seen := ExpandAll(r, list);
    assert list[..|list|] == list;
    r.handles := hs;
    forall d | d in r.classes.cls
      ensures if Entered(r.classes.cls, r.classes.owner, list, d)
              then Deepened(dtable0, u0, hs0, ts0, r.dtable, r.uninstalled, hs, r.arena.tables, d)
              else Forgotten(dtable0, u0, ts0, r.dtable, r.uninstalled, r.arena.tables, r.arena.heap, d)
    {
      if d in seen {
        DeepenedSeen(r.classes.cls, dtable0, u0, list0, hs0, ts0, r.dtable, r.uninstalled, hs, r.arena.tables, done, seen, d);
      } else {
        ForgottenUnseen(dtable0, u0, hs0, ts0, Busy(list0), r.depth, r.dtable, r.uninstalled, hs, r.arena.tables, r.arena.heap, done, seen, d);
      }
    }
    if Standing(r, region) {
      forall d | d in r.classes.cls ensures Entered(r.classes.cls, r.classes.owner, list, d) {
        if d !in seen {
          assert InstalledAt(dtable0, u0, hs0, ts0, Busy(list0), r.depth, d);
          ForgottenBreaks(r.classes.cls, dtable0, u0, ts0, r.dtable, r.uninstalled, r.temporary, hs, r.arena.tables, r.arena.heap, r.depth, r.selectorCount, d);
        }
      }
    }
    if AllEntered(r.classes.cls, r.classes.owner, list) {
      assert seen == r.classes.cls.Keys by {
        forall d ensures d in seen <==> d in r.classes.cls { if d in r.classes.cls { assert Entered(r.classes.cls, r.classes.owner, list, d); } }
      }
      AfterAll(r, u0, dtable0, ts0, list0, hs0, hs, done, region);
    }
  }

  /** When all classes have been visited, the invariant holds again. */
  lemma AfterAll(r: Runtime, u0: nat, dtable0: map<nat, nat>, ts0: map<nat, Table>, list0: seq<(nat, nat)>, hs0: map<nat, nat>, hs: map<nat, nat>, done: set<nat>, region: set<nat>)
    requires r.Fixed() && r.handles == hs && r.initialized == hs0.Keys && dtable0.Keys == r.classes.cls.Keys && r.depth >= 16 && SameClasses(list0, r.temporary)
    requires r.arena.Valid() && Expanded(hs0, ts0, hs, r.arena.tables, done) && Unowned(hs, r.arena.tables, r.uninstalled)
    requires Switched(dtable0, u0, r.dtable, r.uninstalled, hs, r.classes.cls.Keys) && DoneIs(done, Busy(list0), dtable0, u0, r.classes.cls.Keys) && AsideAll(r.temporary, hs)
    requires r.arena.tables[r.uninstalled].shift + 8 == r.depth && r.arena.tables[r.uninstalled].entries == map[]
    requires Layout(r.classes.cls, u0, r.depth - 8, r.selectorCount, hs0, ts0) && Tracking(dtable0, u0, list0, hs0) && LookAside(dtable0, u0, list0)
    requires Together(r.classes.cls, dtable0, u0) && Paired(r.classes.cls, hs0) && Held(r.classes.cls, r.classes.rank, r.methods, TabsOf(hs0, ts0), region)
    ensures Standing(r, region) && TabsOf(hs, r.arena.tables) == TabsOf(hs0, ts0)
  {
    hide Held, SparseArrays.Arena.Valid;
    AfterResize(dtable0, u0, list0, hs0, r.dtable, r.uninstalled, r.temporary, hs, r.arena.tables, done);
    ExpandedLayout(r.classes.cls, u0, r.depth - 8, r.selectorCount, hs0, ts0, hs, r.arena.tables, r.uninstalled, done);
    TogetherDeep(r.classes.cls, r.classes.owner, dtable0, u0, r.dtable, r.uninstalled, hs);
    forall d | d in r.classes.cls ensures PairedAt(r.classes.cls, hs, d) { assert PairedAt(r.classes.cls, hs0, d); }
  }
}
