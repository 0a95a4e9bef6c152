/** `objc_send_initialize`, one call at a time. */
module Starting {
  import opened Basics
  import opened Trie
  import opened Hierarchy
  import opened SparseArrays
  import opened ClassTables
  import opened MethodLookup
  import opened Installing
  import opened Spreading
  import opened Building
  import opened Caching
  import opened Settling
  import opened Dispatch
  import opened Moving

  /** A class and its metaclass are about to get their tables. */
  ghost predicate Startable(cls: Store, hs: map<nat, nat>, c: nat) {
    && c in cls && !cls[c].meta && cls[c].resolved && cls[c].isa in cls && cls[cls[c].isa].resolved && cls[c].isa != c
    && c !in hs && cls[c].isa !in hs
    && (cls[c].super.Some? ==> cls[c].super.value in hs)
    && cls[cls[c].isa].super.Some?
    && (cls[cls[c].isa].super.value == c || cls[cls[c].isa].super.value in hs)
  }

  lemma CreatedJoined(cls: Store, rank: map<nat, nat>, methods: MethodLists, hs: map<nat, nat>, ts: map<nat, Table>, ts': map<nat, Table>,
                      c: nat, t: nat, inh: Entries, v: nat, v': nat)
    requires Known(cls, rank, methods) && c in cls && c !in hs && (cls[c].super.Some? ==> cls[c].super.value in hs)
    requires inh == InhOf(cls, TabsOf(hs, ts), c)
    requires Created(cls, rank, hs, ts, ts', c, t, Overlay(inh, Flat(methods[c])), inh, v, v')
    ensures Joined(cls, rank, methods, hs, ts, ts', c, t)
  {
  }

  /** A class that already has a table is not concerned by the making of another one outside `hs`. */
  lemma CreatedWider(cls: Store, rank: map<nat, nat>, hs: map<nat, nat>, ts: map<nat, Table>, ts': map<nat, Table>, m: nat, tm: nat,
                     entries: Entries, inh: Entries, v: nat, v': nat, c: nat, t: nat)
    requires Ranked(cls, rank) && Created(cls, rank, hs, ts, ts', m, tm, entries, inh, v, v')
    requires t in ts && t !in hs.Values && c !in hs && c != m
    ensures Created(cls, rank, hs[c := t], ts, ts', m, tm, entries, inh, v, v')
  {
    var hs' := hs[c := t];
    assert ts'[t] == ts[t];
    forall d | d in hs ensures hs[d] in hs'.Values { assert d in hs' && hs'[d] == hs[d]; }
    forall d | d in hs' && d in cls && hs'[d] in ts
      ensures hs'[d] in ts' && ts'[hs'[d]].shift == ts[hs'[d]].shift && OnlyInherited(hs', ts, ts', inh, d)
      ensures !Desc(cls, rank, d, m) ==> ts'[hs'[d]] == ts[hs'[d]]
    {
      if d != c {
        assert OnlyInherited(hs, ts, ts', inh, d);
        forall sel: nat ensures Slot(hs', ts', d, sel) == Slot(hs', ts, d, sel) || Slot(hs', ts, d, sel) == Entry(inh, sel) {
          assert Slot(hs, ts', d, sel) == Slot(hs, ts, d, sel) || Slot(hs, ts, d, sel) == Entry(inh, sel);
        }
      }
    }
    if v == v' {
      forall d, sel: nat | Slot(hs', ts, d, sel).Some? ensures Slot(hs', ts', d, sel) == Slot(hs', ts, d, sel) {
        if d != c { assert Slot(hs, ts', d, sel) == Slot(hs, ts, d, sel); }
      }
    }
  }

  /** One more class whose table is in place. */
  lemma LaidWider(cls: Store, uninstalled: nat, depth: nat, selectorCount: nat, hs: map<nat, nat>, ts: map<nat, Table>, c: nat, t: nat)
    requires Layout(cls, uninstalled, depth, selectorCount, hs, ts) && c in cls && cls[c].resolved && c !in hs
    requires t in ts && t != uninstalled && t !in hs.Values && ts[t].shift + 8 == depth
    requires forall sel :: sel in ts[t].entries ==> Selector(sel, selectorCount)
    ensures Layout(cls, uninstalled, depth, selectorCount, hs[c := t], ts)
  {
    var hs' := hs[c := t];
    forall d | d in hs' ensures HandleOk(cls, uninstalled, depth, selectorCount, hs', ts, d) {
      if d != c { assert HandleOk(cls, uninstalled, depth, selectorCount, hs, ts, d); }
    }
    forall d, e ensures OwnTable(hs', d, e) { assert OwnTable(hs, d, e); }
  }

  lemma SpareFrom(cls: Store, uninstalled: nat, depth: nat, selectorCount: nat, hs: map<nat, nat>, ts: map<nat, Table>, c: nat, t: nat)
    requires Layout(cls, uninstalled, depth, selectorCount, hs[c := t], ts) && c !in hs
    ensures t in ts && t != uninstalled && t !in hs.Values && ts[t].shift + 8 == depth
    ensures forall sel :: sel in ts[t].entries ==> Selector(sel, selectorCount)
  {
    var hs' := hs[c := t];
    assert HandleOk(cls, uninstalled, depth, selectorCount, hs', ts, c) && hs'[c] == t;
    forall d | d in hs ensures hs[d] != t { assert OwnTable(hs', c, d) && hs'[d] == hs[d]; }
  }

  /** The call of `create_dtable_for_class` for the class. */
  method MakeClassTable(r: Runtime, c: nat) returns (t: nat)
    requires r.Valid() && Startable(r.classes.cls, r.handles, c)
    modifies r.arena, r`version
    ensures r.arena.Valid() && r.Laid(r.handles) && r.Spare(t)
    ensures Separate(r.handles, old(r.arena.tables)) && Separate(r.handles[c := t], r.arena.tables)
    ensures Joined(r.classes.cls, r.classes.rank, r.methods, r.handles, old(r.arena.tables), r.arena.tables, c, t)
    ensures Cached(r.handles, old(r.arena.tables), old(r.version), r.arena.tables, r.version)
  {
    ghost var cls, hs, ts0, v0 := r.classes.cls, r.handles, r.arena.tables, r.version;
    assert r.Inherited(c, r.uninstalled) == InhOf(cls, TabsOf(hs, ts0), c);
    t := r.Create(c, r.uninstalled);
    SpareFrom(cls, r.uninstalled, r.depth, r.selectorCount, hs, r.arena.tables, c, t);
    CreatedJoined(cls, r.classes.rank, r.methods, hs, ts0, r.arena.tables, c, t, InhOf(cls, TabsOf(hs, ts0), c), v0, r.version);
  }

  lemma MetaJoined(cls: Store, rank: map<nat, nat>, methods: MethodLists, uninstalled: nat, depth: nat, selectorCount: nat, hs: map<nat, nat>,
                   ts: map<nat, Table>, ts': map<nat, Table>, c: nat, t: nat, m: nat, tm: nat, v: nat, v': nat)
    requires Known(cls, rank, methods) && Startable(cls, hs, c) && m == cls[c].isa
    requires t in ts && t != uninstalled && t !in hs.Values && ts[t].shift + 8 == depth && tm !in ts
    requires forall sel :: sel in ts[t].entries ==> Selector(sel, selectorCount)
    requires Layout(cls, uninstalled, depth, selectorCount, hs[m := tm], ts')
    requires var inh := InhOf(cls, TabsOf(hs[c := t], ts), m); Created(cls, rank, hs, ts, ts', m, tm, Overlay(inh, Flat(methods[m])), inh, v, v')
    ensures tm != uninstalled && Layout(cls, uninstalled, depth, selectorCount, hs[c := t][m := tm], ts')
    ensures Joined(cls, rank, methods, hs[c := t], ts, ts', m, tm)
  {
    var inh := InhOf(cls, TabsOf(hs[c := t], ts), m);
    SpareFrom(cls, uninstalled, depth, selectorCount, hs, ts', m, tm);
    LaidWider(cls, uninstalled, depth, selectorCount, hs[m := tm], ts', c, t);
    assert hs[m := tm][c := t] == hs[c := t][m := tm];
    CreatedWider(cls, rank, hs, ts, ts', m, tm, Overlay(inh, Flat(methods[m])), inh, v, v', c, t);
    CreatedJoined(cls, rank, methods, hs[c := t], ts, ts', m, tm, inh, v, v');
  }

  /** The call for the metaclass; a root metaclass starts from the class's table `t`. */
  method MakeMetaTable(r: Runtime, c: nat, t: nat) returns (tm: nat)
    requires r.Valid() && Startable(r.classes.cls, r.handles, c) && r.Spare(t)
    modifies r.arena, r`version
    ensures r.arena.Valid() && tm != r.uninstalled && r.Laid(r.handles[c := t][r.classes.cls[c].isa := tm])
    ensures Joined(r.classes.cls, r.classes.rank, r.methods, r.handles[c := t], old(r.arena.tables), r.arena.tables, r.classes.cls[c].isa, tm)
    ensures Cached(r.handles, old(r.arena.tables), old(r.version), r.arena.tables, r.version)
  {
    ghost var cls, hs, ts0, v0 := r.classes.cls, r.handles, r.arena.tables, r.version;
    var m := r.classes.cls[c].isa;
    assert r.Inherited(m, t) == InhOf(cls, TabsOf(hs[c := t], ts0), m);
    tm := r.Create(m, t);
    MetaJoined(cls, r.classes.rank, r.methods, r.uninstalled, r.depth, r.selectorCount, hs, ts0, r.arena.tables, c, t, m, tm, v0, r.version);
  }

  /** Both tables are made; they are not registered anywhere yet. */
  method MakeTables(r: Runtime, c: nat, m: nat, ghost region: set<nat>) returns (t: nat, tm: nat, ghost hs: map<nat, nat>)
    requires r.Valid() && Startable(r.classes.cls, r.handles, c) && m == r.classes.cls[c].isa
    requires Held(r.classes.cls, r.classes.rank, r.methods, TabsOf(r.handles, r.arena.tables), region) && c !in region && m !in region
    modifies r.arena, r`version
    ensures r.arena.Valid() && t != r.uninstalled && tm != r.uninstalled && hs == r.handles[c := t][m := tm]
    ensures r.Laid(hs) && tm in r.arena.tables && r.arena.tables[tm].shift == r.depth - 8
    ensures Started(r.classes.cls, r.classes.rank, r.methods, r.handles, old(r.arena.tables), hs, r.arena.tables, region)
    ensures Alike(PairMade(r.classes.cls, r.methods, TabsOf(r.handles, old(r.arena.tables)), c), TabsOf(hs, r.arena.tables), region)
    ensures Cached(r.handles, old(r.arena.tables), old(r.version), r.arena.tables, r.version)
  {
    hide SparseArrays.Arena.Valid, Tracking, Cached, Held, Started, Alike, PairMade, Joined;
    ghost var cls, rank, ts0, v0 := r.classes.cls, r.classes.rank, r.arena.tables, r.version;
    t := MakeClassTable(r, c);
    ghost var ts1, v1 := r.arena.tables, r.version;
    tm := MakeMetaTable(r, c, t);
    hs := r.handles[c := t][m := tm];
    ShiftOf(cls, r.uninstalled, r.depth, r.selectorCount, r.handles[c := t], r.arena.tables, m, tm);
    StartedFrom(cls, rank, r.methods, r.handles, ts0, ts1, r.arena.tables, region, c, t, m, tm);
    CachedTrans(r.handles, ts0, v0, ts1, v1, r.arena.tables, r.version);
  }

  /** From `hs` to `hs'` more classes have got tables; agreement is kept exactly when all
      of these are distinctive. */
  ghost predicate Started(cls: Store, rank: map<nat, nat>, methods: MethodLists, hs: map<nat, nat>, ts: map<nat, Table>,
                          hs': map<nat, nat>, ts': map<nat, Table>, region: set<nat>)
    requires Known(cls, rank, methods)
  {
    && Held(cls, rank, methods, TabsOf(hs', ts'), region)
    && (AgreeOutside(cls, rank, methods, TabsOf(hs', ts'), region) <==>
          AgreeOutside(cls, rank, methods, TabsOf(hs, ts), region) && AllDistinctive(cls, rank, methods, hs, hs'))
  }

  ghost predicate AllDistinctive(cls: Store, rank: map<nat, nat>, methods: MethodLists, hs: map<nat, nat>, hs': map<nat, nat>)
    requires Known(cls, rank, methods)
  {
    forall x {:trigger Distinctive(cls, rank, methods, x)} :: x in hs' && x !in hs && x in cls ==> Distinctive(cls, rank, methods, x)
  }

  lemma StartedFrom(cls: Store, rank: map<nat, nat>, methods: MethodLists, hs: map<nat, nat>, ts0: map<nat, Table>, ts1: map<nat, Table>,
                    ts2: map<nat, Table>, region: set<nat>, c: nat, t: nat, m: nat, tm: nat)
    requires Held(cls, rank, methods, TabsOf(hs, ts0), region) && c in cls && m in cls && c != m && c !in region && m !in region
    requires Separate(hs, ts0) && Joined(cls, rank, methods, hs, ts0, ts1, c, t)
    requires Separate(hs[c := t], ts1) && Joined(cls, rank, methods, hs[c := t], ts1, ts2, m, tm)
    ensures Started(cls, rank, methods, hs, ts0, hs[c := t][m := tm], ts2, region)
    ensures m == cls[c].isa ==> Alike(PairMade(cls, methods, TabsOf(hs, ts0), c), TabsOf(hs[c := t][m := tm], ts2), region)
  {
    JoinedHeld(cls, rank, methods, hs, ts0, ts1, region, c, t);
    JoinedAgrees(cls, rank, methods, hs, ts0, ts1, region, c, t);
    JoinedHeld(cls, rank, methods, hs[c := t], ts1, ts2, region, m, tm);
    JoinedAgrees(cls, rank, methods, hs[c := t], ts1, ts2, region, m, tm);
    var tabs0, tabs1 := TabsOf(hs, ts0), TabsOf(hs[c := t], ts1);
    JoinedMade(cls, rank, methods, hs, ts0, ts1, region, c, t);
    JoinedMade(cls, rank, methods, hs[c := t], ts1, ts2, region, m, tm);
    AlikeWith(cls, rank, methods, WithTable(cls, methods, tabs0, c), tabs1, region, m);
    AlikeTrans(WithTable(cls, methods, WithTable(cls, methods, tabs0, c), m), WithTable(cls, methods, tabs1, m), TabsOf(hs[c := t][m := tm], ts2), region);
  }

  lemma TrackInstalled(dtable: map<nat, nat>, uninstalled: nat, temporary: seq<(nat, nat)>, handles: map<nat, nat>, c: nat, t: nat)
    requires Tracking(dtable, uninstalled, temporary, handles) && c in dtable && t != uninstalled
    ensures Tracking(dtable[c := t], uninstalled, temporary, handles[c := t])
  {
    var dtable', handles' := dtable[c := t], handles[c := t];
    forall d: nat ensures TracksAt(dtable', uninstalled, temporary, handles', d) {
      assert TracksAt(dtable, uninstalled, temporary, handles, d);
    }
  }

  lemma TrackPushed(dtable: map<nat, nat>, uninstalled: nat, temporary: seq<(nat, nat)>, handles: map<nat, nat>, c: nat, t: nat)
    requires Tracking(dtable, uninstalled, temporary, handles) && c in dtable && dtable[c] == uninstalled && t != uninstalled
    ensures Tracking(dtable, uninstalled, [(c, t)] + temporary, handles[c := t])
  {
    var list, handles' := [(c, t)] + temporary, handles[c := t];
    assert list[1..] == temporary;
    forall d: nat ensures TracksAt(dtable, uninstalled, list, handles', d) {
      assert TracksAt(dtable, uninstalled, temporary, handles, d);
    }
  }

  /** A table that is installed need not be in the look-aside list. */
  lemma TrackMoved(dtable: map<nat, nat>, uninstalled: nat, before: seq<(nat, nat)>, after: seq<(nat, nat)>, handles: map<nat, nat>, c: nat, t: nat)
    requires Tracking(dtable, uninstalled, before + [(c, t)] + after, handles)
    requires c in dtable && dtable[c] == uninstalled && t != uninstalled && forall i :: 0 <= i < |before| ==> before[i].0 != c
    ensures Tracking(dtable[c := t], uninstalled, before + after, handles)
  {
    var list, list', dtable' := before + [(c, t)] + after, before + after, dtable[c := t];
    forall d: nat ensures TracksAt(dtable', uninstalled, list', handles, d) {
      assert TracksAt(dtable, uninstalled, list, handles, d);
      TemporaryMid(before, after, c, t, d, uninstalled);
    }
  }

  lemma {:induction false} TemporaryMid(before: seq<(nat, nat)>, after: seq<(nat, nat)>, c: nat, t: nat, d: nat, otherwise: nat)
    requires forall i :: 0 <= i < |before| ==> before[i].0 != c
    ensures Temporary(before + [(c, t)] + after, d, otherwise) == if d == c then t else Temporary(before + after, d, otherwise)
    decreases |before|
  {
    if before == [] {
      assert before + [(c, t)] + after == [(c, t)] + after && before + after == after && ([(c, t)] + after)[1..] == after;
    } else {
      assert (before + [(c, t)] + after)[1..] == before[1..] + [(c, t)] + after && (before + after)[1..] == before[1..] + after;
      assert forall i :: 0 <= i < |before[1..]| ==> before[1..][i] == before[i + 1];
      TemporaryMid(before[1..], after, c, t, d, otherwise);
    }
  }

  /** The entries of `c` and its metaclass `m` on the look-aside list start at `k`. */
  ghost predicate InProgress(dtable: map<nat, nat>, uninstalled: nat, temporary: seq<(nat, nat)>, c: nat, m: nat, k: nat) {
    && k + 1 < |temporary| && temporary[k].0 == m && temporary[k + 1].0 == c
    && c in dtable && m in dtable && dtable[c] == uninstalled && dtable[m] == uninstalled
    && temporary[k].1 != uninstalled && temporary[k + 1].1 != uninstalled
    && forall i, j {:trigger Apart(temporary, i, j)} :: Apart(temporary, i, j)
  }

  lemma RemovedTrack(dtable: map<nat, nat>, uninstalled: nat, temporary: seq<(nat, nat)>, handles: map<nat, nat>, c: nat, m: nat, k: nat)
    requires Tracking(dtable, uninstalled, temporary, handles) && InProgress(dtable, uninstalled, temporary, c, m, k)
    ensures Tracking(dtable[m := temporary[k].1][c := temporary[k + 1].1], uninstalled, temporary[..k] + temporary[k + 2..], handles)
  {
    var before, after, t, tm := temporary[..k], temporary[k + 2..], temporary[k + 1].1, temporary[k].1;
    assert temporary == before + [(m, tm)] + ([(c, t)] + after) && Apart(temporary, k, k + 1);
    forall i | 0 <= i < k ensures before[i].0 != c && before[i].0 != m {
      assert Apart(temporary, i, k) && Apart(temporary, i, k + 1);
    }
    TrackMoved(dtable, uninstalled, before, [(c, t)] + after, handles, m, tm);
    assert before + ([(c, t)] + after) == before + [(c, t)] + after;
    TrackMoved(dtable[m := tm], uninstalled, before, after, handles, c, t);
  }

  /** `remove_dtable`: both tables are installed and leave the list; every class keeps the
      table that it had. */
  method RemoveDtable(r: Runtime, c: nat, m: nat, ghost k: nat)
    requires InProgress(r.dtable, r.uninstalled, r.temporary, c, m, k) && Tracking(r.dtable, r.uninstalled, r.temporary, r.handles)
    modifies r`dtable, r`temporary
    ensures Tracking(r.dtable, r.uninstalled, r.temporary, r.handles)
    ensures r.temporary == old(r.temporary)[..k] + old(r.temporary)[k + 2..]
    ensures r.dtable == old(r.dtable)[m := old(r.temporary)[k].1][c := old(r.temporary)[k + 1].1]
  {
    ghost var list := r.temporary;
    var at := 0;
    if r.temporary[0].0 != m {
      var prev := 0;
      while r.temporary[prev + 1].0 != m
        invariant prev < k && r.temporary == list
        decreases k - prev
      {
        prev := prev + 1;
      }
      at := prev + 1;
    }
    assert Apart(list, at, k) && Apart(list, k, at);
    RemovedTrack(r.dtable, r.uninstalled, r.temporary, r.handles, c, m, k);
    r.dtable := r.dtable[m := r.temporary[at].1][c := r.temporary[at + 1].1];
    r.temporary := r.temporary[..at] + r.temporary[at + 2..];
  }

  /** A class has a table when its metaclass does. */
  ghost predicate PairedAt(cls: Store, hs: map<nat, nat>, d: nat)
    requires d in cls
  {
    !cls[d].meta ==> (d in hs <==> cls[d].isa in hs)
  }

  ghost predicate Paired(cls: Store, hs: map<nat, nat>) {
    forall d {:trigger PairedAt(cls, hs, d)} :: d in cls ==> PairedAt(cls, hs, d)
  }

  /** The look-aside list names each class once, and none that has an installed table. */
  ghost predicate LookAside(dtable: map<nat, nat>, uninstalled: nat, temporary: seq<(nat, nat)>) {
    && (forall i {:trigger Aside(dtable, uninstalled, temporary, i)} :: Aside(dtable, uninstalled, temporary, i))
    && forall i, j {:trigger Apart(temporary, i, j)} :: Apart(temporary, i, j)
  }

  ghost predicate Aside(dtable: map<nat, nat>, uninstalled: nat, temporary: seq<(nat, nat)>, i: int) {
    0 <= i < |temporary| ==>
      temporary[i].0 in dtable && dtable[temporary[i].0] == uninstalled && temporary[i].1 != uninstalled
  }

  ghost predicate Apart(temporary: seq<(nat, nat)>, i: int, j: int) {
    0 <= i < j < |temporary| ==> temporary[i].0 != temporary[j].0
  }

  /** A class and its metaclass have installed tables, or neither has. */
  ghost predicate TogetherAt(cls: Store, dtable: map<nat, nat>, u: nat, d: nat)
    requires d in cls
  {
    !cls[d].meta ==> d in dtable && cls[d].isa in dtable && (dtable[d] == u <==> dtable[cls[d].isa] == u)
  }

  ghost predicate Together(cls: Store, dtable: map<nat, nat>, u: nat) {
    forall d {:trigger TogetherAt(cls, dtable, u, d)} :: d in cls ==> TogetherAt(cls, dtable, u, d)
  }

  lemma TogetherPair(cls: Store, owner: map<nat, nat>, dtable: map<nat, nat>, u: nat, c: nat, t: nat, m: nat, tm: nat)
    requires Pairs(cls, owner) && Together(cls, dtable, u) && c in cls && !cls[c].meta && m == cls[c].isa && t != u && tm != u
    ensures Together(cls, dtable[m := tm][c := t], u)
  {
    var dtable' := dtable[m := tm][c := t];
    forall d | d in cls ensures TogetherAt(cls, dtable', u, d) {
      assert TogetherAt(cls, dtable, u, d) && PairOk(cls, owner, d) && PairOk(cls, owner, c);
    }
  }

  /** What holds between calls, with the classes of `region` waiting to be rebuilt. */
  ghost predicate Standing(r: Runtime, region: set<nat>)
    reads r, r.classes, r.arena
  {
    && r.arena.Valid() && r.dtable.Keys == r.classes.cls.Keys && r.Laid(r.handles) && r.initialized == r.handles.Keys
    && Paired(r.classes.cls, r.handles) && LookAside(r.dtable, r.uninstalled, r.temporary)
    && Tracking(r.dtable, r.uninstalled, r.temporary, r.handles) && Together(r.classes.cls, r.dtable, r.uninstalled)
    && Held(r.classes.cls, r.classes.rank, r.methods, TabsOf(r.handles, r.arena.tables), region)
  }

  ghost predicate Grown(hs: map<nat, nat>, hs': map<nat, nat>) {
    hs.Keys <= hs'.Keys && forall d {:trigger hs'[d]} :: d in hs ==> hs'[d] == hs[d]
  }

  lemma {:induction false} TemporaryFound(temporary: seq<(nat, nat)>, i: nat, uninstalled: nat)
    requires i < |temporary| && forall j :: 0 <= j < |temporary| ==> temporary[j].1 != uninstalled
    ensures Temporary(temporary, temporary[i].0, uninstalled) != uninstalled
    decreases |temporary|
  {
    if temporary[0].0 != temporary[i].0 { TemporaryFound(temporary[1..], i - 1, uninstalled); }
  }

  /** A class without a table is not on the list. */
  lemma Unlisted(dtable: map<nat, nat>, uninstalled: nat, temporary: seq<(nat, nat)>, c: nat)
    requires LookAside(dtable, uninstalled, temporary) && c in dtable && TableFor(dtable, uninstalled, temporary, c) == uninstalled
    ensures dtable[c] == uninstalled && forall i :: 0 <= i < |temporary| ==> temporary[i].0 != c
  {
    forall j | 0 <= j < |temporary| ensures temporary[j].1 != uninstalled { assert Aside(dtable, uninstalled, temporary, j); }
    forall i | 0 <= i < |temporary| ensures temporary[i].0 != c {
      TemporaryFound(temporary, i, uninstalled);
    }
  }

  lemma PairInstalled(dtable: map<nat, nat>, uninstalled: nat, temporary: seq<(nat, nat)>, handles: map<nat, nat>, c: nat, t: nat, m: nat, tm: nat)
    requires LookAside(dtable, uninstalled, temporary) && Tracking(dtable, uninstalled, temporary, handles)
    requires c in dtable && m in dtable && c != m && t != uninstalled && tm != uninstalled && c !in handles && m !in handles
    ensures Tracking(dtable[m := tm][c := t], uninstalled, temporary, handles[c := t][m := tm])
    ensures LookAside(dtable[m := tm][c := t], uninstalled, temporary)
  {
    assert TracksAt(dtable, uninstalled, temporary, handles, c) && TracksAt(dtable, uninstalled, temporary, handles, m);
    Unlisted(dtable, uninstalled, temporary, c);
    Unlisted(dtable, uninstalled, temporary, m);
    TrackInstalled(dtable, uninstalled, temporary, handles, m, tm);
    TrackInstalled(dtable[m := tm], uninstalled, temporary, handles[m := tm], c, t);
    assert handles[m := tm][c := t] == handles[c := t][m := tm];
    var dtable' := dtable[m := tm][c := t];
    forall i ensures Aside(dtable', uninstalled, temporary, i) { assert Aside(dtable, uninstalled, temporary, i); }
  }

  lemma PairPushed(dtable: map<nat, nat>, uninstalled: nat, temporary: seq<(nat, nat)>, handles: map<nat, nat>, c: nat, t: nat, m: nat, tm: nat)
    requires LookAside(dtable, uninstalled, temporary) && Tracking(dtable, uninstalled, temporary, handles)
    requires c in dtable && m in dtable && c != m && t != uninstalled && tm != uninstalled && c !in handles && m !in handles
    ensures var list := [(m, tm), (c, t)] + temporary;
            && Tracking(dtable, uninstalled, list, handles[c := t][m := tm])
            && LookAside(dtable, uninstalled, list) && InProgress(dtable, uninstalled, list, c, m, 0) && list[2..] == temporary
  {
    assert TracksAt(dtable, uninstalled, temporary, handles, c) && TracksAt(dtable, uninstalled, temporary, handles, m);
    Unlisted(dtable, uninstalled, temporary, c);
    Unlisted(dtable, uninstalled, temporary, m);
    TrackPushed(dtable, uninstalled, temporary, handles, c, t);
    TrackPushed(dtable, uninstalled, [(c, t)] + temporary, handles[c := t], m, tm);
    var list := [(m, tm), (c, t)] + temporary;
    assert [(m, tm)] + ([(c, t)] + temporary) == list;
    forall i ensures Aside(dtable, uninstalled, list, i) { assert Aside(dtable, uninstalled, temporary, i - 2); }
    forall i, j ensures Apart(list, i, j) { assert Apart(temporary, i - 2, j - 2); }
  }

  /** The tables are installed at once when the class answers no `+initialize`;
      otherwise they are put on the look-aside list while it runs. */
  method Register(r: Runtime, c: nat, m: nat, t: nat, tm: nat, initializeSel: nat) returns (sent: bool)
    requires r.arena.Valid() && tm in r.arena.tables && initializeSel < Capacity(r.arena.tables[tm].shift)
    requires c != m && c in r.dtable && m in r.dtable && c !in r.handles && m !in r.handles
    requires t != r.uninstalled && tm != r.uninstalled && LookAside(r.dtable, r.uninstalled, r.temporary)
    requires Tracking(r.dtable, r.uninstalled, r.temporary, r.handles)
    modifies r`dtable, r`temporary, r`handles
    ensures sent <==> Get(r.arena.tables[tm], initializeSel) != None
    ensures r.dtable.Keys == old(r.dtable).Keys && LookAside(r.dtable, r.uninstalled, r.temporary)
    ensures r.handles == old(r.handles)[c := t][m := tm] && Tracking(r.dtable, r.uninstalled, r.temporary, r.handles)
    ensures sent ==> r.dtable == old(r.dtable) && InProgress(r.dtable, r.uninstalled, r.temporary, c, m, 0) && r.temporary[2..] == old(r.temporary)
                     && r.temporary[0] == (m, tm) && r.temporary[1] == (c, t)
    ensures !sent ==> r.dtable == old(r.dtable)[m := tm][c := t] && r.temporary == old(r.temporary)
  {
    var slot := r.arena.Read(tm, initializeSel);
    if slot == None {
      PairInstalled(r.dtable, r.uninstalled, r.temporary, r.handles, c, t, m, tm);
      r.dtable := r.dtable[m := tm][c := t];
      r.handles := r.handles[c := t][m := tm];
      return false;
    }
    PairPushed(r.dtable, r.uninstalled, r.temporary, r.handles, c, t, m, tm);
    r.temporary := [(m, tm), (c, t)] + r.temporary;
    r.handles := r.handles[c := t][m := tm];
    sent := true;
  }

  lemma StartedPaired(cls: Store, owner: map<nat, nat>, hs: map<nat, nat>, c: nat, t: nat, m: nat, tm: nat)
    requires Pairs(cls, owner) && Paired(cls, hs) && c in cls && !cls[c].meta && m == cls[c].isa
    ensures Paired(cls, hs[c := t][m := tm])
  {
    forall d | d in cls ensures PairedAt(cls, hs[c := t][m := tm], d) {
      assert PairedAt(cls, hs, d) && PairOk(cls, owner, d) && PairOk(cls, owner, c);
    }
  }

  lemma StartedTrans(cls: Store, rank: map<nat, nat>, methods: MethodLists, hs: map<nat, nat>, ts: map<nat, Table>, hs1: map<nat, nat>, ts1: map<nat, Table>,
                     hs2: map<nat, nat>, ts2: map<nat, Table>, region: set<nat>)
    requires Known(cls, rank, methods) && Started(cls, rank, methods, hs, ts, hs1, ts1, region)
    requires Started(cls, rank, methods, hs1, ts1, hs2, ts2, region) && Grown(hs, hs1) && Grown(hs1, hs2)
    ensures Started(cls, rank, methods, hs, ts, hs2, ts2, region)
  {
  }

  lemma CachedNarrow(hs: map<nat, nat>, hs': map<nat, nat>, ts: map<nat, Table>, v: nat, ts': map<nat, Table>, v': nat)
    requires Grown(hs, hs') && Cached(hs', ts, v, ts', v')
    ensures Cached(hs, ts, v, ts', v')
  {
    if v == v' {
      forall d, sel: nat | Slot(hs, ts, d, sel).Some? ensures Slot(hs, ts', d, sel) == Slot(hs, ts, d, sel) {
        assert Slot(hs', ts', d, sel) == Slot(hs', ts, d, sel);
      }
    }
  }

  lemma ShiftOf(cls: Store, uninstalled: nat, depth: nat, selectorCount: nat, hs: map<nat, nat>, ts: map<nat, Table>, m: nat, tm: nat)
    requires Layout(cls, uninstalled, depth, selectorCount, hs[m := tm], ts)
    ensures tm in ts && ts[tm].shift == depth - 8
  {
    assert HandleOk(cls, uninstalled, depth, selectorCount, hs[m := tm], ts, m);
  }

  lemma PairAdded(cls: Store, owner: map<nat, nat>, hs: map<nat, nat>, c: nat, t: nat, m: nat, tm: nat)
    requires c !in hs && m !in hs && Pairs(cls, owner) && Paired(cls, hs) && c in cls && !cls[c].meta && m == cls[c].isa
    ensures Grown(hs, hs[c := t][m := tm]) && Paired(cls, hs[c := t][m := tm]) && hs[c := t][m := tm].Keys == hs.Keys + {c, m}
  {
    StartedPaired(cls, owner, hs, c, t, m, tm);
  }

  lemma AnswersAt(hs: map<nat, nat>, ts: map<nat, Table>, d: nat, t: nat, sel: nat)
    requires d in hs && hs[d] == t && t in ts
    ensures Answers(TabsOf(hs, ts), d, sel) <==> Get(ts[t], sel) != None
  {
  }

  /** Both tables are made and registered. */
  method MakePair(r: Runtime, c: nat, initializeSel: nat, ghost region: set<nat>) returns (sent: bool, ghost t: nat, ghost tm: nat)
    requires r.Valid() && Startable(r.classes.cls, r.handles, c) && initializeSel < r.selectorCount && LookAside(r.dtable, r.uninstalled, r.temporary)
    requires Held(r.classes.cls, r.classes.rank, r.methods, TabsOf(r.handles, r.arena.tables), region) && c !in region && r.classes.cls[c].isa !in region
    modifies r.arena, r`version, r`dtable, r`temporary, r`handles
    ensures r.arena.Valid() && r.Laid(r.handles) && r.dtable.Keys == old(r.dtable).Keys && r.handles == old(r.handles)[c := t][r.classes.cls[c].isa := tm]
    ensures LookAside(r.dtable, r.uninstalled, r.temporary) && Tracking(r.dtable, r.uninstalled, r.temporary, r.handles)
    ensures Started(r.classes.cls, r.classes.rank, r.methods, old(r.handles), old(r.arena.tables), r.handles, r.arena.tables, region)
    ensures Cached(old(r.handles), old(r.arena.tables), old(r.version), r.arena.tables, r.version)
    ensures Alike(PairMade(r.classes.cls, r.methods, TabsOf(old(r.handles), old(r.arena.tables)), c), TabsOf(r.handles, r.arena.tables), region)
    ensures sent <==> Answers(TabsOf(r.handles, r.arena.tables), r.classes.cls[c].isa, initializeSel)
    ensures t != r.uninstalled && tm != r.uninstalled
    ensures sent ==> InProgress(r.dtable, r.uninstalled, r.temporary, c, r.classes.cls[c].isa, 0) && r.temporary[2..] == old(r.temporary)
                     && r.dtable == old(r.dtable)
    ensures !sent ==> r.temporary == old(r.temporary) && r.dtable == old(r.dtable)[r.classes.cls[c].isa := tm][c := t]
  {
    hide SparseArrays.Arena.Valid, AgreeOutside, AllDistinctive, Layout, Cached, Started, Alike, PairMade, Answers, Held;
    var m := r.classes.cls[c].isa;
    var t', tm', hs := MakeTables(r, c, m, region);
    t, tm := t', tm';
    sent := Register(r, c, m, t', tm', initializeSel);
    assert r.handles == hs;
    AnswersAt(r.handles, r.arena.tables, m, tm', initializeSel);
  }

  /** `objc_send_initialize` once the superclass is done: both tables are made, flagged
      and registered.  The answer is whether `+initialize` is to be called. */
  method Begin(r: Runtime, c: nat, initializeSel: nat, ghost region: set<nat>) returns (sent: bool)
    requires r.Fixed() && Standing(r, region) && Startable(r.classes.cls, r.handles, c)
    requires c !in region && r.classes.cls[c].isa !in region && initializeSel < r.selectorCount
    modifies r.arena, r`version, r`dtable, r`temporary, r`handles, r`initialized
    ensures Standing(r, region)
    ensures Grown(old(r.handles), r.handles) && r.handles.Keys == old(r.handles).Keys + {c, r.classes.cls[c].isa}
    ensures Started(r.classes.cls, r.classes.rank, r.methods, old(r.handles), old(r.arena.tables), r.handles, r.arena.tables, region)
    ensures Alike(PairMade(r.classes.cls, r.methods, TabsOf(old(r.handles), old(r.arena.tables)), c), TabsOf(r.handles, r.arena.tables), region)
    ensures Cached(old(r.handles), old(r.arena.tables), old(r.version), r.arena.tables, r.version)
    ensures sent <==> Answers(TabsOf(r.handles, r.arena.tables), r.classes.cls[c].isa, initializeSel)
    ensures sent ==> InProgress(r.dtable, r.uninstalled, r.temporary, c, r.classes.cls[c].isa, 0) && r.temporary[2..] == old(r.temporary)
                     && r.dtable == old(r.dtable)
    ensures !sent ==> r.temporary == old(r.temporary) && r.dtable == old(r.dtable)[r.classes.cls[c].isa := r.handles[r.classes.cls[c].isa]][c := r.handles[c]]
  {
    hide SparseArrays.Arena.Valid, AgreeOutside, AllDistinctive, Layout, LookAside, Tracking, Cached, InProgress;
    r.initialized := r.initialized + {c, r.classes.cls[c].isa};
    ghost var t, tm;
    sent, t, tm := MakePair(r, c, initializeSel, region);
    PairAdded(r.classes.cls, r.classes.owner, old(r.handles), c, t, r.classes.cls[c].isa, tm);
    TogetherPair(r.classes.cls, r.classes.owner, old(r.dtable), r.uninstalled, c, t, r.classes.cls[c].isa, tm);
  }

  /** `x` is on the way up from `c` or from its metaclass. */
  ghost predicate OnWay(cls: Store, rank: map<nat, nat>, c: nat, x: nat)
    requires Ranked(cls, rank) && c in cls
  {
    Desc(cls, rank, c, x) || (cls[c].isa in cls && Desc(cls, rank, cls[c].isa, x))
  }

  /** Apart from those that had tables, exactly the classes on the way up from `c` have them. */
  ghost predicate Raised(cls: Store, rank: map<nat, nat>, hs: map<nat, nat>, hs': map<nat, nat>, c: nat)
    requires Ranked(cls, rank) && c in cls
  {
    forall x {:trigger x in hs'} {:trigger OnWay(cls, rank, c, x)} :: x in hs' <==> x in hs || OnWay(cls, rank, c, x)
  }

  lemma Tabled(cls: Store, uninstalled: nat, depth: nat, selectorCount: nat, hs: map<nat, nat>, ts: map<nat, Table>)
    requires Layout(cls, uninstalled, depth, selectorCount, hs, ts)
    ensures forall d :: d in hs <==> d in TabsOf(hs, ts)
  {
    forall d | d in hs ensures d in TabsOf(hs, ts) { assert HandleOk(cls, uninstalled, depth, selectorCount, hs, ts, d); }
  }

  lemma ProgressRaised(cls: Store, rank: map<nat, nat>, methods: MethodLists, hs: map<nat, nat>, ts: map<nat, Table>, v: nat,
                       hs': map<nat, nat>, ts': map<nat, Table>, v': nat, region: set<nat>, c: nat)
    requires Known(cls, rank, methods) && c in cls && Progress(cls, rank, methods, hs, ts, v, hs', ts', v', region, c)
    requires c in TabsOf(hs', ts') && cls[c].isa in TabsOf(hs', ts') && c !in region && cls[c].isa !in region
    ensures Raised(cls, rank, hs, hs', c)
  {
    forall x | OnWay(cls, rank, c, x) ensures x in hs' {
      if Desc(cls, rank, c, x) { HeldAbove(cls, rank, methods, TabsOf(hs', ts'), region, c, x); }
      else { HeldAbove(cls, rank, methods, TabsOf(hs', ts'), region, cls[c].isa, x); }
    }
    forall x | x in hs' && x !in hs ensures OnWay(cls, rank, c, x) { }
  }

  lemma WayUp(cls: Store, rank: map<nat, nat>, owner: map<nat, nat>, c: nat, x: nat)
    requires Ranked(cls, rank) && Pairs(cls, owner) && MetaSupers(cls) && c in cls && cls[c].resolved && !cls[c].meta
    requires cls[c].super.Some? && cls[c].super.value in cls && OnWay(cls, rank, cls[c].super.value, x)
    ensures OnWay(cls, rank, c, x)
  {
    assert PairOk(cls, owner, c) && SuperOk(cls, rank, c) && MetaSuperOk(cls, c);
    assert PairOk(cls, owner, cls[c].super.value);
  }

  /** With its superclass done, a class that has no table can get one. */
  lemma CanStart(cls: Store, rank: map<nat, nat>, owner: map<nat, nat>, hs: map<nat, nat>, c: nat)
    requires Ranked(cls, rank) && Pairs(cls, owner) && MetaSupers(cls) && Paired(cls, hs)
    requires c in cls && cls[c].resolved && !cls[c].meta && c !in hs
    requires cls[c].super.Some? ==> cls[c].super.value in hs
    ensures Startable(cls, hs, c)
  {
    assert PairOk(cls, owner, c) && SuperOk(cls, rank, c) && MetaSuperOk(cls, c) && PairedAt(cls, hs, c);
    if cls[c].super.Some? {
      assert PairOk(cls, owner, cls[c].super.value) && PairedAt(cls, hs, cls[c].super.value);
    }
  }

  /** The metaclass of a superclass is no more waiting than that of the class. */
  lemma OutsideUp(cls: Store, rank: map<nat, nat>, owner: map<nat, nat>, region: set<nat>, c: nat)
    requires Ranked(cls, rank) && Pairs(cls, owner) && MetaSupers(cls) && Closed(cls, region)
    requires c in cls && cls[c].resolved && !cls[c].meta && c !in region && cls[c].isa !in region && cls[c].super.Some?
    ensures var s := cls[c].super.value; s in cls && cls[s].resolved && !cls[s].meta && s !in region && cls[s].isa !in region
  {
    assert PairOk(cls, owner, c) && SuperOk(cls, rank, c) && MetaSuperOk(cls, c);
  }

  lemma RemovedAside(dtable: map<nat, nat>, uninstalled: nat, temporary: seq<(nat, nat)>, c: nat, m: nat, k: nat)
    requires InProgress(dtable, uninstalled, temporary, c, m, k) && LookAside(dtable, uninstalled, temporary)
    ensures LookAside(dtable[m := temporary[k].1][c := temporary[k + 1].1], uninstalled, temporary[..k] + temporary[k + 2..])
  {
    var dtable', list := dtable[m := temporary[k].1][c := temporary[k + 1].1], temporary[..k] + temporary[k + 2..];
    forall i ensures Aside(dtable', uninstalled, list, i) {
      var i' := if i < k then i else i + 2;
      assert Aside(dtable, uninstalled, temporary, i') && Apart(temporary, i', k) && Apart(temporary, k, i');
      assert Apart(temporary, i', k + 1) && Apart(temporary, k + 1, i');
    }
    forall i, j ensures Apart(list, i, j) {
      assert Apart(temporary, if i < k then i else i + 2, if j < k then j else j + 2);
    }
  }

  /** The end of `objc_send_initialize`, when `+initialize` has returned. */
  method Finish(r: Runtime, c: nat, ghost k: nat, ghost region: set<nat>)
    requires r.Fixed() && Standing(r, region) && c in r.classes.cls && !r.classes.cls[c].meta
    requires InProgress(r.dtable, r.uninstalled, r.temporary, c, r.classes.cls[c].isa, k)
    modifies r`dtable, r`temporary
    ensures Standing(r, region)
    ensures r.temporary == old(r.temporary)[..k] + old(r.temporary)[k + 2..]
    ensures c in r.handles && r.classes.cls[c].isa in r.handles
    ensures r.dtable == old(r.dtable)[r.classes.cls[c].isa := r.handles[r.classes.cls[c].isa]][c := r.handles[c]]
    ensures r.dtable[c] != r.uninstalled && r.dtable[r.classes.cls[c].isa] != r.uninstalled
  {
    RemovedAside(r.dtable, r.uninstalled, r.temporary, c, r.classes.cls[c].isa, k);
    TogetherPair(r.classes.cls, r.classes.owner, r.dtable, r.uninstalled, c, r.temporary[k + 1].1, r.classes.cls[c].isa, r.temporary[k].1);
    RemoveDtable(r, c, r.classes.cls[c].isa, k);
    assert TracksAt(r.dtable, r.uninstalled, r.temporary, r.handles, c) && TracksAt(r.dtable, r.uninstalled, r.temporary, r.handles, r.classes.cls[c].isa);
  }

  /** From one state to the next, classes on the way up from `c` have got tables; slots
      cached before are sound while the version stands. */
  ghost predicate Progress(cls: Store, rank: map<nat, nat>, methods: MethodLists, hs: map<nat, nat>, ts: map<nat, Table>, v: nat,
                           hs': map<nat, nat>, ts': map<nat, Table>, v': nat, region: set<nat>, c: nat)
    requires Known(cls, rank, methods) && c in cls
  {
    && Grown(hs, hs')
    && (forall x {:trigger OnWay(cls, rank, c, x)} :: x in hs' && x !in hs ==> OnWay(cls, rank, c, x))
    && Started(cls, rank, methods, hs, ts, hs', ts', region)
    && Cached(hs, ts, v, ts', v')
  }

  lemma ProgressOne(cls: Store, rank: map<nat, nat>, methods: MethodLists, hs: map<nat, nat>, ts: map<nat, Table>, v: nat,
                    hs': map<nat, nat>, ts': map<nat, Table>, v': nat, region: set<nat>, c: nat)
    requires Known(cls, rank, methods) && c in cls && cls[c].isa in cls && Grown(hs, hs') && hs'.Keys == hs.Keys + {c, cls[c].isa}
    requires Started(cls, rank, methods, hs, ts, hs', ts', region) && Cached(hs, ts, v, ts', v')
    ensures Progress(cls, rank, methods, hs, ts, v, hs', ts', v', region, c)
  {
    assert Desc(cls, rank, c, c) && Desc(cls, rank, cls[c].isa, cls[c].isa);
  }

  lemma ProgressTrans(cls: Store, rank: map<nat, nat>, methods: MethodLists, hs: map<nat, nat>, ts: map<nat, Table>, v: nat, hs1: map<nat, nat>, ts1: map<nat, Table>, v1: nat,
                      hs2: map<nat, nat>, ts2: map<nat, Table>, v2: nat, region: set<nat>, c: nat)
    requires Known(cls, rank, methods) && c in cls
    requires Progress(cls, rank, methods, hs, ts, v, hs1, ts1, v1, region, c) && Progress(cls, rank, methods, hs1, ts1, v1, hs2, ts2, v2, region, c)
    ensures Progress(cls, rank, methods, hs, ts, v, hs2, ts2, v2, region, c)
  {
    StartedTrans(cls, rank, methods, hs, ts, hs1, ts1, hs2, ts2, region);
    CachedNarrow(hs, hs1, ts1, v1, ts2, v2);
    CachedTrans(hs, ts, v, ts1, v1, ts2, v2);
  }

  lemma ProgressUp(cls: Store, rank: map<nat, nat>, owner: map<nat, nat>, methods: MethodLists, hs: map<nat, nat>, ts: map<nat, Table>, v: nat,
                   hs': map<nat, nat>, ts': map<nat, Table>, v': nat, region: set<nat>, c: nat)
    requires Known(cls, rank, methods) && Pairs(cls, owner) && MetaSupers(cls) && c in cls && cls[c].resolved && !cls[c].meta
    requires cls[c].super.Some? && cls[c].super.value in cls
    requires Progress(cls, rank, methods, hs, ts, v, hs', ts', v', region, cls[c].super.value)
    ensures Progress(cls, rank, methods, hs, ts, v, hs', ts', v', region, c)
  {
    forall x | x in hs' && x !in hs ensures OnWay(cls, rank, c, x) {
      assert OnWay(cls, rank, cls[c].super.value, x);
      WayUp(cls, rank, owner, c, x);
    }
  }

  lemma ProgressNone(cls: Store, rank: map<nat, nat>, methods: MethodLists, hs: map<nat, nat>, ts: map<nat, Table>, v: nat, region: set<nat>, c: nat)
    requires Held(cls, rank, methods, TabsOf(hs, ts), region) && c in cls
    ensures Progress(cls, rank, methods, hs, ts, v, hs, ts, v, region, c)
  {
  }

  /** The part of `objc_send_initialize` after the superclass's turn. */
  method StartClass(r: Runtime, c: nat, initializeSel: nat, ghost region: set<nat>) returns (sent: bool)
    requires r.Fixed() && Standing(r, region) && Startable(r.classes.cls, r.handles, c)
    requires c !in region && r.classes.cls[c].isa !in region && initializeSel < r.selectorCount
    modifies r.arena, r`version, r`dtable, r`temporary, r`handles, r`initialized
    ensures Standing(r, region) && c in r.handles && r.temporary == old(r.temporary)
    ensures Progress(r.classes.cls, r.classes.rank, r.methods, old(r.handles), old(r.arena.tables), old(r.version),
                     r.handles, r.arena.tables, r.version, region, c)
    ensures Alike(PairMade(r.classes.cls, r.methods, TabsOf(old(r.handles), old(r.arena.tables)), c), TabsOf(r.handles, r.arena.tables), region)
    ensures sent <==> Answers(TabsOf(r.handles, r.arena.tables), r.classes.cls[c].isa, initializeSel)
    ensures NewInstalled(old(r.dtable), old(r.handles), r.dtable, r.handles)
  {
    hide SparseArrays.Arena.Valid, AgreeOutside, AllDistinctive, Layout, LookAside, Tracking, Together, Cached, Started, Alike, PairMade, Answers, Held, Paired, TabsOf;
    sent := Begin(r, c, initializeSel, region);
    ProgressOne(r.classes.cls, r.classes.rank, r.methods, old(r.handles), old(r.arena.tables), old(r.version),
                r.handles, r.arena.tables, r.version, region, c);
    NewPair(r.classes.cls, old(r.dtable), old(r.handles), r.handles, c);
    if sent {
      WithoutTwo(r.temporary);
      Finish(r, c, 0, region);
    }
  }

  lemma NewPair(cls: Store, dtable: map<nat, nat>, hs: map<nat, nat>, hs': map<nat, nat>, c: nat)
    requires c in cls && c in dtable && cls[c].isa in dtable && c !in hs && cls[c].isa !in hs && hs'.Keys == hs.Keys + {c, cls[c].isa}
    ensures NewInstalled(dtable, hs, dtable[cls[c].isa := hs'[cls[c].isa]][c := hs'[c]], hs')
  {
  }

  lemma WithoutTwo(list: seq<(nat, nat)>)
    requires |list| >= 2
    ensures list[..0] + list[0 + 2..] == list[2..]
  {
  }

  /** The classes that have got tables have them in their structures; the other structures hold what
      they held. */
  ghost predicate NewInstalled(dtable: map<nat, nat>, hs: map<nat, nat>, dtable': map<nat, nat>, hs': map<nat, nat>) {
    && dtable'.Keys == dtable.Keys
    && forall d {:trigger dtable'[d]} :: d in dtable ==> dtable'[d] == if d in hs' && d !in hs then hs'[d] else dtable[d]
  }

  lemma NewSelf(dtable: map<nat, nat>, hs: map<nat, nat>)
    ensures NewInstalled(dtable, hs, dtable, hs)
  {
  }

  lemma NewTrans(dtable: map<nat, nat>, hs: map<nat, nat>, dtable1: map<nat, nat>, hs1: map<nat, nat>, dtable2: map<nat, nat>, hs2: map<nat, nat>)
    requires NewInstalled(dtable, hs, dtable1, hs1) && NewInstalled(dtable1, hs1, dtable2, hs2) && Grown(hs, hs1) && Grown(hs1, hs2)
    ensures NewInstalled(dtable, hs, dtable2, hs2)
  {
    forall d | d in dtable ensures dtable2[d] == if d in hs2 && d !in hs then hs2[d] else dtable[d] {
      assert dtable1[d] == if d in hs1 && d !in hs then hs1[d] else dtable[d];
      if d in hs1 { assert hs2[d] == hs1[d]; }
    }
  }

  /** The tables and the messages when `c` comes after its superclass. */
  lemma MadeStep(cls: Store, rank: map<nat, nat>, methods: MethodLists, tabs0: map<nat, Entries>, tabs1: map<nat, Entries>, tabs2: map<nat, Entries>,
                 region: set<nat>, c: nat)
    requires Known(cls, rank, methods) && Closed(cls, region) && c in cls && c !in tabs0 && c !in region && cls[c].isa !in region
    requires if cls[c].super.Some? then cls[c].super.value in cls && Alike(Made(cls, rank, methods, tabs0, cls[c].super.value), tabs1, region) else tabs1 == tabs0
    requires Alike(PairMade(cls, methods, tabs1, c), tabs2, region)
    ensures Alike(Made(cls, rank, methods, tabs0, c), tabs2, region)
    ensures forall sel :: Answers(tabs2, cls[c].isa, sel) <==> Answers(Made(cls, rank, methods, tabs0, c), cls[c].isa, sel)
  {
    var above := if cls[c].super.Some? then Made(cls, rank, methods, tabs0, cls[c].super.value) else tabs0;
    AlikePair(cls, rank, methods, above, tabs1, region, c);
    AlikeTrans(PairMade(cls, methods, above, c), PairMade(cls, methods, tabs1, c), tabs2, region);
  }

  /** `objc_send_initialize` on a resolved class, where `+initialize` itself does nothing; `sent` is the
      classes it is sent to. */
  method SendInitialize(r: Runtime, c: nat, initializeSel: nat, ghost region: set<nat>) returns (sent: seq<nat>)
    requires r.Fixed() && Standing(r, region) && initializeSel < r.selectorCount
    requires c in r.classes.cls && r.classes.cls[c].resolved && !r.classes.cls[c].meta
    requires c !in region && r.classes.cls[c].isa !in region
    modifies r.arena, r`version, r`dtable, r`temporary, r`handles, r`initialized
    ensures Standing(r, region) && c in r.handles && r.temporary == old(r.temporary)
    ensures Progress(r.classes.cls, r.classes.rank, r.methods, old(r.handles), old(r.arena.tables), old(r.version),
                     r.handles, r.arena.tables, r.version, region, c)
    ensures Alike(Made(r.classes.cls, r.classes.rank, r.methods, TabsOf(old(r.handles), old(r.arena.tables)), c), TabsOf(r.handles, r.arena.tables), region)
    ensures sent == Sends(r.classes.cls, r.classes.rank, r.methods, TabsOf(old(r.handles), old(r.arena.tables)), c, initializeSel)
    ensures NewInstalled(old(r.dtable), old(r.handles), r.dtable, r.handles)
    decreases if c in r.classes.rank then r.classes.rank[c] else 0
  {
    hide SparseArrays.Arena.Valid, AgreeOutside, AllDistinctive, Layout, LookAside, Tracking, Together, Cached, Started, Alike, PairMade, Answers, TabsOf, NewInstalled;
    ghost var cls, rank, owner := r.classes.cls, r.classes.rank, r.classes.owner;
    ghost var hs0, ts0, v0, dtable0 := r.handles, r.arena.tables, r.version, r.dtable;
    ghost var tabs0 := TabsOf(hs0, ts0);
    ProgressNone(cls, rank, r.methods, hs0, ts0, v0, region, c);
    AlikeSelf(tabs0, region);
    NewSelf(dtable0, hs0);
    Tabled(cls, r.uninstalled, r.depth, r.selectorCount, hs0, ts0);
    sent := [];
    if r.classes.cls[c].super != None {
      sent := SuperFirst(r, c, initializeSel, region);
    }
    if c in r.initialized {
      AlreadyMade(cls, rank, r.methods, tabs0, region, c, initializeSel);
      return;
    }
    ghost var hs1, ts1, v1, dtable1 := r.handles, r.arena.tables, r.version, r.dtable;
    CanStart(cls, rank, owner, hs1, c);
    var own := StartClass(r, c, initializeSel, region);
    ProgressTrans(cls, rank, r.methods, hs0, ts0, v0, hs1, ts1, v1, r.handles, r.arena.tables, r.version, region, c);
    MadeStep(cls, rank, r.methods, tabs0, TabsOf(hs1, ts1), TabsOf(r.handles, r.arena.tables), region, c);
    NewTrans(dtable0, hs0, dtable1, hs1, r.dtable, r.handles);
    if own {
      sent := sent + [c];
    }
  }

  lemma AlikeSelf(tabs: map<nat, Entries>, region: set<nat>)
    ensures Alike(tabs, tabs, region)
  {
  }

  /** A class that has a table already has everything above it done. */
  lemma AlreadyMade(cls: Store, rank: map<nat, nat>, methods: MethodLists, tabs: map<nat, Entries>, region: set<nat>, c: nat, sel: nat)
    requires Held(cls, rank, methods, tabs, region) && c in cls && c in tabs && c !in region
    ensures Made(cls, rank, methods, tabs, c) == tabs && Sends(cls, rank, methods, tabs, c, sel) == []
    ensures cls[c].super.Some? && cls[c].super.value in cls ==>
              Made(cls, rank, methods, tabs, cls[c].super.value) == tabs && Sends(cls, rank, methods, tabs, cls[c].super.value, sel) == []
  {
    assert HeldAt(cls, rank, methods, tabs, region, c);
  }

  /** A class is not on the way up from its superclass. */
  lemma NotAbove(cls: Store, rank: map<nat, nat>, owner: map<nat, nat>, c: nat)
    requires Ranked(cls, rank) && Pairs(cls, owner) && MetaSupers(cls) && c in cls && cls[c].resolved && !cls[c].meta
    requires cls[c].super.Some? && cls[c].super.value in cls
    ensures !OnWay(cls, rank, cls[c].super.value, c)
  {
    var s := cls[c].super.value;
    assert SuperOk(cls, rank, c) && PairOk(cls, owner, s);
    if Desc(cls, rank, s, c) { DescUp(cls, rank, s, c); }
    if Desc(cls, rank, cls[s].isa, c) { MetaDesc(cls, rank, owner, cls[s].isa, c); }
  }

  method SuperFirst(r: Runtime, c: nat, initializeSel: nat, ghost region: set<nat>) returns (sent: seq<nat>)
    requires r.Fixed() && Standing(r, region) && initializeSel < r.selectorCount
    requires c in r.classes.cls && r.classes.cls[c].resolved && !r.classes.cls[c].meta && r.classes.cls[c].super.Some?
    requires c !in region && r.classes.cls[c].isa !in region
    modifies r.arena, r`version, r`dtable, r`temporary, r`handles, r`initialized
    ensures Standing(r, region) && r.classes.cls[c].super.value in r.handles && r.temporary == old(r.temporary) && r.classes.cls[c].super.value in r.classes.cls
    ensures Progress(r.classes.cls, r.classes.rank, r.methods, old(r.handles), old(r.arena.tables), old(r.version),
                     r.handles, r.arena.tables, r.version, region, c)
    ensures Alike(Made(r.classes.cls, r.classes.rank, r.methods, TabsOf(old(r.handles), old(r.arena.tables)), r.classes.cls[c].super.value),
                  TabsOf(r.handles, r.arena.tables), region)
    ensures sent == Sends(r.classes.cls, r.classes.rank, r.methods, TabsOf(old(r.handles), old(r.arena.tables)), r.classes.cls[c].super.value, initializeSel)
    ensures NewInstalled(old(r.dtable), old(r.handles), r.dtable, r.handles)
    ensures c in r.handles ==> c in old(r.handles)
    decreases if c in r.classes.rank then r.classes.rank[c] else 0, 0
  {
    ghost var cls, rank, owner := r.classes.cls, r.classes.rank, r.classes.owner;
    OutsideUp(cls, rank, owner, region, c);
    assert SuperOk(cls, rank, c);
    sent := SendInitialize(r, r.classes.cls[c].super.value, initializeSel, region);
    NotAbove(cls, rank, owner, c);
    ProgressUp(cls, rank, owner, r.methods, old(r.handles), old(r.arena.tables), old(r.version), r.handles, r.arena.tables, r.version, region, c);
  }
}
