/** `dtable.c`: dispatch tables kept on shared sparse arrays, over the class hierarchy. */
module Dispatch {
  import opened Basics
  import opened Trie
  import opened Hierarchy
  import opened SparseArrays
  import opened ClassTables
  import opened MethodLookup
  import opened Installing
  import opened Spreading
  import opened Building
  import opened Caching
  import opened Batching
  import opened Enumeration
  import opened DeepEnumeration

  /** The first temporary table of `c` in the look-aside list. */
  function Temporary(list: seq<(nat, nat)>, c: nat, otherwise: nat): nat {
    if list == [] then otherwise
    else if list[0].0 == c then list[0].1
    else Temporary(list[1..], c, otherwise)
  }

  /** A selector index that a table can hold. */
  predicate Selector(sel: nat, selectorCount: nat) {
    1 <= sel < selectorCount
  }

  /** What `dtable_for_class` answers. */
  function TableFor(dtable: map<nat, nat>, uninstalled: nat, temporary: seq<(nat, nat)>, c: nat): nat
    requires c in dtable
  {
    if dtable[c] != uninstalled then dtable[c] else Temporary(temporary, c, uninstalled)
  }

  /** `handles` records what `dtable_for_class` answers for `c`, if that is a real table. */
  ghost predicate TracksAt(dtable: map<nat, nat>, uninstalled: nat, temporary: seq<(nat, nat)>, handles: map<nat, nat>, c: nat) {
    if c in dtable && TableFor(dtable, uninstalled, temporary, c) != uninstalled
    then c in handles && handles[c] == TableFor(dtable, uninstalled, temporary, c)
    else c !in handles
  }

  ghost predicate Tracking(dtable: map<nat, nat>, uninstalled: nat, temporary: seq<(nat, nat)>, handles: map<nat, nat>) {
    forall c: nat {:trigger TracksAt(dtable, uninstalled, temporary, handles, c)} :: TracksAt(dtable, uninstalled, temporary, handles, c)
  }

  class Runtime {
    const classes: ClassTable
    const arena: Arena
    var methods: MethodLists
    /** `cls->dtable`. */
    var dtable: map<nat, nat>
    var uninstalled: nat
    /** `temporary_dtables`, from its head. */
    var temporary: seq<(nat, nat)>
    /** `dtable_depth`. */
    var depth: nat
    /** `selector_count`: registered selectors have smaller indices. */
    var selectorCount: nat
    /** `objc_method_cache_version`. */
    var version: nat
    /** The classes with `objc_class_flag_initialized`. */
    var initialized: set<nat>
    /** The table of each class that has one, installed or temporary. */
    ghost var handles: map<nat, nat>

    /** `init_dispatch_tables`, with classes whose `dtable` is still `uninstalled_dtable`. */
    constructor (classes: ClassTable, arena: Arena, methods: MethodLists, depth: nat, selectorCount: nat)
      requires classes.Valid() && arena.Valid() && (depth == 8 || depth == 16 || depth == 24 || depth == 32)
      requires selectorCount <= Capacity(depth - 8) && methods.Keys == classes.cls.Keys
      requires OneOwner(methods) && Registered(methods, selectorCount)
      modifies arena
      ensures Valid() && handles == map[] && temporary == [] && initialized == {} && this.arena == arena && this.classes == classes
      ensures this.methods == methods && this.depth == depth && this.selectorCount == selectorCount
      ensures forall c :: c in dtable ==> dtable[c] == uninstalled
    {
      this.classes, this.arena, this.methods, this.depth, this.selectorCount := classes, arena, methods, depth, selectorCount;
      this.temporary, this.version, this.initialized, this.handles := [], 0, {}, map[];
      var u := arena.New(depth);
      this.uninstalled := u;
      this.dtable := map c | c in classes.cls :: u;
      new;
      forall c: nat ensures TracksAt(dtable, uninstalled, temporary, handles, c) { }
    }

    /** The part that making tables does not touch. */
    ghost predicate Fixed()
      reads this`methods, this`depth, this`selectorCount, classes
    {
      && classes.Valid()
      && (depth == 8 || depth == 16 || depth == 24 || depth == 32)
      && selectorCount <= Capacity(depth - 8)
      && methods.Keys == classes.cls.Keys
      && OneOwner(methods)
      && Registered(methods, selectorCount)
    }

    ghost predicate Valid()
      reads this, classes, arena
    {
      Fixed() && arena.Valid() && dtable.Keys == classes.cls.Keys && Laid(handles)
      && Tracking(dtable, uninstalled, temporary, handles)
    }

    ghost predicate Laid(hs: map<nat, nat>)
      requires arena.Valid()
      reads this, classes, arena
    {
      Layout(classes.cls, uninstalled, depth, selectorCount, hs, arena.tables)
    }

    /** The entries of every class that has a table. */
    ghost function Tabs(): map<nat, Entries>
      requires Valid()
      reads this, classes, arena
    {
      TabsOf(handles, arena.tables)
    }

    /** `hs` is the current tables, together with one being made for `top`. */
    ghost predicate Making(top: nat, hs: map<nat, nat>)
      reads this
    {
      && top in hs && hs == handles[top := hs[top]]
      && (top in handles ==> hs[top] == handles[top])
    }

    /** The part of the hierarchy that the recursion over subclasses relies on. */
    ghost predicate Walkable()
      reads this, classes
    {
      && Ranked(classes.cls, classes.rank) && Forest(classes.cls, classes.kids, {})
      && dtable.Keys == classes.cls.Keys && depth >= 8 && selectorCount <= Capacity(depth - 8)
      && Tracking(dtable, uninstalled, temporary, handles)
    }

    /** `dtable_for_class`: the installed table, or the first one for the class on the
        look-aside list. */
    method DtableForClass(c: nat) returns (t: nat)
      requires c in dtable && Tracking(dtable, uninstalled, temporary, handles)
      ensures t != uninstalled <==> c in handles
      ensures c in handles ==> t == handles[c]
    {
      assert TracksAt(dtable, uninstalled, temporary, handles, c);
      if dtable[c] != uninstalled {
        return dtable[c];
      }
      t := uninstalled;
      var i := 0;
      while i < |temporary|
        invariant 0 <= i <= |temporary| && t == uninstalled
        invariant Temporary(temporary[i..], c, uninstalled) == Temporary(temporary, c, uninstalled)
      {
        assert temporary[i..][1..] == temporary[i + 1..];
        if temporary[i].0 == c {
          t := temporary[i].1;
          break;
        }
        i := i + 1;
      }
    }

    /** `installMethodInDtable`. */
    method Install(c: nat, h: nat, m: Method, toReplace: Option<Method>, replaceExisting: bool, ghost top: nat, ghost hs: map<nat, nat>)
      returns (done: bool)
      requires arena.Valid() && Laid(hs) && Walkable() && Making(top, hs)
      requires c in hs && h == hs[c] && c in classes.cls && Desc(classes.cls, classes.rank, c, top)
      requires Selector(m.selector, selectorCount)
      modifies arena, this`version
      ensures arena.Valid() && Laid(hs)
      ensures InstallResult(classes.cls, classes.rank, hs, old(arena.tables), arena.tables, c, m, toReplace, replaceExisting,
                            done, old(version), version)
      decreases Below(classes.cls, classes.rank, c), 3
    {
      ghost var ts0 := arena.tables;
      assert HandleOk(classes.cls, uninstalled, depth, selectorCount, hs, ts0, c);
      var was := arena.Read(h, m.selector);
      if replaceExisting && toReplace != was {
        return false;
      }
      if !replaceExisting && was != None {
        return false;
      }
      if was != None && was.value.imp == m.imp {
        return false;
      }
      Replace(c, h, m, was, top, hs);
      done := true;
    }

    /** The second half of `installMethodInDtable`: the entry is written here and below,
        and cached slots are invalidated when there was one before. */
    method Replace(c: nat, h: nat, m: Method, was: Option<Method>, ghost top: nat, ghost hs: map<nat, nat>)
      requires arena.Valid() && Laid(hs) && Walkable() && Making(top, hs)
      requires c in hs && h == hs[c] && c in classes.cls && Desc(classes.cls, classes.rank, c, top)
      requires Selector(m.selector, selectorCount) && !(was.Some? && was.value.imp == m.imp)
      requires was == Entry(arena.tables[h].entries, m.selector)
      modifies arena, this`version
      ensures arena.Valid() && Laid(hs)
      ensures SpreadAll(classes.cls, classes.rank, hs, old(arena.tables), arena.tables, m, was, c)
      ensures version >= old(version) && (was.Some? ==> version > old(version))
      decreases Below(classes.cls, classes.rank, c), 2
    {
      ghost var ts0 := arena.tables;
      assert HandleOk(classes.cls, uninstalled, depth, selectorCount, hs, ts0, c);
      arena.Insert(h, m.selector, Some(m));
      SpreadStart(classes.cls, classes.rank, hs, ts0, arena.tables, m, was, c, classes.kids[c]);
      SpreadLayout(classes.cls, classes.rank, uninstalled, depth, selectorCount, hs, ts0, arena.tables, m, was, c, classes.kids[c], 0);
      InstallBelow(c, m, was, ts0, top, hs);
      if was != None {
        version := version + 1;
      }
    }

    /** The loop over `subclass_list`. */
    method InstallBelow(c: nat, m: Method, was: Option<Method>, ghost ts0: map<nat, Table>, ghost top: nat, ghost hs: map<nat, nat>)
      requires arena.Valid() && Laid(hs) && Walkable() && Making(top, hs)
      requires c in hs && c in classes.cls && Desc(classes.cls, classes.rank, c, top)
      requires Selector(m.selector, selectorCount) && !(was.Some? && was.value.imp == m.imp)
      requires Separate(hs, ts0)
      requires Spread(classes.cls, classes.rank, hs, ts0, arena.tables, m, was, c, classes.kids[c], 0)
      modifies arena, this`version
      ensures arena.Valid() && Laid(hs) && version >= old(version)
      ensures SpreadAll(classes.cls, classes.rank, hs, ts0, arena.tables, m, was, c)
      decreases Below(classes.cls, classes.rank, c), 1
    {
      hide SparseArrays.Arena.Valid, Layout, Tracking, SpreadAll, Spread, Subclasses;
      ghost var xs, i := classes.kids[c], 0;
      KidsAre(classes.cls, uninstalled, depth, selectorCount, hs, arena.tables, classes.kids, c);
      var sub := classes.cls[c].subclassList;
      while sub != None
        invariant 0 <= i <= |xs| && sub == if i < |xs| then Some(xs[i]) else None
        invariant arena.Valid() && Laid(hs) && version >= old(version)
        invariant Spread(classes.cls, classes.rank, hs, ts0, arena.tables, m, was, c, xs, i)
        decreases |xs| - i
      {
        sub := InstallKid(sub.value, c, m, was, ts0, top, hs, i);
        i := i + 1;
      }
      SpreadDone(classes.cls, classes.rank, hs, ts0, arena.tables, m, was, c, xs);
    }

    /** One subclass in that loop: those without a table are passed over. */
    method InstallKid(sub: nat, c: nat, m: Method, was: Option<Method>, ghost ts0: map<nat, Table>, ghost top: nat, ghost hs: map<nat, nat>, ghost i: nat)
      returns (next: Option<nat>)
      requires arena.Valid() && Laid(hs) && Walkable() && Making(top, hs)
      requires c in hs && c in classes.cls && Desc(classes.cls, classes.rank, c, top)
      requires Selector(m.selector, selectorCount) && !(was.Some? && was.value.imp == m.imp)
      requires i < |classes.kids[c]| && sub == classes.kids[c][i]
      requires Separate(hs, ts0) && Subclasses(classes.cls, hs, c, classes.kids[c])
      requires Spread(classes.cls, classes.rank, hs, ts0, arena.tables, m, was, c, classes.kids[c], i)
      modifies arena, this`version
      ensures arena.Valid() && Laid(hs) && version >= old(version)
      ensures next == After(classes.kids[c], i)
      ensures Spread(classes.cls, classes.rank, hs, ts0, arena.tables, m, was, c, classes.kids[c], i + 1)
      decreases Below(classes.cls, classes.rank, c), 0
    {
      ghost var ts := arena.tables;
      KidStep(classes.cls, classes.rank, classes.kids, c, i, top);
      var table := DtableForClass(sub);
      if table != uninstalled {
        var b := Install(sub, table, m, was, true, top, hs);
      }
      SpreadNext(classes.cls, classes.rank, hs, ts0, ts, arena.tables, m, was, c, classes.kids[c], i);
      next := classes.cls[sub].siblingClass;
    }

    /** Where the inherited entries of a table being made for `c` are looked up. */
    ghost predicate Source(c: nat, superTable: Option<nat>, inh: Entries, hs: map<nat, nat>, ts: map<nat, Table>)
      requires Ranked(classes.cls, classes.rank)
      reads this, classes
    {
      match superTable
      case None => inh == map[]
      case Some(p) =>
        && p in ts && ts[p].entries == inh && ts[p].shift + 8 == depth
        && (p !in hs.Values || exists q :: q in hs && q in classes.cls && hs[q] == p && !Desc(classes.cls, classes.rank, q, c))
    }

    /** One method of the loop in `create_dtable_for_class`. */
    method OverlayOne(c: nat, t: nat, m: Method, superTable: Option<nat>, ghost inh: Entries, ghost hs: map<nat, nat>,
                      ghost ts0: map<nat, Table>, ghost v0: nat, ghost ms: seq<Method>)
      requires arena.Valid() && Laid(hs) && Walkable() && Making(c, hs) && c in classes.cls && t == hs[c]
      requires Selector(m.selector, selectorCount) && Source(c, superTable, inh, hs, ts0)
      requires Overlaid(classes.cls, classes.rank, hs, ts0, arena.tables, c, inh, ms, v0, version)
      modifies arena, this`version
      ensures arena.Valid() && Laid(hs)
      ensures Overlaid(classes.cls, classes.rank, hs, ts0, arena.tables, c, inh, ms + [m], v0, version)
    {
      ghost var ts, v := arena.tables, version;
      var superMethod := None;
      if superTable != None {
        SourceKept(c, superTable, inh, hs, ts0, ts, ms, v0, version);
        superMethod := arena.Read(superTable.value, m.selector);
      }
      assert superMethod == Entry(inh, m.selector);
      var done := Install(c, t, m, superMethod, true, c, hs);
      OverlayStep(classes.cls, classes.rank, hs, ts0, ts, arena.tables, c, inh, ms, m, done, v0, v, version);
    }

    lemma SourceKept(c: nat, superTable: Option<nat>, inh: Entries, hs: map<nat, nat>, ts0: map<nat, Table>, ts: map<nat, Table>,
                     ms: seq<Method>, v0: nat, v: nat)
      requires Ranked(classes.cls, classes.rank) && Separate(hs, ts0) && c in classes.cls && superTable.Some? && Source(c, superTable, inh, hs, ts0)
      requires Overlaid(classes.cls, classes.rank, hs, ts0, ts, c, inh, ms, v0, v)
      ensures superTable.value in ts && ts[superTable.value] == ts0[superTable.value]
    {
      var p := superTable.value;
      if p in hs.Values {
        var q :| q in hs && q in classes.cls && hs[q] == p && !Desc(classes.cls, classes.rank, q, c);
        assert Desc(classes.cls, classes.rank, c, c);
        var rest := hs - {c};
        assert q in rest && rest[q] == p && OnlyInherited(rest, ts0, ts, inh, q);
      }
    }

    /** One method list of that loop. */
    method OverlayList(c: nat, t: nat, list: seq<Method>, superTable: Option<nat>, ghost inh: Entries, ghost hs: map<nat, nat>,
                       ghost ts0: map<nat, Table>, ghost v0: nat, ghost ms: seq<Method>)
      requires arena.Valid() && Laid(hs) && Walkable() && Making(c, hs) && c in classes.cls && t == hs[c]
      requires forall m :: m in list ==> Selector(m.selector, selectorCount)
      requires Source(c, superTable, inh, hs, ts0)
      requires Overlaid(classes.cls, classes.rank, hs, ts0, arena.tables, c, inh, ms, v0, version)
      modifies arena, this`version
      ensures arena.Valid() && Laid(hs)
      ensures Overlaid(classes.cls, classes.rank, hs, ts0, arena.tables, c, inh, ms + list, v0, version)
    {
      var i := 0;
      ghost var done := ms;
      PrefixNone(ms, list);
      while i < |list|
        invariant 0 <= i <= |list| && arena.Valid() && Laid(hs) && done == ms + list[..i]
        invariant Overlaid(classes.cls, classes.rank, hs, ts0, arena.tables, c, inh, done, v0, version)
      {
        OverlayOne(c, t, list[i], superTable, inh, hs, ts0, v0, done);
        PrefixSnoc(ms, list, i);
        done := done + [list[i]];
        i := i + 1;
      }
      PrefixAll(ms, list);
    }

    /** The loops of `create_dtable_for_class` over the method lists, front to back. */
    method OverlayAll(c: nat, t: nat, superTable: Option<nat>, ghost inh: Entries, ghost hs: map<nat, nat>)
      requires arena.Valid() && Laid(hs) && Walkable() && Making(c, hs) && c in classes.cls && t == hs[c] && c in methods
      requires forall m :: m in Flat(methods[c]) ==> Selector(m.selector, selectorCount)
      requires Source(c, superTable, inh, hs, arena.tables) && arena.tables[t].entries == inh
      modifies arena, this`version
      ensures arena.Valid() && Laid(hs)
      ensures Overlaid(classes.cls, classes.rank, hs, old(arena.tables), arena.tables, c, inh, Flat(methods[c]), old(version), version)
    {
      assert Separate(hs, arena.tables);
      hide SparseArrays.Arena.Valid, Tracking, Layout;
      ghost var ts0, v0 := arena.tables, version;
      var lists := methods[c];
      var k := 0;
      OverlaidStart(classes.cls, classes.rank, hs, ts0, c, inh, v0);
      ghost var done := [];
      while k < |lists|
        invariant 0 <= k <= |lists| && arena.Valid() && Laid(hs) && done == Flat(lists[..k])
        invariant Overlaid(classes.cls, classes.rank, hs, ts0, arena.tables, c, inh, done, v0, version)
      {
        FlatMembers(lists, k);
        OverlayList(c, t, lists[k], superTable, inh, hs, ts0, v0, done);
        FlatSnoc(lists, k);
        done := done + lists[k];
        k := k + 1;
      }
      assert lists[..k] == lists;
    }

    /** The entries that a table made for `c` starts from. */
    ghost function Inherited(c: nat, rootTable: nat): Entries
      requires c in classes.cls
      reads this, classes, arena
    {
      match classes.cls[c].super
      case None => map[]
      case Some(p) =>
        var h := if p in handles then handles[p] else rootTable;
        if h in arena.tables then arena.tables[h].entries else map[]
    }

    /** A table that belongs to no class yet. */
    ghost predicate Spare(t: nat)
      reads this, arena
    {
      && t in arena.tables && t != uninstalled && t !in handles.Values
      && arena.tables[t].shift + 8 == depth
      && forall sel :: sel in arena.tables[t].entries ==> Selector(sel, selectorCount)
    }

    /** The superclass of `c` has a table, or `c` is the metaclass of the root and
        `rootTable` is the root's table, which is not installed yet. */
    ghost predicate Creatable(c: nat, rootTable: nat)
      reads this, classes, arena
    {
      && c in classes.cls && classes.cls[c].resolved && c !in handles
      && match classes.cls[c].super
         case None => true
         case Some(p) => p in classes.cls && (p in handles || (classes.cls[p].isa == c && Spare(rootTable)))
    }

    /** A new table, or a copy of the superclass's.  `Creatable` keeps it from `abort`. */
    method Start(c: nat, rootTable: nat) returns (t: nat, superTable: Option<nat>)
      requires Valid() && Creatable(c, rootTable)
      modifies arena
      ensures arena.Valid() && t !in old(arena.tables)
      ensures Added(old(arena.tables), arena.tables, t, depth - 8, old(Inherited(c, rootTable)))
      ensures Laid(handles[c := t])
      ensures Source(c, superTable, old(Inherited(c, rootTable)), handles[c := t], arena.tables)
    {
      superTable := None;
      if classes.cls[c].super == None {
        t := arena.New(depth);
      } else {
        var super := classes.cls[c].super.value;
        var table := DtableForClass(super);
        if table == uninstalled {
          if classes.cls[super].isa == c {
            table := rootTable;
          } else {
            assert false;
          }
        } else {
          assert HandleOk(classes.cls, uninstalled, depth, selectorCount, handles, arena.tables, super);
        }
        superTable := Some(table);
        t := arena.Copy(table);
      }
      StartTable(c, t, superTable, old(Inherited(c, rootTable)), handles[c := t], old(arena.tables));
    }

    /** `create_dtable_for_class`, for a class that has no table. */
    method Create(c: nat, rootTable: nat) returns (t: nat)
      requires Valid() && Creatable(c, rootTable)
      modifies arena, this`version
      ensures arena.Valid() && t !in old(arena.tables) && Laid(handles[c := t]) && Laid(handles)
      ensures Created(classes.cls, classes.rank, handles, old(arena.tables), arena.tables, c, t,
                      Overlay(old(Inherited(c, rootTable)), Flat(methods[c])), old(Inherited(c, rootTable)), old(version), version)
    {
      hide SparseArrays.Arena.Valid, Tracking, Source, Overlaid, Layout;
      ghost var inh := Inherited(c, rootTable);
      var superTable;
      t, superTable := Start(c, rootTable);
      ghost var hs := handles[c := t];
      ghost var ts1 := arena.tables;
      OverlayAll(c, t, superTable, inh, hs);
      CreatedFrom(classes.cls, classes.rank, uninstalled, depth, selectorCount, handles, old(arena.tables), ts1, arena.tables, c, t,
                  inh, Flat(methods[c]), old(version), version);
    }

    lemma StartTable(c: nat, t: nat, superTable: Option<nat>, inh: Entries, hs: map<nat, nat>, ts0: map<nat, Table>)
      requires classes.Valid() && depth >= 8 && c in classes.cls && classes.cls[c].resolved && c !in handles && t !in ts0
      requires Layout(classes.cls, uninstalled, depth, selectorCount, handles, ts0)
      requires arena.Valid() && Added(ts0, arena.tables, t, depth - 8, inh) && hs == handles[c := t]
      requires forall sel :: sel in inh ==> Selector(sel, selectorCount)
      requires match superTable
               case None => inh == map[]
               case Some(p) => p in ts0 && ts0[p].shift == depth - 8 && ts0[p].entries == inh && (p !in handles.Values || exists q :: q in handles && handles[q] == p && classes.cls[c].super == Some(q))
      ensures Laid(hs) && Source(c, superTable, inh, hs, arena.tables)
    {
      forall d | d in hs ensures HandleOk(classes.cls, uninstalled, depth, selectorCount, hs, arena.tables, d) {
        if d != c { assert HandleOk(classes.cls, uninstalled, depth, selectorCount, handles, ts0, d); }
      }
      forall d, e ensures OwnTable(hs, d, e) { assert OwnTable(handles, d, e); }
      assert SuperOk(classes.cls, classes.rank, c);
      if superTable.Some? && superTable.value in hs.Values {
        assert superTable.value in handles.Values;
        var q :| q in handles && handles[q] == superTable.value && classes.cls[c].super == Some(q);
        if Desc(classes.cls, classes.rank, q, c) { DescUp(classes.cls, classes.rank, q, c); }
        assert q in hs && hs[q] == superTable.value;
      }
    }

    /** Every selector can be reached by `SparseArrayNext`, in any table. */
    ghost predicate Enumerates()
      reads this
    {
      (depth == 8 && selectorCount <= Limit(0) - 1) || (depth == 16 && selectorCount <= Limit(8))
    }

    /** `collectMethodsForMethodListToSparseArray` into a new table. */
    method CollectList(list: seq<Method>) returns (t: nat)
      requires arena.Valid() && (depth == 8 || depth == 16 || depth == 24 || depth == 32)
      requires forall m :: m in list ==> m.selector < Capacity(depth - 8)
      modifies arena
      ensures arena.Valid() && t !in old(arena.tables)
      ensures arena.tables == old(arena.tables)[t := Gathered(depth - 8, list)]
    {
      t := arena.New(depth);
      for i := 0 to |list|
        invariant arena.Valid() && arena.tables == old(arena.tables)[t := Gathered(depth - 8, list[..i])]
      {
        arena.Insert(t, list[i].selector, Some(list[i]));
        GatheredSnoc(list, i, depth - 8);
        Overwrite(old(arena.tables), t, Gathered(depth - 8, list[..i]), Gathered(depth - 8, list[..i + 1]));
      }
      assert list[..|list|] == list;
    }

    /** The table `bt` still holds the part of `batch` after `idx`, and belongs to no class. */
    ghost predicate Queue(bt: nat, batch: Entries, idx: nat, a: nat, hs: map<nat, nat>)
      reads this, arena
    {
      bt in arena.tables && bt != uninstalled && bt !in hs.Values && Remains(arena.tables[bt], depth, batch, idx, a)
    }

    /** The entries of the superclass's table, which no installation in `c` changes. */
    ghost predicate Above(superTable: Option<nat>, inh: Entries)
      reads this, arena
    {
      match superTable
      case None => inh == map[]
      case Some(p) => p in arena.tables && arena.tables[p].shift + 8 == depth && arena.tables[p].entries == inh
    }

    /** The installation in one turn of the loop in `installMethodsInClass`. */
    method InstallOver(c: nat, h: nat, superTable: Option<nat>, m: Method, ghost inh: Entries, ghost hs: map<nat, nat>) returns (done: bool)
      requires arena.Valid() && Laid(hs) && Walkable() && hs == handles && c in hs && h == hs[c] && c in classes.cls
      requires Selector(m.selector, selectorCount) && Above(superTable, inh)
      modifies arena, this`version
      ensures arena.Valid() && Laid(hs)
      ensures InstallResult(classes.cls, classes.rank, hs, old(arena.tables), arena.tables, c, m, Entry(inh, m.selector), true, done, old(version), version)
    {
      var toReplace := None;
      if superTable != None {
        toReplace := arena.Read(superTable.value, m.selector);
      }
      assert toReplace == Entry(inh, m.selector);
      assert Desc(classes.cls, classes.rank, c, c);
      done := Install(c, h, m, toReplace, true, c, hs);
    }

    /** One turn of the loop in `installMethodsInClass`. */
    method InstallNext(c: nat, h: nat, superTable: Option<nat>, bt: nat, m: Method, ghost idx: nat, ghost a: nat,
                       ghost ts0: map<nat, Table>, ghost v0: nat, ghost batch: Entries, ghost inh: Entries, ghost hs: map<nat, nat>)
      requires arena.Valid() && Laid(hs) && Walkable() && hs == handles && c in hs && h == hs[c] && c in classes.cls
      requires Separate(hs, ts0) && BatchUpTo(classes.cls, classes.rank, hs, ts0, arena.tables, c, batch, inh, idx)
      requires Cached(hs, ts0, v0, arena.tables, version) && Queue(bt, batch, idx, a, hs)
      requires idx < m.selector && m.selector in batch && batch[m.selector] == m && Selector(m.selector, selectorCount)
      requires forall k :: idx < k < m.selector ==> k !in batch
      requires Above(superTable, inh)
      modifies arena, this`version
      ensures arena.Valid() && Laid(hs) && Queue(bt, batch, m.selector, a, hs)
      ensures BatchUpTo(classes.cls, classes.rank, hs, ts0, arena.tables, c, batch, inh, m.selector)
      ensures Cached(hs, ts0, v0, arena.tables, version)
      ensures Others(hs, old(arena.tables), arena.tables, bt)
    {
      hide SparseArrays.Arena.Valid, Tracking, BatchUpTo, Cached, Remains;
      ghost var ts, v := arena.tables, version;
      RemainsNext(ts[bt], depth, batch, idx, a, m.selector);
      var done := InstallOver(c, h, superTable, m, inh, hs);
      ghost var ts1 := arena.tables;
      BatchStep(classes.cls, classes.rank, hs, ts0, ts, ts1, c, batch, inh, idx, m.selector, done, v, version);
      NextCached(classes.cls, classes.rank, hs, ts0, ts, ts1, c, m, Entry(inh, m.selector), done, v0, v, version);
      if !done {
        arena.Insert(bt, m.selector, None);
        NotOurs(classes.cls, classes.rank, uninstalled, depth, selectorCount, hs, ts0, ts1, arena.tables, bt, c, batch, inh, m.selector, v0, version);
      }
    }

    /** The superclass of `c`, if any, has a table; it is `superTable` and holds `inh`. */
    ghost predicate SuperTable(c: nat, superTable: Option<nat>, inh: Entries, hs: map<nat, nat>, ts: map<nat, Table>)
      reads this, classes
    {
      c in classes.cls
      && match classes.cls[c].super
         case None => superTable == None && inh == map[]
         case Some(q) => q in hs && q in classes.cls && superTable == Some(hs[q]) && hs[q] in ts && ts[hs[q]].shift + 8 == depth && ts[hs[q]].entries == inh
    }

    lemma AboveKept(c: nat, superTable: Option<nat>, inh: Entries, hs: map<nat, nat>, ts0: map<nat, Table>, batch: Entries, idx: nat)
      requires Ranked(classes.cls, classes.rank) && Separate(hs, ts0) && c in hs && SuperTable(c, superTable, inh, hs, ts0)
      requires BatchUpTo(classes.cls, classes.rank, hs, ts0, arena.tables, c, batch, inh, idx)
      ensures Above(superTable, inh)
    {
      if superTable.Some? {
        assert SuperOk(classes.cls, classes.rank, c);
        var q := classes.cls[c].super.value;
        var was, now := ts0[hs[q]].entries, arena.tables[hs[q]].entries;
        forall sel: nat ensures Entry(now, sel) == Entry(was, sel) {
          var tabs := TabsOf(hs, ts0);
          if Hit(classes.cls, classes.rank, tabs, sel, Entry(tabs[c], sel), c, q) {
            HitDesc(classes.cls, classes.rank, tabs, sel, Entry(tabs[c], sel), c, q);
            DescUp(classes.cls, classes.rank, q, c);
          }
        }
        SameEntries(was, now);
      }
    }

    /** The next method of the batch. */
    method NextInBatch(bt: nat, idx: nat, ghost a: nat, ghost batch: Entries, ghost hs: map<nat, nat>) returns (m: Option<Method>, next: nat)
      requires arena.Valid() && depth >= 8 && Queue(bt, batch, idx, a, hs)
      ensures m.Some? ==> idx < next && Entry(batch, next) == m && forall k :: idx < k < next ==> k !in batch
      ensures m.None? ==> forall k :: idx < k ==> k !in batch
    {
      m, next := arena.Next(bt, idx, a);
      ghost var t := arena.tables[bt];
      assert forall k: nat :: k > idx && k in batch ==> k in t.entries by {
        forall k: nat | k > idx && k in batch ensures k in t.entries { assert Get(t, k) == Entry(batch, k); }
      }
    }

    /** The loop of `installMethodsInClass` stands at `idx`, and `m` at `next` is what comes after. */
    ghost predicate Midway(bt: nat, m: Option<Method>, next: nat, idx: nat, a: nat, ts0: map<nat, Table>, v0: nat, c: nat, batch: Entries, inh: Entries, hs: map<nat, nat>)
      requires Ranked(classes.cls, classes.rank) && Separate(hs, ts0) && c in hs
      reads this, classes, arena
    {
      && arena.Valid() && Laid(hs) && Queue(bt, batch, idx, a, hs) && (idx == 0 || idx < selectorCount)
      && BatchUpTo(classes.cls, classes.rank, hs, ts0, arena.tables, c, batch, inh, idx)
      && Cached(hs, ts0, v0, arena.tables, version) && Others(hs, ts0, arena.tables, bt)
      && (m.Some? ==> idx < next && Entry(batch, next) == m && forall k :: idx < k < next ==> k !in batch)
      && (m.None? ==> forall k :: idx < k ==> k !in batch)
    }

    /** One turn of that loop. */
    method BatchTurn(c: nat, h: nat, superTable: Option<nat>, bt: nat, m: Method, next: nat, ghost idx: nat, ghost a: nat,
                     ghost ts0: map<nat, Table>, ghost v0: nat, ghost batch: Entries, ghost inh: Entries, ghost hs: map<nat, nat>)
      returns (m': Option<Method>, next': nat)
      requires Walkable() && hs == handles && c in hs && h == hs[c] && c in classes.cls && Separate(hs, ts0)
      requires Midway(bt, Some(m), next, idx, a, ts0, v0, c, batch, inh, hs) && SuperTable(c, superTable, inh, hs, ts0)
      requires forall sel :: sel in batch ==> Selector(sel, selectorCount) && batch[sel].selector == sel
      modifies arena, this`version
      ensures next < selectorCount && Midway(bt, m', next', next, a, ts0, v0, c, batch, inh, hs)
    {
      hide SparseArrays.Arena.Valid, Tracking, BatchUpTo, Cached, Others, SuperTable, Remains;
      AboveKept(c, superTable, inh, hs, ts0, batch, idx);
      ghost var ts := arena.tables;
      InstallNext(c, h, superTable, bt, m, idx, a, ts0, v0, batch, inh, hs);
      OthersTrans(hs, ts0, ts, arena.tables, bt);
      m', next' := NextInBatch(bt, next, a, batch, hs);
    }

    /** `installMethodsInClass` with `replaceExisting`. */
    method InstallBatch(c: nat, h: nat, superTable: Option<nat>, bt: nat, ghost a: nat, ghost batch: Entries, ghost inh: Entries, ghost hs: map<nat, nat>)
      requires arena.Valid() && Laid(hs) && Walkable() && hs == handles && c in hs && h == hs[c]
      requires SuperTable(c, superTable, inh, hs, arena.tables) && Queue(bt, batch, 0, a, hs)
      requires forall sel :: sel in batch ==> Selector(sel, selectorCount) && batch[sel].selector == sel
      modifies arena, this`version
      ensures arena.Valid() && Laid(hs) && arena.tables.Keys == old(arena.tables).Keys
      ensures BatchInstalled(classes.cls, classes.rank, TabsOf(hs, old(arena.tables)), c, batch, inh, TabsOf(hs, arena.tables))
      ensures Cached(hs, old(arena.tables), old(version), arena.tables, version)
      ensures Others(hs, old(arena.tables), arena.tables, bt)
    {
      ghost var ts0, v0 := arena.tables, version;
      BatchStart(classes.cls, classes.rank, hs, ts0, c, batch, inh);
      NothingYet(hs, ts0, v0, bt);
      hide SparseArrays.Arena.Valid, Tracking, Cached, Others, BatchInstalled, Remains, BatchUpTo;
      var idx := 0;
      var m, next := NextInBatch(bt, idx, a, batch, hs);
      while m != None
        invariant Midway(bt, m, next, idx, a, ts0, v0, c, batch, inh, hs)
        decreases selectorCount - idx
      {
        var at := next;
        m, next := BatchTurn(c, h, superTable, bt, m.value, next, idx, a, ts0, v0, batch, inh, hs);
        idx := at;
      }
      BatchDone(classes.cls, classes.rank, hs, ts0, arena.tables, c, batch, inh, idx);
    }

    /** Every table agrees with the method lists, and tables exist from the top down. */
    ghost predicate Agreeing()
      requires Valid()
      reads this, classes, arena
    {
      InAgreement(classes.cls, classes.rank, methods, Tabs())
    }

    /** The methods of `list` in a table of their own. */
    method Gather(list: seq<Method>, ghost hs: map<nat, nat>) returns (bt: nat, ghost a: nat)
      requires arena.Valid() && Laid(hs) && Depth(depth) && selectorCount <= Capacity(depth - 8) && Listable(depth, list)
      requires forall m :: m in list ==> Selector(m.selector, selectorCount)
      modifies arena
      ensures arena.Valid() && Laid(hs) && bt !in old(arena.tables) && TabsOf(hs, arena.tables) == TabsOf(hs, old(arena.tables))
      ensures arena.tables == old(arena.tables)[bt := Gathered(depth - 8, list)] && Queue(bt, Part(Collect(list), depth), 0, a, hs)
    {
      hide SparseArrays.Arena.Valid, Remains, Part, Gathered, Collect;
      bt := CollectList(list);
      a := if list == [] || depth <= 16 then 0 else list[0].selector / BLOCK;
      GatheredRemains(depth, list, a);
      OneMoreTable(classes.cls, uninstalled, depth, selectorCount, hs, old(arena.tables), arena.tables, bt);
    }

    /** The table of the superclass, if there is a superclass. */
    method TableAbove(c: nat, ghost hs: map<nat, nat>) returns (superTable: Option<nat>)
      requires arena.Valid() && Laid(hs) && Walkable() && hs == handles && c in classes.cls
      requires classes.cls[c].super.Some? ==> classes.cls[c].super.value in hs
      ensures SuperTable(c, superTable, InhOf(classes.cls, TabsOf(hs, arena.tables), c), hs, arena.tables)
    {
      superTable := None;
      if classes.cls[c].super != None {
        assert HandleOk(classes.cls, uninstalled, depth, selectorCount, hs, arena.tables, classes.cls[c].super.value);
        var table := DtableForClass(classes.cls[c].super.value);
        superTable := Some(table);
      }
    }

    /** `add_method_list_to_class`. */
    method AddMethodList(c: nat, list: seq<Method>, ghost hs: map<nat, nat>)
      requires arena.Valid() && Laid(hs) && Walkable() && Depth(depth) && hs == handles && c in hs && c in classes.cls
      requires classes.cls[c].super.Some? ==> classes.cls[c].super.value in hs
      requires Listable(depth, list) && forall m :: m in list ==> Selector(m.selector, selectorCount)
      modifies arena, this`version
      ensures arena.Valid() && Laid(hs)
      ensures BatchInstalled(classes.cls, classes.rank, TabsOf(hs, old(arena.tables)), c, Part(Collect(list), depth),
                             InhOf(classes.cls, TabsOf(hs, old(arena.tables)), c), TabsOf(hs, arena.tables))
      ensures arena.tables.Keys == old(arena.tables).Keys
      ensures Cached(hs, old(arena.tables), old(version), arena.tables, version)
    {
      hide SparseArrays.Arena.Valid, Tracking, Cached, BatchInstalled, Layout, Others;
      ghost var ts0 := arena.tables;
      ghost var inh := InhOf(classes.cls, TabsOf(hs, ts0), c);
      var bt, a := Gather(list, hs);
      var superTable := TableAbove(c, hs);
      ghost var ts1 := arena.tables;
      var h := DtableForClass(c);
      InstallBatch(c, h, superTable, bt, a, Part(Collect(list), depth), inh, hs);
      ghost var ts2 := arena.tables;
      arena.Destroy(bt);
      KeysBack(ts0.Keys, bt);
      OneFewerTable(classes.cls, uninstalled, depth, selectorCount, hs, ts2, arena.tables, bt);
      CachedAround(hs, ts0, ts1, ts2, arena.tables, old(version), version);
    }

    /** The tables after `list` came to the front of the methods of `c`. */
    method Publish(c: nat, list: seq<Method>, ghost methods0: MethodLists, ghost hs: map<nat, nat>)
      requires arena.Valid() && Laid(hs) && Walkable() && Depth(depth) && hs == handles && c in classes.cls
      requires InAgreement(classes.cls, classes.rank, methods0, TabsOf(hs, arena.tables))
      requires Fresh(methods0, list) && OneOwner(Prepended(methods0, c, list)) && Listable(depth, list)
      requires forall m :: m in list ==> Selector(m.selector, selectorCount)
      modifies arena, this`version
      ensures arena.Valid() && Laid(hs)
      ensures InAgreement(classes.cls, classes.rank, Prepended(methods0, c, list), TabsOf(hs, arena.tables)) <==>
                c !in hs || (Addable(methods0[c], list, InhOf(classes.cls, TabsOf(hs, old(arena.tables)), c)) && AllReached(depth, list))
      ensures if c in hs then ListInstalled(classes.cls, classes.rank, methods0, TabsOf(hs, old(arena.tables)), c, list, depth, TabsOf(hs, arena.tables))
              else arena.tables == old(arena.tables) && version == old(version)
      ensures Cached(hs, old(arena.tables), old(version), arena.tables, version)
    {
      ghost var tabs0 := TabsOf(hs, arena.tables);
      var h := DtableForClass(c);
      if h != uninstalled {
        assert c in tabs0 by { assert HandleOk(classes.cls, uninstalled, depth, selectorCount, hs, arena.tables, c); }
        AddMethodList(c, list, hs);
        ListMeans(classes.cls, classes.rank, methods0, tabs0, c, list, depth, TabsOf(hs, arena.tables));
        AddedInAgreement(classes.cls, classes.rank, methods0, tabs0, c, list, depth, TabsOf(hs, arena.tables));
      } else {
        UnseenAgrees(classes.cls, classes.rank, methods0, tabs0, c, list);
      }
    }

    /** `register_methods`, which attaches a category's methods; `class_addMethod` ends in
        the same way. */
    method RegisterMethods(c: nat, list: seq<Method>)
      requires Valid() && Agreeing() && c in classes.cls && Listable(depth, list)
      requires Fresh(methods, list) && forall m :: m in list ==> Selector(m.selector, selectorCount)
      modifies arena, this`version, this`methods
      ensures Valid() && methods == Prepended(old(methods), c, list)
      ensures Agreeing() <==> c !in handles || (Addable(old(methods[c]), list, InhOf(classes.cls, old(Tabs()), c)) && AllReached(depth, list))
      ensures if c in handles then ListInstalled(classes.cls, classes.rank, old(methods), old(Tabs()), c, list, depth, Tabs())
              else arena.tables == old(arena.tables) && version == old(version)
      ensures Cached(handles, old(arena.tables), old(version), arena.tables, version)
    {
      hide SparseArrays.Arena.Valid, Layout, Tracking, InAgreement, Cached, ListInstalled, Addable, AllReached, Listable, Registered, OneOwner;
      ghost var methods0 := methods;
      PrependedOk(methods, c, list, selectorCount);
      methods := methods[c := [list] + methods[c]];
      Publish(c, list, methods0, handles);
    }

    /** `class_getInstanceMethodNonrecursive`. */
    method OwnMethod(c: nat, sel: nat) returns (m: Option<Method>)
      requires c in methods
      ensures m == Own(methods[c], sel)
    {
      var lists := methods[c];
      for k := 0 to |lists|
        invariant Own(lists[..k], sel) == None
      {
        FlatSnoc(lists, k);
        for i := 0 to |lists[k]|
          invariant MethodLookup.First(lists[k][..i], sel) == None
        {
          assert lists[k] == lists[k][..i] + [lists[k][i]] + lists[k][i + 1..];
          if lists[k][i].selector == sel {
            FoundAt(lists, k, i, sel);
            return Some(lists[k][i]);
          }
          assert lists[k][..i + 1] == lists[k][..i] + [lists[k][i]];
          FirstAppend(lists[k][..i], [lists[k][i]], sel);
        }
        assert lists[k][..|lists[k]|] == lists[k];
        FirstAppend(Flat(lists[..k]), lists[k], sel);
      }
      assert lists[..|lists|] == lists;
      m := None;
    }

    /** `class_addMethod`. */
    method AddMethod(c: nat, m: Method) returns (ok: bool)
      requires Valid() && Agreeing() && c in classes.cls && Listable(depth, [m])
      requires Fresh(methods, [m]) && Selector(m.selector, selectorCount)
      modifies arena, this`version, this`methods
      ensures Valid() && (ok <==> Own(old(methods[c]), m.selector) == None)
      ensures !ok ==> methods == old(methods) && arena.tables == old(arena.tables) && version == old(version)
      ensures ok ==> methods == Prepended(old(methods), c, [m])
      ensures ok ==> (Agreeing() <==> c !in handles || (!SameImp(classes.cls, old(Tabs()), c, m) && Reached(depth, m.selector)))
      ensures ok ==> if c in handles then ListInstalled(classes.cls, classes.rank, old(methods), old(Tabs()), c, [m], depth, Tabs())
                     else arena.tables == old(arena.tables) && version == old(version)
      ensures Cached(handles, old(arena.tables), old(version), arena.tables, version)
    {
      var own := OwnMethod(c, m.selector);
      if own != None {
        return false;
      }
      AddableOne(methods[c], m, InhOf(classes.cls, Tabs(), c));
      RegisterMethods(c, [m]);
      ok := true;
    }

    /** The answer of an installed dispatch table is that of the walk. */
    method Dispatched(c: nat, sel: nat) returns (m: Option<Method>)
      requires Valid() && Agreeing() && c in classes.cls && dtable[c] != uninstalled && sel < selectorCount
      ensures m == MethodLookup.Walk(classes.cls, classes.rank, methods, c, sel)
    {
      assert TracksAt(dtable, uninstalled, temporary, handles, c);
      assert HandleOk(classes.cls, uninstalled, depth, selectorCount, handles, arena.tables, c);
      assert AgreeAt(classes.cls, classes.rank, methods, Tabs(), c);
      m := arena.Read(dtable[c], sel);
      assert m == Entry(Tabs()[c], sel);
    }
  }

  /** `m` has the implementation of the method that `c` inherits for the same selector. */
  ghost predicate SameImp(cls: Store, tabs: map<nat, Entries>, c: nat, m: Method) {
    && c in cls && c in tabs
    && m.selector in InhOf(cls, tabs, c) && InhOf(cls, tabs, c)[m.selector].imp == m.imp
  }

  lemma AddedInAgreement(cls: Store, rank: map<nat, nat>, methods: MethodLists, tabs: map<nat, Entries>, c: nat, list: seq<Method>, depth: nat, tabs': map<nat, Entries>)
    requires InAgreement(cls, rank, methods, tabs) && c in tabs && c in cls && Fresh(methods, list)
    requires OneOwner(Prepended(methods, c, list))
    requires BatchInstalled(cls, rank, tabs, c, Part(Collect(list), depth), InhOf(cls, tabs, c), tabs')
    ensures InAgreement(cls, rank, Prepended(methods, c, list), tabs') <==> Addable(methods[c], list, InhOf(cls, tabs, c)) && AllReached(depth, list)
  {
    AddExact(cls, rank, methods, tabs, c, list, depth, tabs');
  }

  lemma AddableOne(own: seq<seq<Method>>, m: Method, inh: Entries)
    requires Own(own, m.selector) == None
    ensures Addable(own, [m], inh) <==> !(m.selector in inh && inh[m.selector].imp == m.imp)
  {
    assert Collect([m]) == map[m.selector := m] by { assert [m][..0] == []; }
  }

  lemma FoundAt(lists: seq<seq<Method>>, k: nat, i: nat, sel: nat)
    requires k < |lists| && i < |lists[k]| && lists[k][i].selector == sel
    requires Own(lists[..k], sel) == None && MethodLookup.First(lists[k][..i], sel) == None
    ensures Own(lists, sel) == Some(lists[k][i])
  {
    FlatSplit(lists, k);
    assert lists[k] == lists[k][..i] + lists[k][i..];
    FirstAppend(Flat(lists[..k]), lists[k] + Flat(lists[k + 1..]), sel);
    FirstAppend(lists[k], Flat(lists[k + 1..]), sel);
    FirstAppend(lists[k][..i], lists[k][i..], sel);
  }

  lemma {:induction false} FlatSplit(lists: seq<seq<Method>>, k: nat)
    requires k < |lists|
    ensures Flat(lists) == Flat(lists[..k]) + (lists[k] + Flat(lists[k + 1..]))
    decreases k
  {
    if k > 0 {
      assert lists[..k][1..] == lists[1..][..k - 1] && lists[1..][k..] == lists[k + 1..];
      FlatSplit(lists[1..], k - 1);
    }
  }

  lemma PrependedOk(methods: MethodLists, c: nat, list: seq<Method>, selectorCount: nat)
    requires OneOwner(methods) && Registered(methods, selectorCount) && Fresh(methods, list) && c in methods
    requires forall m :: m in list ==> Selector(m.selector, selectorCount)
    ensures OneOwner(Prepended(methods, c, list)) && Registered(Prepended(methods, c, list), selectorCount)
  {
    var methods' := Prepended(methods, c, list);
    assert ([list] + methods[c])[1..] == methods[c];
    assert Flat(methods'[c]) == list + Flat(methods[c]);
    forall d | d in methods' ensures NoRepeats(Flat(methods'[d])) {
      assert NoRepeats(Flat(methods[d]));
      if d == c {
        forall i, j | 0 <= i < |list| && 0 <= j < |Flat(methods[c])| ensures list[i] != Flat(methods[c])[j] {
          assert list[i] in list && Flat(methods[c])[j] in Flat(methods[c]);
        }
      }
    }
    forall d, m | d in methods' ensures m in Flat(methods'[d]) <==> m in Flat(methods[d]) || (d == c && m in list) { }
  }

  /** Methods added to a class without a table change no answer of a class with one. */
  lemma UnseenAgrees(cls: Store, rank: map<nat, nat>, methods: MethodLists, tabs: map<nat, Entries>, c: nat, list: seq<Method>)
    requires InAgreement(cls, rank, methods, tabs) && c in cls && c !in tabs && OneOwner(Prepended(methods, c, list))
    ensures InAgreement(cls, rank, Prepended(methods, c, list), tabs)
  {
    var methods' := Prepended(methods, c, list);
    forall d | d in tabs && d in cls ensures AgreeAt(cls, rank, methods', tabs, d) {
      assert AgreeAt(cls, rank, methods, tabs, d);
      forall sel: nat ensures Entry(tabs[d], sel) == MethodLookup.Walk(cls, rank, methods', d, sel) {
        WalkPrepended(cls, rank, methods, c, list, d, sel);
        if Inherits(cls, rank, methods, d, c, sel) {
          InheritsWalk(cls, rank, methods, d, c, sel);
          TableAbove(cls, rank, tabs, d, c);
        }
      }
    }
  }

  lemma {:induction false} TableAbove(cls: Store, rank: map<nat, nat>, tabs: map<nat, Entries>, d: nat, c: nat)
    requires Ranked(cls, rank) && SupersFirst(cls, tabs) && d in tabs && d in cls && Desc(cls, rank, d, c)
    ensures c in tabs
    decreases if d in rank then rank[d] else 0
  {
    assert SuperOk(cls, rank, d);
    if d != c { TableAbove(cls, rank, tabs, cls[d].super.value, c); }
  }

  /** A table that belongs to no class comes or goes. */
  lemma OneMoreTable(cls: Store, uninstalled: nat, depth: nat, selectorCount: nat, hs: map<nat, nat>, ts: map<nat, Table>, ts': map<nat, Table>, bt: nat)
    requires Layout(cls, uninstalled, depth, selectorCount, hs, ts) && bt !in ts && ts'.Keys == ts.Keys + {bt}
    requires forall t :: t in ts ==> ts'[t] == ts[t]
    ensures Layout(cls, uninstalled, depth, selectorCount, hs, ts') && bt !in hs.Values && TabsOf(hs, ts') == TabsOf(hs, ts)
  {
    forall d | d in hs ensures HandleOk(cls, uninstalled, depth, selectorCount, hs, ts', d) && hs[d] != bt {
      assert HandleOk(cls, uninstalled, depth, selectorCount, hs, ts, d);
    }
  }

  lemma KeysBack(keys: set<nat>, bt: nat)
    requires bt !in keys
    ensures keys + {bt} - {bt} == keys
  {
  }

  lemma OneFewerTable(cls: Store, uninstalled: nat, depth: nat, selectorCount: nat, hs: map<nat, nat>, ts: map<nat, Table>, ts': map<nat, Table>, bt: nat)
    requires Layout(cls, uninstalled, depth, selectorCount, hs, ts) && bt in ts && bt !in hs.Values && bt != uninstalled && ts' == ts - {bt}
    ensures Layout(cls, uninstalled, depth, selectorCount, hs, ts') && TabsOf(hs, ts') == TabsOf(hs, ts)
  {
    forall d | d in hs ensures HandleOk(cls, uninstalled, depth, selectorCount, hs, ts', d) && hs[d] in ts' && ts'[hs[d]] == ts[hs[d]] {
      assert HandleOk(cls, uninstalled, depth, selectorCount, hs, ts, d) && hs[d] in hs.Values;
    }
  }

  lemma CachedAround(hs: map<nat, nat>, ts0: map<nat, Table>, ts1: map<nat, Table>, ts2: map<nat, Table>, ts3: map<nat, Table>, v: nat, v': nat)
    requires Cached(hs, ts1, v, ts2, v') && TabsOf(hs, ts0) == TabsOf(hs, ts1) && TabsOf(hs, ts2) == TabsOf(hs, ts3)
    ensures Cached(hs, ts0, v, ts3, v')
  {
    forall d, sel: nat ensures Slot(hs, ts0, d, sel) == Slot(hs, ts1, d, sel) && Slot(hs, ts2, d, sel) == Slot(hs, ts3, d, sel) {
      assert d in TabsOf(hs, ts0) <==> d in TabsOf(hs, ts1);
      assert d in TabsOf(hs, ts2) <==> d in TabsOf(hs, ts3);
    }
  }

  lemma SameEntries(a: Entries, b: Entries)
    requires forall sel: nat :: Entry(a, sel) == Entry(b, sel)
    ensures a == b
  {
    forall sel: nat ensures sel in a <==> sel in b { assert Entry(a, sel) == Entry(b, sel); }
    forall sel | sel in a ensures a[sel] == b[sel] { assert Entry(a, sel) == Entry(b, sel); }
  }

  /** Tables other than those of classes and `bt` are as they were. */
  ghost predicate Others(hs: map<nat, nat>, ts: map<nat, Table>, ts': map<nat, Table>, bt: nat) {
    forall t {:trigger t in ts'} :: t in ts && t !in hs.Values && t != bt ==> t in ts' && ts'[t] == ts[t]
  }

  lemma OthersTrans(hs: map<nat, nat>, ts: map<nat, Table>, ts1: map<nat, Table>, ts2: map<nat, Table>, bt: nat)
    requires Others(hs, ts, ts1, bt) && Others(hs, ts1, ts2, bt)
    ensures Others(hs, ts, ts2, bt)
  {
    forall t | t in ts && t !in hs.Values && t != bt ensures t in ts2 && ts2[t] == ts[t] { assert t in ts1; }
  }

  lemma NothingYet(hs: map<nat, nat>, ts: map<nat, Table>, v: nat, bt: nat)
    ensures Cached(hs, ts, v, ts, v) && Others(hs, ts, ts, bt)
  {
  }

  /** `t` holds the part of `batch` after `idx`, as far as an enumeration at `a` comes. */
  ghost predicate Remains(t: Table, depth: nat, batch: Entries, idx: nat, a: nat) {
    && t.shift + 8 == depth && (depth > 16 ==> t.blocks <= {a} && a < 256) && (depth == 8 ==> 255 !in t.entries)
    && (idx == 0 || Spans(depth, a, idx)) && (forall sel :: sel in batch ==> Spans(depth, a, sel))
    && forall k: nat :: k > idx && Spans(depth, a, k) ==> Get(t, k) == Entry(batch, k)
  }

  lemma RemainsNext(t: Table, depth: nat, batch: Entries, idx: nat, a: nat, sel: nat)
    requires Remains(t, depth, batch, idx, a) && idx < sel && sel in batch && depth >= 8
    ensures Remains(t, depth, batch, sel, a) && Remains(Put(t, sel, None), depth, batch, sel, a)
  {
    assert Spans(depth, a, sel);
    if depth > 16 { assert sel / BLOCK == a by { assert sel == a * BLOCK + (sel - a * BLOCK); } }
  }

  ghost function BlocksOf(list: seq<Method>): (blocks: set<nat>)
    ensures forall b :: b in blocks ==> exists m :: m in list && m.selector / BLOCK == b
  {
    if list == [] then {} else BlocksOf(list[..|list| - 1]) + {list[|list| - 1].selector / BLOCK}
  }

  /** A table of its own for the methods of a list. */
  ghost function Gathered(shift: nat, list: seq<Method>): Table {
    Table(shift, Collect(list), if shift <= 8 then {0} else BlocksOf(list))
  }

  lemma GatheredSnoc(list: seq<Method>, i: nat, shift: nat)
    requires i < |list|
    ensures Put(Gathered(shift, list[..i]), list[i].selector, Some(list[i])) == Gathered(shift, list[..i + 1])
  {
    assert list[..i + 1][..i] == list[..i];
  }

  predicate Depth(depth: nat) {
    depth == 8 || depth == 16 || depth == 24 || depth == 32
  }

  /** What `installMethodsInClass` needs of a list so that it comes to an end with every index it
      clears the right one: no selector 255 at depth 8, one table of depth 16 at depth 24 and 32,
      and that below the first child at depth 32. */
  ghost predicate Listable(depth: nat, list: seq<Method>) {
    && (depth == 8 ==> forall m :: m in list ==> m.selector < 255)
    && (depth > 16 ==> forall m, k :: m in list && k in list ==> m.selector / BLOCK == k.selector / BLOCK)
    && (depth == 32 ==> forall m :: m in list ==> m.selector < Capacity(16))
  }

  /** `sel` is among the indices that an enumeration reports when its table of depth 16, at `a`,
      is the only one. */
  predicate Spans(depth: nat, a: nat, sel: nat) {
    depth >= 8 && SpanLow(depth - 8, a) < sel < SpanHigh(depth - 8, a) && (depth == 8 ==> sel < 255)
  }

  lemma SpansReached(depth: nat, a: nat, sel: nat)
    requires Depth(depth) && sel > 0 && (if depth <= 16 then sel < Capacity(depth - 8) else sel / BLOCK == a) && (depth == 8 ==> sel < 255)
    ensures Spans(depth, a, sel) <==> Reached(depth, sel)
  {
    if depth > 16 { assert sel == a * BLOCK + sel % BLOCK; }
  }

  lemma GatheredRemains(depth: nat, list: seq<Method>, a: nat)
    requires Depth(depth) && Listable(depth, list) && forall m :: m in list ==> 0 < m.selector < Capacity(depth - 8)
    requires a == if list == [] || depth <= 16 then 0 else list[0].selector / BLOCK
    ensures Remains(Gathered(depth - 8, list), depth, Part(Collect(list), depth), 0, a)
  {
    var batch := Collect(list);
    forall sel | sel in batch ensures batch[sel] in list && batch[sel].selector == sel && (Spans(depth, a, sel) <==> Reached(depth, sel)) {
      assert batch[sel] in list;
      if depth > 16 { assert list[0] in list; }
      SpansReached(depth, a, sel);
    }
    forall k: nat | Spans(depth, a, k) ensures Get(Gathered(depth - 8, list), k) == Entry(Part(batch, depth), k) {
      assert Entry(Part(batch, depth), k) == if Reached(depth, k) then Entry(batch, k) else None;
    }
  }

  /** One table more. */
  ghost predicate Added(ts: map<nat, Table>, ts': map<nat, Table>, t: nat, shift: nat, entries: Entries) {
    t in ts' && ts' == ts[t := ts'[t]] && ts'[t].shift == shift && ts'[t].entries == entries
  }

  lemma Overwrite(ts: map<nat, Table>, t: nat, a: Table, b: Table)
    ensures ts[t := a][t := b] == ts[t := b]
  {
  }

  lemma NextCached(cls: Store, rank: map<nat, nat>, hs: map<nat, nat>, ts0: map<nat, Table>, ts: map<nat, Table>, ts': map<nat, Table>,
                   c: nat, m: Method, toReplace: Option<Method>, done: bool, v0: nat, v: nat, v': nat)
    requires Ranked(cls, rank) && Separate(hs, ts) && c in hs && Cached(hs, ts0, v0, ts, v)
    requires InstallResult(cls, rank, hs, ts, ts', c, m, toReplace, true, done, v, v')
    ensures Cached(hs, ts0, v0, ts', v')
  {
    if done {
      InstallCached(cls, rank, hs, ts, ts', m, Entry(ts[hs[c]].entries, m.selector), c, v, v');
      CachedTrans(hs, ts0, v0, ts, v, ts', v');
    }
  }

  /** A change to a table that belongs to no class is not noticed. */
  lemma NotOurs(cls: Store, rank: map<nat, nat>, uninstalled: nat, depth: nat, selectorCount: nat, hs: map<nat, nat>, ts0: map<nat, Table>,
                ts: map<nat, Table>, ts': map<nat, Table>, bt: nat, c: nat, batch: Entries, inh: Entries, idx: nat, v0: nat, v: nat)
    requires Ranked(cls, rank) && Separate(hs, ts0) && Layout(cls, uninstalled, depth, selectorCount, hs, ts) && c in hs
    requires bt in ts && bt !in hs.Values && bt != uninstalled && ts'.Keys == ts.Keys && ts'[bt].shift == ts[bt].shift
    requires forall t :: t in ts && t != bt ==> ts'[t] == ts[t]
    requires BatchUpTo(cls, rank, hs, ts0, ts, c, batch, inh, idx) && Cached(hs, ts0, v0, ts, v)
    ensures Layout(cls, uninstalled, depth, selectorCount, hs, ts')
    ensures BatchUpTo(cls, rank, hs, ts0, ts', c, batch, inh, idx) && Cached(hs, ts0, v0, ts', v)
  {
    forall d | d in hs ensures HandleOk(cls, uninstalled, depth, selectorCount, hs, ts', d) && ts'[hs[d]] == ts[hs[d]] {
      assert HandleOk(cls, uninstalled, depth, selectorCount, hs, ts, d) && hs[d] in hs.Values;
    }
    forall d, sel: nat | d in hs ensures Entry(ts'[hs[d]].entries, sel) == Entry(ts[hs[d]].entries, sel) { }
    if v0 == v {
      forall d, sel: nat | Slot(hs, ts0, d, sel).Some? ensures Slot(hs, ts', d, sel) == Slot(hs, ts0, d, sel) {
        assert Slot(hs, ts, d, sel) == Slot(hs, ts0, d, sel);
      }
    }
  }

  /** A table with these entries has been made for `c`; nothing else has changed but what
      `Disturbed` allows. */
  ghost predicate Created(cls: Store, rank: map<nat, nat>, hs: map<nat, nat>, ts: map<nat, Table>, ts': map<nat, Table>, c: nat, t: nat,
                          entries: Entries, inh: Entries, v: nat, v': nat)
    requires Ranked(cls, rank)
  {
    && t in ts' && ts'[t].entries == entries
    && (forall x {:trigger x in ts'} :: x in ts && x !in hs.Values ==> x in ts' && ts'[x] == ts[x])
    && Disturbed(cls, rank, hs, ts, ts', c, inh)
    && Cached(hs, ts, v, ts', v')
  }

  lemma CreatedFrom(cls: Store, rank: map<nat, nat>, uninstalled: nat, depth: nat, selectorCount: nat, hs: map<nat, nat>,
                    ts0: map<nat, Table>, ts1: map<nat, Table>, ts: map<nat, Table>, c: nat, t: nat, inh: Entries, ms: seq<Method>, v: nat, v': nat)
    requires Ranked(cls, rank) && c !in hs && t !in ts0 && ts1.Keys == ts0.Keys + {t} && (forall x :: x in ts0 ==> ts1[x] == ts0[x])
    requires Layout(cls, uninstalled, depth, selectorCount, hs, ts0) && Layout(cls, uninstalled, depth, selectorCount, hs[c := t], ts)
    requires Overlaid(cls, rank, hs[c := t], ts1, ts, c, inh, ms, v, v')
    ensures Created(cls, rank, hs, ts0, ts, c, t, Overlay(inh, ms), inh, v, v')
    ensures Layout(cls, uninstalled, depth, selectorCount, hs, ts)
  {
    assert hs[c := t] - {c} == hs;
    FewerHandles(cls, uninstalled, depth, selectorCount, hs, ts, c, t);
    hide Layout, Overlay;
    CreatedDisturbs(cls, rank, hs, ts0, ts1, ts, c, inh);
    if v == v' {
      forall d, sel: nat | Slot(hs, ts0, d, sel).Some? ensures Slot(hs, ts, d, sel) == Slot(hs, ts0, d, sel) {
        assert Slot(hs, ts1, d, sel) == Slot(hs, ts0, d, sel);
      }
    }
  }

  lemma FewerHandles(cls: Store, uninstalled: nat, depth: nat, selectorCount: nat, hs: map<nat, nat>, ts: map<nat, Table>, c: nat, t: nat)
    requires c !in hs && Layout(cls, uninstalled, depth, selectorCount, hs[c := t], ts)
    ensures Layout(cls, uninstalled, depth, selectorCount, hs, ts)
  {
    var hs' := hs[c := t];
    forall d | d in hs ensures HandleOk(cls, uninstalled, depth, selectorCount, hs, ts, d) {
      assert HandleOk(cls, uninstalled, depth, selectorCount, hs', ts, d);
    }
    forall d, e ensures OwnTable(hs, d, e) { assert OwnTable(hs', d, e); }
  }

  lemma CreatedDisturbs(cls: Store, rank: map<nat, nat>, hs: map<nat, nat>, ts0: map<nat, Table>, ts1: map<nat, Table>, ts: map<nat, Table>, c: nat, inh: Entries)
    requires Ranked(cls, rank) && ts0.Keys <= ts1.Keys && (forall x :: x in ts0 ==> ts1[x] == ts0[x]) && Disturbed(cls, rank, hs, ts1, ts, c, inh)
    ensures Disturbed(cls, rank, hs, ts0, ts, c, inh)
  {
    forall d | d in hs && d in cls && hs[d] in ts0
      ensures hs[d] in ts && ts[hs[d]].shift == ts0[hs[d]].shift && OnlyInherited(hs, ts0, ts, inh, d)
      ensures !Desc(cls, rank, d, c) ==> ts[hs[d]] == ts0[hs[d]]
    {
      assert OnlyInherited(hs, ts1, ts, inh, d);
      forall sel: nat ensures Slot(hs, ts, d, sel) == Slot(hs, ts0, d, sel) || Slot(hs, ts0, d, sel) == Entry(inh, sel) {
        assert Slot(hs, ts, d, sel) == Slot(hs, ts1, d, sel) || Slot(hs, ts1, d, sel) == Entry(inh, sel);
      }
    }
  }

  lemma PrefixNone(ms: seq<Method>, list: seq<Method>)
    ensures ms == ms + list[..0]
  {
  }

  lemma PrefixSnoc(ms: seq<Method>, list: seq<Method>, i: nat)
    requires i < |list|
    ensures ms + list[..i] + [list[i]] == ms + list[..i + 1]
  {
  }

  lemma PrefixAll(ms: seq<Method>, list: seq<Method>)
    ensures ms + list[..|list|] == ms + list
  {
    assert list[..|list|] == list;
  }

  lemma OverlaidStart(cls: Store, rank: map<nat, nat>, hs: map<nat, nat>, ts: map<nat, Table>, c: nat, inh: Entries, v: nat)
    requires Ranked(cls, rank) && Separate(hs, ts) && c in hs && ts[hs[c]].entries == inh
    ensures Overlaid(cls, rank, hs, ts, ts, c, inh, [], v, v)
  {
  }

  ghost predicate Registered(methods: MethodLists, selectorCount: nat) {
    forall c, m {:trigger m in Flat(methods[c])} :: c in methods && m in Flat(methods[c]) ==> Selector(m.selector, selectorCount)
  }

  /** Tables of their own for resolved classes, all of the current depth, and the
      shared empty table of the others. */
  ghost predicate Layout(cls: Store, uninstalled: nat, depth: nat, selectorCount: nat, hs: map<nat, nat>, ts: map<nat, Table>) {
    && depth >= 8
    && uninstalled in ts && ts[uninstalled].shift == depth - 8 && ts[uninstalled].entries == map[]
    && hs.Keys <= cls.Keys && Separate(hs, ts)
    && forall c {:trigger HandleOk(cls, uninstalled, depth, selectorCount, hs, ts, c)} :: c in hs ==>
         HandleOk(cls, uninstalled, depth, selectorCount, hs, ts, c)
  }

  ghost predicate HandleOk(cls: Store, uninstalled: nat, depth: nat, selectorCount: nat, hs: map<nat, nat>, ts: map<nat, Table>, c: nat)
    requires c in hs
  {
    && c in cls && cls[c].resolved
    && hs[c] != uninstalled && hs[c] in ts
    && ts[hs[c]].shift + 8 == depth
    && forall sel :: sel in ts[hs[c]].entries ==> Selector(sel, selectorCount)
  }

  /** The class and everything below it. */
  ghost function Below(cls: Store, rank: map<nat, nat>, c: nat): set<nat>
    requires Ranked(cls, rank)
  {
    set d | d in cls && Desc(cls, rank, d, c)
  }

  lemma SpreadStart(cls: Store, rank: map<nat, nat>, hs: map<nat, nat>, ts: map<nat, Table>, ts': map<nat, Table>, m: Method, was: Option<Method>, c: nat, xs: seq<nat>)
    requires Ranked(cls, rank) && Separate(hs, ts) && c in hs && c in cls
    requires ts' == ts[hs[c] := Put(ts[hs[c]], m.selector, Some(m))]
    ensures Spread(cls, rank, hs, ts, ts', m, was, c, xs, 0)
  {
    forall d | d in hs ensures ts'[hs[d]] == SpreadTo(cls, rank, hs, ts, m, was, c, xs, 0, d) {
      assert OwnTable(hs, c, d);
    }
  }

  lemma SpreadLayout(cls: Store, rank: map<nat, nat>, uninstalled: nat, depth: nat, selectorCount: nat, hs: map<nat, nat>,
                     ts: map<nat, Table>, ts': map<nat, Table>, m: Method, was: Option<Method>, c: nat, xs: seq<nat>, i: nat)
    requires Ranked(cls, rank) && Layout(cls, uninstalled, depth, selectorCount, hs, ts) && i <= |xs|
    requires Spread(cls, rank, hs, ts, ts', m, was, c, xs, i) && Selector(m.selector, selectorCount)
    ensures Layout(cls, uninstalled, depth, selectorCount, hs, ts')
  {
    forall d | d in hs ensures HandleOk(cls, uninstalled, depth, selectorCount, hs, ts', d) {
      assert HandleOk(cls, uninstalled, depth, selectorCount, hs, ts, d);
    }
  }

  lemma KidsAre(cls: Store, uninstalled: nat, depth: nat, selectorCount: nat, hs: map<nat, nat>, ts: map<nat, Table>,
                kids: map<nat, seq<nat>>, c: nat)
    requires Layout(cls, uninstalled, depth, selectorCount, hs, ts) && Forest(cls, kids, {}) && c in hs && c in cls
    ensures Subclasses(cls, hs, c, kids[c]) && cls[c].subclassList == HeadOf(kids[c])
  {
    assert Threaded(cls, c, kids[c]) && HandleOk(cls, uninstalled, depth, selectorCount, hs, ts, c);
    forall d | d in hs ensures d in cls && cls[d].resolved { assert HandleOk(cls, uninstalled, depth, selectorCount, hs, ts, d); }
    forall j | 0 <= j < |kids[c]| ensures kids[c][j] in cls && cls[kids[c][j]].super == Some(c) {
      assert kids[c][j] in kids[c];
    }
  }

  lemma KidStep(cls: Store, rank: map<nat, nat>, kids: map<nat, seq<nat>>, c: nat, i: nat, top: nat)
    requires Forest(cls, kids, {}) && Ranked(cls, rank) && c in cls && i < |kids[c]| && Desc(cls, rank, c, top)
    ensures var sub := kids[c][i];
            && sub in cls && cls[sub].super == Some(c) && sub != top && Desc(cls, rank, sub, top)
            && cls[sub].siblingClass == After(kids[c], i)
            && Below(cls, rank, sub) < Below(cls, rank, c)
  {
    var sub := kids[c][i];
    assert Threaded(cls, c, kids[c]) && SiblingOk(cls, kids[c], i) && sub in kids[c];
    assert SuperOk(cls, rank, sub);
    DescUp(cls, rank, c, top);
    forall d | d in Below(cls, rank, sub) ensures d in Below(cls, rank, c) {
      assert Desc(cls, rank, sub, c) by { assert Desc(cls, rank, c, c); }
      DescTrans(cls, rank, d, sub, c);
    }
    assert c in Below(cls, rank, c);
    if c in Below(cls, rank, sub) { DescUp(cls, rank, c, sub); }
  }

  lemma SpreadNext(cls: Store, rank: map<nat, nat>, hs: map<nat, nat>, ts0: map<nat, Table>, ts: map<nat, Table>, ts': map<nat, Table>, m: Method, was: Option<Method>, c: nat, xs: seq<nat>, i: nat)
    requires Ranked(cls, rank) && Separate(hs, ts0) && c in cls && Subclasses(cls, hs, c, xs) && i < |xs|
    requires Spread(cls, rank, hs, ts0, ts, m, was, c, xs, i) && Separate(hs, ts)
    requires xs[i] in hs && Entry(ts[hs[xs[i]]].entries, m.selector) == was ==> SpreadAll(cls, rank, hs, ts, ts', m, was, xs[i])
    requires !(xs[i] in hs && Entry(ts[hs[xs[i]]].entries, m.selector) == was) ==> ts' == ts
    ensures Spread(cls, rank, hs, ts0, ts', m, was, c, xs, i + 1)
  {
    forall d | d in hs ensures ts'[hs[d]] == SpreadTo(cls, rank, hs, ts0, m, was, c, xs, i + 1, d) {
      SpreadStep(cls, rank, hs, ts0, ts, ts', m, was, c, xs, i, d);
    }
  }
}
