/** The operations of the runtime, and what every one of them keeps. */
module Operations {
  import opened Basics
  import opened Trie
  import opened Hierarchy
  import opened SparseArrays
  import opened ClassTables
  import opened MethodLookup
  import opened Installing
  import opened Spreading
  import opened Caching
  import opened Settling
  import opened Dispatch
  import opened Foreseeing
  import Starting
  import Rebuilding
  import Resizing

  /** Every class with a table finds by dispatch exactly what the walk over the method
      lists finds, and the bookkeeping around the tables is in order. */
  ghost predicate Consistent(r: Runtime)
    reads r, r.classes, r.arena
  {
    && r.Valid() && r.initialized == r.handles.Keys
    && Starting.Paired(r.classes.cls, r.handles) && Starting.LookAside(r.dtable, r.uninstalled, r.temporary)
    && Starting.Together(r.classes.cls, r.dtable, r.uninstalled)
    && r.Agreeing()
  }

  lemma ConsistentIs(r: Runtime)
    ensures Consistent(r) <==>
              r.Fixed() && Starting.Standing(r, {})
              && AgreeOutside(r.classes.cls, r.classes.rank, r.methods, TabsOf(r.handles, r.arena.tables), {})
  {
    if r.Valid() {
      HeldAll(r.classes.cls, r.classes.rank, r.methods, r.Tabs());
    }
  }

  /** A runtime whose classes have received no message yet. */
  method NewRuntime(classes: ClassTable, arena: Arena, methods: MethodLists, depth: nat, selectorCount: nat) returns (r: Runtime)
    requires classes.Valid() && arena.Valid() && (depth == 8 || depth == 16 || depth == 24 || depth == 32)
    requires selectorCount <= Capacity(depth - 8) && methods.Keys == classes.cls.Keys
    requires OneOwner(methods) && Registered(methods, selectorCount)
    modifies arena
    ensures fresh(r) && Consistent(r) && r.classes == classes && r.arena == arena && r.handles == map[]
    ensures r.methods == methods && r.depth == depth && r.selectorCount == selectorCount && r.temporary == [] && r.initialized == {}
    ensures forall d :: d in r.dtable ==> r.dtable[d] == r.uninstalled
  {
    r := new Runtime(classes, arena, methods, depth, selectorCount);
    forall d | d in classes.cls ensures Starting.TogetherAt(classes.cls, r.dtable, r.uninstalled, d) { assert PairOk(classes.cls, classes.owner, d); }
    assert r.Tabs() == map[];
  }

  /** `class_addMethod`: the class gets the method unless it has one for the selector.  All
      tables agree again exactly when the class has no table, or the method does not repeat the
      implementation that the class inherits and its selector is one that is enumerated. */
  method AddMethod(r: Runtime, c: nat, m: Method) returns (ok: bool)
    requires Consistent(r) && Listable(r.depth, [m]) && c in r.classes.cls && Fresh(r.methods, [m]) && Selector(m.selector, r.selectorCount)
    modifies r.arena, r`version, r`methods
    ensures ok <==> Own(old(r.methods[c]), m.selector) == None
    ensures !ok ==> Consistent(r) && r.methods == old(r.methods)
    ensures ok ==> r.methods == Prepended(old(r.methods), c, [m])
    ensures ok ==> (Consistent(r) <==> c !in r.handles || (!SameImp(r.classes.cls, old(r.Tabs()), c, m) && Reached(r.depth, m.selector)))
    ensures if ok && c in r.handles
            then ListInstalled(r.classes.cls, r.classes.rank, old(r.methods), old(r.Tabs()), c, [m], r.depth, TabsOf(r.handles, r.arena.tables))
            else r.arena.tables == old(r.arena.tables) && r.version == old(r.version)
    ensures Cached(r.handles, old(r.arena.tables), old(r.version), r.arena.tables, r.version)
  {
    ok := r.AddMethod(c, m);
  }

  /** `register_methods` for the methods of a category. */
  method AddCategory(r: Runtime, c: nat, list: seq<Method>)
    requires Consistent(r) && Listable(r.depth, list) && c in r.classes.cls && Fresh(r.methods, list)
    requires forall m :: m in list ==> Selector(m.selector, r.selectorCount)
    modifies r.arena, r`version, r`methods
    ensures r.methods == Prepended(old(r.methods), c, list)
    ensures Consistent(r) <==>
              c !in r.handles || (Addable(old(r.methods[c]), list, InhOf(r.classes.cls, old(r.Tabs()), c)) && AllReached(r.depth, list))
    ensures if c in r.handles
            then ListInstalled(r.classes.cls, r.classes.rank, old(r.methods), old(r.Tabs()), c, list, r.depth, TabsOf(r.handles, r.arena.tables))
            else r.arena.tables == old(r.arena.tables) && r.version == old(r.version)
    ensures Cached(r.handles, old(r.arena.tables), old(r.version), r.arena.tables, r.version)
  {
    r.RegisterMethods(c, list);
  }

  lemma ResolvingKept(cls: Store, rank: map<nat, nat>, cls': Store, rank': map<nat, nat>, methods: MethodLists, dtable: map<nat, nat>, uninstalled: nat,
                      depth: nat, selectorCount: nat, hs: map<nat, nat>, ts: map<nat, Table>)
    requires Resolving(cls, rank, cls', rank') && Known(cls', rank', methods) && InAgreement(cls, rank, methods, TabsOf(hs, ts))
    requires Layout(cls, uninstalled, depth, selectorCount, hs, ts) && Starting.Paired(cls, hs) && Starting.Together(cls, dtable, uninstalled)
    ensures Layout(cls', uninstalled, depth, selectorCount, hs, ts) && Starting.Paired(cls', hs) && Starting.Together(cls', dtable, uninstalled)
    ensures InAgreement(cls', rank', methods, TabsOf(hs, ts))
  {
    forall d | d in hs ensures HandleOk(cls', uninstalled, depth, selectorCount, hs, ts, d) && cls[d].resolved {
      assert HandleOk(cls, uninstalled, depth, selectorCount, hs, ts, d);
    }
    forall d | d in cls' ensures Starting.PairedAt(cls', hs, d) { assert Starting.PairedAt(cls, hs, d); }
    forall d | d in cls' ensures Starting.TogetherAt(cls', dtable, uninstalled, d) { assert Starting.TogetherAt(cls, dtable, uninstalled, d); }
    Rebuilding.HeldMoved(cls, rank, cls', rank', methods, TabsOf(hs, ts), {});
    HeldAll(cls', rank', methods, TabsOf(hs, ts));
  }

  /** `objc_resolve_class` leaves every table as right as it was. */
  method ResolveClass(r: Runtime, c: nat) returns (ok: bool)
    requires Consistent(r) && c in r.classes.cls && (!r.classes.cls[c].meta || r.classes.cls[c].resolved)
    requires Hierarchy.Listed(r.classes.cls, r.classes.rank, r.classes.pending, c)
    modifies r.classes
    ensures ok && Consistent(r) && c in r.classes.cls && r.classes.cls[c].resolved
    ensures Resolving(old(r.classes.cls), old(r.classes.rank), r.classes.cls, r.classes.rank)
    ensures Drained(old(r.classes.cls), old(r.classes.rank), old(r.classes.pending), r.classes.cls, r.classes.pending, c)
    ensures old(r.classes.Squared()) ==> r.classes.Squared()
    ensures old(r.classes.cls[c].resolved) ==> r.classes.cls == old(r.classes.cls) && r.classes.rank == old(r.classes.rank)
  {
    ghost var cls, rank := r.classes.cls, r.classes.rank;
    ok := r.classes.Resolve(c);
    ResolvingKept(cls, rank, r.classes.cls, r.classes.rank, r.methods, r.dtable, r.uninstalled, r.depth, r.selectorCount, r.handles, r.arena.tables);
  }

  /** `objc_resolve_class_links` leaves every table as right as it was. */
  method ResolveLinks(r: Runtime)
    requires Consistent(r) && r.classes.AllListed()
    modifies r.classes
    ensures Consistent(r) && r.classes.unresolvedList == None && (old(r.classes.Squared()) ==> r.classes.Squared())
    ensures Resolving(old(r.classes.cls), old(r.classes.rank), r.classes.cls, r.classes.rank)
    ensures forall c :: c in old(r.classes.pending) ==> c in r.classes.cls && r.classes.cls[c].resolved
  {
    ghost var cls, rank := r.classes.cls, r.classes.rank;
    r.classes.ResolveLinks();
    ResolvingKept(cls, rank, r.classes.cls, r.classes.rank, r.methods, r.dtable, r.uninstalled, r.depth, r.selectorCount, r.handles, r.arena.tables);
  }

  /** `objc_send_initialize`: the class, its metaclass and those above them get tables.  All
      tables agree afterwards exactly when, on the way up from the class, no class or metaclass
      that had no table repeats an implementation it overrides. */
  method SendInitialize(r: Runtime, c: nat, initializeSel: nat) returns (sent: seq<nat>)
    requires Consistent(r) && initializeSel < r.selectorCount && c in r.classes.cls && !r.classes.cls[c].meta
    requires Hierarchy.Listed(r.classes.cls, r.classes.rank, r.classes.pending, c)
    modifies r.classes, r.arena, r`version, r`dtable, r`temporary, r`handles, r`initialized
    ensures r.Fixed() && c in r.handles && r.classes.cls[c].isa in r.handles && r.temporary == old(r.temporary) && r.initialized == r.handles.Keys
    ensures c in r.classes.cls && Starting.Raised(r.classes.cls, r.classes.rank, old(r.handles), r.handles, c)
    ensures Consistent(r) <==> old(WayDistinctive(r.classes.cls, r.classes.rank, r.methods, r.handles, c))
    ensures Resolving(old(r.classes.cls), old(r.classes.rank), r.classes.cls, r.classes.rank) && r.classes.cls[c].resolved
    ensures Drained(old(r.classes.cls), old(r.classes.rank), old(r.classes.pending), r.classes.cls, r.classes.pending, c)
    ensures TabsOf(r.handles, r.arena.tables) == Made(r.classes.cls, r.classes.rank, r.methods, TabsOf(old(r.handles), old(r.arena.tables)), c)
    ensures sent == old(SentTo(r.classes.cls, r.classes.rank, r.methods, r.handles, c, initializeSel))
    ensures Starting.NewInstalled(old(r.dtable), old(r.handles), r.dtable, r.handles)
    ensures Cached(old(r.handles), old(r.arena.tables), old(r.version), r.arena.tables, r.version)
  {
    hide SparseArrays.Arena.Valid, ClassTables.ClassTable.Valid, Layout, Tracking, AgreeOutside, Cached, Starting.LookAside, Starting.Together, Made, Sends, SentTo, TabsOf, Starting.NewInstalled, Drained, Held;
    var ok := ResolveClass(r, c);
    ConsistentIs(r);
    ForeseenSent(r, old(r.classes.cls), old(r.classes.rank), c, initializeSel);
    ghost var ts1, v1 := r.arena.tables, r.version;
    sent := Starting.SendInitialize(r, c, initializeSel, {});
    assert Starting.PairedAt(r.classes.cls, r.handles, c);
    Starting.Tabled(r.classes.cls, r.uninstalled, r.depth, r.selectorCount, r.handles, r.arena.tables);
    Starting.ProgressRaised(r.classes.cls, r.classes.rank, r.methods, old(r.handles), ts1, v1, r.handles, r.arena.tables, r.version, {}, c);
    ConsistentIs(r);
    AlikeAll(Made(r.classes.cls, r.classes.rank, r.methods, TabsOf(old(r.handles), ts1), c), TabsOf(r.handles, r.arena.tables));
    ForeseenResolved(r, old(r.classes.cls), old(r.classes.rank), old(r.handles), c);
  }

  /** Who will be sent `+initialize`, told before the class is resolved. */
  lemma ForeseenSent(r: Runtime, cls: Store, rank: map<nat, nat>, c: nat, sel: nat)
    requires Consistent(r) && Known(cls, rank, r.methods) && Resolving(cls, rank, r.classes.cls, r.classes.rank)
    requires c in cls && !cls[c].meta && r.classes.cls[c].resolved
    ensures Sends(r.classes.cls, r.classes.rank, r.methods, TabsOf(r.handles, r.arena.tables), c, sel) == SentTo(cls, rank, r.methods, r.handles, c, sel)
  {
    var cls', rank', tabs := r.classes.cls, r.classes.rank, TabsOf(r.handles, r.arena.tables);
    forall e | e in cls && Desc(cls, rank, c, e) ensures cls'[e].super == cls[e].super && cls'[e].isa == cls[e].isa { DescUp(cls, rank, c, e); }
    SentSame(cls, rank, cls', rank', r.methods, r.handles, c, sel);
    TabledPairs(r);
    SendsIs(cls', rank', r.classes.owner, r.methods, r.handles, tabs, {}, c, sel);
  }

  lemma TabledPairs(r: Runtime)
    requires Consistent(r)
    ensures PairsIn(r.classes.cls, TabsOf(r.handles, r.arena.tables)) && (forall d :: d in r.handles <==> d in TabsOf(r.handles, r.arena.tables))
    ensures AgreeOutside(r.classes.cls, r.classes.rank, r.methods, TabsOf(r.handles, r.arena.tables), {}) && Closed(r.classes.cls, {})
    ensures OneOwner(r.methods) && Pairs(r.classes.cls, r.classes.owner) && MetaSupers(r.classes.cls) && Known(r.classes.cls, r.classes.rank, r.methods)
    ensures forall d :: d in TabsOf(r.handles, r.arena.tables) ==> d in r.classes.cls && r.classes.cls[d].resolved
  {
    ConsistentIs(r);
    forall d | d in r.handles ensures d in r.classes.cls && r.classes.cls[d].resolved {
      assert HandleOk(r.classes.cls, r.uninstalled, r.depth, r.selectorCount, r.handles, r.arena.tables, d);
    }
    Starting.Tabled(r.classes.cls, r.uninstalled, r.depth, r.selectorCount, r.handles, r.arena.tables);
    forall d | d in r.classes.cls && !r.classes.cls[d].meta ensures d in r.handles <==> r.classes.cls[d].isa in r.handles {
      assert Starting.PairedAt(r.classes.cls, r.handles, d);
    }
  }

  lemma ForeseenResolved(r: Runtime, cls: Store, rank: map<nat, nat>, hs: map<nat, nat>, c: nat)
    requires r.Fixed() && Known(cls, rank, r.methods) && Resolving(cls, rank, r.classes.cls, r.classes.rank)
    requires c in cls && !cls[c].meta && r.classes.cls[c].resolved && Starting.Paired(r.classes.cls, hs)
    requires Starting.Raised(r.classes.cls, r.classes.rank, hs, r.handles, c)
    ensures Starting.AllDistinctive(r.classes.cls, r.classes.rank, r.methods, hs, r.handles) <==> WayDistinctive(cls, rank, r.methods, hs, c)
  {
    var cls', rank' := r.classes.cls, r.classes.rank;
    forall e | e in cls && Desc(cls, rank, c, e) ensures cls'[e].super == cls[e].super && cls'[e].isa == cls[e].isa { DescUp(cls, rank, c, e); }
    WaySame(cls, rank, cls', rank', r.methods, hs, c);
    WayIs(cls', rank', r.classes.owner, r.methods, hs, r.handles, c);
  }

  /** `objc_send_initialize` up to the call of `+initialize`, once the superclass is done: the
      class stands first on the look-aside list while the call lasts. */
  method BeginInitialize(r: Runtime, c: nat, initializeSel: nat) returns (sent: bool)
    requires Consistent(r) && initializeSel < r.selectorCount && c in r.classes.cls && !r.classes.cls[c].meta && r.classes.cls[c].resolved
    requires c !in r.handles && (r.classes.cls[c].super.Some? ==> r.classes.cls[c].super.value in r.handles)
    modifies r.arena, r`version, r`dtable, r`temporary, r`handles, r`initialized
    ensures r.Fixed() && r.handles.Keys == old(r.handles).Keys + {c, r.classes.cls[c].isa} && r.initialized == r.handles.Keys
    ensures Consistent(r) <==> old(PairDistinctive(r.classes.cls, r.classes.rank, r.methods, c))
    ensures Cached(old(r.handles), old(r.arena.tables), old(r.version), r.arena.tables, r.version)
    ensures sent <==> old(r.classes.cls[c].isa in r.classes.cls && MethodLookup.Walk(r.classes.cls, r.classes.rank, r.methods, r.classes.cls[c].isa, initializeSel) != None)
    ensures TabsOf(r.handles, r.arena.tables) == PairMade(r.classes.cls, r.methods, TabsOf(old(r.handles), old(r.arena.tables)), c)
    ensures sent ==> |r.temporary| >= 2 && Running(r, c, 0) && r.temporary[2..] == old(r.temporary) && r.dtable == old(r.dtable)
    ensures !sent ==> r.temporary == old(r.temporary) && Starting.NewInstalled(old(r.dtable), old(r.handles), r.dtable, r.handles)
    ensures !sent ==> Installed(r, c) && Installed(r, r.classes.cls[c].isa)
  {
    hide SparseArrays.Arena.Valid, Layout, Tracking, AgreeOutside, Cached, Agree, Held, SupersFirst, Starting.LookAside, Starting.Together, PairMade, TabsOf, Answers;
    ForeseenPair(r, c, initializeSel);
    ConsistentIs(r);
    Starting.CanStart(r.classes.cls, r.classes.rank, r.classes.owner, r.handles, c);
    sent := Starting.Begin(r, c, initializeSel, {});
    AlikeAll(PairMade(r.classes.cls, r.methods, TabsOf(old(r.handles), old(r.arena.tables)), c), TabsOf(r.handles, r.arena.tables));
    Starting.NewPair(r.classes.cls, old(r.dtable), old(r.handles), r.handles, c);
    ConsistentIs(r);
    PairIs(r.classes.cls, r.classes.rank, r.classes.owner, r.methods, c);
    assert PairOk(r.classes.cls, r.classes.owner, c);
  }

  /** Whether a class will be sent `+initialize`. */
  lemma ForeseenPair(r: Runtime, c: nat, sel: nat)
    requires Consistent(r) && c in r.classes.cls && !r.classes.cls[c].meta && r.classes.cls[c].resolved
    requires c !in r.handles && (r.classes.cls[c].super.Some? ==> r.classes.cls[c].super.value in r.handles)
    ensures r.classes.cls[c].isa in r.classes.cls
    ensures Answers(PairMade(r.classes.cls, r.methods, TabsOf(r.handles, r.arena.tables), c), r.classes.cls[c].isa, sel) <==>
            MethodLookup.Walk(r.classes.cls, r.classes.rank, r.methods, r.classes.cls[c].isa, sel) != None
  {
    var cls, rank, tabs := r.classes.cls, r.classes.rank, TabsOf(r.handles, r.arena.tables);
    TabledPairs(r);
    assert PairOk(cls, r.classes.owner, c) && SuperOk(cls, rank, c);
    if cls[c].super.Some? {
      var s := cls[c].super.value;
      assert PairOk(cls, r.classes.owner, s) && AgreeAt(cls, rank, r.methods, tabs, s) && AgreeAt(cls, rank, r.methods, tabs, cls[s].isa);
      AgreedGood(cls, rank, r.methods, tabs, s);
      AgreedGood(cls, rank, r.methods, tabs, cls[s].isa);
    }
    PairGood(cls, rank, r.classes.owner, r.methods, tabs, c);
    assert Covers(cls, rank, r.methods, PairMade(cls, r.methods, tabs, c), cls[c].isa, sel);
  }

  /** The `+initialize` of `c` is running: its metaclass and it are next to each other on the
      look-aside list, at `k`. */
  ghost predicate Running(r: Runtime, c: nat, k: nat)
    reads r, r.classes
  {
    c in r.classes.cls && k + 1 < |r.temporary| && r.temporary[k].0 == r.classes.cls[c].isa && r.temporary[k + 1].0 == c
  }

  /** The table of `x` is in its class structure. */
  ghost predicate Installed(r: Runtime, x: nat)
    reads r
  {
    x in r.dtable && x in r.handles && r.dtable[x] == r.handles[x]
  }

  /** The end of `objc_send_initialize`, whatever other operations came in between. */
  method FinishInitialize(r: Runtime, c: nat, ghost k: nat)
    requires Consistent(r) && c in r.classes.cls && !r.classes.cls[c].meta && Running(r, c, k)
    modifies r`dtable, r`temporary
    ensures Consistent(r) && r.temporary == old(r.temporary)[..k] + old(r.temporary)[k + 2..]
    ensures Installed(r, c) && Installed(r, r.classes.cls[c].isa)
    ensures r.dtable == old(r.dtable)[r.classes.cls[c].isa := r.handles[r.classes.cls[c].isa]][c := r.handles[c]]
  {
    ConsistentIs(r);
    assert Starting.Aside(r.dtable, r.uninstalled, r.temporary, k) && Starting.Aside(r.dtable, r.uninstalled, r.temporary, k + 1);
    Starting.Finish(r, c, k, {});
    assert TracksAt(r.dtable, r.uninstalled, r.temporary, r.handles, c) && TracksAt(r.dtable, r.uninstalled, r.temporary, r.handles, r.classes.cls[c].isa);
    ConsistentIs(r);
  }

  /** `class_getSuperclass`, which resolves the class. */
  method GetSuperclass(r: Runtime, c: nat) returns (super: Option<nat>)
    requires Consistent(r) && c in r.classes.cls && (!r.classes.cls[c].meta || r.classes.cls[c].resolved)
    requires Hierarchy.Listed(r.classes.cls, r.classes.rank, r.classes.pending, c)
    modifies r.classes
    ensures Consistent(r) && Resolving(old(r.classes.cls), old(r.classes.rank), r.classes.cls, r.classes.rank)
    ensures Drained(old(r.classes.cls), old(r.classes.rank), old(r.classes.pending), r.classes.cls, r.classes.pending, c)
    ensures old(r.classes.Squared()) ==> r.classes.Squared()
    ensures c in r.classes.cls && r.classes.cls[c].resolved && super == r.classes.cls[c].super == old(r.classes.cls[c].super)
    ensures old(r.classes.cls[c].resolved) ==> r.classes.cls == old(r.classes.cls) && r.classes.rank == old(r.classes.rank)
  {
    var ok := ResolveClass(r, c);
    super := r.classes.cls[c].super;
  }

  /** `class_getInstanceMethod`: the dispatch table when one is installed, the lists and then the
      superclass otherwise.  The answer is that of the walk, though classes are resolved on the way. */
  method GetInstanceMethod(r: Runtime, c: Option<nat>, sel: nat) returns (m: Option<Method>)
    requires Consistent(r) && sel < r.selectorCount
    requires c.Some? ==> c.value in r.classes.cls && (!r.classes.cls[c.value].meta || r.classes.cls[c.value].resolved)
                         && Hierarchy.Listed(r.classes.cls, r.classes.rank, r.classes.pending, c.value)
    modifies r.classes
    ensures Consistent(r)
    ensures m == if c.Some? then old(MethodLookup.Walk(r.classes.cls, r.classes.rank, r.methods, c.value, sel)) else None
    ensures c.None? || old(r.classes.cls[c.value].resolved) ==> r.classes.cls == old(r.classes.cls) && r.classes.rank == old(r.classes.rank)
    ensures c.None? ==> r.classes.pending == old(r.classes.pending)
    ensures c.Some? ==> Resolving(old(r.classes.cls), old(r.classes.rank), r.classes.cls, r.classes.rank)
    ensures c.Some? ==> Drained(old(r.classes.cls), old(r.classes.rank), old(r.classes.pending), r.classes.cls, r.classes.pending, c.value)
    ensures old(r.classes.Squared()) ==> r.classes.Squared()
    decreases if c.Some? && c.value in r.classes.rank then r.classes.rank[c.value] + 1 else 0
  {
    if c == None {
      return None;
    }
    assert SuperOk(r.classes.cls, r.classes.rank, c.value);
    DrainedNone(r.classes.cls, r.classes.rank, r.classes.owner, r.classes.unresolvedList, r.classes.pending, r.classes.kids, r.classes.detached, c.value);
    hide SparseArrays.Arena.Valid, Layout, Tracking, Agree, Starting.LookAside, Starting.Together, Starting.Paired, SupersFirst, Drained;
    if r.dtable[c.value] != r.uninstalled {
      m := r.Dispatched(c.value, sel);
      return;
    }
    m := r.OwnMethod(c.value, sel);
    if m != None {
      return;
    }
    ghost var cls, rank := r.classes.cls, r.classes.rank;
    var super := GetSuperclass(r, c.value);
    if super != None {
      assert SuperOk(r.classes.cls, r.classes.rank, c.value);
      WalkResolved(cls, rank, r.classes.cls, r.classes.rank, r.methods, super.value, sel);
    }
    ghost var cls1, rank1, pending1 := r.classes.cls, r.classes.rank, r.classes.pending;
    m := GetInstanceMethod(r, super, sel);
    DrainedAbove(old(r.classes.cls), old(r.classes.rank), old(r.classes.pending), cls1, rank1, pending1, r.classes.pending, c.value, super);
  }

  /** Once the class is resolved, so is all above it, and asking there drains nothing. */
  lemma DrainedAbove(cls: Store, rank: map<nat, nat>, pending: seq<nat>, cls': Store, rank': map<nat, nat>, pending1: seq<nat>, pending': seq<nat>,
                     c: nat, super: Option<nat>)
    requires Ranked(cls, rank) && Ranked(cls', rank') && c in cls && Drained(cls, rank, pending, cls', pending1, c)
    requires if super.None? then pending' == pending1 else super.value in cls' && Drained(cls', rank', pending1, cls', pending', super.value)
    ensures Drained(cls, rank, pending, cls', pending', c)
  {
  }

  /** Resolving classes changes no answer of the walk. */
  lemma WalkResolved(cls: Store, rank: map<nat, nat>, cls': Store, rank': map<nat, nat>, methods: MethodLists, c: nat, sel: nat)
    requires Known(cls, rank, methods) && Known(cls', rank', methods) && Resolving(cls, rank, cls', rank') && c in cls && (!cls[c].meta || cls[c].resolved)
    ensures MethodLookup.Walk(cls', rank', methods, c, sel) == MethodLookup.Walk(cls, rank, methods, c, sel)
  {
    forall e | e in cls && Desc(cls, rank, c, e) ensures cls'[e].super == cls[e].super { DescUp(cls, rank, c, e); }
    MethodLookup.WalkSame(cls, rank, methods, cls', rank', methods, c, sel);
  }

  /** `class_setSuperclass`: the tables agree over the new hierarchy, exactly when nothing moves,
      the class has no table, or no class or metaclass that gets one on the way up from the new
      superclass repeats an implementation it overrides. */
  method SetSuperclass(r: Runtime, c: nat, s: nat, initializeSel: nat) returns (oldSuper: nat, sent: seq<nat>)
    requires Consistent(r) && r.Enumerates() && initializeSel < r.selectorCount && Rebuilding.Movable(r, c, s)
    modifies r.classes, r.arena, r`version, r`dtable, r`temporary, r`handles, r`initialized
    ensures oldSuper == old(r.classes.cls[c].super.value) && Relocated(old(r.classes.cls), r.classes.cls, c, s) && r.Fixed()
    ensures Drained(old(r.classes.cls), old(r.classes.rank), old(r.classes.pending), r.classes.cls, r.classes.pending, s)
    ensures Consistent(r) <==> oldSuper == s || c !in old(r.handles) || old(WayDistinctive(r.classes.cls, r.classes.rank, r.methods, r.handles, s))
    ensures if oldSuper != s && c in old(r.handles) then s in r.classes.cls && Starting.Raised(r.classes.cls, r.classes.rank, old(r.handles), r.handles, s)
            else r.handles == old(r.handles)
    ensures r.temporary == old(r.temporary) && r.initialized == r.handles.Keys
    ensures Starting.NewInstalled(old(r.dtable), old(r.handles), r.dtable, r.handles)
    ensures if oldSuper != s && c in old(r.handles)
            then Rebuilding.MovedTables(r.classes.cls, r.classes.rank, r.methods, TabsOf(old(r.handles), old(r.arena.tables)), TabsOf(r.handles, r.arena.tables), c, s)
                 && sent == old(SentTo(r.classes.cls, r.classes.rank, r.methods, r.handles, s, initializeSel))
            else r.arena.tables == old(r.arena.tables) && sent == []
    ensures Cached(old(r.handles), old(r.arena.tables), old(r.version), r.arena.tables, r.version)
  {
    hide SparseArrays.Arena.Valid, Layout, Tracking, AgreeOutside, Cached, Starting.LookAside, Starting.Together, Rebuilding.MovedTables, Sends, SentTo, TabsOf, Held, Starting.NewInstalled, Consistent, ClassTables.ClassTable.Valid, InAgreement, Drained;
    ConsistentParts(r);
    ConsistentIs(r);
    TabledPairs(r);
    ghost var cls, rank, hs := r.classes.cls, r.classes.rank, r.handles;
    oldSuper, sent := Rebuilding.SetSuperclass(r, c, s, initializeSel);
    ConsistentIs(r);
    if oldSuper != s && c in hs {
      ForeseenMoved(r, cls, rank, hs, c, s);
      ClassesRanked(r.classes);
      SentMoved(cls, rank, r.classes.cls, r.classes.rank, r.classes.owner, r.methods, hs, TabsOf(hs, old(r.arena.tables)), c, s, initializeSel);
    }
  }

  /** Who is sent `+initialize` because a class moves below `s`. */
  lemma SentMoved(cls: Store, rank: map<nat, nat>, cls': Store, rank': map<nat, nat>, owner: map<nat, nat>, methods: MethodLists, hs: map<nat, nat>,
                  tabs: map<nat, Entries>, c: nat, s: nat, sel: nat)
    requires Known(cls, rank, methods) && Known(cls', rank', methods) && OneOwner(methods) && Pairs(cls', owner) && MetaSupers(cls')
    requires Relocated(cls, cls', c, s) && !cls[c].meta && cls[c].resolved && !cls[s].meta && !Desc(cls, rank, s, c)
    requires InAgreement(cls, rank, methods, tabs) && PairsIn(cls, tabs) && (forall d :: d in hs <==> d in tabs) && forall d :: d in tabs ==> d in cls && cls[d].resolved
    ensures Sends(cls', rank', methods, tabs, s, sel) == SentTo(cls, rank, methods, hs, s, sel)
  {
    var region := Rebuilding.Region(cls', rank', c, cls[c].isa);
    Rebuilding.RelocatedKept(cls, cls', rank', owner, c, s);
    Rebuilding.HeldMoved(cls, rank, cls', rank', methods, tabs, region);
    forall e | e in cls && Desc(cls, rank, s, e) ensures cls'[e].super == cls[e].super && cls'[e].isa == cls[e].isa { DescUp(cls, rank, s, e); }
    SentSame(cls, rank, cls', rank', methods, hs, s, sel);
    SendsIs(cls', rank', owner, methods, hs, tabs, region, s, sel);
  }

  lemma ForeseenMoved(r: Runtime, cls: Store, rank: map<nat, nat>, hs: map<nat, nat>, c: nat, s: nat)
    requires r.Fixed() && Known(cls, rank, r.methods) && Relocated(cls, r.classes.cls, c, s) && s in cls && !cls[s].meta && !Desc(cls, rank, s, c)
    requires Starting.Paired(cls, hs) && Starting.Raised(r.classes.cls, r.classes.rank, hs, r.handles, s)
    ensures Starting.AllDistinctive(r.classes.cls, r.classes.rank, r.methods, hs, r.handles) <==> WayDistinctive(cls, rank, r.methods, hs, s)
  {
    var cls', rank' := r.classes.cls, r.classes.rank;
    forall e | e in cls && Desc(cls, rank, s, e) ensures cls'[e].super == cls[e].super && cls'[e].isa == cls[e].isa {
      DescUp(cls, rank, s, e);
      DescTrans(cls, rank, s, e, e);
    }
    WaySame(cls, rank, cls', rank', r.methods, hs, s);
    forall d | d in cls' ensures Starting.PairedAt(cls', hs, d) { assert Starting.PairedAt(cls, hs, d); }
    WayIs(cls', rank', r.classes.owner, r.methods, hs, r.handles, s);
  }

  /** The method lists, with those of a new pair. */
  function WithPair(methods: MethodLists, c: nat, own: seq<seq<Method>>, m: nat, metaOwn: seq<seq<Method>>): MethodLists {
    methods[c := own][m := metaOwn]
  }

  lemma {:induction false} TemporaryNone(list: seq<(nat, nat)>, c: nat, u: nat)
    requires forall i :: 0 <= i < |list| ==> list[i].0 != c
    ensures Temporary(list, c, u) == u
    decreases |list|
  {
    if list != [] { TemporaryNone(list[1..], c, u); }
  }

  /** A new pair without tables changes nothing for the tables there are. */
  lemma AdmittedTables(cls: Store, cls': Store, c: nat, m: nat, dtable: map<nat, nat>, u: nat, temporary: seq<(nat, nat)>,
                       depth: nat, selectorCount: nat, hs: map<nat, nat>, ts: map<nat, Table>)
    requires c !in cls && m !in cls && c != m && cls'.Keys == cls.Keys + {c, m} && (forall d :: d in cls ==> cls'[d] == cls[d])
    requires !cls'[c].meta && cls'[c].isa == m && cls'[m].meta && dtable.Keys == cls.Keys
    requires Layout(cls, u, depth, selectorCount, hs, ts) && Tracking(dtable, u, temporary, hs) && Starting.LookAside(dtable, u, temporary)
    requires Starting.Paired(cls, hs) && Starting.Together(cls, dtable, u)
    ensures var dtable' := dtable[c := u][m := u];
            && Layout(cls', u, depth, selectorCount, hs, ts) && Tracking(dtable', u, temporary, hs) && Starting.LookAside(dtable', u, temporary)
            && Starting.Paired(cls', hs) && Starting.Together(cls', dtable', u)
  {
    var dtable' := dtable[c := u][m := u];
    forall d | d in hs ensures HandleOk(cls', u, depth, selectorCount, hs, ts, d) { assert HandleOk(cls, u, depth, selectorCount, hs, ts, d); }
    forall i ensures Starting.Aside(dtable', u, temporary, i) { assert Starting.Aside(dtable, u, temporary, i); }
    forall d: nat ensures TracksAt(dtable', u, temporary, hs, d) {
      assert TracksAt(dtable, u, temporary, hs, d);
      if d !in cls {
        forall i | 0 <= i < |temporary| ensures temporary[i].0 != d { assert Starting.Aside(dtable, u, temporary, i); }
        TemporaryNone(temporary, d, u);
      }
    }
    forall d | d in cls' ensures Starting.PairedAt(cls', hs, d) { if d in cls { assert Starting.PairedAt(cls, hs, d); } }
    forall d | d in cls' ensures Starting.TogetherAt(cls', dtable', u, d) { if d in cls { assert Starting.TogetherAt(cls, dtable, u, d); } }
  }

  /** Nor does it change an answer. */
  lemma AdmittedAgrees(cls: Store, rank: map<nat, nat>, cls': Store, rank': map<nat, nat>, methods: MethodLists, methods': MethodLists, tabs: map<nat, Entries>)
    requires InAgreement(cls, rank, methods, tabs) && Known(cls', rank', methods') && OneOwner(methods')
    requires forall d :: d in cls ==> d in cls' && cls'[d] == cls[d] && methods'[d] == methods[d]
    ensures InAgreement(cls', rank', methods', tabs)
  {
    forall d | d in tabs && d in cls' ensures AgreeAt(cls', rank', methods', tabs, d) {
      assert AgreeAt(cls, rank, methods, tabs, d);
      forall sel: nat ensures Entry(tabs[d], sel) == MethodLookup.Walk(cls', rank', methods', d, sel) {
        MethodLookup.WalkSame(cls, rank, methods, cls', rank', methods', d, sel);
      }
    }
  }

  /** What `Consistent` says of the tables. */
  ghost predicate Tabled(r: Runtime)
    reads r, r.classes, r.arena
  {
    && r.arena.Valid() && r.dtable.Keys == r.classes.cls.Keys && r.initialized == r.handles.Keys
    && Layout(r.classes.cls, r.uninstalled, r.depth, r.selectorCount, r.handles, r.arena.tables)
    && Tracking(r.dtable, r.uninstalled, r.temporary, r.handles) && Starting.LookAside(r.dtable, r.uninstalled, r.temporary)
    && Starting.Paired(r.classes.cls, r.handles) && Starting.Together(r.classes.cls, r.dtable, r.uninstalled)
  }

  lemma ConsistentParts(r: Runtime)
    ensures Consistent(r) <==> r.Fixed() && Tabled(r) && InAgreement(r.classes.cls, r.classes.rank, r.methods, TabsOf(r.handles, r.arena.tables))
  {
    hide SparseArrays.Arena.Valid, ClassTables.ClassTable.Valid, Layout, Tracking, InAgreement, OneOwner, Registered, Starting.LookAside, Starting.Together, Starting.Paired;
  }

  lemma PendingKnown(classes: ClassTable, c: nat)
    requires classes.Valid() && c in classes.pending
    ensures c in classes.cls
  {
    PendingUnresolved(classes.cls, classes.unresolvedList, classes.pending);
  }

  lemma ClassesRanked(classes: ClassTable)
    requires classes.Valid()
    ensures Ranked(classes.cls, classes.rank) && Pairs(classes.cls, classes.owner) && MetaSupers(classes.cls)
  {
  }

  lemma AdmittedConsistent(r: Runtime, cls: Store, rank: map<nat, nat>, methods: MethodLists, dtable: map<nat, nat>, c: nat, m: nat)
    requires r.classes.Valid() && c !in cls && m !in cls && c != m && r.classes.cls.Keys == cls.Keys + {c, m}
    requires (forall d :: d in cls ==> r.classes.cls[d] == cls[d]) && !r.classes.cls[c].meta && r.classes.cls[c].isa == m && r.classes.cls[m].meta
    requires methods.Keys == cls.Keys && c in r.methods && m in r.methods && r.methods == WithPair(methods, c, r.methods[c], m, r.methods[m])
    requires (r.depth == 8 || r.depth == 16 || r.depth == 24 || r.depth == 32) && r.selectorCount <= Capacity(r.depth - 8) && OneOwner(r.methods) && Registered(r.methods, r.selectorCount)
    requires dtable.Keys == cls.Keys && r.dtable == dtable[c := r.uninstalled][m := r.uninstalled] && r.arena.Valid() && r.initialized == r.handles.Keys
    requires Layout(cls, r.uninstalled, r.depth, r.selectorCount, r.handles, r.arena.tables) && Tracking(dtable, r.uninstalled, r.temporary, r.handles)
    requires Starting.LookAside(dtable, r.uninstalled, r.temporary) && Starting.Paired(cls, r.handles) && Starting.Together(cls, dtable, r.uninstalled)
    requires InAgreement(cls, rank, methods, TabsOf(r.handles, r.arena.tables))
    ensures Consistent(r)
  {
    hide SparseArrays.Arena.Valid, ClassTables.ClassTable.Valid, Layout, Tracking, InAgreement, OneOwner, Registered, Starting.LookAside, Starting.Together, Starting.Paired, TabsOf, Capacity;
    ClassesRanked(r.classes);
    AdmittedTables(cls, r.classes.cls, c, m, dtable, r.uninstalled, r.temporary, r.depth, r.selectorCount, r.handles, r.arena.tables);
    AdmittedAgrees(cls, rank, r.classes.cls, r.classes.rank, methods, r.methods, TabsOf(r.handles, r.arena.tables));
    ConsistentParts(r);
  }

  /** A class and its metaclass come in, with their method lists and without tables. */
  method Admit(r: Runtime, superclass: Option<nat>, c: nat, m: nat, metaIsa: nat, metaSuper: Option<nat>, own: seq<seq<Method>>, metaOwn: seq<seq<Method>>)
    requires Consistent(r) && c !in r.classes.cls && m !in r.classes.cls && c != m && Admissible(r.classes.cls, superclass, c, m, metaIsa, metaSuper)
    requires OneOwner(WithPair(r.methods, c, own, m, metaOwn)) && Registered(WithPair(r.methods, c, own, m, metaOwn), r.selectorCount)
    modifies r.classes, r`methods, r`dtable
    ensures Consistent(r) && r.classes.pending == old(r.classes.pending) && (old(r.classes.Squared()) ==> r.classes.Squared())
    ensures r.classes.cls == Admitted(old(r.classes.cls), superclass, c, m, metaIsa, metaSuper) && r.methods == old(r.methods)[c := own][m := metaOwn]
    ensures r.dtable == old(r.dtable)[c := r.uninstalled][m := r.uninstalled] && c !in r.classes.pending
  {
    hide Consistent, SparseArrays.Arena.Valid, ClassTables.ClassTable.Valid, Layout, Tracking, InAgreement, OneOwner, Registered, Starting.LookAside, Starting.Together, Starting.Paired, TabsOf, Capacity;
    ConsistentParts(r);
    ghost var cls, rank, methods, dtable := r.classes.cls, r.classes.rank, r.methods, r.dtable;
    if c in r.classes.pending { PendingKnown(r.classes, c); }
    r.classes.Admit(superclass, c, m, metaIsa, metaSuper);
    r.methods := WithPair(r.methods, c, own, m, metaOwn);
    r.dtable := r.dtable[c := r.uninstalled][m := r.uninstalled];
    AdmittedConsistent(r, cls, rank, methods, dtable, c, m);
  }

  /** Of the structures that were there, only link fields have changed. */
  ghost predicate LinksBut(cls: Store, cls': Store) {
    forall d {:trigger cls'[d]} :: d in cls ==>
      d in cls' && cls'[d] == cls[d].(subclassList := cls'[d].subclassList, siblingClass := cls'[d].siblingClass)
  }

  lemma LoadedLinks(cls: Store, cls1: Store, cls': Store, superclass: Option<nat>, c: nat, m: nat, metaIsa: nat, metaSuper: Option<nat>)
    requires c !in cls && m !in cls && c != m && cls1 == Admitted(cls, superclass, c, m, metaIsa, metaSuper) && Loaded(cls1, cls', c)
    ensures LinksBut(cls, cls') && cls'.Keys == cls.Keys + {c, m}
    ensures forall d :: d in cls && cls[d].resolved ==> cls'[d] == cls[d]
    ensures var x := cls'[c]; !x.meta && !x.resolved && x.super == superclass && x.isa == m
    ensures var x := cls'[m]; x.meta && !x.resolved && x.isa == metaIsa && x.super == if superclass == None then Some(c) else metaSuper
  {
  }

  /** `objc_load_class` on a class from a program image, with what the compiler has put into it. */
  method LoadClass(r: Runtime, superclass: Option<nat>, c: nat, m: nat, metaIsa: nat, metaSuper: Option<nat>, own: seq<seq<Method>>, metaOwn: seq<seq<Method>>)
    requires Consistent(r) && c !in r.classes.cls && m !in r.classes.cls && c != m && Admissible(r.classes.cls, superclass, c, m, metaIsa, metaSuper)
    requires OneOwner(WithPair(r.methods, c, own, m, metaOwn)) && Registered(WithPair(r.methods, c, own, m, metaOwn), r.selectorCount)
    modifies r.classes, r`methods, r`dtable
    ensures Consistent(r) && (old(r.classes.Squared()) ==> r.classes.Squared()) && r.classes.pending == [c] + old(r.classes.pending)
    ensures r.classes.cls.Keys == old(r.classes.cls).Keys + {c, m} && r.methods == old(r.methods)[c := own][m := metaOwn]
    ensures forall d :: d in old(r.classes.cls) && old(r.classes.cls)[d].resolved ==> r.classes.cls[d] == old(r.classes.cls)[d]
    ensures LinksBut(old(r.classes.cls), r.classes.cls) && r.dtable == old(r.dtable)[c := r.uninstalled][m := r.uninstalled]
    ensures var x := r.classes.cls[c]; !x.meta && !x.resolved && x.super == superclass && x.isa == m
    ensures var x := r.classes.cls[m]; x.meta && !x.resolved && x.isa == metaIsa && x.super == if superclass == None then Some(c) else metaSuper
  {
    hide Consistent, SparseArrays.Arena.Valid, ClassTables.ClassTable.Valid, Layout, Tracking, InAgreement, OneOwner, Registered, Starting.LookAside, Starting.Together, Starting.Paired, TabsOf, Loaded, Resolving, LinksBut, Capacity;
    Admit(r, superclass, c, m, metaIsa, metaSuper, own, metaOwn);
    ConsistentParts(r);
    ghost var cls, rank := r.classes.cls, r.classes.rank;
    r.classes.Load(c);
    LoadedLinks(old(r.classes.cls), cls, r.classes.cls, superclass, c, m, metaIsa, metaSuper);
    ClassesRanked(r.classes);
    ResolvingKept(cls, rank, r.classes.cls, r.classes.rank, r.methods, r.dtable, r.uninstalled, r.depth, r.selectorCount, r.handles, r.arena.tables);
    ConsistentParts(r);
  }

  lemma NoMethods(methods: MethodLists, c: nat, m: nat, selectorCount: nat)
    requires OneOwner(methods) && Registered(methods, selectorCount)
    ensures OneOwner(WithPair(methods, c, [], m, [])) && Registered(WithPair(methods, c, [], m, []), selectorCount)
  {
    var methods' := WithPair(methods, c, [], m, []);
    forall d | d in methods' ensures NoRepeats(Flat(methods'[d])) && (d != c && d != m ==> d in methods && methods'[d] == methods[d]) { }
  }

  /** `objc_allocateClassPair`. */
  method AllocatePair(r: Runtime, superclass: Option<nat>, c: nat, m: nat)
    requires Consistent(r) && c !in r.classes.cls && m !in r.classes.cls && c != m
    requires superclass.Some? ==> superclass.value in r.classes.cls && !r.classes.cls[superclass.value].meta
    modifies r.classes, r`methods, r`dtable
    ensures Consistent(r) && (old(r.classes.Squared()) ==> r.classes.Squared()) && r.classes.pending == old(r.classes.pending)
    ensures r.classes.cls.Keys == old(r.classes.cls).Keys + {c, m} && forall d :: d in old(r.classes.cls) ==> r.classes.cls[d] == old(r.classes.cls)[d]
    ensures !r.classes.cls[c].meta && r.classes.cls[c].isa == m && !r.classes.cls[c].resolved && r.classes.cls[c].super == superclass && r.classes.cls[m].meta
    ensures r.classes.cls[m].super == Some(if superclass.Some? then r.classes.cls[superclass.value].isa else c)
    ensures r.classes.cls[m].isa == if superclass.Some? then r.classes.cls[superclass.value].isa else m
    ensures r.dtable == old(r.dtable)[c := r.uninstalled][m := r.uninstalled] && r.methods == old(r.methods)[c := []][m := []]
  {
    hide SparseArrays.Arena.Valid, ClassTables.ClassTable.Valid, Layout, Tracking, InAgreement, OneOwner, Registered, Starting.LookAside, Starting.Together, Starting.Paired, TabsOf, Capacity;
    NoMethods(r.methods, c, m, r.selectorCount);
    ClassesRanked(r.classes);
    if superclass == None {
      Admit(r, None, c, m, m, Some(c), [], []);
    } else {
      assert PairOk(r.classes.cls, r.classes.owner, superclass.value);
      var meta := r.classes.cls[superclass.value].isa;
      Admit(r, superclass, c, m, meta, Some(meta), [], []);
    }
  }

  /** `objc_registerClassPair`. */
  method RegisterPair(r: Runtime, c: nat)
    requires Consistent(r) && c in r.classes.cls && !r.classes.cls[c].meta && !r.classes.cls[c].resolved && c !in r.classes.pending && r.classes.ListedAbove(c)
    modifies r.classes
    ensures Consistent(r) && (old(r.classes.Squared()) ==> r.classes.Squared()) && c in r.classes.cls && r.classes.cls[c].resolved
    ensures Resolving(old(r.classes.cls), old(r.classes.rank), r.classes.cls, r.classes.rank)
    ensures Drained(old(r.classes.cls), old(r.classes.rank), [c] + old(r.classes.pending), r.classes.cls, r.classes.pending, c)
  {
    ghost var cls, rank := r.classes.cls, r.classes.rank;
    r.classes.RegisterPair(c);
    ResolvingKept(cls, rank, r.classes.cls, r.classes.rank, r.methods, r.dtable, r.uninstalled, r.depth, r.selectorCount, r.handles, r.arena.tables);
  }

  /** `objc_resize_dtables` with the classes of the class table: room for more selectors.  The
      invariant is kept exactly when nothing grows or all classes are in the class table. */
  method ResizeTables(r: Runtime, newSize: nat, list: seq<nat>)
    requires Consistent(r) && Resizing.Listing(r.classes.cls, list) && (Capacity(r.depth - 8) > newSize || r.depth <= 24)
    modifies r.arena, r`depth, r`uninstalled, r`temporary, r`dtable, r`handles
    ensures r.depth == if old(Capacity(r.depth - 8)) > newSize then old(r.depth) else old(r.depth) + 8
    ensures Consistent(r) <==> old(Capacity(r.depth - 8)) > newSize || Resizing.AllEntered(r.classes.cls, r.classes.owner, list)
    ensures Consistent(r) ==> TabsOf(r.handles, r.arena.tables) == TabsOf(old(r.handles), old(r.arena.tables))
    ensures old(Capacity(r.depth - 8)) <= newSize ==>
              forall d :: d in r.classes.cls ==>
                if Resizing.Entered(r.classes.cls, r.classes.owner, list, d)
                then Resizing.Deepened(old(r.dtable), old(r.uninstalled), old(r.handles), old(r.arena.tables), r.dtable, r.uninstalled, r.handles, r.arena.tables, d)
                else Resizing.Forgotten(old(r.dtable), old(r.uninstalled), old(r.arena.tables), r.dtable, r.uninstalled, r.arena.tables, r.arena.heap, d)
    ensures Resizing.SameClasses(old(r.temporary), r.temporary)
  {
    hide SparseArrays.Arena.Valid, Layout, Tracking, AgreeOutside, Starting.LookAside, Starting.Together, Starting.Paired, Resizing.Deepened, Resizing.Forgotten;
    ConsistentIs(r);
    Resizing.Resize(r, newSize, list, {});
    ConsistentIs(r);
  }

  lemma MoreSelectors(cls: Store, methods: MethodLists, u: nat, depth: nat, hs: map<nat, nat>, ts: map<nat, Table>, count: nat, count': nat)
    requires count <= count' && Layout(cls, u, depth, count, hs, ts) && Registered(methods, count)
    ensures Layout(cls, u, depth, count', hs, ts) && Registered(methods, count')
  {
    forall d | d in hs ensures HandleOk(cls, u, depth, count', hs, ts, d) { assert HandleOk(cls, u, depth, count, hs, ts, d); }
  }

  /** What is in the structure of a class with an installed table is a table of the current depth. */
  lemma InstalledShift(r: Runtime, d: nat)
    requires Consistent(r) && d in r.dtable && r.dtable[d] != r.uninstalled
    ensures r.dtable[d] in r.arena.tables && r.arena.tables[r.dtable[d]].shift + 8 == r.depth
  {
    assert TracksAt(r.dtable, r.uninstalled, r.temporary, r.handles, d);
    assert HandleOk(r.classes.cls, r.uninstalled, r.depth, r.selectorCount, r.handles, r.arena.tables, d);
  }

  /** `register_selector_locked`, for the indices: one for the selector, and one for the untyped
      selector if it comes with types and that is new.  There is always room for the next. */
  method RegisterSelector(r: Runtime, two: bool, list: seq<nat>) returns (idx: nat)
    requires Consistent(r) && r.selectorCount < Capacity(r.depth - 8) && Resizing.Listing(r.classes.cls, list)
    requires r.depth <= 24 || r.selectorCount + 2 < Capacity(r.depth - 8)
    modifies r.arena, r`depth, r`uninstalled, r`temporary, r`dtable, r`handles, r`selectorCount
    ensures idx == old(r.selectorCount) && r.selectorCount == idx + if two then 2 else 1
    ensures (r.depth == old(r.depth) || r.depth == old(r.depth) + 8) && r.selectorCount < Capacity(r.depth - 8)
    ensures Consistent(r) <==> r.depth == old(r.depth) || Resizing.AllEntered(r.classes.cls, r.classes.owner, list)
  {
    hide Consistent, SparseArrays.Arena.Valid, ClassTables.ClassTable.Valid, Layout, Tracking, InAgreement, OneOwner, Registered, Starting.LookAside, Starting.Together, Starting.Paired, TabsOf;
    ConsistentParts(r);
    forall d | d in r.dtable && r.dtable[d] != r.uninstalled ensures r.dtable[d] in r.arena.tables && r.arena.tables[r.dtable[d]].shift + 8 == r.depth { InstalledShift(r, d); }
    idx := r.selectorCount;
    var count := idx + if two then 2 else 1;
    ResizeTables(r, count, list);
    ConsistentParts(r);
    if Consistent(r) {
      MoreSelectors(r.classes.cls, r.methods, r.uninstalled, r.depth, r.handles, r.arena.tables, idx, count);
    }
    r.selectorCount := count;
    ConsistentParts(r);
    if r.depth != old(r.depth) && !Resizing.AllEntered(r.classes.cls, r.classes.owner, list) {
      ghost var d :| d in r.classes.cls && !Resizing.Entered(r.classes.cls, r.classes.owner, list, d);
      if Tracking(r.dtable, r.uninstalled, r.temporary, r.handles) {
        Resizing.ForgottenBreaks(r.classes.cls, old(r.dtable), old(r.uninstalled), old(r.arena.tables), r.dtable, r.uninstalled, r.temporary,
                                 r.handles, r.arena.tables, r.arena.heap, r.depth, r.selectorCount, d);
      }
    }
  }

  /** A pair that is allocated and not yet registered when the tables grow: its table is then the
      first child of the one that all classes without a table share, and passes for its own. */
  method PairForgotten(r: Runtime, superclass: Option<nat>, c: nat, m: nat, newSize: nat, list: seq<nat>)
    requires Consistent(r) && Resizing.Listing(r.classes.cls, list) && Capacity(r.depth - 8) <= newSize && r.depth <= 24
    requires c !in r.classes.cls && m !in r.classes.cls && c != m
    requires superclass.Some? ==> superclass.value in r.classes.cls && !r.classes.cls[superclass.value].meta
    modifies r.classes, r.arena, r`methods, r`depth, r`uninstalled, r`temporary, r`dtable, r`handles
    ensures !Consistent(r) && c in r.dtable && r.dtable[c] != r.uninstalled && Resizing.FirstChild(r.arena.heap, r.uninstalled, r.dtable[c])
  {
    hide SparseArrays.Arena.Valid, ClassTables.ClassTable.Valid, Layout, Tracking, InAgreement, OneOwner, Registered, Starting.LookAside, Starting.Together, Starting.Paired;
    AllocatePair(r, superclass, c, m);
    ResizeTables(r, newSize, list);
    assert !Resizing.Entered(r.classes.cls, r.classes.owner, list, c);
  }
}
