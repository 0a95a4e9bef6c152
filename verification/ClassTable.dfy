/** `class_table.c`: loading and resolving classes. */
module ClassTables {
  import opened Basics
  import opened Hierarchy
  import opened Moving

  class ClassTable {
    var cls: Store
    /** `unresolved_class_list`. */
    var unresolvedList: Option<nat>
    ghost var rank: map<nat, nat>
    ghost var owner: map<nat, nat>
    ghost var pending: seq<nat>
    ghost var kids: map<nat, seq<nat>>
    ghost var detached: set<nat>

    ghost predicate Sound()
      reads this
    {
      Core(cls, rank, owner, unresolvedList, pending, kids, detached)
    }

    ghost predicate Valid()
      reads this
    {
      Sound() && detached == {} && MetaSupers(cls)
    }

    ghost predicate Squared()
      requires Sound()
      reads this
    {
      MetaRoots(cls, rank)
    }

    /** A program image: class structures that nothing has linked yet. */
    constructor (image: Store, ghost ranks: map<nat, nat>, ghost owners: map<nat, nat>)
      requires Pairs(image, owners) && Ranked(image, ranks)
      requires forall c :: c in image ==> !image[c].resolved && IdleOk(image, [], c)
      ensures Valid() && Squared() && cls == image && pending == []
    {
      cls, unresolvedList := image, None;
      rank, owner, pending, kids, detached := ranks, owners, [], map c | c in image :: [], {};
    }

    /** `class_table_insert`, the part that queues the class for resolution. */
    method Insert(c: nat)
      requires Valid() && c in cls && !cls[c].meta && c !in pending
      modifies this
      ensures Valid() && (old(Squared()) ==> Squared())
      ensures pending == if old(cls[c].resolved) then old(pending) else [c] + old(pending)
      ensures LinksOnly(old(cls), cls) && rank == old(rank) && owner == old(owner) && kids == old(kids)
    {
      if !cls[c].resolved {
        QueueWaiting(cls, rank, owner, unresolvedList, pending, c);
        if unresolvedList != None {
          cls := cls[unresolvedList.value := cls[unresolvedList.value].(siblingClass := Some(c))];
        }
        cls := cls[c := cls[c].(subclassList := unresolvedList)];
        unresolvedList := Some(c);
        pending := [c] + pending;
        SameShapeKeeps(old(cls), cls, rank, owner);
        LinksOnlyForest(old(cls), cls, kids, detached);
      }
    }

    /** Every superclass of `c` that is still unresolved is waiting. */
    ghost predicate ListedAbove(c: nat)
      requires Sound() && c in cls
      reads this
    {
      cls[c].super.Some? ==> cls[c].super.value in cls && Listed(cls, rank, pending, cls[c].super.value)
    }

    /** `objc_load_class` on a class that is not in the table: it is queued, and the metaclass
        of a root gets its superclass at once. */
    method Load(c: nat)
      requires Valid() && c in cls && !cls[c].meta && !cls[c].resolved && c !in pending
      modifies this
      ensures Valid() && (old(Squared()) ==> Squared())
      ensures pending == [c] + old(pending) && owner == old(owner) && kids == old(kids)
      ensures Loaded(old(cls), cls, c) && Resolving(old(cls), old(rank), cls, rank)
      ensures old(AllListed() && ListedAbove(c)) ==> AllListed()
    {
      PendingUnresolved(cls, unresolvedList, pending);
      assert IdleOk(cls, pending, c) && PairOk(cls, owner, c);
      hide Core, MetaSupers, MetaRoots, Listed, LinksOnly, Loaded, Resolving;
      cls := cls[c := cls[c].(subclassList := None)];
      assert cls == old(cls);
      Enqueue(c);
      ghost var cls1 := cls;
      RootMeta(c);
      LoadedBy(old(cls), cls1, cls, c);
      ResolvingTrans(old(cls), old(rank), cls1, old(rank), cls, rank);
    }

    /** `class_table_insert` on an unresolved class, and who is listed afterwards. */
    method Enqueue(c: nat)
      requires Valid() && c in cls && !cls[c].meta && !cls[c].resolved && c !in pending
      modifies this
      ensures Valid() && (old(Squared()) ==> Squared()) && pending == [c] + old(pending)
      ensures LinksOnly(old(cls), cls) && rank == old(rank) && owner == old(owner) && kids == old(kids)
      ensures Resolving(old(cls), rank, cls, rank)
      ensures forall d :: d in cls && old(Listed(cls, rank, pending, d)) ==> Listed(cls, rank, pending, d)
      ensures old(ListedAbove(c)) ==> Listed(cls, rank, pending, c)
    {
      Insert(c);
      QueuedListed(old(cls), cls, rank, old(pending), c);
      ResolvingLinks(old(cls), cls, rank);
    }

    /** A root class becomes the superclass of its metaclass. */
    method RootMeta(c: nat)
      requires Valid() && c in cls && !cls[c].meta && !cls[c].resolved
      modifies this`cls, this`rank
      ensures Valid() && (old(Squared()) ==> Squared()) && cls.Keys == old(cls).Keys && old(cls[c].isa) in cls
      ensures cls == if old(cls[c].super.None?) then old(cls)[old(cls[c].isa) := old(cls[cls[c].isa]).(super := Some(c))] else old(cls)
      ensures Resolving(old(cls), old(rank), cls, rank)
      ensures forall d :: d in cls && !cls[d].meta && old(Listed(cls, rank, pending, d)) ==> Listed(cls, rank, pending, d)
    {
      assert PairOk(cls, owner, c);
      ResolvingLinks(cls, cls, rank);
      if cls[c].super == None {
        RootMetaResolving(cls, rank, owner, c);
        LoadedCore(cls, rank, owner, unresolvedList, pending, kids, c);
        LoadedListed(cls, rank, owner, pending, c);
        hide Core, MetaSupers, MetaRoots;
        rank := Reranked(cls, rank, cls[c].isa, c);
        cls := cls[cls[c].isa := cls[cls[c].isa].(super := Some(c))];
      }
    }

    /** A class and a metaclass at addresses that were not in use: linked above but on no list.  What
        the metaclass has in its own links until it is resolved does not matter. */
    method Admit(superclass: Option<nat>, c: nat, m: nat, metaIsa: nat, metaSuper: Option<nat>)
      requires Valid() && c !in cls && m !in cls && c != m && Admissible(cls, superclass, c, m, metaIsa, metaSuper)
      modifies this
      ensures Valid() && (old(Squared()) ==> Squared()) && pending == old(pending)
      ensures cls == Admitted(old(cls), superclass, c, m, metaIsa, metaSuper)
    {
      AdmittedCore(cls, rank, owner, unresolvedList, pending, kids, superclass, c, m, metaIsa, metaSuper);
      hide Core, MetaSupers, MetaRoots, Pairs, Ranked;
      rank := AdmittedRank(rank, superclass, c, m, metaSuper);
      cls := Admitted(cls, superclass, c, m, metaIsa, metaSuper);
      owner, kids := owner[m := c], kids[c := []][m := []];
    }

    /** `objc_registerClassPair`, for its links. */
    method RegisterPair(c: nat)
      requires Valid() && c in cls && !cls[c].meta && !cls[c].resolved && c !in pending
      requires ListedAbove(c)
      modifies this
      ensures Valid() && (old(Squared()) ==> Squared()) && c in cls && cls[c].resolved
      ensures Resolving(old(cls), old(rank), cls, rank)
      ensures Drained(old(cls), old(rank), [c] + old(pending), cls, pending, c)
      ensures forall d :: d in pending ==> d in old(pending)
    {
      Enqueue(c);
      ghost var cls1, rank1 := cls, rank;
      var ok := Resolve(c);
      ResolvingTrans(old(cls), old(rank), cls1, rank1, cls, rank);
      DrainedSince(old(cls), old(rank), [c] + old(pending), cls1, cls, rank, pending, c);
    }

    /** The part of `objc_resolve_class` that takes `c` off the unresolved list. */
    method Unlink(c: nat, ghost k: nat)
      requires Sound() && k < |pending| && pending[k] == c
      modifies this
      ensures Sound() && pending == Removed(old(pending), k)
      ensures old(MetaSupers(cls)) ==> MetaSupers(cls)
      ensures old(Squared()) ==> Squared()
      ensures LinksOnly(old(cls), cls) && rank == old(rank) && owner == old(owner) && kids == old(kids) && detached == old(detached)
    {
      UnlinkWaiting(cls, unresolvedList, pending, k);
      var prev, next := cls[c].siblingClass, cls[c].subclassList;
      if prev == None {
        unresolvedList := next;
      } else {
        cls := cls[prev.value := cls[prev.value].(subclassList := next)];
      }
      if next != None {
        cls := cls[next.value := cls[next.value].(siblingClass := prev)];
      }
      cls := cls[c := cls[c].(siblingClass := None, subclassList := None)];
      pending := Removed(pending, k);
      SameShapeKeeps(old(cls), cls, rank, owner);
      LinksOnlyForest(old(cls), cls, kids, detached);
    }

    /** The superclass and the metaclass that the metaclass of `c` is to have. */
    method MetaLinks(c: nat) returns (superMeta: nat, metaMeta: nat)
      requires Sound() && c in cls && !cls[c].meta && !cls[c].resolved && c !in pending
      requires cls[c].super.Some? ==> cls[c].super.value in cls && cls[cls[c].super.value].resolved
      ensures Ready(cls, pending, c, superMeta, metaMeta) && metaMeta == cls[Root(cls, rank, c)].isa
    {
      assert PairOk(cls, owner, c);
      superMeta, metaMeta := c, cls[c].isa;
      if cls[c].super != None {
        var super := cls[c].super.value;
        superMeta := cls[super].isa;
        metaMeta := cls[super].isa;
        while cls[super].super != None
          invariant super in cls && Root(cls, rank, super) == Root(cls, rank, c)
          invariant metaMeta == cls[super].isa
          decreases if super in rank then rank[super] else 0
        {
          assert SuperOk(cls, rank, super);
          super := cls[super].super.value;
          metaMeta := cls[super].isa;
        }
      }
      assert PairOk(cls, owner, Root(cls, rank, c));
    }

    /** The rest of `objc_resolve_class`: the metaclass square, the subclass lists and the flags. */
    method Attach(c: nat)
      requires Sound() && c in cls && !cls[c].meta && !cls[c].resolved && c !in pending
      requires cls[c].super.Some? ==> cls[c].super.value in cls && cls[cls[c].super.value].resolved
      modifies this
      ensures c in cls && cls[c].resolved && Sound()
      ensures old(cls[c].super.Some?) ==> var p := old(cls[c].super.value); p in old(kids) && p in kids && kids[p] == [c] + old(kids)[p]
      ensures pending == old(pending) && detached == old(detached) && owner == old(owner)
      ensures Resolving(old(cls), old(rank), cls, rank)
      ensures forall d :: d in cls && cls[d].resolved && !old(cls)[d].resolved ==> d == c || d == old(cls)[c].isa
      ensures old(MetaSupers(cls)) ==> MetaSupers(cls)
      ensures old(Squared()) ==> Squared()
    {
      var superMeta, metaMeta := MetaLinks(c);
      AttachedCore(cls, rank, owner, unresolvedList, pending, kids, detached, c, superMeta, metaMeta);
      ghost var rank' := Reranked(cls, rank, cls[c].isa, superMeta);
      ResolvingAttached(cls, rank, owner, c, superMeta, metaMeta, rank');
      rank, kids := rank', AttachedKids(cls, kids, c, superMeta);
      SetLinks(c, superMeta, metaMeta);
    }

    /** The assignments, in source order. */
    method SetLinks(c: nat, superMeta: nat, metaMeta: nat)
      requires c in cls && superMeta in cls && cls[c].isa in cls && cls[c].isa != c && cls[c].isa != superMeta
      requires cls[c].super.Some? ==> cls[c].super.value in cls && cls[c].super.value !in {c, cls[c].isa, superMeta} && superMeta != c
      modifies this`cls
      ensures cls == Attached(old(cls), c, superMeta, metaMeta)
    {
      var meta := cls[c].isa;
      cls := cls[meta := cls[meta].(super := Some(superMeta), isa := metaMeta)];
      ghost var cls0 := cls;
      if cls[c].super != None {
        var super := cls[c].super.value;
        cls := cls[c := cls[c].(siblingClass := cls[super].subclassList)];
        cls := cls[super := cls[super].(subclassList := Some(c))];
      }
      cls := cls[meta := cls[meta].(siblingClass := cls[superMeta].subclassList)];
      cls := cls[superMeta := cls[superMeta].(subclassList := Some(meta))];
      ghost var linked := cls;
      cls := cls[c := cls[c].(resolved := true)];
      cls := cls[meta := cls[meta].(resolved := true)];
      FlagsLast(old(cls), c, superMeta, metaMeta, cls0, linked, cls);
    }

    /** `objc_resolve_class` once the superclass is known to be resolved. */
    method ResolveSelf(c: nat)
      requires Sound() && c in cls && c in pending
      requires cls[c].super.Some? ==> cls[c].super.value in cls && cls[cls[c].super.value].resolved
      modifies this
      ensures Sound() && c in cls && cls[c].resolved
      ensures detached == old(detached) && owner == old(owner) && Resolving(old(cls), old(rank), cls, rank)
      ensures Drained(old(cls), old(rank), old(pending), cls, pending, c)
      ensures old(MetaSupers(cls)) ==> MetaSupers(cls)
      ensures old(Squared()) ==> Squared()
    {
      ghost var k :| 0 <= k < |pending| && pending[k] == c;
      PendingUnresolved(cls, unresolvedList, pending);
      assert PairOk(cls, owner, c);
      RemovedMembers(pending, k);
      Unlink(c, k);
      ghost var cls1 := cls;
      Attach(c);
      assert SuperOk(cls, rank, c);
      DrainedOne(old(cls), cls1, cls, old(rank), old(pending), pending, c);
    }

    /** `objc_resolve_class`. */
    method Resolve(c: nat) returns (ok: bool)
      requires Sound() && c in cls && (!cls[c].meta || cls[c].resolved) && Listed(cls, rank, pending, c)
      modifies this
      ensures ok && Sound() && c in cls && cls[c].resolved
      ensures detached == old(detached) && owner == old(owner) && Resolving(old(cls), old(rank), cls, rank)
      ensures Drained(old(cls), old(rank), old(pending), cls, pending, c)
      ensures old(cls[c].resolved) ==> cls == old(cls) && rank == old(rank) && pending == old(pending)
      ensures old(MetaSupers(cls)) ==> MetaSupers(cls)
      ensures old(Squared()) ==> Squared()
      decreases if c in rank then rank[c] else 0
    {
      DrainedNone(cls, rank, owner, unresolvedList, pending, kids, detached, c);
      if cls[c].resolved {
        return true;
      }
      assert SuperOk(cls, rank, c);
      ghost var s := c;
      if cls[c].super != None {
        var super := cls[c].super.value;
        if !cls[super].resolved {
          s := super;
          var b := Resolve(super);
          if !b {
            return false;
          }
          if cls[c].resolved { DescUp(old(cls), old(rank), super, c); }
        }
      }
      ghost var cls1, rank1, pending1 := cls, rank, pending;
      ResolveSelf(c);
      DrainedTrans(old(cls), old(rank), old(pending), cls1, rank1, pending1, cls, rank, pending, s, c);
      ok := true;
    }

    /** Every superclass that is still unresolved is waiting too. */
    ghost predicate AllListed()
      requires Sound()
      reads this
    {
      forall c :: c in pending ==> c in cls && Listed(cls, rank, pending, c)
    }

    /** One step of the inner loop of `objc_resolve_class_links`. */
    method ResolveNext(c: nat)
      requires Valid() && AllListed() && c in pending
      modifies this
      ensures Valid() && AllListed() && c !in pending && (old(Squared()) ==> Squared())
      ensures Resolving(old(cls), old(rank), cls, rank) && c in cls && cls[c].resolved
      ensures Settled(old(pending), cls, pending)
    {
      PendingUnresolved(cls, unresolvedList, pending);
      var ok := Resolve(c);
      forall d | d in pending ensures d in cls && Listed(cls, rank, pending, d) {
        ListedKept(old(cls), old(rank), old(pending), cls, rank, pending, c, d);
      }
    }

    /** The inner loop of `objc_resolve_class_links`.  It saves its next class before
        resolving; when that class has meanwhile been resolved as someone's superclass,
        the walk is given up. */
    method ResolvePass() returns (resolvedClass: bool)
      requires Valid() && AllListed()
      modifies this
      ensures Valid() && AllListed() && (old(Squared()) ==> Squared())
      ensures Resolving(old(cls), old(rank), cls, rank) && Settled(old(pending), cls, pending)
      ensures if resolvedClass then Members(pending) < Members(old(pending)) else pending == []
    {
      var at := unresolvedList;
      resolvedClass := false;
      PendingUnresolved(cls, unresolvedList, pending);
      DrainedNone(cls, rank, owner, unresolvedList, pending, kids, detached, 0);
      while at != None
        invariant Valid() && AllListed() && (old(Squared()) ==> Squared())
        invariant Resolving(old(cls), old(rank), cls, rank) && Settled(old(pending), cls, pending)
        invariant at.Some? ==> at.value in cls && (if cls[at.value].resolved then resolvedClass else at.value in pending)
        invariant resolvedClass ==> Members(pending) < Members(old(pending))
        invariant !resolvedClass ==> at == HeadOf(pending)
        decreases Members(pending)
      {
        var c := at.value;
        var next := cls[c].subclassList;
        if cls[c].resolved {
          assert resolvedClass;
          break;
        }
        NextPending(cls, unresolvedList, pending, c);
        PendingUnresolved(cls, unresolvedList, pending);
        ghost var cls1, rank1, pending1 := cls, rank, pending;
        ResolveNext(c);
        SettledTrans(old(cls), old(rank), old(pending), cls1, rank1, pending1, cls, rank, pending);
        FewerMembers(pending1, pending, cls, c);
        if resolvedClass || cls[c].resolved {
          resolvedClass := true;
        }
        at := next;
      }
    }

    /** `objc_resolve_class_links`: passes are made until one resolves nothing. */
    method ResolveLinks()
      requires Valid() && AllListed()
      modifies this
      ensures Valid() && (old(Squared()) ==> Squared())
      ensures unresolvedList == None && pending == [] && Resolving(old(cls), old(rank), cls, rank)
      ensures forall c :: c in old(pending) ==> c in cls && cls[c].resolved
    {
      DrainedNone(cls, rank, owner, unresolvedList, pending, kids, detached, 0);
      var resolvedClass := true;
      while resolvedClass
        invariant Valid() && AllListed() && (old(Squared()) ==> Squared())
        invariant Resolving(old(cls), old(rank), cls, rank) && Settled(old(pending), cls, pending)
        invariant !resolvedClass ==> pending == []
        decreases Members(pending), resolvedClass
      {
        ghost var cls1, rank1, pending1 := cls, rank, pending;
        resolvedClass := ResolvePass();
        SettledTrans(old(cls), old(rank), old(pending), cls1, rank1, pending1, cls, rank, pending);
      }
    }

    /** `safe_remove_from_subclass_list`. */
    method SafeRemove(x: nat)
      requires Sound() && x in cls && cls[x].resolved && cls[x].super.Some? && x !in detached
      modifies this
      ensures Sound() && SameShape(old(cls), cls) && detached == old(detached) + {x}
      ensures var p := old(cls[x].super.value);
              p in old(kids) && exists k: nat :: k < |old(kids)[p]| && old(kids)[p][k] == x && kids == old(kids)[p := Removed(old(kids)[p], k)]
      ensures rank == old(rank) && owner == old(owner) && pending == old(pending)
      ensures old(MetaSupers(cls)) ==> MetaSupers(cls)
      ensures old(Squared()) ==> Squared()
    {
      assert SuperOk(cls, rank, x);
      var p := cls[x].super.value;
      assert Threaded(cls, p, kids[p]) && x in kids[p];
      ghost var xs := kids[p];
      ghost var k: nat :| k < |xs| && xs[k] == x;
      var sub := cls[p].subclassList;
      ghost var i := 0;
      if sub == Some(x) {
        assert k == 0;
        cls := cls[p := cls[p].(subclassList := cls[x].siblingClass)];
      } else {
        while sub != None
          invariant cls == old(cls) && i < k && sub == Some(xs[i])
          decreases k - i
        {
          assert SiblingOk(cls, xs, i);
          if cls[sub.value].siblingClass == Some(x) {
            assert i + 1 == k;
            cls := cls[sub.value := cls[sub.value].(siblingClass := cls[x].siblingClass)];
            break;
          }
          sub := cls[sub.value].siblingClass;
          i := i + 1;
        }
      }
      assert SiblingOk(old(cls), xs, k);
      UnthreadCore(old(cls), rank, owner, unresolvedList, pending, kids, detached, p, k, cls);
      kids, detached := kids[p := Removed(xs, k)], detached + {x};
    }

    /** The assignments of `class_setSuperclass` that hang `x` below `p`. */
    method Rehang(x: nat, p: nat, isa: nat)
      requires Sound() && x in cls && p in cls && cls[x].resolved && cls[p].resolved && x in detached
      requires cls[x].meta || !cls[p].meta
      requires isa == cls[x].isa || (cls[x].meta && isa in cls && cls[isa].meta)
      requires !Desc(cls, rank, p, x)
      modifies this
      ensures Sound() && detached == old(detached) - {x} && owner == old(owner) && pending == old(pending)
      ensures cls == Link(old(cls)[x := old(cls)[x].(super := Some(p), isa := isa)], x, p)
    {
      assert SuperOk(cls, rank, p) && Desc(cls, rank, x, x);
      ghost var cls1 := cls[x := cls[x].(super := Some(p), isa := isa)];
      RehungCore(cls, rank, owner, unresolvedList, pending, kids, detached, x, p, isa, cls1);
      rank := Reranked(cls, rank, x, p);
      LinkCore(cls1, rank, owner, unresolvedList, pending, kids, detached, x, p);
      cls := cls[x := cls[x].(super := Some(p), isa := isa)];
      cls := cls[x := cls[x].(siblingClass := cls[p].subclassList)];
      cls := cls[p := cls[p].(subclassList := Some(x))];
      kids, detached := kids[p := [x] + kids[p]], detached - {x};
    }

    /** The first steps of `class_setSuperclass`: `c` leaves its list and the new
        superclass is resolved. */
    method Prepare(c: nat, s: nat)
      requires Valid() && c in cls && !cls[c].meta && cls[c].resolved && cls[c].super.Some?
      requires s in cls && !cls[s].meta && Listed(cls, rank, pending, s) && !Desc(cls, rank, s, c)
      modifies this
      ensures Sound() && detached == {c} && owner == old(owner) && MetaSupers(cls)
      ensures old(Squared()) ==> Squared()
      ensures Resolving(old(cls), old(rank), cls, rank) && Drained(old(cls), old(rank), old(pending), cls, pending, s)
      ensures Placed(cls, rank, c, s)
    {
      DrainedNone(cls, rank, owner, unresolvedList, pending, kids, detached, s);
      SafeRemove(c);
      ghost var cls1 := cls;
      SameShapeResolving(old(cls), rank, cls1, pending, s);
      ListedKept(old(cls), rank, pending, cls1, rank, pending, s, s);
      var ok := Resolve(s);
      DrainedSince(old(cls), old(rank), old(pending), cls1, cls, rank, pending, s);
      PlacedAfter(old(cls), old(rank), cls, rank, owner, c, s);
    }

    /** The first half of `class_setSuperclass` moves the class itself.  `mid` is the
        store just before the move, when the new superclass has been resolved. */
    method MoveClass(c: nat, s: nat) returns (ghost mid: Store, ghost midRank: map<nat, nat>)
      requires Valid() && c in cls && !cls[c].meta && cls[c].resolved && cls[c].super.Some?
      requires s in cls && !cls[s].meta && Listed(cls, rank, pending, s) && !Desc(cls, rank, s, c)
      modifies this
      ensures Sound() && detached == {} && owner == old(owner)
      ensures Pairs(mid, owner) && Ranked(mid, midRank) && MetaSupers(mid)
      ensures old(Squared()) ==> MetaRoots(mid, midRank)
      ensures Resolving(old(cls), old(rank), mid, midRank) && Drained(old(cls), old(rank), old(pending), mid, pending, s)
      ensures Placed(mid, midRank, c, s) && SameShape(mid[c := mid[c].(super := Some(s))], cls)
    {
      Prepare(c, s);
      mid, midRank := cls, rank;
      Rehang(c, s, cls[c].isa);
    }

    /** The second half moves the metaclass. */
    method MoveMeta(c: nat, s: nat, ghost mid: Store, ghost midRank: map<nat, nat>)
      requires Sound() && detached == {} && Pairs(mid, owner) && Ranked(mid, midRank) && MetaSupers(mid)
      requires Placed(mid, midRank, c, s) && SameShape(mid[c := mid[c].(super := Some(s))], cls)
      modifies this
      ensures Sound() && detached == {} && owner == old(owner) && pending == old(pending)
      ensures Moved(mid, cls, c, s)
    {
      MetaPlaced(mid, midRank, owner, cls, rank, c, s);
      var meta, newSuperMeta := cls[c].isa, cls[s].isa;
      SafeRemove(meta);
      ghost var cls1 := cls;
      MetaStillPlaced(old(cls), cls1, rank, owner, meta, newSuperMeta);
      var ok := Resolve(newSuperMeta);
      Rehang(meta, newSuperMeta, cls[newSuperMeta].isa);
      MovedBoth(mid, old(cls), cls1, cls, c, s, owner);
    }

    /** `class_setSuperclass` on a resolved class below the root, up to the point where
        dispatch tables are rebuilt. */
    method SetSuperclass(c: nat, s: nat) returns (oldSuper: nat)
      requires Valid() && c in cls && !cls[c].meta && cls[c].resolved && cls[c].super.Some?
      requires s in cls && !cls[s].meta && Listed(cls, rank, pending, s) && !Desc(cls, rank, s, c)
      modifies this
      ensures Valid() && oldSuper == old(cls[c].super.value)
      ensures oldSuper == s ==> cls == old(cls) && kids == old(kids) && rank == old(rank)
      ensures Relocated(old(cls), cls, c, s) && Drained(old(cls), old(rank), old(pending), cls, pending, s)
      ensures old(Squared()) ==> (Squared() <==> oldSuper == s || KeepsSquare(old(cls), old(rank), c, s))
    {
      oldSuper := cls[c].super.value;
      if oldSuper == s {
        assert PairOk(cls, owner, c) && MetaSuperOk(cls, c) && PairOk(cls, owner, s) && SuperOk(cls, rank, c);
        DrainedNone(cls, rank, owner, unresolvedList, pending, kids, detached, s);
        return;
      }
      ghost var mid, midRank := MoveClass(c, s);
      MoveMeta(c, s, mid, midRank);
      MovedMetaSupers(mid, midRank, owner, cls, c, s);
      RelocatedVia(old(cls), old(rank), mid, midRank, cls, owner, c, s);
      if old(Squared()) {
        MovedMetaRoots(mid, midRank, owner, cls, rank, c, s);
        KeepsSquareSame(old(cls), old(rank), mid, midRank, old(pending), pending, c, s);
      }
    }

    /** `class_setSuperclass` on a metaclass: all lists stay in order, but the metaclass is parted
        from its class's square, unless nothing moves. */
    method SetMetaSuperclass(m: nat, s: nat) returns (oldSuper: nat)
      requires Valid() && m in cls && cls[m].meta && cls[m].resolved && cls[m].super.Some?
      requires s in cls && cls[s].resolved && !Desc(cls, rank, s, m)
      modifies this
      ensures Sound() && detached == {} && pending == old(pending) && owner == old(owner) && oldSuper == old(cls[m].super.value)
      ensures if oldSuper == s then cls == old(cls) else MetaMoved(old(cls), cls, m, s)
      ensures Valid() <==> oldSuper == s
    {
      oldSuper := cls[m].super.value;
      if oldSuper == s {
        return;
      }
      MoveUnder(m, s);
      MetaMovedSquare(old(cls), old(rank), owner, cls, m, s);
    }

    /** The branch for metaclasses, when the new superclass is another one. */
    method MoveUnder(m: nat, s: nat)
      requires Sound() && detached == {} && m in cls && cls[m].meta && cls[m].resolved && cls[m].super.Some?
      requires s in cls && cls[s].resolved && !Desc(cls, rank, s, m)
      modifies this
      ensures Sound() && detached == {} && pending == old(pending) && owner == old(owner) && MetaMoved(old(cls), cls, m, s)
    {
      hide MetaSupers, MetaRoots, MetaMoved;
      assert Desc(cls, rank, m, m);
      SafeRemove(m);
      ghost var cls1 := cls;
      MetaStillPlaced(old(cls), cls, rank, owner, m, s);
      var ok := Resolve(s);
      Rehang(m, s, cls[s].isa);
      MetaMovedBy(old(cls), cls1, cls, m, s);
    }
  }

  /** A metaclass hangs below `s` and is an instance of what `s` is an instance of. */
  ghost predicate MetaMoved(cls: Store, cls': Store, m: nat, s: nat) {
    && cls'.Keys == cls.Keys && m in cls && s in cls
    && cls'[m].super == Some(s) && cls'[m].isa == cls[s].isa
    && forall d {:trigger cls'[d]} :: d in cls ==>
         && cls'[d].meta == cls[d].meta && cls'[d].resolved == cls[d].resolved
         && (d != m ==> cls'[d].super == cls[d].super && cls'[d].isa == cls[d].isa)
  }

  lemma MetaMovedBy(cls: Store, cls1: Store, cls': Store, m: nat, s: nat)
    requires SameShape(cls, cls1) && m in cls && s in cls && m != s
    requires cls' == Link(cls1[m := cls1[m].(super := Some(s), isa := cls1[s].isa)], m, s)
    ensures MetaMoved(cls, cls', m, s)
  {
  }

  /** In a square the superclass of a metaclass is given, so moving one breaks it. */
  lemma MetaMovedSquare(cls: Store, rank: map<nat, nat>, owner: map<nat, nat>, cls': Store, m: nat, s: nat)
    requires Pairs(cls, owner) && Ranked(cls, rank) && MetaSupers(cls) && MetaMoved(cls, cls', m, s) && cls[m].meta && cls[m].resolved && cls[m].super != Some(s)
    ensures !MetaSupers(cls')
  {
    assert PairOk(cls, owner, m);
    var o := owner[m];
    assert PairOk(cls, owner, o) && MetaSuperOk(cls, o) && SuperOk(cls, rank, o);
    if cls[o].super.Some? { assert PairOk(cls, owner, cls[o].super.value); }
    assert !MetaSuperOk(cls', o);
  }

  /** Loading `c` sets links of unresolved structures and the superclass of a root's metaclass. */
  ghost predicate Loaded(cls: Store, cls': Store, c: nat) {
    && cls'.Keys == cls.Keys && c in cls && cls[c].isa in cls
    && (forall d {:trigger cls'[d]} :: d in cls ==>
          && (cls[d].resolved ==> cls'[d] == cls[d])
          && cls'[d] == cls[d].(subclassList := cls'[d].subclassList, siblingClass := cls'[d].siblingClass, super := cls'[d].super)
          && cls'[d].super == if d == cls[c].isa && cls[c].super.None? then Some(c) else cls[d].super)
  }

  lemma ResolvingLinks(cls: Store, cls': Store, rank: map<nat, nat>)
    requires SameShape(cls, cls') && Ranked(cls, rank)
    ensures Resolving(cls, rank, cls', rank)
  {
    forall d | d in cls ensures d in rank { assert SuperOk(cls, rank, d); }
  }

  lemma ResolvingTrans(cls: Store, rank: map<nat, nat>, cls1: Store, rank1: map<nat, nat>, cls': Store, rank': map<nat, nat>)
    requires Resolving(cls, rank, cls1, rank1) && Resolving(cls1, rank1, cls', rank')
    ensures Resolving(cls, rank, cls', rank')
  {
    forall d | d in cls ensures cls1[d].meta == cls[d].meta && cls'[d].meta == cls1[d].meta { }
  }

  lemma RootMetaResolving(cls: Store, rank: map<nat, nat>, owner: map<nat, nat>, c: nat)
    requires Pairs(cls, owner) && Ranked(cls, rank) && c in cls && !cls[c].meta && !cls[c].resolved && cls[c].super == None && c in rank && cls[c].isa in cls
    ensures Resolving(cls, rank, cls[cls[c].isa := cls[cls[c].isa].(super := Some(c))], Reranked(cls, rank, cls[c].isa, c))
  {
    assert PairOk(cls, owner, c);
    forall d | d in cls && !cls[d].meta ensures d in rank && !Desc(cls, rank, d, cls[c].isa) {
      assert SuperOk(cls, rank, d);
      if Desc(cls, rank, d, cls[c].isa) { DescUp(cls, rank, d, cls[c].isa); }
    }
  }

  lemma LoadedBy(cls: Store, cls1: Store, cls': Store, c: nat)
    requires LinksOnly(cls, cls1) && c in cls && cls[c].isa in cls && cls[c].isa in cls1
    requires !cls[cls[c].isa].resolved || cls[c].super.Some?
    requires cls' == if cls[c].super.None? then cls1[cls[c].isa := cls1[cls[c].isa].(super := Some(c))] else cls1
    ensures Loaded(cls, cls', c)
  {
  }

  lemma LoadedCore(cls: Store, rank: map<nat, nat>, owner: map<nat, nat>, head: Option<nat>, pending: seq<nat>, kids: map<nat, seq<nat>>, c: nat)
    requires Core(cls, rank, owner, head, pending, kids, {}) && MetaSupers(cls)
    requires c in cls && !cls[c].meta && !cls[c].resolved && cls[c].super == None
    ensures cls[c].isa in cls && c in rank
    ensures var cls', rank' := cls[cls[c].isa := cls[cls[c].isa].(super := Some(c))], Reranked(cls, rank, cls[c].isa, c);
            Core(cls', rank', owner, head, pending, kids, {}) && MetaSupers(cls') && (MetaRoots(cls, rank) ==> MetaRoots(cls', rank'))
  {
    assert PairOk(cls, owner, c) && SuperOk(cls, rank, c);
    var m := cls[c].isa;
    var cls', rank' := cls[m := cls[m].(super := Some(c))], Reranked(cls, rank, m, c);
    if Desc(cls, rank, c, m) { DescUp(cls, rank, c, m); }
    RehungRanked(cls, rank, m, c, cls[m].isa, cls');
    RehungPairs(cls, owner, m, c, cls[m].isa, cls');
    forall i | 0 <= i < |pending| ensures WaitOk(cls', pending, i) { assert WaitOk(cls, pending, i); }
    forall d | d in cls ensures IdleOk(cls', pending, d) { assert IdleOk(cls, pending, d); }
    forall q | q in cls' ensures Threaded(cls', q, kids[q]) {
      assert Threaded(cls, q, kids[q]);
      forall i | 0 <= i < |kids[q]| ensures SiblingOk(cls', kids[q], i) { assert SiblingOk(cls, kids[q], i); }
    }
    forall q, d | q in cls' ensures d in kids[q] <==> IsKid(cls', {}, q, d) { assert d in kids[q] <==> IsKid(cls, {}, q, d); }
    forall d | d in cls ensures MetaSuperOk(cls', d) { assert MetaSuperOk(cls, d) && PairOk(cls, owner, d); }
    forall d | d in cls && MetaRoots(cls, rank) ensures MetaRootOk(cls', rank', d) {
      assert MetaRootOk(cls, rank, d) && PairOk(cls, owner, d);
      RootSame(cls, rank, cls', rank', d);
    }
  }

  /** A class that joins the list keeps the others listed, and is listed if its superclass is. */
  lemma QueuedListed(cls: Store, cls': Store, rank: map<nat, nat>, pending: seq<nat>, c: nat)
    requires Ranked(cls, rank) && Ranked(cls', rank) && LinksOnly(cls, cls') && c in cls
    ensures forall d :: d in cls && Listed(cls, rank, pending, d) ==> Listed(cls', rank, [c] + pending, d)
    ensures (cls[c].super.Some? ==> cls[c].super.value in cls && Listed(cls, rank, pending, cls[c].super.value)) ==> Listed(cls', rank, [c] + pending, c)
  {
    forall d | d in cls && Listed(cls, rank, pending, d) ensures Listed(cls', rank, [c] + pending, d) {
      QueuedListedAt(cls, cls', rank, pending, c, d);
    }
    assert SuperOk(cls, rank, c);
  }

  lemma {:induction false} QueuedListedAt(cls: Store, cls': Store, rank: map<nat, nat>, pending: seq<nat>, c: nat, d: nat)
    requires Ranked(cls, rank) && Ranked(cls', rank) && LinksOnly(cls, cls') && d in cls && Listed(cls, rank, pending, d)
    ensures Listed(cls', rank, [c] + pending, d)
    decreases if d in rank then rank[d] else 0
  {
    assert SuperOk(cls, rank, d);
    if !cls[d].resolved && cls[d].super.Some? { QueuedListedAt(cls, cls', rank, pending, c, cls[d].super.value); }
  }

  lemma LoadedListed(cls: Store, rank: map<nat, nat>, owner: map<nat, nat>, pending: seq<nat>, c: nat)
    requires Ranked(cls, rank) && Pairs(cls, owner) && c in cls && !cls[c].meta && cls[c].isa in cls && c in rank
    requires Ranked(cls[cls[c].isa := cls[cls[c].isa].(super := Some(c))], Reranked(cls, rank, cls[c].isa, c))
    ensures var cls', rank' := cls[cls[c].isa := cls[cls[c].isa].(super := Some(c))], Reranked(cls, rank, cls[c].isa, c);
            forall d :: d in cls && !cls[d].meta && Listed(cls, rank, pending, d) ==> Listed(cls', rank', pending, d)
  {
    var cls', rank' := cls[cls[c].isa := cls[cls[c].isa].(super := Some(c))], Reranked(cls, rank, cls[c].isa, c);
    assert PairOk(cls, owner, c);
    forall d | d in cls && !cls[d].meta && Listed(cls, rank, pending, d) ensures Listed(cls', rank', pending, d) {
      LoadedListedAt(cls, rank, cls', rank', pending, d);
    }
  }

  lemma {:induction false} LoadedListedAt(cls: Store, rank: map<nat, nat>, cls': Store, rank': map<nat, nat>, pending: seq<nat>, d: nat)
    requires Ranked(cls, rank) && Ranked(cls', rank') && cls'.Keys == cls.Keys && d in cls && !cls[d].meta && Listed(cls, rank, pending, d)
    requires forall e {:trigger cls'[e]} :: e in cls ==> cls'[e].resolved == cls[e].resolved && (!cls[e].meta ==> cls'[e].super == cls[e].super)
    ensures Listed(cls', rank', pending, d)
    decreases if d in rank then rank[d] else 0
  {
    assert SuperOk(cls, rank, d);
    if !cls[d].resolved && cls[d].super.Some? { LoadedListedAt(cls, rank, cls', rank', pending, cls[d].super.value); }
  }

  /** The links that a new pair may have. */
  ghost predicate Admissible(cls: Store, superclass: Option<nat>, c: nat, m: nat, metaIsa: nat, metaSuper: Option<nat>) {
    && (superclass.Some? ==> superclass.value in cls && !cls[superclass.value].meta)
    && (metaIsa == m || (metaIsa in cls && cls[metaIsa].meta))
    && (metaSuper.Some? ==> metaSuper.value == c || metaSuper.value in cls)
  }

  function Admitted(cls: Store, superclass: Option<nat>, c: nat, m: nat, metaIsa: nat, metaSuper: Option<nat>): Store {
    cls[m := Class(metaIsa, metaSuper, None, None, false, true)][c := Class(m, superclass, None, None, false, false)]
  }

  function RankAbove(rank: map<nat, nat>, s: Option<nat>): nat {
    if s.Some? && s.value in rank then rank[s.value] + 1 else 0
  }

  ghost function AdmittedRank(rank: map<nat, nat>, superclass: Option<nat>, c: nat, m: nat, metaSuper: Option<nat>): map<nat, nat> {
    var rank1 := rank[c := RankAbove(rank, superclass)];
    rank1[m := RankAbove(rank1, metaSuper)]
  }

  lemma AdmittedCore(cls: Store, rank: map<nat, nat>, owner: map<nat, nat>, head: Option<nat>, pending: seq<nat>, kids: map<nat, seq<nat>>,
                   superclass: Option<nat>, c: nat, m: nat, metaIsa: nat, metaSuper: Option<nat>)
    requires Core(cls, rank, owner, head, pending, kids, {}) && MetaSupers(cls) && c !in cls && m !in cls && c != m
    requires Admissible(cls, superclass, c, m, metaIsa, metaSuper)
    ensures var cls', rank' := Admitted(cls, superclass, c, m, metaIsa, metaSuper), AdmittedRank(rank, superclass, c, m, metaSuper);
            && Core(cls', rank', owner[m := c], head, pending, kids[c := []][m := []], {}) && MetaSupers(cls')
            && (MetaRoots(cls, rank) ==> MetaRoots(cls', rank'))
  {
    AdmittedPairs(cls, owner, superclass, c, m, metaIsa, metaSuper);
    AdmittedRanked(cls, rank, superclass, c, m, metaIsa, metaSuper);
    AdmittedLists(cls, rank, pending, kids, head, superclass, c, m, metaIsa, metaSuper);
    AdmittedSquare(cls, rank, owner, superclass, c, m, metaIsa, metaSuper);
  }

  lemma AdmittedPairs(cls: Store, owner: map<nat, nat>, superclass: Option<nat>, c: nat, m: nat, metaIsa: nat, metaSuper: Option<nat>)
    requires Pairs(cls, owner) && c !in cls && m !in cls && c != m && Admissible(cls, superclass, c, m, metaIsa, metaSuper)
    ensures Pairs(Admitted(cls, superclass, c, m, metaIsa, metaSuper), owner[m := c])
  {
    var cls' := Admitted(cls, superclass, c, m, metaIsa, metaSuper);
    assert PairOk(cls', owner[m := c], c) && PairOk(cls', owner[m := c], m);
    forall d | d in cls ensures PairOk(cls', owner[m := c], d) {
      assert PairOk(cls, owner, d) && cls'[d] == cls[d] && cls'[cls[d].isa] == cls[cls[d].isa];
      if cls[d].meta { assert cls'[owner[d]] == cls[owner[d]]; }
    }
  }

  lemma AdmittedRanked(cls: Store, rank: map<nat, nat>, superclass: Option<nat>, c: nat, m: nat, metaIsa: nat, metaSuper: Option<nat>)
    requires Ranked(cls, rank) && c !in cls && m !in cls && c != m && Admissible(cls, superclass, c, m, metaIsa, metaSuper)
    ensures Ranked(Admitted(cls, superclass, c, m, metaIsa, metaSuper), AdmittedRank(rank, superclass, c, m, metaSuper))
  {
    var cls', rank' := Admitted(cls, superclass, c, m, metaIsa, metaSuper), AdmittedRank(rank, superclass, c, m, metaSuper);
    if superclass.Some? { assert SuperOk(cls, rank, superclass.value); }
    if metaSuper.Some? && metaSuper.value in cls { assert SuperOk(cls, rank, metaSuper.value); }
    forall d | d in cls' ensures SuperOk(cls', rank', d) {
      if d in cls {
        assert SuperOk(cls, rank, d);
        if cls[d].super.Some? { assert SuperOk(cls, rank, cls[d].super.value); }
      }
    }
  }

  lemma AdmittedSquare(cls: Store, rank: map<nat, nat>, owner: map<nat, nat>, superclass: Option<nat>, c: nat, m: nat, metaIsa: nat, metaSuper: Option<nat>)
    requires Pairs(cls, owner) && Ranked(cls, rank) && MetaSupers(cls) && c !in cls && m !in cls && c != m
    requires Ranked(Admitted(cls, superclass, c, m, metaIsa, metaSuper), AdmittedRank(rank, superclass, c, m, metaSuper))
    ensures MetaSupers(Admitted(cls, superclass, c, m, metaIsa, metaSuper))
    ensures MetaRoots(cls, rank) ==> MetaRoots(Admitted(cls, superclass, c, m, metaIsa, metaSuper), AdmittedRank(rank, superclass, c, m, metaSuper))
  {
    var cls', rank' := Admitted(cls, superclass, c, m, metaIsa, metaSuper), AdmittedRank(rank, superclass, c, m, metaSuper);
    forall d | d in cls' ensures MetaSuperOk(cls', d) {
      if d in cls { assert MetaSuperOk(cls, d) && PairOk(cls, owner, d) && SuperOk(cls, rank, d); }
    }
    forall d | d in cls' && MetaRoots(cls, rank) ensures MetaRootOk(cls', rank', d) {
      if d in cls { assert MetaRootOk(cls, rank, d) && PairOk(cls, owner, d); RootKept(cls, rank, cls', rank', d); }
    }
  }

  lemma AdmittedLists(cls: Store, rank: map<nat, nat>, pending: seq<nat>, kids: map<nat, seq<nat>>, head: Option<nat>,
                    superclass: Option<nat>, c: nat, m: nat, metaIsa: nat, metaSuper: Option<nat>)
    requires Ranked(cls, rank) && Forest(cls, kids, {}) && Waiting(cls, head, pending) && Idle(cls, pending) && c !in cls && m !in cls && c != m
    ensures var cls' := Admitted(cls, superclass, c, m, metaIsa, metaSuper);
            Forest(cls', kids[c := []][m := []], {}) && Waiting(cls', head, pending) && Idle(cls', pending)
  {
    var cls', kids' := Admitted(cls, superclass, c, m, metaIsa, metaSuper), kids[c := []][m := []];
    forall d | d in cls' ensures IdleOk(cls', pending, d) { if d in cls { assert IdleOk(cls, pending, d); } }
    forall i | 0 <= i < |pending| ensures WaitOk(cls', pending, i) { assert WaitOk(cls, pending, i); }
    forall q | q in cls' ensures Threaded(cls', q, kids'[q]) {
      if q in cls {
        assert Threaded(cls, q, kids[q]);
        forall i | 0 <= i < |kids[q]| ensures SiblingOk(cls', kids[q], i) { assert SiblingOk(cls, kids[q], i); }
      }
    }
    forall q, d | q in cls' ensures d in kids'[q] <==> IsKid(cls', {}, q, d) {
      if d in cls { assert SuperOk(cls, rank, d); }
      if q in cls { assert d in kids[q] <==> IsKid(cls, {}, q, d); }
    }
  }

  lemma {:induction false} RootKept(cls: Store, rank: map<nat, nat>, cls': Store, rank': map<nat, nat>, d: nat)
    requires Ranked(cls, rank) && Ranked(cls', rank') && d in cls && forall e :: e in cls ==> e in cls' && cls'[e] == cls[e]
    ensures Root(cls', rank', d) == Root(cls, rank, d)
    decreases if d in rank then rank[d] else 0
  {
    assert SuperOk(cls, rank, d);
    if cls[d].super.Some? { RootKept(cls, rank, cls', rank', cls[d].super.value); }
  }

  /** What moving `c` below `s` does to structures that were already resolved. */
  ghost predicate Relocated(cls: Store, cls': Store, c: nat, s: nat) {
    && cls'.Keys == cls.Keys
    && c in cls && s in cls && cls[c].isa in cls && cls'[s].isa in cls'
    && (forall d {:trigger cls'[d]} :: d in cls ==>
          && cls'[d].meta == cls[d].meta
          && (cls[d].resolved ==> cls'[d].resolved)
          && (!cls[d].meta ==> cls'[d].isa == cls[d].isa)
          && (cls[d].resolved && d != c && d != cls[c].isa ==> cls'[d].super == cls[d].super)
          && (!cls[d].meta && d != c ==> cls'[d].super == cls[d].super))
    && cls'[s].resolved
    && cls'[c].super == Some(s)
    && cls'[cls[c].isa].super == Some(cls'[s].isa)
  }

  /** The root stays the same, or no resolved class is properly below `c`. */
  ghost predicate KeepsSquare(cls: Store, rank: map<nat, nat>, c: nat, s: nat)
    requires Ranked(cls, rank) && c in cls && s in cls
  {
    || Root(cls, rank, c) == Root(cls, rank, s)
    || forall d :: d in cls && !cls[d].meta && cls[d].resolved && Desc(cls, rank, d, c) ==> d == c
  }

  lemma RelocatedVia(cls: Store, rank: map<nat, nat>, mid: Store, midRank: map<nat, nat>, cls': Store, owner: map<nat, nat>, c: nat, s: nat)
    requires Resolving(cls, rank, mid, midRank) && Moved(mid, cls', c, s) && Pairs(mid, owner)
    requires c in cls && !cls[c].meta && s in cls && !cls[s].meta && mid[s].resolved
    ensures Relocated(cls, cls', c, s)
  {
    assert PairOk(mid, owner, c) && PairOk(mid, owner, s);
  }

  lemma KeepsSquareSame(cls: Store, rank: map<nat, nat>, cls': Store, rank': map<nat, nat>, pending: seq<nat>, pending': seq<nat>, c: nat, s: nat)
    requires Ranked(cls, rank) && Ranked(cls', rank') && Resolving(cls, rank, cls', rank')
    requires c in cls && s in cls && !cls[c].meta && !cls[s].meta && !Desc(cls, rank, s, c)
    requires Drained(cls, rank, pending, cls', pending', s)
    ensures KeepsSquare(cls, rank, c, s) <==> KeepsSquare(cls', rank', c, s)
  {
    RootSame(cls, rank, cls', rank', c);
    RootSame(cls, rank, cls', rank', s);
    forall d | d in cls && !cls[d].meta
      ensures cls'[d].resolved && Desc(cls', rank', d, c) <==> cls[d].resolved && Desc(cls, rank, d, c)
    {
      SameAbove(cls, rank, cls', rank', d, c);
      if cls'[d].resolved && !cls[d].resolved && Desc(cls, rank, d, c) { DescTrans(cls, rank, s, d, c); }
    }
  }

  lemma MetaPlaced(mid: Store, midRank: map<nat, nat>, owner: map<nat, nat>, cls: Store, rank: map<nat, nat>, c: nat, s: nat)
    requires Pairs(mid, owner) && Ranked(mid, midRank) && MetaSupers(mid) && Placed(mid, midRank, c, s)
    requires Ranked(cls, rank) && SameShape(mid[c := mid[c].(super := Some(s))], cls)
    ensures var meta, sm := mid[c].isa, mid[s].isa;
            && cls[c].isa == meta && cls[s].isa == sm && meta != sm
            && meta in cls && sm in cls && cls[meta].meta && cls[sm].meta && cls[meta].resolved && cls[sm].resolved
            && cls[meta].super.Some? && !Desc(cls, rank, sm, meta)
  {
    assert PairOk(mid, owner, c) && PairOk(mid, owner, s) && MetaSuperOk(mid, c);
    assert cls[c] == mid[c].(super := Some(s), subclassList := cls[c].subclassList, siblingClass := cls[c].siblingClass);
    assert Desc(mid, midRank, mid[c].isa, mid[c].isa);
    forall e | e in mid && Desc(mid, midRank, mid[s].isa, e) ensures cls[e].super == mid[e].super { }
    DescSame(mid, midRank, cls, rank, mid[s].isa, mid[c].isa);
  }

  lemma MetaStillPlaced(cls: Store, cls1: Store, rank: map<nat, nat>, owner: map<nat, nat>, meta: nat, sm: nat)
    requires Ranked(cls, rank) && Ranked(cls1, rank) && Pairs(cls1, owner) && SameShape(cls, cls1) && sm in cls
    requires !Desc(cls, rank, sm, meta)
    ensures !Desc(cls1, rank, sm, meta) && cls1[sm].isa in cls1 && cls1[cls1[sm].isa].meta
  {
    DescSame(cls, rank, cls1, rank, sm, meta);
    assert PairOk(cls1, owner, sm);
  }

  lemma MovedBoth(mid: Store, cls: Store, cls1: Store, cls': Store, c: nat, s: nat, owner: map<nat, nat>)
    requires Pairs(mid, owner) && c in mid && s in mid && !mid[c].meta && !mid[s].meta && mid[c].isa in mid && mid[s].isa in mid
    requires mid[c].isa != mid[s].isa
    requires SameShape(mid[c := mid[c].(super := Some(s))], cls) && SameShape(cls, cls1)
    requires cls' == Link(cls1[mid[c].isa := cls1[mid[c].isa].(super := Some(mid[s].isa), isa := cls1[mid[s].isa].isa)], mid[c].isa, mid[s].isa)
    ensures Moved(mid, cls', c, s)
  {
    assert PairOk(mid, owner, c) && PairOk(mid, owner, s);
  }

  /** `s` is a resolved class that is not below `c`, and likewise their metaclasses. */
  ghost predicate Placed(cls: Store, rank: map<nat, nat>, c: nat, s: nat)
    requires Ranked(cls, rank)
  {
    && c in cls && s in cls && !cls[c].meta && !cls[s].meta && cls[c].resolved && cls[s].resolved
    && cls[c].isa in cls && cls[s].isa in cls
    && !Desc(cls, rank, s, c) && !Desc(cls, rank, cls[s].isa, cls[c].isa) && !Desc(cls, rank, cls[s].isa, c)
  }

  lemma SameShapeResolving(cls: Store, rank: map<nat, nat>, cls': Store, pending: seq<nat>, s: nat)
    requires Ranked(cls, rank) && SameShape(cls, cls') && s in cls && Drained(cls, rank, pending, cls, pending, s)
    ensures Resolving(cls, rank, cls', rank) && Drained(cls, rank, pending, cls', pending, s)
  {
    forall d | d in cls ensures d in rank { assert SuperOk(cls, rank, d); }
  }

  lemma DrainedSince(cls: Store, rank: map<nat, nat>, pending: seq<nat>, cls1: Store, cls': Store, rank': map<nat, nat>, pending': seq<nat>, s: nat)
    requires Ranked(cls, rank) && Ranked(cls1, rank) && SameShape(cls, cls1) && s in cls && !cls[s].meta
    requires Resolving(cls, rank, cls1, rank)
    requires Resolving(cls1, rank, cls', rank') && Drained(cls1, rank, pending, cls', pending', s)
    ensures Resolving(cls, rank, cls', rank') && Drained(cls, rank, pending, cls', pending', s)
  {
    forall d | d in cls && !cls[d].meta && cls'[d].resolved && !cls[d].resolved ensures d in pending && Desc(cls, rank, s, d) {
      assert !cls1[d].resolved;
      SameAbove(cls, rank, cls1, rank, s, d);
    }
  }

  lemma PlacedAfter(cls: Store, rank: map<nat, nat>, cls': Store, rank': map<nat, nat>, owner: map<nat, nat>, c: nat, s: nat)
    requires Ranked(cls, rank) && Ranked(cls', rank') && Pairs(cls', owner) && MetaSupers(cls')
    requires Resolving(cls, rank, cls', rank') && c in cls && s in cls && !cls[c].meta && !cls[s].meta
    requires cls[c].resolved && cls[c].super.Some? && cls'[s].resolved && !Desc(cls, rank, s, c)
    ensures Placed(cls', rank', c, s)
  {
    assert PairOk(cls', owner, c) && PairOk(cls', owner, s);
    SameAbove(cls, rank, cls', rank', s, c);
    var m, x := cls'[s].isa, cls'[c].isa;
    if Desc(cls', rank', m, x) { MetaDesc(cls', rank', owner, m, x); }
    if Desc(cls', rank', m, c) { MetaDesc(cls', rank', owner, m, c); }
  }

  /** The list holds exactly what it held and is not yet resolved. */
  ghost predicate Settled(pending: seq<nat>, cls': Store, pending': seq<nat>) {
    && (forall d :: d in pending ==> d in cls')
    && forall d {:trigger d in pending'} :: d in pending' <==> d in pending && d in cls' && !cls'[d].resolved
  }

  ghost function Members(xs: seq<nat>): set<nat> {
    set d | d in xs
  }

  lemma FewerMembers(xs: seq<nat>, ys: seq<nat>, cls: Store, c: nat)
    requires Settled(xs, cls, ys) && c in xs && c !in ys
    ensures Members(ys) < Members(xs)
  {
    assert c in Members(xs) && c !in Members(ys);
  }

  lemma SettledTrans(cls0: Store, rank0: map<nat, nat>, pending0: seq<nat>, cls1: Store, rank1: map<nat, nat>, pending1: seq<nat>,
                     cls: Store, rank: map<nat, nat>, pending: seq<nat>)
    requires Resolving(cls0, rank0, cls1, rank1) && Resolving(cls1, rank1, cls, rank)
    requires Settled(pending0, cls1, pending1) && Settled(pending1, cls, pending)
    ensures Resolving(cls0, rank0, cls, rank) && Settled(pending0, cls, pending)
  {
  }

  lemma NextPending(cls: Store, head: Option<nat>, pending: seq<nat>, c: nat)
    requires Waiting(cls, head, pending) && c in pending
    ensures c in cls && (cls[c].subclassList.Some? ==> cls[c].subclassList.value in pending)
  {
    var i :| 0 <= i < |pending| && pending[i] == c;
    assert WaitOk(cls, pending, i);
  }

  /** Exactly the classes that are now resolved have left the list, and apart from
      metaclasses only listed classes from `c` up have been resolved. */
  ghost predicate Drained(cls: Store, rank: map<nat, nat>, pending: seq<nat>, cls': Store, pending': seq<nat>, c: nat)
    requires Ranked(cls, rank) && c in cls
  {
    && (forall d {:trigger d in pending'} :: d in pending' <==> d in pending && d in cls' && !cls'[d].resolved)
    && (forall d {:trigger cls'[d]} :: d in cls && d in cls' && !cls[d].meta && cls'[d].resolved && !cls[d].resolved ==>
          d in pending && Desc(cls, rank, c, d))
  }

  lemma DrainedNone(cls: Store, rank: map<nat, nat>, owner: map<nat, nat>, head: Option<nat>, pending: seq<nat>,
                    kids: map<nat, seq<nat>>, detached: set<nat>, c: nat)
    requires Core(cls, rank, owner, head, pending, kids, detached)
    ensures c in cls ==> Drained(cls, rank, pending, cls, pending, c)
    ensures Resolving(cls, rank, cls, rank) && Settled(pending, cls, pending)
  {
    PendingUnresolved(cls, head, pending);
    forall d | d in cls ensures d in rank { assert SuperOk(cls, rank, d); }
  }

  lemma PendingUnresolved(cls: Store, head: Option<nat>, pending: seq<nat>)
    requires Waiting(cls, head, pending)
    ensures forall d :: d in pending ==> d in cls && !cls[d].meta && !cls[d].resolved
  {
    forall d | d in pending ensures d in cls && !cls[d].meta && !cls[d].resolved {
      var i :| 0 <= i < |pending| && pending[i] == d;
      assert WaitOk(cls, pending, i);
    }
  }

  lemma {:induction false} ListedKept(cls: Store, rank: map<nat, nat>, pending: seq<nat>, cls': Store, rank': map<nat, nat>, pending': seq<nat>,
                                      c: nat, d: nat)
    requires Ranked(cls, rank) && Ranked(cls', rank') && Resolving(cls, rank, cls', rank')
    requires c in cls && Drained(cls, rank, pending, cls', pending', c)
    requires d in cls && !cls[d].meta && Listed(cls, rank, pending, d)
    ensures Listed(cls', rank', pending', d)
    decreases if d in rank then rank[d] else 0
  {
    assert SuperOk(cls, rank, d);
    if !cls'[d].resolved && cls[d].super.Some? {
      ListedKept(cls, rank, pending, cls', rank', pending', c, cls[d].super.value);
    }
  }

  lemma DrainedOne(cls0: Store, cls1: Store, cls: Store, rank: map<nat, nat>, pending0: seq<nat>, pending: seq<nat>, c: nat)
    requires Ranked(cls0, rank) && LinksOnly(cls0, cls1) && c in cls && cls[c].resolved && cls.Keys == cls1.Keys && c in pending0
    requires forall d :: d in pending <==> d in pending0 && d != c
    requires forall d :: d in pending0 ==> d in cls0 && !cls0[d].meta && !cls0[d].resolved
    requires c in cls1 && cls1[c].isa in cls0 && cls0[cls1[c].isa].meta
    requires forall d :: d in cls && cls[d].resolved && !cls1[d].resolved ==> d == c || d == cls1[c].isa
    ensures Drained(cls0, rank, pending0, cls, pending, c)
  {
  }

  lemma DrainedTrans(cls0: Store, rank0: map<nat, nat>, pending0: seq<nat>, cls1: Store, rank1: map<nat, nat>, pending1: seq<nat>,
                     cls: Store, rank: map<nat, nat>, pending: seq<nat>, s: nat, c: nat)
    requires Ranked(cls0, rank0) && Ranked(cls1, rank1)
    requires Resolving(cls0, rank0, cls1, rank1) && Resolving(cls1, rank1, cls, rank)
    requires c in cls0 && !cls0[c].meta && s in cls0 && Desc(cls0, rank0, c, s)
    requires forall d {:trigger Desc(cls0, rank0, s, d)} :: d in cls0 && Desc(cls0, rank0, s, d) ==> Desc(cls0, rank0, c, d)
    requires Drained(cls0, rank0, pending0, cls1, pending1, s) && Drained(cls1, rank1, pending1, cls, pending, c)
    ensures Resolving(cls0, rank0, cls, rank) && Drained(cls0, rank0, pending0, cls, pending, c)
  {
    forall d | d in cls0 && !cls0[d].meta && cls[d].resolved && !cls0[d].resolved
      ensures d in pending0 && Desc(cls0, rank0, c, d)
    {
      if !cls1[d].resolved { SameAbove(cls0, rank0, cls1, rank1, c, d); }
    }
  }

  /** Resolving classes moves no class. */
  lemma SameAbove(cls: Store, rank: map<nat, nat>, cls': Store, rank': map<nat, nat>, d: nat, x: nat)
    requires Ranked(cls, rank) && Ranked(cls', rank') && Resolving(cls, rank, cls', rank') && d in cls
    requires !cls[d].meta || cls[d].resolved
    ensures Desc(cls, rank, d, x) <==> Desc(cls', rank', d, x)
  {
    forall e | e in cls && Desc(cls, rank, d, e) ensures cls'[e].super == cls[e].super { DescUp(cls, rank, d, e); }
    DescSame(cls, rank, cls', rank', d, x);
  }

  /** Setting the flags after the links gives the same store as setting them before. */
  lemma FlagsLast(cls: Store, c: nat, superMeta: nat, metaMeta: nat, cls0: Store, linked: Store, cls': Store)
    requires c in cls && superMeta in cls && cls[c].isa in cls && cls[c].isa != c && cls[c].isa != superMeta
    requires cls[c].super.Some? ==> cls[c].super.value in cls && cls[c].super.value !in {c, cls[c].isa, superMeta} && superMeta != c
    requires cls0 == cls[cls[c].isa := cls[cls[c].isa].(super := Some(superMeta), isa := metaMeta)]
    requires linked == Link(if cls[c].super.Some? then Link(cls0, c, cls[c].super.value) else cls0, cls[c].isa, superMeta)
    requires cls' == linked[c := linked[c].(resolved := true)][cls[c].isa := linked[cls[c].isa].(resolved := true)]
    ensures cls' == Attached(cls, c, superMeta, metaMeta)
  {
    var b := Attached(cls, c, superMeta, metaMeta);
    forall d | d in cls ensures cls'[d] == b[d] { }
    assert cls'.Keys == b.Keys;
  }

  lemma ResolvingAttached(cls: Store, rank: map<nat, nat>, owner: map<nat, nat>, c: nat, superMeta: nat, metaMeta: nat, rank': map<nat, nat>)
    requires Pairs(cls, owner) && Ranked(cls, rank) && c in cls && !cls[c].meta && !cls[c].resolved
    requires match cls[c].super
             case None => superMeta == c
             case Some(s) => s in cls && superMeta == cls[s].isa
    requires superMeta in rank && superMeta in cls && cls[c].isa in cls && rank' == Reranked(cls, rank, cls[c].isa, superMeta)
    ensures Resolving(cls, rank, Attached(cls, c, superMeta, metaMeta), rank')
    ensures var cls' := Attached(cls, c, superMeta, metaMeta);
            cls'[c].resolved && forall d :: d in cls' && cls'[d].resolved && !cls[d].resolved ==> d == c || d == cls[c].isa
    ensures cls[c].isa != c && cls[c].isa != superMeta
    ensures cls[c].super.Some? ==> cls[c].super.value !in {c, cls[c].isa, superMeta} && superMeta != c
  {
    assert PairOk(cls, owner, c) && SuperOk(cls, rank, c);
    assert cls[c].super.Some? ==> PairOk(cls, owner, cls[c].super.value);
    forall d | d in cls ensures d in rank && (!cls[d].meta ==> !Desc(cls, rank, d, cls[c].isa)) {
      assert SuperOk(cls, rank, d);
      if Desc(cls, rank, d, cls[c].isa) { DescUp(cls, rank, d, cls[c].isa); }
    }
  }

  /** Pushing `c` onto the front of the unresolved list. */
  function Queued(cls: Store, head: Option<nat>, c: nat): Store
    requires c in cls && (head.Some? ==> head.value in cls)
  {
    var cls1 := if head.Some? then cls[head.value := cls[head.value].(siblingClass := Some(c))] else cls;
    cls1[c := cls1[c].(subclassList := head)]
  }

  lemma QueueWaiting(cls: Store, rank: map<nat, nat>, owner: map<nat, nat>, head: Option<nat>, pending: seq<nat>, c: nat)
    requires Waiting(cls, head, pending) && Idle(cls, pending)
    requires c in cls && !cls[c].meta && !cls[c].resolved && c !in pending
    ensures head.Some? ==> head.value in cls && head.value != c
    ensures var cls' := Queued(cls, head, c);
            Waiting(cls', Some(c), [c] + pending) && Idle(cls', [c] + pending) && LinksOnly(cls, cls')
  {
    var pending' := [c] + pending;
    assert IdleOk(cls, pending, c);
    if pending != [] { assert WaitOk(cls, pending, 0); }
    var cls' := Queued(cls, head, c);
    forall d | d in cls' ensures IdleOk(cls', pending', d) { assert IdleOk(cls, pending, d); }
    forall i | 0 <= i < |pending'|
      ensures WaitOk(cls', pending', i)
    {
      if i > 0 { assert WaitOk(cls, pending, i - 1) && pending'[i] == pending[i - 1]; }
    }
  }

  /** Taking the element at `k` out of the unresolved list. */
  function Unqueued(cls: Store, c: nat): Store
    requires c in cls
    requires cls[c].siblingClass.Some? ==> cls[c].siblingClass.value in cls
    requires cls[c].subclassList.Some? ==> cls[c].subclassList.value in cls
  {
    var prev, next := cls[c].siblingClass, cls[c].subclassList;
    var cls1 := if prev.Some? then cls[prev.value := cls[prev.value].(subclassList := next)] else cls;
    var cls2 := if next.Some? then cls1[next.value := cls1[next.value].(siblingClass := prev)] else cls1;
    cls2[c := cls2[c].(siblingClass := None, subclassList := None)]
  }

  lemma UnlinkDefined(cls: Store, head: Option<nat>, pending: seq<nat>, k: nat)
    requires Waiting(cls, head, pending) && k < |pending|
    ensures var c := pending[k];
            && c in cls
            && (cls[c].siblingClass.Some? ==> cls[c].siblingClass.value in cls)
            && (cls[c].subclassList.Some? ==> cls[c].subclassList.value in cls)
            && LinksOnly(cls, Unqueued(cls, c))
  {
    assert WaitOk(cls, pending, k);
    assert k > 0 ==> WaitOk(cls, pending, k - 1);
    assert k + 1 < |pending| ==> WaitOk(cls, pending, k + 1);
  }

  lemma UnlinkedAt(cls: Store, head: Option<nat>, pending: seq<nat>, k: nat, i: nat)
    requires Waiting(cls, head, pending) && k < |pending| && i < |pending| - 1
    requires pending[k] in cls
    requires cls[pending[k]].siblingClass.Some? ==> cls[pending[k]].siblingClass.value in cls
    requires cls[pending[k]].subclassList.Some? ==> cls[pending[k]].subclassList.value in cls
    ensures var cls', pending' := Unqueued(cls, pending[k]), Removed(pending, k);
            WaitOk(cls', pending', i)
  {
    var j := if i < k then i else i + 1;
    assert WaitOk(cls, pending, k) && WaitOk(cls, pending, j);
    assert k > 0 ==> WaitOk(cls, pending, k - 1);
    assert k + 1 < |pending| ==> WaitOk(cls, pending, k + 1);
  }

  lemma UnlinkWaiting(cls: Store, head: Option<nat>, pending: seq<nat>, k: nat)
    requires Waiting(cls, head, pending) && Idle(cls, pending) && k < |pending|
    ensures var c := pending[k];
            && c in cls
            && (cls[c].siblingClass.Some? ==> cls[c].siblingClass.value in cls)
            && (cls[c].subclassList.Some? ==> cls[c].subclassList.value in cls)
            && (cls[c].siblingClass == None <==> k == 0)
            && var cls', pending' := Unqueued(cls, c), Removed(pending, k);
               && Waiting(cls', if k == 0 then cls[c].subclassList else head, pending')
               && Idle(cls', pending') && LinksOnly(cls, cls')
  {
    UnlinkDefined(cls, head, pending, k);
    var c := pending[k];
    assert WaitOk(cls, pending, k);
    var cls', pending' := Unqueued(cls, c), Removed(pending, k);
    forall i | 0 <= i < |pending'|
      ensures WaitOk(cls', pending', i)
    {
      UnlinkedAt(cls, head, pending, k, i);
    }
    forall d | d in cls' ensures IdleOk(cls', pending', d) {
      assert IdleOk(cls, pending, d);
      if d in pending {
        RemovedMembers(pending, k);
      } else {
        assert k > 0 ==> pending[k - 1] in pending;
        assert k + 1 < |pending| ==> pending[k + 1] in pending;
      }
    }
  }

  function HeadAfter(cls: Store, head: Option<nat>, c: nat): Option<nat>
    requires c in cls
  {
    if cls[c].siblingClass.None? then cls[c].subclassList else head
  }

  /** Resolving a class that is not on the list assigns its empty links to the head.
      The list survives exactly when the class is on it or it is empty. */
  lemma UnlinkExact(cls: Store, head: Option<nat>, pending: seq<nat>, c: nat)
    requires Waiting(cls, head, pending) && Idle(cls, pending)
    requires c in cls && !cls[c].meta && !cls[c].resolved
    requires cls[c].siblingClass.Some? ==> cls[c].siblingClass.value in cls
    requires cls[c].subclassList.Some? ==> cls[c].subclassList.value in cls
    ensures (c in pending || pending == []) <==>
            exists rest :: Waiting(Unqueued(cls, c), HeadAfter(cls, head, c), rest)
                           && forall d :: d in rest <==> d in pending && d != c
  {
    assert IdleOk(cls, pending, c);
    var cls', head' := Unqueued(cls, c), HeadAfter(cls, head, c);
    if c in pending {
      var k :| 0 <= k < |pending| && pending[k] == c;
      UnlinkWaiting(cls, head, pending, k);
      RemovedMembers(pending, k);
      var rest := Removed(pending, k);
      assert Waiting(cls', head', rest);
    } else if pending == [] {
      var rest: seq<nat> := [];
      assert Waiting(cls', head', rest);
    } else if rest :| Waiting(cls', head', rest) && forall d :: d in rest <==> d in pending && d != c {
      assert rest == [];
      assert pending[0] in rest;
    }
  }
}
